/** String helpers with the meaning of the Python built-ins the document sorter
    relies on: str.isspace, str.lower (ASCII letters only), str.replace of one
    character, str.strip, the `in` substring test, str.endswith and str.join. */
module Text {

  /** The characters Python's str.isspace() accepts, and so the ones str.strip()
      removes when called without arguments. */
  predicate IsSpace(c: char) {
    || c == ' '
    || ('\U{9}' <= c <= '\U{D}')
    || ('\U{1C}' <= c <= '\U{1F}')
    || c == '\U{85}' || c == '\U{A0}' || c == '\U{1680}'
    || ('\U{2000}' <= c <= '\U{200A}')
    || c == '\U{2028}' || c == '\U{2029}' || c == '\U{202F}' || c == '\U{205F}'
    || c == '\U{3000}'
  }

  predicate IsUpper(c: char) { 'A' <= c <= 'Z' }

  predicate IsLower(c: char) { 'a' <= c <= 'z' }

  function LowerChar(c: char): char {
    if IsUpper(c) then (c as int + 32) as char else c
  }

  function UpperChar(c: char): char {
    if IsLower(c) then (c as int - 32) as char else c
  }

  function NewlineToSpace(c: char): char {
    if c == '\n' then ' ' else c
  }

  /** Applies a character map position by position. */
  function MapChars(f: char -> char, s: string): string {
    seq(|s|, i requires 0 <= i < |s| => f(s[i]))
  }

  /** str.lower(), restricted to the ASCII letters. */
  function Lower(s: string): string { MapChars(LowerChar, s) }

  /** str.upper(), restricted to the ASCII letters. */
  function Upper(s: string): string { MapChars(UpperChar, s) }

  /** s.replace("\n", " ") */
  function NewlinesToSpaces(s: string): string { MapChars(NewlineToSpace, s) }

  /** Lowering forgets the case a string was written in. */
  lemma LowerUpperChar(c: char)
    ensures LowerChar(UpperChar(c)) == LowerChar(c)
  {
    if IsLower(c) {
      var u := (c as int - 32) as char;
      assert u as int == c as int - 32;
      assert IsUpper(u);
    }
  }

  lemma LowerUpper(s: string)
    ensures Lower(Upper(s)) == Lower(s)
  {
    forall i | 0 <= i < |s|
      ensures Lower(Upper(s))[i] == Lower(s)[i]
    {
      assert Upper(s)[i] == UpperChar(s[i]);
      LowerUpperChar(s[i]);
    }
  }

  lemma LowerCharIdempotent(c: char)
    ensures LowerChar(LowerChar(c)) == LowerChar(c)
  {
    if IsUpper(c) {
      var l := (c as int + 32) as char;
      assert l as int == c as int + 32;
      assert !IsUpper(l);
    }
  }

  lemma LowerIdempotent(s: string)
    ensures Lower(Lower(s)) == Lower(s)
  {
    forall i | 0 <= i < |s|
      ensures Lower(Lower(s))[i] == Lower(s)[i]
    {
      assert Lower(s)[i] == LowerChar(s[i]);
      LowerCharIdempotent(s[i]);
    }
  }

  // ---------------------------------------------------------------------------
  // Substring search (Python's `sub in s`)

  /** `sub in s`, searched from the left as CPython does. */
  predicate Contains(s: string, sub: string)
    decreases |s|
  {
    sub <= s || (s != [] && Contains(s[1..], sub))
  }

  /** sub occurs in s starting at index i. */
  ghost predicate OccursAt(s: string, sub: string, i: int) {
    0 <= i && i + |sub| <= |s| && s[i..i + |sub|] == sub
  }

  lemma OccursAtStart(s: string, sub: string)
    ensures OccursAt(s, sub, 0) <==> sub <= s
  {
    if |sub| <= |s| {
      assert s[0..|sub|] == s[..|sub|];
    }
  }

  lemma OccursAtTail(s: string, sub: string, i: int)
    requires s != [] && 0 <= i
    ensures OccursAt(s[1..], sub, i) <==> OccursAt(s, sub, i + 1)
  {
    if 0 <= i && i + |sub| <= |s| - 1 {
      assert s[1..][i..i + |sub|] == s[i + 1..i + 1 + |sub|];
    }
  }

  /** The recursive search finds sub exactly when sub occurs at some index. */
  lemma {:induction false} ContainsIff(s: string, sub: string)
    ensures Contains(s, sub) <==> exists i :: OccursAt(s, sub, i)
    decreases |s|
  {
    OccursAtStart(s, sub);
    if sub <= s {
      assert OccursAt(s, sub, 0);
    } else if s == [] {
    } else {
      ContainsIff(s[1..], sub);
      if Contains(s[1..], sub) {
        var i :| OccursAt(s[1..], sub, i);
        OccursAtTail(s, sub, i);
      }
      if exists i :: OccursAt(s, sub, i) {
        var i :| OccursAt(s, sub, i);
        assert i != 0;
        OccursAtTail(s, sub, i - 1);
      }
    }
  }

  /** A character map carries every occurrence of sub over to the mapped strings. */
  lemma ContainsMapped(f: char -> char, s: string, sub: string)
    requires Contains(s, sub)
    ensures Contains(MapChars(f, s), MapChars(f, sub))
  {
    ContainsIff(s, sub);
    var i :| OccursAt(s, sub, i);
    var ms, msub := MapChars(f, s), MapChars(f, sub);
    assert ms[i..i + |sub|] == msub;
    assert OccursAt(ms, msub, i);
    ContainsIff(ms, msub);
  }

  // ---------------------------------------------------------------------------
  // Stripping (Python's str.strip())

  /** The number of whitespace characters s starts with. */
  function LeadingSpaces(s: string): (n: nat)
    ensures n <= |s|
    ensures forall k :: 0 <= k < n ==> IsSpace(s[k])
    ensures n < |s| ==> !IsSpace(s[n])
    decreases |s|
  {
    if s != [] && IsSpace(s[0]) then 1 + LeadingSpaces(s[1..]) else 0
  }

  /** The number of whitespace characters s ends with. */
  function TrailingSpaces(s: string): (n: nat)
    ensures n <= |s|
    ensures forall k :: |s| - n <= k < |s| ==> IsSpace(s[k])
    ensures n < |s| ==> !IsSpace(s[|s| - 1 - n])
    decreases |s|
  {
    if s != [] && IsSpace(s[|s| - 1]) then 1 + TrailingSpaces(s[..|s| - 1]) else 0
  }

  /** The characters of s from index i up to j, where all that lies outside is whitespace. */
  ghost predicate IsStripOf(s: string, r: string, i: int, j: int) {
    && 0 <= i <= j <= |s|
    && r == s[i..j]
    && (forall k :: 0 <= k < i ==> IsSpace(s[k]))
    && (forall k :: j <= k < |s| ==> IsSpace(s[k]))
  }

  /** No whitespace at either end. */
  predicate IsTrimmed(s: string) {
    s == [] || (!IsSpace(s[0]) && !IsSpace(s[|s| - 1]))
  }

  /** str.strip(): s with its leading and trailing whitespace removed. */
  function Strip(s: string): (r: string)
    ensures IsTrimmed(r)
    ensures exists i, j :: IsStripOf(s, r, i, j)
  {
    var i := LeadingSpaces(s);
    var t := s[i..];
    var n := TrailingSpaces(t);
    assert IsStripOf(s, t[..|t| - n], i, i + |t| - n);
    t[..|t| - n]
  }

  /** A string without whitespace at either end is its own strip. */
  lemma StripTrimmed(s: string)
    requires IsTrimmed(s)
    ensures Strip(s) == s
  {
  }

  lemma StripIdempotent(s: string)
    ensures Strip(Strip(s)) == Strip(s)
  {
    StripTrimmed(Strip(s));
  }

  /** A string of whitespace only strips to the empty string. */
  lemma StripAllSpace(s: string)
    requires forall k :: 0 <= k < |s| ==> IsSpace(s[k])
    ensures Strip(s) == ""
  {
    assert LeadingSpaces(s) == |s|;
  }

  /** Stripping never cuts into an occurrence that starts and ends with a
      non-whitespace character. */
  lemma StripKeepsOccurrence(s: string, sub: string)
    requires sub != [] && !IsSpace(sub[0]) && !IsSpace(sub[|sub| - 1])
    requires Contains(s, sub)
    ensures Contains(Strip(s), sub)
  {
    ContainsIff(s, sub);
    var p :| OccursAt(s, sub, p);
    var r := Strip(s);
    var i, j :| IsStripOf(s, r, i, j);
    SliceKeepsOccurrence(s, r, sub, p, i, j);
    ContainsIff(r, sub);
  }

  lemma SliceKeepsOccurrence(s: string, r: string, sub: string, p: int, i: int, j: int)
    requires sub != [] && !IsSpace(sub[0]) && !IsSpace(sub[|sub| - 1])
    requires OccursAt(s, sub, p)
    requires IsStripOf(s, r, i, j)
    ensures OccursAt(r, sub, p - i)
  {
    assert s[p] == sub[0];
    assert s[p + |sub| - 1] == sub[|sub| - 1];
    assert i <= p;
    assert p + |sub| <= j;
    forall k | 0 <= k < |sub|
      ensures r[p - i + k] == sub[k]
    {
      assert r[p - i + k] == s[p + k];
      assert s[p..p + |sub|][k] == s[p + k];
    }
    assert r[p - i..p - i + |sub|] == sub;
  }

  // ---------------------------------------------------------------------------
  // Suffixes and joining

  /** str.endswith(suffix) */
  predicate EndsWith(s: string, suffix: string) {
    |suffix| <= |s| && s[|s| - |suffix|..] == suffix
  }

  /** Two suffixes that differ at the same distance from the end cannot both end s. */
  lemma EndsWithBoth(s: string, a: string, b: string, k: nat)
    requires EndsWith(s, a) && EndsWith(s, b)
    requires k < |a| && k < |b|
    ensures a[|a| - 1 - k] == b[|b| - 1 - k]
  {
    assert a[|a| - 1 - k] == s[|s| - 1 - k];
    assert b[|b| - 1 - k] == s[|s| - 1 - k];
  }

  /** sep.join(parts) */
  function Join(parts: seq<string>, sep: string): string {
    if |parts| == 0 then ""
    else if |parts| == 1 then parts[0]
    else parts[0] + sep + Join(parts[1..], sep)
  }

  /** With a non-empty separator the join is empty only for no parts or one empty part. */
  lemma JoinEmpty(parts: seq<string>, sep: string)
    requires sep != ""
    ensures Join(parts, sep) == "" <==> (parts == [] || parts == [""])
  {
  }

  /** Every character of the join comes from a part or from the separator. */
  lemma {:induction false} JoinAllSpace(parts: seq<string>, sep: string)
    requires forall k :: 0 <= k < |sep| ==> IsSpace(sep[k])
    requires forall p, k :: p in parts && 0 <= k < |p| ==> IsSpace(p[k])
    ensures forall k :: 0 <= k < |Join(parts, sep)| ==> IsSpace(Join(parts, sep)[k])
  {
    if |parts| > 1 {
      JoinAllSpace(parts[1..], sep);
      var rest := Join(parts[1..], sep);
      var r := parts[0] + sep + rest;
      forall k | 0 <= k < |r| ensures IsSpace(r[k]) {
        if k < |parts[0]| {
          assert r[k] == parts[0][k];
        } else if k < |parts[0]| + |sep| {
          assert r[k] == sep[k - |parts[0]|];
        } else {
          assert r[k] == rest[k - |parts[0]| - |sep|];
        }
      }
    }
  }

  // ---------------------------------------------------------------------------
  // Sequences without repetitions (what list(a_set) yields)

  predicate Distinct<T(==)>(xs: seq<T>) {
    forall i, j :: 0 <= i < j < |xs| ==> xs[i] != xs[j]
  }

  lemma DistinctPrefix<T>(xs: seq<T>, i: nat)
    requires Distinct(xs) && i < |xs|
    ensures xs[i] !in xs[..i]
  {
  }

  /** list(s): the members of a set in some order, each once. */
  method ListOf<T(==)>(s: set<T>) returns (xs: seq<T>)
    ensures Distinct(xs)
    ensures forall x :: x in xs <==> x in s
    ensures |xs| == |s|
  {
    xs := [];
    var rest := s;
    while rest != {}
      invariant Distinct(xs)
      invariant forall x :: x in xs <==> x in s && x !in rest
      invariant rest <= s
      invariant |xs| + |rest| == |s|
      decreases |rest|
    {
      var x :| x in rest;
      xs := xs + [x];
      rest := rest - {x};
    }
  }
}
