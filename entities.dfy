/** Dates and person names found in a document's text. The named-entity
    recogniser and the regular-expression engine are inputs; what is modelled is
    how their outputs are filtered and combined. */
module Entities {
  import opened Text

  /** A recognised span of text and its entity label ("PERSON", "DATE", ...). */
  datatype Entity = Entity(text: string, tag: string)

  /** The named-entity recogniser: a text's entities in detection order. */
  type Recognizer = string -> seq<Entity>

  /** The regular-expression engine: all matches of a pattern in a text, in order. */
  type Finder = (string, string) -> seq<string>

  /** The four date grammars: day/month/year with '/' or '-', year first, an
      abbreviated month name first, and a full month name in the middle. */
  const DatePatterns: seq<string> := [
    @"\b\d{1,2}[/-]\d{1,2}[/-]\d{2,4}\b",
    @"\b\d{4}[/-]\d{1,2}[/-]\d{1,2}\b",
    @"\b(?:Jan|Feb|Mar|Apr|May|Jun|Jul|Aug|Sep|Oct|Nov|Dec)[a-z]* \d{1,2}, \d{4}\b",
    @"\b\d{1,2} (?:January|February|March|April|May|June|July|August|September|October|November|December) \d{4}\b"
  ]

  /** Shorter DATE entities ("Jan", "today") are not kept. */
  predicate IsLongDate(e: Entity) {
    e.tag == "DATE" && |e.text| > 5
  }

  /** The texts of the PERSON entities, in detection order, repeats kept. */
  function PersonNames(ents: seq<Entity>): (names: seq<string>)
    ensures |names| <= |ents|
    ensures forall n :: n in names <==> exists e :: e in ents && e.tag == "PERSON" && e.text == n
  {
    if ents == [] then []
    else
      assert forall e :: e in ents <==> e == ents[0] || e in ents[1..];
      (if ents[0].tag == "PERSON" then [ents[0].text] else []) + PersonNames(ents[1..])
  }

  /** Names of consecutive stretches of entities follow one another. */
  lemma {:induction false} PersonNamesAppend(a: seq<Entity>, b: seq<Entity>)
    ensures PersonNames(a + b) == PersonNames(a) + PersonNames(b)
  {
    if a == [] {
      assert a + b == b;
    } else {
      assert (a + b)[1..] == a[1..] + b;
      PersonNamesAppend(a[1..], b);
    }
  }

  /** The texts of the long DATE entities. */
  function EntityDates(ents: seq<Entity>): (dates: set<string>)
    ensures forall d :: d in dates <==> exists e :: e in ents && IsLongDate(e) && e.text == d
  {
    if ents == [] then {}
    else
      var init := ents[..|ents| - 1];
      var last := ents[|ents| - 1];
      assert forall e :: e in ents <==> e == last || e in init;
      EntityDates(init) + (if IsLongDate(last) then {last.text} else {})
  }

  /** Every match of every given pattern in the text. */
  function MatchedDates(text: string, patterns: seq<string>, find: Finder): (dates: set<string>)
    ensures forall d :: d in dates <==> exists p :: p in patterns && d in find(p, text)
  {
    if patterns == [] then {}
    else
      var init := patterns[..|patterns| - 1];
      var last := patterns[|patterns| - 1];
      assert forall p :: p in patterns <==> p == last || p in init;
      MatchedDates(text, init, find) + (set m | m in find(last, text))
  }

  /** The dates of a text: long DATE entities together with every pattern match. */
  function DateSet(text: string, ents: seq<Entity>, find: Finder): set<string> {
    EntityDates(ents) + MatchedDates(text, DatePatterns, find)
  }

  /** A date is in the set exactly when it is the text of a long DATE entity or
      a match of one of the patterns; so every match is kept, and a date of five
      characters or fewer is kept only when some pattern matched it. */
  lemma DateSetMembers(text: string, ents: seq<Entity>, find: Finder)
    ensures forall d :: d in DateSet(text, ents, find) <==>
      || (exists e :: e in ents && IsLongDate(e) && e.text == d)
      || (exists p :: p in DatePatterns && d in find(p, text))
    ensures forall p, m :: p in DatePatterns && m in find(p, text) ==> m in DateSet(text, ents, find)
    ensures forall d :: d in DateSet(text, ents, find) && |d| <= 5 ==>
      exists p :: p in DatePatterns && d in find(p, text)
  {
  }

  /** Runs the recogniser over the text, keeps the person names, collects the
      long DATE entities and then every match of the four date patterns into one
      set, and lists that set, each date once. */
  method ExtractDatesAndNames(text: string, recognize: Recognizer, find: Finder)
    returns (dates: seq<string>, names: seq<string>)
    ensures names == PersonNames(recognize(text))
    ensures Distinct(dates)
    ensures forall d :: d in dates <==> d in DateSet(text, recognize(text), find)
  {
    var ents := recognize(text);
    names := PersonNames(ents);
    var extracted := CollectEntityDates(ents);
    extracted := CollectMatches(text, DatePatterns, find, extracted);
    dates := ListOf(extracted);
  }

  /** The texts of the long DATE entities, gathered one entity at a time. */
  method CollectEntityDates(ents: seq<Entity>) returns (extracted: set<string>)
    ensures extracted == EntityDates(ents)
  {
    extracted := {};
    for i := 0 to |ents|
      invariant extracted == EntityDates(ents[..i])
    {
      assert ents[..i + 1][..i] == ents[..i];
      if ents[i].tag == "DATE" && |ents[i].text| > 5 {
        extracted := extracted + {ents[i].text};
      }
    }
    assert ents[..|ents|] == ents;
  }

  /** Adds every match of every pattern, one pattern at a time. */
  method CollectMatches(text: string, patterns: seq<string>, find: Finder, found: set<string>)
    returns (extracted: set<string>)
    ensures extracted == found + MatchedDates(text, patterns, find)
  {
    extracted := found;
    for p := 0 to |patterns|
      invariant extracted == found + MatchedDates(text, patterns[..p], find)
    {
      assert patterns[..p + 1][..p] == patterns[..p];
      extracted := extracted + set m | m in find(patterns[p], text);
    }
    assert patterns[..|patterns|] == patterns;
  }
}
