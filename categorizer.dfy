/** The layered category decision of the document sorter: normalise the text,
    try the resume rule, then the certificate rule with its "certifications"
    exception, and only when both fail ask a zero-shot ranking service. */
module Categorizer {
  import opened Text

  const ResumeKeywords: seq<string> :=
    ["education", "work experience", "skills", "references", "career highlights"]

  const CertificateKeywords: seq<string> :=
    ["this is to certify", "certificate of completion", "has successfully completed", "awarded", "achievement"]

  /** The candidate labels handed to the ranking service, in this order. */
  const Candidates: seq<string> :=
    ["invoice", "business report", "personal letter", "legal document", "job application", "certificate"]

  /** Every category a document can be given. */
  const Categories: set<string> := {"resume"} + set c | c in Candidates

  /** The zero-shot ranking service: given a text and the candidate labels, the
      labels ordered by descending confidence. */
  type Ranker = (string, seq<string>) -> seq<string>

  /** The category decision, or the failure to take the top label of an empty
      ranking (an IndexError in the source, which nothing catches). */
  datatype Decision = Category(name: string) | NoLabel

  /** Newlines become spaces, letters are lowered, the ends are stripped. */
  function Preprocess(text: string): (r: string)
    ensures '\n' !in r
    ensures forall k :: 0 <= k < |r| ==> !IsUpper(r[k])
    ensures IsTrimmed(r)
  {
    NormalisedShape(text);
    Strip(Lower(NewlinesToSpaces(text)))
  }

  /** Stripping keeps a slice of the lowered, newline-free text. */
  lemma NormalisedShape(text: string)
    ensures '\n' !in Strip(Lower(NewlinesToSpaces(text)))
    ensures forall k :: 0 <= k < |Strip(Lower(NewlinesToSpaces(text)))| ==>
      !IsUpper(Strip(Lower(NewlinesToSpaces(text)))[k])
  {
    var lowered := Lower(NewlinesToSpaces(text));
    var r := Strip(lowered);
    var i, j :| IsStripOf(lowered, r, i, j);
    assert forall k :: 0 <= k < |r| ==> r[k] == lowered[i + k];
    LoweredShape(text);
  }

  lemma LoweredShape(text: string)
    ensures forall k :: 0 <= k < |text| ==>
      Lower(NewlinesToSpaces(text))[k] != '\n' && !IsUpper(Lower(NewlinesToSpaces(text))[k])
  {
    forall k | 0 <= k < |text|
      ensures Lower(NewlinesToSpaces(text))[k] != '\n' && !IsUpper(Lower(NewlinesToSpaces(text))[k])
    {
      var c := NewlinesToSpaces(text)[k];
      assert c == NewlineToSpace(text[k]);
      assert Lower(NewlinesToSpaces(text))[k] == LowerChar(c);
      if IsUpper(c) {
        var l := (c as int + 32) as char;
        assert l as int == c as int + 32;
      }
    }
  }

  /** Normalising normalised text changes nothing. */
  lemma {:induction false} PreprocessIdempotent(text: string)
    ensures Preprocess(Preprocess(text)) == Preprocess(text)
  {
    var p := Preprocess(text);
    forall k | 0 <= k < |p| ensures NewlinesToSpaces(p)[k] == p[k] && Lower(p)[k] == p[k] {
      assert p[k] in p;
      assert NewlinesToSpaces(p)[k] == NewlineToSpace(p[k]);
      assert Lower(p)[k] == LowerChar(p[k]);
    }
    assert NewlinesToSpaces(p) == p;
    assert Lower(p) == p;
    StripTrimmed(p);
  }

  predicate IsResume(text: string) {
    exists k :: k in ResumeKeywords && Contains(text, k)
  }

  predicate IsCertificate(text: string) {
    if exists k :: k in CertificateKeywords && Contains(text, k) then
      if Contains(text, "certifications") && !Contains(text, "certificate of completion") then
        false
      else
        true
    else
      false
  }

  function Categorize(text: string, rank: Ranker): Decision {
    var t := Preprocess(text);
    if IsResume(t) then Category("resume")
    else if IsCertificate(t) then Category("certificate")
    else
      var labels := rank(t, Candidates);
      if labels == [] then NoLabel else Category(labels[0])
  }

  /** The certificate rule in terms of where keywords occur: some certificate
      keyword occurs at some index, and it is not the case that "certifications"
      occurs somewhere while "certificate of completion" occurs nowhere. */
  lemma CertificateIff(text: string)
    ensures IsCertificate(text) <==>
      && (exists k, i :: k in CertificateKeywords && OccursAt(text, k, i))
      && !(  (exists i :: OccursAt(text, "certifications", i))
          && !(exists i :: OccursAt(text, "certificate of completion", i)))
  {
    forall k | k in CertificateKeywords {
      ContainsIff(text, k);
    }
    ContainsIff(text, "certifications");
    ContainsIff(text, "certificate of completion");
  }

  /** An occurrence in the lowered text with newlines as spaces survives
      normalisation, for any keyword that starts and ends with a letter. */
  lemma KeywordSurvivesPreprocess(text: string, k: string)
    requires k != [] && !IsSpace(k[0]) && !IsSpace(k[|k| - 1])
    requires Contains(Lower(NewlinesToSpaces(text)), k)
    ensures Contains(Preprocess(text), k)
  {
    StripKeepsOccurrence(Lower(NewlinesToSpaces(text)), k);
  }

  /** A resume keyword anywhere in the text, in any letter case and with any
      newlines read as spaces, makes the document a resume, whatever the ranking
      service would say and whatever certificate keywords the text also holds. */
  lemma ResumeKeywordDecides(text: string, k: string, rank: Ranker)
    requires k in ResumeKeywords
    requires Contains(Lower(NewlinesToSpaces(text)), k)
    ensures Categorize(text, rank) == Category("resume")
  {
    KeywordSurvivesPreprocess(text, k);
  }

  /** "certificate of completion" makes a certificate unless a resume keyword is present. */
  lemma CompletionDecidesCertificate(text: string, rank: Ranker)
    requires Contains(Lower(NewlinesToSpaces(text)), "certificate of completion")
    requires !IsResume(Preprocess(text))
    ensures Categorize(text, rank) == Category("certificate")
  {
    KeywordSurvivesPreprocess(text, "certificate of completion");
    assert "certificate of completion" in CertificateKeywords;
  }

  /** The "certifications" exception: such a text never takes the certificate
      rule, so its category is whatever the ranking service puts first. */
  lemma CertificationsFallsThrough(text: string, rank: Ranker)
    requires Contains(Preprocess(text), "certifications")
    requires !Contains(Preprocess(text), "certificate of completion")
    requires !IsResume(Preprocess(text))
    ensures !IsCertificate(Preprocess(text))
    ensures rank(Preprocess(text), Candidates) != [] ==>
      Categorize(text, rank) == Category(rank(Preprocess(text), Candidates)[0])
  {
  }

  /** The ranking service can only matter when both rules fail. */
  lemma RulesShortCircuit(text: string, rank1: Ranker, rank2: Ranker)
    requires Categorize(text, rank1) != Categorize(text, rank2)
    ensures !IsResume(Preprocess(text)) && !IsCertificate(Preprocess(text))
    ensures rank1(Preprocess(text), Candidates) != rank2(Preprocess(text), Candidates)
  {
  }

  /** No category is decided exactly when both rules fail and the ranking is empty. */
  lemma NoLabelIff(text: string, rank: Ranker)
    ensures Categorize(text, rank) == NoLabel <==>
      !IsResume(Preprocess(text)) && !IsCertificate(Preprocess(text)) && rank(Preprocess(text), Candidates) == []
  {
  }

  /** If the ranking service returns a permutation of the candidates, every
      document gets one of the seven categories, and one of the six candidates
      unless the resume rule fired. */
  lemma CategoryIsKnown(text: string, rank: Ranker)
    requires multiset(rank(Preprocess(text), Candidates)) == multiset(Candidates)
    ensures Categorize(text, rank).Category?
    ensures Categorize(text, rank).name in Categories
    ensures !IsResume(Preprocess(text)) ==> Categorize(text, rank).name in Candidates
  {
    var t := Preprocess(text);
    var labels := rank(t, Candidates);
    if !IsResume(t) && !IsCertificate(t) {
      assert |labels| == |multiset(labels)| == |Candidates|;
      assert labels[0] in multiset(labels);
    }
  }
}
