/**
 * The std::string searches the OSM line parser of src/osm_parser.cpp is
 * built from: `find` of a pattern from a position, and the tag value cut
 * out between `v="` and the next double quote.
 */
module OsmText {
  import opened Wrappers

  /** `pat` occurs in `s` at position i. */
  predicate At(s: string, pat: string, i: nat)
  {
    i + |pat| <= |s| && s[i..i + |pat|] == pat
  }

  /** std::string::find(pat, from): the first occurrence at or after `from`, none (npos) if there is none. */
  function FindFrom(s: string, pat: string, from: nat): (r: Option<nat>)
    ensures r.Some? ==> from <= r.value && At(s, pat, r.value)
    ensures r.Some? ==> forall i | from <= i < r.value :: !At(s, pat, i)
    ensures r.None? ==> forall i | from <= i :: !At(s, pat, i)
    decreases |s| - from
  {
    if from + |pat| > |s| then None
    else if s[from..from + |pat|] == pat then Some(from)
    else FindFrom(s, pat, from + 1)
  }

  function Find(s: string, pat: string): Option<nat>
  {
    FindFrom(s, pat, 0)
  }

  /** `line.find(pat) != npos`. */
  predicate Contains(s: string, pat: string)
  {
    Find(s, pat).Some?
  }

  /** A pattern found anywhere makes Contains hold, and Find then reports the first place. */
  lemma ContainsAt(s: string, pat: string, i: nat)
    requires At(s, pat, i)
    ensures Contains(s, pat) && Find(s, pat).value <= i
  {
  }

  const ValueOpen: string := "v=\""
  const Quote: string := "\""

  /**
   * The tag value (src/osm_parser.cpp:79-85): the text after the first
   * `v="` up to the next double quote; none when either is missing.
   */
  function TagValue(line: string): (r: Option<string>)
    ensures r.Some? ==> '"' !in r.value
    ensures r.Some? ==> Contains(line, ValueOpen + r.value + Quote)
    ensures r.Some? ==> Contains(line, ValueOpen) && At(line, ValueOpen + r.value + Quote, Find(line, ValueOpen).value)
    ensures r.None? ==> !Contains(line, ValueOpen) || forall i | Find(line, ValueOpen).value + 3 <= i :: !At(line, Quote, i)
  {
    match Find(line, ValueOpen)
    case None => None
    case Some(p) =>
      match FindFrom(line, Quote, p + 3)
      case None => None
      case Some(q) =>
        var v := line[p + 3..q];
        TagValueWitness(line, p, q);
        Some(v)
  }

  /** The value and its delimiters sit at p, as one occurrence of `v="value"`. */
  lemma TagValueWitness(line: string, p: nat, q: nat)
    requires At(line, ValueOpen, p) && p + 3 <= q && At(line, Quote, q)
    requires forall i | p + 3 <= i < q :: !At(line, Quote, i)
    ensures '"' !in line[p + 3..q]
    ensures Contains(line, ValueOpen + line[p + 3..q] + Quote)
    ensures At(line, ValueOpen + line[p + 3..q] + Quote, p)
  {
    var v := line[p + 3..q];
    forall i | 0 <= i < |v|
      ensures v[i] != '"'
    {
      assert !At(line, Quote, p + 3 + i);
      assert line[p + 3 + i..p + 3 + i + 1] == [v[i]];
    }
    var pat := ValueOpen + v + Quote;
    assert line[p..q + 1] == line[p..p + 3] + line[p + 3..q] + line[q..q + 1];
    assert At(line, pat, p);
    ContainsAt(line, pat, p);
  }

  /** With two values on one line, the first one is read. */
  lemma TagValueTakesFirst()
    ensures TagValue("v=\"a\" v=\"b\"") == Some("a")
  {
    var line := "v=\"a\" v=\"b\"";
    assert line[0..3] == ValueOpen;
    assert FindFrom(line, ValueOpen, 0) == Some(0);
    assert line[3..4] == ['a'] != Quote;
    assert line[4..5] == Quote;
    assert FindFrom(line, Quote, 3) == Some(4);
    assert line[3..4] == "a";
  }
}
