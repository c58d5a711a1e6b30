/**
 * The section extraction of the curricular-structure processor: `re.search`
 * of `Marker.*?(?=T1|T2|...)`, case-insensitive, with `.` matching newlines,
 * where the look-ahead may also accept the end of the text (`\Z`). The
 * match is the first occurrence of the marker followed by everything up to
 * the earliest place at or after the marker's end where the look-ahead holds.
 */
module Sections {
  import opened Text

  /** One alternative of the look-ahead. */
  datatype Terminator =
    | Phrase(text: string)           // the literal, in any case
    | PhraseThenDigits(text: string) // the literal followed by `\d+`

  predicate TerminatorAt(s: string, e: nat, t: Terminator) {
    match t
    case Phrase(x) => OccursAt(s, x, e, Insensitive)
    case PhraseThenDigits(x) => OccursAt(s, x, e, Insensitive) && e + |x| < |s| && IsDigit(s[e + |x|])
  }

  /** `marker.*?(?=ends[0]|ends[1]|...)`, with `|\Z` added when `orEnd` holds. */
  datatype SectionPattern = SectionPattern(marker: string, ends: seq<Terminator>, orEnd: bool)

  /** Some terminator starts at `e`. */
  predicate EndsAt(s: string, e: nat, ends: seq<Terminator>) {
    exists k :: 0 <= k < |ends| && TerminatorAt(s, e, ends[k])
  }

  /** The look-ahead succeeds at `e`. */
  predicate StopsAt(s: string, e: nat, p: SectionPattern) {
    EndsAt(s, e, p.ends) || (p.orEnd && e == |s|)
  }

  /** The lazy `.*?` stops at the first position from `e` on where the look-ahead succeeds. */
  function FirstStop(s: string, e: nat, p: SectionPattern): (r: Option<nat>)
    requires e <= |s|
    decreases |s| - e
    ensures r.Some? ==> e <= r.value <= |s| && StopsAt(s, r.value, p)
    ensures forall j :: e <= j <= |s| && (r.None? || j < r.value) ==> !StopsAt(s, j, p)
  {
    if StopsAt(s, e, p) then Some(e)
    else if e == |s| then None
    else FirstStop(s, e + 1, p)
  }

  /**
   * The span of the match. Only the first occurrence of the marker can
   * start one: a later start would see a subset of the same stopping places.
   */
  function SectionSpan(s: string, p: SectionPattern): Option<(nat, nat)> {
    match Find(s, p.marker, 0, Insensitive)
    case None => None
    case Some(m) =>
      match FirstStop(s, m + |p.marker|, p)
      case None => None
      case Some(e) => Some((m, e))
  }

  /** The span is the first occurrence of the marker, up to the first stopping place after it. */
  lemma SectionSpanShape(s: string, p: SectionPattern)
    ensures var r := SectionSpan(s, p);
      r.Some? ==>
      && r.value.0 + |p.marker| <= r.value.1 <= |s|
      && OccursAt(s, p.marker, r.value.0, Insensitive)
      && (forall j: nat :: j < r.value.0 ==> !OccursAt(s, p.marker, j, Insensitive))
      && StopsAt(s, r.value.1, p)
      && (forall j :: r.value.0 + |p.marker| <= j < r.value.1 ==> !StopsAt(s, j, p))
  {
  }

  /** `group(0)` of the search: the marker and the text after it, up to the stop. */
  function Section(s: string, p: SectionPattern): Option<string> {
    match SectionSpan(s, p)
    case None => None
    case Some((m, e)) =>
      SectionSpanShape(s, p);
      Some(s[m..e])
  }

  /** A section is found exactly when some occurrence of the marker is followed by a stopping place. */
  lemma SectionFound(s: string, p: SectionPattern)
    ensures SectionSpan(s, p).Some? <==>
      exists m: nat, e: nat :: m + |p.marker| <= e <= |s| && OccursAt(s, p.marker, m, Insensitive) && StopsAt(s, e, p)
  {
    if exists m: nat, e: nat :: m + |p.marker| <= e <= |s| && OccursAt(s, p.marker, m, Insensitive) && StopsAt(s, e, p) {
      var m: nat, e: nat :| m + |p.marker| <= e <= |s| && OccursAt(s, p.marker, m, Insensitive) && StopsAt(s, e, p);
      var m0 := Find(s, p.marker, 0, Insensitive);
      assert m0.Some? && m0.value <= m;
      assert FirstStop(s, m0.value + |p.marker|, p).Some?;
    }
  }

  /** With `\Z` among the alternatives, the section is there whenever the marker is. */
  lemma SectionFoundAtEnd(s: string, p: SectionPattern)
    requires p.orEnd
    ensures SectionSpan(s, p).Some? <==> exists m: nat :: OccursAt(s, p.marker, m, Insensitive)
  {
    SectionFound(s, p);
    if exists m: nat :: OccursAt(s, p.marker, m, Insensitive) {
      var m: nat :| OccursAt(s, p.marker, m, Insensitive);
      assert StopsAt(s, |s|, p);
    }
  }

  /** Without `\Z`, the section needs one of its terminators somewhere after an occurrence of the marker. */
  lemma SectionFoundBounded(s: string, p: SectionPattern)
    requires !p.orEnd
    ensures SectionSpan(s, p).Some? <==>
      exists m: nat, e: nat :: m + |p.marker| <= e <= |s| && OccursAt(s, p.marker, m, Insensitive) && EndsAt(s, e, p.ends)
  {
    SectionFound(s, p);
    if SectionSpan(s, p).Some? {
      var m: nat, e: nat :| m + |p.marker| <= e <= |s| && OccursAt(s, p.marker, m, Insensitive) && StopsAt(s, e, p);
      assert EndsAt(s, e, p.ends);
    } else {
      forall m: nat, e: nat | m + |p.marker| <= e <= |s| && OccursAt(s, p.marker, m, Insensitive)
        ensures !EndsAt(s, e, p.ends)
      {
        assert !StopsAt(s, e, p);
      }
    }
  }

  /** A white-space character only matches white space, in either case mode. */
  lemma SpaceMatchesSpace(a: char, b: char)
    requires CharMatch(Insensitive, a, b)
    ensures IsSpace(a) == IsSpace(b)
  {
  }

  /** The marker begins and ends with a character that `strip` keeps. */
  predicate Solid(marker: string) {
    |marker| > 0 && !IsSpace(marker[0]) && !IsSpace(marker[|marker| - 1])
  }

  /**
   * The stripped section (`group(0).strip()`) starts with the marker, as it
   * appears in the text, and loses only white space at its end.
   */
  lemma SectionBody(s: string, p: SectionPattern)
    requires Solid(p.marker) && Section(s, p).Some?
    ensures var b := Strip(Section(s, p).value);
      && b == RStrip(Section(s, p).value)
      && |p.marker| <= |b|
      && OccursAt(b, p.marker, 0, Insensitive)
  {
    var x := Section(s, p).value;
    var m := SectionSpan(s, p).value.0;
    var n := |p.marker|;
    assert x[0] == s[m] && x[n - 1] == s[m + n - 1];
    SpaceMatchesSpace(s[m], p.marker[0]);
    SpaceMatchesSpace(s[m + n - 1], p.marker[n - 1]);
    StripUnchanged(x);
    RStripShape(x);
    var b := RStrip(x);
    assert |b| >= n;
    forall k | 0 <= k < n
      ensures CharMatch(Insensitive, b[k], p.marker[k])
    {
      assert b[k] == x[k] == s[m + k];
    }
  }
}
