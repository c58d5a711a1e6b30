/**
 * The part of Python's `re` module the subject-grid processor relies on:
 * `re.search`, `re.finditer` and `re.split` with one capturing group, for a
 * pattern given by where it matches and where each match ends. Matching is
 * leftmost and non-overlapping: after a match the scan resumes at its end.
 */
module Search {
  import opened Text

  /** A compiled pattern: does it match at index `i` of `s`, and where does that match end. */
  datatype Pattern = Pattern(matchesAt: (string, nat) -> bool, matchEnd: (string, nat) -> nat)

  /** Every match of `p` in `s` is non-empty and ends inside `s`. */
  predicate ValidOn(p: Pattern, s: string) {
    forall i :: 0 <= i < |s| && p.matchesAt(s, i) ==> i < p.matchEnd(s, i) <= |s|
  }

  /** `re.search` from `from`: the leftmost index at or after `from` where `p` matches. */
  function NextMatch(p: Pattern, s: string, from: nat): (r: Option<nat>)
    decreases |s| - from
    ensures r.Some? ==> from <= r.value < |s| && p.matchesAt(s, r.value)
    ensures forall j :: from <= j < |s| && (r.None? || j < r.value) ==> !p.matchesAt(s, j)
  {
    if from >= |s| then None
    else if p.matchesAt(s, from) then Some(from)
    else NextMatch(p, s, from + 1)
  }

  /** `re.finditer`: the (start, end) spans of the successive matches from `from`. */
  function Spans(p: Pattern, s: string, from: nat): (r: seq<(nat, nat)>)
    requires from <= |s| && ValidOn(p, s)
    decreases |s| - from
    ensures forall k :: 0 <= k < |r| ==>
      from <= r[k].0 < r[k].1 <= |s| && p.matchesAt(s, r[k].0) && r[k].1 == p.matchEnd(s, r[k].0)
  {
    match NextMatch(p, s, from)
    case None => []
    case Some(i) => [(i, p.matchEnd(s, i))] + Spans(p, s, p.matchEnd(s, i))
  }

  /** Each span is the first match at or after the end of the one before. */
  lemma {:induction false} SpansLeftmost(p: Pattern, s: string, from: nat)
    requires from <= |s| && ValidOn(p, s)
    decreases |s| - from
    ensures var r := Spans(p, s, from);
      && (r != [] ==> NextMatch(p, s, from) == Some(r[0].0))
      && (forall k :: 0 < k < |r| ==> NextMatch(p, s, r[k - 1].1) == Some(r[k].0))
  {
    match NextMatch(p, s, from)
    case None =>
    case Some(i) =>
      var e := p.matchEnd(s, i);
      SpansLeftmost(p, s, e);
      var r, r' := Spans(p, s, from), Spans(p, s, e);
      assert r == [(i, e)] + r';
      forall k | 0 < k < |r|
        ensures NextMatch(p, s, r[k - 1].1) == Some(r[k].0)
      {
        assert r[k] == r'[k - 1];
        if k == 1 {
          assert r[k - 1].1 == e;
          assert NextMatch(p, s, e) == Some(r'[0].0);
        } else {
          assert r[k - 1] == r'[k - 2];
          assert NextMatch(p, s, r'[k - 2].1) == Some(r'[k - 1].0);
        }
      }
  }

  /** Spans come in text order, and no match starts in the gap between two of them. */
  lemma SpansOrdered(p: Pattern, s: string, from: nat)
    requires from <= |s| && ValidOn(p, s)
    ensures var r := Spans(p, s, from);
      && (forall k :: 0 < k < |r| ==> r[k - 1].1 <= r[k].0)
      && (forall k, j :: 0 < k < |r| && r[k - 1].1 <= j < r[k].0 ==> !p.matchesAt(s, j))
  {
    SpansLeftmost(p, s, from);
  }

  /** No match is left after the last span. */
  lemma {:induction false} SpansExhaustive(p: Pattern, s: string, from: nat)
    requires from <= |s| && ValidOn(p, s)
    decreases |s| - from
    ensures var r := Spans(p, s, from);
      NextMatch(p, s, if r == [] then from else r[|r| - 1].1) == None
  {
    match NextMatch(p, s, from)
    case None =>
    case Some(i) =>
      var e := p.matchEnd(s, i);
      SpansExhaustive(p, s, e);
      var r, r' := Spans(p, s, from), Spans(p, s, e);
      assert r == [(i, e)] + r';
      if r' != [] {
        assert r[|r| - 1] == r'[|r'| - 1];
      }
  }

  /** `re.split` with the whole pattern captured: text, match, text, ..., match, text. */
  function SplitFrom(p: Pattern, s: string, from: nat): (pieces: seq<string>)
    requires from <= |s| && ValidOn(p, s)
    decreases |s| - from
    ensures |pieces| % 2 == 1
  {
    match NextMatch(p, s, from)
    case None => [s[from..]]
    case Some(i) =>
      var e := p.matchEnd(s, i);
      [s[from..i], s[i..e]] + SplitFrom(p, s, e)
  }

  /** Where the text piece after the `k`-th match ends: at the next match, or at the end. */
  function PieceEnd(s: string, r: seq<(nat, nat)>, k: nat): nat {
    if k + 1 < |r| then r[k + 1].0 else |s|
  }

  /** The split has one match per span, and its pieces concatenate back to the text it was given. */
  lemma {:induction false} SplitConcat(p: Pattern, s: string, from: nat)
    requires from <= |s| && ValidOn(p, s)
    decreases |s| - from
    ensures var b, r := SplitFrom(p, s, from), Spans(p, s, from);
      && |b| == 2 * |r| + 1
      && Concat(b) == s[from..]
  {
    match NextMatch(p, s, from)
    case None =>
      assert Concat([s[from..]]) == s[from..] + Concat([]);
    case Some(i) =>
      var e := p.matchEnd(s, i);
      SplitConcat(p, s, e);
      var b, b' := SplitFrom(p, s, from), SplitFrom(p, s, e);
      assert b[1..] == [s[i..e]] + b';
      assert ([s[i..e]] + b')[1..] == b';
      assert Concat(b) == s[from..i] + (s[i..e] + Concat(b'));
      assert s[from..] == s[from..i] + (s[i..e] + s[e..]);
  }

  /** The matches sit at the odd indices of the split, in span order. */
  lemma {:induction false} SplitMatches(p: Pattern, s: string, from: nat)
    requires from <= |s| && ValidOn(p, s)
    decreases |s| - from
    ensures var b, r := SplitFrom(p, s, from), Spans(p, s, from);
      && |b| == 2 * |r| + 1
      && (forall k :: 0 <= k < |r| ==> b[2 * k + 1] == s[r[k].0..r[k].1])
  {
    SplitConcat(p, s, from);
    match NextMatch(p, s, from)
    case None =>
    case Some(i) =>
      var e := p.matchEnd(s, i);
      SplitMatches(p, s, e);
      var b, b' := SplitFrom(p, s, from), SplitFrom(p, s, e);
      var r, r' := Spans(p, s, from), Spans(p, s, e);
      assert r == [(i, e)] + r';
      forall k | 0 < k < |r|
        ensures b[2 * k + 1] == s[r[k].0..r[k].1]
      {
        assert r[k] == r'[k - 1];
        assert b[2 * k + 1] == b'[2 * (k - 1) + 1];
      }
  }

  /**
   * The text before the first match is piece 0, and the text between the
   * `k`-th match and the next one (or the end) is the piece right after the
   * `k`-th match.
   */
  lemma {:induction false} SplitGaps(p: Pattern, s: string, from: nat)
    requires from <= |s| && ValidOn(p, s)
    decreases |s| - from
    ensures var b, r := SplitFrom(p, s, from), Spans(p, s, from);
      && |b| == 2 * |r| + 1
      && b[0] == s[from..if r == [] then |s| else r[0].0]
      && (forall k :: 0 <= k < |r| ==> r[k].1 <= PieceEnd(s, r, k) <= |s| && b[2 * k + 2] == s[r[k].1..PieceEnd(s, r, k)])
  {
    SplitConcat(p, s, from);
    match NextMatch(p, s, from)
    case None =>
    case Some(i) =>
      var e := p.matchEnd(s, i);
      SplitGaps(p, s, e);
      var b, b' := SplitFrom(p, s, from), SplitFrom(p, s, e);
      var r, r' := Spans(p, s, from), Spans(p, s, e);
      assert r == [(i, e)] + r';
      assert b[2] == b'[0];
      forall k | 0 < k < |r|
        ensures r[k].1 <= PieceEnd(s, r, k) <= |s| && b[2 * k + 2] == s[r[k].1..PieceEnd(s, r, k)]
      {
        assert r[k] == r'[k - 1];
        assert PieceEnd(s, r, k) == PieceEnd(s, r', k - 1);
        assert b[2 * k + 2] == b'[2 * (k - 1) + 2];
      }
  }
}
