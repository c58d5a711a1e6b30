/**
 * Character classes, stripping, literal search and decimal conversion shared
 * by the document processors. The regular expressions the processors use are
 * modelled as explicit scanners built from the pieces in this module.
 */
module Text {

  datatype Option<T> = None | Some(value: T)

  /** An ASCII decimal digit: the model's reading of the regex class `\d`. */
  predicate IsDigit(c: char) {
    '0' <= c <= '9'
  }

  /** White space as Python's `str.isspace`, `str.strip` and the regex class `\s` see it. */
  predicate IsSpace(c: char) {
    || c == ' '
    || '\t' <= c <= '\r'
    || '\U{1C}' <= c <= '\U{1F}'
    || c == '\U{85}' || c == '\U{A0}' || c == '\U{1680}'
    || '\U{2000}' <= c <= '\U{200A}'
    || c == '\U{2028}' || c == '\U{2029}' || c == '\U{202F}' || c == '\U{205F}' || c == '\U{3000}'
  }

  /** Lower-case fold used by case-insensitive matching: ASCII and Latin-1 capitals. */
  function Fold(c: char): (f: char)
    ensures IsSpace(c) ==> f == c
    ensures IsSpace(f) == IsSpace(c)
    ensures 'A' <= c <= 'Z' ==> 'a' <= f <= 'z'
  {
    if 'A' <= c <= 'Z' || ('\U{C0}' <= c <= '\U{DE}' && c != '\U{D7}') then
      (c as int + 32) as char
    else
      c
  }

  datatype Case = Sensitive | Insensitive

  /** Text character `a` matches pattern character `b`. */
  predicate CharMatch(mode: Case, a: char, b: char) {
    a == b || (mode == Insensitive && Fold(a) == Fold(b))
  }

  /** The literal `lit` occurs in `s` starting at index `i`. */
  predicate OccursAt(s: string, lit: string, i: nat, mode: Case) {
    i + |lit| <= |s| && forall k :: 0 <= k < |lit| ==> CharMatch(mode, s[i + k], lit[k])
  }

  /** Python's case-sensitive substring test `lit in s`. */
  predicate Contains(s: string, lit: string) {
    exists i :: 0 <= i <= |s| && OccursAt(s, lit, i, Sensitive)
  }

  lemma ContainsSelf(s: string)
    ensures Contains(s, s)
  {
    assert OccursAt(s, s, 0, Sensitive);
  }

  /** Text added around a string keeps every substring it had. */
  lemma ContainsExtends(s: string, lit: string, before: string, after: string)
    requires Contains(s, lit)
    ensures Contains(before + s + after, lit)
  {
    var i :| 0 <= i <= |s| && OccursAt(s, lit, i, Sensitive);
    var t := before + s + after;
    forall k | 0 <= k < |lit|
      ensures CharMatch(Sensitive, t[|before| + i + k], lit[k])
    {
      assert t[|before| + i + k] == s[i + k];
    }
    assert OccursAt(t, lit, |before| + i, Sensitive);
  }

  /** The first index at or after `from` where `lit` occurs. */
  function Find(s: string, lit: string, from: nat, mode: Case): (r: Option<nat>)
    decreases |s| + 1 - from
    ensures r.Some? ==> from <= r.value && OccursAt(s, lit, r.value, mode)
    ensures forall j :: from <= j && (r.None? || j < r.value) ==> !OccursAt(s, lit, j, mode)
  {
    if from + |lit| > |s| then None
    else if OccursAt(s, lit, from, mode) then Some(from)
    else Find(s, lit, from + 1, mode)
  }

  /** `Find` returns `i` when `lit` occurs at `i` and at no position from `from` up to it. */
  lemma FindExact(s: string, lit: string, from: nat, i: nat, mode: Case)
    requires from <= i && OccursAt(s, lit, i, mode)
    requires forall j :: from <= j < i ==> !OccursAt(s, lit, j, mode)
    ensures Find(s, lit, from, mode) == Some(i)
  {
    var r := Find(s, lit, from, mode);
    assert r.Some? && r.value <= i;
  }

  /** An occurrence in a prefix is an occurrence in the whole text. */
  lemma OccursPrefix(x: string, y: string, lit: string, i: nat, mode: Case)
    requires x <= y && OccursAt(x, lit, i, mode)
    ensures OccursAt(y, lit, i, mode)
  {
    forall k | 0 <= k < |lit|
      ensures CharMatch(mode, y[i + k], lit[k])
    {
      assert y[i + k] == x[i + k];
    }
  }

  /** A literal occurs where it is appended. */
  lemma OccursAppended(x: string, lit: string, mode: Case)
    ensures OccursAt(x + lit, lit, |x|, mode)
  {
    forall k | 0 <= k < |lit|
      ensures CharMatch(mode, (x + lit)[|x| + k], lit[k])
    {
      assert (x + lit)[|x| + k] == lit[k];
    }
  }

  /** The character classes the scanners repeat: `\d`, `\s` and `[^\n]`. */
  datatype CharClass = Digit | Space | NotNewline

  predicate InClass(c: char, cls: CharClass) {
    match cls
    case Digit => IsDigit(c)
    case Space => IsSpace(c)
    case NotNewline => c != '\n'
  }

  /** Where the longest run of `cls` characters starting at `i` ends (a greedy `cls*`). */
  function RunEnd(s: string, i: nat, cls: CharClass): (j: nat)
    requires i <= |s|
    decreases |s| - i
    ensures i <= j <= |s|
    ensures j == |s| || !InClass(s[j], cls)
  {
    if i < |s| && InClass(s[i], cls) then RunEnd(s, i + 1, cls) else i
  }

  /** Everything the run covers is in the class. */
  lemma {:induction false} RunEndCovers(s: string, i: nat, cls: CharClass)
    requires i <= |s|
    decreases |s| - i
    ensures forall k :: i <= k < RunEnd(s, i, cls) ==> InClass(s[k], cls)
  {
    if i < |s| && InClass(s[i], cls) {
      RunEndCovers(s, i + 1, cls);
    }
  }

  /** A run is exactly the stretch of `cls` characters up to the first character outside it. */
  lemma {:induction false} RunEndExact(s: string, i: nat, j: nat, cls: CharClass)
    requires i <= j <= |s|
    requires forall k :: i <= k < j ==> InClass(s[k], cls)
    requires j == |s| || !InClass(s[j], cls)
    decreases j - i
    ensures RunEnd(s, i, cls) == j
  {
    if i < j {
      RunEndExact(s, i + 1, j, cls);
    }
  }

  /** Text put in front shifts a run without changing it. */
  lemma RunEndShift(x: string, y: string, i: nat, cls: CharClass)
    requires i <= |y|
    ensures RunEnd(x + y, |x| + i, cls) == |x| + RunEnd(y, i, cls)
  {
    var j := RunEnd(y, i, cls);
    RunEndCovers(y, i, cls);
    forall k | |x| + i <= k < |x| + j
      ensures InClass((x + y)[k], cls)
    {
      assert (x + y)[k] == y[k - |x|];
    }
    RunEndExact(x + y, |x| + i, |x| + j, cls);
  }

  /** The greedy `[^\n]*` from `i`: the rest of the line. */
  function LineFrom(s: string, i: nat): (r: string)
    requires i <= |s|
    ensures i + |r| <= |s| && forall k :: 0 <= k < |r| ==> r[k] == s[i + k]
    ensures forall k :: 0 <= k < |r| ==> r[k] != '\n'
    ensures i + |r| == |s| || s[i + |r|] == '\n'
  {
    RunEndCovers(s, i, NotNewline);
    s[i..RunEnd(s, i, NotNewline)]
  }

  /** The rest of the line stops at the first newline, or at the end of the text. */
  lemma LineFromExact(s: string, i: nat, e: nat)
    requires i <= e <= |s|
    requires forall k :: i <= k < e ==> s[k] != '\n'
    requires e == |s| || s[e] == '\n'
    ensures LineFrom(s, i) == s[i..e]
  {
    RunEndExact(s, i, e, NotNewline);
  }

  /**
   * Where `marker.*?lab` ends in a case-insensitive search where `.` also
   * matches newlines: the first `lab` at or after the end of the first
   * occurrence of `marker`.
   */
  function LabelAfter(s: string, marker: string, lab: string): (r: Option<nat>)
    ensures r.Some? ==> r.value + |lab| <= |s|
  {
    match Find(s, marker, 0, Insensitive)
    case None => None
    case Some(m) =>
      match Find(s, lab, m + |marker|, Insensitive)
      case None => None
      case Some(q) => Some(q)
  }

  /** The label is found exactly when some occurrence of the marker is followed by it. */
  lemma LabelAfterFound(s: string, marker: string, lab: string)
    ensures LabelAfter(s, marker, lab).Some? <==>
      exists m: nat, q: nat :: m <= q <= |s| && m + |marker| <= q && OccursAt(s, marker, m, Insensitive) && OccursAt(s, lab, q, Insensitive)
  {
    if exists m: nat, q: nat :: m <= q <= |s| && m + |marker| <= q && OccursAt(s, marker, m, Insensitive) && OccursAt(s, lab, q, Insensitive) {
      var m: nat, q: nat :| m <= q <= |s| && m + |marker| <= q && OccursAt(s, marker, m, Insensitive) && OccursAt(s, lab, q, Insensitive);
      var m0 := Find(s, marker, 0, Insensitive);
      assert m0.Some? && m0.value <= m;
      assert Find(s, lab, m0.value + |marker|, Insensitive).Some?;
    }
  }

  /** The label position, given the first marker and the first label after it. */
  lemma LabelAfterExact(s: string, marker: string, lab: string, m: nat, q: nat)
    requires OccursAt(s, marker, m, Insensitive)
    requires forall j: nat :: j < m ==> !OccursAt(s, marker, j, Insensitive)
    requires m + |marker| <= q && OccursAt(s, lab, q, Insensitive)
    requires forall j :: m + |marker| <= j < q ==> !OccursAt(s, lab, j, Insensitive)
    ensures LabelAfter(s, marker, lab) == Some(q)
  {
    FindExact(s, marker, 0, m, Insensitive);
    FindExact(s, lab, m + |marker|, q, Insensitive);
  }

  /** `\s*([^\n]*)` matched at `i`: the rest of the line once white space (newlines included) is skipped. */
  function RestOfLine(s: string, i: nat): (r: string)
    requires i <= |s|
    ensures (forall k :: 0 <= k < |r| ==> r[k] != '\n') && (r == [] || !IsSpace(r[0]))
  {
    LineFrom(s, RunEnd(s, i, Space))
  }

  /** The rest of the line runs from the end `w` of the white space to the first newline `e`, or the end of the text. */
  lemma RestOfLineExact(s: string, i: nat, w: nat, e: nat)
    requires i <= w <= |s| && (w == |s| || !IsSpace(s[w]))
    requires forall k :: i <= k < w ==> IsSpace(s[k])
    requires w <= e <= |s| && (e == |s| || s[e] == '\n')
    requires forall k :: w <= k < e ==> s[k] != '\n'
    ensures RestOfLine(s, i) == s[w..e]
  {
    RunEndExact(s, i, w, Space);
    LineFromExact(s, w, e);
  }

  /**
   * What group 1 of `marker.*?lab\s*([^\n]*)` captures in that search:
   * the rest of the line after the label, once all white space has been
   * skipped.
   */
  function LineAfter(s: string, marker: string, lab: string): (g: Option<string>)
    ensures g.Some? ==> (forall k :: 0 <= k < |g.value| ==> g.value[k] != '\n') && (g.value == [] || !IsSpace(g.value[0]))
  {
    match LabelAfter(s, marker, lab)
    case None => None
    case Some(q) => Some(RestOfLine(s, q + |lab|))
  }

  /**
   * The captured line, position by position: `m` is the first occurrence of
   * the marker, `q` the first `lab` at or after its end, `w` the end of the
   * white space after the label and `e` the first newline from `w` on, or
   * the end of the text.
   */
  lemma LineAfterShape(s: string, marker: string, lab: string, m: nat, q: nat, w: nat, e: nat)
    requires OccursAt(s, marker, m, Insensitive)
    requires forall j: nat :: j < m ==> !OccursAt(s, marker, j, Insensitive)
    requires m + |marker| <= q && OccursAt(s, lab, q, Insensitive)
    requires forall j :: m + |marker| <= j < q ==> !OccursAt(s, lab, j, Insensitive)
    requires q + |lab| <= w <= |s| && (w == |s| || !IsSpace(s[w]))
    requires forall k :: q + |lab| <= k < w ==> IsSpace(s[k])
    requires w <= e <= |s| && (e == |s| || s[e] == '\n')
    requires forall k :: w <= k < e ==> s[k] != '\n'
    ensures LineAfter(s, marker, lab) == Some(s[w..e])
  {
    LabelAfterExact(s, marker, lab, m, q);
    RestOfLineExact(s, q + |lab|, w, e);
  }

  /** Where the pieces of a "<marker><gap><lab> <body>\n<rest>" text sit. */
  lemma BlockParts(marker: string, gap: string, lab: string, body: string, rest: string)
    ensures var t := marker + gap + lab + " " + body + "\n" + rest;
      var q, w := |marker| + |gap|, |marker| + |gap| + |lab| + 1;
      && OccursAt(t, marker, 0, Sensitive)
      && OccursAt(t, lab, q, Insensitive)
      && w + |body| < |t| && t[w - 1] == ' ' && t[w + |body|] == '\n'
      && t[w..w + |body|] == body
  {
    var t := marker + gap + lab + " " + body + "\n" + rest;
    var tail := lab + (" " + (body + ("\n" + rest)));
    assert t == (marker + gap) + tail;
    assert t == marker + (gap + tail);
    OccursAppended([], marker, Sensitive);
    OccursPrefix(marker, t, marker, 0, Sensitive);
    OccursAppended([], lab, Insensitive);
    OccursPrefix(lab, tail, lab, 0, Insensitive);
    OccursShifted(marker + gap, tail, lab, 0, Insensitive);
  }

  /** A body written in two pieces is the same block text. */
  lemma BlockJoin(marker: string, gap: string, lab: string, b1: string, b2: string, rest: string)
    ensures marker + gap + lab + " " + b1 + b2 + "\n" + rest == marker + gap + lab + " " + (b1 + b2) + "\n" + rest
  {
    var h := marker + gap + lab + " ";
    assert h + b1 + b2 == h + (b1 + b2);
  }

  /** Empty text on both sides of a two-piece string changes nothing. */
  lemma EmptyEnds(a: string, b: string)
    ensures [] + a + b + [] == a + b
  {
  }

  /** An occurrence in `y` is an occurrence in `x + y`, shifted by `|x|`. */
  lemma OccursShifted(x: string, y: string, lit: string, i: nat, mode: Case)
    requires OccursAt(y, lit, i, mode)
    ensures OccursAt(x + y, lit, |x| + i, mode)
  {
    forall k | 0 <= k < |lit|
      ensures CharMatch(mode, (x + y)[|x| + i + k], lit[k])
    {
      assert (x + y)[|x| + i + k] == y[i + k];
    }
  }

  /** An occurrence in `y` is exactly an occurrence in `x + y`, shifted by `|x|`. */
  lemma OccursShiftedIff(x: string, y: string, lit: string, i: nat, mode: Case)
    ensures OccursAt(x + y, lit, |x| + i, mode) <==> OccursAt(y, lit, i, mode)
  {
    if OccursAt(y, lit, i, mode) {
      OccursShifted(x, y, lit, i, mode);
    }
    if OccursAt(x + y, lit, |x| + i, mode) {
      forall k | 0 <= k < |lit|
        ensures CharMatch(mode, y[i + k], lit[k])
      {
        assert (x + y)[|x| + i + k] == y[i + k];
      }
    }
  }

  /**
   * A text that opens with the marker and holds "<lab> <body>" on one line
   * captures `body`, provided the label does not occur earlier in the gap
   * after the marker.
   */
  lemma LineAfterOfBlock(marker: string, gap: string, lab: string, body: string, rest: string)
    requires body != [] && !IsSpace(body[0]) && forall k :: 0 <= k < |body| ==> body[k] != '\n'
    requires forall j :: |marker| <= j < |marker| + |gap| ==>
      !OccursAt(marker + gap + lab + " " + body + "\n" + rest, lab, j, Insensitive)
    ensures LineAfter(marker + gap + lab + " " + body + "\n" + rest, marker, lab) == Some(body)
  {
    BlockParts(marker, gap, lab, body, rest);
    LineAfterAt(marker + gap + lab + " " + body + "\n" + rest, marker, lab, body, |marker| + |gap|);
  }

  /** `LineAfterOfBlock` with the text given by the positions of its pieces. */
  lemma LineAfterAt(t: string, marker: string, lab: string, body: string, q: nat)
    requires OccursAt(t, marker, 0, Sensitive)
    requires |marker| <= q && OccursAt(t, lab, q, Insensitive)
    requires forall j :: |marker| <= j < q ==> !OccursAt(t, lab, j, Insensitive)
    requires q + |lab| + 1 + |body| < |t| && t[q + |lab|] == ' '
    requires t[q + |lab| + 1..q + |lab| + 1 + |body|] == body && t[q + |lab| + 1 + |body|] == '\n'
    requires body != [] && !IsSpace(body[0]) && forall k :: 0 <= k < |body| ==> body[k] != '\n'
    ensures LineAfter(t, marker, lab) == Some(body)
  {
    var w := q + |lab| + 1;
    assert OccursAt(t, marker, 0, Insensitive);
    assert t[w] == body[0];
    forall k | w <= k < w + |body|
      ensures t[k] != '\n'
    {
      assert t[k] == body[k - w];
    }
    LineAfterShape(t, marker, lab, 0, q, w, w + |body|);
  }

  /** Python's `s.lstrip()`. */
  function LStrip(s: string): string {
    if |s| > 0 && IsSpace(s[0]) then LStrip(s[1..]) else s
  }

  /** Python's `s.rstrip()`. */
  function RStrip(s: string): string {
    if |s| > 0 && IsSpace(s[|s| - 1]) then RStrip(s[..|s| - 1]) else s
  }

  /** `lstrip` keeps a suffix: it drops exactly the leading white space. */
  lemma {:induction false} LStripShape(s: string)
    ensures var r := LStrip(s);
      && |r| <= |s| && r == s[|s| - |r|..]
      && (forall k :: 0 <= k < |s| - |r| ==> IsSpace(s[k]))
      && (r == [] || !IsSpace(r[0]))
  {
    if |s| > 0 && IsSpace(s[0]) {
      LStripShape(s[1..]);
    }
  }

  /** `rstrip` keeps a prefix: it drops exactly the trailing white space. */
  lemma {:induction false} RStripShape(s: string)
    ensures var r := RStrip(s);
      && |r| <= |s| && r == s[..|r|]
      && (forall k :: |r| <= k < |s| ==> IsSpace(s[k]))
      && (r == [] || !IsSpace(r[|r| - 1]))
  {
    if |s| > 0 && IsSpace(s[|s| - 1]) {
      RStripShape(s[..|s| - 1]);
    }
  }

  /** The string has no white space to strip at either end. */
  predicate Trimmed(s: string) {
    s == [] || (!IsSpace(s[0]) && !IsSpace(s[|s| - 1]))
  }

  /** How many characters `s.strip()` removes at the front. */
  function StripOffset(s: string): nat {
    LStripShape(s);
    |s| - |LStrip(s)|
  }

  /** Python's `s.strip()`. */
  function Strip(s: string): string {
    RStrip(LStrip(s))
  }

  /** What `Strip` returns has no white space left at either end. */
  lemma StripTrimmed(s: string)
    ensures Trimmed(Strip(s))
  {
    var l := LStrip(s);
    LStripShape(s);
    RStripShape(l);
    var r := RStrip(l);
    if r != [] {
      assert r[0] == l[0];
    }
  }

  /** `Strip` only removes characters at the two ends. */
  lemma StripSlice(s: string)
    ensures var r := Strip(s);
      StripOffset(s) + |r| <= |s| && r == s[StripOffset(s)..StripOffset(s) + |r|]
  {
    LStripShape(s);
    RStripShape(LStrip(s));
  }

  /** A string that starts with a non-space loses only its trailing white space; a trimmed one is left alone. */
  lemma StripUnchanged(s: string)
    ensures |s| > 0 && !IsSpace(s[0]) ==> Strip(s) == RStrip(s)
    ensures Trimmed(s) ==> Strip(s) == s
  {
    if |s| > 0 && !IsSpace(s[0]) {
      assert LStrip(s) == s;
    }
    if Trimmed(s) && s != [] {
      assert LStrip(s) == s;
      assert RStrip(s) == s;
    }
  }

  /** `Strip` empties exactly the all-white-space strings. */
  lemma StripEmpty(s: string)
    ensures Strip(s) == [] <==> forall k :: 0 <= k < |s| ==> IsSpace(s[k])
  {
    var l := LStrip(s);
    LStripShape(s);
    RStripShape(l);
    if RStrip(l) == [] {
      assert l == [];
    }
  }

  /** The concatenation of a list of strings (Python's `"".join`). */
  function Concat(parts: seq<string>): string {
    if parts == [] then [] else parts[0] + Concat(parts[1..])
  }

  /** Splitting off the first remaining part. */
  lemma ConcatFront(parts: seq<string>, i: nat)
    requires i < |parts|
    ensures Concat(parts[i..]) == parts[i] + Concat(parts[i + 1..])
  {
    assert parts[i..][1..] == parts[i + 1..];
  }

  /** Every part is a substring of the concatenation. */
  lemma {:induction false} ConcatContains(parts: seq<string>, i: nat)
    requires i < |parts|
    ensures Contains(Concat(parts), parts[i])
  {
    if i == 0 {
      ContainsSelf(parts[0]);
      ContainsExtends(parts[0], parts[0], [], Concat(parts[1..]));
      assert [] + parts[0] + Concat(parts[1..]) == Concat(parts);
    } else {
      ConcatContains(parts[1..], i - 1);
      ContainsExtends(Concat(parts[1..]), parts[i], parts[0], []);
      assert parts[0] + Concat(parts[1..]) + [] == Concat(parts);
    }
  }

  predicate AllDigits(ds: string) {
    forall k :: 0 <= k < |ds| ==> IsDigit(ds[k])
  }

  function DigitValue(c: char): nat
    requires IsDigit(c)
  {
    c as int - '0' as int
  }

  function DigitChar(d: nat): (c: char)
    requires d < 10
    ensures IsDigit(c) && DigitValue(c) == d
  {
    ('0' as int + d) as char
  }

  /** Python's `int(ds)` on a string of ASCII digits, leading zeros allowed. */
  function DecimalValue(ds: string): nat
    requires AllDigits(ds)
  {
    if ds == [] then 0 else 10 * DecimalValue(ds[..|ds| - 1]) + DigitValue(ds[|ds| - 1])
  }

  /** No leading zero, except for the numeral "0" itself. */
  predicate Canonical(ds: string) {
    |ds| > 0 && AllDigits(ds) && (ds[0] == '0' ==> |ds| == 1)
  }

  /** Python's `str(n)` (and f-string rendering) of a non-negative int. */
  function NatToString(n: nat): (r: string)
    ensures Canonical(r)
  {
    if n < 10 then [DigitChar(n)] else NatToString(n / 10) + [DigitChar(n % 10)]
  }

  /** Rendering a number and reading it back gives the number. */
  lemma {:induction false} DecimalOfNatToString(n: nat)
    ensures DecimalValue(NatToString(n)) == n
  {
    if n >= 10 {
      DecimalOfNatToString(n / 10);
      var r := NatToString(n);
      assert r[..|r| - 1] == NatToString(n / 10);
    }
  }
}
