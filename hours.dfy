/**
 * The workload figures of the curricular-structure processor: the hour
 * parser `_extrair_horas` (the regex `(\d+)\s*horas?`, case-insensitive) and
 * the fragment each workload marker points at (`Marker.*?Carga horária
 * mínima:\s*([^\n]+)`, case-insensitive, `.` matching newlines).
 */
module Hours {
  import opened Text
  import opened Search

  const HORA: string := "hora"

  /**
   * `(\d+)\s*hora` matches at `i`: a digit run from `i`, optional white
   * space, then "hora" in any case. The trailing `s?` never decides whether
   * there is a match. The greedy digit run never gives digits back, because
   * a shorter run is followed by a digit, which is neither white space nor "h".
   */
  predicate HourMatchAt(t: string, i: nat) {
    && i < |t|
    && IsDigit(t[i])
    && OccursAt(t, HORA, RunEnd(t, RunEnd(t, i, Digit), Space), Insensitive)
  }

  /** The hour pattern as `re.search` sees it: only where a match starts matters. */
  const HOUR: Pattern := Pattern((t: string, i: nat) => HourMatchAt(t, i), (t: string, i: nat) => i + 1)

  /** The digits that group 1 captures for a match at `i`. */
  function Digits(t: string, i: nat): (ds: string)
    requires i <= |t|
    ensures AllDigits(ds)
  {
    RunEndCovers(t, i, Digit);
    t[i..RunEnd(t, i, Digit)]
  }

  /** A match inside a digit run is also a match at the digit before it. */
  lemma MatchExtendsLeft(t: string, i: nat)
    requires 0 < i && HourMatchAt(t, i)
    ensures IsDigit(t[i - 1]) ==> HourMatchAt(t, i - 1) && Digits(t, i - 1) == [t[i - 1]] + Digits(t, i)
  {
    if IsDigit(t[i - 1]) {
      assert RunEnd(t, i - 1, Digit) == RunEnd(t, i, Digit);
    }
  }

  /** What `re.search` finds, restated for the hour pattern. */
  lemma FirstMatchFacts(t: string)
    ensures var r := NextMatch(HOUR, t, 0);
      && (r.Some? ==> HourMatchAt(t, r.value) && (r.value == 0 || !IsDigit(t[r.value - 1])))
      && (forall j: nat :: (r.None? || j < r.value) ==> !HourMatchAt(t, j))
  {
    var r := NextMatch(HOUR, t, 0);
    forall j: nat | r.None? || j < r.value
      ensures !HourMatchAt(t, j)
    {
      if j < |t| {
        assert !HOUR.matchesAt(t, j);
      }
    }
    if r.Some? && r.value > 0 {
      MatchExtendsLeft(t, r.value);
    }
  }

  /**
   * `re.search`: the leftmost match. It is the first match in the text, and
   * it starts a whole digit run, so its digits are the entire number.
   */
  function FirstHourMatch(t: string): (r: Option<nat>)
    ensures r.Some? ==> HourMatchAt(t, r.value) && (r.value == 0 || !IsDigit(t[r.value - 1]))
    ensures forall j: nat :: (r.None? || j < r.value) ==> !HourMatchAt(t, j)
  {
    FirstMatchFacts(t);
    NextMatch(HOUR, t, 0)
  }

  /** `_extrair_horas`: the number before the first "hora"/"horas", or 0 without one. */
  function ExtractHours(t: string): nat {
    match FirstHourMatch(t)
    case None => 0
    case Some(i) => DecimalValue(Digits(t, i))
  }

  /** Digit-free text contributes no match, so parsing starts after it. */
  predicate DigitFree(p: string) {
    forall k :: 0 <= k < |p| ==> !IsDigit(p[k])
  }

  /** A digit run, one space and "hora" at `i` make a match whose digits are the run. */
  lemma MatchAtNumber(t: string, i: nat, ds: string)
    requires |ds| > 0 && AllDigits(ds) && i + |ds| + 1 + |HORA| <= |t|
    requires t[i..i + |ds|] == ds && t[i + |ds|] == ' ' && t[i + |ds| + 1..i + |ds| + 1 + |HORA|] == HORA
    ensures HourMatchAt(t, i) && Digits(t, i) == ds
  {
    var a := i + |ds|;
    assert forall k :: i <= k < a ==> t[k] == ds[k - i];
    RunEndExact(t, i, a, Digit);
    assert t[a + 1] == HORA[0];
    RunEndExact(t, a, a + 1, Space);
    assert forall k :: 0 <= k < |HORA| ==> t[a + 1 + k] == HORA[k];
  }

  /**
   * A number written out by `str` and followed by " horas" is read back
   * exactly, whatever digit-free text comes before it and whatever follows.
   */
  lemma ExtractHoursOfRendered(p: string, n: nat, rest: string)
    requires DigitFree(p)
    ensures ExtractHours(p + NatToString(n) + " horas" + rest) == n
  {
    var ds := NatToString(n);
    var t := p + ds + " horas" + rest;
    var a := |p| + |ds|;
    assert t[|p|..a] == ds;
    assert t[a] == ' ';
    assert t[a + 1..a + 1 + |HORA|] == HORA;
    MatchAtNumber(t, |p|, ds);
    forall j: nat | j < |p|
      ensures !HourMatchAt(t, j)
    {
      assert t[j] == p[j];
    }
    DecimalOfNatToString(n);
  }

  /** The same, with the text after the number grouped to the right. */
  lemma ExtractHoursOfRenderedRight(p: string, n: nat, rest: string)
    requires DigitFree(p)
    ensures ExtractHours(p + (NatToString(n) + (" horas" + rest))) == n
  {
    ExtractHoursOfRendered(p, n, rest);
    assert p + (NatToString(n) + (" horas" + rest)) == p + NatToString(n) + " horas" + rest;
  }

  /** Text put in front moves every later match, with its digits, along with it. */
  lemma HourMatchShift(p: string, s: string, i: nat)
    requires i <= |s|
    ensures HourMatchAt(p + s, |p| + i) <==> HourMatchAt(s, i)
    ensures HourMatchAt(s, i) ==> Digits(p + s, |p| + i) == Digits(s, i)
  {
    var t := p + s;
    var d := RunEnd(s, i, Digit);
    RunEndShift(p, s, i, Digit);
    var h := RunEnd(s, d, Space);
    RunEndShift(p, s, d, Space);
    OccursShiftedIff(p, s, HORA, h, Insensitive);
    if i < |s| {
      assert t[|p| + i] == s[i];
    }
    assert t[|p| + i..|p| + d] == s[i..d];
  }

  /** The first match is the one with no match before it. */
  lemma FirstHourMatchAt(t: string, i: nat)
    requires HourMatchAt(t, i)
    requires forall j: nat :: j < i ==> !HourMatchAt(t, j)
    ensures FirstHourMatch(t) == Some(i)
  {
  }

  /** Without any match there is no first one. */
  lemma FirstHourMatchNone(t: string)
    requires forall j: nat :: j < |t| ==> !HourMatchAt(t, j)
    ensures FirstHourMatch(t) == None
  {
  }

  /** No match in front of `s` and none in the first `n` positions of `s`: none in `p + s` before `|p| + n`. */
  lemma NoMatchShifted(p: string, s: string, n: nat)
    requires n <= |s|
    requires forall j: nat :: j < |p| ==> !HourMatchAt(p + s, j)
    requires forall j: nat :: j < n ==> !HourMatchAt(s, j)
    ensures forall j: nat :: j < |p| + n ==> !HourMatchAt(p + s, j)
  {
    forall j: nat | |p| <= j < |p| + n
      ensures !HourMatchAt(p + s, j)
    {
      HourMatchShift(p, s, j - |p|);
    }
  }

  /** When no match starts in front of `s`, `_extrair_horas` reads what `s` alone gives. */
  lemma ExtractHoursShift(p: string, s: string)
    requires forall j: nat :: j < |p| ==> !HourMatchAt(p + s, j)
    ensures ExtractHours(p + s) == ExtractHours(s)
  {
    var r := FirstHourMatch(s);
    if r.None? {
      NoMatchShifted(p, s, |s|);
      FirstHourMatchNone(p + s);
    } else {
      HourMatchShift(p, s, r.value);
      NoMatchShifted(p, s, r.value);
      FirstHourMatchAt(p + s, |p| + r.value);
    }
  }

  /** Digit-free text in front changes nothing. */
  lemma ExtractHoursAfterText(p: string, s: string)
    requires DigitFree(p)
    ensures ExtractHours(p + s) == ExtractHours(s)
  {
    forall j: nat | j < |p|
      ensures !HourMatchAt(p + s, j)
    {
      assert (p + s)[j] == p[j];
    }
    ExtractHoursShift(p, s);
  }

  /**
   * A number followed by a separator such as " + " or " = " is not an hour
   * figure: after the digits and the space comes neither space nor "h", so
   * parsing goes on behind the separator.
   */
  lemma ExtractHoursAfterNumber(ds: string, sep: string, s: string)
    requires AllDigits(ds) && DigitFree(sep)
    requires |sep| >= 2 && sep[0] == ' ' && !IsSpace(sep[1]) && !CharMatch(Insensitive, sep[1], HORA[0])
    ensures ExtractHours(ds + (sep + s)) == ExtractHours(s)
  {
    var p := ds + sep;
    var t := p + s;
    assert t == ds + (sep + s);
    assert t[|ds|] == ' ' && t[|ds| + 1] == sep[1];
    RunEndExact(t, |ds|, |ds| + 1, Space);
    forall j: nat | j < |p|
      ensures !HourMatchAt(t, j)
    {
      if j < |ds| {
        RunEndExact(t, j, |ds|, Digit);
        assert !CharMatch(Insensitive, t[|ds| + 1 + 0], HORA[0]);
      } else {
        assert t[j] == sep[j - |ds|];
      }
    }
    ExtractHoursShift(p, s);
  }

  /** The separator after an operand: " + " between operands, " = " before the result. */
  function Operator(plus: bool): (sep: string)
    ensures |sep| == 3 && sep[0] == ' ' && sep[2] == ' '
  {
    if plus then " + " else " = "
  }

  /** An operand followed by " + " or " = " is skipped. */
  lemma ExtractHoursAfterOperand(ds: string, plus: bool, s: string)
    requires AllDigits(ds)
    ensures ExtractHours(ds + (Operator(plus) + s)) == ExtractHours(s)
  {
    var sep := Operator(plus);
    assert sep[1] == (if plus then '+' else '=');
    assert Fold('+') == '+' && Fold('=') == '=';
    ExtractHoursAfterNumber(ds, sep, s);
  }

  /** The end of a written-out sum, "d = t horas", is read back as `t`. */
  lemma ExtractHoursOfSumEnd(d: nat, t: nat)
    ensures ExtractHours(NatToString(d) + (" = " + (NatToString(t) + (" horas" + "\n")))) == t
  {
    var last := NatToString(t) + (" horas" + "\n");
    ExtractHoursOfRenderedRight([], t, "\n");
    assert [] + last == last;
    ExtractHoursAfterOperand(NatToString(d), false, last);
  }

  /**
   * A sum written out as "a + b + c + d = t horas" behind digit-free text is
   * read back as its result `t`.
   */
  lemma ExtractHoursOfSum(head: string, a: nat, b: nat, c: nat, d: nat, t: nat)
    requires DigitFree(head)
    ensures ExtractHours(head + (NatToString(a) + (" + " + (NatToString(b) + (" + " + (NatToString(c)
      + (" + " + (NatToString(d) + (" = " + (NatToString(t) + (" horas" + "\n"))))))))))) == t
  {
    var r4 := NatToString(d) + (" = " + (NatToString(t) + (" horas" + "\n")));
    ExtractHoursOfSumEnd(d, t);
    var r3 := NatToString(c) + (" + " + r4);
    ExtractHoursAfterOperand(NatToString(c), true, r4);
    var r2 := NatToString(b) + (" + " + r3);
    ExtractHoursAfterOperand(NatToString(b), true, r3);
    var r1 := NatToString(a) + (" + " + r2);
    ExtractHoursAfterOperand(NatToString(a), true, r2);
    ExtractHoursAfterText(head, r1);
  }

  /** In "2.400 horas" the first digit is followed by a dot, so the first match starts at the "4". */
  lemma ThousandsMatch(t: string)
    requires t == "2.400 horas"
    ensures !HourMatchAt(t, 0) && !HourMatchAt(t, 1) && HourMatchAt(t, 2) && Digits(t, 2) == "400"
  {
    assert !HourMatchAt(t, 0) by {
      RunEndExact(t, 0, 1, Digit);
      RunEndExact(t, 1, 1, Space);
      assert !CharMatch(Insensitive, t[1], HORA[0]);
    }
    assert !IsDigit(t[1]);
    MatchAtNumber(t, 2, "400");
  }

  /** The dot in "2.400 horas" ends the first digit run, so the parser reads 400. */
  lemma ExtractHoursThousands(t: string)
    requires t == "2.400 horas"
    ensures ExtractHours(t) == 400
  {
    ThousandsMatch(t);
    assert FirstHourMatch(t) == Some(2);
    assert DecimalValue("400") == 400 by {
      assert "400"[..2] == "40" && "40"[..1] == "4";
    }
  }

  const MINIMA: string := "Carga horária mínima:"

  /**
   * The text group 1 of `Marker.*?Carga horária mínima:\s*([^\n]+)`
   * captures: after the first occurrence of the marker, the first
   * "Carga horária mínima:" at or after its end, then the rest of the line
   * once all white space (newlines included) has been skipped.
   */
  function HourFragment(s: string, marker: string): (g: Option<string>)
    ensures g.Some? ==> (forall k :: 0 <= k < |g.value| ==> g.value[k] != '\n') && (g.value == [] || !IsSpace(g.value[0]))
  {
    LineAfter(s, marker, MINIMA)
  }

  /** The marker is followed, somewhere after its end, by "Carga horária mínima:". */
  predicate HasMinimum(s: string, marker: string) {
    exists m: nat, q: nat :: m <= q <= |s| && m + |marker| <= q && OccursAt(s, marker, m, Insensitive) && OccursAt(s, MINIMA, q, Insensitive)
  }

  /** The fragment is found exactly when some occurrence of the marker is followed by the minimum label. */
  lemma HourFragmentFound(s: string, marker: string)
    ensures HourFragment(s, marker).Some? <==> HasMinimum(s, marker)
  {
    LabelAfterFound(s, marker, MINIMA);
  }

  /**
   * The fragment is the rest of a line: `m` is the first occurrence of the
   * marker, `q` the first "Carga horária mínima:" at or after its end, `w`
   * the end of the white space after that label and `e` the first newline
   * from `w` on, or the end of the text.
   */
  lemma HourFragmentShape(s: string, marker: string, m: nat, q: nat, w: nat, e: nat)
    requires OccursAt(s, marker, m, Insensitive)
    requires forall j: nat :: j < m ==> !OccursAt(s, marker, j, Insensitive)
    requires m + |marker| <= q && OccursAt(s, MINIMA, q, Insensitive)
    requires forall j :: m + |marker| <= j < q ==> !OccursAt(s, MINIMA, j, Insensitive)
    requires q + |MINIMA| <= w <= |s| && (w == |s| || !IsSpace(s[w]))
    requires forall k :: q + |MINIMA| <= k < w ==> IsSpace(s[k])
    requires w <= e <= |s| && (e == |s| || s[e] == '\n')
    requires forall k :: w <= k < e ==> s[k] != '\n'
    ensures HourFragment(s, marker) == Some(s[w..e])
  {
    LineAfterShape(s, marker, MINIMA, m, q, w, e);
  }

  /** The line "<n> horas" opens with a digit and holds no newline. */
  lemma HourLine(n: nat)
    ensures var b := NatToString(n) + " horas";
      && b != [] && !IsSpace(b[0])
      && forall k :: 0 <= k < |b| ==> b[k] != '\n'
  {
    var ds := NatToString(n);
    var b := ds + " horas";
    assert b[0] == ds[0];
    forall k | 0 <= k < |b|
      ensures b[k] != '\n'
    {
      if k < |ds| {
        assert b[k] == ds[k];
      } else {
        assert b[k] == " horas"[k - |ds|];
      }
    }
  }

  /**
   * A workload block that reads "<marker>...Carga horária mínima: <n> horas"
   * on one line gives the sub-total `n`, provided the label does not occur
   * earlier in the gap after the marker.
   */
  lemma SubTotalOfBlock(marker: string, gap: string, n: nat, rest: string)
    requires forall j :: |marker| <= j < |marker| + |gap| ==>
      !OccursAt(marker + gap + MINIMA + " " + NatToString(n) + " horas" + "\n" + rest, MINIMA, j, Insensitive)
    ensures SubTotal(marker + gap + MINIMA + " " + NatToString(n) + " horas" + "\n" + rest, marker) == n
  {
    var body := NatToString(n) + " horas";
    var t := marker + gap + MINIMA + " " + body + "\n" + rest;
    assert marker + gap + MINIMA + " " + NatToString(n) + " horas" + "\n" + rest == t by {
      BlockJoin(marker, gap, MINIMA, NatToString(n), " horas", rest);
    }
    assert Contains(t, marker) by {
      BlockParts(marker, gap, MINIMA, body, rest);
      assert OccursAt(t, marker, 0, Sensitive);
    }
    assert HourFragment(t, marker) == Some(body) by {
      HourLine(n);
      LineAfterOfBlock(marker, gap, MINIMA, body, rest);
    }
    assert ExtractHours(body) == n by {
      ExtractHoursOfRendered([], n, []);
      EmptyEnds(NatToString(n), " horas");
    }
  }

  /**
   * One workload sub-total: 0 unless the marker occurs with its exact case
   * (Python's `in`) and the case-insensitive fragment search succeeds.
   */
  function SubTotal(content: string, marker: string): nat {
    if Contains(content, marker) then
      match HourFragment(content, marker)
      case None => 0
      case Some(g) => ExtractHours(g)
    else
      0
  }

  /** A sub-total stays 0 when its marker is absent or no minimum label follows it. */
  lemma SubTotalZero(content: string, marker: string)
    ensures !Contains(content, marker) ==> SubTotal(content, marker) == 0
    ensures !HasMinimum(content, marker) ==> SubTotal(content, marker) == 0
  {
    HourFragmentFound(content, marker);
  }
}
