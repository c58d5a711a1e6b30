/**
 * The subject-grid processor: content that carries semester labels such as
 * "1° Semestre" is split on those labels, and each label with the block of
 * text after it becomes one document.
 */
module CourseSubjectsProcessor {
  import opened Text
  import opened Documents
  import opened Search

  const SEMESTRE: string := "Semestre"

  /**
   * The pattern `\d+°\s*Semestre` (with the degree sign U+00B0) matches at `i`.
   * The greedy digit run and white-space run never need to give anything back,
   * because a shorter run would be followed by a digit or a space, not by the
   * next literal.
   */
  predicate LabelAt(s: string, i: nat) {
    && i < |s|
    && IsDigit(s[i])
    && var j := RunEnd(s, i, Digit);
       j < |s| && s[j] == '°' && OccursAt(s, SEMESTRE, RunEnd(s, j + 1, Space), Sensitive)
  }

  /** Where the label that matches at `i` ends. */
  function LabelEnd(s: string, i: nat): (e: nat)
    requires LabelAt(s, i)
    ensures i < e <= |s|
    ensures s[e - 1] == 'e'
  {
    var k := RunEnd(s, RunEnd(s, i, Digit) + 1, Space);
    assert CharMatch(Sensitive, s[k + 7], SEMESTRE[7]);
    k + |SEMESTRE|
  }

  /** The label pattern as the splitter sees it. */
  const LABEL: Pattern :=
    Pattern((s: string, i: nat) => LabelAt(s, i),
            (s: string, i: nat) => if LabelAt(s, i) then LabelEnd(s, i) else i + 1)

  /** Every label match is non-empty and ends inside the text. */
  lemma LabelValid(s: string)
    ensures ValidOn(LABEL, s)
  {
  }

  /** A matched label has nothing to strip: it starts with a digit and ends with "e". */
  lemma LabelTrimmed(s: string, i: nat)
    requires LabelAt(s, i)
    ensures Trimmed(s[i..LabelEnd(s, i)])
  {
  }

  /**
   * A label span is one whole `\d+°\s*Semestre` match: a digit run, the
   * degree sign, white space, then "Semestre" ending exactly where the
   * label ends.
   */
  lemma LabelShape(s: string, i: nat)
    requires LabelAt(s, i)
    ensures var e := LabelEnd(s, i);
      && i + |SEMESTRE| < e
      && s[e - |SEMESTRE|..e] == SEMESTRE
      && exists j :: i < j < e - |SEMESTRE| && AllDigits(s[i..j]) && s[j] == '°'
           && forall k :: j + 1 <= k < e - |SEMESTRE| ==> IsSpace(s[k])
  {
    var j := RunEnd(s, i, Digit);
    RunEndCovers(s, i, Digit);
    var h := RunEnd(s, j + 1, Space);
    RunEndCovers(s, j + 1, Space);
    assert forall k :: 0 <= k < |SEMESTRE| ==> s[h + k] == SEMESTRE[k];
    assert s[h..h + |SEMESTRE|] == SEMESTRE;
    assert AllDigits(s[i..j]);
  }

  /** `re.search`: some semester label occurs in the content. */
  predicate CanHandle(content: string) {
    exists i :: 0 <= i < |content| && LabelAt(content, i)
  }

  /** `re.finditer` on the label pattern: the spans of the labels, in order. */
  function Labels(content: string): (r: seq<(nat, nat)>)
    ensures forall k :: 0 <= k < |r| ==> LabelAt(content, r[k].0) && r[k].1 == LabelEnd(content, r[k].0)
  {
    LabelValid(content);
    Spans(LABEL, content, 0)
  }

  /** `re.split` on the label pattern, keeping the labels: one label piece per match. */
  function Split(content: string): (blocos: seq<string>)
    ensures |blocos| == 2 * |Labels(content)| + 1
  {
    LabelValid(content);
    SplitConcat(LABEL, content, 0);
    SplitFrom(LABEL, content, 0)
  }

  /** One document per semester: the stripped label, a newline, the stripped block. */
  function SemesterDoc(title: string, block: string): Document {
    var titulo := Strip(title);
    Document(titulo + "\n" + Strip(block), map["semestre" := Str(titulo), "tipo" := Str("grade_disciplinas")])
  }

  /** The documents for the first `n` label/block pairs of a split. */
  function PairDocs(b: seq<string>, n: nat): (docs: seq<Document>)
    requires 2 * n < |b|
    ensures |docs| == n
    ensures forall k :: 0 <= k < n ==> docs[k] == SemesterDoc(b[2 * k + 1], b[2 * k + 2])
  {
    if n == 0 then [] else PairDocs(b, n - 1) + [SemesterDoc(b[2 * n - 1], b[2 * n])]
  }

  /** What `Process` returns: one `SemesterDoc` per label of the split, in order. */
  function SubjectsDocs(content: string): seq<Document> {
    PairDocs(Split(content), |Labels(content)|)
  }

  /**
   * Walks the split pieces two at a time from index 1, pairing each label
   * with the block after it. The split has odd length, so `blocos[i + 1]`
   * is always in bounds.
   */
  method Process(content: string) returns (docs: seq<Document>)
    ensures docs == SubjectsDocs(content)
  {
    docs := [];
    var blocos := Split(content);
    var i, n := 1, 0;
    while i < |blocos|
      invariant i == 2 * n + 1 <= |blocos|
      invariant docs == PairDocs(blocos, n)
    {
      var titulo := Strip(blocos[i]);
      var texto := Strip(blocos[i + 1]);
      var doc := Document(titulo + "\n" + texto, map["semestre" := Str(titulo), "tipo" := Str("grade_disciplinas")]);
      assert doc == SemesterDoc(blocos[i], blocos[i + 1]);
      docs := docs + [doc];
      i, n := i + 2, n + 1;
    }
  }

  /** Some label occurs exactly when the label scan finds a first match. */
  lemma CanHandleFirst(content: string)
    ensures CanHandle(content) <==> Labels(content) != []
  {
    LabelValid(content);
    SpansExhaustive(LABEL, content, 0);
    if Labels(content) == [] {
      forall j | 0 <= j < |content|
        ensures !LabelAt(content, j)
      {
        assert !LABEL.matchesAt(content, j);
      }
    }
  }

  /** The `k`-th document is built from the `k`-th label and the text up to the next one. */
  lemma SubjectsDocAt(content: string, k: nat)
    requires k < |Labels(content)|
    ensures var docs, r := SubjectsDocs(content), Labels(content);
      var title := content[r[k].0..r[k].1];
      && |docs| == |r|
      && r[k].1 <= PieceEnd(content, r, k) <= |content|
      && docs[k] == Document(title + "\n" + Strip(content[r[k].1..PieceEnd(content, r, k)]),
                             map["semestre" := Str(title), "tipo" := Str("grade_disciplinas")])
  {
    var r, b := Labels(content), Split(content);
    LabelValid(content);
    SplitMatches(LABEL, content, 0);
    SplitGaps(LABEL, content, 0);
    var title := content[r[k].0..r[k].1];
    assert b[2 * k + 1] == title;
    LabelTrimmed(content, r[k].0);
    StripUnchanged(title);
  }

  /**
   * The labels come in text order and none is skipped: each one is the
   * first label at or after the end of the one before.
   */
  lemma LabelsOrdered(content: string)
    ensures var r := Labels(content);
      && (forall k :: 0 < k < |r| ==> r[k - 1].1 <= r[k].0)
      && (forall k, j :: 0 < k < |r| && r[k - 1].1 <= j < r[k].0 ==> !LabelAt(content, j))
  {
    LabelValid(content);
    var r := Labels(content);
    assert r == Spans(LABEL, content, 0);
    SpansOrdered(LABEL, content, 0);
    forall k, j | 0 < k < |r| && r[k - 1].1 <= j < r[k].0
      ensures !LabelAt(content, j)
    {
      assert !LABEL.matchesAt(content, j);
    }
  }

  /**
   * One document per label match, so the output is non-empty exactly when
   * `CanHandle` holds; the `k`-th document is the `k`-th label in content
   * order, a newline, and the stripped text up to the next label. Text
   * before the first label appears in no document.
   */
  lemma SubjectsLayout(content: string)
    ensures var docs, r := SubjectsDocs(content), Labels(content);
      && |docs| == |r|
      && (|docs| > 0 <==> CanHandle(content))
      && (forall k :: 0 < k < |r| ==> r[k - 1].1 <= r[k].0)
      && (forall k, j :: 0 < k < |r| && r[k - 1].1 <= j < r[k].0 ==> !LabelAt(content, j))
      && forall k :: 0 <= k < |r| ==>
           var title := content[r[k].0..r[k].1];
           && r[k].1 <= PieceEnd(content, r, k) <= |content|
           && docs[k] == Document(title + "\n" + Strip(content[r[k].1..PieceEnd(content, r, k)]),
                                  map["semestre" := Str(title), "tipo" := Str("grade_disciplinas")])
  {
    LabelValid(content);
    SplitMatches(LABEL, content, 0);
    CanHandleFirst(content);
    LabelsOrdered(content);
    forall k | 0 <= k < |Labels(content)|
      ensures var docs, r := SubjectsDocs(content), Labels(content);
        var title := content[r[k].0..r[k].1];
        && r[k].1 <= PieceEnd(content, r, k) <= |content|
        && docs[k] == Document(title + "\n" + Strip(content[r[k].1..PieceEnd(content, r, k)]),
                               map["semestre" := Str(title), "tipo" := Str("grade_disciplinas")])
    {
      SubjectsDocAt(content, k);
    }
  }
}
