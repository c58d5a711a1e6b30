/**
 * The curricular-structure processor. It accepts content that mentions both
 * "Estrutura Curricular" and "Carga horária", reads four workload
 * sub-totals (fixed contents, DCG, ACG, ACEx), emits a summary document with
 * their sum first, and then one document for each of six marker-bounded
 * sections that it finds, always in the same order.
 */
module CurricularStructureProcessor {
  import opened Text
  import opened Documents
  import opened Hours
  import opened Sections

  // ---------------------------------------------------------------------
  // Classification

  const ESTRUTURA: string := "Estrutura Curricular"
  const CARGA: string := "Carga horária"

  /** Both phrases occur, with exactly this case. */
  predicate CanHandle(content: string) {
    Contains(content, ESTRUTURA) && Contains(content, CARGA)
  }

  // ---------------------------------------------------------------------
  // Workload sub-totals

  const FIXO: string := "Conteúdos do currículo fixo"
  const DCG: string := "Disciplinas complementares de graduação"
  const ACG: string := "Atividades complementares de graduação"
  const ACEX: string := "Atividades complementares de extensão"

  /** The four sub-totals, in hours. */
  datatype Workload = Workload(fixo: nat, dcg: nat, acg: nat, acex: nat)

  /** `ch_total`. */
  function Total(w: Workload): nat {
    w.fixo + w.dcg + w.acg + w.acex
  }

  /** The sub-totals `process` computes for the content. */
  function Workloads(content: string): Workload {
    Workload(SubTotal(content, FIXO), SubTotal(content, DCG), SubTotal(content, ACG), SubTotal(content, ACEX))
  }

  // ---------------------------------------------------------------------
  // The summary document

  const SUMMARY_HEAD: string :=
    "RESUMO DA ESTRUTURA CURRICULAR - " + "CARGA HORÁRIA TOTAL\n\n" + "Carga horária total do curso: "

  /** One line of the breakdown: "- <title>: <hours> horas". */
  function DetailLine(title: string, hours: nat): string {
    "- " + title + ": " + NatToString(hours) + " horas" + "\n"
  }

  const FIXO_TITLE: string := "Conteúdos do currículo fixo"
  const DCG_TITLE: string := "Disciplinas Complementares de Graduação" + " (DCG)"
  const ACG_TITLE: string := "Atividades Complementares de Graduação" + " (ACG)"
  const ACEX_TITLE: string := "Atividades Complementares de Extensão" + " (ACEx)"

  const CALCULATION_HEAD: string := "\nCálculo: "

  /** The closing line: the sum written out. */
  function Calculation(w: Workload, total: nat): string {
    CALCULATION_HEAD + NatToString(w.fixo) + " + " + NatToString(w.dcg) + " + " + NatToString(w.acg)
    + " + " + NatToString(w.acex) + " = " + NatToString(total) + " horas\n"
  }

  /** The pieces of the summary template `resumo`, in order. */
  function SummaryParts(w: Workload, total: nat): seq<string> {
    [SUMMARY_HEAD, NatToString(total), " horas", "\n\nDetalhamento:\n",
     DetailLine(FIXO_TITLE, w.fixo), DetailLine(DCG_TITLE, w.dcg),
     DetailLine(ACG_TITLE, w.acg), DetailLine(ACEX_TITLE, w.acex),
     Calculation(w, total)]
  }

  /** The summary template `resumo`. */
  function SummaryText(w: Workload, total: nat): string {
    Concat(SummaryParts(w, total))
  }

  const SUMMARY_META: map<string, MetaValue> := map["tipo" := Str("resumo_carga_horaria"), "secao" := Str("geral")]

  function SummaryDoc(w: Workload): Document {
    Document(SummaryText(w, Total(w)), SUMMARY_META)
  }

  // ---------------------------------------------------------------------
  // The six sections

  datatype SectionKind = Info | Fixed | Flexible | Dcg | Acg | Acex

  /** The order in which `process` looks for the sections. */
  const ALL_KINDS: seq<SectionKind> := [Info, Fixed, Flexible, Dcg, Acg, Acex]

  lemma AllKindsInOrder()
    ensures [Info] + [Fixed] + [Flexible] + [Dcg] + [Acg] + [Acex] == ALL_KINDS
  {
  }

  function Rank(k: SectionKind): nat {
    match k
    case Info => 0
    case Fixed => 1
    case Flexible => 2
    case Dcg => 3
    case Acg => 4
    case Acex => 5
  }

  const INFO_PATTERN: SectionPattern :=
    SectionPattern("Informações gerais do currículo",
                   [Phrase("Estruturas curriculares"), Phrase("Disciplinas do currículo")], false)
  const FIXED_PATTERN: SectionPattern :=
    SectionPattern(FIXO, [Phrase("Disciplinas do currículo flexível"), Phrase("Atividades complementares")], false)
  const FLEXIBLE_PATTERN: SectionPattern :=
    SectionPattern("Disciplinas do currículo flexível",
                   [Phrase("Atividades complementares"), Phrase("Disciplinas complementares")], false)
  const DCG_PATTERN: SectionPattern :=
    SectionPattern(DCG + " (DCG)", [PhraseThenDigits("Estrutura Curricular")], true)
  const ACG_PATTERN: SectionPattern :=
    SectionPattern(ACG + " (ACG)",
                   [Phrase("Disciplinas complementares"), Phrase("Atividades complementares de extensão")], true)
  const ACEX_PATTERN: SectionPattern :=
    SectionPattern(ACEX + " (ACEx)",
                   [Phrase("Atividades complementares de graduação"), Phrase("Disciplinas complementares")], true)

  function PatternOf(k: SectionKind): SectionPattern {
    match k
    case Info => INFO_PATTERN
    case Fixed => FIXED_PATTERN
    case Flexible => FLEXIBLE_PATTERN
    case Dcg => DCG_PATTERN
    case Acg => ACG_PATTERN
    case Acex => ACEX_PATTERN
  }

  /** The `tipo` metadata of a section document. */
  function Tipo(k: SectionKind): string {
    match k
    case Info => "informacoes_gerais"
    case Fixed => "curriculo_fixo"
    case Flexible => "curriculo_flexivel"
    case Dcg => "dcg"
    case Acg => "acg"
    case Acex => "acex"
  }

  function Heading(k: SectionKind): string {
    match k
    case Info => "INFORMAÇÕES GERAIS DO CURRÍCULO\n\n"
    case Fixed => "CURRÍCULO FIXO (CONTEÚDOS OBRIGATÓRIOS)\n\n"
    case Flexible => "CURRÍCULO FLEXÍVEL (DISCIPLINAS OPTATIVAS)\n\n"
    case Dcg => "DCG - DISCIPLINAS COMPLEMENTARES DE GRADUAÇÃO\n\n"
    case Acg => "ACG - ATIVIDADES COMPLEMENTARES DE GRADUAÇÃO\n\n"
    case Acex => "ACEx - ATIVIDADES COMPLEMENTARES DE EXTENSÃO\n\n"
  }

  /** The sub-total a section document reports, for the four sections that report one. */
  function HoursOf(k: SectionKind, w: Workload): Option<nat> {
    match k
    case Fixed => Some(w.fixo)
    case Dcg => Some(w.dcg)
    case Acg => Some(w.acg)
    case Acex => Some(w.acex)
    case _ => None
  }

  const FIXED_NOTE: string := "\n\nEsta é a base obrigatória do curso " + "com carga horária mínima de "
  const MINIMUM_NOTE: string := "\n\nCarga horária mínima obrigatória: "

  function Footer(k: SectionKind, w: Workload): string {
    match k
    case Fixed => FIXED_NOTE + NatToString(w.fixo) + " horas."
    case Dcg => MINIMUM_NOTE + NatToString(w.dcg) + " horas"
    case Acg => MINIMUM_NOTE + NatToString(w.acg) + " horas"
    case Acex => MINIMUM_NOTE + NatToString(w.acex) + " horas"
    case _ => ""
  }

  function Meta(k: SectionKind, w: Workload): map<string, MetaValue> {
    var m := map["tipo" := Str(Tipo(k)), "secao" := Str("estrutura_curricular")];
    match HoursOf(k, w)
    case None => m
    case Some(h) => m["carga_horaria" := Int(h)]
  }

  /** The document for a section of kind `k` whose stripped text is `body`. */
  function Render(k: SectionKind, body: string, w: Workload): Document {
    Document(Heading(k) + body + Footer(k, w), Meta(k, w))
  }

  /** The section of kind `k` is found in the content. */
  predicate Present(content: string, k: SectionKind) {
    Section(content, PatternOf(k)).Some?
  }

  /** `group(0).strip()` of the section of kind `k`; only read when the section is present. */
  function Body(content: string, k: SectionKind): string {
    match Section(content, PatternOf(k))
    case Some(x) => Strip(x)
    case None => ""
  }

  /** The document a section step contributes: none when the section is absent. */
  function DocFor(content: string, k: SectionKind, w: Workload): seq<Document> {
    if Present(content, k) then [Render(k, Body(content, k), w)] else []
  }

  // ---------------------------------------------------------------------
  // Section steps, one after the other

  /** What the steps for `ks` contribute, in order, when step `k` contributes `step(k)`. */
  function Steps(step: SectionKind -> seq<Document>, ks: seq<SectionKind>): seq<Document> {
    if ks == [] then [] else Steps(step, ks[..|ks| - 1]) + step(ks[|ks| - 1])
  }

  lemma StepsSnoc(step: SectionKind -> seq<Document>, ks: seq<SectionKind>, k: SectionKind)
    ensures Steps(step, ks + [k]) == Steps(step, ks) + step(k)
  {
    assert (ks + [k])[..|ks|] == ks;
  }

  /** The steps for `ALL_KINDS` are the six steps written out one after the other. */
  lemma StepsInOrder(step: SectionKind -> seq<Document>, prefix: seq<Document>)
    ensures prefix + Steps(step, ALL_KINDS)
         == prefix + step(Info) + step(Fixed) + step(Flexible) + step(Dcg) + step(Acg) + step(Acex)
  {
    var s1: seq<SectionKind> := [Info];
    var s2 := s1 + [Fixed];
    var s3 := s2 + [Flexible];
    var s4 := s3 + [Dcg];
    var s5 := s4 + [Acg];
    var s6 := s5 + [Acex];
    StepsSnoc(step, [], Info);
    assert [] + [Info] == s1;
    StepsSnoc(step, s1, Fixed);
    StepsSnoc(step, s2, Flexible);
    StepsSnoc(step, s3, Dcg);
    StepsSnoc(step, s4, Acg);
    StepsSnoc(step, s5, Acex);
    AllKindsInOrder();
  }

  /** The section step of `process` for each kind. */
  function StepOf(content: string, w: Workload): SectionKind -> seq<Document> {
    k => DocFor(content, k, w)
  }

  /** The documents the six section steps contribute. */
  function SectionDocs(content: string, w: Workload): seq<Document> {
    Steps(StepOf(content, w), ALL_KINDS)
  }

  /** The six section steps, one after the other, after whatever came before. */
  lemma SectionSteps(content: string, prefix: seq<Document>, w: Workload)
    ensures prefix + SectionDocs(content, w)
         == prefix + DocFor(content, Info, w) + DocFor(content, Fixed, w) + DocFor(content, Flexible, w)
          + DocFor(content, Dcg, w) + DocFor(content, Acg, w) + DocFor(content, Acex, w)
  {
    StepsInOrder(StepOf(content, w), prefix);
  }

  /** What `process` returns: the summary, then what the six section steps contribute, in order. */
  function CurricularDocs(content: string): seq<Document> {
    var w := Workloads(content);
    [SummaryDoc(w)] + SectionDocs(content, w)
  }

  // ---------------------------------------------------------------------
  // What the output looks like

  /** The kinds among `ks` that satisfy `found`, in the order of `ks`. */
  function Keep(found: SectionKind -> bool, ks: seq<SectionKind>): seq<SectionKind> {
    if ks == [] then []
    else
      var k := ks[|ks| - 1];
      Keep(found, ks[..|ks| - 1]) + if found(k) then [k] else []
  }

  /** `docs[i]` is `doc(ks[i])` for every `i`. */
  predicate Matches(docs: seq<Document>, ks: seq<SectionKind>, doc: SectionKind -> Document) {
    |docs| == |ks| && forall i :: 0 <= i < |ks| ==> docs[i] == doc(ks[i])
  }

  lemma MatchesConcat(d1: seq<Document>, k1: seq<SectionKind>, d2: seq<Document>, k2: seq<SectionKind>,
                      doc: SectionKind -> Document)
    requires Matches(d1, k1, doc) && Matches(d2, k2, doc)
    ensures Matches(d1 + d2, k1 + k2, doc)
  {
    forall i | 0 <= i < |k1 + k2|
      ensures (d1 + d2)[i] == doc((k1 + k2)[i])
    {
      if i >= |k1| {
        assert (k1 + k2)[i] == k2[i - |k1|] && (d1 + d2)[i] == d2[i - |k1|];
      }
    }
  }

  /**
   * When each step contributes `doc(k)` exactly for the kinds `found`
   * accepts, the steps emit one such document per accepted kind, in order.
   */
  lemma {:induction false} StepsMatch(step: SectionKind -> seq<Document>, found: SectionKind -> bool,
                                      doc: SectionKind -> Document, ks: seq<SectionKind>)
    requires forall k :: step(k) == if found(k) then [doc(k)] else []
    ensures Matches(Steps(step, ks), Keep(found, ks), doc)
  {
    if ks != [] {
      var init, k := ks[..|ks| - 1], ks[|ks| - 1];
      StepsMatch(step, found, doc, init);
      MatchesConcat(Steps(step, init), Keep(found, init), step(k), if found(k) then [k] else [], doc);
    }
  }

  /** Keeping kinds drops exactly the ones `found` rejects. */
  lemma {:induction false} KeepMembers(found: SectionKind -> bool, ks: seq<SectionKind>)
    ensures forall k :: k in Keep(found, ks) <==> k in ks && found(k)
  {
    if ks != [] {
      var init, k := ks[..|ks| - 1], ks[|ks| - 1];
      KeepMembers(found, init);
      assert ks == init + [k];
    }
  }

  /** Ranks strictly increase along `ks`, and all lie in `[lo, hi)`. */
  predicate RankedWithin(ks: seq<SectionKind>, lo: nat, hi: nat) {
    && (forall i :: 0 <= i < |ks| ==> lo <= Rank(ks[i]) < hi)
    && (forall i, j :: 0 <= i < j < |ks| ==> Rank(ks[i]) < Rank(ks[j]))
  }

  lemma RankedConcat(a: seq<SectionKind>, b: seq<SectionKind>, lo: nat, mid: nat, hi: nat)
    requires lo <= mid <= hi
    requires RankedWithin(a, lo, mid) && RankedWithin(b, mid, hi)
    ensures RankedWithin(a + b, lo, hi)
  {
    forall i | 0 <= i < |a + b|
      ensures lo <= Rank((a + b)[i]) < hi
    {
      if i < |a| {
        assert (a + b)[i] == a[i];
      } else {
        assert (a + b)[i] == b[i - |a|];
      }
    }
    forall i, j | 0 <= i < j < |a + b|
      ensures Rank((a + b)[i]) < Rank((a + b)[j])
    {
      if j < |a| {
      } else if i >= |a| {
        assert (a + b)[i] == b[i - |a|];
      }
    }
  }

  /** Keeping only some kinds keeps their order. */
  lemma {:induction false} KeepRanked(found: SectionKind -> bool, ks: seq<SectionKind>, lo: nat, hi: nat)
    requires RankedWithin(ks, lo, hi)
    ensures RankedWithin(Keep(found, ks), lo, hi)
  {
    if ks != [] {
      var init, k := ks[..|ks| - 1], ks[|ks| - 1];
      assert RankedWithin(init, lo, Rank(k));
      KeepRanked(found, init, lo, Rank(k));
      RankedConcat(Keep(found, init), if found(k) then [k] else [], lo, Rank(k), hi);
    }
  }

  /** Keeping kinds never adds any. */
  lemma {:induction false} KeepLength(found: SectionKind -> bool, ks: seq<SectionKind>)
    ensures |Keep(found, ks)| <= |ks|
  {
    if ks != [] {
      KeepLength(found, ks[..|ks| - 1]);
    }
  }

  lemma AllKindsComplete()
    ensures forall k :: k in ALL_KINDS
  {
    forall k
      ensures k in ALL_KINDS
    {
      assert ALL_KINDS[Rank(k)] == k;
    }
  }

  lemma AllKindsRanked()
    ensures RankedWithin(ALL_KINDS, 0, 6)
  {
  }

  /** Whether each section is found. */
  function FoundOf(content: string): SectionKind -> bool {
    k => Present(content, k)
  }

  /** The kinds of the section documents, in output order. */
  function Kinds(content: string): seq<SectionKind> {
    Keep(FoundOf(content), ALL_KINDS)
  }

  /**
   * The section documents follow the fixed order Info, Fixed, Flexible, DCG,
   * ACG, ACEx, so no kind appears twice.
   */
  lemma KindsOrdered(content: string)
    ensures var ks := Kinds(content);
      forall i, j :: 0 <= i < j < |ks| ==> Rank(ks[i]) < Rank(ks[j])
  {
    AllKindsRanked();
    KeepRanked(FoundOf(content), ALL_KINDS, 0, 6);
  }

  /** A kind is among the section documents exactly when its section is found. */
  lemma KindsPresent(content: string)
    ensures forall k :: k in Kinds(content) <==> Present(content, k)
  {
    AllKindsComplete();
    KeepMembers(FoundOf(content), ALL_KINDS);
    forall k
      ensures k in Kinds(content) <==> Present(content, k)
    {
      assert k in ALL_KINDS;
      assert FoundOf(content)(k) == Present(content, k);
    }
  }

  /** The rendered document of the section of each kind. */
  function RenderOf(content: string, w: Workload): SectionKind -> Document {
    k => Render(k, Body(content, k), w)
  }

  /**
   * After the summary, the `i`-th document is the rendered `i`-th section
   * found, with the sub-totals the summary reports.
   */
  lemma SectionLayout(content: string, w: Workload)
    ensures var docs, ks := SectionDocs(content, w), Kinds(content);
      && |docs| == |ks|
      && forall i :: 0 <= i < |ks| ==> Present(content, ks[i]) && docs[i] == Render(ks[i], Body(content, ks[i]), w)
  {
    StepsMatch(StepOf(content, w), FoundOf(content), RenderOf(content, w), ALL_KINDS);
    KeepMembers(FoundOf(content), ALL_KINDS);
  }

  /**
   * The output is never empty: the summary, tagged as the general summary,
   * comes first, followed by at most six section documents.
   */
  lemma CurricularShape(content: string)
    ensures var docs, w := CurricularDocs(content), Workloads(content);
      && 1 <= |docs| <= 7
      && docs[0] == SummaryDoc(w)
      && "tipo" in docs[0].metadata && docs[0].metadata["tipo"] == Str("resumo_carga_horaria")
      && "secao" in docs[0].metadata && docs[0].metadata["secao"] == Str("geral")
      && docs[1..] == SectionDocs(content, w)
  {
    var w := Workloads(content);
    SectionLayout(content, w);
    KeepLength(FoundOf(content), ALL_KINDS);
    assert CurricularDocs(content)[1..] == SectionDocs(content, w);
  }

  /** The workload marker whose sub-total a section document reports. */
  function HourMarker(k: SectionKind): Option<string> {
    match k
    case Fixed => Some(FIXO)
    case Dcg => Some(DCG)
    case Acg => Some(ACG)
    case Acex => Some(ACEX)
    case _ => None
  }

  /**
   * A rendered section carries its `tipo`, the `secao` "estrutura_curricular",
   * and, for the four sections with a workload, `carga_horaria` holding the
   * sub-total read from that workload's fragment.
   */
  lemma RenderTagged(content: string, k: SectionKind, body: string)
    ensures var d := Render(k, body, Workloads(content));
      && "tipo" in d.metadata && d.metadata["tipo"] == Str(Tipo(k))
      && "secao" in d.metadata && d.metadata["secao"] == Str("estrutura_curricular")
      && ("carga_horaria" in d.metadata <==> HourMarker(k).Some?)
      && (HourMarker(k).Some? ==> d.metadata["carga_horaria"] == Int(SubTotal(content, HourMarker(k).value)))
  {
  }

  lemma SolidJoin(a: string, b: string)
    requires |a| > 0 && !IsSpace(a[0]) && |b| > 0 && !IsSpace(b[|b| - 1])
    ensures Solid(a + b)
  {
    assert (a + b)[0] == a[0] && (a + b)[|a + b| - 1] == b[|b| - 1];
  }

  /** Each marker starts and ends with a character that `strip` keeps. */
  lemma MarkersSolid(k: SectionKind)
    ensures Solid(PatternOf(k).marker)
  {
    match k
    case Info => assert Solid(INFO_PATTERN.marker);
    case Fixed => assert Solid(FIXO);
    case Flexible => assert Solid(FLEXIBLE_PATTERN.marker);
    case Dcg => SolidJoin(DCG, " (DCG)");
    case Acg => SolidJoin(ACG, " (ACG)");
    case Acex => SolidJoin(ACEX, " (ACEx)");
  }

  /**
   * A section document's text starts with its heading and then the marker as
   * it appears in the content; stripping only removed white space after the
   * section.
   */
  lemma SectionStartsWithMarker(content: string, k: SectionKind)
    requires Present(content, k)
    ensures var b := Body(content, k);
      && b == RStrip(Section(content, PatternOf(k)).value)
      && OccursAt(b, PatternOf(k).marker, 0, Insensitive)
  {
    MarkersSolid(k);
    SectionBody(content, PatternOf(k));
  }

  /** The DCG, ACG and ACEx sections may run to the end of the text: each is found whenever its marker occurs. */
  lemma TrailingSectionFound(content: string, k: SectionKind)
    requires k == Dcg || k == Acg || k == Acex
    ensures Present(content, k) <==> exists m: nat :: OccursAt(content, PatternOf(k).marker, m, Insensitive)
  {
    SectionFoundAtEnd(content, PatternOf(k));
  }

  /** The other three sections need one of their terminators somewhere after the marker. */
  lemma BoundedSectionFound(content: string, k: SectionKind)
    requires k == Info || k == Fixed || k == Flexible
    ensures Present(content, k) <==>
      exists m: nat, e: nat :: m + |PatternOf(k).marker| <= e <= |content|
        && OccursAt(content, PatternOf(k).marker, m, Insensitive) && EndsAt(content, e, PatternOf(k).ends)
  {
    SectionFoundBounded(content, PatternOf(k));
  }

  lemma DigitFreeConcat(a: string, b: string)
    requires DigitFree(a) && DigitFree(b)
    ensures DigitFree(a + b)
  {
  }

  /** The fixed text before the total has no digit. */
  lemma HeadDigitFree()
    ensures DigitFree(SUMMARY_HEAD)
  {
    assert DigitFree("RESUMO DA ESTRUTURA CURRICULAR - ");
    assert DigitFree("CARGA HORÁRIA TOTAL\n\n");
    assert DigitFree("Carga horária total do curso: ");
    DigitFreeConcat("RESUMO DA ESTRUTURA CURRICULAR - ", "CARGA HORÁRIA TOTAL\n\n");
    DigitFreeConcat("RESUMO DA ESTRUTURA CURRICULAR - " + "CARGA HORÁRIA TOTAL\n\n", "Carga horária total do curso: ");
  }

  /** The breakdown titles have no digit. */
  lemma FixoTitleDigitFree()
    ensures DigitFree(FIXO_TITLE)
  {
    assert DigitFree("Conteúdos do currículo fixo");
  }

  lemma DcgTitleDigitFree()
    ensures DigitFree(DCG_TITLE)
  {
    assert DigitFree("Disciplinas Complementares de Graduação") && DigitFree(" (DCG)");
    DigitFreeConcat("Disciplinas Complementares de Graduação", " (DCG)");
  }

  lemma AcgTitleDigitFree()
    ensures DigitFree(ACG_TITLE)
  {
    assert DigitFree("Atividades Complementares de Graduação") && DigitFree(" (ACG)");
    DigitFreeConcat("Atividades Complementares de Graduação", " (ACG)");
  }

  lemma AcexTitleDigitFree()
    ensures DigitFree(ACEX_TITLE)
  {
    assert DigitFree("Atividades Complementares de Extensão") && DigitFree(" (ACEx)");
    DigitFreeConcat("Atividades Complementares de Extensão", " (ACEx)");
  }

  /** A breakdown line is read back as the sub-total it reports. */
  lemma DetailLineReadBack(title: string, hours: nat)
    requires DigitFree(title)
    ensures ExtractHours(DetailLine(title, hours)) == hours
  {
    DigitFreeConcat("- ", title);
    DigitFreeConcat("- " + title, ": ");
    ExtractHoursOfRendered("- " + title + ": ", hours, "\n");
  }

  /** Parsing the summary with `_extrair_horas` gives the total. */
  lemma SummaryReadBack(w: Workload)
    ensures ExtractHours(SummaryDoc(w).pageContent) == Total(w)
  {
    var parts := SummaryParts(w, Total(w));
    HeadDigitFree();
    ConcatFront(parts, 0);
    ConcatFront(parts, 1);
    ConcatFront(parts, 2);
    ExtractHoursOfRenderedRight(SUMMARY_HEAD, Total(w), Concat(parts[3..]));
  }

  /** The closing line, its pieces grouped to the right. */
  lemma CalculationNested(w: Workload, total: nat)
    ensures Calculation(w, total) ==
      CALCULATION_HEAD + (NatToString(w.fixo) + (" + " + (NatToString(w.dcg) + (" + " + (NatToString(w.acg)
      + (" + " + (NatToString(w.acex) + (" = " + (NatToString(total) + (" horas" + "\n"))))))))))
  {
  }

  lemma CalculationHeadDigitFree()
    ensures DigitFree(CALCULATION_HEAD)
  {
  }

  /**
   * Parsing the closing calculation line with `_extrair_horas` gives the
   * total: each operand is followed by " + " or " = ", never by "horas".
   */
  lemma CalculationReadBack(w: Workload, total: nat)
    ensures ExtractHours(Calculation(w, total)) == total
  {
    CalculationHeadDigitFree();
    ExtractHoursOfSum(CALCULATION_HEAD, w.fixo, w.dcg, w.acg, w.acex, total);
    CalculationNested(w, total);
  }

  /**
   * The summary holds one breakdown line per sub-total, and parsing each of
   * them with `_extrair_horas` gives that sub-total.
   */
  lemma SummaryLines(w: Workload)
    ensures var t := SummaryDoc(w).pageContent;
      && Contains(t, DetailLine(FIXO_TITLE, w.fixo)) && ExtractHours(DetailLine(FIXO_TITLE, w.fixo)) == w.fixo
      && Contains(t, DetailLine(DCG_TITLE, w.dcg)) && ExtractHours(DetailLine(DCG_TITLE, w.dcg)) == w.dcg
      && Contains(t, DetailLine(ACG_TITLE, w.acg)) && ExtractHours(DetailLine(ACG_TITLE, w.acg)) == w.acg
      && Contains(t, DetailLine(ACEX_TITLE, w.acex)) && ExtractHours(DetailLine(ACEX_TITLE, w.acex)) == w.acex
  {
    var parts := SummaryParts(w, Total(w));
    ConcatContains(parts, 4);
    ConcatContains(parts, 5);
    ConcatContains(parts, 6);
    ConcatContains(parts, 7);
    FixoTitleDigitFree();
    DcgTitleDigitFree();
    AcgTitleDigitFree();
    AcexTitleDigitFree();
    DetailLineReadBack(FIXO_TITLE, w.fixo);
    DetailLineReadBack(DCG_TITLE, w.dcg);
    DetailLineReadBack(ACG_TITLE, w.acg);
    DetailLineReadBack(ACEX_TITLE, w.acex);
  }

  /** The classification survives any text added around the content. */
  lemma CanHandleExtends(content: string, before: string, after: string)
    requires CanHandle(content)
    ensures CanHandle(before + content + after)
  {
    ContainsExtends(content, ESTRUTURA, before, after);
    ContainsExtends(content, CARGA, before, after);
  }

  // ---------------------------------------------------------------------
  // The imperative `process`

  /**
   * One of the four sub-total steps: the accumulator stays 0 unless the
   * marker occurs and the fragment after it is found.
   */
  method ReadSubTotal(content: string, marker: string) returns (ch: nat)
    ensures ch == SubTotal(content, marker)
  {
    ch := 0;
    if Contains(content, marker) {
      var secao := HourFragment(content, marker);
      if secao.Some? {
        ch := ExtractHours(secao.value);
      }
    }
  }

  /**
   * One of the six section steps: search for the section and, when it is
   * found, append its rendered document.
   */
  method AppendSection(docs: seq<Document>, content: string, k: SectionKind, w: Workload) returns (docs': seq<Document>)
    ensures docs' == docs + DocFor(content, k, w)
  {
    docs' := docs;
    var found := Section(content, PatternOf(k));
    if found.Some? {
      var texto := Strip(found.value);
      docs' := docs' + [Render(k, texto, w)];
    }
  }

  /**
   * Reassigns the four accumulators, appends the summary, then appends one
   * document per section found, in the order the source checks them.
   */
  method Process(content: string) returns (docs: seq<Document>)
    ensures docs == CurricularDocs(content)
  {
    docs := [];
    var chFixo := ReadSubTotal(content, FIXO);
    var chDcg := ReadSubTotal(content, DCG);
    var chAcg := ReadSubTotal(content, ACG);
    var chAcex := ReadSubTotal(content, ACEX);
    var w := Workload(chFixo, chDcg, chAcg, chAcex);
    assert w == Workloads(content);
    var chTotal := chFixo + chDcg + chAcg + chAcex;
    assert chTotal == Total(w);
    docs := docs + [Document(SummaryText(w, chTotal), SUMMARY_META)];
    assert docs == [SummaryDoc(w)];
    docs := AppendSection(docs, content, Info, w);
    docs := AppendSection(docs, content, Fixed, w);
    docs := AppendSection(docs, content, Flexible, w);
    docs := AppendSection(docs, content, Dcg, w);
    docs := AppendSection(docs, content, Acg, w);
    docs := AppendSection(docs, content, Acex, w);
    SectionSteps(content, [SummaryDoc(w)], w);
  }
}
