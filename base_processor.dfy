/**
 * The chain of responsibility that hands the extracted text to the first
 * processor willing to take it. A chain is the sequence of its links, first
 * to last: the next link of a processor is the rest of the sequence, and the
 * last link has none.
 */
module BaseProcessor {
  import opened Documents
  import CurricularStructureProcessor
  import CourseSubjectsProcessor
  import GenericProcessor

  /** The three concrete processors. */
  datatype Processor = CurricularStructure | CourseSubjects | Generic

  /** `can_handle` of each processor. */
  predicate CanHandle(p: Processor, content: string) {
    match p
    case CurricularStructure => CurricularStructureProcessor.CanHandle(content)
    case CourseSubjects => CourseSubjectsProcessor.CanHandle(content)
    case Generic => GenericProcessor.CanHandle(content)
  }

  /** `process` of each processor. */
  function Process(p: Processor, content: string): seq<Document> {
    match p
    case CurricularStructure => CurricularStructureProcessor.CurricularDocs(content)
    case CourseSubjects => CourseSubjectsProcessor.SubjectsDocs(content)
    case Generic => GenericProcessor.Process(content)
  }

  /**
   * `handle` called on the first link: process when it accepts, otherwise
   * pass the content on to the next link, or give up with no documents.
   */
  function Handle(chain: seq<Processor>, content: string): seq<Document>
    requires chain != []
    decreases |chain|
  {
    if CanHandle(chain[0], content) then Process(chain[0], content)
    else if |chain| > 1 then Handle(chain[1..], content)
    else []
  }

  /** Link `i` accepts the content and no link before it does. */
  predicate FirstAccepting(chain: seq<Processor>, content: string, i: nat) {
    && i < |chain|
    && CanHandle(chain[i], content)
    && forall j :: 0 <= j < i ==> !CanHandle(chain[j], content)
  }

  /** `handle` returns what the first accepting link's `process` returns. */
  lemma {:induction false} HandleDispatch(chain: seq<Processor>, content: string, i: nat)
    requires chain != [] && FirstAccepting(chain, content, i)
    decreases |chain|
    ensures Handle(chain, content) == Process(chain[i], content)
  {
    if i > 0 {
      assert !CanHandle(chain[0], content);
      var rest := chain[1..];
      assert rest[i - 1] == chain[i];
      assert forall j :: 0 <= j < i - 1 ==> rest[j] == chain[j + 1];
      assert FirstAccepting(rest, content, i - 1);
      HandleDispatch(rest, content, i - 1);
    }
  }

  /** When no link accepts the content, `handle` returns the empty list. */
  lemma {:induction false} HandleNoMatch(chain: seq<Processor>, content: string)
    requires chain != []
    requires forall j :: 0 <= j < |chain| ==> !CanHandle(chain[j], content)
    decreases |chain|
    ensures Handle(chain, content) == []
  {
    if |chain| > 1 {
      var rest := chain[1..];
      assert forall j :: 0 <= j < |rest| ==> rest[j] == chain[j + 1];
      HandleNoMatch(rest, content);
    }
  }

  /** A processor that accepts the content returns at least one document. */
  lemma AcceptedNonEmpty(p: Processor, content: string)
    requires CanHandle(p, content)
    ensures |Process(p, content)| >= 1
  {
    match p
    case CurricularStructure => CurricularStructureProcessor.CurricularShape(content);
    case CourseSubjects => CourseSubjectsProcessor.SubjectsLayout(content);
    case Generic =>
  }

  /** A chain whose last link is the generic fallback never returns the empty list. */
  lemma {:induction false} FallbackNeverEmpty(chain: seq<Processor>, content: string)
    requires chain != [] && chain[|chain| - 1] == Generic
    decreases |chain|
    ensures |Handle(chain, content)| >= 1
  {
    if CanHandle(chain[0], content) {
      AcceptedNonEmpty(chain[0], content);
    } else {
      assert |chain| > 1;
      FallbackNeverEmpty(chain[1..], content);
    }
  }

  /** The chain the upload endpoint builds: curricular structure, then course subjects, then the fallback. */
  const DEFAULT_CHAIN: seq<Processor> := [CurricularStructure, CourseSubjects, Generic]

  /**
   * With the default chain, curricular-structure content always gets the
   * curricular output, even when it also holds semester labels; otherwise
   * labelled content gets the semester documents; anything else gets the
   * single cleaned document. The result is never empty.
   */
  lemma DefaultChainPriority(content: string)
    ensures Handle(DEFAULT_CHAIN, content)
         == if CurricularStructureProcessor.CanHandle(content) then CurricularStructureProcessor.CurricularDocs(content)
            else if CourseSubjectsProcessor.CanHandle(content) then CourseSubjectsProcessor.SubjectsDocs(content)
            else GenericProcessor.Process(content)
    ensures |Handle(DEFAULT_CHAIN, content)| >= 1
  {
    if CurricularStructureProcessor.CanHandle(content) {
      HandleDispatch(DEFAULT_CHAIN, content, 0);
    } else if CourseSubjectsProcessor.CanHandle(content) {
      HandleDispatch(DEFAULT_CHAIN, content, 1);
    } else {
      HandleDispatch(DEFAULT_CHAIN, content, 2);
    }
    FallbackNeverEmpty(DEFAULT_CHAIN, content);
  }
}
