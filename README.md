# Document preprocessing chain

This project models the preprocessing chain of the course-coordination chatbot
(`backend-python/preprocessing/`) in Dafny and proves properties of the model.
The chain takes one string of text extracted from a PDF and returns an ordered
list of documents. Each document is page text plus a metadata dictionary whose
values are strings or integers.

Three processors form a chain of responsibility. The first one whose
`can_handle` accepts the text runs its `process`:

- **Curricular structure.** It accepts text holding both "Estrutura Curricular"
  and "Carga horária".
  - It reads four workload sub-totals: fixed contents, DCG, ACG and ACEx.
  - It emits a summary document holding their sum.
  - It then emits one document for each of six marker-bounded sections it
    finds, always in the same order.
- **Course subjects.** It accepts text holding a semester label such as
  "1° Semestre". It splits the text on those labels and emits one document per
  label.
- **Generic fallback.** It accepts everything. It turns newlines into spaces,
  strips the ends and emits one untagged document.

The regular expressions are modelled as explicit scanners:

- `Hours` holds the hour parser `(\d+)\s*horas?` and the workload fragment
  `Marker.*?Carga horária mínima:\s*([^\n]+)`.
- `Sections` holds the section search `Marker.*?(?=T1|T2|…[|\Z])`.
- `Search` holds `re.search`, `re.finditer` and `re.split` for the semester
  label `\d+°\s*Semestre`.
- `Text` holds the character classes, `str.strip`, literal search and decimal
  conversion.

The two imperative `process` bodies are methods. Each is proved equal to a
specification function, and the chain uses that function:

- `CurricularStructureProcessor.Process` reassigns four accumulators and
  appends to `docs` step by step.
- `CourseSubjectsProcessor.Process` walks the split pieces two at a time.

Points of the code that the model keeps as they are:

- Section ends. Each of the six section searches has its own terminators.
  The DCG, ACG and ACEx searches may also end at the end of the text. The
  general-info, fixed and flexible sections are dropped when none of their
  terminators follows the marker.
- Trailing label. A semester label at the very end of the text still gets a
  document, holding the label, a newline and nothing after it.
- Degree sign. The semester label pattern uses the degree sign U+00B0. A
  comment in `course_subjects_processor.py` shows the ordinal indicator `º`
  instead; the model follows the pattern.

## Model

| member | source | states |
|---|---|---|
| BaseProcessor.Handle | backend-python/preprocessing/base_processor.py:33-45 | `handle` on the first link of a chain; its contract is carried by HandleDispatch, HandleNoMatch and FallbackNeverEmpty below |
| BaseProcessor.HandleDispatch | backend-python/preprocessing/base_processor.py:33-45 | when link `i` is the first to accept the text, `handle` returns exactly link `i`'s `process` output; the links before it only pass the text on |
| BaseProcessor.HandleNoMatch | backend-python/preprocessing/base_processor.py:42-45 | when no link accepts the text, `handle` returns the empty list |
| BaseProcessor.AcceptedNonEmpty | backend-python/preprocessing/base_processor.py:40-41 | every processor that accepts the text returns at least one document |
| BaseProcessor.FallbackNeverEmpty | backend-python/preprocessing/base_processor.py:40-45 | a chain whose last link is the generic processor never returns the empty list |
| BaseProcessor.DefaultChainPriority | backend-python/main.py:100-104 | with the chain curricular → course subjects → generic, curricular text gets the curricular output even when it also has semester labels; otherwise labelled text gets the semester documents; anything else gets the cleaned document; the result is never empty |
| CurricularStructureProcessor.CanHandle | backend-python/preprocessing/curricular_structure_processor.py:11-13 | the case-sensitive test for both phrases; its contract is carried by CanHandleExtends and DefaultChainPriority |
| CurricularStructureProcessor.CanHandleExtends | backend-python/preprocessing/curricular_structure_processor.py:11-13 | the case-sensitive classification still holds when any text is added before or after the content |
| Hours.ExtractHours | backend-python/preprocessing/curricular_structure_processor.py:15-18 | `_extrair_horas`; its contract is carried by FirstHourMatch, ExtractHoursOfRendered and ExtractHoursThousands |
| Hours.FirstHourMatch | backend-python/preprocessing/curricular_structure_processor.py:17 | the match `re.search` finds is the leftmost place where digits, optional white space and "hora" occur, and it starts a whole digit run |
| Hours.ExtractHoursOfRendered | backend-python/preprocessing/curricular_structure_processor.py:15-18 | a number written with `str` and followed by " horas" is read back exactly by `_extrair_horas`, after any digit-free text and before any text |
| Hours.ExtractHoursShift | backend-python/preprocessing/curricular_structure_processor.py:15-18 | when no match of `(\d+)\s*horas?` starts in the text in front, `_extrair_horas` on the whole text gives what it gives on the rest |
| Hours.ExtractHoursAfterNumber | backend-python/preprocessing/curricular_structure_processor.py:15-18 | a number followed by a space and a character that is neither white space nor "h" is no hour figure, so parsing continues behind it |
| Hours.ExtractHoursOfSum | backend-python/preprocessing/curricular_structure_processor.py:15-18 | a sum written out as "a + b + c + d = t horas" behind digit-free text is read back as its result `t` |
| Hours.ThousandsMatch | backend-python/preprocessing/curricular_structure_processor.py:17 | in "2.400 horas" there is no match at the "2" or the dot; the first match starts at "400" |
| Hours.ExtractHoursThousands | backend-python/preprocessing/curricular_structure_processor.py:15-18 | `_extrair_horas("2.400 horas")` is 400 |
| Hours.HourFragment | backend-python/preprocessing/curricular_structure_processor.py:35-38 | the captured fragment holds no newline and does not start with white space; which text it is, HourFragmentShape states |
| Hours.HourFragmentShape | backend-python/preprocessing/curricular_structure_processor.py:35-38 | the fragment is the rest of one line: take the first case-insensitive occurrence of the marker, then the first "Carga horária mínima:" at or after its end, skip all white space (newlines included) after it, and capture up to the next newline or the end of the text |
| Hours.HourFragmentFound | backend-python/preprocessing/curricular_structure_processor.py:35-39 | the fragment search succeeds exactly when some occurrence of the marker is followed, after its end, by "Carga horária mínima:" |
| Hours.SubTotal | backend-python/preprocessing/curricular_structure_processor.py:34-40 | one sub-total, as each of the four blocks at lines 34-64 computes it; its contract is carried by SubTotalZero, SubTotalOfBlock, HourFragmentFound and ReadSubTotal |
| Hours.SubTotalOfBlock | backend-python/preprocessing/curricular_structure_processor.py:34-40 | content that opens with the marker and then holds "Carga horária mínima: <n> horas" on one line, with no earlier "Carga horária mínima:" after the marker, gives the sub-total `n` |
| Hours.SubTotalZero | backend-python/preprocessing/curricular_structure_processor.py:28-64 | a sub-total stays 0 when its marker does not occur with its exact case, or when no "Carga horária mínima:" follows the marker |
| CurricularStructureProcessor.ReadSubTotal | backend-python/preprocessing/curricular_structure_processor.py:34-40 | one accumulator step gives the sub-total: 0 unless the marker occurs and the fragment is found, otherwise the hours parsed from the fragment |
| CurricularStructureProcessor.SummaryReadBack | backend-python/preprocessing/curricular_structure_processor.py:67-72 | parsing the summary text with `_extrair_horas` gives `ch_total`, the sum of the four sub-totals |
| CurricularStructureProcessor.CalculationReadBack | backend-python/preprocessing/curricular_structure_processor.py:80 | parsing the closing line "Cálculo: fixo + dcg + acg + acex = total horas" with `_extrair_horas` gives the total |
| CurricularStructureProcessor.SummaryLines | backend-python/preprocessing/curricular_structure_processor.py:70-81 | the summary holds one breakdown line per sub-total, and parsing each line gives that sub-total back |
| CurricularStructureProcessor.DetailLineReadBack | backend-python/preprocessing/curricular_structure_processor.py:75-78 | a breakdown line with a digit-free title is parsed back as the hours it reports |
| Sections.SectionSpan | backend-python/preprocessing/curricular_structure_processor.py:89-92 | the span of the section search; its contract is carried by SectionSpanShape, SectionFound, SectionFoundAtEnd and SectionFoundBounded |
| Sections.Section | backend-python/preprocessing/curricular_structure_processor.py:89-94 | `group(0)` of the section search, as in each of the six searches at lines 89-158; its contract is carried by SectionBody and the SectionFound lemmas |
| Sections.FirstStop | backend-python/preprocessing/curricular_structure_processor.py:89-92 | the lazy `.*?` stops at a place where the look-ahead holds, and the look-ahead holds nowhere before it |
| Sections.SectionSpanShape | backend-python/preprocessing/curricular_structure_processor.py:89-158 | a section starts at the first occurrence of its marker (any case) and ends at the first terminator, or the end where `\Z` is allowed, at or after the marker's end |
| Sections.SectionFound | backend-python/preprocessing/curricular_structure_processor.py:89-158 | a section is found exactly when some occurrence of the marker is followed by a place where the look-ahead holds |
| Sections.SectionFoundAtEnd | backend-python/preprocessing/curricular_structure_processor.py:125-158 | with `\Z` among the alternatives, the section is found exactly when the marker occurs |
| Sections.SectionFoundBounded | backend-python/preprocessing/curricular_structure_processor.py:89-122 | without `\Z`, the section is found exactly when one of its terminators starts somewhere after an occurrence of the marker |
| Sections.SectionBody | backend-python/preprocessing/curricular_structure_processor.py:94 | `group(0).strip()` of a found section starts with the marker, as it appears in the text, and loses only trailing white space |
| CurricularStructureProcessor.TrailingSectionFound | backend-python/preprocessing/curricular_structure_processor.py:125-158 | the DCG, ACG and ACEx sections are emitted whenever their parenthesised marker occurs |
| CurricularStructureProcessor.BoundedSectionFound | backend-python/preprocessing/curricular_structure_processor.py:89-122 | the general-info, fixed and flexible sections are emitted exactly when one of their terminators follows an occurrence of the marker |
| CurricularStructureProcessor.SectionStartsWithMarker | backend-python/preprocessing/curricular_structure_processor.py:93-158 | the text of each emitted section starts with that section's marker and is the section with only its trailing white space removed |
| CurricularStructureProcessor.AppendSection | backend-python/preprocessing/curricular_structure_processor.py:93-98 | one section step appends the rendered section when it is found, and appends nothing otherwise |
| CurricularStructureProcessor.SectionSteps | backend-python/preprocessing/curricular_structure_processor.py:88-158 | the section documents are the six steps' contributions in the order general info, fixed, flexible, DCG, ACG, ACEx |
| CurricularStructureProcessor.CurricularDocs | backend-python/preprocessing/curricular_structure_processor.py:20-160 | what `process` returns; its contract is carried by Process, CurricularShape, SectionLayout, KindsOrdered, KindsPresent, RenderTagged and SummaryReadBack |
| CurricularStructureProcessor.Process | backend-python/preprocessing/curricular_structure_processor.py:20-160 | the imperative `process` returns the summary document followed by the six section steps' documents |
| CurricularStructureProcessor.CurricularShape | backend-python/preprocessing/curricular_structure_processor.py:83-86 | the output has between 1 and 7 documents; the first is the summary, tagged `tipo=resumo_carga_horaria` and `secao=geral`; the rest are the section documents |
| CurricularStructureProcessor.SectionLayout | backend-python/preprocessing/curricular_structure_processor.py:89-158 | after the summary, the `i`-th document is the rendered `i`-th section found, with the same sub-totals the summary reports |
| CurricularStructureProcessor.KindsOrdered | backend-python/preprocessing/curricular_structure_processor.py:89-158 | section documents appear in the fixed order general info, fixed, flexible, DCG, ACG, ACEx, whatever their order in the text, so none appears twice |
| CurricularStructureProcessor.KindsPresent | backend-python/preprocessing/curricular_structure_processor.py:93-158 | a section has a document exactly when that section is found |
| CurricularStructureProcessor.RenderTagged | backend-python/preprocessing/curricular_structure_processor.py:95-158 | each section document carries its `tipo` and `secao=estrutura_curricular`; exactly the fixed, DCG, ACG and ACEx documents carry `carga_horaria`, equal to the sub-total the summary reports |
| Search.NextMatch | backend-python/preprocessing/course_subjects_processor.py:13 | `re.search` returns the leftmost match at or after the start index, and there is no match before it |
| Search.Spans | backend-python/preprocessing/course_subjects_processor.py:19 | every span the scan returns is a non-empty match that ends inside the text |
| Search.SpansLeftmost | backend-python/preprocessing/course_subjects_processor.py:19 | each match is the first one at or after the end of the previous match |
| Search.SpansOrdered | backend-python/preprocessing/course_subjects_processor.py:19 | the spans come in text order, and no match starts in the gap between two consecutive spans |
| Search.SpansExhaustive | backend-python/preprocessing/course_subjects_processor.py:19 | the scan stops only when no match is left after the last span (or anywhere, when there is no span) |
| Search.SplitFrom | backend-python/preprocessing/course_subjects_processor.py:19 | `re.split` with a capturing group returns an odd number of pieces |
| Search.SplitConcat | backend-python/preprocessing/course_subjects_processor.py:19-25 | the split has one label piece per match, so `blocos[i + 1]` is in bounds for every odd `i`; joining the pieces gives the content back |
| Search.SplitMatches | backend-python/preprocessing/course_subjects_processor.py:19 | the odd pieces are the matched labels, in order |
| Search.SplitGaps | backend-python/preprocessing/course_subjects_processor.py:19 | each even piece after a label is the text from that label's end to the next label or the end of the text |
| CourseSubjectsProcessor.LabelEnd | backend-python/preprocessing/course_subjects_processor.py:19 | a semester label is non-empty, ends inside the text and ends with the "e" of "Semestre"; LabelShape gives the whole shape |
| CourseSubjectsProcessor.LabelShape | backend-python/preprocessing/course_subjects_processor.py:19 | a label span is one whole `\d+°\s*Semestre` match: a non-empty digit run, the degree sign, white space, and "Semestre" ending exactly where the span ends |
| CourseSubjectsProcessor.LabelTrimmed | backend-python/preprocessing/course_subjects_processor.py:24 | a matched label has no white space to strip |
| CourseSubjectsProcessor.Labels | backend-python/preprocessing/course_subjects_processor.py:19 | every label span the split uses starts a match of `\d+°\s*Semestre` and ends where LabelEnd, and so LabelShape, puts its end |
| CourseSubjectsProcessor.Split | backend-python/preprocessing/course_subjects_processor.py:19 | the split has two pieces per label plus one |
| CourseSubjectsProcessor.PairDocs | backend-python/preprocessing/course_subjects_processor.py:23-30 | the `k`-th document pairs piece `2k + 1` with piece `2k + 2` |
| CourseSubjectsProcessor.SubjectsDocs | backend-python/preprocessing/course_subjects_processor.py:15-32 | what `process` returns; its contract is carried by Process, SubjectsDocAt and SubjectsLayout |
| CourseSubjectsProcessor.Process | backend-python/preprocessing/course_subjects_processor.py:15-32 | the stride-2 loop returns one document per label/block pair, in order |
| CourseSubjectsProcessor.CanHandle | backend-python/preprocessing/course_subjects_processor.py:11-13 | some label `\d+°\s*Semestre` occurs; its contract is carried by CanHandleFirst and SubjectsLayout |
| CourseSubjectsProcessor.CanHandleFirst | backend-python/preprocessing/course_subjects_processor.py:11-13 | the content is accepted exactly when the label scan finds a label |
| CourseSubjectsProcessor.SubjectsDocAt | backend-python/preprocessing/course_subjects_processor.py:24-30 | the `k`-th document is the `k`-th label, a newline and the stripped text up to the next label, tagged `semestre=label` and `tipo=grade_disciplinas` |
| CourseSubjectsProcessor.LabelsOrdered | backend-python/preprocessing/course_subjects_processor.py:19 | the semester labels come in text order, each ending before the next starts, and no label starts between two consecutive ones |
| CourseSubjectsProcessor.SubjectsLayout | backend-python/preprocessing/course_subjects_processor.py:13-30 | there is one document per label match, so the output is non-empty exactly when the content is accepted; documents follow the labels' order, each label ending before the next starts with no label skipped in between, and text before the first label appears in none |
| GenericProcessor.CanHandle | backend-python/preprocessing/generic_processor.py:11-16 | the fallback accepts every text, the empty one included |
| GenericProcessor.Process | backend-python/preprocessing/generic_processor.py:18-34 | exactly one document, with empty metadata, holding the cleaned text |
| GenericProcessor.Clean | backend-python/preprocessing/generic_processor.py:26 | `content.replace('\n', ' ').strip()`; its contract is carried by CleanShape, CleanIdempotent and CleanExample |
| GenericProcessor.CleanShape | backend-python/preprocessing/generic_processor.py:26 | the cleaned text holds no newline, has no white space at either end, is no longer than the input, and is empty exactly when the input is all white space (so for empty input) |
| GenericProcessor.CleanIdempotent | backend-python/preprocessing/generic_processor.py:26 | cleaning the cleaned text again changes nothing |
| GenericProcessor.CleanExample | backend-python/preprocessing/generic_processor.py:26 | "Hello\nWorld  " is cleaned to "Hello World" |

## Left out

- `backend-python/main.py` is not part of this model beyond the chain order at lines 100-104. It covers PDF loading, temporary files, the HTTP endpoints, text splitting, embeddings, the vector store and the LLM call. All of these are I/O or library code.
- `main.py` also falls back to the loaded pages when the chain returns nothing. That is outside the chain and is not modelled.
- Abstract base class. `BaseProcessor.__init__` and the abstract `can_handle`/`process` become a chain of processor variants. The next link is the rest of the sequence, and the end of the sequence is the missing next link.
- Digits. Digits are ASCII `0`-`9` only. Python's `\d` also accepts other Unicode decimal digits.
- White space. It is the fixed set `str.isspace` accepts.
- Case folding. Case-insensitive matching folds ASCII and Latin-1 capitals only. Python's full Unicode case equivalences, such as the long s and the Kelvin sign, are not modelled.
- Hours.HourFragment: in one edge case the regex backtracks, and the model does not. When only white space follows "Carga horária mínima:" up to the end of the text, the regex captures one blank or fails, while the model captures the empty string. Every one of these outcomes gives 0 hours.
- Hours.ExtractHours: CPython's 4300-digit limit on int/str conversion, which raises ValueError, is not modelled. The same holds for rendering a number of more than 4300 digits in the summary and section texts (Text.NatToString).
- Documents.Document: metadata is a map, so the insertion order of Python dictionary keys is not modelled.
- LangChain `Document` is reduced to its page text and metadata.
- CurricularStructureProcessor.Process delegates the four accumulator blocks to `ReadSubTotal` and the six section blocks to `AppendSection`. Each helper is one of the repeated blocks written once; the order of the steps is that of the source.
