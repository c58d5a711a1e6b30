/**
 * The fallback processor: accepts every content, turns each newline into a
 * space, strips white space at both ends and returns one untagged document.
 */
module GenericProcessor {
  import opened Text
  import opened Documents

  /** The fallback is meant to sit last in the chain: it accepts everything. */
  predicate CanHandle(content: string): (b: bool)
    ensures b
  {
    true
  }

  /** Python's `s.replace('\n', ' ')`. */
  function ReplaceNewlines(s: string): string {
    seq(|s|, k requires 0 <= k < |s| => if s[k] == '\n' then ' ' else s[k])
  }

  /** `content.replace('\n', ' ').strip()` */
  function Clean(content: string): string {
    Strip(ReplaceNewlines(content))
  }

  /** One document holding the cleaned text, with no metadata. */
  function Process(content: string): (docs: seq<Document>)
    ensures |docs| == 1 && docs[0].metadata == map[]
    ensures docs[0].pageContent == Clean(content)
  {
    [Document(Clean(content), map[])]
  }

  /**
   * The cleaned text holds no newline, has no white space at either end, is
   * no longer than the input, and is empty exactly when the input is all
   * white space (newlines included), so in particular for empty input.
   */
  lemma CleanShape(content: string)
    ensures var c := Clean(content);
      && (forall k :: 0 <= k < |c| ==> c[k] != '\n')
      && Trimmed(c)
      && |c| <= |content|
      && (content == [] ==> c == [])
      && (c == [] <==> forall k :: 0 <= k < |content| ==> IsSpace(content[k]))
  {
    var rep := ReplaceNewlines(content);
    var c := Strip(rep);
    var a := StripOffset(rep);
    StripTrimmed(rep);
    StripSlice(rep);
    forall k | 0 <= k < |c| ensures c[k] != '\n' {
      assert c[k] == rep[a + k];
    }
    StripEmpty(rep);
    assert forall k :: 0 <= k < |content| ==> (IsSpace(rep[k]) <==> IsSpace(content[k]));
  }

  /** Cleaning an already cleaned text changes nothing. */
  lemma CleanIdempotent(content: string)
    ensures Clean(Clean(content)) == Clean(content)
  {
    var c := Clean(content);
    CleanShape(content);
    assert ReplaceNewlines(c) == c;
    StripUnchanged(c);
  }

  /** The fallback example: newlines become spaces and the trailing blanks go. */
  lemma CleanExample()
    ensures Clean("Hello\nWorld  ") == "Hello World"
  {
    ExampleReplaced();
    ExampleStripped();
    assert !IsSpace("Hello World  "[0]);
    StripUnchanged("Hello World  ");
  }

  lemma ExampleReplaced()
    ensures ReplaceNewlines("Hello\nWorld  ") == "Hello World  "
  {
    var rep := ReplaceNewlines("Hello\nWorld  ");
    assert forall k :: 0 <= k < 13 ==> rep[k] == "Hello World  "[k];
  }

  lemma ExampleStripped()
    ensures RStrip("Hello World  ") == "Hello World"
  {
    assert "Hello World  "[..12] == "Hello World ";
    assert "Hello World "[..11] == "Hello World";
    assert RStrip("Hello World") == "Hello World";
  }
}
