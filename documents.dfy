/**
 * The unit every processor produces: a LangChain `Document`, that is page
 * text plus a metadata dictionary whose values are strings or integers.
 */
module Documents {

  datatype MetaValue = Str(s: string) | Int(n: int)

  /** Python dictionaries keep insertion order; the model keeps only the key/value pairs. */
  datatype Document = Document(pageContent: string, metadata: map<string, MetaValue>)
}
