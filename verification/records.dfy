/** The dictionaries the backend passes between its parts, as records.
    A key that a Python dictionary may lack is an `Option`. */
module Records {
  import opened Wrappers

  /** One entry of a session's history: who spoke, what was said and an
      ISO-8601 time stamp (app/agent.py:52-56). */
  datatype Turn = Turn(role: string, content: string, timestamp: string)

  /** Where a chunk came from in its document (rag_engine.py:71-75). */
  datatype DocMeta = DocMeta(filePath: string, chunkIndex: nat, totalChunks: nat)

  /** A document chunk as stored and retrieved: its text, the name of its
      source, its position, and the relevance score a search attaches to
      it. The score is kept as the text `format_context` prints for it. */
  datatype Doc = Doc(content: Option<string>, source: Option<string>, meta: Option<DocMeta>, score: Option<string>)
}
