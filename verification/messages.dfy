/**
 * The `messages/` directory both translation scripts read from and write
 * to: one JSON file per locale, named by our locale code.
 */
module Messages {
  import opened Wrappers
  import opened JsonTree

  /** Contents of a file under `messages/`: a document `JSON.parse` accepts,
      or text it rejects. */
  datatype File = Parsed(doc: Value) | Unparseable

  /** What reading and parsing `messages/en.json` yields; `None` when the
      file is missing or `JSON.parse` throws. */
  function Source(messages: map<string, File>): Option<Value> {
    if "en" in messages && messages["en"].Parsed? then Some(messages["en"].doc) else None
  }
}
