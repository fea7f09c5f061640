/** The session-scoped key/value store that the cache and the memory modules share.
    It stands for the framework's global session state: one string-keyed map
    holding file bytes, embedding lists and answers side by side. */
module Session {
  import opened FileTypes
  import opened RankingTypes

  /** What the source stores under a key: a file's bytes, a file's paragraph embeddings, or an answer. */
  datatype Value = FileBytes(bytes: seq<byte>) | Embeddings(vectors: seq<Vec>) | Answer(text: string)

  type Store = map<string, Value>

  class SessionState {
    var entries: Store

    /** A new session starts with no entries. */
    constructor ()
      ensures entries == map[]
    {
      entries := map[];
    }
  }
}
