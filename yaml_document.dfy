/**
 * The decoded YAML data the processor works on. Decoding and encoding
 * themselves belong to Drupal's YAML serializer and are not modelled: a
 * document is the ordered top-level mapping that `Yaml::decode` returns.
 */
module YamlDocument {

  /** A YAML value: a scalar (kept as its text), a list, or a nested mapping. */
  datatype Value = Scalar(text: string) | List(items: seq<Value>) | Mapping(entries: seq<Entry>)

  datatype Entry = Entry(key: string, value: Value)

  /** A PHP array holding the top level: entries in insertion order. */
  type Document = seq<Entry>

  /** The top-level keys of a document. */
  function Keys(d: Document): set<string>
  {
    set e | e in d :: e.key
  }

  /** A PHP array never holds one key twice. */
  predicate DistinctKeys(d: Document)
  {
    forall i, j | 0 <= i < j < |d| :: d[i].key != d[j].key
  }
}
