/**
 * The values the converter works on: parsed JSON tokens (Newtonsoft's JObject,
 * JArray and JValue), flattened records, the outcome of the foreign JSON parser
 * and the faults that escape the converter as uncaught exceptions.
 */
module JsonValues {

  datatype Option<+T> = None | Some(value: T)

  /** A leaf token (JValue). A number carries the text it renders as. */
  datatype Scalar = Str(s: string) | Num(text: string) | Bool(b: bool) | Null

  /** A parsed token. An object's members keep their document order. */
  datatype Json =
    | JObject(members: seq<Member>)
    | JArray(items: seq<Json>)
    | JValue(scalar: Scalar)

  datatype Member = Member(key: string, value: Json)

  /** One property of a flattened record: a flat key and the leaf found under it. */
  datatype Field = Field(key: string, value: Scalar)

  /** What JsonConvert.DeserializeObject does with a text. */
  datatype ParseOutcome =
    | Parsed(token: Json)     // a token
    | NoValue                 // returns null (an empty or blank text)
    | ReaderError             // throws JsonReaderException (malformed text)
    | SerializationError      // throws a JsonException that is not a reader error

  /** An exception that the converter does not catch. */
  datatype Fault =
    | DuplicateKey(key: string)  // JObject.Add of a name already present (ArgumentException)
    | NullSource                 // Enumerable.Cast on a null source (ArgumentNullException)
    | UncaughtJsonError          // a JsonException outside the catch clauses

  /** A call that either returns a value or raises a fault. */
  datatype Outcome<+T> = Returns(value: T) | Throws(fault: Fault)

  /** The localized message a failed conversion carries (JsonTable.JsonError). */
  datatype ErrorTag = JsonError

  /** The names of a record's properties, in order. */
  function Keys(fs: seq<Field>): (ks: seq<string>)
    ensures |ks| == |fs|
    ensures forall i :: 0 <= i < |fs| ==> ks[i] == fs[i].key
  {
    if fs == [] then [] else [fs[0].key] + Keys(fs[1..])
  }

  ghost predicate NoDuplicates<T>(s: seq<T>) {
    forall i, j :: 0 <= i < j < |s| ==> s[i] != s[j]
  }

  /** The position of the first field with the given name. */
  function KeyIndex(fs: seq<Field>, key: string): (i: nat)
    requires key in Keys(fs)
    ensures i < |fs| && fs[i].key == key
    ensures forall j :: 0 <= j < i ==> fs[j].key != key
  {
    if fs[0].key == key then 0 else 1 + KeyIndex(fs[1..], key)
  }

  /** The value stored under a key, as the JObject indexer reads it (null when absent). */
  function Get(fs: seq<Field>, key: string): (r: Option<Scalar>)
    ensures r.None? <==> key !in Keys(fs)
    ensures r.Some? ==> r.value == fs[KeyIndex(fs, key)].value
  {
    if fs == [] then None
    else if fs[0].key == key then Some(fs[0].value)
    else Get(fs[1..], key)
  }

}
