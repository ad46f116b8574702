/**
 Decoded JSON values and raw configuration sections (internal/xray/hot_diff.go,
 internal/util/json_util).  Objects are finite maps, so key order is already gone;
 numbers keep their digits, as json.Number does.  The canonical bytes the Go code
 compares are in one-to-one correspondence with the decoded values compared here.
 */
module JsonValues {
  import opened Prelude

  datatype Json =
    | Null
    | Bool(b: bool)
    | Num(digits: string)
    | Str(s: string)
    | Arr(items: seq<Json>)
    | Obj(fields: map<string, Json>)

  /** A raw section: no bytes, bytes that do not decode, or bytes that decode to a value. */
  datatype Raw = Empty | Bad(text: string) | Good(text: string, value: Json)

  /** What a section means to the core: nothing, a value, or unreadable text. */
  datatype Meaning = Nothing | Value(v: Json) | Unreadable(text: string)

  function MeaningOf(raw: Raw): Meaning {
    match raw
    case Empty => Nothing
    case Bad(text) => Unreadable(text)
    case Good(_, v) => if v.Null? then Nothing else Value(v)
  }

  /** None when the text does not decode; absent input and JSON null are the same. */
  function CanonicalJson(raw: Raw): Option<Option<Json>> {
    match raw
    case Empty => Some(None)
    case Bad(_) => None
    case Good(_, v) => if v.Null? then Some(None) else Some(Some(v))
  }

  predicate RawEqualNormalized(a: Raw, b: Raw)
    ensures RawEqualNormalized(a, b) <==> MeaningOf(a) == MeaningOf(b)
  {
    a == b || (CanonicalJson(a).Some? && CanonicalJson(b).Some? && CanonicalJson(a) == CanonicalJson(b))
  }

  /** Decoding one string field of a struct: absent and null leave it empty, a wrong type is an error. */
  function StringField(v: Json, key: string): Option<string> {
    match v
    case Null => Some("")
    case Obj(fields) =>
      if key !in fields || fields[key].Null? then Some("")
      else if fields[key].Str? then Some(fields[key].s)
      else None
    case _ => None
  }
}
