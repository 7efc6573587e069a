/**
 * Stored documents as the document store hands them back: a map from field
 * names to dynamically typed values.
 */
module Values {

  /** A `datetime`, as ticks since `datetime.min`: every datetime is at least `DateTimeMin`. */
  type Timestamp = nat

  /** `datetime.min`, the default the listing endpoints use for a missing date field. */
  const DateTimeMin: Timestamp := 0

  /** A BSON ObjectId; its bytes are never inspected here. */
  datatype ObjectId = ObjectId(raw: nat)

  /** The values a stored field can hold. Floats (grade scores) are only passed through. */
  datatype Value =
    | Null
    | Bool(b: bool)
    | Int(i: int)
    | Float(bits: bv64)
    | Str(s: string)
    | DateTime(t: Timestamp)
    | Oid(oid: ObjectId)
    | List(items: seq<Value>)

  /** A stored record: field name to value. */
  type Doc = map<string, Value>

  /**
   * The library conversions the core relies on but does not define:
   * `datetime.isoformat()`, `str(ObjectId)` and `str()` of the values whose
   * text form is not spelled out here (numbers, booleans, datetimes, lists).
   */
  datatype Library = Library(
    isoformat: Timestamp -> string,
    objectIdStr: ObjectId -> string,
    strOther: Value -> string)

  /** `d.get(key, default)`. */
  function GetOr(d: Doc, key: string, default: Value): (v: Value)
    ensures key in d ==> v == d[key]
    ensures key !in d ==> v == default
  {
    if key in d then d[key] else default
  }

  /** Python's `str(v)`: a string is itself, `None` is "None", an ObjectId its hex form. */
  function PyStr(lib: Library, v: Value): (r: string)
    ensures v.Str? ==> r == v.s
    ensures v.Null? ==> r == "None"
    ensures v.Oid? ==> r == lib.objectIdStr(v.oid)
    ensures !(v.Str? || v.Null? || v.Oid?) ==> r == lib.strOther(v)
  {
    match v
    case Str(s) => s
    case Null => "None"
    case Oid(o) => lib.objectIdStr(o)
    case _ => lib.strOther(v)
  }
}
