/**
 * `_serialize`: turns a stored document into a response object. A non-empty
 * document gets an `id` field holding `str(doc.get("_id"))`, loses `_id`, and
 * has every datetime-valued field replaced by its ISO-8601 text. An empty or
 * absent document is returned unchanged.
 */
module Serialization {
  import opened Values

  /** A top-level field value as `_serialize` leaves it. */
  function Normalized(lib: Library, v: Value): (r: Value)
    ensures v.DateTime? ==> r == Str(lib.isoformat(v.t))
    ensures !v.DateTime? ==> r == v
    ensures !r.DateTime?
  {
    if v.DateTime? then Str(lib.isoformat(v.t)) else v
  }

  /** The response object `_serialize(doc)` builds from the fields `m`. */
  function Serialized(lib: Library, m: Doc): (r: Doc)
    ensures |m| == 0 ==> r == m
    ensures |m| != 0 ==> "_id" !in r && "id" in r
    ensures |m| != 0 ==> r["id"] == Str(if "_id" in m then PyStr(lib, m["_id"]) else "None")
    ensures |m| != 0 ==> r.Keys == m.Keys - {"_id"} + {"id"}
    ensures forall k :: k in m && k != "_id" && k != "id" && m[k].DateTime? ==>
              r[k] == Str(lib.isoformat(m[k].t))
    ensures forall k :: k in m && k != "_id" && k != "id" && !m[k].DateTime? ==> r[k] == m[k]
  {
    if |m| == 0 then m
    else
      var id := Str(PyStr(lib, GetOr(m, "_id", Null)));
      assert id == Str(if "_id" in m then PyStr(lib, m["_id"]) else "None");
      var renamed := m["id" := id] - {"_id"};
      assert renamed.Keys == m.Keys - {"_id"} + {"id"};
      assert forall k :: k in m && k != "_id" && k != "id" ==> renamed[k] == m[k];
      var r := map k | k in renamed :: Normalized(lib, renamed[k]);
      assert r.Keys == renamed.Keys && r["id"] == id;
      r
  }

  /** No value of a serialized document is a datetime any more. */
  lemma NoDateTimeLeft(lib: Library, m: Doc)
    requires |m| != 0
    ensures forall k :: k in Serialized(lib, m) ==> !Serialized(lib, m)[k].DateTime?
  {
  }

  /**
   * Serializing twice is not the identity: the second pass finds no `_id`
   * and overwrites `id` with "None"; every other field is left as it was.
   */
  lemma SerializeTwiceLosesId(lib: Library, m: Doc)
    requires |m| != 0
    ensures Serialized(lib, Serialized(lib, m)) == Serialized(lib, m)["id" := Str("None")]
  {
    var once := Serialized(lib, m);
    NoDateTimeLeft(lib, m);
    assert "id" in once;
    IdlessSerialized(lib, once);
  }

  /** A document with no `_id` and no datetime only gets `id` set to "None". */
  lemma IdlessSerialized(lib: Library, m: Doc)
    requires "id" in m && "_id" !in m
    requires forall k :: k in m ==> !m[k].DateTime?
    ensures Serialized(lib, m) == m["id" := Str("None")]
  {
  }

  /** A mutable response dictionary: the fetched record `_serialize` rewrites in place. */
  class Document {
    var fields: Doc

    constructor (fields: Doc)
      ensures this.fields == fields
    {
      this.fields := fields;
    }
  }

  /**
   * `_serialize(doc)`: returns the same object, rewritten in place to
   * `Serialized` of its old fields; `null` (no document) is passed through.
   */
  method Serialize(lib: Library, doc: Document?) returns (r: Document?)
    modifies doc
    ensures r == doc
    ensures doc != null ==> doc.fields == Serialized(lib, old(doc.fields))
  {
    r := doc;
    if doc == null || |doc.fields| == 0 {
      return;
    }
    doc.fields := doc.fields["id" := Str(PyStr(lib, GetOr(doc.fields, "_id", Null)))];
    doc.fields := doc.fields - {"_id"};
    // `for k, v in list(doc.items())`: a snapshot, so the loop only rewrites values.
    ghost var before := old(doc.fields);
    var items := doc.fields;
    var pending := items.Keys;
    while pending != {}
      invariant pending <= items.Keys
      invariant PartlyNormalized(lib, items, doc.fields, pending)
      decreases pending
    {
      var k :| k in pending;
      ghost var prev := doc.fields;
      var v := items[k];
      if v.DateTime? {
        doc.fields := doc.fields[k := Str(lib.isoformat(v.t))];
      }
      NormalizeOne(lib, items, prev, doc.fields, pending, k);
      pending := pending - {k};
    }
    SerializedFromItems(lib, before, items, doc.fields);
  }

  /**
   * The loop state of `Serialize`: `f` has the keys of the snapshot `items`,
   * with the values of the keys still `pending` as they were and every other
   * value normalized.
   */
  ghost predicate PartlyNormalized(lib: Library, items: Doc, f: Doc, pending: set<string>)
  {
    f.Keys == items.Keys &&
    forall k :: k in items ==> f[k] == if k in pending then items[k] else Normalized(lib, items[k])
  }

  /** One step of the loop keeps `PartlyNormalized`, with `k` no longer pending. */
  lemma NormalizeOne(lib: Library, items: Doc, prev: Doc, f: Doc, pending: set<string>, k: string)
    requires pending <= items.Keys && k in pending && PartlyNormalized(lib, items, prev, pending)
    requires f == if items[k].DateTime? then prev[k := Str(lib.isoformat(items[k].t))] else prev
    ensures PartlyNormalized(lib, items, f, pending - {k})
  {
  }

  /** Normalizing every value of the renamed fields gives `Serialized`. */
  lemma SerializedFromItems(lib: Library, m: Doc, items: Doc, f: Doc)
    requires |m| != 0
    requires items == m["id" := Str(PyStr(lib, GetOr(m, "_id", Null)))] - {"_id"}
    requires PartlyNormalized(lib, items, f, {})
    ensures f == Serialized(lib, m)
  {
  }
}
