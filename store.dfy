/**
 * `_collection(name)`: the guard in front of every direct use of the
 * document store. The store itself (queries, inserts) is not modelled; a
 * configured database is represented by its name and a collection handle by
 * the database and collection name, which is all `db[name]` records.
 */
module Store {
  import opened Wrappers

  datatype Database = Database(name: string)

  datatype CollectionRef = CollectionRef(database: Database, name: string)

  /** FastAPI's `HTTPException(status_code, detail)`. */
  datatype HttpError = HttpError(statusCode: int, detail: string)

  const DatabaseNotConfigured := HttpError(500, "Database not configured")

  /**
   * Fails with HTTP 500 "Database not configured" exactly when no database is
   * configured, whatever the collection name; otherwise gives that database's
   * collection `name`.
   */
  function Collection(db: Option<Database>, name: string): (r: Result<CollectionRef, HttpError>)
    ensures r.Failure? <==> db.None?
    ensures r.Failure? ==> r.error == DatabaseNotConfigured && r.error.statusCode == 500
    ensures r.Success? ==> r.value.database == db.value && r.value.name == name
  {
    if db.None? then Failure(DatabaseNotConfigured) else Success(CollectionRef(db.value, name))
  }
}
