/**
 The session table as a keyed store, and the upsert the bot performs every
 time it saves its in-memory session data.
 */
module Store {
  import opened Results
  import opened Session

  /** The session table: one record per session id. */
  type Db = map<Id, SessionRecord>

  datatype StoreError = NotFound

  /** Every record sits under its own id, as a primary-keyed table guarantees. */
  ghost predicate WellKeyed(db: Db) {
    forall k :: k in db ==> db[k].id == k
  }

  /** The stored record for `data.id` carries the four fields a save writes. */
  predicate Reflects(db: Db, data: SessionRecord) {
    && data.id in db
    && db[data.id].transcript == data.transcript
    && db[data.id].freezeEvents == data.freezeEvents
    && db[data.id].latencyMetrics == data.latencyMetrics
    && db[data.id].audioUrl == data.audioUrl
  }

  /**
   Saves the bot's session data: an existing record gets its transcript,
   freeze events, metrics and recording path overwritten and keeps its id and
   creation time; a missing one is inserted whole.
   */
  function Upsert(db: Db, data: SessionRecord): (r: Db)
    ensures Reflects(r, data)
    ensures data.id in db ==> r[data.id].id == db[data.id].id && r[data.id].createdAt == db[data.id].createdAt
    ensures data.id !in db ==> r[data.id] == data
    ensures r.Keys == db.Keys + {data.id}
    ensures forall k :: k in db && k != data.id ==> r[k] == db[k]
    ensures WellKeyed(db) ==> WellKeyed(r)
  {
    if data.id in db then
      var existing := db[data.id];
      db[data.id := existing.(transcript := data.transcript,
                              freezeEvents := data.freezeEvents,
                              latencyMetrics := data.latencyMetrics,
                              audioUrl := data.audioUrl)]
    else
      db[data.id := data]
  }

  /** Reading a session: the stored record, or `NotFound` for an unknown id. */
  function Lookup(db: Db, id: Id): (r: Result<SessionRecord, StoreError>)
    ensures r.Ok? <==> id in db
    ensures r.Ok? ==> r.value == db[id]
    ensures r.Err? ==> r.error == NotFound
  {
    if id in db then Ok(db[id]) else Err(NotFound)
  }

  /** Saving the same data twice stores what saving it once does. */
  lemma UpsertIdempotent(db: Db, data: SessionRecord)
    ensures Upsert(Upsert(db, data), data) == Upsert(db, data)
  {
  }

  /**
   Two saves of one session: a later read sees the second save's fields and
   the creation time of whichever record was stored first.
   */
  lemma LatestSaveWins(db: Db, first: SessionRecord, second: SessionRecord)
    requires first.id == second.id
    ensures var r := Lookup(Upsert(Upsert(db, first), second), second.id);
            && r.Ok?
            && r.value.transcript == second.transcript
            && r.value.freezeEvents == second.freezeEvents
            && r.value.latencyMetrics == second.latencyMetrics
            && r.value.audioUrl == second.audioUrl
            && r.value.createdAt == (if first.id in db then db[first.id].createdAt else first.createdAt)
  {
  }
}
