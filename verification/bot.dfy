/**
 One conversation as the bot sees it: the session data built at start-up, a
 sequential stream of events, and a save to the store after each of them.
 */
module Bot {
  import opened Session
  import opened Store
  import opened Transcript

  /**
   The events that touch the session: the client connecting (initial save),
   a transcript update carrying finalized messages with the clock reading
   taken for each, and the recording being written (final save).
   */
  datatype Event = ClientConnected | TranscriptUpdate(frame: seq<Arrival>) | AudioSaved

  /** The bot's in-memory session data and the session table. */
  datatype BotState = BotState(session: SessionRecord, db: Db)

  /** The state before any event: fresh session data, the table as found. */
  function Start(id: Id, now: real, db: Db): (s: BotState)
    ensures s.session == NewSession(id, now)
    ensures s.session.id == id && s.session.createdAt == now && |s.session.transcript| == 0
    ensures Invariant(s.session)
    ensures s.db == db
  {
    NewSessionInvariant(id, now);
    BotState(NewSession(id, now), db)
  }

  /** Reacts to one event, then saves the session data. */
  function Handle(s: BotState, e: Event): (t: BotState)
    ensures t.session.id == s.session.id && t.session.createdAt == s.session.createdAt
    ensures t.session.freezeEvents == s.session.freezeEvents && t.session.audioUrl == s.session.audioUrl
    ensures !e.TranscriptUpdate? ==> t.session == s.session
    ensures e.TranscriptUpdate? ==>
              && |t.session.transcript| == |s.session.transcript| + |e.frame|
              && t.session.transcript[..|s.session.transcript|] == s.session.transcript
    ensures Reflects(t.db, t.session)
    ensures t.db.Keys == s.db.Keys + {s.session.id}
    ensures forall k :: k in s.db && k != s.session.id ==> t.db[k] == s.db[k]
    ensures s.session.id in s.db ==> t.db[s.session.id].createdAt == s.db[s.session.id].createdAt
    ensures s.session.id !in s.db ==> t.db[s.session.id] == t.session
  {
    match e
    case ClientConnected => s.(db := Upsert(s.db, s.session))
    case TranscriptUpdate(frame) =>
      var session := ProcessFrame(s.session, frame);
      BotState(session, Upsert(s.db, session))
    case AudioSaved => s.(db := Upsert(s.db, s.session))
  }

  function Run(s: BotState, events: seq<Event>): BotState
    decreases |events|
  {
    if |events| == 0 then s else Run(Handle(s, events[0]), events[1..])
  }

  /** All messages of all transcript updates among `events`, in order. */
  function Arrivals(events: seq<Event>): seq<Arrival>
    decreases |events|
  {
    if |events| == 0 then []
    else (if events[0].TranscriptUpdate? then events[0].frame else []) + Arrivals(events[1..])
  }

  /**
   Handling a stream of events leaves the session data as one update holding
   every message of the stream would: the events in between only save.
   */
  lemma {:induction false} RunIsOneFrame(s: BotState, events: seq<Event>)
    ensures Run(s, events).session == ProcessFrame(s.session, Arrivals(events))
    decreases |events|
  {
    if |events| > 0 {
      var e := events[0];
      RunIsOneFrame(Handle(s, e), events[1..]);
      if e.TranscriptUpdate? {
        ProcessFrameAppend(s.session, e.frame, Arrivals(events[1..]));
      } else {
        assert Arrivals(events) == Arrivals(events[1..]);
      }
    }
  }

  /** What a stream of events does to the table: only the session's own row changes. */
  lemma {:induction false} RunSaves(s: BotState, events: seq<Event>)
    ensures var t := Run(s, events);
            && t.session.id == s.session.id
            && (|events| == 0 ==> t.db == s.db)
            && (|events| > 0 ==> Reflects(t.db, t.session) && t.db.Keys == s.db.Keys + {s.session.id})
            && (forall k :: k in s.db && k != s.session.id ==> k in t.db && t.db[k] == s.db[k])
            && (s.session.id in s.db ==>
                  s.session.id in t.db && t.db[s.session.id].createdAt == s.db[s.session.id].createdAt)
    decreases |events|
  {
    if |events| > 0 {
      var next := Handle(s, events[0]);
      RunSaves(next, events[1..]);
    }
  }

  /**
   A whole conversation from start-up: the session keeps its id, creation
   time and recording path, records no freeze events, keeps latencies derived
   and the average equal to the mean (present iff an assistant turn exists);
   once anything was saved its row mirrors the session data, and a row the
   conversation created carries the start-up clock reading.
   */
  lemma SessionLifecycle(id: Id, now: real, db: Db, events: seq<Event>)
    ensures var t := Run(Start(id, now, db), events);
            && t.session.id == id && t.session.createdAt == now
            && t.session.audioUrl == NewSession(id, now).audioUrl
            && |t.session.freezeEvents| == 0
            && Invariant(t.session)
            && (AverageLatencyKey in t.session.latencyMetrics <==> HasAssistantTurn(t.session.transcript))
            && (|events| > 0 ==> Reflects(t.db, t.session) && |t.db[id].freezeEvents| == 0)
            && (|events| > 0 && id !in db ==> t.db[id].createdAt == now)
            && (forall k :: k in db && k != id ==> k in t.db && t.db[k] == db[k])
  {
    var s := Start(id, now, db);
    RunIsOneFrame(s, events);
    NewSessionInvariant(id, now);
    ProcessFramePreservesInvariant(s.session, Arrivals(events));
    RunSaves(s, events);
    if |events| > 0 && id !in db {
      RunSavesFirstInsert(s, events);
    }
  }

  /** The first save of a session missing from the table inserts the start-up record. */
  lemma {:induction false} RunSavesFirstInsert(s: BotState, events: seq<Event>)
    requires |events| > 0 && s.session.id !in s.db
    ensures var t := Run(s, events);
            s.session.id in t.db && t.db[s.session.id].createdAt == s.session.createdAt
  {
    var next := Handle(s, events[0]);
    RunSaves(next, events[1..]);
  }
}
