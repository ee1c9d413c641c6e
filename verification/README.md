# Voice-session transcript logging, modelled in Dafny

This project models the session-logging core of a voice-assistant bot. While
a conversation runs, the bot keeps one in-memory session record: an id, a
creation time, a transcript of turns, freeze events, latency metrics and the
path of the audio recording. A transcript handler appends one turn per
finalized message. An assistant turn that answers a user turn records the
time between the two as its latency. Every assistant turn also recomputes
`average_latency`, the mean latency over all assistant turns. After each
event the bot saves the record to a session table by id: an existing row gets
its transcript, freeze events, metrics and recording path overwritten, and a
missing row is inserted.

Modules:

- `Results`: `Option` and `Result` wrappers.
- `Session`: the record, turn and freeze-event datatypes (`backend/app/schema.py:6-12`,
  `backend/app/models.py:6-23`) and the session data built at start-up.
- `Transcript`: the per-message step, the fold over one transcript update, the
  loop that implements it, and the invariant the handler keeps. The invariant
  is that each turn's latency matches a per-index reference definition, and
  that the average is present exactly when an assistant turn exists and then
  equals the mean of the assistant latencies.
- `Store`: the session table as `map<Id, SessionRecord>`, with the save
  (upsert) and the read that fails with `NotFound`.
- `Bot`: one conversation as a sequential stream of events. Each event is
  client connected, transcript update, or recording written, and each is
  followed by a save. `Bot.Run` folds `Bot.Handle` over a stream of events, and
  the `Bot` lemmas are stated over it.

How the model maps the code:

- Roles are plain strings. Only `"assistant"` and `"user"` are told apart.
  Any other role (for example `"system"`) is recorded with latency 0, and an
  assistant turn after such a turn also gets latency 0.
- Each message's timestamp is the wall-clock reading the handler takes for
  it (`backend/bot.py:229`). That reading is an input: every message of an
  update arrives paired with its reading (`Arrival`), and the model follows
  the code (`backend/bot.py:229`). The reading is not measured from the session
  start. `datetime.utcnow().timestamp()` treats a naive UTC time as local
  time, so readings are shifted by the host's UTC offset and can jump by an
  hour at a daylight-saving change. The model leaves `now` unconstrained, so
  any such reading, including one that goes backwards, is covered.
- The greeting the bot speaks first has no user turn before it. So it is
  recorded with latency 0 and counts in the average like any other assistant
  turn. The model keeps this, and `AverageLatencyExample` shows the average
  over answered turns only when no other assistant turn exists.
- Timestamps and latencies are `real`. Python's `sum(latencies) / len(latencies)`
  becomes `Sum(xs) / |xs|` over reals.

## Model

| member | source | states |
|---|---|---|
| Session.RecordingUrl | backend/bot.py:137 | the recording path is `/recordings/<id>.wav`, and the id can be read back out of it |
| Session.NewSession | backend/bot.py:130-138 | the initial session data carries the given id and clock reading, an empty transcript, no freeze events, empty latency metrics, and the recording path |
| Transcript.Step | backend/bot.py:226-251 | one message appends exactly one turn at the end with the message's role and content and the clock reading; earlier turns, id, creation time, freeze events and recording path are unchanged; the latency equals the reference definition: the time since the previous turn when this is an assistant turn following a user turn, else 0; a non-assistant message has latency 0 and leaves the metrics unchanged; an assistant message adds one assistant latency and sets `average_latency` to the mean over all assistant turns of the updated transcript, leaving other metrics alone |
| Transcript.ProcessFrame | backend/bot.py:226-251 | handling an update appends one turn per message, in order, with each message's role, content and reading; earlier turns and the id, creation time, freeze events and recording path are unchanged; an update with no assistant message leaves the metrics unchanged |
| Transcript.HandleFrame | backend/bot.py:226-251 | the loop over the messages of an update computes the same session as folding `Step` over them, each message seeing the turns appended before it |
| Transcript.ProcessFramePrefix | backend/bot.py:226-251 | the session after the first `i + 1` messages of an update is one step past the session after the first `i` |
| Transcript.ProcessFrameAppend | backend/bot.py:226-251 | handling the messages of `a + b` in one update is handling `a` and then `b` |
| Transcript.AssistantLatenciesSnoc | backend/bot.py:240 | appending a turn adds its latency to the assistant latencies exactly when it is an assistant turn |
| Transcript.HasAssistantTurnIff | backend/bot.py:240-244 | there is a latency to average exactly when some turn is an assistant turn, so the divisor is at least 1 |
| Transcript.NewSessionInvariant | backend/bot.py:131-138 | the start-up session satisfies the handler's invariant |
| Transcript.StepKeepsLatenciesDerived | backend/bot.py:231-251 | after any message every recorded latency still matches the reference definition |
| Transcript.StepKeepsMetricsConsistent | backend/bot.py:239-244 | after any message `average_latency` is present iff an assistant turn exists and then equals the mean of the assistant latencies |
| Transcript.StepPreservesInvariant | backend/bot.py:231-251 | after any message every latency still matches the reference definition, and `average_latency` is present iff an assistant turn exists and equals their mean |
| Transcript.ProcessFramePreservesInvariant | backend/bot.py:226-251 | a whole update preserves the same invariant |
| Transcript.AverageLatencyNonNegative | backend/bot.py:229-244 | when the recorded clock readings never decrease, the average latency is non-negative |
| Transcript.NegativeAverageWhenClockGoesBack | backend/bot.py:229-244 | the clock condition is needed: a reply read 3 seconds before the user turn it answers gives an average latency of -3 |
| Transcript.ExchangeLatency | backend/bot.py:233-244 | a user message answered `gap` seconds later adds one latency `gap` to the assistant latencies and sets the average to their mean |
| Transcript.AverageLatencyExample | backend/bot.py:233-244 | answers 2, 4 and 6 seconds after their user turns, with no earlier assistant turn, give `average_latency` 4 |
| Store.Upsert | backend/bot.py:148-160 | after a save the row for the session's id holds its transcript, freeze events, metrics and recording path; an existing row keeps its id and creation time; a new row is the whole record; every other row is untouched; rows stay keyed by their own id |
| Store.Lookup | backend/app/api.py:16-21 | reading an id yields its row when present and `NotFound` exactly when absent |
| Store.UpsertIdempotent | backend/bot.py:148-160 | saving the same data twice gives the same table as saving it once |
| Store.LatestSaveWins | backend/bot.py:148-160 | after two saves of one session a read shows the second save's fields and the creation time of the first stored row |
| Bot.Start | backend/bot.py:130-138 | before any event the bot holds exactly the start-up session data for the given id and clock reading: nothing recorded, no freeze events, empty metrics, the recording path. That data already satisfies the handler invariant, and the table is as found |
| Bot.Handle | backend/bot.py:213-253 | every event ends with a save, so the session's row reflects the session data, and no other row changes; a transcript update only extends the transcript; connection and recording events leave the session data unchanged; id, creation time, freeze events and recording path never change. The connection and recording cases are the saves at backend/bot.py:255-262 and backend/bot.py:165-176 |
| Bot.RunIsOneFrame | backend/bot.py:213-253 | after any stream of events, the session data equals handling all their transcript messages as one update |
| Bot.RunSaves | backend/bot.py:141-163 | after a non-empty stream the session's row mirrors the session data and the table gains only that id; other rows are unchanged; an existing row keeps its creation time |
| Bot.RunSavesFirstInsert | backend/bot.py:157-159 | when the session had no row, the first save inserts it with the start-up creation time and later saves keep it |
| Bot.SessionLifecycle | backend/bot.py:130-253 | from start-up on, the session keeps its id, creation time and recording path; `freeze_events` stays empty; the handler invariant holds, so `average_latency` is present iff an assistant turn exists; once saved, the row mirrors the session data; other rows are untouched |

## Left out

- Pipeline construction, speech and language services, transports, voice-activity and turn analysers (`backend/bot.py:67-111`, `178-201`, `279-304`): configuration of an external framework.
- Audio capture (`backend/bot.py:165-176`): writing the WAV file is file I/O. Only the save that follows it is modelled, as the `AudioSaved` event.
- Database plumbing and error handling in the save (`backend/bot.py:143-147`, `162-163`): the model's save always succeeds. A failed save is caught and logged by the code, which leaves the table unchanged and lets the conversation continue. This case is not modelled.
- The clock: `datetime.utcnow()` (`backend/bot.py:133`, `229`) becomes an input.
- Number types: latencies are exact reals, not IEEE floats.
- `backend/app/api.py` session creation, reads and PATCH updates: all three delegate to `app/crud`, and `app/crud` is not part of this model. Whether a PATCH appends or replaces cannot be determined, so only the 404 on a missing id is modelled, in `Store.Lookup`.
- Store.Lookup: assumes `crud.get_session` is a read keyed by session id. It also takes ids in canonical UUID text. FastAPI parses the path into a UUID (`backend/app/api.py:17`), so a malformed id gets a 422 rather than the 404, and an upper-case or unhyphenated spelling of a stored UUID still finds the row. Over plain strings, `Lookup` returns `NotFound` in both cases.
- `backend/main.py`: application bootstrap.
- Freeze detection: nothing in backend/bot.py appends to `freeze_events`; the model proves they stay empty.
- `log_user_turn` (`backend/bot.py:204-208`) and the first, overwritten pipeline and task (`backend/bot.py:91-111`): dead code.
- Concurrency: the asynchronous event handlers are treated as one sequential stream of events.
