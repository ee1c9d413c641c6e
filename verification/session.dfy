/**
 The persisted shape of one recorded voice conversation: the session record,
 its transcript turns and its freeze events, and the record the bot creates
 when a conversation starts.
 */
module Session {
  import opened Results

  /** A session identifier, in the canonical text form of its UUID. */
  type Id = string

  /** The two roles the transcript handler tells apart; any other string is a legal role. */
  const AssistantRole: string := "assistant"
  const UserRole: string := "user"

  /** The one metric name the transcript handler maintains. */
  const AverageLatencyKey: string := "average_latency"

  /** One utterance; `timestamp` and `latency` are seconds. */
  datatype Turn = Turn(role: string, content: string, timestamp: real, latency: real)

  /** A stall interval in seconds. */
  datatype FreezeEvent = FreezeEvent(startTime: real, endTime: real, duration: real)

  /** One conversation, keyed by `id` in the store. `createdAt` is a clock reading in seconds. */
  datatype SessionRecord = SessionRecord(
    id: Id,
    createdAt: real,
    transcript: seq<Turn>,
    freezeEvents: seq<FreezeEvent>,
    latencyMetrics: map<string, real>,
    audioUrl: Option<string>)

  /** Where the bot writes the recording of session `id`. */
  function RecordingUrl(id: Id): (url: string)
    ensures |url| == |id| + 16 && url[12..|url| - 4] == id
    ensures url[..12] == "/recordings/" && url[|url| - 4..] == ".wav"
  {
    "/recordings/" + id + ".wav"
  }

  /**
   The record the bot builds before the conversation starts: stamped with the
   clock reading `now`, with nothing recorded yet and the recording path set.
   */
  function NewSession(id: Id, now: real): (r: SessionRecord)
    ensures r.id == id && r.createdAt == now
    ensures |r.transcript| == 0 && |r.freezeEvents| == 0
    ensures r.latencyMetrics == map[] && AverageLatencyKey !in r.latencyMetrics
    ensures r.audioUrl == Some(RecordingUrl(id))
  {
    SessionRecord(id, now, [], [], map[], Some(RecordingUrl(id)))
  }
}
