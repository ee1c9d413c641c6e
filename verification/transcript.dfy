/**
 The transcript handler of the bot: every finalized message becomes one turn
 appended to the session's transcript, an assistant turn answering a user
 turn carries the time between the two as its latency, and every assistant
 turn recomputes the session's average latency.
 */
module Transcript {
  import opened Session

  /** A finalized message as the transcript processor delivers it. */
  datatype Message = Message(role: string, content: string)

  /** A message paired with the wall-clock reading the handler takes when it reaches it. */
  datatype Arrival = Arrival(message: Message, now: real)

  function Last(ts: seq<Turn>): Turn
    requires |ts| > 0
  {
    ts[|ts| - 1]
  }

  /** Sum of a sequence of reals, accumulated left to right. */
  function Sum(xs: seq<real>): real {
    if |xs| == 0 then 0.0 else Sum(xs[..|xs| - 1]) + xs[|xs| - 1]
  }

  function Mean(xs: seq<real>): real
    requires |xs| > 0
  {
    Sum(xs) / (|xs| as real)
  }

  /** The recorded latencies of the assistant turns of `ts`, in transcript order. */
  function AssistantLatencies(ts: seq<Turn>): seq<real> {
    if |ts| == 0 then []
    else AssistantLatencies(ts[..|ts| - 1])
         + (if Last(ts).role == AssistantRole then [Last(ts).latency] else [])
  }

  /**
   Reference definition of the latency the turn at index `i` should carry: the
   time since the turn just before it when the turn is an assistant turn and
   that earlier turn is a user turn, and zero in every other case.
   */
  function ExpectedLatency(ts: seq<Turn>, i: int): real
    requires 0 <= i < |ts|
  {
    if ts[i].role == AssistantRole && i > 0 && ts[i - 1].role == UserRole
    then ts[i].timestamp - ts[i - 1].timestamp
    else 0.0
  }

  ghost predicate LatenciesDerived(ts: seq<Turn>) {
    forall i :: 0 <= i < |ts| ==> ts[i].latency == ExpectedLatency(ts, i)
  }

  ghost predicate HasAssistantTurn(ts: seq<Turn>) {
    exists i :: 0 <= i < |ts| && ts[i].role == AssistantRole
  }

  /**
   The average-latency metric is present exactly when some assistant turn has
   been recorded, and then it is the mean of the assistant turns' latencies.
   */
  ghost predicate MetricsConsistent(rec: SessionRecord) {
    && (AverageLatencyKey in rec.latencyMetrics <==> HasAssistantTurn(rec.transcript))
    && (AverageLatencyKey in rec.latencyMetrics ==>
          && |AssistantLatencies(rec.transcript)| > 0
          && rec.latencyMetrics[AverageLatencyKey] == Mean(AssistantLatencies(rec.transcript)))
  }

  /** What the transcript handler keeps true of the session it maintains. */
  ghost predicate Invariant(rec: SessionRecord) {
    LatenciesDerived(rec.transcript) && MetricsConsistent(rec)
  }

  /** `t` records the role, content and clock reading of `a`. */
  predicate Records(t: Turn, a: Arrival) {
    t.role == a.message.role && t.content == a.message.content && t.timestamp == a.now
  }

  /**
   Handles one finalized message read at wall-clock time `now`: derives its
   latency from the last recorded turn, refreshes the average latency when the
   message is the assistant's, and appends the new turn.
   */
  function Step(rec: SessionRecord, msg: Message, now: real): (r: SessionRecord)
    ensures |r.transcript| == |rec.transcript| + 1
    ensures r.transcript[..|rec.transcript|] == rec.transcript
    ensures Records(Last(r.transcript), Arrival(msg, now))
    ensures Last(r.transcript).latency == ExpectedLatency(r.transcript, |rec.transcript|)
    ensures r.id == rec.id && r.createdAt == rec.createdAt
    ensures r.freezeEvents == rec.freezeEvents && r.audioUrl == rec.audioUrl
    ensures msg.role != AssistantRole ==>
              Last(r.transcript).latency == 0.0 && r.latencyMetrics == rec.latencyMetrics
    ensures msg.role == AssistantRole ==>
              && |AssistantLatencies(r.transcript)| == |AssistantLatencies(rec.transcript)| + 1
              && r.latencyMetrics
                 == rec.latencyMetrics[AverageLatencyKey := Mean(AssistantLatencies(r.transcript))]
  {
    var ts := rec.transcript;
    var latency :=
      if msg.role == AssistantRole && |ts| > 0 && Last(ts).role == UserRole
      then now - Last(ts).timestamp
      else 0.0;
    var metrics :=
      if msg.role == AssistantRole
      then rec.latencyMetrics[AverageLatencyKey := Mean(AssistantLatencies(ts) + [latency])]
      else rec.latencyMetrics;
    var turn := Turn(msg.role, msg.content, now, latency);
    var ts' := ts + [turn];
    assert ts'[..|ts|] == ts && Last(ts') == turn;
    AssistantLatenciesSnoc(ts, turn);
    assert msg.role == AssistantRole ==> AssistantLatencies(ts') == AssistantLatencies(ts) + [latency];
    assert latency == ExpectedLatency(ts', |ts|);
    rec.(transcript := ts', latencyMetrics := metrics)
  }

  /**
   Handles the messages of one transcript update in order; each message sees
   the turns appended for the messages before it in the same update.
   */
  function ProcessFrame(rec: SessionRecord, frame: seq<Arrival>): (r: SessionRecord)
    ensures |r.transcript| == |rec.transcript| + |frame|
    ensures r.transcript[..|rec.transcript|] == rec.transcript
    ensures forall i :: 0 <= i < |frame| ==> Records(r.transcript[|rec.transcript| + i], frame[i])
    ensures r.id == rec.id && r.createdAt == rec.createdAt
    ensures r.freezeEvents == rec.freezeEvents && r.audioUrl == rec.audioUrl
    ensures (forall i :: 0 <= i < |frame| ==> frame[i].message.role != AssistantRole) ==>
              r.latencyMetrics == rec.latencyMetrics
    decreases |frame|
  {
    if |frame| == 0 then rec
    else
      var next := Step(rec, frame[0].message, frame[0].now);
      var r := ProcessFrame(next, frame[1..]);
      assert r.transcript[..|next.transcript|] == next.transcript;
      assert r.transcript[..|rec.transcript|] == next.transcript[..|rec.transcript|];
      assert r.transcript[|rec.transcript|] == Last(next.transcript);
      assert forall i :: 1 <= i < |frame| ==> frame[1..][i - 1] == frame[i];
      r
  }

  /** The Python `for` loop over the messages of one update. */
  method HandleFrame(rec: SessionRecord, frame: seq<Arrival>) returns (r: SessionRecord)
    ensures r == ProcessFrame(rec, frame)
  {
    r := rec;
    var i := 0;
    while i < |frame|
      invariant 0 <= i <= |frame|
      invariant r == ProcessFrame(rec, frame[..i])
    {
      ProcessFramePrefix(rec, frame, i);
      r := Step(r, frame[i].message, frame[i].now);
      i := i + 1;
    }
    assert frame[..|frame|] == frame;
  }

  /** The state after `i + 1` messages is one step past the state after `i`. */
  lemma ProcessFramePrefix(rec: SessionRecord, frame: seq<Arrival>, i: int)
    requires 0 <= i < |frame|
    ensures ProcessFrame(rec, frame[..i + 1])
            == Step(ProcessFrame(rec, frame[..i]), frame[i].message, frame[i].now)
  {
    var before := ProcessFrame(rec, frame[..i]);
    var next := Step(before, frame[i].message, frame[i].now);
    ProcessFrameAppend(rec, frame[..i], [frame[i]]);
    assert frame[..i] + [frame[i]] == frame[..i + 1];
    assert [frame[i]][0] == frame[i] && [frame[i]][1..] == [];
    assert ProcessFrame(next, []) == next;
    assert ProcessFrame(before, [frame[i]]) == ProcessFrame(next, [frame[i]][1..]);
  }

  /** Handling two updates in turn is handling their concatenation. */
  lemma {:induction false} ProcessFrameAppend(rec: SessionRecord, a: seq<Arrival>, b: seq<Arrival>)
    ensures ProcessFrame(rec, a + b) == ProcessFrame(ProcessFrame(rec, a), b)
    decreases |a|
  {
    if |a| == 0 {
      assert a + b == b;
    } else {
      assert (a + b)[0] == a[0];
      assert (a + b)[1..] == a[1..] + b;
      ProcessFrameAppend(Step(rec, a[0].message, a[0].now), a[1..], b);
    }
  }

  lemma AssistantLatenciesSnoc(ts: seq<Turn>, t: Turn)
    ensures AssistantLatencies(ts + [t])
            == AssistantLatencies(ts) + (if t.role == AssistantRole then [t.latency] else [])
  {
    assert (ts + [t])[..|ts|] == ts;
  }

  /** Some assistant turn has been recorded iff there is a latency to average. */
  lemma {:induction false} HasAssistantTurnIff(ts: seq<Turn>)
    ensures HasAssistantTurn(ts) <==> |AssistantLatencies(ts)| > 0
    decreases |ts|
  {
    if |ts| > 0 {
      var init := ts[..|ts| - 1];
      HasAssistantTurnIff(init);
      if HasAssistantTurn(init) {
        var i :| 0 <= i < |init| && init[i].role == AssistantRole;
        assert ts[i].role == AssistantRole;
      }
      if HasAssistantTurn(ts) && Last(ts).role != AssistantRole {
        var i :| 0 <= i < |ts| && ts[i].role == AssistantRole;
        assert init[i].role == AssistantRole;
      }
    }
  }

  /** The freshly created session satisfies the handler's invariant. */
  lemma NewSessionInvariant(id: Id, now: real)
    ensures Invariant(NewSession(id, now))
  {
  }

  /** One handled message keeps the invariant: latencies stay derived and the average stays the mean. */
  lemma StepPreservesInvariant(rec: SessionRecord, msg: Message, now: real)
    requires Invariant(rec)
    ensures Invariant(Step(rec, msg, now))
  {
    StepKeepsLatenciesDerived(rec, msg, now);
    StepKeepsMetricsConsistent(rec, msg, now);
  }

  lemma StepKeepsLatenciesDerived(rec: SessionRecord, msg: Message, now: real)
    requires LatenciesDerived(rec.transcript)
    ensures LatenciesDerived(Step(rec, msg, now).transcript)
  {
    var r := Step(rec, msg, now);
    var n := |rec.transcript|;
    forall i | 0 <= i < n
      ensures r.transcript[i].latency == ExpectedLatency(r.transcript, i)
    {
      assert r.transcript[i] == r.transcript[..n][i] == rec.transcript[i];
      assert i > 0 ==> r.transcript[i - 1] == r.transcript[..n][i - 1] == rec.transcript[i - 1];
    }
  }

  lemma StepKeepsMetricsConsistent(rec: SessionRecord, msg: Message, now: real)
    requires MetricsConsistent(rec)
    ensures MetricsConsistent(Step(rec, msg, now))
  {
    var r := Step(rec, msg, now);
    assert r.transcript == rec.transcript + [Last(r.transcript)];
    AssistantLatenciesSnoc(rec.transcript, Last(r.transcript));
    HasAssistantTurnIff(rec.transcript);
    HasAssistantTurnIff(r.transcript);
    if msg.role != AssistantRole {
      assert AssistantLatencies(r.transcript) == AssistantLatencies(rec.transcript);
      assert r.latencyMetrics == rec.latencyMetrics;
    } else {
      assert r.latencyMetrics[AverageLatencyKey] == Mean(AssistantLatencies(r.transcript));
    }
  }

  /** A whole update keeps the invariant. */
  lemma {:induction false} ProcessFramePreservesInvariant(rec: SessionRecord, frame: seq<Arrival>)
    requires Invariant(rec)
    ensures Invariant(ProcessFrame(rec, frame))
    decreases |frame|
  {
    if |frame| > 0 {
      StepPreservesInvariant(rec, frame[0].message, frame[0].now);
      ProcessFramePreservesInvariant(Step(rec, frame[0].message, frame[0].now), frame[1..]);
    }
  }

  ghost predicate NonDecreasingClock(ts: seq<Turn>) {
    forall i, j :: 0 <= i < j < |ts| ==> ts[i].timestamp <= ts[j].timestamp
  }

  lemma {:induction false} SumNonNegative(xs: seq<real>)
    requires forall i :: 0 <= i < |xs| ==> xs[i] >= 0.0
    ensures Sum(xs) >= 0.0
    decreases |xs|
  {
    if |xs| > 0 {
      SumNonNegative(xs[..|xs| - 1]);
    }
  }

  lemma {:induction false} AssistantLatenciesNonNegative(ts: seq<Turn>)
    requires forall i :: 0 <= i < |ts| ==> ts[i].latency >= 0.0
    ensures forall k :: 0 <= k < |AssistantLatencies(ts)| ==> AssistantLatencies(ts)[k] >= 0.0
    decreases |ts|
  {
    if |ts| > 0 {
      AssistantLatenciesNonNegative(ts[..|ts| - 1]);
    }
  }

  /**
   Latencies are not signed by construction: when the clock readings of the
   recorded turns never go backwards, the average latency is non-negative.
   */
  lemma AverageLatencyNonNegative(rec: SessionRecord)
    requires Invariant(rec) && NonDecreasingClock(rec.transcript)
    requires AverageLatencyKey in rec.latencyMetrics
    ensures rec.latencyMetrics[AverageLatencyKey] >= 0.0
  {
    var ts := rec.transcript;
    forall i | 0 <= i < |ts|
      ensures ts[i].latency >= 0.0
    {
      assert ts[i].latency == ExpectedLatency(ts, i);
    }
    AssistantLatenciesNonNegative(ts);
    SumNonNegative(AssistantLatencies(ts));
  }

  /** A user message followed by the assistant's answer `gap` seconds later. */
  predicate IsExchange(exchange: seq<Arrival>, gap: real) {
    && |exchange| == 2
    && exchange[0].message.role == UserRole
    && exchange[1].message.role == AssistantRole
    && exchange[1].now - exchange[0].now == gap
  }

  /**
   Assistant replies 2, 4 and 6 seconds after the user turns they answer, in a
   session with no assistant turn yet, give an average latency of 4 seconds;
   the user turns do not enter the mean.
   */
  lemma AverageLatencyExample(rec: SessionRecord, a: seq<Arrival>, b: seq<Arrival>, c: seq<Arrival>)
    requires !HasAssistantTurn(rec.transcript)
    requires IsExchange(a, 2.0) && IsExchange(b, 4.0) && IsExchange(c, 6.0)
    ensures var r := ProcessFrame(rec, a + b + c);
            && AverageLatencyKey in r.latencyMetrics
            && r.latencyMetrics[AverageLatencyKey] == 4.0
  {
    HasAssistantTurnIff(rec.transcript);
    assert |AssistantLatencies(rec.transcript)| == 0;
    assert Sum(AssistantLatencies(rec.transcript)) == 0.0;
    var s2 := ExchangeLatency(rec, a, 2.0);
    assert |AssistantLatencies(s2.transcript)| == 1 && Sum(AssistantLatencies(s2.transcript)) == 2.0;
    var s4 := ExchangeLatency(s2, b, 4.0);
    assert |AssistantLatencies(s4.transcript)| == 2 && Sum(AssistantLatencies(s4.transcript)) == 6.0;
    var s6 := ExchangeLatency(s4, c, 6.0);
    var latencies := AssistantLatencies(s6.transcript);
    assert |latencies| == 3 && Sum(latencies) == 12.0;
    MeanOfThree(latencies);
    assert s6.latencyMetrics[AverageLatencyKey] == 4.0;
    ProcessFrameAppend3(rec, a, b, c);
    assert ProcessFrame(rec, a + b + c) == s6;
  }

  /**
   A user message answered by an assistant message `gap` seconds later adds
   one latency of `gap` to the assistant latencies and refreshes the mean.
   */
  lemma ExchangeLatency(rec: SessionRecord, exchange: seq<Arrival>, gap: real) returns (r: SessionRecord)
    requires IsExchange(exchange, gap)
    ensures r == ProcessFrame(rec, exchange)
    ensures |AssistantLatencies(r.transcript)| == |AssistantLatencies(rec.transcript)| + 1
    ensures Sum(AssistantLatencies(r.transcript)) == Sum(AssistantLatencies(rec.transcript)) + gap
    ensures AverageLatencyKey in r.latencyMetrics
    ensures r.latencyMetrics[AverageLatencyKey] == Mean(AssistantLatencies(r.transcript))
  {
    var s1 := Step(rec, exchange[0].message, exchange[0].now);
    r := Step(s1, exchange[1].message, exchange[1].now);
    AssistantLatenciesSnoc(rec.transcript, Last(s1.transcript));
    AssistantLatenciesSnoc(s1.transcript, Last(r.transcript));
    assert s1.transcript == rec.transcript + [Last(s1.transcript)];
    assert r.transcript == s1.transcript + [Last(r.transcript)];
    var prior := AssistantLatencies(rec.transcript);
    assert AssistantLatencies(r.transcript) == prior + [gap];
    assert (prior + [gap])[..|prior|] == prior;
    assert exchange[1..][1..] == [];
  }

  /**
   Without the non-decreasing clock the average can be negative: a reply
   read 3 seconds before the user turn it answers, in a session with no
   assistant turn yet, gives an average latency of -3 seconds.
   */
  lemma NegativeAverageWhenClockGoesBack(rec: SessionRecord, a: seq<Arrival>)
    requires !HasAssistantTurn(rec.transcript)
    requires IsExchange(a, -3.0)
    ensures var r := ProcessFrame(rec, a);
            && !NonDecreasingClock(r.transcript)
            && AverageLatencyKey in r.latencyMetrics
            && r.latencyMetrics[AverageLatencyKey] == -3.0
  {
    HasAssistantTurnIff(rec.transcript);
    assert |AssistantLatencies(rec.transcript)| == 0;
    assert Sum(AssistantLatencies(rec.transcript)) == 0.0;
    var r := ExchangeLatency(rec, a, -3.0);
    var n := |rec.transcript|;
    assert Records(r.transcript[n], a[0]) && Records(r.transcript[n + 1], a[1]);
    assert r.transcript[n].timestamp > r.transcript[n + 1].timestamp;
    MeanOfOne(AssistantLatencies(r.transcript));
  }

  lemma MeanOfOne(xs: seq<real>)
    requires |xs| == 1
    ensures Mean(xs) == Sum(xs)
  {
  }

  lemma MeanOfThree(xs: seq<real>)
    requires |xs| == 3 && Sum(xs) == 12.0
    ensures Mean(xs) == 4.0
  {
  }

  lemma ProcessFrameAppend3(rec: SessionRecord, a: seq<Arrival>, b: seq<Arrival>, c: seq<Arrival>)
    ensures ProcessFrame(rec, a + b + c) == ProcessFrame(ProcessFrame(ProcessFrame(rec, a), b), c)
  {
    ProcessFrameAppend(rec, a + b, c);
    ProcessFrameAppend(rec, a, b);
  }
}
