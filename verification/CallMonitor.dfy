/**
 The file-level call state: the call last heard of, the four packet baselines, and the callbacks
 made (plivo_app_callback.cpp:81-90, 288-388, 1180-1219, 1254-1346).
 Packet counters are unsigned 32-bit, baselines and reported counts are signed 32-bit.
 */
module CallMonitor {
  import opened CallEvents
  import opened Mos

  type uint32 = x: int | 0 <= x < 0x1_0000_0000
  type int32 = x: int | -0x8000_0000 <= x < 0x8000_0000

  /** Unsigned arithmetic stored into an `int`: whole turns of 2^32 are dropped. */
  function Narrow(x: int): (r: int32)
    ensures -0x8000_0000 <= x < 0x8000_0000 ==> r == x
    decreases if x < -0x8000_0000 then -x else if x < 0x8000_0000 then 0 else x
  {
    if x < -0x8000_0000 then Narrow(x + 0x1_0000_0000)
    else if x < 0x8000_0000 then x
    else Narrow(x - 0x1_0000_0000)
  }

  /** The part of a stream statistic the reports use; delays are not negative. */
  datatype Stat = Stat(txPkt: uint32, txLoss: uint32, rxPkt: uint32, rxLoss: uint32,
                       rttLast: nat, txJitter: nat, rxJitter: nat)

  datatype Base = Base(received: int32, sent: int32, remoteLoss: int32, localLoss: int32)

  const ZERO_BASE := Base(0, 0, 0, 0)

  function BaseOf(s: Stat): Base {
    Base(Narrow(s.rxPkt), Narrow(s.txPkt), Narrow(s.rxLoss), Narrow(s.txLoss))
  }

  datatype RemoteReport = RemoteReport(fractionLoss: real, jitter: real, packetsLost: int, packetsReceived: int)

  datatype LocalReport = LocalReport(fractionLoss: real, mos: real, rtt: real, jitter: real,
                                     packetsLost: int, packetsSent: int)

  /** Share of lost packets; 1 when packets were lost out of none. */
  function Fraction(lost: int, total: int): real {
    if lost == 0 && total == 0 then 0.0 else if total == 0 then 1.0 else lost as real / total as real
  }

  /** The share times the total gives the loss back; out of none, losses count as all and no loss as nothing. */
  predicate IsShare(share: real, lost: int, total: int) {
    if total != 0 then share * total as real == lost as real
    else if lost != 0 then share == 1.0
    else share == 0.0
  }

  lemma FractionIsShare(lost: int, total: int)
    ensures IsShare(Fraction(lost, total), lost, total)
  {
  }

  // The counts a poll reports: the snapshot against the baselines.

  function RemoteLost(b: Base, s: Stat): int {
    Narrow(s.rxLoss - b.remoteLoss)
  }

  function RemoteReceived(b: Base, s: Stat): int {
    Narrow(s.rxPkt - b.received + RemoteLost(b, s))
  }

  function LocalLost(b: Base, s: Stat): int {
    Narrow(s.txLoss - b.localLoss)
  }

  function LocalSent(b: Base, s: Stat): int {
    Narrow(s.txPkt - b.sent)
  }

  function RemoteFraction(b: Base, s: Stat): real {
    Fraction(RemoteLost(b, s), RemoteReceived(b, s))
  }

  function LocalFraction(b: Base, s: Stat): real {
    Fraction(LocalLost(b, s), LocalSent(b, s))
  }

  function RemoteOf(b: Base, s: Stat): RemoteReport {
    RemoteReport(RemoteFraction(b, s), RemoteJitter(s.rxJitter), RemoteLost(b, s), RemoteReceived(b, s))
  }

  function LocalRating(s: Stat, fractionLoss: real): real {
    RFactor(s.rttLast, LocalJitter(s.txJitter), fractionLoss)
  }

  function RemoteRating(s: Stat, fractionLoss: real): real {
    RFactor(s.rttLast, RemoteJitter(s.rxJitter), fractionLoss)
  }

  function LocalScore(s: Stat, fractionLoss: real): real {
    Score(LocalRating(s, fractionLoss))
  }

  function RemoteScore(s: Stat, fractionLoss: real): real {
    Score(RemoteRating(s, fractionLoss))
  }

  function Least(x: real, y: real): real {
    if x < y then x else y
  }

  /** The score is the worse of the two directions; the remote one counts the loss a remote report would show. */
  function LocalMos(b: Base, s: Stat): real {
    Least(LocalScore(s, LocalFraction(b, s)), RemoteScore(s, RemoteFraction(b, s)))
  }

  function LocalOf(b: Base, s: Stat): LocalReport {
    LocalReport(LocalFraction(b, s), LocalMos(b, s), s.rttLast as real / 2000.0, LocalJitter(s.txJitter),
                LocalLost(b, s), LocalSent(b, s))
  }

  /** One entry from outside: a call changes state, or the application polls a snapshot of the current call. */
  datatype Input = CallState(callId: int, info: CallInfo) | PollRemote(stat: Stat) | PollLocal(stat: Stat)

  datatype Mon = Mon(cur: int, base: Base, emitted: seq<(int, CallEvent)>)

  function Tagged(callId: int, es: seq<CallEvent>): seq<(int, CallEvent)> {
    seq(|es|, i requires 0 <= i < |es| => (callId, es[i]))
  }

  function Step(m: Mon, input: Input): Mon {
    match input
    case CallState(callId, info) =>
      Mon(callId, if Emits(info) == [Answered] then ZERO_BASE else m.base, m.emitted + Tagged(callId, Emits(info)))
    case PollRemote(stat) => m.(base := BaseOf(stat))
    case PollLocal(_) => m
  }

  class Monitor {
    var currentCallId: int
    var prePacketsReceived: int32
    var prePacketsSent: int32
    var preRemotePacketsLoss: int32
    var preLocalPacketsLoss: int32
    ghost var emitted: seq<(int, CallEvent)>

    ghost function Baseline(): Base
      reads this
    {
      Base(prePacketsReceived, prePacketsSent, preRemotePacketsLoss, preLocalPacketsLoss)
    }

    ghost function State(): Mon
      reads this
    {
      Mon(currentCallId, Baseline(), emitted)
    }

    constructor ()
      ensures State() == Mon(0, ZERO_BASE, [])
    {
      currentCallId, emitted := 0, [];
      prePacketsReceived, prePacketsSent, preRemotePacketsLoss, preLocalPacketsLoss := 0, 0, 0, 0;
    }

    ghost method Notify(callId: int, e: CallEvent)
      modifies this`emitted
      ensures emitted == old(emitted) + [(callId, e)]
    {
      emitted := emitted + [(callId, e)];
    }

    method ResetBase()
      modifies this
      ensures State() == old(State()).(base := ZERO_BASE)
    {
      preRemotePacketsLoss, preLocalPacketsLoss := 0, 0;
      prePacketsReceived, prePacketsSent := 0, 0;
    }

    method OnCallState(callId: int, info: CallInfo)
      modifies this
      ensures State() == Step(old(State()), CallState(callId, info))
    {
      currentCallId := callId;
      if info.role != UAC {
        if info.state == INCOMING {
        } else if info.state == EARLY || info.lastStatus == 183 || info.lastStatus == 180 {
          Notify(callId, Ringing);
        } else if info.state == CONNECTING {
          Notify(callId, Connecting);
        } else if info.state == CONFIRMED {
          ResetBase();
          Notify(callId, Answered);
        } else if info.state == DISCONNECTED && (info.lastStatus == 487 || info.lastStatus == 486) {
          Notify(callId, Rejected);
        } else if info.state == DISCONNECTED && info.lastStatus == 200 {
          Notify(callId, Hangup);
        } else {
          Notify(callId, Invalid);
        }
      } else {
        if info.state == CALLING {
          Notify(callId, Dialled);
        } else if info.state == EARLY || info.lastStatus == 183 || info.lastStatus == 180 {
          Notify(callId, Ringing);
        } else if info.state == CONFIRMED {
          ResetBase();
          Notify(callId, Answered);
        } else if info.state == CONNECTING {
          Notify(callId, Connecting);
        } else if info.state == DISCONNECTED && 480 <= info.lastStatus <= 489 {
          Notify(callId, Rejected);
        } else if info.state == DISCONNECTED && (info.lastStatus == 404 || info.lastStatus == 408) {
          Notify(callId, Invalid);
        } else if info.state == DISCONNECTED && info.lastStatus == 200 {
          Notify(callId, Hangup);
        } else {
          Notify(callId, Invalid);
        }
      }
    }

    method UpdateBasePackets(s: Stat)
      modifies this
      ensures State() == old(State()).(base := BaseOf(s))
    {
      prePacketsReceived := Narrow(s.rxPkt);
      prePacketsSent := Narrow(s.txPkt);
      preRemotePacketsLoss := Narrow(s.rxLoss);
      preLocalPacketsLoss := Narrow(s.txLoss);
    }

    method GetMos(s: Stat, statsType: string, fractionLoss: real) returns (mos: real)
      ensures mos == if statsType == "local" then LocalScore(s, fractionLoss)
                     else RemoteScore(s, RemoteFraction(Baseline(), s))
    {
      var jitter, fraction := 0.0, fractionLoss;
      if statsType == "local" {
        jitter := s.txJitter as real / 1000.0;
        if jitter <= 20.0 { jitter := 0.0; } else { jitter := jitter - 20.0; }
      } else {
        jitter := s.rxJitter as real / 1000.0;
        var lost := Narrow(s.rxLoss - preRemotePacketsLoss);
        var received := Narrow(s.rxPkt - prePacketsReceived + lost);
        fraction := Fraction(lost, received);
      }
      mos := ComputeMos(s.rttLast, jitter, fraction);
    }

    method GetRemoteStats(s: Stat) returns (r: RemoteReport)
      modifies this
      ensures r == RemoteOf(old(Baseline()), s)
      ensures r.packetsLost == RemoteLost(old(Baseline()), s) && r.packetsReceived == RemoteReceived(old(Baseline()), s)
      ensures IsShare(r.fractionLoss, r.packetsLost, r.packetsReceived)
      ensures r.jitter * 1000.0 == s.rxJitter as real
      ensures State() == Step(old(State()), PollRemote(s))
    {
      var lost := Narrow(s.rxLoss - preRemotePacketsLoss);
      var received := Narrow(s.rxPkt - prePacketsReceived + lost);
      UpdateBasePackets(s);
      FractionIsShare(lost, received);
      r := RemoteReport(Fraction(lost, received), s.rxJitter as real / 1000.0, lost, received);
    }

    method GetLocalStats(s: Stat) returns (r: LocalReport)
      ensures r == LocalOf(Baseline(), s)
      ensures r.packetsLost == LocalLost(Baseline(), s) && r.packetsSent == LocalSent(Baseline(), s)
      ensures IsShare(r.fractionLoss, r.packetsLost, r.packetsSent)
      ensures r.rtt * 2000.0 == s.rttLast as real
      ensures if s.txJitter <= 20000 then r.jitter == 0.0 else r.jitter * 1000.0 == s.txJitter as real - 20000.0
      ensures var local, remote := LocalScore(s, r.fractionLoss), RemoteScore(s, RemoteFraction(Baseline(), s));
              r.mos <= local && r.mos <= remote && (r.mos == local || r.mos == remote)
    {
      var lost := Narrow(s.txLoss - preLocalPacketsLoss);
      var sent := Narrow(s.txPkt - prePacketsSent);
      var fraction := Fraction(lost, sent);
      FractionIsShare(lost, sent);
      var mosLocal := GetMos(s, "local", fraction);
      var mosRemote := GetMos(s, "remote", 0.0);
      var jitter := s.txJitter as real / 1000.0;
      if jitter <= 20.0 { jitter := 0.0; } else { jitter := jitter - 20.0; }
      r := LocalReport(fraction, if mosLocal < mosRemote then mosLocal else mosRemote,
                       s.rttLast as real / 2000.0, jitter, lost, sent);
    }
  }

  function Run(m: Mon, inputs: seq<Input>): Mon
    decreases |inputs|
  {
    if inputs == [] then m else Run(Step(m, inputs[0]), inputs[1..])
  }

  // ----- callbacks of interleaved calls

  /** The callbacks of one call, out of all that were made. */
  function EventsOf(emitted: seq<(int, CallEvent)>, callId: int): seq<CallEvent> {
    if emitted == [] then []
    else
      var last := emitted[|emitted| - 1];
      EventsOf(emitted[..|emitted| - 1], callId) + if last.0 == callId then [last.1] else []
  }

  /** The state changes of one call, out of all inputs. */
  function ChangesOf(inputs: seq<Input>, callId: int): seq<CallInfo> {
    if inputs == [] then []
    else
      (if inputs[0].CallState? && inputs[0].callId == callId then [inputs[0].info] else []) +
      ChangesOf(inputs[1..], callId)
  }

  /** What one input makes a call hear. */
  function Own(input: Input, callId: int): seq<CallEvent> {
    if input.CallState? && input.callId == callId then Emits(input.info) else []
  }

  lemma {:induction false} EventsOfStep(m: Mon, input: Input, callId: int)
    ensures EventsOf(Step(m, input).emitted, callId) == EventsOf(m.emitted, callId) + Own(input, callId)
  {
    var after := Step(m, input).emitted;
    if input.CallState? && |Emits(input.info)| == 1 {
      assert after[..|m.emitted|] == m.emitted;
    } else {
      assert after == m.emitted;
    }
  }

  lemma {:induction false} StreamOfChanges(inputs: seq<Input>, callId: int)
    requires inputs != []
    ensures Stream(ChangesOf(inputs, callId)) == Own(inputs[0], callId) + Stream(ChangesOf(inputs[1..], callId))
  {
    var changes, later := ChangesOf(inputs, callId), ChangesOf(inputs[1..], callId);
    if inputs[0].CallState? && inputs[0].callId == callId {
      assert changes[1..] == later;
    } else {
      assert changes == later;
    }
  }

  /** Each call hears only its own state changes, in order, however the calls interleave. */
  lemma {:induction false} Projection(m: Mon, inputs: seq<Input>, callId: int)
    ensures EventsOf(Run(m, inputs).emitted, callId)
         == EventsOf(m.emitted, callId) + Stream(ChangesOf(inputs, callId))
    decreases |inputs|
  {
    if inputs != [] {
      Projection(Step(m, inputs[0]), inputs[1..], callId);
      EventsOfStep(m, inputs[0], callId);
      StreamOfChanges(inputs, callId);
    }
  }

  /**
   For every interleaving: a call whose changes form a session is reported in the language exactly when
   it is orderly.
   */
  lemma EveryCallInLanguage(m: Mon, inputs: seq<Input>, callId: int, role: Role)
    requires m.emitted == [] && IsSession(role, ChangesOf(inputs, callId))
    ensures InLanguage(role, EventsOf(Run(m, inputs).emitted, callId)) <==> Orderly(ChangesOf(inputs, callId))
  {
    var changes := ChangesOf(inputs, callId);
    assert EventsOf(Run(m, inputs).emitted, callId) == Stream(changes) by {
      Projection(m, inputs, callId);
    }
    SessionLanguage(role, changes);
  }

  /** For every interleaving: each call hears each callback once for every change of its own that causes it. */
  lemma HeardExactly(m: Mon, inputs: seq<Input>, callId: int, e: CallEvent)
    requires m.emitted == []
    ensures Times(e, EventsOf(Run(m, inputs).emitted, callId)) == CauseCount(e, ChangesOf(inputs, callId))
  {
    var changes := ChangesOf(inputs, callId);
    assert EventsOf(Run(m, inputs).emitted, callId) == Stream(changes) by {
      Projection(m, inputs, callId);
    }
    EveryCause(changes, e);
  }

  /**
   For every interleaving: the last callback of an orderly call says by its last status how it ended -
   200 is a hangup, 480 to 489 at the caller and 486 or 487 at the callee are a rejection, and every
   other status is an invalid call.
   */
  lemma EndToldExactly(m: Mon, inputs: seq<Input>, callId: int, role: Role)
    requires m.emitted == [] && IsSession(role, ChangesOf(inputs, callId)) && Orderly(ChangesOf(inputs, callId))
    ensures var ev, changes := EventsOf(Run(m, inputs).emitted, callId), ChangesOf(inputs, callId);
            var st := changes[|changes| - 1].lastStatus;
            ev != [] &&
            (ev[|ev| - 1] == Hangup <==> st == 200) &&
            (ev[|ev| - 1] == Rejected <==> if role == UAC then 480 <= st <= 489 else st == 486 || st == 487) &&
            (ev[|ev| - 1] == Invalid
             <==> st != 200 && if role == UAC then st < 480 || 489 < st else st < 486 || 487 < st)
  {
    var changes := ChangesOf(inputs, callId);
    assert EventsOf(Run(m, inputs).emitted, callId) == Stream(changes) by {
      Projection(m, inputs, callId);
    }
    LastTold(role, changes);
  }

  // ----- what the scores respond to

  /**
   The local rating ignores received jitter, and sent jitter up to 20 ms; above, each ms costs a
   twentieth to a fifth.
   */
  lemma LocalResponse(s: Stat, jitter: nat, other: nat, loss: real)
    requires s.txJitter <= jitter
    ensures LocalRating(s.(rxJitter := other), loss) == LocalRating(s, loss)
    ensures var fall := LocalRating(s, loss) - LocalRating(s.(txJitter := jitter), loss);
            (jitter <= 20000 ==> fall == 0.0) &&
            (s.txJitter >= 20000 ==>
               (jitter - s.txJitter) as real / 20000.0 <= fall <= (jitter - s.txJitter) as real / 5000.0)
  {
    JitterResponse(s.rttLast, LocalJitter(s.txJitter), LocalJitter(jitter), loss);
  }

  /** The remote rating ignores sent jitter, and counts received jitter from nothing. */
  lemma RemoteResponse(s: Stat, jitter: nat, other: nat, loss: real)
    requires s.rxJitter <= jitter
    ensures RemoteRating(s.(txJitter := other), loss) == RemoteRating(s, loss)
    ensures var fall := RemoteRating(s, loss) - RemoteRating(s.(rxJitter := jitter), loss);
            (jitter - s.rxJitter) as real / 20000.0 <= fall <= (jitter - s.rxJitter) as real / 5000.0
  {
    JitterResponse(s.rttLast, RemoteJitter(s.rxJitter), RemoteJitter(jitter), loss);
  }

  /** Both ratings fall with the round trip and with the loss. */
  lemma CommonResponse(s: Stat, rtt: nat, loss: real, more: real)
    requires s.rttLast <= rtt
    ensures var fall := LocalRating(s, loss) - LocalRating(s.(rttLast := rtt), loss);
            (rtt - s.rttLast) as real / 80000.0 <= fall <= (rtt - s.rttLast) as real / 20000.0
    ensures var fall := RemoteRating(s, loss) - RemoteRating(s.(rttLast := rtt), loss);
            (rtt - s.rttLast) as real / 80000.0 <= fall <= (rtt - s.rttLast) as real / 20000.0
    ensures LocalRating(s, loss) - LocalRating(s, more) == 250.0 * (more - loss)
    ensures RemoteRating(s, loss) - RemoteRating(s, more) == 250.0 * (more - loss)
  {
    RttResponse(s.rttLast, rtt, LocalJitter(s.txJitter), loss);
    RttResponse(s.rttLast, rtt, RemoteJitter(s.rxJitter), loss);
    LossResponse(s.rttLast, LocalJitter(s.txJitter), loss, more);
    LossResponse(s.rttLast, RemoteJitter(s.rxJitter), loss, more);
  }

  /** So from a rating of 3.5 on, more jitter where it counts and a longer round trip score strictly less. */
  lemma DelaysLowerScores(s: Stat, jitter: nat, rtt: nat, loss: real)
    requires loss >= 0.0
    ensures 20000 <= s.txJitter < jitter && LocalRating(s.(txJitter := jitter), loss) >= 3.5 ==>
              LocalScore(s.(txJitter := jitter), loss) < LocalScore(s, loss)
    ensures s.rxJitter < jitter && RemoteRating(s.(rxJitter := jitter), loss) >= 3.5 ==>
              RemoteScore(s.(rxJitter := jitter), loss) < RemoteScore(s, loss)
    ensures s.rttLast < rtt && LocalRating(s.(rttLast := rtt), loss) >= 3.5 ==>
              LocalScore(s.(rttLast := rtt), loss) < LocalScore(s, loss)
    ensures s.rttLast < rtt && RemoteRating(s.(rttLast := rtt), loss) >= 3.5 ==>
              RemoteScore(s.(rttLast := rtt), loss) < RemoteScore(s, loss)
  {
    RatingBound(s.rttLast, LocalJitter(s.txJitter), loss);
    RatingBound(s.rttLast, RemoteJitter(s.rxJitter), loss);
    if s.txJitter < jitter { LocalResponse(s, jitter, 0, loss); }
    if s.rxJitter < jitter { RemoteResponse(s, jitter, 0, loss); }
    if s.rttLast < rtt { CommonResponse(s, rtt, loss, loss); }
    ScoreRises(LocalRating(s.(txJitter := jitter), loss), LocalRating(s, loss));
    ScoreRises(RemoteRating(s.(rxJitter := jitter), loss), RemoteRating(s, loss));
    ScoreRises(LocalRating(s.(rttLast := rtt), loss), LocalRating(s, loss));
    ScoreRises(RemoteRating(s.(rttLast := rtt), loss), RemoteRating(s, loss));
  }
}
