/**
 What the polled reports mean over whole runs (plivo_app_callback.cpp:288-289, 316-319, 350-353,
 1180-1185, 1200-1202, 1268-1272, 1300-1306): packet counts without a width stand behind the 32-bit
 counters, and the reports are compared with the differences of those.
 */
module CallStatistics {
  import opened CallEvents
  import opened Mos
  import opened Options
  import opened CallMonitor

  /** Everything a call has sent, received and lost so far. */
  datatype Counters = Counters(txPkt: nat, txLoss: nat, rxPkt: nat, rxLoss: nat)

  const NOTHING := Counters(0, 0, 0, 0)

  datatype Delays = Delays(rttLast: nat, txJitter: nat, rxJitter: nat)

  /** A 32-bit counter that has counted to `n`. */
  function Counter(n: nat): uint32 {
    if n < 0x1_0000_0000 then n else Counter(n - 0x1_0000_0000)
  }

  /** The 32-bit counters the library hands out. */
  function StatOf(c: Counters, d: Delays): Stat {
    Stat(Counter(c.txPkt), Counter(c.txLoss), Counter(c.rxPkt), Counter(c.rxLoss), d.rttLast, d.txJitter, d.rxJitter)
  }

  predicate AtLeast(c: Counters, d: Counters) {
    c.txPkt >= d.txPkt && c.txLoss >= d.txLoss && c.rxPkt >= d.rxPkt && c.rxLoss >= d.rxLoss
  }

  /** Fewer than 2^31 packets sent, lost, or received and lost together, since `d`. */
  predicate Near(c: Counters, d: Counters) {
    c.txPkt - d.txPkt < 0x8000_0000 && c.txLoss - d.txLoss < 0x8000_0000 &&
    c.rxPkt - d.rxPkt + c.rxLoss - d.rxLoss < 0x8000_0000
  }

  /** The baselines after a remote poll at `d`; delays play no part. */
  function BaseAt(d: Counters): Base {
    BaseOf(StatOf(d, Delays(0, 0, 0)))
  }

  // ----- 32-bit differences

  lemma {:induction false} NarrowTurn(x: int)
    ensures Narrow(x + 0x1_0000_0000) == Narrow(x)
  {
  }

  lemma {:induction false} NarrowOfNarrow(x: int, y: int)
    ensures Narrow(y + Narrow(x)) == Narrow(y + x)
    decreases if x < -0x8000_0000 then -x else if x < 0x8000_0000 then 0 else x
  {
    if x < -0x8000_0000 {
      NarrowOfNarrow(x + 0x1_0000_0000, y);
      NarrowTurn(y + x);
    } else if x >= 0x8000_0000 {
      NarrowOfNarrow(x - 0x1_0000_0000, y);
      NarrowTurn(y + x - 0x1_0000_0000);
    }
  }

  lemma {:induction false} LessNarrow(x: int, y: int)
    ensures Narrow(y - Narrow(x)) == Narrow(y - x)
    decreases if x < -0x8000_0000 then -x else if x < 0x8000_0000 then 0 else x
  {
    if x < -0x8000_0000 {
      LessNarrow(x + 0x1_0000_0000, y);
      NarrowTurn(y - x - 0x1_0000_0000);
    } else if x >= 0x8000_0000 {
      LessNarrow(x - 0x1_0000_0000, y);
      NarrowTurn(y - x);
    }
  }

  lemma {:induction false} NarrowOfCounter(n: nat, y: int)
    ensures Narrow(Counter(n) + y) == Narrow(n + y)
    ensures Narrow(y - Counter(n)) == Narrow(y - n)
  {
    if n >= 0x1_0000_0000 {
      NarrowOfCounter(n - 0x1_0000_0000, y);
      NarrowTurn(n - 0x1_0000_0000 + y);
      NarrowTurn(y - n);
    }
  }

  /** A wrapped counter held against a narrowed baseline gives the true difference, narrowed. */
  lemma NarrowedDifference(c: nat, d: nat, y: int)
    ensures Narrow(Counter(c) - Narrow(Counter(d)) + y) == Narrow(c - d + y)
  {
    LessNarrow(Counter(d), Counter(c) + y);
    NarrowOfCounter(d, Counter(c) + y);
    NarrowOfCounter(c, y - d);
  }

  /** What the reports say, in true counts: exact but for one wrap at 2^31. */
  lemma ReportedCounts(c: Counters, d: Counters, delays: Delays)
    ensures RemoteLost(BaseAt(d), StatOf(c, delays)) == Narrow(c.rxLoss - d.rxLoss)
    ensures RemoteReceived(BaseAt(d), StatOf(c, delays)) == Narrow(c.rxPkt - d.rxPkt + c.rxLoss - d.rxLoss)
    ensures LocalLost(BaseAt(d), StatOf(c, delays)) == Narrow(c.txLoss - d.txLoss)
    ensures LocalSent(BaseAt(d), StatOf(c, delays)) == Narrow(c.txPkt - d.txPkt)
  {
    NarrowedDifference(c.rxLoss, d.rxLoss, 0);
    NarrowedDifference(c.txLoss, d.txLoss, 0);
    NarrowedDifference(c.txPkt, d.txPkt, 0);
    NarrowedDifference(c.rxPkt, d.rxPkt, Narrow(c.rxLoss - d.rxLoss));
    NarrowOfNarrow(c.rxLoss - d.rxLoss, c.rxPkt - d.rxPkt);
  }

  /** For a counter that only grows, the reported difference is the true one exactly below 2^31. */
  lemma ExactBelowHalf(c: nat, d: nat)
    requires c >= d
    ensures Narrow(c - d) == c - d <==> c - d < 0x8000_0000
  {
  }

  /** The counts reported against baselines `b` are the true ones since `d`, and none is negative. */
  ghost predicate TrueCounts(b: Base, d: Counters, s: Stat, c: Counters) {
    RemoteLost(b, s) == c.rxLoss - d.rxLoss >= 0 &&
    RemoteReceived(b, s) == c.rxPkt - d.rxPkt + c.rxLoss - d.rxLoss >= RemoteLost(b, s) &&
    LocalLost(b, s) == c.txLoss - d.txLoss >= 0 && LocalSent(b, s) == c.txPkt - d.txPkt >= 0
  }

  lemma GoodCounts(c: Counters, d: Counters, delays: Delays)
    requires AtLeast(c, d) && Near(c, d)
    ensures TrueCounts(BaseAt(d), d, StatOf(c, delays), c)
  {
    ReportedCounts(c, d, delays);
  }

  /** Loss shares and score are in range, and the remote share forced to 1 for losses out of nothing is not used. */
  ghost predicate InRange(b: Base, s: Stat) {
    !(RemoteReceived(b, s) == 0 && RemoteLost(b, s) != 0) &&
    0.0 <= RemoteOf(b, s).fractionLoss <= 1.0 && LocalOf(b, s).fractionLoss >= 0.0 && 0.98 <= LocalOf(b, s).mos <= 4.41
  }

  /** Counts that are not negative give loss shares and a score in range. */
  lemma GoodRanges(b: Base, s: Stat)
    requires 0 <= RemoteLost(b, s) <= RemoteReceived(b, s) && LocalLost(b, s) >= 0 && LocalSent(b, s) >= 0
    ensures InRange(b, s)
  {
    FractionInRange(RemoteLost(b, s), RemoteReceived(b, s));
    FractionNotNegative(LocalLost(b, s), LocalSent(b, s));
    MosRange(s.rttLast, LocalJitter(s.txJitter), LocalFraction(b, s));
    MosRange(s.rttLast, RemoteJitter(s.rxJitter), RemoteFraction(b, s));
  }

  /** Both reports of a poll are true and in range. */
  ghost predicate TrueReports(b: Base, d: Counters, poll: Event)
    requires !poll.Change?
  {
    var s := StatOf(poll.count, poll.delays);
    TrueCounts(b, d, s, poll.count) && InRange(b, s)
  }

  lemma FractionNotNegative(lost: int, total: int)
    requires lost >= 0 && total >= 0
    ensures Fraction(lost, total) >= 0.0
  {
  }

  lemma FractionInRange(lost: int, total: int)
    requires 0 <= lost <= total
    ensures 0.0 <= Fraction(lost, total) <= 1.0
  {
  }

  // ----- the baselines over a run

  /** An input with true counts in place of the 32-bit ones. */
  datatype Event = Change(callId: int, info: CallInfo) | Remote(count: Counters, delays: Delays)
                 | Local(count: Counters, delays: Delays)

  function InputOf(e: Event): Input {
    match e
    case Change(callId, info) => CallState(callId, info)
    case Remote(c, d) => PollRemote(StatOf(c, d))
    case Local(c, d) => PollLocal(StatOf(c, d))
  }

  function Inputs(es: seq<Event>): seq<Input> {
    seq(|es|, i requires 0 <= i < |es| => InputOf(es[i]))
  }

  /**
   What stands behind the baselines: the current call, the counts at the last remote poll, the call
   they belong to (none after an answer), and the counts each call was last polled at since then.
   */
  datatype Truth = Truth(cur: int, base: Counters, owner: Option<int>, seen: map<int, Counters>)

  const START := Truth(0, NOTHING, None, map[])

  function Seen(t: Truth): Counters {
    if t.cur in t.seen then t.seen[t.cur] else NOTHING
  }

  function Follow(t: Truth, e: Event): Truth {
    match e
    case Change(callId, info) =>
      if Emits(info) == [Answered] then Truth(callId, NOTHING, None, map[]) else t.(cur := callId)
    case Remote(c, _) => Truth(t.cur, c, Some(t.cur), t.seen[t.cur := c])
    case Local(c, _) => t.(seen := t.seen[t.cur := c])
  }

  function FollowAll(t: Truth, es: seq<Event>): Truth {
    if es == [] then t else Follow(FollowAll(t, es[..|es| - 1]), es[|es| - 1])
  }

  /** A call's counters do not fall between two polls with no answer in between. */
  ghost predicate Grows(t: Truth, e: Event) {
    !e.Change? ==> AtLeast(e.count, Seen(t))
  }

  ghost predicate Admissible(es: seq<Event>) {
    es == [] || (Admissible(es[..|es| - 1]) && Grows(FollowAll(START, es[..|es| - 1]), es[|es| - 1]))
  }

  /** The program's state is the truth, narrowed. */
  lemma {:induction false} StateIsTruth(es: seq<Event>)
    ensures var m, t := Run(Mon(0, ZERO_BASE, []), Inputs(es)), FollowAll(START, es);
            m.cur == t.cur && m.base == BaseAt(t.base)
  {
    if es != [] {
      var init := es[..|es| - 1];
      StateIsTruth(init);
      RunSnoc(Mon(0, ZERO_BASE, []), Inputs(init), InputOf(es[|es| - 1]));
      assert Inputs(es) == Inputs(init) + [InputOf(es[|es| - 1])];
    }
  }

  lemma {:induction false} RunSnoc(m: Mon, inputs: seq<Input>, last: Input)
    ensures Run(m, inputs + [last]) == Step(Run(m, inputs), last)
    decreases |inputs|
  {
    if inputs != [] {
      RunSnoc(Step(m, inputs[0]), inputs[1..], last);
      assert (inputs + [last])[1..] == inputs[1..] + [last];
    } else {
      assert inputs + [last] == [last];
      assert Run(Step(m, last), [last][1..]) == Step(m, last);
    }
  }

  /** The baselines belong to the current call, or to none. */
  predicate OwnBase(t: Truth) {
    t.owner == None || t.owner == Some(t.cur)
  }

  ghost predicate BaseBelow(t: Truth) {
    match t.owner
    case None => t.base == NOTHING
    case Some(d) => d in t.seen && AtLeast(t.seen[d], t.base)
  }

  lemma {:induction false} BaseStaysBelow(es: seq<Event>)
    requires Admissible(es)
    ensures BaseBelow(FollowAll(START, es))
  {
    if es != [] { BaseStaysBelow(es[..|es| - 1]); }
  }

  /** A poll while the baselines belong to the polled call reports true, non-negative counts. */
  lemma OwnPollsAreTrue(es: seq<Event>, poll: Event)
    requires Admissible(es) && !poll.Change? && Grows(FollowAll(START, es), poll)
    requires OwnBase(FollowAll(START, es)) && Near(poll.count, FollowAll(START, es).base)
    ensures TrueReports(Run(Mon(0, ZERO_BASE, []), Inputs(es)).base, FollowAll(START, es).base, poll)
  {
    BaseStaysBelow(es);
    StateIsTruth(es);
    GoodCounts(poll.count, FollowAll(START, es).base, poll.delays);
    GoodRanges(BaseAt(FollowAll(START, es).base), StatOf(poll.count, poll.delays));
  }

  /** As long as only its own state changes since its answer, a call finds the baselines its own. */
  lemma {:induction false} UndisturbedOwns(es: seq<Event>, i: nat)
    requires i < |es| && es[i].Change? && Emits(es[i].info) == [Answered]
    requires forall k :: i < k < |es| && es[k].Change? ==> es[k].callId == es[i].callId
    ensures OwnBase(FollowAll(START, es)) && FollowAll(START, es).cur == es[i].callId
  {
    if i < |es| - 1 { UndisturbedOwns(es[..|es| - 1], i); }
  }

  /** So after an answer, and until another call's state changes, every poll of the call is true. */
  lemma UndisturbedPollsAreTrue(es: seq<Event>, i: nat, poll: Event)
    requires i < |es| && es[i].Change? && Emits(es[i].info) == [Answered]
    requires forall k :: i < k < |es| && es[k].Change? ==> es[k].callId == es[i].callId
    requires Admissible(es) && !poll.Change? && Grows(FollowAll(START, es), poll)
    requires Near(poll.count, FollowAll(START, es).base)
    ensures TrueReports(Run(Mon(0, ZERO_BASE, []), Inputs(es)).base, FollowAll(START, es).base, poll)
  {
    UndisturbedOwns(es, i);
    OwnPollsAreTrue(es, poll);
  }

  /** Each reported count is, without its wrap, within 2^31 of nothing, up or down. */
  predicate Close(c: Counters, d: Counters) {
    -0x8000_0000 < c.txPkt - d.txPkt < 0x8000_0000 && -0x8000_0000 < c.txLoss - d.txLoss < 0x8000_0000 &&
    -0x8000_0000 < c.rxLoss - d.rxLoss < 0x8000_0000 &&
    -0x8000_0000 < c.rxPkt - d.rxPkt + c.rxLoss - d.rxLoss < 0x8000_0000
  }

  /** No reported count is negative, and loss shares and score are in range. */
  ghost predicate Sound(b: Base, s: Stat) {
    RemoteLost(b, s) >= 0 && RemoteReceived(b, s) >= 0 && LocalLost(b, s) >= 0 && LocalSent(b, s) >= 0 && InRange(b, s)
  }

  /** More lost than received leaves the range: a share over 1, or the share forced to 1. */
  lemma LostWithinReceived(b: Base, s: Stat)
    requires Sound(b, s)
    ensures RemoteLost(b, s) <= RemoteReceived(b, s)
  {
    var lost, received := RemoteLost(b, s), RemoteReceived(b, s);
    if received > 0 {
      assert RemoteOf(b, s).fractionLoss == lost as real / received as real;
      Quotient(lost, received);
    }
  }

  lemma Quotient(lost: nat, received: nat)
    requires received > 0 && lost as real / received as real <= 1.0
    ensures lost <= received
  {
    assert lost as real == (lost as real / received as real) * received as real;
  }

  /** A poll within reach of the baselines is reported soundly exactly when no counter is below its baseline. */
  lemma SoundExactly(c: Counters, d: Counters, delays: Delays)
    requires Close(c, d)
    ensures Sound(BaseAt(d), StatOf(c, delays)) <==> AtLeast(c, d)
  {
    var b, s := BaseAt(d), StatOf(c, delays);
    ReportedCounts(c, d, delays);
    if AtLeast(c, d) { GoodRanges(b, s); }
    if Sound(b, s) { LostWithinReceived(b, s); }
  }

  /** The counts of `near` if they are under the baseline, else one under it wherever the last counts seen are. */
  function Lowest(near: Counters, seen: Counters, d: Counters): Counters {
    if !AtLeast(near, d) then near
    else
      Counters(if seen.txPkt < d.txPkt then d.txPkt - 1 else near.txPkt,
               if seen.txLoss < d.txLoss then d.txLoss - 1 else near.txLoss,
               if seen.rxPkt < d.rxPkt then d.rxPkt - 1 else near.rxPkt,
               if seen.rxLoss < d.rxLoss then d.rxLoss - 1 else near.rxLoss)
  }

  /**
   In any state: every next poll within reach of the baselines is reported soundly exactly when the
   last counts seen of the current call are not below the baselines. `near` is one such poll; without
   any there is nothing to say.
   */
  lemma NextPollsSoundExactly(t: Truth, near: Counters)
    requires AtLeast(near, Seen(t)) && Close(near, t.base)
    ensures (forall c: Counters, delays: Delays :: AtLeast(c, Seen(t)) && Close(c, t.base) ==>
               Sound(BaseAt(t.base), StatOf(c, delays)))
       <==> AtLeast(Seen(t), t.base)
  {
    if AtLeast(Seen(t), t.base) {
      forall c: Counters, delays: Delays | AtLeast(c, Seen(t)) && Close(c, t.base)
        ensures Sound(BaseAt(t.base), StatOf(c, delays))
      {
        SoundExactly(c, t.base, delays);
      }
    } else {
      var c, delays := Lowest(near, Seen(t), t.base), Delays(0, 0, 0);
      LowestDecides(t, near);
      SoundExactly(c, t.base, delays);
      assert !Sound(BaseAt(t.base), StatOf(c, delays));
    }
  }

  lemma LowestDecides(t: Truth, near: Counters)
    requires AtLeast(near, Seen(t)) && Close(near, t.base)
    ensures var c := Lowest(near, Seen(t), t.base);
            AtLeast(c, Seen(t)) && Close(c, t.base) && (AtLeast(c, t.base) <==> AtLeast(Seen(t), t.base))
  {
  }

  /** The polls that can come next: of counts that have not fallen, within reach of the baselines. */
  ghost predicate CanPoll(t: Truth, poll: Event) {
    !poll.Change? && Grows(t, poll) && Close(poll.count, t.base)
  }

  /** The same over runs, of the baselines the program holds after one. */
  lemma RunsSoundExactly(es: seq<Event>, near: Event)
    requires CanPoll(FollowAll(START, es), near)
    ensures var base, t := Run(Mon(0, ZERO_BASE, []), Inputs(es)).base, FollowAll(START, es);
            (forall poll: Event :: CanPoll(t, poll) ==> Sound(base, StatOf(poll.count, poll.delays)))
            <==> AtLeast(Seen(t), t.base)
  {
    var t := FollowAll(START, es);
    var base := Run(Mon(0, ZERO_BASE, []), Inputs(es)).base;
    assert base == BaseAt(t.base) by { StateIsTruth(es); }
    if AtLeast(Seen(t), t.base) {
      forall poll: Event | CanPoll(t, poll) ensures Sound(base, StatOf(poll.count, poll.delays)) {
        SoundExactly(poll.count, t.base, poll.delays);
      }
    } else {
      var poll := Local(Lowest(near.count, Seen(t), t.base), Delays(0, 0, 0));
      LowestDecides(t, near.count);
      SoundExactly(poll.count, t.base, poll.delays);
      assert CanPoll(t, poll) && !Sound(base, StatOf(poll.count, poll.delays));
    }
  }

  /**
   When another call's state changes between the polls, its counters are held against the first
   call's baselines: counts turn negative and the score leaves its range.
   */
  lemma OtherCallDisturbs(m: Mon)
    ensures var m1 := Step(m, CallState(1, CallInfo(UAC, CONFIRMED, 200)));
            var m2 := Step(m1, PollRemote(Stat(50, 10, 50, 10, 0, 0, 0)));
            var m3 := Step(m2, CallState(2, CallInfo(UAS, CONNECTING, 200)));
            m3.cur == 2 && m3.base == Base(50, 50, 10, 10) &&
            ReportsTooGood(Base(50, 50, 10, 10), Stat(150, 0, 150, 0, 0, 0, 0))
  {
    DisturbedReports();
  }

  predicate ReportsTooGood(b: Base, s: Stat) {
    RemoteLost(b, s) == -10 && LocalLost(b, s) == -10 && LocalMos(b, s) == 4.5
  }

  lemma DisturbedReports()
    ensures ReportsTooGood(Base(50, 50, 10, 10), Stat(150, 0, 150, 0, 0, 0, 0))
  {
    NegativeLoss(Fraction(-10, 100));
    NegativeLoss(Fraction(-10, 90));
  }

  lemma NegativeLoss(loss: real)
    requires loss <= -0.1
    ensures Score(RFactor(0, LocalJitter(0), loss)) == 4.5 && Score(RFactor(0, RemoteJitter(0), loss)) == 4.5
  {
  }

  // ----- sums over polling runs

  /** Polls only, each of counts that have grown since the baselines, by fewer than 2^31. */
  ghost predicate Paced(d: Counters, es: seq<Event>)
    decreases |es|
  {
    es == [] ||
    (!es[0].Change? && AtLeast(es[0].count, d) && Near(es[0].count, d) &&
     Paced(if es[0].Remote? then es[0].count else d, es[1..]))
  }

  /** The counts at the last remote poll, or `d`. */
  function LastRemote(d: Counters, es: seq<Event>): Counters
    decreases |es|
  {
    if es == [] then d else LastRemote(if es[0].Remote? then es[0].count else d, es[1..])
  }

  /** Sums of the counts in the reports that the polls of a run return. */
  datatype Totals = Totals(remoteLost: int, received: int, localLost: int, sent: int)

  function TotalsOf(m: Mon, es: seq<Event>): Totals
    decreases |es|
  {
    if es == [] then Totals(0, 0, 0, 0)
    else
      var t := TotalsOf(Step(m, InputOf(es[0])), es[1..]);
      match es[0]
      case Change(_, _) => t
      case Remote(c, d) =>
        t.(remoteLost := RemoteLost(m.base, StatOf(c, d)) + t.remoteLost,
           received := RemoteReceived(m.base, StatOf(c, d)) + t.received)
      case Local(c, d) =>
        t.(localLost := LocalLost(m.base, StatOf(c, d)) + t.localLost,
           sent := LocalSent(m.base, StatOf(c, d)) + t.sent)
  }

  lemma {:induction false} RemoteTelescopes(m: Mon, d: Counters, es: seq<Event>)
    requires m.base == BaseAt(d) && Paced(d, es)
    ensures var t, last := TotalsOf(m, es), LastRemote(d, es);
            t.remoteLost == last.rxLoss - d.rxLoss && t.received == last.rxPkt + last.rxLoss - d.rxPkt - d.rxLoss
    decreases |es|
  {
    if es != [] {
      var e := es[0];
      GoodCounts(e.count, d, e.delays);
      RemoteTelescopes(Step(m, InputOf(e)), if e.Remote? then e.count else d, es[1..]);
    }
  }

  /**
   After an answer the remote reports add up to the call's own counts at the last remote poll,
   whatever local polls come between.
   */
  lemma RemoteTotals(m: Mon, callId: int, info: CallInfo, es: seq<Event>)
    requires Emits(info) == [Answered] && Paced(NOTHING, es)
    ensures var t, last := TotalsOf(Step(m, CallState(callId, info)), es), LastRemote(NOTHING, es);
            t.remoteLost == last.rxLoss && t.received == last.rxPkt + last.rxLoss
  {
    RemoteTelescopes(Step(m, CallState(callId, info)), NOTHING, es);
  }

  /** A local poll at one snapshot and then a remote poll at a later one. */
  datatype Round = Round(asked: Counters, polled: Counters, delays: Delays)

  function Rounds(rs: seq<Round>): seq<Event> {
    if rs == [] then [] else [Local(rs[0].asked, rs[0].delays), Remote(rs[0].polled, rs[0].delays)] + Rounds(rs[1..])
  }

  ghost predicate RoundsPaced(d: Counters, rs: seq<Round>)
    decreases |rs|
  {
    rs == [] ||
    (AtLeast(rs[0].asked, d) && Near(rs[0].asked, d) && AtLeast(rs[0].polled, rs[0].asked) &&
     RoundsPaced(rs[0].polled, rs[1..]))
  }

  /** What was sent and lost between the two polls of each round but the last: no local report covers it. */
  function Gaps(rs: seq<Round>): (int, int) {
    if |rs| <= 1 then (0, 0)
    else
      var (sent, lost) := Gaps(rs[1..]);
      (rs[0].polled.txPkt - rs[0].asked.txPkt + sent, rs[0].polled.txLoss - rs[0].asked.txLoss + lost)
  }

  lemma {:induction false} LocalConservation(m: Mon, d: Counters, rs: seq<Round>)
    requires m.base == BaseAt(d) && rs != [] && RoundsPaced(d, rs)
    ensures var t, last := TotalsOf(m, Rounds(rs)), rs[|rs| - 1].asked;
            t.sent + Gaps(rs).0 == last.txPkt - d.txPkt && t.localLost + Gaps(rs).1 == last.txLoss - d.txLoss
    decreases |rs|
  {
    var r, rest, es := rs[0], rs[1..], Rounds(rs);
    var e0, e1 := Local(r.asked, r.delays), Remote(r.polled, r.delays);
    assert es == [e0] + ([e1] + Rounds(rest)) && es[1..] == [e1] + Rounds(rest) && es[1..][1..] == Rounds(rest);
    GoodCounts(r.asked, d, r.delays);
    var m' := Step(m, InputOf(e1));
    assert TotalsOf(m, es).sent == r.asked.txPkt - d.txPkt + TotalsOf(m', Rounds(rest)).sent;
    assert TotalsOf(m, es).localLost == r.asked.txLoss - d.txLoss + TotalsOf(m', Rounds(rest)).localLost;
    if rest != [] {
      LocalConservation(m', r.polled, rest);
    }
  }

  /** After an answer the local reports and the uncovered gaps add up to the counts at the last local poll. */
  lemma LocalTotals(m: Mon, callId: int, info: CallInfo, rs: seq<Round>)
    requires Emits(info) == [Answered] && rs != [] && RoundsPaced(NOTHING, rs)
    ensures var t, last := TotalsOf(Step(m, CallState(callId, info)), Rounds(rs)), rs[|rs| - 1].asked;
            t.sent + Gaps(rs).0 == last.txPkt && t.localLost + Gaps(rs).1 == last.txLoss
  {
    LocalConservation(Step(m, CallState(callId, info)), NOTHING, rs);
  }

  // ----- two polls of one snapshot

  /** Local first: the score counts the very loss that the remote report then shows. */
  method LocalThenRemote(m: Monitor, s: Stat) returns (l: LocalReport, r: RemoteReport)
    modifies m
    ensures l.mos == Least(LocalScore(s, l.fractionLoss), RemoteScore(s, r.fractionLoss))
    ensures m.State() == old(m.State()).(base := BaseOf(s))
  {
    l := m.GetLocalStats(s);
    r := m.GetRemoteStats(s);
  }

  /** Remote first: nothing is left for the local report, and its score counts no loss at all. */
  method RemoteThenLocal(m: Monitor, s: Stat) returns (r: RemoteReport, l: LocalReport)
    modifies m
    ensures l.packetsLost == 0 && l.packetsSent == 0 && l.fractionLoss == 0.0
    ensures l.mos == Least(LocalScore(s, 0.0), RemoteScore(s, 0.0))
  {
    r := m.GetRemoteStats(s);
    l := m.GetLocalStats(s);
    NothingLeft(s);
  }

  lemma NothingLeft(s: Stat)
    ensures RemoteLost(BaseOf(s), s) == 0 && RemoteReceived(BaseOf(s), s) == 0
    ensures LocalLost(BaseOf(s), s) == 0 && LocalSent(BaseOf(s), s) == 0
  {
    NothingSince(s.txLoss);
    NothingSince(s.txPkt);
    NothingSince(s.rxLoss);
    NothingSince(s.rxPkt);
  }

  lemma NothingSince(x: uint32)
    ensures Narrow(x - Narrow(x)) == 0 && Narrow(x - Narrow(x) + 0) == 0
  {
    LessNarrow(x, x);
  }
}
