/** What `on_call_state` tells the application, and the language its events form (plivo_app_callback.cpp:288-388). */
module CallEvents {

  datatype Role = UAC | UAS

  /** The INVITE session states, in the order a session goes through them. */
  datatype InvState = NULL | CALLING | INCOMING | EARLY | CONNECTING | CONFIRMED | DISCONNECTED

  datatype CallInfo = CallInfo(role: Role, state: InvState, lastStatus: int)

  /** The outgoing or incoming callback of this name, as the role says. */
  datatype CallEvent = Dialled | Ringing | Connecting | Answered | Rejected | Invalid | Hangup

  /** 180 Ringing or 183 Session Progress. */
  predicate Provisional(info: CallInfo) {
    info.lastStatus == 180 || info.lastStatus == 183
  }

  /** How a disconnected call is reported. */
  function Final(role: Role, status: int): CallEvent {
    if status == 200 then Hangup
    else if role == UAC then if 480 <= status <= 489 then Rejected else Invalid
    else if status == 486 || status == 487 then Rejected else Invalid
  }

  /** The callbacks of one state change, by state: none or one. */
  function Emits(info: CallInfo): seq<CallEvent> {
    match info.state
    case CALLING => if info.role == UAC then [Dialled] else Otherwise(info, Invalid)
    case INCOMING => if info.role == UAS then [] else Otherwise(info, Invalid)
    case EARLY => [Ringing]
    case CONNECTING => Otherwise(info, Connecting)
    case CONFIRMED => Otherwise(info, Answered)
    case DISCONNECTED => Otherwise(info, Final(info.role, info.lastStatus))
    case NULL => Otherwise(info, Invalid)
  }

  /** A provisional status outranks every state but CALLING at the caller and INCOMING at the callee. */
  function Otherwise(info: CallInfo, e: CallEvent): seq<CallEvent> {
    [if Provisional(info) then Ringing else e]
  }

  // ----- the language

  predicate IsFinal(e: CallEvent) {
    e == Rejected || e == Invalid || e == Hangup
  }

  function Repeat(e: CallEvent, n: nat): (r: seq<CallEvent>)
    ensures |r| == n && forall i :: 0 <= i < n ==> r[i] == e
  {
    seq(n, i => e)
  }

  /** n Ringing, Connecting if `c`, Answered if `a`, then `t`. */
  function Pattern(n: nat, c: bool, a: bool, t: CallEvent): seq<CallEvent> {
    Repeat(Ringing, n) + (if c then [Connecting] else []) + (if a then [Answered] else []) + [t]
  }

  /** Ringing* Connecting? Answered? (Rejected | Invalid | Hangup) */
  ghost predicate IsPattern(ev: seq<CallEvent>) {
    exists n: nat, c: bool, a: bool, t: CallEvent :: IsFinal(t) && ev == Pattern(n, c, a, t)
  }

  /** An outgoing call is dialled first. */
  ghost predicate InLanguage(role: Role, ev: seq<CallEvent>) {
    if role == UAC then ev != [] && ev[0] == Dialled && IsPattern(ev[1..]) else IsPattern(ev)
  }

  /** A recogniser for the pattern. */
  predicate Ends(ev: seq<CallEvent>) {
    |ev| == 1 && IsFinal(ev[0])
  }

  predicate AnswersOrEnds(ev: seq<CallEvent>) {
    if ev != [] && ev[0] == Answered then Ends(ev[1..]) else Ends(ev)
  }

  predicate Recognised(ev: seq<CallEvent>) {
    if ev == [] then false
    else if ev[0] == Ringing then Recognised(ev[1..])
    else if ev[0] == Connecting then AnswersOrEnds(ev[1..])
    else AnswersOrEnds(ev)
  }

  lemma {:induction false} RecognisedIsPattern(ev: seq<CallEvent>)
    ensures Recognised(ev) <==> IsPattern(ev)
  {
    if Recognised(ev) { PatternOf(ev); }
    if IsPattern(ev) {
      var n: nat, c: bool, a: bool, t: CallEvent :| IsFinal(t) && ev == Pattern(n, c, a, t);
      PatternRecognised(n, c, a, t);
    }
  }

  lemma PatternStep(n: nat, c: bool, a: bool, t: CallEvent)
    ensures Pattern(n + 1, c, a, t) == [Ringing] + Pattern(n, c, a, t)
  {
    assert Repeat(Ringing, n + 1) == [Ringing] + Repeat(Ringing, n);
  }

  lemma {:induction false} PatternOf(ev: seq<CallEvent>)
    requires Recognised(ev)
    ensures IsPattern(ev)
  {
    if ev[0] == Ringing {
      PatternOf(ev[1..]);
      var n: nat, c: bool, a: bool, t: CallEvent :| IsFinal(t) && ev[1..] == Pattern(n, c, a, t);
      PatternStep(n, c, a, t);
      assert ev == Pattern(n + 1, c, a, t);
    } else {
      var c := ev[0] == Connecting;
      var rest := if c then ev[1..] else ev;
      assert ev == Pattern(0, c, rest[0] == Answered, ev[|ev| - 1]);
    }
  }

  lemma {:induction false} PatternRecognised(n: nat, c: bool, a: bool, t: CallEvent)
    requires IsFinal(t)
    ensures Recognised(Pattern(n, c, a, t))
  {
    var ev := Pattern(n, c, a, t);
    if n > 0 {
      PatternRecognised(n - 1, c, a, t);
      PatternStep(n - 1, c, a, t);
    } else if c {
      assert ev[1..] == (if a then [Answered] else []) + [t];
    }
  }

  // ----- one call

  /** All callbacks of one call, from its state changes. */
  function Stream(tr: seq<CallInfo>): seq<CallEvent> {
    if tr == [] then [] else Emits(tr[0]) + Stream(tr[1..])
  }

  function Rank(s: InvState): nat {
    match s
    case NULL => 0 case CALLING => 1 case INCOMING => 2 case EARLY => 3
    case CONNECTING => 4 case CONFIRMED => 5 case DISCONNECTED => 6
  }

  /** States go up, EARLY alone may repeat, and the last one is DISCONNECTED. */
  ghost predicate Climbs(role: Role, tr: seq<CallInfo>) {
    tr != [] && tr[|tr| - 1].state == DISCONNECTED &&
    (forall i :: 0 <= i < |tr| ==> tr[i].role == role) &&
    (forall i, j :: 0 <= i < j < |tr| ==>
       Rank(tr[i].state) < Rank(tr[j].state) || tr[i].state == tr[j].state == EARLY)
  }

  /** A caller starts in CALLING and is never INCOMING; a callee is never below INCOMING. */
  ghost predicate IsSession(role: Role, tr: seq<CallInfo>) {
    Climbs(role, tr) &&
    if role == UAC
    then tr[0].state == CALLING && forall i :: 0 <= i < |tr| ==> tr[i].state != INCOMING
    else forall i :: 0 <= i < |tr| ==> Rank(tr[i].state) >= Rank(INCOMING)
  }

  /** The call ends with a status other than 180 and 183, and none of them replaces the answer after Connecting. */
  ghost predicate Orderly(tr: seq<CallInfo>) {
    (tr != [] ==> !Provisional(tr[|tr| - 1])) &&
    forall i :: 0 <= i < |tr| - 1 && tr[i].state == CONNECTING && tr[i + 1].state == CONFIRMED ==>
      (Provisional(tr[i + 1]) ==> Provisional(tr[i]))
  }

  lemma {:induction false} StreamStep(tr: seq<CallInfo>, e: CallEvent)
    requires tr != [] && Emits(tr[0]) == [e]
    ensures Stream(tr) == [e] + Stream(tr[1..])
  {
  }

  lemma {:induction false} ClimbsTail(role: Role, tr: seq<CallInfo>)
    requires Climbs(role, tr) && |tr| > 1
    ensures Climbs(role, tr[1..])
    ensures tr[0].state != EARLY ==> forall i :: 1 <= i < |tr| ==> Rank(tr[0].state) < Rank(tr[i].state)
    ensures tr[0].state != CONNECTING ==> (Orderly(tr) <==> Orderly(tr[1..]))
  {
    var rest := tr[1..];
    if Orderly(rest) && tr[0].state != CONNECTING {
      forall i | 0 <= i < |tr| - 1 && tr[i].state == CONNECTING && tr[i + 1].state == CONFIRMED &&
                 Provisional(tr[i + 1])
        ensures Provisional(tr[i])
      {
        assert rest[i - 1] == tr[i] && rest[i] == tr[i + 1];
      }
    }
  }

  /** A call that is disconnected in its next two changes, from CONFIRMED or straight away. */
  lemma {:induction false} EndOfCall(role: Role, tr: seq<CallInfo>)
    requires Climbs(role, tr) && forall i :: 0 <= i < |tr| ==> Rank(tr[i].state) >= Rank(CONFIRMED)
    ensures Recognised(Stream(tr)) <==> !Provisional(tr[|tr| - 1])
    ensures AnswersOrEnds(Stream(tr)) <==> !Provisional(tr[|tr| - 1]) && (|tr| > 1 ==> !Provisional(tr[0]))
    ensures |tr| <= 2 && (|tr| == 2 ==> tr[0].state == CONFIRMED)
  {
    assert |tr| > 1 ==> Rank(tr[0].state) < Rank(tr[1].state);
    var last := tr[|tr| - 1..];
    assert last == [tr[|tr| - 1]];
    assert Stream(last) == Emits(tr[|tr| - 1]);
    assert Stream(last)[1..] == [];
    assert Recognised(Stream(last)) <==> !Provisional(tr[|tr| - 1]);
    if |tr| == 1 {
      assert last == tr;
    } else {
      assert last == tr[1..];
      StreamStep(tr, Emits(tr[0])[0]);
      assert Stream(tr)[1..] == Stream(last);
    }
  }

  /** From EARLY on: in the language exactly when orderly. */
  lemma {:induction false} TailLanguage(role: Role, tr: seq<CallInfo>)
    requires Climbs(role, tr) && forall i :: 0 <= i < |tr| ==> Rank(tr[i].state) >= Rank(EARLY)
    ensures Recognised(Stream(tr)) <==> Orderly(tr)
  {
    if Rank(tr[0].state) >= Rank(CONFIRMED) {
      EndOfCall(role, tr);
    } else {
      var rest := tr[1..];
      var e := Emits(tr[0])[0];
      ClimbsTail(role, tr);
      StreamStep(tr, e);
      assert Stream(tr)[1..] == Stream(rest);
      if tr[0].state == EARLY {
        TailLanguage(role, rest);
      } else {
        EndOfCall(role, rest);
        assert rest[0] == tr[1];
      }
    }
  }

  /** The callbacks of every session lie in the language exactly when it is orderly. */
  lemma {:induction false} SessionLanguage(role: Role, tr: seq<CallInfo>)
    requires IsSession(role, tr)
    ensures InLanguage(role, Stream(tr)) <==> Orderly(tr)
  {
    if Rank(tr[0].state) < Rank(EARLY) {
      var rest := tr[1..];
      ClimbsTail(role, tr);
      TailLanguage(role, rest);
      RecognisedIsPattern(Stream(rest));
      if role == UAC {
        StreamStep(tr, Dialled);
        assert Stream(tr)[1..] == Stream(rest);
      } else {
        assert Stream(tr) == Stream(rest);
      }
    } else {
      TailLanguage(role, tr);
      RecognisedIsPattern(Stream(tr));
    }
  }

  /** A final status at the end is not enough: a late 180 puts Ringing where Answered belongs. */
  lemma LateRinging()
    ensures var tr := [CallInfo(UAS, CONNECTING, 200), CallInfo(UAS, CONFIRMED, 180), CallInfo(UAS, DISCONNECTED, 200)];
            IsSession(UAS, tr) && !Provisional(tr[2]) && !InLanguage(UAS, Stream(tr))
  {
    var tr := [CallInfo(UAS, CONNECTING, 200), CallInfo(UAS, CONFIRMED, 180), CallInfo(UAS, DISCONNECTED, 200)];
    assert tr[1..][1..] == [tr[2]] && tr[1..][1..][1..] == [];
    assert Stream(tr) == [Connecting, Ringing, Hangup];
    assert !Recognised(Stream(tr)) by { assert Stream(tr)[1..] == [Ringing, Hangup]; }
    RecognisedIsPattern(Stream(tr));
  }

  lemma TerminalOfPattern(n: nat, c: bool, a: bool, t: CallEvent, j: nat)
    requires IsFinal(t) && j < |Pattern(n, c, a, t)|
    ensures IsFinal(Pattern(n, c, a, t)[j]) <==> j == |Pattern(n, c, a, t)| - 1
  {
    if j < n { assert Pattern(n, c, a, t)[j] == Ringing; }
  }

  /** In the language there is exactly one terminal callback, and it comes last. */
  lemma {:induction false} OneTerminal(role: Role, ev: seq<CallEvent>, i: nat)
    requires InLanguage(role, ev) && i < |ev|
    ensures IsFinal(ev[i]) <==> i == |ev| - 1
  {
    var body := if role == UAC then ev[1..] else ev;
    var n: nat, c: bool, a: bool, t: CallEvent :| IsFinal(t) && body == Pattern(n, c, a, t);
    if role != UAC || i > 0 {
      var j := if role == UAC then i - 1 else i;
      assert ev[i] == body[j];
      TerminalOfPattern(n, c, a, t, j);
    }
  }

  // ----- which callback, for which change

  predicate LateStatus(status: int) {
    status != 180 && status != 183
  }

  /** The changes that one callback is made for, callback by callback. */
  predicate Causes(info: CallInfo, e: CallEvent) {
    match e
    case Dialled => info.role == UAC && info.state == CALLING
    case Ringing =>
      info.state == EARLY ||
      (!LateStatus(info.lastStatus) && !(info.role == UAC && info.state == CALLING) &&
       !(info.role == UAS && info.state == INCOMING))
    case Connecting => info.state == CONNECTING && LateStatus(info.lastStatus)
    case Answered => info.state == CONFIRMED && LateStatus(info.lastStatus)
    case Hangup => info.state == DISCONNECTED && info.lastStatus == 200
    case Rejected =>
      info.state == DISCONNECTED &&
      if info.role == UAC then 480 <= info.lastStatus <= 489 else info.lastStatus in {486, 487}
    case Invalid =>
      LateStatus(info.lastStatus) &&
      (info.state == NULL || (info.state == CALLING && info.role == UAS) ||
       (info.state == INCOMING && info.role == UAC) ||
       (info.state == DISCONNECTED && info.lastStatus != 200 &&
        if info.role == UAC then !(480 <= info.lastStatus <= 489) else info.lastStatus !in {486, 487}))
  }

  function Times(e: CallEvent, ev: seq<CallEvent>): nat {
    if ev == [] then 0 else (if ev[0] == e then 1 else 0) + Times(e, ev[1..])
  }

  /** How many changes cause the callback. */
  function CauseCount(e: CallEvent, tr: seq<CallInfo>): nat {
    if tr == [] then 0 else (if Causes(tr[0], e) then 1 else 0) + CauseCount(e, tr[1..])
  }

  /** A change makes one callback, except that a callee's INCOMING makes none; and it makes just the one it causes. */
  lemma EmitsCaused(info: CallInfo, e: CallEvent)
    ensures |Emits(info)| == if info.role == UAS && info.state == INCOMING then 0 else 1
    ensures Emits(info) == [e] <==> Causes(info, e)
  {
  }

  /** Over every trace, session or not: each callback is made once for every change that causes it, and for no other. */
  lemma {:induction false} EveryCause(tr: seq<CallInfo>, e: CallEvent)
    ensures Times(e, Stream(tr)) == CauseCount(e, tr)
  {
    if tr != [] {
      EveryCause(tr[1..], e);
      EmitsCaused(tr[0], e);
      var told := Emits(tr[0]);
      if told == [] {
        assert Stream(tr) == Stream(tr[1..]);
      } else {
        assert Stream(tr)[1..] == Stream(tr[1..]) && Stream(tr)[0] == told[0];
        EmitsCaused(tr[0], told[0]);
        assert told == [told[0]];
      }
    }
  }

  lemma {:induction false} StreamConcat(a: seq<CallInfo>, b: seq<CallInfo>)
    ensures Stream(a + b) == Stream(a) + Stream(b)
  {
    if a == [] {
      assert a + b == b;
    } else {
      StreamConcat(a[1..], b);
      assert (a + b)[0] == a[0] && (a + b)[1..] == a[1..] + b;
      assert Emits(a[0]) + (Stream(a[1..]) + Stream(b)) == (Emits(a[0]) + Stream(a[1..])) + Stream(b);
    }
  }

  lemma {:induction false} StreamSnoc(tr: seq<CallInfo>)
    requires tr != []
    ensures Stream(tr) == Stream(tr[..|tr| - 1]) + Emits(tr[|tr| - 1])
  {
    var init, last := tr[..|tr| - 1], tr[|tr| - 1];
    StreamConcat(init, [last]);
    assert tr == init + [last];
    assert [last][1..] == [];
  }

  /** A call that ends with a status other than 180 and 183 ends with the callback its status and its role say. */
  lemma {:induction false} LastTold(role: Role, tr: seq<CallInfo>)
    requires IsSession(role, tr) && !Provisional(tr[|tr| - 1])
    ensures var ev, st := Stream(tr), tr[|tr| - 1].lastStatus;
            ev != [] &&
            (ev[|ev| - 1] == Hangup <==> st == 200) &&
            (ev[|ev| - 1] == Rejected <==> if role == UAC then 480 <= st <= 489 else st == 486 || st == 487) &&
            (ev[|ev| - 1] == Invalid
             <==> st != 200 && if role == UAC then st < 480 || 489 < st else st < 486 || 487 < st)
  {
    StreamSnoc(tr);
    var told := Emits(tr[|tr| - 1]);
    assert Stream(tr)[|Stream(tr)| - 1] == told[0];
  }
}
