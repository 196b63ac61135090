/**
 The account configuration the SIP library keeps, and the entry points that rewrite it:
 `registerToken`, `relayVoipPushNotification` and `setRegTimeout`
 (plivo_app_callback.cpp:533-544, 989-1035 and 1040-1178).
 The library is taken to hand out a copy of the configuration, to replace it when
 `pjsua_acc_modify` succeeds and to leave it alone when that fails.
 */
module Registration {
  import opened HeaderList
  import opened Options
  import opened PushMessage
  import opened Tokenizer

  datatype Config = Config(
    regHdrs: seq<Header>,
    proxies: seq<string>,
    contactParams: string,
    regTimeout: int,
    kaInterval: int)

  /** One call of an entry point; `verified` and `modified` are the library's answers. */
  datatype Event =
    | Pushed(xLabel: string, xIndex: string, registrar: string, verified: bool, modified: bool)
    | TokenSent(token: string, modified: bool)
    | TimeoutSet(seconds: int, modified: bool)

  const X_LABEL := "X-Label"
  const X_INDEX := "X-Index"
  const ANDROID_TOKEN := "AndroidToken"
  const THIRTY_DAYS := 3600 * 24 * 30

  function RegistrarUri(registrar: string): string {
    "sip:" + registrar + ";transport=tls"
  }

  function TokenParams(token: string): string {
    ";app_id=" + token + ";platform_type=GCM"
  }

  ghost function Apply(c: Config, e: Event): Config {
    match e
    case Pushed(l, x, r, verified, modified) =>
      if verified && modified
      then c.(regHdrs := OtherHeaders(c.regHdrs, X_LABEL, X_INDEX) + [Header(X_LABEL, l), Header(X_INDEX, x)],
              proxies := [RegistrarUri(r)])
      else c
    case TokenSent(token, modified) =>
      if modified
      then c.(regHdrs := c.regHdrs + [Header(ANDROID_TOKEN, token)],
              contactParams := TokenParams(token), regTimeout := THIRTY_DAYS, kaInterval := 0)
      else c
    case TimeoutSet(seconds, modified) =>
      if modified then c.(regTimeout := seconds) else c
  }

  /** A push text whose values are all set when they are used. */
  ghost predicate Complete(msg: string) {
    match Decoded(msg)
    case Some(Push(Some(_), Some(_), Some(_))) => true
    case _ => false
  }

  /** A push text is complete exactly when no item is empty and the three keys occur. */
  lemma CompleteExactly(msg: string)
    ensures var keys := FieldsOf(Items(msg, ',')).keys;
            Complete(msg) <==> CommasSeparate(msg) && "label" in keys && "index" in keys && "registrar" in keys
  {
    SetExactly(FieldsOf(Items(msg, ',')));
  }

  ghost function PushEvent(msg: string, verify: string -> bool, modified: bool): Event
    requires Complete(msg)
  {
    var p := Decoded(msg).value;
    Pushed(p.xLabel.value, p.xIndex.value, p.registrar.value, verify(RegistrarUri(p.registrar.value)), modified)
  }

  /**
   What a push stores, by the names and texts on the wire, when its URI is verified and the library
   agrees; else nothing.
   */
  lemma PushStores(c: Config, msg: string, verify: string -> bool, modified: bool)
    requires Complete(msg)
    ensures var p, c' := Decoded(msg).value, Apply(c, PushEvent(msg, verify, modified));
            var uri := "sip:" + p.registrar.value + ";transport=tls";
            if verify(uri) && modified
            then c' == c.(regHdrs := c'.regHdrs, proxies := [uri]) &&
                 c'.regHdrs == OtherHeaders(c.regHdrs, "X-Label", "X-Index") +
                               [Header("X-Label", p.xLabel.value), Header("X-Index", p.xIndex.value)]
            else c' == c
  {
  }

  class Account {
    var cfg: Config

    constructor (c: Config)
      ensures cfg == c
    {
      cfg := c;
    }

    method RegisterToken(token: string, modified: bool)
      modifies this
      ensures cfg == Apply(old(cfg), TokenSent(token, modified))
      ensures if modified
              then cfg.regHdrs == old(cfg).regHdrs + [Header("AndroidToken", token)] &&
                   cfg == Config(cfg.regHdrs, old(cfg).proxies, ";app_id=" + token + ";platform_type=GCM", 2592000, 0)
              else cfg == old(cfg)
    {
      var hdrs := Clone(cfg.regHdrs);
      hdrs.Append(Header(ANDROID_TOKEN, token));
      if modified {
        var stored := ReadOut(hdrs);
        cfg := Config(stored, cfg.proxies, TokenParams(token), THIRTY_DAYS, 0);
      }
    }

    method RelayVoipPushNotification(msg: string, verify: string -> bool, modified: bool)
      requires Complete(msg)
      modifies this
      ensures cfg == Apply(old(cfg), PushEvent(msg, verify, modified))
    {
      var push := DecodePush(msg);
      var hdrs := Clone(cfg.regHdrs);
      HeadersOfOthers(hdrs.nodes, X_LABEL, X_INDEX);
      hdrs.EraseNamed(X_LABEL, X_INDEX);
      hdrs.Append(Header(X_LABEL, push.value.xLabel.value));
      hdrs.Append(Header(X_INDEX, push.value.xIndex.value));
      var uri := RegistrarUri(push.value.registrar.value);
      if !verify(uri) {
        return;
      }
      if modified {
        var stored := ReadOut(hdrs);
        cfg := cfg.(regHdrs := stored, proxies := [uri]);
      }
    }

    method SetRegTimeout(seconds: int, modified: bool)
      modifies this
      ensures cfg == Apply(old(cfg), TimeoutSet(seconds, modified))
      ensures cfg == if modified then old(cfg).(regTimeout := seconds) else old(cfg)
    {
      if modified {
        cfg := cfg.(regTimeout := seconds);
      }
    }
  }

  // ----- whole runs

  ghost function Run(c: Config, es: seq<Event>): Config {
    if es == [] then c else Apply(Run(c, es[..|es| - 1]), es[|es| - 1])
  }

  ghost predicate PushStored(e: Event) {
    e.Pushed? && e.verified && e.modified
  }

  /** Index of the last push the library stored, or -1. */
  ghost function LastPush(es: seq<Event>): (k: int)
    ensures -1 <= k < |es|
    ensures 0 <= k ==> PushStored(es[k])
    ensures forall i :: k < i < |es| ==> !PushStored(es[i])
  {
    if es == [] then -1
    else if PushStored(es[|es| - 1]) then |es| - 1
    else LastPush(es[..|es| - 1])
  }

  /** The tokens the library stored, in call order. */
  ghost function Tokens(es: seq<Event>): seq<string> {
    if es == [] then []
    else
      var last := es[|es| - 1];
      Tokens(es[..|es| - 1]) + if last.TokenSent? && last.modified then [last.token] else []
  }

  ghost function TokenHeaders(es: seq<Event>): (r: seq<Header>)
    ensures |r| == |Tokens(es)|
    ensures forall i :: 0 <= i < |r| ==> r[i] == Header(ANDROID_TOKEN, Tokens(es)[i])
  {
    seq(|Tokens(es)|, i requires 0 <= i < |Tokens(es)| => Header(ANDROID_TOKEN, Tokens(es)[i]))
  }

  /** The header list after a run, from the list before it. */
  ghost function Shape(hs: seq<Header>, es: seq<Event>): seq<Header> {
    var k := LastPush(es);
    if k < 0 then hs + TokenHeaders(es)
    else
      OtherHeaders(hs, X_LABEL, X_INDEX) + TokenHeaders(es[..k]) + PairOf(es[k]) + TokenHeaders(es[k + 1..])
  }

  ghost function PairOf(e: Event): seq<Header>
    requires e.Pushed?
  {
    [Header(X_LABEL, e.xLabel), Header(X_INDEX, e.xIndex)]
  }

  /** A push that comes after a run wipes the previous pair and nothing else. */
  lemma OthersOfShape(hs: seq<Header>, es: seq<Event>)
    ensures OtherHeaders(Shape(hs, es), X_LABEL, X_INDEX)
         == OtherHeaders(hs, X_LABEL, X_INDEX) + TokenHeaders(es)
  {
    var k := LastPush(es);
    if k < 0 {
      NoPairIn(hs, es);
      OtherHeadersAll(TokenHeaders(es), X_LABEL, X_INDEX);
      OtherHeadersConcat(hs, TokenHeaders(es), X_LABEL, X_INDEX);
    } else {
      var clean, before, after := OtherHeaders(hs, X_LABEL, X_INDEX), TokenHeaders(es[..k]), TokenHeaders(es[k + 1..]);
      assert OtherHeaders(Shape(hs, es), X_LABEL, X_INDEX) == clean + before + after by {
        NoPairIn(hs, es[..k]);
        NoPairIn(hs, es[k + 1..]);
        OtherHeadersMiddle(clean + before, PairOf(es[k]), after, X_LABEL, X_INDEX);
      }
      assert clean + before + after == clean + (before + after);
      TokenHeadersAround(es, k);
    }
  }

  lemma NoPairIn(hs: seq<Header>, es: seq<Event>)
    ensures NoneNamed(TokenHeaders(es), X_LABEL, X_INDEX)
    ensures NoneNamed(OtherHeaders(hs, X_LABEL, X_INDEX) + TokenHeaders(es), X_LABEL, X_INDEX)
  {
    OtherHeadersClean(hs, X_LABEL, X_INDEX);
  }

  lemma {:induction false} TokensAround(es: seq<Event>, k: nat)
    requires k < |es| && PushStored(es[k])
    ensures Tokens(es) == Tokens(es[..k]) + Tokens(es[k + 1..])
  {
    if k < |es| - 1 {
      var init := es[..|es| - 1];
      TokensAround(init, k);
      assert init[..k] == es[..k];
      assert es[k + 1..][..|es| - k - 2] == init[k + 1..];
    }
  }

  lemma TokenHeadersAround(es: seq<Event>, k: nat)
    requires k < |es| && PushStored(es[k])
    ensures TokenHeaders(es) == TokenHeaders(es[..k]) + TokenHeaders(es[k + 1..])
  {
    TokensAround(es, k);
  }

  ghost function Added(e: Event): seq<Header> {
    if e.TokenSent? && e.modified then [Header(ANDROID_TOKEN, e.token)] else []
  }

  lemma TokenHeadersStep(es: seq<Event>)
    requires es != []
    ensures TokenHeaders(es) == TokenHeaders(es[..|es| - 1]) + Added(es[|es| - 1])
  {
  }

  lemma ShapeStep(hs: seq<Header>, es: seq<Event>)
    requires es != [] && !PushStored(es[|es| - 1])
    ensures Shape(hs, es) == Shape(hs, es[..|es| - 1]) + Added(es[|es| - 1])
  {
    var init, k := es[..|es| - 1], LastPush(es);
    assert LastPush(init) == k;
    if k < 0 {
      TokenHeadersStep(es);
      Regroup(hs, TokenHeaders(init), Added(es[|es| - 1]));
    } else {
      var tail := es[k + 1..];
      assert init[..k] == es[..k] && tail[..|tail| - 1] == init[k + 1..] && tail[|tail| - 1] == es[|es| - 1];
      assert TokenHeaders(tail) == TokenHeaders(init[k + 1..]) + Added(es[|es| - 1]) by {
        TokenHeadersStep(tail);
      }
      var front := OtherHeaders(hs, X_LABEL, X_INDEX) + TokenHeaders(es[..k]) + PairOf(es[k]);
      Regroup(front, TokenHeaders(init[k + 1..]), Added(es[|es| - 1]));
    }
  }

  lemma Regroup(a: seq<Header>, b: seq<Header>, c: seq<Header>)
    ensures a + (b + c) == a + b + c
  {
  }

  /** The header list after any run: foreign headers, tokens before and after the last stored push, and its one pair. */
  lemma {:induction false} RunShape(c: Config, es: seq<Event>)
    ensures Run(c, es).regHdrs == Shape(c.regHdrs, es)
  {
    if es != [] {
      var init, last := es[..|es| - 1], es[|es| - 1];
      RunShape(c, init);
      if PushStored(last) {
        OthersOfShape(c.regHdrs, init);
        assert TokenHeaders(es[|es|..]) == [];
      } else {
        ShapeStep(c.regHdrs, es);
      }
    }
  }

  // ----- what the registrar reads

  lemma {:induction false} ValuesOfTokens(es: seq<Event>, name: string)
    ensures Values(TokenHeaders(es), name) == if name == ANDROID_TOKEN then Tokens(es) else []
  {
    if es != [] {
      TokenHeadersStep(es);
      ValuesOfTokens(es[..|es| - 1], name);
      ValuesConcat(TokenHeaders(es[..|es| - 1]), Added(es[|es| - 1]), name);
    }
  }

  lemma ValuesOfPair(e: Event, name: string)
    requires e.Pushed?
    ensures Values(PairOf(e), name)
         == if name == X_LABEL then [e.xLabel] else if name == X_INDEX then [e.xIndex] else []
  {
    var l, x := Header(X_LABEL, e.xLabel), Header(X_INDEX, e.xIndex);
    assert PairOf(e) == [l] + [x];
    ValuesConcat([l], [x], name);
    assert [l][..0] == [] && [x][..0] == [];
  }

  predicate IsPairName(name: string) {
    name == X_LABEL || name == X_INDEX
  }

  /** Over every run: the tokens stored are read in call order, after those that were there before. */
  lemma RunTokens(c: Config, es: seq<Event>)
    ensures Values(Run(c, es).regHdrs, ANDROID_TOKEN) == Values(c.regHdrs, ANDROID_TOKEN) + Tokens(es)
  {
    RunShape(c, es);
    var k, v := LastPush(es), Values(c.regHdrs, ANDROID_TOKEN);
    if k < 0 {
      ValuesConcat(c.regHdrs, TokenHeaders(es), ANDROID_TOKEN);
      ValuesOfTokens(es, ANDROID_TOKEN);
    } else {
      var before, after := Tokens(es[..k]), Tokens(es[k + 1..]);
      var p := Values(PairOf(es[k]), ANDROID_TOKEN);
      assert Values(Shape(c.regHdrs, es), ANDROID_TOKEN) == v + before + p + after by {
        ShapeValues(c.regHdrs, es, ANDROID_TOKEN);
      }
      assert p == [] by { ValuesOfPair(es[k], ANDROID_TOKEN); }
      assert Tokens(es) == before + after by { TokensAround(es, k); }
      Around(v, before, after);
    }
  }

  lemma Around(a: seq<string>, b: seq<string>, c: seq<string>)
    ensures a + b + [] + c == a + (b + c)
  {
  }

  lemma ShapeValues(hs: seq<Header>, es: seq<Event>, name: string)
    requires 0 <= LastPush(es)
    ensures var k := LastPush(es);
            Values(Shape(hs, es), name) ==
              Values(OtherHeaders(hs, X_LABEL, X_INDEX), name) + Values(TokenHeaders(es[..k]), name) +
              Values(PairOf(es[k]), name) + Values(TokenHeaders(es[k + 1..]), name)
    ensures Values(OtherHeaders(hs, X_LABEL, X_INDEX), name) == if IsPairName(name) then [] else Values(hs, name)
    ensures var k := LastPush(es);
            Values(TokenHeaders(es[..k]), name) == (if name == ANDROID_TOKEN then Tokens(es[..k]) else []) &&
            Values(TokenHeaders(es[k + 1..]), name) == (if name == ANDROID_TOKEN then Tokens(es[k + 1..]) else [])
  {
    var k := LastPush(es);
    var clean, before, after := OtherHeaders(hs, X_LABEL, X_INDEX), TokenHeaders(es[..k]), TokenHeaders(es[k + 1..]);
    ValuesOf4(clean, before, PairOf(es[k]), after, name);
    ValuesOfOthers(hs, X_LABEL, X_INDEX, name);
    ValuesOfTokens(es[..k], name);
    ValuesOfTokens(es[k + 1..], name);
  }

  /**
   Over every run: under any other name one reads what the last stored push put there - one label, one
   index, nothing under a foreign name - in place of the old pair, or what was there before the run.
   */
  lemma RunOthers(c: Config, es: seq<Event>, name: string)
    requires name != ANDROID_TOKEN
    ensures Values(Run(c, es).regHdrs, name) ==
            if IsPairName(name) && 0 <= LastPush(es) then Values(PairOf(es[LastPush(es)]), name)
            else Values(c.regHdrs, name)
  {
    RunShape(c, es);
    var k, v := LastPush(es), Values(c.regHdrs, name);
    if k < 0 {
      assert Values(TokenHeaders(es), name) == [] by { ValuesOfTokens(es, name); }
      ValuesConcat(c.regHdrs, TokenHeaders(es), name);
      assert v + [] == v;
    } else {
      var p := Values(PairOf(es[k]), name);
      assert Values(Shape(c.regHdrs, es), name) == (if IsPairName(name) then [] else v) + [] + p + [] by {
        ShapeValues(c.regHdrs, es, name);
      }
      assert !IsPairName(name) ==> p == [] by { ValuesOfPair(es[k], name); }
      assert [] + [] + p + [] == p && v + [] + [] + [] == v;
    }
  }

  /**
   From an empty header list: at most one label and one index, always both or neither, and one header
   a stored token.
   */
  lemma RunFromEmpty(c: Config, es: seq<Event>)
    requires c.regHdrs == []
    ensures var hs, k := Run(c, es).regHdrs, LastPush(es);
            Values(hs, X_LABEL) == (if k < 0 then [] else [es[k].xLabel]) &&
            Values(hs, X_INDEX) == (if k < 0 then [] else [es[k].xIndex]) &&
            Values(hs, ANDROID_TOKEN) == Tokens(es) &&
            |hs| == |Tokens(es)| + if k < 0 then 0 else 2
  {
    RunTokens(c, es);
    RunOthers(c, es, X_LABEL);
    RunOthers(c, es, X_INDEX);
    ShapeSize(c, es);
    if 0 <= LastPush(es) {
      ValuesOfPair(es[LastPush(es)], X_LABEL);
      ValuesOfPair(es[LastPush(es)], X_INDEX);
    }
  }

  lemma ShapeSize(c: Config, es: seq<Event>)
    requires c.regHdrs == []
    ensures |Run(c, es).regHdrs| == |Tokens(es)| + if LastPush(es) < 0 then 0 else 2
  {
    RunShape(c, es);
    if 0 <= LastPush(es) { TokensAround(es, LastPush(es)); }
  }

  /** The proxy is that of the last stored push. */
  lemma {:induction false} RunProxy(c: Config, es: seq<Event>)
    ensures var k := LastPush(es);
            Run(c, es).proxies == if k < 0 then c.proxies else [RegistrarUri(es[k].registrar)]
  {
    if es != [] { RunProxy(c, es[..|es| - 1]); }
  }

  /** The contact parameters are those of the last stored token. */
  lemma {:induction false} RunContact(c: Config, es: seq<Event>)
    ensures var ts := Tokens(es);
            Run(c, es).contactParams == if ts == [] then c.contactParams else TokenParams(ts[|ts| - 1])
  {
    if es != [] { RunContact(c, es[..|es| - 1]); }
  }

  /** The event stores a registration timeout. */
  ghost predicate TimeoutStored(e: Event) {
    (e.TokenSent? || e.TimeoutSet?) && e.modified
  }

  ghost function TimeoutOf(e: Event): int
    requires TimeoutStored(e)
  {
    if e.TokenSent? then THIRTY_DAYS else e.seconds
  }

  /** The timeout is that of the last token or timeout stored, whichever came later. */
  lemma {:induction false} RunTimeout(c: Config, es: seq<Event>, k: int)
    requires -1 <= k < |es| && (0 <= k ==> TimeoutStored(es[k]))
    requires forall i :: k < i < |es| ==> !TimeoutStored(es[i])
    ensures Run(c, es).regTimeout == if k < 0 then c.regTimeout else TimeoutOf(es[k])
  {
    if k < |es| - 1 { RunTimeout(c, es[..|es| - 1], k); }
  }

  /** Keep-alive is off once a token is stored, and never comes back on. */
  lemma {:induction false} RunKeepAlive(c: Config, es: seq<Event>)
    ensures Run(c, es).kaInterval == if Tokens(es) == [] then c.kaInterval else 0
  {
    if es != [] { RunKeepAlive(c, es[..|es| - 1]); }
  }

  // ----- the texts and numbers that are stored

  /** What a call that is refused, by the URI check or by the library, leaves: everything. */
  lemma RefusedChangesNothing(c: Config, e: Event)
    requires !e.modified || (e.Pushed? && !e.verified)
    ensures Apply(c, e) == c
  {
  }

  /** Over every run: the proxy is a TLS address of the last stored push's registrar, which can be read off it. */
  lemma ProxyNamesRegistrar(c: Config, es: seq<Event>, k: nat)
    requires k < |es| && es[k].Pushed? && es[k].verified && es[k].modified
    requires forall i :: k < i < |es| ==> !(es[i].Pushed? && es[i].verified && es[i].modified)
    ensures var ps := Run(c, es).proxies;
            |ps| == 1 && |ps[0]| == |es[k].registrar| + 18 && ps[0][..4] == "sip:" &&
            ps[0][4..|ps[0]| - 14] == es[k].registrar && ps[0][|ps[0]| - 14..] == ";transport=tls"
  {
    RunProxy(c, es);
    assert LastPush(es) == k;
  }

  /** Over every run: the contact parameters carry the last stored token, which can be read off them. */
  lemma ContactNamesToken(c: Config, es: seq<Event>, k: nat)
    requires k < |es| && es[k].TokenSent? && es[k].modified
    requires forall i :: k < i < |es| ==> !(es[i].TokenSent? && es[i].modified)
    ensures var p := Run(c, es).contactParams;
            |p| == |es[k].token| + 26 && p[..8] == ";app_id=" && p[8..|p| - 18] == es[k].token &&
            p[|p| - 18..] == ";platform_type=GCM"
  {
    RunContact(c, es);
    LastToken(es, k);
  }

  lemma {:induction false} LastToken(es: seq<Event>, k: nat)
    requires k < |es| && es[k].TokenSent? && es[k].modified
    requires forall i :: k < i < |es| ==> !(es[i].TokenSent? && es[i].modified)
    ensures Tokens(es) != [] && Tokens(es)[|Tokens(es)| - 1] == es[k].token
  {
    if k < |es| - 1 { LastToken(es[..|es| - 1], k); }
  }

  /** Over every run from an empty list, by the names on the wire. */
  lemma WireHeaders(c: Config, es: seq<Event>, k: nat)
    requires c.regHdrs == []
    requires k < |es| && es[k].Pushed? && es[k].verified && es[k].modified
    requires forall i :: k < i < |es| ==> !(es[i].Pushed? && es[i].verified && es[i].modified)
    ensures Values(Run(c, es).regHdrs, "X-Label") == [es[k].xLabel]
    ensures Values(Run(c, es).regHdrs, "X-Index") == [es[k].xIndex]
    ensures Values(Run(c, es).regHdrs, "AndroidToken") == Tokens(es)
    ensures |Run(c, es).regHdrs| == |Tokens(es)| + 2
  {
    RunFromEmpty(c, es);
    assert LastPush(es) == k;
  }

  /** Over every run: after the last stored token, and unless a timeout is stored later, 30 days in seconds. */
  lemma ThirtyDays(c: Config, es: seq<Event>, k: nat)
    requires k < |es| && es[k].TokenSent? && es[k].modified
    requires forall i :: k < i < |es| && !es[i].Pushed? ==> !es[i].modified
    ensures Run(c, es).regTimeout == 2592000 && Run(c, es).kaInterval == 0
  {
    RunTimeout(c, es, k);
    RunKeepAlive(c, es);
    LastToken(es, k);
  }
}
