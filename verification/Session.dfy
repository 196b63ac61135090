/**
 The login state: `is_logged_in`, `logout_requested` and `acc_id`, changed by `LoginSip` and `Logout`
 and by the registration callback (plivo_app_callback.cpp:62-75, 108-135, 222-277, 401-491, 503-531).
 `Logout` is cut in two at its library call, because callbacks run on another thread meanwhile.
 */
module Session {
  import opened Options

  /** One entry of the library's account table; user data holds an account id. */
  datatype Slot = Slot(valid: bool, regc: bool, userData: Option<int>)

  const FREE := Slot(false, false, None)

  datatype RegEvent = OnLogin | OnLogout | OnLoginFailed

  datatype Flags = Flags(loggedIn: int, requested: bool, accId: int, slots: seq<Slot>, events: seq<RegEvent>)

  /** What can happen next; `added` and `ok` are the library's answers. */
  datatype Action =
    | Login(nameLength: nat, added: Option<(nat, bool)>)
    | LogoutStart
    | LogoutEnd(ok: bool)
    | Callback(acc: int, status: int)
    | Library(acc: int, regc: bool)

  const MAX_ENDPOINT_LENGTH := 212
  const ACC_ADD_FAILED := 4
  const LOGOUT_FAILED := 5

  predicate IsValid(slots: seq<Slot>, acc: int) {
    0 <= acc < |slots| && slots[acc].valid
  }

  /** `pjsua_acc_get_user_data` */
  function UserData(slots: seq<Slot>, acc: int): Option<int> {
    if IsValid(slots, acc) then slots[acc].userData else None
  }

  /** `acc_cnt` */
  function Count(slots: seq<Slot>): (n: nat)
    ensures n <= |slots|
    ensures n == 0 <==> forall i :: 0 <= i < |slots| ==> !slots[i].valid
  {
    if slots == [] then 0 else Count(slots[..|slots| - 1]) + if slots[|slots| - 1].valid then 1 else 0
  }

  /** Every account's user data names the account itself. */
  ghost predicate OwnData(slots: seq<Slot>) {
    forall i :: 0 <= i < |slots| && slots[i].valid ==> slots[i].userData == Some(i)
  }

  /** What a registration callback tells the application: any status but 200 is a failed login. */
  function Reported(s: Flags, status: int): seq<RegEvent> {
    if status != 200 then [OnLoginFailed]
    else if s.loggedIn == 0 then [OnLogin]
    else if s.requested then [OnLogout]
    else []
  }

  /** What a registration callback changes: only a login or a logout touches the flags. */
  function AfterCallback(s: Flags, acc: int, status: int): Flags {
    var told := Reported(s, status);
    var s' := s.(events := s.events + told);
    if told == [OnLogin] then s'.(loggedIn := 1)
    else if told == [OnLogout] then
      s'.(loggedIn := 0, requested := false, slots := if IsValid(s.slots, acc) then s.slots[acc := FREE] else s.slots)
    else s'
  }

  function Next(s: Flags, a: Action): Flags {
    match a
    case Login(nameLength, added) =>
      if s.loggedIn == 0 && nameLength <= MAX_ENDPOINT_LENGTH && added.Some? && added.value.0 < |s.slots|
      then s.(accId := added.value.0,
              slots := s.slots[added.value.0 := Slot(true, added.value.1, Some(added.value.0))])
      else s
    case LogoutStart =>
      if IsValid(s.slots, s.accId)
      then s.(requested := true, slots := s.slots[s.accId := s.slots[s.accId].(userData := Some(s.accId))])
      else s
    case LogoutEnd(ok) => if ok then s else s.(requested := false)
    case Callback(acc, status) => AfterCallback(s, acc, status)
    case Library(acc, regc) =>
      if IsValid(s.slots, acc) then s.(slots := s.slots[acc := s.slots[acc].(regc := regc)]) else s
  }

  class Session {
    var isLoggedIn: int
    var logoutRequested: bool
    var accId: int
    var slots: seq<Slot>
    ghost var events: seq<RegEvent>

    ghost function State(): Flags
      reads this
    {
      Flags(isLoggedIn, logoutRequested, accId, slots, events)
    }

    ghost predicate Valid()
      reads this
    {
      (isLoggedIn == 0 || isLoggedIn == 1) && OwnData(slots)
    }

    constructor (capacity: nat)
      ensures Valid() && State() == Start(capacity)
    {
      isLoggedIn, logoutRequested, accId, events := 0, false, 0, [];
      slots := seq(capacity, i => FREE);
    }

    /** `added` is the free slot the library picks and whether it made a registration client, or None when it fails. */
    method LoginSip(nameLength: nat, added: Option<(nat, bool)>) returns (code: int)
      requires Valid()
      requires added.Some? ==> added.value.0 < |slots| && !slots[added.value.0].valid
      modifies this
      ensures Valid() && State() == Next(old(State()), Login(nameLength, added))
      ensures old(isLoggedIn) != 0 ==> code == 0 && State() == old(State())
      ensures old(isLoggedIn) == 0 && (nameLength > 212 || added.None?) ==> code == 4 && State() == old(State())
      ensures old(isLoggedIn) == 0 && nameLength <= 212 && added.Some? ==>
                code == 0 && accId == added.value.0 && IsValid(slots, accId)
    {
      if isLoggedIn == 0 {
        if nameLength <= MAX_ENDPOINT_LENGTH {
          if added.None? {
            return ACC_ADD_FAILED;
          }
          accId := added.value.0;
          slots := slots[accId := Slot(true, added.value.1, Some(accId))];
          return 0;
        } else {
          return ACC_ADD_FAILED;
        }
      } else {
        return 0;
      }
    }

    /** `Logout` up to its library call; false when it returns before that. */
    method StartLogout() returns (calls: bool)
      requires Valid()
      modifies this
      ensures Valid() && State() == Next(old(State()), LogoutStart)
      ensures calls <==> IsValid(old(slots), accId)
    {
      if Count(slots) == 0 {
        return false;
      }
      if !IsValid(slots, accId) {
        return false;
      }
      assert UserData(slots, accId).Some?;
      slots := slots[accId := slots[accId].(userData := Some(accId))];
      logoutRequested := true;
      return true;
    }

    /** `Logout` once its library call has answered. */
    method EndLogout(ok: bool) returns (code: int)
      requires Valid()
      modifies this
      ensures Valid() && State() == Next(old(State()), LogoutEnd(ok))
      ensures code == if ok then 0 else 5
    {
      if !ok {
        logoutRequested := false;
        return LOGOUT_FAILED;
      }
      return 0;
    }

    method OnRegState(acc: int, status: int)
      requires Valid()
      modifies this
      ensures Valid() && State() == Next(old(State()), Callback(acc, status))
    {
      if status == 200 && isLoggedIn == 0 {
        isLoggedIn := 1;
        events := events + [OnLogin];
      } else if status == 200 && isLoggedIn == 1 && logoutRequested {
        isLoggedIn := 0;
        logoutRequested := false;
        if IsValid(slots, acc) {
          slots := slots[acc := FREE];
        }
        events := events + [OnLogout];
      } else if 400 <= status < 500 {
        events := events + [OnLoginFailed];
      } else if status == 502 {
        events := events + [OnLoginFailed];
      } else if status == 503 {
        events := events + [OnLoginFailed];
      } else if status == 200 && isLoggedIn == 1 {
      } else {
        events := events + [OnLoginFailed];
      }
    }

    /** `is_registered`: the slot looked at is the loop's, the user data is the argument's. */
    method IsRegistered(acc: int) returns (r: int)
      ensures r == Registered(slots, acc)
    {
      var cnt := Count(slots);
      for i := 0 to cnt
        invariant i > 0 ==> UserData(slots, acc).Some? && UserData(slots, acc) != Some(acc)
      {
        var slot := slots[i];
        var userData := UserData(slots, acc);
        if userData.None? {
          return -1;
        }
        if acc == userData.value {
          if !slot.regc {
            return 0;
          } else {
            return 1;
          }
        }
      }
      return -1;
    }
  }

  /** What the loop of `is_registered` comes to: it only ever answers from slot 0. */
  function Registered(slots: seq<Slot>, acc: int): int {
    if Count(slots) == 0 || UserData(slots, acc) != Some(acc) then -1
    else if slots[0].regc then 1 else 0
  }

  // ----- whole runs

  function Start(capacity: nat): Flags {
    Flags(0, false, 0, seq(capacity, i => FREE), [])
  }

  function Run(s: Flags, acts: seq<Action>): Flags {
    if acts == [] then s else Next(Run(s, acts[..|acts| - 1]), acts[|acts| - 1])
  }

  function Tally(e: RegEvent, events: seq<RegEvent>): nat {
    if events == [] then 0
    else Tally(e, events[..|events| - 1]) + if events[|events| - 1] == e then 1 else 0
  }

  /** The logins and logouts among the events. */
  function Turns(events: seq<RegEvent>): seq<RegEvent> {
    if events == [] then []
    else
      var last := events[|events| - 1];
      Turns(events[..|events| - 1]) + if last == OnLoginFailed then [] else [last]
  }

  ghost predicate Alternates(turns: seq<RegEvent>) {
    forall i :: 0 <= i < |turns| ==> turns[i] == if i % 2 == 0 then OnLogin else OnLogout
  }

  /** The event an action emits, if any. */
  function Emitted(s: Flags, a: Action): seq<RegEvent> {
    if a.Callback? then Reported(s, a.status) else []
  }

  lemma EventsNext(s: Flags, a: Action)
    ensures Next(s, a).events == s.events + Emitted(s, a)
  {
    assert s.events + [] == s.events;
  }

  lemma {:induction false} TallyMore(e: RegEvent, events: seq<RegEvent>, more: seq<RegEvent>)
    requires |more| <= 1
    ensures Tally(e, events + more) == Tally(e, events) + if more == [e] then 1 else 0
  {
    if more == [] { assert events + more == events; } else { assert (events + more)[..|events|] == events; }
  }

  lemma {:induction false} TurnsMore(events: seq<RegEvent>, more: seq<RegEvent>)
    requires |more| <= 1
    ensures Turns(events + more) == Turns(events) + if more == [OnLoginFailed] then [] else more
  {
    if more == [] { assert events + more == events; } else { assert (events + more)[..|events|] == events; }
  }

  ghost predicate InTurn(s: Flags) {
    Alternates(Turns(s.events)) && s.loggedIn == |Turns(s.events)| % 2
  }

  lemma {:induction false} InTurnNext(s: Flags, a: Action)
    requires InTurn(s)
    ensures InTurn(Next(s, a))
  {
    var turns := Turns(s.events);
    EventsNext(s, a);
    TurnsMore(s.events, Emitted(s, a));
    if Emitted(s, a) == [OnLogin] || Emitted(s, a) == [OnLogout] {
      assert Turns(Next(s, a).events) == turns + [Emitted(s, a)[0]];
    } else {
      assert Turns(Next(s, a).events) == turns;
    }
  }

  /** Over every interleaving: logins and logouts strictly alternate, login first, and the flag says which was last. */
  lemma {:induction false} LoginsAlternate(capacity: nat, acts: seq<Action>)
    ensures InTurn(Run(Start(capacity), acts))
  {
    if acts != [] {
      LoginsAlternate(capacity, acts[..|acts| - 1]);
      InTurnNext(Run(Start(capacity), acts[..|acts| - 1]), acts[|acts| - 1]);
    }
  }

  /** The flag is the number of logins less the number of logouts. */
  predicate FlagIsBalance(s: Flags) {
    s.loggedIn == Tally(OnLogin, s.events) - Tally(OnLogout, s.events) && 0 <= s.loggedIn <= 1
  }

  lemma LoggedInNext(s: Flags, a: Action)
    ensures Next(s, a).loggedIn
         == if Emitted(s, a) == [OnLogin] then 1 else if Emitted(s, a) == [OnLogout] then 0 else s.loggedIn
    ensures Emitted(s, a) == [OnLogin] ==> s.loggedIn == 0
    ensures Emitted(s, a) == [OnLogout] ==> s.loggedIn != 0
    ensures |Emitted(s, a)| <= 1
  {
  }

  lemma TallyNext(s: Flags, a: Action, e: RegEvent)
    ensures Tally(e, Next(s, a).events) == Tally(e, s.events) + if Emitted(s, a) == [e] then 1 else 0
  {
    EventsNext(s, a);
    TallyMore(e, s.events, Emitted(s, a));
  }

  lemma {:induction false} BalanceNext(s: Flags, a: Action)
    requires FlagIsBalance(s)
    ensures FlagIsBalance(Next(s, a))
  {
    LoggedInNext(s, a);
    TallyNext(s, a, OnLogin);
    TallyNext(s, a, OnLogout);
  }

  /** Over every interleaving: is_logged_in counts the logins not yet undone, and is 0 or 1. */
  lemma {:induction false} FlagCounts(capacity: nat, acts: seq<Action>)
    ensures FlagIsBalance(Run(Start(capacity), acts))
  {
    if acts != [] {
      FlagCounts(capacity, acts[..|acts| - 1]);
      BalanceNext(Run(Start(capacity), acts[..|acts| - 1]), acts[|acts| - 1]);
    }
  }

  // ----- logout accounting

  /** How many `Logout` calls of a run set the request flag. */
  function Requests(s: Flags, acts: seq<Action>): nat {
    if acts == [] then 0
    else
      Requests(s, acts[..|acts| - 1]) + if SetsRequest(Run(s, acts[..|acts| - 1]), acts[|acts| - 1]) then 1 else 0
  }

  /** The action is a `Logout` that sets the request flag. */
  predicate SetsRequest(s: Flags, a: Action) {
    a.LogoutStart? && IsValid(s.slots, s.accId)
  }

  /** Logout events so far, and one more for a request that is still open. */
  function Owed(s: Flags): nat {
    Tally(OnLogout, s.events) + if s.requested then 1 else 0
  }

  lemma {:induction false} OwedNext(s: Flags, a: Action)
    ensures Owed(Next(s, a)) <= Owed(s) + if SetsRequest(s, a) then 1 else 0
  {
    TallyNext(s, a, OnLogout);
  }

  /** Over any stretch of any run: each logout event, and a request still open, is paid for by a request of its own. */
  lemma {:induction false} LogoutsArePaidFor(s: Flags, acts: seq<Action>)
    ensures Owed(Run(s, acts)) <= Owed(s) + Requests(s, acts)
  {
    if acts != [] {
      LogoutsArePaidFor(s, acts[..|acts| - 1]);
      OwedNext(Run(s, acts[..|acts| - 1]), acts[|acts| - 1]);
    }
  }

  /** Between two logout events some `Logout` set the flag. */
  lemma RequestBetweenLogouts(s: Flags, acc: int, acts: seq<Action>)
    requires s.loggedIn != 0 && s.requested
    requires var s1 := Next(s, Callback(acc, 200));
             Tally(OnLogout, Run(s1, acts).events) > Tally(OnLogout, s1.events)
    ensures Requests(Next(s, Callback(acc, 200)), acts) >= 1
  {
    LogoutsArePaidFor(Next(s, Callback(acc, 200)), acts);
  }

  /** Some `Logout` failed, and none set the flag after that. */
  ghost predicate FailedLast(s: Flags, acts: seq<Action>) {
    exists k :: 0 <= k < |acts| && FailedAt(s, acts, k)
  }

  ghost predicate FailedAt(s: Flags, acts: seq<Action>, k: nat)
    requires k < |acts|
  {
    acts[k] == LogoutEnd(false) &&
    forall j :: k < j < |acts| ==> !SetsAt(s, acts, j)
  }

  /** The action at `k` is a `Logout` that sets the flag. */
  predicate SetsAt(s: Flags, acts: seq<Action>, k: nat)
    requires k < |acts|
  {
    SetsRequest(Run(s, acts[..k]), acts[k])
  }

  lemma FailedAtMore(s: Flags, acts: seq<Action>, k: nat)
    requires k < |acts| - 1
    ensures FailedAt(s, acts, k) <==> FailedAt(s, acts[..|acts| - 1], k) && !SetsAt(s, acts, |acts| - 1)
  {
    var init := acts[..|acts| - 1];
    forall j | 0 <= j < |init| ensures SetsAt(s, init, j) == SetsAt(s, acts, j) {
      assert init[..j] == acts[..j];
    }
    assert init[k] == acts[k];
  }

  ghost predicate No200(acts: seq<Action>) {
    forall k :: 0 <= k < |acts| ==> !(acts[k].Callback? && acts[k].status == 200)
  }

  lemma FailedLastMore(s: Flags, acts: seq<Action>)
    requires acts != []
    ensures var init, a := acts[..|acts| - 1], acts[|acts| - 1];
            FailedLast(s, acts) <==> a == LogoutEnd(false) || (FailedLast(s, init) && !SetsRequest(Run(s, init), a))
  {
    var n := |acts| - 1;
    forall k | 0 <= k < n ensures FailedAt(s, acts, k) <==> FailedAt(s, acts[..n], k) && !SetsAt(s, acts, n) {
      FailedAtMore(s, acts, k);
    }
    assert FailedAt(s, acts, n) <==> acts[n] == LogoutEnd(false);
  }

  /** No 200 callback comes while logged in. */
  ghost predicate NoneTaken(s: Flags, acts: seq<Action>) {
    forall k :: 0 <= k < |acts| ==> Untaken(acts[k], Run(s, acts[..k]))
  }

  predicate Untaken(a: Action, before: Flags) {
    a.Callback? && a.status == 200 ==> before.loggedIn == 0
  }

  lemma NoneTakenLess(s: Flags, acts: seq<Action>)
    requires acts != [] && NoneTaken(s, acts)
    ensures var n := |acts| - 1;
            NoneTaken(s, acts[..n]) && Untaken(acts[n], Run(s, acts[..n]))
  {
    var init := acts[..|acts| - 1];
    forall k | 0 <= k < |init| ensures Untaken(init[k], Run(s, init[..k])) {
      assert init[..k] == acts[..k];
    }
  }

  lemma {:induction false} RequestStands(s: Flags, acts: seq<Action>)
    requires s.requested && NoneTaken(s, acts)
    ensures Run(s, acts).requested <==> !FailedLast(s, acts)
  {
    if acts != [] {
      NoneTakenLess(s, acts);
      RequestStands(s, acts[..|acts| - 1]);
      FailedLastMore(s, acts);
    }
  }

  /** A 200 while logged in: the logout and the end of the account when one is requested, else nothing. */
  lemma TakenExactly(s: Flags, acc: int)
    requires s.loggedIn != 0
    ensures !s.requested ==> Next(s, Callback(acc, 200)) == s
    ensures s.requested ==> LoggedOut(s, Next(s, Callback(acc, 200)), acc)
  {
  }

  ghost predicate LoggedOut(s: Flags, s': Flags, acc: int) {
    s'.events == s.events + [OnLogout] && s'.loggedIn == 0 && !s'.requested &&
    !IsValid(s'.slots, acc) && |s'.slots| == |s.slots| &&
    forall i :: 0 <= i < |s.slots| && i != acc ==> s'.slots[i] == s.slots[i]
  }

  /**
   Once a logout is requested, logged in or not, the first later 200 taken while logged in emits the
   logout, clears both flags and deletes the account it names exactly when no `Logout` has failed
   without a later one setting the flag anew; otherwise it changes nothing.
   */
  lemma First200LogsOut(s: Flags, acts: seq<Action>, acc: int)
    requires s.requested && NoneTaken(s, acts) && Run(s, acts).loggedIn != 0
    ensures var s1 := Run(s, acts);
            var s2 := Next(s1, Callback(acc, 200));
            if FailedLast(s, acts) then s2 == s1 else LoggedOut(s1, s2, acc)
  {
    RequestStands(s, acts);
    TakenExactly(Run(s, acts), acc);
  }

  /** A logout asked for before the login is through: the first 200 still logs in, and the next one logs out. */
  lemma EarlyLogoutComesLate(s: Flags, acc: int)
    requires s.loggedIn == 0 && IsValid(s.slots, s.accId)
    ensures var asked := Next(Next(s, LogoutStart), LogoutEnd(true));
            var first := Next(asked, Callback(acc, 200));
            var second := Next(first, Callback(acc, 200));
            first.events == s.events + [OnLogin] && first.loggedIn == 1 && first.requested &&
            second.events == s.events + [OnLogin] + [OnLogout] && second.loggedIn == 0 && !second.requested
  {
  }

  /** So a second `Logout` that fails undoes the first, which the server is still going to answer. */
  lemma FailedRetryLosesLogout(s: Flags, acc: int)
    requires s.loggedIn == 1 && IsValid(s.slots, s.accId)
    ensures var s1 := Next(Next(s, LogoutStart), LogoutEnd(true));
            var s2 := Next(Next(s1, LogoutStart), LogoutEnd(false));
            Next(s1, Callback(acc, 200)).events == s.events + [OnLogout] &&
            Next(s2, Callback(acc, 200)).events == s.events && Next(s2, Callback(acc, 200)).loggedIn == 1
  {
  }

  /** Failing callbacks, however many, leave both flags alone. */
  lemma {:induction false} FailuresKeepFlags(s: Flags, acts: seq<Action>)
    requires No200(acts) && forall k :: 0 <= k < |acts| ==> acts[k].Callback?
    ensures var s' := Run(s, acts);
            s' == s.(events := s'.events) && Tally(OnLoginFailed, s'.events) == Tally(OnLoginFailed, s.events) + |acts|
  {
    if acts != [] {
      var before, a := Run(s, acts[..|acts| - 1]), acts[|acts| - 1];
      FailuresKeepFlags(s, acts[..|acts| - 1]);
      TallyNext(before, a, OnLoginFailed);
    }
  }

  // ----- the account table

  /** A login adds the account the library picks, and only while logged out, with a name of at most 212 characters. */
  lemma LoginExactly(s: Flags, nameLength: nat, id: nat, regc: bool)
    requires id < |s.slots|
    ensures Next(s, Login(nameLength, None)) == s
    ensures var s' := Next(s, Login(nameLength, Some((id, regc))));
            if s.loggedIn == 0 && nameLength < 213 then
              s'.slots[id] == Slot(true, regc, Some(id)) && s' == s.(accId := id, slots := s'.slots) &&
              |s'.slots| == |s.slots| && forall i :: 0 <= i < |s.slots| && i != id ==> s'.slots[i] == s.slots[i]
            else s' == s
  {
  }

  /** An account leaves the table exactly at a callback that names it and emits the logout. */
  lemma LeavesExactly(s: Flags, a: Action, acc: int)
    requires IsValid(s.slots, acc)
    ensures !IsValid(Next(s, a).slots, acc)
       <==> a.Callback? && a.acc == acc && Next(s, a).events == s.events + [OnLogout]
  {
    if Next(s, a).events == s.events + [OnLogout] {
      EventsNext(s, a);
      assert Next(s, a).events[|s.events|] == OnLogout;
    }
  }

  /** Gone after its logout: unknown to `is_registered`, and a `Logout` sets no request. */
  lemma GoneAfterLogout(s: Flags, acc: int)
    requires s.loggedIn != 0 && s.requested
    ensures var s' := Next(s, Callback(acc, 200));
            Registered(s'.slots, acc) == -1 && (s'.accId == acc ==> Next(s', LogoutStart) == s')
  {
  }

  /** The action is a login that adds the account. */
  predicate Adds(s: Flags, a: Action, acc: int) {
    a.Login? && s.loggedIn == 0 && a.nameLength < 213 && a.added.Some? && a.added.value.0 == acc && acc < |s.slots|
  }

  /** The action is a 200 that logs the account out. */
  predicate Removes(s: Flags, a: Action, acc: int) {
    a == Callback(acc, 200) && s.loggedIn != 0 && s.requested
  }

  predicate AddsAt(s: Flags, acts: seq<Action>, acc: int, k: nat)
    requires k < |acts|
  {
    Adds(Run(s, acts[..k]), acts[k], acc)
  }

  predicate RemovesAt(s: Flags, acts: seq<Action>, acc: int, k: nat)
    requires k < |acts|
  {
    Removes(Run(s, acts[..k]), acts[k], acc)
  }

  /** Added at `k` and not removed since. */
  ghost predicate StaysFrom(s: Flags, acts: seq<Action>, acc: int, k: nat)
    requires k < |acts|
  {
    AddsAt(s, acts, acc, k) && forall j :: k < j < |acts| ==> !RemovesAt(s, acts, acc, j)
  }

  lemma StaysFromMore(s: Flags, acts: seq<Action>, acc: int, k: nat)
    requires k < |acts| - 1
    ensures StaysFrom(s, acts, acc, k)
       <==> StaysFrom(s, acts[..|acts| - 1], acc, k) && !RemovesAt(s, acts, acc, |acts| - 1)
  {
    var init := acts[..|acts| - 1];
    forall j | 0 <= j < |init|
      ensures AddsAt(s, init, acc, j) == AddsAt(s, acts, acc, j)
      ensures RemovesAt(s, init, acc, j) == RemovesAt(s, acts, acc, j)
    {
      assert init[..j] == acts[..j];
    }
  }

  lemma ValidNext(s: Flags, a: Action, acc: int)
    ensures IsValid(Next(s, a).slots, acc) <==> Adds(s, a, acc) || (IsValid(s.slots, acc) && !Removes(s, a, acc))
  {
  }

  /**
   Over every interleaving: the table holds an account exactly when a login added it and no logout of it
   came since.
   */
  lemma {:induction false} ValidExactly(capacity: nat, acts: seq<Action>, acc: int)
    ensures IsValid(Run(Start(capacity), acts).slots, acc)
       <==> exists k :: 0 <= k < |acts| && StaysFrom(Start(capacity), acts, acc, k)
  {
    if acts != [] {
      var s, n := Start(capacity), |acts| - 1;
      ValidExactly(capacity, acts[..n], acc);
      ValidNext(Run(s, acts[..n]), acts[n], acc);
      forall k | 0 <= k < n
        ensures StaysFrom(s, acts, acc, k) <==> StaysFrom(s, acts[..n], acc, k) && !RemovesAt(s, acts, acc, n)
      {
        StaysFromMore(s, acts, acc, k);
      }
      assert StaysFrom(s, acts, acc, n) <==> AddsAt(s, acts, acc, n);
    }
  }

  // ----- is_registered

  lemma {:induction false} DataStaysOwn(capacity: nat, acts: seq<Action>)
    ensures OwnData(Run(Start(capacity), acts).slots)
  {
    if acts != [] { DataStaysOwn(capacity, acts[..|acts| - 1]); }
  }

  function Answer(registered: bool): int {
    if registered then 1 else 0
  }

  /** The accounts with these registration states. */
  function WithStates(slots: seq<Slot>, regs: seq<bool>): (r: seq<Slot>)
    requires |regs| == |slots|
    ensures |r| == |slots|
  {
    seq(|slots|, i requires 0 <= i < |slots| => slots[i].(regc := regs[i]))
  }

  lemma RegisteredWith(slots: seq<Slot>, regs: seq<bool>, acc: int)
    requires OwnData(slots) && IsValid(slots, acc) && |regs| == |slots|
    ensures Registered(WithStates(slots, regs), acc) == Answer(regs[0])
  {
    assert IsValid(WithStates(slots, regs), acc);
  }

  /** The answer is right whatever the accounts' registration states exactly for the account in slot 0. */
  lemma RightOnlyForSlot0(slots: seq<Slot>, acc: int)
    requires OwnData(slots) && IsValid(slots, acc)
    ensures (forall regs: seq<bool> :: |regs| == |slots| ==>
               Registered(WithStates(slots, regs), acc) == Answer(regs[acc]))
       <==> acc == 0
  {
    forall regs: seq<bool> | |regs| == |slots|
      ensures Registered(WithStates(slots, regs), acc) == Answer(regs[acc]) <==> regs[0] == regs[acc]
    {
      RegisteredWith(slots, regs, acc);
    }
    if acc != 0 {
      var regs := seq(|slots|, i => i == 0);
      assert Registered(WithStates(slots, regs), acc) != Answer(regs[acc]);
    }
  }

  /** In every reachable state: -1 exactly without the account. */
  lemma UnknownExactly(capacity: nat, acts: seq<Action>, acc: int)
    ensures var slots := Run(Start(capacity), acts).slots;
            Registered(slots, acc) == -1 <==> !IsValid(slots, acc)
  {
    DataStaysOwn(capacity, acts);
  }

  /**
   In every reachable state, for every account in the table: the answer is right whatever the accounts'
   registration states - and even whatever the library next makes of this account's alone - exactly
   when the account is in slot 0.
   */
  lemma RegisteredExactly(capacity: nat, acts: seq<Action>, acc: int)
    requires IsValid(Run(Start(capacity), acts).slots, acc)
    ensures var slots := Run(Start(capacity), acts).slots;
            (forall regs: seq<bool> :: |regs| == |slots| ==>
               Registered(WithStates(slots, regs), acc) == Answer(regs[acc]))
            <==> acc == 0
    ensures var s := Run(Start(capacity), acts);
            (forall regc: bool :: Registered(Next(s, Library(acc, regc)).slots, acc) == Answer(regc)) <==> acc == 0
  {
    var s := Run(Start(capacity), acts);
    DataStaysOwn(capacity, acts);
    RightOnlyForSlot0(s.slots, acc);
    forall regc: bool
      ensures Registered(Next(s, Library(acc, regc)).slots, acc) == Answer(if acc == 0 then regc else s.slots[0].regc)
    {
      DataStaysOwn(capacity, acts + [Library(acc, regc)]);
      assert (acts + [Library(acc, regc)])[..|acts|] == acts;
    }
    if acc != 0 {
      var wrong := !s.slots[0].regc;
      assert Registered(Next(s, Library(acc, wrong)).slots, acc) != Answer(wrong);
    }
  }

  /** A login that fails keeps its slot; after a second one the answer is about the first account. */
  lemma SecondLoginMisread()
    ensures var failed := Next(Next(Start(2), Login(4, Some((0, true)))), Callback(0, 401));
            var second := Next(Next(failed, Library(0, false)), Login(4, Some((1, true))));
            var s := Next(second, Callback(1, 200));
            s.loggedIn == 1 && s.accId == 1 && s.slots == [Slot(true, false, Some(0)), Slot(true, true, Some(1))] &&
            Registered(s.slots, s.accId) == 0
  {
    assert Start(2).slots == [FREE, FREE];
  }
}
