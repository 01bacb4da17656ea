/** The JWT authorization protocol of core/auth.go.

    `authorize` is cut into the blocks that run under `auth.mu`; each block is one atomic step, and
    `Cond.Wait` ends a block by releasing the mutex and going to sleep in one go, as sync.Cond does.
    Any number of calls may be in flight and the scheduler picks freely which one runs its next block.
    The server's answers are part of the schedule. */
module Auth {
  import opened Basics

  datatype Token = Token(access: string, refresh: string)

  /** The fields guarded by auth.mu. */
  datatype Shared = Shared(token: Option<Token>, initialized: bool, authorizing: bool)

  datatype Reply = Granted(token: Token) | Unauthorized | Failed

  datatype Stage =
    | ReadRefresh
    | CallRefresh(refresh: string)
    | CallAcquire
    | StoreToken(token: Token)
    | Conclude(ok: bool)

  /** One call of authorize. History variables: `claimed` is the guarded fields just before the call took the lead,
      `requests` counts the HTTP requests it has sent, `refused` says that its refresh was answered Unauthorized, and
      `refreshing` that it began with a refresh. */
  datatype Call =
    | Ready
    | Asleep
    | Signalled
    | Leading(claimed: Shared, stage: Stage, requests: nat, refused: bool)
    | ReturnedWaited(access: string)
    | ReturnedLed(ok: bool, requests: nat, refreshing: bool, refused: bool)
    | Panicked

  datatype State = State(sh: Shared, calls: seq<Call>)

  /** Arrive starts a new call; Run lets call g execute its next block. The reply is looked at only when
      the block is the end of an HTTP request. */
  datatype Action = Arrive | Run(g: nat, reply: Reply)

  // ------------------------------------------------------------ the guarded blocks

  predicate Usable(sh: Shared) {
    sh.initialized && sh.token.Some? && sh.token.value.access != ""
  }

  function Cleared(token: Option<Token>): Option<Token> {
    match token
    case None => None
    case Some(t) => Some(t.(access := ""))
  }

  datatype Decision = GoToSleep | ReturnNil | Lead(wasInitialized: bool)

  function EnterDecision(sh: Shared, waited: bool): Decision {
    if sh.authorizing then GoToSleep
    else if waited && Usable(sh) then ReturnNil
    else Lead(sh.initialized)
  }

  function EnterShared(sh: Shared, waited: bool): Shared {
    if EnterDecision(sh, waited).Lead?
    then Shared(Cleared(sh.token), sh.initialized, true)
    else sh
  }

  function ConcludeShared(sh: Shared, ok: bool): Shared {
    Shared(sh.token, sh.initialized || ok, false)
  }

  /** The authenticator object: each method is one block under auth.mu. */
  class JWTAuthenticator {
    var token: Option<Token>
    var initialized: bool
    var authorizing: bool

    ghost function Guarded(): Shared
      reads this
    {
      Shared(token, initialized, authorizing)
    }

    constructor ()
      ensures Guarded() == Initial().sh
    {
      token := Some(Token("", ""));
      initialized := false;
      authorizing := false;
    }

    /** From taking the lock (or waking up with it) to the next Wait, or to the Unlock. */
    method Enter(waited: bool) returns (d: Decision)
      modifies this
      ensures d == EnterDecision(old(Guarded()), waited)
      ensures Guarded() == EnterShared(old(Guarded()), waited)
    {
      if authorizing {
        return GoToSleep;
      }
      if waited {
        if initialized && token.Some? && token.value.access != "" {
          return ReturnNil;
        }
      }
      authorizing := true;
      d := Lead(initialized);
      if token.Some? {
        token := Some(token.value.(access := ""));
      }
    }

    /** The guarded head of refreshToken; None stands for its panic. */
    method ReadRefreshToken() returns (r: Option<string>)
      ensures r.None? <==> token.None? || token.value.refresh == ""
      ensures r.Some? ==> r.value == token.value.refresh
    {
      if token.None? || token.value.refresh == "" {
        return None;
      }
      r := Some(token.value.refresh);
    }

    method Store(t: Token)
      modifies this
      ensures Guarded() == old(Guarded()).(token := Some(t))
    {
      token := Some(t);
    }

    method Finish(ok: bool)
      modifies this
      ensures Guarded() == ConcludeShared(old(Guarded()), ok)
    {
      if ok {
        initialized := true;
      }
      authorizing := false;
    }
  }

  // ------------------------------------------------------------ the step system

  function Initial(): State {
    State(Shared(Some(Token("", "")), false, false), [])
  }

  predicate InLead(c: Call) {
    c.Leading? || c.Panicked?
  }

  predicate IsReturned(c: Call) {
    c.ReturnedWaited? || c.ReturnedLed?
  }

  /** A panic in refreshToken takes the whole process down. */
  predicate Crashed(s: State) {
    exists i :: 0 <= i < |s.calls| && s.calls[i].Panicked?
  }

  predicate Enabled(s: State, a: Action) {
    !Crashed(s) &&
    match a
    case Arrive => true
    case Run(g, _) => g < |s.calls| && (s.calls[g].Ready? || s.calls[g].Signalled? || s.calls[g].Leading?)
  }

  function Awakened(calls: seq<Call>): (r: seq<Call>)
    ensures |r| == |calls|
    ensures forall i :: 0 <= i < |calls| ==> r[i] == if calls[i].Asleep? then Signalled else calls[i]
  {
    seq(|calls|, i requires 0 <= i < |calls| => if calls[i].Asleep? then Signalled else calls[i])
  }

  function EnterCall(sh: Shared, waited: bool): Call {
    match EnterDecision(sh, waited)
    case GoToSleep => Asleep
    case ReturnNil => ReturnedWaited(sh.token.value.access)
    case Lead(wasInitialized) => Leading(sh, if wasInitialized then ReadRefresh else CallAcquire, 0, false)
  }

  /** What a leading call becomes at the end of a block that is not its last. */
  function Advance(sh: Shared, c: Call, reply: Reply): Call
    requires c.Leading? && !c.stage.Conclude?
  {
    match c.stage
    case ReadRefresh =>
      if sh.token.None? || sh.token.value.refresh == "" then Panicked
      else c.(stage := CallRefresh(sh.token.value.refresh))
    case CallRefresh(_) =>
      var sent := c.requests + 1;
      (match reply
       case Granted(t) => c.(stage := StoreToken(t), requests := sent)
       case Unauthorized => c.(stage := CallAcquire, requests := sent, refused := true)
       case Failed => c.(stage := Conclude(false), requests := sent))
    case CallAcquire =>
      var sent := c.requests + 1;
      (match reply
       case Granted(t) => c.(stage := StoreToken(t), requests := sent)
       case _ => c.(stage := Conclude(false), requests := sent))
    case StoreToken(_) => c.(stage := Conclude(true))
  }

  function Returned(c: Call): Call
    requires c.Leading? && c.stage.Conclude?
  {
    ReturnedLed(c.stage.ok, c.requests, c.claimed.initialized, c.refused)
  }

  function Do(s: State, a: Action): State
    requires Enabled(s, a)
  {
    match a
    case Arrive => s.(calls := s.calls + [Ready])
    case Run(g, reply) =>
      var c := s.calls[g];
      if c.Leading? then
        if c.stage.Conclude? then
          State(ConcludeShared(s.sh, c.stage.ok),
                Awakened(s.calls[g := Returned(c)]))
        else
          State(if c.stage.StoreToken? then s.sh.(token := Some(c.stage.token)) else s.sh,
                s.calls[g := Advance(s.sh, c, reply)])
      else
        State(EnterShared(s.sh, c.Signalled?), s.calls[g := EnterCall(s.sh, c.Signalled?)])
  }

  /** The server may grant only tokens that satisfy `grants`. */
  predicate Answers(grants: Token -> bool, a: Action) {
    a.Run? && a.reply.Granted? ==> grants(a.reply.token)
  }

  predicate Legal(grants: Token -> bool, s: State, acts: seq<Action>)
    decreases |acts|
  {
    acts == [] ||
    (Answers(grants, acts[0]) && Enabled(s, acts[0]) && Legal(grants, Do(s, acts[0]), acts[1..]))
  }

  function After(grants: Token -> bool, s: State, acts: seq<Action>): State
    requires Legal(grants, s, acts)
    decreases |acts|
  {
    if acts == [] then s else After(grants, Do(s, acts[0]), acts[1..])
  }

  ghost predicate Reachable(grants: Token -> bool, s: State) {
    exists acts :: Legal(grants, Initial(), acts) && After(grants, Initial(), acts) == s
  }

  // ------------------------------------------------------------ safety

  /** At most one call is between setting and clearing the flag, the flag says whether there is one, and
      nobody sleeps while the flag is down. */
  predicate SingleFlight(s: State) {
    && (forall i, j :: 0 <= i < |s.calls| && 0 <= j < |s.calls| && InLead(s.calls[i]) && InLead(s.calls[j]) ==> i == j)
    && (s.sh.authorizing <==> exists i :: 0 <= i < |s.calls| && InLead(s.calls[i]))
    && (forall i :: 0 <= i < |s.calls| && s.calls[i].Asleep? ==> s.sh.authorizing)
  }

  /** While a call leads, nobody else changes the token, and before it stores a new one the old one has an
      empty access part and its refresh part untouched. */
  predicate LeaderView(sh: Shared, c: Call) {
    c.Leading? ==>
      && sh.initialized == c.claimed.initialized
      && (c.stage != Conclude(true) ==> sh.token == Cleared(c.claimed.token))
      && (c.stage == Conclude(true) ==> sh.token.Some?)
      && (c.refused ==> c.claimed.initialized)
      && (c.stage.ReadRefresh? || c.stage.CallRefresh? ==> c.claimed.initialized && c.requests == 0 && !c.refused)
      && (c.stage.CallRefresh? ==> c.claimed.token.Some? && c.stage.refresh == c.claimed.token.value.refresh != "")
      && (c.stage.CallAcquire? ==> c.refused == c.claimed.initialized)
      && (c.stage.CallAcquire? ==> c.requests == if c.refused then 1 else 0)
      && (c.stage.StoreToken? || c.stage.Conclude? ==> c.requests == if c.refused then 2 else 1)
  }

  predicate CallHistory(c: Call) {
    && (c.ReturnedWaited? ==> c.access != "")
    && (c.ReturnedLed? ==> (c.refused ==> c.refreshing) && c.requests == if c.refused then 2 else 1)
  }

  predicate Inv(s: State) {
    && SingleFlight(s)
    && (forall i :: 0 <= i < |s.calls| ==> LeaderView(s.sh, s.calls[i]) && CallHistory(s.calls[i]))
  }

  lemma SingleFlightStep(s: State, a: Action)
    requires SingleFlight(s) && Enabled(s, a)
    ensures SingleFlight(Do(s, a))
  {
    var t := Do(s, a);
    if a.Run? {
      var g := a.g;
      if s.calls[g].Leading? {
        if !s.calls[g].stage.Conclude? {
          assert InLead(t.calls[g]);
        }
      } else if EnterDecision(s.sh, s.calls[g].Signalled?).Lead? {
        assert InLead(t.calls[g]);
      } else if s.sh.authorizing {
        var i :| 0 <= i < |s.calls| && InLead(s.calls[i]);
        assert t.calls[i] == s.calls[i];
      }
    } else if s.sh.authorizing {
      var i :| 0 <= i < |s.calls| && InLead(s.calls[i]);
      assert t.calls[i] == s.calls[i];
    }
  }

  lemma InvStep(s: State, a: Action)
    requires Inv(s) && Enabled(s, a)
    ensures Inv(Do(s, a))
  {
    SingleFlightStep(s, a);
    var t := Do(s, a);
    forall i | 0 <= i < |t.calls|
      ensures LeaderView(t.sh, t.calls[i]) && CallHistory(t.calls[i])
    {
      if i < |s.calls| {
        assert LeaderView(s.sh, s.calls[i]) && CallHistory(s.calls[i]);
        if a.Run? && i != a.g && s.calls[i].Leading? {
          assert InLead(s.calls[i]) && s.sh.authorizing;
        }
      }
    }
  }

  lemma {:induction false} InvAfter(grants: Token -> bool, s: State, acts: seq<Action>)
    requires Inv(s) && Legal(grants, s, acts)
    ensures Inv(After(grants, s, acts))
    decreases |acts|
  {
    if acts != [] {
      InvStep(s, acts[0]);
      InvAfter(grants, Do(s, acts[0]), acts[1..]);
    }
  }

  /** In every reachable state, for any number of calls and any interleaving: one authorization at a time,
      no lost wake-up, waiters leave only with an access token, and an attempt sends one request, or two exactly when
      it began with a refresh that was answered Unauthorized. What a refresh sends is the refresh token that the call
      found when it took the lead. */
  lemma ReachableInv(grants: Token -> bool, s: State)
    requires Reachable(grants, s)
    ensures Inv(s)
  {
    var acts :| Legal(grants, Initial(), acts) && After(grants, Initial(), acts) == s;
    InvAfter(grants, Initial(), acts);
  }

  /** An attempt that fails changes nothing but the access token, which is left empty. */
  lemma FailedAttemptKeepsRefresh(grants: Token -> bool, s: State, g: nat, reply: Reply)
    requires Reachable(grants, s) && Enabled(s, Run(g, reply))
    requires s.calls[g].Leading? && s.calls[g].stage == Conclude(false)
    ensures var sh, before := Do(s, Run(g, reply)).sh, s.calls[g].claimed;
            && sh.initialized == before.initialized
            && sh.token == Cleared(before.token)
            && !sh.authorizing
  {
    ReachableInv(grants, s);
    assert LeaderView(s.sh, s.calls[g]);
  }

  // ------------------------------------------------------------ the panic

  predicate RefreshKept(s: State) {
    && !Crashed(s)
    && (s.sh.initialized ==> s.sh.token.Some? && s.sh.token.value.refresh != "")
    && (forall i :: 0 <= i < |s.calls| && s.calls[i].Leading? ==>
          && (s.calls[i].stage.StoreToken? ==> s.calls[i].stage.token.refresh != "")
          && (s.calls[i].stage == Conclude(true) ==> s.sh.token.Some? && s.sh.token.value.refresh != ""))
  }

  lemma RefreshKeptStep(grants: Token -> bool, s: State, a: Action)
    requires Inv(s) && RefreshKept(s) && Enabled(s, a) && Answers(grants, a)
    requires forall t :: grants(t) ==> t.refresh != ""
    ensures RefreshKept(Do(s, a))
  {
    var t := Do(s, a);
    if a.Run? {
      assert LeaderView(s.sh, s.calls[a.g]);
      forall i | 0 <= i < |t.calls|
        ensures !t.calls[i].Panicked?
        ensures t.calls[i].Leading? ==>
          && (t.calls[i].stage.StoreToken? ==> t.calls[i].stage.token.refresh != "")
          && (t.calls[i].stage == Conclude(true) ==> t.sh.token.Some? && t.sh.token.value.refresh != "")
      {
        assert !s.calls[i].Panicked?;
        if i != a.g && s.calls[i].Leading? {
          assert InLead(s.calls[i]) && s.sh.authorizing;
        }
      }
    }
  }

  lemma {:induction false} RefreshKeptAfter(grants: Token -> bool, s: State, acts: seq<Action>)
    requires Inv(s) && RefreshKept(s) && Legal(grants, s, acts)
    requires forall t :: grants(t) ==> t.refresh != ""
    ensures RefreshKept(After(grants, s, acts))
    decreases |acts|
  {
    if acts != [] {
      InvStep(s, acts[0]);
      RefreshKeptStep(grants, s, acts[0]);
      RefreshKeptAfter(grants, Do(s, acts[0]), acts[1..]);
    }
  }

  /** A first call acquires the token t; then the rest of the schedule. */
  function FirstCall(t: Token, rest: seq<Action>): seq<Action> {
    [Arrive] + ([Run(0, Failed)] + ([Run(0, Granted(t))] + ([Run(0, Failed)] + ([Run(0, Failed)] + rest))))
  }

  function AfterFirst(t: Token): State {
    State(Shared(Some(t), true, false), [ReturnedLed(true, 1, false, false)])
  }

  /** A second call takes the lead; then the rest. */
  function SecondCall(rest: seq<Action>): seq<Action> {
    [Arrive] + ([Run(1, Failed)] + rest)
  }

  function AfterSecond(t: Token): State {
    State(Shared(Some(Token("", t.refresh)), true, true),
          [ReturnedLed(true, 1, false, false), Leading(Shared(Some(t), true, false), ReadRefresh, 0, false)])
  }

  lemma FirstCallRuns(grants: Token -> bool, t: Token, rest: seq<Action>)
    requires grants(t) && Legal(grants, AfterFirst(t), rest)
    ensures Legal(grants, Initial(), FirstCall(t, rest))
    ensures After(grants, Initial(), FirstCall(t, rest)) == After(grants, AfterFirst(t), rest)
  {
    var s1 := Do(Initial(), Arrive);
    var s2 := Do(s1, Run(0, Failed));
    var s3 := Do(s2, Run(0, Granted(t)));
    var s4 := Do(s3, Run(0, Failed));
    assert Do(s4, Run(0, Failed)) == AfterFirst(t);
    var r4 := [Run(0, Failed)] + rest;
    var r3 := [Run(0, Failed)] + r4;
    var r2 := [Run(0, Granted(t))] + r3;
    Chain(grants, s4, Run(0, Failed), rest);
    Chain(grants, s3, Run(0, Failed), r4);
    Chain(grants, s2, Run(0, Granted(t)), r3);
    Chain(grants, s1, Run(0, Failed), r2);
    Chain(grants, Initial(), Arrive, [Run(0, Failed)] + r2);
  }

  lemma SecondCallRuns(grants: Token -> bool, t: Token, rest: seq<Action>)
    requires Legal(grants, AfterSecond(t), rest)
    ensures Legal(grants, AfterFirst(t), SecondCall(rest))
    ensures After(grants, AfterFirst(t), SecondCall(rest)) == After(grants, AfterSecond(t), rest)
  {
    var s1 := Do(AfterFirst(t), Arrive);
    assert Do(s1, Run(1, Failed)) == AfterSecond(t);
    Chain(grants, s1, Run(1, Failed), rest);
    Chain(grants, AfterFirst(t), Arrive, [Run(1, Failed)] + rest);
  }

  lemma PanicRun(grants: Token -> bool, t: Token)
    requires grants(t) && t.refresh == ""
    ensures exists s :: Reachable(grants, s) && Crashed(s)
  {
    var last := [Run(1, Failed)];
    var s := Do(AfterSecond(t), last[0]);
    assert s.calls[1].Panicked?;
    Chain(grants, AfterSecond(t), last[0], []);
    SecondCallRuns(grants, t, last);
    FirstCallRuns(grants, t, SecondCall(last));
    assert Reachable(grants, s) && Crashed(s);
  }

  lemma Chain(grants: Token -> bool, s: State, a: Action, rest: seq<Action>)
    requires Answers(grants, a) && Enabled(s, a) && Legal(grants, Do(s, a), rest)
    ensures Legal(grants, s, [a] + rest)
    ensures After(grants, s, [a] + rest) == After(grants, Do(s, a), rest)
  {
    assert ([a] + rest)[1..] == rest;
  }

  /** The panic in refreshToken is reachable exactly when the server may answer a successful token request
      without a refresh token. */
  lemma PanicIffEmptyRefresh(grants: Token -> bool)
    ensures (exists s :: Reachable(grants, s) && Crashed(s)) <==> (exists t :: grants(t) && t.refresh == "")
  {
    if exists t :: grants(t) && t.refresh == "" {
      var t :| grants(t) && t.refresh == "";
      PanicRun(grants, t);
    } else {
      forall s | Reachable(grants, s)
        ensures !Crashed(s)
      {
        var acts :| Legal(grants, Initial(), acts) && After(grants, Initial(), acts) == s;
        RefreshKeptAfter(grants, Initial(), acts);
      }
    }
  }

  /** Under a server that always sends a refresh token, an initialized authenticator can always refresh. */
  lemma InitializedCanRefresh(grants: Token -> bool, s: State)
    requires forall t :: grants(t) ==> t.refresh != ""
    requires Reachable(grants, s)
    ensures s.sh.initialized ==> s.sh.token.Some? && s.sh.token.value.refresh != ""
  {
    var acts :| Legal(grants, Initial(), acts) && After(grants, Initial(), acts) == s;
    RefreshKeptAfter(grants, Initial(), acts);
  }

  // ------------------------------------------------------------ how many requests an attempt sends

  /** After a first call has got a token, the refresh of a second one is refused and it acquires another. */
  function RefusedCall(t: Token): seq<Action> {
    [Run(1, Failed)] + ([Run(1, Unauthorized)] + ([Run(1, Granted(t))] + ([Run(1, Failed)] + [Run(1, Failed)])))
  }

  lemma TwoRequestRun(grants: Token -> bool, t: Token)
    requires grants(t) && t.refresh != ""
    ensures exists s :: Reachable(grants, s) && |s.calls| == 2 && s.calls[1] == ReturnedLed(true, 2, true, true)
  {
    var s1 := Do(AfterSecond(t), Run(1, Failed));
    var s2 := Do(s1, Run(1, Unauthorized));
    var s3 := Do(s2, Run(1, Granted(t)));
    var s4 := Do(s3, Run(1, Failed));
    var s5 := Do(s4, Run(1, Failed));
    var r4 := [Run(1, Failed)];
    var r3 := [Run(1, Failed)] + r4;
    var r2 := [Run(1, Granted(t))] + r3;
    Chain(grants, s4, Run(1, Failed), []);
    assert r4 == [Run(1, Failed)] + [];
    Chain(grants, s3, Run(1, Failed), r4);
    Chain(grants, s2, Run(1, Granted(t)), r3);
    Chain(grants, s1, Run(1, Unauthorized), r2);
    Chain(grants, AfterSecond(t), Run(1, Failed), [Run(1, Unauthorized)] + r2);
    SecondCallRuns(grants, t, RefusedCall(t));
    FirstCallRuns(grants, t, SecondCall(RefusedCall(t)));
    assert Reachable(grants, s5);
  }

  /** Nothing to refresh with has ever been stored or is about to be. */
  predicate NothingToRefresh(s: State) {
    && (s.sh.token.Some? ==> s.sh.token.value.refresh == "")
    && (forall i :: 0 <= i < |s.calls| && s.calls[i].Leading? ==>
          && !s.calls[i].stage.CallRefresh? && !s.calls[i].refused
          && (s.calls[i].stage.StoreToken? ==> s.calls[i].stage.token.refresh == ""))
    && (forall i :: 0 <= i < |s.calls| && s.calls[i].ReturnedLed? ==> !s.calls[i].refused)
  }

  lemma {:induction false} NothingToRefreshAfter(grants: Token -> bool, s: State, acts: seq<Action>)
    requires NothingToRefresh(s) && Legal(grants, s, acts) && forall t :: grants(t) ==> t.refresh == ""
    ensures NothingToRefresh(After(grants, s, acts))
    decreases |acts|
  {
    if acts != [] {
      NothingToRefreshAfter(grants, Do(s, acts[0]), acts[1..]);
    }
  }

  /** Every attempt that is over has sent one request. */
  predicate OneRequestEach(s: State) {
    forall i :: 0 <= i < |s.calls| && s.calls[i].ReturnedLed? ==> s.calls[i].requests == 1
  }

  /** The documented single request per attempt holds in all reachable states exactly when the server never grants a
      refresh token. */
  lemma OneRequestIffNoRefreshTokens(grants: Token -> bool)
    ensures (forall s :: Reachable(grants, s) ==> OneRequestEach(s)) <==> (forall t :: grants(t) ==> t.refresh == "")
  {
    if t :| grants(t) && t.refresh != "" {
      TwoRequestRun(grants, t);
      var s :| Reachable(grants, s) && |s.calls| == 2 && s.calls[1] == ReturnedLed(true, 2, true, true);
      assert !OneRequestEach(s);
    } else {
      forall s | Reachable(grants, s) ensures OneRequestEach(s) {
        ReachableInv(grants, s);
        var acts :| Legal(grants, Initial(), acts) && After(grants, Initial(), acts) == s;
        NothingToRefreshAfter(grants, Initial(), acts);
      }
    }
  }

  // ------------------------------------------------------------ progress

  /** No reachable state with an unfinished call is stuck, whatever the server answers. */
  lemma NeverStuck(grants: Token -> bool, s: State, reply: Reply) returns (g: nat)
    requires Reachable(grants, s) && !Crashed(s)
    requires exists i :: 0 <= i < |s.calls| && !IsReturned(s.calls[i])
    ensures Enabled(s, Run(g, reply))
  {
    ReachableInv(grants, s);
    var i :| 0 <= i < |s.calls| && !IsReturned(s.calls[i]);
    if s.calls[i].Asleep? {
      g :| 0 <= g < |s.calls| && InLead(s.calls[g]);
    } else {
      g := i;
    }
  }

  function StageRank(st: Stage): nat {
    match st
    case ReadRefresh => 5
    case CallRefresh(_) => 4
    case CallAcquire => 3
    case StoreToken(_) => 2
    case Conclude(_) => 1
  }

  /** How many blocks a call can run before it returns or another call does. */
  function Rank(c: Call): nat {
    match c
    case Ready => 7
    case Signalled => 7
    case Asleep => 0
    case Leading(_, st, _, _) => StageRank(st)
    case _ => 0
  }

  function Ranks(calls: seq<Call>): nat {
    if calls == [] then 0 else Rank(calls[0]) + Ranks(calls[1..])
  }

  function Live(calls: seq<Call>): nat {
    if calls == [] then 0 else (if IsReturned(calls[0]) || calls[0].Panicked? then 0 else 1) + Live(calls[1..])
  }

  function Measure(s: State): nat {
    Live(s.calls) * (7 * |s.calls| + 1) + Ranks(s.calls)
  }

  lemma {:induction false} RanksUpdate(calls: seq<Call>, g: nat, c: Call)
    requires g < |calls|
    ensures Ranks(calls[g := c]) == Ranks(calls) - Rank(calls[g]) + Rank(c)
    ensures Live(calls[g := c]) == Live(calls) - Live([calls[g]]) + Live([c])
  {
    if g == 0 {
      assert calls[g := c][1..] == calls[1..];
    } else {
      assert calls[g := c][1..] == calls[1..][g - 1 := c];
      RanksUpdate(calls[1..], g - 1, c);
    }
  }

  lemma {:induction false} RanksAwakened(calls: seq<Call>)
    ensures Ranks(Awakened(calls)) <= 7 * |calls|
    ensures Live(Awakened(calls)) == Live(calls)
  {
    if calls != [] {
      assert Awakened(calls)[1..] == Awakened(calls[1..]);
      RanksAwakened(calls[1..]);
    }
  }

  lemma MeasureConclude(s: State, g: nat, reply: Reply)
    requires Enabled(s, Run(g, reply)) && s.calls[g].Leading? && s.calls[g].stage.Conclude?
    ensures Measure(Do(s, Run(g, reply))) < Measure(s)
  {
    var c := s.calls[g];
    var calls := s.calls[g := Returned(c)];
    RanksUpdate(s.calls, g, Returned(c));
    RanksAwakened(calls);
    assert Live(calls) == Live(s.calls) - 1;
    OneLess(Live(s.calls), 7 * |s.calls| + 1);
  }

  lemma OneLess(l: nat, k: nat)
    requires l > 0
    ensures l * k == (l - 1) * k + k
  {
  }

  /** Every block a call runs makes the measure smaller. */
  lemma MeasureStep(s: State, g: nat, reply: Reply)
    requires Enabled(s, Run(g, reply))
    ensures Measure(Do(s, Run(g, reply))) < Measure(s)
    ensures |Do(s, Run(g, reply)).calls| == |s.calls|
  {
    var c, t := s.calls[g], Do(s, Run(g, reply));
    if c.Leading? && c.stage.Conclude? {
      MeasureConclude(s, g, reply);
    } else {
      RanksUpdate(s.calls, g, t.calls[g]);
      if Live(t.calls) != Live(s.calls) {
        OneLess(Live(s.calls), 7 * |s.calls| + 1);
      }
    }
  }

  predicate NoArrivals(acts: seq<Action>) {
    forall i :: 0 <= i < |acts| ==> acts[i].Run?
  }

  /** Once calls stop arriving, every schedule is finite: its length is bounded by the measure, for every
      scheduler and every server. */
  lemma {:induction false} SchedulesAreFinite(grants: Token -> bool, s: State, acts: seq<Action>)
    requires Legal(grants, s, acts) && NoArrivals(acts)
    ensures |acts| + Measure(After(grants, s, acts)) <= Measure(s)
    decreases |acts|
  {
    if acts != [] {
      var Run(g, reply) := acts[0];
      MeasureStep(s, g, reply);
      SchedulesAreFinite(grants, Do(s, acts[0]), acts[1..]);
    }
  }

  /** A schedule that cannot be prolonged without a new call has let every call return. */
  lemma MaximalSchedulesFinish(grants: Token -> bool, s: State)
    requires Reachable(grants, s) && forall t :: grants(t) ==> t.refresh != ""
    requires forall g, reply :: !Enabled(s, Run(g, reply))
    ensures forall i :: 0 <= i < |s.calls| ==> IsReturned(s.calls[i])
  {
    PanicIffEmptyRefresh(grants);
    if exists i :: 0 <= i < |s.calls| && !IsReturned(s.calls[i]) {
      var g := NeverStuck(grants, s, Failed);
    }
  }

  // ------------------------------------------------------------ attempts

  /** How often call g takes the lead in a schedule. */
  function Attempts(grants: Token -> bool, s: State, acts: seq<Action>, g: nat): nat
    requires Legal(grants, s, acts)
    decreases |acts|
  {
    if acts == [] then 0 else
      var t := Do(s, acts[0]);
      (if acts[0].Run? && acts[0].g == g && t.calls[g].Leading? && !s.calls[g].Leading? then 1 else 0)
      + Attempts(grants, t, acts[1..], g)
  }

  /** Each call makes at most one attempt, and none once it has led or returned. */
  lemma {:induction false} AtMostOneAttempt(grants: Token -> bool, s: State, acts: seq<Action>, g: nat)
    requires Legal(grants, s, acts)
    ensures Attempts(grants, s, acts, g) <= 1
    ensures g < |s.calls| && (InLead(s.calls[g]) || IsReturned(s.calls[g])) ==> Attempts(grants, s, acts, g) == 0
    decreases |acts|
  {
    if acts != [] {
      AtMostOneAttempt(grants, Do(s, acts[0]), acts[1..], g);
    }
  }

  /** The leader is about to report success with a usable token and nobody is still on the way in. */
  predicate Winning(s: State, leader: nat, access: string) {
    && leader < |s.calls|
    && s.calls[leader].Leading? && s.calls[leader].stage == Conclude(true)
    && s.sh.authorizing
    && s.sh.token.Some? && s.sh.token.value.access == access != ""
    && forall i :: 0 <= i < |s.calls| && i != leader ==>
                     s.calls[i].Asleep? || s.calls[i].Signalled? || IsReturned(s.calls[i])
  }

  predicate Won(s: State, access: string) {
    && Usable(s.sh) && !s.sh.authorizing && s.sh.token.value.access == access
    && forall i :: 0 <= i < |s.calls| ==> s.calls[i].Signalled? || IsReturned(s.calls[i])
  }

  /** The calls of s that still wait are, in t, still waiting or have left with the leader's token. */
  predicate ServedBy(s: State, t: State, leader: nat, access: string) {
    && |t.calls| == |s.calls|
    && forall i :: 0 <= i < |s.calls| && i != leader ==>
         if IsReturned(s.calls[i]) then t.calls[i] == s.calls[i]
         else t.calls[i].Asleep? || t.calls[i].Signalled? || t.calls[i] == ReturnedWaited(access)
  }

  /** After a successful leader, and if no new call arrives, every waiter returns with the leader's token and
      nobody makes another attempt. */
  lemma {:induction false} WaitersUseTheLeadersToken(
      grants: Token -> bool, s: State, leader: nat, access: string, acts: seq<Action>, g: nat)
    requires Legal(grants, s, acts) && NoArrivals(acts)
    requires Winning(s, leader, access) || (leader < |s.calls| && Won(s, access))
    ensures ServedBy(s, After(grants, s, acts), leader, access)
    ensures Winning(After(grants, s, acts), leader, access) || Won(After(grants, s, acts), access)
    ensures Attempts(grants, s, acts, g) == 0
    decreases |acts|
  {
    if acts != [] {
      var t := Do(s, acts[0]);
      assert acts[0].Run?;
      WaitersUseTheLeadersToken(grants, t, leader, access, acts[1..], g);
    }
  }

  /** In particular, when such a schedule can run no further, every call that was waiting has returned with
      the leader's token. */
  lemma WaitersReturn(
      grants: Token -> bool, s: State, leader: nat, access: string, acts: seq<Action>, i: nat)
    requires Legal(grants, s, acts) && NoArrivals(acts) && Winning(s, leader, access)
    requires forall g, reply :: !Enabled(After(grants, s, acts), Run(g, reply))
    requires i < |s.calls| && i != leader && !IsReturned(s.calls[i])
    ensures i < |After(grants, s, acts).calls|
    ensures After(grants, s, acts).calls[i] == ReturnedWaited(access)
  {
    WaitersUseTheLeadersToken(grants, s, leader, access, acts, i);
    var t := After(grants, s, acts);
    assert !Enabled(t, Run(leader, Failed)) && !Enabled(t, Run(i, Failed));
  }

  // ------------------------------------------------------------ what a header is built from

  /** Nobody takes the lead in the schedule. */
  ghost predicate NoAttempts(grants: Token -> bool, s: State, acts: seq<Action>)
    requires Legal(grants, s, acts)
  {
    forall g: nat :: Attempts(grants, s, acts, g) == 0
  }

  /** Some call takes the lead in the step. */
  predicate Claims(s: State, a: Action)
    requires Enabled(s, a)
  {
    a.Run? && !s.calls[a.g].Leading? && Do(s, a).calls[a.g].Leading?
  }

  predicate Idle(s: State) {
    SingleFlight(s) && Usable(s.sh) && !s.sh.authorizing
  }

  /** A usable token that nobody claims stays as it is; the step that claims it empties its access part and
      nothing else of it. */
  lemma ClaimStep(s: State, a: Action)
    requires Idle(s) && Enabled(s, a)
    ensures Do(s, a).sh == if Claims(s, a) then Shared(Some(Token("", s.sh.token.value.refresh)), true, true) else s.sh
    ensures !Claims(s, a) ==> Idle(Do(s, a))
  {
    SingleFlightStep(s, a);
    if a.Run? {
      assert !InLead(s.calls[a.g]);
    }
  }

  /** Over any schedule: a usable token stays as it is until some call takes the lead, and the step with which the
      first one does empties the access part that setAuthHeader would copy. */
  lemma {:induction false} UsableUntilClaimed(grants: Token -> bool, s: State, acts: seq<Action>, a: Action)
    requires Idle(s) && Legal(grants, s, acts) && NoAttempts(grants, s, acts)
    requires Enabled(After(grants, s, acts), a)
    ensures After(grants, s, acts).sh == s.sh
    ensures Claims(After(grants, s, acts), a) ==>
              Do(After(grants, s, acts), a).sh.token == Some(Token("", s.sh.token.value.refresh))
    ensures !Claims(After(grants, s, acts), a) ==> Do(After(grants, s, acts), a).sh == s.sh
    decreases |acts|
  {
    if acts == [] {
      ClaimStep(s, a);
    } else {
      var t := Do(s, acts[0]);
      if Claims(s, acts[0]) {
        assert Attempts(grants, s, acts, acts[0].g) > 0;
        assert false;
      }
      ClaimStep(s, acts[0]);
      forall g: nat ensures Attempts(grants, t, acts[1..], g) == 0 {
        assert Attempts(grants, s, acts, g) == 0;
      }
      UsableUntilClaimed(grants, t, acts[1..], a);
    }
  }

  /** The outcome of the attempt that ends in this step, if one does. */
  function Conclusion(s: State, a: Action): Option<bool>
    requires Enabled(s, a)
  {
    if a.Run? && s.calls[a.g].Leading? && s.calls[a.g].stage.Conclude? then Some(s.calls[a.g].stage.ok) else None
  }

  /** The outcome of the last attempt to end in a schedule; `last` is that of the one before. */
  function LastOutcome(grants: Token -> bool, s: State, acts: seq<Action>, last: Option<bool>): Option<bool>
    requires Legal(grants, s, acts)
    decreases |acts|
  {
    if acts == [] then last
    else
      var now := Conclusion(s, acts[0]);
      LastOutcome(grants, Do(s, acts[0]), acts[1..], if now.Some? then now else last)
  }

  /** A call leads that has not stored a token. */
  predicate Unstored(s: State) {
    exists i :: 0 <= i < |s.calls| && InLead(s.calls[i]) && !(s.calls[i].Leading? && s.calls[i].stage == Conclude(true))
  }

  predicate EmptyToken(s: State) {
    s.sh.token.Some? && s.sh.token.value.access == ""
  }

  predicate TokenView(s: State, last: Option<bool>) {
    && s.sh.token.Some?
    && (EmptyToken(s) <==> Unstored(s) || (!s.sh.authorizing && last != Some(true)))
    && (forall i :: 0 <= i < |s.calls| && s.calls[i].Leading? && s.calls[i].stage.StoreToken? ==>
          s.calls[i].stage.token.access != "")
  }

  lemma TokenViewStep(grants: Token -> bool, s: State, a: Action, last: Option<bool>)
    requires SingleFlight(s) && TokenView(s, last) && Enabled(s, a) && Answers(grants, a)
    requires forall t :: grants(t) ==> t.access != ""
    ensures TokenView(Do(s, a), if Conclusion(s, a).Some? then Conclusion(s, a) else last)
  {
    var t := Do(s, a);
    SingleFlightStep(s, a);
    if a.Run? && (s.calls[a.g].Leading? || Claims(s, a)) {
      forall i | 0 <= i < |s.calls| && i != a.g ensures !InLead(s.calls[i]) && !InLead(t.calls[i]) {
        assert s.calls[a.g].Leading? ==> InLead(s.calls[a.g]);
      }
    } else {
      forall i | 0 <= i < |s.calls| ensures InLead(s.calls[i]) <==> InLead(t.calls[i]) {
      }
      assert Unstored(s) <==> Unstored(t);
    }
  }

  lemma {:induction false} TokenViewAfter(grants: Token -> bool, s: State, acts: seq<Action>, last: Option<bool>)
    requires SingleFlight(s) && TokenView(s, last) && Legal(grants, s, acts)
    requires forall t :: grants(t) ==> t.access != ""
    ensures TokenView(After(grants, s, acts), LastOutcome(grants, s, acts, last))
    decreases |acts|
  {
    if acts != [] {
      SingleFlightStep(s, acts[0]);
      TokenViewStep(grants, s, acts[0], last);
      var now := Conclusion(s, acts[0]);
      TokenViewAfter(grants, Do(s, acts[0]), acts[1..], if now.Some? then now else last);
    }
  }

  /** With a server that never grants an empty access token, after any schedule the access token is empty exactly when
      a call leads that has stored nothing yet, or nobody leads and the last attempt failed or there was none. */
  lemma EmptyTokenIff(grants: Token -> bool, acts: seq<Action>)
    requires Legal(grants, Initial(), acts) && forall t :: grants(t) ==> t.access != ""
    ensures var s := After(grants, Initial(), acts);
            EmptyToken(s) <==>
            Unstored(s) || (!s.sh.authorizing && LastOutcome(grants, Initial(), acts, None) != Some(true))
  {
    TokenViewAfter(grants, Initial(), acts, None);
  }

  /** A call that has returned without error may still build its header from an empty access token: another
      call that arrives afterwards clears it first. */
  lemma HeaderMayBeEmptyAfterSuccess(grants: Token -> bool, t: Token)
    requires grants(t)
    ensures exists s :: Reachable(grants, s) && |s.calls| == 2 && s.calls[0] == ReturnedLed(true, 1, false, false)
                        && s.sh.token == Some(Token("", t.refresh))
  {
    SecondCallRuns(grants, t, []);
    FirstCallRuns(grants, t, SecondCall([]));
    assert Reachable(grants, AfterSecond(t));
  }
}
