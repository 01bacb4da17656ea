/** The retry loop of core/session.go, as the caller of authorize. */
module Retry {
  import Auth
  import opened Basics

  datatype Error = Api(status: int, permissionDenied: bool) | Transport

  datatype Outcome = Done | Fail(error: Error)

  /** What the environment answers in one pass of the loop: whether the authenticator already is
      initialized, how lazy authorization ends, how the request ends, and how re-authorization ends. */
  datatype Round = Round(initialized: bool, lazy: Outcome, reply: Outcome, again: Outcome)

  const MAX_RETRIES: nat := 3
  const UNAUTHORIZED := 401
  const FORBIDDEN := 403

  predicate AuthTrouble(o: Outcome) {
    o.Fail? && o.error.Api? && o.error.status in {UNAUTHORIZED, FORBIDDEN} && !o.error.permissionDenied
  }

  /** A pass is repeated after 401 and 403, unless the answer says permission_denied, and after nothing else. */
  lemma TroubleIff(o: Outcome)
    ensures AuthTrouble(o) <==> exists status :: status in {401, 403} && o == Fail(Api(status, false))
  {
  }

  /** setupHeaders and the request: a failed lazy authorization ends the pass before anything is sent. */
  function RequestOutcome(r: Round): Outcome {
    if !r.initialized && r.lazy.Fail? then r.lazy else r.reply
  }

  /** The loop goes round again only after authentication trouble that re-authorization repaired. */
  predicate GoesOn(r: Round) {
    AuthTrouble(RequestOutcome(r)) && r.again.Done?
  }

  function FinalOutcome(r: Round): Outcome {
    if AuthTrouble(RequestOutcome(r)) && r.again.Fail? then r.again else RequestOutcome(r)
  }

  function Authorizations(r: Round): nat {
    (if r.initialized then 0 else 1) + (if AuthTrouble(RequestOutcome(r)) then 1 else 0)
  }

  /** How many authorize calls the first n passes make. */
  function Total(env: nat -> Round, n: nat): nat {
    if n == 0 then 0 else Total(env, n - 1) + Authorizations(env(n - 1))
  }

  method DoRequest(r: Round) returns (o: Outcome, authorized: nat, sent: nat)
    ensures o == RequestOutcome(r)
    ensures authorized == (if r.initialized then 0 else 1)
    ensures sent == 0 <==> !r.initialized && r.lazy.Fail?
    ensures sent <= 1
  {
    authorized, sent := 0, 0;
    if !r.initialized {
      authorized := 1;
      if r.lazy.Fail? {
        return r.lazy, authorized, sent;
      }
    }
    sent := 1;
    o := r.reply;
  }

  /** Passes 0 to passes-1 ran; only the last one may have been final, and the answer is its answer. No
      request is sent more than three times and authorize is called at most six times. */
  method DoRequestWithRetries(env: nat -> Round)
    returns (o: Outcome, passes: nat, authorized: nat, sent: nat)
    ensures passes == Passes(env)
    ensures forall k :: 0 <= k < passes - 1 ==> GoesOn(env(k))
    ensures passes == MAX_RETRIES || !GoesOn(env(passes - 1))
    ensures o == FinalOutcome(env(passes - 1))
    ensures authorized == Total(env, passes) <= 6
    ensures sent <= passes
  {
    o, passes, authorized, sent := Done, 0, 0, 0;
    for i := 0 to MAX_RETRIES
      invariant passes == i
      invariant forall k :: 0 <= k < i ==> GoesOn(env(k))
      invariant i > 0 ==> o == RequestOutcome(env(i - 1))
      invariant authorized == Total(env, i) <= 2 * i
      invariant sent <= i
    {
      var r := env(i);
      var outcome, a, n := DoRequest(r);
      o, passes, authorized, sent := outcome, i + 1, authorized + a, sent + n;
      if o.Fail? && o.error.Api? {
        if o.error.status == UNAUTHORIZED || o.error.status == FORBIDDEN {
          if o.error.permissionDenied {
            return;
          }
          authorized := authorized + 1;
          if r.again.Fail? {
            return r.again, passes, authorized, sent;
          }
          continue;
        }
      }
      return;
    }
  }

  /** The bound of six is reached exactly when all three passes start uninitialized, lazily authorize and
      still meet authentication trouble. */
  lemma SixAuthorizations(env: nat -> Round)
    ensures Total(env, MAX_RETRIES) == 6 <==>
            forall k :: 0 <= k < MAX_RETRIES ==> !env(k).initialized && AuthTrouble(RequestOutcome(env(k)))
  {
    assert Total(env, 3) == Authorizations(env(0)) + Authorizations(env(1)) + Authorizations(env(2)) by {
      assert Total(env, 1) == Authorizations(env(0));
      assert Total(env, 2) == Total(env, 1) + Authorizations(env(1));
    }
  }

  // ------------------------------------------------------------ together with the authenticator

  /** The server's answers to up to two HTTP requests of one authorize call. */
  datatype Replies = Replies(first: Auth.Reply, second: Auth.Reply)

  /** How a call of authorize ends: what it leaves in the guarded fields, and whether it succeeds. */
  datatype End = End(sh: Auth.Shared, ok: bool)

  function AcquireAlone(sh: Auth.Shared, reply: Auth.Reply): End {
    match reply
    case Granted(t) => End(Auth.Shared(Some(t), true, false), true)
    case _ => End(Auth.Shared(Auth.Cleared(sh.token), sh.initialized, false), false)
  }

  /** A call of authorize that nobody else interferes with; None stands for the panic. */
  function AuthorizeAlone(sh: Auth.Shared, rs: Replies): Option<End> {
    if !sh.initialized then Some(AcquireAlone(sh, rs.first))
    else if sh.token.None? || sh.token.value.refresh == "" then None
    else if rs.first.Unauthorized? then Some(AcquireAlone(sh, rs.second))
    else Some(AcquireAlone(sh, rs.first))
  }

  /** The schedule lets call g return from state s with this end. */
  predicate RunsTo(grants: Auth.Token -> bool, s: Auth.State, g: nat, acts: seq<Auth.Action>, end: End) {
    && Auth.Legal(grants, s, acts)
    && var t := Auth.After(grants, s, acts);
    t.sh == end.sh && g < |t.calls| && t.calls[g].ReturnedLed? && t.calls[g].ok == end.ok
  }

  predicate Leads(s: Auth.State, g: nat, stage: Auth.Stage) {
    !Auth.Crashed(s) && g < |s.calls| && s.calls[g].Leading? && s.calls[g].stage == stage
  }

  lemma StepThen(grants: Auth.Token -> bool, s: Auth.State, g: nat, reply: Auth.Reply, rest: seq<Auth.Action>, end: End)
    requires Auth.Enabled(s, Auth.Run(g, reply)) && (reply.Granted? ==> grants(reply.token))
    requires RunsTo(grants, Auth.Do(s, Auth.Run(g, reply)), g, rest, end)
    ensures RunsTo(grants, s, g, [Auth.Run(g, reply)] + rest, end)
  {
    Auth.Chain(grants, s, Auth.Run(g, reply), rest);
  }

  lemma ConcludeRuns(grants: Auth.Token -> bool, s: Auth.State, g: nat, ok: bool) returns (acts: seq<Auth.Action>)
    requires Leads(s, g, Auth.Conclude(ok))
    ensures RunsTo(grants, s, g, acts, End(Auth.ConcludeShared(s.sh, ok), ok))
  {
    StepThen(grants, s, g, Auth.Failed, [], End(Auth.ConcludeShared(s.sh, ok), ok));
    acts := [Auth.Run(g, Auth.Failed)] + [];
  }

  lemma StoreRuns(grants: Auth.Token -> bool, s: Auth.State, g: nat, t: Auth.Token) returns (acts: seq<Auth.Action>)
    requires Leads(s, g, Auth.StoreToken(t))
    ensures RunsTo(grants, s, g, acts, End(Auth.Shared(Some(t), true, false), true))
  {
    var rest := ConcludeRuns(grants, Auth.Do(s, Auth.Run(g, Auth.Failed)), g, true);
    StepThen(grants, s, g, Auth.Failed, rest, End(Auth.Shared(Some(t), true, false), true));
    acts := [Auth.Run(g, Auth.Failed)] + rest;
  }

  /** The answer to the request that g sends next is final. */
  predicate Sends(s: Auth.State, g: nat, reply: Auth.Reply) {
    !Auth.Crashed(s) && g < |s.calls| && s.calls[g].Leading?
    && (s.calls[g].stage.CallAcquire? || (s.calls[g].stage.CallRefresh? && !reply.Unauthorized?))
  }

  lemma RequestRuns(grants: Auth.Token -> bool, s: Auth.State, g: nat, reply: Auth.Reply, sh: Auth.Shared)
    returns (acts: seq<Auth.Action>)
    requires Sends(s, g, reply)
    requires Claimed(s, sh) && (reply.Granted? ==> grants(reply.token))
    ensures RunsTo(grants, s, g, acts, AcquireAlone(sh, reply))
  {
    var next := Auth.Do(s, Auth.Run(g, reply));
    var rest;
    if reply.Granted? {
      rest := StoreRuns(grants, next, g, reply.token);
    } else {
      rest := ConcludeRuns(grants, next, g, false);
    }
    StepThen(grants, s, g, reply, rest, AcquireAlone(sh, reply));
    acts := [Auth.Run(g, reply)] + rest;
  }

  /** The guarded fields as the leader g left them when it claimed sh. */
  predicate Claimed(s: Auth.State, sh: Auth.Shared) {
    s.sh == Auth.Shared(Auth.Cleared(sh.token), sh.initialized, true)
  }

  lemma RefreshRuns(grants: Auth.Token -> bool, s: Auth.State, g: nat, rs: Replies, sh: Auth.Shared)
    returns (acts: seq<Auth.Action>)
    requires Leads(s, g, Auth.ReadRefresh) && Claimed(s, sh) && GrantedBy(grants, rs)
    requires sh.initialized && AuthorizeAlone(sh, rs).Some?
    ensures RunsTo(grants, s, g, acts, AuthorizeAlone(sh, rs).value)
  {
    var end := AuthorizeAlone(sh, rs).value;
    var calling := Auth.Do(s, Auth.Run(g, Auth.Failed));
    if rs.first.Unauthorized? {
      acts := RequestRuns(grants, Auth.Do(calling, Auth.Run(g, rs.first)), g, rs.second, sh);
      StepThen(grants, calling, g, rs.first, acts, end);
      acts := [Auth.Run(g, rs.first)] + acts;
    } else {
      acts := RequestRuns(grants, calling, g, rs.first, sh);
    }
    StepThen(grants, s, g, Auth.Failed, acts, end);
    acts := [Auth.Run(g, Auth.Failed)] + acts;
  }

  predicate GrantedBy(grants: Auth.Token -> bool, rs: Replies) {
    (rs.first.Granted? ==> grants(rs.first.token)) && (rs.second.Granted? ==> grants(rs.second.token))
  }

  /** What AuthorizeAlone says is what the step system does with a call that starts while nobody leads and runs
      without being interrupted. */
  lemma AloneRuns(grants: Auth.Token -> bool, s: Auth.State, g: nat, rs: Replies) returns (acts: seq<Auth.Action>)
    requires !Auth.Crashed(s) && g < |s.calls| && s.calls[g].Ready? && !s.sh.authorizing
    requires GrantedBy(grants, rs) && AuthorizeAlone(s.sh, rs).Some?
    ensures RunsTo(grants, s, g, acts, AuthorizeAlone(s.sh, rs).value)
  {
    var leading := Auth.Do(s, Auth.Run(g, Auth.Failed));
    if s.sh.initialized {
      acts := RefreshRuns(grants, leading, g, rs, s.sh);
    } else {
      acts := RequestRuns(grants, leading, g, rs.first, s.sh);
    }
    StepThen(grants, s, g, Auth.Failed, acts, AuthorizeAlone(s.sh, rs).value);
    acts := [Auth.Run(g, Auth.Failed)] + acts;
  }

  /** The server's answers during the two authorize calls a pass may make. */
  datatype Talk = Talk(lazy: Replies, again: Replies)

  /** The guarded fields when the request of a pass is sent; None if the process has panicked before. */
  function AfterLazy(sh: Auth.Shared, t: Talk): Option<End> {
    if Auth.Usable(sh) then Some(End(sh, true)) else AuthorizeAlone(sh, t.lazy)
  }

  /** What a pass sees and leaves if nobody else uses the authenticator: isInitialized and both outcomes of
      authorize are those of the authenticator, which begins with sh and ends with sh'. */
  predicate PassFits(r: Round, sh: Auth.Shared, t: Talk, sh': Auth.Shared) {
    && !sh.authorizing && r.initialized == Auth.Usable(sh)
    && var middle := AfterLazy(sh, t);
    && middle.Some? && (!r.initialized ==> r.lazy.Done? == middle.value.ok)
    && if !AuthTrouble(RequestOutcome(r)) then sh' == middle.value.sh
       else
         var end := AuthorizeAlone(middle.value.sh, t.again);
         end.Some? && r.again.Done? == end.value.ok && sh' == end.value.sh
  }

  /** How many passes the loop makes. */
  function Passes(env: nat -> Round): (n: nat)
    ensures 1 <= n <= MAX_RETRIES
  {
    if !GoesOn(env(0)) then 1 else if !GoesOn(env(1)) then 2 else MAX_RETRIES
  }

  /** One caller, all by itself, from the fields shs(0) on. */
  ghost predicate Solitary(grants: Auth.Token -> bool, env: nat -> Round, shs: nat -> Auth.Shared, talks: nat -> Talk) {
    forall k :: 0 <= k < Passes(env) ==>
      && GrantedBy(grants, talks(k).lazy) && GrantedBy(grants, talks(k).again)
      && PassFits(env(k), shs(k), talks(k), shs(k + 1))
  }

  /** A token that isInitialized takes for none but that can be refreshed. */
  predicate EmptyButRefreshable(t: Auth.Token) {
    t.access == "" && t.refresh != ""
  }

  /** A pass that goes on leaves a token the server has granted. */
  lemma GoingOnStores(grants: Auth.Token -> bool, r: Round, sh: Auth.Shared, t: Talk, sh': Auth.Shared)
    requires PassFits(r, sh, t, sh') && GoesOn(r) && GrantedBy(grants, t.lazy) && GrantedBy(grants, t.again)
    ensures sh'.initialized && sh'.token.Some? && grants(sh'.token.value)
  {
  }

  /** With such a token, unless it is empty but refreshable, the next pass authorizes at most once. */
  lemma NextPassCallsOnce(r: Round, sh: Auth.Shared, t: Talk, sh': Auth.Shared)
    requires PassFits(r, sh, t, sh') && sh.initialized && sh.token.Some? && !EmptyButRefreshable(sh.token.value)
    ensures r.initialized && Authorizations(r) <= 1
  {
  }

  lemma SolitaryAtMostFour(grants: Auth.Token -> bool, env: nat -> Round, shs: nat -> Auth.Shared, talks: nat -> Talk)
    requires Solitary(grants, env, shs, talks) && forall t :: grants(t) ==> !EmptyButRefreshable(t)
    ensures Total(env, Passes(env)) <= 4
  {
    var n := Passes(env);
    forall k | 1 <= k < n ensures Authorizations(env(k)) <= 1 {
      GoingOnStores(grants, env(k - 1), shs(k - 1), talks(k - 1), shs(k));
      NextPassCallsOnce(env(k), shs(k), talks(k), shs(k + 1));
    }
    TotalAtMost(env, n);
  }

  lemma {:induction false} TotalAtMost(env: nat -> Round, n: nat)
    requires 1 <= n && forall k :: 1 <= k < n ==> Authorizations(env(k)) <= 1
    ensures Total(env, n) <= n + 1
  {
    if n > 1 {
      TotalAtMost(env, n - 1);
    } else {
      assert Total(env, 1) == Total(env, 0) + Authorizations(env(0));
    }
  }

  /** Every request is refused and every authorize call gets the token t. */
  function TroubledPass(t: Auth.Token, k: nat): Round {
    Round(k > 0 && t.access != "", Done, Fail(Api(UNAUTHORIZED, false)), Done)
  }

  /** Such a run of one caller makes six authorize calls with an empty token and four with any other. */
  lemma TroubledRun(grants: Auth.Token -> bool, t: Auth.Token)
    requires grants(t) && t.refresh != ""
    ensures exists env, shs, talks ::
              Solitary(grants, env, shs, talks) && Total(env, Passes(env)) == if t.access == "" then 6 else 4
  {
    var env := (k: nat) => TroubledPass(t, k);
    var shs := (k: nat) => if k == 0 then Auth.Initial().sh else Auth.Shared(Some(t), true, false);
    var rs := Replies(Auth.Granted(t), Auth.Failed);
    var talks := (k: nat) => Talk(rs, rs);
    assert Passes(env) == 3;
    assert Solitary(grants, env, shs, talks);
    SixAuthorizations(env);
    assert Total(env, 3) == Authorizations(env(0)) + Authorizations(env(1)) + Authorizations(env(2)) by {
      assert Total(env, 1) == Authorizations(env(0));
      assert Total(env, 2) == Total(env, 1) + Authorizations(env(1));
    }
  }

  /** A caller that has the authenticator to itself makes at most four authorize calls per request, for every server
      behaviour the policy allows, exactly when the policy has no empty but refreshable token. */
  lemma FourIffNoEmptyRefreshable(grants: Auth.Token -> bool)
    ensures (forall env, shs, talks :: Solitary(grants, env, shs, talks) ==> Total(env, Passes(env)) <= 4) <==>
            !exists t :: grants(t) && EmptyButRefreshable(t)
  {
    if t :| grants(t) && EmptyButRefreshable(t) {
      TroubledRun(grants, t);
    } else {
      forall env, shs, talks | Solitary(grants, env, shs, talks) ensures Total(env, Passes(env)) <= 4 {
        SolitaryAtMostFour(grants, env, shs, talks);
      }
    }
  }

  /** Other callers can undo this: a call has returned without error, and before the next pass looks another one has
      taken the lead, so isInitialized is false again. */
  lemma ClaimedBetweenPasses(grants: Auth.Token -> bool, t: Auth.Token)
    requires grants(t)
    ensures exists s :: Auth.Reachable(grants, s) && |s.calls| == 2 && s.calls[0].ReturnedLed? && s.calls[0].ok
                        && !Auth.Usable(s.sh)
  {
    Auth.HeaderMayBeEmptyAfterSuccess(grants, t);
  }
}
