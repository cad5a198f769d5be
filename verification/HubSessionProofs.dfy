/** What holds of sessions and login transactions in every reachable state. */
module HubSessionProofs {
  import opened Common
  import opened HubSessions

  /** `b` replaced `a`, as the audit says. */
  ghost predicate ReplacedBy(store: Store, a: SessionId, b: SessionId) {
    Replaced(a, b) in store.audit
  }

  ghost predicate Links(store: Store, limits: Limits) {
    && (forall a, b :: ReplacedBy(store, a, b) ==>
          && a in store.sessions && b in store.sessions && a != b
          && store.sessions[a].revokedAt.Some?
          && store.sessions[a].identity == store.sessions[b].identity
          && store.sessions[a].expiresAt == store.sessions[b].expiresAt)
    && (forall a, b, c :: ReplacedBy(store, a, b) && ReplacedBy(store, a, c) ==> b == c)
    && (forall a, b, c :: ReplacedBy(store, a, c) && ReplacedBy(store, b, c) ==> a == b)
  }

  /** A session that replaced nothing lives `max` from its creation. */
  ghost predicate FirstLives(store: Store, limits: Limits) {
    forall b :: b in store.sessions && (forall a :: !ReplacedBy(store, a, b)) ==>
      store.sessions[b].expiresAt == store.sessions[b].createdAt + limits.max
  }

  ghost predicate RevokedHoldNothing(store: Store) {
    forall id :: id in store.sessions && store.sessions[id].revokedAt.Some? ==> store.sessions[id].refresh.None?
  }

  /** A token that was handed out and used up. */
  predicate Spent(sys: Sys, tx: TxId) {
    tx in sys.begunAt && tx !in sys.store.txs
  }

  predicate Holds(sys: Sys, r: RequestId, tx: TxId) {
    r in sys.pending && sys.pending[r].Completing? && sys.pending[r].tx == tx
  }

  predicate CameFrom(sys: Sys, id: SessionId, tx: TxId) {
    id in sys.origins && sys.origins[id] == tx
  }

  /** A used-up transaction is in the hands of one request at most, or made one session at most. */
  ghost predicate OncePerTransaction(sys: Sys) {
    && sys.store.txs.Keys <= sys.begunAt.Keys
    && sys.origins.Keys == sys.store.sessions.Keys
    && (forall r, tx :: Holds(sys, r, tx) ==> Spent(sys, tx))
    && (forall id, tx :: CameFrom(sys, id, tx) ==> Spent(sys, tx))
    && (forall r, id, tx :: !(Holds(sys, r, tx) && CameFrom(sys, id, tx)))
    && (forall r, q, tx :: Holds(sys, r, tx) && Holds(sys, q, tx) ==> r == q)
    && (forall x, y, tx :: CameFrom(sys, x, tx) && CameFrom(sys, y, tx) ==> x == y)
  }

  ghost predicate SessionsHold(store: Store, limits: Limits) {
    Links(store, limits) && FirstLives(store, limits) && RevokedHoldNothing(store)
  }

  ghost predicate Inv(sys: Sys, limits: Limits) {
    SessionsHold(sys.store, limits) && OncePerTransaction(sys)
  }

  // -------------------------------------------------------------------------------- preservation

  /** Store steps that add no session and replace none. */
  lemma QuietStore(s: Store, s': Store, limits: Limits)
    requires Links(s, limits) && FirstLives(s, limits)
    requires s'.sessions.Keys == s.sessions.Keys
    requires forall a, b :: ReplacedBy(s', a, b) <==> ReplacedBy(s, a, b)
    requires forall id :: id in s.sessions ==>
      && s'.sessions[id].identity == s.sessions[id].identity
      && s'.sessions[id].expiresAt == s.sessions[id].expiresAt
      && s'.sessions[id].createdAt == s.sessions[id].createdAt
      && (s.sessions[id].revokedAt.Some? ==> s'.sessions[id].revokedAt.Some?)
    ensures Links(s', limits) && FirstLives(s', limits)
  {
  }

  /** The links after one more session, told from what changed. */
  lemma NewLinks(s: Store, s': Store, limits: Limits, id: SessionId, replace: Option<SessionId>)
    requires Links(s, limits) && FirstLives(s, limits)
    requires id !in s.sessions && s'.sessions.Keys == s.sessions.Keys + {id}
    requires forall a: SessionId, b: SessionId :: ReplacedBy(s', a, b) <==>
      (ReplacedBy(s, a, b) || (replace == Some(a) && b == id))
    requires forall x :: x in s.sessions ==>
      && s'.sessions[x].identity == s.sessions[x].identity
      && s'.sessions[x].expiresAt == s.sessions[x].expiresAt
      && s'.sessions[x].createdAt == s.sessions[x].createdAt
      && (s.sessions[x].revokedAt.Some? ==> s'.sessions[x].revokedAt.Some?)
    requires replace.None? ==> s'.sessions[id].expiresAt == s'.sessions[id].createdAt + limits.max
    requires replace.Some? ==>
      && replace.value in s.sessions
      && s.sessions[replace.value].revokedAt.None? && s'.sessions[replace.value].revokedAt.Some?
      && s'.sessions[id].identity == s.sessions[replace.value].identity
      && s'.sessions[id].expiresAt == s.sessions[replace.value].expiresAt
    ensures Links(s', limits) && FirstLives(s', limits)
  {
    if replace.Some? { assert ReplacedBy(s', replace.value, id); }
    forall b | b in s'.sessions && (forall a :: !ReplacedBy(s', a, b))
      ensures s'.sessions[b].expiresAt == s'.sessions[b].createdAt + limits.max
    {
      if b != id {
        forall a ensures !ReplacedBy(s, a, b) { assert !ReplacedBy(s', a, b); }
      }
    }
  }

  lemma NewAudit(s: Store, input: NewInput, now: int)
    requires CreateSession(s, input, now).Some?
    ensures forall a: SessionId, b: SessionId ::
      ReplacedBy(CreateSession(s, input, now).value, a, b) <==>
        (ReplacedBy(s, a, b) || (input.replace == Some(a) && b == input.id))
  {
    var s' := CreateSession(s, input, now).value;
    forall e: Event
      ensures e in s'.audit <==>
        e in s.audit || e == Created(input.id) || (input.replace.Some? && e == Replaced(input.replace.value, input.id))
    {}
  }

  lemma NewSessionStore(s: Store, limits: Limits, input: NewInput, now: int)
    requires SessionsHold(s, limits)
    requires input.id !in s.sessions && input.expiresAt == now + limits.max
    requires CreateSession(s, input, now).Some?
    ensures SessionsHold(CreateSession(s, input, now).value, limits)
  {
    NewAudit(s, input, now);
    NewLinks(s, CreateSession(s, input, now).value, limits, input.id, input.replace);
  }

  /** Steps that move no transaction towards a session. */
  lemma QuietTransactions(sys: Sys, sys': Sys)
    requires OncePerTransaction(sys)
    requires sys'.origins == sys.origins && sys'.store.sessions.Keys == sys.store.sessions.Keys
    requires sys'.begunAt.Keys >= sys.begunAt.Keys && sys'.store.txs.Keys <= sys'.begunAt.Keys
    requires forall tx :: Spent(sys, tx) ==> Spent(sys', tx)
    requires forall r, tx :: Holds(sys', r, tx) ==> Holds(sys, r, tx)
    ensures OncePerTransaction(sys')
  {
    forall id: SessionId, tx: TxId ensures CameFrom(sys', id, tx) <==> CameFrom(sys, id, tx) {}
  }

  lemma ConsumeKeepsOnce(sys: Sys, request: RequestId, tx: TxId)
    requires OncePerTransaction(sys)
    ensures OncePerTransaction(TakeTransaction(sys, request, tx))
  {
    var sys' := TakeTransaction(sys, request, tx);
    forall r: RequestId, t: TxId
      ensures Holds(sys', r, t) ==>
        Holds(sys, r, t) || (r == request && t == tx && tx in sys.store.txs && request !in sys.pending)
    {}
    forall id: SessionId, t: TxId ensures CameFrom(sys', id, t) <==> CameFrom(sys, id, t) {}
    forall t: TxId ensures Spent(sys, t) ==> Spent(sys', t) {}
  }

  lemma CompleteKeepsOnce(sys: Sys, limits: Limits, request: RequestId, identity: Identity, secret: Option<Secret>,
      id: SessionId)
    requires OncePerTransaction(sys) && request in sys.pending && sys.pending[request].Completing?
    ensures OncePerTransaction(FinishLogin(sys, limits, request, identity, secret, id))
  {
    var sys' := FinishLogin(sys, limits, request, identity, secret, id);
    var tx := sys.pending[request].tx;
    assert Holds(sys, request, tx);
    forall r: RequestId, t: TxId ensures Holds(sys', r, t) ==> Holds(sys, r, t) && (sys' == sys || t != tx) {
      assert Holds(sys', r, t) ==> Holds(sys, r, t);
      assert Holds(sys, r, tx) ==> r == request;
    }
    forall x: SessionId, t: TxId
      ensures CameFrom(sys', x, t) ==> CameFrom(sys, x, t) || (sys' != sys && x == id && t == tx)
    {}
    forall t: TxId ensures Spent(sys', t) <==> Spent(sys, t) {}
  }

  lemma BeginKeepsOnce(sys: Sys, limits: Limits, a: Action)
    requires OncePerTransaction(sys) && (a.BeginPlain? || a.BeginReplacement?)
    ensures OncePerTransaction(Step(sys, limits, a))
  {
    QuietTransactions(sys, Step(sys, limits, a));
  }

  /** Begins, takes or uses a transaction. */
  predicate MovesTransactions(a: Action) {
    a.Consume? || a.Complete? || a.BeginPlain? || a.BeginReplacement?
  }

  lemma OthersLeaveTransactions(sys: Sys, limits: Limits, a: Action)
    requires !MovesTransactions(a)
    ensures var sys' := Step(sys, limits, a);
      && sys'.store.txs == sys.store.txs && sys'.begunAt == sys.begunAt && sys'.consumedAt == sys.consumedAt
      && sys'.origins == sys.origins
  {
  }

  lemma OthersKeepSessions(sys: Sys, limits: Limits, a: Action)
    requires !MovesTransactions(a)
    ensures Step(sys, limits, a).store.sessions.Keys == sys.store.sessions.Keys
  {
  }

  lemma OthersHandNoneOut(sys: Sys, limits: Limits, a: Action, r: RequestId)
    requires !MovesTransactions(a)
    requires r in Step(sys, limits, a).pending && Step(sys, limits, a).pending[r].Completing?
    ensures r in sys.pending && Step(sys, limits, a).pending[r] == sys.pending[r]
  {
  }

  lemma OtherKeepsOnce(sys: Sys, limits: Limits, a: Action)
    requires OncePerTransaction(sys) && !MovesTransactions(a)
    ensures OncePerTransaction(Step(sys, limits, a))
  {
    var sys' := Step(sys, limits, a);
    OthersLeaveTransactions(sys, limits, a);
    OthersKeepSessions(sys, limits, a);
    forall r, tx | Holds(sys', r, tx) ensures Holds(sys, r, tx) { OthersHandNoneOut(sys, limits, a, r); }
    QuietTransactions(sys, sys');
  }

  lemma StepKeepsOnce(sys: Sys, limits: Limits, a: Action)
    requires OncePerTransaction(sys)
    ensures OncePerTransaction(Step(sys, limits, a))
  {
    match a
    case Consume(request, tx) => ConsumeKeepsOnce(sys, request, tx);
    case Complete(request, identity, secret, id) =>
      if request in sys.pending && sys.pending[request].Completing? {
        CompleteKeepsOnce(sys, limits, request, identity, secret, id);
      }
    case BeginPlain(_) => BeginKeepsOnce(sys, limits, a);
    case BeginReplacement(_, _) => BeginKeepsOnce(sys, limits, a);
    case _ => OtherKeepsOnce(sys, limits, a);
  }

  lemma CompletedStore(sys: Sys, limits: Limits, request: RequestId, identity: Identity, secret: Option<Secret>,
      id: SessionId)
    requires request in sys.pending && sys.pending[request].Completing?
    ensures var row := sys.pending[request].row;
      var made := CreateSession(sys.store, NewInput(id, identity, secret, row.replace, sys.now + limits.max), sys.now);
      FinishLogin(sys, limits, request, identity, secret, id).store ==
        if id !in sys.store.sessions && SameIdentity(row, identity) && made.Some? then made.value else sys.store
  {
  }

  lemma CompleteKeepsSessions(sys: Sys, limits: Limits, request: RequestId, identity: Identity, secret: Option<Secret>,
      id: SessionId)
    requires SessionsHold(sys.store, limits) && request in sys.pending && sys.pending[request].Completing?
    ensures SessionsHold(FinishLogin(sys, limits, request, identity, secret, id).store, limits)
  {
    var input := NewInput(id, identity, secret, sys.pending[request].row.replace, sys.now + limits.max);
    CompletedStore(sys, limits, request, identity, secret, id);
    if id !in sys.store.sessions && CreateSession(sys.store, input, sys.now).Some? {
      NewSessionStore(sys.store, limits, input, sys.now);
    }
  }

  /** What the store does to sessions other than creating one: seen, revoked, or given a refreshed token. */
  ghost predicate SessionsAsBefore(s: Store, s': Store) {
    s'.sessions == s.sessions && s'.audit == s.audit
  }

  lemma QuietStep(sys: Sys, limits: Limits, a: Action)
    requires !a.Complete?
    ensures var s, s' := sys.store, Step(sys, limits, a).store;
      || SessionsAsBefore(s, s')
      || (exists id :: SessionsAsBefore(Touch(s, id, sys.now), s'))
      || (exists id :: SessionsAsBefore(Revoke(s, id, sys.now), s'))
      || (exists id, secret :: SessionsAsBefore(StoreRefresh(s, id, secret), s'))
  {
    var s, s' := sys.store, Step(sys, limits, a).store;
    match a
    case WriteSeen(request) =>
      if request in sys.pending && sys.pending[request].Touching? {
        assert SessionsAsBefore(Touch(s, sys.pending[request].id, sys.now), s');
      }
    case WriteRefresh(request, rotated) =>
      if request in sys.pending && sys.pending[request].Refreshing? {
        assert SessionsAsBefore(StoreRefresh(s, sys.pending[request].id, rotated), s');
      }
    case Logout(id) => assert SessionsAsBefore(Revoke(s, id, sys.now), s');
    case Consume(request, tx) => assert SessionsAsBefore(s, s');
    case Tick(_) => assert SessionsAsBefore(s, s');
    case Select(_, _, _) => assert SessionsAsBefore(s, s');
    case BeginPlain(_) => assert SessionsAsBefore(s, s');
    case BeginReplacement(_, _) => assert SessionsAsBefore(s, s');
    case Drop(_) => assert SessionsAsBefore(s, s');
  }

  lemma TouchHolds(s: Store, limits: Limits, id: SessionId, now: int)
    requires SessionsHold(s, limits)
    ensures SessionsHold(Touch(s, id, now), limits)
  {
    QuietStore(s, Touch(s, id, now), limits);
  }

  lemma RevokeHolds(s: Store, limits: Limits, id: SessionId, now: int)
    requires SessionsHold(s, limits)
    ensures SessionsHold(Revoke(s, id, now), limits)
  {
    var s' := Revoke(s, id, now);
    forall x: SessionId, y: SessionId ensures ReplacedBy(s', x, y) <==> ReplacedBy(s, x, y) {}
    QuietStore(s, s', limits);
  }

  lemma StoreRefreshHolds(s: Store, limits: Limits, id: SessionId, secret: Secret)
    requires SessionsHold(s, limits)
    ensures SessionsHold(StoreRefresh(s, id, secret), limits)
  {
    QuietStore(s, StoreRefresh(s, id, secret), limits);
  }

  lemma SameSessionsHold(s: Store, s': Store, limits: Limits)
    requires SessionsHold(s, limits) && SessionsAsBefore(s, s')
    ensures SessionsHold(s', limits)
  {
    QuietStore(s, s', limits);
  }

  lemma StepKeepsSessions(sys: Sys, limits: Limits, a: Action)
    requires SessionsHold(sys.store, limits)
    ensures SessionsHold(Step(sys, limits, a).store, limits)
  {
    if a.Complete? {
      if a.request in sys.pending && sys.pending[a.request].Completing? {
        CompleteKeepsSessions(sys, limits, a.request, a.identity, a.secret, a.id);
      }
    } else {
      var s, s' := sys.store, Step(sys, limits, a).store;
      QuietStep(sys, limits, a);
      if SessionsAsBefore(s, s') {
        SameSessionsHold(s, s', limits);
      } else if id :| SessionsAsBefore(Touch(s, id, sys.now), s') {
        TouchHolds(s, limits, id, sys.now);
        SameSessionsHold(Touch(s, id, sys.now), s', limits);
      } else if id :| SessionsAsBefore(Revoke(s, id, sys.now), s') {
        RevokeHolds(s, limits, id, sys.now);
        SameSessionsHold(Revoke(s, id, sys.now), s', limits);
      } else {
        var id, secret :| SessionsAsBefore(StoreRefresh(s, id, secret), s');
        StoreRefreshHolds(s, limits, id, secret);
        SameSessionsHold(StoreRefresh(s, id, secret), s', limits);
      }
    }
  }

  lemma StepKeepsInv(sys: Sys, limits: Limits, a: Action)
    requires Inv(sys, limits)
    ensures Inv(Step(sys, limits, a), limits)
  {
    StepKeepsSessions(sys, limits, a);
    StepKeepsOnce(sys, limits, a);
  }

  lemma {:induction false} RunKeepsInv(sys: Sys, limits: Limits, actions: seq<Action>)
    requires Inv(sys, limits)
    ensures Inv(Run(sys, limits, actions), limits)
    decreases |actions|
  {
    if actions != [] {
      StepKeepsInv(sys, limits, actions[0]);
      RunKeepsInv(Step(sys, limits, actions[0]), limits, actions[1..]);
    }
  }

  // --------------------------------------------------------------------------- replacement chains

  /** Each member was replaced by the next. */
  ghost predicate Chain(store: Store, chain: seq<SessionId>) {
    |chain| > 0 && (forall i :: 0 <= i < |chain| ==> chain[i] in store.sessions)
    && (forall i :: 0 <= i < |chain| - 1 ==> ReplacedBy(store, chain[i], chain[i + 1]))
  }

  /** A replacement chain is one identity with one expiry, and only its last member can still be in use. */
  lemma {:induction false} ChainShares(store: Store, limits: Limits, chain: seq<SessionId>)
    requires Links(store, limits) && Chain(store, chain)
    ensures forall i :: 0 <= i < |chain| ==>
      && store.sessions[chain[i]].identity == store.sessions[chain[0]].identity
      && store.sessions[chain[i]].expiresAt == store.sessions[chain[0]].expiresAt
    ensures forall i :: 0 <= i < |chain| - 1 ==> store.sessions[chain[i]].revokedAt.Some?
    decreases |chain|
  {
    if |chain| > 1 {
      var shorter := chain[..|chain| - 1];
      assert Chain(store, shorter);
      ChainShares(store, limits, shorter);
      assert ReplacedBy(store, chain[|chain| - 2], chain[|chain| - 1]);
      forall i | 0 <= i < |chain|
        ensures store.sessions[chain[i]].identity == store.sessions[chain[0]].identity
        ensures store.sessions[chain[i]].expiresAt == store.sessions[chain[0]].expiresAt
      {
        if i < |chain| - 1 { assert shorter[i] == chain[i]; }
        assert shorter[|chain| - 2] == chain[|chain| - 2];
      }
      forall i | 0 <= i < |chain| - 1 ensures store.sessions[chain[i]].revokedAt.Some? {
        assert ReplacedBy(store, chain[i], chain[i + 1]);
      }
    }
  }

  /** Chains never fork: of two chains from one session, one is the beginning of the other. */
  lemma {:induction false} ChainsNeverFork(store: Store, limits: Limits, p: seq<SessionId>, q: seq<SessionId>)
    requires Links(store, limits) && Chain(store, p) && Chain(store, q) && p[0] == q[0] && |p| <= |q|
    ensures p == q[..|p|]
    decreases |p|
  {
    if |p| > 1 {
      var n := |p| - 1;
      ChainsNeverFork(store, limits, p[..n], q);
      assert p[..n][n - 1] == p[n - 1] && q[..n][n - 1] == q[n - 1];
      assert ReplacedBy(store, p[n - 1], p[n]) && ReplacedBy(store, q[n - 1], q[n]);
    }
  }

  lemma LastWasMade(store: Store, chain: seq<SessionId>)
    requires Chain(store, chain) && |chain| > 1
    ensures ReplacedBy(store, chain[|chain| - 2], chain[|chain| - 1])
  {
    assert ReplacedBy(store, chain[|chain| - 2], chain[|chain| - 2 + 1]);
  }

  /** Two chains that end in one session and both begin at a fresh login are the same chain. */
  lemma {:induction false} ChainsNeverJoin(store: Store, limits: Limits, p: seq<SessionId>, q: seq<SessionId>)
    requires Links(store, limits) && Chain(store, p) && Chain(store, q) && p[|p| - 1] == q[|q| - 1]
    requires (forall a :: !ReplacedBy(store, a, p[0])) && (forall a :: !ReplacedBy(store, a, q[0]))
    ensures p == q
    decreases |p|
  {
    var m, n := |p| - 1, |q| - 1;
    if m == 0 {
      if n > 0 { LastWasMade(store, q); }
    } else {
      LastWasMade(store, p);
      assert ReplacedBy(store, p[m - 1], p[m]);
      assert n > 0;
      assert ReplacedBy(store, q[n - 1], q[n]);
      assert p[m - 1] == q[n - 1];
      ChainsNeverJoin(store, limits, p[..m], q[..n]);
      assert p == p[..m] + [p[m]] && q == q[..n] + [q[n]];
    }
  }

  /**
   * In every run from an empty store: a chain that began with a fresh login expires, at every member,
   * exactly `max` after that login, however often it was renewed, and at most one member is not revoked.
   */
  lemma ReplacementNeverExtends(now: int, limits: Limits, actions: seq<Action>, chain: seq<SessionId>)
    requires Chain(Run(Start(now), limits, actions).store, chain)
    requires forall a :: !ReplacedBy(Run(Start(now), limits, actions).store, a, chain[0])
    ensures var sessions := Run(Start(now), limits, actions).store.sessions;
      && (forall i :: 0 <= i < |chain| ==>
            && sessions[chain[i]].expiresAt == sessions[chain[0]].createdAt + limits.max
            && sessions[chain[i]].identity == sessions[chain[0]].identity)
      && (forall i, j :: 0 <= i < j < |chain| ==> sessions[chain[i]].revokedAt.Some? && chain[i] != chain[j])
  {
    var sys := Run(Start(now), limits, actions);
    RunKeepsInv(Start(now), limits, actions);
    ChainShares(sys.store, limits, chain);
    forall i, j | 0 <= i < j < |chain| ensures sys.store.sessions[chain[i]].revokedAt.Some? && chain[i] != chain[j] {
      ChainHasNoRepeat(sys.store, limits, chain, i, j);
    }
  }

  lemma {:induction false} ChainHasNoRepeat(store: Store, limits: Limits, chain: seq<SessionId>, i: nat, j: nat)
    requires Links(store, limits) && Chain(store, chain) && i < j < |chain|
    requires forall a :: !ReplacedBy(store, a, chain[0])
    ensures chain[i] != chain[j]
    decreases i
  {
    assert ReplacedBy(store, chain[j - 1], chain[j]);
    if i > 0 {
      ChainHasNoRepeat(store, limits, chain, i - 1, j - 1);
      assert ReplacedBy(store, chain[i - 1], chain[i]);
    }
  }

  /** Two sessions never come from one login transaction. */
  lemma TransactionsAreOneShot(now: int, limits: Limits, actions: seq<Action>, x: SessionId, y: SessionId)
    requires var sys := Run(Start(now), limits, actions);
      x in sys.store.sessions && y in sys.store.sessions && x != y
    ensures var sys := Run(Start(now), limits, actions);
      x in sys.origins && y in sys.origins && sys.origins[x] != sys.origins[y]
  {
    RunKeepsInv(Start(now), limits, actions);
    OneSessionEach(Run(Start(now), limits, actions), x, y);
  }

  lemma OneSessionEach(sys: Sys, x: SessionId, y: SessionId)
    requires OncePerTransaction(sys) && x in sys.store.sessions && y in sys.store.sessions && x != y
    ensures x in sys.origins && y in sys.origins && sys.origins[x] != sys.origins[y]
  {
    assert CameFrom(sys, x, sys.origins[x]) && CameFrom(sys, y, sys.origins[y]);
  }

  // ----------------------------------------------------------------------- revoked, expired, idle

  /** In every interleaving of reading, refreshing and writing, a revoked session holds no refresh token. */
  lemma RevokedHoldsNoToken(now: int, limits: Limits, actions: seq<Action>, id: SessionId)
    requires var s := Run(Start(now), limits, actions).store.sessions;
      id in s && s[id].revokedAt.Some?
    ensures Run(Start(now), limits, actions).store.sessions[id].refresh.None?
  {
    RunKeepsInv(Start(now), limits, actions);
  }

  ghost predicate TouchWaits(sys: Sys, id: SessionId) {
    exists r :: r in sys.pending && sys.pending[r].Touching? && sys.pending[r].id == id
  }

  /** Revoked, past its absolute time, or idle too long with no lookup half way. */
  ghost predicate Dead(sys: Sys, limits: Limits, id: SessionId) {
    id in sys.store.sessions
    && var s := sys.store.sessions[id];
      || s.revokedAt.Some?
      || s.expiresAt <= sys.now
      || (s.lastSeen <= sys.now - limits.idle && !TouchWaits(sys, id))
  }

  lemma OtherStepOnSession(sys: Sys, limits: Limits, a: Action, id: SessionId)
    requires !a.Complete? && id in sys.store.sessions
    ensures id in Step(sys, limits, a).store.sessions
    ensures var s, s' := sys.store.sessions[id], Step(sys, limits, a).store.sessions[id];
      && s'.expiresAt == s.expiresAt && s'.createdAt == s.createdAt && (s.revokedAt.Some? ==> s'.revokedAt.Some?)
      && (!TouchWaits(sys, id) ==> s'.lastSeen == s.lastSeen)
  {
  }

  /** Only the second statement of a lookup, or the end of the session, changes when it was seen. */
  lemma StepOnSession(sys: Sys, limits: Limits, a: Action, id: SessionId)
    requires id in sys.store.sessions
    ensures id in Step(sys, limits, a).store.sessions && Step(sys, limits, a).now >= sys.now
    ensures var s, s' := sys.store.sessions[id], Step(sys, limits, a).store.sessions[id];
      && s'.expiresAt == s.expiresAt && s'.createdAt == s.createdAt && (s.revokedAt.Some? ==> s'.revokedAt.Some?)
      && (!TouchWaits(sys, id) ==> s'.lastSeen == s.lastSeen)
  {
    if a.Complete? {
      if a.request in sys.pending && sys.pending[a.request].Completing? {
        CompletedStore(sys, limits, a.request, a.identity, a.secret, a.id);
      }
    } else {
      OtherStepOnSession(sys, limits, a, id);
    }
  }

  lemma StepOnLookups(sys: Sys, limits: Limits, a: Action, id: SessionId)
    requires TouchWaits(Step(sys, limits, a), id)
    ensures TouchWaits(sys, id) || Accepts(sys.store, id, sys.now, limits.idle)
  {
    var sys' := Step(sys, limits, a);
    var r :| r in sys'.pending && sys'.pending[r].Touching? && sys'.pending[r].id == id;
    assert (r in sys.pending && sys.pending[r] == sys'.pending[r]) || a.Select?;
  }

  lemma StepKeepsDead(sys: Sys, limits: Limits, a: Action, id: SessionId)
    requires Sensible(limits) && Dead(sys, limits, id)
    ensures Dead(Step(sys, limits, a), limits, id)
  {
    StepOnSession(sys, limits, a, id);
    if TouchWaits(Step(sys, limits, a), id) { StepOnLookups(sys, limits, a, id); }
  }

  ghost predicate RefusedForever(sys: Sys, limits: Limits, id: SessionId) {
    forall actions: seq<Action> ::
      !Accepts(Run(sys, limits, actions).store, id, Run(sys, limits, actions).now, limits.idle)
  }

  lemma {:induction false} DeadIsRefused(sys: Sys, limits: Limits, id: SessionId, actions: seq<Action>)
    requires Sensible(limits) && Dead(sys, limits, id)
    ensures !Accepts(Run(sys, limits, actions).store, id, Run(sys, limits, actions).now, limits.idle)
    decreases |actions|
  {
    if actions != [] {
      StepKeepsDead(sys, limits, actions[0], id);
      DeadIsRefused(Step(sys, limits, actions[0]), limits, id, actions[1..]);
    }
  }

  /**
   * A session is refused forever exactly when it is revoked, past its absolute time, or idle too long
   * with no lookup half way: the second statement of a lookup revives an idle session, because it
   * writes the time it was seen without looking at it again.
   */
  lemma RefusedForeverIff(sys: Sys, limits: Limits, id: SessionId)
    requires Sensible(limits) && id in sys.store.sessions
    ensures RefusedForever(sys, limits, id) <==> Dead(sys, limits, id)
  {
    if Dead(sys, limits, id) {
      forall actions: seq<Action>
        ensures !Accepts(Run(sys, limits, actions).store, id, Run(sys, limits, actions).now, limits.idle)
      {
        DeadIsRefused(sys, limits, id, actions);
      }
    } else if Accepts(sys.store, id, sys.now, limits.idle) {
      assert Run(sys, limits, []) == sys;
    } else {
      var r :| r in sys.pending && sys.pending[r].Touching? && sys.pending[r].id == id;
      var actions := [WriteSeen(r)];
      assert Run(sys, limits, actions) == Run(Step(sys, limits, WriteSeen(r)), limits, []);
      assert Accepts(Run(sys, limits, actions).store, id, Run(sys, limits, actions).now, limits.idle);
    }
  }

  /** While no lookup is half way, a session refused once is refused forever: idle-expired ones included. */
  lemma RefusedOnceIsRefusedForever(sys: Sys, limits: Limits, id: SessionId)
    requires Sensible(limits) && id in sys.store.sessions && !TouchWaits(sys, id)
    ensures RefusedForever(sys, limits, id) <==> !Accepts(sys.store, id, sys.now, limits.idle)
  {
    RefusedForeverIff(sys, limits, id);
  }

  /** A login that replaces a session goes through while that is still active and the identity is exactly its own. */
  lemma ReplacementSucceedsIff(sys: Sys, limits: Limits, request: RequestId, identity: Identity,
      secret: Option<Secret>, id: SessionId)
    requires request in sys.pending && sys.pending[request].Completing? && id !in sys.store.sessions
    requires sys.pending[request].row.replace.Some?
    ensures var was, sys' := sys.pending[request].row.replace.value,
      Step(sys, limits, Complete(request, identity, secret, id));
      && (id in sys'.store.sessions <==>
            SameIdentity(sys.pending[request].row, identity) && Replaceable(sys.store, was, identity, sys.now))
      && (id in sys'.store.sessions ==>
            && sys'.store.sessions[id].expiresAt == sys.store.sessions[was].expiresAt
            && sys'.store.sessions[was].revokedAt == Some(sys.now) && sys'.store.sessions[was].refresh == None
            && ReplacedBy(sys'.store, was, id))
      && (id !in sys'.store.sessions ==> sys'.store == sys.store)
  {
  }

  // ------------------------------------------------------------------- runs that show both failures

  lemma RunFirst(sys: Sys, limits: Limits, a: Action, rest: seq<Action>)
    ensures Run(sys, limits, [a] + rest) == Run(Step(sys, limits, a), limits, rest)
  {
    assert ([a] + rest)[1..] == rest;
  }

  /** A login from nothing: session 0 of `who`, seen at 0. */
  function LoginRun(who: Identity): seq<Action> {
    [BeginPlain(0), Consume(0, 0), Complete(0, who, None, 0)]
  }

  function LoggedIn(limits: Limits, who: Identity): Sys {
    var session := Session(who, None, 0, 0, limits.max, None);
    Sys(Store(map[], map[0 := session], [Created(0)]), 0, map[], map[0 := 0], map[0 := 0], map[0 := 0])
  }

  lemma LoginRunIs(limits: Limits, who: Identity, rest: seq<Action>)
    requires limits.txTtl > 0
    ensures Run(Start(0), limits, LoginRun(who) + rest) == Run(LoggedIn(limits, who), limits, rest)
  {
    var complete := Complete(0, who, None, 0);
    var s1 := Step(Start(0), limits, BeginPlain(0));
    var s2 := Step(s1, limits, Consume(0, 0));
    var s3 := Step(s2, limits, complete);
    RunFirst(Start(0), limits, BeginPlain(0), [Consume(0, 0), complete] + rest);
    RunFirst(s1, limits, Consume(0, 0), [complete] + rest);
    RunFirst(s2, limits, complete, rest);
    assert LoginRun(who) + rest == [BeginPlain(0)] + ([Consume(0, 0), complete] + rest);
    assert [Consume(0, 0), complete] + rest == [Consume(0, 0)] + ([complete] + rest);
    assert s2.pending == map[0 := Completing(0, Tx(None, None, limits.txTtl))] && s2.store.txs == map[];
    assert s3 == LoggedIn(limits, who);
  }

  /**
   * A session can go idle, be refused, and then be accepted again: a lookup reads it in time, the idle time
   * passes, and the lookup's second statement writes that it was seen.
   */
  lemma IdleSessionIsRevived(limits: Limits, who: Identity)
    requires 0 < limits.idle < limits.max && limits.txTtl > 0
    ensures var sys := Run(Start(0), limits, LoginRun(who) + [Select(1, 0, View), Tick(limits.idle)]);
      var end := Step(sys, limits, WriteSeen(1));
      !Accepts(sys.store, 0, sys.now, limits.idle) && Accepts(end.store, 0, end.now, limits.idle)
  {
    var start := LoggedIn(limits, who);
    LoginRunIs(limits, who, [Select(1, 0, View), Tick(limits.idle)]);
    var read := Step(start, limits, Select(1, 0, View));
    RunFirst(start, limits, Select(1, 0, View), [Tick(limits.idle)]);
    RunFirst(read, limits, Tick(limits.idle), []);
    assert [Tick(limits.idle)] + [] == [Tick(limits.idle)];
    assert [Select(1, 0, View)] + [Tick(limits.idle)] == [Select(1, 0, View), Tick(limits.idle)];
    assert read.pending == map[1 := Touching(0, View, start.store.sessions[0])];
  }

  /** Begins to replace session 0 and takes the transaction back from the identity provider. */
  function ReplaceRun(): seq<Action> {
    [Select(1, 0, BeginReplacing), WriteSeen(1), BeginReplacement(1, 1), Consume(1, 1)]
  }

  lemma ReplaceRunIs(limits: Limits, who: Identity)
    requires limits.idle > 0 && limits.max > 0 && limits.txTtl > 0
    ensures var sys := Run(Start(0), limits, LoginRun(who) + ReplaceRun());
      && sys.store.sessions == LoggedIn(limits, who).store.sessions && sys.now == 0
      && sys.pending == map[1 := Completing(1, Tx(Some(0), Some(who), limits.txTtl))]
  {
    LoginRunIs(limits, who, ReplaceRun());
    var s0 := LoggedIn(limits, who);
    var s1 := Step(s0, limits, Select(1, 0, BeginReplacing));
    var s2 := Step(s1, limits, WriteSeen(1));
    var s3 := Step(s2, limits, BeginReplacement(1, 1));
    var s4 := Step(s3, limits, Consume(1, 1));
    assert ReplaceRun() == [Select(1, 0, BeginReplacing)] + [WriteSeen(1), BeginReplacement(1, 1), Consume(1, 1)];
    RunFirst(s0, limits, Select(1, 0, BeginReplacing), [WriteSeen(1), BeginReplacement(1, 1), Consume(1, 1)]);
    assert [WriteSeen(1), BeginReplacement(1, 1), Consume(1, 1)] ==
      [WriteSeen(1)] + [BeginReplacement(1, 1), Consume(1, 1)];
    RunFirst(s1, limits, WriteSeen(1), [BeginReplacement(1, 1), Consume(1, 1)]);
    assert [BeginReplacement(1, 1), Consume(1, 1)] == [BeginReplacement(1, 1)] + [Consume(1, 1)];
    RunFirst(s2, limits, BeginReplacement(1, 1), [Consume(1, 1)]);
    assert [Consume(1, 1)] == [Consume(1, 1)] + [];
    RunFirst(s3, limits, Consume(1, 1), []);
    assert s1.pending == map[1 := Touching(0, BeginReplacing, s0.store.sessions[0])];
    assert s2.store.sessions == s0.store.sessions && s2.pending == map[1 := Beginning(0, who)];
    assert s3.store.txs == map[1 := Tx(Some(0), Some(who), limits.txTtl)] && s3.pending == map[];
    assert s4.pending == map[1 := Completing(1, Tx(Some(0), Some(who), limits.txTtl))];
  }

  /**
   * The same account under its issuer written with one more slash: the service takes it for the same
   * identity, the store does not, and the login ends with nothing changed.
   */
  lemma TrailingSlashIsRefusedByTheStore(limits: Limits, who: Identity)
    requires limits.idle > 0 && limits.max > 0 && limits.txTtl > 0
    ensures var sys := Run(Start(0), limits, LoginRun(who) + ReplaceRun());
      var slashed := Identity(who.issuer + "/", who.subject);
      && 1 in sys.pending && sys.pending[1].Completing? && SameIdentity(sys.pending[1].row, slashed)
      && !Replaceable(sys.store, 0, slashed, sys.now) && Replaceable(sys.store, 0, who, sys.now)
      && Step(sys, limits, Complete(1, slashed, None, 1)).store == sys.store
  {
    ReplaceRunIs(limits, who);
    var slashed := who.issuer + "/";
    assert slashed[..|slashed| - 1] == who.issuer;
    assert NormalizeIssuer(slashed) == NormalizeIssuer(who.issuer);
  }
}
