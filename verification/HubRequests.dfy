/**
 * What every step of a login, a lookup, a refresh and a logout does to the rows, told from the rows
 * it finds, and from it how long a login transaction is good for.
 */
module HubRequests {
  import opened Common
  import opened HubSessions
  import opened HubSessionProofs

  // ------------------------------------------------------------------------------ login transactions

  lemma BeginPlainDoes(sys: Sys, limits: Limits, tx: TxId)
    requires tx !in sys.begunAt
    ensures var sys' := Step(sys, limits, BeginPlain(tx));
      && sys'.store == Store(
           sys.store.txs[tx := Tx(None, None, sys.now + limits.txTtl)], sys.store.sessions, sys.store.audit)
      && sys'.begunAt == sys.begunAt[tx := sys.now] && sys'.consumedAt == sys.consumedAt
      && sys'.pending == sys.pending && sys'.origins == sys.origins && sys'.now == sys.now
  {
  }

  /** The transaction is to replace the session its request looked up, for the identity it read there. */
  lemma BeginReplacementDoes(sys: Sys, limits: Limits, request: RequestId, tx: TxId)
    requires tx !in sys.begunAt && request in sys.pending && sys.pending[request].Beginning?
    ensures var sys', Beginning(was, identity) :=
        Step(sys, limits, BeginReplacement(request, tx)), sys.pending[request];
      && sys'.store == Store(sys.store.txs[tx := Tx(Some(was), Some(identity), sys.now + limits.txTtl)],
           sys.store.sessions, sys.store.audit)
      && sys'.begunAt == sys.begunAt[tx := sys.now] && sys'.consumedAt == sys.consumedAt
      && sys'.pending == sys.pending - {request} && sys'.origins == sys.origins && sys'.now == sys.now
  {
  }

  /** Coming back with a token: the row is gone either way, and the login goes on exactly if it has time left. */
  lemma ConsumeDoes(sys: Sys, limits: Limits, request: RequestId, tx: TxId)
    requires request !in sys.pending
    ensures var sys' := Step(sys, limits, Consume(request, tx));
      && tx !in sys'.store.txs && (forall t :: t in sys'.store.txs <==> t in sys.store.txs && t != tx)
      && (forall t :: t in sys'.store.txs ==> sys'.store.txs[t] == sys.store.txs[t])
      && sys'.store.sessions == sys.store.sessions && sys'.store.audit == sys.store.audit
      && (request in sys'.pending <==> tx in sys.store.txs && sys.now < sys.store.txs[tx].expiresAt)
      && (request in sys'.pending ==> sys'.pending[request] == Completing(tx, sys.store.txs[tx]))
      && sys'.pending - {request} == sys.pending
      && sys'.consumedAt == (if tx in sys.store.txs then sys.consumedAt[tx := sys.now] else sys.consumedAt)
      && sys'.begunAt == sys.begunAt && sys'.origins == sys.origins && sys'.now == sys.now
  {
  }

  // ---------------------------------------------------------------------------------------- login

  function WithSlashes(stem: string, slashes: nat): string {
    stem + seq(slashes, _ => '/')
  }

  /** The issuer less every slash at its end. */
  lemma {:induction false} NormalizedIs(issuer: string)
    ensures exists slashes: nat :: issuer == WithSlashes(NormalizeIssuer(issuer), slashes)
    ensures NormalizeIssuer(issuer) == "" || NormalizeIssuer(issuer)[|NormalizeIssuer(issuer)| - 1] != '/'
    decreases |issuer|
  {
    if issuer != "" && issuer[|issuer| - 1] == '/' {
      var shorter := issuer[..|issuer| - 1];
      NormalizedIs(shorter);
      var slashes: nat :| shorter == WithSlashes(NormalizeIssuer(shorter), slashes);
      assert issuer == WithSlashes(NormalizeIssuer(issuer), slashes + 1);
    } else {
      assert issuer == WithSlashes(NormalizeIssuer(issuer), 0);
    }
  }

  /** Two issuers that differ in slashes at the end at most. */
  ghost predicate SameButSlashes(a: string, b: string) {
    exists stem: string, m: nat, n: nat :: a == WithSlashes(stem, m) && b == WithSlashes(stem, n)
  }

  lemma {:induction false} StemDecides(stem: string, slashes: nat)
    ensures NormalizeIssuer(WithSlashes(stem, slashes)) == NormalizeIssuer(stem)
    decreases slashes
  {
    var issuer := WithSlashes(stem, slashes);
    if slashes == 0 {
      assert issuer == stem;
    } else {
      assert issuer[..|issuer| - 1] == WithSlashes(stem, slashes - 1);
      StemDecides(stem, slashes - 1);
    }
  }

  lemma NormalizedEqualIff(a: string, b: string)
    ensures NormalizeIssuer(a) == NormalizeIssuer(b) <==> SameButSlashes(a, b)
  {
    if NormalizeIssuer(a) == NormalizeIssuer(b) {
      NormalizedIs(a);
      NormalizedIs(b);
    }
    if stem: string, m: nat, n: nat :| a == WithSlashes(stem, m) && b == WithSlashes(stem, n) {
      StemDecides(stem, m);
      StemDecides(stem, n);
    }
  }

  /** The service lets a login through that has no expectation, or meets it up to slashes. */
  ghost predicate ExpectationMet(row: Tx, identity: Identity) {
    match row.expected
    case None => true
    case Some(expected) =>
      SameButSlashes(identity.issuer, expected.issuer) && identity.subject == expected.subject
  }

  lemma ExpectationIs(row: Tx, identity: Identity)
    ensures SameIdentity(row, identity) <==> ExpectationMet(row, identity)
  {
    if row.expected.Some? { NormalizedEqualIff(identity.issuer, row.expected.value.issuer); }
  }

  /** A first login makes a session with the token it brought, or is turned away and changes no row. */
  lemma FirstLoginDoes(sys: Sys, limits: Limits, request: RequestId, identity: Identity, secret: Option<Secret>,
      id: SessionId)
    requires request in sys.pending && sys.pending[request].Completing? && id !in sys.store.sessions
    requires sys.pending[request].row.replace.None?
    ensures var sys', store := Step(sys, limits, Complete(request, identity, secret, id)), sys.store;
      && sys'.pending == sys.pending - {request} && sys'.now == sys.now
      && sys'.begunAt == sys.begunAt && sys'.consumedAt == sys.consumedAt
      && if ExpectationMet(sys.pending[request].row, identity)
         then
           && sys'.store == Store(store.txs,
                store.sessions[id := Session(identity, secret, sys.now, sys.now, sys.now + limits.max, None)],
                store.audit + [Created(id)])
           && sys'.origins == sys.origins[id := sys.pending[request].tx]
         else sys'.store == store && sys'.origins == sys.origins
  {
    ExpectationIs(sys.pending[request].row, identity);
  }

  /** The session a login is to replace is there, neither revoked nor expired, and of this very identity. */
  predicate StillTheirs(store: Store, was: SessionId, identity: Identity, now: int) {
    was in store.sessions && store.sessions[was].revokedAt == None && now < store.sessions[was].expiresAt
    && store.sessions[was].identity == identity
  }

  /** A replacing login revokes the old session, takes its token away, and gives the new one its end. */
  lemma ReplacingLoginDoes(sys: Sys, limits: Limits, request: RequestId, identity: Identity, secret: Option<Secret>,
      id: SessionId)
    requires request in sys.pending && sys.pending[request].Completing? && id !in sys.store.sessions
    requires sys.pending[request].row.replace.Some?
    ensures var sys', store, was := Step(sys, limits, Complete(request, identity, secret, id)), sys.store,
        sys.pending[request].row.replace.value;
      && sys'.pending == sys.pending - {request} && sys'.now == sys.now
      && sys'.begunAt == sys.begunAt && sys'.consumedAt == sys.consumedAt
      && if ExpectationMet(sys.pending[request].row, identity) && StillTheirs(store, was, identity, sys.now)
         then
           && sys'.store == Store(store.txs,
                store.sessions[was := store.sessions[was].(revokedAt := Some(sys.now), refresh := None)]
                  [id := Session(identity, secret, sys.now, sys.now, store.sessions[was].expiresAt, None)],
                store.audit + [Created(id), Replaced(was, id)])
           && sys'.origins == sys.origins[id := sys.pending[request].tx]
         else sys'.store == store && sys'.origins == sys.origins
  {
    ExpectationIs(sys.pending[request].row, identity);
  }

  // --------------------------------------------------------------------- lookups, refresh, logout

  /** Nothing but one session row, and that in these columns. */
  predicate OnlySession(sys: Sys, sys': Sys, id: SessionId, row: Session) {
    && sys'.store.sessions == (if id in sys.store.sessions then sys.store.sessions[id := row] else sys.store.sessions)
    && sys'.store.txs == sys.store.txs && sys'.now == sys.now && sys'.begunAt == sys.begunAt
    && sys'.consumedAt == sys.consumedAt && sys'.origins == sys.origins
  }

  /** The first statement of a lookup finds a session that is neither revoked, nor expired, nor idle too long. */
  lemma LookupReads(sys: Sys, limits: Limits, request: RequestId, id: SessionId, purpose: Purpose)
    requires request !in sys.pending
    ensures var sys' := Step(sys, limits, Select(request, id, purpose));
      && sys'.store == sys.store && sys'.now == sys.now
      && sys'.pending ==
           if id in sys.store.sessions && sys.store.sessions[id].revokedAt == None
             && sys.now < sys.store.sessions[id].expiresAt && sys.now - sys.store.sessions[id].lastSeen < limits.idle
           then sys.pending[request := Touching(id, purpose, sys.store.sessions[id])]
           else sys.pending
  {
  }

  /** The second notes the time, whatever the session is by then, and the request goes on with what it read. */
  lemma LookupNotes(sys: Sys, limits: Limits, request: RequestId)
    requires request in sys.pending && sys.pending[request].Touching?
    requires sys.pending[request].id in sys.store.sessions
    ensures var sys', Touching(id, purpose, read) := Step(sys, limits, WriteSeen(request)), sys.pending[request];
      && OnlySession(sys, sys', id, sys.store.sessions[id].(lastSeen := sys.now))
      && sys'.store.audit == sys.store.audit
      && sys'.pending == (
           match purpose
           case View => sys.pending - {request}
           case BeginReplacing => sys.pending[request := Beginning(id, read.identity)]
           case AccountAccess =>
             if read.refresh == None then sys.pending - {request} else sys.pending[request := Refreshing(id)])
  {
  }

  /** A rotated token reaches the session it was rotated for, unless that was revoked in the meantime. */
  lemma RefreshDoes(sys: Sys, limits: Limits, request: RequestId, rotated: Secret)
    requires request in sys.pending && sys.pending[request].Refreshing?
    requires sys.pending[request].id in sys.store.sessions
    ensures var sys', id := Step(sys, limits, WriteRefresh(request, rotated)), sys.pending[request].id;
      && OnlySession(sys, sys', id, if sys.store.sessions[id].revokedAt == None
           then sys.store.sessions[id].(refresh := Some(rotated)) else sys.store.sessions[id])
      && sys'.store.audit == sys.store.audit && sys'.pending == sys.pending - {request}
  {
  }

  /** The first logout ends the session, takes the token away and is recorded; a second changes nothing. */
  lemma LogoutDoes(sys: Sys, limits: Limits, id: SessionId)
    requires id in sys.store.sessions
    ensures var sys', first := Step(sys, limits, Logout(id)), sys.store.sessions[id].revokedAt == None;
      && OnlySession(sys, sys', id, if first
           then sys.store.sessions[id].(revokedAt := Some(sys.now), refresh := None) else sys.store.sessions[id])
      && sys'.store.audit == (if first then sys.store.audit + [LoggedOut(id)] else sys.store.audit)
      && sys'.pending == sys.pending
  {
  }

  // -------------------------------------------------------------- how long a transaction is good for

  /** Open transactions expire the transaction time after they were begun; taken ones were taken before. */
  ghost predicate OpenOnTime(sys: Sys, limits: Limits) {
    forall tx :: tx in sys.store.txs ==>
      && tx in sys.begunAt && sys.begunAt[tx] <= sys.now
      && sys.store.txs[tx].expiresAt == sys.begunAt[tx] + limits.txTtl
  }

  predicate TakenOnTime(sys: Sys, limits: Limits, tx: TxId) {
    && tx in sys.begunAt && tx in sys.consumedAt && tx !in sys.store.txs
    && sys.begunAt[tx] <= sys.consumedAt[tx] < sys.begunAt[tx] + limits.txTtl
    && sys.consumedAt[tx] <= sys.now
  }

  ghost predicate PendingOnTime(sys: Sys, limits: Limits) {
    forall r :: r in sys.pending && sys.pending[r].Completing? ==> TakenOnTime(sys, limits, sys.pending[r].tx)
  }

  ghost predicate SessionsOnTime(sys: Sys, limits: Limits) {
    forall id :: id in sys.store.sessions ==>
      && id in sys.origins && TakenOnTime(sys, limits, sys.origins[id])
      && sys.consumedAt[sys.origins[id]] <= sys.store.sessions[id].createdAt <= sys.now
  }

  ghost predicate OnTime(sys: Sys, limits: Limits) {
    OpenOnTime(sys, limits) && PendingOnTime(sys, limits) && SessionsOnTime(sys, limits)
  }

  /** Steps that neither begin nor take nor use a transaction. */
  lemma OtherStepsKeepTime(sys: Sys, sys': Sys, limits: Limits)
    requires OnTime(sys, limits)
    requires sys'.store.txs == sys.store.txs && sys'.begunAt == sys.begunAt && sys'.consumedAt == sys.consumedAt
    requires sys'.origins == sys.origins && sys'.now >= sys.now
    requires forall r :: r in sys'.pending && sys'.pending[r].Completing? ==>
      r in sys.pending && sys'.pending[r] == sys.pending[r]
    requires sys'.store.sessions.Keys == sys.store.sessions.Keys
    requires forall id :: id in sys.store.sessions ==>
      sys'.store.sessions[id].createdAt == sys.store.sessions[id].createdAt
    ensures OnTime(sys', limits)
  {
    forall r | r in sys'.pending && sys'.pending[r].Completing?
      ensures TakenOnTime(sys', limits, sys'.pending[r].tx)
    {
      assert TakenOnTime(sys, limits, sys.pending[r].tx);
    }
    forall id | id in sys'.store.sessions
      ensures id in sys'.origins && TakenOnTime(sys', limits, sys'.origins[id])
    {
      assert TakenOnTime(sys, limits, sys.origins[id]);
    }
  }

  lemma AddedKeepsTime(sys: Sys, sys': Sys, limits: Limits, tx: TxId, row: Tx)
    requires OnTime(sys, limits) && tx !in sys.begunAt && row.expiresAt == sys.now + limits.txTtl
    requires sys'.store.txs == sys.store.txs[tx := row] && sys'.begunAt == sys.begunAt[tx := sys.now]
    requires sys'.consumedAt == sys.consumedAt && sys'.origins == sys.origins && sys'.now == sys.now
    requires sys'.store.sessions == sys.store.sessions
    requires forall r :: r in sys'.pending ==> r in sys.pending && sys'.pending[r] == sys.pending[r]
    ensures OnTime(sys', limits)
  {
    forall t | TakenOnTime(sys, limits, t) ensures TakenOnTime(sys', limits, t) {}
  }

  lemma ConsumeKeepsTime(sys: Sys, limits: Limits, request: RequestId, tx: TxId)
    requires OnTime(sys, limits) && request !in sys.pending && tx in sys.store.txs
    requires forall t :: TakenOnTime(sys, limits, t) ==> t != tx
    ensures OnTime(Step(sys, limits, Consume(request, tx)), limits)
  {
    var sys' := Step(sys, limits, Consume(request, tx));
    ConsumeDoes(sys, limits, request, tx);
    forall t | TakenOnTime(sys, limits, t) ensures TakenOnTime(sys', limits, t) {}
    forall r | r in sys'.pending && sys'.pending[r].Completing?
      ensures TakenOnTime(sys', limits, sys'.pending[r].tx)
    {
      if r != request {
        assert r in sys'.pending - {request};
        assert TakenOnTime(sys, limits, sys.pending[r].tx);
      }
    }
  }

  lemma CompleteKeepsTime(sys: Sys, limits: Limits, request: RequestId, identity: Identity, secret: Option<Secret>,
      id: SessionId)
    requires OnTime(sys, limits) && request in sys.pending && sys.pending[request].Completing?
    requires id !in sys.store.sessions
    ensures OnTime(Step(sys, limits, Complete(request, identity, secret, id)), limits)
  {
    var sys' := Step(sys, limits, Complete(request, identity, secret, id));
    if sys.pending[request].row.replace.None? { FirstLoginDoes(sys, limits, request, identity, secret, id); }
    else { ReplacingLoginDoes(sys, limits, request, identity, secret, id); }
    assert TakenOnTime(sys, limits, sys.pending[request].tx);
    forall t | TakenOnTime(sys, limits, t) ensures TakenOnTime(sys', limits, t) {}
  }

  lemma BeginKeepsTime(sys: Sys, limits: Limits, a: Action)
    requires OnTime(sys, limits) && (a.BeginPlain? || a.BeginReplacement?) && Step(sys, limits, a) != sys
    ensures OnTime(Step(sys, limits, a), limits)
  {
    if a.BeginPlain? {
      BeginPlainDoes(sys, limits, a.tx);
    } else {
      BeginReplacementDoes(sys, limits, a.request, a.tx);
    }
    var sys' := Step(sys, limits, a);
    AddedKeepsTime(sys, sys', limits, a.tx, sys'.store.txs[a.tx]);
  }

  lemma OthersKeepTime(sys: Sys, limits: Limits, a: Action)
    requires OnTime(sys, limits) && !MovesTransactions(a)
    ensures OnTime(Step(sys, limits, a), limits)
  {
    var sys' := Step(sys, limits, a);
    OthersLeaveTransactions(sys, limits, a);
    OthersKeepSessions(sys, limits, a);
    forall r | r in sys'.pending && sys'.pending[r].Completing?
      ensures r in sys.pending && sys'.pending[r] == sys.pending[r]
    {
      OthersHandNoneOut(sys, limits, a, r);
    }
    forall id | id in sys.store.sessions
      ensures sys'.store.sessions[id].createdAt == sys.store.sessions[id].createdAt
    {
      StepOnSession(sys, limits, a, id);
    }
    assert sys'.now >= sys.now;
    OtherStepsKeepTime(sys, sys', limits);
  }

  lemma StepKeepsTime(sys: Sys, limits: Limits, a: Action)
    requires OnTime(sys, limits)
    ensures OnTime(Step(sys, limits, a), limits)
  {
    if Step(sys, limits, a) == sys {
    } else if a.Consume? {
      ConsumeKeepsTime(sys, limits, a.request, a.tx);
    } else if a.Complete? {
      CompleteKeepsTime(sys, limits, a.request, a.identity, a.secret, a.id);
    } else if a.BeginPlain? || a.BeginReplacement? {
      BeginKeepsTime(sys, limits, a);
    } else {
      OthersKeepTime(sys, limits, a);
    }
  }

  lemma {:induction false} RunKeepsTime(sys: Sys, limits: Limits, actions: seq<Action>)
    requires OnTime(sys, limits)
    ensures OnTime(Run(sys, limits, actions), limits)
    decreases |actions|
  {
    if actions != [] {
      StepKeepsTime(sys, limits, actions[0]);
      RunKeepsTime(Step(sys, limits, actions[0]), limits, actions[1..]);
    }
  }

  /**
   * In every run from an empty store a session exists only if its login came back less than the
   * transaction time after it was begun, and the session was made after that.
   */
  lemma SessionsComeFromTimelyLogins(now: int, limits: Limits, actions: seq<Action>, id: SessionId)
    requires id in Run(Start(now), limits, actions).store.sessions
    ensures var sys := Run(Start(now), limits, actions);
      && id in sys.origins && sys.origins[id] in sys.begunAt && sys.origins[id] in sys.consumedAt
      && var begun, taken := sys.begunAt[sys.origins[id]], sys.consumedAt[sys.origins[id]];
        && begun <= taken < begun + limits.txTtl
        && taken <= sys.store.sessions[id].createdAt <= sys.now
  {
    RunKeepsTime(Start(now), limits, actions);
  }
}
