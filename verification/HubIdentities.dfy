/** Whose sessions a login may replace, when all logins come from one identity provider. */
module HubIdentities {
  import opened Common
  import opened HubSessions

  /** A transaction expects exactly the identity of the session it is to replace. */
  ghost predicate RowFits(store: Store, row: Tx) {
    match row.replace
    case None => row.expected.None?
    case Some(was) => was in store.sessions && row.expected == Some(store.sessions[was].identity)
  }

  ghost predicate PendingFits(store: Store, pending: Pending) {
    match pending
    case Touching(id, _, read) => id in store.sessions && read.identity == store.sessions[id].identity
    case Beginning(id, identity) => id in store.sessions && identity == store.sessions[id].identity
    case Refreshing(_) => true
    case Completing(_, row) => RowFits(store, row)
  }

  ghost predicate Fits(sys: Sys) {
    && (forall tx :: tx in sys.store.txs ==> RowFits(sys.store, sys.store.txs[tx]))
    && (forall r :: r in sys.pending ==> PendingFits(sys.store, sys.pending[r]))
  }

  /** Sessions are never removed and never change hands. */
  ghost predicate IdentitiesStay(s: Store, s': Store) {
    forall id :: id in s.sessions ==> id in s'.sessions && s'.sessions[id].identity == s.sessions[id].identity
  }

  lemma CompleteIdentitiesStay(
      sys: Sys, limits: Limits, request: RequestId, identity: Identity, secret: Option<Secret>, id: SessionId)
    requires request in sys.pending && sys.pending[request].Completing?
    ensures IdentitiesStay(sys.store, FinishLogin(sys, limits, request, identity, secret, id).store)
  {
  }

  lemma StepIdentitiesStay(sys: Sys, limits: Limits, a: Action)
    ensures IdentitiesStay(sys.store, Step(sys, limits, a).store)
  {
    if a.Complete? && a.request in sys.pending && sys.pending[a.request].Completing? {
      CompleteIdentitiesStay(sys, limits, a.request, a.identity, a.secret, a.id);
    }
  }

  lemma RowStillFits(s: Store, s': Store, row: Tx)
    requires IdentitiesStay(s, s') && RowFits(s, row)
    ensures RowFits(s', row)
  {
  }

  lemma PendingStillFits(s: Store, s': Store, pending: Pending)
    requires IdentitiesStay(s, s') && PendingFits(s, pending)
    ensures PendingFits(s', pending)
  {
  }

  lemma OldTx(sys: Sys, limits: Limits, a: Action, tx: TxId)
    requires !a.BeginPlain? && !a.BeginReplacement? && tx in Step(sys, limits, a).store.txs
    ensures tx in sys.store.txs && Step(sys, limits, a).store.txs[tx] == sys.store.txs[tx]
  {
  }

  /** A request half way was half way before, or this very step read for it. */
  lemma OldPending(sys: Sys, limits: Limits, a: Action, r: RequestId)
    requires !a.Select? && !a.WriteSeen? && !a.Consume? && r in Step(sys, limits, a).pending
    ensures r in sys.pending && Step(sys, limits, a).pending[r] == sys.pending[r]
  {
  }

  /** A transaction that is there after a step was there, or was begun for the session its request had read. */
  lemma NewTxFits(sys: Sys, limits: Limits, a: Action, tx: TxId)
    requires Fits(sys) && tx in Step(sys, limits, a).store.txs
    ensures RowFits(sys.store, Step(sys, limits, a).store.txs[tx])
  {
    if a.BeginReplacement? {
      if a.request in sys.pending { assert PendingFits(sys.store, sys.pending[a.request]); }
    } else if !a.BeginPlain? {
      OldTx(sys, limits, a, tx);
      assert RowFits(sys.store, sys.store.txs[tx]);
    }
  }

  lemma SelectFits(sys: Sys, limits: Limits, request: RequestId, id: SessionId, purpose: Purpose, r: RequestId)
    requires Fits(sys) && r in Step(sys, limits, Select(request, id, purpose)).pending
    ensures PendingFits(sys.store, Step(sys, limits, Select(request, id, purpose)).pending[r])
  {
    if r in sys.pending { assert PendingFits(sys.store, sys.pending[r]); }
  }

  lemma WriteSeenFits(sys: Sys, limits: Limits, request: RequestId, r: RequestId)
    requires Fits(sys) && r in Step(sys, limits, WriteSeen(request)).pending
    ensures PendingFits(sys.store, Step(sys, limits, WriteSeen(request)).pending[r])
  {
    if r in sys.pending { assert PendingFits(sys.store, sys.pending[r]); }
  }

  lemma ConsumeFits(sys: Sys, limits: Limits, request: RequestId, tx: TxId, r: RequestId)
    requires Fits(sys) && r in Step(sys, limits, Consume(request, tx)).pending
    ensures PendingFits(sys.store, Step(sys, limits, Consume(request, tx)).pending[r])
  {
    if r in sys.pending { assert PendingFits(sys.store, sys.pending[r]); }
    if tx in sys.store.txs { assert RowFits(sys.store, sys.store.txs[tx]); }
  }

  /** The same of a request half way. */
  lemma NewPendingFits(sys: Sys, limits: Limits, a: Action, r: RequestId)
    requires Fits(sys) && r in Step(sys, limits, a).pending
    ensures PendingFits(sys.store, Step(sys, limits, a).pending[r])
  {
    match a
    case Select(request, id, purpose) => SelectFits(sys, limits, request, id, purpose, r);
    case WriteSeen(request) => WriteSeenFits(sys, limits, request, r);
    case Consume(request, tx) => ConsumeFits(sys, limits, request, tx, r);
    case _ =>
      OldPending(sys, limits, a, r);
      assert PendingFits(sys.store, sys.pending[r]);
  }

  lemma StepKeepsFits(sys: Sys, limits: Limits, a: Action)
    requires Fits(sys)
    ensures Fits(Step(sys, limits, a))
  {
    var sys' := Step(sys, limits, a);
    StepIdentitiesStay(sys, limits, a);
    forall tx | tx in sys'.store.txs ensures RowFits(sys'.store, sys'.store.txs[tx]) {
      NewTxFits(sys, limits, a, tx);
      RowStillFits(sys.store, sys'.store, sys'.store.txs[tx]);
    }
    forall r | r in sys'.pending ensures PendingFits(sys'.store, sys'.pending[r]) {
      NewPendingFits(sys, limits, a, r);
      PendingStillFits(sys.store, sys'.store, sys'.pending[r]);
    }
  }

  /** The one provider answers with its one configured issuer. */
  ghost predicate LoginsFrom(actions: seq<Action>, issuer: string) {
    forall i :: 0 <= i < |actions| && actions[i].Complete? ==> actions[i].identity.issuer == issuer
  }

  ghost predicate SessionsFrom(store: Store, issuer: string) {
    forall id :: id in store.sessions ==> store.sessions[id].identity.issuer == issuer
  }

  lemma OnlyLoginsMakeSessions(sys: Sys, limits: Limits, a: Action, id: SessionId)
    requires !a.Complete? && id in Step(sys, limits, a).store.sessions
    ensures id in sys.store.sessions
  {
  }

  lemma LoginMakesIts(sys: Sys, limits: Limits, a: Action, id: SessionId)
    requires a.Complete? && id in Step(sys, limits, a).store.sessions && id !in sys.store.sessions
    ensures Step(sys, limits, a).store.sessions[id].identity == a.identity
  {
  }

  lemma StepKeepsIssuer(sys: Sys, limits: Limits, a: Action, issuer: string)
    requires SessionsFrom(sys.store, issuer) && (a.Complete? ==> a.identity.issuer == issuer)
    ensures SessionsFrom(Step(sys, limits, a).store, issuer)
  {
    var s' := Step(sys, limits, a).store;
    StepIdentitiesStay(sys, limits, a);
    forall id | id in s'.sessions ensures s'.sessions[id].identity.issuer == issuer {
      if id !in sys.store.sessions {
        if a.Complete? { LoginMakesIts(sys, limits, a, id); } else { OnlyLoginsMakeSessions(sys, limits, a, id); }
      }
    }
  }

  lemma {:induction false} RunFits(sys: Sys, limits: Limits, actions: seq<Action>, issuer: string)
    requires Fits(sys) && SessionsFrom(sys.store, issuer) && LoginsFrom(actions, issuer)
    ensures Fits(Run(sys, limits, actions)) && SessionsFrom(Run(sys, limits, actions).store, issuer)
    decreases |actions|
  {
    if actions != [] {
      StepKeepsFits(sys, limits, actions[0]);
      StepKeepsIssuer(sys, limits, actions[0], issuer);
      RunFits(Step(sys, limits, actions[0]), limits, actions[1..], issuer);
    }
  }

  /**
   * In every run whose logins all come from one issuer: the service's check of the identity and the store's
   * agree, and a replacing login goes through if and only if it is the same account and the session it is
   * to replace has not been revoked or expired.
   */
  lemma OneIssuerLoginReplacesIff(now: int, limits: Limits, actions: seq<Action>, issuer: string,
      request: RequestId, identity: Identity, secret: Option<Secret>, id: SessionId)
    requires LoginsFrom(actions, issuer) && identity.issuer == issuer
    requires var sys := Run(Start(now), limits, actions);
      && request in sys.pending && sys.pending[request].Completing? && id !in sys.store.sessions
      && sys.pending[request].row.replace.Some?
    ensures var sys := Run(Start(now), limits, actions);
      var row := sys.pending[request].row;
      && row.replace.value in sys.store.sessions
      && var was := sys.store.sessions[row.replace.value];
      && (SameIdentity(row, identity) <==> was.identity == identity)
      && (id in Step(sys, limits, Complete(request, identity, secret, id)).store.sessions <==>
            was.identity.subject == identity.subject && Active(was, sys.now))
  {
    RunFits(Start(now), limits, actions, issuer);
    var sys := Run(Start(now), limits, actions);
    assert PendingFits(sys.store, sys.pending[request]);
  }
}
