/**
 * SQ Hub login transactions and sessions: the rows, the one-statement store operations on them, and
 * every interleaving of the requests that use them.
 */
module HubSessions {
  import opened Common

  /** A transaction is addressed by the hash of its random token, a session by its id or the hash of its token. */
  type TxId = nat
  type SessionId = nat
  type RequestId = nat
  type Secret = nat

  datatype Identity = Identity(issuer: string, subject: string)

  datatype Tx = Tx(replace: Option<SessionId>, expected: Option<Identity>, expiresAt: int)

  datatype Session = Session(
    identity: Identity,
    refresh: Option<Secret>,
    createdAt: int,
    lastSeen: int,
    expiresAt: int,
    revokedAt: Option<int>)

  datatype Event = Created(id: SessionId) | Replaced(was: SessionId, successor: SessionId) | LoggedOut(id: SessionId)

  datatype Store = Store(txs: map<TxId, Tx>, sessions: map<SessionId, Session>, audit: seq<Event>)

  /** Session idle time, absolute session time and transaction time, all in the unit of the clock. */
  datatype Limits = Limits(idle: int, max: int, txTtl: int)

  ghost predicate Sensible(limits: Limits) {
    limits.idle > 0 && limits.max > 0
  }

  // ---------------------------------------------------------------------------- store operations

  predicate Active(s: Session, now: int) {
    s.revokedAt.None? && s.expiresAt > now
  }

  /** The condition of the session lookup. */
  predicate Accepts(store: Store, id: SessionId, now: int, idle: int) {
    id in store.sessions && Active(store.sessions[id], now) && store.sessions[id].lastSeen > now - idle
  }

  function Touch(store: Store, id: SessionId, now: int): Store {
    if id in store.sessions then store.(sessions := store.sessions[id := store.sessions[id].(lastSeen := now)])
    else store
  }

  function Revoked(s: Session, now: int): Session {
    s.(revokedAt := Some(now), refresh := None)
  }

  function Revoke(store: Store, id: SessionId, now: int): Store {
    if id in store.sessions && store.sessions[id].revokedAt.None? then
      store.(sessions := store.sessions[id := Revoked(store.sessions[id], now)], audit := store.audit + [LoggedOut(id)])
    else store
  }

  function StoreRefresh(store: Store, id: SessionId, secret: Secret): Store {
    if id in store.sessions && store.sessions[id].revokedAt.None? then
      store.(sessions := store.sessions[id := store.sessions[id].(refresh := Some(secret))])
    else store
  }

  /** The session a login may replace: active, and of exactly this identity. */
  predicate Replaceable(store: Store, was: SessionId, identity: Identity, now: int) {
    was in store.sessions && Active(store.sessions[was], now) && store.sessions[was].identity == identity
  }

  function NewSession(identity: Identity, refresh: Option<Secret>, now: int, expiresAt: int): Session {
    Session(identity, refresh, now, now, expiresAt, None)
  }

  datatype NewInput = NewInput(id: SessionId, identity: Identity, refresh: Option<Secret>, replace: Option<SessionId>,
      expiresAt: int)

  /** None is the rolled-back transaction. */
  function CreateSession(store: Store, input: NewInput, now: int): Option<Store> {
    match input.replace
    case None =>
      Some(store.(
        sessions := store.sessions[input.id := NewSession(input.identity, input.refresh, now, input.expiresAt)],
        audit := store.audit + [Created(input.id)]))
    case Some(was) =>
      if !Replaceable(store, was, input.identity, now) then None
      else
        var before := store.sessions[was];
        Some(store.(
          sessions := store.sessions[was := Revoked(before, now)]
            [input.id := NewSession(input.identity, input.refresh, now, before.expiresAt)],
          audit := store.audit + [Created(input.id), Replaced(was, input.id)]))
  }

  // --------------------------------------------------------------------------- requests as steps

  /** What a request goes on to do once its session is accepted. */
  datatype Purpose = View | BeginReplacing | AccountAccess

  datatype Pending =
    | Touching(id: SessionId, purpose: Purpose, read: Session)
    | Beginning(id: SessionId, identity: Identity)
    | Refreshing(id: SessionId)
    | Completing(tx: TxId, row: Tx)

  /** The last three are history: when each token was handed out, when it was taken back, and the one each
      session came from. */
  datatype Sys = Sys(
    store: Store,
    now: int,
    pending: map<RequestId, Pending>,
    begunAt: map<TxId, int>,
    consumedAt: map<TxId, int>,
    origins: map<SessionId, TxId>)

  datatype Action =
    | Tick(elapsed: nat)
    | Select(request: RequestId, id: SessionId, purpose: Purpose)
    | WriteSeen(request: RequestId)
    | BeginPlain(tx: TxId)
    | BeginReplacement(request: RequestId, tx: TxId)
    | Consume(request: RequestId, tx: TxId)
    | Complete(request: RequestId, identity: Identity, secret: Option<Secret>, id: SessionId)
    | WriteRefresh(request: RequestId, rotated: Secret)
    | Logout(id: SessionId)
    | Drop(request: RequestId)

  function Forget(sys: Sys, request: RequestId): Sys {
    sys.(pending := sys.pending - {request})
  }

  function NormalizeIssuer(issuer: string): string {
    if issuer != "" && issuer[|issuer| - 1] == '/' then NormalizeIssuer(issuer[..|issuer| - 1]) else issuer
  }

  /** The service compares issuers without trailing slashes; the store compares them as they are. */
  predicate SameIdentity(row: Tx, identity: Identity) {
    row.expected.None?
    || (NormalizeIssuer(identity.issuer) == NormalizeIssuer(row.expected.value.issuer)
        && identity.subject == row.expected.value.subject)
  }

  function FinishLogin(sys: Sys, limits: Limits, request: RequestId, identity: Identity, secret: Option<Secret>,
      id: SessionId): Sys
    requires request in sys.pending && sys.pending[request].Completing?
  {
    var Completing(tx, row) := sys.pending[request];
    if id in sys.store.sessions then sys
    else if !SameIdentity(row, identity) then Forget(sys, request)
    else
      match CreateSession(sys.store, NewInput(id, identity, secret, row.replace, sys.now + limits.max), sys.now)
      case None => Forget(sys, request)
      case Some(store) => Forget(sys, request).(store := store, origins := sys.origins[id := tx])
  }

  /** The row is gone whether or not it had expired. */
  function TakeTransaction(sys: Sys, request: RequestId, tx: TxId): Sys {
    if tx !in sys.store.txs || request in sys.pending then sys
    else
      var row := sys.store.txs[tx];
      var taken := sys.(
        store := sys.store.(txs := sys.store.txs - {tx}), consumedAt := sys.consumedAt[tx := sys.now]);
      if row.expiresAt <= sys.now then taken
      else taken.(pending := sys.pending[request := Completing(tx, row)])
  }

  function AddTransaction(sys: Sys, tx: TxId, row: Tx): Sys {
    sys.(store := sys.store.(txs := sys.store.txs[tx := row]), begunAt := sys.begunAt[tx := sys.now])
  }

  /** After the second statement of the lookup: what the request does with the row it read. */
  function Seen(sys: Sys, request: RequestId): Sys
    requires request in sys.pending && sys.pending[request].Touching?
  {
    var Touching(id, purpose, read) := sys.pending[request];
    var touched := sys.(store := Touch(sys.store, id, sys.now));
    match purpose
    case View => Forget(touched, request)
    case BeginReplacing => touched.(pending := sys.pending[request := Beginning(id, read.identity)])
    case AccountAccess =>
      if read.refresh.None? then Forget(touched, request)
      else touched.(pending := sys.pending[request := Refreshing(id)])
  }

  function Step(sys: Sys, limits: Limits, a: Action): Sys {
    match a
    case Tick(elapsed) => sys.(now := sys.now + elapsed)
    case Select(request, id, purpose) =>
      if request !in sys.pending && Accepts(sys.store, id, sys.now, limits.idle) then
        sys.(pending := sys.pending[request := Touching(id, purpose, sys.store.sessions[id])])
      else sys
    case WriteSeen(request) =>
      if request in sys.pending && sys.pending[request].Touching? then Seen(sys, request) else sys
    case BeginPlain(tx) =>
      if tx in sys.begunAt then sys else AddTransaction(sys, tx, Tx(None, None, sys.now + limits.txTtl))
    case BeginReplacement(request, tx) =>
      if tx !in sys.begunAt && request in sys.pending && sys.pending[request].Beginning? then
        AddTransaction(Forget(sys, request), tx,
          Tx(Some(sys.pending[request].id), Some(sys.pending[request].identity), sys.now + limits.txTtl))
      else sys
    case Consume(request, tx) => TakeTransaction(sys, request, tx)
    case Complete(request, identity, secret, id) =>
      if request in sys.pending && sys.pending[request].Completing? then
        FinishLogin(sys, limits, request, identity, secret, id)
      else sys
    case WriteRefresh(request, rotated) =>
      if request in sys.pending && sys.pending[request].Refreshing? then
        Forget(sys, request).(store := StoreRefresh(sys.store, sys.pending[request].id, rotated))
      else sys
    case Logout(id) => sys.(store := Revoke(sys.store, id, sys.now))
    case Drop(request) => Forget(sys, request)
  }

  function Run(sys: Sys, limits: Limits, actions: seq<Action>): Sys
    decreases |actions|
  {
    if actions == [] then sys else Run(Step(sys, limits, actions[0]), limits, actions[1..])
  }

  function Start(now: int): Sys {
    Sys(Store(map[], map[], []), now, map[], map[], map[], map[])
  }
}
