/** The login store as rows changed statement by statement. */
module HubStore {
  import opened Common
  import opened HubSessions

  class HubAuthStore {
    var transactions: map<TxId, Tx>
    var sessions: map<SessionId, Session>
    var audit: seq<Event>

    function Rows(): Store
      reads this
    {
      Store(transactions, sessions, audit)
    }

    method CreateTransaction(tx: TxId, row: Tx)
      requires tx !in transactions
      modifies this
      ensures Rows() == old(Rows()).(txs := old(transactions)[tx := row])
    {
      transactions := transactions[tx := row];
    }

    /** Deletes and returns the row in one statement, so a second call finds nothing. */
    method ConsumeTransaction(tx: TxId) returns (row: Option<Tx>)
      modifies this
      ensures Rows() == old(Rows()).(txs := old(transactions) - {tx})
      ensures row == if tx in old(transactions) then Some(old(transactions)[tx]) else None
      ensures tx !in transactions
    {
      row := if tx in transactions then Some(transactions[tx]) else None;
      transactions := transactions - {tx};
    }

    /** False is the error that rolls the transaction back. */
    method InsertSession(input: NewInput, now: int) returns (ok: bool)
      requires input.id !in sessions
      modifies this
      ensures ok <==> CreateSession(old(Rows()), input, now).Some?
      ensures Rows() == if ok then CreateSession(old(Rows()), input, now).value else old(Rows())
    {
      var expiresAt := input.expiresAt;
      if input.replace.Some? {
        var was := input.replace.value;
        if was !in sessions { return false; }
        var row := sessions[was];
        if row.identity != input.identity || row.revokedAt.Some? || row.expiresAt <= now { return false; }
        sessions := sessions[was := row.(revokedAt := Some(now), refresh := None)];
        expiresAt := row.expiresAt;
      }
      sessions := sessions[input.id := NewSession(input.identity, input.refresh, now, expiresAt)];
      audit := audit + [Created(input.id)];
      if input.replace.Some? {
        audit := audit + [Replaced(input.replace.value, input.id)];
      }
      ok := true;
      assert input.replace.Some? ==>
        audit == old(audit) + [Created(input.id), Replaced(input.replace.value, input.id)];
    }

    /** The lookup, then the note that the session was seen. */
    method GetSession(id: SessionId, now: int, idle: int) returns (found: Option<Session>)
      modifies this
      ensures found.Some? <==> Accepts(old(Rows()), id, now, idle)
      ensures found.Some? ==> found.value == old(sessions)[id]
      ensures Rows() == if found.Some? then Touch(old(Rows()), id, now) else old(Rows())
    {
      if id !in sessions { return None; }
      var row := sessions[id];
      if row.revokedAt.Some? || row.expiresAt <= now || row.lastSeen <= now - idle { return None; }
      sessions := sessions[id := row.(lastSeen := now)];
      found := Some(row);
    }

    /** Writes nothing to a revoked session. */
    method UpdateRefreshToken(id: SessionId, secret: Secret)
      modifies this
      ensures Rows() == StoreRefresh(old(Rows()), id, secret)
      ensures id in sessions && sessions[id].revokedAt.Some? ==> sessions[id] == old(sessions)[id]
    {
      if id in sessions && sessions[id].revokedAt.None? {
        sessions := sessions[id := sessions[id].(refresh := Some(secret))];
      }
    }

    method RevokeSession(id: SessionId, now: int)
      modifies this
      ensures Rows() == Revoke(old(Rows()), id, now)
      ensures id in sessions ==> sessions[id].revokedAt.Some?
      ensures forall x :: x in sessions && x != id ==> sessions[x] == old(sessions)[x]
    {
      if id in sessions && sessions[id].revokedAt.None? {
        sessions := sessions[id := sessions[id].(revokedAt := Some(now), refresh := None)];
        audit := audit + [LoggedOut(id)];
      }
    }
  }
}
