/**
 * Putuskan and Sambungkan ulang read, talk to the engine, and write in a transaction of their own.
 * What such a request does is told here from what it read and from what it finds when it writes, with
 * any run of other requests in between.
 */
module CardReads {
  import opened Common
  import opened CardRegistry
  import opened CardRuns
  import opened CardRequests

  /** A step of somebody else: the request is at most one read and one write. */
  predicate LeavesRequest(a: Action, request: RequestId) {
    match a
    case DisconnectRead(r, _) => r != request
    case CutRead(r, _) => r != request
    case ReconnectRead(r, _, _) => r != request
    case Commit(r) => r != request
    case Abandon(r) => r != request
    case _ => true
  }

  predicate AllLeave(actions: seq<Action>, request: RequestId) {
    forall i :: 0 <= i < |actions| ==> LeavesRequest(actions[i], request)
  }

  lemma StepLeavesPending(sys: Sys, a: Action, request: RequestId)
    requires LeavesRequest(a, request)
    ensures request in Step(sys, a).pending <==> request in sys.pending
    ensures request in sys.pending ==> Step(sys, a).pending[request] == sys.pending[request]
  {
  }

  lemma {:induction false} RunLeavesPending(sys: Sys, actions: seq<Action>, request: RequestId)
    requires AllLeave(actions, request)
    ensures request in Run(sys, actions).pending <==> request in sys.pending
    ensures request in sys.pending ==> Run(sys, actions).pending[request] == sys.pending[request]
    decreases |actions|
  {
    if actions != [] {
      StepLeavesPending(sys, actions[0], request);
      RunLeavesPending(Step(sys, actions[0]), actions[1..], request);
    }
  }

  /** A request that was given up is never written. */
  lemma AbandonDoes(sys: Sys, request: RequestId)
    ensures Step(sys, Abandon(request)) == Sys(sys.db, sys.pending - {request})
    ensures request !in sys.pending ==> Step(sys, Commit(request)) == sys
  {
  }

  /** Read, anything in between, write. */
  function Finished(sys: Sys, read: Action, between: seq<Action>, request: RequestId): Sys {
    Step(Run(Step(sys, read), between), Commit(request))
  }

  function AtWrite(sys: Sys, read: Action, between: seq<Action>): Db {
    Run(Step(sys, read), between).db
  }

  lemma ReadChangesNoRow(sys: Sys, read: Action)
    requires read.DisconnectRead? || read.CutRead? || read.ReconnectRead?
    ensures Step(sys, read).db == sys.db
  {
  }

  /**
   * A reconnect goes through if and only if the number could be reconnected when it was read and, when
   * it is written, is there, is on, and has the engine and the tenant it was read with.  Then it waits
   * for pairing, on the new tenant if there is one.  Otherwise no row changes.
   */
  lemma ReconnectGoesThroughIff(
      sys: Sys, request: RequestId, d: DeviceId, newTenant: Option<string>, between: seq<Action>)
    requires request !in sys.pending && AllLeave(between, request)
    ensures var read := ReconnectRead(request, d, newTenant);
      var db, done := AtWrite(sys, read, between), Finished(sys, read, between, request);
      && request !in done.pending
      && done.db ==
           if && d in sys.db.devices && sys.db.devices[d].status !in {Inactive, NotInstalled}
              && sys.db.devices[d].provider == JalurPesan
              && d in db.devices && db.devices[d].status != Inactive
              && db.devices[d].provider == JalurPesan && db.devices[d].tenant == sys.db.devices[d].tenant
           then db.(devices := db.devices[d := db.devices[d].(status := AwaitingPairing,
             tenant := match newTenant case Some(_) => newTenant case None => sys.db.devices[d].tenant)])
           else db
  {
    var read := ReconnectRead(request, d, newTenant);
    RunLeavesPending(Step(sys, read), between, request);
    if d in sys.db.devices {
      ReconnectAnswer(AtWrite(sys, read, between), d, sys.db.devices[d].tenant, newTenant);
    }
  }

  /** Putuskan from a card lets go of a borrowed number and cuts an own one, as the card showed it when read. */
  lemma DisconnectDoes(sys: Sys, request: RequestId, c: ConsumerId, d: DeviceId, between: seq<Action>)
    requires References(sys.db) && request !in sys.pending && AllLeave(between, request) && CardShows(sys.db, c, d)
    ensures var read := DisconnectRead(request, c);
      var db, done := AtWrite(sys, read, between), Finished(sys, read, between, request);
      && request !in done.pending
      && done.db ==
           if sys.db.devices[d].owner != c then OrUnchanged(db, LetGoOfNumber(db, c, d))
           else if Shared(sys.db, d) then db
           else OrUnchanged(db, CutNumber(db, d, sys.db.devices[d].provider))
  {
    SharedIs(sys.db, d);
    RunLeavesPending(Step(sys, DisconnectRead(request, c)), between, request);
  }

  lemma DisconnectOfEmptyCard(sys: Sys, request: RequestId, c: ConsumerId)
    requires !CardFilled(sys.db, c)
    ensures Step(sys, DisconnectRead(request, c)) == sys
  {
  }

  /**
   * A cut from the page of numbers goes through if and only if the number is there and unshared both
   * when read and when written; a number read on JalurPesan then becomes disconnected, unless it has
   * been switched off.
   */
  lemma CutGoesThroughIff(sys: Sys, request: RequestId, d: DeviceId, between: seq<Action>)
    requires request !in sys.pending && AllLeave(between, request)
    ensures var read := CutRead(request, d);
      var db, done := AtWrite(sys, read, between), Finished(sys, read, between, request);
      && request !in done.pending
      && done.db ==
           if && d in sys.db.devices && !Shared(sys.db, d) && sys.db.devices[d].provider == JalurPesan
              && d in db.devices && !Shared(db, d) && db.devices[d].status != Inactive
           then db.(devices := db.devices[d := db.devices[d].(status := Disconnected)])
           else db
  {
    var read := CutRead(request, d);
    var db := AtWrite(sys, read, between);
    RunLeavesPending(Step(sys, read), between, request);
    if d in sys.db.devices {
      SharedIs(sys.db, d);
      CutAnswer(db, d, sys.db.devices[d].provider);
      if d in db.devices {
        assert db.devices == db.devices[d := db.devices[d].(status := db.devices[d].status)];
      }
    }
  }

  // ------------------------------------------------------------ what can stop a reconnect under way

  /** The steps that change the engine of a number, take its tenant over, or switch it off. */
  predicate TouchesEngine(sys: Sys, a: Action, d: DeviceId)
    requires d in sys.db.devices
  {
    match a
    case Change(e, update, _) => e == d && AsksForEngine(sys.db.devices[d], update)
    case Merge(source, target) => source == d || target == d
    case SwitchOff(e, _) => e == d
    case Commit(r) => r in sys.pending && sys.pending[r].Reconnecting? && sys.pending[r].device == d &&
      sys.pending[r].newTenant.Some?
    case _ => false
  }

  predicate SameEngine(db: Db, db': Db, d: DeviceId)
    requires d in db.devices
  {
    && d in db'.devices && db'.devices[d].provider == db.devices[d].provider
    && db'.devices[d].tenant == db.devices[d].tenant
    && (db.devices[d].status != Inactive ==> db'.devices[d].status != Inactive)
  }

  lemma UpdateSparesEngine(db: Db, d: DeviceId, e: DeviceId, update: Update, handoverPending: bool)
    requires d in db.devices && (e == d ==> !AsksForEngine(db.devices[d], update))
    ensures SameEngine(db, OrUnchanged(db, UpdateDevice(db, e, update, handoverPending)), d)
  {
    if UpdateDevice(db, e, update, handoverPending).Ok? {
      UpdateEffect(db, e, update, handoverPending);
      UpdateFrame(db, e, update, handoverPending);
    }
  }

  lemma WriteSparesEngine(db: Db, pending: Pending, d: DeviceId)
    requires d in db.devices
    requires !(pending.Reconnecting? && pending.device == d && pending.newTenant.Some?)
    ensures SameEngine(db, OrUnchanged(db, Write(db, pending)), d)
  {
    match pending
    case Releasing(c, e) => LetGoAnswer(db, c, e);
    case Cutting(e, provider) => CutAnswer(db, e, provider);
    case Reconnecting(e, tenantRead, newTenant) => ReconnectAnswer(db, e, tenantRead, newTenant);
  }

  lemma CardRequestSparesEngine(db: Db, a: Action, d: DeviceId)
    requires d in db.devices && CardRequest(a)
    ensures SameEngine(db, StepDb(db, a), d)
  {
  }

  lemma NumberRequestSparesEngine(db: Db, a: Action, d: DeviceId)
    requires d in db.devices && NumberRequest(a) && !TouchesEngine(Sys(db, map[]), a, d)
    ensures SameEngine(db, StepDb(db, a), d)
  {
    match a
    case Create(id, c, provider, tenant, title, now) => CreateAnswer(db, id, c, provider, tenant, title, now);
    case Change(e, update, handoverPending) => UpdateSparesEngine(db, d, e, update, handoverPending);
    case Merge(source, target) => if UseExistingNumber(db, source, target).Ok? { MergeRow(db, source, target); }
    case SwitchOff(e, confirmed) => SwitchOffAnswer(db, e, confirmed);
  }

  lemma RowWriteSparesEngine(db: Db, a: Action, d: DeviceId)
    requires d in db.devices && RowWrite(a)
    ensures SameEngine(db, StepDb(db, a), d)
  {
  }

  /** Every other step leaves the engine of a number alone and keeps it on. */
  lemma OthersSpareEngine(sys: Sys, a: Action, d: DeviceId)
    requires d in sys.db.devices && !TouchesEngine(sys, a, d)
    ensures SameEngine(sys.db, Step(sys, a).db, d)
  {
    if a.Commit? {
      if a.request in sys.pending { WriteSparesEngine(sys.db, sys.pending[a.request], d); }
    } else {
      StepIsOneTransaction(sys, a);
      if CardRequest(a) { CardRequestSparesEngine(sys.db, a, d); }
      else if NumberRequest(a) { NumberRequestSparesEngine(sys.db, a, d); }
      else if RowWrite(a) { RowWriteSparesEngine(sys.db, a, d); }
    }
  }

  predicate NeverTouched(sys: Sys, actions: seq<Action>, d: DeviceId)
    requires d in sys.db.devices
    decreases |actions|
  {
    actions == [] ||
    (!TouchesEngine(sys, actions[0], d) && d in Step(sys, actions[0]).db.devices
     && NeverTouched(Step(sys, actions[0]), actions[1..], d))
  }

  lemma {:induction false} RunSparesEngine(sys: Sys, actions: seq<Action>, d: DeviceId)
    requires d in sys.db.devices && NeverTouched(sys, actions, d)
    ensures SameEngine(sys.db, Run(sys, actions).db, d)
    decreases |actions|
  {
    if actions != [] {
      OthersSpareEngine(sys, actions[0], d);
      RunSparesEngine(Step(sys, actions[0]), actions[1..], d);
    }
  }

  /**
   * So a reconnect that was read from a number that can be reconnected always goes through while nobody
   * changes the engine of the number, merges it, moves its tenant or switches it off.
   */
  lemma UntouchedReconnectGoesThrough(
      sys: Sys, request: RequestId, d: DeviceId, newTenant: Option<string>, between: seq<Action>)
    requires request !in sys.pending && AllLeave(between, request)
    requires d in sys.db.devices && sys.db.devices[d].status !in {Inactive, NotInstalled}
    requires sys.db.devices[d].provider == JalurPesan
    requires NeverTouched(Step(sys, ReconnectRead(request, d, newTenant)), between, d)
    ensures var db' := Finished(sys, ReconnectRead(request, d, newTenant), between, request).db;
      && d in db'.devices && db'.devices[d].status == AwaitingPairing
      && db'.devices[d].tenant == (match newTenant case Some(_) => newTenant case None => sys.db.devices[d].tenant)
  {
    var read := ReconnectRead(request, d, newTenant);
    ReadChangesNoRow(sys, read);
    RunSparesEngine(Step(sys, read), between, d);
    ReconnectGoesThroughIff(sys, request, d, newTenant, between);
  }

  lemma ChangedAndBack(db: Db, number: Device, there: Action, back: Action)
    requires number == Device(0, JalurPesan, Some("t"), Disconnected, None, 0, true, false, NewSettings("Nomor"))
    requires db == Db(map[0 := Consumer(true, None)], map[7 := number], {}, map[])
    requires there == Change(7, Update(None, None, Some(Some("u")), None, None, None, None, true), false)
    requires back == Change(7, Update(None, None, Some(Some("t")), None, None, None, None, true), false)
    ensures StepDb(StepDb(db, there), back) == db.(devices := map[7 := number.(status := NotInstalled)])
  {
    var moved := number.(tenant := Some("u"), status := NotInstalled);
    assert StepDb(db, there).devices == map[7 := moved];
  }

  /** A tenant that was changed and changed back is not noticed: the rows are compared, not their history. */
  lemma ChangedBackIsNotNoticed()
    ensures exists sys: Sys, d: DeviceId, between: seq<Action> ::
      && Valid(sys.db) && d in sys.db.devices && sys.pending == map[] && AllLeave(between, 0)
      && !NeverTouched(Step(sys, ReconnectRead(0, d, None)), between, d)
      && Finished(sys, ReconnectRead(0, d, None), between, 0).db.devices
         == sys.db.devices[d := sys.db.devices[d].(status := AwaitingPairing)]
  {
    var number := Device(0, JalurPesan, Some("t"), Disconnected, None, 0, true, false, NewSettings("Nomor"));
    var db := Db(map[0 := Consumer(true, None)], map[7 := number], {}, map[]);
    var sys := Sys(db, map[]);
    var there := Change(7, Update(None, None, Some(Some("u")), None, None, None, None, true), false);
    var back := Change(7, Update(None, None, Some(Some("t")), None, None, None, None, true), false);
    var between := [there, back];
    var read := Step(sys, ReconnectRead(0, 7, None));
    assert read == Sys(db, map[0 := Reconnecting(7, Some("t"), None)]);
    assert TouchesEngine(read, there, 7);
    ChangedAndBack(db, number, there, back);
    assert Run(read, between) == Run(Step(read, there), [back]) by { assert between[1..] == [back]; }
    assert Run(Step(read, there), [back]) == Run(Step(Step(read, there), back), []) by { assert [back][1..] == []; }
    ReconnectGoesThroughIff(sys, 0, 7, None, between);
    assert Valid(db);
    assert Finished(sys, ReconnectRead(0, 7, None), between, 0).db.devices
      == db.devices[7 := number.(status := AwaitingPairing)];
  }
}
