/**
 * What one card request changes and what it leaves alone, and what other modules' requests can never
 * take from a module that sends through a borrowed number.
 */
module CardRights {
  import opened Common
  import opened CardRegistry
  import opened CardMerge
  import opened CardRuns

  /** Everything of every module but `c`: card, rights and being switched on. */
  ghost predicate OthersUntouched(db: Db, db': Db, c: ConsumerId) {
    && (forall x: ConsumerId :: x != c ==>
          (x in db'.consumers <==> x in db.consumers) && (x in db.consumers ==> db'.consumers[x] == db.consumers[x]))
    && (forall r: Route :: r.consumer != c ==> (r in db'.routes <==> r in db.routes))
  }

  /** The module's routes on numbers it owns, which no card request may touch. */
  ghost predicate OwnRoutesUntouched(db: Db, db': Db, c: ConsumerId) {
    forall d, kind :: Owns(db, c, d) ==> (Route(c, d, kind) in db'.routes <==> Route(c, d, kind) in db.routes)
  }

  /** Nothing is left of numbers the module merely borrowed, except on `d`. */
  ghost predicate BorrowsOnly(db: Db, c: ConsumerId, d: DeviceId) {
    forall e :: HasRoute(db, c, e) && !Owns(db, c, e) ==> e == d
  }

  lemma TakeBackFrame(db: Db, c: ConsumerId, d: DeviceId)
    requires Valid(db) && UseOwnNumber(db, c, d).Ok?
    ensures var db' := UseOwnNumber(db, c, d).value;
      BorrowsOnly(db', c, d) && OwnRoutesUntouched(db, db', c) && OthersUntouched(db, db', c)
  {
  }

  lemma TakeBackEffect(db: Db, c: ConsumerId, d: DeviceId)
    requires Valid(db) && UseOwnNumber(db, c, d).Ok?
    ensures var db' := UseOwnNumber(db, c, d).value;
      && RoleOf(db', c) == OwnerCard && Card(db', c) == Some(d)
      && BorrowsOnly(db', c, d) && OwnRoutesUntouched(db, db', c) && OthersUntouched(db, db', c)
      && db'.devices == db.devices[d := db.devices[d].(status := db'.devices[d].status)]
      && db'.devices[d].status ==
           (if db.devices[d].status != Inactive then db.devices[d].status
            else if db.devices[d].provider == Log then Connected else Disconnected)
  {
    TakeBackFrame(db, c, d);
    var db' := UseOwnNumber(db, c, d).value;
    assert db'.devices[d] == db.devices[d].(status := db'.devices[d].status);
  }

  lemma BorrowEffect(db: Db, c: ConsumerId, d: DeviceId, codes: bool)
    requires Valid(db) && UseNumber(db, c, d, codes).Ok?
    ensures var db' := UseNumber(db, c, d, codes).value;
      && RoleOf(db', c) == BorrowerCard && Card(db', c) == Some(d)
      && AllowedKinds(db', c, d) == (if codes then {Notification, Code} else {Notification})
      && BorrowsOnly(db', c, d) && OwnRoutesUntouched(db, db', c) && OthersUntouched(db, db', c)
      && db'.devices == db.devices
  {
    var db' := UseNumber(db, c, d, codes).value;
    assert db'.devices == db.devices;
    assert forall kind :: Route(c, d, kind) in db'.routes <==> kind == Notification || codes;
  }

  /** A card on a number of its own is displaced by neither request; taking the same number back is allowed. */
  lemma OwnCardIsKept(db: Db, c: ConsumerId, d: DeviceId, codes: bool)
    requires Valid(db) && RoleOf(db, c) == OwnerCard && Card(db, c) != Some(d)
    ensures UseOwnNumber(db, c, d).Err? && UseNumber(db, c, d, codes).Err?
  {
    assert EnsureConsumer(db, c) == db;
    assert OnOtherOwnNumber(db, c, d);
  }

  lemma ConnectEffect(db: Db, c: ConsumerId, different: bool, provider: Provider, code: string, title: string,
      id: DeviceId, now: int)
    requires Valid(db) && FreshDevice(db, id)
    requires ConnectNewNumber(db, c, different, provider, code, title, id, now).Ok?
    ensures var db' := ConnectNewNumber(db, c, different, provider, code, title, id, now).value;
      && Card(db, c).None? && RoleOf(db', c) == OwnerCard && Card(db', c) == Some(id)
      && AllowedKinds(db', c, id) == {Notification}
      && (!different ==> forall d :: Owns(db', c, d) ==> d == id)
      && db'.devices[id].tenant == (if provider == JalurPesan then Some(code) else None)
      && db'.devices[id].status == (if provider == Log then Connected else NotInstalled)
      && (forall d :: d != id ==>
        (d in db'.devices <==> d in db.devices) && (d in db.devices ==> db'.devices[d] == db.devices[d]))
      && OthersUntouched(db, db', c) && db'.routes == db.routes
  {
    var db' := ConnectNewNumber(db, c, different, provider, code, title, id, now).value;
    assert Route(c, id, Code) !in db.routes && Route(c, id, Notification) !in db.routes;
    if !different {
      forall d | Owns(db', c, d) ensures d == id {
        assert d != id ==> Owns(db, c, d);
      }
    }
  }

  /** Putuskan on a borrowed number takes the module off that number and touches nothing else. */
  lemma LetGoEffect(db: Db, c: ConsumerId, d: DeviceId)
    requires Valid(db) && LetGoOfNumber(db, c, d).Ok?
    ensures var db' := LetGoOfNumber(db, c, d).value;
      && !Uses(db', c, d) && OthersUntouched(db, db', c) && db'.devices == db.devices
      && (Card(db, c) != Some(d) ==> Card(db', c) == Card(db, c))
      && (forall e, kind :: e != d ==> (Route(c, e, kind) in db'.routes <==> Route(c, e, kind) in db.routes))
  {
  }

  /** The card follows the owner; nobody else is affected and no route changes. */
  lemma OwnerChangeEffect(db: Db, d: DeviceId, owner: ConsumerId)
    requires Valid(db) && d in db.devices && owner in db.consumers && db.devices[d].owner != owner
    ensures var db', old' := ChangeOwner(db, d, owner), db.devices[d].owner;
      && Owns(db', owner, d)
      && (Card(db, owner).None? ==> RoleOf(db', owner) == OwnerCard && Card(db', owner) == Some(d))
      && (Card(db, owner).Some? ==> Card(db', owner) == Card(db, owner))
      && (Card(db, old') == Some(d) ==>
            if HasRoute(db, old', d) then RoleOf(db', old') == BorrowerCard && Card(db', old') == Some(d)
            else RoleOf(db', old') == EmptyCard)
      && (Card(db, old') != Some(d) ==> Card(db', old') == Card(db, old'))
      && (forall x :: x != owner && x != old' ==> Card(db', x) == Card(db, x))
      && db'.routes == db.routes
      && (forall c: ConsumerId, e: DeviceId :: e != d || (c != owner && c != old') ==>
        AllowedKinds(db', c, e) == AllowedKinds(db, c, e))
  {
    var db' := ChangeOwner(db, d, owner);
    forall c: ConsumerId, e: DeviceId | e != d || (c != owner && c != db.devices[d].owner)
      ensures AllowedKinds(db', c, e) == AllowedKinds(db, c, e)
    {
      assert Owns(db', c, e) <==> Owns(db, c, e);
    }
  }

  /** Nothing but number `d` itself may differ. */
  ghost predicate OnlyNumber(db: Db, db': Db, d: DeviceId) {
    && db'.routes == db.routes && db'.events == db.events && db'.devices.Keys == db.devices.Keys
    && (forall e :: e in db.devices && e != d ==> db'.devices[e] == db.devices[e])
  }

  /** Nonaktifkan empties exactly the cards that show the number and keeps every route. */
  lemma SwitchOffEffect(db: Db, d: DeviceId, confirmed: bool)
    requires Valid(db)
    ensures Deactivate(db, d, confirmed).Ok? <==>
      d in db.devices && !UsedByOtherActive(db, d) && (UsedByAny(db, d) ==> confirmed)
    ensures Deactivate(db, d, confirmed).Ok? ==>
      var db' := Deactivate(db, d, confirmed).value;
      && OnlyNumber(db, db', d) && db'.devices[d] == db.devices[d].(status := Inactive)
      && (forall c :: Card(db', c) == if Card(db, c) == Some(d) then None else Card(db, c))
      && (forall c :: c in db.consumers ==> c in db'.consumers && db'.consumers[c].active == db.consumers[c].active)
  {
  }

  /** No number disappears, and none that was in use is switched off. */
  ghost predicate NumbersStay(db: Db, db': Db) {
    forall d :: d in db.devices ==>
      d in db'.devices && (db'.devices[d].status == Inactive ==> db.devices[d].status == Inactive)
  }

  lemma CardRequestNumbersStay(db: Db, a: Action)
    requires Valid(db) && CardRequest(a)
    ensures NumbersStay(db, StepDb(db, a))
  {
    match a
    case ConnectNew(c, different, provider, code, title, id, now) =>
      if FreshDevice(db, id) && ConnectNewNumber(db, c, different, provider, code, title, id, now).Ok? {
        ConnectEffect(db, c, different, provider, code, title, id, now);
      }
    case TakeBack(c, d) => if UseOwnNumber(db, c, d).Ok? { TakeBackEffect(db, c, d); }
    case Borrow(c, d, codes) => if UseNumber(db, c, d, codes).Ok? { BorrowEffect(db, c, d, codes); }
  }

  lemma UpdateNumbersStay(db: Db, d: DeviceId, update: Update, handoverPending: bool)
    ensures NumbersStay(db, OrUnchanged(db, UpdateDevice(db, d, update, handoverPending)))
  {
  }

  lemma CommitNumbersStay(db: Db, pending: Pending)
    ensures NumbersStay(db, OrUnchanged(db, Write(db, pending)))
  {
  }

  lemma RowWriteNumbersStay(db: Db, a: Action)
    requires References(db) && RowWrite(a)
    ensures NumbersStay(db, StepDb(db, a))
  {
    RowWriteFrame(db, a);
    assert NumbersStay(db, RowDb(db, a));
  }

  lemma OthersNumbersStay(sys: Sys, a: Action)
    requires Valid(sys.db) && !a.Merge? && !a.SwitchOff?
    ensures NumbersStay(sys.db, Step(sys, a).db)
  {
    var db := sys.db;
    if a.Commit? {
      if a.request in sys.pending { CommitNumbersStay(db, sys.pending[a.request]); }
    } else {
      StepIsOneTransaction(sys, a);
      if CardRequest(a) { CardRequestNumbersStay(db, a); }
      else if a.Change? { UpdateNumbersStay(db, a.device, a.update, a.handoverPending); }
      else if RowWrite(a) { RowWriteNumbersStay(db, a); }
    }
  }

  lemma MergeNumbersStay(db: Db, source: DeviceId, target: DeviceId, d: DeviceId)
    requires Valid(db) && UseExistingNumber(db, source, target).Ok? && d in db.devices && d != source
    ensures var db' := UseExistingNumber(db, source, target).value;
      d in db'.devices && (db'.devices[d].status == Inactive ==> db.devices[d].status == Inactive)
  {
    MergeTakesSession(db, source, target);
  }

  /**
   * A number goes from working to switched off in one way only: Nonaktifkan, confirmed if any card
   * or route uses it, and never while another active module sends through it.  It takes every card off.
   */
  lemma SwitchedOffOnlyUnshared(sys: Sys, a: Action, d: DeviceId)
    requires Valid(sys.db) && d in sys.db.devices && d in Step(sys, a).db.devices
    requires sys.db.devices[d].status != Inactive && Step(sys, a).db.devices[d].status == Inactive
    ensures a.SwitchOff? && a.device == d
    ensures !UsedByOtherActive(sys.db, d)
    ensures UsedByAny(sys.db, d) ==> a.confirmed
    ensures forall c :: Card(Step(sys, a).db, c) != Some(d)
  {
    if a.Merge? {
      if UseExistingNumber(sys.db, a.source, a.target).Ok? {
        MergeRemovesSource(sys.db, a.source, a.target, 0);
        MergeNumbersStay(sys.db, a.source, a.target, d);
      }
    } else if a.SwitchOff? {
      SwitchOffEffect(sys.db, a.device, a.confirmed);
    } else {
      OthersNumbersStay(sys, a);
    }
  }

  /**
   * A number is removed in one way only: merged into a number of the same phone and owner that was
   * created before it, or at the same time with the smaller id.
   */
  lemma RemovedOnlyByMerge(sys: Sys, a: Action, d: DeviceId)
    requires Valid(sys.db) && d in sys.db.devices && d !in Step(sys, a).db.devices
    ensures a.Merge? && a.source == d && !sys.db.devices[d].filled
    ensures a.target in sys.db.devices && a.target in Step(sys, a).db.devices
    ensures var gone, kept := sys.db.devices[d], sys.db.devices[a.target];
      && gone.phone.Some? && kept.phone == gone.phone && kept.owner == gone.owner
      && (kept.createdAt < gone.createdAt || (kept.createdAt == gone.createdAt && a.target < d))
  {
    if !a.Merge? && !a.SwitchOff? { OthersNumbersStay(sys, a); }
    if a.Merge? && UseExistingNumber(sys.db, a.source, a.target).Ok? {
      MergeTakesSession(sys.db, a.source, a.target);
      if d != a.source { MergeNumbersStay(sys.db, a.source, a.target, d); }
    }
  }

  // --------------------------------------------------------------------------- borrowers are safe

  ghost predicate ActiveBorrower(db: Db, c: ConsumerId) {
    c in db.consumers && db.consumers[c].active && RoleOf(db, c) == BorrowerCard
  }

  /** A request the module makes itself, its operator switch, or its being made the owner of its card's number. */
  predicate ConcernsModule(sys: Sys, a: Action, c: ConsumerId) {
    match a
    case ConnectNew(x, _, _, _, _, _, _) => x == c
    case TakeBack(x, _) => x == c
    case Borrow(x, _, _) => x == c
    case Commit(request) => request in sys.pending && sys.pending[request].Releasing? &&
      sys.pending[request].consumer == c
    case SetConsumerActive(x, _) => x == c
    case Change(d, update, _) => update.owner == Some(c) && Card(sys.db, c) == Some(d)
    case _ => false
  }

  function CardKinds(db: Db, c: ConsumerId): set<Kind> {
    match Card(db, c) case None => {} case Some(d) => AllowedKinds(db, c, d)
  }

  /** Nothing the card depends on changed: the module's row, its routes, the number's owner. */
  lemma BorrowerFrame(db: Db, db': Db, c: ConsumerId)
    requires Valid(db) && ActiveBorrower(db, c)
    requires c in db'.consumers && db'.consumers[c] == db.consumers[c]
    requires forall r: Route :: r.consumer == c && r in db.routes ==> r in db'.routes
    requires Card(db, c).value in db'.devices &&
      db'.devices[Card(db, c).value].owner == db.devices[Card(db, c).value].owner
    ensures ActiveBorrower(db', c) && Card(db', c) == Card(db, c) && CardKinds(db, c) <= CardKinds(db', c)
  {
  }

  lemma BorrowerKeepsCardOnMerge(db: Db, source: DeviceId, target: DeviceId, c: ConsumerId)
    requires Valid(db) && ActiveBorrower(db, c) && UseExistingNumber(db, source, target).Ok?
    ensures var db' := UseExistingNumber(db, source, target).value;
      ActiveBorrower(db', c) && CardKinds(db, c) <= CardKinds(db', c)
  {
    var d := Card(db, c).value;
    MergeKeepsRoles(db, source, target, c);
    MergeUnitesKinds(db, source, target, c);
    if d != source && d != target { MergeLeavesOthers(db, source, target, c, d); }
  }

  lemma BorrowerKeepsCardOnOthersCard(db: Db, a: Action, c: ConsumerId)
    requires Valid(db) && ActiveBorrower(db, c)
    requires CardRequest(a) && a.consumer != c
    ensures var db' := StepDb(db, a);
      ActiveBorrower(db', c) && Card(db', c) == Card(db, c) && CardKinds(db, c) <= CardKinds(db', c)
  {
    match a
    case ConnectNew(x, different, provider, code, title, id, now) =>
      if FreshDevice(db, id) && ConnectNewNumber(db, x, different, provider, code, title, id, now).Ok? {
        ConnectEffect(db, x, different, provider, code, title, id, now);
        BorrowerFrame(db, StepDb(db, a), c);
      }
    case TakeBack(x, d) =>
      if UseOwnNumber(db, x, d).Ok? {
        TakeBackEffect(db, x, d);
        BorrowerFrame(db, StepDb(db, a), c);
      }
    case Borrow(x, d, codes) =>
      if UseNumber(db, x, d, codes).Ok? {
        BorrowEffect(db, x, d, codes);
        BorrowerFrame(db, StepDb(db, a), c);
      }
  }

  lemma BorrowerKeepsCardOnSwitchOff(db: Db, d: DeviceId, confirmed: bool, c: ConsumerId)
    requires Valid(db) && ActiveBorrower(db, c) && Deactivate(db, d, confirmed).Ok?
    ensures var db' := Deactivate(db, d, confirmed).value;
      ActiveBorrower(db', c) && Card(db', c) == Card(db, c) && CardKinds(db, c) <= CardKinds(db', c)
  {
    BorrowerFrame(db, Deactivate(db, d, confirmed).value, c);
  }

  lemma RowWriteSparesModule(db: Db, a: Action, c: ConsumerId)
    requires RowWrite(a) && c in db.consumers && !(a.SetConsumerActive? && a.consumer == c)
    ensures c in RowDb(db, a).consumers && RowDb(db, a).consumers[c] == db.consumers[c]
    ensures StepDb(db, a) == RowDb(db, a)
  {
  }

  lemma BorrowerKeepsCardOnRow(db: Db, a: Action, c: ConsumerId)
    requires Valid(db) && ActiveBorrower(db, c) && RowWrite(a) && !(a.SetConsumerActive? && a.consumer == c)
    ensures var db' := StepDb(db, a);
      ActiveBorrower(db', c) && Card(db', c) == Card(db, c) && CardKinds(db, c) <= CardKinds(db', c)
  {
    RowWriteFrame(db, a);
    RowWriteSparesModule(db, a, c);
    BorrowerFrame(db, RowDb(db, a), c);
  }

  lemma BorrowerKeepsCardOnCreate(db: Db, a: Action, c: ConsumerId)
    requires Valid(db) && ActiveBorrower(db, c) && a.Create?
    ensures var db' := StepDb(db, a);
      ActiveBorrower(db', c) && Card(db', c) == Card(db, c) && CardKinds(db, c) <= CardKinds(db', c)
  {
    BorrowerFrame(db, StepDb(db, a), c);
  }

  lemma BorrowerKeepsCardOnUpdate(db: Db, e: DeviceId, update: Update, pending: bool, c: ConsumerId)
    requires Valid(db) && ActiveBorrower(db, c) && !(update.owner == Some(c) && Card(db, c) == Some(e))
    requires UpdateDevice(db, e, update, pending).Ok?
    ensures var db' := UpdateDevice(db, e, update, pending).value;
      ActiveBorrower(db', c) && Card(db', c) == Card(db, c) && CardKinds(db, c) <= CardKinds(db', c)
  {
    var d := Card(db, c).value;
    assert AllowedKinds(db, c, d) != {} && HasRoute(db, c, d);
    var db' := UpdateDevice(db, e, update, pending).value;
    assert db'.routes == db.routes;
    assert Card(db', c) == Card(db, c);
  }

  lemma BorrowerKeepsCardOnCommit(db: Db, pending: Pending, c: ConsumerId)
    requires Valid(db) && ActiveBorrower(db, c)
    requires !(pending.Releasing? && pending.consumer == c)
    ensures var db' := OrUnchanged(db, Write(db, pending));
      ActiveBorrower(db', c) && Card(db', c) == Card(db, c) && CardKinds(db, c) <= CardKinds(db', c)
  {
    if Write(db, pending).Ok? {
      if pending.Releasing? { LetGoEffect(db, pending.consumer, pending.device); }
      BorrowerFrame(db, Write(db, pending).value, c);
    }
  }

  lemma OthersKeepBorrowerNow(db: Db, a: Action, c: ConsumerId)
    requires Valid(db) && ActiveBorrower(db, c) && !a.Commit? && !ConcernsModule(Sys(db, map[]), a, c)
    ensures ActiveBorrower(StepDb(db, a), c)
    ensures CardKinds(db, c) <= CardKinds(StepDb(db, a), c)
    ensures !a.Merge? ==> Card(StepDb(db, a), c) == Card(db, c)
  {
    if a.Merge? {
      if UseExistingNumber(db, a.source, a.target).Ok? { BorrowerKeepsCardOnMerge(db, a.source, a.target, c); }
    } else if a.Change? {
      if UpdateDevice(db, a.device, a.update, a.handoverPending).Ok? {
        BorrowerKeepsCardOnUpdate(db, a.device, a.update, a.handoverPending, c);
      }
    } else if a.SwitchOff? {
      if Deactivate(db, a.device, a.confirmed).Ok? { BorrowerKeepsCardOnSwitchOff(db, a.device, a.confirmed, c); }
    } else if CardRequest(a) {
      BorrowerKeepsCardOnOthersCard(db, a, c);
    } else if a.Create? {
      BorrowerKeepsCardOnCreate(db, a, c);
    } else if RowWrite(a) {
      BorrowerKeepsCardOnRow(db, a, c);
    } else {
      assert StepDb(db, a) == db;
    }
  }

  lemma OthersKeepBorrower(sys: Sys, a: Action, c: ConsumerId)
    requires Valid(sys.db) && ActiveBorrower(sys.db, c) && !ConcernsModule(sys, a, c)
    ensures ActiveBorrower(Step(sys, a).db, c)
    ensures CardKinds(sys.db, c) <= CardKinds(Step(sys, a).db, c)
    ensures !a.Merge? ==> Card(Step(sys, a).db, c) == Card(sys.db, c)
  {
    if a.Commit? {
      if a.request in sys.pending { BorrowerKeepsCardOnCommit(sys.db, sys.pending[a.request], c); }
    } else {
      StepIsOneTransaction(sys, a);
      OthersKeepBorrowerNow(sys.db, a, c);
    }
  }

  predicate NeverConcerns(sys: Sys, actions: seq<Action>, c: ConsumerId)
    decreases |actions|
  {
    actions == [] || (!ConcernsModule(sys, actions[0], c) && NeverConcerns(Step(sys, actions[0]), actions[1..], c))
  }

  /**
   * Whatever else happens, in any interleaving, an active module that sends through another module's number
   * keeps sending: its card stays filled and loses no kind of message.  What else excludes is only the module's
   * own requests, its operator switch, and being made the owner of the very number its card shows.
   */
  lemma {:induction false} BorrowerKeepsSending(sys: Sys, actions: seq<Action>, c: ConsumerId)
    requires Valid(sys.db) && ActiveBorrower(sys.db, c) && NeverConcerns(sys, actions, c)
    ensures ActiveBorrower(Run(sys, actions).db, c)
    ensures CardKinds(sys.db, c) <= CardKinds(Run(sys, actions).db, c)
    decreases |actions|
  {
    if actions != [] {
      OthersKeepBorrower(sys, actions[0], c);
      StepKeepsValid(sys, actions[0]);
      BorrowerKeepsSending(Step(sys, actions[0]), actions[1..], c);
    }
  }
}
