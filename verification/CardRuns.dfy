/**
 * Every interleaving of the card and number requests.  A request that reads before its transaction
 * (Putuskan, Sambungkan ulang) is two actions with anything in between; what it read waits in
 * `pending` and may be out of date by the time it is used.
 */
module CardRuns {
  import opened Common
  import opened CardRegistry
  import opened CardMerge

  type RequestId = nat

  datatype Pending =
    | Releasing(consumer: ConsumerId, device: DeviceId)
    | Cutting(device: DeviceId, provider: Provider)
    | Reconnecting(device: DeviceId, tenantRead: Option<string>, newTenant: Option<string>)

  datatype Sys = Sys(db: Db, pending: map<RequestId, Pending>)

  datatype Action =
    | ConnectNew(
        consumer: ConsumerId, different: bool, newProvider: Provider,
        code: string, title: string, id: DeviceId, now: int)
    | TakeBack(consumer: ConsumerId, device: DeviceId)
    | Borrow(consumer: ConsumerId, device: DeviceId, codes: bool)
    | DisconnectRead(request: RequestId, consumer: ConsumerId)
    | CutRead(request: RequestId, device: DeviceId)
    | ReconnectRead(request: RequestId, device: DeviceId, newTenant: Option<string>)
    | Commit(request: RequestId)
    | Abandon(request: RequestId)
    | Create(id: DeviceId, consumer: ConsumerId, newProvider: Provider, tenant: Option<string>, title: string, now: int)
    | Change(device: DeviceId, update: Update, handoverPending: bool)
    | Merge(source: DeviceId, target: DeviceId)
    | SwitchOff(device: DeviceId, confirmed: bool)
    | Pause(device: DeviceId, paused: bool)
    | EngineReport(device: DeviceId, reported: Status, phone: Option<string>)
    | DataStored(device: DeviceId)
    | EventRecorded(event: EventId, device: DeviceId)
    | SetConsumerActive(consumer: ConsumerId, active: bool)
    | Register(consumer: ConsumerId)

  /** A refused request is rolled back. */
  function OrUnchanged(db: Db, outcome: Outcome): Db {
    match outcome case Ok(db') => db' case Err(_) => db
  }

  function Read(sys: Sys, request: RequestId, pending: Pending): Sys {
    sys.(pending := sys.pending[request := pending])
  }

  /** What a request reads first: whose number the card shows decides which write follows. */
  function ReadForDisconnect(sys: Sys, request: RequestId, c: ConsumerId): Sys {
    match Card(sys.db, c)
    case None => sys
    case Some(d) =>
      if d !in sys.db.devices then sys
      else if !Owns(sys.db, c, d) then Read(sys, request, Releasing(c, d))
      else ReadForCut(sys, request, d)
  }

  function ReadForCut(sys: Sys, request: RequestId, d: DeviceId): Sys {
    if d !in sys.db.devices || UsedByOtherActive(sys.db, d) then sys
    else Read(sys, request, Cutting(d, sys.db.devices[d].provider))
  }

  function ReadForReconnect(sys: Sys, request: RequestId, d: DeviceId, newTenant: Option<string>): Sys {
    if d !in sys.db.devices then sys
    else
      var device := sys.db.devices[d];
      if device.status == Inactive || device.provider == Log || device.status == NotInstalled then sys
      else Read(sys, request, Reconnecting(d, device.tenant, newTenant))
  }

  function Write(db: Db, pending: Pending): Outcome {
    match pending
    case Releasing(c, d) => LetGoOfNumber(db, c, d)
    case Cutting(d, provider) => CutNumber(db, d, provider)
    case Reconnecting(d, tenantRead, newTenant) => FinishReconnect(db, d, tenantRead, newTenant)
  }

  function WithDevice(db: Db, d: DeviceId, device: Device): Db {
    db.(devices := db.devices[d := device])
  }

  /** What the engine says of a number: its status, unless it is switched off, and the phone once it is known. */
  function ReportedDevice(device: Device, status: Status, phone: Option<string>): Device {
    device.(
      phone := if phone.Some? then phone else device.phone,
      status := if device.status == Inactive then Inactive else status)
  }

  function Reported(db: Db, d: DeviceId, status: Status, phone: Option<string>): Db {
    if d !in db.devices || status == Inactive then db
    else WithDevice(db, d, ReportedDevice(db.devices[d], status, phone))
  }

  function Paused(db: Db, d: DeviceId, paused: bool): Db {
    if d in db.devices then WithDevice(db, d, db.devices[d].(paused := paused)) else db
  }

  function Stored(db: Db, d: DeviceId): Db {
    if d in db.devices then WithDevice(db, d, db.devices[d].(filled := true)) else db
  }

  /** An event id is recorded once. */
  function Recorded(db: Db, e: EventId, d: DeviceId): Db {
    if d in db.devices && e !in db.events then db.(events := db.events[e := d]) else db
  }

  function SwitchedModule(db: Db, c: ConsumerId, active: bool): Db {
    if c in db.consumers then db.(consumers := db.consumers[c := db.consumers[c].(active := active)]) else db
  }

  function RowDb(db: Db, a: Action): Db {
    match a
    case Pause(d, paused) => Paused(db, d, paused)
    case EngineReport(d, status, phone) => Reported(db, d, status, phone)
    case DataStored(d) => Stored(db, d)
    case EventRecorded(e, d) => Recorded(db, e, d)
    case SetConsumerActive(c, active) => SwitchedModule(db, c, active)
    case Register(c) => EnsureConsumer(db, c)
    case _ => db
  }

  function StepDb(db: Db, a: Action): Db {
    match a
    case ConnectNew(c, different, provider, code, title, id, now) =>
      if FreshDevice(db, id) then OrUnchanged(db, ConnectNewNumber(db, c, different, provider, code, title, id, now))
      else db
    case TakeBack(c, d) => OrUnchanged(db, UseOwnNumber(db, c, d))
    case Borrow(c, d, codes) => OrUnchanged(db, UseNumber(db, c, d, codes))
    case Create(id, c, provider, tenant, title, now) =>
      if FreshDevice(db, id) then OrUnchanged(db, CreateDevice(db, id, c, provider, tenant, title, now)) else db
    case Change(d, update, handoverPending) => OrUnchanged(db, UpdateDevice(db, d, update, handoverPending))
    case Merge(source, target) => OrUnchanged(db, UseExistingNumber(db, source, target))
    case SwitchOff(d, confirmed) => OrUnchanged(db, Deactivate(db, d, confirmed))
    case Pause(_, _) => RowDb(db, a)
    case EngineReport(_, _, _) => RowDb(db, a)
    case DataStored(_) => RowDb(db, a)
    case EventRecorded(_, _) => RowDb(db, a)
    case SetConsumerActive(_, _) => RowDb(db, a)
    case Register(_) => RowDb(db, a)
    case DisconnectRead(_, _) => db
    case CutRead(_, _) => db
    case ReconnectRead(_, _, _) => db
    case Commit(_) => db
    case Abandon(_) => db
  }

  function Step(sys: Sys, a: Action): Sys {
    match a
    case DisconnectRead(request, c) => ReadForDisconnect(sys, request, c)
    case CutRead(request, d) => ReadForCut(sys, request, d)
    case ReconnectRead(request, d, newTenant) => ReadForReconnect(sys, request, d, newTenant)
    case Commit(request) =>
      if request in sys.pending then
        Sys(OrUnchanged(sys.db, Write(sys.db, sys.pending[request])), sys.pending - {request})
      else sys
    case Abandon(request) => sys.(pending := sys.pending - {request})
    case _ => sys.(db := StepDb(sys.db, a))
  }

  predicate CardRequest(a: Action) { a.ConnectNew? || a.TakeBack? || a.Borrow? }

  predicate NumberRequest(a: Action) { a.Create? || a.Change? || a.Merge? || a.SwitchOff? }

  /** A write to one row, of a number or a module, that leaves every card alone. */
  predicate RowWrite(a: Action) {
    a.Pause? || a.EngineReport? || a.DataStored? || a.EventRecorded? || a.SetConsumerActive? || a.Register?
  }

  /** All but the two-part requests act within one transaction. */
  lemma StepIsOneTransaction(sys: Sys, a: Action)
    requires !a.Commit?
    ensures Step(sys, a).db == StepDb(sys.db, a)
    ensures !CardRequest(a) && !NumberRequest(a) && !RowWrite(a) ==> StepDb(sys.db, a) == sys.db
  {
  }

  function Run(sys: Sys, actions: seq<Action>): Sys
    decreases |actions|
  {
    if actions == [] then sys else Run(Step(sys, actions[0]), actions[1..])
  }

  // ------------------------------------------------------ every card can send, in every reachable state

  lemma ReleaseKeepsOthers(db: Db, c: ConsumerId, target: DeviceId)
    requires Valid(db) && ReleaseBorrowed(db, c, target).Ok?
    ensures var db' := ReleaseBorrowed(db, c, target).value;
      && References(db') && db'.devices == db.devices && db'.consumers == db.consumers
      && (forall x :: x in db.consumers && x != c && db.consumers[x].card.Some?
            ==> AllowedKinds(db', x, db.consumers[x].card.value) != {})
  {
    var db' := ReleaseBorrowed(db, c, target).value;
    forall x | x in db.consumers && x != c && db.consumers[x].card.Some?
      ensures AllowedKinds(db', x, db.consumers[x].card.value) != {}
    {
      assert AllowedKinds(db', x, db.consumers[x].card.value) == AllowedKinds(db, x, db.consumers[x].card.value);
    }
  }

  lemma ConnectKeepsValid(db: Db, c: ConsumerId, different: bool, provider: Provider, code: string, title: string,
      id: DeviceId, now: int)
    requires Valid(db) && FreshDevice(db, id)
    ensures Valid(OrUnchanged(db, ConnectNewNumber(db, c, different, provider, code, title, id, now)))
  {
    var out := ConnectNewNumber(db, c, different, provider, code, title, id, now);
    if out.Ok? {
      var db' := out.value;
      forall x | x in db'.consumers && db'.consumers[x].card.Some?
        ensures AllowedKinds(db', x, db'.consumers[x].card.value) != {}
      {
        if x == c {
          assert Notification in AllowedKinds(db', c, id);
        } else {
          assert AllowedKinds(db', x, db'.consumers[x].card.value) == AllowedKinds(db, x, db.consumers[x].card.value);
        }
      }
    }
  }

  ghost predicate OthersUsable(db: Db, c: ConsumerId) {
    forall x :: x in db.consumers && x != c && db.consumers[x].card.Some? ==>
      AllowedKinds(db, x, db.consumers[x].card.value) != {}
  }

  lemma TakenCardUsable(db: Db, db': Db, c: ConsumerId, d: DeviceId)
    requires References(db) && c in db.consumers && d in db.devices && (Owns(db, c, d) || HasRoute(db, c, d))
    requires OthersUsable(db, c)
    requires db'.consumers == db.consumers[c := db.consumers[c].(card := Some(d))]
    requires db'.routes == db.routes && db'.events == db.events && db'.devices.Keys == db.devices.Keys
    requires forall e :: e in db.devices ==> db'.devices[e].owner == db.devices[e].owner
    ensures Valid(db')
  {
    forall x | x in db'.consumers && db'.consumers[x].card.Some?
      ensures AllowedKinds(db', x, db'.consumers[x].card.value) != {}
    {
      if x == c {
        assert Notification in AllowedKinds(db', c, d) || Code in AllowedKinds(db', c, d);
      } else {
        assert AllowedKinds(db', x, db'.consumers[x].card.value) == AllowedKinds(db, x, db.consumers[x].card.value);
      }
    }
  }

  lemma TakeBackKeepsValid(db: Db, c: ConsumerId, d: DeviceId)
    requires Valid(db)
    ensures Valid(OrUnchanged(db, UseOwnNumber(db, c, d)))
  {
    var out := UseOwnNumber(db, c, d);
    if out.Ok? {
      var db1 := EnsureConsumer(db, c);
      assert Valid(db1);
      ReleaseKeepsOthers(db1, c, d);
      TakenCardUsable(ReleaseBorrowed(db1, c, d).value, out.value, c, d);
    }
  }

  lemma BorrowedRoutesKeepOthers(db: Db, c: ConsumerId, d: DeviceId, codes: bool)
    requires Valid(db) && c in db.consumers && d in db.devices
    ensures var db' := db.(routes := BorrowedRoutes(db, c, d, codes));
      References(db') && OthersUsable(db', c) && HasRoute(db', c, d)
  {
    var db' := db.(routes := BorrowedRoutes(db, c, d, codes));
    forall x | x in db.consumers && x != c && db.consumers[x].card.Some?
      ensures AllowedKinds(db', x, db.consumers[x].card.value) != {}
    {
      assert AllowedKinds(db', x, db.consumers[x].card.value) == AllowedKinds(db, x, db.consumers[x].card.value);
    }
  }

  lemma BorrowKeepsValid(db: Db, c: ConsumerId, d: DeviceId, codes: bool)
    requires Valid(db)
    ensures Valid(OrUnchanged(db, UseNumber(db, c, d, codes)))
  {
    var out := UseNumber(db, c, d, codes);
    if out.Ok? {
      var db1 := EnsureConsumer(db, c);
      assert Valid(db1);
      BorrowedRoutesKeepOthers(db1, c, d, codes);
      TakenCardUsable(db1.(routes := BorrowedRoutes(db1, c, d, codes)), out.value, c, d);
    }
  }

  /** Putuskan may act on a card that moved on since it was read; no other card depends on the routes it removes. */
  lemma LetGoKeepsValid(db: Db, c: ConsumerId, d: DeviceId)
    requires Valid(db)
    ensures Valid(OrUnchanged(db, LetGoOfNumber(db, c, d)))
  {
    var out := LetGoOfNumber(db, c, d);
    if out.Ok? {
      var db1 := EnsureConsumer(db, c);
      assert Valid(db1);
      var db' := out.value;
      forall x | x in db'.consumers && db'.consumers[x].card.Some?
        ensures AllowedKinds(db', x, db'.consumers[x].card.value) != {}
      {
        assert x == c ==> db'.consumers[x].card != Some(d);
        assert AllowedKinds(db', x, db'.consumers[x].card.value) == AllowedKinds(db1, x, db1.consumers[x].card.value);
      }
    }
  }

  lemma ChangeOwnerKeepsValid(db: Db, d: DeviceId, owner: ConsumerId)
    requires Valid(db) && d in db.devices && owner in db.consumers
    ensures Valid(ChangeOwner(db, d, owner))
  {
    var db' := ChangeOwner(db, d, owner);
    forall x | x in db'.consumers && db'.consumers[x].card.Some?
      ensures AllowedKinds(db', x, db'.consumers[x].card.value) != {}
    {
      var e := db'.consumers[x].card.value;
      if x == owner && e == d && db.devices[d].owner != owner {
        assert Notification in AllowedKinds(db', x, d);
      } else if x == db.devices[d].owner && e == d && owner != x {
        assert HasRoute(db, x, d);
        assert Notification in AllowedKinds(db', x, d) || Code in AllowedKinds(db', x, d);
      } else {
        assert AllowedKinds(db', x, e) == AllowedKinds(db, x, e);
      }
    }
  }

  /** Rows that keep their owner keep every right. */
  lemma SameOwnersKeepValid(db: Db, db': Db)
    requires Valid(db)
    requires db'.consumers == db.consumers && db'.routes == db.routes && db'.devices.Keys == db.devices.Keys
    requires forall d :: d in db.devices ==> db'.devices[d].owner == db.devices[d].owner
    requires forall e :: e in db'.events ==> db'.events[e] in db.devices
    ensures Valid(db')
  {
    forall x | x in db'.consumers && db'.consumers[x].card.Some?
      ensures AllowedKinds(db', x, db'.consumers[x].card.value) != {}
    {
      assert AllowedKinds(db', x, db'.consumers[x].card.value) == AllowedKinds(db, x, db.consumers[x].card.value);
    }
  }

  lemma ChangeKeepsValid(db: Db, d: DeviceId, update: Update, handoverPending: bool)
    requires Valid(db)
    ensures Valid(OrUnchanged(db, UpdateDevice(db, d, update, handoverPending)))
  {
    if UpdateDevice(db, d, update, handoverPending).Ok? {
      SameOwnersKeepValid(db, RowUpdated(db, d, update));
      ChangeOwnerKeepsValid(RowUpdated(db, d, update), d, OwnerWanted(db.devices[d], update));
    }
  }

  lemma CreateKeepsValid(db: Db, id: DeviceId, owner: ConsumerId, provider: Provider, tenant: Option<string>,
      title: string, now: int)
    requires Valid(db) && FreshDevice(db, id)
    ensures Valid(OrUnchanged(db, CreateDevice(db, id, owner, provider, tenant, title, now)))
  {
    var out := CreateDevice(db, id, owner, provider, tenant, title, now);
    if out.Ok? {
      forall x | x in out.value.consumers && out.value.consumers[x].card.Some?
        ensures AllowedKinds(out.value, x, out.value.consumers[x].card.value) != {}
      {
        assert AllowedKinds(out.value, x, out.value.consumers[x].card.value) ==
          AllowedKinds(db, x, db.consumers[x].card.value);
      }
    }
  }

  lemma SwitchOffKeepsValid(db: Db, d: DeviceId, confirmed: bool)
    requires Valid(db)
    ensures Valid(OrUnchanged(db, Deactivate(db, d, confirmed)))
  {
    var out := Deactivate(db, d, confirmed);
    if out.Ok? {
      forall x | x in out.value.consumers && out.value.consumers[x].card.Some?
        ensures AllowedKinds(out.value, x, out.value.consumers[x].card.value) != {}
      {
        assert AllowedKinds(out.value, x, out.value.consumers[x].card.value) ==
          AllowedKinds(db, x, db.consumers[x].card.value);
      }
    }
  }

  lemma CommitKeepsValid(db: Db, pending: Pending)
    requires Valid(db)
    ensures Valid(OrUnchanged(db, Write(db, pending)))
  {
    match pending
    case Releasing(c, d) => LetGoKeepsValid(db, c, d);
    case Cutting(d, provider) => SameOwnersKeepValid(db, OrUnchanged(db, Write(db, pending)));
    case Reconnecting(d, tenantRead, newTenant) => SameOwnersKeepValid(db, OrUnchanged(db, Write(db, pending)));
  }

  /** What a write to one row leaves: cards, owners, routes, and no number newly switched off. */
  ghost predicate SameCards(db: Db, db': Db) {
    forall c :: c in db'.consumers ==>
      db'.consumers[c].card == if c in db.consumers then db.consumers[c].card else None
  }

  ghost predicate RowFrame(db: Db, db': Db) {
    && db.consumers.Keys <= db'.consumers.Keys && db'.devices.Keys == db.devices.Keys && db'.routes == db.routes
    && SameCards(db, db')
    && (forall d :: d in db.devices ==> db'.devices[d].owner == db.devices[d].owner)
    && (forall d :: d in db.devices && db'.devices[d].status == Inactive ==> db.devices[d].status == Inactive)
    && (forall e :: e in db'.events ==> db'.events[e] in db.devices)
  }

  lemma PausedFrame(db: Db, d: DeviceId, paused: bool)
    requires References(db)
    ensures RowFrame(db, Paused(db, d, paused))
  {
  }

  lemma ReportedFrame(db: Db, d: DeviceId, status: Status, phone: Option<string>)
    requires References(db)
    ensures RowFrame(db, Reported(db, d, status, phone))
  {
  }

  lemma StoredFrame(db: Db, d: DeviceId)
    requires References(db)
    ensures RowFrame(db, Stored(db, d))
  {
  }

  lemma RecordedFrame(db: Db, e: EventId, d: DeviceId)
    requires References(db)
    ensures RowFrame(db, Recorded(db, e, d))
  {
  }

  lemma SwitchedModuleFrame(db: Db, c: ConsumerId, active: bool)
    requires References(db)
    ensures RowFrame(db, SwitchedModule(db, c, active))
  {
  }

  lemma RegisteredFrame(db: Db, c: ConsumerId)
    requires References(db)
    ensures RowFrame(db, EnsureConsumer(db, c))
  {
  }

  lemma RowWriteFrame(db: Db, a: Action)
    requires References(db) && RowWrite(a)
    ensures RowFrame(db, RowDb(db, a))
  {
    match a
    case Pause(d, paused) => PausedFrame(db, d, paused);
    case EngineReport(d, status, phone) => ReportedFrame(db, d, status, phone);
    case DataStored(d) => StoredFrame(db, d);
    case EventRecorded(e, d) => RecordedFrame(db, e, d);
    case SetConsumerActive(c, active) => SwitchedModuleFrame(db, c, active);
    case Register(c) => RegisteredFrame(db, c);
  }

  lemma RowFrameKeepsValid(db: Db, db': Db)
    requires Valid(db) && RowFrame(db, db')
    ensures Valid(db')
  {
    forall x | x in db'.consumers && db'.consumers[x].card.Some?
      ensures AllowedKinds(db', x, db'.consumers[x].card.value) != {}
    {
      assert AllowedKinds(db', x, db'.consumers[x].card.value) == AllowedKinds(db, x, db.consumers[x].card.value);
    }
  }

  lemma CardRequestKeepsValid(db: Db, a: Action)
    requires Valid(db) && CardRequest(a)
    ensures Valid(StepDb(db, a))
  {
    match a
    case ConnectNew(c, different, provider, code, title, id, now) =>
      if FreshDevice(db, id) { ConnectKeepsValid(db, c, different, provider, code, title, id, now); }
    case TakeBack(c, d) => TakeBackKeepsValid(db, c, d);
    case Borrow(c, d, codes) => BorrowKeepsValid(db, c, d, codes);
  }

  lemma NumberRequestKeepsValid(db: Db, a: Action)
    requires Valid(db) && NumberRequest(a)
    ensures Valid(StepDb(db, a))
  {
    match a
    case Create(id, c, provider, tenant, title, now) =>
      if FreshDevice(db, id) { CreateKeepsValid(db, id, c, provider, tenant, title, now); }
    case Change(d, update, handoverPending) => ChangeKeepsValid(db, d, update, handoverPending);
    case Merge(source, target) => MergeKeepsValid(db, source, target);
    case SwitchOff(d, confirmed) => SwitchOffKeepsValid(db, d, confirmed);
  }

  lemma RowWriteKeepsValid(db: Db, a: Action)
    requires Valid(db) && RowWrite(a)
    ensures Valid(StepDb(db, a))
  {
    RowWriteFrame(db, a);
    RowFrameKeepsValid(db, RowDb(db, a));
  }

  lemma StepKeepsValid(sys: Sys, a: Action)
    requires Valid(sys.db)
    ensures Valid(Step(sys, a).db)
  {
    if a.Commit? {
      if a.request in sys.pending { CommitKeepsValid(sys.db, sys.pending[a.request]); }
    } else {
      StepIsOneTransaction(sys, a);
      if CardRequest(a) { CardRequestKeepsValid(sys.db, a); }
      else if NumberRequest(a) { NumberRequestKeepsValid(sys.db, a); }
      else if RowWrite(a) { RowWriteKeepsValid(sys.db, a); }
    }
  }

  /**
   * In every interleaving, whatever was read however long ago: no card or route points at a missing
   * number, and every card that shows a number can send at least one kind of message through it.
   */
  lemma {:induction false} RunKeepsValid(sys: Sys, actions: seq<Action>)
    requires Valid(sys.db)
    ensures Valid(Run(sys, actions).db)
    decreases |actions|
  {
    if actions != [] {
      StepKeepsValid(sys, actions[0]);
      RunKeepsValid(Step(sys, actions[0]), actions[1..]);
    }
  }

  // ----------------------------------------------------------------- cards and switched-off numbers

  /** An owner change that shows a switched-off number on the new owner's empty card; its status is not tested. */
  predicate ShowsInactive(db: Db, a: Action) {
    a.Change?
    && UpdateRefusal(db, a.device, a.update, a.handoverPending).None?
    && a.update.owner.Some?
    && db.devices[a.device].status == Inactive
    && a.update.owner.value != db.devices[a.device].owner
    && Card(db, a.update.owner.value).None?
  }

  lemma OwnerChangeLive(db: Db, d: DeviceId, owner: ConsumerId)
    requires Valid(db) && CardsLive(db) && d in db.devices && owner in db.consumers
    ensures CardsLive(ChangeOwner(db, d, owner))
      <==> !(db.devices[d].status == Inactive && owner != db.devices[d].owner && db.consumers[owner].card.None?)
  {
    var db' := ChangeOwner(db, d, owner);
    if db.devices[d].status == Inactive && owner != db.devices[d].owner && db.consumers[owner].card.None? {
      assert db'.consumers[owner].card == Some(d) && db'.devices[d].status == Inactive;
    } else {
      forall x | x in db'.consumers && db'.consumers[x].card.Some? && db'.consumers[x].card.value in db'.devices
        ensures db'.devices[db'.consumers[x].card.value].status != Inactive
      {
        var e := db'.consumers[x].card.value;
        assert db'.devices[e].status == db.devices[e].status;
        assert e == d || db.consumers[x].card == Some(e);
      }
    }
  }

  /** The update of the row alone: another engine, but still switched off if it was. */
  function RowUpdated(db: Db, d: DeviceId, update: Update): Db
    requires d in db.devices
  {
    db.(devices := db.devices[d := UpdatedDevice(db.devices[d], update)])
  }

  lemma RowUpdatedIs(db: Db, d: DeviceId, update: Update)
    requires Valid(db) && d in db.devices
    ensures Valid(RowUpdated(db, d, update))
    ensures RowUpdated(db, d, update).devices[d].owner == db.devices[d].owner
    ensures RowUpdated(db, d, update).devices[d].status == Inactive <==> db.devices[d].status == Inactive
    ensures CardsLive(db) ==> CardsLive(RowUpdated(db, d, update))
  {
    SameOwnersKeepValid(db, RowUpdated(db, d, update));
  }

  lemma ChangeLive(db: Db, a: Action)
    requires Valid(db) && CardsLive(db) && a.Change?
    ensures CardsLive(StepDb(db, a)) <==> !ShowsInactive(db, a)
  {
    var d, update := a.device, a.update;
    if UpdateDevice(db, d, update, a.handoverPending).Ok? {
      var owner := OwnerWanted(db.devices[d], update);
      RowUpdatedIs(db, d, update);
      OwnerChangeLive(RowUpdated(db, d, update), d, owner);
      assert StepDb(db, a) == ChangeOwner(RowUpdated(db, d, update), d, owner);
    } else {
      assert StepDb(db, a) == db;
    }
  }

  lemma ConnectLive(db: Db, c: ConsumerId, different: bool, provider: Provider, code: string, title: string,
      id: DeviceId, now: int)
    requires Valid(db) && CardsLive(db) && FreshDevice(db, id)
    ensures CardsLive(OrUnchanged(db, ConnectNewNumber(db, c, different, provider, code, title, id, now)))
  {
  }

  lemma TakeBackLive(db: Db, c: ConsumerId, d: DeviceId)
    requires Valid(db) && CardsLive(db)
    ensures CardsLive(OrUnchanged(db, UseOwnNumber(db, c, d)))
  {
  }

  lemma BorrowLive(db: Db, c: ConsumerId, d: DeviceId, codes: bool)
    requires Valid(db) && CardsLive(db)
    ensures CardsLive(OrUnchanged(db, UseNumber(db, c, d, codes)))
  {
  }

  lemma CreateLive(db: Db, id: DeviceId, owner: ConsumerId, provider: Provider, tenant: Option<string>, title: string,
      now: int)
    requires Valid(db) && CardsLive(db) && FreshDevice(db, id)
    ensures CardsLive(OrUnchanged(db, CreateDevice(db, id, owner, provider, tenant, title, now)))
  {
  }

  lemma SwitchOffLive(db: Db, d: DeviceId, confirmed: bool)
    requires Valid(db) && CardsLive(db)
    ensures CardsLive(OrUnchanged(db, Deactivate(db, d, confirmed)))
  {
  }

  /** Cards as they were, and no number switched off that was not: nothing dead comes on a card. */
  lemma SameCardsLive(db: Db, db': Db)
    requires Valid(db) && CardsLive(db) && SameCards(db, db') && db'.devices.Keys == db.devices.Keys
    requires forall d :: d in db.devices ==> (db'.devices[d].status == Inactive ==> db.devices[d].status == Inactive)
    ensures CardsLive(db')
  {
  }

  lemma LetGoLive(db: Db, c: ConsumerId, d: DeviceId)
    requires Valid(db) && CardsLive(db)
    ensures CardsLive(OrUnchanged(db, LetGoOfNumber(db, c, d)))
  {
  }

  lemma CommitLive(db: Db, pending: Pending)
    requires Valid(db) && CardsLive(db)
    ensures CardsLive(OrUnchanged(db, Write(db, pending)))
  {
    match pending
    case Releasing(c, d) => LetGoLive(db, c, d);
    case Cutting(d, provider) => SameCardsLive(db, OrUnchanged(db, CutNumber(db, d, provider)));
    case Reconnecting(d, tenantRead, newTenant) =>
      SameCardsLive(db, OrUnchanged(db, FinishReconnect(db, d, tenantRead, newTenant)));
  }

  lemma CardRequestLive(db: Db, a: Action)
    requires Valid(db) && CardsLive(db) && CardRequest(a)
    ensures CardsLive(StepDb(db, a))
  {
    match a
    case ConnectNew(c, different, provider, code, title, id, now) =>
      if FreshDevice(db, id) { ConnectLive(db, c, different, provider, code, title, id, now); }
    case TakeBack(c, d) => TakeBackLive(db, c, d);
    case Borrow(c, d, codes) => BorrowLive(db, c, d, codes);
  }

  lemma NumberRequestLive(db: Db, a: Action)
    requires Valid(db) && CardsLive(db) && NumberRequest(a) && !a.Change?
    ensures CardsLive(StepDb(db, a))
  {
    match a
    case Create(id, c, provider, tenant, title, now) =>
      if FreshDevice(db, id) { CreateLive(db, id, c, provider, tenant, title, now); }
    case Merge(source, target) => MergeLive(db, source, target);
    case SwitchOff(d, confirmed) => SwitchOffLive(db, d, confirmed);
  }

  lemma RowWriteLive(db: Db, a: Action)
    requires Valid(db) && CardsLive(db) && RowWrite(a)
    ensures CardsLive(StepDb(db, a))
  {
    RowWriteFrame(db, a);
    SameCardsLive(db, RowDb(db, a));
  }

  /**
   * Exactly one kind of step can put a switched-off number on a card: an owner change on a
   * switched-off number whose new owner's card is empty.
   */
  lemma StepLive(sys: Sys, a: Action)
    requires Valid(sys.db) && CardsLive(sys.db)
    ensures CardsLive(Step(sys, a).db) <==> !ShowsInactive(sys.db, a)
  {
    if a.Commit? {
      if a.request in sys.pending { CommitLive(sys.db, sys.pending[a.request]); }
    } else {
      StepIsOneTransaction(sys, a);
      if a.Change? { ChangeLive(sys.db, a); }
      else if CardRequest(a) { CardRequestLive(sys.db, a); }
      else if NumberRequest(a) { NumberRequestLive(sys.db, a); }
      else if RowWrite(a) { RowWriteLive(sys.db, a); }
    }
  }

  predicate NeverShowsInactive(sys: Sys, actions: seq<Action>)
    decreases |actions|
  {
    actions == [] || (!ShowsInactive(sys.db, actions[0]) && NeverShowsInactive(Step(sys, actions[0]), actions[1..]))
  }

  ghost predicate AlwaysLive(sys: Sys, actions: seq<Action>) {
    forall k :: 0 <= k <= |actions| ==> CardsLive(Run(sys, actions[..k]).db)
  }

  lemma RunAfterStep(sys: Sys, actions: seq<Action>, k: nat)
    requires actions != [] && k < |actions|
    ensures Run(sys, actions[..k + 1]) == Run(Step(sys, actions[0]), actions[1..][..k])
  {
    assert actions[..k + 1][1..] == actions[1..][..k];
  }

  /** No card shows a switched-off number at any point of a run iff no step of it is such an owner change. */
  lemma {:induction false} RunLive(sys: Sys, actions: seq<Action>)
    requires Valid(sys.db) && CardsLive(sys.db)
    ensures AlwaysLive(sys, actions) <==> NeverShowsInactive(sys, actions)
    decreases |actions|
  {
    if actions == [] {
      assert forall k :: 0 <= k <= |actions| ==> actions[..k] == [];
    } else {
      var next, rest := Step(sys, actions[0]), actions[1..];
      StepLive(sys, actions[0]);
      StepKeepsValid(sys, actions[0]);
      RunAfterStep(sys, actions, 0);
      assert Run(next, rest[..0]) == next;
      if CardsLive(next.db) {
        RunLive(next, rest);
        forall k: nat | k < |actions|
          ensures Run(sys, actions[..k + 1]) == Run(next, rest[..k])
        {
          RunAfterStep(sys, actions, k);
        }
        if AlwaysLive(next, rest) {
          forall k | 0 <= k <= |actions| ensures CardsLive(Run(sys, actions[..k]).db) {
            if k > 0 { assert Run(sys, actions[..(k - 1) + 1]) == Run(next, rest[..k - 1]); }
          }
        }
        if AlwaysLive(sys, actions) {
          forall k | 0 <= k <= |rest| ensures CardsLive(Run(next, rest[..k]).db) {
            assert Run(sys, actions[..k + 1]) == Run(next, rest[..k]);
          }
        }
      } else {
        assert !CardsLive(Run(sys, actions[..0 + 1]).db);
      }
    }
  }

  /** The smallest run that shows it: a switched-off number without a card, given to a module with an empty card. */
  lemma OwnerChangeCanShowInactive()
    ensures exists sys: Sys, a: Action :: Valid(sys.db) && CardsLive(sys.db) && !CardsLive(Step(sys, a).db)
  {
    var device := Device(0, Log, None, Inactive, None, 0, false, false, NewSettings("Nomor"));
    var db := Db(map[0 := Consumer(true, None), 1 := Consumer(true, None)], map[7 := device], {}, map[]);
    var sys := Sys(db, map[]);
    var a := Change(7, Update(Some(1), None, None, None, None, None, None, false), false);
    assert Valid(db) && CardsLive(db);
    assert ShowsInactive(db, a);
    StepLive(sys, a);
  }
}
