/** How every number is set up: what the table's own checks ask for is never left to them. */
module CardNumbers {
  import opened Common
  import opened CardRegistry
  import opened CardRuns
  import opened TextOrder
  import SendClock
  import SendPolicy

  /** The table's checks: a window inside one day, a rate, and a tenant for the engine. */
  ghost predicate Configured(device: Device) {
    var s := device.settings;
    && SendPolicy.ClockTime(s.start) && SendPolicy.ClockTime(s.end) && TextLess(s.start, s.end)
    && 1 <= s.rate <= 60
    && (device.provider == JalurPesan ==> device.tenant.Some?)
  }

  ghost predicate AllConfigured(db: Db) {
    forall d :: d in db.devices ==> Configured(db.devices[d])
  }

  /** What the form accepts of an update. */
  predicate FormAccepts(input: Update) {
    && (input.start.Some? ==> SendPolicy.ClockTime(input.start.value))
    && (input.end.Some? ==> SendPolicy.ClockTime(input.end.value))
    && (input.rate.Some? ==> 1 <= input.rate.value <= 60)
  }

  ghost predicate MinuteOfTheDay(text: Option<string>) {
    text.Some? ==> exists h: nat, m: nat :: h < 24 && m < 60 && text.value == SendClock.Minutely(h, m)
  }

  lemma FormAcceptsIff(input: Update)
    ensures FormAccepts(input) <==>
      && MinuteOfTheDay(input.start) && MinuteOfTheDay(input.end)
      && (input.rate == None || 0 < input.rate.value < 61)
  {
    if input.start.Some? { SendClock.ClockTimeIff(input.start.value); }
    if input.end.Some? { SendClock.ClockTimeIff(input.end.value); }
  }

  predicate Accepted(a: Action) {
    a.Change? ==> FormAccepts(a.update)
  }

  lemma NewDeviceConfigured(owner: ConsumerId, provider: Provider, tenant: Option<string>, title: string, now: int)
    requires provider == JalurPesan ==> tenant.Some?
    ensures Configured(NewDevice(owner, provider, tenant, title, now))
  {
    var s := NewSettings(title);
    assert SendPolicy.TwoDigits(s.start, 0) && SendPolicy.TwoDigits(s.start, 3);
    assert SendPolicy.TwoDigits(s.end, 0) && SendPolicy.TwoDigits(s.end, 3);
  }

  lemma UpdateKeepsConfigured(db: Db, d: DeviceId, input: Update, handoverPending: bool)
    requires AllConfigured(db) && FormAccepts(input) && UpdateDevice(db, d, input, handoverPending).Ok?
    ensures AllConfigured(UpdateDevice(db, d, input, handoverPending).value)
  {
    var db' := UpdateDevice(db, d, input, handoverPending).value;
    assert Configured(UpdatedDevice(db.devices[d], input));
    forall e | e in db'.devices ensures Configured(db'.devices[e]) {
      if e != d { assert db'.devices[e] == db.devices[e]; }
    }
  }

  lemma AddedConfigured(db: Db, db': Db, id: DeviceId, device: Device)
    requires AllConfigured(db) && Configured(device) && db'.devices == db.devices[id := device]
    ensures AllConfigured(db')
  {
  }

  lemma ConnectKeepsConfigured(
      db: Db, c: ConsumerId, different: bool, provider: Provider, code: string, title: string, id: DeviceId, now: int)
    requires AllConfigured(db)
    ensures AllConfigured(OrUnchanged(db, ConnectNewNumber(db, c, different, provider, code, title, id, now)))
  {
    var out := ConnectNewNumber(db, c, different, provider, code, title, id, now);
    if out.Ok? {
      var tenant := if provider == JalurPesan then Some(code) else None;
      NewDeviceConfigured(c, provider, tenant, title, now);
      AddedConfigured(db, out.value, id, NewDevice(c, provider, tenant, title, now));
    }
  }

  lemma CreateKeepsConfigured(
      db: Db, id: DeviceId, owner: ConsumerId, provider: Provider, tenant: Option<string>, title: string, now: int)
    requires AllConfigured(db)
    ensures AllConfigured(OrUnchanged(db, CreateDevice(db, id, owner, provider, tenant, title, now)))
  {
    var out := CreateDevice(db, id, owner, provider, tenant, title, now);
    if out.Ok? {
      NewDeviceConfigured(owner, provider, tenant, title, now);
      AddedConfigured(db, out.value, id, NewDevice(owner, provider, tenant, title, now));
    }
  }

  lemma TakeBackKeepsConfigured(db: Db, c: ConsumerId, d: DeviceId)
    requires AllConfigured(db)
    ensures AllConfigured(OrUnchanged(db, UseOwnNumber(db, c, d)))
  {
  }

  lemma BorrowKeepsConfigured(db: Db, c: ConsumerId, d: DeviceId, codes: bool)
    requires AllConfigured(db)
    ensures AllConfigured(OrUnchanged(db, UseNumber(db, c, d, codes)))
  {
  }

  lemma MergeKeepsConfigured(db: Db, source: DeviceId, target: DeviceId)
    requires AllConfigured(db)
    ensures AllConfigured(OrUnchanged(db, UseExistingNumber(db, source, target)))
  {
  }

  lemma SwitchOffKeepsConfigured(db: Db, d: DeviceId, confirmed: bool)
    requires AllConfigured(db)
    ensures AllConfigured(OrUnchanged(db, Deactivate(db, d, confirmed)))
  {
  }

  lemma LetGoKeepsConfigured(db: Db, c: ConsumerId, d: DeviceId)
    requires AllConfigured(db)
    ensures AllConfigured(OrUnchanged(db, LetGoOfNumber(db, c, d)))
  {
  }

  lemma CutKeepsConfigured(db: Db, d: DeviceId, provider: Provider)
    requires AllConfigured(db)
    ensures AllConfigured(OrUnchanged(db, CutNumber(db, d, provider)))
  {
  }

  lemma ReconnectKeepsConfigured(db: Db, d: DeviceId, tenantRead: Option<string>, newTenant: Option<string>)
    requires AllConfigured(db)
    ensures AllConfigured(OrUnchanged(db, FinishReconnect(db, d, tenantRead, newTenant)))
  {
  }

  lemma CardRequestKeepsConfigured(db: Db, a: Action)
    requires AllConfigured(db) && CardRequest(a)
    ensures AllConfigured(StepDb(db, a))
  {
    match a
    case ConnectNew(c, different, provider, code, title, id, now) =>
      ConnectKeepsConfigured(db, c, different, provider, code, title, id, now);
    case TakeBack(c, d) => TakeBackKeepsConfigured(db, c, d);
    case Borrow(c, d, codes) => BorrowKeepsConfigured(db, c, d, codes);
  }

  lemma NumberRequestKeepsConfigured(db: Db, a: Action)
    requires AllConfigured(db) && NumberRequest(a) && Accepted(a)
    ensures AllConfigured(StepDb(db, a))
  {
    match a
    case Create(id, owner, provider, tenant, title, now) =>
      CreateKeepsConfigured(db, id, owner, provider, tenant, title, now);
    case Change(d, input, handoverPending) =>
      if UpdateDevice(db, d, input, handoverPending).Ok? { UpdateKeepsConfigured(db, d, input, handoverPending); }
    case Merge(source, target) => MergeKeepsConfigured(db, source, target);
    case SwitchOff(d, confirmed) => SwitchOffKeepsConfigured(db, d, confirmed);
  }

  lemma RowWriteKeepsConfigured(db: Db, a: Action)
    requires AllConfigured(db) && RowWrite(a)
    ensures AllConfigured(RowDb(db, a))
  {
  }

  lemma StepKeepsConfigured(sys: Sys, a: Action)
    requires AllConfigured(sys.db) && Accepted(a)
    ensures AllConfigured(Step(sys, a).db)
  {
    if a.Commit? {
      if a.request in sys.pending { CommitKeepsConfigured(sys.db, sys.pending[a.request]); }
    } else {
      StepIsOneTransaction(sys, a);
      if CardRequest(a) { CardRequestKeepsConfigured(sys.db, a); }
      else if NumberRequest(a) { NumberRequestKeepsConfigured(sys.db, a); }
      else if RowWrite(a) { RowWriteKeepsConfigured(sys.db, a); }
    }
  }

  lemma CommitKeepsConfigured(db: Db, pending: Pending)
    requires AllConfigured(db)
    ensures AllConfigured(OrUnchanged(db, Write(db, pending)))
  {
    match pending
    case Releasing(c, d) => LetGoKeepsConfigured(db, c, d);
    case Cutting(d, provider) => CutKeepsConfigured(db, d, provider);
    case Reconnecting(d, tenantRead, newTenant) => ReconnectKeepsConfigured(db, d, tenantRead, newTenant);
  }

  lemma {:induction false} RunKeepsConfigured(sys: Sys, actions: seq<Action>)
    requires AllConfigured(sys.db) && forall i :: 0 <= i < |actions| ==> Accepted(actions[i])
    ensures AllConfigured(Run(sys, actions).db)
    decreases |actions|
  {
    if actions != [] {
      StepKeepsConfigured(sys, actions[0]);
      RunKeepsConfigured(Step(sys, actions[0]), actions[1..]);
    }
  }

  /**
   * In every reachable state each number has a moment of every day at which a notification may leave it,
   * a rate between one and sixty, and a tenant if its engine needs one.
   */
  lemma EveryNumberHasAWindow(sys: Sys, actions: seq<Action>, d: DeviceId)
    requires AllConfigured(sys.db) && forall i :: 0 <= i < |actions| ==> Accepted(actions[i])
    requires d in Run(sys, actions).db.devices
    ensures var device := Run(sys, actions).db.devices[d];
      var start, end := SendPolicy.TimeOfDay(device.settings.start), SendPolicy.TimeOfDay(device.settings.end);
      && start.Some? && end.Some? && SendPolicy.RealWindow(start.value, end.value)
      && 1 <= device.settings.rate <= 60 && (device.provider == JalurPesan ==> device.tenant.Some?)
  {
    RunKeepsConfigured(sys, actions);
    var s := Run(sys, actions).db.devices[d].settings;
    SendPolicy.AdminCheckGivesRealWindow(s.start, s.end);
  }
}
