/**
 * The answer of every card and number request, told from the rows it finds and the fields it is given:
 * when it is accepted, which refusal comes first, and what every column is afterwards.
 */
module CardRequests {
  import opened Common
  import opened TextOrder
  import opened CardRegistry
  import opened CardMerge
  import opened CardRuns
  import opened CardRights

  // ------------------------------------------------------------------------------- card requests

  /** A module without a row is on, and its card is empty. */
  predicate ModuleOff(db: Db, c: ConsumerId) {
    c in db.consumers && !db.consumers[c].active
  }

  predicate CardShows(db: Db, c: ConsumerId, d: DeviceId) {
    c in db.consumers && db.consumers[c].card == Some(d)
  }

  predicate CardFilled(db: Db, c: ConsumerId) {
    c in db.consumers && db.consumers[c].card != None
  }

  predicate NumberOf(db: Db, d: DeviceId, c: ConsumerId) {
    d in db.devices && db.devices[d].owner == c
  }

  predicate ShowsOtherOwn(db: Db, c: ConsumerId, d: DeviceId) {
    c in db.consumers && db.consumers[c].card.Some?
    && db.consumers[c].card.value != d && NumberOf(db, db.consumers[c].card.value, c)
  }

  lemma OwnsAnyIff(db: Db, c: ConsumerId)
    ensures OwnsAny(EnsureConsumer(db, c), c) <==> exists d :: NumberOf(db, d, c)
  {
    if d :| NumberOf(db, d, c) { assert d in EnsureConsumer(db, c).devices; }
    if d :| d in EnsureConsumer(db, c).devices && db.devices[d].owner == c { assert NumberOf(db, d, c); }
  }

  lemma ConnectAnswer(db: Db, c: ConsumerId, different: bool, provider: Provider, code: string, title: string,
      id: DeviceId, now: int)
    ensures var answer := ConnectNewNumber(db, c, different, provider, code, title, id, now);
      if ModuleOff(db, c) then answer == Err(ConsumerInactive)
      else if CardFilled(db, c) then answer == Err(CardAlreadyConnected)
      else if !different && exists d :: NumberOf(db, d, c) then answer == Err(ModuleHasNumber)
      else answer.Ok?
  {
    OwnsAnyIff(db, c);
  }

  /** The two rows an accepted connect writes; everything else stays. */
  lemma ConnectRows(db: Db, c: ConsumerId, different: bool, provider: Provider, code: string, title: string,
      id: DeviceId, now: int)
    requires ConnectNewNumber(db, c, different, provider, code, title, id, now).Ok?
    ensures ConnectNewNumber(db, c, different, provider, code, title, id, now).value == Db(
      db.consumers[c := Consumer(true, Some(id))],
      db.devices[id := Device(c, provider,
        (match provider case Log => None case JalurPesan => Some(code)),
        (match provider case Log => Connected case JalurPesan => NotInstalled),
        None, now, false, false, Settings(title, 10, "06:00", "21:00"))],
      db.routes, db.events)
  {
  }

  /** What both requests for a known number do first: every route on other people's numbers goes, but on `target`. */
  lemma ReleaseAnswer(db: Db, c: ConsumerId, target: DeviceId)
    ensures var answer := ReleaseBorrowed(db, c, target);
      if ShowsOtherOwn(db, c, target) then answer == Err(CardAlreadyConnected)
      else
        && answer.Ok? && answer.value == db.(routes := answer.value.routes)
        && forall r :: r in answer.value.routes <==>
             r in db.routes
             && (r.consumer != c || r.device == target || r.device !in db.devices || NumberOf(db, r.device, c))
  {
  }

  lemma TakeBackAnswer(db: Db, c: ConsumerId, d: DeviceId)
    ensures var answer := UseOwnNumber(db, c, d);
      if ModuleOff(db, c) then answer == Err(ConsumerInactive)
      else if !NumberOf(db, d, c) then answer == Err(NumberNotOfModule)
      else if ShowsOtherOwn(db, c, d) then answer == Err(CardAlreadyConnected)
      else
        && answer.Ok? && answer.value.events == db.events
        && answer.value.consumers == db.consumers[c := Consumer(true, Some(d))]
  {
  }

  lemma BorrowAnswer(db: Db, c: ConsumerId, d: DeviceId, codes: bool)
    ensures var answer := UseNumber(db, c, d, codes);
      if ModuleOff(db, c) then answer == Err(ConsumerInactive)
      else if d !in db.devices || db.devices[d].status == Inactive then answer == Err(DeviceInactive)
      else if NumberOf(db, d, c) then answer == Err(NumberIsOwn)
      else if ShowsOtherOwn(db, c, d) then answer == Err(CardAlreadyConnected)
      else
        && answer.Ok? && answer.value.events == db.events
        && answer.value.consumers == db.consumers[c := Consumer(true, Some(d))]
  {
  }

  lemma LetGoAnswer(db: Db, c: ConsumerId, d: DeviceId)
    ensures var answer := LetGoOfNumber(db, c, d);
      if ModuleOff(db, c) then answer == Err(ConsumerInactive)
      else
        && answer.Ok? && answer.value.devices == db.devices && answer.value.events == db.events
        && answer.value.consumers == db.consumers[
             c := Consumer(true, if CardShows(db, c, d) || c !in db.consumers then None else db.consumers[c].card)]
        && (forall r :: r in answer.value.routes <==> r in db.routes && !(r.consumer == c && r.device == d))
  {
  }

  lemma CreateAnswer(db: Db, id: DeviceId, owner: ConsumerId, provider: Provider, tenant: Option<string>,
      title: string, now: int)
    ensures var answer := CreateDevice(db, id, owner, provider, tenant, title, now);
      if provider == JalurPesan && tenant == None then answer == Err(InvalidRequest)
      else if owner !in db.consumers then answer == Err(OwnerUnknown)
      else answer == Ok(Db(db.consumers,
        db.devices[id := Device(owner, provider, tenant,
          (match provider case Log => Connected case JalurPesan => NotInstalled), None, now, false, false,
          Settings(title, 10, "06:00", "21:00"))],
        db.routes, db.events))
  {
  }

  // ------------------------------------------------------------------------- requests in a run

  /** One step commits what the request answers, or leaves every row. */
  predicate Commits(sys: Sys, a: Action, outcome: Outcome) {
    Step(sys, a) == match outcome case Ok(db) => Sys(db, sys.pending) case Err(_) => sys
  }

  /** A step of a run is the request it is named after; a new number comes with an id that is free. */
  lemma StepsAreRequests(sys: Sys, a: Action)
    ensures match a
      case ConnectNew(c, different, provider, code, title, id, now) => id !in sys.db.devices ==>
        Commits(sys, a, ConnectNewNumber(sys.db, c, different, provider, code, title, id, now))
      case Create(id, owner, provider, tenant, title, now) => id !in sys.db.devices ==>
        Commits(sys, a, CreateDevice(sys.db, id, owner, provider, tenant, title, now))
      case TakeBack(c, d) => Commits(sys, a, UseOwnNumber(sys.db, c, d))
      case Borrow(c, d, codes) => Commits(sys, a, UseNumber(sys.db, c, d, codes))
      case Change(d, input, handoverPending) => Commits(sys, a, UpdateDevice(sys.db, d, input, handoverPending))
      case Merge(source, target) => Commits(sys, a, UseExistingNumber(sys.db, source, target))
      case SwitchOff(d, confirmed) => Commits(sys, a, Deactivate(sys.db, d, confirmed))
      case _ => true
  {
  }

  // ----------------------------------------------------------------------------- numbers in use

  /** The module's card or one of its routes is on the number. */
  predicate SendsThrough(db: Db, c: ConsumerId, d: DeviceId) {
    CardShows(db, c, d) || Route(c, d, Notification) in db.routes || Route(c, d, Code) in db.routes
  }

  /** A module that is on, other than the owner, is on the number. */
  ghost predicate Shared(db: Db, d: DeviceId) {
    d in db.devices
    && exists c :: c in db.consumers && db.consumers[c].active && !NumberOf(db, d, c) && SendsThrough(db, c, d)
  }

  ghost predicate InUse(db: Db, d: DeviceId) {
    exists c :: c in db.consumers && SendsThrough(db, c, d)
  }

  lemma SharedIs(db: Db, d: DeviceId)
    requires d in db.devices
    ensures UsedByOtherActive(db, d) <==> Shared(db, d)
    ensures UsedByAny(db, d) <==> InUse(db, d)
  {
    assert forall c :: c in db.consumers ==> (Uses(db, c, d) <==> SendsThrough(db, c, d));
  }

  lemma SwitchOffAnswer(db: Db, d: DeviceId, confirmed: bool)
    ensures var answer := Deactivate(db, d, confirmed);
      if d !in db.devices then answer == Err(NotFound)
      else if Shared(db, d) then answer == Err(SharedNumber)
      else if InUse(db, d) && !confirmed then answer == Err(ConfirmationNeeded)
      else
        && answer.Ok? && answer.value.routes == db.routes && answer.value.events == db.events
        && answer.value.devices == db.devices[d := db.devices[d].(status := Inactive)]
        && answer.value.consumers.Keys == db.consumers.Keys
        && (forall c :: c in db.consumers ==>
              answer.value.consumers[c] ==
              Consumer(db.consumers[c].active, if CardShows(db, c, d) then None else db.consumers[c].card))
  {
    if d in db.devices { SharedIs(db, d); }
  }

  /** The write half of Putuskan by the owner; `provider` is what was read before the engine logged out. */
  lemma CutAnswer(db: Db, d: DeviceId, provider: Provider)
    ensures var answer := CutNumber(db, d, provider);
      if d !in db.devices then answer == Err(NotFound)
      else if Shared(db, d) then answer == Err(SharedNumber)
      else
        && answer.Ok? && answer.value.consumers == db.consumers
        && answer.value.routes == db.routes && answer.value.events == db.events
        && answer.value.devices == db.devices[d := db.devices[d].(status :=
             if provider == JalurPesan && db.devices[d].status != Inactive then Disconnected
             else db.devices[d].status)]
  {
    if d in db.devices { SharedIs(db, d); }
  }

  /** The write half of Sambungkan ulang. */
  lemma ReconnectAnswer(db: Db, d: DeviceId, tenantRead: Option<string>, newTenant: Option<string>)
    ensures var answer := FinishReconnect(db, d, tenantRead, newTenant);
      if d !in db.devices || db.devices[d].status == Inactive then answer == Err(DeviceInactive)
      else if db.devices[d].provider != JalurPesan || db.devices[d].tenant != tenantRead then answer == Err(Conflict)
      else
        && answer.Ok? && answer.value.consumers == db.consumers
        && answer.value.routes == db.routes && answer.value.events == db.events
        && answer.value.devices == db.devices[d := db.devices[d].(status := AwaitingPairing,
             tenant := match newTenant case Some(_) => newTenant case None => db.devices[d].tenant)]
  {
  }

  // ---------------------------------------------------------------------------- writes to one row

  /** One column of a number; a number that is not there stays away. */
  lemma NumberWritesDo(db: Db, d: DeviceId, paused: bool)
    ensures StepDb(db, Pause(d, paused)) ==
      if d !in db.devices then db else db.(devices := db.devices[d := db.devices[d].(paused := paused)])
    ensures StepDb(db, DataStored(d)) ==
      if d !in db.devices then db else db.(devices := db.devices[d := db.devices[d].(filled := true)])
  {
  }

  /** The engine never says of a number that it is switched off, and cannot wake one that is. */
  lemma EngineReportDoes(db: Db, d: DeviceId, reported: Status, phone: Option<string>)
    ensures var after := StepDb(db, EngineReport(d, reported, phone));
      if d !in db.devices || reported == Inactive then after == db
      else
        && after == db.(devices := db.devices[d := after.devices[d]])
        && after.devices[d] == db.devices[d].(
             phone := match phone case Some(_) => phone case None => db.devices[d].phone,
             status := if db.devices[d].status == Inactive then Inactive else reported)
  {
  }

  lemma OtherRowWritesDo(db: Db, e: EventId, d: DeviceId, c: ConsumerId, active: bool)
    ensures StepDb(db, EventRecorded(e, d)) ==
      if d !in db.devices || e in db.events then db else db.(events := db.events[e := d])
    ensures StepDb(db, SetConsumerActive(c, active)) ==
      if c !in db.consumers then db
      else db.(consumers := db.consumers[c := Consumer(active, db.consumers[c].card)])
    ensures StepDb(db, Register(c)) ==
      if c in db.consumers then db else db.(consumers := db.consumers[c := Consumer(true, None)])
  {
  }

  // -------------------------------------------------------------------------- update of a number

  /** Some engine field is given and differs from what the number has. */
  predicate AsksForEngine(number: Device, input: Update) {
    || (input.provider.Some? && input.provider != Some(number.provider))
    || (input.tenant.Some? && input.tenant != Some(number.tenant))
  }

  /** The engine after the update would be JalurPesan without a tenant. */
  predicate EngineIncomplete(number: Device, input: Update) {
    && (input.provider == Some(JalurPesan) || (input.provider.None? && number.provider == JalurPesan))
    && (input.tenant == Some(None) || (input.tenant.None? && number.tenant.None?))
  }

  /** A given field is what was given, an absent one what it was. */
  predicate Takes<T(==)>(given: Option<T>, before: T, after: T) {
    match given case Some(value) => after == value case None => after == before
  }

  /** The window after the update would not end after it starts. */
  ghost predicate WindowRefused(number: Device, input: Update) {
    exists start, end :: Takes(input.start, number.settings.start, start) && Takes(input.end, number.settings.end, end)
      && !TextLess(start, end)
  }

  lemma WindowRefusedIff(number: Device, input: Update)
    ensures WindowRefused(number, input)
      <==> !TextLess(SettingsWanted(number, input).start, SettingsWanted(number, input).end)
  {
    var s := SettingsWanted(number, input);
    assert Takes(input.start, number.settings.start, s.start) && Takes(input.end, number.settings.end, s.end);
  }

  /** The first refusal, or none. */
  lemma UpdateAnswer(db: Db, d: DeviceId, input: Update, handoverPending: bool)
    requires References(db)
    ensures var answer := UpdateDevice(db, d, input, handoverPending);
      if d !in db.devices then answer == Err(NotFound)
      else
        var number := db.devices[d];
        if AsksForEngine(number, input) && !input.reason then answer == Err(ReasonRequired)
        else if AsksForEngine(number, input) && EngineIncomplete(number, input) then answer == Err(InvalidRequest)
        else if AsksForEngine(number, input) && !number.paused then answer == Err(QueueNotPaused)
        else if AsksForEngine(number, input) && handoverPending then answer == Err(HandoverPending)
        else if input.owner.Some? && input.owner.value !in db.consumers then answer == Err(OwnerUnknown)
        else if WindowRefused(number, input) then answer == Err(InvalidRequest)
        else answer.Ok?
  {
    if d in db.devices {
      WindowRefusedIff(db.devices[d], input);
      assert AsksForEngine(db.devices[d], input) <==> ProviderChanged(db.devices[d], input);
    }
  }

  /** Every column of an accepted update: the given ones are new, the absent ones are as they were. */
  lemma UpdateEffect(db: Db, d: DeviceId, input: Update, handoverPending: bool)
    requires UpdateDevice(db, d, input, handoverPending).Ok?
    ensures d in db.devices
    ensures var number, number' := db.devices[d], UpdateDevice(db, d, input, handoverPending).value.devices[d];
      && Takes(input.owner, number.owner, number'.owner)
      && Takes(input.provider, number.provider, number'.provider)
      && Takes(input.tenant, number.tenant, number'.tenant)
      && Takes(input.title, number.settings.title, number'.settings.title)
      && Takes(input.rate, number.settings.rate, number'.settings.rate)
      && Takes(input.start, number.settings.start, number'.settings.start)
      && Takes(input.end, number.settings.end, number'.settings.end)
      && number'.phone == number.phone && number'.createdAt == number.createdAt
      && number'.paused == number.paused && number'.filled == number.filled
      && number'.status ==
           (if number'.provider == number.provider && number'.tenant == number.tenant then number.status
            else if number.status == Inactive then Inactive
            else match number'.provider case Log => Connected case JalurPesan => NotInstalled)
  {
  }

  /** Nothing else changes but the cards of the two owners. */
  lemma UpdateFrame(db: Db, d: DeviceId, input: Update, handoverPending: bool)
    requires UpdateDevice(db, d, input, handoverPending).Ok? && d in db.devices
    ensures var db', oldOwner := UpdateDevice(db, d, input, handoverPending).value, db.devices[d].owner;
      && OnlyNumber(db, db', d) && db'.consumers.Keys == db.consumers.Keys
      && (forall c :: c in db.consumers ==> db'.consumers[c].active == db.consumers[c].active)
      && (input.owner in {None, Some(oldOwner)} ==> db'.consumers == db.consumers)
      && (forall c :: c in db.consumers && c != oldOwner && Some(c) != input.owner ==>
            db'.consumers[c] == db.consumers[c])
      && (input.owner.Some? && input.owner.value != oldOwner ==>
            && (oldOwner in db.consumers ==>
                  db'.consumers[oldOwner].card ==
                  if CardShows(db, oldOwner, d) && Route(oldOwner, d, Notification) !in db.routes
                    && Route(oldOwner, d, Code) !in db.routes
                  then None else db.consumers[oldOwner].card)
            && input.owner.value in db'.consumers
            && db'.consumers[input.owner.value].card ==
                 if CardFilled(db, input.owner.value) then db.consumers[input.owner.value].card else Some(d))
  {
  }

  // ---------------------------------------------------------------------------------------- merge

  /** The first refusal of a merge of `source` into `target`, or the union of both. */
  lemma MergeAnswer(db: Db, source: DeviceId, target: DeviceId)
    ensures var answer := UseExistingNumber(db, source, target);
      if source !in db.devices || target !in db.devices || source == target then answer == Err(NotFound)
      else
        var s, t := db.devices[source], db.devices[target];
        if !(s.phone.Some? && t.phone.Some? && s.phone.value == t.phone.value) then answer == Err(NotSamePhone)
        else if t.createdAt > s.createdAt || (t.createdAt == s.createdAt && target > source) then
          answer == Err(NotOlder)
        else if !(s.provider == JalurPesan && t.provider == JalurPesan && s.tenant.Some?) then
          answer == Err(PairingNotApplicable)
        else if s.owner != t.owner then answer == Err(OwnerDiffers)
        else if s.filled then answer == Err(NumberHasData)
        else answer.Ok?
  {
  }

  /** The surviving row in full, and the modules' switches. */
  lemma MergeRow(db: Db, source: DeviceId, target: DeviceId)
    requires UseExistingNumber(db, source, target).Ok?
    ensures source in db.devices && target in db.devices
    ensures var s, t, db' := db.devices[source], db.devices[target], UseExistingNumber(db, source, target).value;
      && db'.devices.Keys == db.devices.Keys - {source} && target in db'.devices
      && db'.devices[target] == Device(t.owner, t.provider, s.tenant,
           (if s.status == Inactive && t.status != Inactive then Disconnected else s.status),
           t.phone, t.createdAt, t.paused, t.filled, t.settings)
      && db'.consumers.Keys == db.consumers.Keys
      && (forall c :: c in db.consumers ==>
            db'.consumers[c] ==
            Consumer(db.consumers[c].active, if CardShows(db, c, source) then Some(target) else db.consumers[c].card))
  {
  }
}
