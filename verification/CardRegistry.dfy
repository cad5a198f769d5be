/**
 * The tables behind the module cards: `kirim_consumers` (one card each), `kirim_devices` (the
 * numbers) and `kirim_routes`, and what every request does to them.  A request is a function from
 * the tables before its transaction to the tables after it, or the error that rolls it back.
 */
module CardRegistry {
  import opened Common
  import opened TextOrder

  type ConsumerId = nat
  type DeviceId = nat
  type EventId = nat

  datatype Kind = Notification | Code
  datatype Provider = Log | JalurPesan
  datatype Status = NotInstalled | AwaitingPairing | Connected | Disconnected | Inactive

  datatype Consumer = Consumer(active: bool, card: Option<DeviceId>)

  /** What the admin sets for one number: its name, messages a minute, and the daily window as clock times. */
  datatype Settings = Settings(title: string, rate: nat, start: string, end: string)

  /** `phone` is the lookup HMAC of the linked phone; `filled` says some data table holds rows of the number. */
  datatype Device = Device(
    owner: ConsumerId,
    provider: Provider,
    tenant: Option<string>,
    status: Status,
    phone: Option<string>,
    createdAt: int,
    paused: bool,
    filled: bool,
    settings: Settings)

  datatype Route = Route(consumer: ConsumerId, device: DeviceId, kind: Kind)

  datatype Db = Db(
    consumers: map<ConsumerId, Consumer>,
    devices: map<DeviceId, Device>,
    routes: set<Route>,
    events: map<EventId, DeviceId>)

  datatype Error =
    | ConsumerInactive | CardAlreadyConnected | ModuleHasNumber | NumberNotOfModule
    | DeviceInactive | NumberIsOwn | NotFound
    | NotSamePhone | NotOlder | PairingNotApplicable | OwnerDiffers | NumberHasData
    | SharedNumber | ConfirmationNeeded | OwnerUnknown | ReasonRequired | InvalidRequest
    | QueueNotPaused | HandoverPending | Conflict

  type Outcome = Result<Db, Error>

  // ------------------------------------------------------------------------ what can be observed

  function Card(db: Db, c: ConsumerId): Option<DeviceId> {
    if c in db.consumers then db.consumers[c].card else None
  }

  predicate HasRoute(db: Db, c: ConsumerId, d: DeviceId) {
    Route(c, d, Notification) in db.routes || Route(c, d, Code) in db.routes
  }

  predicate Owns(db: Db, c: ConsumerId, d: DeviceId) {
    d in db.devices && db.devices[d].owner == c
  }

  /** The kinds of message a module may send through a number; an owner may always notify. */
  function AllowedKinds(db: Db, c: ConsumerId, d: DeviceId): set<Kind> {
    (if Route(c, d, Notification) in db.routes || Owns(db, c, d) then {Notification} else {})
    + (if Route(c, d, Code) in db.routes then {Code} else {})
  }

  datatype Role = EmptyCard | OwnerCard | BorrowerCard

  function RoleOf(db: Db, c: ConsumerId): Role {
    match Card(db, c)
    case None => EmptyCard
    case Some(d) =>
      if d !in db.devices then EmptyCard
      else if db.devices[d].owner == c then OwnerCard
      else BorrowerCard
  }

  /** A consumer whose card is on the number or that holds a route on it. */
  predicate Uses(db: Db, c: ConsumerId, d: DeviceId) {
    Card(db, c) == Some(d) || HasRoute(db, c, d)
  }

  predicate UsedByOtherActive(db: Db, d: DeviceId)
    requires d in db.devices
  {
    exists c :: c in db.consumers && c != db.devices[d].owner && db.consumers[c].active && Uses(db, c, d)
  }

  predicate UsedByAny(db: Db, d: DeviceId) {
    exists c :: c in db.consumers && Uses(db, c, d)
  }

  // --------------------------------------------------------------------------------- invariants

  /** The foreign keys: nothing points at a missing row. */
  ghost predicate References(db: Db) {
    && (forall c :: c in db.consumers && db.consumers[c].card.Some? ==> db.consumers[c].card.value in db.devices)
    && (forall d :: d in db.devices ==> db.devices[d].owner in db.consumers)
    && (forall r :: r in db.routes ==> r.consumer in db.consumers && r.device in db.devices)
    && (forall e :: e in db.events ==> db.events[e] in db.devices)
  }

  /** Every card that shows a number can send something through it. */
  ghost predicate CardsUsable(db: Db) {
    forall c :: c in db.consumers && db.consumers[c].card.Some? ==>
      AllowedKinds(db, c, db.consumers[c].card.value) != {}
  }

  ghost predicate Valid(db: Db) {
    References(db) && CardsUsable(db)
  }

  /** No card shows a number that was switched off. */
  ghost predicate CardsLive(db: Db) {
    forall c :: c in db.consumers && db.consumers[c].card.Some? && db.consumers[c].card.value in db.devices
      ==> db.devices[db.consumers[c].card.value].status != Inactive
  }

  // ------------------------------------------------------------------------------- single rows

  /** The consumer behind an application, created on first use. */
  function EnsureConsumer(db: Db, c: ConsumerId): Db {
    if c in db.consumers then db else db.(consumers := db.consumers[c := Consumer(true, None)])
  }

  function WithCard(db: Db, c: ConsumerId, card: Option<DeviceId>): Db
    requires c in db.consumers
  {
    db.(consumers := db.consumers[c := db.consumers[c].(card := card)])
  }

  /** A switched-off number keeps its status unless the caller may wake it. */
  function WithStatus(db: Db, d: DeviceId, status: Status, wake: bool): Db {
    if d !in db.devices || (db.devices[d].status == Inactive && !wake) then db
    else db.(devices := db.devices[d := db.devices[d].(status := status)])
  }

  // ----------------------------------------------------------------------------- card requests

  /** What lets go of borrowed numbers: the module's routes on numbers it neither owns nor takes now. */
  predicate LetGo(db: Db, c: ConsumerId, target: DeviceId, r: Route) {
    r.consumer == c && r.device != target && r.device in db.devices && db.devices[r.device].owner != c
  }

  predicate OnOtherOwnNumber(db: Db, c: ConsumerId, target: DeviceId) {
    match Card(db, c)
    case None => false
    case Some(d) => d != target && Owns(db, c, d)
  }

  function ReleaseBorrowed(db: Db, c: ConsumerId, target: DeviceId): Outcome {
    if OnOtherOwnNumber(db, c, target) then Err(CardAlreadyConnected)
    else Ok(db.(routes := set r | r in db.routes && !LetGo(db, c, target, r)))
  }

  predicate OwnsAny(db: Db, c: ConsumerId) {
    exists d :: d in db.devices && db.devices[d].owner == c
  }

  /** A random id names no row yet. */
  predicate FreshDevice(db: Db, d: DeviceId) {
    d !in db.devices
  }

  /** The columns' defaults. */
  function NewSettings(title: string): Settings {
    Settings(title, 10, "06:00", "21:00")
  }

  function NewDevice(owner: ConsumerId, provider: Provider, tenant: Option<string>, title: string, now: int): Device {
    Device(owner, provider, tenant, if provider == Log then Connected else NotInstalled, None, now, false, false,
      NewSettings(title))
  }

  function ConnectNewNumber(
    db: Db, c: ConsumerId, different: bool, provider: Provider, code: string, title: string, id: DeviceId, now: int)
    : Outcome
  {
    var db1 := EnsureConsumer(db, c);
    if !db1.consumers[c].active then Err(ConsumerInactive)
    else if db1.consumers[c].card.Some? then Err(CardAlreadyConnected)
    else if OwnsAny(db1, c) && !different then Err(ModuleHasNumber)
    else
      var device := NewDevice(c, provider, if provider == JalurPesan then Some(code) else None, title, now);
      Ok(WithCard(db1.(devices := db1.devices[id := device]), c, Some(id)))
  }

  function UseOwnNumber(db: Db, c: ConsumerId, d: DeviceId): Outcome {
    var db1 := EnsureConsumer(db, c);
    if !db1.consumers[c].active then Err(ConsumerInactive)
    else if !Owns(db1, c, d) then Err(NumberNotOfModule)
    else
      match ReleaseBorrowed(db1, c, d)
      case Err(e) => Err(e)
      case Ok(db2) =>
        var woken := if db2.devices[d].provider == Log then Connected else Disconnected;
        var db3 := if db2.devices[d].status == Inactive then WithStatus(db2, d, woken, true) else db2;
        Ok(WithCard(db3, c, Some(d)))
  }

  /** The routes of a module that has just borrowed `d`: everything it keeps, plus the kinds it was given. */
  function BorrowedRoutes(db: Db, c: ConsumerId, d: DeviceId, codes: bool): set<Route> {
    (set r | r in db.routes && !LetGo(db, c, d, r) && r != Route(c, d, Code))
    + {Route(c, d, Notification)}
    + (if codes then {Route(c, d, Code)} else {})
  }

  function UseNumber(db: Db, c: ConsumerId, d: DeviceId, codes: bool): Outcome {
    var db1 := EnsureConsumer(db, c);
    if !db1.consumers[c].active then Err(ConsumerInactive)
    else if d !in db1.devices || db1.devices[d].status == Inactive then Err(DeviceInactive)
    else if Owns(db1, c, d) then Err(NumberIsOwn)
    else if OnOtherOwnNumber(db1, c, d) then Err(CardAlreadyConnected)
    else Ok(WithCard(db1.(routes := BorrowedRoutes(db1, c, d, codes)), c, Some(d)))
  }

  /** The write half of Putuskan on a borrowed number; `c` and `d` were read before the transaction. */
  function LetGoOfNumber(db: Db, c: ConsumerId, d: DeviceId): Outcome {
    var db1 := EnsureConsumer(db, c);
    if !db1.consumers[c].active then Err(ConsumerInactive)
    else
      var db2 := db1.(routes := set r | r in db1.routes && !(r.consumer == c && r.device == d));
      Ok(if db2.consumers[c].card == Some(d) then WithCard(db2, c, None) else db2)
  }

  // ---------------------------------------------------------------------------- admin requests

  function CreateDevice(db: Db, id: DeviceId, owner: ConsumerId, provider: Provider, tenant: Option<string>,
      title: string, now: int): Outcome
  {
    if provider == JalurPesan && tenant.None? then Err(InvalidRequest)
    else if owner !in db.consumers then Err(OwnerUnknown)
    else Ok(db.(devices := db.devices[id := NewDevice(owner, provider, tenant, title, now)]))
  }

  /** The card follows the owner: the new owner's empty card shows the number, the old owner's card
      lets go of it unless the old owner still holds a route. */
  function CardAfterOwnerChange(db: Db, d: DeviceId, oldOwner: ConsumerId, newOwner: ConsumerId,
      c: ConsumerId): Option<DeviceId>
    requires c in db.consumers
  {
    if c == newOwner && db.consumers[c].card.None? then Some(d)
    else if c == oldOwner && db.consumers[c].card == Some(d) && !HasRoute(db, c, d) then None
    else db.consumers[c].card
  }

  function ChangeOwner(db: Db, d: DeviceId, newOwner: ConsumerId): Db
    requires d in db.devices
  {
    var oldOwner := db.devices[d].owner;
    if oldOwner == newOwner then db
    else Db(
      map c | c in db.consumers :: db.consumers[c].(card := CardAfterOwnerChange(db, d, oldOwner, newOwner, c)),
      db.devices[d := db.devices[d].(owner := newOwner)],
      db.routes,
      db.events)
  }

  /** Absent fields keep what the number has. */
  datatype Update = Update(
    owner: Option<ConsumerId>,
    provider: Option<Provider>,
    tenant: Option<Option<string>>,
    title: Option<string>,
    rate: Option<nat>,
    start: Option<string>,
    end: Option<string>,
    reason: bool)

  function ProviderWanted(device: Device, input: Update): Provider {
    if input.provider.Some? then input.provider.value else device.provider
  }

  function TenantWanted(device: Device, input: Update): Option<string> {
    if input.tenant.Some? then input.tenant.value else device.tenant
  }

  function OwnerWanted(device: Device, input: Update): ConsumerId {
    if input.owner.Some? then input.owner.value else device.owner
  }

  function SettingsWanted(device: Device, input: Update): Settings {
    Settings(
      if input.title.Some? then input.title.value else device.settings.title,
      if input.rate.Some? then input.rate.value else device.settings.rate,
      if input.start.Some? then input.start.value else device.settings.start,
      if input.end.Some? then input.end.value else device.settings.end)
  }

  predicate ProviderChanged(device: Device, input: Update) {
    ProviderWanted(device, input) != device.provider || TenantWanted(device, input) != device.tenant
  }

  function UpdateRefusal(db: Db, d: DeviceId, input: Update, handoverPending: bool): Option<Error> {
    if d !in db.devices then Some(NotFound)
    else
      var device := db.devices[d];
      if ProviderChanged(device, input) && !input.reason then Some(ReasonRequired)
      else if
        && ProviderChanged(device, input)
        && ProviderWanted(device, input) == JalurPesan
        && TenantWanted(device, input).None?
      then Some(InvalidRequest)
      else if ProviderChanged(device, input) && !device.paused then Some(QueueNotPaused)
      else if ProviderChanged(device, input) && handoverPending then Some(HandoverPending)
      else if OwnerWanted(device, input) !in db.consumers then Some(OwnerUnknown)
      else if !TextLess(SettingsWanted(device, input).start, SettingsWanted(device, input).end) then
        Some(InvalidRequest)
      else None
  }

  /** Another engine needs pairing again; a switched-off number stays switched off. */
  function UpdatedDevice(device: Device, input: Update): Device {
    var provider := ProviderWanted(device, input);
    device.(
      provider := provider,
      tenant := TenantWanted(device, input),
      settings := SettingsWanted(device, input),
      status :=
        if !ProviderChanged(device, input) || device.status == Inactive then device.status
        else if provider == Log then Connected
        else NotInstalled)
  }

  function UpdateDevice(db: Db, d: DeviceId, input: Update, handoverPending: bool): Outcome {
    match UpdateRefusal(db, d, input, handoverPending)
    case Some(e) => Err(e)
    case None =>
      var device := db.devices[d];
      Ok(ChangeOwner(db.(devices := db.devices[d := UpdatedDevice(device, input)]), d, OwnerWanted(device, input)))
  }

  predicate Older(db: Db, a: DeviceId, b: DeviceId)
    requires a in db.devices && b in db.devices
  {
    db.devices[a].createdAt < db.devices[b].createdAt
    || (db.devices[a].createdAt == db.devices[b].createdAt && a < b)
  }

  /** What a card or route pointing at `source` points at once `source` is merged into `target`. */
  function Moved(d: DeviceId, source: DeviceId, target: DeviceId): DeviceId {
    if d == source then target else d
  }

  function MovedCard(card: Option<DeviceId>, source: DeviceId, target: DeviceId): Option<DeviceId> {
    match card case None => None case Some(d) => Some(Moved(d, source, target))
  }

  function Merged(db: Db, source: DeviceId, target: DeviceId): Db
    requires source in db.devices && target in db.devices
  {
    var s, t := db.devices[source], db.devices[target];
    var status :=
      if t.status == s.status then t.status
      else if s.status == Inactive then Disconnected
      else s.status;
    Db(
      map c | c in db.consumers :: db.consumers[c].(card := MovedCard(db.consumers[c].card, source, target)),
      db.devices[target := t.(tenant := s.tenant, status := status)] - {source},
      set r | r in db.routes :: Route(r.consumer, Moved(r.device, source, target), r.kind),
      map e | e in db.events :: Moved(db.events[e], source, target))
  }

  function MergeRefusal(db: Db, source: DeviceId, target: DeviceId): Option<Error> {
    if source == target || source !in db.devices || target !in db.devices then Some(NotFound)
    else
      var s, t := db.devices[source], db.devices[target];
      if s.phone.None? || s.phone != t.phone then Some(NotSamePhone)
      else if !Older(db, target, source) then Some(NotOlder)
      else if s.provider != JalurPesan || t.provider != JalurPesan || s.tenant.None? then Some(PairingNotApplicable)
      else if s.owner != t.owner then Some(OwnerDiffers)
      else if s.filled then Some(NumberHasData)
      else None
  }

  function UseExistingNumber(db: Db, source: DeviceId, target: DeviceId): Outcome {
    match MergeRefusal(db, source, target)
    case Some(e) => Err(e)
    case None => Ok(Merged(db, source, target))
  }

  function Deactivate(db: Db, d: DeviceId, confirmed: bool): Outcome {
    if d !in db.devices then Err(NotFound)
    else if UsedByOtherActive(db, d) then Err(SharedNumber)
    else if UsedByAny(db, d) && !confirmed then Err(ConfirmationNeeded)
    else Ok(Db(
      map c | c in db.consumers ::
        if db.consumers[c].card == Some(d) then db.consumers[c].(card := None) else db.consumers[c],
      db.devices[d := db.devices[d].(status := Inactive)],
      db.routes,
      db.events))
  }

  /** The write half of Putuskan by the owner, after the engine logged the session out. */
  function CutNumber(db: Db, d: DeviceId, provider: Provider): Outcome {
    if d !in db.devices then Err(NotFound)
    else if UsedByOtherActive(db, d) then Err(SharedNumber)
    else Ok(if provider == JalurPesan then WithStatus(db, d, Disconnected, false) else db)
  }

  /** The write half of Sambungkan ulang; a number changed since it was read wins. */
  function FinishReconnect(db: Db, d: DeviceId, tenantRead: Option<string>, newTenant: Option<string>): Outcome {
    if d !in db.devices || db.devices[d].status == Inactive then Err(DeviceInactive)
    else if db.devices[d].tenant != tenantRead || db.devices[d].provider != JalurPesan then Err(Conflict)
    else
      var device := db.devices[d];
      var db1 := if newTenant.Some? then db.(devices := db.devices[d := device.(tenant := newTenant)]) else db;
      Ok(WithStatus(db1, d, AwaitingPairing, false))
  }
}
