/**
 * Where the cards start: the migration that added the card column filled it from the numbers and
 * routes that were already there.  From that state on, every reachable state keeps the invariants.
 */
module CardMigration {
  import opened Common
  import opened CardRegistry
  import opened CardRuns

  function OwnWorking(db: Db, c: ConsumerId): set<DeviceId> {
    set d | d in db.devices && db.devices[d].owner == c && db.devices[d].status != Inactive
  }

  function RoutedWorking(db: Db, c: ConsumerId): set<DeviceId> {
    set d | d in db.devices && HasRoute(db, c, d) && db.devices[d].status != Inactive
  }

  ghost function Only(s: set<DeviceId>): (d: DeviceId)
    requires |s| == 1
    ensures s == {d}
  {
    var d :| d in s;
    assert |s - {d}| == 0;
    d
  }

  /** The module's only working number; without any, the only working number it has a route on. */
  ghost function FirstCard(db: Db, c: ConsumerId): Option<DeviceId> {
    if |OwnWorking(db, c)| == 1 then Some(Only(OwnWorking(db, c)))
    else if OwnWorking(db, c) == {} && |RoutedWorking(db, c)| == 1 then Some(Only(RoutedWorking(db, c)))
    else None
  }

  /** The column is new, so no card is set before the migration. */
  ghost function CardsFilled(db: Db): Db {
    db.(consumers := map c | c in db.consumers :: db.consumers[c].(card := FirstCard(db, c)))
  }

  /** A number that is the module's, or that it has a route on, and that is not switched off. */
  predicate Working(db: Db, c: ConsumerId, d: DeviceId, own: bool) {
    && d in db.devices && db.devices[d].status != Inactive
    && if own then db.devices[d].owner == c
       else Route(c, d, Notification) in db.routes || Route(c, d, Code) in db.routes
  }

  ghost predicate OnlyWorking(db: Db, c: ConsumerId, d: DeviceId, own: bool) {
    Working(db, c, d, own) && forall e :: Working(db, c, e, own) ==> e == d
  }

  lemma OneIff(s: set<DeviceId>, d: DeviceId)
    ensures |s| == 1 && Only(s) == d <==> d in s && forall e :: e in s ==> e == d
  {
    if |s| == 1 { assert s == {Only(s)}; }
    if d in s && forall e :: e in s ==> e == d { assert s == {d}; }
  }

  lemma WorkingSets(db: Db, c: ConsumerId)
    ensures forall d :: d in OwnWorking(db, c) <==> Working(db, c, d, true)
    ensures forall d :: d in RoutedWorking(db, c) <==> Working(db, c, d, false)
  {
  }

  /**
   * Which card the migration gives: the module's only working number; to a module without any, the only
   * working number it has a route on; else none.  Nothing else changes.
   */
  lemma FilledCardIff(db: Db, c: ConsumerId, d: DeviceId)
    requires c in db.consumers
    ensures CardsFilled(db) == db.(consumers := CardsFilled(db).consumers)
    ensures CardsFilled(db).consumers.Keys == db.consumers.Keys
    ensures CardsFilled(db).consumers[c].active == db.consumers[c].active
    ensures CardsFilled(db).consumers[c].card == Some(d) <==>
      || OnlyWorking(db, c, d, true)
      || ((forall e :: !Working(db, c, e, true)) && OnlyWorking(db, c, d, false))
  {
    WorkingSets(db, c);
    OneIff(OwnWorking(db, c), d);
    OneIff(RoutedWorking(db, c), d);
    assert OwnWorking(db, c) == {} <==> forall e :: !Working(db, c, e, true);
  }

  lemma FilledCardsHold(db: Db)
    requires References(db)
    ensures Valid(CardsFilled(db)) && CardsLive(CardsFilled(db))
  {
    var db' := CardsFilled(db);
    forall c | c in db'.consumers && db'.consumers[c].card.Some?
      ensures db'.consumers[c].card.value in db'.devices
      ensures AllowedKinds(db', c, db'.consumers[c].card.value) != {}
      ensures db'.devices[db'.consumers[c].card.value].status != Inactive
    {
      var d := db'.consumers[c].card.value;
      assert d in OwnWorking(db, c) || d in RoutedWorking(db, c);
      assert Owns(db', c, d) || HasRoute(db', c, d);
      assert Notification in AllowedKinds(db', c, d) || Code in AllowedKinds(db', c, d);
    }
  }

  /** Every state reachable from the migrated tables: no dangling card or route, and every filled card can send. */
  lemma ReachableCardsCanSend(db: Db, actions: seq<Action>, c: ConsumerId)
    requires References(db)
    ensures var end := Run(Sys(CardsFilled(db), map[]), actions).db;
      && References(end)
      && (RoleOf(end, c) != EmptyCard ==> AllowedKinds(end, c, Card(end, c).value) != {})
      && (RoleOf(end, c) == EmptyCard <==> Card(end, c).None?)
  {
    FilledCardsHold(db);
    RunKeepsValid(Sys(CardsFilled(db), map[]), actions);
  }
}
