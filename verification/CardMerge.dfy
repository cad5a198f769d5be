/**
 * Merging a duplicate number into the older number of the same phone: what every module may do
 * afterwards is exactly what it could do before, on either number.
 */
module CardMerge {
  import opened Common
  import opened CardRegistry

  function EventsOf(db: Db, d: DeviceId): set<EventId> {
    set e | e in db.events && db.events[e] == d
  }

  lemma MergedRoute(db: Db, source: DeviceId, target: DeviceId, c: ConsumerId, d: DeviceId, kind: Kind)
    requires source in db.devices && target in db.devices && source != target
    ensures Route(c, d, kind) in Merged(db, source, target).routes
      <==> (d != source && Route(c, d, kind) in db.routes) || (d == target && Route(c, source, kind) in db.routes)
  {
    var db' := Merged(db, source, target);
    if d != source && Route(c, d, kind) in db.routes {
      var r := Route(c, d, kind);
      assert Route(r.consumer, Moved(r.device, source, target), r.kind) in db'.routes;
    }
    if d == target && Route(c, source, kind) in db.routes {
      var r := Route(c, source, kind);
      assert Route(r.consumer, Moved(r.device, source, target), r.kind) in db'.routes;
    }
  }

  /** On the surviving number each module has exactly the union of its kinds on both. */
  lemma MergeUnitesKinds(db: Db, source: DeviceId, target: DeviceId, c: ConsumerId)
    requires Valid(db) && UseExistingNumber(db, source, target).Ok?
    ensures var db' := UseExistingNumber(db, source, target).value;
      AllowedKinds(db', c, target) == AllowedKinds(db, c, source) + AllowedKinds(db, c, target)
  {
    MergedRoute(db, source, target, c, target, Notification);
    MergedRoute(db, source, target, c, target, Code);
  }

  /** Rights on every other number are untouched. */
  lemma MergeLeavesOthers(db: Db, source: DeviceId, target: DeviceId, c: ConsumerId, d: DeviceId)
    requires Valid(db) && UseExistingNumber(db, source, target).Ok? && d != source && d != target
    ensures var db' := UseExistingNumber(db, source, target).value;
      && AllowedKinds(db', c, d) == AllowedKinds(db, c, d)
      && (d in db'.devices <==> d in db.devices)
      && (d in db.devices ==> db'.devices[d] == db.devices[d])
  {
    MergedRoute(db, source, target, c, d, Notification);
    MergedRoute(db, source, target, c, d, Code);
  }

  /** Every card keeps its role, and a card shows the surviving number iff it showed either. */
  lemma MergeKeepsRoles(db: Db, source: DeviceId, target: DeviceId, c: ConsumerId)
    requires Valid(db) && UseExistingNumber(db, source, target).Ok?
    ensures var db' := UseExistingNumber(db, source, target).value;
      && RoleOf(db', c) == RoleOf(db, c)
      && (Card(db', c) == Some(target) <==> Card(db, c) == Some(source) || Card(db, c) == Some(target))
      && (Card(db, c) != Some(source) ==> Card(db', c) == Card(db, c))
  {
  }

  /** Nothing refers to the removed number any more. */
  lemma MergeRemovesSource(db: Db, source: DeviceId, target: DeviceId, c: ConsumerId)
    requires Valid(db) && UseExistingNumber(db, source, target).Ok?
    ensures var db' := UseExistingNumber(db, source, target).value;
      && source !in db'.devices && !Uses(db', c, source) && target in db'.devices
      && (forall e :: e in db'.events ==> db'.events[e] != source)
  {
    MergedRoute(db, source, target, c, source, Notification);
    MergedRoute(db, source, target, c, source, Code);
  }

  /** The engine events of both numbers are the survivor's, so it keeps pulling from where either stopped. */
  lemma MergeMovesEvents(db: Db, source: DeviceId, target: DeviceId, d: DeviceId)
    requires Valid(db) && UseExistingNumber(db, source, target).Ok?
    ensures var db' := UseExistingNumber(db, source, target).value;
      EventsOf(db', d) ==
        if d == source then {} else if d == target then EventsOf(db, source) + EventsOf(db, target) else EventsOf(db, d)
  {
  }

  /** The surviving number carries on the engine session: its tenant, and a status that is never switched off
      unless both numbers were. */
  lemma MergeTakesSession(db: Db, source: DeviceId, target: DeviceId)
    requires Valid(db) && UseExistingNumber(db, source, target).Ok?
    ensures var s, t, t' := db.devices[source], db.devices[target],
      UseExistingNumber(db, source, target).value.devices[target];
      && t'.tenant == s.tenant && t'.owner == s.owner && t'.phone == s.phone && t'.provider == s.provider
      && (t'.status == Inactive <==> s.status == Inactive && t.status == Inactive)
      && (s.status != Inactive ==> t'.status == s.status)
      && t'.filled == t.filled && t'.createdAt == t.createdAt
  {
  }

  lemma MergeKeepsValid(db: Db, source: DeviceId, target: DeviceId)
    requires Valid(db)
    ensures UseExistingNumber(db, source, target).Ok? ==> Valid(UseExistingNumber(db, source, target).value)
  {
    if UseExistingNumber(db, source, target).Ok? {
      var db' := UseExistingNumber(db, source, target).value;
      forall x | x in db'.consumers && db'.consumers[x].card.Some?
        ensures AllowedKinds(db', x, db'.consumers[x].card.value) != {}
      {
        var d := db.consumers[x].card.value;
        if d == source || d == target { MergeUnitesKinds(db, source, target, x); }
        else { MergeLeavesOthers(db, source, target, x, d); }
      }
    }
  }

  lemma MergeLive(db: Db, source: DeviceId, target: DeviceId)
    requires Valid(db) && CardsLive(db)
    ensures UseExistingNumber(db, source, target).Ok? ==> CardsLive(UseExistingNumber(db, source, target).value)
  {
    if UseExistingNumber(db, source, target).Ok? {
      var db' := UseExistingNumber(db, source, target).value;
      MergeTakesSession(db, source, target);
      forall x | x in db'.consumers && db'.consumers[x].card.Some?
        ensures db'.devices[db'.consumers[x].card.value].status != Inactive
      {
        var d := db.consumers[x].card.value;
        assert db.devices[d].status != Inactive;
      }
    }
  }
}
