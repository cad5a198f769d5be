/**
 * The tables as rows that requests change statement by statement inside one transaction.  Each method
 * is the SQL of one request; its contract says what the committed tables are, or that a refusal left
 * every row as it was.
 */
module CardService {
  import opened Common
  import opened CardRegistry
  import opened CardMerge
  import opened CardRuns
  import opened TextOrder

  type Answer = Result<(), Error>

  /** The request commits exactly what `outcome` says, or is rolled back with its error. */
  ghost predicate Commits(outcome: Outcome, before: Db, after: Db, answer: Answer) {
    match outcome
    case Ok(db) => answer == Ok(()) && after == db
    case Err(e) => answer == Err(e) && after == before
  }

  /** The statements that move cards and routes and drop the duplicate, read as one set of rows. */
  lemma MergedRows(before: Db, after: Db, source: DeviceId, target: DeviceId)
    requires source in before.devices && target in before.devices && source != target
    requires after.consumers.Keys == before.consumers.Keys
    requires forall c :: c in before.consumers ==>
      after.consumers[c] == before.consumers[c].(card := MovedCard(before.consumers[c].card, source, target))
    requires forall r: Route :: r in after.routes <==>
      r.device != source &&
        (r in before.routes || (r.device == target && Route(r.consumer, source, r.kind) in before.routes))
    requires after.events == map e | e in before.events :: Moved(before.events[e], source, target)
    requires after.devices ==
      (before.devices - {source})[target := WithSession(before.devices[source], before.devices[target])]
    ensures after == Merged(before, source, target)
  {
    var merged := Merged(before, source, target);
    SameRoutes(before, after.routes, source, target);
    assert after.consumers == merged.consumers;
    assert after.devices == merged.devices;
  }

  /** The survivor with the session of the duplicate. */
  function WithSession(s: Device, t: Device): Device {
    t.(tenant := s.tenant,
      status := if t.status == s.status then t.status else if s.status == Inactive then Disconnected else s.status)
  }

  lemma SameRoutes(before: Db, routes: set<Route>, source: DeviceId, target: DeviceId)
    requires source in before.devices && target in before.devices && source != target
    requires forall r: Route :: r in routes <==>
      r.device != source &&
        (r in before.routes || (r.device == target && Route(r.consumer, source, r.kind) in before.routes))
    ensures routes == Merged(before, source, target).routes
  {
    forall r: Route ensures r in routes <==> r in Merged(before, source, target).routes {
      MergedRoute(before, source, target, r.consumer, r.device, r.kind);
    }
  }

  /** A send that another transaction stored on the duplicate while its merge was under way. */
  function WithSend(db: Db, source: DeviceId, target: DeviceId, lateSend: bool): Db {
    if lateSend && MergeRefusal(db, source, target).None? then Stored(db, source) else db
  }

  lemma LateSendRefused(db: Db, source: DeviceId, target: DeviceId)
    requires MergeRefusal(db, source, target).None?
    ensures MergeRefusal(Stored(db, source), source, target) == Some(NumberHasData)
  {
  }

  class ModuleCards {
    var consumers: map<ConsumerId, Consumer>
    var devices: map<DeviceId, Device>
    var routes: set<Route>
    var events: map<EventId, DeviceId>

    function Rows(): Db
      reads this
    {
      Db(consumers, devices, routes, events)
    }

    method Rollback(before: Db)
      modifies this
      ensures Rows() == before
    {
      consumers, devices, routes, events := before.consumers, before.devices, before.routes, before.events;
    }

    method EnsureRow(c: ConsumerId)
      modifies this`consumers
      ensures Rows() == EnsureConsumer(old(Rows()), c)
    {
      if c !in consumers {
        consumers := consumers[c := Consumer(true, None)];
      }
    }

    method SetCard(c: ConsumerId, card: Option<DeviceId>)
      requires c in consumers
      modifies this`consumers
      ensures Rows() == WithCard(old(Rows()), c, card)
    {
      consumers := consumers[c := consumers[c].(card := card)];
    }

    method SetStatus(d: DeviceId, status: Status, wake: bool)
      modifies this`devices
      ensures Rows() == WithStatus(old(Rows()), d, status, wake)
    {
      if d in devices && devices[d].status != status && (wake || devices[d].status != Inactive) {
        devices := devices[d := devices[d].(status := status)];
      } else {
        assert d in devices && devices[d].status == status ==> devices[d := devices[d].(status := status)] == devices;
      }
    }

    /** Lets go of the numbers the module borrows; refused while its card shows a number of its own. */
    method Release(c: ConsumerId, target: DeviceId) returns (answer: Answer)
      requires c in consumers
      modifies this`routes
      ensures Commits(ReleaseBorrowed(old(Rows()), c, target), old(Rows()), Rows(), answer)
    {
      var card := consumers[c].card;
      if card.Some? && card.value != target && card.value in devices && devices[card.value].owner == c {
        return Err(CardAlreadyConnected);
      }
      var gone := set r | r in routes && r.consumer == c && r.device in devices && r.device != target &&
        devices[r.device].owner != c;
      routes := routes - gone;
      answer := Ok(());
      assert routes == set r | r in old(routes) && !LetGo(old(Rows()), c, target, r);
    }

    method ConnectNew(c: ConsumerId, different: bool, provider: Provider, code: string, title: string, id: DeviceId,
        now: int) returns (answer: Answer)
      requires Valid(Rows()) && FreshDevice(Rows(), id)
      modifies this
      ensures Commits(ConnectNewNumber(old(Rows()), c, different, provider, code, title, id, now), old(Rows()), Rows(),
        answer)
      ensures Valid(Rows())
    {
      var before := Rows();
      ConnectKeepsValid(before, c, different, provider, code, title, id, now);
      EnsureRow(c);
      var consumer := consumers[c];
      if !consumer.active { Rollback(before); return Err(ConsumerInactive); }
      if consumer.card.Some? { Rollback(before); return Err(CardAlreadyConnected); }
      var own := set d | d in devices && devices[d].owner == c;
      assert own != {} <==> OwnsAny(Rows(), c) by {
        if OwnsAny(Rows(), c) { var d :| d in devices && devices[d].owner == c; assert d in own; }
        if own != {} { var d :| d in own; assert d in devices && devices[d].owner == c; }
      }
      if own != {} && !different { Rollback(before); return Err(ModuleHasNumber); }
      var tenant := if provider == JalurPesan then Some(code) else None;
      devices := devices[id := NewDevice(c, provider, tenant, title, now)];
      SetCard(c, Some(id));
      answer := Ok(());
    }

    method TakeBackOwn(c: ConsumerId, d: DeviceId) returns (answer: Answer)
      requires Valid(Rows())
      modifies this
      ensures Commits(UseOwnNumber(old(Rows()), c, d), old(Rows()), Rows(), answer)
      ensures Valid(Rows())
    {
      var before := Rows();
      TakeBackKeepsValid(before, c, d);
      EnsureRow(c);
      if !consumers[c].active { Rollback(before); return Err(ConsumerInactive); }
      if d !in devices || devices[d].owner != c { Rollback(before); return Err(NumberNotOfModule); }
      var device := devices[d];
      var released := Release(c, d);
      if released.Err? { Rollback(before); return released; }
      if device.status == Inactive {
        SetStatus(d, if device.provider == Log then Connected else Disconnected, true);
      }
      SetCard(c, Some(d));
      answer := Ok(());
    }

    method BorrowNumber(c: ConsumerId, d: DeviceId, codes: bool) returns (answer: Answer)
      requires Valid(Rows())
      modifies this
      ensures Commits(UseNumber(old(Rows()), c, d, codes), old(Rows()), Rows(), answer)
      ensures Valid(Rows())
    {
      var before := Rows();
      BorrowKeepsValid(before, c, d, codes);
      EnsureRow(c);
      ghost var db1 := Rows();
      if !consumers[c].active { Rollback(before); return Err(ConsumerInactive); }
      if d !in devices || devices[d].status == Inactive { Rollback(before); return Err(DeviceInactive); }
      if devices[d].owner == c { Rollback(before); return Err(NumberIsOwn); }
      var released := Release(c, d);
      if released.Err? { Rollback(before); return released; }
      routes := routes + {Route(c, d, Notification)};
      if codes {
        routes := routes + {Route(c, d, Code)};
      } else {
        routes := routes - {Route(c, d, Code)};
      }
      SetCard(c, Some(d));
      answer := Ok(());
      assert routes == BorrowedRoutes(db1, c, d, codes);
    }

    /** The write half of Putuskan on a borrowed number. */
    method LetGoOf(c: ConsumerId, d: DeviceId) returns (answer: Answer)
      requires Valid(Rows())
      modifies this
      ensures Commits(LetGoOfNumber(old(Rows()), c, d), old(Rows()), Rows(), answer)
      ensures Valid(Rows())
    {
      var before := Rows();
      LetGoKeepsValid(before, c, d);
      EnsureRow(c);
      if !consumers[c].active { Rollback(before); return Err(ConsumerInactive); }
      routes := set r | r in routes && !(r.consumer == c && r.device == d);
      if consumers[c].card == Some(d) {
        SetCard(c, None);
      }
      answer := Ok(());
    }

    /** The card follows the owner: two updates, each touching one row at most. */
    method FollowOwner(d: DeviceId, oldOwner: ConsumerId, newOwner: ConsumerId)
      requires oldOwner != newOwner && oldOwner in consumers && newOwner in consumers
      modifies this`consumers
      ensures consumers == map c | c in old(consumers) ::
        old(consumers)[c].(card := CardAfterOwnerChange(old(Rows()), d, oldOwner, newOwner, c))
    {
      if consumers[newOwner].card.None? {
        SetCard(newOwner, Some(d));
      }
      if consumers[oldOwner].card == Some(d) && !HasRoute(Rows(), oldOwner, d) {
        SetCard(oldOwner, None);
      }
    }

    /** The checks before a number is changed, in the order they are made. */
    method CheckUpdate(d: DeviceId, input: Update, handoverPending: bool) returns (refusal: Option<Error>)
      requires Valid(Rows())
      ensures refusal == UpdateRefusal(Rows(), d, input, handoverPending)
    {
      if d !in devices { return Some(NotFound); }
      var device := devices[d];
      var provider := if input.provider.Some? then input.provider.value else device.provider;
      var tenant := if input.tenant.Some? then input.tenant.value else device.tenant;
      if provider != device.provider || tenant != device.tenant {
        if !input.reason { return Some(ReasonRequired); }
        if provider == JalurPesan && tenant.None? { return Some(InvalidRequest); }
        if !device.paused { return Some(QueueNotPaused); }
        if handoverPending { return Some(HandoverPending); }
      }
      if input.owner.Some? && input.owner.value != device.owner && input.owner.value !in consumers {
        return Some(OwnerUnknown);
      }
      var start := if input.start.Some? then input.start.value else device.settings.start;
      var end := if input.end.Some? then input.end.value else device.settings.end;
      if !TextLess(start, end) { return Some(InvalidRequest); }
      return None;
    }

    method UpdateRow(d: DeviceId, input: Update)
      requires d in devices
      modifies this`devices
      ensures devices ==
        old(devices)[d := UpdatedDevice(old(devices)[d], input).(owner := OwnerWanted(old(devices)[d], input))]
    {
      var device := devices[d];
      var provider := ProviderWanted(device, input);
      devices := devices[d := device.(
        owner := OwnerWanted(device, input),
        provider := provider,
        tenant := TenantWanted(device, input),
        settings := SettingsWanted(device, input))];
      if ProviderChanged(device, input) && device.status != Inactive {
        SetStatus(d, if provider == Log then Connected else NotInstalled, false);
      }
    }

    /** The two writes together are the owner change on the updated row. */
    static lemma TwoWritesAreUpdate(before: Db, after: Db, d: DeviceId, input: Update, handoverPending: bool)
      requires Valid(before) && UpdateRefusal(before, d, input, handoverPending).None?
      requires var device, owner := before.devices[d], OwnerWanted(before.devices[d], input);
        && after.routes == before.routes && after.events == before.events
        && after.devices == before.devices[d := UpdatedDevice(device, input).(owner := owner)]
        && after.consumers == if owner == device.owner then before.consumers else
             map c | c in before.consumers ::
               before.consumers[c].(card := CardAfterOwnerChange(before, d, device.owner, owner, c))
      ensures UpdateDevice(before, d, input, handoverPending) == Ok(after)
    {
      var device, owner := before.devices[d], OwnerWanted(before.devices[d], input);
      var db2 := before.(devices := before.devices[d := UpdatedDevice(device, input)]);
      assert forall c :: c in before.consumers ==>
        CardAfterOwnerChange(db2, d, device.owner, owner, c) == CardAfterOwnerChange(before, d, device.owner, owner, c);
      assert ChangeOwner(db2, d, owner).devices == after.devices;
      assert ChangeOwner(db2, d, owner).consumers == after.consumers;
    }

    method UpdateNumber(d: DeviceId, input: Update, handoverPending: bool) returns (answer: Answer)
      requires Valid(Rows())
      modifies this
      ensures Commits(UpdateDevice(old(Rows()), d, input, handoverPending), old(Rows()), Rows(), answer)
      ensures Valid(Rows())
    {
      ghost var before := Rows();
      var refusal := CheckUpdate(d, input, handoverPending);
      if refusal.Some? { return Err(refusal.value); }
      var oldOwner, owner := devices[d].owner, OwnerWanted(devices[d], input);
      UpdateRow(d, input);
      if owner != oldOwner {
        FollowOwner(d, oldOwner, owner);
      }
      answer := Ok(());
      TwoWritesAreUpdate(before, Rows(), d, input, handoverPending);
      ChangeKeepsValid(before, d, input, handoverPending);
    }

    method MoveCards(source: DeviceId, target: DeviceId)
      modifies this`consumers
      ensures consumers.Keys == old(consumers).Keys
      ensures forall c :: c in consumers ==>
        consumers[c] == old(consumers)[c].(card := MovedCard(old(consumers)[c].card, source, target))
    {
      consumers := map c | c in consumers ::
        if consumers[c].card == Some(source) then consumers[c].(card := Some(target)) else consumers[c];
    }

    /** Copies the duplicate's routes to the survivor, skipping those it has, and deletes the duplicate's. */
    method MoveRoutes(source: DeviceId, target: DeviceId)
      requires source != target
      modifies this`routes
      ensures forall r: Route :: r in routes <==>
        r.device != source &&
          (r in old(routes) || (r.device == target && Route(r.consumer, source, r.kind) in old(routes)))
    {
      var copied := set r | r in routes && r.device == source :: Route(r.consumer, target, r.kind);
      forall r: Route ensures r in copied <==> r.device == target && Route(r.consumer, source, r.kind) in routes {
        if r.device == target && Route(r.consumer, source, r.kind) in routes {
          var q := Route(r.consumer, source, r.kind);
          assert q in routes && q.device == source && r == Route(q.consumer, target, q.kind);
        }
      }
      routes := routes + copied;
      routes := set r | r in routes && r.device != source;
    }

    /** Rows of other tables that refer to the number keep it from being deleted. */
    method DeleteNumber(d: DeviceId) returns (ok: bool)
      requires d in devices
      modifies this`devices
      ensures ok <==> !old(devices)[d].filled
      ensures devices == if ok then old(devices) - {d} else old(devices)
    {
      ok := !devices[d].filled;
      if ok { devices := devices - {d}; }
    }

    /** Hands the engine session of the deleted duplicate `s` to the survivor. */
    method TakeSession(s: Device, target: DeviceId)
      requires target in devices
      modifies this`devices
      ensures devices == old(devices)[target := WithSession(s, old(devices)[target])]
    {
      var t := devices[target];
      devices := devices[target := t.(tenant := s.tenant)];
      if t.status != s.status {
        SetStatus(target, if s.status == Inactive then Disconnected else s.status, true);
      }
    }

    method MoveEvents(source: DeviceId, target: DeviceId)
      modifies this`events
      ensures events == map e | e in old(events) :: Moved(old(events)[e], source, target)
    {
      events := map e | e in events :: if events[e] == source then target else events[e];
    }

    method MoveReferences(source: DeviceId, target: DeviceId)
      requires source != target
      modifies this`events, this`consumers, this`routes
      ensures events == map e | e in old(events) :: Moved(old(events)[e], source, target)
      ensures consumers.Keys == old(consumers).Keys
      ensures forall c :: c in consumers ==>
        consumers[c] == old(consumers)[c].(card := MovedCard(old(consumers)[c].card, source, target))
      ensures forall r: Route :: r in routes <==>
        r.device != source
        && (r in old(routes) || (r.device == target && Route(r.consumer, source, r.kind) in old(routes)))
    {
      MoveEvents(source, target);
      MoveCards(source, target);
      MoveRoutes(source, target);
    }

    /** Another transaction stores data on a number. */
    method StoreData(d: DeviceId)
      requires Valid(Rows()) && d in devices
      modifies this`devices
      ensures Rows() == Stored(old(Rows()), d) && Valid(Rows())
    {
      StoredFrame(Rows(), d);
      RowFrameKeepsValid(Rows(), Stored(Rows(), d));
      devices := devices[d := devices[d].(filled := true)];
    }

    /** The writes of a merge in order; data on the duplicate makes the delete fail. */
    method WriteMerge(source: DeviceId, target: DeviceId) returns (ok: bool)
      requires source in devices && target in devices && source != target
      modifies this
      ensures ok <==> !old(devices)[source].filled
      ensures ok ==> Rows() == Merged(old(Rows()), source, target)
    {
      ghost var before := Rows();
      var duplicate := devices[source];
      MoveReferences(source, target);
      ok := DeleteNumber(source);
      if ok {
        TakeSession(duplicate, target);
        MergedRows(before, Rows(), source, target);
      }
    }

    /** The writes of a merge that passed its checks, or that would have but for data that came since. */
    method MergeRows(source: DeviceId, target: DeviceId) returns (answer: Answer)
      requires Valid(Rows())
      requires MergeRefusal(Rows(), source, target) in {None, Some(NumberHasData)}
      modifies this
      ensures Commits(UseExistingNumber(old(Rows()), source, target), old(Rows()), Rows(), answer)
      ensures Valid(Rows())
    {
      var before := Rows();
      MergeKeepsValid(before, source, target);
      var ok := WriteMerge(source, target);
      if ok {
        answer := Ok(());
      } else {
        Rollback(before);
        answer := Err(NumberHasData);
      }
    }

    /**
     * `lateSend`: after the tables of the duplicate are counted, another transaction stores data on it.
     * The merge then answers as one that was asked for after the send.
     */
    method UseExisting(source: DeviceId, target: DeviceId, lateSend: bool) returns (answer: Answer)
      requires Valid(Rows())
      modifies this
      ensures Commits(UseExistingNumber(WithSend(old(Rows()), source, target, lateSend), source, target),
        WithSend(old(Rows()), source, target, lateSend), Rows(), answer)
      ensures Valid(Rows())
    {
      var refusal := CheckMerge(source, target);
      if refusal.Some? { return Err(refusal.value); }
      if lateSend {
        LateSendRefused(Rows(), source, target);
        StoreData(source);
      }
      answer := MergeRows(source, target);
    }

    /** The checks before a merge, in the order they are made; `source` and `target` were asked for by name. */
    method CheckMerge(source: DeviceId, target: DeviceId) returns (refusal: Option<Error>)
      ensures refusal == MergeRefusal(Rows(), source, target)
    {
      if source == target || source !in devices || target !in devices { return Some(NotFound); }
      var s, t := devices[source], devices[target];
      if s.phone.None? || s.phone != t.phone { return Some(NotSamePhone); }
      if !Older(Rows(), target, source) { return Some(NotOlder); }
      if s.provider != JalurPesan || t.provider != JalurPesan || s.tenant.None? { return Some(PairingNotApplicable); }
      if s.owner != t.owner { return Some(OwnerDiffers); }
      if s.filled { return Some(NumberHasData); }
      return None;
    }

    method SwitchOff(d: DeviceId, confirmed: bool) returns (answer: Answer)
      requires Valid(Rows())
      modifies this
      ensures Commits(Deactivate(old(Rows()), d, confirmed), old(Rows()), Rows(), answer)
      ensures Valid(Rows())
    {
      SwitchOffKeepsValid(Rows(), d, confirmed);
      if d !in devices { return Err(NotFound); }
      if UsedByOtherActive(Rows(), d) { return Err(SharedNumber); }
      if UsedByAny(Rows(), d) && !confirmed { return Err(ConfirmationNeeded); }
      SetStatus(d, Inactive, false);
      assert devices == old(devices)[d := old(devices)[d].(status := Inactive)];
      consumers := map c | c in consumers ::
        if consumers[c].card == Some(d) then consumers[c].(card := None) else consumers[c];
      answer := Ok(());
    }

    /** The write half of Putuskan by the owner. */
    method Cut(d: DeviceId, provider: Provider) returns (answer: Answer)
      requires Valid(Rows())
      modifies this
      ensures Commits(CutNumber(old(Rows()), d, provider), old(Rows()), Rows(), answer)
      ensures Valid(Rows())
    {
      SameOwnersKeepValid(Rows(), OrUnchanged(Rows(), CutNumber(Rows(), d, provider)));
      if d !in devices { return Err(NotFound); }
      if UsedByOtherActive(Rows(), d) { return Err(SharedNumber); }
      if provider == JalurPesan {
        SetStatus(d, Disconnected, false);
      }
      answer := Ok(());
    }

    /** The write half of Sambungkan ulang. */
    method Reconnect(d: DeviceId, tenantRead: Option<string>, newTenant: Option<string>) returns (answer: Answer)
      requires Valid(Rows())
      modifies this
      ensures Commits(FinishReconnect(old(Rows()), d, tenantRead, newTenant), old(Rows()), Rows(), answer)
      ensures Valid(Rows())
    {
      SameOwnersKeepValid(Rows(), OrUnchanged(Rows(), FinishReconnect(Rows(), d, tenantRead, newTenant)));
      if d !in devices || devices[d].status == Inactive { return Err(DeviceInactive); }
      if devices[d].tenant != tenantRead || devices[d].provider != JalurPesan { return Err(Conflict); }
      if newTenant.Some? {
        devices := devices[d := devices[d].(tenant := newTenant)];
      }
      SetStatus(d, AwaitingPairing, false);
      answer := Ok(());
    }
  }
}
