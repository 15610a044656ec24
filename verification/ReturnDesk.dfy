/** The return and custody services themselves: loops and row updates over the tables, with rollback. */
module ReturnDesk {
  import opened Outcomes
  import opened ReturnTables
  import opened ReturnCreation

  /** A transaction either leaves what the specification says, or an error and nothing else. */
  ghost predicate Commits(before: Db, spec: Result<Db, Error>, r: Result<(), Error>, after: Db) {
    match spec
    case Ok(d) => r == Ok(()) && after == d
    case Err(e) => r == Err(e) && after == before
  }

  lemma {:induction false} ErrorStays(db: Db, r: nat, admin: UserId, verdict: Verdict, n: nat, m: nat)
    requires Linked(db) && n <= m <= |db.items| && DecideUpTo(db, r, admin, verdict, n).Err?
    ensures DecideUpTo(db, r, admin, verdict, m) == DecideUpTo(db, r, admin, verdict, n)
  {
    if n < m {
      ErrorStays(db, r, admin, verdict, n, m - 1);
    }
  }

  lemma {:induction false} BuildErrorStays(db: Db, user: UserId, r: nat, kind: Kind, entries: seq<Entry>, n: nat, m: nat)
    requires Linked(db) && n <= m <= |entries| && BuildHoldings(db, user, r, kind, entries, n).Err?
    ensures BuildHoldings(db, user, r, kind, entries, m) == BuildHoldings(db, user, r, kind, entries, n)
  {
    if n < m {
      BuildErrorStays(db, user, r, kind, entries, n, m - 1);
    }
  }

  lemma {:induction false} EquipmentIdsSnoc(payload: seq<Entry>, e: Entry)
    ensures EquipmentIds(payload + [e]) == EquipmentIds(payload) + if e.assetType == "equipment" then [e.publicId] else []
    decreases |payload|
  {
    if payload == [] {
      assert [e][1..] == [];
    } else {
      assert (payload + [e])[1..] == payload[1..] + [e];
      EquipmentIdsSnoc(payload[1..], e);
    }
  }

  /** The first n entries, all of known types, split by type. */
  ghost predicate SplitUpTo(payload: seq<Entry>, n: nat, ids: seq<nat>, accessories: seq<Entry>, consumables: seq<Entry>) {
    && n <= |payload|
    && (forall m :: 0 <= m < n ==> KnownType(payload[m]))
    && ids == EquipmentIds(payload[..n])
    && accessories == EntriesOf(payload[..n], "accessory") && consumables == EntriesOf(payload[..n], "consumable")
  }

  lemma SplitNext(payload: seq<Entry>, n: nat, ids: seq<nat>, accessories: seq<Entry>, consumables: seq<Entry>)
    requires n < |payload| && SplitUpTo(payload, n, ids, accessories, consumables)
    ensures payload[n].assetType == "equipment" ==> SplitUpTo(payload, n + 1, ids + [payload[n].publicId], accessories, consumables)
    ensures payload[n].assetType == "accessory" ==> SplitUpTo(payload, n + 1, ids, accessories + [payload[n]], consumables)
    ensures payload[n].assetType == "consumable" ==> SplitUpTo(payload, n + 1, ids, accessories, consumables + [payload[n]])
  {
    assert payload[..n + 1] == payload[..n] + [payload[n]];
    EquipmentIdsSnoc(payload[..n], payload[n]);
    EntriesSnoc(payload[..n], payload[n], "accessory");
    EntriesSnoc(payload[..n], payload[n], "consumable");
    assert |"equipment"| == |"accessory"| == 9 && |"consumable"| == 10 && "equipment"[0] != "accessory"[0];
    assert ids + [] == ids;
  }

  lemma SplitDone(payload: seq<Entry>, ids: seq<nat>, accessories: seq<Entry>, consumables: seq<Entry>)
    requires SplitUpTo(payload, |payload|, ids, accessories, consumables)
    ensures !exists e :: e in payload && !KnownType(e)
    ensures ids == EquipmentIds(payload)
    ensures accessories == EntriesOf(payload, "accessory") && consumables == EntriesOf(payload, "consumable")
  {
    assert payload[..|payload|] == payload;
  }

  // The builders run after the request row exists; it has no items yet and so changes no check.

  function Opened(db: Db, user: UserId): Db {
    db.(requests := db.requests + [Request(user, Pending, None)])
  }

  lemma OpeningHidesNothing(db: Db, user: UserId, target: Target)
    requires Linked(db)
    ensures Linked(Opened(db, user)) && PendingOn(Opened(db, user), target) == PendingOn(db, target)
  {
    var d := Opened(db, user);
    forall i | 0 <= i < |db.items|
      ensures LinkedItem(d, d.items[i]) && d.requests[d.items[i].request] == db.requests[db.items[i].request] {
      assert LinkedItem(db, db.items[i]);
    }
  }

  lemma {:induction false} LastHeldSame(db: Db, user: UserId, requester: UserId, kind: Kind, publicId: nat, n: nat)
    requires Linked(db) && Linked(Opened(db, requester)) && n <= |db.holdings|
    ensures LastHeld(Opened(db, requester), user, kind, publicId, n) == LastHeld(db, user, kind, publicId, n)
  {
    if n > 0 {
      LastHeldSame(db, user, requester, kind, publicId, n - 1);
    }
  }

  lemma {:induction false} BuildHoldingsSame(db: Db, user: UserId, r: nat, kind: Kind, entries: seq<Entry>, n: nat)
    requires Linked(db) && Linked(Opened(db, user)) && n <= |entries|
    ensures BuildHoldings(Opened(db, user), user, r, kind, entries, n) == BuildHoldings(db, user, r, kind, entries, n)
  {
    if n > 0 {
      BuildHoldingsSame(db, user, r, kind, entries, n - 1);
      LastHeldSame(db, user, user, kind, entries[n - 1].publicId, |db.holdings|);
      var h := LastHeld(db, user, kind, entries[n - 1].publicId, |db.holdings|);
      if h.Some? { OpeningHidesNothing(db, user, OnHolding(h.value, 0)); }
    }
  }

  lemma BuildEquipmentSame(db: Db, user: UserId, r: nat, ids: seq<nat>)
    requires Linked(db) && Linked(Opened(db, user))
    ensures BuildEquipment(Opened(db, user), user, r, ids) == BuildEquipment(db, user, r, ids)
  {
    forall c: nat { OpeningHidesNothing(db, user, OnEquipment(c)); }
    if BuildEquipment(db, user, r, ids).Ok? {
      assert BuildEquipment(Opened(db, user), user, r, ids).value.items == BuildEquipment(db, user, r, ids).value.items;
      assert BuildEquipment(Opened(db, user), user, r, ids).value.events == BuildEquipment(db, user, r, ids).value.events;
    }
  }

  class ReturnDesk {
    var requests: seq<Request>
    var items: seq<Item>
    var custody: seq<Custody>
    var holdings: seq<Holding>
    var assets: seq<Asset>
    var events: seq<Event>
    var rooms: map<EquipmentId, RoomId>

    function View(): Db
      reads this
    {
      Db(requests, items, custody, holdings, assets, events, rooms)
    }

    ghost predicate Valid()
      reads this
    {
      Linked(View())
    }

    /** What leaving `transaction.atomic` through an exception does. */
    method RollBack(saved: Db)
      modifies this
      ensures View() == saved
    {
      requests, items, custody := saved.requests, saved.items, saved.custody;
      holdings, assets, events := saved.holdings, saved.assets, saved.events;
      rooms := saved.rooms;
    }

    method UpdateReturnRequestStatus(r: nat)
      requires r < |requests|
      modifies this`requests
      ensures requests == old(requests)[r := old(requests)[r].(status := StatusOf(items, r))]
    {
      var statuses: set<ItemStatus> := {};
      for i := 0 to |items|
        invariant forall s :: s in statuses <==> exists j :: 0 <= j < i && items[j].request == r && items[j].status == s
      {
        if items[i].request == r {
          statuses := statuses + {items[i].status};
        }
      }
      assert forall s :: s in statuses <==> Has(items, r, s);
      assert statuses == {ItemApproved} <==> ItemApproved in statuses && ItemDenied !in statuses && ItemPending !in statuses;
      assert statuses == {ItemDenied} <==> ItemDenied in statuses && ItemApproved !in statuses && ItemPending !in statuses;
      var status :=
        if statuses == {ItemApproved} then Approved
        else if statuses == {ItemDenied} then Denied
        else if ItemApproved in statuses && ItemDenied in statuses then Partial
        else Pending;
      requests := requests[r := requests[r].(status := status)];
    }

    method ResolveItem(i: nat, status: ItemStatus, admin: UserId)
      requires Valid() && i < |items|
      modifies this`items, this`requests
      ensures View() == Resolve(old(View()), i, status, admin)
    {
      assert LinkedItem(View(), items[i]);
      items := items[i := items[i].(status := status, verifiedBy := Some(admin))];
      UpdateReturnRequestStatus(items[i].request);
    }

    method ApproveReturnItem(i: nat, admin: UserId) returns (r: Result<(), Error>)
      requires Valid() && i < |items|
      modifies this
      ensures Valid()
      ensures Commits(old(View()), ApproveItem(old(View()), i, admin), r, View())
    {
      var item := items[i];
      assert LinkedItem(View(), item);
      if item.status != ItemPending {
        return Err(ItemAlreadyProcessed);
      }
      match item.target {
        case OnEquipment(c) =>
          custody := custody[c := custody[c].(open := false)];
          events := events + [EquipmentReturned(custody[c].equipment, custody[c].user, admin)];
        case OnHolding(h, quantity) =>
          if quantity > holdings[h].quantity {
            return Err(ExceedsHeldQuantity);
          }
          var a := holdings[h].asset;
          holdings := holdings[h := holdings[h].(quantity := holdings[h].quantity - quantity)];
          assets := assets[a := assets[a].(stock := assets[a].stock + quantity)];
          events := events + [StockEvent(a, holdings[h].user, quantity, quantity, admin)];
      }
      assert forall j :: 0 <= j < |items| ==> LinkedItem(old(View()), items[j]) ==> LinkedItem(View(), items[j]);
      ResolveItem(i, ItemApproved, admin);
      return Ok(());
    }

    method DenyReturnItem(i: nat, admin: UserId) returns (r: Result<(), Error>)
      requires Valid() && i < |items|
      modifies this
      ensures Valid()
      ensures Commits(old(View()), DenyItem(old(View()), i, admin), r, View())
    {
      if items[i].status != ItemPending {
        return Err(ItemAlreadyProcessed);
      }
      ResolveItem(i, ItemDenied, admin);
      return Ok(());
    }

    method DecideReturnItem(i: nat, admin: UserId, verdict: Verdict) returns (r: Result<(), Error>)
      requires Valid() && i < |items|
      modifies this
      ensures Valid()
      ensures Commits(old(View()), Decide(old(View()), i, admin, verdict), r, View())
    {
      if verdict.Approve? {
        r := ApproveReturnItem(i, admin);
      } else {
        r := DenyReturnItem(i, admin);
      }
    }

    /** `approve_return_request` and `deny_return_request`. */
    method DecideReturnRequest(request: nat, admin: UserId, verdict: Verdict) returns (r: Result<(), Error>)
      requires Valid() && request < |requests|
      modifies this
      ensures Valid()
      ensures Commits(old(View()), DecideRequest(old(View()), request, admin, verdict), r, View())
    {
      if requests[request].status != Pending {
        return Err(RequestAlreadyProcessed);
      }
      var saved := View();
      for i := 0 to |items|
        invariant Valid() && SameSize(saved, View())
        invariant DecideUpTo(saved, request, admin, verdict, i) == Ok(View())
      {
        if PendingItemOf(items[i], request) {
          var outcome := DecideReturnItem(i, admin, verdict);
          if outcome.Err? {
            RollBack(saved);
            ErrorStays(saved, request, admin, verdict, i + 1, |items|);
            return outcome;
          }
        }
      }
      requests := requests[request := requests[request].(processedBy := Some(admin))];
      UpdateReturnRequestStatus(request);
      assert View() == DecideRequest(saved, request, admin, verdict).value;
      return Ok(());
    }

    method OpenCustodyRows(user: UserId, ids: seq<nat>) returns (rows: seq<nat>)
      ensures rows == Matching(custody, user, ids, |custody|)
    {
      rows := [];
      for c := 0 to |custody|
        invariant rows == Matching(custody, user, ids, c)
      {
        if OpenFor(custody[c], user, ids) {
          rows := rows + [c];
        }
      }
    }

    method BuildEquipmentReturnItems(user: UserId, ids: seq<nat>, request: nat) returns (r: Result<Draft, Error>)
      requires Valid()
      ensures r == BuildEquipment(View(), user, request, ids)
    {
      var rows := OpenCustodyRows(user, ids);
      if |rows| != |ids| {
        return Err(NotAssigned);
      }
      var drafted: seq<Item>, logged: seq<Event> := [], [];
      for k := 0 to |rows|
        invariant forall j :: 0 <= j < k ==> !PendingOn(View(), OnEquipment(rows[j]))
        invariant |drafted| == |logged| == k
        invariant forall j :: 0 <= j < k ==> drafted[j] == EquipmentItem(View(), request, rows[j])
        invariant forall j :: 0 <= j < k ==> logged[j] == EquipmentReturnRequested(custody[rows[j]].equipment, user)
      {
        if PendingOn(View(), OnEquipment(rows[k])) {
          return Err(AlreadyPending);
        }
        var equipment := custody[rows[k]].equipment;
        var room := if equipment in rooms then Some(rooms[equipment]) else None;
        drafted := drafted + [Item(request, OnEquipment(rows[k]), room, ItemPending, None)];
        logged := logged + [EquipmentReturnRequested(equipment, user)];
      }
      r := Ok(Draft(drafted, logged));
      assert drafted == BuildEquipment(View(), user, request, ids).value.items;
      assert logged == BuildEquipment(View(), user, request, ids).value.events;
    }

    /** The builders' map from public id to row; a later row of the same asset replaces an earlier. */
    method HeldRows(user: UserId, kind: Kind) returns (held: map<nat, nat>)
      requires Valid()
      ensures forall id :: (if id in held then Some(held[id]) else None) ==
                           LastHeld(View(), user, kind, id, |holdings|)
    {
      held := map[];
      for h := 0 to |holdings|
        invariant forall id :: (if id in held then Some(held[id]) else None) == LastHeld(View(), user, kind, id, h)
      {
        if HeldBy(View(), h, user, kind, holdings[h].asset) {
          held := held[holdings[h].asset := h];
        }
      }
    }

    /** `build_accessory_return_items` and `build_consumable_return_items`. */
    method BuildHoldingReturnItems(user: UserId, kind: Kind, entries: seq<Entry>, request: nat)
      returns (r: Result<Draft, Error>)
      requires Valid()
      ensures r == BuildHoldings(View(), user, request, kind, entries, |entries|)
    {
      var held := HeldRows(user, kind);
      var drafted: seq<Item>, logged: seq<Event> := [], [];
      for n := 0 to |entries|
        invariant BuildHoldings(View(), user, request, kind, entries, n) == Ok(Draft(drafted, logged))
      {
        var e := entries[n];
        assert (if e.publicId in held then Some(held[e.publicId]) else None) ==
               LastHeld(View(), user, kind, e.publicId, |holdings|);
        var problem: Option<Error> := None;
        if e.publicId !in held {
          problem := Some(NotAssigned);
        } else if e.quantity > holdings[held[e.publicId]].quantity {
          problem := Some(ExceedsHeldQuantity);
        } else if PendingOn(View(), OnHolding(held[e.publicId], 0)) {
          problem := Some(AlreadyPending);
        } else if e.quantity < 0 {
          problem := Some(NegativeQuantity);
        }
        if problem.Some? {
          BuildErrorStays(View(), user, request, kind, entries, n + 1, |entries|);
          return Err(problem.value);
        }
        var h := held[e.publicId];
        drafted := drafted + [Item(request, OnHolding(h, e.quantity), assets[holdings[h].asset].room, ItemPending, None)];
        logged := logged + [StockEvent(holdings[h].asset, user, e.quantity, 0, user)];
      }
      return Ok(Draft(drafted, logged));
    }

    method SplitPayload(payload: seq<Entry>) returns (r: Result<(seq<nat>, seq<Entry>, seq<Entry>), Error>)
      ensures r == if exists e :: e in payload && !KnownType(e) then Err(InvalidAssetType)
                   else Ok((EquipmentIds(payload), EntriesOf(payload, "accessory"), EntriesOf(payload, "consumable")))
    {
      var ids, accessories, consumables := [], [], [];
      for n := 0 to |payload|
        invariant SplitUpTo(payload, n, ids, accessories, consumables)
      {
        SplitNext(payload, n, ids, accessories, consumables);
        if payload[n].assetType == "equipment" {
          ids := ids + [payload[n].publicId];
        } else if payload[n].assetType == "accessory" {
          accessories := accessories + [payload[n]];
        } else if payload[n].assetType == "consumable" {
          consumables := consumables + [payload[n]];
        } else {
          assert payload[n] in payload && !KnownType(payload[n]);
          return Err(InvalidAssetType);
        }
      }
      SplitDone(payload, ids, accessories, consumables);
      return Ok((ids, accessories, consumables));
    }

    method CreateMixedReturnRequest(user: UserId, payload: seq<Entry>) returns (r: Result<(), Error>)
      requires Valid()
      modifies this
      ensures Commits(old(View()), Create(old(View()), user, payload), r, View())
    {
      if |payload| > MAX_TOTAL_ITEMS {
        return Err(TooManyItems);
      }
      var saved := View();
      var request := |requests|;
      requests := requests + [Request(user, Pending, None)];
      OpeningHidesNothing(saved, user, OnEquipment(0));
      var split := SplitPayload(payload);
      if split.Err? {
        RollBack(saved);
        return Err(split.error);
      }
      var (ids, accessories, consumables) := split.value;
      BuildEquipmentSame(saved, user, request, ids);
      BuildHoldingsSame(saved, user, request, Accessory, accessories, |accessories|);
      BuildHoldingsSame(saved, user, request, Consumable, consumables, |consumables|);

      var equipmentItems: Result<Draft, Error> := Ok(Draft([], []));
      if ids != [] {
        equipmentItems := BuildEquipmentReturnItems(user, ids, request);
      }
      if equipmentItems.Err? {
        RollBack(saved);
        return Err(equipmentItems.error);
      }
      var accessoryItems := BuildHoldingReturnItems(user, Accessory, accessories, request);
      if accessoryItems.Err? {
        RollBack(saved);
        return Err(accessoryItems.error);
      }
      var consumableItems := BuildHoldingReturnItems(user, Consumable, consumables, request);
      if consumableItems.Err? {
        RollBack(saved);
        return Err(consumableItems.error);
      }
      var drafted := equipmentItems.value.items + accessoryItems.value.items + consumableItems.value.items;
      if exists item :: item in drafted && item.room.None? {
        RollBack(saved);
        return Err(RoomMissing);
      }
      items := items + drafted;
      events := events + (equipmentItems.value.events + accessoryItems.value.events + consumableItems.value.events);
      return Ok(());
    }

    // ---- Equipment custody ----

    method RowFor(e: EquipmentId) returns (c: Option<nat>)
      ensures c == FindRow(custody, e)
    {
      c := None;
      for k := 0 to |custody|
        invariant c == FindAmong(custody, e, k)
      {
        if custody[k].equipment == e {
          c := Some(k);
        }
      }
    }

    method AssignEquipment(actor: UserId, equipment: EquipmentId, toUser: UserId) returns (r: BatchResult)
      modifies this`custody, this`events
      ensures View() == AssignTo(old(View()), equipment, actor, toUser)
      ensures r == if IsOut(old(View()), equipment) then SKIPPED else SUCCESS
    {
      var c := RowFor(equipment);
      if c.Some? && custody[c.value].open {
        return SKIPPED;
      }
      if c.None? {
        custody := custody + [Custody(equipment, toUser, actor, true)];
      } else {
        custody := custody[c.value := custody[c.value].(user := toUser, assignedBy := actor, open := true)];
      }
      events := events + [EquipmentAssigned(equipment, toUser, actor)];
      return SUCCESS;
    }

    method UnassignEquipment(actor: UserId, equipment: EquipmentId) returns (r: BatchResult)
      modifies this`custody, this`events
      ensures View() == TakeBack(old(View()), equipment, actor)
      ensures r == if IsOut(old(View()), equipment) then SUCCESS else SKIPPED
    {
      var c := RowFor(equipment);
      if c.None? || !custody[c.value].open {
        return SKIPPED;
      }
      var user := custody[c.value].user;
      custody := custody[c.value := custody[c.value].(open := false)];
      events := events + [EquipmentReturned(equipment, user, actor)];
      return SUCCESS;
    }
  }

  datatype BatchResult = SUCCESS | SKIPPED
}
