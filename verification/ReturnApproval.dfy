/** When approving or denying a whole request succeeds, and exactly what it leaves behind. */
module ReturnApproval {
  import opened Outcomes
  import opened ReturnTables

  /** What the request's pending items among the first n ask to take from holding h together. */
  function Demand(items: seq<Item>, r: nat, h: nat, n: nat): nat
    requires n <= |items|
  {
    if n == 0 then 0
    else
      var item := items[n - 1];
      Demand(items, r, h, n - 1) +
      if PendingItemOf(item, r) && item.target.OnHolding? && item.target.holding == h then item.target.quantity else 0
  }

  /** What they bring back to asset a. */
  function Restocked(db: Db, r: nat, a: nat, n: nat): nat
    requires Linked(db) && n <= |db.items|
  {
    if n == 0 then 0
    else
      var item := db.items[n - 1];
      Restocked(db, r, a, n - 1) +
      if PendingItemOf(item, r) && item.target.OnHolding? && db.holdings[item.target.holding].asset == a
      then item.target.quantity else 0
  }

  predicate Returns(items: seq<Item>, r: nat, c: nat, n: nat)
    requires n <= |items|
  {
    exists i :: 0 <= i < n && PendingItemOf(items[i], r) && items[i].target == OnEquipment(c)
  }

  function EventOf(db: Db, item: Item, admin: UserId): Event
    requires Linked(db) && LinkedItem(db, item)
  {
    match item.target
    case OnEquipment(c) => EquipmentReturned(db.custody[c].equipment, db.custody[c].user, admin)
    case OnHolding(h, q) => StockEvent(db.holdings[h].asset, db.holdings[h].user, q, q, admin)
  }

  function ApprovalEvents(db: Db, r: nat, admin: UserId, n: nat): seq<Event>
    requires Linked(db) && n <= |db.items|
  {
    if n == 0 then []
    else
      assert LinkedItem(db, db.items[n - 1]);
      ApprovalEvents(db, r, admin, n - 1) +
      if PendingItemOf(db.items[n - 1], r) then [EventOf(db, db.items[n - 1], admin)] else []
  }

  ghost predicate Covered(db: Db, r: nat, n: nat)
    requires n <= |db.items|
  {
    forall h :: 0 <= h < |db.holdings| ==> Demand(db.items, r, h, n) <= db.holdings[h].quantity
  }

  ghost predicate ItemsDecided(db: Db, r: nat, admin: UserId, status: ItemStatus, n: nat, d: Db) {
    && |d.items| == |db.items|
    && forall i :: 0 <= i < |db.items| ==>
         d.items[i] == if i < n && PendingItemOf(db.items[i], r)
                       then db.items[i].(status := status, verifiedBy := Some(admin)) else db.items[i]
  }

  ghost predicate OnlyStatusOf(db: Db, r: nat, d: Db) {
    && |d.requests| == |db.requests|
    && forall s :: 0 <= s < |db.requests| ==>
         d.requests[s] == if s == r then db.requests[s].(status := d.requests[s].status) else db.requests[s]
  }

  ghost predicate HoldingsTaken(db: Db, r: nat, n: nat, d: Db)
    requires n <= |db.items|
  {
    && |d.holdings| == |db.holdings|
    && forall h :: 0 <= h < |db.holdings| ==>
         Demand(db.items, r, h, n) <= db.holdings[h].quantity &&
         d.holdings[h] == db.holdings[h].(quantity := db.holdings[h].quantity - Demand(db.items, r, h, n))
  }

  ghost predicate StocksRestored(db: Db, r: nat, n: nat, d: Db)
    requires Linked(db) && n <= |db.items|
  {
    && |d.assets| == |db.assets|
    && forall a :: 0 <= a < |db.assets| ==>
         d.assets[a] == db.assets[a].(stock := db.assets[a].stock + Restocked(db, r, a, n))
  }

  ghost predicate CustodyClosed(db: Db, r: nat, n: nat, d: Db)
    requires n <= |db.items|
  {
    && |d.custody| == |db.custody|
    && forall c :: 0 <= c < |db.custody| ==>
         d.custody[c] == if Returns(db.items, r, c, n) then db.custody[c].(open := false) else db.custody[c]
  }

  /** d is db after the request's pending items among the first n were all approved. */
  ghost predicate Approving(db: Db, r: nat, admin: UserId, n: nat, d: Db)
    requires Linked(db) && n <= |db.items|
  {
    && ItemsDecided(db, r, admin, ItemApproved, n, d) && OnlyStatusOf(db, r, d)
    && HoldingsTaken(db, r, n, d) && StocksRestored(db, r, n, d) && CustodyClosed(db, r, n, d)
    && d.events == db.events + ApprovalEvents(db, r, admin, n)
  }

  lemma ResolveDecides(db: Db, r: nat, admin: UserId, status: ItemStatus, n: nat, d: Db)
    requires n < |db.items| && Linked(d) && status != ItemPending
    requires ItemsDecided(db, r, admin, status, n, d) && OnlyStatusOf(db, r, d) && PendingItemOf(db.items[n], r)
    ensures var d' := Resolve(d, n, status, admin);
            ItemsDecided(db, r, admin, status, n + 1, d') && OnlyStatusOf(db, r, d')
  {
  }

  lemma ReturnsOneMore(db: Db, r: nat, n: nat, c: nat)
    requires n < |db.items|
    ensures Returns(db.items, r, c, n + 1) <==>
            Returns(db.items, r, c, n) || (PendingItemOf(db.items[n], r) && db.items[n].target == OnEquipment(c))
  {
  }

  lemma ApproveHoldingItem(db: Db, r: nat, admin: UserId, n: nat, d: Db)
    requires Linked(db) && Linked(d) && n < |db.items| && Approving(db, r, admin, n, d)
    requires PendingItemOf(db.items[n], r) && db.items[n].target.OnHolding?
    ensures var h := db.items[n].target.holding;
            h < |db.holdings| &&
            var result := ApproveItem(d, n, admin);
            if Demand(db.items, r, h, n + 1) <= db.holdings[h].quantity
            then result.Ok? && Approving(db, r, admin, n + 1, result.value)
            else result == Err(ExceedsHeldQuantity)
  {
    assert d.items[n] == db.items[n] && LinkedItem(db, db.items[n]);
    var result := ApproveItem(d, n, admin);
    if result.Ok? {
      var row := d.holdings[db.items[n].target.holding];
      ResolveDecides(db, r, admin, ItemApproved, n, d);
      assert HoldingsTaken(db, r, n + 1, result.value);
      assert StocksRestored(db, r, n + 1, result.value);
      forall c | 0 <= c < |db.custody| ensures Returns(db.items, r, c, n + 1) <==> Returns(db.items, r, c, n) {
        ReturnsOneMore(db, r, n, c);
      }
    }
  }

  lemma ApproveEquipmentItem(db: Db, r: nat, admin: UserId, n: nat, d: Db)
    requires Linked(db) && Linked(d) && n < |db.items| && Approving(db, r, admin, n, d)
    requires PendingItemOf(db.items[n], r) && db.items[n].target.OnEquipment?
    ensures ApproveItem(d, n, admin).Ok? && Approving(db, r, admin, n + 1, ApproveItem(d, n, admin).value)
  {
    assert d.items[n] == db.items[n] && LinkedItem(db, db.items[n]);
    var d' := ApproveItem(d, n, admin).value;
    ResolveDecides(db, r, admin, ItemApproved, n, d);
    assert HoldingsTaken(db, r, n + 1, d') && StocksRestored(db, r, n + 1, d');
    forall c | 0 <= c < |db.custody|
      ensures Returns(db.items, r, c, n + 1) <==> Returns(db.items, r, c, n) || db.items[n].target == OnEquipment(c) {
      ReturnsOneMore(db, r, n, c);
    }
  }

  lemma ApproveOne(db: Db, r: nat, admin: UserId, n: nat, d: Db)
    requires Linked(db) && Linked(d) && n < |db.items| && Approving(db, r, admin, n, d)
    requires PendingItemOf(db.items[n], r)
    ensures var result := ApproveItem(d, n, admin);
            if Covered(db, r, n + 1) then result.Ok? && Approving(db, r, admin, n + 1, result.value)
            else result == Err(ExceedsHeldQuantity)
  {
    var target := db.items[n].target;
    assert forall h :: 0 <= h < |db.holdings| && target != OnHolding(h, if target.OnHolding? then target.quantity else 0)
                       ==> Demand(db.items, r, h, n + 1) == Demand(db.items, r, h, n);
    if target.OnHolding? {
      ApproveHoldingItem(db, r, admin, n, d);
    } else {
      ApproveEquipmentItem(db, r, admin, n, d);
    }
  }

  lemma SkipOne(db: Db, r: nat, admin: UserId, n: nat, d: Db)
    requires Linked(db) && n < |db.items| && Approving(db, r, admin, n, d)
    requires !PendingItemOf(db.items[n], r)
    ensures Covered(db, r, n + 1) && Approving(db, r, admin, n + 1, d)
  {
    forall c | 0 <= c < |db.custody| ensures Returns(db.items, r, c, n + 1) <==> Returns(db.items, r, c, n) {
      ReturnsOneMore(db, r, n, c);
    }
  }

  lemma DemandGrows(db: Db, r: nat, n: nat)
    requires n < |db.items| && Covered(db, r, n + 1)
    ensures Covered(db, r, n)
  {
    forall h | 0 <= h < |db.holdings| ensures Demand(db.items, r, h, n) <= db.holdings[h].quantity {
      assert Demand(db.items, r, h, n) <= Demand(db.items, r, h, n + 1);
    }
  }

  lemma ApproveNext(db: Db, r: nat, admin: UserId, n: nat, d: Db)
    requires Linked(db) && Linked(d) && n < |db.items| && Approving(db, r, admin, n, d)
    ensures var result := DecideNext(d, r, admin, Approve, n);
            if Covered(db, r, n + 1) then result.Ok? && Approving(db, r, admin, n + 1, result.value)
            else result == Err(ExceedsHeldQuantity)
  {
    assert d.items[n] == db.items[n];
    if PendingItemOf(db.items[n], r) {
      ApproveOne(db, r, admin, n, d);
    } else {
      SkipOne(db, r, admin, n, d);
    }
  }

  lemma {:induction false} ApproveUpToExact(db: Db, r: nat, admin: UserId, n: nat)
    requires Linked(db) && n <= |db.items|
    ensures var result := DecideUpTo(db, r, admin, Approve, n);
            if Covered(db, r, n) then result.Ok? && Approving(db, r, admin, n, result.value)
            else result == Err(ExceedsHeldQuantity)
  {
    if n > 0 {
      ApproveUpToExact(db, r, admin, n - 1);
      if Covered(db, r, n) { DemandGrows(db, r, n - 1); }
      if Covered(db, r, n - 1) {
        ApproveNext(db, r, admin, n - 1, DecideUpTo(db, r, admin, Approve, n - 1).value);
      }
    }
  }

  /**
  Approving a PENDING request succeeds exactly when its pending items together ask no more of any
  holding than is held, although several of them may name the same holding. It then approves all
  of them, moves exactly those quantities to the stocks, closes the custody rows and logs each.
  */
  lemma ApproveRequestExact(db: Db, r: nat, admin: UserId)
    requires Linked(db) && r < |db.requests| && db.requests[r].status == Pending
    ensures var result := DecideRequest(db, r, admin, Approve);
            if Covered(db, r, |db.items|) then
              && result.Ok?
              && Approving(db, r, admin, |db.items|, result.value.(requests := result.value.requests[r := db.requests[r]]))
              && OnlyStatusOf(db.(requests := db.requests[r := db.requests[r].(processedBy := Some(admin))]), r, result.value)
              && result.value.requests[r].status == StatusOf(result.value.items, r)
            else result == Err(ExceedsHeldQuantity)
  {
    ApproveUpToExact(db, r, admin, |db.items|);
  }

  /** What the status of a request becomes when its last pending items are approved. */
  lemma ApprovedStatus(db: Db, r: nat, admin: UserId)
    requires Linked(db) && r < |db.requests| && db.requests[r].status == Pending
    requires DecideRequest(db, r, admin, Approve).Ok?
    ensures DecideRequest(db, r, admin, Approve).value.requests[r].status ==
            if Has(db.items, r, ItemDenied) then
              if Has(db.items, r, ItemApproved) || Has(db.items, r, ItemPending) then Partial else Denied
            else if Has(db.items, r, ItemApproved) || Has(db.items, r, ItemPending) then Approved
            else Pending
  {
    ApproveUpToExact(db, r, admin, |db.items|);
    var d := DecideUpTo(db, r, admin, Approve, |db.items|).value;
    StatusesAfter(db, r, admin, ItemApproved, d);
  }

  lemma StatusesAfter(db: Db, r: nat, admin: UserId, status: ItemStatus, d: Db)
    requires status != ItemPending && ItemsDecided(db, r, admin, status, |db.items|, d)
    ensures !Has(d.items, r, ItemPending)
    ensures Has(d.items, r, status) <==> Has(db.items, r, status) || Has(db.items, r, ItemPending)
    ensures forall s :: s != status && s != ItemPending ==> (Has(d.items, r, s) <==> Has(db.items, r, s))
  {
    forall s, i | Has(db.items, r, s) && 0 <= i < |db.items| && db.items[i].request == r && db.items[i].status == s
      ensures d.items[i].request == r && d.items[i].status == if s == ItemPending then status else s
    {
    }
    if Has(db.items, r, ItemPending) {
      var i :| 0 <= i < |db.items| && db.items[i].request == r && db.items[i].status == ItemPending;
      assert d.items[i].status == status;
    }
    if Has(d.items, r, status) {
      var i :| 0 <= i < |d.items| && d.items[i].request == r && d.items[i].status == status;
      assert db.items[i].status == status || db.items[i].status == ItemPending;
    }
    forall s | s != status && s != ItemPending && Has(d.items, r, s) ensures Has(db.items, r, s) {
      var i :| 0 <= i < |d.items| && d.items[i].request == r && d.items[i].status == s;
      assert db.items[i].status == s;
    }
  }

  /** Denying up to n touches item and request statuses only. */
  ghost predicate Denying(db: Db, r: nat, admin: UserId, n: nat, d: Db) {
    && SameSize(db, d) && ItemsDecided(db, r, admin, ItemDenied, n, d) && OnlyStatusOf(db, r, d)
    && d.holdings == db.holdings && d.assets == db.assets && d.custody == db.custody && d.events == db.events
  }

  ghost predicate DeniedUpTo(db: Db, r: nat, admin: UserId, n: nat, result: Result<Db, Error>) {
    result.Ok? && forall d :: result == Ok(d) ==> Denying(db, r, admin, n, d)
  }

  lemma DenyNext(db: Db, r: nat, admin: UserId, n: nat, d: Db)
    requires Linked(db) && Linked(d) && n < |db.items| && Denying(db, r, admin, n, d)
    ensures DeniedUpTo(db, r, admin, n + 1, DecideNext(d, r, admin, Deny, n))
  {
    assert d.items[n] == db.items[n];
    if PendingItemOf(db.items[n], r) {
      ResolveDecides(db, r, admin, ItemDenied, n, d);
    }
  }

  lemma {:induction false} DenyUpToExact(db: Db, r: nat, admin: UserId, n: nat)
    requires Linked(db) && n <= |db.items|
    ensures DeniedUpTo(db, r, admin, n, DecideUpTo(db, r, admin, Deny, n))
  {
    if n > 0 {
      DenyUpToExact(db, r, admin, n - 1);
      DenyNext(db, r, admin, n - 1, DecideUpTo(db, r, admin, Deny, n - 1).value);
    }
  }

  /** Denying a PENDING request always succeeds, and moves nothing. */
  lemma DenyRequestExact(db: Db, r: nat, admin: UserId)
    requires Linked(db) && r < |db.requests| && db.requests[r].status == Pending
    ensures var result := DecideRequest(db, r, admin, Deny);
            && result.Ok?
            && Denying(db, r, admin, |db.items|, result.value.(requests := result.value.requests[r := db.requests[r]]))
            && OnlyStatusOf(db.(requests := db.requests[r := db.requests[r].(processedBy := Some(admin))]), r, result.value)
            && !Has(result.value.items, r, ItemPending)
            && result.value.requests[r].status == StatusOf(result.value.items, r)
  {
    DenyUpToExact(db, r, admin, |db.items|);
    StatusesAfter(db, r, admin, ItemDenied, DecideUpTo(db, r, admin, Deny, |db.items|).value);
  }
}
