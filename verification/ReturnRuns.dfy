/** What holds over every run of create, approve and deny steps. */
module ReturnRuns {
  import opened Outcomes
  import opened ReturnTables

  // ---- Runs ----

  datatype Op =
    | CreateRequest(user: UserId, payload: seq<Entry>)
    | DecideOne(item: nat, admin: UserId, verdict: Verdict)
    | DecideAll(request: nat, admin: UserId, verdict: Verdict)
    | Assign(equipment: EquipmentId, actor: UserId, user: UserId)
    | Unassign(equipment: EquipmentId, actor: UserId)

  /** Each operation is one transaction: it commits its result or changes nothing. */
  function Step(db: Db, op: Op): Db
    requires Linked(db)
  {
    var result := match op
      case CreateRequest(user, payload) => Create(db, user, payload)
      case DecideOne(i, admin, verdict) => if i < |db.items| then Decide(db, i, admin, verdict) else Ok(db)
      case DecideAll(r, admin, verdict) => if r < |db.requests| then DecideRequest(db, r, admin, verdict) else Ok(db)
      case Assign(e, actor, user) => Ok(AssignTo(db, e, actor, user))
      case Unassign(e, actor) => Ok(TakeBack(db, e, actor));
    if result.Ok? then result.value else db
  }

  ghost predicate IsRun(run: seq<Db>, ops: seq<Op>) {
    && |run| == |ops| + 1
    && Inv(run[0])
    && forall k :: 0 <= k < |ops| ==> (Linked(run[k]) ==> run[k + 1] == Step(run[k], ops[k]))
  }

  // ---- The invariant ----

  ghost predicate StatusesAgree(db: Db) {
    forall r :: 0 <= r < |db.requests| ==> db.requests[r].status == StatusOf(db.items, r)
  }

  predicate InPending(db: Db, i: nat)
    requires i < |db.items| && db.items[i].request < |db.requests|
  {
    db.requests[db.items[i].request].status == Pending
  }

  /**
  At most one PENDING request refers to a holding or custody row, and at most one item of a
  PENDING request refers to a custody row.
  */
  ghost predicate Exclusive(db: Db)
    requires Linked(db)
  {
    forall i, j :: 0 <= i < |db.items| && 0 <= j < |db.items| && InPending(db, i) && InPending(db, j)
                   && SameRow(db.items[i].target, db.items[j].target) ==>
      db.items[i].request == db.items[j].request && (db.items[i].target.OnEquipment? ==> i == j)
  }

  ghost predicate Inv(db: Db) {
    Linked(db) && StatusesAgree(db) && Exclusive(db) && OneRowEach(db.custody)
  }

  // ---- What a step may change ----

  /** A request that has left PENDING and a decided item stay as they are. */
  ghost predicate Kept(db: Db, d: Db) {
    && |db.requests| <= |d.requests| && |db.items| <= |d.items|
    && (forall r :: 0 <= r < |db.requests| && db.requests[r].status != Pending ==>
          d.requests[r] == db.requests[r])
    && (forall i :: 0 <= i < |db.items| ==>
          && d.items[i].request == db.items[i].request && d.items[i].target == db.items[i].target
          && (db.items[i].status != ItemPending ==> d.items[i] == db.items[i]))
  }

  function Held(holdings: seq<Holding>, a: nat): nat {
    if holdings == [] then 0
    else (if holdings[0].asset == a then holdings[0].quantity else 0) + Held(holdings[1..], a)
  }

  function Ledger(events: seq<Event>, a: nat): int {
    if events == [] then 0
    else
      var e := events[|events| - 1];
      Ledger(events[..|events| - 1], a) + if e.StockEvent? && e.asset == a then e.quantityChange else 0
  }

  /** Stock plus everything held is constant, and the ledger explains every change of stock. */
  ghost predicate Balanced(db: Db, d: Db) {
    && |d.assets| == |db.assets|
    && forall a :: 0 <= a < |db.assets| ==>
         && d.assets[a].stock + Held(d.holdings, a) == db.assets[a].stock + Held(db.holdings, a)
         && d.assets[a].stock - db.assets[a].stock == Ledger(d.events, a) - Ledger(db.events, a)
  }

  // ---- Resolving one item ----

  lemma HasAfter(items: seq<Item>, i: nat, item: Item, r: nat, status: ItemStatus)
    requires i < |items| && item.request == items[i].request && item.status != items[i].status
    ensures r != item.request ==> (Has(items[i := item], r, status) <==> Has(items, r, status))
    ensures Has(items, r, status) && items[i].status != status ==> Has(items[i := item], r, status)
  {
    var items' := items[i := item];
    if Has(items, r, status) {
      var j :| 0 <= j < |items| && items[j].request == r && items[j].status == status;
      if j != i { assert items'[j] == items[j]; }
    }
    if Has(items', r, status) {
      var j :| 0 <= j < |items'| && items'[j].request == r && items'[j].status == status;
      if j != i { assert items[j] == items'[j]; }
    }
  }

  /** Deciding a pending item changes no other request's status, nor one that is settled. */
  lemma StatusSettled(items: seq<Item>, i: nat, item: Item, r: nat)
    requires i < |items| && items[i].status == ItemPending && item.status != ItemPending
    requires item.request == items[i].request
    requires r != item.request || StatusOf(items, r) != Pending
    ensures StatusOf(items[i := item], r) == StatusOf(items, r)
  {
    forall s: ItemStatus {
      HasAfter(items, i, item, r, s);
    }
    if r == item.request {
      assert Has(items, r, ItemPending);
    }
  }

  lemma ResolveKeeps(db: Db, i: nat, status: ItemStatus, admin: UserId)
    requires Inv(db) && i < |db.items| && db.items[i].status == ItemPending && status != ItemPending
    ensures var d := Resolve(db, i, status, admin);
            Inv(d) && Kept(db, d)
  {
    var d := Resolve(db, i, status, admin);
    forall r | 0 <= r < |db.requests|
      ensures d.requests[r].status == StatusOf(d.items, r)
      ensures db.requests[r].status != Pending ==> d.requests[r] == db.requests[r]
    {
      if r != db.items[i].request || StatusOf(db.items, r) != Pending {
        StatusSettled(db.items, i, d.items[i], r);
      }
    }
    assert Exclusive(d) by {
      forall j, k | 0 <= j < |d.items| && 0 <= k < |d.items| && InPending(d, j) && InPending(d, k)
                    && SameRow(d.items[j].target, d.items[k].target)
        ensures d.items[j].request == d.items[k].request && (d.items[j].target.OnEquipment? ==> j == k)
      {
        assert InPending(db, j) && InPending(db, k);
        assert SameRow(db.items[j].target, db.items[k].target);
      }
    }
  }

  // ---- Balance ----

  lemma {:induction false} HeldAfter(holdings: seq<Holding>, h: nat, quantity: nat, a: nat)
    requires h < |holdings|
    ensures Held(holdings[h := holdings[h].(quantity := quantity)], a) ==
            Held(holdings, a) + if holdings[h].asset == a then quantity - holdings[h].quantity else 0
  {
    var after := holdings[h := holdings[h].(quantity := quantity)];
    if h == 0 {
      assert after[1..] == holdings[1..];
    } else {
      assert after[1..] == holdings[1..][h - 1 := holdings[h].(quantity := quantity)];
      HeldAfter(holdings[1..], h - 1, quantity, a);
    }
  }

  lemma LedgerSnoc(events: seq<Event>, e: Event, a: nat)
    ensures Ledger(events + [e], a) ==
            Ledger(events, a) + if e.StockEvent? && e.asset == a then e.quantityChange else 0
  {
    assert (events + [e])[..|events|] == events;
  }

  lemma {:induction false} LedgerQuiet(events: seq<Event>, quiet: seq<Event>, a: nat)
    requires forall e :: e in quiet && e.StockEvent? ==> e.quantityChange == 0
    ensures Ledger(events + quiet, a) == Ledger(events, a)
    decreases |quiet|
  {
    if quiet == [] {
      assert events + quiet == events;
    } else {
      var n := |quiet| - 1;
      LedgerQuiet(events, quiet[..n], a);
      LedgerSnoc(events + quiet[..n], quiet[n], a);
      assert events + quiet == events + quiet[..n] + [quiet[n]];
      assert quiet[n] in quiet;
    }
  }

  /** Moving q units from holding h to the shelf, with its ledger row, keeps every asset's balance. */
  lemma StockMoved(holdings: seq<Holding>, assets: seq<Asset>, events: seq<Event>, h: nat, q: nat, admin: UserId, a: nat)
    requires h < |holdings| && q <= holdings[h].quantity && holdings[h].asset < |assets| && a < |assets|
    ensures var row := holdings[h];
            var stock := assets[row.asset := assets[row.asset].(stock := assets[row.asset].stock + q)][a].stock;
            var held := Held(holdings[h := row.(quantity := row.quantity - q)], a);
            var ledger := Ledger(events + [StockEvent(row.asset, row.user, q, q, admin)], a);
            && stock + held == assets[a].stock + Held(holdings, a)
            && stock - assets[a].stock == ledger - Ledger(events, a)
  {
    var row := holdings[h];
    HeldAfter(holdings, h, row.quantity - q, a);
    LedgerSnoc(events, StockEvent(row.asset, row.user, q, q, admin), a);
  }

  lemma DecideBalanced(db: Db, i: nat, admin: UserId, verdict: Verdict)
    requires Linked(db) && i < |db.items| && Decide(db, i, admin, verdict).Ok?
    ensures Balanced(db, Decide(db, i, admin, verdict).value)
  {
    var item := db.items[i];
    assert LinkedItem(db, item);
    if verdict.Approve? {
      var d := ApproveItem(db, i, admin).value;
      forall a | 0 <= a < |db.assets|
        ensures d.assets[a].stock + Held(d.holdings, a) == db.assets[a].stock + Held(db.holdings, a)
        ensures d.assets[a].stock - db.assets[a].stock == Ledger(d.events, a) - Ledger(db.events, a)
      {
        if item.target.OnHolding? {
          StockMoved(db.holdings, db.assets, db.events, item.target.holding, item.target.quantity, admin, a);
        } else {
          var row := db.custody[item.target.custody];
          LedgerSnoc(db.events, EquipmentReturned(row.equipment, row.user, admin), a);
        }
      }
    }
  }

  // ---- Deciding ----

  ghost predicate Sound(db: Db, d: Db) {
    Inv(d) && Kept(db, d) && Balanced(db, d)
  }

  lemma SoundTransitive(a: Db, b: Db, c: Db)
    requires Sound(a, b) && Sound(b, c)
    ensures Sound(a, c)
  {
    forall i | 0 <= i < |a.items| && a.items[i].status != ItemPending ensures c.items[i] == a.items[i] {
      assert b.items[i] == a.items[i];
    }
    forall r | 0 <= r < |a.requests| && a.requests[r].status != Pending ensures c.requests[r] == a.requests[r] {
      assert b.requests[r] == a.requests[r];
    }
  }

  /** Moving stock and closing custody touches nothing the invariant speaks of. */
  lemma MovedInv(db: Db, moved: Db)
    requires Inv(db) && Linked(moved) && moved.requests == db.requests && moved.items == db.items
    requires |moved.custody| == |db.custody|
    requires forall c :: 0 <= c < |db.custody| ==> moved.custody[c].equipment == db.custody[c].equipment
    ensures Inv(moved)
  {
    assert forall j :: 0 <= j < |db.items| ==> LinkedItem(db, db.items[j]) ==> InPending(db, j) == InPending(moved, j);
  }

  lemma DecideSound(db: Db, i: nat, admin: UserId, verdict: Verdict)
    requires Inv(db) && i < |db.items| && Decide(db, i, admin, verdict).Ok?
    ensures Sound(db, Decide(db, i, admin, verdict).value)
  {
    DecideBalanced(db, i, admin, verdict);
    var d := Decide(db, i, admin, verdict).value;
    // The stock movement leaves requests and items alone; the rest is Resolve.
    var moved := d.(requests := db.requests, items := db.items);
    assert Linked(moved) by {
      assert forall j :: 0 <= j < |db.items| ==> LinkedItem(db, db.items[j]) ==> LinkedItem(moved, db.items[j]);
    }
    MovedInv(db, moved);
    ResolveKeeps(moved, i, if verdict.Approve? then ItemApproved else ItemDenied, admin);
    assert d == Resolve(moved, i, if verdict.Approve? then ItemApproved else ItemDenied, admin);
  }

  ghost predicate SoundIfOk(db: Db, result: Result<Db, Error>) {
    forall d :: result == Ok(d) ==> Sound(db, d)
  }

  lemma DecideNextSound(db: Db, before: Result<Db, Error>, r: nat, admin: UserId, verdict: Verdict, i: nat)
    requires before.Ok? && Linked(before.value) && i < |before.value.items| && SoundIfOk(db, before)
    ensures SoundIfOk(db, DecideNext(before.value, r, admin, verdict, i))
  {
    var d := before.value;
    if PendingItemOf(d.items[i], r) && Decide(d, i, admin, verdict).Ok? {
      DecideSound(d, i, admin, verdict);
      SoundTransitive(db, d, Decide(d, i, admin, verdict).value);
    }
  }

  lemma {:induction false} DecideUpToSound(db: Db, r: nat, admin: UserId, verdict: Verdict, n: nat)
    requires Linked(db) && n <= |db.items| && SoundIfOk(db, Ok(db))
    ensures SoundIfOk(db, DecideUpTo(db, r, admin, verdict, n))
  {
    if n > 0 {
      DecideUpToSound(db, r, admin, verdict, n - 1);
      var before := DecideUpTo(db, r, admin, verdict, n - 1);
      if before.Ok? {
        DecideNextSound(db, before, r, admin, verdict, n - 1);
      }
    }
  }

  lemma DecideRequestSound(db: Db, r: nat, admin: UserId, verdict: Verdict)
    requires Inv(db) && r < |db.requests|
    ensures SoundIfOk(db, DecideRequest(db, r, admin, verdict))
  {
    DecideUpToSound(db, r, admin, verdict, |db.items|);
    if DecideRequest(db, r, admin, verdict).Ok? {
      ClosingSound(db, DecideUpTo(db, r, admin, verdict, |db.items|).value, r, admin);
    }
  }

  /** The last writes of a request-level decision add nothing but who processed it. */
  lemma ClosingSound(db: Db, d: Db, r: nat, admin: UserId)
    requires Sound(db, d) && r < |db.requests| && db.requests[r].status == Pending
    ensures Sound(db, d.(requests := d.requests[r := d.requests[r].(status := StatusOf(d.items, r), processedBy := Some(admin))]))
  {
    var d' := d.(requests := d.requests[r := d.requests[r].(status := StatusOf(d.items, r), processedBy := Some(admin))]);
    assert forall i :: 0 <= i < |d.items| ==> LinkedItem(d, d.items[i]) ==> LinkedItem(d', d.items[i]);
    assert forall s :: 0 <= s < |d.requests| ==> d'.requests[s].status == d.requests[s].status;
    assert forall i :: 0 <= i < |d.items| ==> InPending(d', i) == InPending(d, i);
  }

  // ---- Creating ----

  /** Fresh pending items of request r on rows no PENDING request refers to. */
  ghost predicate GoodItems(db: Db, r: nat, items: seq<Item>)
    requires Linked(db)
  {
    forall k :: 0 <= k < |items| ==>
      && items[k].request == r && items[k].status == ItemPending
      && (items[k].target.OnEquipment? ==> items[k].target.custody < |db.custody|)
      && (items[k].target.OnHolding? ==> items[k].target.holding < |db.holdings|)
      && !PendingOn(db, items[k].target)
  }

  ghost predicate DistinctCustody(items: seq<Item>) {
    forall k, l :: 0 <= k < l < |items| && items[k].target.OnEquipment? && items[l].target.OnEquipment? ==>
      items[k].target.custody != items[l].target.custody
  }

  ghost predicate QuietEvents(events: seq<Event>) {
    forall e :: e in events ==>
      !e.EquipmentAssigned? && !e.EquipmentReturned? && (e.StockEvent? ==> e.quantityChange == 0)
  }

  lemma EquipmentDraft(db: Db, user: UserId, r: nat, ids: seq<nat>)
    requires Linked(db) && BuildEquipment(db, user, r, ids).Ok?
    ensures var draft := BuildEquipment(db, user, r, ids).value;
            && GoodItems(db, r, draft.items) && DistinctCustody(draft.items) && QuietEvents(draft.events)
            && |draft.items| == |ids|
  {
    var m := Matching(db.custody, user, ids, |db.custody|);
    assert forall k :: 0 <= k < |m| ==> OpenFor(db.custody[m[k]], user, ids) && !PendingOn(db, OnEquipment(m[k]));
  }

  lemma {:induction false} HoldingsDraft(db: Db, user: UserId, r: nat, kind: Kind, entries: seq<Entry>, n: nat)
    requires Linked(db) && n <= |entries| && BuildHoldings(db, user, r, kind, entries, n).Ok?
    ensures var draft := BuildHoldings(db, user, r, kind, entries, n).value;
            && GoodItems(db, r, draft.items) && QuietEvents(draft.events) && |draft.items| == n
            && forall item :: item in draft.items ==> item.target.OnHolding?
  {
    if n > 0 {
      HoldingsDraft(db, user, r, kind, entries, n - 1);
      var h := CheckEntry(db, user, kind, entries[n - 1]).value;
      assert !PendingOn(db, OnHolding(h, entries[n - 1].quantity));
    }
  }

  lemma DraftsTogether(db: Db, r: nat, a: Draft, b: Draft)
    requires Linked(db) && GoodItems(db, r, a.items) && GoodItems(db, r, b.items)
    requires DistinctCustody(a.items) && forall item :: item in b.items ==> item.target.OnHolding?
    requires QuietEvents(a.events) && QuietEvents(b.events)
    ensures GoodItems(db, r, a.items + b.items) && DistinctCustody(a.items + b.items) && QuietEvents(a.events + b.events)
  {
    assert forall k :: 0 <= k < |b.items| ==> b.items[k] in b.items;
  }

  lemma DraftOf(db: Db, user: UserId, r: nat, payload: seq<Entry>)
    requires Linked(db) && BuildAll(db, user, r, payload).Ok?
    ensures var draft := BuildAll(db, user, r, payload).value;
            && GoodItems(db, r, draft.items) && DistinctCustody(draft.items) && QuietEvents(draft.events)
            && |draft.items| == |EquipmentIds(payload)| + |EntriesOf(payload, "accessory")| + |EntriesOf(payload, "consumable")|
  {
    var ids := EquipmentIds(payload);
    var accessories, consumables := EntriesOf(payload, "accessory"), EntriesOf(payload, "consumable");
    if ids != [] { EquipmentDraft(db, user, r, ids); }
    HoldingsDraft(db, user, r, Accessory, accessories, |accessories|);
    HoldingsDraft(db, user, r, Consumable, consumables, |consumables|);
    var d1 := if ids == [] then Draft([], []) else BuildEquipment(db, user, r, ids).value;
    var d2 := BuildHoldings(db, user, r, Accessory, accessories, |accessories|).value;
    DraftsTogether(db, r, d1, d2);
    DraftsTogether(db, r, Draft(d1.items + d2.items, d1.events + d2.events),
                   BuildHoldings(db, user, r, Consumable, consumables, |consumables|).value);
  }

  lemma {:induction false} SplitCounts(payload: seq<Entry>)
    requires forall e :: e in payload ==> KnownType(e)
    ensures |EquipmentIds(payload)| + |EntriesOf(payload, "accessory")| + |EntriesOf(payload, "consumable")| == |payload|
    decreases |payload|
  {
    if payload != [] {
      assert KnownType(payload[0]);
      SplitCounts(payload[1..]);
    }
  }

  lemma HasAmongNew(items: seq<Item>, extra: seq<Item>, r: nat, status: ItemStatus)
    ensures Has(items + extra, r, status) <==> Has(items, r, status) || Has(extra, r, status)
  {
    var all := items + extra;
    if Has(items, r, status) {
      var i :| 0 <= i < |items| && items[i].request == r && items[i].status == status;
      assert all[i] == items[i];
    }
    if Has(extra, r, status) {
      var i :| 0 <= i < |extra| && extra[i].request == r && extra[i].status == status;
      assert all[|items| + i] == extra[i];
    }
  }

  lemma CreateLinked(db: Db, user: UserId, payload: seq<Entry>)
    requires Linked(db) && Create(db, user, payload).Ok?
    ensures Linked(Create(db, user, payload).value)
  {
    DraftOf(db, user, |db.requests|, payload);
    var d := Create(db, user, payload).value;
    forall i | 0 <= i < |d.items| ensures LinkedItem(d, d.items[i]) {
      if i < |db.items| { assert LinkedItem(db, db.items[i]); }
    }
  }

  lemma CreateStatus(db: Db, s: nat, items: seq<Item>)
    requires Linked(db) && StatusesAgree(db) && s <= |db.requests| && GoodItems(db, |db.requests|, items)
    ensures StatusOf(db.items + items, s) == if s < |db.requests| then db.requests[s].status else Pending
  {
    forall status: ItemStatus {
      HasAmongNew(db.items, items, s, status);
    }
    if s == |db.requests| {
      assert forall i :: 0 <= i < |db.items| ==> LinkedItem(db, db.items[i]);
      assert forall status :: !Has(db.items, s, status);
    }
  }

  lemma CreateSound(db: Db, user: UserId, payload: seq<Entry>)
    requires Inv(db) && Create(db, user, payload).Ok?
    ensures Sound(db, Create(db, user, payload).value)
    ensures |Create(db, user, payload).value.items| == |db.items| + |payload|
  {
    var r := |db.requests|;
    var draft := BuildAll(db, user, r, payload).value;
    DraftOf(db, user, r, payload);
    SplitCounts(payload);
    var d := Create(db, user, payload).value;
    CreateLinked(db, user, payload);
    forall s | 0 <= s <= r ensures d.requests[s].status == StatusOf(d.items, s) {
      CreateStatus(db, s, draft.items);
    }
    CreateExclusive(db, r, user, draft, d);
    forall a | 0 <= a < |db.assets| ensures Ledger(d.events, a) == Ledger(db.events, a) {
      LedgerQuiet(db.events, draft.events, a);
    }
  }

  lemma CreateExclusive(db: Db, r: nat, user: UserId, draft: Draft, d: Db)
    requires Inv(db) && Linked(d) && r == |db.requests|
    requires GoodItems(db, r, draft.items) && DistinctCustody(draft.items)
    requires d == db.(requests := db.requests + [Request(user, Pending, None)], items := db.items + draft.items,
                      events := db.events + draft.events)
    ensures Exclusive(d)
  {
    var n := |db.items|;
    forall i | 0 <= i < n ensures LinkedItem(db, db.items[i]) && InPending(d, i) == InPending(db, i) {
      assert LinkedItem(db, db.items[i]);
    }
    forall i, k | 0 <= i < n && 0 <= k < |draft.items| && InPending(db, i)
      ensures !SameRow(db.items[i].target, draft.items[k].target) && !SameRow(draft.items[k].target, db.items[i].target)
    {
      assert !PendingOn(db, draft.items[k].target);
    }
    forall i, j | 0 <= i < |d.items| && 0 <= j < |d.items| && InPending(d, i) && InPending(d, j)
                  && SameRow(d.items[i].target, d.items[j].target)
      ensures d.items[i].request == d.items[j].request && (d.items[i].target.OnEquipment? ==> i == j)
    {
      assert (i < n) == (j < n);
      if n <= i && n <= j {
        assert d.items[i] == draft.items[i - n] && d.items[j] == draft.items[j - n];
      }
    }
  }

  // ---- Every run ----

  lemma CustodyMovesSound(db: Db, d: Db)
    requires Inv(db) && Linked(d) && OneRowEach(d.custody)
    requires d == db.(custody := d.custody, events := d.events) && |db.custody| <= |d.custody|
    requires forall c :: 0 <= c < |db.custody| ==> d.custody[c].equipment == db.custody[c].equipment
    requires |db.events| < |d.events| && d.events[..|d.events| - 1] == db.events && !d.events[|d.events| - 1].StockEvent?
    ensures Sound(db, d)
  {
    assert forall i :: 0 <= i < |d.items| ==> LinkedItem(db, db.items[i]) ==> InPending(d, i) == InPending(db, i);
  }

  lemma AssignSound(db: Db, e: EquipmentId, actor: UserId, user: UserId)
    requires Inv(db)
    ensures Sound(db, AssignTo(db, e, actor, user))
  {
    if !IsOut(db, e) {
      var d := AssignTo(db, e, actor, user);
      forall i | 0 <= i < |d.items| ensures LinkedItem(d, d.items[i]) { assert LinkedItem(db, db.items[i]); }
      CustodyMovesSound(db, d);
    }
  }

  lemma TakeBackSound(db: Db, e: EquipmentId, actor: UserId)
    requires Inv(db)
    ensures Sound(db, TakeBack(db, e, actor))
  {
    if IsOut(db, e) {
      var d := TakeBack(db, e, actor);
      forall i | 0 <= i < |d.items| ensures LinkedItem(d, d.items[i]) { assert LinkedItem(db, db.items[i]); }
      CustodyMovesSound(db, d);
    }
  }

  lemma StepSound(db: Db, op: Op)
    requires Inv(db)
    ensures Sound(db, Step(db, op))
  {
    match op
    case CreateRequest(user, payload) =>
      if Create(db, user, payload).Ok? { CreateSound(db, user, payload); }
    case DecideOne(i, admin, verdict) =>
      if i < |db.items| && Decide(db, i, admin, verdict).Ok? { DecideSound(db, i, admin, verdict); }
    case DecideAll(r, admin, verdict) =>
      if r < |db.requests| { DecideRequestSound(db, r, admin, verdict); }
    case Assign(e, actor, user) => AssignSound(db, e, actor, user);
    case Unassign(e, actor) => TakeBackSound(db, e, actor);
  }

  lemma {:induction false} InvAlways(run: seq<Db>, ops: seq<Op>, k: nat)
    requires IsRun(run, ops) && k <= |ops|
    ensures Inv(run[k])
  {
    if k > 0 {
      InvAlways(run, ops, k - 1);
      StepSound(run[k - 1], ops[k - 1]);
    }
  }

  lemma SoundSnoc(db: Db, d: Db, op: Op)
    requires Sound(db, d)
    ensures Sound(db, Step(d, op))
  {
    StepSound(d, op);
    SoundTransitive(db, d, Step(d, op));
  }

  /**
  Between any two moments of a run: the statuses agree with the items and pending rows are not
  shared (Inv), settled requests and items stay settled (Kept), stock plus holdings is constant
  and explained by the ledger (Balanced). Quantities are naturals throughout.
  */
  lemma {:induction false} RunSound(run: seq<Db>, ops: seq<Op>, i: nat, j: nat)
    requires IsRun(run, ops) && i <= j <= |ops|
    ensures Inv(run[i]) && Sound(run[i], run[j])
    decreases j
  {
    InvAlways(run, ops, i);
    if i < j {
      RunSound(run, ops, i, j - 1);
      SoundSnoc(run[i], run[j - 1], ops[j - 1]);
    }
  }

  /** Once a request has left PENDING no later step changes its status, nor who processed it. */
  lemma SettledForGood(run: seq<Db>, ops: seq<Op>, i: nat, j: nat, r: nat)
    requires IsRun(run, ops) && i <= j <= |ops|
    requires r < |run[i].requests| && run[i].requests[r].status != Pending
    ensures r < |run[j].requests| && run[j].requests[r] == run[i].requests[r]
    ensures run[j].requests[r].status == StatusOf(run[j].items, r)
  {
    RunSound(run, ops, i, j);
  }

  /** Two PENDING requests never refer to the same row, and no PENDING request asks for a custody row twice. */
  lemma PendingRowsUnshared(run: seq<Db>, ops: seq<Op>, k: nat, i: nat, j: nat)
    requires IsRun(run, ops) && k <= |ops| && Linked(run[k])
    requires i < |run[k].items| && j < |run[k].items| && i != j && InPending(run[k], i) && InPending(run[k], j)
    ensures var a, b := run[k].items[i].target, run[k].items[j].target;
            && (a.OnEquipment? && b.OnEquipment? ==> a.custody != b.custody)
            && (a.OnHolding? && b.OnHolding? && a.holding == b.holding ==> run[k].items[i].request == run[k].items[j].request)
  {
    RunSound(run, ops, k, k);
  }

  predicate AwaitsEquipment(db: Db, i: nat, c: nat) {
    i < |db.items| && db.items[i].status == ItemPending && db.items[i].target == OnEquipment(c)
  }

  lemma PendingItemOfWhich(db: Db, i: nat)
    requires Inv(db) && i < |db.items| && db.items[i].status == ItemPending
    ensures db.items[i].request < |db.requests|
    ensures db.requests[db.items[i].request].status in {Pending, Partial}
  {
    assert LinkedItem(db, db.items[i]);
    assert Has(db.items, db.items[i].request, ItemPending);
  }

  /**
  Two items still pending on one custody row: only if one of their requests is PARTIAL, since a
  PARTIAL request no longer stands in the way of asking for its pending items again.
  */
  lemma SharedRowMeansPartial(run: seq<Db>, ops: seq<Op>, k: nat, i: nat, j: nat, c: nat)
    requires IsRun(run, ops) && k <= |ops| && i != j
    requires AwaitsEquipment(run[k], i, c) && AwaitsEquipment(run[k], j, c)
    ensures run[k].items[i].request < |run[k].requests| && run[k].items[j].request < |run[k].requests|
    ensures run[k].requests[run[k].items[i].request].status == Partial
            || run[k].requests[run[k].items[j].request].status == Partial
  {
    InvAlways(run, ops, k);
    PendingItemOfWhich(run[k], i);
    PendingItemOfWhich(run[k], j);
    assert SameRow(run[k].items[i].target, run[k].items[j].target);
  }

  /** The stock of asset a between any two moments: it moves by the ledger's new rows, and nothing is lost. */
  lemma StockConserved(run: seq<Db>, ops: seq<Op>, i: nat, k: nat, a: nat)
    requires IsRun(run, ops) && i <= k <= |ops| && a < |run[i].assets|
    ensures a < |run[k].assets|
    ensures run[k].assets[a].stock == run[i].assets[a].stock + Ledger(run[k].events, a) - Ledger(run[i].events, a)
    ensures run[k].assets[a].stock + Held(run[k].holdings, a) == run[i].assets[a].stock + Held(run[i].holdings, a)
  {
    RunSound(run, ops, i, k);
  }
}
