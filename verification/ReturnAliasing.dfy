/** Requests whose entries name one holding several times: which of them can be approved. */
module ReturnAliasing {
  import opened Outcomes
  import opened ReturnTables
  import opened ReturnRuns
  import opened ReturnApproval
  import opened ReturnCreation

  /** Entry e is served from holding h. */
  predicate Resolves(db: Db, user: UserId, e: Entry, h: nat)
    requires Linked(db)
  {
    && (e.assetType == TypeOf(Accessory) || e.assetType == TypeOf(Consumable))
    && LastHeld(db, user, KindOf(e), e.publicId, |db.holdings|) == Some(h)
  }

  /** What the entries served from holding h ask for together. */
  function EntryDemand(db: Db, user: UserId, payload: seq<Entry>, h: nat): int
    requires Linked(db)
  {
    if payload == [] then 0
    else
      var e := payload[|payload| - 1];
      EntryDemand(db, user, payload[..|payload| - 1], h) + if Resolves(db, user, e, h) then e.quantity else 0
  }

  function Asked(items: seq<Item>, h: nat): nat {
    if items == [] then 0
    else
      var target := items[|items| - 1].target;
      Asked(items[..|items| - 1], h) + if target.OnHolding? && target.holding == h then target.quantity else 0
  }

  lemma {:induction false} AskedConcat(a: seq<Item>, b: seq<Item>, h: nat)
    ensures Asked(a + b, h) == Asked(a, h) + Asked(b, h)
    decreases |b|
  {
    if b == [] {
      assert a + b == a;
    } else {
      var n := |b| - 1;
      AskedConcat(a, b[..n], h);
      assert (a + b)[..|a + b| - 1] == a + b[..n];
    }
  }

  lemma {:induction false} EquipmentAsksNothing(items: seq<Item>, h: nat)
    requires forall k :: 0 <= k < |items| ==> items[k].target.OnEquipment?
    ensures Asked(items, h) == 0
  {
    if items != [] { EquipmentAsksNothing(items[..|items| - 1], h); }
  }

  lemma DemandSnoc(db: Db, user: UserId, entries: seq<Entry>, e: Entry, h: nat)
    requires Linked(db)
    ensures EntryDemand(db, user, entries + [e], h)
            == EntryDemand(db, user, entries, h) + if Resolves(db, user, e, h) then e.quantity else 0
  {
    assert (entries + [e])[..|entries|] == entries;
  }

  lemma AskedSnoc(items: seq<Item>, item: Item, h: nat)
    ensures Asked(items + [item], h)
            == Asked(items, h) + if item.target.OnHolding? && item.target.holding == h then item.target.quantity else 0
  {
    assert (items + [item])[..|items|] == items;
  }

  lemma ResolvesTo(db: Db, user: UserId, kind: Kind, e: Entry, h: nat)
    requires Linked(db) && e.assetType == TypeOf(kind) && CheckEntry(db, user, kind, e).Ok?
    ensures Resolves(db, user, e, h) <==> CheckEntry(db, user, kind, e).value == h
  {
    assert |TypeOf(Accessory)| != |TypeOf(Consumable)|;
  }

  lemma {:induction false} HoldingsAsked(db: Db, user: UserId, r: nat, kind: Kind, entries: seq<Entry>, n: nat, h: nat)
    requires Linked(db) && n <= |entries| && BuildHoldings(db, user, r, kind, entries, n).Ok?
    requires forall k :: 0 <= k < |entries| ==> entries[k].assetType == TypeOf(kind)
    ensures Asked(BuildHoldings(db, user, r, kind, entries, n).value.items, h) == EntryDemand(db, user, entries[..n], h)
  {
    if n > 0 {
      var e := entries[n - 1];
      HoldingsAsked(db, user, r, kind, entries, n - 1, h);
      var before := BuildHoldings(db, user, r, kind, entries, n - 1).value.items;
      AskedSnoc(before, HoldingItem(db, r, CheckEntry(db, user, kind, e).value, e.quantity), h);
      ResolvesTo(db, user, kind, e, h);
      DemandSnoc(db, user, entries[..n - 1], e, h);
      assert entries[..n] == entries[..n - 1] + [e];
    }
  }

  lemma {:induction false} EntriesAlike(payload: seq<Entry>, t: string)
    ensures forall k :: 0 <= k < |EntriesOf(payload, t)| ==> EntriesOf(payload, t)[k].assetType == t
    decreases |payload|
  {
    if payload != [] { EntriesAlike(payload[1..], t); }
  }

  lemma DemandStep(db: Db, user: UserId, payload: seq<Entry>, e: Entry, kind: Kind, h: nat)
    requires Linked(db)
    ensures EntryDemand(db, user, EntriesOf(payload + [e], TypeOf(kind)), h)
            == EntryDemand(db, user, EntriesOf(payload, TypeOf(kind)), h)
               + if e.assetType == TypeOf(kind) && Resolves(db, user, e, h) then e.quantity else 0
  {
    EntriesSnoc(payload, e, TypeOf(kind));
    DemandSnoc(db, user, EntriesOf(payload, TypeOf(kind)), e, h);
  }

  lemma {:induction false} DemandByKind(db: Db, user: UserId, payload: seq<Entry>, h: nat)
    requires Linked(db)
    ensures EntryDemand(db, user, payload, h)
            == EntryDemand(db, user, EntriesOf(payload, TypeOf(Accessory)), h)
               + EntryDemand(db, user, EntriesOf(payload, TypeOf(Consumable)), h)
    decreases |payload|
  {
    if payload != [] {
      var before, e := payload[..|payload| - 1], payload[|payload| - 1];
      DemandByKind(db, user, before, h);
      assert payload == before + [e];
      DemandStep(db, user, before, e, Accessory, h);
      DemandStep(db, user, before, e, Consumable, h);
      assert |TypeOf(Accessory)| != |TypeOf(Consumable)|;
    }
  }

  /** The new request's demand is what its entries ask for. */
  lemma DraftAsks(db: Db, user: UserId, r: nat, payload: seq<Entry>, h: nat)
    requires Linked(db) && BuildAll(db, user, r, payload).Ok?
    ensures Asked(BuildAll(db, user, r, payload).value.items, h) == EntryDemand(db, user, payload, h)
  {
    var parts := SplitDraft(db, user, r, payload);
    var held, issued := EntriesOf(payload, TypeOf(Accessory)), EntriesOf(payload, TypeOf(Consumable));
    EquipmentAsksNothing(parts[0].items, h);
    EntriesAlike(payload, TypeOf(Accessory));
    EntriesAlike(payload, TypeOf(Consumable));
    HoldingsAsked(db, user, r, Accessory, held, |held|, h);
    HoldingsAsked(db, user, r, Consumable, issued, |issued|, h);
    assert held[..|held|] == held && issued[..|issued|] == issued;
    AskedConcat(parts[0].items, parts[1].items, h);
    AskedConcat(parts[0].items + parts[1].items, parts[2].items, h);
    DemandByKind(db, user, payload, h);
  }

  lemma {:induction false} DemandOfNew(before: seq<Item>, new_: seq<Item>, r: nat, h: nat, n: nat)
    requires n <= |before| + |new_|
    requires forall i :: 0 <= i < |before| ==> before[i].request != r
    requires forall i :: 0 <= i < |new_| ==> PendingItemOf(new_[i], r)
    ensures Demand(before + new_, r, h, n) == if n <= |before| then 0 else Asked(new_[..n - |before|], h)
  {
    if n > 0 {
      DemandOfNew(before, new_, r, h, n - 1);
      if n > |before| {
        assert new_[..n - |before|][..n - 1 - |before|] == new_[..n - 1 - |before|];
      }
    }
  }

  lemma FreshItems(db: Db, user: UserId, payload: seq<Entry>) returns (items: seq<Item>)
    requires Linked(db) && Create(db, user, payload).Ok?
    ensures BuildAll(db, user, |db.requests|, payload).Ok?
    ensures items == BuildAll(db, user, |db.requests|, payload).value.items
    ensures Create(db, user, payload).value.items == db.items + items
    ensures forall i :: 0 <= i < |db.items| ==> db.items[i].request != |db.requests|
    ensures forall i :: 0 <= i < |items| ==> PendingItemOf(items[i], |db.requests|)
  {
    var r := |db.requests|;
    DraftOf(db, user, r, payload);
    items := BuildAll(db, user, r, payload).value.items;
    forall i | 0 <= i < |db.items| ensures db.items[i].request != r { assert LinkedItem(db, db.items[i]); }
  }

  lemma NewDemand(before: seq<Item>, items: seq<Item>, r: nat, h: nat)
    requires forall i :: 0 <= i < |before| ==> before[i].request != r
    requires forall i :: 0 <= i < |items| ==> PendingItemOf(items[i], r)
    ensures Demand(before + items, r, h, |before| + |items|) == Asked(items, h)
  {
    DemandOfNew(before, items, r, h, |before| + |items|);
    assert items[..|items|] == items;
    if items == [] { assert before + items == before; }
  }

  lemma DraftDemand(db: Db, user: UserId, payload: seq<Entry>, items: seq<Item>, h: nat)
    requires Linked(db) && BuildAll(db, user, |db.requests|, payload).Ok?
    requires items == BuildAll(db, user, |db.requests|, payload).value.items
    requires forall i :: 0 <= i < |db.items| ==> db.items[i].request != |db.requests|
    requires forall i :: 0 <= i < |items| ==> PendingItemOf(items[i], |db.requests|)
    ensures Demand(db.items + items, |db.requests|, h, |db.items| + |items|) == EntryDemand(db, user, payload, h)
  {
    NewDemand(db.items, items, |db.requests|, h);
    DraftAsks(db, user, |db.requests|, payload, h);
  }

  lemma ApprovableByDemand(db: Db, user: UserId, payload: seq<Entry>, d: Db, r: nat, admin: UserId)
    requires Linked(db) && Linked(d) && r < |d.requests| && d.requests[r].status == Pending && d.holdings == db.holdings
    requires forall h: nat :: h < |db.holdings| ==> Demand(d.items, r, h, |d.items|) == EntryDemand(db, user, payload, h)
    ensures DecideRequest(d, r, admin, Approve) == Err(ExceedsHeldQuantity)
            <==> exists h: nat :: h < |db.holdings| && EntryDemand(db, user, payload, h) > db.holdings[h].quantity
    ensures DecideRequest(d, r, admin, Approve).Ok?
            <==> forall h: nat :: h < |db.holdings| ==> EntryDemand(db, user, payload, h) <= db.holdings[h].quantity
  {
    ApproveRequestExact(d, r, admin);
  }

  /**
  A request that has just been created can be approved exactly when, for every holding, the entries
  served from it ask together for no more than it holds.
  */
  lemma FreshRequestApprovable(db: Db, user: UserId, payload: seq<Entry>, admin: UserId)
    requires Linked(db) && Create(db, user, payload).Ok?
    ensures Linked(Create(db, user, payload).value)
    ensures DecideRequest(Create(db, user, payload).value, |db.requests|, admin, Approve)
            == Err(ExceedsHeldQuantity)
            <==> exists h: nat :: h < |db.holdings| && EntryDemand(db, user, payload, h) > db.holdings[h].quantity
    ensures DecideRequest(Create(db, user, payload).value, |db.requests|, admin, Approve).Ok?
            <==> forall h: nat :: h < |db.holdings| ==> EntryDemand(db, user, payload, h) <= db.holdings[h].quantity
  {
    var r, d := |db.requests|, Create(db, user, payload).value;
    var items := FreshItems(db, user, payload);
    CreateLinked(db, user, payload);
    forall h: nat | h < |db.holdings| ensures Demand(d.items, r, h, |d.items|) == EntryDemand(db, user, payload, h) {
      DraftDemand(db, user, payload, items, h);
    }
    ApprovableByDemand(db, user, payload, d, r, admin);
  }

  lemma TwiceTheSame(e: Entry, t: string)
    ensures EntriesOf([e, e], t) == if e.assetType == t then [e, e] else []
  {
    assert [e, e][1..] == [e] && [e][1..] == [];
    assert EntriesOf([e], t) == if e.assetType == t then [e] else [];
  }

  const STUCK_ENTRY := Entry("accessory", 0, 2)

  function StuckDb(user: UserId): (db: Db)
    ensures Linked(db)
  {
    Db([], [], [], [Holding(0, user, 3, true)], [Asset(Accessory, 0, false, Some(0))], [], map[])
  }

  lemma StuckCreated(user: UserId)
    ensures Create(StuckDb(user), user, [STUCK_ENTRY, STUCK_ENTRY]).Ok?
  {
    var db, e := StuckDb(user), STUCK_ENTRY;
    TwiceTheSame(e, "accessory");
    TwiceTheSame(e, "consumable");
    TwiceTheSame(e, "equipment");
    IdsOfEntries([e, e]);
    assert InHand(db, 0, user, Accessory, 0) && !HoldingAsked(db, 0);
    assert HoldingFree(db, user, Accessory, e);
    CreateExact(db, user, [e, e]);
  }

  lemma StuckDemand(user: UserId)
    ensures EntryDemand(StuckDb(user), user, [STUCK_ENTRY, STUCK_ENTRY], 0) == 4
  {
    var db, e := StuckDb(user), STUCK_ENTRY;
    assert HeldBy(db, 0, user, Accessory, 0);
    assert LastHeld(db, user, Accessory, 0, 1) == Some(0);
    assert Resolves(db, user, e, 0);
    DemandSnoc(db, user, [], e, 0);
    DemandSnoc(db, user, [e], e, 0);
    assert [] + [e] == [e] && [e] + [e] == [e, e];
  }

  /** Two of three accessories asked for twice: created, and refused when it comes to approval. */
  lemma RepeatedAccessoryIsStuck(user: UserId, admin: UserId)
    ensures var created := Create(StuckDb(user), user, [STUCK_ENTRY, STUCK_ENTRY]);
            && created.Ok? && Linked(created.value)
            && DecideRequest(created.value, 0, admin, Approve) == Err(ExceedsHeldQuantity)
  {
    StuckCreated(user);
    StuckDemand(user);
    FreshRequestApprovable(StuckDb(user), user, [STUCK_ENTRY, STUCK_ENTRY], admin);
  }
}
