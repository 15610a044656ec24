/** Exactly which payloads `create_mixed_return_request` accepts. */
module ReturnCreation {
  import opened Outcomes
  import opened ReturnTables
  import opened ReturnRuns
  import opened Sequences

  function Equipment(custody: seq<Custody>, m: seq<nat>): seq<nat>
    requires forall k :: 0 <= k < |m| ==> m[k] < |custody|
  {
    seq(|m|, k requires 0 <= k < |m| => custody[m[k]].equipment)
  }

  ghost predicate HasOpenRow(custody: seq<Custody>, user: UserId, id: nat) {
    exists c :: 0 <= c < |custody| && custody[c].equipment == id && custody[c].open && custody[c].user == user
  }

  lemma {:induction false} MatchingComplete(custody: seq<Custody>, user: UserId, ids: seq<nat>, n: nat, c: nat)
    requires c < n <= |custody| && OpenFor(custody[c], user, ids)
    ensures c in Matching(custody, user, ids, n)
  {
    if c < n - 1 {
      MatchingComplete(custody, user, ids, n - 1, c);
    }
  }

  lemma FoundIfHeld(custody: seq<Custody>, user: UserId, ids: seq<nat>, id: nat)
    requires id in ids
    ensures id in Equipment(custody, Matching(custody, user, ids, |custody|)) <==> HasOpenRow(custody, user, id)
  {
    var m := Matching(custody, user, ids, |custody|);
    var found := Equipment(custody, m);
    if HasOpenRow(custody, user, id) {
      var c :| 0 <= c < |custody| && custody[c].equipment == id && custody[c].open && custody[c].user == user;
      MatchingComplete(custody, user, ids, |custody|, c);
      var k :| 0 <= k < |m| && m[k] == c;
      assert found[k] == id;
    }
    if id in found {
      var k :| 0 <= k < |found| && found[k] == id;
      assert OpenFor(custody[m[k]], user, ids) && custody[m[k]].equipment == id;
    }
  }

  lemma FoundOnce(custody: seq<Custody>, user: UserId, ids: seq<nat>)
    requires OneRowEach(custody)
    ensures var found := Equipment(custody, Matching(custody, user, ids, |custody|));
            Distinct(found) && ToSet(found) <= ToSet(ids)
  {
    var m := Matching(custody, user, ids, |custody|);
    assert forall k :: 0 <= k < |m| ==> m[k] < |custody| && OpenFor(custody[m[k]], user, ids);
  }

  /**
  Comparing the number of rows with the number of ids is the same as asking that every id has an
  open row of this user and no id is repeated.
  */
  lemma CountCheck(custody: seq<Custody>, user: UserId, ids: seq<nat>)
    requires OneRowEach(custody)
    ensures |Matching(custody, user, ids, |custody|)| == |ids| <==>
            Distinct(ids) && forall id :: id in ids ==> HasOpenRow(custody, user, id)
  {
    var m := Matching(custody, user, ids, |custody|);
    var found := Equipment(custody, m);
    FoundOnce(custody, user, ids);
    forall id | id in ids ensures id in found <==> HasOpenRow(custody, user, id) {
      FoundIfHeld(custody, user, ids, id);
    }
    SetSize(found);
    SetSize(ids);
    if |m| == |ids| {
      SubsetOfSameSize(ToSet(found), ToSet(ids));
      assert forall id :: id in ids ==> id in ToSet(ids);
    } else if forall id :: id in ids ==> HasOpenRow(custody, user, id) {
      assert ToSet(found) == ToSet(ids);
    }
  }

  lemma SubsetOfSameSize(a: set<nat>, b: set<nat>)
    requires a <= b && |a| >= |b|
    ensures a == b
  {
    assert |b - a| == |b| - |a|;
  }

  /** An item of a PENDING request stands on custody row c. */
  ghost predicate CustodyAsked(db: Db, c: nat)
    requires Linked(db)
  {
    exists i :: 0 <= i < |db.items| && PendingOnRow(db, i, true, c)
  }

  /** An item of a PENDING request stands on holding h, for whatever quantity. */
  ghost predicate HoldingAsked(db: Db, h: nat)
    requires Linked(db)
  {
    exists i :: 0 <= i < |db.items| && PendingOnRow(db, i, false, h)
  }

  predicate PendingOnRow(db: Db, i: nat, custody: bool, row: nat)
    requires Linked(db) && i < |db.items|
  {
    assert LinkedItem(db, db.items[i]);
    && db.requests[db.items[i].request].status == Pending
    && match db.items[i].target
       case OnEquipment(c) => custody && c == row
       case OnHolding(h, _) => !custody && h == row
  }

  lemma PendingOnExactly(db: Db, target: Target)
    requires Linked(db)
    ensures target.OnEquipment? ==> (PendingOn(db, target) <==> CustodyAsked(db, target.custody))
    ensures target.OnHolding? ==> (PendingOn(db, target) <==> HoldingAsked(db, target.holding))
  {
    var row := if target.OnEquipment? then target.custody else target.holding;
    forall i | 0 <= i < |db.items|
      ensures LinkedItem(db, db.items[i])
      ensures SameRow(db.items[i].target, target) && db.requests[db.items[i].request].status == Pending <==>
              PendingOnRow(db, i, target.OnEquipment?, row)
    {
      assert LinkedItem(db, db.items[i]);
    }
  }

  ghost predicate EquipmentFree(db: Db, user: UserId, id: nat)
    requires Linked(db)
  {
    exists c :: 0 <= c < |db.custody| && db.custody[c].equipment == id && db.custody[c].open
             && db.custody[c].user == user && !CustodyAsked(db, c)
  }

  lemma OpenRowMatched(db: Db, user: UserId, ids: seq<nat>, id: nat) returns (k: nat)
    requires id in ids && HasOpenRow(db.custody, user, id)
    ensures var m := Matching(db.custody, user, ids, |db.custody|);
            k < |m| && db.custody[m[k]].equipment == id && OpenFor(db.custody[m[k]], user, ids)
  {
    var m := Matching(db.custody, user, ids, |db.custody|);
    var c :| 0 <= c < |db.custody| && db.custody[c].equipment == id && db.custody[c].open && db.custody[c].user == user;
    MatchingComplete(db.custody, user, ids, |db.custody|, c);
    k :| 0 <= k < |m| && m[k] == c;
  }

  lemma AcceptedIsFree(db: Db, user: UserId, r: nat, ids: seq<nat>, id: nat)
    requires Linked(db) && BuildEquipment(db, user, r, ids).Ok? && id in ids && HasOpenRow(db.custody, user, id)
    ensures EquipmentFree(db, user, id)
  {
    var k := OpenRowMatched(db, user, ids, id);
    var m := Matching(db.custody, user, ids, |db.custody|);
    assert !PendingOn(db, OnEquipment(m[k]));
    PendingOnExactly(db, OnEquipment(m[k]));
  }

  lemma AskedIsNotFree(db: Db, user: UserId, ids: seq<nat>, k: nat)
    requires Linked(db) && OneRowEach(db.custody)
    requires var m := Matching(db.custody, user, ids, |db.custody|);
             k < |m| && PendingOn(db, OnEquipment(m[k]))
    ensures var c := Matching(db.custody, user, ids, |db.custody|)[k];
            db.custody[c].equipment in ids && !EquipmentFree(db, user, db.custody[c].equipment)
  {
    var m := Matching(db.custody, user, ids, |db.custody|);
    assert OpenFor(db.custody[m[k]], user, ids);
    PendingOnExactly(db, OnEquipment(m[k]));
  }

  lemma EquipmentExact(db: Db, user: UserId, r: nat, ids: seq<nat>)
    requires Linked(db) && OneRowEach(db.custody)
    ensures BuildEquipment(db, user, r, ids).Ok? <==>
            Distinct(ids) && forall id :: id in ids ==> EquipmentFree(db, user, id)
  {
    var m := Matching(db.custody, user, ids, |db.custody|);
    CountCheck(db.custody, user, ids);
    assert forall id :: EquipmentFree(db, user, id) ==> HasOpenRow(db.custody, user, id);
    if BuildEquipment(db, user, r, ids).Ok? {
      forall id | id in ids ensures EquipmentFree(db, user, id) {
        AcceptedIsFree(db, user, r, ids, id);
      }
    } else if |m| == |ids| {
      var k: nat :| k < |m| && PendingOn(db, OnEquipment(m[k]));
      AskedIsNotFree(db, user, ids, k);
    }
  }

  lemma {:induction false} HoldingsExact(db: Db, user: UserId, r: nat, kind: Kind, entries: seq<Entry>, n: nat)
    requires Linked(db) && n <= |entries|
    ensures BuildHoldings(db, user, r, kind, entries, n).Ok? <==>
            forall k :: 0 <= k < n ==> CheckEntry(db, user, kind, entries[k]).Ok?
  {
    if n > 0 {
      HoldingsExact(db, user, r, kind, entries, n - 1);
    }
  }

  /** Holding h is one the user has in hand: open, not empty, of that asset, which is of the kind and not deleted. */
  ghost predicate InHand(db: Db, h: nat, user: UserId, kind: Kind, publicId: nat)
    requires h < |db.holdings|
  {
    && db.holdings[h] == Holding(publicId, user, db.holdings[h].quantity, true) && db.holdings[h].quantity != 0
    && publicId < |db.assets|
    && db.assets[publicId] == Asset(kind, db.assets[publicId].stock, false, db.assets[publicId].room)
  }

  lemma HeldIsInHand(db: Db, h: nat, user: UserId, kind: Kind, publicId: nat)
    requires Linked(db) && h < |db.holdings|
    ensures HeldBy(db, h, user, kind, publicId) <==> InHand(db, h, user, kind, publicId)
  {
  }

  /** The entry's holding is the last row the query returns for it, as a map would keep. */
  ghost predicate HoldingFree(db: Db, user: UserId, kind: Kind, e: Entry)
    requires Linked(db)
  {
    exists h :: 0 <= h < |db.holdings| && InHand(db, h, user, kind, e.publicId)
             && (forall m :: h < m < |db.holdings| ==> !InHand(db, m, user, kind, e.publicId))
             && 0 <= e.quantity <= db.holdings[h].quantity && !HoldingAsked(db, h)
  }

  lemma {:induction false} LastHeldIsLast(db: Db, user: UserId, kind: Kind, publicId: nat, n: nat, m: nat)
    requires Linked(db) && m < n <= |db.holdings| && HeldBy(db, m, user, kind, publicId)
    ensures var h := LastHeld(db, user, kind, publicId, n);
            h.Some? && m <= h.value
  {
    if !HeldBy(db, n - 1, user, kind, publicId) {
      LastHeldIsLast(db, user, kind, publicId, n - 1, m);
    }
  }

  lemma EntryExact(db: Db, user: UserId, kind: Kind, e: Entry)
    requires Linked(db)
    ensures CheckEntry(db, user, kind, e).Ok? <==> HoldingFree(db, user, kind, e)
  {
    var last := LastHeld(db, user, kind, e.publicId, |db.holdings|);
    forall m | 0 <= m < |db.holdings|
      ensures HeldBy(db, m, user, kind, e.publicId) <==> InHand(db, m, user, kind, e.publicId)
    {
      HeldIsInHand(db, m, user, kind, e.publicId);
    }
    forall m | 0 <= m < |db.holdings| && HeldBy(db, m, user, kind, e.publicId) ensures last.Some? && m <= last.value {
      LastHeldIsLast(db, user, kind, e.publicId, |db.holdings|, m);
    }
    if last.Some? { PendingOnExactly(db, OnHolding(last.value, 0)); }
  }

  /** What is said about an entry that is refused is true of it. */
  lemma EntryRefusals(db: Db, user: UserId, kind: Kind, e: Entry)
    requires Linked(db)
    ensures CheckEntry(db, user, kind, e) == Err(NotAssigned) <==>
            forall m :: 0 <= m < |db.holdings| ==> !InHand(db, m, user, kind, e.publicId)
    ensures var last := LastHeld(db, user, kind, e.publicId, |db.holdings|);
            last.Some? ==>
              var h, result := last.value, CheckEntry(db, user, kind, e);
              && (result == Err(ExceedsHeldQuantity) <==> e.quantity > db.holdings[h].quantity)
              && (result == Err(AlreadyPending) <==> e.quantity <= db.holdings[h].quantity && HoldingAsked(db, h))
              && (result == Err(NegativeQuantity) <==> e.quantity < 0 && !HoldingAsked(db, h))
  {
    var last := LastHeld(db, user, kind, e.publicId, |db.holdings|);
    forall m | 0 <= m < |db.holdings|
      ensures HeldBy(db, m, user, kind, e.publicId) <==> InHand(db, m, user, kind, e.publicId)
    {
      HeldIsInHand(db, m, user, kind, e.publicId);
    }
    if last.Some? { PendingOnExactly(db, OnHolding(last.value, 0)); }
  }

  lemma EquipmentRefusals(db: Db, user: UserId, r: nat, ids: seq<nat>)
    requires Linked(db) && OneRowEach(db.custody)
    ensures var inHand := Distinct(ids) && forall id :: id in ids ==> HasOpenRow(db.custody, user, id);
            && (BuildEquipment(db, user, r, ids) == Err(NotAssigned) <==> !inHand)
            && (BuildEquipment(db, user, r, ids) == Err(AlreadyPending) <==>
                inHand && exists id :: id in ids && !EquipmentFree(db, user, id))
  {
    CountCheck(db.custody, user, ids);
    EquipmentExact(db, user, r, ids);
  }

  lemma HoldingEntriesExact(db: Db, user: UserId, r: nat, kind: Kind, entries: seq<Entry>)
    requires Linked(db)
    ensures BuildHoldings(db, user, r, kind, entries, |entries|).Ok? <==>
            forall e :: e in entries ==> HoldingFree(db, user, kind, e)
  {
    HoldingsExact(db, user, r, kind, entries, |entries|);
    forall e | e in entries ensures CheckEntry(db, user, kind, e).Ok? <==> HoldingFree(db, user, kind, e) {
      EntryExact(db, user, kind, e);
    }
    assert forall k :: 0 <= k < |entries| ==> entries[k] in entries;
  }

  lemma BuildAllExact(db: Db, user: UserId, r: nat, payload: seq<Entry>)
    requires Linked(db) && OneRowEach(db.custody)
    ensures BuildAll(db, user, r, payload).Ok? <==>
            && Distinct(EquipmentIds(payload))
            && (forall id :: id in EquipmentIds(payload) ==> EquipmentFree(db, user, id))
            && (forall e :: e in EntriesOf(payload, "accessory") ==> HoldingFree(db, user, Accessory, e))
            && (forall e :: e in EntriesOf(payload, "consumable") ==> HoldingFree(db, user, Consumable, e))
  {
    EquipmentExact(db, user, r, EquipmentIds(payload));
    HoldingEntriesExact(db, user, r, Accessory, EntriesOf(payload, "accessory"));
    HoldingEntriesExact(db, user, r, Consumable, EntriesOf(payload, "consumable"));
  }

  function KindOf(e: Entry): Kind {
    if e.assetType == "consumable" then Consumable else Accessory
  }

  function TypeOf(kind: Kind): string {
    match kind
    case Accessory => "accessory"
    case Consumable => "consumable"
  }

  /** The room of the asset an entry names, if it has one. */
  function NamedRoom(db: Db, e: Entry): Option<RoomId> {
    if e.assetType == "equipment" then if e.publicId in db.rooms then Some(db.rooms[e.publicId]) else None
    else if e.publicId < |db.assets| then db.assets[e.publicId].room
    else None
  }

  // ---- What a payload is drafted into ----

  /** Item asks for what entry e names: the user's open row of that asset, the entry's quantity, the asset's room. */
  ghost predicate AsksFor(db: Db, user: UserId, e: Entry, item: Item)
    requires Linked(db)
  {
    match item.target
    case OnEquipment(c) =>
      && item.status == ItemPending && item.verifiedBy.None? && item.room == NamedRoom(db, e)
      && e.assetType == "equipment" && c < |db.custody|
      && db.custody[c].equipment == e.publicId && db.custody[c].user == user && db.custody[c].open
    case OnHolding(h, q) =>
      && item.status == ItemPending && item.verifiedBy.None? && item.room == NamedRoom(db, e)
      && (e.assetType == "accessory" || e.assetType == "consumable")
      && q == e.quantity && h < |db.holdings| && InHand(db, h, user, KindOf(e), e.publicId)
  }

  lemma {:induction false} HoldingItems(db: Db, user: UserId, r: nat, kind: Kind, entries: seq<Entry>, n: nat, k: nat)
    requires Linked(db) && k < n <= |entries| && BuildHoldings(db, user, r, kind, entries, n).Ok?
    requires entries[k].assetType == TypeOf(kind)
    ensures var draft := BuildHoldings(db, user, r, kind, entries, n).value;
            && |draft.items| == |draft.events| == n
            && draft.items[k].request == r && AsksFor(db, user, entries[k], draft.items[k])
    decreases n
  {
    var before := BuildHoldings(db, user, r, kind, entries, n - 1).value;
    BuildHoldingsLength(db, user, r, kind, entries, n - 1);
    if k < n - 1 {
      HoldingItems(db, user, r, kind, entries, n - 1, k);
    } else {
      var h := LastHeld(db, user, kind, entries[k].publicId, |db.holdings|);
      assert h.Some? && HeldBy(db, h.value, user, kind, entries[k].publicId);
      HeldIsInHand(db, h.value, user, kind, entries[k].publicId);
    }
  }

  lemma {:induction false} BuildHoldingsLength(db: Db, user: UserId, r: nat, kind: Kind, entries: seq<Entry>, n: nat)
    requires Linked(db) && n <= |entries| && BuildHoldings(db, user, r, kind, entries, n).Ok?
    ensures var draft := BuildHoldings(db, user, r, kind, entries, n).value;
            |draft.items| == n && Logged(db, user, draft.items, draft.events)
  {
    if n > 0 { BuildHoldingsLength(db, user, r, kind, entries, n - 1); }
  }

  /** Beside each item its RETURN_REQUESTED event. */
  ghost predicate Logged(db: Db, user: UserId, items: seq<Item>, events: seq<Event>) {
    && |events| == |items|
    && forall k :: 0 <= k < |items| ==>
         && (items[k].target.OnEquipment? ==> items[k].target.custody < |db.custody|)
         && (items[k].target.OnHolding? ==> items[k].target.holding < |db.holdings|)
         && (items[k].target.OnEquipment? ==>
               && events[k].EquipmentReturnRequested? && events[k].user == user
               && events[k].equipment == db.custody[items[k].target.custody].equipment)
         && (items[k].target.OnHolding? ==>
               && events[k].StockEvent? && events[k].user == events[k].reportedBy == user
               && events[k].asset == db.holdings[items[k].target.holding].asset
               && events[k].quantity == items[k].target.quantity && events[k].quantityChange == 0)
  }

  // ---- Which item belongs to which entry ----

  lemma {:induction false} EntriesConcat(a: seq<Entry>, b: seq<Entry>, t: string)
    ensures EntriesOf(a + b, t) == EntriesOf(a, t) + EntriesOf(b, t)
    decreases |a|
  {
    if a == [] {
      assert a + b == b;
    } else {
      var first := if a[0].assetType == t then [a[0]] else [];
      assert (a + b)[0] == a[0] && (a + b)[1..] == a[1..] + b;
      assert EntriesOf(a + b, t) == first + EntriesOf(a[1..] + b, t);
      EntriesConcat(a[1..], b, t);
      assert first + (EntriesOf(a[1..], t) + EntriesOf(b, t)) == (first + EntriesOf(a[1..], t)) + EntriesOf(b, t);
    }
  }

  lemma EntriesSnoc(payload: seq<Entry>, e: Entry, t: string)
    ensures EntriesOf(payload + [e], t) == if e.assetType == t then EntriesOf(payload, t) + [e] else EntriesOf(payload, t)
  {
    EntriesConcat(payload, [e], t);
    assert [e][1..] == [];
  }

  lemma {:induction false} IdsOfEntries(payload: seq<Entry>)
    ensures |EquipmentIds(payload)| == |EntriesOf(payload, "equipment")|
    ensures forall k :: 0 <= k < |EquipmentIds(payload)| ==>
              EquipmentIds(payload)[k] == EntriesOf(payload, "equipment")[k].publicId
    decreases |payload|
  {
    if payload != [] { IdsOfEntries(payload[1..]); }
  }

  /** How many entries of type t come before entry k. */
  function Before(payload: seq<Entry>, k: nat, t: string): nat
    requires k <= |payload|
  {
    |EntriesOf(payload[..k], t)|
  }

  lemma EntryAt(payload: seq<Entry>, k: nat, t: string)
    requires k < |payload| && payload[k].assetType == t
    ensures Before(payload, k, t) < |EntriesOf(payload, t)|
    ensures EntriesOf(payload, t)[Before(payload, k, t)] == payload[k]
  {
    assert payload == payload[..k] + ([payload[k]] + payload[k + 1..]);
    EntriesConcat(payload[..k], [payload[k]] + payload[k + 1..], t);
    assert ([payload[k]] + payload[k + 1..])[0] == payload[k];
  }

  lemma BeforeGrows(payload: seq<Entry>, k: nat, l: nat, t: string)
    requires k < l < |payload| && payload[k].assetType == t
    ensures Before(payload, k, t) < Before(payload, l, t)
  {
    EntryAt(payload[..l], k, t);
    assert payload[..l][..k] == payload[..k];
  }

  /** The place of entry k among the three builders' items, one after the other. */
  ghost function Place(db: Db, user: UserId, payload: seq<Entry>, k: nat): nat
    requires k < |payload|
    requires payload[k].assetType == "equipment" ==> exists j: nat :: PlacedAt(db, user, payload, k, j)
  {
    var ids, held := |EquipmentIds(payload)|, |EntriesOf(payload, TypeOf(Accessory))|;
    if payload[k].assetType == "equipment" then var j: nat :| PlacedAt(db, user, payload, k, j); j
    else if payload[k].assetType == TypeOf(Accessory) then ids + Before(payload, k, TypeOf(Accessory))
    else ids + held + Before(payload, k, TypeOf(Consumable))
  }

  ghost predicate PlacedAt(db: Db, user: UserId, payload: seq<Entry>, k: nat, j: nat) {
    var m := Matching(db.custody, user, EquipmentIds(payload), |db.custody|);
    k < |payload| && j < |m| && db.custody[m[j]].equipment == payload[k].publicId
  }

  /** The drafted items are the three builders' items in a row. */
  ghost predicate DraftParts(db: Db, user: UserId, r: nat, payload: seq<Entry>, parts: seq<Draft>)
    requires Linked(db)
  {
    var ids := EquipmentIds(payload);
    var held, issued := EntriesOf(payload, TypeOf(Accessory)), EntriesOf(payload, TypeOf(Consumable));
    && |parts| == 3
    && (if ids == [] then parts[0] == Draft([], []) else BuildEquipment(db, user, r, ids) == Ok(parts[0]))
    && BuildHoldings(db, user, r, Accessory, held, |held|) == Ok(parts[1])
    && BuildHoldings(db, user, r, Consumable, issued, |issued|) == Ok(parts[2])
  }

  lemma SplitDraft(db: Db, user: UserId, r: nat, payload: seq<Entry>) returns (parts: seq<Draft>)
    requires Linked(db) && BuildAll(db, user, r, payload).Ok?
    ensures DraftParts(db, user, r, payload, parts)
    ensures BuildAll(db, user, r, payload).value
            == Draft(parts[0].items + parts[1].items + parts[2].items, parts[0].events + parts[1].events + parts[2].events)
  {
    var ids := EquipmentIds(payload);
    var held, issued := EntriesOf(payload, TypeOf(Accessory)), EntriesOf(payload, TypeOf(Consumable));
    parts := [if ids == [] then Draft([], []) else BuildEquipment(db, user, r, ids).value,
              BuildHoldings(db, user, r, Accessory, held, |held|).value,
              BuildHoldings(db, user, r, Consumable, issued, |issued|).value];
  }

  lemma EquipmentLogged(db: Db, user: UserId, r: nat, ids: seq<nat>)
    requires Linked(db) && BuildEquipment(db, user, r, ids).Ok?
    ensures var draft := BuildEquipment(db, user, r, ids).value;
            |draft.items| == |ids| && Logged(db, user, draft.items, draft.events)
  {
    var m := Matching(db.custody, user, ids, |db.custody|);
    var draft := BuildEquipment(db, user, r, ids).value;
    forall k | 0 <= k < |m|
      ensures draft.items[k].target == OnEquipment(m[k]) && draft.events[k] == RequestedEvent(db, user, OnEquipment(m[k])) {
    }
  }

  lemma PartSizes(db: Db, user: UserId, r: nat, payload: seq<Entry>, parts: seq<Draft>)
    requires Linked(db) && DraftParts(db, user, r, payload, parts)
    ensures |parts[0].items| == |EquipmentIds(payload)|
    ensures |parts[1].items| == |EntriesOf(payload, TypeOf(Accessory))|
    ensures |parts[2].items| == |EntriesOf(payload, TypeOf(Consumable))|
  {
    var held, issued := EntriesOf(payload, TypeOf(Accessory)), EntriesOf(payload, TypeOf(Consumable));
    if EquipmentIds(payload) != [] { EquipmentLogged(db, user, r, EquipmentIds(payload)); }
    BuildHoldingsLength(db, user, r, Accessory, held, |held|);
    BuildHoldingsLength(db, user, r, Consumable, issued, |issued|);
  }

  lemma PartLogged(db: Db, user: UserId, r: nat, payload: seq<Entry>, parts: seq<Draft>, p: nat)
    requires Linked(db) && DraftParts(db, user, r, payload, parts) && p < 3
    ensures Logged(db, user, parts[p].items, parts[p].events)
  {
    var held, issued := EntriesOf(payload, TypeOf(Accessory)), EntriesOf(payload, TypeOf(Consumable));
    if p == 0 {
      if EquipmentIds(payload) != [] { EquipmentLogged(db, user, r, EquipmentIds(payload)); }
    } else if p == 1 {
      BuildHoldingsLength(db, user, r, Accessory, held, |held|);
    } else {
      BuildHoldingsLength(db, user, r, Consumable, issued, |issued|);
    }
  }

  lemma EquipmentPlaced(db: Db, user: UserId, r: nat, payload: seq<Entry>, parts: seq<Draft>, k: nat)
    requires Linked(db) && OneRowEach(db.custody) && DraftParts(db, user, r, payload, parts)
    requires k < |payload| && payload[k].assetType == "equipment"
    ensures exists j: nat :: PlacedAt(db, user, payload, k, j)
    ensures forall j: nat :: PlacedAt(db, user, payload, k, j) ==>
              j < |parts[0].items| && parts[0].items[j].request == r && AsksFor(db, user, payload[k], parts[0].items[j])
  {
    var ids := EquipmentIds(payload);
    IdsOfEntries(payload);
    EntryAt(payload, k, "equipment");
    assert payload[k].publicId in ids;
    CountCheck(db.custody, user, ids);
    FoundIfHeld(db.custody, user, ids, payload[k].publicId);
    var m := Matching(db.custody, user, ids, |db.custody|);
    var j: nat :| j < |m| && Equipment(db.custody, m)[j] == payload[k].publicId;
    assert PlacedAt(db, user, payload, k, j);
    forall i: nat | PlacedAt(db, user, payload, k, i)
      ensures i < |parts[0].items| && parts[0].items[i].request == r && AsksFor(db, user, payload[k], parts[0].items[i])
    {
      assert OpenFor(db.custody[m[i]], user, ids);
      assert parts[0].items[i] == EquipmentItem(db, r, m[i]);
    }
  }

  lemma HoldingPlaced(db: Db, user: UserId, r: nat, payload: seq<Entry>, parts: seq<Draft>, k: nat, kind: Kind)
    requires Linked(db) && DraftParts(db, user, r, payload, parts)
    requires k < |payload| && payload[k].assetType == TypeOf(kind)
    ensures var b, part := Before(payload, k, TypeOf(kind)), parts[if kind.Accessory? then 1 else 2];
            b < |part.items| && part.items[b].request == r && AsksFor(db, user, payload[k], part.items[b])
  {
    EntryAt(payload, k, TypeOf(kind));
    var entries := EntriesOf(payload, TypeOf(kind));
    HoldingItems(db, user, r, kind, entries, |entries|, Before(payload, k, TypeOf(kind)));
  }

  ghost predicate Fits(db: Db, user: UserId, r: nat, e: Entry, item: Item)
    requires Linked(db)
  {
    match item
    case Item(request, _, _, _, _) => request == r && AsksFor(db, user, e, item)
  }

  lemma HoldingEntryPlaced(db: Db, user: UserId, r: nat, payload: seq<Entry>, parts: seq<Draft>, k: nat, kind: Kind)
    requires Linked(db) && DraftParts(db, user, r, payload, parts)
    requires k < |payload| && payload[k].assetType == TypeOf(kind)
    ensures var items := parts[0].items + parts[1].items + parts[2].items;
            var at := |EquipmentIds(payload)| + (if kind.Accessory? then 0 else |EntriesOf(payload, TypeOf(Accessory))|)
                      + Before(payload, k, TypeOf(kind));
            at < |items| && Fits(db, user, r, payload[k], items[at])
  {
    var b, part := Before(payload, k, TypeOf(kind)), parts[if kind.Accessory? then 1 else 2];
    PartSizes(db, user, r, payload, parts);
    HoldingPlaced(db, user, r, payload, parts, k, kind);
    assert Fits(db, user, r, payload[k], part.items[b]);
  }

  /** Entry k is drafted at its place. */
  lemma EntryPlaced(db: Db, user: UserId, r: nat, payload: seq<Entry>, parts: seq<Draft>, k: nat)
    requires Linked(db) && OneRowEach(db.custody) && DraftParts(db, user, r, payload, parts)
    requires k < |payload| && KnownType(payload[k])
    ensures payload[k].assetType == "equipment" ==> exists j: nat :: PlacedAt(db, user, payload, k, j)
    ensures var items := parts[0].items + parts[1].items + parts[2].items;
            var at := Place(db, user, payload, k);
            at < |items| && Fits(db, user, r, payload[k], items[at])
  {
    PartSizes(db, user, r, payload, parts);
    if payload[k].assetType == "equipment" {
      EquipmentPlaced(db, user, r, payload, parts, k);
    } else if payload[k].assetType == TypeOf(Accessory) {
      HoldingEntryPlaced(db, user, r, payload, parts, k, Accessory);
    } else {
      HoldingEntryPlaced(db, user, r, payload, parts, k, Consumable);
    }
  }

  /** Different entries have different places. */
  lemma PlacesDiffer(db: Db, user: UserId, r: nat, payload: seq<Entry>, parts: seq<Draft>, k: nat, l: nat)
    requires Linked(db) && OneRowEach(db.custody) && DraftParts(db, user, r, payload, parts)
    requires k < l < |payload| && KnownType(payload[k]) && KnownType(payload[l])
    requires payload[k].assetType == "equipment" ==> exists j: nat :: PlacedAt(db, user, payload, k, j)
    requires payload[l].assetType == "equipment" ==> exists j: nat :: PlacedAt(db, user, payload, l, j)
    ensures Place(db, user, payload, k) != Place(db, user, payload, l)
  {
    var t, u := payload[k].assetType, payload[l].assetType;
    PartSizes(db, user, r, payload, parts);
    EntryAt(payload, k, t);
    EntryAt(payload, l, u);
    if t == u {
      BeforeGrows(payload, k, l, t);
      if t == "equipment" {
        IdsOfEntries(payload);
        CountCheck(db.custody, user, EquipmentIds(payload));
        var ids := EquipmentIds(payload);
        assert ids[Before(payload, k, t)] == payload[k].publicId && ids[Before(payload, l, t)] == payload[l].publicId;
      }
    } else if t == "equipment" {
      EquipmentPlaced(db, user, r, payload, parts, k);
    } else if u == "equipment" {
      EquipmentPlaced(db, user, r, payload, parts, l);
    }
  }

  /** Entry k became item at[k], different entries different items; as there are as many, every item belongs to an entry. */
  ghost predicate OneItemEach(db: Db, user: UserId, r: nat, payload: seq<Entry>, items: seq<Item>, at: seq<nat>)
    requires Linked(db)
  {
    && |at| == |payload| == |items| && Distinct(at)
    && (forall k :: 0 <= k < |at| ==> at[k] < |items| && Fits(db, user, r, payload[k], items[at[k]]))
  }

  lemma ItemOfEntry(db: Db, user: UserId, r: nat, payload: seq<Entry>, items: seq<Item>, at: seq<nat>, j: nat)
    returns (k: nat)
    requires Linked(db) && OneItemEach(db, user, r, payload, items, at) && j < |items|
    ensures k < |payload| && at[k] == j && Fits(db, user, r, payload[k], items[j])
  {
    DistinctIsOnto(at, j);
    k :| k < |at| && at[k] == j;
  }

  ghost predicate HasPlace(db: Db, user: UserId, r: nat, payload: seq<Entry>, items: seq<Item>, k: nat)
    requires Linked(db)
  {
    && k < |payload|
    && (payload[k].assetType == "equipment" ==> exists j: nat :: PlacedAt(db, user, payload, k, j))
    && var at := Place(db, user, payload, k);
       at < |items| && Fits(db, user, r, payload[k], items[at])
  }

  lemma PlacesMap(db: Db, user: UserId, r: nat, payload: seq<Entry>, items: seq<Item>) returns (at: seq<nat>)
    requires Linked(db) && |items| == |payload|
    requires forall k: nat :: k < |payload| ==> HasPlace(db, user, r, payload, items, k)
    requires forall k: nat, l: nat | k < l < |payload| && HasPlace(db, user, r, payload, items, k)
                                     && HasPlace(db, user, r, payload, items, l) ::
               Place(db, user, payload, k) != Place(db, user, payload, l)
    ensures OneItemEach(db, user, r, payload, items, at)
  {
    at := seq(|payload|, k requires 0 <= k < |payload| && HasPlace(db, user, r, payload, items, k) =>
                           Place(db, user, payload, k));
    forall k: nat | k < |at| ensures at[k] < |items| && Fits(db, user, r, payload[k], items[at[k]]) {
      assert HasPlace(db, user, r, payload, items, k);
    }
  }

  lemma PartsMapped(db: Db, user: UserId, r: nat, payload: seq<Entry>, parts: seq<Draft>, items: seq<Item>)
    returns (at: seq<nat>)
    requires Linked(db) && OneRowEach(db.custody) && (forall e :: e in payload ==> KnownType(e))
    requires DraftParts(db, user, r, payload, parts)
    requires items == parts[0].items + parts[1].items + parts[2].items && |items| == |payload|
    ensures OneItemEach(db, user, r, payload, items, at)
  {
    forall k: nat | k < |payload| ensures HasPlace(db, user, r, payload, items, k) {
      assert payload[k] in payload;
      EntryPlaced(db, user, r, payload, parts, k);
    }
    forall k: nat, l: nat | k < l < |payload| && HasPlace(db, user, r, payload, items, k)
                            && HasPlace(db, user, r, payload, items, l)
      ensures Place(db, user, payload, k) != Place(db, user, payload, l)
    {
      assert payload[k] in payload && payload[l] in payload;
      PlacesDiffer(db, user, r, payload, parts, k, l);
    }
    at := PlacesMap(db, user, r, payload, items);
  }

  lemma LoggedConcat(db: Db, user: UserId, a: Draft, b: Draft)
    requires Logged(db, user, a.items, a.events) && Logged(db, user, b.items, b.events)
    ensures Logged(db, user, a.items + b.items, a.events + b.events)
  {
  }

  lemma DraftMapped(db: Db, user: UserId, r: nat, payload: seq<Entry>) returns (at: seq<nat>)
    requires Linked(db) && OneRowEach(db.custody) && (forall e :: e in payload ==> KnownType(e))
    requires BuildAll(db, user, r, payload).Ok?
    ensures var draft := BuildAll(db, user, r, payload).value;
            OneItemEach(db, user, r, payload, draft.items, at) && Logged(db, user, draft.items, draft.events)
  {
    var parts := SplitDraft(db, user, r, payload);
    PartSizes(db, user, r, payload, parts);
    SplitCounts(payload);
    PartLogged(db, user, r, payload, parts, 0);
    PartLogged(db, user, r, payload, parts, 1);
    PartLogged(db, user, r, payload, parts, 2);
    LoggedConcat(db, user, parts[0], parts[1]);
    LoggedConcat(db, user, Draft(parts[0].items + parts[1].items, parts[0].events + parts[1].events), parts[2]);
    at := PartsMapped(db, user, r, payload, parts, parts[0].items + parts[1].items + parts[2].items);
  }

  /** Nothing is stored unless every asset named has a room. */
  lemma RoomsExact(db: Db, user: UserId, r: nat, payload: seq<Entry>)
    requires Linked(db) && OneRowEach(db.custody) && (forall e :: e in payload ==> KnownType(e))
    requires BuildAll(db, user, r, payload).Ok?
    ensures (exists item :: item in BuildAll(db, user, r, payload).value.items && item.room.None?)
            <==> exists e :: e in payload && NamedRoom(db, e).None?
  {
    var items := BuildAll(db, user, r, payload).value.items;
    var at := DraftMapped(db, user, r, payload);
    if item :| item in items && item.room.None? {
      var j: nat :| j < |items| && items[j] == item;
      var k := ItemOfEntry(db, user, r, payload, items, at, j);
      assert Fits(db, user, r, payload[k], item) && payload[k] in payload;
    }
    if e :| e in payload && NamedRoom(db, e).None? {
      var k: nat :| k < |payload| && payload[k] == e;
      assert Fits(db, user, r, e, items[at[k]]) && items[at[k]] in items;
    }
  }

  lemma CreateSteps(db: Db, user: UserId, payload: seq<Entry>)
    requires Linked(db) && OneRowEach(db.custody)
    ensures Create(db, user, payload).Ok? <==>
            && |payload| <= MAX_TOTAL_ITEMS && (forall e :: e in payload ==> KnownType(e))
            && BuildAll(db, user, |db.requests|, payload).Ok?
            && (forall e :: e in payload ==> NamedRoom(db, e).Some?)
  {
    if BuildAll(db, user, |db.requests|, payload).Ok? && forall e :: e in payload ==> KnownType(e) {
      RoomsExact(db, user, |db.requests|, payload);
    }
  }

  /**
  A request is created exactly when there are at most twenty entries of known types, equipment ids
  do not repeat and each is in the user's open custody with no pending request, each accessory and
  consumable entry alone asks for no more than the user's holding, which is not pending either, and
  every asset named has a room. Entries that repeat an accessory are accepted even when together
  they ask for too much.
  */
  lemma CreateExact(db: Db, user: UserId, payload: seq<Entry>)
    requires Linked(db) && OneRowEach(db.custody)
    ensures Create(db, user, payload).Ok? <==>
            && |payload| <= MAX_TOTAL_ITEMS
            && (forall e :: e in payload ==>
                  e.assetType == "equipment" || e.assetType == "accessory" || e.assetType == "consumable")
            && Distinct(EquipmentIds(payload))
            && (forall id :: id in EquipmentIds(payload) ==> EquipmentFree(db, user, id))
            && (forall e :: e in EntriesOf(payload, "accessory") ==> HoldingFree(db, user, Accessory, e))
            && (forall e :: e in EntriesOf(payload, "consumable") ==> HoldingFree(db, user, Consumable, e))
            && (forall e :: e in payload ==> NamedRoom(db, e).Some?)
  {
    BuildAllExact(db, user, |db.requests|, payload);
    CreateSteps(db, user, payload);
  }

  lemma {:induction false} NoRoomAskedFor(db: Db, user: UserId, r: nat, kind: Kind, entries: seq<Entry>, n: nat)
    requires Linked(db) && n <= |entries|
    ensures BuildHoldings(db, user, r, kind, entries, n) != Err(RoomMissing)
  {
    if n > 0 { NoRoomAskedFor(db, user, r, kind, entries, n - 1); }
  }

  /** A request fails for want of a room exactly when everything else is in order and some asset named has none. */
  lemma RoomMissingExactly(db: Db, user: UserId, payload: seq<Entry>)
    requires Linked(db) && OneRowEach(db.custody)
    ensures Create(db, user, payload) == Err(RoomMissing) <==>
            && |payload| <= MAX_TOTAL_ITEMS && (forall e :: e in payload ==> KnownType(e))
            && BuildAll(db, user, |db.requests|, payload).Ok?
            && (exists e :: e in payload && NamedRoom(db, e).None?)
  {
    var r := |db.requests|;
    var held, issued := EntriesOf(payload, "accessory"), EntriesOf(payload, "consumable");
    NoRoomAskedFor(db, user, r, Accessory, held, |held|);
    NoRoomAskedFor(db, user, r, Consumable, issued, |issued|);
    if BuildAll(db, user, r, payload).Ok? && forall e :: e in payload ==> KnownType(e) {
      RoomsExact(db, user, r, payload);
    }
  }

  lemma {:induction false} HoldingsNeverSay(db: Db, user: UserId, r: nat, kind: Kind, entries: seq<Entry>, n: nat)
    requires Linked(db) && n <= |entries|
    ensures BuildHoldings(db, user, r, kind, entries, n) != Err(TooManyItems)
    ensures BuildHoldings(db, user, r, kind, entries, n) != Err(InvalidAssetType)
  {
    if n > 0 { HoldingsNeverSay(db, user, r, kind, entries, n - 1); }
  }

  /** What is said about a payload of the wrong size or with a type nobody knows. */
  lemma ShapeRefusals(db: Db, user: UserId, payload: seq<Entry>)
    requires Linked(db)
    ensures Create(db, user, payload) == Err(TooManyItems) <==> |payload| > 20
    ensures Create(db, user, payload) == Err(InvalidAssetType) <==>
            |payload| <= 20 && exists e :: e in payload && e.assetType != "equipment" && e.assetType != "accessory"
                                           && e.assetType != "consumable"
  {
    var r := |db.requests|;
    var held, issued := EntriesOf(payload, "accessory"), EntriesOf(payload, "consumable");
    HoldingsNeverSay(db, user, r, Accessory, held, |held|);
    HoldingsNeverSay(db, user, r, Consumable, issued, |issued|);
  }

  /** One accessory in the user's hands. */
  function OneAccessory(user: UserId, room: Option<RoomId>): (db: Db)
    ensures Linked(db)
  {
    Db([], [], [], [Holding(0, user, 1, true)], [Asset(Accessory, 0, false, room)], [], map[])
  }

  const THE_ACCESSORY := Entry("accessory", 0, 1)

  lemma AccessoryDrafted(user: UserId, room: Option<RoomId>)
    ensures BuildAll(OneAccessory(user, room), user, 0, [THE_ACCESSORY]).Ok?
  {
    var db := OneAccessory(user, room);
    EntriesSnoc([], THE_ACCESSORY, "accessory");
    EntriesSnoc([], THE_ACCESSORY, "consumable");
    EntriesSnoc([], THE_ACCESSORY, "equipment");
    IdsOfEntries([THE_ACCESSORY]);
    assert [] + [THE_ACCESSORY] == [THE_ACCESSORY];
    assert InHand(db, 0, user, Accessory, 0) && !HoldingAsked(db, 0);
    assert HoldingFree(db, user, Accessory, THE_ACCESSORY);
    BuildAllExact(db, user, 0, [THE_ACCESSORY]);
  }

  /** Asking to return it is accepted with a room, and refused without. */
  lemma RefusedForTheRoom(user: UserId, room: Option<RoomId>)
    ensures var result := Create(OneAccessory(user, room), user, [THE_ACCESSORY]);
            if room.Some? then result.Ok? else result == Err(RoomMissing)
  {
    var db := OneAccessory(user, room);
    AccessoryDrafted(user, room);
    assert THE_ACCESSORY in [THE_ACCESSORY];
    RoomMissingExactly(db, user, [THE_ACCESSORY]);
    CreateSteps(db, user, [THE_ACCESSORY]);
  }

  /**
  A created request is pending and each entry of the payload has become one item of its own, naming
  the user's open row of that asset with the quantity asked for; each item is logged as requested,
  and no stock moves.
  */
  lemma CreateContents(db: Db, user: UserId, payload: seq<Entry>)
    returns (items: seq<Item>, events: seq<Event>, at: seq<nat>)
    requires Linked(db) && OneRowEach(db.custody) && Create(db, user, payload).Ok?
    ensures Create(db, user, payload).value
            == db.(requests := db.requests + [Request(user, Pending, None)], items := db.items + items, events := db.events + events)
    ensures OneItemEach(db, user, |db.requests|, payload, items, at)
    ensures Logged(db, user, items, events)
    ensures forall item :: item in items ==> item.room.Some?
  {
    var draft := BuildAll(db, user, |db.requests|, payload).value;
    items, events := draft.items, draft.events;
    at := DraftMapped(db, user, |db.requests|, payload);
  }
}
