/** Exactly when two pending items come to stand on one custody row. */
module ReturnSharing {
  import opened ReturnTables
  import opened ReturnRuns
  import opened ReturnCreation

  ghost predicate Shared(db: Db, c: nat) {
    exists i: nat, j: nat :: i < j && AwaitsEquipment(db, i, c) && AwaitsEquipment(db, j, c)
  }

  ghost predicate PartialItemOn(db: Db, i: nat, c: nat) {
    && AwaitsEquipment(db, i, c) && db.items[i].request < |db.requests|
    && db.requests[db.items[i].request].status == Partial
  }

  /** An item of a PARTIAL request is still pending on row c. */
  ghost predicate LeftPending(db: Db, c: nat) {
    exists i: nat :: PartialItemOn(db, i, c)
  }

  predicate Names(payload: seq<Entry>, e: EquipmentId) {
    exists k: nat :: k < |payload| && payload[k].assetType == "equipment" && payload[k].publicId == e
  }

  /** The step creates a request, and one of its entries names the equipment of row c. */
  ghost predicate Requests(db: Db, op: Op, c: nat) {
    && Linked(db) && op.CreateRequest? && Create(db, op.user, op.payload).Ok?
    && c < |db.custody| && Names(op.payload, db.custody[c].equipment)
  }

  predicate StandsOn(items: seq<Item>, c: nat) {
    exists k: nat :: k < |items| && items[k].target == OnEquipment(c)
  }

  // ---- One step ----

  /** The new items stand on the rows whose equipment is named. */
  lemma NewItemsOn(db: Db, user: UserId, payload: seq<Entry>, items: seq<Item>, c: nat)
    requires Inv(db) && Create(db, user, payload).Ok?
    requires items == BuildAll(db, user, |db.requests|, payload).value.items
    ensures StandsOn(items, c) <==> c < |db.custody| && Names(payload, db.custody[c].equipment)
  {
    var r := |db.requests|;
    var at := DraftMapped(db, user, r, payload);
    if StandsOn(items, c) {
      var j: nat :| j < |items| && items[j].target == OnEquipment(c);
      var k := ItemOfEntry(db, user, r, payload, items, at, j);
      assert Fits(db, user, r, payload[k], items[j]);
    }
    if c < |db.custody| && Names(payload, db.custody[c].equipment) {
      var k: nat :| k < |payload| && payload[k].assetType == "equipment" && payload[k].publicId == db.custody[c].equipment;
      EquipmentFits(db, user, r, payload[k], items[at[k]], c);
    }
  }

  lemma EquipmentFits(db: Db, user: UserId, r: nat, e: Entry, item: Item, c: nat)
    requires Linked(db) && OneRowEach(db.custody) && Fits(db, user, r, e, item)
    requires e.assetType == "equipment" && c < |db.custody| && db.custody[c].equipment == e.publicId
    ensures item.target == OnEquipment(c)
  {
    assert |"equipment"| == 9 && |"consumable"| == 10 && "equipment"[0] != "accessory"[0];
  }

  lemma StillAwaited(db: Db, d: Db, i: nat, c: nat)
    requires Kept(db, d) && i < |db.items|
    ensures AwaitsEquipment(d, i, c) ==> AwaitsEquipment(db, i, c)
  {
  }

  lemma OnlyCreationAdds(db: Db, op: Op)
    requires Linked(db)
    ensures |Step(db, op).items| > |db.items| ==> op.CreateRequest? && Create(db, op.user, op.payload).Ok?
  {
  }

  /** Of two items on one row after a creation, one was there before and one is new. */
  lemma OldAndNew(db: Db, d: Db, items: seq<Item>, i: nat, j: nat, c: nat)
    requires d.items == db.items + items && DistinctCustody(items) && !Shared(db, c)
    requires i < j && AwaitsEquipment(d, i, c) && AwaitsEquipment(d, j, c)
    ensures AwaitsEquipment(db, i, c)
    ensures |db.items| <= j && items[j - |db.items|].target == OnEquipment(c)
  {
    var n := |db.items|;
    assert i < n ==> AwaitsEquipment(db, i, c);
    assert j < n ==> AwaitsEquipment(db, j, c);
    assert forall k :: n <= k < |d.items| ==> d.items[k] == items[k - n];
  }

  lemma PartialBeside(db: Db, r: nat, items: seq<Item>, i: nat, k: nat, c: nat)
    requires Inv(db) && GoodItems(db, r, items)
    requires AwaitsEquipment(db, i, c) && k < |items| && items[k].target == OnEquipment(c)
    ensures LeftPending(db, c)
  {
    PendingItemOfWhich(db, i);
    assert !PendingOn(db, items[k].target);
    assert PartialItemOn(db, i, c);
  }

  lemma SharedByBoth(db: Db, d: Db, items: seq<Item>, c: nat)
    requires Linked(db) && LeftPending(db, c) && d.items == db.items + items && StandsOn(items, c)
    requires GoodItems(db, |db.requests|, items)
    ensures Shared(d, c)
  {
    var i: nat :| PartialItemOn(db, i, c);
    var k: nat :| k < |items| && items[k].target == OnEquipment(c);
    var j := |db.items| + k;
    assert d.items[j] == items[k];
    assert AwaitsEquipment(d, i, c) && AwaitsEquipment(d, j, c);
  }

  /** A created request leaves a row with two pending items exactly if one of a PARTIAL request was there. */
  lemma CreationShares(db: Db, user: UserId, payload: seq<Entry>, c: nat)
    requires Inv(db) && !Shared(db, c) && Create(db, user, payload).Ok?
    ensures Shared(Create(db, user, payload).value, c)
            <==> c < |db.custody| && Names(payload, db.custody[c].equipment) && LeftPending(db, c)
  {
    var d := Create(db, user, payload).value;
    var items := BuildAll(db, user, |db.requests|, payload).value.items;
    DraftOf(db, user, |db.requests|, payload);
    NewItemsOn(db, user, payload, items, c);
    if i: nat, j: nat :| i < j && AwaitsEquipment(d, i, c) && AwaitsEquipment(d, j, c) {
      OldAndNew(db, d, items, i, j, c);
      PartialBeside(db, |db.requests|, items, i, j - |db.items|, c);
    }
    if LeftPending(db, c) && StandsOn(items, c) {
      SharedByBoth(db, d, items, c);
    }
  }

  /**
  A step makes two pending items stand on a row that had none or one exactly if it creates a request
  that names the row's equipment while an item of a PARTIAL request is still pending on the row.
  */
  lemma BecomesShared(db: Db, op: Op, c: nat)
    requires Inv(db) && !Shared(db, c)
    ensures Shared(Step(db, op), c) <==> Requests(db, op, c) && LeftPending(db, c)
  {
    var d := Step(db, op);
    StepSound(db, op);
    OnlyCreationAdds(db, op);
    if op.CreateRequest? && Create(db, op.user, op.payload).Ok? {
      CreationShares(db, op.user, op.payload, c);
    } else if i: nat, j: nat :| i < j && AwaitsEquipment(d, i, c) && AwaitsEquipment(d, j, c) {
      StillAwaited(db, d, i, c);
      StillAwaited(db, d, j, c);
    }
  }

  // ---- Every run ----

  /** At step m a request names the equipment of row c beside a pending item of a PARTIAL request. */
  ghost predicate AskedBesidePartial(run: seq<Db>, ops: seq<Op>, m: nat, c: nat) {
    m < |ops| < |run| && Requests(run[m], ops[m], c) && LeftPending(run[m], c)
  }

  ghost predicate EverShared(run: seq<Db>, k: nat, c: nat)
    requires k < |run|
  {
    exists m: nat :: m <= k && Shared(run[m], c)
  }

  ghost predicate EverAsked(run: seq<Db>, ops: seq<Op>, k: nat, c: nat) {
    exists m: nat :: m < k && AskedBesidePartial(run, ops, m, c)
  }

  lemma EverSharedNext(run: seq<Db>, k: nat, c: nat)
    requires 0 < k < |run|
    ensures EverShared(run, k, c) <==> EverShared(run, k - 1, c) || Shared(run[k], c)
  {
    if EverShared(run, k, c) {
      var m: nat :| m <= k && Shared(run[m], c);
      assert m == k || m <= k - 1;
    }
  }

  lemma EverAskedNext(run: seq<Db>, ops: seq<Op>, k: nat, c: nat)
    ensures EverAsked(run, ops, k + 1, c) <==> EverAsked(run, ops, k, c) || AskedBesidePartial(run, ops, k, c)
  {
    var next := k + 1;
    if EverAsked(run, ops, next, c) {
      var m: nat :| m < next && AskedBesidePartial(run, ops, m, c);
      assert m < k || m == k;
    }
    if EverAsked(run, ops, k, c) {
      var m: nat :| m < k && AskedBesidePartial(run, ops, m, c);
      assert m < next;
    }
    if AskedBesidePartial(run, ops, k, c) {
      assert k < next;
    }
  }

  lemma SharedNext(run: seq<Db>, ops: seq<Op>, k: nat, c: nat)
    requires IsRun(run, ops) && k < |ops| && !Shared(run[k], c)
    ensures Shared(run[k + 1], c) <==> AskedBesidePartial(run, ops, k, c)
  {
    InvAlways(run, ops, k);
    BecomesShared(run[k], ops[k], c);
  }

  /** A row has been shared by step k exactly if it started so or such a creation came before. */
  lemma {:induction false} SharedExactly(run: seq<Db>, ops: seq<Op>, k: nat, c: nat)
    requires IsRun(run, ops) && k <= |ops|
    ensures EverShared(run, k, c) <==> Shared(run[0], c) || EverAsked(run, ops, k, c)
  {
    if k > 0 {
      var last := k - 1;
      SharedExactly(run, ops, last, c);
      EverSharedNext(run, k, c);
      EverAskedNext(run, ops, last, c);
      if Shared(run[last], c) {
        assert EverShared(run, last, c);
      } else {
        SharedNext(run, ops, last, c);
      }
    }
  }
}
