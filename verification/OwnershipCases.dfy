/** Two runs in which approving an item takes equipment from the wrong hands, or from nobody. */
module OwnershipCases {
  import opened Outcomes
  import opened Sequences
  import opened ReturnTables
  import opened ReturnRuns
  import opened ReturnCreation
  import opened EquipmentCustody
  import opened ReturnOwnership

  /** The payload that asks to return the given equipment. */
  function Ask(ids: seq<EquipmentId>): seq<Entry> {
    if ids == [] then [] else [Entry("equipment", ids[0], 0)] + Ask(ids[1..])
  }

  lemma {:induction false} AskSplits(ids: seq<EquipmentId>)
    ensures |Ask(ids)| == |ids| && EquipmentIds(Ask(ids)) == ids
    ensures EntriesOf(Ask(ids), "accessory") == [] && EntriesOf(Ask(ids), "consumable") == []
    ensures forall k :: 0 <= k < |ids| ==> Ask(ids)[k] == Entry("equipment", ids[k], 0)
  {
    if ids != [] {
      AskSplits(ids[1..]);
      assert Ask(ids)[1..] == Ask(ids[1..]);
      assert |"equipment"| == 9 && |"consumable"| == 10 && "equipment"[0] != "accessory"[0];
    }
  }

  /** Item i of request r is pending on the row of equipment e. */
  predicate Awaits(db: Db, i: nat, r: nat, e: EquipmentId) {
    IsOn(db, i, e) && PendingItemOf(db.items[i], r)
  }

  ghost predicate Askable(db: Db, user: UserId, ids: seq<EquipmentId>)
    requires Linked(db)
  {
    && Distinct(ids) && |ids| <= MAX_TOTAL_ITEMS
    && forall id :: id in ids ==> EquipmentFree(db, user, id) && RoomOf(db, id).Some?
  }

  lemma AskAccepted(db: Db, user: UserId, ids: seq<EquipmentId>)
    requires Linked(db) && OneRowEach(db.custody) && Askable(db, user, ids)
    ensures Create(db, user, Ask(ids)).Ok?
  {
    var payload := Ask(ids);
    AskSplits(ids);
    forall e | e in payload ensures KnownType(e) && NamedRoom(db, e).Some? {
      var k: nat :| k < |payload| && payload[k] == e;
      assert ids[k] in ids;
    }
    CreateExact(db, user, payload);
  }

  lemma FittedEquipment(db: Db, user: UserId, r: nat, id: EquipmentId, item: Item)
    requires Linked(db)
    ensures Fits(db, user, r, Entry("equipment", id, 0), item) ==>
              && PendingItemOf(item, r) && item.target.OnEquipment?
              && item.target.custody < |db.custody| && db.custody[item.target.custody].equipment == id
  {
    assert |"equipment"| == 9 && |"consumable"| == 10 && "equipment"[0] != "accessory"[0];
  }

  lemma AwaitsAsked(db: Db, user: UserId, payload: seq<Entry>, items: seq<Item>, places: seq<nat>, d: Db, k: nat, id: EquipmentId)
    requires Linked(db) && OneItemEach(db, user, |db.requests|, payload, items, places)
    requires k < |payload| && payload[k] == Entry("equipment", id, 0)
    requires d.items == db.items + items && d.custody == db.custody
    ensures k < |places| && Awaits(d, |db.items| + places[k], |db.requests|, id)
  {
    FittedEquipment(db, user, |db.requests|, id, items[places[k]]);
    assert d.items[|db.items| + places[k]] == items[places[k]];
  }

  lemma AllOfRequest(db: Db, user: UserId, payload: seq<Entry>, items: seq<Item>, places: seq<nat>, j: nat)
    requires Linked(db) && OneItemEach(db, user, |db.requests|, payload, items, places) && j < |items|
    ensures items[j].request == |db.requests|
  {
    var k := ItemOfEntry(db, user, |db.requests|, payload, items, places, j);
    assert Fits(db, user, |db.requests|, payload[k], items[j]);
  }

  /** The table after the request: the item of the k-th equipment is number at[k]. */
  ghost predicate AskedFor(db: Db, user: UserId, ids: seq<EquipmentId>, d: Db, at: seq<nat>) {
    && d.custody == db.custody && d.rooms == db.rooms && d.requests == db.requests + [Request(user, Pending, None)]
    && db.items <= d.items && |d.items| == |db.items| + |ids| && |at| == |ids| && Distinct(at)
    && (forall k: nat :: k < |ids| ==> |db.items| <= at[k] && Awaits(d, at[k], |db.requests|, ids[k]))
    && (forall i :: |db.items| <= i < |d.items| ==> d.items[i].request == |db.requests|)
  }

  lemma ShiftDistinct(places: seq<nat>, shift: nat) returns (at: seq<nat>)
    requires Distinct(places)
    ensures |at| == |places| && Distinct(at) && forall k :: 0 <= k < |at| ==> at[k] == shift + places[k]
  {
    at := seq(|places|, k requires 0 <= k < |places| => shift + places[k]);
  }

  lemma MappedAsk(db: Db, user: UserId, payload: seq<Entry>, ids: seq<EquipmentId>, items: seq<Item>, places: seq<nat>,
                  d: Db, at: seq<nat>)
    requires Linked(db) && OneItemEach(db, user, |db.requests|, payload, items, places)
    requires |payload| == |ids| && forall k :: 0 <= k < |ids| ==> payload[k] == Entry("equipment", ids[k], 0)
    requires d.items == db.items + items && d.custody == db.custody && d.rooms == db.rooms
    requires d.requests == db.requests + [Request(user, Pending, None)]
    requires |at| == |places| && Distinct(at) && forall k :: 0 <= k < |at| ==> at[k] == |db.items| + places[k]
    ensures AskedFor(db, user, ids, d, at)
  {
    forall k: nat | k < |ids| ensures Awaits(d, at[k], |db.requests|, ids[k]) {
      AwaitsAsked(db, user, payload, items, places, d, k, ids[k]);
    }
    forall i | |db.items| <= i < |d.items| ensures d.items[i].request == |db.requests| {
      AllOfRequest(db, user, payload, items, places, i - |db.items|);
    }
  }

  lemma Asked(db: Db, user: UserId, ids: seq<EquipmentId>) returns (d: Db, at: seq<nat>)
    requires Linked(db) && OneRowEach(db.custody) && Askable(db, user, ids)
    ensures Create(db, user, Ask(ids)) == Ok(d) && AskedFor(db, user, ids, d, at)
  {
    AskAccepted(db, user, ids);
    AskSplits(ids);
    var items, events, places := CreateContents(db, user, Ask(ids));
    d := Create(db, user, Ask(ids)).value;
    at := ShiftDistinct(places, |db.items|);
    MappedAsk(db, user, Ask(ids), ids, items, places, d, at);
  }

  lemma AwaitsApproved(db: Db, i: nat, r: nat, e: EquipmentId, admin: UserId)
    requires Inv(db) && Awaits(db, i, r, e)
    ensures Approves(db, DecideOne(i, admin, Approve), i)
    ensures var d := Step(db, DecideOne(i, admin, Approve));
            && Holder(d, e) == Free && d.rooms == db.rooms && |d.items| == |db.items| && |d.requests| == |db.requests|
            && |d.custody| == |db.custody|
            && (forall j :: 0 <= j < |db.items| && j != i ==> d.items[j] == db.items[j])
            && d.items[i] == db.items[i].(status := ItemApproved, verifiedBy := Some(admin))
            && (forall c :: 0 <= c < |db.custody| && c != db.items[i].target.custody ==> d.custody[c] == db.custody[c])
            && (forall c :: 0 <= c < |db.custody| ==> d.custody[c].equipment == db.custody[c].equipment)
  {
    StepEffect(db, DecideOne(i, admin, Approve), e);
    assert ApprovesOn(db, DecideOne(i, admin, Approve), e);
  }

  lemma FreeToAsk(db: Db, user: UserId, c: nat)
    requires Linked(db) && c < |db.custody| && db.custody[c].open && db.custody[c].user == user
    requires forall i :: 0 <= i < |db.items| && SameRow(db.items[i].target, OnEquipment(c)) ==>
               db.items[i].request < |db.requests| && db.requests[db.items[i].request].status != Pending
    ensures EquipmentFree(db, user, db.custody[c].equipment)
  {
    assert forall i :: 0 <= i < |db.items| ==> LinkedItem(db, db.items[i]);
    PendingOnExactly(db, OnEquipment(c));
    assert !PendingOn(db, OnEquipment(c));
  }

  lemma ExtendRun(run: seq<Db>, ops: seq<Op>, op: Op) returns (run': seq<Db>, ops': seq<Op>)
    requires IsRun(run, ops)
    ensures Inv(run[|ops|])
    ensures ops' == ops + [op] && run' == run + [Step(run[|ops|], op)] && IsRun(run', ops')
    ensures Inv(Step(run[|ops|], op))
  {
    InvAlways(run, ops, |ops|);
    ops', run' := ops + [op], run + [Step(run[|ops|], op)];
    StepSound(run[|ops|], op);
  }

  lemma ExtendTwice(run: seq<Db>, ops: seq<Op>, op1: Op, op2: Op) returns (run': seq<Db>, ops': seq<Op>)
    requires IsRun(run, ops)
    ensures Linked(run[|ops|]) && Linked(Step(run[|ops|], op1))
    ensures ops' == ops + [op1, op2] && IsRun(run', ops')
    ensures run' == run + [Step(run[|ops|], op1), Step(Step(run[|ops|], op1), op2)]
  {
    run', ops' := ExtendRun(run, ops, op1);
    run', ops' := ExtendRun(run', ops', op2);
  }

  lemma HandOut(db: Db, e: EquipmentId, actor: UserId, user: UserId)
    requires Linked(db) && (db.custody == [] || exists before :: db.custody == [before] && before.equipment == e && !before.open)
    ensures var d := Step(db, Assign(e, actor, user));
            d == db.(custody := [Custody(e, user, actor, true)], events := d.events)
  {
  }

  lemma TakeAway(db: Db, e: EquipmentId, actor: UserId, row: Custody)
    requires Linked(db) && db.custody == [row] && row.equipment == e && row.open
    ensures var d := Step(db, Unassign(e, actor));
            d == db.(custody := [row.(open := false)], events := d.events)
  {
  }

  lemma OneAskable(db: Db, e: EquipmentId, user: UserId, actor: UserId)
    requires Linked(db) && db.custody == [Custody(e, user, actor, true)] && db.items == [] && e in db.rooms
    ensures Askable(db, user, [e])
  {
    FreeToAsk(db, user, 0);
  }

  lemma AskOne(db: Db, e: EquipmentId, user: UserId, actor: UserId)
    requires Inv(db) && db.custody == [Custody(e, user, actor, true)] && db.items == [] && db.requests == [] && e in db.rooms
    ensures var d := Step(db, CreateRequest(user, Ask([e])));
            && d.custody == db.custody && d.requests == [Request(user, Pending, None)] && Awaits(d, 0, 0, e)
  {
    OneAskable(db, e, user, actor);
    var d, at := Asked(db, user, [e]);
    assert Awaits(d, at[0], 0, [e][0]);
  }

  lemma LastStepOnly(run: seq<Db>, ops: seq<Op>, e: EquipmentId)
    requires IsRun(run, ops) && |ops| > 0 && IsOut(run[|ops| - 1], e)
    requires forall m :: 0 <= m < |ops| - 1 ==> !ops[m].DecideOne? && !ops[m].DecideAll?
    ensures !StaleBefore(run, ops, |ops|, e)
  {
    forall m | 0 <= m < |ops| ensures !Stale(run[m], ops[m], e) {
    }
  }

  lemma ApprovedFromOther(db: Db, e: EquipmentId, holder: UserId, admin: UserId)
    requires Inv(db) && db.custody == [Custody(e, holder, admin, true)] && Awaits(db, 0, 0, e)
    ensures Approves(db, DecideOne(0, admin, Approve), 0) && IsOut(db, e)
    ensures ReturnedFrom(db, Step(db, DecideOne(0, admin, Approve)), e, holder)
  {
    FoundRow(db.custody, 0);
    AwaitsApproved(db, 0, 0, e, admin);
  }

  lemma HandedOutAndAsked(e: EquipmentId, room: RoomId, first: UserId, admin: UserId) returns (run: seq<Db>, ops: seq<Op>)
    ensures IsRun(run, ops) && ops == [Assign(e, admin, first), CreateRequest(first, Ask([e]))]
    ensures run[0] == Db([], [], [], [], [], [], map[e := room])
    ensures run[2].custody == [Custody(e, first, admin, true)] && Awaits(run[2], 0, 0, e)
    ensures run[2].requests == [Request(first, Pending, None)]
  {
    run, ops := [Db([], [], [], [], [], [], map[e := room])], [];
    HandOut(run[0], e, admin, first);
    run, ops := ExtendRun(run, ops, Assign(e, admin, first));
    AskOne(run[1], e, first, admin);
    run, ops := ExtendRun(run, ops, CreateRequest(first, Ask([e])));
  }

  lemma HandedOver(run: seq<Db>, ops: seq<Op>, e: EquipmentId, first: UserId, second: UserId, admin: UserId)
    returns (run': seq<Db>, ops': seq<Op>)
    requires IsRun(run, ops) && run[|ops|].custody == [Custody(e, first, admin, true)]
    ensures IsRun(run', ops') && ops' == ops + [Unassign(e, admin), Assign(e, admin, second)] && run <= run'
    ensures var db, d := run[|ops|], run'[|ops'|];
            d == db.(custody := [Custody(e, second, admin, true)], events := d.events)
  {
    InvAlways(run, ops, |ops|);
    TakeAway(run[|ops|], e, admin, Custody(e, first, admin, true));
    run', ops' := ExtendRun(run, ops, Unassign(e, admin));
    HandOut(run'[|ops'|], e, admin, second);
    run', ops' := ExtendRun(run', ops', Assign(e, admin, second));
  }

  /**
  The first holder asks to return e, loses it, and the second gets it: approving the first holder's
  item returns it from the second. No approval of this run is stale, and its log stays in order.
  */
  lemma ApprovalReturnsNextHolder(e: EquipmentId, room: RoomId, first: UserId, second: UserId, admin: UserId)
    returns (run: seq<Db>, ops: seq<Op>)
    requires first != second
    ensures IsRun(run, ops) && |ops| == 5 && run[0] == Db([], [], [], [], [], [], map[e := room])
    ensures Approves(run[4], ops[4], 0) && IsOn(run[4], 0, e) && AskedBy(run[4], 0, first)
    ensures ReturnedFrom(run[4], run[5], e, second) && !OwnCustody(run[4], 0)
    ensures !StaleBefore(run, ops, 5, e) && Read(run[5].events, e) == Holder(run[5], e)
  {
    run, ops := HandedOutAndAsked(e, room, first, admin);
    run, ops := HandedOver(run, ops, e, first, second, admin);
    InvAlways(run, ops, 4);
    ApprovedFromOther(run[4], e, second, admin);
    run, ops := ExtendRun(run, ops, DecideOne(0, admin, Approve));
    LastStepOnly(run, ops, e);
    LogMatchesCustody(run, ops, 5, e);
  }

  // ---- Twice, without anybody taking it back ----

  /** Item i of the only request, which is PARTIAL, still awaits the return of equipment c from u. */
  ghost predicate LeftOver(db: Db, i: nat, c: EquipmentId, u: UserId) {
    && Awaits(db, i, 0, c) && Holder(db, c) == With(u) && c in db.rooms
    && |db.requests| == 1 && db.requests[0].status == Partial
    && forall j :: 0 <= j < |db.items| ==> db.items[j].request == 0
  }

  lemma AwaitsDenied(db: Db, i: nat, r: nat, e: EquipmentId, admin: UserId)
    requires Inv(db) && Awaits(db, i, r, e)
    ensures var d := Step(db, DecideOne(i, admin, Deny));
            && d.custody == db.custody && d.rooms == db.rooms && |d.requests| == |db.requests|
            && d.items == db.items[i := db.items[i].(status := ItemDenied, verifiedBy := Some(admin))]
  {
  }

  lemma PartialOf(db: Db, i: nat, j: nat)
    requires Inv(db) && i < |db.items| && j < |db.items| && db.items[i].request == db.items[j].request == 0
    requires db.items[i].status == ItemApproved && db.items[j].status == ItemDenied && |db.requests| > 0
    ensures db.requests[0].status == Partial
  {
    assert Has(db.items, 0, ItemApproved) && Has(db.items, 0, ItemDenied);
  }

  /** One of three items approved, one denied: the third is left over. */
  lemma LeftOverAfter(db: Db, a: EquipmentId, b: EquipmentId, c: EquipmentId, at: seq<nat>, u: UserId, admin: UserId)
    requires Inv(db) && |at| == 3 && Distinct(at) && a != c && |db.requests| == 1
    requires Awaits(db, at[0], 0, a) && Awaits(db, at[1], 0, b) && Awaits(db, at[2], 0, c)
    requires Holder(db, c) == With(u) && c in db.rooms && forall j :: 0 <= j < |db.items| ==> db.items[j].request == 0
    ensures var d := Step(db, DecideOne(at[0], admin, Approve));
            Inv(d) && Inv(Step(d, DecideOne(at[1], admin, Deny))) && LeftOver(Step(d, DecideOne(at[1], admin, Deny)), at[2], c, u)
  {
    var approve, deny := DecideOne(at[0], admin, Approve), DecideOne(at[1], admin, Deny);
    AwaitsApproved(db, at[0], 0, a, admin);
    var d := Step(db, approve);
    StepSound(db, approve);
    OthersKept(db, approve, at[0], a, c);
    AwaitsDenied(d, at[1], 0, b, admin);
    StepSound(d, deny);
    PartialOf(Step(d, deny), at[0], at[1]);
  }

  lemma OthersKept(db: Db, op: Op, i: nat, a: EquipmentId, c: EquipmentId)
    requires Inv(db) && op.DecideOne? && op.item == i && IsOn(db, i, a) && a != c
    ensures Holder(Step(db, op), c) == Holder(db, c)
  {
    StepEffect(db, op, c);
    assert !ApprovesOn(db, op, c);
  }

  lemma LeftOverAskedAgain(db: Db, i: nat, c: EquipmentId, u: UserId) returns (j: nat)
    requires Inv(db) && LeftOver(db, i, c, u)
    ensures var d := Step(db, CreateRequest(u, Ask([c])));
            && Inv(d) && i != j && Awaits(d, i, 0, c) && Awaits(d, j, 1, c) && Holder(d, c) == With(u)
            && |d.requests| == 2 && d.requests[0].status == Partial
  {
    var row := db.items[i].target.custody;
    FoundRow(db.custody, row);
    FreeToAsk(db, u, row);
    var d, at := Asked(db, u, [c]);
    StepSound(db, CreateRequest(u, Ask([c])));
    j := at[0];
    assert Awaits(d, j, 1, [c][0]);
  }

  lemma BothApproved(db: Db, i: nat, j: nat, c: EquipmentId, u: UserId, admin: UserId)
    requires Inv(db) && i != j && Awaits(db, i, 0, c) && Awaits(db, j, 1, c) && Holder(db, c) == With(u)
    ensures var first, second := DecideOne(i, admin, Approve), DecideOne(j, admin, Approve);
            && Approves(db, first, i) && ReturnedFrom(db, Step(db, first), c, u)
            && Approves(Step(db, first), second, j) && IsOn(Step(db, first), j, c) && Stale(Step(db, first), second, c)
  {
    var first, second := DecideOne(i, admin, Approve), DecideOne(j, admin, Approve);
    AwaitsApproved(db, i, 0, c, admin);
    StepSound(db, first);
    AwaitsApproved(Step(db, first), j, 1, c, admin);
  }

  /** Three pieces of equipment in the hands of u. */
  function ThreeOut(u: UserId, admin: UserId): Db {
    Db([], [], [Custody(0, u, admin, true), Custody(1, u, admin, true), Custody(2, u, admin, true)], [], [], [],
       map[0 := 0, 1 := 0, 2 := 0])
  }

  const THREE: seq<EquipmentId> := [0, 1, 2]

  lemma ThreeAskable(u: UserId, admin: UserId)
    ensures Inv(ThreeOut(u, admin)) && Askable(ThreeOut(u, admin), u, THREE)
  {
    var db := ThreeOut(u, admin);
    FreeToAsk(db, u, 0);
    FreeToAsk(db, u, 1);
    FreeToAsk(db, u, 2);
  }

  lemma ThreeAskedFor(u: UserId, admin: UserId) returns (run: seq<Db>, ops: seq<Op>, at: seq<nat>)
    ensures IsRun(run, ops) && ops == [CreateRequest(u, Ask(THREE))]
    ensures run[0] == ThreeOut(u, admin) && AskedFor(run[0], u, THREE, run[1], at)
  {
    ThreeAskable(u, admin);
    var d, places := Asked(ThreeOut(u, admin), u, THREE);
    at := places;
    run, ops := ExtendRun([ThreeOut(u, admin)], [], CreateRequest(u, Ask(THREE)));
  }

  lemma ThirdOfThree(d: Db, at: seq<nat>, u: UserId, admin: UserId)
    requires Inv(d) && AskedFor(ThreeOut(u, admin), u, THREE, d, at)
    ensures var approved := Step(d, DecideOne(at[0], admin, Approve));
            Linked(approved) && LeftOver(Step(approved, DecideOne(at[1], admin, Deny)), at[2], 2, u)
  {
    FoundRow(d.custody, 2);
    assert Awaits(d, at[0], 0, THREE[0]) && Awaits(d, at[1], 0, THREE[1]) && Awaits(d, at[2], 0, THREE[2]);
    LeftOverAfter(d, 0, 1, 2, at, u, admin);
  }

  lemma ThirdLeftOver(u: UserId, admin: UserId) returns (run: seq<Db>, ops: seq<Op>, i: nat)
    ensures IsRun(run, ops) && |ops| == 3 && (forall m :: 0 <= m < 3 ==> !ops[m].Unassign?)
    ensures LeftOver(run[3], i, 2, u)
  {
    var at: seq<nat>;
    run, ops, at := ThreeAskedFor(u, admin);
    InvAlways(run, ops, 1);
    i := at[2];
    run, ops := TwoDecided(run, ops, at, u, admin);
  }

  lemma TwoDecided(run: seq<Db>, ops: seq<Op>, at: seq<nat>, u: UserId, admin: UserId)
    returns (run': seq<Db>, ops': seq<Op>)
    requires IsRun(run, ops) && |ops| == 1 && Inv(run[1]) && AskedFor(ThreeOut(u, admin), u, THREE, run[1], at)
    ensures IsRun(run', ops') && |at| == 3 && ops' == ops + [DecideOne(at[0], admin, Approve), DecideOne(at[1], admin, Deny)]
    ensures LeftOver(run'[3], at[2], 2, u)
  {
    ThirdOfThree(run[1], at, u, admin);
    run', ops' := ExtendTwice(run, ops, DecideOne(at[0], admin, Approve), DecideOne(at[1], admin, Deny));
  }

  /** What makes the second of two approvals on one row stale. */
  ghost predicate ReturnedTwice(run: seq<Db>, ops: seq<Op>, m: nat, i: nat, j: nat, c: EquipmentId, u: UserId) {
    && m + 2 == |ops| && |run| == |ops| + 1 && i != j
    && Approves(run[m], ops[m], i) && IsOn(run[m], i, c) && ReturnedFrom(run[m], run[m + 1], c, u)
    && Approves(run[m + 1], ops[m + 1], j) && IsOn(run[m + 1], j, c) && Stale(run[m + 1], ops[m + 1], c)
  }

  lemma AskedAgainRun(run: seq<Db>, ops: seq<Op>, i: nat, c: EquipmentId, u: UserId)
    returns (run': seq<Db>, ops': seq<Op>, j: nat)
    requires IsRun(run, ops) && LeftOver(run[|ops|], i, c, u)
    ensures IsRun(run', ops') && run <= run' && ops' == ops + [CreateRequest(u, Ask([c]))]
    ensures var d := run'[|ops'|];
            Inv(d) && i != j && Awaits(d, i, 0, c) && Awaits(d, j, 1, c) && Holder(d, c) == With(u)
  {
    InvAlways(run, ops, |ops|);
    j := LeftOverAskedAgain(run[|ops|], i, c, u);
    run', ops' := ExtendRun(run, ops, CreateRequest(u, Ask([c])));
  }

  lemma LeftOverReturnedTwice(run: seq<Db>, ops: seq<Op>, i: nat, c: EquipmentId, u: UserId, admin: UserId)
    returns (run': seq<Db>, ops': seq<Op>, j: nat)
    requires IsRun(run, ops) && LeftOver(run[|ops|], i, c, u)
    ensures IsRun(run', ops') && run <= run' && ReturnedTwice(run', ops', |ops| + 1, i, j, c, u)
    ensures ops' == ops + [CreateRequest(u, Ask([c])), DecideOne(i, admin, Approve), DecideOne(j, admin, Approve)]
  {
    run', ops', j := AskedAgainRun(run, ops, i, c, u);
    BothApproved(run'[|ops'|], i, j, c, u, admin);
    run', ops' := ExtendTwice(run', ops', DecideOne(i, admin, Approve), DecideOne(j, admin, Approve));
  }

  /**
  Three items are asked for; one is approved and one denied, so the request is PARTIAL and the third
  may be asked for again: both items on its row are approved, and the second approval is stale,
  although nobody took anything back.
  */
  lemma RowReturnedTwice(u: UserId, admin: UserId) returns (run: seq<Db>, ops: seq<Op>, i: nat, j: nat)
    ensures IsRun(run, ops) && |ops| == 6 && (forall m :: 0 <= m < 6 ==> !ops[m].Unassign?)
    ensures ReturnedTwice(run, ops, 4, i, j, 2, u)
  {
    run, ops, i := ThirdLeftOver(u, admin);
    run, ops, j := LeftOverReturnedTwice(run, ops, i, 2, u, admin);
  }
}
