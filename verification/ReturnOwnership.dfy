/**
Whose custody approving an equipment item ends. The approval closes the row the item names without
asking whether it is open, or still the requester's.
*/
module ReturnOwnership {
  import opened ReturnTables
  import opened ReturnRuns
  import opened ReturnApproval
  import opened ReturnCreation
  import opened EquipmentCustody

  /** The item's row is open and held by the one who asked to return it. */
  predicate OwnCustody(db: Db, i: nat) {
    && i < |db.items| && db.items[i].request < |db.requests|
    && db.items[i].target.OnEquipment? && db.items[i].target.custody < |db.custody|
    && var row := db.custody[db.items[i].target.custody];
       row.open && row.user == db.requests[db.items[i].request].requester
  }

  /** Equipment e left the hands of u. */
  predicate ReturnedFrom(db: Db, d: Db, e: EquipmentId, u: UserId) {
    Holder(db, e) == With(u) && Holder(d, e) == Free
  }

  predicate AskedBy(db: Db, i: nat, u: UserId) {
    i < |db.items| && db.items[i].request < |db.requests| && db.requests[db.items[i].request].requester == u
  }

  /**
  Approving an equipment item, alone or with its request, takes the equipment from whoever the row
  is open for: from the requester exactly if the row is open and the requester's, from nobody
  exactly if it is closed.
  */
  lemma ApprovalReturnsExactly(db: Db, op: Op, i: nat, e: EquipmentId, u: UserId)
    requires Inv(db) && Approves(db, op, i) && IsOn(db, i, e) && AskedBy(db, i, u)
    ensures ReturnedFrom(db, Step(db, op), e, u) <==> OwnCustody(db, i)
    ensures var row := db.custody[db.items[i].target.custody];
            && (forall v :: ReturnedFrom(db, Step(db, op), e, v) <==> row.open && row.user == v)
            && (Stale(db, op, e) <==> !row.open)
  {
    StepEffect(db, op, e);
    FoundRow(db.custody, db.items[i].target.custody);
    assert ApprovesOn(db, op, e) && !Opens(db, op, e);
  }

  // ---- From request to approval ----

  ghost predicate Unclosed(run: seq<Db>, ops: seq<Op>, from: nat, to: nat, e: EquipmentId)
    requires to <= |ops| < |run|
  {
    forall m :: from <= m < to ==> !Closes(run[m], ops[m], e)
  }

  ghost predicate GivenBackAt(run: seq<Db>, ops: seq<Op>, m: nat, to: nat, e: EquipmentId, u: UserId)
    requires to <= |ops| < |run|
  {
    m < to && Opens(run[m], ops[m], e) && ops[m].user == u && Unclosed(run, ops, m + 1, to, e)
  }

  /** Nothing closed the equipment since, or after the last close it was handed to u again. */
  ghost predicate KeptOrGivenBack(run: seq<Db>, ops: seq<Op>, from: nat, to: nat, e: EquipmentId, u: UserId)
    requires to <= |ops| < |run|
  {
    Unclosed(run, ops, from, to, e) || exists m: nat :: from <= m && GivenBackAt(run, ops, m, to, e, u)
  }

  lemma HistoryStep(run: seq<Db>, ops: seq<Op>, from: nat, to: nat, e: EquipmentId, u: UserId)
    requires from <= to < |ops| < |run|
    ensures KeptOrGivenBack(run, ops, from, to + 1, e, u)
            <==> || (Opens(run[to], ops[to], e) && ops[to].user == u)
                 || (KeptOrGivenBack(run, ops, from, to, e, u) && !Closes(run[to], ops[to], e))
  {
    assert Unclosed(run, ops, from, to + 1, e) <==> Unclosed(run, ops, from, to, e) && !Closes(run[to], ops[to], e);
    forall m: nat | from <= m < to
      ensures GivenBackAt(run, ops, m, to + 1, e, u) <==> GivenBackAt(run, ops, m, to, e, u) && !Closes(run[to], ops[to], e)
    {
      assert Unclosed(run, ops, m + 1, to + 1, e) <==> Unclosed(run, ops, m + 1, to, e) && !Closes(run[to], ops[to], e);
    }
    assert GivenBackAt(run, ops, to, to + 1, e, u) <==> Opens(run[to], ops[to], e) && ops[to].user == u;
    if m: nat :| from <= m && GivenBackAt(run, ops, m, to, e, u) {
      assert GivenBackAt(run, ops, m, to + 1, e, u) <==> !Closes(run[to], ops[to], e);
    }
    var next := to + 1;
    if m: nat :| from <= m && GivenBackAt(run, ops, m, next, e, u) {
      assert m < to ==> GivenBackAt(run, ops, m, to, e, u);
    }
  }

  lemma HolderNext(run: seq<Db>, ops: seq<Op>, k: nat, e: EquipmentId, u: UserId)
    requires IsRun(run, ops) && k < |ops|
    ensures Holder(run[k + 1], e) == With(u)
            <==> || (Opens(run[k], ops[k], e) && ops[k].user == u)
                 || (Holder(run[k], e) == With(u) && !Closes(run[k], ops[k], e))
  {
    InvAlways(run, ops, k);
    StepEffect(run[k], ops[k], e);
    assert Opens(run[k], ops[k], e) ==> !Closes(run[k], ops[k], e);
  }

  /** Who held an equipment at some moment holds it later exactly if it was kept or given back. */
  lemma {:induction false} HolderHistory(run: seq<Db>, ops: seq<Op>, from: nat, to: nat, e: EquipmentId, u: UserId)
    requires IsRun(run, ops) && from <= to <= |ops| && Holder(run[from], e) == With(u)
    ensures Holder(run[to], e) == With(u) <==> KeptOrGivenBack(run, ops, from, to, e, u)
  {
    if from < to {
      HolderHistory(run, ops, from, to - 1, e, u);
      HolderNext(run, ops, to - 1, e, u);
      HistoryStep(run, ops, from, to - 1, e, u);
    }
  }

  /** Requests keep their requester and custody rows their equipment. */
  ghost predicate SameSubjects(a: Db, b: Db) {
    && |a.requests| <= |b.requests| && |a.custody| <= |b.custody|
    && (forall r :: 0 <= r < |a.requests| ==> b.requests[r].requester == a.requests[r].requester)
    && (forall c :: 0 <= c < |a.custody| ==> b.custody[c].equipment == a.custody[c].equipment)
  }

  lemma DecideAllSubjects(db: Db, r: nat, admin: UserId, verdict: Verdict)
    requires Linked(db) && r < |db.requests| && DecideRequest(db, r, admin, verdict).Ok?
    ensures SameSubjects(db, DecideRequest(db, r, admin, verdict).value)
  {
    if verdict.Approve? { ApproveRequestExact(db, r, admin); } else { DenyRequestExact(db, r, admin); }
  }

  lemma StepSubjects(db: Db, op: Op)
    requires Linked(db)
    ensures SameSubjects(db, Step(db, op))
  {
    match op
    case CreateRequest(_, _) =>
    case DecideOne(_, _, _) =>
    case DecideAll(r, admin, verdict) =>
      if r < |db.requests| && DecideRequest(db, r, admin, verdict).Ok? { DecideAllSubjects(db, r, admin, verdict); }
    case Assign(_, _, _) =>
    case Unassign(_, _) =>
  }

  lemma {:induction false} RunSubjects(run: seq<Db>, ops: seq<Op>, k: nat, j: nat)
    requires IsRun(run, ops) && k <= j <= |ops|
    ensures SameSubjects(run[k], run[j])
    decreases j
  {
    if k < j {
      RunSubjects(run, ops, k, j - 1);
      InvAlways(run, ops, j - 1);
      StepSubjects(run[j - 1], ops[j - 1]);
    }
  }

  lemma ItemStays(run: seq<Db>, ops: seq<Op>, k: nat, j: nat, i: nat, e: EquipmentId, u: UserId)
    requires IsRun(run, ops) && k <= j <= |ops| && IsOn(run[k], i, e) && AskedBy(run[k], i, u)
    ensures IsOn(run[j], i, e) && AskedBy(run[j], i, u)
  {
    RunSubjects(run, ops, k, j);
    KeptInRun(run, ops, k, j);
  }

  lemma OwnMeansHolder(db: Db, i: nat, e: EquipmentId, u: UserId)
    requires OneRowEach(db.custody) && IsOn(db, i, e) && AskedBy(db, i, u)
    ensures OwnCustody(db, i) <==> Holder(db, e) == With(u)
  {
    FoundRow(db.custody, db.items[i].target.custody);
  }

  /** An equipment item is born on the requester's own open row. */
  lemma BornOwn(db: Db, op: Op, i: nat)
    requires Inv(db) && |db.items| <= i < |Step(db, op).items| && Step(db, op).items[i].target.OnEquipment?
    ensures OwnCustody(Step(db, op), i)
  {
    assert op.CreateRequest? && Create(db, op.user, op.payload).Ok?;
    var items, events, at := CreateContents(db, op.user, op.payload);
    var j := i - |db.items|;
    FittedOwn(db, op.user, op.payload, items, at, j);
    assert Step(db, op).items[i] == items[j];
  }

  lemma FittedOwn(db: Db, user: UserId, payload: seq<Entry>, items: seq<Item>, at: seq<nat>, j: nat)
    requires Linked(db) && OneItemEach(db, user, |db.requests|, payload, items, at) && j < |items|
    requires items[j].target.OnEquipment?
    ensures items[j].request == |db.requests| && items[j].target.custody < |db.custody|
    ensures db.custody[items[j].target.custody].open && db.custody[items[j].target.custody].user == user
  {
    var k := ItemOfEntry(db, user, |db.requests|, payload, items, at, j);
    assert Fits(db, user, |db.requests|, payload[k], items[j]);
  }

  /**
  Over any run: when an equipment item created at step k is approved at step j, the equipment is
  returned from the requester exactly if the row is then open and the requester's, and that is so
  exactly if since step k nothing closed the equipment, or it was handed to the requester again
  after the last close.
  */
  lemma ApprovalInRunExact(run: seq<Db>, ops: seq<Op>, k: nat, j: nat, i: nat, e: EquipmentId, u: UserId)
    requires IsRun(run, ops) && k < j < |ops| && |run[k].items| <= i < |run[k + 1].items|
    requires IsOn(run[k + 1], i, e) && AskedBy(run[k + 1], i, u) && Approves(run[j], ops[j], i)
    ensures ReturnedFrom(run[j], run[j + 1], e, u) <==> OwnCustody(run[j], i)
    ensures OwnCustody(run[j], i) <==> KeptOrGivenBack(run, ops, k + 1, j, e, u)
  {
    OwnInRunExact(run, ops, k, j, i, e, u);
    InvAlways(run, ops, j);
    ItemStays(run, ops, k + 1, j, i, e, u);
    ApprovalReturnsExactly(run[j], ops[j], i, e, u);
  }

  lemma OwnInRunExact(run: seq<Db>, ops: seq<Op>, k: nat, j: nat, i: nat, e: EquipmentId, u: UserId)
    requires IsRun(run, ops) && k < j <= |ops| && |run[k].items| <= i < |run[k + 1].items|
    requires IsOn(run[k + 1], i, e) && AskedBy(run[k + 1], i, u)
    ensures OwnCustody(run[j], i) <==> KeptOrGivenBack(run, ops, k + 1, j, e, u)
  {
    InvAlways(run, ops, k);
    InvAlways(run, ops, k + 1);
    InvAlways(run, ops, j);
    BornOwn(run[k], ops[k], i);
    OwnMeansHolder(run[k + 1], i, e, u);
    HolderHistory(run, ops, k + 1, j, e, u);
    ItemStays(run, ops, k + 1, j, i, e, u);
    OwnMeansHolder(run[j], i, e, u);
  }

  // ---- Losing the row without an unassignment ----

  lemma ApprovedIsDecided(db: Db, op: Op, i: nat)
    requires Inv(db) && Approves(db, op, i) && db.items[i].target.OnEquipment?
    ensures i < |Step(db, op).items| && Step(db, op).items[i].status != ItemPending
  {
    if op.DecideAll? { ApproveRequestExact(db, op.request, op.admin); }
  }

  /**
  If nobody took the equipment back, a pending item loses its row only to the approval of another
  item on the same row, and at that moment one of the two requests was PARTIAL.
  */
  lemma LostToAnotherItem(run: seq<Db>, ops: seq<Op>, k: nat, j: nat, i: nat, e: EquipmentId, u: UserId)
    returns (m: nat, other: nat)
    requires IsRun(run, ops) && k < j <= |ops| && |run[k].items| <= i < |run[k + 1].items|
    requires IsOn(run[k + 1], i, e) && AskedBy(run[k + 1], i, u)
    requires i < |run[j].items| && run[j].items[i].status == ItemPending && !OwnCustody(run[j], i)
    requires forall l :: k < l < j ==> !(ops[l].Unassign? && ops[l].equipment == e)
    ensures k < m < j && other != i && Approves(run[m], ops[m], other) && IsOn(run[m], other, e)
    ensures i < |run[m].items| && run[m].items[i].request < |run[m].requests| && run[m].items[other].request < |run[m].requests|
    ensures run[m].requests[run[m].items[i].request].status == Partial
            || run[m].requests[run[m].items[other].request].status == Partial
  {
    OwnInRunExact(run, ops, k, j, i, e, u);
    m :| k < m < j && Closes(run[m], ops[m], e);
    other :| Approves(run[m], ops[m], other) && IsOn(run[m], other, e);
    ItemStays(run, ops, k + 1, m, i, e, u);
    StillPendingBefore(run, ops, m, j, i, other);
    InvAlways(run, ops, m);
    FoundRow(run[m].custody, run[m].items[i].target.custody);
    FoundRow(run[m].custody, run[m].items[other].target.custody);
    SharedRowMeansPartial(run, ops, m, i, other, run[m].items[i].target.custody);
  }

  lemma StillPendingBefore(run: seq<Db>, ops: seq<Op>, m: nat, j: nat, i: nat, other: nat)
    requires IsRun(run, ops) && m < j <= |ops| && i < |run[m].items| && i < |run[j].items|
    requires run[j].items[i].status == ItemPending
    requires Approves(run[m], ops[m], other) && run[m].items[other].target.OnEquipment?
    ensures run[m].items[i].status == ItemPending && other != i
  {
    InvAlways(run, ops, m);
    ApprovedIsDecided(run[m], ops[m], other);
    KeptInRun(run, ops, m, j);
    KeptInRun(run, ops, m + 1, j);
  }

  lemma KeptInRun(run: seq<Db>, ops: seq<Op>, k: nat, j: nat)
    requires IsRun(run, ops) && k <= j <= |ops|
    ensures Kept(run[k], run[j])
  {
    RunSound(run, ops, k, j);
  }
}
