/**
Who holds each piece of equipment, over runs in which it is handed out, taken back, asked to be
returned and returned: the one row per equipment, its event log, and what approving an item closes.
*/
module EquipmentCustody {
  import opened Outcomes
  import opened ReturnTables
  import opened ReturnRuns
  import opened ReturnApproval

  // ---- Rows and log ----

  /** Free and With(u) are the readings of a log that alternates properly; Broken of any other. */
  datatype Reading = Free | With(user: UserId) | Broken

  function AfterAssigned(r: Reading, u: UserId): Reading {
    if r.Free? then With(u) else Broken
  }

  function AfterReturned(r: Reading, u: UserId): Reading {
    if r == With(u) then Free else Broken
  }

  /** The ASSIGNED and RETURNED events of equipment e, read on their own. */
  function Read(events: seq<Event>, e: EquipmentId): Reading {
    if events == [] then Free
    else
      var last := events[|events| - 1];
      var before := Read(events[..|events| - 1], e);
      if last.EquipmentAssigned? && last.equipment == e then AfterAssigned(before, last.user)
      else if last.EquipmentReturned? && last.equipment == e then AfterReturned(before, last.user)
      else before
  }

  lemma ReadSnoc(events: seq<Event>, event: Event, e: EquipmentId)
    ensures Read(events + [event], e)
            == if event.EquipmentAssigned? && event.equipment == e then AfterAssigned(Read(events, e), event.user)
               else if event.EquipmentReturned? && event.equipment == e then AfterReturned(Read(events, e), event.user)
               else Read(events, e)
  {
    assert (events + [event])[..|events|] == events;
  }

  lemma {:induction false} ReadQuiet(events: seq<Event>, quiet: seq<Event>, e: EquipmentId)
    requires QuietEvents(quiet)
    ensures Read(events + quiet, e) == Read(events, e)
    decreases |quiet|
  {
    if quiet == [] {
      assert events + quiet == events;
    } else {
      var n := |quiet| - 1;
      ReadQuiet(events, quiet[..n], e);
      ReadSnoc(events + quiet[..n], quiet[n], e);
      assert events + quiet == events + quiet[..n] + [quiet[n]];
      assert quiet[n] in quiet;
    }
  }

  function Holder(db: Db, e: EquipmentId): Reading {
    var c := FindRow(db.custody, e);
    if c.Some? && db.custody[c.value].open then With(db.custody[c.value].user) else Free
  }

  function RowUser(db: Db, e: EquipmentId): UserId {
    var c := FindRow(db.custody, e);
    if c.Some? then db.custody[c.value].user else 0
  }

  lemma FoundRow(custody: seq<Custody>, c: nat)
    requires OneRowEach(custody) && c < |custody|
    ensures FindRow(custody, custody[c].equipment) == Some(c)
  {
  }

  lemma {:induction false} SameAmong(a: seq<Custody>, b: seq<Custody>, e: EquipmentId, n: nat)
    requires n <= |a| && n <= |b| && forall c :: 0 <= c < n ==> a[c].equipment == b[c].equipment
    ensures FindAmong(a, e, n) == FindAmong(b, e, n)
  {
    if n > 0 { SameAmong(a, b, e, n - 1); }
  }

  // ---- What a step does to an equipment ----

  /** Item i stands on the row of equipment e. */
  predicate IsOn(db: Db, i: nat, e: EquipmentId) {
    && i < |db.items| && db.items[i].target.OnEquipment? && db.items[i].target.custody < |db.custody|
    && db.custody[db.items[i].target.custody].equipment == e
  }

  /** The step approves item i, by itself or with its request. */
  ghost predicate Approves(db: Db, op: Op, i: nat) {
    && Linked(db) && i < |db.items| && db.items[i].status == ItemPending
    && ((op.DecideOne? && op.item == i && op.verdict.Approve?)
        || (op.DecideAll? && op.request == db.items[i].request && op.verdict.Approve? && op.request < |db.requests|
            && DecideRequest(db, op.request, op.admin, Approve).Ok?))
  }

  ghost predicate ApprovesOn(db: Db, op: Op, e: EquipmentId) {
    exists i: nat :: Approves(db, op, i) && IsOn(db, i, e)
  }

  ghost predicate Opens(db: Db, op: Op, e: EquipmentId) {
    op.Assign? && op.equipment == e && Holder(db, e) == Free
  }

  ghost predicate Closes(db: Db, op: Op, e: EquipmentId) {
    (op.Unassign? && op.equipment == e && Holder(db, e) != Free) || ApprovesOn(db, op, e)
  }

  ghost predicate Effect(db: Db, d: Db, op: Op, e: EquipmentId) {
    && Holder(d, e) == (if Opens(db, op, e) then With(op.user) else if Closes(db, op, e) then Free else Holder(db, e))
    && Read(d.events, e) == (if Opens(db, op, e) then AfterAssigned(Read(db.events, e), op.user)
                             else if Closes(db, op, e) then AfterReturned(Read(db.events, e), RowUser(db, e))
                             else Read(db.events, e))
  }

  lemma RowAppended(custody: seq<Custody>, row: Custody, e: EquipmentId)
    ensures FindRow(custody + [row], e) == if row.equipment == e then Some(|custody|) else FindRow(custody, e)
  {
    SameAmong(custody, custody + [row], e, |custody|);
  }

  lemma RowReplaced(custody: seq<Custody>, c: nat, row: Custody, e: EquipmentId)
    requires c < |custody| && row.equipment == custody[c].equipment && OneRowEach(custody)
    ensures FindRow(custody[c := row], e) == FindRow(custody, e)
    ensures FindRow(custody, e) == Some(c) <==> e == row.equipment
  {
    SameAmong(custody, custody[c := row], e, |custody|);
    FoundRow(custody, c);
  }

  lemma AssignReads(db: Db, moved: EquipmentId, actor: UserId, user: UserId, e: EquipmentId)
    requires OneRowEach(db.custody) && !IsOut(db, moved)
    ensures var d := AssignTo(db, moved, actor, user);
            && Holder(d, e) == (if e == moved then With(user) else Holder(db, e))
            && Read(d.events, e) == (if e == moved then AfterAssigned(Read(db.events, e), user) else Read(db.events, e))
  {
    var row := Custody(moved, user, actor, true);
    var c := FindRow(db.custody, moved);
    ReadSnoc(db.events, EquipmentAssigned(moved, user, actor), e);
    if c.Some? { RowReplaced(db.custody, c.value, row, e); } else { RowAppended(db.custody, row, e); }
  }

  lemma TakeBackReads(db: Db, moved: EquipmentId, actor: UserId, e: EquipmentId)
    requires OneRowEach(db.custody) && IsOut(db, moved)
    ensures var d := TakeBack(db, moved, actor);
            && Holder(d, e) == (if e == moved then Free else Holder(db, e))
            && Read(d.events, e) == (if e == moved then AfterReturned(Read(db.events, e), RowUser(db, e)) else Read(db.events, e))
  {
    var c := FindRow(db.custody, moved).value;
    ReadSnoc(db.events, EquipmentReturned(moved, db.custody[c].user, actor), e);
    RowReplaced(db.custody, c, db.custody[c].(open := false), e);
  }

  lemma MoveEffect(db: Db, op: Op, e: EquipmentId)
    requires Inv(db) && (op.Assign? || op.Unassign?)
    ensures Effect(db, Step(db, op), op, e)
  {
    assert !ApprovesOn(db, op, e);
    if op.Assign? && !IsOut(db, op.equipment) {
      AssignReads(db, op.equipment, op.actor, op.user, e);
    } else if op.Unassign? && IsOut(db, op.equipment) {
      TakeBackReads(db, op.equipment, op.actor, e);
    }
  }

  lemma CreateEffect(db: Db, op: Op, e: EquipmentId)
    requires Inv(db) && op.CreateRequest?
    ensures Effect(db, Step(db, op), op, e)
  {
    if Create(db, op.user, op.payload).Ok? {
      DraftOf(db, op.user, |db.requests|, op.payload);
      ReadQuiet(db.events, BuildAll(db, op.user, |db.requests|, op.payload).value.events, e);
    }
  }

  lemma DenyEffect(db: Db, op: Op, e: EquipmentId)
    requires Inv(db) && (op.DecideOne? || op.DecideAll?) && op.verdict.Deny?
    ensures Effect(db, Step(db, op), op, e)
  {
    if op.DecideAll? && op.request < |db.requests| && db.requests[op.request].status == Pending {
      DenyRequestExact(db, op.request, op.admin);
    }
  }

  lemma ApproveOneEffect(db: Db, op: Op, e: EquipmentId)
    requires Inv(db) && op.DecideOne? && op.verdict.Approve?
    ensures Effect(db, Step(db, op), op, e)
  {
    var d, i := Step(db, op), op.item;
    if i < |db.items| && db.items[i].status == ItemPending {
      assert LinkedItem(db, db.items[i]);
      if db.items[i].target.OnEquipment? {
        var c := db.items[i].target.custody;
        var row := db.custody[c];
        FoundRow(db.custody, c);
        RowReplaced(db.custody, c, row.(open := false), e);
        ReadSnoc(db.events, EquipmentReturned(row.equipment, row.user, op.admin), e);
        assert IsOn(db, i, row.equipment) && Approves(db, op, i);
      } else if ApproveItem(db, i, op.admin).Ok? {
        ReadSnoc(db.events, d.events[|db.events|], e);
      }
    }
  }

  /** One of the first n items of request r is pending on the row of e. */
  ghost predicate ReturnsAmong(db: Db, r: nat, n: nat, e: EquipmentId)
    requires n <= |db.items|
  {
    exists i: nat :: i < n && PendingItemOf(db.items[i], r) && IsOn(db, i, e)
  }

  /** At most one item of request r is pending on the row of e. */
  ghost predicate NamesOnce(db: Db, r: nat, e: EquipmentId) {
    forall i: nat, j: nat :: i < j < |db.items| && IsOn(db, i, e) && IsOn(db, j, e)
                             ==> !PendingItemOf(db.items[i], r) || !PendingItemOf(db.items[j], r)
  }

  lemma PendingNamesOnce(db: Db, r: nat, e: EquipmentId)
    requires Inv(db) && r < |db.requests| && db.requests[r].status == Pending
    ensures NamesOnce(db, r, e)
  {
    forall i: nat, j: nat | i < j < |db.items| && IsOn(db, i, e) && IsOn(db, j, e)
      ensures !PendingItemOf(db.items[i], r) || !PendingItemOf(db.items[j], r)
    {
      if PendingItemOf(db.items[i], r) && PendingItemOf(db.items[j], r) {
        FoundRow(db.custody, db.items[i].target.custody);
        FoundRow(db.custody, db.items[j].target.custody);
        assert InPending(db, i) && InPending(db, j);
        assert SameRow(db.items[i].target, db.items[j].target);
      }
    }
  }

  lemma AmongNext(db: Db, r: nat, n: nat, e: EquipmentId)
    requires n < |db.items|
    ensures ReturnsAmong(db, r, n + 1, e) <==> ReturnsAmong(db, r, n, e) || (PendingItemOf(db.items[n], r) && IsOn(db, n, e))
    ensures NamesOnce(db, r, e) && PendingItemOf(db.items[n], r) && IsOn(db, n, e) ==> !ReturnsAmong(db, r, n, e)
  {
  }

  lemma OneApprovalRead(db: Db, r: nat, admin: UserId, i: nat, events: seq<Event>, e: EquipmentId)
    requires Linked(db) && OneRowEach(db.custody) && i < |db.items| && LinkedItem(db, db.items[i])
    ensures Read(events + [EventOf(db, db.items[i], admin)], e)
            == if IsOn(db, i, e) then AfterReturned(Read(events, e), RowUser(db, e)) else Read(events, e)
  {
    ReadSnoc(events, EventOf(db, db.items[i], admin), e);
    if IsOn(db, i, e) { FoundRow(db.custody, db.items[i].target.custody); }
  }

  /** A PENDING request names a row once, so approving it logs one return of each equipment it names. */
  lemma {:induction false} ReadApprovals(db: Db, r: nat, admin: UserId, n: nat, e: EquipmentId)
    requires Linked(db) && OneRowEach(db.custody) && NamesOnce(db, r, e) && n <= |db.items|
    ensures Read(db.events + ApprovalEvents(db, r, admin, n), e)
            == if ReturnsAmong(db, r, n, e) then AfterReturned(Read(db.events, e), RowUser(db, e)) else Read(db.events, e)
  {
    if n == 0 {
      assert db.events + [] == db.events;
    } else {
      ReadApprovals(db, r, admin, n - 1, e);
      AmongNext(db, r, n - 1, e);
      var before, item := ApprovalEvents(db, r, admin, n - 1), db.items[n - 1];
      assert LinkedItem(db, item);
      if PendingItemOf(item, r) {
        OneApprovalRead(db, r, admin, n - 1, db.events + before, e);
        assert db.events + (before + [EventOf(db, item, admin)]) == (db.events + before) + [EventOf(db, item, admin)];
      } else {
        assert before + [] == before;
      }
    }
  }

  lemma ApprovedAmong(db: Db, op: Op, e: EquipmentId)
    requires Linked(db) && op.DecideAll? && op.verdict.Approve? && op.request < |db.requests|
    requires DecideRequest(db, op.request, op.admin, Approve).Ok?
    ensures ApprovesOn(db, op, e) <==> ReturnsAmong(db, op.request, |db.items|, e)
  {
    if i: nat :| Approves(db, op, i) && IsOn(db, i, e) {
      assert PendingItemOf(db.items[i], op.request);
    }
    if i: nat :| i < |db.items| && PendingItemOf(db.items[i], op.request) && IsOn(db, i, e) {
      assert Approves(db, op, i);
    }
  }

  lemma ClosedAmong(db: Db, r: nat, d: Db, e: EquipmentId)
    requires Inv(db) && CustodyClosed(db, r, |db.items|, d)
    ensures Holder(d, e) == if ReturnsAmong(db, r, |db.items|, e) then Free else Holder(db, e)
    ensures |d.custody| == |db.custody| && forall c :: 0 <= c < |db.custody| ==> d.custody[c].equipment == db.custody[c].equipment
  {
    SameAmong(db.custody, d.custody, e, |db.custody|);
    var found := FindRow(db.custody, e);
    if i: nat :| i < |db.items| && PendingItemOf(db.items[i], r) && IsOn(db, i, e) {
      var c := db.items[i].target.custody;
      FoundRow(db.custody, c);
      assert Returns(db.items, r, c, |db.items|);
    } else if found.Some? {
      forall i | 0 <= i < |db.items| && PendingItemOf(db.items[i], r) ensures db.items[i].target != OnEquipment(found.value) {
        assert !IsOn(db, i, e);
      }
      assert !Returns(db.items, r, found.value, |db.items|);
    }
  }

  lemma ApproveAllEffect(db: Db, op: Op, e: EquipmentId)
    requires Inv(db) && op.DecideAll? && op.verdict.Approve?
    ensures Effect(db, Step(db, op), op, e)
  {
    var r := op.request;
    if r < |db.requests| && DecideRequest(db, r, op.admin, Approve).Ok? {
      var d := Step(db, op);
      ApproveRequestExact(db, r, op.admin);
      PendingNamesOnce(db, r, e);
      ReadApprovals(db, r, op.admin, |db.items|, e);
      ClosedAmong(db, r, d, e);
      ApprovedAmong(db, op, e);
    } else {
      assert !ApprovesOn(db, op, e);
    }
  }

  lemma StepEffect(db: Db, op: Op, e: EquipmentId)
    requires Inv(db)
    ensures Effect(db, Step(db, op), op, e)
  {
    match op
    case CreateRequest(_, _) => CreateEffect(db, op, e);
    case DecideOne(_, _, verdict) => if verdict.Approve? { ApproveOneEffect(db, op, e); } else { DenyEffect(db, op, e); }
    case DecideAll(_, _, verdict) => if verdict.Approve? { ApproveAllEffect(db, op, e); } else { DenyEffect(db, op, e); }
    case Assign(_, _, _) => MoveEffect(db, op, e);
    case Unassign(_, _) => MoveEffect(db, op, e);
  }

  // ---- The log against the rows ----

  /** An approval that finds the row already closed. */
  ghost predicate Stale(db: Db, op: Op, e: EquipmentId) {
    ApprovesOn(db, op, e) && Holder(db, e) == Free
  }

  ghost predicate StaleBefore(run: seq<Db>, ops: seq<Op>, k: nat, e: EquipmentId)
    requires k <= |ops| < |run|
  {
    exists m :: 0 <= m < k && Stale(run[m], ops[m], e)
  }

  /**
  In every run of hand-outs, take-backs and return requests the log of an equipment alternates and
  reads as the current holder, exactly as long as no return was approved on a row already closed.
  */
  lemma {:induction false} LogMatchesCustody(run: seq<Db>, ops: seq<Op>, k: nat, e: EquipmentId)
    requires IsRun(run, ops) && k <= |ops| && Read(run[0].events, e) == Holder(run[0], e)
    ensures Read(run[k].events, e) == if StaleBefore(run, ops, k, e) then Broken else Holder(run[k], e)
  {
    if k > 0 {
      LogMatchesCustody(run, ops, k - 1, e);
      InvAlways(run, ops, k - 1);
      StepEffect(run[k - 1], ops[k - 1], e);
      assert StaleBefore(run, ops, k, e) <==> StaleBefore(run, ops, k - 1, e) || Stale(run[k - 1], ops[k - 1], e);
    }
  }

  /** Handing out and taking back alone never break a log. */
  lemma LogMatchesWithoutApprovals(run: seq<Db>, ops: seq<Op>, k: nat, e: EquipmentId)
    requires IsRun(run, ops) && k <= |ops| && Read(run[0].events, e) == Holder(run[0], e)
    requires forall m :: 0 <= m < k ==> ops[m].Assign? || ops[m].Unassign?
    ensures Read(run[k].events, e) == Holder(run[k], e)
  {
    LogMatchesCustody(run, ops, k, e);
  }
}
