/** Which decisions on whole requests are accepted, who is recorded for them, and what stays when one is settled. */
module ReturnSettled {
  import opened Outcomes
  import opened ReturnTables
  import opened ReturnRuns
  import opened ReturnApproval

  /**
  A request can be decided exactly while it is PENDING, and approved only if its pending items are
  covered. A settled one is refused before anything else is looked at.
  */
  lemma DecideRequestExactly(db: Db, r: nat, admin: UserId, verdict: Verdict)
    requires Linked(db) && r < |db.requests|
    ensures var result := DecideRequest(db, r, admin, verdict);
            var pending, covered := db.requests[r].status == Pending, Covered(db, r, |db.items|);
            && (result.Ok? <==> pending && (verdict.Deny? || covered))
            && (!pending ==> result == Err(RequestAlreadyProcessed))
            && (pending && verdict.Approve? && !covered ==> result == Err(ExceedsHeldQuantity))
  {
    if db.requests[r].status == Pending {
      if verdict.Approve? { ApproveRequestExact(db, r, admin); } else { DenyRequestExact(db, r, admin); }
    }
  }

  /** The step decides request r as a whole. */
  ghost predicate Settles(db: Db, op: Op, r: nat) {
    && Linked(db) && op.DecideAll? && op.request == r && r < |db.requests|
    && DecideRequest(db, r, op.admin, op.verdict).Ok?
  }

  lemma DecideAllRows(db: Db, r: nat, admin: UserId, verdict: Verdict)
    requires Linked(db) && r < |db.requests| && DecideRequest(db, r, admin, verdict).Ok?
    ensures var d := DecideRequest(db, r, admin, verdict).value;
            && OnlyStatusOf(db.(requests := db.requests[r := db.requests[r].(processedBy := Some(admin))]), r, d)
            && d.requests[r].status == StatusOf(d.items, r)
            && ItemsDecided(db, r, admin, if verdict.Approve? then ItemApproved else ItemDenied, |db.items|, d)
  {
    DecideRequestExactly(db, r, admin, verdict);
    if verdict.Approve? { ApproveRequestExact(db, r, admin); } else { DenyRequestExact(db, r, admin); }
  }

  /** Who processed a request changes exactly by deciding it as a whole, and is then whoever did so. */
  lemma ProcessedExactly(db: Db, op: Op, r: nat)
    requires Linked(db) && r < |db.requests|
    ensures r < |Step(db, op).requests|
    ensures var row := Step(db, op).requests[r];
            && row.requester == db.requests[r].requester
            && row.processedBy == if Settles(db, op, r) then Some(op.admin) else db.requests[r].processedBy
  {
    if op.DecideAll? && op.request < |db.requests| && DecideRequest(db, op.request, op.admin, op.verdict).Ok? {
      DecideAllRows(db, op.request, op.admin, op.verdict);
    }
  }

  // ---- Every run ----

  ghost predicate SettledAt(db: Db, i: nat) {
    && i < |db.items| && db.items[i].request < |db.requests|
    && db.requests[db.items[i].request].status != Pending
  }

  predicate DecidesItem(op: Op, i: nat) {
    op.DecideOne? && op.item == i
  }

  lemma StepKeepsItem(db: Db, op: Op, i: nat)
    requires Inv(db) && SettledAt(db, i) && !DecidesItem(op, i)
    ensures SettledAt(Step(db, op), i) && Step(db, op).items[i] == db.items[i]
  {
    StepSound(db, op);
    if op.DecideAll? && op.request < |db.requests| && DecideRequest(db, op.request, op.admin, op.verdict).Ok? {
      DecideRequestExactly(db, op.request, op.admin, op.verdict);
      DecideAllRows(db, op.request, op.admin, op.verdict);
    }
  }

  /** The items of a settled request, also those left pending, change only by deciding them one by one. */
  lemma {:induction false} SettledItemsStay(run: seq<Db>, ops: seq<Op>, m: nat, k: nat, i: nat)
    requires IsRun(run, ops) && m <= k <= |ops| && SettledAt(run[m], i)
    requires forall n :: m <= n < k ==> !DecidesItem(ops[n], i)
    ensures SettledAt(run[k], i) && run[k].items[i] == run[m].items[i]
    decreases k
  {
    if m < k {
      SettledItemsStay(run, ops, m, k - 1, i);
      InvAlways(run, ops, k - 1);
      StepKeepsItem(run[k - 1], ops[k - 1], i);
    }
  }

  lemma SettlingSettles(db: Db, op: Op, r: nat, i: nat)
    requires Inv(db) && Settles(db, op, r) && i < |db.items| && db.items[i].request == r
    ensures r < |Step(db, op).requests| && Step(db, op).requests[r].status != Pending
    ensures Step(db, op).requests[r].processedBy == Some(op.admin)
  {
    var d := Step(db, op);
    ProcessedExactly(db, op, r);
    DecideAllRows(db, r, op.admin, op.verdict);
    StatusesAfter(db, r, op.admin, if op.verdict.Approve? then ItemApproved else ItemDenied, d);
    assert Has(db.items, r, db.items[i].status);
  }

  /** A request with an item is decided as a whole at most once, and keeps the name of who did it. */
  lemma DecidedOnce(run: seq<Db>, ops: seq<Op>, m: nat, k: nat, r: nat, i: nat)
    requires IsRun(run, ops) && m < k < |ops| && Settles(run[m], ops[m], r)
    requires i < |run[m].items| && run[m].items[i].request == r
    ensures !Settles(run[k], ops[k], r)
    ensures r < |run[k].requests| && run[k].requests[r].processedBy == Some(ops[m].admin)
  {
    InvAlways(run, ops, m);
    InvAlways(run, ops, k);
    SettlingSettles(run[m], ops[m], r, i);
    SettledForGood(run, ops, m + 1, k, r);
    if Settles(run[k], ops[k], r) { DecideRequestExactly(run[k], r, ops[k].admin, ops[k].verdict); }
  }
}
