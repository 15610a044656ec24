/**
The execution lease of an asynchronous job: a state machine over one job row. Every operation is one
transaction. `at` is the time the operation read from the clock, which may be earlier than the moment it
takes the row lock; nothing below assumes that such times grow.
*/
module JobLease {
  import opened Outcomes

  type Time = int

  type TaskId = nat

  datatype Status = PENDING | RUNNING | DONE | FAILED | CANCELLED

  /** `file` names the task whose rendered report is stored, as the storage key does; an empty task id is None. */
  datatype Job = Job(
    status: Status, isImport: bool, payload: bool, file: Option<TaskId>,
    created: Time, started: Option<Time>, heartbeat: Option<Time>, finished: Option<Time>,
    attempts: nat, task: Option<TaskId>)

  datatype Settings = Settings(
    staleAfter: int, grace: int, maxAttempts: int, retryBase: int, retryMax: int,
    importLimit: int, reportLimit: int, importRetries: int, reportRetries: int)

  function Max(a: int, b: int): int {
    if a < b then b else a
  }

  /** The deployment checks on the lease settings. */
  predicate ChecksPass(s: Settings) {
    && s.staleAfter > Max(Max(s.importLimit, s.reportLimit), s.retryMax)
    && 0 < s.retryBase <= s.retryMax
    && s.maxAttempts >= Max(s.importRetries, s.reportRetries) + 1
  }

  function Activity(j: Job): Time {
    if j.heartbeat.Some? then j.heartbeat.value else if j.started.Some? then j.started.value else j.created
  }

  predicate Stale(j: Job, at: Time, s: Settings) {
    Activity(j) <= at - s.staleAfter
  }

  /** A finished import whose workbook was never rendered. */
  predicate AwaitsWorkbook(j: Job) {
    j.status == DONE && j.isImport && j.payload && j.file.None?
  }

  predicate Recoverable(j: Job, at: Time, s: Settings) {
    if j.status == RUNNING then Stale(j, at, s)
    else if j.status == PENDING then Activity(j) <= at - s.grace
    else AwaitsWorkbook(j) && (if j.finished.Some? then j.finished.value else j.created) <= at - s.grace
  }

  predicate Holds(j: Job, t: TaskId) {
    j.status == RUNNING && j.task == Some(t)
  }

  datatype Op =
    | Claim(who: TaskId, redelivered: bool, at: Time)
    | Touch(who: TaskId, at: Time)
    | PrepareRetry(who: TaskId, at: Time)
    | Fail(who: TaskId, withPayload: bool, at: Time)
    | Handoff(who: TaskId)
    | Complete(who: TaskId, at: Time)
    | Reserve(who: TaskId, at: Time)
    | Unreserve(who: TaskId)
    | Recover(at: Time)
    | Cancel(at: Time)

  datatype Reason = Terminal | Completed | Duplicate | Reserved | Exhausted | Redelivery | Claimed

  function Abandon(j: Job, at: Time): Job {
    j.(status := FAILED, finished := Some(at), task := None, heartbeat := None)
  }

  function ClaimReason(j: Job, t: TaskId, redelivered: bool, at: Time, s: Settings): Reason {
    if j.status == CANCELLED || j.status == FAILED then Terminal
    else if j.status == DONE && !AwaitsWorkbook(j) then Completed
    else if Holds(j, t) then
      if redelivered && j.attempts >= s.maxAttempts then Exhausted else Redelivery
    else if j.status == RUNNING && j.task.Some? && !Stale(j, at, s) then Duplicate
    else if j.status != RUNNING && j.task.Some? && j.task != Some(t)
            && j.heartbeat.Some? && j.heartbeat.value > at - s.grace then Reserved
    else if j.attempts >= s.maxAttempts then Exhausted
    else Claimed
  }

  function ClaimJob(j: Job, t: TaskId, redelivered: bool, at: Time, s: Settings): Job {
    var reason := ClaimReason(j, t, redelivered, at, s);
    if reason == Exhausted then Abandon(j, at)
    else if reason == Redelivery then
      j.(heartbeat := Some(at), attempts := if redelivered then j.attempts + 1 else j.attempts)
    else if reason == Claimed then
      j.(status := RUNNING, started := Some(at), finished := None, heartbeat := Some(at),
         task := Some(t), attempts := j.attempts + 1)
    else j
  }

  predicate CanReserve(j: Job) {
    && (j.status == PENDING || (j.status == DONE && j.file.None?))
    && j.task.None?
  }

  function RecoverJob(j: Job, at: Time, s: Settings): Job {
    if !Recoverable(j, at, s) then j
    else if j.attempts >= s.maxAttempts then Abandon(j, at).(started := None)
    else j.(status := PENDING, started := None, finished := None, heartbeat := None, task := None)
  }

  function Apply(j: Job, op: Op, s: Settings): Job {
    match op
    case Claim(t, redelivered, at) => ClaimJob(j, t, redelivered, at, s)
    case Touch(t, at) => if Holds(j, t) then j.(heartbeat := Some(at)) else j
    case PrepareRetry(t, at) =>
      if Holds(j, t) && j.attempts < s.maxAttempts
      then j.(attempts := j.attempts + 1, finished := None, heartbeat := Some(at)) else j
    case Fail(t, withPayload, at) =>
      if Holds(j, t) then Abandon(j, at).(payload := j.payload || withPayload) else j
    case Handoff(t) =>
      if Holds(j, t)
      then j.(payload := true, status := PENDING, started := None, finished := None,
              heartbeat := None, task := None, attempts := 0)
      else j
    case Complete(t, at) =>
      if Holds(j, t)
      then j.(status := DONE, finished := Some(at), file := Some(t), heartbeat := None, task := None) else j
    case Reserve(t, at) => if CanReserve(j) then j.(task := Some(t), heartbeat := Some(at)) else j
    case Unreserve(t) =>
      if j.status == PENDING && j.task == Some(t) then j.(task := None, heartbeat := None) else j
    case Recover(at) => RecoverJob(j, at, s)
    case Cancel(at) =>
      if j.isImport && (j.status == PENDING || j.status == RUNNING)
      then j.(status := CANCELLED, finished := Some(at), heartbeat := None, task := None) else j
  }

  function After(j: Job, ops: seq<Op>, s: Settings): Job {
    if ops == [] then j else Apply(After(j, ops[..|ops| - 1], s), ops[|ops| - 1], s)
  }

  // ---- What every run keeps ----

  /** Holds of a job just created, and of an import that was finished before workbooks were rendered. */
  predicate Sane(j: Job, s: Settings) {
    && (j.status == PENDING ==> j.started.None?)
    && (j.status == RUNNING ==> j.task.Some? && j.heartbeat.Some? && j.started.Some?)
    && (j.status == DONE ==> j.finished.Some?)
    && (j.file.Some? ==> j.status == DONE)
    && j.attempts <= s.maxAttempts
  }

  lemma ClaimKeepsSane(j: Job, t: TaskId, redelivered: bool, at: Time, s: Settings)
    requires Sane(j, s)
    ensures Sane(ClaimJob(j, t, redelivered, at, s), s)
    ensures ClaimJob(j, t, redelivered, at, s).attempts
            == j.attempts + if Charged(j, Claim(t, redelivered, at), s) then 1 else 0
  {
  }

  lemma SaneStep(j: Job, op: Op, s: Settings)
    requires Sane(j, s)
    ensures Sane(Apply(j, op, s), s)
    ensures !op.Handoff? ==> Apply(j, op, s).attempts == j.attempts + if Charged(j, op, s) then 1 else 0
  {
    if op.Claim? {
      ClaimKeepsSane(j, op.who, op.redelivered, op.at, s);
    }
  }

  lemma {:induction false} SaneAlways(j: Job, ops: seq<Op>, s: Settings)
    requires Sane(j, s)
    ensures Sane(After(j, ops, s), s)
  {
    if ops != [] {
      SaneAlways(j, ops[..|ops| - 1], s);
      SaneStep(After(j, ops[..|ops| - 1], s), ops[|ops| - 1], s);
    }
  }

  predicate Final(j: Job) {
    j.status == FAILED || j.status == CANCELLED || (j.status == DONE && j.file.Some?)
  }

  /** A failed, cancelled or rendered job is never written again, by any operation. */
  lemma {:induction false} FinalForever(j: Job, ops: seq<Op>, k: nat, s: Settings)
    requires k <= |ops|
    requires Final(After(j, ops[..k], s))
    ensures After(j, ops, s) == After(j, ops[..k], s)
  {
    if k < |ops| {
      var before := ops[..|ops| - 1];
      assert before[..k] == ops[..k];
      FinalForever(j, before, k, s);
    } else {
      assert ops[..k] == ops;
    }
  }

  /**
  What the fields of a new job say about one another: an owner and a sign of life come and go together,
  only a running job has started, only one that is over has finished, and one over for good has no owner.
  */
  predicate Tidy(j: Job) {
    && (j.task.Some? <==> j.heartbeat.Some?)
    && (j.status == RUNNING ==> j.task.Some? && j.started.Some?)
    && (j.status == PENDING ==> j.started.None?)
    && (j.finished.Some? <==> j.status == DONE || j.status == FAILED || j.status == CANCELLED)
    && (j.file.Some? ==> j.status == DONE)
    && (Final(j) ==> j.task.None?)
  }

  lemma TidyStep(j: Job, op: Op, s: Settings)
    requires Tidy(j)
    ensures Tidy(Apply(j, op, s))
  {
    if op.Claim? { ClaimExactly(j, op.who, op.redelivered, op.at, s); }
  }

  lemma {:induction false} TidyAlways(j: Job, ops: seq<Op>, s: Settings)
    requires Tidy(j)
    ensures Tidy(After(j, ops, s))
  {
    if ops != [] {
      TidyAlways(j, ops[..|ops| - 1], s);
      TidyStep(After(j, ops[..|ops| - 1], s), ops[|ops| - 1], s);
    }
  }

  /** An import can be cancelled exactly until it is done or has failed; nothing else ever is. */
  lemma CancelExactly(j: Job, op: Op, s: Settings)
    ensures j.status != CANCELLED ==>
              (Apply(j, op, s).status == CANCELLED <==> op.Cancel? && j.isImport && (j.status == PENDING || j.status == RUNNING))
    ensures op.Cancel? && Apply(j, op, s).status != CANCELLED ==> Apply(j, op, s) == j
  {
    if op.Claim? { ClaimExactly(j, op.who, op.redelivered, op.at, s); }
  }

  /** The holder hands over its import's result, or fails and leaves it behind. */
  predicate LeavesPayload(j: Job, op: Op) {
    (op.Handoff? || (op.Fail? && op.withPayload)) && Holds(j, op.who)
  }

  function PayloadsLeft(j: Job, ops: seq<Op>, s: Settings): nat {
    if ops == [] then 0
    else
      var before := ops[..|ops| - 1];
      PayloadsLeft(j, before, s) + if LeavesPayload(After(j, before, s), ops[|ops| - 1]) then 1 else 0
  }

  lemma PayloadStep(j: Job, op: Op, s: Settings)
    ensures Apply(j, op, s).payload <==> j.payload || LeavesPayload(j, op)
  {
  }

  /** A job has a payload exactly if it had one, or a holder of the lease has left one: it is never lost. */
  lemma {:induction false} PayloadExactly(j: Job, ops: seq<Op>, s: Settings)
    ensures After(j, ops, s).payload <==> j.payload || PayloadsLeft(j, ops, s) > 0
  {
    if ops != [] {
      PayloadExactly(j, ops[..|ops| - 1], s);
      PayloadStep(After(j, ops[..|ops| - 1], s), ops[|ops| - 1], s);
    }
  }

  predicate Completes(j: Job, op: Op) {
    op.Complete? && Holds(j, op.who)
  }

  function Completions(j: Job, ops: seq<Op>, s: Settings): nat {
    if ops == [] then 0
    else
      var before := ops[..|ops| - 1];
      Completions(j, before, s) + if Completes(After(j, before, s), ops[|ops| - 1]) then 1 else 0
  }

  lemma CompletionStep(j: Job, op: Op, s: Settings)
    requires Sane(j, s)
    ensures j.file.Some? ==> Apply(j, op, s) == j
    ensures j.file.None? ==> (Apply(j, op, s).file.Some? <==> Completes(j, op))
  {
    if op.Claim? {
      ClaimKeepsSane(j, op.who, op.redelivered, op.at, s);
    }
  }

  /** Whatever the interleaving, at most one delivery's report is ever stored. */
  lemma {:induction false} RenderedAtMostOnce(j: Job, ops: seq<Op>, s: Settings)
    requires Sane(j, s)
    ensures Completions(j, ops, s) == if j.file.None? && After(j, ops, s).file.Some? then 1 else 0
    ensures j.file.Some? ==> After(j, ops, s) == j
  {
    if ops != [] {
      var before := ops[..|ops| - 1];
      RenderedAtMostOnce(j, before, s);
      SaneAlways(j, before, s);
      CompletionStep(After(j, before, s), ops[|ops| - 1], s);
    }
  }

  lemma FileAppears(j: Job, op: Op, s: Settings)
    requires Apply(j, op, s).file != j.file
    ensures op.Complete? && Holds(j, op.who) && Apply(j, op, s).file == Some(op.who) && Final(Apply(j, op, s))
  {
    if op.Claim? { ClaimExactly(j, op.who, op.redelivered, op.at, s); }
  }

  /** The stored report is the one of a task that held the lease when it stored it. */
  lemma {:induction false} RenderedByHolder(j: Job, ops: seq<Op>, s: Settings) returns (i: nat)
    requires j.file.None? && After(j, ops, s).file.Some?
    ensures i < |ops| && ops[i].Complete? && After(j, ops, s).file == Some(ops[i].who)
    ensures Holds(After(j, ops[..i], s), ops[i].who)
    ensures Final(After(j, ops[..i + 1], s))
  {
    var n := |ops| - 1;
    var before := ops[..n];
    if After(j, before, s).file == After(j, ops, s).file {
      i := RenderedByHolder(j, before, s);
      assert before[..i] == ops[..i] && before[..i + 1] == ops[..i + 1];
    } else {
      i := n;
      FileAppears(After(j, before, s), ops[n], s);
      assert ops[..n + 1] == ops;
    }
  }

  /** The steps that use up an attempt. */
  predicate Charged(j: Job, op: Op, s: Settings) {
    || (op.Claim? && ClaimReason(j, op.who, op.redelivered, op.at, s) == Claimed)
    || (op.Claim? && op.redelivered && ClaimReason(j, op.who, op.redelivered, op.at, s) == Redelivery)
    || (op.PrepareRetry? && Holds(j, op.who) && j.attempts < s.maxAttempts)
  }

  function Charges(j: Job, ops: seq<Op>, s: Settings): nat {
    if ops == [] then 0
    else
      var before := ops[..|ops| - 1];
      Charges(j, before, s) + if Charged(After(j, before, s), ops[|ops| - 1], s) then 1 else 0
  }

  predicate NoHandoff(ops: seq<Op>) {
    forall i :: 0 <= i < |ops| ==> !ops[i].Handoff?
  }

  /**
  Between two handoffs the attempt counter is exactly the number of deliveries, redeliveries and retries
  that were let through, so together they never exceed the configured maximum.
  */
  lemma {:induction false} AttemptsAccounted(j: Job, ops: seq<Op>, s: Settings)
    requires Sane(j, s) && NoHandoff(ops)
    ensures After(j, ops, s).attempts == j.attempts + Charges(j, ops, s)
    ensures Charges(j, ops, s) <= s.maxAttempts - j.attempts
  {
    SaneAlways(j, ops, s);
    if ops != [] {
      var before := ops[..|ops| - 1];
      AttemptsAccounted(j, before, s);
      SaneAlways(j, before, s);
      SaneStep(After(j, before, s), ops[|ops| - 1], s);
    }
  }

  // ---- Who is given a lease ----

  /** There is still something to do: the job waits, is being worked on, or lacks its workbook. */
  predicate Unfinished(j: Job) {
    j.status == PENDING || j.status == RUNNING || AwaitsWorkbook(j)
  }

  /** Another task has the job: it works on it and is not silent, or was reserved it and is within the grace. */
  predicate TakenFrom(j: Job, t: TaskId, at: Time, s: Settings) {
    && j.task.Some? && j.task != Some(t)
    && if j.status == RUNNING then !Stale(j, at, s)
       else j.heartbeat.Some? && at < j.heartbeat.value + s.grace
  }

  /**
  What a delivery of task t does. It finds nothing to do or the job taken, and changes nothing; or it
  has the lease afterwards; or, if attempts are used up, the job has failed. A task that already has
  the lease keeps it at no charge, unless its message was delivered again.
  */
  lemma ClaimExactly(j: Job, t: TaskId, redelivered: bool, at: Time, s: Settings)
    ensures var d := Apply(j, Claim(t, redelivered, at), s);
            var open := Unfinished(j) && !TakenFrom(j, t, at, s);
            var resumes := Holds(j, t) && !redelivered;
            && (Holds(d, t) <==> open && (resumes || j.attempts < s.maxAttempts))
            && (d.status == FAILED && j.status != FAILED <==> open && !resumes && j.attempts >= s.maxAttempts)
            && (!Holds(d, t) && !(d.status == FAILED && j.status != FAILED) ==> d == j)
            && (Holds(d, t) ==> d.heartbeat == Some(at) && d.finished == (if Holds(j, t) then j.finished else None)
                                && d.attempts == j.attempts + (if resumes then 0 else 1)
                                && d.started == if Holds(j, t) then j.started else Some(at))
  {
  }

  /** A task id is reserved on a job that has none, unless it runs or is over for good. */
  lemma ReserveExactly(j: Job, t: TaskId, at: Time, s: Settings)
    ensures var d := Apply(j, Reserve(t, at), s);
            if j.task.None? && j.status != RUNNING && !Final(j) then d == j.(task := Some(t), heartbeat := Some(at)) else d == j
  {
  }

  predicate Claimable(j: Job) {
    CanReserve(j) && (j.status == PENDING || AwaitsWorkbook(j))
  }

  /** A step after the reservation for t that is not its delivery, its withdrawal, or an interruption. */
  predicate LeavesReservation(reserved: Job, op: Op, t: TaskId, s: Settings)
    requires reserved.heartbeat.Some?
  {
    match op
    case Claim(u, _, at) => u != t && at < reserved.heartbeat.value + s.grace
    case Unreserve(u) => u != t
    case Recover(at) => !Recoverable(reserved, at, s)
    case Cancel(_) => !(reserved.isImport && reserved.status == PENDING)
    case _ => true
  }

  lemma ReservationStep(j: Job, op: Op, t: TaskId, s: Settings)
    requires j.task == Some(t) && j.heartbeat.Some? && j.status != RUNNING && !(j.status == DONE && j.file.Some?)
    requires LeavesReservation(j, op, t, s)
    ensures Apply(j, op, s) == j
  {
    if op.Claim? { ClaimExactly(j, op.who, op.redelivered, op.at, s); }
  }

  lemma {:induction false} ReservationStands(j: Job, ops: seq<Op>, t: TaskId, s: Settings)
    requires j.task == Some(t) && j.heartbeat.Some? && j.status != RUNNING && !(j.status == DONE && j.file.Some?)
    requires forall i :: 0 <= i < |ops| ==> LeavesReservation(j, ops[i], t, s)
    ensures After(j, ops, s) == j
  {
    if ops != [] {
      ReservationStands(j, ops[..|ops| - 1], t, s);
      ReservationStep(j, ops[|ops| - 1], t, s);
    }
  }

  /**
  A job that is reserved for task t stays so whatever deliveries of other tasks do within the grace,
  and whatever workers without the lease do. Then t's own delivery gets the lease at any time, and
  one of another task exactly when the grace is over.
  */
  lemma ReservedForItsTask(j: Job, t: TaskId, at: Time, ops: seq<Op>, u: TaskId, redelivered: bool, later: Time, s: Settings)
    requires Claimable(j) && j.attempts < s.maxAttempts
    requires forall i :: 0 <= i < |ops| ==> LeavesReservation(Apply(j, Reserve(t, at), s), ops[i], t, s)
    ensures var d := Apply(After(Apply(j, Reserve(t, at), s), ops, s), Claim(u, redelivered, later), s);
            && (Holds(d, u) <==> u == t || at + s.grace <= later)
            && (!Holds(d, u) ==> d == Apply(j, Reserve(t, at), s))
  {
    var reserved := Apply(j, Reserve(t, at), s);
    ReservationStands(reserved, ops, t, s);
    ClaimExactly(reserved, u, redelivered, later, s);
  }

  // ---- Who can take a lease away ----

  predicate ByTask(op: Op, t: TaskId) {
    !op.Recover? && !op.Cancel? && op.who == t
  }

  /** The holder's own steps that give the lease up. */
  predicate GivesUp(j: Job, op: Op, t: TaskId, s: Settings) {
    && ByTask(op, t)
    && (op.Fail? || op.Handoff? || op.Complete?
        || (op.Claim? && op.redelivered && j.attempts >= s.maxAttempts))
  }

  /** Another delivery or the recovery pass, reading a clock at least the stale threshold past the last sign of life. */
  predicate FindsItSilent(j: Job, op: Op, t: TaskId, s: Settings) {
    && (op.Recover? || (op.Claim? && op.who != t))
    && Stale(j, op.at, s)
  }

  /** A lease ends in exactly three ways: its holder ends it, an import is cancelled, or it fell silent. */
  lemma LeaseLostExactly(j: Job, op: Op, t: TaskId, s: Settings)
    requires Holds(j, t)
    ensures !Holds(Apply(j, op, s), t)
            <==> GivesUp(j, op, t, s) || (op.Cancel? && j.isImport) || FindsItSilent(j, op, t, s)
  {
    match op
    case Claim(u, redelivered, at) => assert u != t ==> ClaimReason(j, u, redelivered, at, s) != Redelivery;
    case Touch(u, at) =>
    case PrepareRetry(u, at) =>
    case Fail(u, p, at) =>
    case Handoff(u) =>
    case Complete(u, at) =>
    case Reserve(u, at) =>
    case Unreserve(u) =>
    case Recover(at) =>
    case Cancel(at) =>
  }

  /** Steps of a stretch of work by t that began at `from` and is not cancelled, finished or failed. */
  predicate Working(op: Op, t: TaskId, from: Time, s: Settings) {
    && !op.Cancel?
    && ((op.Recover? || op.Claim?) ==> op.at < from + s.staleAfter)
    && (ByTask(op, t) ==>
          || op.Reserve? || op.Unreserve?
          || ((op.Touch? || op.PrepareRetry? || (op.Claim? && !op.redelivered)) && from <= op.at))
  }

  predicate ShowsLife(j: Job, op: Op, t: TaskId, s: Settings) {
    || (op.Touch? && op.who == t)
    || (op.PrepareRetry? && op.who == t && j.attempts < s.maxAttempts)
    || (op.Claim? && op.who == t && !op.redelivered)
  }

  /** Every sign of life starts the stale threshold anew: only from then on can another find the lease silent. */
  lemma SilenceCountsAnew(j: Job, op: Op, t: TaskId, other: Op, s: Settings)
    requires Holds(j, t) && ShowsLife(j, op, t, s)
    ensures Holds(Apply(j, op, s), t)
    ensures FindsItSilent(Apply(j, op, s), other, t, s) <==>
            (other.Recover? || (other.Claim? && other.who != t)) && op.at + s.staleAfter <= other.at
  {
  }

  /** An import that has been handed over keeps its result, and its rendering starts with the whole budget. */
  lemma HandoffStartsOver(j: Job, t: TaskId, u: TaskId, at: Time, s: Settings)
    requires Holds(j, t) && s.maxAttempts > 0
    ensures var d := Apply(Apply(j, Handoff(t), s), Claim(u, false, at), s);
            Holds(d, u) && d.payload && d.attempts == 1
  {
    ClaimExactly(Apply(j, Handoff(t), s), u, false, at, s);
  }

  /** As long as nobody's clock reaches `from` plus the stale threshold, the lease stays where it is. */
  lemma {:induction false} LeaseKept(j: Job, ops: seq<Op>, t: TaskId, from: Time, s: Settings)
    requires Holds(j, t) && j.heartbeat.Some? && from <= j.heartbeat.value
    requires forall i :: 0 <= i < |ops| ==> Working(ops[i], t, from, s)
    ensures Holds(After(j, ops, s), t)
    ensures After(j, ops, s).heartbeat.Some? && from <= After(j, ops, s).heartbeat.value
  {
    if ops != [] {
      LeaseKept(j, ops[..|ops| - 1], t, from, s);
      assert Working(ops[|ops| - 1], t, from, s);
    }
  }

  /** With settings that pass the checks, work inside its hard time limit is never taken over, heartbeats or not. */
  lemma WorkInsideLimitKeepsLease(j: Job, t: TaskId, redelivered: bool, from: Time, ops: seq<Op>, s: Settings)
    requires ChecksPass(s)
    requires ClaimReason(j, t, redelivered, from, s) in {Claimed, Redelivery}
    requires forall i :: 0 <= i < |ops| && !ops[i].Handoff? && !ops[i].Unreserve?
                         ==> ops[i].at <= from + Max(s.importLimit, s.reportLimit)
    requires forall i :: 0 <= i < |ops| ==> !ops[i].Cancel?
    requires forall i :: 0 <= i < |ops| && ByTask(ops[i], t) ==> ops[i].Touch? && from <= ops[i].at
    ensures Holds(After(ClaimJob(j, t, redelivered, from, s), ops, s), t)
  {
    forall i | 0 <= i < |ops| ensures Working(ops[i], t, from, s) {
    }
    LeaseKept(ClaimJob(j, t, redelivered, from, s), ops, t, from, s);
  }

  // ---- Retries ----

  function Pow2(n: nat): (p: int)
    ensures p > 0
  {
    if n == 0 then 1 else 2 * Pow2(n - 1)
  }

  function RetryCountdown(retries: nat, s: Settings): int {
    var delay := s.retryBase * Pow2(retries);
    if delay < s.retryMax then delay else s.retryMax
  }

  lemma {:induction false} Pow2Grows(m: nat, n: nat)
    requires m <= n
    ensures Pow2(m) <= Pow2(n)
  {
    if m < n {
      Pow2Grows(m, n - 1);
    }
  }

  lemma Times(base: int, p: int, q: int)
    requires 0 < base && 0 < p <= q
    ensures 0 < base <= base * p <= base * q
  {
    assert base * (p - 1) >= 0 && base * (q - p) >= 0;
  }

  /** Delays start at the base, never shrink, double until they reach the maximum, and stay below the stale threshold. */
  lemma CountdownBounds(m: nat, n: nat, s: Settings)
    requires ChecksPass(s) && m <= n
    ensures s.retryBase <= RetryCountdown(m, s) <= RetryCountdown(n, s) <= s.retryMax < s.staleAfter
    ensures RetryCountdown(0, s) == s.retryBase
    ensures RetryCountdown(m + 1, s) == if 2 * RetryCountdown(m, s) < s.retryMax then 2 * RetryCountdown(m, s) else s.retryMax
  {
    Pow2Grows(m, n);
    Times(s.retryBase, Pow2(m), Pow2(n));
    assert s.retryBase * Pow2(m + 1) == 2 * (s.retryBase * Pow2(m));
  }

  /**
  A retry that was scheduled finds its lease: until its countdown has run out, no other delivery and no
  recovery pass changes the row at all, and the retried delivery resumes the lease without a further charge.
  */
  lemma {:induction false} RetryFindsItsLease(j: Job, t: TaskId, from: Time, retries: nat, ops: seq<Op>, s: Settings)
    requires ChecksPass(s)
    requires Holds(j, t) && j.attempts < s.maxAttempts
    requires forall i :: 0 <= i < |ops| ==>
      !ops[i].Cancel? && !ByTask(ops[i], t)
      && ((ops[i].Recover? || ops[i].Claim?) ==> ops[i].at <= from + RetryCountdown(retries, s))
    ensures After(Apply(j, PrepareRetry(t, from), s), ops, s) == Apply(j, PrepareRetry(t, from), s)
    ensures forall at :: ClaimReason(After(Apply(j, PrepareRetry(t, from), s), ops, s), t, false, at, s) == Redelivery
  {
    CountdownBounds(retries, retries, s);
    if ops != [] {
      RetryFindsItsLease(j, t, from, retries, ops[..|ops| - 1], s);
      assert !ByTask(ops[|ops| - 1], t);
    }
  }

  // ---- The attempt budget ----

  /** None of the three ways a lease ends. */
  predicate Spares(j: Job, op: Op, t: TaskId, s: Settings) {
    !GivesUp(j, op, t, s) && !(op.Cancel? && j.isImport) && !FindsItSilent(j, op, t, s)
  }

  /** Each step spares the lease in the state it acts on. */
  predicate AllSpare(j: Job, ops: seq<Op>, t: TaskId, s: Settings) {
    if ops == [] then true
    else
      var before := ops[..|ops| - 1];
      AllSpare(j, before, t, s) && Spares(After(j, before, s), ops[|ops| - 1], t, s)
  }

  /** The steps by which t asks for one more attempt. */
  predicate AsksForAttempt(op: Op, t: TaskId) {
    ByTask(op, t) && (op.PrepareRetry? || (op.Claim? && op.redelivered))
  }

  function Asked(ops: seq<Op>, t: TaskId): nat {
    if ops == [] then 0 else Asked(ops[..|ops| - 1], t) + if AsksForAttempt(ops[|ops| - 1], t) then 1 else 0
  }

  /** Every attempt that t asks for is charged, hence granted. */
  predicate AllGranted(j: Job, ops: seq<Op>, t: TaskId, s: Settings) {
    if ops == [] then true
    else
      var before, last := ops[..|ops| - 1], ops[|ops| - 1];
      AllGranted(j, before, t, s) && (AsksForAttempt(last, t) ==> Charged(After(j, before, s), last, s))
  }

  lemma SparedStep(j: Job, op: Op, t: TaskId, s: Settings)
    requires Holds(j, t) && Spares(j, op, t, s) && j.attempts <= s.maxAttempts
    ensures Holds(Apply(j, op, s), t)
    ensures AsksForAttempt(op, t) ==> (Charged(j, op, s) <==> j.attempts < s.maxAttempts)
    ensures Apply(j, op, s).attempts
            == if AsksForAttempt(op, t) && j.attempts < s.maxAttempts then j.attempts + 1 else j.attempts
  {
    LeaseLostExactly(j, op, t, s);
    if op.Claim? && op.who != t {
      assert ClaimReason(j, op.who, op.redelivered, op.at, s) == Duplicate;
    }
  }

  /**
  While a lease lasts, whatever else is done to the row, its holder gets every attempt it asks for
  exactly if they fit in the budget, and no more than fit are counted.
  */
  lemma {:induction false} GrantedExactly(j: Job, t: TaskId, ops: seq<Op>, s: Settings)
    requires Holds(j, t) && j.attempts <= s.maxAttempts && AllSpare(j, ops, t, s)
    ensures Holds(After(j, ops, s), t)
    ensures After(j, ops, s).attempts
            == if j.attempts + Asked(ops, t) <= s.maxAttempts then j.attempts + Asked(ops, t) else s.maxAttempts
    ensures AllGranted(j, ops, t, s) <==> j.attempts + Asked(ops, t) <= s.maxAttempts
  {
    if ops != [] {
      var before, last := ops[..|ops| - 1], ops[|ops| - 1];
      GrantedExactly(j, t, before, s);
      SparedStep(After(j, before, s), last, t, s);
    }
  }

  /**
  With settings that pass the checks, the first delivery of a new job keeps its lease through every run
  of steps that spare it, and each of its retries is granted, as long as they and the redeliveries of
  its message together are no more than the configured retries.
  */
  lemma BudgetCoversRetries(j: Job, t: TaskId, redelivered: bool, from: Time, ops: seq<Op>, s: Settings)
    requires ChecksPass(s) && j.attempts == 0
    requires ClaimReason(j, t, redelivered, from, s) == Claimed
    requires AllSpare(ClaimJob(j, t, redelivered, from, s), ops, t, s)
    requires Asked(ops, t) <= Max(s.importRetries, s.reportRetries)
    ensures Holds(After(ClaimJob(j, t, redelivered, from, s), ops, s), t)
    ensures After(ClaimJob(j, t, redelivered, from, s), ops, s).attempts == 1 + Asked(ops, t)
    ensures AllGranted(ClaimJob(j, t, redelivered, from, s), ops, t, s)
  {
    GrantedExactly(ClaimJob(j, t, redelivered, from, s), t, ops, s);
  }

  // ---- What the deployment checks demand ----

  function RetryTimes(t: TaskId, at: Time, n: nat): (ops: seq<Op>)
    ensures |ops| == n
  {
    if n == 0 then [] else RetryTimes(t, at, n - 1) + [PrepareRetry(t, at)]
  }

  lemma {:induction false} RetriesAsk(j: Job, t: TaskId, at: Time, n: nat, s: Settings)
    ensures Asked(RetryTimes(t, at, n), t) == n && AllSpare(j, RetryTimes(t, at, n), t, s)
  {
    if n > 0 {
      RetriesAsk(j, t, at, n - 1, s);
      assert RetryTimes(t, at, n)[..n - 1] == RetryTimes(t, at, n - 1);
    }
  }

  predicate SurvivesDelivery(d: Job, t: TaskId, u: TaskId, at: Time, s: Settings) {
    u != t ==> Holds(Apply(d, Claim(u, false, at), s), t)
  }

  /** Whoever else is delivered the job at that time finds the lease still there. */
  ghost predicate LeaseOutlasts(d: Job, t: TaskId, at: Time, s: Settings) {
    forall u: TaskId :: SurvivesDelivery(d, t, u, at, s)
  }

  lemma OutlastsExactly(j: Job, t: TaskId, from: Time, duration: int, s: Settings)
    requires j.status == PENDING && j.task.None? && j.attempts == 0
    ensures LeaseOutlasts(ClaimJob(j, t, false, from, s), t, from + duration, s) <==> s.maxAttempts > 0 && duration < s.staleAfter
  {
    var d, at := ClaimJob(j, t, false, from, s), from + duration;
    ClaimExactly(j, t, false, from, s);
    forall u: TaskId ensures SurvivesDelivery(d, t, u, at, s) <==> u == t || (s.maxAttempts > 0 && duration < s.staleAfter) {
      ClaimExactly(d, u, false, at, s);
      if Holds(d, t) { LeaseLostExactly(d, Claim(u, false, at), t, s); }
    }
    var other := t + 1;
    assert SurvivesDelivery(d, t, other, at, s) <==> s.maxAttempts > 0 && duration < s.staleAfter;
  }

  /**
  Settings pass the checks exactly if retry delays are positive and bounded, a new job's lease outlasts
  both hard time limits and the longest delay, and the budget grants every configured retry.
  */
  lemma ChecksDemandExactly(j: Job, t: TaskId, from: Time, s: Settings)
    requires j.status == PENDING && j.task.None? && j.attempts == 0
    requires s.importRetries >= 0 && s.reportRetries >= 0
    ensures ChecksPass(s) <==>
            && 0 < s.retryBase <= s.retryMax
            && var d := ClaimJob(j, t, false, from, s);
               && LeaseOutlasts(d, t, from + s.importLimit, s) && LeaseOutlasts(d, t, from + s.reportLimit, s)
               && LeaseOutlasts(d, t, from + s.retryMax, s)
               && AllGranted(d, RetryTimes(t, from, s.importRetries), t, s)
               && AllGranted(d, RetryTimes(t, from, s.reportRetries), t, s)
  {
    var d := ClaimJob(j, t, false, from, s);
    OutlastsExactly(j, t, from, s.importLimit, s);
    OutlastsExactly(j, t, from, s.reportLimit, s);
    OutlastsExactly(j, t, from, s.retryMax, s);
    RetriesAsk(d, t, from, s.importRetries, s);
    RetriesAsk(d, t, from, s.reportRetries, s);
    if s.maxAttempts > 0 {
      GrantedExactly(d, t, RetryTimes(t, from, s.importRetries), s);
      GrantedExactly(d, t, RetryTimes(t, from, s.reportRetries), s);
    }
  }
}
