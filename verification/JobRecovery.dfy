/**
The stale-job recovery pass: candidates are selected without locks, then each is locked, checked again and
either failed or put back in the queue. Other transactions may run in every gap the pass leaves open.
*/
module JobRecovery {
  import opened Outcomes
  import opened Sequences
  import opened JobLease

  type JobId = nat

  type Table = map<JobId, Job>

  const BATCH := 200

  predicate AtMost(t: Option<Time>, bound: Time) {
    t.Some? && t.value <= bound
  }

  /** The candidate query, one disjunct per line of it. */
  predicate Selected(j: Job, at: Time, s: Settings) {
    var stale := at - s.staleAfter;
    var pending := at - s.grace;
    || (j.status == RUNNING && AtMost(j.heartbeat, stale))
    || (j.status == RUNNING && j.heartbeat.None? && AtMost(j.started, stale))
    || (j.status == RUNNING && j.heartbeat.None? && j.started.None? && j.created <= stale)
    || (j.status == PENDING && AtMost(j.heartbeat, pending))
    || (j.status == PENDING && j.heartbeat.None? && j.created <= pending)
    || (j.status == DONE && j.isImport && j.file.None? && j.payload && AtMost(j.finished, pending))
  }

  /** The two rows on which the query and the check under the lock can differ. */
  predicate PendingButStarted(j: Job, pending: Time) {
    && j.status == PENDING && j.heartbeat.None? && j.started.Some?
    && (j.started.value <= pending) != (j.created <= pending)
  }

  predicate FinishedWithoutTime(j: Job, pending: Time) {
    AwaitsWorkbook(j) && j.finished.None? && j.created <= pending
  }

  lemma QueryMatchesCheckExactly(j: Job, at: Time, s: Settings)
    ensures (Selected(j, at, s) <==> Recoverable(j, at, s))
            <==> !PendingButStarted(j, at - s.grace) && !FinishedWithoutTime(j, at - s.grace)
    ensures Recoverable(j, at, s) && !Selected(j, at, s)
            ==> (j.status == PENDING && j.started.Some? && j.started.value < j.created) || j.finished.None?
  {
  }

  /** One row of each kind: the query selects the first, which is not due, and misses the second, which is. */
  lemma QueryAndCheckDiffer(at: Time, s: Settings)
    ensures var cutoff := at - s.grace;
            var started := Job(PENDING, false, false, None, cutoff, Some(cutoff + 1), None, None, 0, None);
            var untimed := Job(DONE, true, true, None, cutoff, None, None, None, 0, None);
            && Selected(started, at, s) && !Recoverable(started, at, s)
            && !Selected(untimed, at, s) && Recoverable(untimed, at, s)
  {
  }

  /** No operation ever produces either of those rows, so for a job in use the query misses nothing. */
  lemma QueryMatchesCheckAlways(j: Job, ops: seq<Op>, at: Time, s: Settings)
    requires Sane(j, s)
    ensures Selected(After(j, ops, s), at, s) <==> Recoverable(After(j, ops, s), at, s)
  {
    SaneAlways(j, ops, s);
  }

  // ---- One pass ----

  /** What other transactions do: an operation on one job, or the deletion of one. */
  datatype Step = Write(id: JobId, op: Op) | Remove(id: JobId)

  function Perform(t: Table, step: Step, s: Settings): Table {
    if step.id !in t then t
    else if step.Remove? then t - {step.id}
    else t[step.id := Apply(t[step.id], step.op, s)]
  }

  function Play(t: Table, steps: seq<Step>, s: Settings): Table {
    if steps == [] then t else Perform(Play(t, steps[..|steps| - 1], s), steps[|steps| - 1], s)
  }

  /** The gaps around one candidate, the task id drawn for it, and whether the broker took the message. */
  datatype Gap = Gap(beforeLock: seq<Step>, beforeEnqueue: seq<Step>, task: TaskId, at: Time,
                     delivered: bool, beforeUndo: seq<Step>)

  datatype Outcome = Skipped | OverLimit | Requeued | NotDispatched

  datatype Handled = Handled(jobs: Table, outcome: Option<Outcome>)

  /** None stands for the exception raised when the job no longer exists. */
  function Enqueue(t: Table, id: JobId, gap: Gap, s: Settings): Handled {
    if id !in t then Handled(t, None)
    else if !CanReserve(t[id]) then Handled(t, Some(NotDispatched))
    else
      var reserved := Perform(t, Write(id, Reserve(gap.task, gap.at)), s);
      if gap.delivered then Handled(reserved, Some(Requeued))
      else Handled(Perform(Play(reserved, gap.beforeUndo, s), Write(id, Unreserve(gap.task)), s), Some(NotDispatched))
  }

  function Handle(t: Table, id: JobId, gap: Gap, now: Time, s: Settings): Handled {
    var locked := Play(t, gap.beforeLock, s);
    if id !in locked then Handled(locked, None)
    else if !Recoverable(locked[id], now, s) then Handled(locked, Some(Skipped))
    else
      var written := Perform(locked, Write(id, Recover(now)), s);
      if locked[id].attempts >= s.maxAttempts then Handled(written, Some(OverLimit))
      else Enqueue(Play(written, gap.beforeEnqueue, s), id, gap, s)
  }

  /**
  What becomes of a job that is put back in the queue: its message is sent exactly for a reservation made
  on a free job, which stands; if it cannot be sent the reservation is withdrawn; any other job is left alone.
  */
  lemma EnqueueExactly(t: Table, id: JobId, gap: Gap, s: Settings)
    ensures var h := Enqueue(t, id, gap, s);
            var free := id in t && t[id].task.None? && t[id].status != RUNNING && !Final(t[id]);
            && (h.outcome.None? <==> id !in t)
            && (h.outcome == Some(Requeued) <==> free && gap.delivered)
            && (free && gap.delivered ==> h.jobs == t[id := t[id].(task := Some(gap.task), heartbeat := Some(gap.at))])
            && (!free ==> h.jobs == t)
            && (free && !gap.delivered && gap.beforeUndo == [] && t[id].status == PENDING ==>
                  h.jobs == t[id := t[id].(heartbeat := None)])
            && (free && !gap.delivered && id in h.jobs && h.jobs[id].status == PENDING ==> h.jobs[id].task != Some(gap.task))
  {
    if id in t { ReserveExactly(t[id], gap.task, gap.at, s); }
  }

  lemma {:induction false} PlayConcat(t: Table, a: seq<Step>, b: seq<Step>, s: Settings)
    ensures Play(t, a + b, s) == Play(Play(t, a, s), b, s)
    ensures forall step :: Play(t, [step], s) == Perform(t, step, s)
    decreases |b|
  {
    forall step: Step ensures Play(t, [step], s) == Perform(t, step, s) { assert [step][..0] == []; }
    if b == [] {
      assert a + b == a;
    } else {
      PlayConcat(t, a, b[..|b| - 1], s);
      assert (a + b)[..|a + b| - 1] == a + b[..|b| - 1];
    }
  }

  /** A pass over the candidates; it stops at the first one that no longer exists. */
  datatype Pass = Pass(jobs: Table, outcomes: seq<Outcome>, aborted: bool)

  function RunPass(t: Table, ids: seq<JobId>, gaps: seq<Gap>, now: Time, s: Settings): (p: Pass)
    requires |gaps| == |ids|
    ensures |p.outcomes| <= |ids| && (!p.aborted ==> |p.outcomes| == |ids|)
  {
    if ids == [] then Pass(t, [], false)
    else
      var n := |ids| - 1;
      var p := RunPass(t, ids[..n], gaps[..n], now, s);
      if p.aborted then p
      else
        var h := Handle(p.jobs, ids[n], gaps[n], now, s);
        if h.outcome.None? then Pass(h.jobs, p.outcomes, true)
        else Pass(h.jobs, p.outcomes + [h.outcome.value], false)
  }

  // ---- A pass is an interleaving of lease operations ----

  /** Some sequence of lease operations leads from j to k. */
  ghost predicate Reaches(j: Job, k: Job, s: Settings) {
    exists ops: seq<Op> :: After(j, ops, s) == k
  }

  lemma {:induction false} AfterConcat(j: Job, a: seq<Op>, b: seq<Op>, s: Settings)
    ensures After(j, a + b, s) == After(After(j, a, s), b, s)
  {
    if b == [] {
      assert a + b == a;
    } else {
      AfterConcat(j, a, b[..|b| - 1], s);
      assert (a + b)[..|a + b| - 1] == a + b[..|b| - 1];
    }
  }

  lemma ReachesTwice(j: Job, k: Job, l: Job, s: Settings)
    requires Reaches(j, k, s) && Reaches(k, l, s)
    ensures Reaches(j, l, s)
  {
    var a: seq<Op> :| After(j, a, s) == k;
    var b: seq<Op> :| After(k, b, s) == l;
    AfterConcat(j, a, b, s);
  }

  /** Every job of t2 was already in t1 and got from there to here by lease operations. */
  ghost predicate Evolves(t1: Table, t2: Table, s: Settings) {
    forall id :: id in t2 ==> id in t1 && Reaches(t1[id], t2[id], s)
  }

  lemma EvolvesTwice(t1: Table, t2: Table, t3: Table, s: Settings)
    requires Evolves(t1, t2, s) && Evolves(t2, t3, s)
    ensures Evolves(t1, t3, s)
  {
    forall id | id in t3 ensures id in t1 && Reaches(t1[id], t3[id], s) {
      ReachesTwice(t1[id], t2[id], t3[id], s);
    }
  }

  lemma PerformEvolves(t: Table, step: Step, s: Settings)
    ensures Evolves(t, Perform(t, step, s), s)
  {
    var t2 := Perform(t, step, s);
    forall id | id in t2 ensures id in t && Reaches(t[id], t2[id], s) {
      assert After(t[id], [], s) == t[id];
      if step.Write? {
        assert After(t[id], [step.op], s) == Apply(t[id], step.op, s) by {
          assert [step.op][..0] == [];
        }
      }
    }
  }

  lemma {:induction false} PlayEvolves(t: Table, steps: seq<Step>, s: Settings)
    ensures Evolves(t, Play(t, steps, s), s)
  {
    if steps == [] {
      forall id | id in t ensures Reaches(t[id], t[id], s) { assert After(t[id], [], s) == t[id]; }
    } else {
      var before := Play(t, steps[..|steps| - 1], s);
      PlayEvolves(t, steps[..|steps| - 1], s);
      PerformEvolves(before, steps[|steps| - 1], s);
      EvolvesTwice(t, before, Play(t, steps, s), s);
    }
  }

  lemma PlayThenPerform(t: Table, steps: seq<Step>, step: Step, s: Settings)
    ensures Evolves(t, Perform(Play(t, steps, s), step, s), s)
  {
    PlayEvolves(t, steps, s);
    PerformEvolves(Play(t, steps, s), step, s);
    EvolvesTwice(t, Play(t, steps, s), Perform(Play(t, steps, s), step, s), s);
  }

  lemma EnqueueEvolves(t: Table, id: JobId, gap: Gap, s: Settings)
    ensures Evolves(t, Enqueue(t, id, gap, s).jobs, s)
  {
    PlayEvolves(t, [], s);
    var reserved := Perform(t, Write(id, Reserve(gap.task, gap.at)), s);
    PerformEvolves(t, Write(id, Reserve(gap.task, gap.at)), s);
    PlayThenPerform(reserved, gap.beforeUndo, Write(id, Unreserve(gap.task)), s);
    EvolvesTwice(t, reserved, Perform(Play(reserved, gap.beforeUndo, s), Write(id, Unreserve(gap.task)), s), s);
  }

  lemma HandleEvolves(t: Table, id: JobId, gap: Gap, now: Time, s: Settings)
    ensures Evolves(t, Handle(t, id, gap, now, s).jobs, s)
  {
    PlayEvolves(t, gap.beforeLock, s);
    PlayThenPerform(t, gap.beforeLock, Write(id, Recover(now)), s);
    var written := Perform(Play(t, gap.beforeLock, s), Write(id, Recover(now)), s);
    var resumed := Play(written, gap.beforeEnqueue, s);
    PlayEvolves(written, gap.beforeEnqueue, s);
    EvolvesTwice(t, written, resumed, s);
    EnqueueEvolves(resumed, id, gap, s);
    EvolvesTwice(t, resumed, Enqueue(resumed, id, gap, s).jobs, s);
  }

  /** So whatever holds over every run of lease operations holds across a pass and everything beside it. */
  lemma {:induction false} PassEvolves(t: Table, ids: seq<JobId>, gaps: seq<Gap>, now: Time, s: Settings)
    requires |gaps| == |ids|
    ensures Evolves(t, RunPass(t, ids, gaps, now, s).jobs, s)
  {
    if ids == [] {
      PlayEvolves(t, [], s);
    } else {
      var n := |ids| - 1;
      var p := RunPass(t, ids[..n], gaps[..n], now, s);
      PassEvolves(t, ids[..n], gaps[..n], now, s);
      HandleEvolves(p.jobs, ids[n], gaps[n], now, s);
      EvolvesTwice(t, p.jobs, Handle(p.jobs, ids[n], gaps[n], now, s).jobs, s);
    }
  }

  lemma EvolvesRespectsFinal(t1: Table, t2: Table, id: JobId, s: Settings)
    requires Evolves(t1, t2, s) && id in t2
    ensures Final(t1[id]) ==> t2[id] == t1[id]
    ensures Sane(t1[id], s) ==> Sane(t2[id], s)
  {
    var ops: seq<Op> :| After(t1[id], ops, s) == t2[id];
    if Final(t1[id]) {
      assert ops[..0] == [];
      FinalForever(t1[id], ops, 0, s);
    }
    if Sane(t1[id], s) {
      SaneAlways(t1[id], ops, s);
    }
  }

  /** A failed, cancelled or rendered job is the same after any pass, and every job stays sane. */
  lemma PassRespectsFinal(t: Table, ids: seq<JobId>, gaps: seq<Gap>, now: Time, s: Settings, id: JobId)
    requires |gaps| == |ids|
    requires id in RunPass(t, ids, gaps, now, s).jobs
    ensures id in t
    ensures Final(t[id]) ==> RunPass(t, ids, gaps, now, s).jobs[id] == t[id]
    ensures Sane(t[id], s) ==> Sane(RunPass(t, ids, gaps, now, s).jobs[id], s)
  {
    PassEvolves(t, ids, gaps, now, s);
    EvolvesRespectsFinal(t, RunPass(t, ids, gaps, now, s).jobs, id, s);
  }

  /** Once a pass has failed a job for its attempts, nothing later in the pass or beside it brings it back. */
  lemma {:induction false} OverLimitStaysFailed(t: Table, ids: seq<JobId>, gaps: seq<Gap>, now: Time, s: Settings, i: nat)
    requires |gaps| == |ids|
    requires i < |RunPass(t, ids, gaps, now, s).outcomes|
    requires RunPass(t, ids, gaps, now, s).outcomes[i] == OverLimit
    requires ids[i] in RunPass(t, ids, gaps, now, s).jobs
    ensures RunPass(t, ids, gaps, now, s).jobs[ids[i]].status == FAILED
    ensures RunPass(t, ids, gaps, now, s).jobs[ids[i]].finished == Some(now)
  {
    var n := |ids| - 1;
    var p := RunPass(t, ids[..n], gaps[..n], now, s);
    if i < |p.outcomes| {
      if !p.aborted {
        HandleEvolves(p.jobs, ids[n], gaps[n], now, s);
        EvolvesRespectsFinal(p.jobs, Handle(p.jobs, ids[n], gaps[n], now, s).jobs, ids[i], s);
      }
      OverLimitStaysFailed(t, ids[..n], gaps[..n], now, s, i);
    }
  }

  // ---- Work that shows signs of life ----

  predicate Alive(t: Table, id: JobId, u: TaskId, from: Time) {
    id in t && Holds(t[id], u) && t[id].heartbeat.Some? && from <= t[id].heartbeat.value
  }

  /** Others leave the job to its holder's ordinary work. */
  predicate Leaves(steps: seq<Step>, id: JobId, u: TaskId, from: Time, s: Settings) {
    forall i :: 0 <= i < |steps| && steps[i].id == id ==> steps[i].Write? && Working(steps[i].op, u, from, s)
  }

  predicate GapLeaves(gap: Gap, id: JobId, u: TaskId, from: Time, s: Settings) {
    && Leaves(gap.beforeLock, id, u, from, s)
    && Leaves(gap.beforeEnqueue, id, u, from, s)
    && Leaves(gap.beforeUndo, id, u, from, s)
  }

  lemma {:induction false} PlayKeepsAlive(t: Table, steps: seq<Step>, id: JobId, u: TaskId, from: Time, s: Settings)
    requires Alive(t, id, u, from) && Leaves(steps, id, u, from, s)
    ensures Alive(Play(t, steps, s), id, u, from)
  {
    if steps != [] {
      var n := |steps| - 1;
      PlayKeepsAlive(t, steps[..n], id, u, from, s);
      if steps[n].id == id {
        var j := Play(t, steps[..n], s)[id];
        assert [steps[n].op][..0] == [];
        assert After(j, [steps[n].op], s) == Apply(j, steps[n].op, s);
        LeaseKept(j, [steps[n].op], u, from, s);
      }
    }
  }

  /** A heartbeat that arrives between the selection and the lock saves the job: the pass leaves it as it is. */
  lemma RefreshedIsLeftAlone(t: Table, id: JobId, gap: Gap, u: TaskId, from: Time, now: Time, s: Settings)
    requires Alive(Play(t, gap.beforeLock, s), id, u, from) && now < from + s.staleAfter
    ensures Handle(t, id, gap, now, s) == Handled(Play(t, gap.beforeLock, s), Some(Skipped))
  {
  }

  lemma HandleKeepsAlive(t: Table, c: JobId, gap: Gap, id: JobId, u: TaskId, from: Time, now: Time, s: Settings)
    requires Alive(t, id, u, from) && GapLeaves(gap, id, u, from, s) && now < from + s.staleAfter
    ensures Alive(Handle(t, c, gap, now, s).jobs, id, u, from)
  {
    PlayKeepsAlive(t, gap.beforeLock, id, u, from, s);
    if c == id {
      RefreshedIsLeftAlone(t, id, gap, u, from, now, s);
    } else {
      var written := Perform(Play(t, gap.beforeLock, s), Write(c, Recover(now)), s);
      PlayKeepsAlive(written, gap.beforeEnqueue, id, u, from, s);
      var reserved := Perform(Play(written, gap.beforeEnqueue, s), Write(c, Reserve(gap.task, gap.at)), s);
      PlayKeepsAlive(reserved, gap.beforeUndo, id, u, from, s);
    }
  }

  /** A pass never takes a job from a worker heard from within the stale threshold, even if it was selected. */
  lemma {:induction false} PassKeepsAlive(t: Table, ids: seq<JobId>, gaps: seq<Gap>, id: JobId, u: TaskId, from: Time,
                                          now: Time, s: Settings)
    requires |gaps| == |ids| && now < from + s.staleAfter
    requires Alive(t, id, u, from)
    requires forall i :: 0 <= i < |gaps| ==> GapLeaves(gaps[i], id, u, from, s)
    ensures Alive(RunPass(t, ids, gaps, now, s).jobs, id, u, from)
  {
    if ids != [] {
      var n := |ids| - 1;
      var p := RunPass(t, ids[..n], gaps[..n], now, s);
      PassKeepsAlive(t, ids[..n], gaps[..n], id, u, from, now, s);
      HandleKeepsAlive(p.jobs, ids[n], gaps[n], id, u, from, now, s);
    }
  }

  // ---- A pass that nothing interferes with ----

  predicate Quiet(gap: Gap) {
    gap.beforeLock == [] && gap.beforeEnqueue == [] && gap.beforeUndo == []
  }

  function Verdict(j: Job, gap: Gap, now: Time, s: Settings): Outcome {
    if !Recoverable(j, now, s) then Skipped
    else if j.attempts >= s.maxAttempts then OverLimit
    else if gap.delivered then Requeued
    else NotDispatched
  }

  /** The row a quiet pass leaves for a candidate. */
  function Settled(j: Job, gap: Gap, now: Time, s: Settings): Job {
    match Verdict(j, gap, now, s)
    case Skipped => j
    case OverLimit => j.(status := FAILED, started := None, heartbeat := None, finished := Some(now), task := None)
    case Requeued =>
      j.(status := PENDING, started := None, finished := None, heartbeat := Some(gap.at), task := Some(gap.task))
    case NotDispatched => j.(status := PENDING, started := None, finished := None, heartbeat := None, task := None)
  }

  lemma HandleQuietly(t: Table, id: JobId, gap: Gap, now: Time, s: Settings)
    requires id in t && Quiet(gap)
    ensures Handle(t, id, gap, now, s)
            == Handled(t[id := Settled(t[id], gap, now, s)], Some(Verdict(t[id], gap, now, s)))
  {
    assert t[id := t[id]] == t;
    if Recoverable(t[id], now, s) && t[id].attempts < s.maxAttempts {
      var requeued := RecoverJob(t[id], now, s);
      assert CanReserve(requeued);
      var reserved := Apply(requeued, Reserve(gap.task, gap.at), s);
      assert Apply(reserved, Unreserve(gap.task), s) == requeued;
    }
  }

  lemma PassSnoc(t: Table, ids: seq<JobId>, gaps: seq<Gap>, now: Time, s: Settings, i: nat)
    requires |gaps| == |ids| && i < |ids|
    requires !RunPass(t, ids[..i], gaps[..i], now, s).aborted
    ensures var p := RunPass(t, ids[..i], gaps[..i], now, s);
            var h := Handle(p.jobs, ids[i], gaps[i], now, s);
            RunPass(t, ids[..i + 1], gaps[..i + 1], now, s)
            == if h.outcome.None? then Pass(h.jobs, p.outcomes, true)
               else Pass(h.jobs, p.outcomes + [h.outcome.value], false)
  {
    assert ids[..i + 1][..i] == ids[..i] && gaps[..i + 1][..i] == gaps[..i];
  }

  /** After the first n candidates: their rows settled, all others as in t. */
  ghost predicate SettledUpTo(t: Table, ids: seq<JobId>, gaps: seq<Gap>, now: Time, s: Settings, n: nat, p: Pass) {
    && n <= |ids| == |gaps| && |p.outcomes| == n && !p.aborted && p.jobs.Keys == t.Keys
    && (forall i :: 0 <= i < n ==>
          ids[i] in t
          && p.jobs[ids[i]] == Settled(t[ids[i]], gaps[i], now, s)
          && p.outcomes[i] == Verdict(t[ids[i]], gaps[i], now, s))
    && (forall id :: id in t && id !in ids[..n] ==> p.jobs[id] == t[id])
  }

  lemma SettleNext(t: Table, ids: seq<JobId>, gaps: seq<Gap>, now: Time, s: Settings, n: nat, p: Pass)
    requires n < |ids| && Distinct(ids) && SettledUpTo(t, ids, gaps, now, s, n, p) && ids[n] in t
    ensures ids[n] in p.jobs && p.jobs[ids[n]] == t[ids[n]]
    ensures var j, gap := t[ids[n]], gaps[n];
            SettledUpTo(t, ids, gaps, now, s, n + 1, Pass(p.jobs[ids[n] := Settled(j, gap, now, s)],
                                                          p.outcomes + [Verdict(j, gap, now, s)], false))
  {
    assert ids[n] !in ids[..n];
    assert ids[..n + 1] == ids[..n] + [ids[n]];
  }

  lemma {:induction false} QuietPassUpTo(t: Table, ids: seq<JobId>, gaps: seq<Gap>, now: Time, s: Settings, n: nat)
    requires n <= |ids| == |gaps| && Distinct(ids)
    requires forall i :: 0 <= i < |ids| ==> ids[i] in t && Quiet(gaps[i])
    ensures SettledUpTo(t, ids, gaps, now, s, n, RunPass(t, ids[..n], gaps[..n], now, s))
  {
    if n > 0 {
      QuietPassUpTo(t, ids, gaps, now, s, n - 1);
      var p := RunPass(t, ids[..n - 1], gaps[..n - 1], now, s);
      SettleNext(t, ids, gaps, now, s, n - 1, p);
      HandleQuietly(p.jobs, ids[n - 1], gaps[n - 1], now, s);
      PassSnoc(t, ids, gaps, now, s, n - 1);
    }
  }

  /** With no interference every candidate gets exactly its settled row and its own verdict; no other row changes. */
  lemma QuietPassExact(t: Table, ids: seq<JobId>, gaps: seq<Gap>, now: Time, s: Settings)
    requires |gaps| == |ids| && Distinct(ids)
    requires forall i :: 0 <= i < |ids| ==> ids[i] in t && Quiet(gaps[i])
    ensures SettledUpTo(t, ids, gaps, now, s, |ids|, RunPass(t, ids, gaps, now, s))
  {
    QuietPassUpTo(t, ids, gaps, now, s, |ids|);
    assert ids[..|ids|] == ids && gaps[..|ids|] == gaps;
  }

  /** The query's answer: selected jobs, oldest first, and all of them unless the batch is full. */
  predicate IsSelection(t: Table, ids: seq<JobId>, now: Time, s: Settings) {
    && Distinct(ids) && |ids| <= BATCH
    && (forall i :: 0 <= i < |ids| ==> ids[i] in t && Selected(t[ids[i]], now, s))
    && (forall i, k :: 0 <= i < k < |ids| ==> t[ids[i]].created <= t[ids[k]].created)
    && (forall id :: id in t && Selected(t[id], now, s) && id !in ids ==>
          |ids| == BATCH && forall i :: 0 <= i < |ids| ==> t[ids[i]].created <= t[id].created)
  }

  lemma StillRecoverable(j: Job, gap: Gap, now: Time, s: Settings)
    requires Sane(j, s) && gap.at > now - s.grace
    requires Recoverable(Settled(j, gap, now, s), now, s)
    ensures Recoverable(j, now, s) && Verdict(j, gap, now, s) == NotDispatched
  {
  }

  /**
  After a quiet pass over a batch that was not full, a job can still be recoverable only if its message
  could not be sent; so a second pass at the same time handles nothing else.
  */
  lemma BacklogCleared(t: Table, ids: seq<JobId>, gaps: seq<Gap>, now: Time, s: Settings, id: JobId)
    requires |gaps| == |ids| && IsSelection(t, ids, now, s) && |ids| < BATCH
    requires forall i :: 0 <= i < |ids| ==> Quiet(gaps[i]) && gaps[i].at > now - s.grace
    requires forall k :: k in t ==> Sane(t[k], s)
    requires id in t && id in RunPass(t, ids, gaps, now, s).jobs
    requires Recoverable(RunPass(t, ids, gaps, now, s).jobs[id], now, s)
    ensures exists i :: 0 <= i < |ids| && ids[i] == id && !gaps[i].delivered
                        && i < |RunPass(t, ids, gaps, now, s).outcomes|
                        && RunPass(t, ids, gaps, now, s).outcomes[i] == NotDispatched
  {
    QuietPassExact(t, ids, gaps, now, s);
    if id in ids {
      var i: nat :| i < |ids| && ids[i] == id;
      StillRecoverable(t[id], gaps[i], now, s);
    } else {
      QueryMatchesCheckAlways(t[id], [], now, s);
    }
  }

  // ---- The task ----

  function Count(outcomes: seq<Outcome>, which: Outcome): nat {
    if outcomes == [] then 0
    else Count(outcomes[..|outcomes| - 1], which) + if outcomes[|outcomes| - 1] == which then 1 else 0
  }

  /** Every handled candidate is counted once. */
  lemma {:induction false} CountsPartition(outcomes: seq<Outcome>)
    ensures Count(outcomes, Skipped) + Count(outcomes, OverLimit) + Count(outcomes, Requeued)
            + Count(outcomes, NotDispatched) == |outcomes|
  {
    if outcomes != [] {
      CountsPartition(outcomes[..|outcomes| - 1]);
    }
  }

  datatype Report = Report(recovered: nat, failed: nat, dispatchFailed: nat)

  datatype Failure = JobMissing(id: JobId)

  class JobTable {
    const settings: Settings
    var jobs: Table

    constructor (settings: Settings, jobs: Table)
      ensures this.settings == settings && this.jobs == jobs
    {
      this.settings := settings;
      this.jobs := jobs;
    }

    method ClaimJob(id: JobId, t: TaskId, redelivered: bool, now: Time) returns (r: Result<Reason, Failure>)
      modifies this
      ensures id !in old(jobs) ==> r == Err(JobMissing(id))
      ensures id in old(jobs) ==> r == Ok(ClaimReason(old(jobs[id]), t, redelivered, now, settings))
      ensures jobs == Perform(old(jobs), Write(id, Claim(t, redelivered, now)), settings)
    {
      if id !in jobs {
        return Err(JobMissing(id));
      }
      var job := jobs[id];
      assert jobs[id := job] == jobs;
      if job.status == CANCELLED || job.status == FAILED {
        return Ok(Terminal);
      }
      var status := job.status;
      if status == DONE {
        if !(job.isImport && job.payload && job.file.None?) {
          return Ok(Completed);
        }
        status := PENDING;
      }
      if status == RUNNING {
        if job.task == Some(t) {
          if redelivered {
            if job.attempts >= settings.maxAttempts {
              jobs := jobs[id := job.(status := FAILED, finished := Some(now), task := None, heartbeat := None)];
              return Ok(Exhausted);
            }
            job := job.(attempts := job.attempts + 1);
          }
          jobs := jobs[id := job.(heartbeat := Some(now))];
          return Ok(Redelivery);
        }
        if job.task.Some? && !Stale(job, now, settings) {
          return Ok(Duplicate);
        }
      }
      if status == PENDING && job.task.Some? && job.task != Some(t) {
        if job.heartbeat.Some? && job.heartbeat.value > now - settings.grace {
          return Ok(Reserved);
        }
      }
      if job.attempts >= settings.maxAttempts {
        jobs := jobs[id := job.(status := FAILED, finished := Some(now), task := None, heartbeat := None)];
        return Ok(Exhausted);
      }
      jobs := jobs[id := job.(status := RUNNING, started := Some(now), finished := None, heartbeat := Some(now),
                              task := Some(t), attempts := job.attempts + 1)];
      return Ok(Claimed);
    }

    method EnqueueReportJob(id: JobId, gap: Gap) returns (r: Result<bool, Failure>)
      modifies this
      ensures Handled(jobs, if r.Err? then None else if r.value then Some(Requeued) else Some(NotDispatched))
              == Enqueue(old(jobs), id, gap, settings)
      ensures r.Err? ==> r.error == JobMissing(id)
    {
      if id !in jobs {
        return Err(JobMissing(id));
      }
      var job := jobs[id];
      if job.status == CANCELLED || job.status == FAILED {
        return Ok(false);
      }
      if job.status == DONE && job.file.Some? {
        return Ok(false);
      }
      if job.status == RUNNING {
        return Ok(false);
      }
      if job.task.Some? {
        return Ok(false);
      }
      jobs := jobs[id := job.(task := Some(gap.task), heartbeat := Some(gap.at))];
      if gap.delivered {
        return Ok(true);
      }
      jobs := Play(jobs, gap.beforeUndo, settings);
      if id in jobs {
        job := jobs[id];
        if job.status == PENDING && job.task == Some(gap.task) {
          jobs := jobs[id := job.(task := None, heartbeat := None)];
        }
        assert jobs == Perform(Play(old(jobs)[id := old(jobs[id]).(task := Some(gap.task), heartbeat := Some(gap.at))],
                                    gap.beforeUndo, settings), Write(id, Unreserve(gap.task)), settings);
      }
      return Ok(false);
    }

    /** One turn of the loop: lock, check again, fail or requeue, send. */
    method RecoverJobNow(id: JobId, gap: Gap, now: Time) returns (r: Result<Outcome, Failure>)
      modifies this
      ensures Handled(jobs, if r.Ok? then Some(r.value) else None) == Handle(old(jobs), id, gap, now, settings)
    {
      jobs := Play(jobs, gap.beforeLock, settings);
      if id !in jobs {
        return Err(JobMissing(id));
      }
      var job := jobs[id];
      if !Recoverable(job, now, settings) {
        return Ok(Skipped);
      }
      if job.attempts >= settings.maxAttempts {
        jobs := jobs[id := job.(status := FAILED, finished := Some(now), started := None,
                                heartbeat := None, task := None)];
        return Ok(OverLimit);
      }
      jobs := jobs[id := job.(status := PENDING, started := None, finished := None,
                              heartbeat := None, task := None)];
      jobs := Play(jobs, gap.beforeEnqueue, settings);
      var sent := EnqueueReportJob(id, gap);
      if sent.Err? {
        return Err(sent.error);
      }
      return Ok(if sent.value then Requeued else NotDispatched);
    }

    method Oldest(among: set<JobId>) returns (id: JobId)
      requires among != {} && among <= jobs.Keys
      ensures id in among && forall other :: other in among ==> jobs[id].created <= jobs[other].created
    {
      id :| id in among;
      var rest := among - {id};
      while rest != {}
        invariant rest <= among && id in among
        invariant forall other :: other in among && other !in rest ==> jobs[id].created <= jobs[other].created
        decreases |rest|
      {
        var next :| next in rest;
        if jobs[next].created < jobs[id].created {
          id := next;
        }
        rest := rest - {next};
      }
    }

    /** The candidate query: oldest first, at most a batch. */
    method SelectCandidates(now: Time) returns (ids: seq<JobId>)
      ensures IsSelection(jobs, ids, now, settings)
    {
      ids := [];
      var rest := set id | id in jobs && Selected(jobs[id], now, settings);
      while rest != {} && |ids| < BATCH
        invariant |ids| <= BATCH && Distinct(ids)
        invariant forall id :: id in rest ==> id !in ids
        invariant forall id :: id in rest || id in ids <==> id in jobs && Selected(jobs[id], now, settings)
        invariant forall i, k :: 0 <= i < k < |ids| ==> jobs[ids[i]].created <= jobs[ids[k]].created
        invariant forall i, id :: 0 <= i < |ids| && id in rest ==> jobs[ids[i]].created <= jobs[id].created
        decreases |rest|
      {
        var oldest := Oldest(rest);
        rest := rest - {oldest};
        ids := ids + [oldest];
      }
    }

    /**
    The task: `gaps[i]` holds what other transactions do around candidate i; their steps are not the
    pass's own work.
   */
    method RecoverStaleReportJobs(gaps: seq<Gap>, now: Time) returns (ids: seq<JobId>, r: Result<Report, Failure>)
      requires |gaps| >= BATCH
      modifies this
      ensures IsSelection(old(jobs), ids, now, settings)
      ensures var p := RunPass(old(jobs), ids, gaps[..|ids|], now, settings);
              && jobs == p.jobs
              && (r.Err? <==> p.aborted)
              && (r.Ok? ==> r.value == Report(Count(p.outcomes, Requeued), Count(p.outcomes, OverLimit),
                                              Count(p.outcomes, NotDispatched)))
              && (r.Ok? ==> r.value.recovered + r.value.failed + r.value.dispatchFailed + Count(p.outcomes, Skipped)
                            == |ids|)
    {
      ids := SelectCandidates(now);
      r := RecoverCandidates(ids, gaps[..|ids|], now);
    }

    /** The loop over the candidates. */
    method RecoverCandidates(ids: seq<JobId>, gaps: seq<Gap>, now: Time) returns (r: Result<Report, Failure>)
      requires |gaps| == |ids|
      modifies this
      ensures var p := RunPass(old(jobs), ids, gaps, now, settings);
              && jobs == p.jobs
              && (r.Err? <==> p.aborted)
              && (r.Ok? ==> r.value == Report(Count(p.outcomes, Requeued), Count(p.outcomes, OverLimit),
                                              Count(p.outcomes, NotDispatched)))
              && (r.Ok? ==> r.value.recovered + r.value.failed + r.value.dispatchFailed + Count(p.outcomes, Skipped)
                            == |ids|)
    {
      var recovered: nat, failed: nat, dispatchFailed: nat := 0, 0, 0;
      ghost var table := jobs;
      for i := 0 to |ids|
        invariant !RunPass(table, ids[..i], gaps[..i], now, settings).aborted
        invariant jobs == RunPass(table, ids[..i], gaps[..i], now, settings).jobs
        invariant recovered == Count(RunPass(table, ids[..i], gaps[..i], now, settings).outcomes, Requeued)
        invariant failed == Count(RunPass(table, ids[..i], gaps[..i], now, settings).outcomes, OverLimit)
        invariant dispatchFailed == Count(RunPass(table, ids[..i], gaps[..i], now, settings).outcomes, NotDispatched)
      {
        PassSnoc(table, ids, gaps, now, settings, i);
        var handled := RecoverJobNow(ids[i], gaps[i], now);
        if handled.Err? {
          AbortSticks(table, ids, gaps, now, settings, i + 1);
          return Err(handled.error);
        }
        match handled.value
        case Skipped =>
        case OverLimit => failed := failed + 1;
        case Requeued => recovered := recovered + 1;
        case NotDispatched => dispatchFailed := dispatchFailed + 1;
      }
      assert ids[..|ids|] == ids && gaps[..|ids|] == gaps;
      CountsPartition(RunPass(table, ids, gaps, now, settings).outcomes);
      return Ok(Report(recovered, failed, dispatchFailed));
    }
  }

  lemma {:induction false} AbortSticks(t: Table, ids: seq<JobId>, gaps: seq<Gap>, now: Time, s: Settings, i: nat)
    requires |gaps| == |ids| && i <= |ids|
    requires RunPass(t, ids[..i], gaps[..i], now, s).aborted
    ensures RunPass(t, ids, gaps, now, s) == RunPass(t, ids[..i], gaps[..i], now, s)
  {
    if i == |ids| {
      assert ids[..i] == ids && gaps[..i] == gaps;
    } else {
      var n := |ids| - 1;
      assert ids[..n][..i] == ids[..i] && gaps[..n][..i] == gaps[..i];
      AbortSticks(t, ids[..n], gaps[..n], now, s, i);
    }
  }
}
