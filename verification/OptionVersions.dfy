/**
The version counter of the site option caches: several workers run `invalidate` at once, each
over its own list of namespaces, on shared version keys.
*/
module OptionVersions {
  import opened Outcomes

  type Namespace = string

  const VALID_OPTION_NAMESPACES: set<Namespace> := {"departments", "locations", "rooms"}

  /** The next backend operation on the namespace a worker is busy with. */
  datatype Stage =
    | Reading
    | Adding(oldVersion: nat)
    | Incrementing(oldVersion: nat)
    | Setting(oldVersion: nat)

  /** The key afterwards, and the next stage, or None once the namespace is done. */
  function StageStep(version: Option<nat>, stage: Stage): (Option<nat>, Option<Stage>) {
    match stage
    case Reading =>
      (version, Some(Adding(if version.Some? && version.value != 0 then version.value else 1)))
    case Adding(before) =>
      if version.None? then (Some(2), None) else (version, Some(Incrementing(before)))
    case Incrementing(before) =>
      if version.Some? then (Some(version.value + 1), None) else (version, Some(Setting(before)))
    case Setting(before) => (Some(before + 1), None)
  }

  datatype Worker = Worker(todo: seq<Namespace>, stage: Stage)

  datatype World = World(versions: map<Namespace, nat>, workers: map<nat, Worker>)

  /** Look is a reader's: it stores version 1 under an absent key. */
  datatype Action =
    | Begin(w: nat, todo: seq<Namespace>)
    | Step(w: nat)
    | Look(n: Namespace)
    | Evict(n: Namespace)

  function Lookup(s: World, n: Namespace): Option<nat> {
    if n in s.versions then Some(s.versions[n]) else None
  }

  /** The version readers see: an absent key counts as version 1. */
  function Current(s: World, n: Namespace): nat {
    if n in s.versions then s.versions[n] else 1
  }

  predicate Enabled(s: World, a: Action) {
    match a
    case Begin(w, _) => w !in s.workers || s.workers[w].todo == []
    case Step(w) => w in s.workers && s.workers[w].todo != []
    case Look(_) => true
    case Evict(_) => true
  }

  function Apply(s: World, a: Action): World
    requires Enabled(s, a)
  {
    match a
    case Begin(w, todo) => s.(workers := s.workers[w := Worker(todo, Reading)])
    case Step(w) =>
      var p := s.workers[w];
      var n := p.todo[0];
      var (version, next) := StageStep(Lookup(s, n), p.stage);
      World(if version.Some? then s.versions[n := version.value] else s.versions,
            s.workers[w := if next.Some? then Worker(p.todo, next.value) else Worker(p.todo[1..], Reading)])
    case Look(n) => if n in s.versions then s else s.(versions := s.versions[n := 1])
    case Evict(n) => s.(versions := s.versions - {n})
  }

  /** The step completes an invalidation of namespace n. */
  predicate Completes(s: World, a: Action, n: Namespace)
    requires Enabled(s, a)
  {
    a.Step? &&
    var p := s.workers[a.w];
    p.todo[0] == n && StageStep(Lookup(s, n), p.stage).1.None?
  }

  /**
  In any state, even after evictions, a completing step raises the version by exactly one unless
  it is the fallback `set` working from an old version that is no longer current.
  */
  lemma CompletionRaisesByOne(s: World, a: Action, n: Namespace)
    requires Enabled(s, a) && Completes(s, a, n)
    ensures var stage := s.workers[a.w].stage;
            (Current(Apply(s, a), n) == Current(s, n) + 1) <==>
            !(stage.Setting? && stage.oldVersion != Current(s, n))
  {
    assert !s.workers[a.w].stage.Reading?;
  }

  // ---- Runs ----

  /** Stored versions are positive, as all that is ever stored is 1, 2 or one more than a version. */
  ghost predicate IsRun(run: seq<World>, acts: seq<Action>) {
    && |run| == |acts| + 1
    && run[0].workers == map[] && (forall n :: n in run[0].versions ==> run[0].versions[n] > 0)
    && forall k :: 0 <= k < |acts| ==> Enabled(run[k], acts[k]) && run[k + 1] == Apply(run[k], acts[k])
  }

  function Completions(run: seq<World>, acts: seq<Action>, n: Namespace, k: nat): nat
    requires k <= |acts| < |run|
    requires forall m :: 0 <= m < |acts| ==> Enabled(run[m], acts[m])
  {
    if k == 0 then 0
    else Completions(run, acts, n, k - 1) + if Completes(run[k - 1], acts[k - 1], n) then 1 else 0
  }

  // ---- Without eviction ----

  predicate NoEviction(acts: seq<Action>) {
    forall m :: 0 <= m < |acts| ==> !acts[m].Evict?
  }

  /** A worker that has seen its `add` refused knows the key exists; nothing removes it. */
  ghost predicate Inv(s: World) {
    forall w :: w in s.workers && s.workers[w].todo != [] ==>
      var p := s.workers[w];
      !p.stage.Setting? && (p.stage.Incrementing? ==> p.todo[0] in s.versions)
  }

  lemma InvStep(s: World, a: Action)
    requires Inv(s) && Enabled(s, a) && !a.Evict?
    ensures Inv(Apply(s, a))
  {
    var s' := Apply(s, a);
    assert s.versions.Keys <= s'.versions.Keys;
    forall w | w in s'.workers && s'.workers[w].todo != []
      ensures !s'.workers[w].stage.Setting?
      ensures s'.workers[w].stage.Incrementing? ==> s'.workers[w].todo[0] in s'.versions
    {
      if (a.Begin? || a.Step?) && w in s.workers && w == a.w && s.workers[w].todo != [] {
        assert !s.workers[w].stage.Setting?;
      }
    }
  }

  lemma {:induction false} InvAlways(run: seq<World>, acts: seq<Action>, k: nat)
    requires IsRun(run, acts) && NoEviction(acts) && k <= |acts|
    ensures Inv(run[k])
  {
    if k > 0 {
      InvAlways(run, acts, k - 1);
      InvStep(run[k - 1], acts[k - 1]);
    }
  }

  lemma VersionStep(s: World, a: Action, n: Namespace)
    requires Inv(s) && Enabled(s, a) && !a.Evict?
    ensures Current(Apply(s, a), n) == Current(s, n) + if Completes(s, a, n) then 1 else 0
  {
  }

  /**
  However the workers interleave, k completed invalidations of a namespace take its version from
  v to exactly v + k.
  */
  lemma {:induction false} VersionCountsCompletions(run: seq<World>, acts: seq<Action>, n: Namespace, k: nat)
    requires IsRun(run, acts) && NoEviction(acts) && k <= |acts|
    ensures Current(run[k], n) == Current(run[0], n) + Completions(run, acts, n, k)
  {
    if k > 0 {
      VersionCountsCompletions(run, acts, n, k - 1);
      InvAlways(run, acts, k - 1);
      VersionStep(run[k - 1], acts[k - 1], n);
    }
  }

  // ---- With evictions ----

  /** An eviction of a version above 1, or a fallback `set` from an old version since overtaken. */
  predicate Lowers(s: World, a: Action, n: Namespace)
    requires Enabled(s, a)
  {
    || (a.Evict? && a.n == n && Current(s, n) > 1)
    || (Completes(s, a, n) && s.workers[a.w].stage.Setting? && s.workers[a.w].stage.oldVersion + 1 < Current(s, n))
  }

  lemma StepLowers(s: World, a: Action, n: Namespace)
    requires Enabled(s, a)
    ensures Current(Apply(s, a), n) < Current(s, n) <==> Lowers(s, a, n)
  {
  }

  ghost predicate Unlowered(run: seq<World>, acts: seq<Action>, n: Namespace, k: nat)
    requires IsRun(run, acts) && k <= |acts|
  {
    forall m :: 0 <= m < k ==> !Lowers(run[m], acts[m], n)
  }

  lemma {:induction false} GrowsWhileUnlowered(run: seq<World>, acts: seq<Action>, n: Namespace, i: nat, j: nat, k: nat)
    requires IsRun(run, acts) && i <= j <= k <= |acts| && Unlowered(run, acts, n, k)
    ensures Current(run[i], n) <= Current(run[j], n)
    decreases j
  {
    if i < j {
      GrowsWhileUnlowered(run, acts, n, i, j - 1, k);
      StepLowers(run[j - 1], acts[j - 1], n);
    }
  }

  /** The version of a namespace never goes back up to step k exactly if no step before lowers it. */
  lemma NeverDecreasesExactly(run: seq<World>, acts: seq<Action>, n: Namespace, k: nat)
    requires IsRun(run, acts) && k <= |acts|
    ensures (forall i, j :: 0 <= i <= j <= k ==> Current(run[i], n) <= Current(run[j], n)) <==> Unlowered(run, acts, n, k)
  {
    if Unlowered(run, acts, n, k) {
      forall i, j | 0 <= i <= j <= k ensures Current(run[i], n) <= Current(run[j], n) {
        GrowsWhileUnlowered(run, acts, n, i, j, k);
      }
    } else {
      var m :| 0 <= m < k && Lowers(run[m], acts[m], n);
      StepLowers(run[m], acts[m], n);
      var next := m + 1;
      assert Current(run[next], n) < Current(run[m], n);
    }
  }

  /** What a worker has read lies between the start of the run and now. */
  ghost predicate ReadsWithin(s: World, n: Namespace, start: nat) {
    && start <= Current(s, n) && (n in s.versions ==> s.versions[n] > 0)
    && forall w :: w in s.workers && s.workers[w].todo != [] && s.workers[w].todo[0] == n && !s.workers[w].stage.Reading? ==>
         start <= s.workers[w].stage.oldVersion <= Current(s, n)
  }

  lemma ReadsStep(s: World, a: Action, n: Namespace, start: nat)
    requires Enabled(s, a) && ReadsWithin(s, n, start) && !Lowers(s, a, n)
    ensures ReadsWithin(Apply(s, a), n, start) && Current(Apply(s, a), n) <= Current(s, n) + 1
  {
    StepLowers(s, a, n);
  }

  lemma {:induction false} ReadsAlways(run: seq<World>, acts: seq<Action>, n: Namespace, k: nat)
    requires IsRun(run, acts) && k <= |acts| && Unlowered(run, acts, n, k)
    ensures ReadsWithin(run[k], n, Current(run[0], n))
  {
    if k > 0 {
      ReadsAlways(run, acts, n, k - 1);
      ReadsStep(run[k - 1], acts[k - 1], n, Current(run[0], n));
    }
  }

  /** Rising by at most one, the version passes through every value in between. */
  lemma {:induction false} PassesThrough(run: seq<World>, acts: seq<Action>, n: Namespace, k: nat, v: nat) returns (m: nat)
    requires IsRun(run, acts) && k <= |acts| && Unlowered(run, acts, n, k)
    requires Current(run[0], n) <= v <= Current(run[k], n)
    ensures m <= k && Current(run[m], n) == v
  {
    if v == Current(run[k], n) {
      m := k;
    } else {
      ReadsAlways(run, acts, n, k - 1);
      ReadsStep(run[k - 1], acts[k - 1], n, Current(run[0], n));
      m := PassesThrough(run, acts, n, k - 1, v);
    }
  }

  /** The invalidation completed at step b leaves a version the namespace never had before. */
  ghost predicate LeavesNewVersion(run: seq<World>, acts: seq<Action>, n: Namespace, b: nat)
    requires IsRun(run, acts) && b < |acts|
  {
    forall m :: 0 <= m <= b ==> Current(run[m], n) != Current(run[b + 1], n)
  }

  /**
  No version is reused: as long as no step has lowered it, a completed invalidation leaves a new
  version exactly if it is no fallback `set` from an old version that has been overtaken.
  */
  lemma NewVersionExactly(run: seq<World>, acts: seq<Action>, n: Namespace, b: nat)
    requires IsRun(run, acts) && b < |acts| && Unlowered(run, acts, n, b) && Completes(run[b], acts[b], n)
    ensures var stage := run[b].workers[acts[b].w].stage;
            LeavesNewVersion(run, acts, n, b) <==> !(stage.Setting? && stage.oldVersion < Current(run[b], n))
  {
    var s, a := run[b], acts[b];
    var stage := s.workers[a.w].stage;
    ReadsAlways(run, acts, n, b);
    if stage.Setting? && stage.oldVersion < Current(s, n) {
      var m := PassesThrough(run, acts, n, b, stage.oldVersion + 1);
      assert Current(run[m], n) == Current(run[b + 1], n);
    } else {
      CompletionRaisesByOne(s, a, n);
      forall m | 0 <= m <= b ensures Current(run[m], n) != Current(run[b + 1], n) {
        GrowsWhileUnlowered(run, acts, n, m, b, b);
      }
    }
  }

  lemma ExtendRun(run: seq<World>, acts: seq<Action>, a: Action) returns (run': seq<World>, acts': seq<Action>)
    requires IsRun(run, acts) && Enabled(run[|acts|], a)
    ensures acts' == acts + [a] && run' == run + [Apply(run[|acts|], a)] && IsRun(run', acts')
  {
    acts', run' := acts + [a], run + [Apply(run[|acts|], a)];
  }

  /** One worker invalidating one namespace of a cache that does not hold its version. */
  lemma FirstInvalidation(run: seq<World>, acts: seq<Action>, n: Namespace) returns (run': seq<World>, acts': seq<Action>)
    requires IsRun(run, acts) && n !in run[|acts|].versions
    requires 0 !in run[|acts|].workers || run[|acts|].workers[0].todo == []
    ensures IsRun(run', acts') && acts' == acts + [Begin(0, [n]), Step(0), Step(0)] && run <= run'
    ensures Completes(run'[|acts| + 2], acts'[|acts| + 2], n) && Current(run'[|acts| + 3], n) == 2
    ensures 0 in run'[|acts| + 3].workers && run'[|acts| + 3].workers[0].todo == []
  {
    run', acts' := ExtendRun(run, acts, Begin(0, [n]));
    run', acts' := ExtendRun(run', acts', Step(0));
    assert run'[|acts'|].workers[0] == Worker([n], Adding(1));
    run', acts' := ExtendRun(run', acts', Step(0));
  }

  /** With an eviction in between, two completed invalidations leave the same version. */
  lemma EvictionReusesVersions(n: Namespace) returns (run: seq<World>, acts: seq<Action>)
    ensures IsRun(run, acts) && |acts| == 7 && run[0] == World(map[], map[])
    ensures Completes(run[2], acts[2], n) && Lowers(run[3], acts[3], n) && Completes(run[6], acts[6], n)
    ensures Current(run[3], n) == Current(run[7], n) && !LeavesNewVersion(run, acts, n, 6)
  {
    run, acts := FirstInvalidation([World(map[], map[])], [], n);
    run, acts := ExtendRun(run, acts, Evict(n));
    run, acts := FirstInvalidation(run, acts, n);
    assert Current(run[3], n) == Current(run[7], n);
  }

  // ---- One callback ----

  /** What others leave under the key between two operations; None if they do not touch it. */
  type Gap = Option<Option<nat>>

  function Disturbed(version: Option<nat>, gap: Gap): Option<nat> {
    if gap.Some? then gap.value else version
  }

  /** The callback's operations on one key, with gaps between them. */
  function RunStages(version: Option<nat>, stage: Stage, gaps: seq<Gap>): Option<nat>
    decreases |gaps|
  {
    var (after, next) := StageStep(version, stage);
    if next.None? || gaps == [] then after else RunStages(Disturbed(after, gaps[0]), next.value, gaps[1..])
  }

  lemma UndisturbedRaisesByOne(version: Option<nat>)
    ensures RunStages(version, Reading, [None, None, None]) == Some(if version.Some? then version.value + 1 else 2)
  {
    var gaps: seq<Gap> := [None, None, None];
    assert gaps[1..] == [None, None] && gaps[1..][1..] == [None];
  }

  datatype InvalidNamespaces = InvalidNamespaces(names: set<Namespace>)

  class OptionVersionCache {
    var versions: map<Namespace, nat>

    function Stored(n: Namespace): Option<nat>
      reads this
    {
      if n in versions then Some(versions[n]) else None
    }

    method Disturb(n: Namespace, gap: Gap)
      modifies this
      ensures Stored(n) == Disturbed(old(Stored(n)), gap)
      ensures forall other :: other != n ==> Stored(other) == old(Stored(other))
    {
      if gap.Some? {
        versions := if gap.value.Some? then versions[n := gap.value.value] else versions - {n};
      }
    }

    /** The loop body for one namespace. */
    method InvalidateNamespace(n: Namespace, gap1: Gap, gap2: Gap, gap3: Gap) returns (newVersion: nat)
      modifies this
      ensures Stored(n) == Some(newVersion) == RunStages(old(Stored(n)), Reading, [gap1, gap2, gap3])
      ensures forall other :: other != n ==> Stored(other) == old(Stored(other))
    {
      ghost var spec := RunStages(Stored(n), Reading, [gap1, gap2, gap3]);
      assert [gap1, gap2, gap3][1..] == [gap2, gap3] && [gap2, gap3][1..] == [gap3] && [gap3][1..] == [];
      var oldVersion := if n in versions && versions[n] != 0 then versions[n] else 1;
      Disturb(n, gap1);
      assert spec == RunStages(Stored(n), Adding(oldVersion), [gap2, gap3]);
      if n !in versions {
        newVersion := 2;
        versions := versions[n := 2];
      } else {
        Disturb(n, gap2);
        assert spec == RunStages(Stored(n), Incrementing(oldVersion), [gap3]);
        if n in versions {
          newVersion := versions[n] + 1;
        } else {
          Disturb(n, gap3);
          assert spec == RunStages(Stored(n), Setting(oldVersion), []);
          newVersion := oldVersion + 1;
        }
        versions := versions[n := newVersion];
      }
    }

    /** `invalidate_option_namespaces` with its commit callback; unknown names change nothing. */
    method InvalidateOptionNamespaces(names: set<Namespace>, gaps: map<Namespace, (Gap, Gap, Gap)>)
      returns (r: Result<(), InvalidNamespaces>)
      modifies this
      ensures r.Ok? <==> names <= VALID_OPTION_NAMESPACES
      ensures r.Err? ==> r.error.names == names - VALID_OPTION_NAMESPACES && versions == old(versions)
      ensures r.Ok? ==> forall n :: Stored(n) == if n in names then RunStages(old(Stored(n)), Reading, GapsOf(gaps, n))
                                                 else old(Stored(n))
    {
      var invalid := names - VALID_OPTION_NAMESPACES;
      if invalid != {} {
        return Err(InvalidNamespaces(invalid));
      }
      assert names <= VALID_OPTION_NAMESPACES by {
        forall n | n in names ensures n in VALID_OPTION_NAMESPACES {
          assert n !in invalid;
        }
      }
      var todo := names;
      while todo != {}
        invariant todo <= names
        invariant forall n :: Stored(n) == if n in names - todo then RunStages(old(Stored(n)), Reading, GapsOf(gaps, n))
                                           else old(Stored(n))
        decreases |todo|
      {
        var n :| n in todo;
        var g := if n in gaps then gaps[n] else (None, None, None);
        var newVersion := InvalidateNamespace(n, g.0, g.1, g.2);
        todo := todo - {n};
      }
      return Ok(());
    }
  }

  function GapsOf(gaps: map<Namespace, (Gap, Gap, Gap)>, n: Namespace): seq<Gap> {
    if n in gaps then [gaps[n].0, gaps[n].1, gaps[n].2] else [None, None, None]
  }
}
