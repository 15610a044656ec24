/**
What the scope cache is for: workers that agree on one generation, and responses that are read from
the database once and then found again.
*/
module ScopeReuse {
  import opened GenerationCall
  import opened ScopeProtocol

  // ---- One generation ----

  /** No call has found the key empty after it had found it taken. */
  ghost predicate NoFallback(s: World) {
    forall w :: w in s.workers && s.workers[w].Fetching? ==>
      !s.workers[w].call.Falling? && (s.workers[w].call.Rereading? ==> s.slot.Some?)
  }

  /** The step neither evicts the key nor rotates it. */
  predicate LeavesKey(s: World, a: Action)
    requires Enabled(s, a)
  {
    !a.EvictSlot? && !IsRotation(s, a)
  }

  ghost predicate KeyLeftAlone(run: seq<World>, acts: seq<Action>, i: nat, j: nat) {
    && IsRun(run, acts) && i <= j <= |acts|
    && forall m :: i <= m < j ==> LeavesKey(run[m], acts[m])
  }

  lemma KeyStep(s: World, a: Action)
    requires Enabled(s, a) && LeavesKey(s, a) && NoFallback(s)
    ensures NoFallback(Apply(s, a))
    ensures s.slot.Some? ==> Written(s, a).None? && Apply(s, a).slot == s.slot
  {
    if a.Step? && s.workers[a.w].Fetching? {
      assert !s.workers[a.w].call.Falling?;
    }
  }

  lemma {:induction false} KeyKept(run: seq<World>, acts: seq<Action>, i: nat, j: nat)
    requires KeyLeftAlone(run, acts, i, j) && NoFallback(run[i])
    ensures NoFallback(run[j])
    ensures run[i].slot.Some? ==> run[j].slot == run[i].slot
    decreases j
  {
    if i < j {
      KeyKept(run, acts, i, j - 1);
      KeyStep(run[j - 1], acts[j - 1]);
    }
  }

  /** However many workers find the key missing, one of them writes it. */
  lemma WrittenByOne(run: seq<World>, acts: seq<Action>, k: nat, a: nat, b: nat)
    requires KeyLeftAlone(run, acts, 0, k) && a < b < k
    ensures Written(run[a], acts[a]).None? || Written(run[b], acts[b]).None?
  {
    KeyKept(run, acts, 0, a);
    if Written(run[a], acts[a]).Some? {
      KeyStep(run[a], acts[a]);
      KeyKept(run, acts, a + 1, b);
      KeyStep(run[b], acts[b]);
    }
  }

  /** Whoever works under a generation works under the one the key holds. */
  lemma {:induction false} WorksUnderTheKey(run: seq<World>, acts: seq<Action>, k: nat, w: WorkerId)
    requires KeyLeftAlone(run, acts, 0, k) && w in run[k].workers && Holds(run[k].workers[w]).Some?
    ensures Holds(run[k].workers[w]) == run[k].slot
  {
    var s, a := run[k - 1], acts[k - 1];
    KeyKept(run, acts, 0, k - 1);
    KeyStep(s, a);
    assert w in s.workers;
    GenerationTakenUp(s, a, w);
    if Holds(s.workers[w]).Some? {
      WorksUnderTheKey(run, acts, k - 1, w);
    }
  }

  /**
  As long as the key is neither evicted nor rotated, all requests of all workers at all moments work
  under one generation: whoever loses the race to write it takes up the winner's.
  */
  lemma OneGeneration(run: seq<World>, acts: seq<Action>, i: nat, j: nat, v: WorkerId, w: WorkerId)
    requires KeyLeftAlone(run, acts, 0, j) && i <= j
    requires v in run[i].workers && Holds(run[i].workers[v]).Some?
    requires w in run[j].workers && Holds(run[j].workers[w]).Some?
    ensures Holds(run[i].workers[v]) == Holds(run[j].workers[w])
  {
    WorksUnderTheKey(run, acts, i, v);
    WorksUnderTheKey(run, acts, j, w);
    KeyKept(run, acts, 0, i);
    KeyKept(run, acts, i, j);
  }

  // ---- What one request does ----

  predicate Acts(a: Action, w: WorkerId) {
    a.Step? && a.w == w
  }

  /** A cache operation of worker w raised at one of the steps from i up to j. */
  ghost predicate FailedIn(acts: seq<Action>, w: WorkerId, i: nat, j: nat) {
    exists m: nat :: i <= m < j <= |acts| && Acts(acts[m], w) && acts[m].op.Fail?
  }

  /** How often worker w has read the database at the steps from i up to j. */
  function Loads(acts: seq<Action>, w: WorkerId, i: nat, j: nat): nat
    requires i <= j <= |acts|
  {
    if i == j then 0
    else Loads(acts, w, i, j - 1) + if Acts(acts[j - 1], w) && acts[j - 1].op.Load? then 1 else 0
  }

  /** The response is in the cache under its query at one of the moments from i to j. */
  ghost predicate CachedIn(run: seq<World>, r: Response, i: nat, j: nat) {
    exists m: nat, g: Token :: i <= m <= j < |run| && (g, r.query) in run[m].responses && run[m].responses[(g, r.query)] == r
  }

  /** Step j - 1 is part of the request that worker w began at step b. */
  ghost predicate Within(run: seq<World>, acts: seq<Action>, b: nat, j: nat, w: WorkerId) {
    && IsRun(run, acts) && b < j <= |acts| && Begins(acts[b], w)
    && forall m :: b < m < j ==> !Begins(acts[m], w)
  }

  /** How far the request of w, begun at b, has come. */
  ghost predicate Progress(run: seq<World>, acts: seq<Action>, b: nat, j: nat, w: WorkerId)
    requires b < j <= |acts| < |run| && w in run[j].workers
  {
    var p := run[j].workers[w];
    && (p.Fetching? || p.Looking? || p.Loading? || p.Bypassing? ==> Loads(acts, w, b, j) == 0)
    && (p.Storing? || p.Serving? ==> Loads(acts, w, b, j) <= 1)
    && (p.Fetching? || p.Looking? || p.Loading? || p.Storing? ==> !FailedIn(acts, w, b, j))
    && (p.Bypassing? ==> FailedIn(acts, w, b, j))
    && (p.Serving? && p.response.ok && !FailedIn(acts, w, b, j) ==> CachedIn(run, p.response, b, j))
  }

  lemma FailedNext(acts: seq<Action>, w: WorkerId, i: nat, j: nat)
    requires i <= j < |acts|
    ensures FailedIn(acts, w, i, j + 1) <==> FailedIn(acts, w, i, j) || (Acts(acts[j], w) && acts[j].op.Fail?)
  {
  }

  lemma CachedLater(run: seq<World>, r: Response, i: nat, j: nat)
    requires j + 1 < |run|
    ensures CachedIn(run, r, i, j) ==> CachedIn(run, r, i, j + 1)
  {
  }

  lemma OthersStep(run: seq<World>, acts: seq<Action>, b: nat, j: nat, w: WorkerId)
    requires Within(run, acts, b, j + 1, w) && b < j && !Acts(acts[j], w)
    requires w in run[j].workers && Progress(run, acts, b, j, w)
    ensures w in run[j + 1].workers && Progress(run, acts, b, j + 1, w)
  {
    FailedNext(acts, w, b, j);
    if run[j].workers[w].Serving? { CachedLater(run, run[j].workers[w].response, b, j); }
  }

  /** What a request serves after a cache operation that did not raise is in the cache. */
  lemma ServedIsCached(run: seq<World>, acts: seq<Action>, b: nat, j: nat, w: WorkerId)
    requires Within(run, acts, b, j + 1, w) && b < j && Acts(acts[j], w) && (acts[j].op.Lookup? || acts[j].op.Store?)
    requires run[j + 1].workers[w].Serving?
    ensures CachedIn(run, run[j + 1].workers[w].response, b, j + 1)
  {
    InvAlways(run, acts, j);
    var h, s, p := PastAt(run, acts, j), run[j], run[j].workers[w];
    assert WorkerInv(h, s, w, p);
    var key := (p.generation, p.query);
    assert key in s.responses ==> FiledUnder(h, s, key.0, key.1, s.responses[key]);
    var next, response := j + 1, run[j + 1].workers[w].response;
    var m := if acts[j].op.Lookup? then j else next;
    assert (p.generation, response.query) in run[m].responses && run[m].responses[(p.generation, response.query)] == response;
  }

  lemma OwnStep(run: seq<World>, acts: seq<Action>, b: nat, j: nat, w: WorkerId)
    requires Within(run, acts, b, j + 1, w) && b < j && Acts(acts[j], w)
    requires w in run[j].workers && Progress(run, acts, b, j, w)
    ensures w in run[j + 1].workers && Progress(run, acts, b, j + 1, w)
  {
    FailedNext(acts, w, b, j);
    if (acts[j].op.Lookup? || acts[j].op.Store?) && run[j + 1].workers[w].Serving? {
      ServedIsCached(run, acts, b, j, w);
    }
  }

  lemma {:induction false} ProgressAlways(run: seq<World>, acts: seq<Action>, b: nat, j: nat, w: WorkerId)
    requires Within(run, acts, b, j, w)
    ensures w in run[j].workers && Progress(run, acts, b, j, w)
    decreases j
  {
    if j == b + 1 {
      FailedNext(acts, w, b, b);
    } else {
      ProgressAlways(run, acts, b, j - 1, w);
      if Acts(acts[j - 1], w) { OwnStep(run, acts, b, j - 1, w); } else { OthersStep(run, acts, b, j - 1, w); }
    }
  }

  /**
  A request reads the database at most once. If none of its cache operations raised, what it serves
  with status 200 is in the cache under its own query during the request: found there, or put there.
  */
  lemma ReadOnceAndCached(run: seq<World>, acts: seq<Action>, b: nat, j: nat, w: WorkerId)
    requires Within(run, acts, b, j, w) && w in run[j].workers && run[j].workers[w].Serving?
    ensures Loads(acts, w, b, j) <= 1
    ensures !FailedIn(acts, w, b, j) && run[j].workers[w].response.ok ==> CachedIn(run, run[j].workers[w].response, b, j)
  {
    ProgressAlways(run, acts, b, j, w);
  }

  /** A request changes the cached responses only if none of its cache operations before raised. */
  lemma FailedRequestsStoreNothing(run: seq<World>, acts: seq<Action>, b: nat, j: nat, w: WorkerId)
    requires Within(run, acts, b, j, w) && j < |acts| && Acts(acts[j], w) && FailedIn(acts, w, b, j)
    ensures run[j + 1].responses == run[j].responses
  {
    ProgressAlways(run, acts, b, j, w);
  }

  // ---- Finding it again ----

  /** The step puts nothing else under the key and does not drop it. */
  predicate KeepsResponse(s: World, a: Action, key: (Token, Query))
    requires Enabled(s, a)
  {
    match a
    case EvictResponse(k) => k != key
    case Step(w, _) => s.workers[w].Storing? ==> (s.workers[w].generation, s.workers[w].query) != key
    case _ => true
  }

  lemma {:induction false} ResponseKept(run: seq<World>, acts: seq<Action>, i: nat, k: nat, key: (Token, Query))
    requires IsRun(run, acts) && i <= k <= |acts| && key in run[i].responses
    requires forall m :: i <= m < k ==> KeepsResponse(run[m], acts[m], key)
    ensures key in run[k].responses && run[k].responses[key] == run[i].responses[key]
    decreases k
  {
    if i < k {
      ResponseKept(run, acts, i, k - 1, key);
      assert KeepsResponse(run[k - 1], acts[k - 1], key);
    }
  }

  /**
  A response that a worker has stored is served, without reading the database, to every later request
  for the same query under the same generation, as long as it is neither evicted nor replaced.
  */
  lemma StoredIsFoundAgain(run: seq<World>, acts: seq<Action>, i: nat, k: nat, v: WorkerId, w: WorkerId)
    requires IsRun(run, acts) && i < k < |acts|
    requires Acts(acts[i], v) && acts[i].op.Store? && Acts(acts[k], w) && acts[k].op.Lookup?
    requires run[i].workers[v].generation == run[k].workers[w].generation && run[i].workers[v].query == run[k].workers[w].query
    requires forall m :: i < m < k ==> KeepsResponse(run[m], acts[m], (run[k].workers[w].generation, run[k].workers[w].query))
    ensures run[k + 1].workers[w] == Serving(run[k].workers[w].query, run[i].workers[v].response)
  {
    ResponseKept(run, acts, i + 1, k, (run[k].workers[w].generation, run[k].workers[w].query));
  }

  // ---- Every request is answered ----

  /** How many operations a worker still needs at most to be idle again. */
  function Needs(p: Worker): nat {
    match p
    case Idle => 0
    case Fetching(_, call) =>
      (match call case Reading => 8 case Adding(_) => 7 case Rereading(_) => 6 case Falling(_) => 5 case Returned(_) => 0)
    case Looking(_, _) => 4
    case Loading(_, _) => 3
    case Storing(_, _, _) => 2
    case Bypassing(_) => 2
    case Serving(_, _) => 1
    case Rotating => 2
    case RotateReady(_) => 1
  }

  /** What a busy worker does next if nothing raises; `unused` is the token it draws if it needs one. */
  function NextOp(p: Worker, unused: Token, ok: bool): Op {
    match p
    case Idle => BeginRotation
    case Fetching(_, _) => Fetch(unused)
    case Looking(_, _) => Lookup
    case Loading(_, _) => Load(ok)
    case Storing(_, _, _) => Store
    case Bypassing(_) => Load(ok)
    case Serving(_, _) => Finish
    case Rotating => ReadOld(unused)
    case RotateReady(_) => Rotate
  }

  /** The worker is about to use the cache, whose answer it cannot do without. */
  predicate AtTheCache(p: Worker) {
    p.Fetching? || p.Looking? || p.Storing? || p.RotateReady?
  }

  predicate Busy(p: Worker) {
    !p.Idle? && (p.Fetching? ==> !p.call.Returned?)
  }

  /**
  Nobody is ever stuck: a busy worker can always go on, an idle one can begin, and the cache may
  raise exactly where a worker depends on it.
  */
  lemma NobodyIsStuck(s: World, w: WorkerId, query: Query, unused: Token, ok: bool, applied: bool)
    requires w in s.workers && unused !in s.issued
    ensures s.workers[w].Idle? ==> Enabled(s, Step(w, Begin(query))) && Enabled(s, Step(w, BeginRotation))
    ensures Busy(s.workers[w]) ==> Enabled(s, Step(w, NextOp(s.workers[w], unused, ok)))
    ensures Enabled(s, Step(w, Fail(applied))) <==> AtTheCache(s.workers[w])
  {
  }

  function TokenOf(op: Op): Token {
    match op
    case Fetch(t) => t
    case ReadOld(t) => t
    case _ => 0
  }

  /** A busy worker does nothing but its next operation or fail in it, and either brings it closer to the end. */
  lemma ComesCloser(s: World, w: WorkerId, op: Op)
    requires Enabled(s, Step(w, op)) && Busy(s.workers[w])
    ensures op.Fail? || op == NextOp(s.workers[w], TokenOf(op), op.Load? && op.ok)
    ensures var p := Moved(s, s.workers[w], op);
            Needs(p) < Needs(s.workers[w]) && (Busy(p) || p.Idle?)
  {
  }

  function OwnSteps(acts: seq<Action>, w: WorkerId, i: nat, j: nat): nat
    requires i <= j <= |acts|
  {
    if i == j then 0 else OwnSteps(acts, w, i, j - 1) + if Acts(acts[j - 1], w) then 1 else 0
  }

  /** A request is answered after at most eight operations of its worker, whatever others do and whatever raises. */
  lemma {:induction false} AnsweredInEight(run: seq<World>, acts: seq<Action>, b: nat, j: nat, w: WorkerId)
    requires Within(run, acts, b, j, w)
    requires forall m :: b < m < j && Acts(acts[m], w) ==> !acts[m].op.BeginRotation?
    ensures w in run[j].workers
    ensures OwnSteps(acts, w, b + 1, j) + Needs(run[j].workers[w]) <= 8
    ensures Busy(run[j].workers[w]) || run[j].workers[w].Idle?
    decreases j
  {
    if b + 1 < j {
      AnsweredInEight(run, acts, b, j - 1, w);
      var s, a := run[j - 1], acts[j - 1];
      if Acts(a, w) {
        ComesCloser(s, w, a.op);
      }
    }
  }
}
