/**
The per-user scope cache under concurrency: workers answering list requests, workers rotating
the generation, a database that changes, and a cache that may drop any key at any time.

A step is one atomic operation. Tokens drawn by different calls are assumed distinct, as uuids.
*/
module ScopeProtocol {
  import opened Outcomes
  import opened GenerationCall

  type Query = nat
  type WorkerId = nat
  type Data = nat

  /** A response to a query, from what the database held at step `loadedAt`; `ok` if its status is 200. */
  datatype Response = Response(query: Query, data: Data, loadedAt: nat, ok: bool)

  datatype Worker =
    | Idle
    | Fetching(query: Query, call: Call)
    | Looking(query: Query, generation: Token)
    | Loading(query: Query, generation: Token)
    | Storing(query: Query, generation: Token, response: Response)
    | Bypassing(query: Query)
    | Serving(query: Query, response: Response)
    | Rotating
    | RotateReady(replacement: Token)

  datatype World = World(
    slot: Option<Token>,
    responses: map<(Token, Query), Response>,
    db: Data,
    workers: map<WorkerId, Worker>,
    issued: set<Token>,
    clock: nat)

  /** One operation of a worker. A backend operation that raises may still have taken effect. */
  datatype Op =
    | Begin(query: Query)
    | Fetch(token: Token)
    | Lookup
    | Load(ok: bool)
    | Store
    | Finish
    | BeginRotation
    | ReadOld(token: Token)
    | Rotate
    | Fail(applied: bool)

  datatype Action =
    | Step(w: WorkerId, op: Op)
    | Commit(data: Data)
    | EvictSlot
    | EvictResponse(key: (Token, Query))

  predicate CanDo(issued: set<Token>, p: Worker, op: Op) {
    match op
    case Begin(_) => p.Idle?
    case Fetch(t) => p.Fetching? && !p.call.Returned? && (p.call.Reading? ==> t !in issued)
    case Lookup => p.Looking?
    case Load(_) => p.Loading? || p.Bypassing?
    case Store => p.Storing?
    case Finish => p.Serving?
    case BeginRotation => p.Idle?
    case ReadOld(t) => p.Rotating? && t !in issued
    case Rotate => p.RotateReady?
    case Fail(_) => p.Fetching? || p.Looking? || p.Storing? || p.RotateReady?
  }

  predicate Enabled(s: World, a: Action) {
    a.Step? ==> a.w in s.workers && CanDo(s.issued, s.workers[a.w], a.op)
  }

  /** The value an operation of a worker in state p writes to the generation key, if any. */
  function Writes(slot: Option<Token>, p: Worker, op: Op): Option<Token> {
    if op.Fetch? || op == Fail(true) then
      match p
      case Fetching(_, Falling(c)) => Some(c)
      case Fetching(_, Adding(c)) => if slot.None? then Some(c) else None
      case RotateReady(t) => Some(t)
      case _ => None
    else if op.Rotate? && p.RotateReady? then Some(p.replacement)
    else None
  }

  function Written(s: World, a: Action): Option<Token>
    requires Enabled(s, a)
  {
    if a.Step? then Writes(s.slot, s.workers[a.w], a.op) else None
  }

  function Moved(s: World, p: Worker, op: Op): Worker
    requires CanDo(s.issued, p, op)
  {
    match op
    case Begin(q) => Fetching(q, Reading)
    case Fetch(t) =>
      var call := CallStep(s.slot, p.call, t).1;
      if call.Returned? then Looking(p.query, call.token) else Fetching(p.query, call)
    case Lookup =>
      var key := (p.generation, p.query);
      if key in s.responses then Serving(p.query, s.responses[key]) else Loading(p.query, p.generation)
    case Load(ok) =>
      var r := Response(p.query, s.db, s.clock, ok);
      if p.Loading? && ok then Storing(p.query, p.generation, r) else Serving(p.query, r)
    case Store => Serving(p.query, p.response)
    case Finish => Idle
    case BeginRotation => Rotating
    case ReadOld(t) => RotateReady(t)
    case Rotate => Idle
    case Fail(_) =>
      if p.Storing? then Serving(p.query, p.response)
      else if p.RotateReady? then Idle
      else Bypassing(p.query)
  }

  function Filed(s: World, p: Worker, op: Op): map<(Token, Query), Response> {
    if p.Storing? && (op.Store? || op == Fail(true))
    then s.responses[(p.generation, p.query) := p.response] else s.responses
  }

  function Drawn(p: Worker, op: Op): set<Token> {
    match op
    case Fetch(t) => if p.Fetching? && p.call.Reading? then {t} else {}
    case ReadOld(t) => {t}
    case _ => {}
  }

  function Apply(s: World, a: Action): World
    requires Enabled(s, a)
  {
    var t := s.(clock := s.clock + 1);
    match a
    case Commit(d) => t.(db := d)
    case EvictSlot => t.(slot := None)
    case EvictResponse(key) => t.(responses := s.responses - {key})
    case Step(w, op) =>
      var p := s.workers[w];
      t.(slot := if Written(s, a).Some? then Written(s, a) else s.slot,
         responses := Filed(s, p, op),
         workers := s.workers[w := Moved(s, p, op)],
         issued := s.issued + Drawn(p, op))
  }

  /** The step sets a rotation's new token, even if the backend then raises. */
  predicate IsRotation(s: World, a: Action)
    requires Enabled(s, a)
  {
    a.Step? && s.workers[a.w].RotateReady? && (a.op.Rotate? || a.op == Fail(true))
  }

  ghost predicate Init(s: World) {
    && s.slot == None && s.responses == map[] && s.issued == {} && s.clock == 0
    && forall w :: w in s.workers ==> s.workers[w].Idle?
  }

  /** run[k] is the state before step acts[k]. */
  ghost predicate IsRun(run: seq<World>, acts: seq<Action>) {
    && |run| == |acts| + 1
    && Init(run[0])
    && forall k :: 0 <= k < |acts| ==> Enabled(run[k], acts[k]) && run[k + 1] == Apply(run[k], acts[k])
  }

  // ---- Bookkeeping about the past, kept beside the run and not part of it ----

  /**
  writtenAt: when each token was written to the key.   rotatedAt: when the key was last rotated.
  floor: rotatedAt as it was when a worker's request began.   dbLog: the database before each step.
  */
  datatype Past = Past(writtenAt: map<Token, nat>, rotatedAt: nat, floor: map<WorkerId, nat>, dbLog: seq<Data>)

  function Record(h: Past, s: World, a: Action): Past
    requires Enabled(s, a)
  {
    var t := Written(s, a);
    Past(if t.Some? then h.writtenAt[t.value := s.clock] else h.writtenAt,
         if IsRotation(s, a) then s.clock else h.rotatedAt,
         if a.Step? && a.op.Begin? then h.floor[a.w := h.rotatedAt] else h.floor,
         h.dbLog + [s.db])
  }

  function PastAt(run: seq<World>, acts: seq<Action>, k: nat): Past
    requires k <= |acts| < |run|
    requires forall m :: 0 <= m < |acts| ==> Enabled(run[m], acts[m])
  {
    if k == 0 then Past(map[], 0, map[], []) else Record(PastAt(run, acts, k - 1), run[k - 1], acts[k - 1])
  }

  function Candidate(p: Worker): Option<Token> {
    match p
    case RotateReady(t) => Some(t)
    case Fetching(_, call) => if call.Reading? || call.Returned? then None else Some(call.candidate)
    case _ => None
  }

  ghost predicate Genuine(h: Past, s: World, r: Response) {
    r.loadedAt < |h.dbLog| && h.dbLog[r.loadedAt] == r.data
  }

  /** A response filed under token t for query q is one to q, loaded after t was first written. */
  ghost predicate FiledUnder(h: Past, s: World, t: Token, q: Query, r: Response) {
    Genuine(h, s, r) && r.query == q && r.ok && t in h.writtenAt && h.writtenAt[t] < r.loadedAt
  }

  ghost predicate WorkerInv(h: Past, s: World, w: WorkerId, p: Worker) {
    && (Candidate(p).Some? ==> Candidate(p).value in s.issued && Candidate(p).value !in h.writtenAt)
    && (p.Fetching? || p.Looking? || p.Loading? || p.Storing? || p.Bypassing? || p.Serving? ==>
          w in h.floor && h.floor[w] <= h.rotatedAt && h.floor[w] < s.clock)
    && (p.Fetching? ==> !p.call.Returned?)
    && (p.Looking? || p.Loading? || p.Storing? ==>
          p.generation in h.writtenAt && h.floor[w] <= h.writtenAt[p.generation])
    && (p.Storing? ==> FiledUnder(h, s, p.generation, p.query, p.response))
    && (p.Serving? ==> Genuine(h, s, p.response) && p.response.query == p.query && h.floor[w] < p.response.loadedAt)
  }

  ghost predicate Inv(h: Past, s: World) {
    && |h.dbLog| == s.clock
    && h.writtenAt.Keys <= s.issued
    && h.rotatedAt <= s.clock
    && (forall t :: t in h.writtenAt ==> h.writtenAt[t] < s.clock)
    && (s.slot.Some? ==> s.slot.value in h.writtenAt && h.rotatedAt <= h.writtenAt[s.slot.value])
    && (forall key :: key in s.responses ==> FiledUnder(h, s, key.0, key.1, s.responses[key]))
    && (forall w :: w in s.workers ==> WorkerInv(h, s, w, s.workers[w]))
    && (forall v, w :: v in s.workers && w in s.workers && v != w && Candidate(s.workers[v]).Some? ==>
          Candidate(s.workers[v]) != Candidate(s.workers[w]))
  }

  /** Only a pending candidate is ever written, and never one that was written before. */
  lemma WritesACandidate(h: Past, s: World, a: Action)
    requires Inv(h, s) && Enabled(s, a) && Written(s, a).Some?
    ensures a.Step?
    ensures Candidate(s.workers[a.w]) == Written(s, a)
    ensures Written(s, a).value in s.issued && Written(s, a).value !in h.writtenAt
    ensures Candidate(Moved(s, s.workers[a.w], a.op)).None?
  {
    assert WorkerInv(h, s, a.w, s.workers[a.w]);
  }

  lemma WorkerStays(h: Past, s: World, a: Action, w: WorkerId)
    requires Inv(h, s) && Enabled(s, a) && w in s.workers
    requires a.Step? ==> a.w != w
    ensures WorkerInv(Record(h, s, a), Apply(s, a), w, s.workers[w])
  {
    var p := s.workers[w];
    assert WorkerInv(h, s, w, p);
    if Written(s, a).Some? {
      WritesACandidate(h, s, a);
      assert Candidate(p) != Written(s, a);
    }
  }

  lemma WorkerMoves(h: Past, s: World, a: Action)
    requires Inv(h, s) && Enabled(s, a) && a.Step?
    ensures WorkerInv(Record(h, s, a), Apply(s, a), a.w, Moved(s, s.workers[a.w], a.op))
  {
    var p := s.workers[a.w];
    assert WorkerInv(h, s, a.w, p);
    var h' := Record(h, s, a);
    if Written(s, a).Some? {
      WritesACandidate(h, s, a);
    }
    if a.op.Lookup? && (p.generation, p.query) in s.responses {
      assert FiledUnder(h, s, p.generation, p.query, s.responses[(p.generation, p.query)]);
    }
  }

  lemma InvStep(h: Past, s: World, a: Action)
    requires Inv(h, s) && Enabled(s, a)
    ensures Inv(Record(h, s, a), Apply(s, a))
  {
    var h', s' := Record(h, s, a), Apply(s, a);
    if Written(s, a).Some? {
      WritesACandidate(h, s, a);
    }
    forall w | w in s'.workers ensures WorkerInv(h', s', w, s'.workers[w]) {
      if a.Step? ==> a.w != w {
        WorkerStays(h, s, a, w);
      } else {
        WorkerMoves(h, s, a);
      }
    }
    forall key | key in s'.responses ensures FiledUnder(h', s', key.0, key.1, s'.responses[key]) {
      if key in s.responses && s'.responses[key] == s.responses[key] {
        assert FiledUnder(h, s, key.0, key.1, s.responses[key]);
      } else {
        assert WorkerInv(h, s, a.w, s.workers[a.w]);
      }
    }
    CandidatesStayApart(h, s, a);
  }

  lemma CandidatesStayApart(h: Past, s: World, a: Action)
    requires Inv(h, s) && Enabled(s, a)
    ensures var ws := Apply(s, a).workers;
            forall v, w :: v in ws && w in ws && v != w && Candidate(ws[v]).Some? ==>
              Candidate(ws[v]) != Candidate(ws[w])
  {
    var ws := Apply(s, a).workers;
    forall v, w | v in ws && w in ws && v != w && Candidate(ws[v]).Some?
      ensures Candidate(ws[v]) != Candidate(ws[w])
    {
      assert WorkerInv(h, s, v, s.workers[v]) && WorkerInv(h, s, w, s.workers[w]);
    }
  }

  lemma {:induction false} InvAlways(run: seq<World>, acts: seq<Action>, k: nat)
    requires IsRun(run, acts) && k <= |acts|
    ensures Inv(PastAt(run, acts, k), run[k]) && run[k].clock == k
    ensures forall m :: 0 <= m < k ==> PastAt(run, acts, k).dbLog[m] == run[m].db
  {
    if k > 0 {
      InvAlways(run, acts, k - 1);
      InvStep(PastAt(run, acts, k - 1), run[k - 1], acts[k - 1]);
    }
  }

  // ---- Freshness ----

  predicate Begins(a: Action, w: WorkerId) { a.Step? && a.w == w && a.op.Begin? }

  lemma RotationStep(h: Past, s: World, a: Action)
    requires Inv(h, s) && Enabled(s, a)
    ensures Record(h, s, a).rotatedAt >= h.rotatedAt
    ensures IsRotation(s, a) ==> Record(h, s, a).rotatedAt == s.clock
  {
  }

  lemma {:induction false} RotationRemembered(run: seq<World>, acts: seq<Action>, i: nat, j: nat)
    requires IsRun(run, acts) && i < j <= |acts| && IsRotation(run[i], acts[i])
    ensures PastAt(run, acts, j).rotatedAt >= i
  {
    var s, a := run[j - 1], acts[j - 1];
    InvAlways(run, acts, j - 1);
    RotationStep(PastAt(run, acts, j - 1), s, a);
    if j > i + 1 {
      RotationRemembered(run, acts, i, j - 1);
    }
  }

  lemma {:induction false} FloorKept(run: seq<World>, acts: seq<Action>, j: nat, k: nat, w: WorkerId)
    requires IsRun(run, acts) && j < k <= |acts| && Begins(acts[j], w)
    requires forall m :: j < m < k ==> !Begins(acts[m], w)
    ensures w in PastAt(run, acts, k).floor
    ensures PastAt(run, acts, k).floor[w] == PastAt(run, acts, j).rotatedAt
  {
    if k > j + 1 {
      FloorKept(run, acts, j, k - 1, w);
    }
  }

  /**
  A request of worker w begun at step j, after the set of a rotation took effect at step i, serves
  at step k only what was read from the database for its own query by some step after i, whatever
  slower workers do in between.
  */
  lemma Freshness(run: seq<World>, acts: seq<Action>, i: nat, j: nat, k: nat, w: WorkerId)
    requires IsRun(run, acts) && i < j < k <= |acts|
    requires IsRotation(run[i], acts[i]) && Begins(acts[j], w)
    requires forall m :: j < m < k ==> !Begins(acts[m], w)
    requires w in run[k].workers && run[k].workers[w].Serving?
    ensures var r := run[k].workers[w].response;
            i < r.loadedAt < k && run[r.loadedAt].db == r.data && r.query == run[k].workers[w].query
  {
    InvAlways(run, acts, k);
    RotationRemembered(run, acts, i, j);
    FloorKept(run, acts, j, k, w);
    assert WorkerInv(PastAt(run, acts, k), run[k], w, run[k].workers[w]);
  }

  // ---- Tokens ----

  lemma {:induction false} WritesRemembered(run: seq<World>, acts: seq<Action>, a: nat, b: nat, t: Token)
    requires IsRun(run, acts) && a <= b <= |acts| && t in PastAt(run, acts, a).writtenAt
    ensures t in PastAt(run, acts, b).writtenAt
  {
    if a < b {
      WritesRemembered(run, acts, a, b - 1, t);
    }
  }

  /** No two steps of a run write the same token to the key. */
  lemma WrittenOnce(run: seq<World>, acts: seq<Action>, a: nat, b: nat)
    requires IsRun(run, acts) && a < b < |acts|
    requires Written(run[a], acts[a]).Some? && Written(run[b], acts[b]).Some?
    ensures Written(run[a], acts[a]) != Written(run[b], acts[b])
  {
    var t := Written(run[a], acts[a]).value;
    assert t in PastAt(run, acts, a + 1).writtenAt;
    WritesRemembered(run, acts, a + 1, b, t);
    InvAlways(run, acts, b);
    WritesACandidate(PastAt(run, acts, b), run[b], acts[b]);
  }

  lemma NotRewritten(h: Past, s: World, a: Action, t: Token)
    requires Inv(h, s) && Enabled(s, a) && t in h.writtenAt && s.slot != Some(t)
    ensures Apply(s, a).slot != Some(t)
  {
    if Written(s, a).Some? {
      WritesACandidate(h, s, a);
    }
  }

  lemma {:induction false} NeverAgain(run: seq<World>, acts: seq<Action>, b: nat, c: nat, t: Token)
    requires IsRun(run, acts) && b <= c <= |acts|
    requires t in PastAt(run, acts, b).writtenAt && run[b].slot != Some(t)
    ensures t in PastAt(run, acts, c).writtenAt && run[c].slot != Some(t)
  {
    if b < c {
      NeverAgain(run, acts, b, c - 1, t);
      InvAlways(run, acts, c - 1);
      NotRewritten(PastAt(run, acts, c - 1), run[c - 1], acts[c - 1], t);
    }
  }

  /** Once the key has held t and lost it, it never holds t again. */
  lemma RotatedOutForGood(run: seq<World>, acts: seq<Action>, a: nat, b: nat, c: nat, t: Token)
    requires IsRun(run, acts) && a < b <= c <= |acts|
    requires run[a].slot == Some(t) && run[b].slot != Some(t)
    ensures run[c].slot != Some(t)
  {
    InvAlways(run, acts, a);
    WritesRemembered(run, acts, a, b, t);
    NeverAgain(run, acts, b, c, t);
  }

  function Holds(p: Worker): Option<Token> {
    if p.Looking? || p.Loading? || p.Storing? then Some(p.generation) else None
  }

  /** A worker takes up a generation only at a moment at which the key holds it. */
  lemma GenerationTakenUp(s: World, a: Action, w: WorkerId)
    requires Enabled(s, a) && w in s.workers
    ensures w in Apply(s, a).workers
    ensures var g := Holds(Apply(s, a).workers[w]);
            g.Some? ==> g == Holds(s.workers[w]) || g == Apply(s, a).slot
  {
  }

  /**
  Linearizability of `get_generation`: the generation a request of worker w, begun at step j,
  works under was the key's value at some moment after step j.
  */
  lemma {:induction false} GenerationWasCurrent(run: seq<World>, acts: seq<Action>, j: nat, k: nat, w: WorkerId)
    requires IsRun(run, acts) && j < k <= |acts| && Begins(acts[j], w)
    ensures w in run[k].workers
    ensures (forall m :: j < m < k ==> !Begins(acts[m], w)) && Holds(run[k].workers[w]).Some? ==>
              exists m :: j < m <= k && run[m].slot == Holds(run[k].workers[w])
  {
    var s, a := run[k - 1], acts[k - 1];
    if k - 1 > j {
      GenerationWasCurrent(run, acts, j, k - 1, w);
      GenerationTakenUp(s, a, w);
    }
  }
}
