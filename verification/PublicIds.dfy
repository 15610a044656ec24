/** The permanent ledger of public ids and the ways of drawing from it. */
module PublicIds {
  import opened Outcomes
  import opened Sequences
  import opened Base62

  type Id = string

  /**
  issued: the ledger.   live: ids of permanent objects not deleted.   log: every id handed out through
  the ledger, in order.   drawn: ids handed out to other objects, which no ledger knows, in order.
  */
  datatype State = State(issued: map<Id, string>, live: set<Id>, log: seq<Id>, drawn: seq<Id>)

  const MAX_ATTEMPTS := 20

  function FirstFree(issued: map<Id, string>, prefix: string, draws: seq<nat>): (id: Option<Id>)
    ensures id.Some? ==> id.value !in issued
  {
    if draws == [] then None
    else if Candidate(prefix, draws[0]) !in issued then Some(Candidate(prefix, draws[0]))
    else FirstFree(issued, prefix, draws[1..])
  }

  /** The candidate of the first draw that is not in the ledger; none if all are. */
  lemma {:induction false} FirstFreeAt(issued: map<Id, string>, prefix: string, draws: seq<nat>) returns (k: nat)
    ensures k <= |draws| && forall i :: 0 <= i < k ==> Candidate(prefix, draws[i]) in issued
    ensures k < |draws| ==> Candidate(prefix, draws[k]) !in issued
    ensures FirstFree(issued, prefix, draws) == if k < |draws| then Some(Candidate(prefix, draws[k])) else None
    decreases |draws|
  {
    k := 0;
    if draws != [] && Candidate(prefix, draws[0]) in issued {
      k := FirstFreeAt(issued, prefix, draws[1..]);
      forall i | 0 <= i < k + 1 ensures Candidate(prefix, draws[i]) in issued {
        if i > 0 { assert draws[i] == draws[1..][i - 1]; }
      }
      k := k + 1;
    }
  }

  function Candidates(prefix: string, draws: seq<nat>): seq<Id> {
    seq(|draws|, k requires 0 <= k < |draws| => Candidate(prefix, draws[k]))
  }

  /** A bulk insert of rows with unique keys fails as a whole on any repetition. */
  predicate BulkFits(keys: set<Id>, ids: seq<Id>) {
    Distinct(ids) && forall id :: id in ids ==> id !in keys
  }

  datatype Op =
    | Reserve(prefix: string, modelLabel: string, draws: seq<nat>)
    | BulkCreate(prefix: string, modelLabel: string, draws: seq<nat>)
    | DeleteObject(id: Id)
    | Draw(prefix: string, draw: nat)

  function Issue(s: State, ids: seq<Id>, modelLabel: string): State {
    State(s.issued + (map id | id in ids :: modelLabel), s.live + ToSet(ids), s.log + ids, s.drawn)
  }

  function Attempts(draws: seq<nat>): seq<nat> {
    if |draws| <= MAX_ATTEMPTS then draws else draws[..MAX_ATTEMPTS]
  }

  function Apply(s: State, op: Op): State {
    match op
    case Reserve(prefix, modelLabel, draws) =>
      var id := FirstFree(s.issued, prefix, Attempts(draws));
      if id.Some? then Issue(s, [id.value], modelLabel) else s
    case BulkCreate(prefix, modelLabel, draws) =>
      var ids := Candidates(prefix, draws);
      if BulkFits(s.issued.Keys, ids) then Issue(s, ids, modelLabel) else s
    case DeleteObject(id) => s.(live := s.live - {id})
    case Draw(prefix, draw) => s.(drawn := s.drawn + [Candidate(prefix, draw)])
  }

  ghost predicate IsRun(run: seq<State>, ops: seq<Op>) {
    && |run| == |ops| + 1
    && Inv(run[0])
    && forall k :: 0 <= k < |ops| ==> run[k + 1] == Apply(run[k], ops[k])
  }

  ghost predicate Inv(s: State) {
    && Distinct(s.log)
    && (forall id :: id in s.log <==> id in s.issued)
    && s.live <= s.issued.Keys
  }

  lemma IssueKeepsInv(s: State, ids: seq<Id>, modelLabel: string)
    requires Inv(s) && BulkFits(s.issued.Keys, ids)
    ensures Inv(Issue(s, ids, modelLabel))
  {
    var log := s.log + ids;
    forall i, j | 0 <= i < j < |log| ensures log[i] != log[j] {
      assert i < |s.log| ==> log[i] in s.log;
      assert j >= |s.log| ==> log[j] in ids;
    }
  }

  lemma StepKeepsInv(s: State, op: Op)
    requires Inv(s)
    ensures Inv(Apply(s, op)) && s.log <= Apply(s, op).log
  {
    match op
    case Reserve(prefix, modelLabel, draws) =>
      var id := FirstFree(s.issued, prefix, Attempts(draws));
      if id.Some? { IssueKeepsInv(s, [id.value], modelLabel); }
    case BulkCreate(prefix, modelLabel, draws) =>
      var ids := Candidates(prefix, draws);
      if BulkFits(s.issued.Keys, ids) { IssueKeepsInv(s, ids, modelLabel); }
    case DeleteObject(_) =>
    case Draw(_, _) =>
  }

  lemma {:induction false} InvAlways(run: seq<State>, ops: seq<Op>, k: nat)
    requires IsRun(run, ops) && k <= |ops|
    ensures Inv(run[k])
  {
    if k > 0 {
      InvAlways(run, ops, k - 1);
      StepKeepsInv(run[k - 1], ops[k - 1]);
    }
  }

  lemma StepGrows(run: seq<State>, ops: seq<Op>, k: nat)
    requires IsRun(run, ops) && k < |ops|
    ensures run[k].log <= run[k + 1].log
  {
    InvAlways(run, ops, k);
    StepKeepsInv(run[k], ops[k]);
  }

  lemma {:induction false} LedgerGrows(run: seq<State>, ops: seq<Op>, i: nat, j: nat)
    requires IsRun(run, ops) && i <= j <= |ops|
    ensures run[i].log <= run[j].log
    decreases j
  {
    if i < j {
      LedgerGrows(run, ops, i, j - 1);
      StepGrows(run, ops, j - 1);
    }
  }

  /**
  An id in the ledger at any moment is never handed out afterwards, whatever was deleted since,
  and across the run no id was handed out twice, whatever the prefixes.
  */
  lemma NeverReissued(run: seq<State>, ops: seq<Op>, i: nat, j: nat, id: Id, at: nat)
    requires IsRun(run, ops) && i <= j <= |ops| && id in run[i].issued
    requires |run[i].log| <= at < |run[j].log|
    ensures run[j].log[at] != id && id in run[j].issued && Distinct(run[j].log)
  {
    LedgerGrows(run, ops, i, j);
    InvAlways(run, ops, i);
    InvAlways(run, ops, j);
    var k :| 0 <= k < |run[i].log| && run[i].log[k] == id;
    assert run[j].log[k] == id;
  }

  /** A reservation hands out the first free candidate of its first twenty draws, or nothing. */
  lemma ReserveExactly(s: State, prefix: string, modelLabel: string, draws: seq<nat>) returns (k: nat)
    ensures k <= |draws| && k <= 20 && forall i :: 0 <= i < k ==> Candidate(prefix, draws[i]) in s.issued
    ensures var d := Apply(s, Reserve(prefix, modelLabel, draws));
            if k < |draws| && k < 20 then
              var id := Candidate(prefix, draws[k]);
              && id !in s.issued && d.issued == s.issued[id := modelLabel]
              && d.log == s.log + [id] && d.live == s.live + {id} && d.drawn == s.drawn
            else d == s
  {
    k := FirstFreeAt(s.issued, prefix, Attempts(draws));
    assert k < |Attempts(draws)| ==> Attempts(draws)[k] == draws[k];
    assert forall i :: 0 <= i < k ==> Attempts(draws)[i] == draws[i];
  }

  lemma {:induction false} NotLiveAgain(run: seq<State>, ops: seq<Op>, i: nat, j: nat, id: Id)
    requires IsRun(run, ops) && i <= j <= |ops| && id in run[i].issued && id !in run[i].live
    ensures id in run[j].issued && id !in run[j].live
    decreases j
  {
    if i < j {
      NotLiveAgain(run, ops, i, j - 1, id);
      StepLives(run[j - 1], ops[j - 1], id);
    }
  }

  /** An id comes to life exactly with its ledger row, and dies exactly when its object is deleted. */
  lemma StepLives(s: State, op: Op, id: Id)
    ensures s.issued.Keys <= Apply(s, op).issued.Keys
    ensures id in s.issued ==> (id in Apply(s, op).live <==> id in s.live && op != DeleteObject(id))
    ensures id !in s.issued && id !in s.live ==> (id in Apply(s, op).live <==> id in Apply(s, op).issued)
  {
    if op.Reserve? { var k := ReserveExactly(s, op.prefix, op.modelLabel, op.draws); }
  }

  /** The id of a deleted object never belongs to an object again. */
  lemma DeletedForGood(run: seq<State>, ops: seq<Op>, m: nat, k: nat, id: Id)
    requires IsRun(run, ops) && m < k <= |ops| && id in run[m].issued && ops[m] == DeleteObject(id)
    ensures id in run[k].issued && id !in run[k].live
  {
    NotLiveAgain(run, ops, m + 1, k, id);
  }

  // ---- Ids without a ledger row ----

  /** No id was ever handed out twice, with or without the ledger. */
  ghost predicate AllDifferent(s: State) {
    Distinct(s.log + s.drawn)
  }

  /** A draw that hits any id handed out before, or a ledger entry for an id that was drawn. */
  predicate Repeats(s: State, op: Op) {
    match op
    case Reserve(prefix, _, draws) =>
      var id := FirstFree(s.issued, prefix, Attempts(draws));
      id.Some? && id.value in s.drawn
    case BulkCreate(prefix, _, draws) =>
      var ids := Candidates(prefix, draws);
      BulkFits(s.issued.Keys, ids) && exists id :: id in ids && id in s.drawn
    case DeleteObject(_) => false
    case Draw(prefix, draw) => Candidate(prefix, draw) in s.issued || Candidate(prefix, draw) in s.drawn
  }

  lemma DistinctParts(a: seq<Id>, b: seq<Id>)
    ensures Distinct(a + b) <==> Distinct(a) && Distinct(b) && forall id :: id in b ==> id !in a
  {
    var c := a + b;
    if Distinct(c) {
      forall i, j | 0 <= i < j < |a| ensures a[i] != a[j] {
        assert c[i] == a[i] && c[j] == a[j];
      }
      forall i, j | 0 <= i < j < |b| ensures b[i] != b[j] {
        assert c[|a| + i] == b[i] && c[|a| + j] == b[j];
      }
      forall id | id in b ensures id !in a {
        var j :| 0 <= j < |b| && b[j] == id;
        assert c[|a| + j] == id;
        assert forall i :: 0 <= i < |a| ==> c[i] == a[i] && c[i] != c[|a| + j];
      }
    }
    if Distinct(a) && Distinct(b) && forall id :: id in b ==> id !in a {
      forall i, j | 0 <= i < j < |c| ensures c[i] != c[j] {
        assert i < |a| ==> c[i] in a;
        assert j >= |a| ==> c[j] in b;
      }
    }
  }

  lemma DrawnRepeats(s: State, id: Id)
    requires Inv(s)
    ensures Distinct(s.log + (s.drawn + [id])) <==> AllDifferent(s) && id !in s.issued && id !in s.drawn
  {
    DistinctParts(s.log, s.drawn);
    DistinctParts(s.log, s.drawn + [id]);
    DistinctSnoc(s.drawn, id);
    assert forall other :: other in s.drawn + [id] <==> other in s.drawn || other == id;
  }

  lemma IssuedRepeats(s: State, ids: seq<Id>)
    requires Inv(s) && BulkFits(s.issued.Keys, ids)
    ensures Distinct((s.log + ids) + s.drawn) <==> AllDifferent(s) && !exists id :: id in ids && id in s.drawn
  {
    DistinctParts(s.log, s.drawn);
    DistinctParts(s.log, ids);
    DistinctParts(s.log + ids, s.drawn);
    assert forall other :: other in s.log + ids <==> other in s.log || other in ids;
  }

  lemma StepRepeats(s: State, op: Op)
    requires Inv(s)
    ensures AllDifferent(Apply(s, op)) <==> AllDifferent(s) && !Repeats(s, op)
  {
    match op
    case Reserve(prefix, _, draws) =>
      var id := FirstFree(s.issued, prefix, Attempts(draws));
      if id.Some? {
        IssuedRepeats(s, [id.value]);
      }
    case BulkCreate(prefix, _, draws) =>
      if BulkFits(s.issued.Keys, Candidates(prefix, draws)) {
        IssuedRepeats(s, Candidates(prefix, draws));
      }
    case DeleteObject(_) =>
    case Draw(prefix, draw) => DrawnRepeats(s, Candidate(prefix, draw));
  }

  ghost predicate NoRepeatBefore(run: seq<State>, ops: seq<Op>, k: nat)
    requires k <= |ops| < |run|
  {
    forall m :: 0 <= m < k ==> !Repeats(run[m], ops[m])
  }

  lemma NoRepeatNext(run: seq<State>, ops: seq<Op>, k: nat)
    requires k < |ops| < |run|
    ensures NoRepeatBefore(run, ops, k + 1) <==> NoRepeatBefore(run, ops, k) && !Repeats(run[k], ops[k])
  {
  }

  /**
  Over any run, all ids handed out differ exactly if no draw without a ledger row hit an id handed
  out before, and the ledger took no id that had been drawn: it does not look there.
  */
  lemma {:induction false} AllDifferentExactly(run: seq<State>, ops: seq<Op>, k: nat)
    requires IsRun(run, ops) && k <= |ops|
    ensures AllDifferent(run[k]) <==> AllDifferent(run[0]) && NoRepeatBefore(run, ops, k)
  {
    if k > 0 {
      AllDifferentExactly(run, ops, k - 1);
      InvAlways(run, ops, k - 1);
      StepRepeats(run[k - 1], ops[k - 1]);
      NoRepeatNext(run, ops, k - 1);
    }
  }

  /** Drawn first, an id can still be reserved; reserved first, it can still be drawn. */
  lemma DrawnIdIsReissued(prefix: string, modelLabel: string, u: nat) returns (run: seq<State>, ops: seq<Op>)
    ensures IsRun(run, ops) && ops == [Draw(prefix, u), Reserve(prefix, modelLabel, [u]), Draw(prefix, u)]
    ensures run[0] == State(map[], {}, [], []) && Repeats(run[1], ops[1]) && Repeats(run[2], ops[2])
    ensures run[3].log == [Candidate(prefix, u)] && run[3].drawn == [Candidate(prefix, u), Candidate(prefix, u)]
  {
    var id := Candidate(prefix, u);
    var empty := State(map[], {}, [], []);
    ops := [Draw(prefix, u), Reserve(prefix, modelLabel, [u]), Draw(prefix, u)];
    var first := Apply(empty, ops[0]);
    assert FirstFree(first.issued, prefix, [u]) == Some(id);
    var second := Apply(first, ops[1]);
    run := [empty, first, second, Apply(second, ops[2])];
  }

  // ---- The services ----

  datatype Failure = ReservationFailed | MissingPrefix | DuplicateRow

  /** What the services look at in an object. */
  datatype Wanted = Wanted(prefix: string, modelLabel: string, permanent: bool, publicId: Option<Id>)

  /** A first id: the ledger's first free candidate, with its row, or one drawn beside the ledger. */
  function Given(issued: map<Id, string>, w: Wanted, draws: seq<nat>): Result<(Id, map<Id, string>), Failure>
    requires |draws| > 0
  {
    if !w.permanent then Ok((Candidate(w.prefix, draws[0]), issued))
    else
      var id := FirstFree(issued, w.prefix, draws);
      if id.Some? then Ok((id.value, issued[id.value := w.modelLabel])) else Err(ReservationFailed)
  }

  /** A single object that is saved must have a prefix. */
  function Ensured(issued: map<Id, string>, w: Wanted, draws: seq<nat>): Result<(Id, map<Id, string>), Failure>
    requires |draws| > 0
  {
    if w.prefix == "" then Err(MissingPrefix) else Given(issued, w, draws)
  }

  /**
  Saving an object gives it an id beginning with its prefix: new and in the ledger if it is permanent,
  whatever was drawn otherwise. It fails exactly without a prefix, or if every attempt hits the ledger.
  */
  lemma EnsuredExactly(issued: map<Id, string>, w: Wanted, draws: seq<nat>)
    requires |draws| > 0
    ensures var result := Ensured(issued, w, draws);
            var taken := w.permanent && forall k :: 0 <= k < |draws| ==> Candidate(w.prefix, draws[k]) in issued;
            && (result == Err(MissingPrefix) <==> w.prefix == "")
            && (result == Err(ReservationFailed) <==> w.prefix != "" && taken)
            && (result.Ok? <==> w.prefix != "" && !taken)
            && (result.Ok? ==> w.prefix <= result.value.0 && exists k :: 0 <= k < |draws| && result.value.0 == Candidate(w.prefix, draws[k]))
            && (result.Ok? && w.permanent ==> result.value.0 !in issued && result.value.1 == issued[result.value.0 := w.modelLabel])
            && (result.Ok? && !w.permanent ==> result.value == (Candidate(w.prefix, draws[0]), issued))
  {
    var k := FirstFreeAt(issued, w.prefix, draws);
  }

  datatype Generation = Generation(issued: map<Id, string>, ids: seq<Option<Id>>, failure: Option<Failure>)

  /** One more object: it gets an id if it has none and nothing has failed yet. */
  function GiveNext(g: Generation, w: Wanted, draws: seq<nat>): Generation
    requires |draws| > 0
  {
    if g.failure.Some? || w.publicId.Some? then g.(ids := g.ids + [w.publicId])
    else match Given(g.issued, w, draws)
      case Ok((id, after)) => Generation(after, g.ids + [Some(id)], None)
      case Err(e) => Generation(g.issued, g.ids + [None], Some(e))
  }

  /** Every object has its attempts. */
  predicate Supplied(wanted: seq<Wanted>, draws: seq<seq<nat>>) {
    |wanted| == |draws| && forall i :: 0 <= i < |draws| ==> |draws[i]| == MAX_ATTEMPTS
  }

  function ResultOf(g: Generation): Result<(), Failure> {
    if g.failure.Some? then Err(g.failure.value) else Ok(())
  }

  /** The first n objects, one after the other. */
  function Generate(issued: map<Id, string>, wanted: seq<Wanted>, draws: seq<seq<nat>>, n: nat): (g: Generation)
    requires n <= |wanted| && Supplied(wanted, draws)
    ensures |g.ids| == n
  {
    if n == 0 then Generation(issued, [], None)
    else GiveNext(Generate(issued, wanted, draws, n - 1), wanted[n - 1], draws[n - 1])
  }

  /** Nothing follows from a failure. */
  lemma {:induction false} FailureEnds(issued: map<Id, string>, wanted: seq<Wanted>, draws: seq<seq<nat>>, m: nat, n: nat)
    requires m <= n <= |wanted| && Supplied(wanted, draws)
    requires Generate(issued, wanted, draws, m).failure.Some?
    ensures var g, h := Generate(issued, wanted, draws, m), Generate(issued, wanted, draws, n);
            && h.issued == g.issued && h.failure == g.failure
            && forall i :: 0 <= i < n ==> h.ids[i] == if i < m then g.ids[i] else wanted[i].publicId
  {
    if m < n { FailureEnds(issued, wanted, draws, m, n - 1); }
  }

  lemma GivenIsNew(issued: map<Id, string>, w: Wanted, draws: seq<nat>)
    requires |draws| > 0 && Given(issued, w, draws).Ok?
    ensures var (id, after) := Given(issued, w, draws).value;
            if w.permanent then id !in issued && after == issued[id := w.modelLabel] else after == issued
  {
  }

  predicate GivenTo(wanted: seq<Wanted>, g: Generation, i: nat) {
    i < |g.ids| <= |wanted| && wanted[i].publicId.None? && wanted[i].permanent && g.ids[i].Some?
  }

  /** Ids already there stay; the permanent ones given are new to the ledger, in it afterwards, and distinct. */
  ghost predicate FreshIds(issued: map<Id, string>, wanted: seq<Wanted>, g: Generation) {
    && |g.ids| <= |wanted| && issued.Keys <= g.issued.Keys
    && (forall i :: 0 <= i < |g.ids| && wanted[i].publicId.Some? ==> g.ids[i] == wanted[i].publicId)
    && (g.failure.None? ==> forall i :: 0 <= i < |g.ids| ==> g.ids[i].Some?)
    && (forall i: nat :: GivenTo(wanted, g, i) ==>
          g.ids[i].value !in issued && g.ids[i].value in g.issued && g.issued[g.ids[i].value] == wanted[i].modelLabel)
    && (forall i: nat, j: nat :: i < j && GivenTo(wanted, g, i) && GivenTo(wanted, g, j) ==> g.ids[i] != g.ids[j])
  }

  lemma FreshAppend(issued: map<Id, string>, wanted: seq<Wanted>, g: Generation, id: Option<Id>, d: Generation)
    requires FreshIds(issued, wanted, g) && |g.ids| < |wanted| && d.ids == g.ids + [id]
    requires d.issued == g.issued && (d.failure.None? ==> g.failure.None? && id.Some?)
    requires wanted[|g.ids|].publicId.Some? ==> id == wanted[|g.ids|].publicId
    requires id.Some? ==> wanted[|g.ids|].publicId.Some? || !wanted[|g.ids|].permanent
    ensures FreshIds(issued, wanted, d)
  {
    assert forall i: nat :: GivenTo(wanted, d, i) ==> GivenTo(wanted, g, i) && d.ids[i] == g.ids[i];
  }

  lemma FreshReserved(issued: map<Id, string>, wanted: seq<Wanted>, g: Generation, id: Id, d: Generation)
    requires FreshIds(issued, wanted, g) && |g.ids| < |wanted| && g.failure.None? && id !in g.issued
    requires wanted[|g.ids|].publicId.None? && wanted[|g.ids|].permanent
    requires d == Generation(g.issued[id := wanted[|g.ids|].modelLabel], g.ids + [Some(id)], None)
    ensures FreshIds(issued, wanted, d)
  {
    assert forall i: nat :: GivenTo(wanted, d, i) && i < |g.ids| ==> GivenTo(wanted, g, i) && d.ids[i] == g.ids[i];
  }

  lemma {:induction false} GenerateIsFresh(issued: map<Id, string>, wanted: seq<Wanted>, draws: seq<seq<nat>>, n: nat)
    requires n <= |wanted| && Supplied(wanted, draws)
    ensures FreshIds(issued, wanted, Generate(issued, wanted, draws, n))
  {
    if n > 0 {
      GenerateIsFresh(issued, wanted, draws, n - 1);
      FreshNext(issued, wanted, Generate(issued, wanted, draws, n - 1), draws[n - 1]);
    }
  }

  lemma FreshNext(issued: map<Id, string>, wanted: seq<Wanted>, g: Generation, draws: seq<nat>)
    requires FreshIds(issued, wanted, g) && |g.ids| < |wanted| && |draws| > 0
    ensures FreshIds(issued, wanted, GiveNext(g, wanted[|g.ids|], draws))
  {
    var w := wanted[|g.ids|];
    var d := GiveNext(g, w, draws);
    if g.failure.None? && w.publicId.None? && Given(g.issued, w, draws).Ok? {
      GivenIsNew(g.issued, w, draws);
      var (id, after) := Given(g.issued, w, draws).value;
      if w.permanent { FreshReserved(issued, wanted, g, id, d); } else { FreshAppend(issued, wanted, g, Some(id), d); }
    } else {
      FreshAppend(issued, wanted, g, w.publicId, d);
    }
  }

  /** The ids drawn for objects that have none, in order. */
  function DrawnFor(ids: seq<Option<Id>>, prefix: string, draws: seq<nat>, n: nat): seq<Id>
    requires n <= |ids| == |draws|
  {
    if n == 0 then []
    else DrawnFor(ids, prefix, draws, n - 1) + if ids[n - 1].None? then [Candidate(prefix, draws[n - 1])] else []
  }

  function FinalId(ids: seq<Option<Id>>, prefix: string, draws: seq<nat>, i: nat): Id
    requires i < |ids| == |draws|
  {
    if ids[i].Some? then ids[i].value else Candidate(prefix, draws[i])
  }

  /** The ids all objects have in the end. */
  function Completed(ids: seq<Option<Id>>, prefix: string, draws: seq<nat>): seq<Id>
    requires |ids| == |draws|
  {
    seq(|ids|, i requires 0 <= i < |ids| => FinalId(ids, prefix, draws, i))
  }

  function Absent(ids: seq<Option<Id>>, n: nat): nat
    requires n <= |ids|
  {
    if n == 0 then 0 else Absent(ids, n - 1) + if ids[n - 1].None? then 1 else 0
  }

  /** As many ids are drawn as objects lack one, and each of these gets its own, in order. */
  lemma {:induction false} DrawnExactly(ids: seq<Option<Id>>, prefix: string, draws: seq<nat>, n: nat)
    requires n <= |ids| == |draws|
    ensures |DrawnFor(ids, prefix, draws, n)| == Absent(ids, n)
    ensures forall i :: 0 <= i < n && ids[i].None? ==>
              && Absent(ids, i) < Absent(ids, n) && DrawnFor(ids, prefix, draws, n)[Absent(ids, i)] == Candidate(prefix, draws[i])
              && FinalId(ids, prefix, draws, i) == Candidate(prefix, draws[i])
    ensures forall i :: 0 <= i < n && ids[i].Some? ==> FinalId(ids, prefix, draws, i) == ids[i].value
  {
    if n > 0 {
      DrawnExactly(ids, prefix, draws, n - 1);
    }
  }

  class PublicObject {
    const prefix: string
    const modelLabel: string
    const permanent: bool
    var publicId: Option<Id>

    constructor (prefix: string, modelLabel: string, permanent: bool, publicId: Option<Id>)
      ensures this.prefix == prefix && this.modelLabel == modelLabel && this.permanent == permanent
      ensures this.publicId == publicId
    {
      this.prefix, this.modelLabel, this.permanent, this.publicId := prefix, modelLabel, permanent, publicId;
    }

    function View(): Wanted
      reads this
    {
      Wanted(prefix, modelLabel, permanent, publicId)
    }
  }

  /** The table of one model; its public ids are unique. */
  class PublicTable {
    const prefix: string
    const modelLabel: string
    var rows: set<Id>

    constructor (prefix: string, modelLabel: string)
      ensures this.prefix == prefix && this.modelLabel == modelLabel && rows == {}
    {
      this.prefix, this.modelLabel, rows := prefix, modelLabel, {};
    }

    method InsertAll(ids: seq<Id>) returns (ok: bool)
      modifies this
      ensures ok <==> BulkFits(old(rows), ids)
      ensures rows == if ok then old(rows) + ToSet(ids) else old(rows)
    {
      ok := BulkFits(rows, ids);
      if ok {
        rows := rows + ToSet(ids);
      }
    }
  }

  /** The ids of objects that all have one. */
  function IdsOf(objs: seq<PublicObject>): seq<Id>
    reads objs
    requires forall i :: 0 <= i < |objs| ==> objs[i].publicId.Some?
  {
    seq(|objs|, i requires 0 <= i < |objs| && objs[i].publicId.Some? reads objs => objs[i].publicId.value)
  }

  /** The objects are of the kinds listed. */
  ghost predicate OfKinds(objs: seq<PublicObject>, wanted: seq<Wanted>) {
    && |objs| == |wanted|
    && forall i :: 0 <= i < |objs| ==>
         objs[i].prefix == wanted[i].prefix && objs[i].modelLabel == wanted[i].modelLabel && objs[i].permanent == wanted[i].permanent
  }

  /** The first objects have the given ids, the others those they are listed with. */
  ghost predicate HaveIds(objs: seq<PublicObject>, ids: seq<Option<Id>>, wanted: seq<Wanted>)
    reads objs
  {
    && |ids| <= |objs| == |wanted|
    && forall i :: 0 <= i < |objs| ==> objs[i].publicId == if i < |ids| then ids[i] else wanted[i].publicId
  }

  lemma StoppedThere(objs: seq<PublicObject>, issued: map<Id, string>, wanted: seq<Wanted>, draws: seq<seq<nat>>, n: nat)
    requires n <= |wanted| == |objs| && Supplied(wanted, draws)
    requires Generate(issued, wanted, draws, n).failure.Some? && HaveIds(objs, Generate(issued, wanted, draws, n).ids, wanted)
    ensures var g, h := Generate(issued, wanted, draws, n), Generate(issued, wanted, draws, |objs|);
            h.issued == g.issued && h.failure == g.failure && HaveIds(objs, h.ids, wanted)
  {
    FailureEnds(issued, wanted, draws, n, |objs|);
  }

  ghost predicate Carry(objs: seq<PublicObject>, ids: seq<Option<Id>>)
    reads objs
  {
    |ids| == |objs| && forall i :: 0 <= i < |objs| ==> objs[i].publicId == ids[i]
  }

  class Registry {
    var issued: map<Id, string>

    constructor ()
      ensures issued == map[]
    {
      issued := map[];
    }

    /** `draws` are the random values of the successive attempts. */
    method ReservePublicId(prefix: string, modelLabel: string, draws: seq<nat>) returns (r: Result<Id, Failure>)
      requires |draws| == MAX_ATTEMPTS
      modifies this
      ensures var free := FirstFree(old(issued), prefix, draws);
              if free.Some? then r == Ok(free.value) && issued == old(issued)[free.value := modelLabel]
              else r == Err(ReservationFailed) && issued == old(issued)
    {
      for k := 0 to MAX_ATTEMPTS
        invariant issued == old(issued)
        invariant FirstFree(old(issued), prefix, draws) == FirstFree(old(issued), prefix, draws[k..])
      {
        var candidate := GeneratePrefixedId(prefix, draws[k]);
        if candidate !in issued {
          issued := issued[candidate := modelLabel];
          return Ok(candidate);
        }
      }
      return Err(ReservationFailed);
    }

    method AssignPublicId(obj: PublicObject, draws: seq<nat>) returns (r: Result<(), Failure>)
      requires |draws| == MAX_ATTEMPTS && obj.publicId.None?
      modifies this, obj
      ensures match Given(old(issued), old(obj.View()), draws)
              case Ok((id, after)) => r == Ok(()) && obj.publicId == Some(id) && issued == after
              case Err(e) => r == Err(e) && obj.publicId == None && issued == old(issued)
    {
      if obj.permanent {
        var id := ReservePublicId(obj.prefix, obj.modelLabel, draws);
        if id.Err? {
          return Err(id.error);
        }
        obj.publicId := Some(id.value);
      } else {
        var id := GeneratePrefixedId(obj.prefix, draws[0]);
        obj.publicId := Some(id);
      }
      return Ok(());
    }

    /** `ensure_public_id`: an id once set is never replaced. */
    method EnsurePublicId(obj: PublicObject, draws: seq<nat>) returns (r: Result<(), Failure>)
      requires |draws| == MAX_ATTEMPTS
      modifies this, obj
      ensures old(obj.publicId).Some? ==> r == Ok(()) && obj.publicId == old(obj.publicId) && issued == old(issued)
      ensures old(obj.publicId).None? ==>
                match Ensured(old(issued), old(obj.View()), draws)
                case Ok((id, after)) => r == Ok(()) && obj.publicId == Some(id) && issued == after
                case Err(e) => r == Err(e) && obj.publicId == None && issued == old(issued)
    {
      if obj.publicId.Some? {
        return Ok(());
      }
      if obj.prefix == "" {
        return Err(MissingPrefix);
      }
      r := AssignPublicId(obj, draws);
    }

    /**
    `generate_public_ids`; an exhausted reservation stops it, keeping the ids given so far. `wanted`
    lists the objects as they are before.
    */
    method GeneratePublicIds(objs: seq<PublicObject>, draws: seq<seq<nat>>, ghost wanted: seq<Wanted>)
      returns (r: Result<(), Failure>)
      requires OfKinds(objs, wanted) && HaveIds(objs, [], wanted) && Supplied(wanted, draws)
      requires forall i, j :: 0 <= i < j < |objs| ==> objs[i] != objs[j]
      modifies this, objs
      ensures Reached(Generate(old(issued), wanted, draws, |objs|), objs, wanted)
      ensures r == ResultOf(Generate(old(issued), wanted, draws, |objs|))
    {
      var n := 0;
      r := Ok(());
      while n < |objs| && r.Ok?
        invariant n <= |objs|
        invariant Reached(Generate(old(issued), wanted, draws, n), objs, wanted)
        invariant r == ResultOf(Generate(old(issued), wanted, draws, n))
      {
        r := AssignMissing(objs, n, draws, old(issued), wanted);
        n := n + 1;
      }
      if r.Err? {
        StoppedThere(objs, old(issued), wanted, draws, n);
      }
    }

    /** The ledger and the objects are as the specification has them. */
    ghost predicate Reached(g: Generation, objs: seq<PublicObject>, wanted: seq<Wanted>)
      reads this, objs
    {
      issued == g.issued && HaveIds(objs, g.ids, wanted)
    }

    /** The loop's body: object n gets an id if it has none. */
    method AssignMissing(objs: seq<PublicObject>, n: nat, draws: seq<seq<nat>>, ghost start: map<Id, string>,
                         ghost wanted: seq<Wanted>)
      returns (r: Result<(), Failure>)
      requires n < |objs| && OfKinds(objs, wanted) && Supplied(wanted, draws)
      requires forall i, j :: 0 <= i < j < |objs| ==> objs[i] != objs[j]
      requires Reached(Generate(start, wanted, draws, n), objs, wanted) && ResultOf(Generate(start, wanted, draws, n)).Ok?
      modifies this, objs[n]
      ensures Reached(Generate(start, wanted, draws, n + 1), objs, wanted)
      ensures r == ResultOf(Generate(start, wanted, draws, n + 1))
    {
      var obj := objs[n];
      assert obj.View() == wanted[n];
      r := Ok(());
      if obj.publicId.None? {
        r := AssignPublicId(obj, draws[n]);
      }
    }

    /** Objects without an id get one drawn, not checked against anything; `drawn` are the new ids. */
    method DrawMissing(objs: seq<PublicObject>, prefix: string, draws: seq<nat>, ghost ids: seq<Option<Id>>)
      returns (drawn: seq<Id>)
      requires Carry(objs, ids) && |draws| == |objs| && forall i, j :: 0 <= i < j < |objs| ==> objs[i] != objs[j]
      modifies objs
      ensures forall i :: 0 <= i < |objs| ==> objs[i].publicId == Some(FinalId(ids, prefix, draws, i))
      ensures drawn == DrawnFor(ids, prefix, draws, |objs|)
    {
      drawn := [];
      for n := 0 to |objs|
        invariant forall i :: 0 <= i < n ==> objs[i].publicId == Some(FinalId(ids, prefix, draws, i))
        invariant forall i :: n <= i < |objs| ==> objs[i].publicId == ids[i]
        invariant drawn == DrawnFor(ids, prefix, draws, n)
      {
        if objs[n].publicId.None? {
          var id := GeneratePrefixedId(prefix, draws[n]);
          objs[n].publicId := Some(id);
          drawn := drawn + [id];
        }
      }
    }

    /** Ledger rows for all ids, or none. */
    method RegisterAll(ids: seq<Id>, modelLabel: string) returns (ok: bool)
      modifies this
      ensures ok <==> BulkFits(old(issued.Keys), ids)
      ensures issued == if ok then old(issued) + (map id | id in ids :: modelLabel) else old(issued)
    {
      ok := BulkFits(issued.Keys, ids);
      if ok {
        issued := issued + (map id | id in ids :: modelLabel);
      }
    }

    /**
    The manager's `bulk_create`: the drawn ids enter the ledger all or none, then the objects enter
    their table all or none; ledger rows stay even if the objects are refused. `ids` are the objects' before.
    */
    method BulkCreate(table: PublicTable, objs: seq<PublicObject>, draws: seq<nat>, ghost ids: seq<Option<Id>>)
      returns (r: Result<(), Failure>, drawn: seq<Id>)
      requires Carry(objs, ids) && |draws| == |objs| && forall i, j :: 0 <= i < j < |objs| ==> objs[i] != objs[j]
      modifies this, table, objs
      ensures forall i :: 0 <= i < |objs| ==> objs[i].publicId == Some(FinalId(ids, table.prefix, draws, i))
      ensures drawn == DrawnFor(ids, table.prefix, draws, |objs|)
      ensures issued == if BulkFits(old(issued.Keys), drawn) then old(issued) + (map id | id in drawn :: table.modelLabel)
                        else old(issued)
      ensures r == if BulkFits(old(issued.Keys), drawn) && BulkFits(old(table.rows), Completed(ids, table.prefix, draws))
                   then Ok(()) else Err(DuplicateRow)
      ensures table.rows == if r.Ok? then old(table.rows) + ToSet(Completed(ids, table.prefix, draws)) else old(table.rows)
    {
      drawn := DrawMissing(objs, table.prefix, draws, ids);
      var registered := RegisterAll(drawn, table.modelLabel);
      if !registered {
        return Err(DuplicateRow), drawn;
      }
      assert IdsOf(objs) == Completed(ids, table.prefix, draws);
      var stored := table.InsertAll(IdsOf(objs));
      r := if stored then Ok(()) else Err(DuplicateRow);
    }
  }
}
