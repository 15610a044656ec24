/**
One call of `UserScopeCacheService.get_generation` or `invalidate_user`, seen as a sequence of
atomic operations on the user's generation key.

`CallStep` is what one backend operation of `get_generation` does. The interleaving model in
`ScopeProtocol` and the methods of `GenerationKey` are both built on it.
*/
module GenerationCall {
  import opened Outcomes

  type Token = nat

  /** Where a `get_generation` call stands: the next backend operation, or the token returned. */
  datatype Call =
    | Reading
    | Adding(candidate: Token)
    | Rereading(candidate: Token)
    | Falling(candidate: Token)
    | Returned(token: Token)

  /** `drawn` is the uuid drawn when the first read finds nothing; other operations ignore it. */
  function CallStep(slot: Option<Token>, call: Call, drawn: Token): (Option<Token>, Call)
    requires !call.Returned?
  {
    match call
    case Reading =>
      if slot.Some? then (slot, Returned(slot.value)) else (slot, Adding(drawn))
    case Adding(c) =>
      if slot.None? then (Some(c), Returned(c)) else (slot, Rereading(c))
    case Rereading(c) =>
      if slot.Some? then (slot, Returned(slot.value)) else (slot, Falling(c))
    case Falling(c) => (Some(c), Returned(c))
  }

  /** What another worker or the cache server may do to the key between two operations. */
  datatype Disturbance = Evicted | Created(token: Token) | Overwritten(token: Token)

  function Disturb(slot: Option<Token>, d: Disturbance): Option<Token> {
    match d
    case Evicted => None
    case Created(t) => if slot.None? then Some(t) else slot
    case Overwritten(t) => Some(t)
  }

  function DisturbAll(slot: Option<Token>, ds: seq<Disturbance>): Option<Token>
    decreases |ds|
  {
    if ds == [] then slot else DisturbAll(Disturb(slot, ds[0]), ds[1..])
  }

  lemma {:induction false} DisturbAllSnoc(slot: Option<Token>, ds: seq<Disturbance>, n: nat)
    requires n < |ds|
    ensures DisturbAll(slot, ds[..n + 1]) == Disturb(DisturbAll(slot, ds[..n]), ds[n])
    decreases n
  {
    if n > 0 {
      assert ds[..n + 1][1..] == ds[1..][..n];
      assert ds[..n][1..] == ds[1..][..n - 1];
      DisturbAllSnoc(Disturb(slot, ds[0]), ds[1..], n - 1);
    }
  }

  /**
  A whole call with the given disturbances in the gaps between its operations. The backend raises
  at operation number `up`, before or, if `applied`, after the operation took effect; the result is
  then None (UserScopeCacheUnavailable).
  */
  function RunCall(slot: Option<Token>, call: Call, drawn: Token, gaps: seq<seq<Disturbance>>, up: nat, applied: bool)
    : (Option<Token>, Option<Token>)
    requires !call.Returned?
    decreases |gaps|
  {
    if up == 0 then (if applied then CallStep(slot, call, drawn).0 else slot, None)
    else
      var (slot', call') := CallStep(slot, call, drawn);
      if call'.Returned? then (slot', Some(call'.token))
      else if gaps == [] then (slot', None)
      else RunCall(DisturbAll(slot', gaps[0]), call', drawn, gaps[1..], up - 1, applied)
  }

  datatype Unavailable = Unavailable

  datatype Invalidation = Invalidation(oldGeneration: Option<Token>, newGeneration: Token)

  /** The generation key of one user in the shared cache. */
  class GenerationKey {
    var slot: Option<Token>
    // Every value the key has had, the current one last.
    ghost var seen: seq<Option<Token>>

    ghost predicate Valid()
      reads this
    {
      |seen| > 0 && seen[|seen| - 1] == slot
    }

    constructor ()
      ensures Valid() && slot == None
    {
      slot := None;
      seen := [None];
    }

    method Add(token: Token) returns (created: bool)
      requires Valid()
      modifies this
      ensures Valid() && seen == old(seen) + [slot]
      ensures created == old(slot).None?
      ensures slot == if created then Some(token) else old(slot)
    {
      created := slot.None?;
      if created {
        slot := Some(token);
      }
      seen := seen + [slot];
    }

    method Set(token: Token)
      requires Valid()
      modifies this
      ensures Valid() && seen == old(seen) + [slot]
      ensures slot == Some(token)
    {
      slot := Some(token);
      seen := seen + [slot];
    }

    method Interfere(ds: seq<Disturbance>)
      requires Valid()
      modifies this
      ensures Valid() && old(seen) <= seen
      ensures slot == DisturbAll(old(slot), ds)
    {
      for n := 0 to |ds|
        invariant Valid() && old(seen) <= seen
        invariant slot == DisturbAll(old(slot), ds[..n])
      {
        DisturbAllSnoc(old(slot), ds, n);
        slot := Disturb(slot, ds[n]);
        seen := seen + [slot];
      }
      assert ds[..|ds|] == ds;
    }

    /**
    `get_generation`. The three gaps are the moments at which other workers may run; `up` is how
    many of the call's operations succeed before the backend raises, with that operation `applied`
    or not.
    */
    method GetGeneration(candidate: Token, gap1: seq<Disturbance>, gap2: seq<Disturbance>,
                         gap3: seq<Disturbance>, up: nat, applied: bool)
      returns (r: Result<Token, Unavailable>)
      requires Valid()
      modifies this
      ensures Valid() && old(seen) <= seen
      ensures var run := RunCall(old(slot), Reading, candidate, [gap1, gap2, gap3], up, applied);
              slot == run.0 && r == if run.1.Some? then Ok(run.1.value) else Err(Unavailable)
      // Linearizable: the token returned was the key's value at some moment of the call.
      ensures r.Ok? ==> exists m :: |old(seen)| - 1 <= m < |seen| && seen[m] == Some(r.value)
    {
      ghost var run := RunCall(slot, Reading, candidate, [gap1, gap2, gap3], up, applied);
      assert [gap1, gap2, gap3][1..] == [gap2, gap3];
      assert [gap2, gap3][1..] == [gap3];
      if up == 0 { return Err(Unavailable); }
      var existing := slot;
      if existing.Some? { return Ok(existing.value); }

      Interfere(gap1);
      assert run == RunCall(slot, Adding(candidate), candidate, [gap2, gap3], up - 1, applied);
      if up == 1 {
        if applied { var lost := Add(candidate); }
        return Err(Unavailable);
      }
      var created := Add(candidate);
      if created { return Ok(candidate); }

      Interfere(gap2);
      assert run == RunCall(slot, Rereading(candidate), candidate, [gap3], up - 2, applied);
      if up == 2 { return Err(Unavailable); }
      var winner := slot;
      if winner.Some? { return Ok(winner.value); }
      assert [gap3][1..] == [];

      Interfere(gap3);
      assert run == RunCall(slot, Falling(candidate), candidate, [], up - 3, applied);
      if up == 3 {
        if applied { Set(candidate); }
        return Err(Unavailable);
      }
      Set(candidate);
      return Ok(candidate);
    }

    /** `invalidate_user`: a failed first read is tolerated, a failed set, `applied` or not, is reported. */
    method InvalidateUser(replacement: Token, gap: seq<Disturbance>, readFails: bool, setFails: bool, applied: bool)
      returns (r: Result<Invalidation, Unavailable>)
      requires Valid()
      modifies this
      ensures Valid() && old(seen) <= seen
      ensures r == if setFails then Err(Unavailable)
                   else Ok(Invalidation(if readFails then None else old(slot), replacement))
      ensures slot == if setFails && !applied then DisturbAll(old(slot), gap) else Some(replacement)
    {
      var oldGeneration := None;
      if !readFails {
        oldGeneration := slot;
      }
      Interfere(gap);
      if setFails {
        if applied { Set(replacement); }
        return Err(Unavailable);
      }
      Set(replacement);
      return Ok(Invalidation(oldGeneration, replacement));
    }
  }

  /** Left alone, the call always succeeds and the key then holds the token it returned. */
  lemma UndisturbedCall(slot: Option<Token>, drawn: Token, up: nat, applied: bool)
    requires up >= 2
    ensures var run := RunCall(slot, Reading, drawn, [[], [], []], up, applied);
            run.1.Some? && run.0 == run.1 && (slot.Some? ==> run.0 == slot)
  {
    var gaps: seq<seq<Disturbance>> := [[], [], []];
    assert gaps[1..] == [[], []];
  }

  // ---- Who wins ----

  ghost predicate NothingEvicted(ds: seq<Disturbance>) {
    forall d :: d in ds ==> !d.Evicted?
  }

  lemma {:induction false} ValuesStay(slot: Option<Token>, ds: seq<Disturbance>)
    requires NothingEvicted(ds)
    ensures slot.Some? ==> DisturbAll(slot, ds).Some?
    decreases |ds|
  {
    if ds != [] {
      assert ds[0] in ds;
      ValuesStay(Disturb(slot, ds[0]), ds[1..]);
    }
  }

  lemma FirstGaps(drawn: Token, gap1: seq<Disturbance>, gap2: seq<Disturbance>, gap3: seq<Disturbance>,
                  up: nat, applied: bool)
    requires up >= 2
    ensures var left := DisturbAll(None, gap1);
            RunCall(None, Reading, drawn, [gap1, gap2, gap3], up, applied)
            == if left.Some? then RunCall(DisturbAll(left, gap2), Rereading(drawn), drawn, [gap3], up - 2, applied)
               else (Some(drawn), Some(drawn))
  {
    assert [gap1, gap2, gap3][1..] == [gap2, gap3];
    assert [gap2, gap3][1..] == [gap3];
  }

  /**
  A call that finds no key: if others have left one by the time it adds and by the time it looks
  again, it changes nothing and returns what they left; otherwise its candidate ends up in the key.
  The candidate replaces a value of others only if they left one, lost it again, and left another.
  */
  lemma WinnerExactly(drawn: Token, gap1: seq<Disturbance>, gap2: seq<Disturbance>, gap3: seq<Disturbance>,
                      up: nat, applied: bool)
    requires up >= 4
    ensures var run := RunCall(None, Reading, drawn, [gap1, gap2, gap3], up, applied);
            var left := DisturbAll(None, gap1);
            var again := DisturbAll(left, gap2);
            run.0 == run.1 == if left.Some? && again.Some? then again else Some(drawn)
  {
    FirstGaps(drawn, gap1, gap2, gap3, up, applied);
    assert [gap3][1..] == [];
  }

  /** Without evictions nothing another worker has left is ever lost to the call. */
  lemma LoserTakesTheWinner(drawn: Token, gap1: seq<Disturbance>, gap2: seq<Disturbance>, gap3: seq<Disturbance>,
                            up: nat, applied: bool)
    requires NothingEvicted(gap2) && up >= 3
    ensures var run := RunCall(None, Reading, drawn, [gap1, gap2, gap3], up, applied);
            var left := DisturbAll(None, gap1);
            run.0 == run.1 == if left.Some? then DisturbAll(left, gap2) else Some(drawn)
  {
    FirstGaps(drawn, gap1, gap2, gap3, up, applied);
    ValuesStay(DisturbAll(None, gap1), gap2);
  }

  /** A call that finds a key leaves it alone and returns it. */
  lemma FoundIsReturned(token: Token, drawn: Token, gaps: seq<seq<Disturbance>>, up: nat, applied: bool)
    ensures RunCall(Some(token), Reading, drawn, gaps, up, applied)
            == (Some(token), if up > 0 then Some(token) else None)
  {
  }

  /** With any disturbances and failures: a call that returns leaves the key holding what it returned. */
  lemma {:induction false} ReturnsWhatIsHeld(slot: Option<Token>, call: Call, drawn: Token,
                                             gaps: seq<seq<Disturbance>>, up: nat, applied: bool)
    requires !call.Returned?
    ensures var run := RunCall(slot, call, drawn, gaps, up, applied);
            run.1.Some? ==> run.0 == run.1
    decreases |gaps|
  {
    var (slot', call') := CallStep(slot, call, drawn);
    if up > 0 && !call'.Returned? && gaps != [] {
      ReturnsWhatIsHeld(DisturbAll(slot', gaps[0]), call', drawn, gaps[1..], up - 1, applied);
    }
  }

  /** An operation replaces a value in the key only as the last resort of a call that found it empty twice. */
  lemma ReplacesExactly(slot: Option<Token>, call: Call, drawn: Token)
    requires !call.Returned?
    ensures slot.Some? ==> (CallStep(slot, call, drawn).0 != slot <==> call.Falling? && slot != Some(call.candidate))
    ensures CallStep(slot, call, drawn).1.Falling? <==> call.Rereading? && slot.None?
    ensures CallStep(slot, call, drawn).1.Rereading? <==> call.Adding? && slot.Some?
  {
  }

  /**
  The returned token is the caller's own candidate or one some other worker put there. It can
  only be the candidate if the call itself wrote it or another worker wrote that very value.
  */
  lemma {:induction false} TokenOrigin(slot: Option<Token>, call: Call, drawn: Token,
                                       gaps: seq<seq<Disturbance>>, up: nat, applied: bool)
    requires !call.Returned?
    requires call.Adding? || call.Rereading? || call.Falling? ==> call.candidate == drawn
    ensures var run := RunCall(slot, call, drawn, gaps, up, applied);
            run.1.Some? ==>
              || run.1.value == drawn
              || run.1 == slot
              || exists g :: g in gaps && exists d :: d in g && !d.Evicted? && d.token == run.1.value
    decreases |gaps|
  {
    if up > 0 {
      var (slot', call') := CallStep(slot, call, drawn);
      if !call'.Returned? && gaps != [] {
        DisturbAllOrigin(slot', gaps[0]);
        TokenOrigin(DisturbAll(slot', gaps[0]), call', drawn, gaps[1..], up - 1, applied);
        assert gaps[0] in gaps;
        assert forall g :: g in gaps[1..] ==> g in gaps;
      }
    }
  }

  lemma {:induction false} DisturbAllOrigin(slot: Option<Token>, ds: seq<Disturbance>)
    ensures var s := DisturbAll(slot, ds);
            s.Some? ==> s == slot || exists d :: d in ds && !d.Evicted? && d.token == s.value
    decreases |ds|
  {
    if ds != [] {
      DisturbAllOrigin(Disturb(slot, ds[0]), ds[1..]);
      assert ds[0] in ds;
      assert forall d :: d in ds[1..] ==> d in ds;
    }
  }
}
