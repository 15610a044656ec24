/** The dated lifecycle of agreements and its history log. Dates are day numbers. */
module AgreementLifecycle {
  import opened Outcomes

  type Date = int

  datatype Status = ACTIVE | EXPIRED | PENDING | TERMINATED

  /** The part of an agreement the lifecycle changes, and its fixed start date. */
  datatype Terms = Terms(status: Status, start: Date, expiry: Option<Date>, renewal: Option<Date>)

  datatype EventType = ExpiredEvent | TerminatedEvent | ExtendedEvent | RenewedEvent

  datatype HistoryRow = HistoryRow(event: EventType, previous: Terms, next: Terms)

  datatype Record = Record(terms: Terms, history: seq<HistoryRow>)

  datatype Error =
    | AlreadyTerminated
    | TerminatedCannotBeExtended
    | NoExpiryToExtend
    | ExpiredMustBeRenewed
    | NewExpiryNotLater
    | RenewalDateRequired
    | TerminatedCannotBeRenewed
    | RenewalInThePast
    | RenewalNotBeforeExpiry
    | ConstraintViolated

  /** The table's two date constraints. */
  predicate DatesOk(t: Terms) {
    && (t.expiry.Some? ==> t.start <= t.expiry.value)
    && (t.expiry.Some? && t.renewal.Some? ==> t.renewal.value <= t.expiry.value)
  }

  function Log(r: Record, event: EventType, next: Terms): Record {
    Record(next, r.history + [HistoryRow(event, r.terms, next)])
  }

  /** None when nothing changes. There is no guard against a terminated agreement. */
  function Expire(r: Record): Option<Record> {
    if r.terms.status == EXPIRED then None else Some(Log(r, ExpiredEvent, r.terms.(status := EXPIRED)))
  }

  predicate Overdue(t: Terms, today: Date) {
    t.expiry.Some? && t.expiry.value < today
  }

  /** The scheduled sync selects ACTIVE overdue agreements and expires them. */
  function SyncOne(r: Record, today: Date): Record {
    if r.terms.status == ACTIVE && Overdue(r.terms, today) then
      var expired := Expire(r);
      if expired.Some? then expired.value else r
    else r
  }

  function Terminate(r: Record): Result<Record, Error> {
    if r.terms.status == TERMINATED then Err(AlreadyTerminated)
    else Ok(Log(r, TerminatedEvent, r.terms.(status := TERMINATED)))
  }

  function Extend(r: Record, newExpiry: Date): Result<Record, Error> {
    if r.terms.status == TERMINATED then Err(TerminatedCannotBeExtended)
    else if r.terms.expiry.None? then Err(NoExpiryToExtend)
    else if r.terms.status == EXPIRED then Err(ExpiredMustBeRenewed)
    else if newExpiry <= r.terms.expiry.value then Err(NewExpiryNotLater)
    else Store(r, ExtendedEvent, r.terms.(expiry := Some(newExpiry)))
  }

  function Renew(r: Record, newExpiry: Date, newRenewal: Option<Date>, today: Date): Result<Record, Error> {
    if newRenewal.None? then Err(RenewalDateRequired)
    else if r.terms.status == TERMINATED then Err(TerminatedCannotBeRenewed)
    else if r.terms.expiry.Some? && newExpiry <= r.terms.expiry.value then Err(NewExpiryNotLater)
    else if newRenewal.value < today then Err(RenewalInThePast)
    else if newRenewal.value >= newExpiry then Err(RenewalNotBeforeExpiry)
    else Store(r, RenewedEvent,
               r.terms.(status := if r.terms.status == EXPIRED then ACTIVE else r.terms.status,
                        expiry := Some(newExpiry), renewal := newRenewal))
  }

  /** Saving new dates runs into the table's constraints; the transaction then leaves no trace. */
  function Store(r: Record, event: EventType, next: Terms): Result<Record, Error> {
    if DatesOk(next) then Ok(Log(r, event, next)) else Err(ConstraintViolated)
  }

  // ---- Runs ----

  datatype Op =
    | Sync(today: Date)
    | TerminateOp
    | ExtendOp(newExpiry: Date)
    | RenewOp(newExpiry: Date, newRenewal: Option<Date>, today: Date)

  function Attempt(r: Record, op: Op): Result<Record, Error> {
    match op
    case Sync(today) => Ok(SyncOne(r, today))
    case TerminateOp => Terminate(r)
    case ExtendOp(newExpiry) => Extend(r, newExpiry)
    case RenewOp(newExpiry, newRenewal, today) => Renew(r, newExpiry, newRenewal, today)
  }

  function Apply(r: Record, op: Op): Record {
    var attempt := Attempt(r, op);
    if attempt.Ok? then attempt.value else r
  }

  // ---- What each operation is for ----

  /** The terms an operation asks for. */
  function Asked(t: Terms, op: Op): Terms {
    match op
    case Sync(today) =>
      if t.status == ACTIVE && t.expiry.Some? && t.expiry.value <= today - 1 then t.(status := EXPIRED) else t
    case TerminateOp => t.(status := TERMINATED)
    case ExtendOp(newExpiry) => t.(expiry := Some(newExpiry))
    case RenewOp(newExpiry, newRenewal, _) =>
      Terms(if t.status == EXPIRED then ACTIVE else t.status, t.start, Some(newExpiry), newRenewal)
  }

  function EventOf(op: Op): EventType {
    match op
    case Sync(_) => ExpiredEvent
    case TerminateOp => TerminatedEvent
    case ExtendOp(_) => ExtendedEvent
    case RenewOp(_, _, _) => RenewedEvent
  }

  predicate LaterThan(newExpiry: Date, expiry: Option<Date>) {
    expiry.Some? ==> expiry.value < newExpiry
  }

  /** Reason e stands against the operation, by the current terms, the arguments and the table's constraints. */
  predicate StandsAgainst(e: Error, t: Terms, op: Op) {
    match op
    case Sync(_) => false
    case TerminateOp => e == AlreadyTerminated && t.status == TERMINATED
    case ExtendOp(newExpiry) =>
      || (e == TerminatedCannotBeExtended && t.status == TERMINATED)
      || (e == ExpiredMustBeRenewed && t.status == EXPIRED)
      || (e == NoExpiryToExtend && t.expiry.None?)
      || (e == NewExpiryNotLater && !LaterThan(newExpiry, t.expiry))
      || (e == ConstraintViolated && (newExpiry < t.start || (t.renewal.Some? && newExpiry < t.renewal.value)))
    case RenewOp(newExpiry, newRenewal, today) =>
      || (e == RenewalDateRequired && newRenewal.None?)
      || (e == TerminatedCannotBeRenewed && t.status == TERMINATED)
      || (e == NewExpiryNotLater && !LaterThan(newExpiry, t.expiry))
      || (e == RenewalInThePast && newRenewal.Some? && newRenewal.value < today)
      || (e == RenewalNotBeforeExpiry && newRenewal.Some? && newExpiry <= newRenewal.value)
      || (e == ConstraintViolated && newExpiry < t.start)
  }

  /**
  An operation succeeds exactly if nothing stands against it, and fails for a reason that does.
  When it succeeds the terms are those asked for, and one row says so unless nothing had to change.
  */
  lemma AttemptExactly(r: Record, op: Op)
    ensures Attempt(r, op).Ok? <==> forall e :: !StandsAgainst(e, r.terms, op)
    ensures Attempt(r, op).Err? ==> StandsAgainst(Attempt(r, op).error, r.terms, op)
    ensures Attempt(r, op).Ok? ==>
              var d := Attempt(r, op).value;
              && d.terms == Asked(r.terms, op)
              && d.history == if d.terms == r.terms then r.history
                              else r.history + [HistoryRow(EventOf(op), r.terms, Asked(r.terms, op))]
  {
    if Attempt(r, op).Err? { assert StandsAgainst(Attempt(r, op).error, r.terms, op); }
  }

  ghost predicate IsRun(run: seq<Record>, ops: seq<Op>) {
    && |run| == |ops| + 1
    && DatesOk(run[0].terms) && run[0].history == []
    && forall k :: 0 <= k < |ops| ==> run[k + 1] == Apply(run[k], ops[k])
  }

  /** From initial terms, each row starts where the one before ended. */
  function Replay(initial: Terms, history: seq<HistoryRow>): Option<Terms> {
    if history == [] then Some(initial)
    else
      var last := history[|history| - 1];
      if Replay(initial, history[..|history| - 1]) == Some(last.previous) then Some(last.next) else None
  }

  ghost predicate LaterOrSame(a: Option<Date>, b: Option<Date>) {
    a.Some? ==> b.Some? && a.value <= b.value
  }

  /** What each row of the history is allowed to be. */
  ghost predicate LegalRow(row: HistoryRow) {
    && DatesOk(row.next) && row.previous.status != TERMINATED && LaterOrSame(row.previous.expiry, row.next.expiry)
    && match row.event
       case ExpiredEvent => row.previous.status == ACTIVE && row.next == row.previous.(status := EXPIRED)
       case TerminatedEvent => row.next == row.previous.(status := TERMINATED)
       case ExtendedEvent =>
         row.previous.status in {ACTIVE, PENDING} && row.previous.expiry.Some? &&
         row.next == row.previous.(expiry := row.next.expiry) && row.next.expiry.value > row.previous.expiry.value
       case RenewedEvent =>
         row.next.expiry.Some? && row.next.renewal.Some? && row.next.renewal.value < row.next.expiry.value &&
         row.next.status == if row.previous.status == EXPIRED then ACTIVE else row.previous.status
  }

  lemma StepLegal(r: Record, op: Op)
    requires DatesOk(r.terms)
    ensures var r' := Apply(r, op);
            && DatesOk(r'.terms) && LaterOrSame(r.terms.expiry, r'.terms.expiry)
            && (r.terms.status == TERMINATED ==> r' == r)
            && (r' == r || exists event :: r' == Log(r, event, r'.terms) && LegalRow(HistoryRow(event, r.terms, r'.terms)))
  {
    var r' := Apply(r, op);
    if r' != r {
      var event := EventOf(op);
      assert r' == Log(r, event, r'.terms) && LegalRow(HistoryRow(event, r.terms, r'.terms));
    }
  }

  /** The row is what one of the first k operations asked for, of the terms it found. */
  ghost predicate AskedFor(run: seq<Record>, ops: seq<Op>, k: nat, row: HistoryRow) {
    exists m: nat :: m < k <= |ops| < |run| && RowOf(run[m], ops[m], row)
  }

  predicate RowOf(r: Record, op: Op, row: HistoryRow) {
    row == HistoryRow(EventOf(op), r.terms, Asked(r.terms, op)) && forall e: Error :: !StandsAgainst(e, r.terms, op)
  }

  /** Exactly when nothing stands against it an operation is carried out; otherwise nothing changes. */
  lemma StepExactly(r: Record, op: Op)
    ensures Apply(r, op).terms == if forall e: Error :: !StandsAgainst(e, r.terms, op) then Asked(r.terms, op) else r.terms
    ensures Apply(r, op).terms == r.terms ==> Apply(r, op) == r
  {
    AttemptExactly(r, op);
  }

  lemma StepAsked(r: Record, op: Op)
    requires Apply(r, op) != r
    ensures exists row: HistoryRow :: Apply(r, op) == Record(row.next, r.history + [row]) && RowOf(r, op, row)
  {
    AttemptExactly(r, op);
    var row := HistoryRow(EventOf(op), r.terms, Asked(r.terms, op));
    assert Apply(r, op) == Record(row.next, r.history + [row]) && RowOf(r, op, row);
  }

  lemma AskedForNext(run: seq<Record>, ops: seq<Op>, k: nat, row: HistoryRow)
    requires k < |ops| < |run|
    ensures AskedFor(run, ops, k, row) ==> AskedFor(run, ops, k + 1, row)
    ensures RowOf(run[k], ops[k], row) ==> AskedFor(run, ops, k + 1, row)
  {
  }

  /**
  In every run of sync, terminate, extend and renew: the dates stay consistent, every history row
  is a legal move with exactly the terms one of the operations asked for, and replaying the history
  from the initial terms gives the current terms.
  */
  lemma {:induction false} HistoryReplays(run: seq<Record>, ops: seq<Op>, k: nat)
    requires IsRun(run, ops) && k <= |ops|
    ensures DatesOk(run[k].terms)
    ensures Replay(run[0].terms, run[k].history) == Some(run[k].terms)
    ensures forall row :: row in run[k].history ==> LegalRow(row) && AskedFor(run, ops, k, row)
  {
    if k > 0 {
      HistoryReplays(run, ops, k - 1);
      StepLegal(run[k - 1], ops[k - 1]);
      forall row | AskedFor(run, ops, k - 1, row) || RowOf(run[k - 1], ops[k - 1], row)
        ensures AskedFor(run, ops, k, row) {
        AskedForNext(run, ops, k - 1, row);
      }
      if run[k] != run[k - 1] {
        StepAsked(run[k - 1], ops[k - 1]);
        var row: HistoryRow :| run[k] == Record(row.next, run[k - 1].history + [row]) && RowOf(run[k - 1], ops[k - 1], row);
        assert run[k].history[..|run[k].history| - 1] == run[k - 1].history;
      }
    }
  }

  /** Termination is for good, a set expiry date never moves back, and no history row is lost. */
  lemma {:induction false} RunIsMonotone(run: seq<Record>, ops: seq<Op>, i: nat, j: nat)
    requires IsRun(run, ops) && i <= j <= |ops|
    ensures run[i].terms.status == TERMINATED ==> run[j] == run[i]
    ensures LaterOrSame(run[i].terms.expiry, run[j].terms.expiry)
    ensures run[i].history <= run[j].history
    decreases j - i
  {
    if i < j {
      RunIsMonotone(run, ops, i, j - 1);
      HistoryReplays(run, ops, j - 1);
      StepLegal(run[j - 1], ops[j - 1]);
    }
  }

  /**
  Outside the sync's filter, `expire_agreement` ends a termination: exactly the terminated
  agreements are those it and then a renewal would bring back to life.
  */
  lemma BareExpireReopens(r: Record, newExpiry: Date, newRenewal: Date, today: Date)
    requires r.terms.expiry.Some? ==> r.terms.expiry.value < newExpiry
    requires today <= newRenewal < newExpiry && r.terms.start <= newExpiry
    ensures var expired := if Expire(r).Some? then Expire(r).value else r;
            var renewed := Renew(expired, newExpiry, Some(newRenewal), today);
            && renewed.Ok? && renewed.value.terms.status == ACTIVE
            && (Renew(r, newExpiry, Some(newRenewal), today).Err? <==> r.terms.status == TERMINATED)
  {
  }

  /** Expiring changes and logs exactly the agreements that are not expired yet, and only once. */
  lemma ExpiresOnce(r: Record)
    ensures Expire(r).None? <==> r.terms.status == EXPIRED
    ensures Expire(r).Some? ==>
              && Expire(r).value == Record(r.terms.(status := EXPIRED),
                                           r.history + [HistoryRow(ExpiredEvent, r.terms, r.terms.(status := EXPIRED))])
              && Expire(Expire(r).value).None?
  {
  }

  // ---- One day's sync ----

  lemma SyncLeavesNoneOverdue(r: Record, today: Date)
    ensures var s := SyncOne(r, today);
            && !(s.terms.status == ACTIVE && Overdue(s.terms, today))
            && SyncOne(s, today) == s
            && (s != r <==> r.terms.status == ACTIVE && Overdue(r.terms, today))
            && |s.history| == |r.history| + (if s != r then 1 else 0)
  {
  }

  lemma RenewedIsSafeToday(r: Record, newExpiry: Date, newRenewal: Option<Date>, today: Date)
    requires Renew(r, newExpiry, newRenewal, today).Ok?
    ensures var renewed := Renew(r, newExpiry, newRenewal, today).value;
            !Overdue(renewed.terms, today) && SyncOne(renewed, today) == renewed
  {
  }

  // ---- The service ----

  class Agreement {
    const startDate: Date
    var status: Status
    var expiryDate: Option<Date>
    var renewalDate: Option<Date>
    var history: seq<HistoryRow>

    constructor (startDate: Date, status: Status, expiryDate: Option<Date>, renewalDate: Option<Date>)
      ensures View() == Record(Terms(status, startDate, expiryDate, renewalDate), [])
    {
      this.startDate, this.status := startDate, status;
      this.expiryDate, this.renewalDate, history := expiryDate, renewalDate, [];
    }

    function Current(): Terms
      reads this
    {
      Terms(status, startDate, expiryDate, renewalDate)
    }

    function View(): Record
      reads this
    {
      Record(Current(), history)
    }

    method ExpireAgreement() returns (changed: bool)
      modifies this
      ensures changed == Expire(old(View())).Some?
      ensures View() == if changed then Expire(old(View())).value else old(View())
    {
      if status == EXPIRED {
        return false;
      }
      var previous := Current();
      status := EXPIRED;
      history := history + [HistoryRow(ExpiredEvent, previous, Current())];
      return true;
    }

    method TerminateAgreement() returns (r: Result<(), Error>)
      modifies this
      ensures Outcome(old(View()), Terminate(old(View())), View(), r)
    {
      if status == TERMINATED {
        return Err(AlreadyTerminated);
      }
      var previous := Current();
      status := TERMINATED;
      history := history + [HistoryRow(TerminatedEvent, previous, Current())];
      return Ok(());
    }

    method ExtendAgreement(newExpiryDate: Date) returns (r: Result<(), Error>)
      modifies this
      ensures Outcome(old(View()), Extend(old(View()), newExpiryDate), View(), r)
    {
      if status == TERMINATED {
        return Err(TerminatedCannotBeExtended);
      }
      if expiryDate.None? {
        return Err(NoExpiryToExtend);
      }
      if status == EXPIRED {
        return Err(ExpiredMustBeRenewed);
      }
      if newExpiryDate <= expiryDate.value {
        return Err(NewExpiryNotLater);
      }
      var previous := Current();
      expiryDate := Some(newExpiryDate);
      if !DatesOk(Current()) {
        expiryDate := previous.expiry;
        return Err(ConstraintViolated);
      }
      history := history + [HistoryRow(ExtendedEvent, previous, Current())];
      return Ok(());
    }

    method RenewAgreement(newExpiryDate: Date, newRenewalDate: Option<Date>, today: Date) returns (r: Result<(), Error>)
      modifies this
      ensures Outcome(old(View()), Renew(old(View()), newExpiryDate, newRenewalDate, today), View(), r)
    {
      var previous := Current();
      if newRenewalDate.None? {
        return Err(RenewalDateRequired);
      }
      if status == TERMINATED {
        return Err(TerminatedCannotBeRenewed);
      }
      if previous.expiry.Some? && newExpiryDate <= previous.expiry.value {
        return Err(NewExpiryNotLater);
      }
      if newRenewalDate.value < today {
        return Err(RenewalInThePast);
      }
      if newRenewalDate.value >= newExpiryDate {
        return Err(RenewalNotBeforeExpiry);
      }
      expiryDate, renewalDate := Some(newExpiryDate), newRenewalDate;
      if status == EXPIRED {
        status := ACTIVE;
      }
      if !DatesOk(Current()) {
        status, expiryDate, renewalDate := previous.status, previous.expiry, previous.renewal;
        return Err(ConstraintViolated);
      }
      history := history + [HistoryRow(RenewedEvent, previous, Current())];
      return Ok(());
    }
  }

  ghost predicate Outcome(before: Record, spec: Result<Record, Error>, after: Record, r: Result<(), Error>) {
    if spec.Ok? then r == Ok(()) && after == spec.value else r == Err(spec.error) && after == before
  }

  /** How many of the first n agreements the sync of the day has to expire. */
  ghost function DueCount(before: seq<Record>, today: Date, n: nat): nat
    requires n <= |before|
  {
    if n == 0 then 0
    else DueCount(before, today, n - 1) + if SyncOne(before[n - 1], today) != before[n - 1] then 1 else 0
  }

  /** The query's filter and the loop body of the sync, for one agreement. */
  method SyncAgreement(a: Agreement, today: Date) returns (changed: bool)
    modifies a
    ensures a.View() == SyncOne(old(a.View()), today)
    ensures changed <==> SyncOne(old(a.View()), today) != old(a.View())
  {
    changed := false;
    if a.status == ACTIVE && a.expiryDate.Some? && a.expiryDate.value < today {
      changed := a.ExpireAgreement();
    }
  }

  /** `sync_expired_agreements` over all agreements; the count is that of new EXPIRED rows. */
  method SyncExpiredAgreements(agreements: seq<Agreement>, today: Date) returns (expiredCount: nat)
    requires forall i, j :: 0 <= i < j < |agreements| ==> agreements[i] != agreements[j]
    modifies agreements
    ensures forall i :: 0 <= i < |agreements| ==> agreements[i].View() == SyncOne(old(agreements[i].View()), today)
    ensures expiredCount == DueCount(old(seq(|agreements|, i requires 0 <= i < |agreements|
                                             reads agreements => agreements[i].View())), today, |agreements|)
  {
    ghost var before := seq(|agreements|, i requires 0 <= i < |agreements| reads agreements => agreements[i].View());
    expiredCount := 0;
    for n := 0 to |agreements|
      invariant forall i :: 0 <= i < n ==> agreements[i].View() == SyncOne(before[i], today)
      invariant forall i :: n <= i < |agreements| ==> agreements[i].View() == before[i]
      invariant expiredCount == DueCount(before, today, n)
    {
      var changed := SyncAgreement(agreements[n], today);
      if changed {
        expiredCount := expiredCount + 1;
      }
    }
  }

  function ExpiredRows(history: seq<HistoryRow>): nat {
    if history == [] then 0
    else ExpiredRows(history[..|history| - 1]) + if history[|history| - 1].event == ExpiredEvent then 1 else 0
  }

  ghost function AllExpiredRows(records: seq<Record>, n: nat): nat
    requires n <= |records|
  {
    if n == 0 then 0 else AllExpiredRows(records, n - 1) + ExpiredRows(records[n - 1].history)
  }

  ghost function SyncAll(records: seq<Record>, today: Date): seq<Record> {
    seq(|records|, i requires 0 <= i < |records| => SyncOne(records[i], today))
  }

  /** The sync's count is the number of new EXPIRED rows, and a second sync that day finds nothing. */
  lemma {:induction false} SyncCountsNewRows(records: seq<Record>, today: Date, n: nat)
    requires n <= |records|
    ensures DueCount(records, today, n) == AllExpiredRows(SyncAll(records, today), n) - AllExpiredRows(records, n)
    ensures DueCount(SyncAll(records, today), today, n) == 0
    ensures forall i :: 0 <= i < n ==>
              var t := SyncAll(records, today)[i].terms;
              !(t.status == ACTIVE && Overdue(t, today))
  {
    if n > 0 {
      SyncCountsNewRows(records, today, n - 1);
      var r := records[n - 1];
      SyncLeavesNoneOverdue(r, today);
      if SyncOne(r, today) != r {
        assert SyncOne(r, today).history[..|r.history|] == r.history;
      }
    }
  }
}
