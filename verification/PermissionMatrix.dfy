/** Reading and reconciling the matrix of role permissions. */
module PermissionMatrix {
  import opened Outcomes
  import opened Roles
  import opened Boundary

  type Code = string
  type Grant = (Role, Code)

  /** Permission codes are unique; the value says whether the permission is configurable. */
  type Catalog = map<Code, bool>

  datatype Toggle = Toggle(role: Role, enabled: bool)
  datatype Item = Item(code: Code, roles: seq<Toggle>)

  const CONFIGURABLE_ROLES: seq<Role> := [
    ROOM_VIEWER, ROOM_CLERK, ROOM_ADMIN, LOCATION_VIEWER, LOCATION_ADMIN, DEPARTMENT_VIEWER, DEPARTMENT_ADMIN
  ]

  predicate Configurable(role: Role) {
    !role.SITE_ADMIN? && !role.UNKNOWN?
  }

  predicate Known(catalog: Catalog, code: Code) {
    code in catalog && catalog[code]
  }

  function Requested(item: Item): set<Role> {
    set t | t in item.roles && t.enabled && Configurable(t.role) :: t.role
  }

  function Granted(rows: set<Grant>, code: Code): set<Role> {
    set g | g in rows && g.1 == code && Configurable(g.0) :: g.0
  }

  function RowsFor(roles: set<Role>, code: Code): set<Grant> {
    set r | r in roles :: (r, code)
  }

  predicate Invalid(t: Toggle, code: Code) {
    t.enabled && Configurable(t.role) && !Allowed(t.role, code)
  }

  /** The forbidden grants of one item, in payload order. */
  function InvalidGrants(item: Item, n: nat): (r: seq<Role>)
    requires n <= |item.roles|
    ensures r == [] <==> forall k :: 0 <= k < n ==> !Invalid(item.roles[k], item.code)
  {
    if n == 0 then []
    else
      InvalidGrants(item, n - 1) +
      if Invalid(item.roles[n - 1], item.code) then [item.roles[n - 1].role] else []
  }

  predicate Clean(item: Item) {
    forall t :: t in item.roles ==> !Invalid(t, item.code)
  }

  lemma CleanMeansNoInvalid(item: Item)
    ensures Clean(item) <==> InvalidGrants(item, |item.roles|) == []
  {
  }

  datatype Progress = Progress(rows: set<Grant>, created: nat, deleted: nat)

  datatype Rejection = Rejection(code: Code, invalidGrants: seq<Role>)

  function ToCreate(before: set<Grant>, item: Item): set<Role> {
    Requested(item) - Granted(before, item.code)
  }

  function ToDelete(before: set<Grant>, item: Item): set<Role> {
    Granted(before, item.code) - Requested(item)
  }

  /**
  One permission of the payload. The roles counted as existing come from the rows fetched before
  the update began, also when the payload has named the permission before.
  */
  function Reconcile(catalog: Catalog, before: set<Grant>, p: Progress, item: Item): Result<Progress, Rejection> {
    if !Known(catalog, item.code) then Ok(p)
    else if !Clean(item) then Err(Rejection(item.code, InvalidGrants(item, |item.roles|)))
    else
      var toCreate, toDelete := ToCreate(before, item), ToDelete(before, item);
      var withCreated := p.rows + RowsFor(toCreate, item.code);
      var doomed := RowsFor(toDelete, item.code);
      Ok(Progress(withCreated - doomed, p.created + |toCreate|, p.deleted + |doomed * withCreated|))
  }

  function ReconcileAll(catalog: Catalog, before: set<Grant>, items: seq<Item>): Result<Progress, Rejection> {
    if items == [] then Ok(Progress(before, 0, 0))
    else
      var last := |items| - 1;
      match ReconcileAll(catalog, before, items[..last])
      case Err(e) => Err(e)
      case Ok(p) => Reconcile(catalog, before, p, items[last])
  }

  lemma ReconcileSnoc(catalog: Catalog, before: set<Grant>, items: seq<Item>, item: Item)
    ensures var r := ReconcileAll(catalog, before, items);
            ReconcileAll(catalog, before, items + [item]) ==
            if r.Err? then r else Reconcile(catalog, before, r.value, item)
  {
    assert (items + [item])[..|items|] == items;
  }

  lemma {:induction false} RejectionStays(catalog: Catalog, before: set<Grant>, items: seq<Item>, more: seq<Item>)
    requires ReconcileAll(catalog, before, items).Err?
    ensures ReconcileAll(catalog, before, items + more) == ReconcileAll(catalog, before, items)
    decreases |more|
  {
    if more == [] {
      assert items + more == items;
    } else {
      var last := |more| - 1;
      RejectionStays(catalog, before, items, more[..last]);
      assert items + more == items + more[..last] + [more[last]];
      ReconcileSnoc(catalog, before, items + more[..last], more[last]);
    }
  }

  // ---- What any payload leaves ----

  predicate Names(catalog: Catalog, item: Item, code: Code) {
    item.code == code && Known(catalog, code)
  }

  /** A granted role stays if every item naming the code asks for it, another needs just one. */
  ghost predicate Final(catalog: Catalog, before: set<Grant>, items: seq<Item>, g: Grant) {
    if !Configurable(g.0) then g in before
    else if g in before then forall item :: item in items && Names(catalog, item, g.1) ==> g.0 in Requested(item)
    else exists item :: item in items && Names(catalog, item, g.1) && g.0 in Requested(item)
  }

  lemma ReconcileOne(catalog: Catalog, before: set<Grant>, p: Progress, item: Item, g: Grant)
    requires Reconcile(catalog, before, p, item).Ok?
    ensures g in Reconcile(catalog, before, p, item).value.rows <==>
            if Names(catalog, item, g.1) && Configurable(g.0) then
              if g in before then g in p.rows && g.0 in Requested(item) else g in p.rows || g.0 in Requested(item)
            else g in p.rows
  {
    assert forall r :: r in Granted(before, item.code) <==> (r, item.code) in before && Configurable(r);
    assert g == (g.0, g.1);
  }

  lemma {:induction false} FinalRows(catalog: Catalog, before: set<Grant>, items: seq<Item>, g: Grant)
    requires ReconcileAll(catalog, before, items).Ok?
    ensures g in ReconcileAll(catalog, before, items).value.rows <==> Final(catalog, before, items, g)
    decreases |items|
  {
    if items != [] {
      var last := |items| - 1;
      var p := ReconcileAll(catalog, before, items[..last]).value;
      FinalRows(catalog, before, items[..last], g);
      ReconcileOne(catalog, before, p, items[last], g);
      assert forall item :: item in items <==> item in items[..last] || item == items[last] by {
        assert items == items[..last] + [items[last]];
      }
    }
  }

  lemma {:induction false} AcceptedExactly(catalog: Catalog, before: set<Grant>, items: seq<Item>)
    ensures ReconcileAll(catalog, before, items).Ok? <==>
            forall item :: item in items && Known(catalog, item.code) ==> Clean(item)
    decreases |items|
  {
    if items != [] {
      var last := |items| - 1;
      AcceptedExactly(catalog, before, items[..last]);
      assert forall item :: item in items <==> item in items[..last] || item == items[last] by {
        assert items == items[..last] + [items[last]];
      }
    }
  }

  lemma ConfigurableRoles(role: Role)
    ensures Configurable(role) <==> role in CONFIGURABLE_ROLES
  {
    if Configurable(role) { var k := EveryConfigurableRoleListed(role); }
  }

  /** The boundary is what decides: nothing else is ever refused, and nothing it forbids is accepted. */
  lemma BoundaryDecides(catalog: Catalog, before: set<Grant>, items: seq<Item>)
    ensures ReconcileAll(catalog, before, items).Ok? <==>
            forall item, t | item in items && t in item.roles && item.code in catalog && catalog[item.code] ::
              t.enabled && t.role in CONFIGURABLE_ROLES ==> Allowed(t.role, item.code)
  {
    AcceptedExactly(catalog, before, items);
    forall t: Toggle ensures Configurable(t.role) <==> t.role in CONFIGURABLE_ROLES { ConfigurableRoles(t.role); }
  }

  lemma {:induction false} InvalidGrantsExactly(item: Item, n: nat, role: Role)
    requires n <= |item.roles|
    ensures role in InvalidGrants(item, n) <==> exists k :: 0 <= k < n && item.roles[k].role == role && Invalid(item.roles[k], item.code)
  {
    if n > 0 { InvalidGrantsExactly(item, n - 1, role); }
  }

  /** A rejection names the first item with a forbidden grant, and exactly the roles that may not have it. */
  lemma {:induction false} RejectionNames(catalog: Catalog, before: set<Grant>, items: seq<Item>) returns (k: nat)
    requires ReconcileAll(catalog, before, items).Err?
    ensures k < |items| && Known(catalog, items[k].code)
    ensures forall i :: 0 <= i < k && Known(catalog, items[i].code) ==> Clean(items[i])
    ensures var rejection := ReconcileAll(catalog, before, items).error;
            && rejection.code == items[k].code
            && forall role :: role in rejection.invalidGrants <==>
                 exists t :: t in items[k].roles && t.role == role && t.enabled && role in CONFIGURABLE_ROLES
                             && !Allowed(role, items[k].code)
    decreases |items|
  {
    var last := |items| - 1;
    if ReconcileAll(catalog, before, items[..last]).Err? {
      k := RejectionNames(catalog, before, items[..last]);
    } else {
      k := last;
      AcceptedExactly(catalog, before, items[..last]);
      forall i | 0 <= i < last && Known(catalog, items[i].code) ensures Clean(items[i]) { assert items[i] in items[..last]; }
      NamedRoles(items[k]);
    }
  }

  lemma NamedRoles(item: Item)
    ensures forall role :: role in InvalidGrants(item, |item.roles|) <==>
              exists t :: t in item.roles && t.role == role && t.enabled && role in CONFIGURABLE_ROLES && !Allowed(role, item.code)
  {
    forall role: Role
      ensures role in InvalidGrants(item, |item.roles|) <==>
              exists t :: t in item.roles && t.role == role && t.enabled && role in CONFIGURABLE_ROLES && !Allowed(role, item.code)
    {
      InvalidGrantsExactly(item, |item.roles|, role);
      ConfigurableRoles(role);
    }
  }

  /** Items that name the same configurable permission ask for the same roles. */
  ghost predicate Agreeing(catalog: Catalog, items: seq<Item>) {
    forall a, b :: a in items && b in items && a.code == b.code && Known(catalog, a.code) ==> Requested(a) == Requested(b)
  }

  /**
  After an accepted update every named configurable permission has exactly the roles requested for
  it, if and only if the payload does not name one twice with different roles. Naming each code
  once is enough.
  */
  lemma ExactIffAgreeing(catalog: Catalog, before: set<Grant>, items: seq<Item>)
    requires ReconcileAll(catalog, before, items).Ok?
    ensures var rows := ReconcileAll(catalog, before, items).value.rows;
            (forall item :: item in items && Known(catalog, item.code) ==> Granted(rows, item.code) == Requested(item))
            <==> Agreeing(catalog, items)
  {
    var rows := ReconcileAll(catalog, before, items).value.rows;
    forall item, r: Role | item in items && Known(catalog, item.code)
      ensures r in Granted(rows, item.code) <==> Configurable(r) && Final(catalog, before, items, (r, item.code))
    {
      FinalRows(catalog, before, items, (r, item.code));
      assert r in Granted(rows, item.code) <==> (r, item.code) in rows && Configurable(r);
    }
    if Agreeing(catalog, items) {
      forall item | item in items && Known(catalog, item.code) ensures Granted(rows, item.code) == Requested(item) {
        forall r: Role ensures r in Granted(rows, item.code) <==> r in Requested(item) {
          assert Names(catalog, item, item.code);
        }
      }
    }
  }

  /** All other rows, those of SITE_ADMIN and of unnamed or non-configurable permissions, stay. */
  lemma OthersUntouched(catalog: Catalog, before: set<Grant>, items: seq<Item>, g: Grant)
    requires ReconcileAll(catalog, before, items).Ok?
    requires || g.0 !in CONFIGURABLE_ROLES
             || g.1 !in catalog || !catalog[g.1]
             || forall item :: item in items ==> item.code != g.1
    ensures g in ReconcileAll(catalog, before, items).value.rows <==> g in before
  {
    ConfigurableRoles(g.0);
    FinalRows(catalog, before, items, g);
  }

  // ---- The counters ----

  lemma {:induction false} RowsForSize(roles: set<Role>, code: Code)
    ensures |RowsFor(roles, code)| == |roles|
  {
    if roles != {} {
      var r :| r in roles;
      RowsForSize(roles - {r}, code);
      assert RowsFor(roles, code) == RowsFor(roles - {r}, code) + {(r, code)};
    }
  }

  /** Both items ask for role r on the same permission, which it was not granted. */
  predicate AskAgain(catalog: Catalog, before: set<Grant>, a: Item, b: Item, r: Role) {
    && a.code == b.code && Known(catalog, a.code)
    && r in Requested(a) && r in Requested(b) && (r, a.code) !in before
  }

  /** Some role that was not granted is asked for by two items naming the same permission. */
  ghost predicate Repeats(catalog: Catalog, before: set<Grant>, items: seq<Item>) {
    exists i, j, r :: 0 <= i < j < |items| && AskAgain(catalog, before, items[i], items[j], r)
  }

  ghost predicate RepeatsLast(catalog: Catalog, before: set<Grant>, items: seq<Item>, item: Item) {
    exists i, r :: 0 <= i < |items| && AskAgain(catalog, before, items[i], item, r)
  }

  lemma RepeatsSnoc(catalog: Catalog, before: set<Grant>, items: seq<Item>, item: Item)
    ensures Repeats(catalog, before, items + [item]) <==>
            Repeats(catalog, before, items) || RepeatsLast(catalog, before, items, item)
  {
    var all := items + [item];
    if Repeats(catalog, before, items) {
      var i, j, r :| 0 <= i < j < |items| && AskAgain(catalog, before, items[i], items[j], r);
      assert AskAgain(catalog, before, all[i], all[j], r);
    }
    if RepeatsLast(catalog, before, items, item) {
      var i, r :| 0 <= i < |items| && AskAgain(catalog, before, items[i], item, r);
      assert AskAgain(catalog, before, all[i], all[|items|], r);
    }
    if Repeats(catalog, before, all) {
      var i, j, r :| 0 <= i < j < |all| && AskAgain(catalog, before, all[i], all[j], r);
      if j < |items| {
        assert AskAgain(catalog, before, items[i], items[j], r);
      } else {
        assert AskAgain(catalog, before, items[i], item, r);
      }
    }
  }

  lemma CountDeleted(catalog: Catalog, before: set<Grant>, p: Progress, item: Item)
    requires Reconcile(catalog, before, p, item).Ok?
    ensures var q := Reconcile(catalog, before, p, item).value;
            q.deleted - p.deleted == |before - q.rows| - |before - p.rows|
  {
    var q := Reconcile(catalog, before, p, item).value;
    if Known(catalog, item.code) {
      var toCreate, toDelete := ToCreate(before, item), ToDelete(before, item);
      var gone := RowsFor(toDelete, item.code) * (p.rows + RowsFor(toCreate, item.code));
      assert gone <= before && gone <= p.rows;
      assert RowsFor(toCreate, item.code) !! before;
      assert before - q.rows == (before - p.rows) + gone;
    }
  }

  lemma SizeOfGain(rows: set<Grant>, before: set<Grant>, wanted: set<Grant>, dropped: set<Grant>)
    requires wanted !! before && dropped <= before
    ensures |wanted| == |((rows + wanted) - dropped) - before| - |rows - before| + |wanted * rows|
  {
    assert ((rows + wanted) - dropped) - before == (rows - before) + (wanted - rows);
    assert wanted == (wanted - rows) + wanted * rows;
  }

  lemma CountCreated(catalog: Catalog, before: set<Grant>, p: Progress, item: Item)
    requires Reconcile(catalog, before, p, item).Ok?
    ensures var q := Reconcile(catalog, before, p, item).value;
            var again := if Known(catalog, item.code)
                         then RowsFor(ToCreate(before, item), item.code) * p.rows else {};
            q.created - p.created == |q.rows - before| - |p.rows - before| + |again|
  {
    var q := Reconcile(catalog, before, p, item).value;
    if Known(catalog, item.code) {
      var toCreate, toDelete := ToCreate(before, item), ToDelete(before, item);
      var wanted := RowsFor(toCreate, item.code);
      RowsForSize(toCreate, item.code);
      assert wanted !! before;
      assert RowsFor(toDelete, item.code) <= before;
      SizeOfGain(p.rows, before, wanted, RowsFor(toDelete, item.code));
    }
  }

  lemma AgainMeansRepeat(catalog: Catalog, before: set<Grant>, items: seq<Item>, item: Item)
    requires ReconcileAll(catalog, before, items).Ok? && Known(catalog, item.code)
    ensures RowsFor(ToCreate(before, item), item.code) * ReconcileAll(catalog, before, items).value.rows != {}
            <==> RepeatsLast(catalog, before, items, item)
  {
    var rows := ReconcileAll(catalog, before, items).value.rows;
    var again := RowsFor(ToCreate(before, item), item.code) * rows;
    forall r: Role | Configurable(r)
      ensures r in Granted(before, item.code) <==> (r, item.code) in before {
      assert (r, item.code) in before ==> r in Granted(before, item.code);
    }
    if again != {} {
      var g :| g in again;
      FinalRows(catalog, before, items, g);
      var other :| other in items && Names(catalog, other, g.1) && g.0 in Requested(other);
      var i :| 0 <= i < |items| && items[i] == other;
      assert AskAgain(catalog, before, items[i], item, g.0);
    }
    if RepeatsLast(catalog, before, items, item) {
      var i, r :| 0 <= i < |items| && AskAgain(catalog, before, items[i], item, r);
      FinalRows(catalog, before, items, (r, item.code));
      assert items[i] in items && Names(catalog, items[i], item.code);
      assert (r, item.code) in again;
    }
  }

  /**
  For any payload, `deleted` is the number of grants lost. `created` is the number of grants won,
  exactly if no new grant is asked for twice; otherwise it is larger.
  */
  lemma {:induction false} CountersExact(catalog: Catalog, before: set<Grant>, items: seq<Item>)
    requires ReconcileAll(catalog, before, items).Ok?
    ensures var p := ReconcileAll(catalog, before, items).value;
            && p.deleted == |before - p.rows|
            && p.created >= |p.rows - before|
            && (p.created == |p.rows - before| <==> !Repeats(catalog, before, items))
    decreases |items|
  {
    if items == [] {
      assert before - before == {};
    } else {
      var last := |items| - 1;
      var p := ReconcileAll(catalog, before, items[..last]).value;
      CountersExact(catalog, before, items[..last]);
      CountDeleted(catalog, before, p, items[last]);
      CountCreated(catalog, before, p, items[last]);
      assert items == items[..last] + [items[last]];
      RepeatsSnoc(catalog, before, items[..last], items[last]);
      if Known(catalog, items[last].code) {
        AgainMeansRepeat(catalog, before, items[..last], items[last]);
      }
    }
  }

  lemma SizeOfChange(a: set<Grant>, b: set<Grant>)
    ensures |b| - |a| == |b - a| - |a - b|
    ensures a == b <==> |b - a| == 0 && |a - b| == 0
  {
    assert a == (a * b) + (a - b) && b == (a * b) + (b - a);
  }

  /**
  `changed` tells whether the grants changed, for any payload, and `created - deleted` is the
  change in the number of rows exactly if no new grant is asked for twice.
  */
  lemma MetaTellsTheChange(catalog: Catalog, before: set<Grant>, items: seq<Item>)
    requires ReconcileAll(catalog, before, items).Ok?
    ensures var p := ReconcileAll(catalog, before, items).value;
            && ((p.created > 0 || p.deleted > 0) <==> p.rows != before)
            && (p.created - p.deleted == |p.rows| - |before| <==> !Repeats(catalog, before, items))
  {
    var p := ReconcileAll(catalog, before, items).value;
    CountersExact(catalog, before, items);
    SizeOfChange(before, p.rows);
    if p.rows == before && p.created > 0 {
      RepeatMeansChange(catalog, before, items);
    }
  }

  lemma RepeatMeansChange(catalog: Catalog, before: set<Grant>, items: seq<Item>)
    requires ReconcileAll(catalog, before, items).Ok? && Repeats(catalog, before, items)
    ensures ReconcileAll(catalog, before, items).value.rows != before
  {
    var i, j, r :| 0 <= i < j < |items| && AskAgain(catalog, before, items[i], items[j], r);
    FinalRows(catalog, before, items, (r, items[i].code));
    assert items[i] in items && Names(catalog, items[i], items[i].code);
  }

  ghost predicate NamedOnce(items: seq<Item>) {
    forall i, j :: 0 <= i < j < |items| ==> items[i].code != items[j].code
  }

  lemma NamedOnceAgrees(catalog: Catalog, before: set<Grant>, items: seq<Item>)
    requires NamedOnce(items)
    ensures Agreeing(catalog, items) && !Repeats(catalog, before, items)
  {
  }

  /** For a payload naming each permission once, everything the response says is literally true. */
  lemma NamedOnceIsExact(catalog: Catalog, before: set<Grant>, items: seq<Item>)
    requires ReconcileAll(catalog, before, items).Ok? && NamedOnce(items)
    ensures var p := ReconcileAll(catalog, before, items).value;
            && (forall item :: item in items && Known(catalog, item.code) ==> Granted(p.rows, item.code) == Requested(item))
            && p.created == |p.rows - before| && p.deleted == |before - p.rows|
            && p.created - p.deleted == |p.rows| - |before|
            && ((p.created > 0 || p.deleted > 0) <==> p.rows != before)
  {
    NamedOnceAgrees(catalog, before, items);
    ExactIffAgreeing(catalog, before, items);
    CountersExact(catalog, before, items);
    MetaTellsTheChange(catalog, before, items);
  }

  // ---- Runs of updates ----

  function Update(catalog: Catalog, rows: set<Grant>, items: seq<Item>): set<Grant> {
    match ReconcileAll(catalog, rows, items)
    case Ok(p) => p.rows
    case Err(_) => rows
  }

  ghost predicate WithinBoundary(catalog: Catalog, rows: set<Grant>) {
    forall g :: g in rows && Configurable(g.0) && Known(catalog, g.1) ==> Allowed(g.0, g.1)
  }

  lemma UpdateWithinBoundary(catalog: Catalog, rows: set<Grant>, items: seq<Item>)
    requires WithinBoundary(catalog, rows)
    ensures WithinBoundary(catalog, Update(catalog, rows, items))
  {
    if ReconcileAll(catalog, rows, items).Ok? {
      AcceptedExactly(catalog, rows, items);
      forall g | g in Update(catalog, rows, items) && Configurable(g.0) && Known(catalog, g.1) ensures Allowed(g.0, g.1) {
        FinalRows(catalog, rows, items, g);
        if g !in rows {
          var item :| item in items && Names(catalog, item, g.1) && g.0 in Requested(item);
          var t :| t in item.roles && t.enabled && t.role == g.0;
          assert !Invalid(t, item.code);
        }
      }
    }
  }

  /** No sequence of updates, accepted or rejected, takes the matrix outside the boundary. */
  lemma {:induction false} RunWithinBoundary(catalog: Catalog, run: seq<set<Grant>>, payloads: seq<seq<Item>>, k: nat)
    requires |run| == |payloads| + 1 && k <= |payloads|
    requires forall m :: 0 <= m < |payloads| ==> run[m + 1] == Update(catalog, run[m], payloads[m])
    requires WithinBoundary(catalog, run[0])
    ensures WithinBoundary(catalog, run[k])
  {
    if k > 0 {
      RunWithinBoundary(catalog, run, payloads, k - 1);
      UpdateWithinBoundary(catalog, run[k - 1], payloads[k - 1]);
    }
  }

  // ---- Reading the matrix and sending it back ----

  function MatrixRow(rows: set<Grant>, code: Code): Item {
    Item(code, seq(|CONFIGURABLE_ROLES|, k requires 0 <= k < |CONFIGURABLE_ROLES| =>
      Toggle(CONFIGURABLE_ROLES[k], (CONFIGURABLE_ROLES[k], code) in rows)))
  }

  lemma EveryConfigurableRoleListed(role: Role) returns (k: nat)
    requires Configurable(role)
    ensures k < |CONFIGURABLE_ROLES| && CONFIGURABLE_ROLES[k] == role
  {
    k := match role
      case ROOM_VIEWER => 0
      case ROOM_CLERK => 1
      case ROOM_ADMIN => 2
      case LOCATION_VIEWER => 3
      case LOCATION_ADMIN => 4
      case DEPARTMENT_VIEWER => 5
      case DEPARTMENT_ADMIN => 6;
  }

  lemma MatrixRowRequestsWhatIsGranted(rows: set<Grant>, code: Code)
    ensures Requested(MatrixRow(rows, code)) == Granted(rows, code)
  {
    var item := MatrixRow(rows, code);
    forall r: Role ensures r in Requested(item) <==> r in Granted(rows, code) {
      if r in Granted(rows, code) {
        var k := EveryConfigurableRoleListed(r);
        assert item.roles[k] == Toggle(r, true) && item.roles[k] in item.roles;
      }
      if r in Requested(item) {
        var t :| t in item.roles && t.enabled && t.role == r;
        assert (r, code) in rows;
        assert (r, code).0 in Granted(rows, code);
      }
    }
  }

  /** Sending back rows of the current matrix, in any order and number, changes and counts nothing. */
  lemma {:induction false} ReadBackIsNoOp(catalog: Catalog, rows: set<Grant>, items: seq<Item>)
    requires WithinBoundary(catalog, rows)
    requires forall item :: item in items ==> item == MatrixRow(rows, item.code)
    ensures ReconcileAll(catalog, rows, items) == Ok(Progress(rows, 0, 0))
    decreases |items|
  {
    if items != [] {
      var last := |items| - 1;
      ReadBackIsNoOp(catalog, rows, items[..last]);
      var item := items[last];
      MatrixRowRequestsWhatIsGranted(rows, item.code);
      if Known(catalog, item.code) {
        forall t | t in item.roles ensures !Invalid(t, item.code) {
          assert t.enabled ==> (t.role, item.code) in rows;
        }
        assert ToCreate(rows, item) == {} && ToDelete(rows, item) == {};
        assert RowsFor({}, item.code) == {};
      }
    }
  }

  // ---- The service ----

  function Flatten(domains: seq<seq<Item>>): seq<Item> {
    if domains == [] then [] else Flatten(domains[..|domains| - 1]) + domains[|domains| - 1]
  }

  lemma {:induction false} FlattenRest(domains: seq<seq<Item>>, d: nat) returns (rest: seq<Item>)
    requires d <= |domains|
    ensures Flatten(domains) == Flatten(domains[..d]) + rest
    decreases |domains| - d
  {
    if d == |domains| {
      rest := [];
      assert domains[..d] == domains;
    } else {
      var tail := FlattenRest(domains, d + 1);
      assert domains[..d + 1][..d] == domains[..d];
      rest := domains[d] + tail;
    }
  }

  // ---- One permission in two domains ----

  lemma FlattenTwo(a: Item, b: Item)
    ensures Flatten([[a], [b]]) == [a, b]
  {
    assert [[a], [b]][..1] == [[a]] && [[a]][..0] == [];
    assert Flatten([]) == [] && Flatten([[a]]) == [a];
  }

  /** The department admin is to have the permission, or nobody is. */
  function Wish(code: Code, granted: bool): Item {
    Item(code, if granted then [Toggle(DEPARTMENT_ADMIN, true)] else [])
  }

  lemma WishIsClean(code: Code, granted: bool)
    requires Allowed(DEPARTMENT_ADMIN, code)
    ensures Clean(Wish(code, granted)) && Requested(Wish(code, granted)) == if granted then {DEPARTMENT_ADMIN} else {}
  {
    if granted { assert Wish(code, granted).roles[0] in Wish(code, granted).roles; }
  }

  /** Items that ask for a permission which nobody has, for the department admin only. */
  ghost predicate Wishes(catalog: Catalog, code: Code, items: seq<Item>) {
    && Known(catalog, code) && Allowed(DEPARTMENT_ADMIN, code) && Wish(code, true) in items
    && forall item :: item in items ==> item == Wish(code, true) || item == Wish(code, false)
  }

  lemma WishGranted(catalog: Catalog, code: Code, items: seq<Item>, g: Grant)
    requires Wishes(catalog, code, items)
    ensures Final(catalog, {}, items, g) <==> g == (DEPARTMENT_ADMIN, code)
  {
    WishIsClean(code, true);
    WishIsClean(code, false);
    assert Names(catalog, Wish(code, true), code);
  }

  lemma WishesAccepted(catalog: Catalog, code: Code, items: seq<Item>)
    requires Wishes(catalog, code, items)
    ensures var r := ReconcileAll(catalog, {}, items);
            r.Ok? && r.value.rows == {(DEPARTMENT_ADMIN, code)}
  {
    WishIsClean(code, true);
    WishIsClean(code, false);
    AcceptedExactly(catalog, {}, items);
    forall g: Grant ensures g in ReconcileAll(catalog, {}, items).value.rows <==> g == (DEPARTMENT_ADMIN, code) {
      FinalRows(catalog, {}, items, g);
      WishGranted(catalog, code, items, g);
    }
  }

  lemma GrantedOne(role: Role, code: Code)
    requires Configurable(role)
    ensures Granted({(role, code)}, code) == {role}
  {
    assert (role, code) in {(role, code)};
  }

  /**
  Two domains ask differently for one permission that a department admin may have: accepted, and
  what is left is not what the second one asked for.
  */
  lemma SecondDomainIgnored(catalog: Catalog, code: Code)
    requires Known(catalog, code) && Allowed(DEPARTMENT_ADMIN, code)
    ensures var r := ReconcileAll(catalog, {}, Flatten([[Wish(code, true)], [Wish(code, false)]]));
            && r.Ok? && Granted(r.value.rows, code) == {DEPARTMENT_ADMIN}
            && Requested(Wish(code, false)) == {}
  {
    FlattenTwo(Wish(code, true), Wish(code, false));
    WishesAccepted(catalog, code, Flatten([[Wish(code, true)], [Wish(code, false)]]));
    GrantedOne(DEPARTMENT_ADMIN, code);
    WishIsClean(code, false);
  }

  lemma CountedAgain(catalog: Catalog, code: Code, items: seq<Item>)
    requires Wishes(catalog, code, items) && |items| >= 2 && items[0] == items[1] == Wish(code, true)
    ensures ReconcileAll(catalog, {}, items).Ok? && ReconcileAll(catalog, {}, items).value.created > 1
  {
    WishesAccepted(catalog, code, items);
    WishIsClean(code, true);
    assert AskAgain(catalog, {}, items[0], items[1], DEPARTMENT_ADMIN);
    CountersExact(catalog, {}, items);
    assert {(DEPARTMENT_ADMIN, code)} - {} == {(DEPARTMENT_ADMIN, code)};
  }

  /** Two domains ask for the same new grant: it is the only one won, and more than one is counted. */
  lemma OneGrantCountedTwice(catalog: Catalog, code: Code)
    requires Known(catalog, code) && Allowed(DEPARTMENT_ADMIN, code)
    ensures var r := ReconcileAll(catalog, {}, Flatten([[Wish(code, true)], [Wish(code, true)]]));
            r.Ok? && r.value.rows == {(DEPARTMENT_ADMIN, code)} && r.value.created > 1
  {
    var items := Flatten([[Wish(code, true)], [Wish(code, true)]]);
    FlattenTwo(Wish(code, true), Wish(code, true));
    WishesAccepted(catalog, code, items);
    CountedAgain(catalog, code, items);
  }

  /** An input for both: viewing assets is the only permission of the catalog. */
  lemma AssetsViewIsAnInput()
    ensures Known(map["assets.view" := true], "assets.view") && Allowed(DEPARTMENT_ADMIN, "assets.view")
  {
    DepartmentAdminExact("assets.view");
  }

  // ---- The methods ----

  lemma FlattenNext(domains: seq<seq<Item>>, d: nat)
    requires d < |domains|
    ensures Flatten(domains[..d + 1]) == Flatten(domains[..d]) + domains[d]
  {
    assert domains[..d + 1][..d] == domains[..d];
  }

  lemma ReconcileNext(catalog: Catalog, before: set<Grant>, done: seq<Item>, domain: seq<Item>, i: nat)
    requires i < |domain|
    ensures var r := ReconcileAll(catalog, before, done + domain[..i]);
            ReconcileAll(catalog, before, done + domain[..i + 1]) ==
            if r.Err? then r else Reconcile(catalog, before, r.value, domain[i])
  {
    ReconcileSnoc(catalog, before, done + domain[..i], domain[i]);
    assert done + domain[..i + 1] == done + domain[..i] + [domain[i]];
  }

  ghost predicate Reports(before: set<Grant>, spec: Result<Progress, Rejection>, after: set<Grant>,
                          r: Result<(nat, nat), Rejection>) {
    if spec.Ok? then after == spec.value.rows && r == Ok((spec.value.created, spec.value.deleted))
    else after == before && r == Err(spec.error)
  }

  lemma RejectionEndsUpdate(catalog: Catalog, before: set<Grant>, domains: seq<seq<Item>>, d: nat, i: nat)
    requires d < |domains| && i < |domains[d]|
    requires ReconcileAll(catalog, before, Flatten(domains[..d]) + domains[d][..i + 1]).Err?
    ensures ReconcileAll(catalog, before, Flatten(domains)) ==
            ReconcileAll(catalog, before, Flatten(domains[..d]) + domains[d][..i + 1])
  {
    var tail := FlattenRest(domains, d + 1);
    var done := Flatten(domains[..d]);
    FlattenNext(domains, d);
    assert Flatten(domains) == done + domains[d][..i + 1] + (domains[d][i + 1..] + tail);
    RejectionStays(catalog, before, done + domains[d][..i + 1], domains[d][i + 1..] + tail);
  }

  class MatrixService {
    const catalog: Catalog
    var rows: set<Grant>

    constructor (catalog: Catalog, rows: set<Grant>)
      ensures this.catalog == catalog && this.rows == rows
    {
      this.catalog, this.rows := catalog, rows;
    }

    method FindInvalidGrants(item: Item) returns (invalid: seq<Role>)
      ensures invalid == InvalidGrants(item, |item.roles|)
    {
      invalid := [];
      for k := 0 to |item.roles|
        invariant invalid == InvalidGrants(item, k)
      {
        var t := item.roles[k];
        if t.enabled && Configurable(t.role) {
          var boundary := GetPermissionBoundaryResult(t.role, item.code);
          if !boundary.allowed {
            invalid := invalid + [t.role];
          }
        }
      }
    }

    /** One permission of the payload; `before` are the rows fetched at the start. */
    method UpdatePermission(before: set<Grant>, item: Item, created: nat, deleted: nat)
      returns (r: Result<(nat, nat), Rejection>)
      modifies this
      ensures Reports(old(rows), Reconcile(catalog, before, Progress(old(rows), created, deleted), item), rows, r)
    {
      ghost var spec := Reconcile(catalog, before, Progress(rows, created, deleted), item);
      if !Known(catalog, item.code) {
        return Ok((created, deleted));
      }
      var invalid := FindInvalidGrants(item);
      CleanMeansNoInvalid(item);
      if invalid != [] {
        assert spec == Err(Rejection(item.code, invalid));
        return Err(Rejection(item.code, invalid));
      }
      assert spec.Ok?;
      var toCreate, toDelete := ToCreate(before, item), ToDelete(before, item);
      rows := rows + RowsFor(toCreate, item.code);
      var doomed := RowsFor(toDelete, item.code);
      var gone := doomed * rows;
      rows := rows - doomed;
      assert spec.value == Progress(rows, created + |toCreate|, deleted + |gone|);
      return Ok((created + |toCreate|, deleted + |gone|));
    }

    /** `update_matrix`: the counters of the change, or a rejection that leaves every row alone. */
    method UpdateMatrix(domains: seq<seq<Item>>) returns (r: Result<(nat, nat), Rejection>)
      modifies this
      ensures Reports(old(rows), ReconcileAll(catalog, old(rows), Flatten(domains)), rows, r)
      ensures rows == Update(catalog, old(rows), Flatten(domains))
    {
      var before := rows;
      var created, deleted := 0, 0;
      for d := 0 to |domains|
        invariant ReconcileAll(catalog, before, Flatten(domains[..d])) == Ok(Progress(rows, created, deleted))
      {
        ghost var done := Flatten(domains[..d]);
        assert done + domains[d][..0] == done;
        for i := 0 to |domains[d]|
          invariant ReconcileAll(catalog, before, done + domains[d][..i]) == Ok(Progress(rows, created, deleted))
        {
          var item := domains[d][i];
          ReconcileNext(catalog, before, done, domains[d], i);
          var outcome := UpdatePermission(before, item, created, deleted);
          if outcome.Err? {
            RejectionEndsUpdate(catalog, before, domains, d, i);
            rows := before;
            return Err(outcome.error);
          }
          created, deleted := outcome.value.0, outcome.value.1;
        }
        FlattenNext(domains, d);
        assert domains[d][..|domains[d]|] == domains[d];
      }
      assert domains[..|domains|] == domains;
      return Ok((created, deleted));
    }
  }
}
