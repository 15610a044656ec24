/** Who may hand out which role where: the governance table, scope checks and delegation. */
module Governance {
  import opened Outcomes
  import opened Roles

  type RoomId = nat
  type LocationId = nat
  type DepartmentId = nat
  type AssignmentId = nat

  /** The site tree. A room may lack a location and a location a department. */
  datatype Site = Site(locations: map<RoomId, LocationId>, departments: map<LocationId, DepartmentId>)

  function LocationOf(site: Site, r: RoomId): Option<LocationId> {
    if r in site.locations then Some(site.locations[r]) else None
  }

  function DepartmentOf(site: Site, l: LocationId): Option<DepartmentId> {
    if l in site.departments then Some(site.departments[l]) else None
  }

  datatype Level = SITE | DEPARTMENT | LOCATION | ROOM

  datatype Managed = MANAGES_ALL | These(roles: set<Role>)

  // ---- ROLE_HIERARCHY_LIST ----

  function AssignLevels(role: Role): set<Level> {
    match role
    case SITE_ADMIN => {SITE}
    case DEPARTMENT_ADMIN => {DEPARTMENT}
    case DEPARTMENT_VIEWER => {DEPARTMENT}
    case LOCATION_ADMIN => {LOCATION}
    case LOCATION_VIEWER => {LOCATION}
    case ROOM_ADMIN => {ROOM}
    case ROOM_CLERK => {ROOM}
    case ROOM_VIEWER => {ROOM}
    case UNKNOWN(_) => {}
  }

  function Manages(role: Role): Managed {
    match role
    case SITE_ADMIN => MANAGES_ALL
    case DEPARTMENT_ADMIN =>
      These({DEPARTMENT_VIEWER, LOCATION_ADMIN, LOCATION_VIEWER, ROOM_ADMIN, ROOM_CLERK, ROOM_VIEWER})
    case LOCATION_ADMIN => These({LOCATION_VIEWER, ROOM_ADMIN, ROOM_CLERK, ROOM_VIEWER})
    case ROOM_ADMIN => These({ROOM_CLERK, ROOM_VIEWER})
    case _ => These({})
  }

  datatype Scope = Scope(room: Option<RoomId>, location: Option<LocationId>, department: Option<DepartmentId>)

  datatype Assignment = Assignment(role: Role, scope: Scope)

  function Count(s: Scope): nat {
    (if s.room.Some? then 1 else 0) + (if s.location.Some? then 1 else 0) + if s.department.Some? then 1 else 0
  }

  /** How deep in the site tree a role belongs, by the beginning of its code. */
  function Depth(role: Role): Option<nat> {
    match role
    case SITE_ADMIN => Some(0)
    case DEPARTMENT_ADMIN => Some(1)
    case DEPARTMENT_VIEWER => Some(1)
    case LOCATION_ADMIN => Some(2)
    case LOCATION_VIEWER => Some(2)
    case ROOM_ADMIN => Some(3)
    case ROOM_CLERK => Some(3)
    case ROOM_VIEWER => Some(3)
    case UNKNOWN(_) => None
  }

  /** The assignment table's constraint: exactly the scope the role's code begins with. */
  predicate WellPlaced(a: Assignment) {
    match a.scope
    case Scope(None, None, None) => Depth(a.role) == Some(0)
    case Scope(None, None, Some(_)) => Depth(a.role) == Some(1)
    case Scope(None, Some(_), None) => Depth(a.role) == Some(2)
    case Scope(Some(_), None, None) => Depth(a.role) == Some(3)
    case _ => false
  }

  // ---- ScopeService ----

  predicate CanAccessRoom(site: Site, actor: Assignment, r: RoomId) {
    match actor.role
    case SITE_ADMIN => true
    case DEPARTMENT_VIEWER => InDepartment(site, r, actor.scope.department)
    case DEPARTMENT_ADMIN => InDepartment(site, r, actor.scope.department)
    case LOCATION_VIEWER => LocationOf(site, r) == actor.scope.location
    case LOCATION_ADMIN => LocationOf(site, r) == actor.scope.location
    case ROOM_VIEWER => Some(r) == actor.scope.room
    case ROOM_CLERK => Some(r) == actor.scope.room
    case ROOM_ADMIN => Some(r) == actor.scope.room
    case UNKNOWN(_) => false
  }

  predicate InDepartment(site: Site, r: RoomId, d: Option<DepartmentId>) {
    LocationOf(site, r).Some? && DepartmentOf(site, LocationOf(site, r).value) == d
  }

  predicate CanAccessRoleAssignment(site: Site, actor: Assignment, a: Assignment) {
    match a.scope
    case Scope(Some(r), _, _) => CanAccessRoom(site, actor, r)
    case Scope(None, Some(l), _) => CoversLocation(site, actor, l)
    case Scope(None, None, Some(d)) => actor.role.SITE_ADMIN? || actor.scope.department == Some(d)
    case Scope(None, None, None) => actor.role.SITE_ADMIN?
  }

  predicate CoversLocation(site: Site, actor: Assignment, l: LocationId) {
    if actor.role.SITE_ADMIN? then true
    else if actor.scope.department.Some? then actor.scope.department == DepartmentOf(site, l)
    else actor.scope.location == Some(l)
  }

  // ---- RoleGovernanceService ----

  predicate CanAssignRole(actor: Assignment, target: Role) {
    match Manages(actor.role)
    case MANAGES_ALL => true
    case These(roles) => target in roles
  }

  predicate CanAssignScope(site: Site, actor: Assignment, target: Role, s: Scope) {
    if Count(s) == 0 then actor.role.SITE_ADMIN? && SITE in AssignLevels(target)
    else if Count(s) > 1 then false
    else if s.room.Some? then ROOM in AssignLevels(target) && CanAccessRoom(site, actor, s.room.value)
    else if s.location.Some? then LOCATION in AssignLevels(target) && CoversLocation(site, actor, s.location.value)
    else DEPARTMENT in AssignLevels(target) && (actor.role.SITE_ADMIN? || actor.scope.department == s.department)
  }

  predicate CanAssign(site: Site, actor: Assignment, target: Role, s: Scope) {
    CanAssignRole(actor, target) && CanAssignScope(site, actor, target, s)
  }

  predicate CanManage(site: Site, actor: Assignment, a: Assignment) {
    CanAssign(site, actor, a.role, a.scope)
  }

  function Or<T>(x: Option<T>, y: Option<T>): Option<T> {
    if x.Some? then x else y
  }

  /** The scope an update is checked against: a missing field falls back to the current one. */
  function Merged(s: Scope, current: Scope): Scope {
    Scope(Or(s.room, current.room), Or(s.location, current.location), Or(s.department, current.department))
  }

  predicate CanUpdate(site: Site, actor: Assignment, a: Assignment, role: Role, s: Scope) {
    CanManage(site, actor, a) && CanAssign(site, actor, role, Merged(s, a.scope))
  }

  // ---- What a scope reaches ----

  /** Room r lies in the scope, by the fields and the site tree alone. */
  predicate Reaches(site: Site, s: Scope, r: RoomId) {
    || s == Scope(None, None, None)
    || s.room == Some(r)
    || (r in site.locations && s.location == Some(site.locations[r]))
    || (r in site.locations && site.locations[r] in site.departments
        && s.department == Some(site.departments[site.locations[r]]))
  }

  /** An assignment opens exactly the rooms in its scope, whatever its role; an unknown role opens none. */
  lemma OpensExactly(site: Site, a: Assignment, r: RoomId)
    requires WellPlaced(a) || a.role.UNKNOWN?
    ensures CanAccessRoom(site, a, r) <==> !a.role.UNKNOWN? && Reaches(site, a.scope, r)
  {
  }

  /** Scope `inner` lies inside `outer`: the whole site, the same place, or further down its branch of the tree. */
  predicate Encloses(site: Site, outer: Scope, inner: Scope) {
    || outer == Scope(None, None, None)
    || (outer == inner && Count(inner) == 1)
    || (inner.location.Some? && outer.department.Some? && DepartmentOf(site, inner.location.value) == outer.department)
    || (inner.room.Some? && Reaches(site, outer, inner.room.value))
  }

  predicate Outranks(actor: Role, target: Role) {
    || actor.SITE_ADMIN?
    || (Depth(actor).Some? && Depth(target).Some? && Depth(actor).value <= Depth(target).value
        && Rank(target) < Rank(actor))
  }

  /** Below the site level a role hands out exactly the roles of lower rank on its own or a deeper level. */
  lemma ManagesExactly(actor: Assignment, target: Role)
    ensures CanAssignRole(actor, target) <==> Outranks(actor.role, target)
  {
  }

  /** Scopes are handed out exactly on the level of the role given, inside the giver's own. */
  lemma AssignScopeExactly(site: Site, actor: Assignment, target: Role, s: Scope)
    requires WellPlaced(actor)
    ensures CanAssignScope(site, actor, target, s) <==> WellPlaced(Assignment(target, s)) && Encloses(site, actor.scope, s)
  {
    if s.room.Some? { OpensExactly(site, actor, s.room.value); }
  }

  /** Exactly which assignments an actor can see: those inside its own scope. */
  lemma SeesExactly(site: Site, actor: Assignment, a: Assignment)
    requires WellPlaced(actor) && WellPlaced(a)
    ensures CanAccessRoleAssignment(site, actor, a) <==> Encloses(site, actor.scope, a.scope)
  {
    ScopeChecksAgree(site, actor, a);
    AssignScopeExactly(site, actor, a.role, a.scope);
  }

  // ---- One delegation ----

  lemma AssignedIsWellPlaced(site: Site, actor: Assignment, target: Role, s: Scope)
    requires CanAssign(site, actor, target, s)
    ensures WellPlaced(Assignment(target, s))
  {
  }

  /** Governance and visibility use the same notion of scope. */
  lemma ScopeChecksAgree(site: Site, actor: Assignment, a: Assignment)
    requires WellPlaced(actor) && WellPlaced(a)
    ensures CanAssignScope(site, actor, a.role, a.scope) <==> CanAccessRoleAssignment(site, actor, a)
  {
  }

  /** Whatever an assignment inside an actor's scope opens, the actor can open too. */
  lemma ScopeContains(site: Site, actor: Assignment, a: Assignment, r: RoomId)
    requires WellPlaced(actor) && WellPlaced(a) && CanAccessRoleAssignment(site, actor, a)
    requires CanAccessRoom(site, a, r)
    ensures CanAccessRoom(site, actor, r)
  {
    if !actor.role.SITE_ADMIN? {
      assert !a.role.SITE_ADMIN?;
    }
  }

  lemma DelegationContained(site: Site, actor: Assignment, target: Role, s: Scope, r: RoomId)
    requires WellPlaced(actor) && CanAssign(site, actor, target, s)
    requires CanAccessRoom(site, Assignment(target, s), r)
    ensures CanAccessRoom(site, actor, r)
  {
    AssignedIsWellPlaced(site, actor, target, s);
    ScopeChecksAgree(site, actor, Assignment(target, s));
    ScopeContains(site, actor, Assignment(target, s), r);
  }

  function Rank(role: Role): nat {
    match role
    case SITE_ADMIN => 4
    case DEPARTMENT_ADMIN => 3
    case LOCATION_ADMIN => 2
    case ROOM_ADMIN => 1
    case _ => 0
  }

  lemma DelegationDescends(site: Site, actor: Assignment, target: Role, s: Scope)
    requires !actor.role.SITE_ADMIN? && CanAssign(site, actor, target, s)
    ensures Rank(target) < Rank(actor.role) && !target.SITE_ADMIN?
  {
  }

  // ---- Updates as the endpoint performs them ----

  datatype Field<+T> = Keep | Clear | Put(value: T)

  function Saved<T>(f: Field<T>, current: Option<T>): Option<T> {
    match f
    case Keep => current
    case Clear => None
    case Put(x) => Some(x)
  }

  datatype Change = Change(role: Option<Role>, room: Field<RoomId>, location: Field<LocationId>, department: Field<DepartmentId>)

  function SavedScope(c: Change, s: Scope): Scope {
    Scope(Saved(c.room, s.room), Saved(c.location, s.location), Saved(c.department, s.department))
  }

  function Changed(c: Change, a: Assignment): Assignment {
    Assignment(if c.role.Some? then c.role.value else a.role, SavedScope(c, a.scope))
  }

  /** The endpoint checks governance, then saving enforces the placement constraint. */
  predicate UpdateAllowed(site: Site, actor: Assignment, a: Assignment, c: Change) {
    var b := Changed(c, a);
    CanUpdate(site, actor, a, b.role, b.scope) && WellPlaced(b)
  }

  /**
  A cleared field is checked as if it were kept, yet what is saved is what was checked. And an
  update moves no assignment to another level, except one that was site-wide.
  */
  lemma UpdateSavesWhatWasChecked(site: Site, actor: Assignment, a: Assignment, c: Change)
    requires WellPlaced(a) && UpdateAllowed(site, actor, a, c)
    ensures Changed(c, a).scope == Merged(Changed(c, a).scope, a.scope)
    ensures CanAssign(site, actor, Changed(c, a).role, Changed(c, a).scope)
    ensures a.role.SITE_ADMIN? || AssignLevels(Changed(c, a).role) == AssignLevels(a.role)
  {
    var b := Changed(c, a);
    AssignedIsWellPlaced(site, actor, b.role, Merged(b.scope, a.scope));
  }

  /** The change that turns any assignment into b. */
  function Towards(b: Assignment): Change {
    Change(Some(b.role),
           if b.scope.room.Some? then Put(b.scope.room.value) else Clear,
           if b.scope.location.Some? then Put(b.scope.location.value) else Clear,
           if b.scope.department.Some? then Put(b.scope.department.value) else Clear)
  }

  /** What is sent is what is saved, any assignment can be reached, and a field not sent stays. */
  lemma UpdateWritesWhatIsSent(c: Change, a: Assignment, b: Assignment)
    ensures Changed(Towards(b), a) == b
    ensures Changed(c.(role := None), a) == Assignment(a.role, Changed(c, a).scope)
    ensures Changed(c.(room := Keep), a).scope == Changed(c, a).scope.(room := a.scope.room)
    ensures Changed(c.(location := Keep), a).scope == Changed(c, a).scope.(location := a.scope.location)
    ensures Changed(c.(department := Keep), a).scope == Changed(c, a).scope.(department := a.scope.department)
  {
  }

  // ---- Chains ----

  /** Each assignment of the chain was handed out or rewritten by the one before it. */
  ghost predicate IsChain(site: Site, chain: seq<Assignment>) {
    && |chain| > 0 && WellPlaced(chain[0])
    && forall k :: 0 <= k < |chain| - 1 ==> CanAssign(site, chain[k], chain[k + 1].role, chain[k + 1].scope)
  }

  lemma {:induction false} ChainContained(site: Site, chain: seq<Assignment>, k: nat, r: RoomId)
    requires IsChain(site, chain) && k < |chain|
    ensures WellPlaced(chain[k])
    ensures CanAccessRoom(site, chain[k], r) ==> CanAccessRoom(site, chain[0], r)
  {
    if k > 0 {
      ChainContained(site, chain, k - 1, r);
      AssignedIsWellPlaced(site, chain[k - 1], chain[k].role, chain[k].scope);
      if CanAccessRoom(site, chain[k], r) {
        DelegationContained(site, chain[k - 1], chain[k].role, chain[k].scope, r);
      }
    }
  }

  lemma {:induction false} ChainBounded(site: Site, chain: seq<Assignment>, k: nat)
    requires IsChain(site, chain) && k < |chain| && !chain[0].role.SITE_ADMIN?
    ensures !chain[k].role.SITE_ADMIN? && Rank(chain[k].role) + k <= Rank(chain[0].role)
    ensures k <= 3
  {
    if k > 0 {
      ChainBounded(site, chain, k - 1);
      DelegationDescends(site, chain[k - 1], chain[k].role, chain[k].scope);
    }
  }

  // ---- Runs over the table of assignments ----

  type Table = map<AssignmentId, Assignment>

  datatype Step =
    | Create(actor: AssignmentId, id: AssignmentId, role: Role, scope: Scope)
    | Update(actor: AssignmentId, id: AssignmentId, change: Change)
    | Delete(actor: AssignmentId, id: AssignmentId)

  predicate Accepted(site: Site, t: Table, step: Step) {
    && step.actor in t
    && match step
       case Create(actor, id, role, scope) =>
         id !in t && CanAssign(site, t[actor], role, scope) && WellPlaced(Assignment(role, scope))
       case Update(actor, id, c) => id in t && UpdateAllowed(site, t[actor], t[id], c)
       case Delete(actor, id) => id in t && CanManage(site, t[actor], t[id])
  }

  function Apply(site: Site, t: Table, step: Step): Table {
    if !Accepted(site, t, step) then t
    else match step
      case Create(_, id, role, scope) => t[id := Assignment(role, scope)]
      case Update(_, id, c) => t[id := Changed(c, t[id])]
      case Delete(_, id) => t - {id}
  }

  ghost predicate AllWellPlaced(t: Table) {
    forall id :: id in t ==> WellPlaced(t[id])
  }

  predicate MayGive(site: Site, actor: Assignment, a: Assignment) {
    WellPlaced(a) && Outranks(actor.role, a.role) && Encloses(site, actor.scope, a.scope)
  }

  lemma GivesExactly(site: Site, actor: Assignment, a: Assignment)
    requires WellPlaced(actor)
    ensures CanAssign(site, actor, a.role, a.scope) <==> MayGive(site, actor, a)
  {
    ManagesExactly(actor, a.role);
    AssignScopeExactly(site, actor, a.role, a.scope);
  }

  lemma UpdateExactly(site: Site, actor: Assignment, a: Assignment, c: Change)
    requires WellPlaced(actor) && WellPlaced(a)
    ensures UpdateAllowed(site, actor, a, c) <==>
            && MayGive(site, actor, a) && MayGive(site, actor, Changed(c, a))
            && (a.role.SITE_ADMIN? || Depth(Changed(c, a).role) == Depth(a.role))
  {
    var b := Changed(c, a);
    GivesExactly(site, actor, a);
    GivesExactly(site, actor, b);
    if CanUpdate(site, actor, a, b.role, b.scope) { AssignedIsWellPlaced(site, actor, b.role, Merged(b.scope, a.scope)); }
  }

  /**
  Exactly which steps are carried out: the actor must be one who could give the assignment as it is
  and as it will be. An update may not move an assignment to another level, unless it was site-wide.
  */
  lemma AcceptedExactly(site: Site, t: Table, step: Step)
    requires AllWellPlaced(t)
    ensures Accepted(site, t, step) <==>
            && step.actor in t
            && match step
               case Create(actor, id, role, scope) => id !in t && MayGive(site, t[actor], Assignment(role, scope))
               case Update(actor, id, c) =>
                 && id in t && MayGive(site, t[actor], t[id]) && MayGive(site, t[actor], Changed(c, t[id]))
                 && (t[id].role.SITE_ADMIN? || Depth(Changed(c, t[id]).role) == Depth(t[id].role))
               case Delete(actor, id) => id in t && MayGive(site, t[actor], t[id])
  {
    if step.actor in t {
      var actor := t[step.actor];
      match step
      case Create(_, id, role, scope) => GivesExactly(site, actor, Assignment(role, scope));
      case Update(_, id, c) => if id in t { UpdateExactly(site, actor, t[id], c); }
      case Delete(_, id) => if id in t { GivesExactly(site, actor, t[id]); }
    }
  }

  ghost predicate IsRun(site: Site, run: seq<Table>, steps: seq<Step>) {
    && |run| == |steps| + 1
    && AllWellPlaced(run[0])
    && forall k :: 0 <= k < |steps| ==> run[k + 1] == Apply(site, run[k], steps[k])
  }

  /** What an accepted step leaves under its id. */
  function Written(t: Table, step: Step): Option<Assignment>
    requires step.Update? ==> step.id in t
  {
    match step
    case Create(_, _, role, scope) => Some(Assignment(role, scope))
    case Update(_, id, c) => Some(Changed(c, t[id]))
    case Delete(_, _) => None
  }

  function RowOf(t: Table, id: AssignmentId): Option<Assignment> {
    if id in t then Some(t[id]) else None
  }

  /** Every row is what the last accepted step on it has written, until another one is accepted. */
  lemma {:induction false} LastWriteStands(site: Site, run: seq<Table>, steps: seq<Step>, m: nat, k: nat)
    requires IsRun(site, run, steps) && m < k <= |steps| && Accepted(site, run[m], steps[m])
    requires forall n :: m < n < k && Accepted(site, run[n], steps[n]) ==> steps[n].id != steps[m].id
    ensures RowOf(run[k], steps[m].id) == Written(run[m], steps[m])
  {
    if m + 1 < k {
      LastWriteStands(site, run, steps, m, k - 1);
    }
  }

  ghost predicate Inside(site: Site, a: Assignment, d: DepartmentId) {
    && WellPlaced(a) && !a.role.SITE_ADMIN?
    && forall r :: CanAccessRoom(site, a, r) ==> InDepartment(site, r, Some(d))
  }

  lemma WrittenInside(site: Site, actor: Assignment, role: Role, s: Scope, d: DepartmentId)
    requires Inside(site, actor, d) && CanAssign(site, actor, role, s)
    ensures Inside(site, Assignment(role, s), d)
  {
    AssignedIsWellPlaced(site, actor, role, s);
    DelegationDescends(site, actor, role, s);
    forall r | CanAccessRoom(site, Assignment(role, s), r) ensures InDepartment(site, r, Some(d)) {
      DelegationContained(site, actor, role, s, r);
    }
  }

  /** Every assignment a department admin can see, its own among them, is inside the department. */
  lemma DepartmentIsInside(site: Site, a: Assignment, d: DepartmentId)
    requires WellPlaced(a) && CanAccessRoleAssignment(site, Assignment(DEPARTMENT_ADMIN, Scope(None, None, Some(d))), a)
    ensures Inside(site, a, d)
  {
    var admin := Assignment(DEPARTMENT_ADMIN, Scope(None, None, Some(d)));
    forall r | CanAccessRoom(site, a, r) ensures InDepartment(site, r, Some(d)) {
      ScopeContains(site, admin, a, r);
    }
  }

  /** A step writes only under its id, and what an actor inside d writes is inside d. */
  lemma StepInside(site: Site, t: Table, step: Step, d: DepartmentId)
    requires AllWellPlaced(t)
    ensures var t' := Apply(site, t, step);
            && AllWellPlaced(t')
            && (forall id :: id != step.id ==> (id in t' <==> id in t) && (id in t ==> t'[id] == t[id]))
            && (Accepted(site, t, step) && Inside(site, t[step.actor], d) && step.id in t' ==> Inside(site, t'[step.id], d))
  {
    if Accepted(site, t, step) {
      var actor := t[step.actor];
      match step
      case Create(_, id, role, scope) =>
        if Inside(site, actor, d) { WrittenInside(site, actor, role, scope, d); }
      case Update(_, id, c) =>
        UpdateSavesWhatWasChecked(site, actor, t[id], c);
        if Inside(site, actor, d) { WrittenInside(site, actor, Changed(c, t[id]).role, Changed(c, t[id]).scope, d); }
      case Delete(_, _) =>
    }
  }

  /**
  The assignments of `start` and, from then on, each one whose last accepted write was made by a
  member; one that somebody else writes leaves the group.
  */
  function Group(site: Site, run: seq<Table>, steps: seq<Step>, start: set<AssignmentId>, k: nat): set<AssignmentId>
    requires k <= |steps| < |run|
  {
    if k == 0 then start
    else
      var before, step := Group(site, run, steps, start, k - 1), steps[k - 1];
      if !Accepted(site, run[k - 1], step) then before
      else if step.actor in before then before + {step.id}
      else before - {step.id}
  }

  ghost predicate InsideAll(site: Site, t: Table, group: set<AssignmentId>, d: DepartmentId) {
    forall id :: id in group && id in t ==> Inside(site, t[id], d)
  }

  /**
  Take any assignments inside a department. Whoever else acts, at every moment of the run these and
  all that they, or those they wrote to, have written last open no room outside the department.
  */
  lemma {:induction false} DepartmentContainsItsDelegations(site: Site, run: seq<Table>, steps: seq<Step>,
                                                            start: set<AssignmentId>, k: nat, d: DepartmentId)
    requires IsRun(site, run, steps) && k <= |steps| && InsideAll(site, run[0], start, d)
    ensures AllWellPlaced(run[k])
    ensures InsideAll(site, run[k], Group(site, run, steps, start, k), d)
  {
    if k > 0 {
      DepartmentContainsItsDelegations(site, run, steps, start, k - 1, d);
      StepInside(site, run[k - 1], steps[k - 1], d);
    }
  }

  ghost predicate GroupActs(site: Site, run: seq<Table>, steps: seq<Step>, start: set<AssignmentId>, k: nat)
    requires |steps| < |run|
  {
    forall m :: 0 <= m < k <= |steps| && Accepted(site, run[m], steps[m]) ==> steps[m].actor in Group(site, run, steps, start, m)
  }

  /** If nobody else acts, every assignment outside the group is exactly as it was. */
  lemma {:induction false} OutsidersUntouched(site: Site, run: seq<Table>, steps: seq<Step>,
                                              start: set<AssignmentId>, k: nat, id: AssignmentId)
    requires IsRun(site, run, steps) && k <= |steps| && GroupActs(site, run, steps, start, k)
    requires id !in Group(site, run, steps, start, k)
    ensures id in run[k] <==> id in run[0]
    ensures id in run[0] ==> run[k][id] == run[0][id]
  {
    if k > 0 {
      var last := k - 1;
      assert Accepted(site, run[last], steps[last]) ==> steps[last].actor in Group(site, run, steps, start, last);
      OutsidersUntouched(site, run, steps, start, last, id);
    }
  }
}
