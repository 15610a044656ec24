/** Which role may ever be granted which permission code, for arbitrary code strings. */
module Boundary {
  import opened Roles

  datatype Reason =
    | INVALID_INPUT
    | SITE_ADMIN_ONLY
    | ROOM_SCOPE_ONLY
    | ROOM_STRUCTURE_LIMIT
    | LOCATION_SCOPE_ONLY
    | LOCATION_STRUCTURE_LIMIT
    | VIEWER_READ_ONLY
    | CLERK_OPERATIONAL_ONLY
    | ADMIN_ROLE_REQUIRED
    | DEPARTMENT_ADMIN_REQUIRED

  const VIEWER_ROLES: set<Role> := {ROOM_VIEWER, LOCATION_VIEWER, DEPARTMENT_VIEWER}
  const ROOM_ROLES: set<Role> := {ROOM_VIEWER, ROOM_CLERK, ROOM_ADMIN}
  const LOCATION_ROLES: set<Role> := {LOCATION_VIEWER, LOCATION_ADMIN}
  const ADMIN_ROLES: set<Role> := {ROOM_ADMIN, LOCATION_ADMIN, DEPARTMENT_ADMIN}

  const SITE_ADMIN_ONLY_EXACT: set<string> := {
    "auth.manage_permissions", "roles.manage_permissions", "permissions.view", "assets.hard_delete",
    "assignments.view_all", "reports.manage", "sessions.view", "sessions.revoke",
    "role_assignments.activate", "users.create"
  }

  const VIEWER_ALLOWED_EXACT: set<string> := {
    "returns.self_return", "returns.request_asset_return", "role_assignments.self_activate",
    "sessions.self_view", "sessions.self_revoke", "users.self_update"
  }

  const CLERK_BLOCKED_PREFIXES: set<string> := {
    "departments.", "locations.", "role_assignments.", "user_placements.", "sessions."
  }

  const CLERK_BLOCKED_EXACT: set<string> := {
    "assets.delete", "assets.hard_delete", "assets.restore", "assets.condemn",
    "assignments.update", "assignments.unassign", "assignments.reassign", "assignments.view_all",
    "returns.process", "returns.delete",
    "users.create", "users.full_create", "users.update", "users.delete", "users.lock", "users.unlock", "users.manage",
    "rooms.create", "rooms.update", "rooms.transfer", "rooms.delete"
  }

  const ROOM_ROLE_BLOCKED_EXACT: set<string> := {"rooms.create", "rooms.transfer", "rooms.delete"}
  const LOCATION_ROLE_BLOCKED_EXACT: set<string> := {"locations.create", "locations.transfer", "locations.delete"}

  const ADMIN_ONLY_EXACT: set<string> := {
    "role_assignments.create", "role_assignments.update", "role_assignments.delete", "role_assignments.manage",
    "users.full_create", "users.update", "returns.process"
  }

  const DEPARTMENT_ADMIN_ONLY_EXACT: set<string> := {
    "agreements.create", "agreements.update", "agreements.delete",
    "users.delete", "users.lock", "users.unlock",
    "locations.create", "locations.transfer", "locations.delete"
  }

  predicate StartsWith(code: string, prefix: string) {
    prefix <= code
  }

  predicate EndsWith(code: string, suffix: string) {
    |suffix| <= |code| && code[|code| - |suffix|..] == suffix
  }

  predicate StartsWithAny(code: string, prefixes: set<string>) {
    exists p :: p in prefixes && StartsWith(code, p)
  }

  predicate ViewerSafe(code: string) {
    code != "" &&
    (code in VIEWER_ALLOWED_EXACT || StartsWith(code, "reports.") || EndsWith(code, ".view") || EndsWith(code, ".self_view"))
  }

  predicate SiteAdminOnly(code: string) {
    code in SITE_ADMIN_ONLY_EXACT
  }

  predicate RoomStructure(code: string) {
    code in ROOM_ROLE_BLOCKED_EXACT
  }

  predicate LocationStructure(code: string) {
    code in LOCATION_ROLE_BLOCKED_EXACT
  }

  predicate ClerkBlocked(code: string) {
    code in CLERK_BLOCKED_EXACT || StartsWithAny(code, CLERK_BLOCKED_PREFIXES)
  }

  predicate NeedsAdmin(code: string) {
    code in ADMIN_ONLY_EXACT || StartsWith(code, "user_placements.")
  }

  predicate NeedsDepartmentAdmin(code: string) {
    code in DEPARTMENT_ADMIN_ONLY_EXACT
  }

  predicate Blank(role: Role) {
    role == UNKNOWN("")
  }

  /** Why the role may not have the code: every reason the policy gives. */
  predicate Blocks(reason: Reason, role: Role, code: string) {
    if Blank(role) || code == "" then reason.INVALID_INPUT?
    else if role.SITE_ADMIN? then false
    else match reason
      case INVALID_INPUT => false
      case SITE_ADMIN_ONLY => SiteAdminOnly(code)
      case ROOM_SCOPE_ONLY => role in ROOM_ROLES && (StartsWith(code, "departments.") || StartsWith(code, "locations."))
      case ROOM_STRUCTURE_LIMIT => role in ROOM_ROLES && RoomStructure(code)
      case LOCATION_SCOPE_ONLY => role in LOCATION_ROLES && StartsWith(code, "departments.")
      case LOCATION_STRUCTURE_LIMIT => role in LOCATION_ROLES && LocationStructure(code)
      case VIEWER_READ_ONLY => role in VIEWER_ROLES && !ViewerSafe(code)
      case CLERK_OPERATIONAL_ONLY =>
        role.ROOM_CLERK? && ClerkBlocked(code)
      case ADMIN_ROLE_REQUIRED =>
        NeedsAdmin(code) && role !in ADMIN_ROLES
      case DEPARTMENT_ADMIN_REQUIRED => NeedsDepartmentAdmin(code) && role != DEPARTMENT_ADMIN
  }

  predicate Allowed(role: Role, code: string) {
    forall reason: Reason :: !Blocks(reason, role, code)
  }

  // ---- What the rules speak of ----

  ghost predicate Begins(code: string, prefix: string) {
    exists rest: string :: code == prefix + rest
  }

  ghost predicate Ends(code: string, suffix: string) {
    exists stem: string :: code == stem + suffix
  }

  lemma AffixesExactly(code: string, affix: string)
    ensures StartsWith(code, affix) <==> Begins(code, affix)
    ensures EndsWith(code, affix) <==> Ends(code, affix)
  {
    if StartsWith(code, affix) { assert code == affix + code[|affix|..]; }
    if EndsWith(code, affix) { assert code == code[..|code| - |affix|] + affix; }
  }

  /** A viewer's codes: the few named, every report, and whatever only looks. */
  lemma ViewerSafeExactly(code: string)
    ensures ViewerSafe(code) <==>
            || code in VIEWER_ALLOWED_EXACT
            || Begins(code, "reports.") || Ends(code, ".view") || Ends(code, ".self_view")
  {
    AffixesExactly(code, "reports.");
    AffixesExactly(code, ".view");
    AffixesExactly(code, ".self_view");
    assert |"reports."| == 8 && |".view"| == 5 && |".self_view"| == 10;
  }

  /** What is kept from clerks, and what only admins may have: the codes named, and whole groups of codes. */
  lemma GroupsExactly(code: string)
    ensures ClerkBlocked(code) <==>
            code in CLERK_BLOCKED_EXACT || exists prefix :: prefix in CLERK_BLOCKED_PREFIXES && Begins(code, prefix)
    ensures NeedsAdmin(code) <==> code in ADMIN_ONLY_EXACT || Begins(code, "user_placements.")
  {
    forall prefix | prefix in CLERK_BLOCKED_PREFIXES ensures StartsWith(code, prefix) <==> Begins(code, prefix) {
      AffixesExactly(code, prefix);
    }
    AffixesExactly(code, "user_placements.");
  }

  /** Room and location roles are kept out of the levels above exactly as far as the codes' groups say. */
  lemma ScopeReasonsExactly(role: Role, code: string)
    requires !Blank(role) && code != "" && !role.SITE_ADMIN?
    ensures Blocks(ROOM_SCOPE_ONLY, role, code) <==>
            role in {ROOM_VIEWER, ROOM_CLERK, ROOM_ADMIN} && (Begins(code, "departments.") || Begins(code, "locations."))
    ensures Blocks(LOCATION_SCOPE_ONLY, role, code) <==> role in {LOCATION_VIEWER, LOCATION_ADMIN} && Begins(code, "departments.")
  {
    AffixesExactly(code, "departments.");
    AffixesExactly(code, "locations.");
  }

  /** Each reason that speaks of structure is given exactly where its rule applies. */
  lemma StructuralExactly(role: Role, code: string)
    requires !Blank(role) && code != "" && !role.SITE_ADMIN?
    ensures !Blocks(INVALID_INPUT, role, code)
    ensures Blocks(SITE_ADMIN_ONLY, role, code) <==> SiteAdminOnly(code)
    ensures Blocks(ROOM_STRUCTURE_LIMIT, role, code) <==> role in {ROOM_VIEWER, ROOM_CLERK, ROOM_ADMIN} && RoomStructure(code)
    ensures Blocks(LOCATION_STRUCTURE_LIMIT, role, code) <==> role in {LOCATION_VIEWER, LOCATION_ADMIN} && LocationStructure(code)
  {
  }

  /** And so is each one that speaks of what a role is for. */
  lemma CapabilityExactly(role: Role, code: string)
    requires !Blank(role) && code != "" && !role.SITE_ADMIN?
    ensures Blocks(VIEWER_READ_ONLY, role, code) <==>
            role in {ROOM_VIEWER, LOCATION_VIEWER, DEPARTMENT_VIEWER} && !ViewerSafe(code)
    ensures Blocks(CLERK_OPERATIONAL_ONLY, role, code) <==> role == ROOM_CLERK && ClerkBlocked(code)
    ensures Blocks(ADMIN_ROLE_REQUIRED, role, code) <==>
            role !in {ROOM_ADMIN, LOCATION_ADMIN, DEPARTMENT_ADMIN} && NeedsAdmin(code)
    ensures Blocks(DEPARTMENT_ADMIN_REQUIRED, role, code) <==> role != DEPARTMENT_ADMIN && NeedsDepartmentAdmin(code)
  {
  }

  // ---- The levels compared ----

  lemma DepartmentAdminExact(code: string)
    ensures Allowed(DEPARTMENT_ADMIN, code) <==> code != "" && !SiteAdminOnly(code)
  {
    if Allowed(DEPARTMENT_ADMIN, code) {
      assert !Blocks(INVALID_INPUT, DEPARTMENT_ADMIN, code) && !Blocks(SITE_ADMIN_ONLY, DEPARTMENT_ADMIN, code);
    }
  }

  lemma LocationAdminExact(code: string)
    ensures Allowed(LOCATION_ADMIN, code) <==>
            && Allowed(DEPARTMENT_ADMIN, code)
            && !StartsWith(code, "departments.") && !NeedsDepartmentAdmin(code)
  {
    DepartmentAdminExact(code);
    if Allowed(LOCATION_ADMIN, code) {
      assert !Blocks(INVALID_INPUT, LOCATION_ADMIN, code) && !Blocks(SITE_ADMIN_ONLY, LOCATION_ADMIN, code);
      assert !Blocks(LOCATION_SCOPE_ONLY, LOCATION_ADMIN, code) && !Blocks(DEPARTMENT_ADMIN_REQUIRED, LOCATION_ADMIN, code);
    }
  }

  lemma RoomAdminExact(code: string)
    ensures Allowed(ROOM_ADMIN, code) <==>
            && Allowed(LOCATION_ADMIN, code)
            && !StartsWith(code, "locations.") && !RoomStructure(code)
  {
    DepartmentAdminExact(code);
    LocationAdminExact(code);
    if Allowed(ROOM_ADMIN, code) {
      assert !Blocks(INVALID_INPUT, ROOM_ADMIN, code) && !Blocks(SITE_ADMIN_ONLY, ROOM_ADMIN, code);
      assert !Blocks(ROOM_SCOPE_ONLY, ROOM_ADMIN, code) && !Blocks(DEPARTMENT_ADMIN_REQUIRED, ROOM_ADMIN, code);
      assert !Blocks(ROOM_STRUCTURE_LIMIT, ROOM_ADMIN, code);
    }
  }

  predicate ViewerOf(viewer: Role, admin: Role) {
    || (viewer == ROOM_VIEWER && admin == ROOM_ADMIN)
    || (viewer == LOCATION_VIEWER && admin == LOCATION_ADMIN)
    || (viewer == DEPARTMENT_VIEWER && admin == DEPARTMENT_ADMIN)
  }

  /** What stops a viewer's admin stops the viewer, and a viewer is stopped by little else. */
  lemma ViewerBlocked(viewer: Role, admin: Role, code: string, reason: Reason)
    requires ViewerOf(viewer, admin)
    ensures Blocks(reason, admin, code) ==> Blocks(reason, viewer, code)
    ensures Blocks(reason, viewer, code) && !Blocks(reason, admin, code) ==>
              reason.VIEWER_READ_ONLY? || reason.ADMIN_ROLE_REQUIRED? || reason.DEPARTMENT_ADMIN_REQUIRED?
  {
  }

  /** A viewer may have exactly the viewer-safe codes its level's admin may have. */
  lemma ViewerExact(viewer: Role, admin: Role, code: string)
    requires ViewerOf(viewer, admin)
    ensures Allowed(viewer, code) <==>
            && Allowed(admin, code) && ViewerSafe(code)
            && !NeedsAdmin(code) && !NeedsDepartmentAdmin(code)
  {
    forall reason: Reason { ViewerBlocked(viewer, admin, code, reason); }
    if code != "" {
      CapabilityExactly(viewer, code);
      if Allowed(viewer, code) {
        assert !Blocks(VIEWER_READ_ONLY, viewer, code);
        assert !Blocks(ADMIN_ROLE_REQUIRED, viewer, code) && !Blocks(DEPARTMENT_ADMIN_REQUIRED, viewer, code);
      }
    } else {
      assert Blocks(INVALID_INPUT, viewer, code) && Blocks(INVALID_INPUT, admin, code);
    }
  }

  /** A clerk may have exactly the room admin's codes that need no admin and are not kept from clerks. */
  lemma ClerkExact(code: string)
    ensures Allowed(ROOM_CLERK, code) <==> Allowed(ROOM_ADMIN, code) && !ClerkBlocked(code) && !NeedsAdmin(code)
  {
    if Allowed(ROOM_CLERK, code) {
      assert !Blocks(INVALID_INPUT, ROOM_CLERK, code) && !Blocks(CLERK_OPERATIONAL_ONLY, ROOM_CLERK, code);
      assert !Blocks(ADMIN_ROLE_REQUIRED, ROOM_CLERK, code);
      forall reason: Reason ensures !Blocks(reason, ROOM_ADMIN, code) { assert !Blocks(reason, ROOM_CLERK, code); }
    }
    if Allowed(ROOM_ADMIN, code) && !ClerkBlocked(code) && !NeedsAdmin(code) {
      forall reason: Reason ensures !Blocks(reason, ROOM_CLERK, code) { assert !Blocks(reason, ROOM_ADMIN, code); }
    }
  }

  /** The site admin may have every code, a role nobody knows what no rule keeps for somebody. */
  lemma OutermostExact(role: Role, code: string)
    requires role.SITE_ADMIN? || role.UNKNOWN?
    ensures Allowed(role, code) <==>
            && !Blank(role) && code != ""
            && (role.SITE_ADMIN? || (!SiteAdminOnly(code) && !NeedsAdmin(code) && !NeedsDepartmentAdmin(code)))
  {
    if Allowed(role, code) {
      assert !Blocks(INVALID_INPUT, role, code) && !Blocks(SITE_ADMIN_ONLY, role, code);
      assert !Blocks(ADMIN_ROLE_REQUIRED, role, code) && !Blocks(DEPARTMENT_ADMIN_REQUIRED, role, code);
    }
  }

  /** Going up a level never loses a permission, for viewers and for admins, whatever the code. */
  lemma HigherLevelsAllowMore(code: string)
    ensures Allowed(ROOM_ADMIN, code) ==> Allowed(LOCATION_ADMIN, code)
    ensures Allowed(LOCATION_ADMIN, code) ==> Allowed(DEPARTMENT_ADMIN, code)
    ensures Allowed(ROOM_VIEWER, code) ==> Allowed(LOCATION_VIEWER, code) && Allowed(ROOM_ADMIN, code)
    ensures Allowed(LOCATION_VIEWER, code) ==> Allowed(DEPARTMENT_VIEWER, code) && Allowed(LOCATION_ADMIN, code)
    ensures Allowed(DEPARTMENT_VIEWER, code) ==> Allowed(DEPARTMENT_ADMIN, code)
  {
    LocationAdminExact(code);
    RoomAdminExact(code);
    ViewerExact(ROOM_VIEWER, ROOM_ADMIN, code);
    ViewerExact(LOCATION_VIEWER, LOCATION_ADMIN, code);
    ViewerExact(DEPARTMENT_VIEWER, DEPARTMENT_ADMIN, code);
  }

  // ---- The service ----

  datatype BoundaryResult = BoundaryResult(allowed: bool, reasonKeys: seq<Reason>)

  /** The first occurrences, in order. */
  function Dedupe(keys: seq<Reason>): (r: seq<Reason>)
    ensures forall k :: k in r <==> k in keys
    ensures forall i, j :: 0 <= i < j < |r| ==> r[i] != r[j]
  {
    if keys == [] then []
    else
      var last := |keys| - 1;
      var before := Dedupe(keys[..last]);
      assert keys == keys[..last] + [keys[last]];
      if keys[last] in before then before else before + [keys[last]]
  }

  function Append(keys: seq<Reason>, reason: Reason): (r: seq<Reason>)
    ensures forall k :: k in r <==> k in keys || k == reason
  {
    keys + [reason]
  }

  predicate Structural(reason: Reason) {
    reason.SITE_ADMIN_ONLY? || reason.ROOM_SCOPE_ONLY? || reason.ROOM_STRUCTURE_LIMIT?
    || reason.LOCATION_SCOPE_ONLY? || reason.LOCATION_STRUCTURE_LIMIT?
  }

  method StructuralReasons(role: Role, code: string) returns (keys: seq<Reason>)
    requires !Blank(role) && code != "" && !role.SITE_ADMIN?
    ensures forall reason :: reason in keys <==> Structural(reason) && Blocks(reason, role, code)
  {
    keys := [];
    if SiteAdminOnly(code) { keys := Append(keys, SITE_ADMIN_ONLY); }
    assert forall reason :: reason in keys <==> reason.SITE_ADMIN_ONLY? && Blocks(reason, role, code);
    if role in ROOM_ROLES {
      if StartsWith(code, "departments.") || StartsWith(code, "locations.") { keys := Append(keys, ROOM_SCOPE_ONLY); }
      if RoomStructure(code) { keys := Append(keys, ROOM_STRUCTURE_LIMIT); }
    }
    if role in LOCATION_ROLES {
      if StartsWith(code, "departments.") { keys := Append(keys, LOCATION_SCOPE_ONLY); }
      if LocationStructure(code) { keys := Append(keys, LOCATION_STRUCTURE_LIMIT); }
    }
  }

  method CapabilityReasons(role: Role, code: string) returns (keys: seq<Reason>)
    requires !Blank(role) && code != "" && !role.SITE_ADMIN?
    ensures forall reason :: reason in keys <==> !Structural(reason) && Blocks(reason, role, code)
  {
    keys := [];
    if role in VIEWER_ROLES && !ViewerSafe(code) {
      keys := Append(keys, VIEWER_READ_ONLY);
    }
    if role.ROOM_CLERK? && ClerkBlocked(code) {
      keys := Append(keys, CLERK_OPERATIONAL_ONLY);
    }
    assert forall reason :: reason in keys <==>
             (reason.VIEWER_READ_ONLY? || reason.CLERK_OPERATIONAL_ONLY?) && Blocks(reason, role, code);
    if NeedsAdmin(code) && role !in ADMIN_ROLES {
      keys := Append(keys, ADMIN_ROLE_REQUIRED);
    }
    if NeedsDepartmentAdmin(code) && role != DEPARTMENT_ADMIN {
      keys := Append(keys, DEPARTMENT_ADMIN_REQUIRED);
    }
  }

  /** The reported reasons are exactly those the policy gives, once each, and none means allowed. */
  method GetPermissionBoundaryResult(role: Role, code: string) returns (r: BoundaryResult)
    ensures forall reason :: reason in r.reasonKeys <==> Blocks(reason, role, code)
    ensures forall i, j :: 0 <= i < j < |r.reasonKeys| ==> r.reasonKeys[i] != r.reasonKeys[j]
    ensures r.allowed <==> Allowed(role, code)
  {
    if Blank(role) || code == "" {
      assert Blocks(INVALID_INPUT, role, code);
      return BoundaryResult(false, [INVALID_INPUT]);
    }
    if role.SITE_ADMIN? {
      return BoundaryResult(true, []);
    }
    var structural := StructuralReasons(role, code);
    var capability := CapabilityReasons(role, code);
    var keys := Dedupe(structural + capability);
    if keys != [] {
      assert keys[0] in keys && Blocks(keys[0], role, code);
    }
    return BoundaryResult(keys == [], keys);
  }
}
