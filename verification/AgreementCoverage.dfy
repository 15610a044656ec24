/** The coverage set of one agreement, its conflict rules, and the two ways it is consulted. */
module AgreementCoverage {
  import opened Outcomes

  type RoomId = nat
  type LocationId = nat
  type DepartmentId = nat
  type Pk = nat

  datatype Location = Location(id: LocationId, department: Option<DepartmentId>)
  datatype Room = Room(id: RoomId, location: Option<Location>)

  datatype ScopeType = GLOBAL | DEPARTMENT | LOCATION | ROOM

  datatype Coverage = Coverage(scopeType: ScopeType, department: Option<DepartmentId>,
                               location: Option<Location>, room: Option<Room>)

  /** The table's constraint: exactly the field the scope type names is set. */
  predicate WellFormed(c: Coverage) {
    && (c.department.Some? <==> c.scopeType.DEPARTMENT?)
    && (c.location.Some? <==> c.scopeType.LOCATION?)
    && (c.room.Some? <==> c.scopeType.ROOM?)
  }

  function IdOf(location: Option<Location>): Option<LocationId> {
    if location.Some? then Some(location.value.id) else None
  }

  function RoomIdOf(room: Option<Room>): Option<RoomId> {
    if room.Some? then Some(room.value.id) else None
  }

  // ---- agreement_covers_room ----

  datatype Hierarchy = Hierarchy(room: RoomId, location: Option<LocationId>, department: Option<DepartmentId>)

  function ResolveRoomHierarchy(room: Room): Hierarchy {
    Hierarchy(room.id, IdOf(room.location), if room.location.Some? then room.location.value.department else None)
  }

  /** One coverage compared with the resolved hierarchy; an absent level compares as absent. */
  predicate Matches(c: Coverage, h: Hierarchy) {
    match c.scopeType
    case GLOBAL => true
    case ROOM => RoomIdOf(c.room) == Some(h.room)
    case LOCATION => IdOf(c.location) == h.location
    case DEPARTMENT => c.department == h.department
  }

  predicate Covers(coverages: seq<Coverage>, room: Room) {
    exists i :: 0 <= i < |coverages| && Matches(coverages[i], ResolveRoomHierarchy(room))
  }

  // ---- is_asset_eligible ----

  predicate Admits(c: Coverage, room: Room) {
    match c.scopeType
    case GLOBAL => true
    case DEPARTMENT => room.location.Some? && room.location.value.department == c.department
    case LOCATION => IdOf(room.location) == IdOf(c.location)
    case ROOM => Some(room.id) == RoomIdOf(c.room)
  }

  predicate Eligible(coverages: seq<Coverage>, room: Room) {
    exists i :: 0 <= i < |coverages| && Admits(coverages[i], room)
  }

  /** The one coverage on which they differ: a department coverage naming no department. */
  predicate Blank(c: Coverage) {
    c.scopeType.DEPARTMENT? && c.department.None?
  }

  /**
  The two searches agree on every list in every order, except that for a room without a location
  a malformed department coverage satisfies the first and not the second.
  */
  lemma ConsultationsAgree(coverages: seq<Coverage>, room: Room)
    ensures Eligible(coverages, room) ==> Covers(coverages, room)
    ensures Covers(coverages, room) == Eligible(coverages, room) <==>
            !(room.location.None? && !Eligible(coverages, room) && exists c :: c in coverages && Blank(c))
    ensures (forall c :: c in coverages ==> WellFormed(c)) ==> Covers(coverages, room) == Eligible(coverages, room)
  {
    forall i | 0 <= i < |coverages|
      ensures Matches(coverages[i], ResolveRoomHierarchy(room)) <==>
              Admits(coverages[i], room) || (room.location.None? && Blank(coverages[i]))
      ensures coverages[i] in coverages
    {
    }
  }

  /** The scope a coverage names includes the room, by the room's own place in the site. */
  predicate NamesPlaceOf(c: Coverage, room: Room) {
    || c.scopeType.GLOBAL?
    || (c.room.Some? && c.room.value.id == room.id)
    || (c.location.Some? && room.location.Some? && c.location.value.id == room.location.value.id)
    || (c.department.Some? && room.location.Some? && room.location.value.department == c.department)
  }

  /** A room is covered exactly if a coverage names the room, its location, its department or everything. */
  lemma CoversExactly(coverages: seq<Coverage>, room: Room)
    requires forall c :: c in coverages ==> WellFormed(c)
    ensures Covers(coverages, room) <==> exists c :: c in coverages && NamesPlaceOf(c, room)
  {
    forall i | 0 <= i < |coverages|
      ensures Matches(coverages[i], ResolveRoomHierarchy(room)) <==> NamesPlaceOf(coverages[i], room)
    {
      assert coverages[i] in coverages;
    }
  }

  /** A malformed coverage that names no room matches none. */
  lemma BlankRoomMatchesNothing(c: Coverage, room: Room)
    requires c.scopeType.ROOM? && c.room.None?
    ensures !Matches(c, ResolveRoomHierarchy(room)) && !Admits(c, room)
  {
  }

  lemma OrderIrrelevant(a: seq<Coverage>, b: seq<Coverage>, room: Room)
    requires forall c :: c in a <==> c in b
    ensures Covers(a, room) == Covers(b, room) && Eligible(a, room) == Eligible(b, room)
  {
    forall i | 0 <= i < |a| ensures a[i] in b { assert a[i] in a; }
    forall i | 0 <= i < |b| ensures b[i] in a { assert b[i] in b; }
  }

  // ---- clean ----

  datatype Problem =
    | GlobalCannotCoexist
    | ScopedUnderGlobal
    | DepartmentIncludesLocation
    | LocationIncludesRoom
    | DepartmentIncludesRoom
    | DepartmentCovered
    | LocationCovered
    | RoomCovered
    | BadScope
    | RoomHasNoLocation

  type Book = map<Pk, Coverage>

  /** `coverages.exclude(pk=self.pk).filter(scope_type=..., field=value)`; a filter on None finds no set field. */
  predicate OtherDepartment(others: Book, d: Option<DepartmentId>) {
    exists k :: k in others && others[k].scopeType.DEPARTMENT? && others[k].department == d
  }

  predicate OtherLocation(others: Book, l: Option<LocationId>) {
    exists k :: k in others && others[k].scopeType.LOCATION? && IdOf(others[k].location) == l
  }

  predicate OtherRoom(others: Book, r: Option<RoomId>) {
    exists k :: k in others && others[k].scopeType.ROOM? && RoomIdOf(others[k].room) == r
  }

  predicate OtherGlobal(others: Book) {
    exists k :: k in others && others[k].scopeType.GLOBAL?
  }

  /** `full_clean`: a malformed coverage is refused one way or another, else the first problem found. */
  function Clean(others: Book, c: Coverage): Option<Problem> {
    if !WellFormed(c) then Some(BadScope)
    else if c.scopeType.GLOBAL? then if others != map[] then Some(GlobalCannotCoexist) else None
    else if OtherGlobal(others) then Some(ScopedUnderGlobal)
    else match c.scopeType
      case GLOBAL => None
      case DEPARTMENT => if OtherDepartment(others, c.department) then Some(DepartmentCovered) else None
      case LOCATION =>
        if OtherDepartment(others, c.location.value.department) then Some(DepartmentIncludesLocation)
        else if OtherLocation(others, IdOf(c.location)) then Some(LocationCovered)
        else None
      case ROOM =>
        if OtherLocation(others, IdOf(c.room.value.location)) then Some(LocationIncludesRoom)
        else if c.room.value.location.None? then Some(RoomHasNoLocation)
        else if OtherDepartment(others, c.room.value.location.value.department) then Some(DepartmentIncludesRoom)
        else if OtherRoom(others, RoomIdOf(c.room)) then Some(RoomCovered)
        else None
  }

  ghost predicate AllWellFormed(book: Book) {
    forall k :: k in book ==> WellFormed(book[k])
  }

  ghost predicate BookCovers(book: Book, room: Room) {
    exists k :: k in book && Matches(book[k], ResolveRoomHierarchy(room))
  }

  /**
  A room coverage is accepted exactly when the room has a location and the other coverages do not
  already cover it. For a room without a location the check itself fails.
  */
  lemma RoomAcceptedExactly(others: Book, c: Coverage)
    requires AllWellFormed(others) && WellFormed(c) && c.scopeType.ROOM?
    ensures Clean(others, c).None? <==> c.room.value.location.Some? && !BookCovers(others, c.room.value)
  {
    var room := c.room.value;
    var h := ResolveRoomHierarchy(room);
    if room.location.Some? {
      assert OtherGlobal(others) ==> BookCovers(others, room);
      assert OtherLocation(others, h.location) ==> BookCovers(others, room);
      assert OtherDepartment(others, h.department) ==> BookCovers(others, room);
      assert OtherRoom(others, Some(h.room)) ==> BookCovers(others, room);
      if BookCovers(others, room) {
        var k :| k in others && Matches(others[k], h);
        assert WellFormed(others[k]);
      }
    }
  }

  /** The room, there or still to come, lies in the scope of a location or department coverage. */
  predicate LiesIn(room: Room, c: Coverage) {
    match c.scopeType
    case LOCATION => room.location.Some? && room.location == c.location
    case DEPARTMENT => room.location.Some? && room.location.value.department == c.department
    case _ => false
  }

  /** Whatever room lies in c, coverage a covers it. */
  ghost predicate Includes(a: Coverage, c: Coverage) {
    forall room: Room :: LiesIn(room, c) ==> Matches(a, ResolveRoomHierarchy(room))
  }

  /** Some room in c that a covers only if it covers them all. */
  function Witness(a: Coverage, c: Coverage): Room
    requires WellFormed(c) && (c.scopeType.LOCATION? || c.scopeType.DEPARTMENT?)
  {
    var room := if a.room.Some? then a.room.value.id + 1 else 0;
    if c.scopeType.LOCATION? then Room(room, c.location)
    else Room(room, Some(Location(if a.location.Some? then a.location.value.id + 1 else 0, c.department)))
  }

  lemma IncludesExactly(a: Coverage, c: Coverage)
    requires WellFormed(a) && WellFormed(c) && (c.scopeType.LOCATION? || c.scopeType.DEPARTMENT?)
    ensures Includes(a, c) <==>
            || a.scopeType.GLOBAL?
            || (c.scopeType.LOCATION? && a.scopeType.LOCATION? && IdOf(a.location) == IdOf(c.location))
            || (c.scopeType.LOCATION? && a.scopeType.DEPARTMENT? && a.department == c.location.value.department)
            || (c.scopeType.DEPARTMENT? && a.scopeType.DEPARTMENT? && a.department == c.department)
  {
    assert LiesIn(Witness(a, c), c);
  }

  /**
  A location or department coverage is accepted exactly when no other coverage alone includes it;
  what is covered piece by piece does not stand in its way.
  */
  lemma BroaderAcceptedExactly(others: Book, c: Coverage)
    requires AllWellFormed(others) && WellFormed(c) && (c.scopeType.LOCATION? || c.scopeType.DEPARTMENT?)
    ensures Clean(others, c).None? <==> !exists k :: k in others && Includes(others[k], c)
  {
    forall k | k in others ensures WellFormed(others[k]) {
    }
    forall k | k in others
      ensures Includes(others[k], c) <==>
              || others[k].scopeType.GLOBAL?
              || (c.scopeType.LOCATION? && others[k].scopeType.LOCATION? && IdOf(others[k].location) == IdOf(c.location))
              || (c.scopeType.LOCATION? && others[k].scopeType.DEPARTMENT? && others[k].department == c.location.value.department)
              || (c.scopeType.DEPARTMENT? && others[k].scopeType.DEPARTMENT? && others[k].department == c.department)
    {
      IncludesExactly(others[k], c);
    }
  }

  /** A global coverage is accepted exactly where there is no other. */
  lemma GlobalAcceptedExactly(others: Book, c: Coverage)
    requires WellFormed(c) && c.scopeType.GLOBAL?
    ensures Clean(others, c).None? <==> others.Keys == {}
  {
    assert others == map[] <==> others.Keys == {};
  }

  /** Problem p is one between a coverage of c's scope type and the coverage other. */
  predicate ConflictOf(p: Problem, other: Coverage, c: Coverage) {
    match p
    case GlobalCannotCoexist => c.scopeType.GLOBAL?
    case ScopedUnderGlobal => !c.scopeType.GLOBAL? && other.scopeType.GLOBAL?
    case DepartmentIncludesLocation => c.scopeType.LOCATION? && other.scopeType.DEPARTMENT?
    case LocationIncludesRoom => c.scopeType.ROOM? && other.scopeType.LOCATION?
    case DepartmentIncludesRoom => c.scopeType.ROOM? && other.scopeType.DEPARTMENT?
    case DepartmentCovered => c.scopeType.DEPARTMENT? && other.scopeType.DEPARTMENT?
    case LocationCovered => c.scopeType.LOCATION? && other.scopeType.LOCATION?
    case RoomCovered => c.scopeType.ROOM? && other.scopeType.ROOM?
    case BadScope => false
    case RoomHasNoLocation => false
  }

  /** A well-formed coverage with its room in place is refused only with a coverage to blame, of the kind named. */
  lemma RefusalNamesTheConflict(others: Book, c: Coverage)
    requires WellFormed(c) && Clean(others, c).Some?
    ensures Clean(others, c) == Some(RoomHasNoLocation) ==> c.scopeType.ROOM? && c.room.value.location.None?
    ensures Clean(others, c) != Some(RoomHasNoLocation) ==>
              exists k :: k in others && ConflictOf(Clean(others, c).value, others[k], c)
  {
    var p := Clean(others, c).value;
    if p.GlobalCannotCoexist? {
      var k :| k in others;
      assert ConflictOf(p, others[k], c);
    }
  }

  // ---- The coverage set over time ----

  predicate SameScope(a: Coverage, b: Coverage) {
    && a.scopeType == b.scopeType && a.department == b.department
    && IdOf(a.location) == IdOf(b.location) && RoomIdOf(a.room) == RoomIdOf(b.room)
  }

  /** A global coverage stands alone, and no scope occurs twice. */
  ghost predicate Consistent(book: Book) {
    && AllWellFormed(book)
    && forall j, k :: j in book && k in book && j != k ==>
         !book[j].scopeType.GLOBAL? && !SameScope(book[j], book[k])
  }

  datatype Op = Save(pk: Pk, coverage: Coverage) | Delete(pk: Pk)

  function Apply(book: Book, op: Op): Book {
    match op
    case Save(pk, c) => if Clean(book - {pk}, c).None? then book[pk := c] else book
    case Delete(pk) => book - {pk}
  }

  lemma AcceptedConflictsWithNone(others: Book, c: Coverage, k: Pk)
    requires AllWellFormed(others) && Clean(others, c).None? && k in others
    ensures WellFormed(c) && !c.scopeType.GLOBAL? && !others[k].scopeType.GLOBAL? && !SameScope(c, others[k])
  {
    assert WellFormed(others[k]);
    assert !OtherGlobal(others) || c.scopeType.GLOBAL?;
    match c.scopeType
    case GLOBAL =>
    case DEPARTMENT => assert !OtherDepartment(others, c.department);
    case LOCATION => assert !OtherLocation(others, IdOf(c.location));
    case ROOM => assert !OtherRoom(others, RoomIdOf(c.room));
  }

  lemma SaveKeepsConsistent(book: Book, pk: Pk, c: Coverage)
    requires Consistent(book)
    ensures Consistent(Apply(book, Save(pk, c)))
  {
    var others := book - {pk};
    if Clean(others, c).None? {
      assert AllWellFormed(others);
      forall k | k in others ensures !c.scopeType.GLOBAL? && !others[k].scopeType.GLOBAL? && !SameScope(c, others[k]) {
        AcceptedConflictsWithNone(others, c, k);
      }
      var after := book[pk := c];
      forall j, k | j in after && k in after && j != k
        ensures !after[j].scopeType.GLOBAL? && !SameScope(after[j], after[k])
      {
        assert j != pk ==> j in others && after[j] == others[j];
        assert k != pk ==> k in others && after[k] == others[k];
      }
    }
  }

  /** Any sequence of creations, updates and deletions through `save` keeps the set consistent. */
  lemma {:induction false} RunConsistent(run: seq<Book>, ops: seq<Op>, k: nat)
    requires |run| == |ops| + 1 && k <= |ops| && Consistent(run[0])
    requires forall m :: 0 <= m < |ops| ==> run[m + 1] == Apply(run[m], ops[m])
    ensures Consistent(run[k])
  {
    if k > 0 {
      RunConsistent(run, ops, k - 1);
      match ops[k - 1]
      case Save(pk, c) => SaveKeepsConsistent(run[k - 1], pk, c);
      case Delete(_) =>
    }
  }

  /** The rules look up the hierarchy only: a department may be added over its own room. */
  lemma BroaderAfterNarrowerAccepted(room: Room, d: DepartmentId)
    requires room.location.Some? && room.location.value.department == Some(d)
    ensures var roomOnly := Coverage(ROOM, None, None, Some(room));
            var whole := Coverage(DEPARTMENT, Some(d), None, None);
            var book := Apply(Apply(map[], Save(0, roomOnly)), Save(1, whole));
            && book == map[0 := roomOnly, 1 := whole] && BookCovers(map[1 := whole], room)
            && Apply(Apply(map[], Save(1, whole)), Save(0, roomOnly)) == map[1 := whole]
  {
    var roomOnly := Coverage(ROOM, None, None, Some(room));
    var whole := Coverage(DEPARTMENT, Some(d), None, None);
    var one: Book := map[0 := roomOnly];
    var other: Book := map[1 := whole];
    var empty: Book := map[];
    assert empty - {0} == empty && empty - {1} == empty && one - {1} == one && other - {0} == other;
    assert one[0].scopeType.ROOM?;
    assert Clean(empty, roomOnly).None? && Clean(empty, whole).None? && Clean(one, whole).None?;
    assert 1 in other && other[1].scopeType.DEPARTMENT? && other[1].department == Some(d);
    assert OtherDepartment(other, Some(d));
    assert Matches(other[1], ResolveRoomHierarchy(room));
  }

  // ---- The model's save ----

  class CoverageBook {
    var rows: Book

    /** `save` runs `full_clean` first; a problem leaves the table alone. */
    method SaveCoverage(pk: Pk, c: Coverage) returns (problem: Option<Problem>)
      modifies this
      ensures problem == Clean(old(rows) - {pk}, c)
      ensures rows == Apply(old(rows), Save(pk, c))
      ensures old(Consistent(rows)) ==> Consistent(rows)
    {
      SaveKeepsConsistentIfSo(rows, pk, c);
      var others := rows - {pk};
      problem := Clean(others, c);
      if problem.None? {
        rows := rows[pk := c];
      }
    }

    method DeleteCoverage(pk: Pk)
      modifies this
      ensures rows == Apply(old(rows), Delete(pk))
      ensures old(Consistent(rows)) ==> Consistent(rows)
    {
      rows := rows - {pk};
    }
  }

  lemma SaveKeepsConsistentIfSo(book: Book, pk: Pk, c: Coverage)
    ensures Consistent(book) ==> Consistent(Apply(book, Save(pk, c)))
  {
    if Consistent(book) { SaveKeepsConsistent(book, pk, c); }
  }

  /** `agreement_covers_room`: the search with early return. */
  method AgreementCoversRoom(coverages: seq<Coverage>, room: Option<Room>) returns (covered: bool)
    ensures covered <==> room.Some? && Covers(coverages, room.value)
  {
    if room.None? {
      return false;
    }
    var hierarchy := ResolveRoomHierarchy(room.value);
    for i := 0 to |coverages|
      invariant forall j :: 0 <= j < i ==> !Matches(coverages[j], hierarchy)
    {
      var c := coverages[i];
      if c.scopeType.GLOBAL?
         || (c.scopeType.ROOM? && RoomIdOf(c.room) == Some(hierarchy.room))
         || (c.scopeType.LOCATION? && IdOf(c.location) == hierarchy.location)
         || (c.scopeType.DEPARTMENT? && c.department == hierarchy.department) {
        return true;
      }
    }
    return false;
  }

  /** `is_asset_eligible`, given the asset's room. */
  method IsAssetEligible(coverages: seq<Coverage>, room: Option<Room>) returns (eligible: bool)
    ensures eligible <==> room.Some? && Eligible(coverages, room.value)
  {
    if room.None? {
      return false;
    }
    for i := 0 to |coverages|
      invariant forall j :: 0 <= j < i ==> !Admits(coverages[j], room.value)
    {
      var c := coverages[i];
      if c.scopeType.GLOBAL? {
        return true;
      }
      if c.scopeType.DEPARTMENT? {
        if room.value.location.Some? && room.value.location.value.department == c.department {
          return true;
        }
      }
      if c.scopeType.LOCATION? {
        if IdOf(room.value.location) == IdOf(c.location) {
          return true;
        }
      }
      if c.scopeType.ROOM? {
        if Some(room.value.id) == RoomIdOf(c.room) {
          return true;
        }
      }
    }
    return false;
  }
}
