/**
The tables behind asset returns and what each service operation does to them, as functions.
`ReturnDesk` implements these operations with loops and assignments.

A row's id is its position in its table. Accessory assignments and consumable issues go through
the same steps, so they share one table of holdings, told apart by `kind`, as do their assets.
*/
module ReturnTables {
  import opened Outcomes

  type UserId = nat
  type EquipmentId = nat
  type RoomId = nat

  datatype RequestStatus = Pending | Approved | Denied | Partial
  datatype ItemStatus = ItemPending | ItemApproved | ItemDenied
  datatype Kind = Accessory | Consumable

  datatype Asset = Asset(kind: Kind, stock: nat, deleted: bool, room: Option<RoomId>)
  datatype Holding = Holding(asset: nat, user: UserId, quantity: nat, open: bool)
  datatype Custody = Custody(equipment: EquipmentId, user: UserId, assignedBy: UserId, open: bool)
  datatype Request = Request(requester: UserId, status: RequestStatus, processedBy: Option<UserId>)
  datatype Target = OnEquipment(custody: nat) | OnHolding(holding: nat, quantity: nat)
  datatype Item = Item(request: nat, target: Target, room: Option<RoomId>, status: ItemStatus, verifiedBy: Option<UserId>)

  datatype Event =
    | EquipmentAssigned(equipment: EquipmentId, user: UserId, reportedBy: UserId)
    | EquipmentReturnRequested(equipment: EquipmentId, user: UserId)
    | EquipmentReturned(equipment: EquipmentId, user: UserId, reportedBy: UserId)
    | StockEvent(asset: nat, user: UserId, quantity: nat, quantityChange: int, reportedBy: UserId)

  /** `rooms` has the equipment whose room is set; the room of a deleted room's assets is null. */
  datatype Db = Db(requests: seq<Request>, items: seq<Item>, custody: seq<Custody>,
                   holdings: seq<Holding>, assets: seq<Asset>, events: seq<Event>, rooms: map<EquipmentId, RoomId>)

  datatype Error =
    | RequestAlreadyProcessed
    | ItemAlreadyProcessed
    | ExceedsHeldQuantity
    | TooManyItems
    | InvalidAssetType
    | NotAssigned
    | AlreadyPending
    | NegativeQuantity
    | RoomMissing

  /** Foreign keys point at existing rows. */
  ghost predicate Linked(db: Db) {
    && (forall i :: 0 <= i < |db.items| ==> LinkedItem(db, db.items[i]))
    && (forall h :: 0 <= h < |db.holdings| ==> db.holdings[h].asset < |db.assets|)
  }

  predicate LinkedItem(db: Db, item: Item) {
    && item.request < |db.requests|
    && (item.target.OnEquipment? ==> item.target.custody < |db.custody|)
    && (item.target.OnHolding? ==> item.target.holding < |db.holdings|)
  }

  /** Custody is one-to-one with equipment. */
  ghost predicate OneRowEach(custody: seq<Custody>) {
    forall c, e :: 0 <= c < e < |custody| ==> custody[c].equipment != custody[e].equipment
  }

  ghost predicate SameSize(db: Db, d: Db) {
    && |d.requests| == |db.requests| && |d.items| == |db.items| && |d.custody| == |db.custody|
    && |d.holdings| == |db.holdings| && |d.assets| == |db.assets|
  }

  // ---- update_return_request_status ----

  predicate Has(items: seq<Item>, r: nat, status: ItemStatus) {
    exists i :: 0 <= i < |items| && items[i].request == r && items[i].status == status
  }

  function StatusOf(items: seq<Item>, r: nat): RequestStatus {
    var approved, denied, pending := Has(items, r, ItemApproved), Has(items, r, ItemDenied), Has(items, r, ItemPending);
    if approved && !denied && !pending then Approved
    else if denied && !approved && !pending then Denied
    else if approved && denied then Partial
    else Pending
  }

  function Resolve(db: Db, i: nat, status: ItemStatus, admin: UserId): (d: Db)
    requires Linked(db) && i < |db.items|
    ensures Linked(d) && SameSize(db, d)
  {
    var r := db.items[i].request;
    var items := db.items[i := db.items[i].(status := status, verifiedBy := Some(admin))];
    db.(items := items, requests := db.requests[r := db.requests[r].(status := StatusOf(items, r))])
  }

  // ---- Single items ----

  function ApproveItem(db: Db, i: nat, admin: UserId): (result: Result<Db, Error>)
    requires Linked(db) && i < |db.items|
    ensures result.Ok? ==> Linked(result.value) && SameSize(db, result.value)
  {
    if db.items[i].status != ItemPending then Err(ItemAlreadyProcessed)
    else match db.items[i].target
      case OnEquipment(c) =>
        var row := db.custody[c];
        Ok(Resolve(db.(custody := db.custody[c := row.(open := false)],
                       events := db.events + [EquipmentReturned(row.equipment, row.user, admin)]),
                   i, ItemApproved, admin))
      case OnHolding(h, q) =>
        var row := db.holdings[h];
        if q > row.quantity then Err(ExceedsHeldQuantity)
        else
          var asset := db.assets[row.asset];
          Ok(Resolve(db.(holdings := db.holdings[h := row.(quantity := row.quantity - q)],
                         assets := db.assets[row.asset := asset.(stock := asset.stock + q)],
                         events := db.events + [StockEvent(row.asset, row.user, q, q, admin)]),
                     i, ItemApproved, admin))
  }

  function DenyItem(db: Db, i: nat, admin: UserId): (result: Result<Db, Error>)
    requires Linked(db) && i < |db.items|
    ensures result.Ok? ==> Linked(result.value) && SameSize(db, result.value)
  {
    if db.items[i].status != ItemPending then Err(ItemAlreadyProcessed)
    else Ok(Resolve(db, i, ItemDenied, admin))
  }

  // ---- Whole requests ----

  predicate PendingItemOf(item: Item, r: nat) {
    item.request == r && item.status == ItemPending
  }

  datatype Verdict = Approve | Deny

  function Decide(db: Db, i: nat, admin: UserId, verdict: Verdict): (result: Result<Db, Error>)
    requires Linked(db) && i < |db.items|
    ensures result.Ok? ==> Linked(result.value) && SameSize(db, result.value)
  {
    if verdict.Approve? then ApproveItem(db, i, admin) else DenyItem(db, i, admin)
  }

  /** Item i is decided if it is a pending item of the request. */
  function DecideNext(db: Db, r: nat, admin: UserId, verdict: Verdict, i: nat): (result: Result<Db, Error>)
    requires Linked(db) && i < |db.items|
    ensures result.Ok? ==> Linked(result.value) && SameSize(db, result.value)
  {
    if PendingItemOf(db.items[i], r) then Decide(db, i, admin, verdict) else Ok(db)
  }

  /** The request's pending items among the first n decided, one after the other. */
  function DecideUpTo(db: Db, r: nat, admin: UserId, verdict: Verdict, n: nat): (result: Result<Db, Error>)
    requires Linked(db) && n <= |db.items|
    ensures result.Ok? ==> Linked(result.value) && SameSize(db, result.value)
  {
    if n == 0 then Ok(db)
    else match DecideUpTo(db, r, admin, verdict, n - 1)
      case Err(e) => Err(e)
      case Ok(d) => DecideNext(d, r, admin, verdict, n - 1)
  }

  function DecideRequest(db: Db, r: nat, admin: UserId, verdict: Verdict): (result: Result<Db, Error>)
    requires Linked(db) && r < |db.requests|
    ensures result.Ok? ==> Linked(result.value) && SameSize(db, result.value)
  {
    if db.requests[r].status != Pending then Err(RequestAlreadyProcessed)
    else match DecideUpTo(db, r, admin, verdict, |db.items|)
      case Err(e) => Err(e)
      case Ok(d) =>
        Ok(d.(requests := d.requests[r := d.requests[r].(status := StatusOf(d.items, r), processedBy := Some(admin))]))
  }

  // ---- Creating a request ----

  datatype Entry = Entry(assetType: string, publicId: nat, quantity: int)

  datatype Draft = Draft(items: seq<Item>, events: seq<Event>)

  const MAX_TOTAL_ITEMS := 20

  predicate PendingOn(db: Db, target: Target)
    requires forall i :: 0 <= i < |db.items| ==> db.items[i].request < |db.requests|
  {
    exists i :: 0 <= i < |db.items| && SameRow(db.items[i].target, target)
             && db.requests[db.items[i].request].status == Pending
  }

  predicate SameRow(a: Target, b: Target) {
    || (a.OnEquipment? && b.OnEquipment? && a.custody == b.custody)
    || (a.OnHolding? && b.OnHolding? && a.holding == b.holding)
  }

  function EquipmentIds(payload: seq<Entry>): seq<nat> {
    if payload == [] then []
    else (if payload[0].assetType == "equipment" then [payload[0].publicId] else []) + EquipmentIds(payload[1..])
  }

  function EntriesOf(payload: seq<Entry>, assetType: string): seq<Entry> {
    if payload == [] then []
    else (if payload[0].assetType == assetType then [payload[0]] else []) + EntriesOf(payload[1..], assetType)
  }

  predicate OpenFor(row: Custody, user: UserId, ids: seq<nat>) {
    row.equipment in ids && row.open && row.user == user
  }

  /** The rows among the first n that the equipment query returns, in table order. */
  function Matching(custody: seq<Custody>, user: UserId, ids: seq<nat>, n: nat): (m: seq<nat>)
    requires n <= |custody|
    ensures forall k :: 0 <= k < |m| ==> m[k] < n && OpenFor(custody[m[k]], user, ids)
    ensures forall k, l :: 0 <= k < l < |m| ==> m[k] < m[l]
  {
    if n == 0 then []
    else Matching(custody, user, ids, n - 1) + if OpenFor(custody[n - 1], user, ids) then [n - 1] else []
  }

  function RoomOf(db: Db, e: EquipmentId): Option<RoomId> {
    if e in db.rooms then Some(db.rooms[e]) else None
  }

  function EquipmentItem(db: Db, r: nat, c: nat): Item
    requires c < |db.custody|
  {
    Item(r, OnEquipment(c), RoomOf(db, db.custody[c].equipment), ItemPending, None)
  }

  /** The event a builder logs beside the item it drafts. */
  function RequestedEvent(db: Db, user: UserId, target: Target): Event
    requires target.OnEquipment? ==> target.custody < |db.custody|
    requires target.OnHolding? ==> target.holding < |db.holdings|
  {
    match target
    case OnEquipment(c) => EquipmentReturnRequested(db.custody[c].equipment, user)
    case OnHolding(h, q) => StockEvent(db.holdings[h].asset, user, q, 0, user)
  }

  function BuildEquipment(db: Db, user: UserId, r: nat, ids: seq<nat>): Result<Draft, Error>
    requires Linked(db)
  {
    var m := Matching(db.custody, user, ids, |db.custody|);
    if |m| != |ids| then Err(NotAssigned)
    else if exists k :: 0 <= k < |m| && PendingOn(db, OnEquipment(m[k])) then Err(AlreadyPending)
    else Ok(Draft(seq(|m|, k requires 0 <= k < |m| => EquipmentItem(db, r, m[k])),
                  seq(|m|, k requires 0 <= k < |m| => RequestedEvent(db, user, OnEquipment(m[k])))))
  }

  function HoldingItem(db: Db, r: nat, h: nat, quantity: nat): Item
    requires h < |db.holdings| && db.holdings[h].asset < |db.assets|
  {
    Item(r, OnHolding(h, quantity), db.assets[db.holdings[h].asset].room, ItemPending, None)
  }

  predicate HeldBy(db: Db, h: nat, user: UserId, kind: Kind, publicId: nat)
    requires h < |db.holdings| && db.holdings[h].asset < |db.assets|
  {
    var row := db.holdings[h];
    && row.user == user && row.open && row.quantity > 0 && row.asset == publicId
    && db.assets[row.asset].kind == kind && !db.assets[row.asset].deleted
  }

  /** The map from public id to row keeps the last matching row of the query. */
  function LastHeld(db: Db, user: UserId, kind: Kind, publicId: nat, n: nat): (h: Option<nat>)
    requires Linked(db) && n <= |db.holdings|
    ensures h.Some? ==> h.value < n && HeldBy(db, h.value, user, kind, publicId)
    ensures h.None? ==> forall m :: 0 <= m < n ==> !HeldBy(db, m, user, kind, publicId)
  {
    if n == 0 then None
    else if HeldBy(db, n - 1, user, kind, publicId) then Some(n - 1)
    else LastHeld(db, user, kind, publicId, n - 1)
  }

  function CheckEntry(db: Db, user: UserId, kind: Kind, e: Entry): (result: Result<nat, Error>)
    requires Linked(db)
    ensures result.Ok? ==> result.value < |db.holdings| && e.quantity >= 0
  {
    match LastHeld(db, user, kind, e.publicId, |db.holdings|)
    case None => Err(NotAssigned)
    case Some(h) =>
      if e.quantity > db.holdings[h].quantity then Err(ExceedsHeldQuantity)
      else if PendingOn(db, OnHolding(h, 0)) then Err(AlreadyPending)
      // The event row's quantity column takes no negative value.
      else if e.quantity < 0 then Err(NegativeQuantity)
      else Ok(h)
  }

  function BuildHoldings(db: Db, user: UserId, r: nat, kind: Kind, entries: seq<Entry>, n: nat): Result<Draft, Error>
    requires Linked(db) && n <= |entries|
  {
    if n == 0 then Ok(Draft([], []))
    else match BuildHoldings(db, user, r, kind, entries, n - 1)
      case Err(e) => Err(e)
      case Ok(draft) =>
        var e := entries[n - 1];
        match CheckEntry(db, user, kind, e)
        case Err(error) => Err(error)
        case Ok(h) =>
          Ok(Draft(draft.items + [HoldingItem(db, r, h, e.quantity)],
                   draft.events + [RequestedEvent(db, user, OnHolding(h, e.quantity))]))
  }

  predicate KnownType(e: Entry) {
    e.assetType == "equipment" || e.assetType == "accessory" || e.assetType == "consumable"
  }

  function BuildAll(db: Db, user: UserId, r: nat, payload: seq<Entry>): Result<Draft, Error>
    requires Linked(db)
  {
    var ids := EquipmentIds(payload);
    var accessories, consumables := EntriesOf(payload, "accessory"), EntriesOf(payload, "consumable");
    match (if ids == [] then Ok(Draft([], [])) else BuildEquipment(db, user, r, ids))
    case Err(e) => Err(e)
    case Ok(d1) =>
      match BuildHoldings(db, user, r, Accessory, accessories, |accessories|)
      case Err(e) => Err(e)
      case Ok(d2) =>
        match BuildHoldings(db, user, r, Consumable, consumables, |consumables|)
        case Err(e) => Err(e)
        case Ok(d3) => Ok(Draft(d1.items + d2.items + d3.items, d1.events + d2.events + d3.events))
  }

  function Create(db: Db, user: UserId, payload: seq<Entry>): Result<Db, Error>
    requires Linked(db)
  {
    var r := |db.requests|;
    if |payload| > MAX_TOTAL_ITEMS then Err(TooManyItems)
    else if exists e :: e in payload && !KnownType(e) then Err(InvalidAssetType)
    else match BuildAll(db, user, r, payload)
      case Err(e) => Err(e)
      case Ok(draft) =>
        // The items' room column takes no null, so inserting them fails for an asset without a room.
        if exists item :: item in draft.items && item.room.None? then Err(RoomMissing)
        else Ok(db.(requests := db.requests + [Request(user, Pending, None)],
                    items := db.items + draft.items,
                    events := db.events + draft.events))
  }

  // ---- Handing out equipment and taking it back ----

  function FindAmong(custody: seq<Custody>, e: EquipmentId, n: nat): (c: Option<nat>)
    requires n <= |custody|
    ensures c.Some? ==> c.value < n && custody[c.value].equipment == e
    ensures c.None? ==> forall k :: 0 <= k < n ==> custody[k].equipment != e
  {
    if n == 0 then None
    else if custody[n - 1].equipment == e then Some(n - 1)
    else FindAmong(custody, e, n - 1)
  }

  /** The row of equipment e. */
  function FindRow(custody: seq<Custody>, e: EquipmentId): (c: Option<nat>)
    ensures c.Some? ==> c.value < |custody| && custody[c.value].equipment == e
    ensures c.None? ==> forall k :: 0 <= k < |custody| ==> custody[k].equipment != e
  {
    FindAmong(custody, e, |custody|)
  }

  predicate IsOut(db: Db, e: EquipmentId) {
    var c := FindRow(db.custody, e);
    c.Some? && db.custody[c.value].open
  }

  /** An equipment that is out is skipped; otherwise its one row is created or used again. */
  function AssignTo(db: Db, e: EquipmentId, actor: UserId, user: UserId): Db {
    if IsOut(db, e) then db
    else
      var c := FindRow(db.custody, e);
      var row := Custody(e, user, actor, true);
      db.(custody := if c.Some? then db.custody[c.value := row] else db.custody + [row],
          events := db.events + [EquipmentAssigned(e, user, actor)])
  }

  function TakeBack(db: Db, e: EquipmentId, actor: UserId): Db {
    if !IsOut(db, e) then db
    else
      var c := FindRow(db.custody, e).value;
      db.(custody := db.custody[c := db.custody[c].(open := false)],
          events := db.events + [EquipmentReturned(e, db.custody[c].user, actor)])
  }
}
