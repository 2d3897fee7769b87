/**
 What one call of the store does to the database when it runs alone: every call is planned
 against the state it finds and then carried out. All four ways of changing an order's status
 (table writes, SetPOStatus, the approval workflow and the derived receipt status) end in the
 same kind of plan, a Move.
 */
module Requests {
  import opened Wrappers
  import opened Text
  import opened Tables
  import opened Pricing

  /** `refused` is the verdict of the constraints on tables and columns outside the model. */
  datatype Call =
    | Insert(v: Values, refused: bool)
    | Update(id: int, v: Values, refused: bool)
    | Delete(table: Table, id: int, refused: bool)
    | SetStatus(id: int, status: string, payment: string, note: string)
    | Submit(id: int)
    | Decide(id: int, user: int, approve: bool, note: string)

  /** `actor` is the user id the context carries. */
  datatype Request = Request(actor: Option<int>, call: Call)

  datatype Error = Workflow | Forbidden | NotFound | Constraint | HistoryRefused

  datatype Reply =
    | Done(id: int)
    | Submitted(totalMinor: int, currency: string)
    | Settled(status: string, totalMinor: int, currency: string, limitMinor: int)
    | Failed(error: Error)

  datatype Plan =
    /** Nothing is written. */
    | Stop(error: Error)
    /** Written without touching the status or payment tag of a surviving order. */
    | Quiet(db: Db, reply: Reply)
    /** Order `id` becomes `after` on top of `db`; one history row tells of it. */
    | Move(db: Db, id: int, before: Snap, after: Order, row: HistoryRow, transaction: bool, reply: Reply)

  // ---- statements

  /** actorFromContext: only a positive id is recorded. */
  function Actor(context: Option<int>): Option<int> {
    if context.Some? && context.value > 0 then context else None
  }

  /** The foreign key of po_status_history.usr_id. */
  predicate Known(db: Db, user: Option<int>) {
    user.None? || user.value in db.users
  }

  function Append(db: Db, row: HistoryRow): Db {
    db.(history := db.history + [row])
  }

  function PutOrder(db: Db, id: int, o: Order): Db {
    db.(orders := db.orders[id := o])
  }

  function PutLine(db: Db, id: int, l: Line): Db {
    db.(lines := db.lines[id := l])
  }

  /** The row recordPOStatusChange appends. */
  function ChangeRow(id: int, before: Snap, after: Snap, note: string, actor: Option<int>): HistoryRow {
    HistoryRow(id, NullableText(before.status), after.status, NullableText(after.payment), Actor(actor),
               NullableText(note))
  }

  function Without(history: seq<HistoryRow>, order: int): (r: seq<HistoryRow>)
    ensures forall i :: 0 <= i < |r| ==> r[i].order != order && r[i] in history
    ensures forall row :: multiset(r)[row] == if row.order == order then 0 else multiset(history)[row]
  {
    if history == [] then [] else
      var r := Without(history[..|history| - 1], order);
      var last := history[|history| - 1];
      assert history == history[..|history| - 1] + [last];
      if last.order == order then r else r + [last]
  }

  /** DELETE FROM purchase_orders with its cascades to lines and history. */
  function DropOrder(db: Db, id: int): Db {
    db.(orders := db.orders - {id},
        lines := map k | k in db.lines && db.lines[k].por != id :: db.lines[k],
        history := Without(db.history, id))
  }

  // ---- plans

  predicate GuardsDecided(v: OrderValues) {
    v.status.Set? && Decided(v.status.value)
  }

  /** The status the line receipts call for. */
  ghost function Derived(lines: map<int, Line>, por: int): string {
    var ordered, received := SumOf(lines, por, Qty), SumOf(lines, por, Received);
    if ordered > 0.0 && received >= ordered then RECEIVED else PARTIAL
  }

  /** syncPOReceiptStatus moves the order. */
  ghost predicate Syncs(db: Db, por: int) {
    && por in db.orders
    && Fulfilling(Str(db.orders[por].status))
    && SumOf(db.lines, por, Received) > 0.0
    && Derived(db.lines, por) != Str(db.orders[por].status)
  }

  ghost function SyncPlan(db: Db, actor: Option<int>, por: int, reply: Reply): Plan {
    if !Syncs(db, por) then Quiet(db, reply) else
      var before := SnapOf(db.orders[por]);
      var after := db.orders[por].(status := Some(Derived(db.lines, por)));
      Move(db, por, before, after, ChangeRow(por, before, SnapOf(after), DERIVED_NOTE, actor), false, reply)
  }

  function InsertOrderPlan(db: Db, actor: Option<int>, v: OrderValues, refused: bool): Plan {
    if GuardsDecided(v) then Stop(Workflow)
    else if refused || !v.docNumber.Set? then Stop(Constraint)
    else
      var after := AssignOrder(NO_ORDER, v);
      Move(db.(nextOrder := db.nextOrder + 1), db.nextOrder, Snap("", ""), after,
           ChangeRow(db.nextOrder, Snap("", ""), SnapOf(after), "", actor), false, Done(db.nextOrder))
  }

  ghost function InsertLinePlan(db: Db, actor: Option<int>, v: LineValues, refused: bool): Plan {
    if refused || !v.por.Set? || v.por.value !in db.orders then Stop(Constraint)
    else SyncPlan(PutLine(db, db.nextLine, AssignLine(NO_LINE, v)).(nextLine := db.nextLine + 1),
                  actor, v.por.value, Done(db.nextLine))
  }

  function InsertUserPlan(db: Db, v: UserValues, refused: bool): Plan {
    if refused || !WritesUser(v) then Stop(Constraint)
    else Quiet(db.(users := db.users[db.nextUser := AssignUser(NO_USER, v)], nextUser := db.nextUser + 1),
               Done(db.nextUser))
  }

  function UpdateOrderPlan(db: Db, actor: Option<int>, id: int, v: OrderValues, refused: bool): Plan {
    if GuardsDecided(v) then Stop(Workflow)
    else if !WritesOrder(v) then Quiet(db, Done(id))
    else if id !in db.orders then Stop(NotFound)
    else if refused || v.docNumber.SetNull? then Stop(Constraint)
    else
      var before, after := SnapOf(db.orders[id]), AssignOrder(db.orders[id], v);
      Move(db, id, before, after, ChangeRow(id, before, SnapOf(after), "", actor), false, Done(id))
  }

  ghost function UpdateLinePlan(db: Db, actor: Option<int>, id: int, v: LineValues, refused: bool): Plan {
    if !WritesLine(v) then Quiet(db, Done(id))
    else if id !in db.lines then Stop(NotFound)
    else if refused || v.por.SetNull? || (v.por.Set? && v.por.value !in db.orders) then Stop(Constraint)
    else
      var line := AssignLine(db.lines[id], v);
      SyncPlan(PutLine(db, id, line), actor, line.por, Done(id))
  }

  function UpdateUserPlan(db: Db, id: int, v: UserValues, refused: bool): Plan {
    if !WritesUser(v) then Quiet(db, Done(id))
    else if id !in db.users then Stop(NotFound)
    else if refused then Stop(Constraint)
    else Quiet(db.(users := db.users[id := AssignUser(db.users[id], v)]), Done(id))
  }

  predicate Recorded(history: seq<HistoryRow>, user: int) {
    exists i :: 0 <= i < |history| && history[i].user == Some(user)
  }

  function DeleteOrderPlan(db: Db, id: int, refused: bool): Plan {
    if id !in db.orders then Stop(NotFound)
    else if refused then Stop(Constraint)
    else Quiet(DropOrder(db, id), Done(id))
  }

  ghost function DeleteLinePlan(db: Db, actor: Option<int>, id: int, refused: bool): Plan {
    if id !in db.lines then Stop(NotFound)
    else if refused then Stop(Constraint)
    else SyncPlan(db.(lines := db.lines - {id}), actor, db.lines[id].por, Done(id))
  }

  /** The foreign key of the history keeps a user with recorded changes. */
  function DeleteUserPlan(db: Db, id: int, refused: bool): Plan {
    if id !in db.users then Stop(NotFound)
    else if refused || Recorded(db.history, id) then Stop(Constraint)
    else Quiet(db.(users := db.users - {id}), Done(id))
  }

  /** Which SetPOStatus arguments are accepted, after trimming. */
  predicate StatusChangeAllowed(status: string, payment: string) {
    && (status != "" || payment != "")
    && (status == "" || (status in PO_STATUSES && !Decided(status)))
    && (payment == "" || payment in PAYMENT_STATUSES)
  }

  function SetStatusPlan(db: Db, actor: Option<int>, id: int, rawStatus: string, rawPayment: string,
                         note: string): Plan {
    var status, payment := Trim(rawStatus), Trim(rawPayment);
    if !StatusChangeAllowed(status, payment) || id !in db.orders then Stop(Workflow)
    else StatusMove(db, actor, id, status, payment, note)
  }

  /** An empty value leaves its field alone. */
  function StatusMove(db: Db, actor: Option<int>, id: int, status: string, payment: string, note: string): Plan
    requires id in db.orders
  {
    var o := db.orders[id];
    var after := o.(status := if status != "" then Some(status) else o.status,
                    payment := if payment != "" then Some(payment) else o.payment);
    Move(db, id, SnapOf(o), after, ChangeRow(id, SnapOf(o), SnapOf(after), note, actor), false, Done(id))
  }

  /** The order repriced from its lines. */
  ghost function Priced(db: Db, id: int, status: string): Order
    requires id in db.orders
  {
    var o := db.orders[id];
    o.(status := Some(status), totalMinor := Some(TotalMinor(db.lines, id)),
       currency := NullableString(PricedCurrency(db.lines, id, o.currency)))
  }

  ghost function SubmitPlan(db: Db, actor: Option<int>, id: int): Plan {
    if id !in db.orders then Stop(Workflow) else
      var o := db.orders[id];
      var status := Trim(Str(o.status));
      if (status != "" && status != DRAFT) || !HasLines(db.lines, id) then Stop(Workflow) else
        Move(db, id, SnapOf(o), Priced(db, id, PENDING),
             HistoryRow(id, NullableText(status), PENDING, NullableText(Str(o.payment)), Actor(actor),
                        NullableText("submitted for approval")),
             true, Submitted(TotalMinor(db.lines, id), Str(PricedCurrency(db.lines, id, o.currency))))
  }

  /** ApprovalLimit: no row, NULL or a negative limit all mean no authority. */
  function ApprovalLimit(users: map<int, User>, user: int): (limit: int)
    ensures limit > 0 <==> user in users && users[user].limitMinor.Some? && users[user].limitMinor.value > 0
    ensures limit > 0 ==> users[user].limitMinor == Some(limit)
    ensures limit >= 0
  {
    if user in users && users[user].limitMinor.Some? && users[user].limitMinor.value >= 0
    then users[user].limitMinor.value else 0
  }

  /** The transaction of DecidePurchaseOrder, given the limit read before it. */
  ghost function DecidePlan(db: Db, id: int, user: int, approve: bool, note: string, limit: int): Plan {
    if id !in db.orders then Stop(Workflow) else
      var o := db.orders[id];
      var status := Trim(Str(o.status));
      if !Undecided(status) || !HasLines(db.lines, id) then Stop(Workflow)
      else if limit <= 0 || TotalMinor(db.lines, id) > limit then Stop(Forbidden)
      else
        var decided := if approve then APPROVED else REJECTED;
        Move(db, id, SnapOf(o), Priced(db, id, decided),
             HistoryRow(id, NullableText(status), decided, NullableText(Str(o.payment)), Some(user),
                        DecisionNote(decided, limit, note)),
             true, Settled(decided, TotalMinor(db.lines, id), Str(PricedCurrency(db.lines, id, o.currency)), limit))
  }

  function DecisionNote(decided: string, limit: int, note: string): Option<string> {
    NullableText(if Blank(note) then decided + " within a limit of " + FormatInt(limit) else note)
  }

  ghost function PlanOf(db: Db, r: Request): Plan {
    match r.call
    case Insert(ToOrder(v), refused) => InsertOrderPlan(db, r.actor, v, refused)
    case Insert(ToLine(v), refused) => InsertLinePlan(db, r.actor, v, refused)
    case Insert(ToUser(v), refused) => InsertUserPlan(db, v, refused)
    case Update(id, ToOrder(v), refused) => UpdateOrderPlan(db, r.actor, id, v, refused)
    case Update(id, ToLine(v), refused) => UpdateLinePlan(db, r.actor, id, v, refused)
    case Update(id, ToUser(v), refused) => UpdateUserPlan(db, id, v, refused)
    case Delete(PurchaseOrders, id, refused) => DeleteOrderPlan(db, id, refused)
    case Delete(PoComponents, id, refused) => DeleteLinePlan(db, r.actor, id, refused)
    case Delete(Users, id, refused) => DeleteUserPlan(db, id, refused)
    case SetStatus(id, status, payment, note) => SetStatusPlan(db, r.actor, id, status, payment, note)
    case Submit(id) => SubmitPlan(db, r.actor, id)
    case Decide(id, user, approve, note) => DecidePlan(db, id, user, approve, note, ApprovalLimit(db.users, user))
  }

  /**
   Carrying out a plan. Outside a transaction the order is already updated when the history
   row is refused; inside one everything is rolled back.
   */
  function Execute(db: Db, p: Plan): (Db, Reply) {
    match p
    case Stop(error) => (db, Failed(error))
    case Quiet(after, reply) => (after, reply)
    case Move(base, id, before, after, row, transaction, reply) =>
      var moved := PutOrder(base, id, after);
      if !transaction && SnapOf(after) == before then (moved, reply)
      else if Known(base, row.user) then (Append(moved, row), reply)
      else if transaction then (db, Failed(HistoryRefused))
      else (moved, Failed(HistoryRefused))
  }

  /** Syncing never stops or rolls back, so it does not matter what it would fall back to. */
  lemma SyncFromAnywhere(db: Db, base: Db, actor: Option<int>, por: int, reply: Reply)
    ensures Execute(db, SyncPlan(base, actor, por, reply)) == Execute(base, SyncPlan(base, actor, por, reply))
  {
    hide SumOf;
    hide Derived;
  }

  ghost function Apply(db: Db, r: Request): (Db, Reply) {
    Execute(db, PlanOf(db, r))
  }

  const EMPTY: Db := Db(map[], map[], map[], [], 1, 1, 1)

  /** The state after a sequence of calls. */
  ghost function Run(db: Db, rs: seq<Request>): Db
    decreases |rs|
  {
    if rs == [] then db else Run(Apply(db, rs[0]).0, rs[1..])
  }

  lemma {:induction false} RunThen(db: Db, rs: seq<Request>, r: Request)
    ensures Run(db, rs + [r]) == Apply(Run(db, rs), r).0
    decreases |rs|
  {
    hide Apply;
    if rs == [] {
      assert [] + [r] == [r];
      assert Run(Apply(db, r).0, []) == Apply(db, r).0;
    } else {
      assert (rs + [r])[0] == rs[0] && (rs + [r])[1..] == rs[1..] + [r];
      RunThen(Apply(db, rs[0]).0, rs[1..], r);
    }
  }

  /** Some sequence of calls leads from the empty database to this one. */
  ghost predicate Reachable(db: Db) {
    exists rs :: Run(EMPTY, rs) == db
  }

  lemma EmptyReachable()
    ensures Reachable(EMPTY)
  {
    assert Run(EMPTY, []) == EMPTY;
  }

  lemma ReachableThen(db: Db, r: Request)
    requires Reachable(db)
    ensures Reachable(Apply(db, r).0)
  {
    hide Apply;
    var rs :| Run(EMPTY, rs) == db;
    RunThen(EMPTY, rs, r);
    assert Run(EMPTY, rs + [r]) == Apply(db, r).0;
  }
}
