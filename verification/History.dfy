/**
 The status history replays to the present state: for every order its rows form a chain from
 the blank status to the current status and payment tag.
 */
module History {
  import opened Wrappers
  import opened Text
  import opened Tables
  import opened Pricing
  import opened Requests

  /** The history rows of one order, oldest first. */
  function RowsOf(history: seq<HistoryRow>, id: int): seq<HistoryRow> {
    if history == [] then [] else
      var last := history[|history| - 1];
      RowsOf(history[..|history| - 1], id) + (if last.order == id then [last] else [])
  }

  /** Every row starts where the row before it ended, the first one from the blank status. */
  predicate Chain(rows: seq<HistoryRow>) {
    && (rows != [] ==> Blank(Str(rows[0].previous)))
    && forall i :: 0 < i < |rows| ==> Trim(Str(rows[i].previous)) == Trim(rows[i - 1].status)
  }

  /** What the history says the order looks like now. */
  function Told(rows: seq<HistoryRow>): (string, Option<string>) {
    if rows == [] then ("", None) else (rows[|rows| - 1].status, rows[|rows| - 1].payment)
  }

  ghost predicate Replays(db: Db, id: int)
    requires id in db.orders
  {
    var rows := RowsOf(db.history, id);
    Chain(rows) && Told(rows) == Visible(db.orders[id])
  }

  /** Ids are below the counter, and every history row belongs to an order. */
  ghost predicate Linked(db: Db) {
    && (forall id :: id in db.orders ==> id < db.nextOrder)
    && (forall i :: 0 <= i < |db.history| ==> db.history[i].order in db.orders)
  }

  /** The rows of this order tell its state, as long as it exists. */
  ghost predicate Kept(db: Db, id: int) {
    id in db.orders ==> Replays(db, id)
  }

  ghost predicate Inv(db: Db) {
    Linked(db) && forall id :: id in db.orders ==> Replays(db, id)
  }

  // ---- rows of one order

  lemma RowsAppend(history: seq<HistoryRow>, row: HistoryRow, id: int)
    ensures RowsOf(history + [row], id) == if row.order == id then RowsOf(history, id) + [row] else RowsOf(history, id)
  {
    assert (history + [row])[..|history|] == history;
  }

  lemma {:induction false} RowsNone(history: seq<HistoryRow>, id: int)
    requires forall i :: 0 <= i < |history| ==> history[i].order != id
    ensures RowsOf(history, id) == []
  {
    if history != [] {
      RowsNone(history[..|history| - 1], id);
    }
  }

  lemma {:induction false} RowsWithout(history: seq<HistoryRow>, gone: int, id: int)
    requires id != gone
    ensures RowsOf(Without(history, gone), id) == RowsOf(history, id)
  {
    if history != [] {
      var front, last := history[..|history| - 1], history[|history| - 1];
      RowsWithout(front, gone, id);
      RowsAppend(Without(front, gone), last, id);
    }
  }

  // ---- every call ends in a plan of a known shape

  ghost predicate MoveShape(db: Db, p: Plan)
    requires p.Move?
  {
    && p.db.history == db.history && p.db.users == db.users && p.db.orders == db.orders
    && (|| (p.id in db.orders && p.before == SnapOf(db.orders[p.id]) && p.db.nextOrder == db.nextOrder)
        || (p.id == db.nextOrder && p.before == Snap("", "") && p.db.nextOrder == db.nextOrder + 1))
    && p.row.order == p.id
    && (p.row.status, p.row.payment) == Visible(p.after)
    && Trim(Str(p.row.previous)) == Trim(p.before.status)
    && (p.transaction ==> p.id in db.orders && Trim(p.before.status) != Trim(Str(p.after.status)))
  }

  ghost predicate QuietShape(db: Db, p: Plan)
    requires p.Quiet?
  {
    && p.db.nextOrder == db.nextOrder
    && (|| (p.db.history == db.history && p.db.orders == db.orders)
        || exists id :: id in db.orders && p.db == DropOrder(db, id))
  }

  ghost predicate Shaped(db: Db, r: Request, p: Plan) {
    && (p.Move? ==> MoveShape(db, p) && (!p.transaction ==> p.row.user == Actor(r.actor)))
    && (p.Move? ==> p.reply.Failed? == false && (p.transaction <==> r.call.Submit? || r.call.Decide?))
    && (p.Quiet? ==> QuietShape(db, p) && !p.reply.Failed?)
    && (p.Stop? ==> p.error != HistoryRefused)
  }

  lemma SyncShape(db: Db, base: Db, r: Request, por: int, reply: Reply)
    requires base.history == db.history && base.users == db.users && base.orders == db.orders
    requires base.nextOrder == db.nextOrder && !reply.Failed? && !r.call.Submit? && !r.call.Decide?
    ensures Shaped(db, r, SyncPlan(base, r.actor, por, reply))
  {
  }

  lemma WriteOrderShape(db: Db, r: Request, v: OrderValues, refused: bool)
    requires !r.call.Submit? && !r.call.Decide?
    ensures Shaped(db, r, InsertOrderPlan(db, r.actor, v, refused))
    ensures forall id :: Shaped(db, r, UpdateOrderPlan(db, r.actor, id, v, refused))
  {
  }

  lemma InsertLineShape(db: Db, r: Request, v: LineValues, refused: bool)
    requires !r.call.Submit? && !r.call.Decide?
    ensures Shaped(db, r, InsertLinePlan(db, r.actor, v, refused))
  {
    if v.por.Set? {
      var base := PutLine(db, db.nextLine, AssignLine(NO_LINE, v)).(nextLine := db.nextLine + 1);
      SyncShape(db, base, r, v.por.value, Done(db.nextLine));
    }
  }

  lemma UpdateLineShape(db: Db, r: Request, id: int, v: LineValues, refused: bool)
    requires !r.call.Submit? && !r.call.Decide?
    ensures Shaped(db, r, UpdateLinePlan(db, r.actor, id, v, refused))
  {
    if id in db.lines {
      var line := AssignLine(db.lines[id], v);
      SyncShape(db, PutLine(db, id, line), r, line.por, Done(id));
    }
  }

  lemma DeleteLineShape(db: Db, r: Request, id: int, refused: bool)
    requires !r.call.Submit? && !r.call.Decide?
    ensures Shaped(db, r, DeleteLinePlan(db, r.actor, id, refused))
  {
    if id in db.lines {
      SyncShape(db, db.(lines := db.lines - {id}), r, db.lines[id].por, Done(id));
    }
  }

  lemma SetStatusShape(db: Db, r: Request)
    requires r.call.SetStatus?
    ensures Shaped(db, r, SetStatusPlan(db, r.actor, r.call.id, r.call.status, r.call.payment, r.call.note))
  {
  }

  lemma SubmitShape(db: Db, r: Request)
    requires r.call.Submit?
    ensures Shaped(db, r, SubmitPlan(db, r.actor, r.call.id))
  {
    if r.call.id in db.orders {
      TrimIdempotent(Str(db.orders[r.call.id].status));
      assert Trim(PENDING) == PENDING;
    }
  }

  lemma UndecidedDiffers(status: string, approve: bool)
    requires Undecided(status)
    ensures status != Trim(if approve then APPROVED else REJECTED)
  {
    assert Trim(APPROVED) == APPROVED && Trim(REJECTED) == REJECTED;
  }

  lemma DecideShape(db: Db, r: Request, limit: int)
    requires r.call.Decide?
    ensures Shaped(db, r, DecidePlan(db, r.call.id, r.call.user, r.call.approve, r.call.note, limit))
  {
    hide HasLines;
    hide DecisionNote;
    hide PricedCurrency;
    hide TotalMinor;
    hide Trim;
    hide Undecided;
    hide Blank;
    if r.call.id in db.orders {
      var status := Str(db.orders[r.call.id].status);
      TrimIdempotent(status);
      if Undecided(Trim(status)) {
        UndecidedDiffers(Trim(status), r.call.approve);
      }
    }
  }

  lemma UserShape(db: Db, r: Request, v: UserValues, refused: bool, id: int)
    requires !r.call.Submit? && !r.call.Decide?
    ensures Shaped(db, r, InsertUserPlan(db, v, refused))
    ensures Shaped(db, r, UpdateUserPlan(db, id, v, refused))
    ensures Shaped(db, r, DeleteUserPlan(db, id, refused))
  {
    hide Recorded;
  }

  lemma DeleteOrderShape(db: Db, r: Request, id: int, refused: bool)
    requires !r.call.Submit? && !r.call.Decide?
    ensures Shaped(db, r, DeleteOrderPlan(db, id, refused))
  {
    hide Without;
  }

  lemma PlanShape(db: Db, r: Request)
    ensures Shaped(db, r, PlanOf(db, r))
  {
    hide Shaped;
    hide InsertOrderPlan;
    hide InsertLinePlan;
    hide InsertUserPlan;
    hide UpdateOrderPlan;
    hide UpdateLinePlan;
    hide UpdateUserPlan;
    hide DeleteOrderPlan;
    hide DeleteLinePlan;
    hide DeleteUserPlan;
    hide SetStatusPlan;
    hide SubmitPlan;
    hide DecidePlan;
    match r.call
    case Insert(ToOrder(v), refused) => WriteOrderShape(db, r, v, refused);
    case Insert(ToLine(v), refused) => InsertLineShape(db, r, v, refused);
    case Insert(ToUser(v), refused) => UserShape(db, r, v, refused, 0);
    case Update(_, ToOrder(v), refused) => WriteOrderShape(db, r, v, refused);
    case Update(id, ToLine(v), refused) => UpdateLineShape(db, r, id, v, refused);
    case Update(id, ToUser(v), refused) => UserShape(db, r, v, refused, id);
    case Delete(PurchaseOrders, id, refused) => DeleteOrderShape(db, r, id, refused);
    case Delete(PoComponents, id, refused) => DeleteLineShape(db, r, id, refused);
    case Delete(Users, id, refused) => UserShape(db, r, UserValues(Absent, Absent), refused, id);
    case SetStatus(_, _, _, _) => SetStatusShape(db, r);
    case Submit(_) => SubmitShape(db, r);
    case Decide(_, user, _, _) => DecideShape(db, r, ApprovalLimit(db.users, user));
  }

  /** The visible part of an order changes in an auto-committed write. */
  ghost predicate RecordsChange(db: Db, r: Request) {
    var p := PlanOf(db, r);
    p.Move? && !p.transaction && (p.before.status, NullableText(p.before.payment)) != Visible(p.after)
  }

  /** That order is the one whose visible part changes. */
  ghost predicate ChangesOrder(db: Db, r: Request, id: int) {
    RecordsChange(db, r) && PlanOf(db, r).id == id
  }

  // ---- one call

  lemma LinkedStays(db: Db, r: Request)
    requires Linked(db)
    ensures Linked(Apply(db, r).0)
  {
    PlanShape(db, r);
    hide PlanOf;
    var p := PlanOf(db, r);
    if p.Quiet? && (p.db.history != db.history || p.db.orders != db.orders) {
      var gone :| gone in db.orders && p.db == DropOrder(db, gone);
      DropLinked(db, gone);
    } else if p.Move? {
      MoveLinked(db, p);
    }
    hide Linked;
  }

  lemma DropLinked(db: Db, gone: int)
    requires Linked(db)
    ensures Linked(DropOrder(db, gone))
  {
    var next := DropOrder(db, gone);
    forall i | 0 <= i < |next.history| ensures next.history[i].order in next.orders {
      assert next.history[i] in db.history;
    }
  }

  lemma MoveLinked(db: Db, p: Plan)
    requires Linked(db) && p.Move? && MoveShape(db, p)
    ensures Linked(Execute(db, p).0)
  {
    hide Visible;
    hide Trim;
    hide Known;
  }

  lemma RowsExtend(rows: seq<HistoryRow>, o: (string, Option<string>), row: HistoryRow)
    requires Chain(rows) && Told(rows) == o
    requires Trim(Str(row.previous)) == Trim(o.0)
    ensures Chain(rows + [row]) && Told(rows + [row]) == (row.status, row.payment)
  {
  }

  /** A new order has no rows yet, an old one has rows that tell its present state. */
  lemma FreshRows(db: Db, p: Plan)
    requires Linked(db) && p.Move? && Kept(db, p.id) && MoveShape(db, p)
    ensures Chain(RowsOf(db.history, p.id))
    ensures Told(RowsOf(db.history, p.id)) == (p.before.status, NullableText(p.before.payment))
  {
    if p.id !in db.orders {
      RowsNone(db.history, p.id);
    }
  }

  lemma MoveKept(db: Db, p: Plan, id: int)
    requires Linked(db) && Kept(db, id) && p.Move? && MoveShape(db, p)
    requires Known(p.db, p.row.user) && (p.transaction || SnapOf(p.after) != p.before)
    ensures Kept(Execute(db, p).0, id)
  {
    hide RowsOf;
    hide Chain;
    hide Told;
    hide Trim;
    hide NullableText;
    hide Str;
    RowsAppend(db.history, p.row, id);
    if id == p.id {
      FreshRows(db, p);
      RowsExtend(RowsOf(db.history, id), (p.before.status, NullableText(p.before.payment)), p.row);
    }
  }

  lemma UnrecordedMove(db: Db, p: Plan, id: int)
    requires Linked(db) && Kept(db, id) && p.Move? && MoveShape(db, p) && !p.transaction
    requires SnapOf(p.after) == p.before || !Known(p.db, p.row.user)
    ensures Kept(Execute(db, p).0, id) <==>
            id != p.id || (p.before.status, NullableText(p.before.payment)) == Visible(p.after)
  {
    hide RowsOf;
    hide Chain;
    hide Told;
    hide NullableText;
    hide Trim;
    hide Str;
    if id == p.id {
      FreshRows(db, p);
    }
  }

  lemma QuietKept(db: Db, p: Plan, id: int)
    requires Kept(db, id) && p.Quiet? && QuietShape(db, p)
    ensures Kept(p.db, id)
  {
    hide Chain;
    hide Told;
    hide Visible;
    if p.db.history != db.history || p.db.orders != db.orders {
      var gone :| gone in db.orders && p.db == DropOrder(db, gone);
      if id != gone { RowsWithout(db.history, gone, id); }
    }
  }

  /**
   One call keeps the history of one order in step exactly when its acting user is on record, or
   it changes nothing the history of that order could show. Other orders do not matter.
   */
  lemma OrderKeptExactly(db: Db, r: Request, id: int)
    requires Linked(db) && Kept(db, id)
    ensures Kept(Apply(db, r).0, id) <==> Known(db, Actor(r.actor)) || !ChangesOrder(db, r, id)
  {
    hide PlanOf;
    hide Replays;
    hide NullableText;
    hide Visible;
    var p := PlanOf(db, r);
    PlanShape(db, r);
    match p
    case Stop(_) =>
    case Quiet(_, _) => QuietKept(db, p, id);
    case Move(base, _, before, after, row, transaction, _) =>
      if Known(base, row.user) && (transaction || SnapOf(after) != before) {
        MoveKept(db, p, id);
        if transaction { assert !RecordsChange(db, r); }
      } else if transaction {
        assert Execute(db, p).0 == db;
      } else {
        UnrecordedMove(db, p, id);
        if SnapOf(after) == before { SameVisible(before, after); }
      }
  }

  lemma SameVisible(before: Snap, after: Order)
    requires SnapOf(after) == before
    ensures Visible(after) == (before.status, NullableText(before.payment))
  {
  }

  /** The same for the histories of all orders at once. */
  lemma HistoryKeptExactly(db: Db, r: Request)
    requires Inv(db)
    ensures Inv(Apply(db, r).0) <==> Known(db, Actor(r.actor)) || !RecordsChange(db, r)
  {
    LinkedStays(db, r);
    forall id ensures Kept(Apply(db, r).0, id) <==> Known(db, Actor(r.actor)) || !ChangesOrder(db, r, id) {
      OrderKeptExactly(db, r, id);
    }
    hide Linked;
    hide Apply;
    hide PlanOf;
    hide Replays;
    hide Known;
    AllKept(Apply(db, r).0);
    hide Kept;
    hide Inv;
    assert RecordsChange(db, r) ==> ChangesOrder(db, r, PlanOf(db, r).id);
  }

  lemma AllKept(db: Db)
    requires Linked(db)
    ensures Inv(db) <==> forall id :: Kept(db, id)
  {
    hide Linked;
    hide Replays;
    if forall id :: Kept(db, id) {
      forall id | id in db.orders ensures Replays(db, id) {
        assert Kept(db, id);
      }
    }
  }

  // ---- runs

  /**
   Every call that changes what the history of this order shows comes from a user on record at
   that moment, or from no user.
   */
  ghost predicate ChangesRecorded(db: Db, rs: seq<Request>, id: int)
    decreases |rs|
  {
    rs == [] ||
    (&& (Known(db, Actor(rs[0].actor)) || !ChangesOrder(db, rs[0], id))
     && ChangesRecorded(Apply(db, rs[0]).0, rs[1..], id))
  }

  /** The history of this order replays after every call of the run. */
  ghost predicate ReplaysThroughout(db: Db, rs: seq<Request>, id: int)
    decreases |rs|
  {
    Kept(db, id) && (rs == [] || ReplaysThroughout(Apply(db, rs[0]).0, rs[1..], id))
  }

  /** A run keeps the history of an order replaying all along exactly when each change of that order can be recorded. */
  lemma {:induction false} RunKeepsHistory(db: Db, rs: seq<Request>, id: int)
    requires Linked(db) && Kept(db, id)
    ensures ReplaysThroughout(db, rs, id) <==> ChangesRecorded(db, rs, id)
    ensures ReplaysThroughout(db, rs, id) ==> Kept(Run(db, rs), id)
    decreases |rs|
  {
    hide Linked;
    hide Kept;
    hide Apply;
    hide ChangesOrder;
    if rs != [] {
      OrderKeptExactly(db, rs[0], id);
      LinkedStays(db, rs[0]);
      var next := Apply(db, rs[0]).0;
      if Kept(next, id) {
        RunKeepsHistory(next, rs[1..], id);
      } else {
        NotThroughout(next, rs[1..], id);
      }
    }
  }

  lemma NotThroughout(db: Db, rs: seq<Request>, id: int)
    requires !Kept(db, id)
    ensures !ReplaysThroughout(db, rs, id)
  {
  }

  /**
   History replay: in every state reached from the empty database, the rows of an order tell its
   state, provided the changes of that order could be recorded.
   */
  lemma HistoryReplays(rs: seq<Request>, id: int)
    requires ChangesRecorded(EMPTY, rs, id) && id in Run(EMPTY, rs).orders
    ensures var db := Run(EMPTY, rs); var rows := RowsOf(db.history, id);
            && Chain(rows)
            && (rows == [] ==> Visible(db.orders[id]) == ("", None))
            && (rows != [] ==> (rows[|rows| - 1].status, rows[|rows| - 1].payment) == Visible(db.orders[id]))
  {
    RunKeepsHistory(EMPTY, rs, id);
    assert Replays(Run(EMPTY, rs), id);
  }

  // ---- a change that leaves no row

  const DRAFT_ROW: HistoryRow := HistoryRow(1, None, DRAFT, None, None, None)
  const APPROVER: User := User(Some(100), None)
  const LEAVER: User := User(Some(0), None)
  const FREE_LINE: Line := Line(1, Some(1.0), None, None, None, None)

  /** One draft order with a line that costs nothing, a user who may approve it and one who will leave. */
  function Setup(): Db {
    Db(map[1 := NO_ORDER.(docNumber := "PO-1", status := Some(DRAFT))], map[1 := FREE_LINE],
       map[1 := APPROVER, 2 := LEAVER], [DRAFT_ROW], 2, 2, 3)
  }

  lemma SetupReachable()
    ensures Reachable(Setup())
  {
    hide Reachable;
    EmptyReachable();
    var one := EMPTY.(users := map[1 := APPROVER], nextUser := 2);
    var two := one.(users := map[1 := APPROVER, 2 := LEAVER], nextUser := 3);
    var ordered := two.(orders := Setup().orders, history := [DRAFT_ROW], nextOrder := 2);
    SetupUser(EMPTY, 100);
    ReachableThen(EMPTY, SetupUserCall(100));
    SetupUser(one, 0);
    ReachableThen(one, SetupUserCall(0));
    SetupOrder(two);
    ReachableThen(two, SETUP_ORDER);
    SetupLine(ordered);
    ReachableThen(ordered, SETUP_LINE);
  }

  function SetupUserCall(limit: int): Request {
    Request(None, Insert(ToUser(UserValues(Set(limit), Absent)), false))
  }

  const SETUP_ORDER: Request :=
    Request(None, Insert(ToOrder(OrderValues(Set("PO-1"), Set(DRAFT), Absent, Absent, Absent, Absent)), false))
  const SETUP_LINE: Request :=
    Request(None, Insert(ToLine(LineValues(Set(1), Set(1.0), Absent, Absent, Absent, Absent)), false))

  lemma SetupUser(db: Db, limit: int)
    ensures Apply(db, SetupUserCall(limit)).0 ==
            db.(users := db.users[db.nextUser := User(Some(limit), None)], nextUser := db.nextUser + 1)
  {
  }

  lemma SetupOrder(db: Db)
    requires db.nextOrder == 1 && db.orders == map[] && db.history == []
    ensures Apply(db, SETUP_ORDER).0 == db.(orders := Setup().orders, history := [DRAFT_ROW], nextOrder := 2)
  {
    assert Trim("") == "";
  }

  lemma SetupLine(db: Db)
    requires db.orders == Setup().orders && db.lines == map[] && db.nextLine == 1
    ensures Apply(db, SETUP_LINE).0 == db.(lines := map[1 := FREE_LINE], nextLine := 2)
  {
    hide SumOf;
    hide Derived;
  }

  function Leaving(user: int): Request {
    Request(None, Call.Delete(Users, user, false))
  }

  lemma OneRowReplays(db: Db, id: int, o: Order, row: HistoryRow)
    requires db.orders == map[id := o] && db.history == [row] && row.order == id < db.nextOrder
    requires Visible(o) == (row.status, row.payment) && Blank(Str(row.previous))
    ensures Inv(db)
  {
    hide Visible;
    hide Blank;
    hide Str;
    RowsAppend([], row, id);
    assert [] + [row] == [row];
    assert RowsOf(db.history, id) == [row];
    assert Replays(db, id);
  }

  /** In a reachable state a user's account is deleted; a status change that user then makes goes unrecorded. */
  ghost predicate LosesHistory(db: Db, user: int, r: Request) {
    && Reachable(db) && user in db.users && Apply(db, Leaving(user)).1 == Done(user)
    && var left := Apply(db, Leaving(user)).0;
       r.actor == Some(user) && r.call.SetStatus? && Inv(left) && !Inv(Apply(left, r).0)
  }

  lemma DeletedActorLosesHistory()
    ensures exists db, user, r :: LosesHistory(db, user, r)
  {
    hide Apply;
    hide Reachable;
    hide RecordsChange;
    var r := Request(Some(2), SetStatus(1, "issued", "", ""));
    var left := Setup().(users := map[1 := APPROVER]);
    SetupReachable();
    LeaverLeaves(Setup());
    IssuingIsRecorded(left, r);
    OneRowReplays(left, 1, left.orders[1], DRAFT_ROW);
    hide Inv;
    HistoryKeptExactly(left, r);
    assert LosesHistory(Setup(), 2, r);
  }

  lemma LeaverLeaves(db: Db)
    requires db.users == map[1 := APPROVER, 2 := LEAVER] && !Recorded(db.history, 2)
    ensures Apply(db, Leaving(2)) == (db.(users := map[1 := APPROVER]), Done(2))
  {
    hide Recorded;
    assert db.users - {2} == map[1 := APPROVER];
  }

  lemma IssuingIsRecorded(db: Db, r: Request)
    requires r == Request(Some(2), SetStatus(1, "issued", "", ""))
    requires 1 in db.orders && db.orders[1].status == Some(DRAFT)
    ensures RecordsChange(db, r)
  {
    assert Trim("issued") == "issued" && Trim("") == "";
    assert PO_STATUSES[4] == "issued";
  }

  // ---- rows only grow

  /** The call appends a row for this order. */
  ghost predicate Writes(db: Db, r: Request, id: int) {
    var p := PlanOf(db, r);
    p.Move? && p.id == id && (p.transaction || SnapOf(p.after) != p.before) && Known(p.db, p.row.user)
  }

  /** The rows of a surviving order grow by the planned row or stay, and ids are never reused. */
  lemma RowsStep(db: Db, r: Request, id: int)
    requires id < db.nextOrder && id in Apply(db, r).0.orders
    ensures id in db.orders && db.nextOrder <= Apply(db, r).0.nextOrder
    ensures RowsOf(Apply(db, r).0.history, id) ==
            if Writes(db, r, id) then RowsOf(db.history, id) + [PlanOf(db, r).row] else RowsOf(db.history, id)
  {
    PlanShape(db, r);
    hide PlanOf;
    hide RowsOf;
    hide Visible;
    hide Trim;
    var p := PlanOf(db, r);
    if p.Quiet? && (p.db.history != db.history || p.db.orders != db.orders) {
      var gone :| gone in db.orders && p.db == DropOrder(db, gone);
      RowsWithout(db.history, gone, id);
    } else if p.Move? {
      RowsAppend(db.history, p.row, id);
    }
  }

  /** A call adds one row for an order whose status or payment tag it changed, and none otherwise. */
  lemma OneRowPerChange(db: Db, r: Request, id: int)
    requires Known(db, Actor(r.actor)) && id < db.nextOrder
    requires id in db.orders && id in Apply(db, r).0.orders
    ensures var next := Apply(db, r).0;
            var rows, rows' := RowsOf(db.history, id), RowsOf(next.history, id);
            if SnapOf(next.orders[id]) == SnapOf(db.orders[id]) then rows' == rows
            else |rows'| == |rows| + 1 && rows' == rows + [rows'[|rows|]]
  {
    RowsStep(db, r, id);
    PlanShape(db, r);
    hide PlanOf;
    hide RowsOf;
    hide Trim;
  }

  lemma StepKeepsRows(db: Db, r: Request, id: int)
    requires id < db.nextOrder && id in Apply(db, r).0.orders
    ensures id in db.orders && db.nextOrder <= Apply(db, r).0.nextOrder
    ensures RowsOf(db.history, id) <= RowsOf(Apply(db, r).0.history, id)
  {
    RowsStep(db, r, id);
  }

  lemma {:induction false} RunKeepsRows(db: Db, rs: seq<Request>, id: int)
    requires id < db.nextOrder && id in Run(db, rs).orders
    ensures id in db.orders && RowsOf(db.history, id) <= RowsOf(Run(db, rs).history, id)
    decreases |rs|
  {
    if rs != [] {
      var next := Apply(db, rs[0]).0;
      StepKeepsIds(db, rs[0]);
      RunKeepsRows(next, rs[1..], id);
      StepKeepsRows(db, rs[0], id);
    }
  }

  lemma StepKeepsIds(db: Db, r: Request)
    ensures db.nextOrder <= Apply(db, r).0.nextOrder
  {
    PlanShape(db, r);
  }
}
