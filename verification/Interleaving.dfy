/**
 Many calls at once. The database has one connection, so single statements and whole
 transactions are atomic, but between the statements of a call those of other calls may run.
 Here a call is a thread that takes one such step at a time.
 */
module Interleaving {
  import opened Wrappers
  import opened Text
  import opened Tables
  import opened Pricing
  import opened Requests
  import Migration

  /** Where a call stands; the comment names the step it takes next. */
  datatype Pc =
    | Start(r: Request)                                              // checks, then the first statement
    | Updating(r: Request, before: Snap)                             // UPDATE purchase_orders
    | Recording(actor: Option<int>, id: int, before: Snap, note: string)  // SELECT the snapshot after the write
    | Appending(row: HistoryRow)                                     // INSERT INTO po_status_history
    | Parent(actor: Option<int>, line: int)                          // SELECT the order of a line
    | Deleting(actor: Option<int>, line: int, parent: Option<int>, refused: bool)  // DELETE FROM po_components
    | Syncing(actor: Option<int>, por: int)                          // SELECT the snapshot before a sync
    | Summing(actor: Option<int>, por: int, before: Snap)            // SELECT the sums
    | Deriving(actor: Option<int>, por: int, before: Snap, next: string)  // UPDATE the derived status
    | Deciding(r: Request, limit: int)                               // the transaction of a decision
    | Finished

  // ---- one step

  ghost function StartStep(db: Db, r: Request): (Db, Pc) {
    match r.call
    case Insert(ToOrder(v), refused) =>
      var p := InsertOrderPlan(db, r.actor, v, refused);
      if p.Stop? then (db, Finished) else (PutOrder(p.db, p.id, p.after), Recording(r.actor, p.id, p.before, ""))
    case Insert(ToLine(v), refused) =>
      if refused || !v.por.Set? || v.por.value !in db.orders then (db, Finished)
      else (PutLine(db, db.nextLine, AssignLine(NO_LINE, v)).(nextLine := db.nextLine + 1),
            Parent(r.actor, db.nextLine))
    case Update(id, ToOrder(v), _) =>
      if GuardsDecided(v) || !WritesOrder(v) then (db, Finished)
      else (db, Updating(r, if id in db.orders then SnapOf(db.orders[id]) else Snap("", "")))
    case Update(id, ToLine(v), refused) =>
      if !WritesLine(v) || id !in db.lines || refused || v.por.SetNull? || (v.por.Set? && v.por.value !in db.orders)
      then (db, Finished)
      else (PutLine(db, id, AssignLine(db.lines[id], v)), Parent(r.actor, id))
    case Delete(PoComponents, id, refused) =>
      (db, Deleting(r.actor, id, if id in db.lines then Some(db.lines[id].por) else None, refused))
    case SetStatus(id, status, payment, _) =>
      if !StatusChangeAllowed(Trim(status), Trim(payment)) || id !in db.orders then (db, Finished)
      else (db, Updating(r, SnapOf(db.orders[id])))
    case Decide(_, user, _, _) => (db, Deciding(r, ApprovalLimit(db.users, user)))
    case Submit(id) => (Execute(db, SubmitPlan(db, r.actor, id)).0, Finished)
    case Insert(ToUser(v), refused) => (Execute(db, InsertUserPlan(db, v, refused)).0, Finished)
    case Update(id, ToUser(v), refused) => (Execute(db, UpdateUserPlan(db, id, v, refused)).0, Finished)
    case Delete(PurchaseOrders, id, refused) => (Execute(db, DeleteOrderPlan(db, id, refused)).0, Finished)
    case Delete(Users, id, refused) => (Execute(db, DeleteUserPlan(db, id, refused)).0, Finished)
  }

  /** The UPDATE works on the row it finds now, which need not be the one of the snapshot. */
  function UpdateStep(db: Db, r: Request, before: Snap): (Db, Pc) {
    match r.call
    case Update(id, ToOrder(v), refused) =>
      if id !in db.orders || refused || v.docNumber.SetNull? then (db, Finished)
      else (PutOrder(db, id, AssignOrder(db.orders[id], v)), Recording(r.actor, id, before, ""))
    case SetStatus(id, status, payment, note) =>
      if id !in db.orders then (db, Finished)
      else (PutOrder(db, id, StatusMove(db, r.actor, id, Trim(status), Trim(payment), note).after),
            Recording(r.actor, id, before, note))
    case _ => (db, Finished)
  }

  ghost function Step(db: Db, pc: Pc): (Db, Pc) {
    match pc
    case Start(r) => StartStep(db, r)
    case Updating(r, before) => UpdateStep(db, r, before)
    case Recording(actor, id, before, note) =>
      if id !in db.orders || SnapOf(db.orders[id]) == before then (db, Finished)
      else (db, Appending(ChangeRow(id, before, SnapOf(db.orders[id]), note, actor)))
    case Appending(row) =>
      (if row.order in db.orders && Known(db, row.user) then Append(db, row) else db, Finished)
    case Parent(actor, line) =>
      (db, if line in db.lines then Syncing(actor, db.lines[line].por) else Finished)
    case Deleting(actor, line, parent, refused) =>
      if line !in db.lines || refused then (db, Finished)
      else (db.(lines := db.lines - {line}), if parent.Some? then Syncing(actor, parent.value) else Finished)
    case Syncing(actor, por) =>
      (db, if por in db.orders && Fulfilling(Str(db.orders[por].status))
           then Summing(actor, por, SnapOf(db.orders[por])) else Finished)
    case Summing(actor, por, before) =>
      (db, if SumOf(db.lines, por, Received) > 0.0 && Derived(db.lines, por) != before.status
           then Deriving(actor, por, before, Derived(db.lines, por)) else Finished)
    case Deriving(actor, por, before, next) =>
      (if por in db.orders then PutOrder(db, por, db.orders[por].(status := Some(next))) else db,
       Recording(actor, por, before, DERIVED_NOTE))
    case Deciding(r, limit) =>
      (if r.call.Decide?
       then Execute(db, DecidePlan(db, r.call.id, r.call.user, r.call.approve, r.call.note, limit)).0 else db,
       Finished)
    case Finished => (db, Finished)
  }

  // ---- a call running alone

  ghost function Steps(db: Db, pc: Pc, n: nat): (Db, Pc)
    decreases n
  {
    if n == 0 then (db, pc) else var (next, pc') := Step(db, pc); Steps(next, pc', n - 1)
  }

  lemma {:induction false} FinishedStays(db: Db, n: nat)
    ensures Steps(db, Finished, n) == (db, Finished)
  {
    if n > 0 { FinishedStays(db, n - 1); }
  }

  /** Recording a change: a snapshot and, if something moved, an insert. */
  lemma RecordAlone(db: Db, actor: Option<int>, id: int, before: Snap, note: string, n: nat)
    requires id in db.orders && n >= 2
    ensures var row := ChangeRow(id, before, SnapOf(db.orders[id]), note, actor);
            Steps(db, Recording(actor, id, before, note), n) ==
              (if SnapOf(db.orders[id]) == before || !Known(db, row.user) then db else Append(db, row), Finished)
  {
    var (next, pc) := Step(db, Recording(actor, id, before, note));
    var (last, _) := Step(next, pc);
    assert Steps(next, pc, n - 1) == Steps(last, Finished, n - 2);
    FinishedStays(last, n - 2);
  }

  lemma StepOnce(db: Db, pc: Pc, n: nat)
    requires n > 0
    ensures Steps(db, pc, n) == Steps(Step(db, pc).0, Step(db, pc).1, n - 1)
  {
  }

  lemma SyncAlone(db: Db, actor: Option<int>, por: int, reply: Reply)
    ensures Steps(db, Syncing(actor, por), 5) == (Execute(db, SyncPlan(db, actor, por, reply)).0, Finished)
  {
    if Syncs(db, por) {
      SyncMoves(db, actor, por, reply);
    } else {
      SyncQuiet(db, actor, por);
    }
  }

  lemma SyncQuiet(db: Db, actor: Option<int>, por: int)
    requires !Syncs(db, por)
    ensures Steps(db, Syncing(actor, por), 5) == (db, Finished)
  {
    hide Steps;
    hide SumOf;
    hide Derived;
    hide Fulfilling;
    FinishedStays(db, 4);
    FinishedStays(db, 3);
    StepOnce(db, Syncing(actor, por), 5);
    if por in db.orders && Fulfilling(Str(db.orders[por].status)) {
      StepOnce(db, Summing(actor, por, SnapOf(db.orders[por])), 4);
    }
  }

  lemma SyncMoves(db: Db, actor: Option<int>, por: int, reply: Reply)
    requires Syncs(db, por)
    ensures Steps(db, Syncing(actor, por), 5) == (Execute(db, SyncPlan(db, actor, por, reply)).0, Finished)
  {
    hide Steps;
    hide SumOf;
    hide Derived;
    hide Fulfilling;
    hide ChangeRow;
    var before, next := SnapOf(db.orders[por]), Derived(db.lines, por);
    var moved := PutOrder(db, por, db.orders[por].(status := Some(next)));
    assert Step(db, Syncing(actor, por)) == (db, Summing(actor, por, before));
    assert Step(db, Summing(actor, por, before)) == (db, Deriving(actor, por, before, next));
    assert Step(db, Deriving(actor, por, before, next)) == (moved, Recording(actor, por, before, DERIVED_NOTE));
    hide Step;
    StepOnce(db, Syncing(actor, por), 5);
    StepOnce(db, Summing(actor, por, before), 4);
    StepOnce(db, Deriving(actor, por, before, next), 3);
    RecordAlone(moved, actor, por, before, DERIVED_NOTE, 2);
  }

  lemma OrderInsertAlone(db: Db, r: Request)
    requires r.call.Insert? && r.call.v.ToOrder?
    ensures Steps(db, Start(r), 7) == (Apply(db, r).0, Finished)
  {
    var (next, pc) := Step(db, Start(r));
    StepOnce(db, Start(r), 7);
    hide Steps;
    if pc.Recording? {
      RecordAlone(next, r.actor, pc.id, pc.before, "", 6);
    } else {
      FinishedStays(db, 6);
    }
  }

  lemma OrderUpdateAlone(db: Db, r: Request)
    requires r.call.Update? && r.call.v.ToOrder?
    ensures Steps(db, Start(r), 7) == (Apply(db, r).0, Finished)
  {
    var (_, pc) := Step(db, Start(r));
    StepOnce(db, Start(r), 7);
    hide Steps;
    if pc.Updating? {
      var (last, pc') := Step(db, pc);
      StepOnce(db, pc, 6);
      if pc'.Recording? {
        RecordAlone(last, r.actor, r.call.id, pc.before, "", 5);
      } else {
        FinishedStays(db, 5);
      }
    } else {
      FinishedStays(db, 6);
    }
  }

  lemma SetStatusAlone(db: Db, r: Request)
    requires r.call.SetStatus?
    ensures Steps(db, Start(r), 7) == (Apply(db, r).0, Finished)
  {
    hide Steps;
    hide Trim;
    hide StatusChangeAllowed;
    FinishedStays(db, 6);
    var (next, pc) := Step(db, Start(r));
    StepOnce(db, Start(r), 7);
    if pc.Updating? {
      var (last, pc') := Step(next, pc);
      StepOnce(next, pc, 6);
      RecordAlone(last, r.actor, r.call.id, pc.before, r.call.note, 5);
    }
  }

  lemma LinePutAlone(db: Db, base: Db, r: Request, line: int, reply: Reply)
    requires Step(db, Start(r)) == (base, Parent(r.actor, line)) && line in base.lines
    ensures Steps(db, Start(r), 7) == (Execute(db, SyncPlan(base, r.actor, base.lines[line].por, reply)).0, Finished)
  {
    var por := base.lines[line].por;
    StepOnce(db, Start(r), 7);
    assert Step(base, Parent(r.actor, line)) == (base, Syncing(r.actor, por));
    StepOnce(base, Parent(r.actor, line), 6);
    SyncAlone(base, r.actor, por, reply);
    SyncFromAnywhere(db, base, r.actor, por, reply);
  }

  lemma LineInsertAlone(db: Db, r: Request)
    requires r.call.Insert? && r.call.v.ToLine?
    ensures Steps(db, Start(r), 7) == (Apply(db, r).0, Finished)
  {
    var (base, pc) := Step(db, Start(r));
    if pc.Parent? {
      LinePutAlone(db, base, r, db.nextLine, Done(db.nextLine));
    } else {
      StepOnce(db, Start(r), 7);
      FinishedStays(db, 6);
    }
  }

  lemma LineUpdateAlone(db: Db, r: Request)
    requires r.call.Update? && r.call.v.ToLine?
    ensures Steps(db, Start(r), 7) == (Apply(db, r).0, Finished)
  {
    var (base, pc) := Step(db, Start(r));
    if pc.Parent? {
      LinePutAlone(db, base, r, r.call.id, Done(r.call.id));
    } else {
      StepOnce(db, Start(r), 7);
      FinishedStays(db, 6);
    }
  }

  lemma LineDeleteAlone(db: Db, r: Request)
    requires r.call.Delete? && r.call.table.PoComponents?
    ensures Steps(db, Start(r), 7) == (Apply(db, r).0, Finished)
  {
    var id := r.call.id;
    FinishedStays(db, 5);
    var (_, pc) := Step(db, Start(r));
    StepOnce(db, Start(r), 7);
    var (next, pc') := Step(db, pc);
    StepOnce(db, pc, 6);
    if id in db.lines && !r.call.refused {
      SyncAlone(next, r.actor, db.lines[id].por, Done(id));
      SyncFromAnywhere(db, next, r.actor, db.lines[id].por, Done(id));
    }
  }

  lemma OneStepAlone(db: Db, r: Request)
    requires Step(db, Start(r)) == (Apply(db, r).0, Finished)
    ensures Steps(db, Start(r), 7) == (Apply(db, r).0, Finished)
  {
    hide Step;
    hide Steps;
    hide Apply;
    StepOnce(db, Start(r), 7);
    FinishedStays(Apply(db, r).0, 6);
  }

  lemma DecideAlone(db: Db, r: Request)
    requires r.call.Decide?
    ensures Steps(db, Start(r), 7) == (Apply(db, r).0, Finished)
  {
    hide Steps;
    hide Execute;
    hide DecidePlan;
    var next := Apply(db, r).0;
    var deciding := Deciding(r, ApprovalLimit(db.users, r.call.user));
    assert Step(db, Start(r)) == (db, deciding) && Step(db, deciding) == (next, Finished);
    StepOnce(db, Start(r), 7);
    StepOnce(db, deciding, 6);
    FinishedStays(next, 5);
  }

  /** A call whose statements run without interruption has the effect of Requests.Apply. */
  lemma AloneIsApply(db: Db, r: Request)
    ensures Steps(db, Start(r), 7) == (Apply(db, r).0, Finished)
  {
    hide Steps;
    hide Apply;
    match r.call
    case Insert(ToOrder(_), _) => OrderInsertAlone(db, r);
    case Update(_, ToOrder(_), _) => OrderUpdateAlone(db, r);
    case Insert(ToLine(_), _) => LineInsertAlone(db, r);
    case Update(_, ToLine(_), _) => LineUpdateAlone(db, r);
    case Delete(PoComponents, _, _) => LineDeleteAlone(db, r);
    case SetStatus(_, _, _, _) => SetStatusAlone(db, r);
    case Decide(_, _, _, _) => DecideAlone(db, r);
    case _ => StartIsApply(db, r); OneStepAlone(db, r);
  }

  lemma StartIsApply(db: Db, r: Request)
    requires r.call.Submit? || ((r.call.Insert? || r.call.Update?) && r.call.v.ToUser?)
          || (r.call.Delete? && !r.call.table.PoComponents?)
    ensures Step(db, Start(r)) == (Apply(db, r).0, Finished)
  {
    hide Execute;
    hide SubmitPlan;
  }

  // ---- all interleavings

  datatype World = World(db: Db, threads: map<int, Pc>)

  /** A call arrives, a call takes a step, or the server restarts and migrates the database. */
  ghost predicate Next(w: World, w': World) {
    || (exists t, r :: Arrives(w, w', t, r))
    || (exists t :: Progresses(w, w', t))
    || Restarts(w, w')
  }

  ghost predicate Arrives(w: World, w': World, t: int, r: Request) {
    t !in w.threads && w' == w.(threads := w.threads[t := Start(r)])
  }

  ghost predicate Progresses(w: World, w': World, t: int) {
    t in w.threads && w' == World(Step(w.db, w.threads[t]).0, w.threads[t := Step(w.db, w.threads[t]).1])
  }

  /** Sessions end, statuses are migrated, and seeding may give users limits. */
  ghost predicate Restarts(w: World, w': World) {
    && w'.threads == map[]
    && w'.db == w.db.(orders := map id | id in w.db.orders :: Migration.Migrated(w.db.orders[id]), users := w'.db.users)
  }

  ghost predicate IsTrace(trace: seq<World>) {
    && |trace| > 0 && trace[0].db.orders == map[] && trace[0].threads == map[]
    && forall i :: 0 <= i < |trace| - 1 ==> Next(trace[i], trace[i + 1])
  }

  /** What is known of a call between its statements. */
  predicate PcOk(pc: Pc) {
    match pc
    case Updating(r, _) =>
      || (r.call.Update? && r.call.v.ToOrder? && !GuardsDecided(r.call.v.o))
      || (r.call.SetStatus? && !Decided(Trim(r.call.status)))
    case Deriving(_, _, _, next) => !Decided(next)
    case Deciding(r, _) => r.call.Decide?
    case _ => true
  }

  ghost predicate AllOk(w: World) {
    forall t :: t in w.threads ==> PcOk(w.threads[t])
  }

  function StatusAt(db: Db, id: int): string
    requires id in db.orders
  {
    Str(db.orders[id].status)
  }

  /** This step is the transaction that decides order id. */
  ghost predicate Decides(db: Db, pc: Pc, id: int) {
    && pc.Deciding? && pc.r.call.Decide? && pc.r.call.id == id && id in db.orders
    && pc.limit > 0 && TotalMinor(db.lines, id) <= pc.limit
    && var next := Step(db, pc).0;
       && id in next.orders && StatusAt(next, id) == (if pc.r.call.approve then APPROVED else REJECTED)
       && next.orders[id].totalMinor == Some(TotalMinor(db.lines, id))
  }

  /** The order was there before with the same status and recorded total. */
  ghost predicate Carried(db: Db, next: Db, id: int)
    requires id in next.orders
  {
    id in db.orders && StatusAt(db, id) == StatusAt(next, id) && db.orders[id].totalMinor == next.orders[id].totalMinor
  }

  lemma StartCarries(db: Db, r: Request, id: int)
    requires id in StartStep(db, r).0.orders && Decided(StatusAt(StartStep(db, r).0, id))
    ensures Carried(db, StartStep(db, r).0, id)
  {
    if r.call.Submit? {
      SubmitCarries(db, r, id);
    } else if r.call.Insert? && r.call.v.ToOrder? {
      InsertCarries(db, r, id);
    } else {
      OtherStartCarries(db, r, id);
    }
  }

  lemma SubmitCarries(db: Db, r: Request, id: int)
    requires r.call.Submit? && id in StartStep(db, r).0.orders && Decided(StatusAt(StartStep(db, r).0, id))
    ensures Carried(db, StartStep(db, r).0, id)
  {
    hide SumOf;
    hide TotalMinor;
    hide PricedCurrency;
    hide Trim;
    hide NullableText;
    hide HasLines;
  }

  lemma InsertCarries(db: Db, r: Request, id: int)
    requires r.call.Insert? && r.call.v.ToOrder?
    requires id in StartStep(db, r).0.orders && Decided(StatusAt(StartStep(db, r).0, id))
    ensures Carried(db, StartStep(db, r).0, id)
  {
    hide NullableText;
  }

  /** No other first statement writes an order it keeps. */
  lemma OtherStartCarries(db: Db, r: Request, id: int)
    requires !r.call.Submit? && !(r.call.Insert? && r.call.v.ToOrder?) && id in StartStep(db, r).0.orders
    ensures Carried(db, StartStep(db, r).0, id)
  {
    hide SubmitPlan;
    hide InsertOrderPlan;
    hide Trim;
    hide StatusChangeAllowed;
    hide ApprovalLimit;
  }

  lemma StartOk(db: Db, r: Request)
    ensures PcOk(StartStep(db, r).1)
  {
    hide Execute;
  }

  lemma UpdateCarries(db: Db, r: Request, before: Snap, id: int)
    requires PcOk(Updating(r, before))
    requires id in UpdateStep(db, r, before).0.orders && Decided(StatusAt(UpdateStep(db, r, before).0, id))
    ensures Carried(db, UpdateStep(db, r, before).0, id)
  {
    hide Trim;
    hide ChangeRow;
  }

  lemma DecisionCarries(db: Db, r: Request, limit: int, id: int)
    requires r.call.Decide?
    requires var next := Step(db, Deciding(r, limit)).0; id in next.orders && Decided(StatusAt(next, id))
    ensures Carried(db, Step(db, Deciding(r, limit)).0, id) || Decides(db, Deciding(r, limit), id)
  {
    hide SumOf;
    hide TotalMinor;
    hide PricedCurrency;
    hide Trim;
    hide HasLines;
    hide DecisionNote;
    hide NullableText;
  }

  /** Whatever step a call takes, a decided order was decided before or is being decided now. */
  lemma StepCarries(db: Db, pc: Pc, id: int)
    requires PcOk(pc) && id in Step(db, pc).0.orders && Decided(StatusAt(Step(db, pc).0, id))
    ensures Carried(db, Step(db, pc).0, id) || Decides(db, pc, id)
  {
    match pc
    case Start(r) => StartCarries(db, r, id);
    case Updating(r, before) => UpdateCarries(db, r, before, id);
    case Deciding(r, limit) => DecisionCarries(db, r, limit, id);
    case _ =>
  }

  lemma StepOk(db: Db, pc: Pc)
    requires PcOk(pc)
    ensures PcOk(Step(db, pc).1)
  {
    match pc
    case Start(r) => StartOk(db, r);
    case _ => hide SumOf;
  }

  lemma {:induction false} TraceOk(trace: seq<World>, n: nat)
    requires IsTrace(trace) && n < |trace|
    ensures AllOk(trace[n])
  {
    if n > 0 {
      TraceOk(trace, n - 1);
      NextOk(trace[n - 1], trace[n]);
    }
  }

  lemma NextOk(w: World, w': World)
    requires AllOk(w) && Next(w, w')
    ensures AllOk(w')
  {
    if t :| Progresses(w, w', t) {
      StepOk(w.db, w.threads[t]);
    }
  }

  /** At moment a the call on thread t is about to read its user's limit, which is `limit` then. */
  ghost predicate ReadsLimit(trace: seq<World>, a: int, t: int, r: Request, limit: int) {
    && 0 <= a < |trace| && t in trace[a].threads && trace[a].threads[t] == Start(r)
    && r.call.Decide? && limit == ApprovalLimit(trace[a].db.users, r.call.user)
  }

  /** From after moment a until moment n the call on thread t is waiting to decide. */
  ghost predicate Waits(trace: seq<World>, a: int, n: int, t: int, r: Request, limit: int) {
    && 0 <= a < n < |trace|
    && forall m :: a < m <= n ==> t in trace[m].threads && trace[m].threads[t] == Deciding(r, limit)
  }

  /** A call in its decision holds the limit its user had when it started, at moment a. */
  lemma {:induction false} LimitWasRead(trace: seq<World>, n: nat, t: int) returns (a: int)
    requires IsTrace(trace) && n < |trace| && t in trace[n].threads && trace[n].threads[t].Deciding?
    ensures var r, limit := trace[n].threads[t].r, trace[n].threads[t].limit;
            Waits(trace, a, n, t, r, limit) && ReadsLimit(trace, a, t, r, limit)
  {
    var w, w' := trace[n - 1], trace[n];
    var r, limit := w'.threads[t].r, w'.threads[t].limit;
    assert Next(w, w');
    if Progresses(w, w', t) {
      StepIntoDeciding(w.db, w.threads[t]);
      a := n - 1;
    } else {
      a := LimitWasRead(trace, n - 1, t);
      hide IsTrace;
      hide ReadsLimit;
      assert Waits(trace, a, n, t, r, limit);
    }
  }

  lemma StepIntoDeciding(db: Db, pc: Pc)
    requires Step(db, pc).1.Deciding?
    ensures pc.Start? && pc.r.call.Decide? && Step(db, pc).1 == Deciding(pc.r, ApprovalLimit(db.users, pc.r.call.user))
  {
    hide Execute;
    hide SumOf;
  }

  /**
   Order id was decided by the step from b to b + 1, taken by a call that at moment a had read
   its user's limit and found it positive and no less than the total now recorded. From then to
   moment n the order keeps that decision and that total.
   */
  ghost predicate Authorised(trace: seq<World>, n: int, id: int, a: int, b: int, t: int) {
    && 0 <= a < b < n < |trace|
    && t in trace[b].threads && Decides(trace[b].db, trace[b].threads[t], id) && Progresses(trace[b], trace[b + 1], t)
    && Waits(trace, a, b, t, trace[b].threads[t].r, trace[b].threads[t].limit)
    && ReadsLimit(trace, a, t, trace[b].threads[t].r, trace[b].threads[t].limit)
    && forall m :: b < m <= n ==> id in trace[m].db.orders && Carried(trace[b + 1].db, trace[m].db, id)
  }

  /**
   Signing limits are safe: in every state of every interleaving, restarts included, an approved
   or rejected order was decided within a limit its decider held during that very call.
   */
  lemma {:induction false} SigningLimitSafety(trace: seq<World>, n: nat, id: int)
    requires IsTrace(trace) && n < |trace|
    requires id in trace[n].db.orders && Decided(StatusAt(trace[n].db, id))
    ensures exists a, b, t :: Authorised(trace, n, id, a, b, t)
  {
    var w, w' := trace[n - 1], trace[n];
    assert Next(w, w');
    hide Next;
    if t :| Progresses(w, w', t) && Decides(w.db, w.threads[t], id) {
      var a := DecidedNow(trace, n, id, t);
    } else {
      TraceOk(trace, n - 1);
      NextCarries(w, w', id);
      SigningLimitSafety(trace, n - 1, id);
      hide IsTrace;
      var a, b, t :| Authorised(trace, n - 1, id, a, b, t);
      StillAuthorised(trace, n, id, a, b, t);
    }
  }

  lemma DecidedNow(trace: seq<World>, n: nat, id: int, t: int) returns (a: int)
    requires IsTrace(trace) && 0 < n < |trace| && Progresses(trace[n - 1], trace[n], t)
    requires Decides(trace[n - 1].db, trace[n - 1].threads[t], id)
    ensures Authorised(trace, n, id, a, n - 1, t)
  {
    hide IsTrace;
    hide Step;
    hide TotalMinor;
    hide Waits;
    hide ReadsLimit;
    hide Authorised;
    a := LimitWasRead(trace, n - 1, t);
    AuthorisedNow(trace, n, id, a, t);
  }

  lemma AuthorisedNow(trace: seq<World>, n: nat, id: int, a: int, t: int)
    requires 0 < n < |trace| && Progresses(trace[n - 1], trace[n], t)
             && Decides(trace[n - 1].db, trace[n - 1].threads[t], id)
    requires var pc := trace[n - 1].threads[t];
             Waits(trace, a, n - 1, t, pc.r, pc.limit) && ReadsLimit(trace, a, t, pc.r, pc.limit)
    ensures Authorised(trace, n, id, a, n - 1, t)
  {
    hide Step;
    hide TotalMinor;
    hide ReadsLimit;
  }

  lemma StillAuthorised(trace: seq<World>, n: nat, id: int, a: int, b: int, t: int)
    requires 0 < n < |trace| && Authorised(trace, n - 1, id, a, b, t)
    requires id in trace[n].db.orders && Carried(trace[n - 1].db, trace[n].db, id)
    ensures Authorised(trace, n, id, a, b, t)
  {
    hide Waits;
    hide ReadsLimit;
    hide Decides;
    hide Progresses;
  }

  lemma NextCarries(w: World, w': World, id: int)
    requires AllOk(w) && Next(w, w') && id in w'.db.orders && Decided(StatusAt(w'.db, id))
    requires forall t :: Progresses(w, w', t) ==> !Decides(w.db, w.threads[t], id)
    ensures Carried(w.db, w'.db, id)
  {
    if t :| Progresses(w, w', t) {
      StepCarries(w.db, w.threads[t], id);
    } else if Restarts(w, w') {
      RestartCarries(w.db.orders[id]);
    }
  }

  lemma RestartCarries(o: Order)
    ensures Decided(Str(Migration.Migrated(o).status)) <==> Decided(Str(o.status))
    ensures Decided(Str(o.status)) ==> Str(Migration.Migrated(o).status) == Str(o.status)
    ensures Migration.Migrated(o).totalMinor == o.totalMinor
  {
  }
}
