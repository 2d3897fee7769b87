/** When a purchase order can be submitted and decided, and how often. */
module Decisions {
  import opened Wrappers
  import opened Text
  import opened Tables
  import opened Pricing
  import opened Requests
  import opened History

  /**
   A decision goes through exactly when the order is undecided, has a line, and its exact price
   is less than half a minor unit above the decider's positive limit.
   */
  lemma DecisionIff(db: Db, r: Request)
    requires r.call.Decide?
    ensures var id, limit := r.call.id, ApprovalLimit(db.users, r.call.user);
            Apply(db, r).1.Settled? <==>
              (&& id in db.orders && Undecided(Trim(Str(db.orders[id].status))) && HasLines(db.lines, id)
               && limit > 0 && ExactMinor(db.lines, id) < limit as real + 0.5)
  {
    LimitIsExact(db.lines, r.call.id, ApprovalLimit(db.users, r.call.user));
    hide SumOf;
    hide ExactMinor;
    hide TotalMinor;
  }

  /** A submission goes through exactly for a draft with a line, from an actor on record. */
  lemma SubmissionIff(db: Db, r: Request)
    requires r.call.Submit?
    ensures var id := r.call.id;
            Apply(db, r).1.Submitted? <==>
              (&& id in db.orders && Trim(Str(db.orders[id].status)) in {"", DRAFT} && HasLines(db.lines, id)
               && Known(db, Actor(r.actor)))
  {
    hide SumOf;
  }

  lemma SettledDecision(db: Db, r: Request)
    requires r.call.Decide? && Apply(db, r).1.Settled?
    ensures var id, next := r.call.id, Apply(db, r).0;
            && id in db.orders && Undecided(Trim(Str(db.orders[id].status)))
            && id in next.orders && Decided(Str(next.orders[id].status)) && next.nextOrder == db.nextOrder
  {
  }

  // ---- how often

  /** The call appends a row for this order that shows an undecided status. */
  ghost predicate ShowsUndecided(db: Db, r: Request, id: int) {
    Writes(db, r, id) && Undecided(Trim(PlanOf(db, r).row.status))
  }

  /** Some call of the run does. */
  ghost predicate Shown(db: Db, rs: seq<Request>, id: int)
    decreases |rs|
  {
    rs != [] && (ShowsUndecided(db, rs[0], id) || Shown(Apply(db, rs[0]).0, rs[1..], id))
  }

  /** A row with an undecided status comes after the first `from` ones. */
  ghost predicate UndecidedAfter(rows: seq<HistoryRow>, from: int) {
    exists k :: 0 <= from <= k < |rows| && Undecided(Trim(rows[k].status))
  }

  /** A run leaves a row with an undecided status exactly when one of its calls writes one. */
  lemma {:induction false} UndecidedRowIff(db: Db, rs: seq<Request>, id: int)
    requires id < db.nextOrder && id in Run(db, rs).orders
    ensures RowsOf(db.history, id) <= RowsOf(Run(db, rs).history, id)
    ensures UndecidedAfter(RowsOf(Run(db, rs).history, id), |RowsOf(db.history, id)|) <==> Shown(db, rs, id)
    decreases |rs|
  {
    RunKeepsRows(db, rs, id);
    if rs != [] {
      var next := Apply(db, rs[0]).0;
      StepKeepsIds(db, rs[0]);
      RunKeepsRows(next, rs[1..], id);
      RowsStep(db, rs[0], id);
      UndecidedRowIff(next, rs[1..], id);
      UndecidedFrom(RowsOf(db.history, id), RowsOf(next.history, id), RowsOf(Run(next, rs[1..]).history, id),
                    Writes(db, rs[0], id), PlanOf(db, rs[0]));
      hide Apply;
      hide Writes;
      hide RowsOf;
      hide UndecidedAfter;
    }
  }

  lemma UndecidedFrom(rows: seq<HistoryRow>, next: seq<HistoryRow>, last: seq<HistoryRow>, writes: bool, p: Plan)
    requires rows <= next <= last && (writes ==> p.Move? && next == rows + [p.row]) && (!writes ==> next == rows)
    ensures UndecidedAfter(last, |rows|) <==>
            (writes && Undecided(Trim(p.row.status))) || UndecidedAfter(last, |next|)
  {
    hide Undecided;
    hide Trim;
    if writes {
      assert last[|rows|] == p.row;
    }
  }

  /** The status of an order changes only by a call that moves that order to the new status. */
  lemma StatusStep(db: Db, r: Request, id: int)
    requires id in db.orders && id < db.nextOrder && id in Apply(db, r).0.orders
    requires Str(Apply(db, r).0.orders[id].status) != Str(db.orders[id].status)
    requires Known(db, Actor(r.actor)) || !ChangesOrder(db, r, id)
    ensures Writes(db, r, id) && PlanOf(db, r).row.status == Str(Apply(db, r).0.orders[id].status)
  {
    PlanShape(db, r);
    hide PlanOf;
    hide NullableText;
    hide Trim;
  }

  /** An order that turns undecided does so in a call that writes it down, if its changes could be recorded. */
  lemma {:induction false} ReopeningShown(db: Db, rs: seq<Request>, id: int)
    requires id in db.orders && id < db.nextOrder && id in Run(db, rs).orders && ChangesRecorded(db, rs, id)
    requires !Undecided(Trim(Str(db.orders[id].status))) && Undecided(Trim(Str(Run(db, rs).orders[id].status)))
    ensures Shown(db, rs, id)
    decreases |rs|
  {
    hide Undecided;
    hide Trim;
    hide Writes;
    hide ChangesOrder;
    hide PlanOf;
    if rs != [] {
      var next := Apply(db, rs[0]).0;
      StepKeepsIds(db, rs[0]);
      RunKeepsRows(next, rs[1..], id);
      if Undecided(Trim(Str(next.orders[id].status))) {
        StatusStep(db, rs[0], id);
      } else {
        ReopeningShown(next, rs[1..], id);
      }
    }
  }

  /**
   Between two decisions on an order its history gains a row with an undecided status exactly
   when a call in between writes one. Recording the changes of that one order is enough.
   */
  lemma NoDoubleDecision(db: Db, first: Request, between: seq<Request>, second: Request, id: int)
    requires id < db.nextOrder
    requires first.call.Decide? && first.call.id == id && Apply(db, first).1.Settled?
    requires second.call.Decide? && second.call.id == id
    requires Apply(Run(Apply(db, first).0, between), second).1.Settled?
    ensures var start := Apply(db, first).0;
            var rows, rows' := RowsOf(start.history, id), RowsOf(Run(start, between).history, id);
            && rows <= rows'
            && (UndecidedAfter(rows', |rows|) <==> Shown(start, between, id))
            && (ChangesRecorded(start, between, id) ==> UndecidedAfter(rows', |rows|))
  {
    var start := Apply(db, first).0;
    SettledDecision(db, first);
    SettledDecision(Run(start, between), second);
    hide Apply;
    hide RowsOf;
    hide UndecidedAfter;
    hide Shown;
    UndecidedRowIff(start, between, id);
    if ChangesRecorded(start, between, id) {
      DecidedTrimmed(Str(start.orders[id].status));
      ReopeningShown(start, between, id);
    }
  }

  lemma DecidedTrimmed(s: string)
    requires Decided(s)
    ensures !Undecided(Trim(s))
  {
    assert Trim(APPROVED) == APPROVED && Trim(REJECTED) == REJECTED;
  }

  /** A decision and its history row stand or fall together. */
  lemma DecisionKeepsHistory(db: Db, r: Request, id: int)
    requires Linked(db) && Kept(db, id) && r.call.Decide?
    ensures Kept(Apply(db, r).0, id)
  {
    PlanShape(db, r);
    OrderKeptExactly(db, r, id);
    hide PlanOf;
    hide Kept;
    hide Linked;
  }

  /**
   A failed call leaves the store as it was, except exactly an auto-committed write whose history
   row was refused; that is one by an actor not on record which nothing else stops.
   */
  lemma FailedCallsChangeNothing(db: Db, r: Request)
    requires Apply(db, r).1.Failed?
    ensures Apply(db, r).0 == db <==> Apply(db, r).1.error != HistoryRefused || r.call.Submit? || r.call.Decide?
    ensures Apply(db, r).0 == db <==>
            r.call.Submit? || r.call.Decide? || Known(db, Actor(r.actor)) || PlanOf(db, r).Stop?
  {
    PlanShape(db, r);
    hide PlanOf;
    hide Visible;
    hide Trim;
  }

  /** From a reachable state an order is decided twice, with no row in between. */
  ghost predicate DecidesTwiceUnseen(db: Db, first: Request, between: seq<Request>, second: Request, id: int) {
    && Reachable(db) && first.call.Decide? && first.call.id == id && second.call.Decide? && second.call.id == id
    && Apply(db, first).1.Settled?
    && var start := Apply(db, first).0;
       var reopened := Run(start, between);
       Apply(reopened, second).1.Settled? && RowsOf(reopened.history, id) == RowsOf(start.history, id)
  }

  /** A user whose account has just been deleted reopens a decided order unrecorded, and it is decided again. */
  lemma DeletedActorHidesReopening()
    ensures exists db, first, between, second, id :: DecidesTwiceUnseen(db, first, between, second, id)
  {
    var db := Setup();
    var decide, reopen := Request(None, Decide(1, 1, true, "")), Request(Some(2), SetStatus(1, DRAFT, "", ""));
    SetupReachable();
    FreeOrder(db.lines);
    FreeDecision(db, decide);
    var start := Apply(db, decide).0;
    LeaverLeaves(start);
    var left := Apply(start, Leaving(2)).0;
    Reopens(left, reopen);
    var reopened := Apply(left, reopen).0;
    FreeDecision(reopened, decide);
    hide Apply;
    hide RowsOf;
    hide Reachable;
    RunTwice(start, Leaving(2), reopen);
    assert DecidesTwiceUnseen(db, decide, [Leaving(2), reopen], decide, 1);
  }

  lemma RunTwice(db: Db, r: Request, q: Request)
    ensures Run(db, [r, q]) == Apply(Apply(db, r).0, q).0
  {
    hide Apply;
    assert [r, q][1..] == [q] && [q][1..] == [];
    var next := Apply(db, r).0;
    assert Run(next, [q]) == Run(Apply(next, q).0, []);
  }

  /** A draft that costs nothing can be decided within any limit. */
  lemma FreeDecision(db: Db, r: Request)
    requires r == Request(None, Decide(1, 1, true, "")) && 1 in db.users && db.users[1] == APPROVER
    requires 1 in db.orders && db.orders[1].status == Some(DRAFT) && HasLines(db.lines, 1)
             && ExactMinor(db.lines, 1) == 0.0
    ensures var (next, reply) := Apply(db, r);
            && reply.Settled? && next.users == db.users && next.lines == db.lines
            && 1 in next.orders && next.orders[1].status == Some(APPROVED)
            && exists row: HistoryRow :: row.user == Some(1) && next.history == db.history + [row]
  {
    assert Trim(DRAFT) == DRAFT;
    DecisionIff(db, r);
    hide SumOf;
    hide ExactMinor;
    hide TotalMinor;
    hide HasLines;
    hide PricedCurrency;
    hide DecisionNote;
  }

  lemma FreeOrder(lines: map<int, Line>)
    requires lines == map[1 := FREE_LINE]
    ensures HasLines(lines, 1) && ExactMinor(lines, 1) == 0.0
  {
    SumTake(lines, 1, 1, Cost);
    assert lines - {1} == map[];
    SumOther(lines - {1}, 1, Cost);
  }

  lemma Reopens(db: Db, r: Request)
    requires 1 in db.orders && db.orders[1].status != Some(DRAFT) && 2 !in db.users
    requires r == Request(Some(2), SetStatus(1, DRAFT, "", ""))
    ensures Apply(db, r).0 == PutOrder(db, 1, db.orders[1].(status := Some(DRAFT)))
  {
    assert Trim(DRAFT) == DRAFT && Trim("") == "";
    assert PO_STATUSES[0] == DRAFT;
  }
}
