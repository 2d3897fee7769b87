/** CSV import as a sequence of inserts. */
module Import {
  import opened Wrappers
  import opened Tables
  import opened Requests
  import History

  /** One record of the file: unreadable, or its parsed cells with the verdicts on the row. */
  datatype CsvRecord = Unreadable | Record(parsed: Option<Values>, allowed: bool, refused: bool)

  /** The record reaches the database: it could be read and parsed, and the row rules allow it. */
  predicate Insertable(r: CsvRecord) {
    r.Record? && r.parsed.Some? && r.allowed
  }

  function InsertRequest(actor: Option<int>, r: CsvRecord): Request
    requires Insertable(r)
  {
    Request(actor, Call.Insert(r.parsed.value, r.refused))
  }

  function InsertRequests(actor: Option<int>, rs: seq<CsvRecord>): seq<Request>
    requires forall i :: 0 <= i < |rs| ==> Insertable(rs[i])
  {
    if rs == [] then [] else [InsertRequest(actor, rs[0])] + InsertRequests(actor, rs[1..])
  }

  lemma {:induction false} RequestsThen(actor: Option<int>, rs: seq<CsvRecord>, r: CsvRecord)
    requires Insertable(r) && forall i :: 0 <= i < |rs| ==> Insertable(rs[i])
    ensures InsertRequests(actor, rs + [r]) == InsertRequests(actor, rs) + [InsertRequest(actor, r)]
  {
    if rs == [] {
      assert [] + [r] == [r];
    } else {
      assert (rs + [r])[0] == rs[0] && (rs + [r])[1..] == rs[1..] + [r];
      RequestsThen(actor, rs[1..], r);
    }
  }

  /** Inserts never remove a user, so an acting user on record stays on record. */
  lemma {:induction false} ActorStays(db: Db, actor: Option<int>, rs: seq<CsvRecord>)
    requires Known(db, Actor(actor)) && forall i :: 0 <= i < |rs| ==> Insertable(rs[i])
    ensures Known(Run(db, InsertRequests(actor, rs)), Actor(actor))
    decreases |rs|
  {
    if rs != [] {
      var r := InsertRequest(actor, rs[0]);
      var all := InsertRequests(actor, rs);
      assert all[0] == r && all[1..] == InsertRequests(actor, rs[1..]);
      InsertKeepsUsers(db, r);
      hide Apply;
      ActorStays(Apply(db, r).0, actor, rs[1..]);
    }
  }

  lemma InsertKeepsUsers(db: Db, r: Request)
    requires r.call.Insert?
    ensures db.users.Keys <= Apply(db, r).0.users.Keys
  {
    match r.call.v
    case ToOrder(v) =>
      hide ChangeRow;
      hide AssignOrder;
    case ToLine(v) =>
      hide SyncPlan;
      if InsertLinePlan(db, r.actor, v, r.call.refused).Stop? {
      } else {
        SyncKeepsUsers(db, PutLine(db, db.nextLine, AssignLine(NO_LINE, v)).(nextLine := db.nextLine + 1),
                       r.actor, v.por.value, Done(db.nextLine));
      }
    case ToUser(_) =>
  }

  lemma SyncKeepsUsers(db: Db, base: Db, actor: Option<int>, por: int, reply: Reply)
    ensures var next := Execute(db, SyncPlan(base, actor, por, reply)).0;
            next.users == base.users && next.nextLine == base.nextLine
  {
    hide Syncs;
    hide Derived;
    hide ChangeRow;
  }

  /** The workflow rule or the database rejects the row itself. */
  predicate Rejected(db: Db, v: Values, refused: bool) {
    match v
    case ToOrder(o) => GuardsDecided(o) || refused || !o.docNumber.Set?
    case ToLine(l) => refused || !l.por.Set? || l.por.value !in db.orders
    case ToUser(u) => refused || !WritesUser(u)
  }

  /**
   A failed insert leaves the store as it was exactly when the row itself was rejected. Otherwise
   the row is in and only its history row is missing.
   */
  lemma FailedInsertChangesNothing(db: Db, r: Request)
    requires r.call.Insert? && Apply(db, r).1.Failed?
    ensures Apply(db, r).0 == db <==> Rejected(db, r.call.v, r.call.refused)
  {
    match r.call.v
    case ToOrder(_) => hide ChangeRow;
    case ToLine(v) =>
      hide SyncPlan;
      if !Rejected(db, r.call.v, r.call.refused) {
        SyncKeepsUsers(db, PutLine(db, db.nextLine, AssignLine(NO_LINE, v)).(nextLine := db.nextLine + 1),
                       r.actor, v.por.value, Done(db.nextLine));
      }
    case ToUser(_) =>
  }

  /** With the acting user on record only a rejected row makes an insert fail. */
  lemma KnownActorRecords(db: Db, r: Request)
    requires r.call.Insert? && Apply(db, r).1.Failed? && Known(db, Actor(r.actor))
    ensures Apply(db, r).0 == db
  {
    History.PlanShape(db, r);
    hide PlanOf;
  }

  ghost predicate LeavesRow(db: Db, r: Request) {
    Apply(db, r).1.Failed? && Apply(db, r).0 != db
  }

  /** Whenever the acting user is not on record there is a row at which an import stops and which stays, uncounted. */
  lemma StoppingRowCanStay(db: Db, actor: Option<int>)
    requires !Known(db, Actor(actor))
    ensures exists r: CsvRecord :: Insertable(r) && LeavesRow(db, InsertRequest(actor, r))
  {
    var v := OrderValues(Set("PO-1"), Set(DRAFT), Absent, Absent, Absent, Absent);
    var r := Record(Some(ToOrder(v)), true, false);
    assert LeavesRow(db, InsertRequest(actor, r)) by {
      assert Apply(db, InsertRequest(actor, r)).0.nextOrder == db.nextOrder + 1;
    }
  }

  /** No failed insert leaves anything behind exactly when the acting user is on record. */
  lemma CleanStopExactly(db: Db, actor: Option<int>)
    ensures Known(db, Actor(actor)) <==>
            forall r: CsvRecord :: Insertable(r) ==> !LeavesRow(db, InsertRequest(actor, r))
  {
    if Known(db, Actor(actor)) {
      forall r: CsvRecord | Insertable(r) ensures !LeavesRow(db, InsertRequest(actor, r)) {
        if Apply(db, InsertRequest(actor, r)).1.Failed? {
          KnownActorRecords(db, InsertRequest(actor, r));
        }
      }
    } else {
      StoppingRowCanStay(db, actor);
    }
  }
}
