/**
 The store itself: tables updated in place, one SQL statement at a time. Each method is proved
 to have exactly the effect and the answer that Requests.Apply gives for the whole call.
 */
module Store {
  import opened Wrappers
  import opened Text
  import opened Tables
  import opened Pricing
  import opened Requests
  import opened Import
  import Migration

  lemma EmptyRun(db: Db)
    ensures Run(db, []) == db
  {
  }

  class Store {
    var orders: map<int, Order>
    var lines: map<int, Line>
    var users: map<int, User>
    var history: seq<HistoryRow>
    var nextOrder: int
    var nextLine: int
    var nextUser: int

    ghost function Contents(): Db
      reads this
    {
      Db(orders, lines, users, history, nextOrder, nextLine, nextUser)
    }

    constructor ()
      ensures Contents() == EMPTY
    {
      orders, lines, users, history := map[], map[], map[], [];
      nextOrder, nextLine, nextUser := 1, 1, 1;
    }

    // ---- single statements

    method PurchaseOrderSnapshot(id: int) returns (snap: Snap, ok: bool)
      ensures ok == (id in orders)
      ensures snap == if ok then SnapOf(orders[id]) else Snap("", "")
    {
      ok := id in orders;
      snap := if ok then SnapOf(orders[id]) else Snap("", "");
    }

    method InsertHistory(row: HistoryRow) returns (ok: bool)
      modifies this`history
      ensures ok == (row.order in orders && Known(old(Contents()), row.user))
      ensures Contents() == if ok then Append(old(Contents()), row) else old(Contents())
    {
      ok := row.order in orders && (row.user.None? || row.user.value in users);
      if ok {
        history := history + [row];
      }
    }

    method RecordPOStatusChange(actor: Option<int>, id: int, before: Snap, note: string) returns (ok: bool)
      requires id in orders
      modifies this`history
      ensures var db, row := old(Contents()), ChangeRow(id, before, SnapOf(old(orders[id])), note, actor);
              if SnapOf(old(orders[id])) == before then ok && Contents() == db
              else ok == Known(db, row.user) && Contents() == if ok then Append(db, row) else db
    {
      var after, found := PurchaseOrderSnapshot(id);
      if !found || after == before {
        return true;
      }
      ok := InsertHistory(HistoryRow(id, NullableText(before.status), after.status, NullableText(after.payment),
                                     Actor(actor), NullableText(note)));
    }

    method ComponentParentID(id: int) returns (por: Option<int>)
      ensures por == if id in lines then Some(lines[id].por) else None
    {
      por := if id in lines then Some(lines[id].por) else None;
    }

    /** priceOrder: no price without a line. */
    method PriceOrder(por: int, own: Option<string>) returns (price: Option<(int, Option<string>)>)
      ensures price == if HasLines(lines, por)
                       then Some((TotalMinor(lines, por), PricedCurrency(lines, por, own))) else None
    {
      var count := SelectCount(lines, por);
      var total := SelectSum(lines, por, Cost);
      var least := SelectMinCurrency(lines, por);
      if count == 0 {
        return None;
      }
      price := Some((Round(total * 100.0), if Blank(Str(own)) then least else own));
    }

    /** The status the receipts call for, if anything was received. */
    method ReceiptStatus(por: int) returns (next: Option<string>)
      ensures next == if SumOf(lines, por, Received) > 0.0 then Some(Derived(lines, por)) else None
    {
      var ordered := SelectSum(lines, por, Qty);
      var received := SelectSum(lines, por, Received);
      if received <= 0.0 {
        return None;
      }
      next := Some(PARTIAL);
      if ordered > 0.0 && received >= ordered {
        next := Some(RECEIVED);
      }
    }

    method SyncPOReceiptStatus(actor: Option<int>, por: Option<int>, ghost reply: Reply) returns (ok: bool)
      modifies this`orders, this`history
      ensures por.None? ==> ok && Contents() == old(Contents())
      ensures por.Some? ==> (Contents(), if ok then reply else Failed(HistoryRefused)) ==
                            Execute(old(Contents()), SyncPlan(old(Contents()), actor, por.value, reply))
    {
      if por.None? {
        return true;
      }
      hide SumOf;
      hide Derived;
      var before, found := PurchaseOrderSnapshot(por.value);
      if !found || !Fulfilling(before.status) {
        return true;
      }
      hide Fulfilling;
      var next := ReceiptStatus(por.value);
      if next.None? || next.value == before.status {
        return true;
      }
      ok := AssignDerived(actor, por.value, before, next.value, reply);
    }

    /** The UPDATE and the history row of a sync. */
    method AssignDerived(actor: Option<int>, por: int, before: Snap, next: string, ghost reply: Reply)
      returns (ok: bool)
      requires Syncs(Contents(), por) && before == SnapOf(orders[por]) && next == Derived(lines, por)
      modifies this`orders, this`history
      ensures (Contents(), if ok then reply else Failed(HistoryRefused)) ==
              Execute(old(Contents()), SyncPlan(old(Contents()), actor, por, reply))
    {
      hide Derived;
      hide SumOf;
      hide Fulfilling;
      orders := orders[por := orders[por].(status := Some(next))];
      ok := RecordPOStatusChange(actor, por, before, DERIVED_NOTE);
    }

    method AfterWrite(actor: Option<int>, table: Table, id: int, before: Snap) returns (ok: bool)
      requires table.PurchaseOrders? ==> id in orders
      requires table.PoComponents? ==> id in lines
      modifies this`orders, this`history
      ensures var db := old(Contents());
              match table
              case PurchaseOrders =>
                var row := ChangeRow(id, before, SnapOf(old(orders[id])), "", actor);
                if SnapOf(old(orders[id])) == before then ok && Contents() == db
                else ok == Known(db, row.user) && Contents() == if ok then Append(db, row) else db
              case PoComponents =>
                Execute(db, SyncPlan(db, actor, old(lines[id].por), Done(id)))
                  == (Contents(), if ok then Done(id) else Failed(HistoryRefused))
              case Users => ok && Contents() == db
    {
      match table
      case PurchaseOrders =>
        ok := RecordPOStatusChange(actor, id, before, "");
      case PoComponents =>
        var por := ComponentParentID(id);
        ok := SyncPOReceiptStatus(actor, por, Done(id));
      case Users =>
        ok := true;
    }

    // ---- calls

    method Insert(actor: Option<int>, v: Values, refused: bool) returns (r: Reply)
      modifies this
      ensures (Contents(), r) == Apply(old(Contents()), Request(actor, Call.Insert(v, refused)))
    {
      match v
      case ToOrder(o) => r := InsertOrder(actor, o, refused);
      case ToLine(l) => r := InsertLine(actor, l, refused);
      case ToUser(u) =>
        if refused || !WritesUser(u) {
          return Failed(Constraint);
        }
        r := Done(nextUser);
        users, nextUser := users[nextUser := AssignUser(NO_USER, u)], nextUser + 1;
    }

    method InsertOrder(actor: Option<int>, v: OrderValues, refused: bool) returns (r: Reply)
      modifies this
      ensures (Contents(), r) == Execute(old(Contents()), InsertOrderPlan(old(Contents()), actor, v, refused))
    {
      if v.status.Set? && Decided(v.status.value) {
        return Failed(Workflow);
      }
      if refused || !v.docNumber.Set? {
        return Failed(Constraint);
      }
      var id := nextOrder;
      orders, nextOrder := orders[id := AssignOrder(NO_ORDER, v)], nextOrder + 1;
      var ok := AfterWrite(actor, PurchaseOrders, id, Snap("", ""));
      r := if ok then Done(id) else Failed(HistoryRefused);
    }

    method InsertLine(actor: Option<int>, v: LineValues, refused: bool) returns (r: Reply)
      modifies this
      ensures (Contents(), r) == Execute(old(Contents()), InsertLinePlan(old(Contents()), actor, v, refused))
    {
      if refused || !v.por.Set? || v.por.value !in orders {
        return Failed(Constraint);
      }
      hide Execute;
      hide SyncPlan;
      var id := nextLine;
      lines, nextLine := lines[id := AssignLine(NO_LINE, v)], nextLine + 1;
      SyncFromAnywhere(old(Contents()), Contents(), actor, v.por.value, Done(id));
      var ok := AfterWrite(actor, PoComponents, id, Snap("", ""));
      r := if ok then Done(id) else Failed(HistoryRefused);
    }

    method Update(actor: Option<int>, id: int, v: Values, refused: bool) returns (r: Reply)
      modifies this
      ensures (Contents(), r) == Apply(old(Contents()), Request(actor, Call.Update(id, v, refused)))
    {
      match v
      case ToOrder(o) => r := UpdateOrder(actor, id, o, refused);
      case ToLine(l) => r := UpdateLine(actor, id, l, refused);
      case ToUser(u) =>
        if !WritesUser(u) {
          return Done(id);
        }
        if id !in users {
          return Failed(NotFound);
        }
        if refused {
          return Failed(Constraint);
        }
        users := users[id := AssignUser(users[id], u)];
        r := Done(id);
    }

    method UpdateOrder(actor: Option<int>, id: int, v: OrderValues, refused: bool) returns (r: Reply)
      modifies this
      ensures (Contents(), r) == Execute(old(Contents()), UpdateOrderPlan(old(Contents()), actor, id, v, refused))
    {
      if v.status.Set? && Decided(v.status.value) {
        return Failed(Workflow);
      }
      if !WritesOrder(v) {
        return Done(id);
      }
      var before, found := PurchaseOrderSnapshot(id);
      if id !in orders {
        return Failed(NotFound);
      }
      if refused || v.docNumber.SetNull? {
        return Failed(Constraint);
      }
      orders := orders[id := AssignOrder(orders[id], v)];
      var ok := AfterWrite(actor, PurchaseOrders, id, before);
      r := if ok then Done(id) else Failed(HistoryRefused);
    }

    method UpdateLine(actor: Option<int>, id: int, v: LineValues, refused: bool) returns (r: Reply)
      modifies this
      ensures (Contents(), r) == Execute(old(Contents()), UpdateLinePlan(old(Contents()), actor, id, v, refused))
    {
      if !WritesLine(v) {
        return Done(id);
      }
      if id !in lines {
        return Failed(NotFound);
      }
      if refused || v.por.SetNull? || (v.por.Set? && v.por.value !in orders) {
        return Failed(Constraint);
      }
      hide Execute;
      hide SyncPlan;
      var line := AssignLine(lines[id], v);
      lines := lines[id := line];
      SyncFromAnywhere(old(Contents()), Contents(), actor, line.por, Done(id));
      var ok := AfterWrite(actor, PoComponents, id, Snap("", ""));
      r := if ok then Done(id) else Failed(HistoryRefused);
    }

    method Delete(actor: Option<int>, table: Table, id: int, refused: bool) returns (r: Reply)
      modifies this
      ensures (Contents(), r) == Apply(old(Contents()), Request(actor, Call.Delete(table, id, refused)))
    {
      hide Recorded;
      hide DropOrder;
      var parent := None;
      if table.PoComponents? {
        parent := ComponentParentID(id);
      }
      r := DeleteRow(table, id, refused);
      if r.Failed? {
        return;
      }
      if parent.Some? {
        SyncFromAnywhere(old(Contents()), Contents(), actor, parent.value, Done(id));
      }
      hide SyncPlan;
      var ok := SyncPOReceiptStatus(actor, parent, Done(id));
      if !ok {
        r := Failed(HistoryRefused);
      }
    }

    /** DELETE FROM the table, with its cascades and restrictions. */
    method DeleteRow(table: Table, id: int, refused: bool) returns (r: Reply)
      modifies this
      ensures r == Done(id) || r == Failed(NotFound) || r == Failed(Constraint)
      ensures var db := old(Contents());
              (Contents(), r) == match table
                                 case PurchaseOrders => Execute(db, DeleteOrderPlan(db, id, refused))
                                 case Users => Execute(db, DeleteUserPlan(db, id, refused))
                                 case PoComponents =>
                                   if id !in db.lines then (db, Failed(NotFound))
                                   else if refused then (db, Failed(Constraint))
                                   else (db.(lines := db.lines - {id}), Done(id))
    {
      match table
      case PurchaseOrders =>
        if id !in orders { return Failed(NotFound); }
        if refused { return Failed(Constraint); }
        var gone := DropOrder(Db(orders, lines, users, history, nextOrder, nextLine, nextUser), id);
        orders, lines, history := gone.orders, gone.lines, gone.history;
        r := Done(id);
      case PoComponents =>
        if id !in lines { return Failed(NotFound); }
        if refused { return Failed(Constraint); }
        lines := lines - {id};
        r := Done(id);
      case Users =>
        if id !in users { return Failed(NotFound); }
        if refused || Recorded(history, id) { return Failed(Constraint); }
        users := users - {id};
        r := Done(id);
    }

    method SetPOStatus(actor: Option<int>, id: int, rawStatus: string, rawPayment: string, note: string)
      returns (r: Reply)
      modifies this
      ensures (Contents(), r) == Apply(old(Contents()), Request(actor, SetStatus(id, rawStatus, rawPayment, note)))
    {
      var status, payment := Trim(rawStatus), Trim(rawPayment);
      if !StatusChangeAllowed(status, payment) {
        return Failed(Workflow);
      }
      if id !in orders {
        return Failed(Workflow);
      }
      r := AssignStatus(actor, id, status, payment, note);
    }

    method AssignStatus(actor: Option<int>, id: int, status: string, payment: string, note: string) returns (r: Reply)
      requires id in orders
      modifies this
      ensures (Contents(), r) == Execute(old(Contents()), StatusMove(old(Contents()), actor, id, status, payment, note))
    {
      var before, _ := PurchaseOrderSnapshot(id);
      var o := orders[id];
      if status != "" {
        o := o.(status := Some(status));
      }
      if payment != "" {
        o := o.(payment := Some(payment));
      }
      orders := orders[id := o];
      var ok := RecordPOStatusChange(actor, id, before, note);
      r := if ok then Done(id) else Failed(HistoryRefused);
    }

    method SubmitPurchaseOrder(actor: Option<int>, id: int) returns (r: Reply)
      modifies this
      ensures (Contents(), r) == Apply(old(Contents()), Request(actor, Submit(id)))
    {
      hide SumOf;
      hide TotalMinor;
      hide PricedCurrency;
      hide HasLines;
      hide Trim;
      hide NullableText;
      if id !in orders {
        return Failed(Workflow);
      }
      var o := orders[id];
      var status := Trim(Str(o.status));
      if status != "" && status != DRAFT {
        return Failed(Workflow);
      }
      var price := PriceOrder(id, o.currency);
      if price.None? {
        return Failed(Workflow);
      }
      var (total, currency) := price.value;
      var saved := orders;
      orders := orders[id := o.(status := Some(PENDING), totalMinor := Some(total),
                                currency := NullableString(currency))];
      var ok := InsertHistory(HistoryRow(id, NullableText(status), PENDING, NullableText(Str(o.payment)),
                                         Actor(actor), NullableText("submitted for approval")));
      if !ok {
        orders := saved;
        return Failed(HistoryRefused);
      }
      r := Submitted(total, Str(currency));
    }

    method DecidePurchaseOrder(id: int, user: int, approved: bool, note: string, ghost actor: Option<int>)
      returns (r: Reply)
      modifies this
      ensures (Contents(), r) == Apply(old(Contents()), Request(actor, Decide(id, user, approved, note)))
    {
      var limit := ApprovalLimit(users, user);
      r := DecideWithin(id, user, approved, note, limit);
    }

    /** The transaction of a decision. */
    method DecideWithin(id: int, user: int, approved: bool, note: string, limit: int) returns (r: Reply)
      modifies this
      ensures (Contents(), r) == Execute(old(Contents()), DecidePlan(old(Contents()), id, user, approved, note, limit))
    {
      if id !in orders {
        return Failed(Workflow);
      }
      var o := orders[id];
      var status := Trim(Str(o.status));
      if !Undecided(status) {
        return Failed(Workflow);
      }
      var price := PriceOrder(id, o.currency);
      if price.None? {
        return Failed(Workflow);
      }
      var (total, currency) := price.value;
      if limit <= 0 {
        return Failed(Forbidden);
      }
      if total > limit {
        return Failed(Forbidden);
      }
      var decided := if approved then APPROVED else REJECTED;
      var saved := orders;
      orders := orders[id := o.(status := Some(decided), totalMinor := Some(total),
                                currency := NullableString(currency))];
      var ok := InsertHistory(HistoryRow(id, NullableText(status), decided, NullableText(Str(o.payment)),
                                         Some(user), DecisionNote(decided, limit, note)));
      if !ok {
        orders := saved;
        return Failed(HistoryRefused);
      }
      r := Settled(decided, total, Str(currency), limit);
    }

    // ---- import and startup

    /**
     ImportCSV: rows go in one by one until one is refused, and the count says how many went in.
     The store is exactly as if those rows were inserted alone, except when the last row itself was
     acceptable and only its history row was refused; with the acting user on record that cannot be.
     */
    method ImportCSV(actor: Option<int>, records: seq<CsvRecord>) returns (inserted: nat, complete: bool)
      modifies this
      ensures inserted <= |records| && (complete <==> inserted == |records|)
      ensures forall i :: 0 <= i < inserted ==> Insertable(records[i])
      ensures !complete && Insertable(records[inserted]) <==>
              !complete && records[inserted].Record? && records[inserted].parsed.Some? && records[inserted].allowed
      ensures var alone := Run(old(Contents()), InsertRequests(actor, records[..inserted]));
              if complete || !Insertable(records[inserted]) then Contents() == alone
              else (&& Apply(alone, InsertRequest(actor, records[inserted])).1.Failed?
                    && Contents() == Apply(alone, InsertRequest(actor, records[inserted])).0
                    && (Contents() == alone <==> Rejected(alone, records[inserted].parsed.value,
                                                          records[inserted].refused))
                    && (Known(old(Contents()), Actor(actor)) ==> Contents() == alone))
    {
      hide Apply;
      hide Run;
      inserted := 0;
      ghost var start := Contents();
      EmptyRun(start);
      assert records[..0] == [];
      while inserted < |records|
        invariant inserted <= |records|
        invariant forall i :: 0 <= i < inserted ==> Insertable(records[i])
        invariant Contents() == Run(start, InsertRequests(actor, records[..inserted]))
      {
        var record := records[inserted];
        if !Insertable(record) {
          return inserted, false;
        }
        var r := Insert(actor, record.parsed.value, record.refused);
        if r.Failed? {
          ghost var alone := Run(start, InsertRequests(actor, records[..inserted]));
          FailedInsertChangesNothing(alone, InsertRequest(actor, record));
          if Known(start, Actor(actor)) {
            ActorStays(start, actor, records[..inserted]);
            KnownActorRecords(alone, InsertRequest(actor, record));
          }
          return inserted, false;
        }
        RunThen(start, InsertRequests(actor, records[..inserted]), InsertRequest(actor, record));
        RequestsThen(actor, records[..inserted], record);
        assert records[..inserted + 1] == records[..inserted] + [record];
        inserted := inserted + 1;
      }
      complete := true;
    }

    /** migratePOStatuses: one UPDATE statement after the other over the whole table. */
    method MigratePOStatuses()
      modifies this`orders
      ensures orders == map id | id in old(orders) :: Migration.Migrated(old(orders)[id])
    {
      orders := map id | id in orders :: Migration.TagPaid(orders[id]);
      var i := 0;
      while i < |Migration.RENAMES|
        invariant 0 <= i <= |Migration.RENAMES| && orders.Keys == old(orders).Keys
        invariant forall id :: id in orders ==>
          Migration.RenameAll(orders[id], Migration.RENAMES[i..]) ==
          Migration.RenameAll(Migration.TagPaid(old(orders)[id]), Migration.RENAMES)
      {
        var rename := Migration.RENAMES[i];
        assert Migration.RENAMES[i..][0] == rename && Migration.RENAMES[i..][1..] == Migration.RENAMES[i + 1..];
        orders := map id | id in orders :: Migration.RenameStatus(orders[id], rename);
        i := i + 1;
      }
      orders := map id | id in orders :: Migration.DefaultPayment(orders[id]);
      forall id | id in orders ensures orders[id] == Migration.Migrated(old(orders)[id]) {
        Migration.MigrationIsSimultaneous(old(orders)[id], Migration.RENAMES);
      }
    }
  }

  // ---- aggregate queries over the lines of one order, the rows taken in any order

  method SelectSum(lines: map<int, Line>, por: int, amount: Line -> real) returns (total: real)
    ensures total == SumOf(lines, por, amount)
  {
    total := 0.0;
    var rest := lines;
    while rest.Keys != {}
      invariant total + SumOf(rest, por, amount) == SumOf(lines, por, amount)
      decreases |rest.Keys|
    {
      SomeId(rest.Keys);
      var k :| k in rest.Keys;
      SumTake(rest, k, por, amount);
      total := total + Share(rest[k], por, amount);
      rest := rest - {k};
    }
  }

  method SelectCount(lines: map<int, Line>, por: int) returns (count: nat)
    ensures count == |LinesOf(lines, por)|
    ensures 0 < count <==> HasLines(lines, por)
  {
    count := 0;
    var rest := lines;
    ghost var seen: set<int> := {};
    while rest.Keys != {}
      invariant forall k :: k in rest ==> k in lines && rest[k] == lines[k]
      invariant seen <= lines.Keys && seen == LinesOf(lines, por) - rest.Keys
      invariant count == |seen|
      decreases |rest.Keys|
    {
      SomeId(rest.Keys);
      var k :| k in rest.Keys;
      if rest[k].por == por {
        count, seen := count + 1, seen + {k};
      }
      rest := rest - {k};
    }
    if HasLines(lines, por) {
      assert LinesOf(lines, por) != {};
    }
    if count > 0 {
      SomeId(LinesOf(lines, por));
    }
  }

  /** The lines of one order. */
  function LinesOf(lines: map<int, Line>, por: int): set<int> {
    set k | k in lines && lines[k].por == por
  }

  method SelectMinCurrency(lines: map<int, Line>, por: int) returns (least: Option<string>)
    ensures least == LeastCurrency(lines, por)
  {
    least := None;
    var rest := lines;
    ghost var seen: set<string> := {};
    while rest.Keys != {}
      invariant seen + LineCurrencies(rest, por) == LineCurrencies(lines, por)
      invariant least == LeastOf(seen)
      decreases |rest.Keys|
    {
      SomeId(rest.Keys);
      var k :| k in rest.Keys;
      var line := rest[k];
      CurrenciesTake(rest, k, por);
      if line.por == por && line.currency.Some? {
        LeastOfMore(seen, line.currency.value);
        seen := seen + {line.currency.value};
        if least.None? || LexLess(line.currency.value, least.value) {
          least := line.currency;
        }
      }
      rest := rest - {k};
    }
    assert LineCurrencies(rest, por) == {};
  }

  lemma CurrenciesTake(lines: map<int, Line>, k: int, por: int)
    requires k in lines
    ensures LineCurrencies(lines, por) == LineCurrencies(lines - {k}, por) +
              (if lines[k].por == por && lines[k].currency.Some? then {lines[k].currency.value} else {})
  {
    var s, rest := LineCurrencies(lines, por), LineCurrencies(lines - {k}, por);
    forall c | c in s ensures c in rest || (lines[k].por == por && lines[k].currency == Some(c)) {
      var j :| j in lines && lines[j].por == por && lines[j].currency == Some(c);
      assert j != k ==> (lines - {k})[j] == lines[j];
    }
    forall c | c in rest ensures c in s {
      var j :| j in lines - {k} && (lines - {k})[j].por == por && (lines - {k})[j].currency == Some(c);
      assert lines[j].currency == Some(c);
    }
  }

  lemma LeastOfMore(s: set<string>, c: string)
    ensures LeastOf(s + {c}) == Some(if s == {} || LexLess(c, LeastOf(s).value) then c else LeastOf(s).value)
  {
    var m := LeastOf(s + {c}).value;
    assert IsLeast(m, s + {c});
    LexIrreflexive(c);
    if s != {} {
      var least := LeastOf(s).value;
      assert IsLeast(least, s);
      var best := if LexLess(c, least) then c else least;
      forall x | x in s + {c} ensures !LexLess(x, best) {
        if x in s && LexLess(x, c) && LexLess(c, least) {
          LexTransitive(x, c, least);
        }
      }
      LeastUnique(m, best, s + {c});
    }
  }
}
