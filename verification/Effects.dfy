/**
 What each call of the store does, column by column and in the words of the database: which calls
 are accepted, what the rows hold afterwards, which history row is written, and what stays as it was.
 */
module Effects {
  import opened Wrappers
  import opened Text
  import opened Tables
  import opened Pricing
  import opened Requests

  /** What a write leaves in a nullable column. */
  predicate Holds<T(==)>(write: Write<T>, before: Option<T>, after: Option<T>) {
    match write
    case Set(x) => after == Some(x)
    case SetNull => after == None
    case Absent => after == before
  }

  /** A text column that stores no blanks. */
  function Column(s: string): Option<string> {
    if Trim(s) == "" then None else Some(s)
  }

  /** The user a row names: the acting user, if there is one with a positive id. */
  function By(actor: Option<int>): Option<int> {
    if actor.Some? && actor.value > 0 then actor else None
  }

  predicate OnRecord(db: Db, actor: Option<int>) {
    By(actor).Some? ==> By(actor).value in db.users
  }

  predicate IsDraftOrPending(status: string) {
    status == "" || status == "draft" || status == "pending_approval"
  }

  // ---- submitting and deciding

  /** Priced and moved to the status: total and currency are set, nothing else of the order changes. */
  ghost predicate PricedAs(db: Db, before: Order, after: Order, id: int, status: string, total: int, currency: string) {
    var priced := PricedCurrency(db.lines, id, before.currency);
    && after.status == Some(status)
    && total == Round(ExactMinor(db.lines, id)) && after.totalMinor == Some(total)
    && currency == (if priced.Some? then priced.value else "") && after.currency == Column(currency)
    && after.docNumber == before.docNumber && after.payment == before.payment && after.note == before.note
  }

  lemma PricedLaw(db: Db, id: int, status: string)
    requires id in db.orders
    ensures PricedAs(db, db.orders[id], Priced(db, id, status), id, status, TotalMinor(db.lines, id),
                     Str(PricedCurrency(db.lines, id, db.orders[id].currency)))
  {
    assert Trim("") == "";
    hide PricedCurrency;
    hide ExactMinor;
    hide Trim;
  }

  /** A submission that goes through prices the order, parks it at pending_approval and writes one row. */
  lemma SubmitLaw(db: Db, r: Request)
    requires r.call.Submit? && Apply(db, r).1.Submitted?
    ensures var id, next, reply := r.call.id, Apply(db, r).0, Apply(db, r).1;
            && id in db.orders && id in next.orders
            && PricedAs(db, db.orders[id], next.orders[id], id, "pending_approval", reply.totalMinor, reply.currency)
            && next == db.(orders := db.orders[id := next.orders[id]], history := db.history + [
                 HistoryRow(id, Column(Trim(Str(db.orders[id].status))), "pending_approval",
                            Column(Str(db.orders[id].payment)), By(r.actor), Some("submitted for approval"))])
  {
    if r.call.id in db.orders { PricedLaw(db, r.call.id, PENDING); }
    hide PricedAs;
    hide Priced;
    hide PricedCurrency;
    hide TotalMinor;
    hide HasLines;
    assert Trim("submitted for approval") == "submitted for approval";
    hide Trim;
  }

  /** Which submissions are refused: all but those of a draft with a line, and those of a user not on record. */
  lemma SubmitRefusals(db: Db, r: Request)
    requires r.call.Submit?
    ensures var id, reply := r.call.id, Apply(db, r).1;
            var draft := && id in db.orders && HasLines(db.lines, id)
                         && (Trim(Str(db.orders[id].status)) == "" || Trim(Str(db.orders[id].status)) == "draft");
            && (reply.Submitted? <==> draft && OnRecord(db, r.actor))
            && (reply == Failed(Workflow) <==> !draft)
            && (reply == Failed(HistoryRefused) <==> draft && !OnRecord(db, r.actor))
            && (reply.Failed? ==> Apply(db, r).0 == db)
  {
    hide HasLines;
    hide SumOf;
    hide PricedCurrency;
    hide TotalMinor;
    hide Trim;
  }

  /** A decision that goes through prices the order, approves or rejects it and writes one row for the decider. */
  lemma DecideLaw(db: Db, r: Request)
    requires r.call.Decide? && Apply(db, r).1.Settled?
    ensures var id, next, reply := r.call.id, Apply(db, r).0, Apply(db, r).1;
            var status := if r.call.approve then "approved" else "rejected";
            && id in db.orders && id in next.orders && reply.status == status
            && r.call.user in db.users && db.users[r.call.user].limitMinor == Some(reply.limitMinor)
            && PricedAs(db, db.orders[id], next.orders[id], id, status, reply.totalMinor, reply.currency)
            && next == db.(orders := db.orders[id := next.orders[id]], history := db.history + [
                 HistoryRow(id, Column(Trim(Str(db.orders[id].status))), status,
                            Column(Str(db.orders[id].payment)), Some(r.call.user),
                            if Trim(r.call.note) != "" then Some(r.call.note)
                            else Some(status + " within a limit of " + FormatInt(reply.limitMinor)))])
  {
    if r.call.id in db.orders { PricedLaw(db, r.call.id, if r.call.approve then APPROVED else REJECTED); }
    hide PricedAs;
    hide Priced;
    hide PricedCurrency;
    hide TotalMinor;
    hide HasLines;
    hide FormatInt;
    NoteIsText(r.call.approve, FormatInt(ApprovalLimit(db.users, r.call.user)));
    hide Trim;
  }

  lemma NoteIsText(approve: bool, limit: string)
    ensures !Blank((if approve then APPROVED else REJECTED) + " within a limit of " + limit)
  {
    var s := (if approve then APPROVED else REJECTED) + " within a limit of " + limit;
    assert s[0] == 'a' || s[0] == 'r';
    assert TrimLeft(s) == s;
  }

  /** Which decisions are refused and why: the state of the order first, then the limit against its exact price. */
  lemma DecideRefusals(db: Db, r: Request)
    requires r.call.Decide?
    ensures var id, reply := r.call.id, Apply(db, r).1;
            var decidable := && id in db.orders && HasLines(db.lines, id)
                             && IsDraftOrPending(Trim(Str(db.orders[id].status)));
            var limit := if r.call.user in db.users && db.users[r.call.user].limitMinor.Some?
                         then db.users[r.call.user].limitMinor.value else 0;
            && (reply == Failed(Workflow) <==> !decidable)
            && (reply == Failed(Forbidden) <==>
                decidable && (limit <= 0 || ExactMinor(db.lines, id) >= limit as real + 0.5))
            && (reply.Failed? ==> Apply(db, r).0 == db && reply.error in {Workflow, Forbidden})
  {
    DecideReplies(db, r);
    assert ApprovalLimit(db.users, r.call.user) > 0 <==>
           (r.call.user in db.users && db.users[r.call.user].limitMinor.Some?
            && db.users[r.call.user].limitMinor.value > 0);
    hide *;
  }

  lemma DecideReplies(db: Db, r: Request)
    requires r.call.Decide?
    ensures var id, reply, limit := r.call.id, Apply(db, r).1, ApprovalLimit(db.users, r.call.user);
            var decidable := && id in db.orders && HasLines(db.lines, id)
                             && IsDraftOrPending(Trim(Str(db.orders[id].status)));
            && (reply == Failed(Workflow) <==> !decidable)
            && (reply == Failed(Forbidden) <==>
                decidable && (limit <= 0 || ExactMinor(db.lines, id) >= limit as real + 0.5))
            && (reply.Failed? ==> Apply(db, r).0 == db && reply.error in {Workflow, Forbidden})
  {
    LimitIsExact(db.lines, r.call.id, ApprovalLimit(db.users, r.call.user));
    hide HasLines;
    hide SumOf;
    hide PricedCurrency;
    hide ExactMinor;
    hide TotalMinor;
    hide ApprovalLimit;
    hide Trim;
    hide FormatInt;
  }

  /** The same for an order of one line: a hundred times quantity times price against the limit. */
  lemma OneLineDecision(db: Db, r: Request, k: int, quantity: real, price: real)
    requires r.call.Decide? && r.call.id in db.orders && db.orders[r.call.id].status == Some("draft")
    requires k in db.lines && db.lines[k].qty == Some(quantity) && db.lines[k].price == Some(price)
    requires forall j :: j in db.lines ==> (db.lines[j].por == r.call.id <==> j == k)
    requires r.call.user in db.users && db.users[r.call.user].limitMinor.Some?
    requires db.users[r.call.user].limitMinor.value > 0
    ensures var limit := db.users[r.call.user].limitMinor.value;
            Apply(db, r).1.Settled? <==> 100.0 * quantity * price < limit as real + 0.5
  {
    OneLinePrice(db.lines, r.call.id, k, quantity, price);
    DecideRefusals(db, r);
    SettledOrFailed(db, r);
    assert Trim("draft") == "draft";
    assert IsDraftOrPending("draft");
    hide *;
  }

  lemma OneLinePrice(lines: map<int, Line>, por: int, k: int, quantity: real, price: real)
    requires k in lines && lines[k].qty == Some(quantity) && lines[k].price == Some(price)
    requires forall j :: j in lines ==> (lines[j].por == por <==> j == k)
    ensures ExactMinor(lines, por) == 100.0 * quantity * price
  {
    PriceLaw(lines, k, por);
    PriceOfNothing(lines - {k}, por);
    hide ExactMinor;
  }

  lemma SettledOrFailed(db: Db, r: Request)
    requires r.call.Decide?
    ensures Apply(db, r).1.Settled? || Apply(db, r).1.Failed?
  {
    hide DecidePlan;
    hide TotalMinor;
    DecidePlanReplies(db, r.call.id, r.call.user, r.call.approve, r.call.note, ApprovalLimit(db.users, r.call.user));
  }

  lemma DecidePlanReplies(db: Db, id: int, user: int, approve: bool, note: string, limit: int)
    ensures var p := DecidePlan(db, id, user, approve, note, limit); p.Stop? || (p.Move? && p.reply.Settled?)
  {
    hide TotalMinor;
  }

  // ---- status changes

  predicate IsFreeStatus(s: string) {
    || s == "draft" || s == "pending_approval" || s == "issued" || s == "confirmed" || s == "partially_received"
    || s == "received" || s == "invoiced" || s == "closed" || s == "on_hold" || s == "pending_revision"
    || s == "cancelled"
  }

  predicate IsPaymentStatus(s: string) {
    s == "unpaid" || s == "partially_paid" || s == "paid" || s == "refunded"
  }

  lemma StatusWords(s: string)
    ensures (s in PO_STATUSES && !Decided(s)) <==> IsFreeStatus(s)
    ensures s in PAYMENT_STATUSES <==> IsPaymentStatus(s)
  {
    var o, p := PO_STATUSES, PAYMENT_STATUSES;
    assert o[0] == "draft" && o[1] == "pending_approval" && o[2] == "approved" && o[3] == "rejected";
    assert o[4] == "issued" && o[5] == "confirmed" && o[6] == "partially_received" && o[7] == "received";
    assert o[8] == "invoiced" && o[9] == "closed" && o[10] == "on_hold" && o[11] == "pending_revision";
    assert o[12] == "cancelled";
    assert p[0] == "unpaid" && p[1] == "partially_paid" && p[2] == "paid" && p[3] == "refunded";
  }

  /**
   An order that ends as `after` on top of `base`: one row tells of a change of status or payment
   tag if its user is on record; otherwise the change is made and the call fails.
   */
  ghost predicate RecordedAs(base: Db, id: int, before: Snap, after: Order, note: string, actor: Option<int>,
                             done: Reply, next: Db, reply: Reply)
  {
    var moved := base.(orders := base.orders[id := after]);
    var status, payment := Str(after.status), Str(after.payment);
    if status == before.status && payment == before.payment then next == moved && reply == done
    else if OnRecord(base, actor) then
      && reply == done
      && next == moved.(history := base.history + [
           HistoryRow(id, Column(before.status), status, Column(payment), By(actor), Column(note))])
    else next == moved && reply == Failed(HistoryRefused)
  }

  lemma MoveLaw(db: Db, base: Db, id: int, before: Snap, after: Order, note: string, actor: Option<int>, done: Reply)
    ensures var row := ChangeRow(id, before, SnapOf(after), note, actor);
            var (next, reply) := Execute(db, Move(base, id, before, after, row, false, done));
            RecordedAs(base, id, before, after, note, actor, done, next, reply)
  {
    hide Trim;
  }

  /** Which status changes are accepted, and what they store: a value given replaces, an empty one leaves alone. */
  lemma SetStatusLaw(db: Db, r: Request)
    requires r.call.SetStatus?
    ensures var id, status, payment := r.call.id, Trim(r.call.status), Trim(r.call.payment);
            var (next, reply) := Apply(db, r);
            if (status == "" && payment == "") || (status != "" && !IsFreeStatus(status))
               || (payment != "" && !IsPaymentStatus(payment)) || id !in db.orders
            then next == db && reply == Failed(Workflow)
            else StatusSet(db, r, status, payment, next, reply)
  {
    var status, payment := Trim(r.call.status), Trim(r.call.payment);
    AllowedWords(status, payment);
    hide *;
    SetStatusCases(db, r, status, payment);
  }

  lemma AllowedWords(status: string, payment: string)
    ensures StatusChangeAllowed(status, payment) <==>
            !((status == "" && payment == "") || (status != "" && !IsFreeStatus(status))
              || (payment != "" && !IsPaymentStatus(payment)))
  {
    StatusWords(status);
    StatusWords(payment);
    hide IsFreeStatus;
    hide IsPaymentStatus;
    hide Decided;
  }

  /** An accepted status change of an existing order. */
  ghost predicate StatusSet(db: Db, r: Request, status: string, payment: string, next: Db, reply: Reply)
    requires r.call.SetStatus? && r.call.id in db.orders
  {
    var id, before := r.call.id, db.orders[r.call.id];
    && id in next.orders
    && var after := next.orders[id];
       && after.status == (if status == "" then before.status else Some(status))
       && after.payment == (if payment == "" then before.payment else Some(payment))
       && after.docNumber == before.docNumber && after.currency == before.currency
       && after.totalMinor == before.totalMinor && after.note == before.note
       && RecordedAs(db, id, Snap(Str(before.status), Str(before.payment)), after, r.call.note, r.actor, Done(id),
                     next, reply)
  }

  lemma SetStatusCases(db: Db, r: Request, status: string, payment: string)
    requires r.call.SetStatus? && status == Trim(r.call.status) && payment == Trim(r.call.payment)
    ensures var (next, reply) := Apply(db, r);
            if !StatusChangeAllowed(status, payment) || r.call.id !in db.orders
            then next == db && reply == Failed(Workflow)
            else StatusSet(db, r, status, payment, next, reply)
  {
    hide Trim;
    hide StatusChangeAllowed;
    hide StatusMove;
    if r.call.id in db.orders {
      StatusMoveLaw(db, r, status, payment);
    }
    hide StatusSet;
    hide Execute;
  }

  lemma StatusMoveLaw(db: Db, r: Request, status: string, payment: string)
    requires r.call.SetStatus? && r.call.id in db.orders
    ensures var (next, reply) := Execute(db, StatusMove(db, r.actor, r.call.id, status, payment, r.call.note));
            StatusSet(db, r, status, payment, next, reply)
  {
    var o := db.orders[r.call.id];
    var after := o.(status := if status != "" then Some(status) else o.status,
                    payment := if payment != "" then Some(payment) else o.payment);
    MoveLaw(db, db, r.call.id, SnapOf(o), after, r.call.note, r.actor, Done(r.call.id));
    hide RecordedAs;
    hide ChangeRow;
  }

  // ---- table writes: orders

  /** The row holds what was written, column by column; the recorded total is not written. */
  predicate OrderWritten(v: OrderValues, before: Order, after: Order) {
    && (v.docNumber.Set? ==> after.docNumber == v.docNumber.value)
    && (v.docNumber.Absent? ==> after.docNumber == before.docNumber)
    && Holds(v.status, before.status, after.status) && Holds(v.payment, before.payment, after.payment)
    && Holds(v.currency, before.currency, after.currency) && Holds(v.note, before.note, after.note)
    && after.totalMinor == before.totalMinor
  }

  predicate WritesDecision(v: OrderValues) {
    v.status == Set("approved") || v.status == Set("rejected")
  }

  lemma InsertOrderLaw(db: Db, r: Request)
    requires r.call.Insert? && r.call.v.ToOrder?
    ensures var v, id := r.call.v.o, db.nextOrder;
            var (next, reply) := Apply(db, r);
            if WritesDecision(v) then next == db && reply == Failed(Workflow)
            else if r.call.refused || !v.docNumber.Set? then next == db && reply == Failed(Constraint)
            else
              && id in next.orders && OrderWritten(v, Order("", None, None, None, None, None), next.orders[id])
              && RecordedAs(db.(nextOrder := id + 1), id, Snap("", ""), next.orders[id], "", r.actor, Done(id),
                            next, reply)
  {
    var v := r.call.v.o;
    var after := AssignOrder(NO_ORDER, v);
    MoveLaw(db, db.(nextOrder := db.nextOrder + 1), db.nextOrder, Snap("", ""), after, "", r.actor, Done(db.nextOrder));
    hide RecordedAs;
    hide ChangeRow;
  }

  lemma UpdateOrderLaw(db: Db, r: Request)
    requires r.call.Update? && r.call.v.ToOrder?
    ensures var v, id := r.call.v.o, r.call.id;
            var (next, reply) := Apply(db, r);
            if WritesDecision(v) then next == db && reply == Failed(Workflow)
            else if v.docNumber.Absent? && v.status.Absent? && v.payment.Absent? && v.currency.Absent? && v.note.Absent?
            then next == db && reply == Done(id)
            else if id !in db.orders then next == db && reply == Failed(NotFound)
            else if r.call.refused || v.docNumber.SetNull? then next == db && reply == Failed(Constraint)
            else
              var before := db.orders[id];
              && id in next.orders && OrderWritten(v, before, next.orders[id])
              && RecordedAs(db, id, Snap(Str(before.status), Str(before.payment)), next.orders[id], "", r.actor,
                            Done(id), next, reply)
  {
    var v, id := r.call.v.o, r.call.id;
    hide RecordedAs;
    hide ChangeRow;
    hide OrderWritten;
    hide AssignOrder;
    if id in db.orders {
      var after := AssignOrder(db.orders[id], v);
      OrderAssigned(db.orders[id], v);
      MoveLaw(db, db, id, SnapOf(db.orders[id]), after, "", r.actor, Done(id));
    }
  }

  lemma OrderAssigned(o: Order, v: OrderValues)
    ensures OrderWritten(v, o, AssignOrder(o, v))
  {
  }

  // ---- table writes: lines

  predicate LineWritten(v: LineValues, before: Line, after: Line) {
    && (v.por.Set? ==> after.por == v.por.value) && (v.por.Absent? ==> after.por == before.por)
    && Holds(v.qty, before.qty, after.qty) && Holds(v.price, before.price, after.price)
    && Holds(v.received, before.received, after.received)
    && Holds(v.currency, before.currency, after.currency) && Holds(v.note, before.note, after.note)
  }

  /**
   Order `por` after its lines have become those of `base`: if it is in fulfilment and something
   has come in, it is received when everything ordered has, and partially received otherwise.
   */
  ghost predicate SyncedAs(base: Db, por: int, actor: Option<int>, done: Reply, next: Db, reply: Reply) {
    if por !in base.orders then next == base && reply == done else
      var before := base.orders[por];
      var status := Str(before.status);
      var ordered, received := SumOf(base.lines, por, Qty), SumOf(base.lines, por, Received);
      var due := if ordered > 0.0 && received >= ordered then "received" else "partially_received";
      if (status == "issued" || status == "confirmed" || status == "partially_received" || status == "received")
         && received > 0.0 && due != status
      then RecordedAs(base, por, Snap(status, Str(before.payment)), before.(status := Some(due)),
                      "derived from line receipts", actor, done, next, reply)
      else next == base && reply == done
  }

  lemma SyncLaw(db: Db, base: Db, actor: Option<int>, por: int, done: Reply)
    ensures var (next, reply) := Execute(db, SyncPlan(base, actor, por, done));
            SyncedAs(base, por, actor, done, next, reply)
  {
    hide SumOf;
    if Syncs(base, por) {
      MoveLaw(db, base, por, SnapOf(base.orders[por]), base.orders[por].(status := Some(Derived(base.lines, por))),
              DERIVED_NOTE, actor, done);
      hide RecordedAs;
      hide ChangeRow;
    }
  }

  lemma InsertLineLaw(db: Db, r: Request)
    requires r.call.Insert? && r.call.v.ToLine?
    ensures var v, id := r.call.v.l, db.nextLine;
            var (next, reply) := Apply(db, r);
            if r.call.refused || !v.por.Set? || v.por.value !in db.orders then next == db && reply == Failed(Constraint)
            else
              && id in next.lines && LineWritten(v, Line(0, None, None, None, None, None), next.lines[id])
              && SyncedAs(db.(lines := db.lines[id := next.lines[id]], nextLine := id + 1), v.por.value, r.actor,
                          Done(id), next, reply)
  {
    hide SyncPlan;
    hide SyncedAs;
    hide LineWritten;
    hide AssignLine;
    var v, id := r.call.v.l, db.nextLine;
    LineAssigned(NO_LINE, v);
    if v.por.Set? {
      LinePor(NO_LINE, v);
      var base := PutLine(db, id, AssignLine(NO_LINE, v)).(nextLine := id + 1);
      SyncLaw(db, base, r.actor, v.por.value, Done(id));
      hide Execute;
      SyncLines(base, v.por.value, r.actor, Done(id), Apply(db, r).0, Apply(db, r).1);
    }
  }

  lemma LineAssigned(l: Line, v: LineValues)
    ensures LineWritten(v, l, AssignLine(l, v))
  {
  }

  lemma LinePor(l: Line, v: LineValues)
    ensures AssignLine(l, v).por == if v.por.Set? then v.por.value else l.por
  {
  }

  /** A sync leaves lines, users and counters alone. */
  lemma SyncLines(base: Db, por: int, actor: Option<int>, done: Reply, next: Db, reply: Reply)
    ensures SyncedAs(base, por, actor, done, next, reply) ==>
              next.lines == base.lines && next.users == base.users && next.nextOrder == base.nextOrder
              && next.nextLine == base.nextLine && next.nextUser == base.nextUser
  {
    hide SumOf;
  }

  lemma UpdateLineLaw(db: Db, r: Request)
    requires r.call.Update? && r.call.v.ToLine?
    ensures var v, id := r.call.v.l, r.call.id;
            var (next, reply) := Apply(db, r);
            if v.por.Absent? && v.qty.Absent? && v.price.Absent? && v.received.Absent? && v.currency.Absent?
               && v.note.Absent?
            then next == db && reply == Done(id)
            else if id !in db.lines then next == db && reply == Failed(NotFound)
            else if r.call.refused || v.por.SetNull? || (v.por.Set? && v.por.value !in db.orders)
            then next == db && reply == Failed(Constraint)
            else
              && id in next.lines && LineWritten(v, db.lines[id], next.lines[id])
              && SyncedAs(db.(lines := db.lines[id := next.lines[id]]), next.lines[id].por, r.actor, Done(id),
                          next, reply)
  {
    hide SyncPlan;
    hide SyncedAs;
    hide LineWritten;
    hide AssignLine;
    var v, id := r.call.v.l, r.call.id;
    if id in db.lines {
      var line := AssignLine(db.lines[id], v);
      LineAssigned(db.lines[id], v);
      SyncLaw(db, PutLine(db, id, line), r.actor, line.por, Done(id));
      SyncLines(PutLine(db, id, line), line.por, r.actor, Done(id), Apply(db, r).0, Apply(db, r).1);
    }
  }

  lemma DeleteLineLaw(db: Db, r: Request)
    requires r.call.Delete? && r.call.table.PoComponents?
    ensures var id := r.call.id;
            var (next, reply) := Apply(db, r);
            if id !in db.lines then next == db && reply == Failed(NotFound)
            else if r.call.refused then next == db && reply == Failed(Constraint)
            else SyncedAs(db.(lines := db.lines - {id}), db.lines[id].por, r.actor, Done(id), next, reply)
  {
    if r.call.id in db.lines {
      SyncLaw(db, db.(lines := db.lines - {r.call.id}), r.actor, db.lines[r.call.id].por, Done(r.call.id));
    }
    hide SyncPlan;
    hide SyncedAs;
    hide Execute;
  }

  // ---- table writes: users, and the deletion of orders

  lemma InsertUserLaw(db: Db, r: Request)
    requires r.call.Insert? && r.call.v.ToUser?
    ensures var v, id := r.call.v.u, db.nextUser;
            var (next, reply) := Apply(db, r);
            if r.call.refused || (v.limitMinor.Absent? && v.note.Absent?) then next == db && reply == Failed(Constraint)
            else
              && reply == Done(id) && id in next.users
              && Holds(v.limitMinor, None, next.users[id].limitMinor) && Holds(v.note, None, next.users[id].note)
              && next == db.(users := db.users[id := next.users[id]], nextUser := id + 1)
  {
  }

  lemma UpdateUserLaw(db: Db, r: Request)
    requires r.call.Update? && r.call.v.ToUser?
    ensures var v, id := r.call.v.u, r.call.id;
            var (next, reply) := Apply(db, r);
            if v.limitMinor.Absent? && v.note.Absent? then next == db && reply == Done(id)
            else if id !in db.users then next == db && reply == Failed(NotFound)
            else if r.call.refused then next == db && reply == Failed(Constraint)
            else
              && reply == Done(id) && id in next.users
              && Holds(v.limitMinor, db.users[id].limitMinor, next.users[id].limitMinor)
              && Holds(v.note, db.users[id].note, next.users[id].note)
              && next == db.(users := db.users[id := next.users[id]])
  {
  }

  /** A user named in the history cannot be deleted. */
  lemma DeleteUserLaw(db: Db, r: Request)
    requires r.call.Delete? && r.call.table.Users?
    ensures var id := r.call.id;
            var (next, reply) := Apply(db, r);
            if id !in db.users then next == db && reply == Failed(NotFound)
            else if r.call.refused || exists i :: 0 <= i < |db.history| && db.history[i].user == Some(id)
            then next == db && reply == Failed(Constraint)
            else next == db.(users := db.users - {id}) && reply == Done(id)
  {
  }

  /** An order takes its lines and its history with it, and nothing else. */
  lemma DeleteOrderLaw(db: Db, r: Request)
    requires r.call.Delete? && r.call.table.PurchaseOrders?
    ensures var id := r.call.id;
            var (next, reply) := Apply(db, r);
            if id !in db.orders then next == db && reply == Failed(NotFound)
            else if r.call.refused then next == db && reply == Failed(Constraint)
            else
              && reply == Done(id)
              && next == db.(orders := db.orders - {id}, lines := next.lines, history := next.history)
              && (forall k :: k in next.lines <==> k in db.lines && db.lines[k].por != id)
              && (forall k :: k in next.lines ==> next.lines[k] == db.lines[k])
              && forall row :: multiset(next.history)[row] == if row.order == id then 0 else multiset(db.history)[row]
  {
    hide Without;
  }
}
