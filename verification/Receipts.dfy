/**
 The receipt status follows from the lines alone: whatever line writes led to them, the last
 one leaves the order with the status its lines call for.
 */
module Receipts {
  import opened Wrappers
  import opened Text
  import opened Tables
  import opened Pricing
  import opened Requests

  function StatusOf(db: Db, por: int): string
    requires por in db.orders
  {
    Str(db.orders[por].status)
  }

  /** Something was received, and the order's status says how much. */
  ghost predicate InSync(db: Db, por: int)
    requires por in db.orders
  {
    SumOf(db.lines, por, Received) > 0.0 ==> StatusOf(db, por) == Derived(db.lines, por)
  }

  predicate IsLineWrite(c: Call) {
    match c
    case Insert(ToLine(_), _) => true
    case Update(_, ToLine(_), _) => true
    case Delete(PoComponents, _, _) => true
    case _ => false
  }

  /** The order whose lines a line write changes, if the write goes through. */
  function Touched(db: Db, c: Call): Option<int> {
    match c
    case Insert(ToLine(v), refused) =>
      if refused || !v.por.Set? || v.por.value !in db.orders then None else Some(v.por.value)
    case Update(id, ToLine(v), refused) =>
      if !WritesLine(v) || id !in db.lines || refused || v.por.SetNull?
         || (v.por.Set? && v.por.value !in db.orders)
      then None
      else Some(AssignLine(db.lines[id], v).por)
    case Delete(PoComponents, id, refused) =>
      if id !in db.lines || refused then None else Some(db.lines[id].por)
    case _ => None
  }

  /** The call moves a line of order o to another order. */
  predicate Leaves(db: Db, c: Call, o: int) {
    c.Update? && c.id in db.lines && db.lines[c.id].por == o && Touched(db, c).Some? && Touched(db, c) != Some(o)
  }

  predicate LineIds(db: Db) {
    forall k :: k in db.lines ==> k < db.nextLine
  }

  lemma SumPut(lines: map<int, Line>, k: int, l: Line, por: int, amount: Line -> real)
    ensures SumOf(lines[k := l], por, amount) == Share(l, por, amount) + SumOf(lines - {k}, por, amount)
    ensures k !in lines ==> lines - {k} == lines
  {
    SumTake(lines[k := l], k, por, amount);
    assert lines[k := l] - {k} == lines - {k};
  }

  /** Changing a line of one order leaves the sums of every other order alone. */
  lemma OtherSums(lines: map<int, Line>, k: int, l: Line, por: int, amount: Line -> real)
    requires l.por != por && (k in lines ==> lines[k].por != por)
    ensures SumOf(lines[k := l], por, amount) == SumOf(lines, por, amount)
    ensures SumOf(lines - {k}, por, amount) == SumOf(lines, por, amount)
  {
    SumPut(lines, k, l, por, amount);
    if k in lines { SumTake(lines, k, por, amount); }
  }

  ghost predicate SameReceipts(lines: map<int, Line>, lines': map<int, Line>, por: int) {
    SumOf(lines', por, Qty) == SumOf(lines, por, Qty) && SumOf(lines', por, Received) == SumOf(lines, por, Received)
  }

  /** What a sync of order `por` leaves of order `o`. */
  ghost predicate SyncLeaves(db: Db, next: Db, por: int, o: int)
    requires o in db.orders
  {
    && o in next.orders
    && (if o == por && Fulfilling(StatusOf(db, o)) then Fulfilling(StatusOf(next, o)) && InSync(next, o)
        else next.orders[o] == db.orders[o])
  }

  lemma DerivedFulfils(lines: map<int, Line>, por: int)
    ensures Fulfilling(Derived(lines, por))
  {
  }

  /** One sync step over lines already changed. */
  lemma SyncEffect(db: Db, base: Db, actor: Option<int>, por: int, reply: Reply, o: int)
    requires base.orders == db.orders && o in db.orders
    ensures var next := Execute(db, SyncPlan(base, actor, por, reply)).0;
            && next.lines == base.lines && next.nextLine == base.nextLine && o in next.orders
            && SyncLeaves(db, next, por, o) && (o != por ==> next.orders[o] == db.orders[o])
  {
    DerivedFulfils(base.lines, por);
    hide Derived;
    hide Fulfilling;
    hide SumOf;
    hide ChangeRow;
  }

  /** What a line write leaves of order `o`; only a line that leaves it changes its sums without a sync. */
  ghost predicate Stepped(db: Db, c: Call, next: Db, o: int)
    requires o in db.orders
  {
    && LineIds(next) && o in next.orders
    && if Touched(db, c) == Some(o) then SyncLeaves(db, next, o, o)
       else next.orders[o] == db.orders[o] && (Leaves(db, c, o) || SameReceipts(db.lines, next.lines, o))
  }

  lemma InsertStep(db: Db, actor: Option<int>, v: LineValues, refused: bool, o: int)
    requires LineIds(db) && o in db.orders
    ensures Stepped(db, Call.Insert(ToLine(v), refused), Execute(db, InsertLinePlan(db, actor, v, refused)).0, o)
  {
    hide SyncLeaves;
    hide SumOf;
    var l, k := AssignLine(NO_LINE, v), db.nextLine;
    if !InsertLinePlan(db, actor, v, refused).Stop? {
      hide Execute;
      hide SyncPlan;
      SyncEffect(db, PutLine(db, k, l).(nextLine := k + 1), actor, l.por, Done(k), o);
      if l.por != o { OtherReceipts(db.lines, k, l, o); }
    }
  }

  lemma UpdateStep(db: Db, actor: Option<int>, id: int, v: LineValues, refused: bool, o: int)
    requires LineIds(db) && o in db.orders
    ensures Stepped(db, Call.Update(id, ToLine(v), refused),
                    Execute(db, UpdateLinePlan(db, actor, id, v, refused)).0, o)
  {
    hide SyncLeaves;
    hide SumOf;
    if Touched(db, Call.Update(id, ToLine(v), refused)).Some? {
      hide Execute;
      hide SyncPlan;
      var l := AssignLine(db.lines[id], v);
      SyncEffect(db, PutLine(db, id, l), actor, l.por, Done(id), o);
      if l.por != o && db.lines[id].por != o { OtherReceipts(db.lines, id, l, o); }
    }
  }

  lemma DeleteStep(db: Db, actor: Option<int>, id: int, refused: bool, o: int)
    requires LineIds(db) && o in db.orders
    ensures Stepped(db, Call.Delete(PoComponents, id, refused),
                    Execute(db, DeleteLinePlan(db, actor, id, refused)).0, o)
  {
    hide SyncLeaves;
    hide SumOf;
    if id in db.lines && !refused {
      hide Execute;
      hide SyncPlan;
      var l := db.lines[id];
      SyncEffect(db, db.(lines := db.lines - {id}), actor, l.por, Done(id), o);
      if l.por != o { OtherReceipts(db.lines, id, l, o); }
    }
  }

  lemma LineStep(db: Db, r: Request, o: int)
    requires LineIds(db) && IsLineWrite(r.call) && o in db.orders
    ensures Stepped(db, r.call, Apply(db, r).0, o)
  {
    hide Stepped;
    match r.call
    case Insert(ToLine(v), refused) => InsertStep(db, r.actor, v, refused, o);
    case Update(id, ToLine(v), refused) => UpdateStep(db, r.actor, id, v, refused, o);
    case Delete(PoComponents, id, refused) => DeleteStep(db, r.actor, id, refused, o);
  }

  lemma OtherReceipts(lines: map<int, Line>, k: int, l: Line, por: int)
    requires l.por != por && (k in lines ==> lines[k].por != por)
    ensures SameReceipts(lines, lines[k := l], por) && SameReceipts(lines, lines - {k}, por)
  {
    OtherSums(lines, k, l, por, Qty);
    OtherSums(lines, k, l, por, Received);
  }

  /** Some later request moves a line of order o away. */
  ghost predicate LeavesLater(db: Db, rs: seq<Request>, o: int)
    decreases |rs|
  {
    rs != [] && (Leaves(db, rs[0].call, o) || LeavesLater(Apply(db, rs[0]).0, rs[1..], o))
  }

  /** Order o is synced by some request, and no line leaves it after the last one that does. */
  ghost predicate SyncedLast(db: Db, rs: seq<Request>, o: int)
    decreases |rs|
  {
    rs != [] &&
    var next := Apply(db, rs[0]).0;
    || SyncedLast(next, rs[1..], o)
    || (Touched(db, rs[0].call) == Some(o) && !LeavesLater(next, rs[1..], o))
  }

  predicate LineWrites(rs: seq<Request>) {
    forall i :: 0 <= i < |rs| ==> IsLineWrite(rs[i].call)
  }

  /** What a run of line writes, moves included, leaves of the status of order o. */
  lemma {:induction false} LineRun(db: Db, rs: seq<Request>, o: int)
    requires LineIds(db) && LineWrites(rs) && o in db.orders
    ensures var last := Run(db, rs);
            && o in last.orders
            && (!Fulfilling(StatusOf(db, o)) ==> last.orders[o] == db.orders[o])
            && (Fulfilling(StatusOf(db, o)) ==> Fulfilling(StatusOf(last, o)))
            && (Fulfilling(StatusOf(db, o)) && (SyncedLast(db, rs, o) || (InSync(db, o) && !LeavesLater(db, rs, o)))
                ==> InSync(last, o))
    decreases |rs|
  {
    if rs != [] {
      LineStep(db, rs[0], o);
      hide Apply;
      hide Fulfilling;
      hide Derived;
      LineRun(Apply(db, rs[0]).0, rs[1..], o);
    }
  }

  /**
   After any line writes, lines moving between orders included, an order in fulfilment with a
   positive received total is received when everything ordered has come in, and partially
   received otherwise, unless a line left it after its last sync. An order outside fulfilment is
   never disturbed.
   */
  lemma ReceiptStatusFollowsLines(db: Db, rs: seq<Request>, o: int)
    requires LineIds(db) && LineWrites(rs) && o in db.orders
    ensures o in Run(db, rs).orders
    ensures !Fulfilling(StatusOf(db, o)) ==> Run(db, rs).orders[o] == db.orders[o]
    ensures var last := Run(db, rs);
            var ordered, received := SumOf(last.lines, o, Qty), SumOf(last.lines, o, Received);
            Fulfilling(StatusOf(db, o)) && SyncedLast(db, rs, o) && received > 0.0
            ==> StatusOf(last, o) == if ordered > 0.0 && received >= ordered then RECEIVED else PARTIAL
  {
    LineRun(db, rs, o);
  }

  /** Two histories of line writes that end in the same lines end in the same status. */
  lemma ReceiptStatusPathIndependent(a: Db, rs: seq<Request>, b: Db, qs: seq<Request>, o: int)
    requires LineIds(a) && LineWrites(rs) && o in a.orders && Fulfilling(StatusOf(a, o)) && SyncedLast(a, rs, o)
    requires LineIds(b) && LineWrites(qs) && o in b.orders && Fulfilling(StatusOf(b, o)) && SyncedLast(b, qs, o)
    requires Run(a, rs).lines == Run(b, qs).lines && SumOf(Run(a, rs).lines, o, Received) > 0.0
    ensures o in Run(a, rs).orders && o in Run(b, qs).orders
    ensures StatusOf(Run(a, rs), o) == StatusOf(Run(b, qs), o)
  {
    ReceiptStatusFollowsLines(a, rs, o);
    ReceiptStatusFollowsLines(b, qs, o);
  }

  /** A second sync finds nothing to do, even if the first could not record its change. */
  lemma SyncTwice(db: Db, actor: Option<int>, again: Option<int>, por: int, reply: Reply)
    ensures var once := Execute(db, SyncPlan(db, actor, por, reply)).0;
            Execute(once, SyncPlan(once, again, por, reply)).0 == once
  {
    if por in db.orders { SyncEffect(db, db, actor, por, reply, por); }
  }

  /**
   Moving a line to another order syncs only the order it joins. The order it leaves keeps its
   status, so it is in sync afterwards exactly when that status already suited the other lines.
   */
  lemma MovedLineSyncsExactly(db: Db, r: Request, k: int, left: int)
    requires r.call.Update? && r.call.v.ToLine? && r.call.id == k && k in db.lines
    requires db.lines[k].por == left && left in db.orders
    requires Touched(db, r.call).Some? && Touched(db, r.call) != Some(left)
    ensures left in Apply(db, r).0.orders && Apply(db, r).0.orders[left] == db.orders[left]
    ensures InSync(Apply(db, r).0, left) <==>
            (SumOf(db.lines - {k}, left, Received) > 0.0 ==> StatusOf(db, left) == Derived(db.lines - {k}, left))
  {
    var l := AssignLine(db.lines[k], r.call.v.l);
    SyncEffect(db, PutLine(db, k, l), r.actor, l.por, Done(k), left);
    SumPut(db.lines, k, l, left, Qty);
    SumPut(db.lines, k, l, left, Received);
  }

  /** In a reachable state an order is in sync, and a line write leaves it out of sync. */
  ghost predicate LeavesStale(db: Db, r: Request, left: int) {
    && Reachable(db) && IsLineWrite(r.call) && left in db.orders && InSync(db, left)
    && left in Apply(db, r).0.orders && !InSync(Apply(db, r).0, left)
  }

  const SHORT: Line := Line(1, Some(2.0), None, Some(1.0), None, None)
  const FULL: Line := Line(1, Some(1.0), None, Some(1.0), None, None)

  function OrderCall(status: Write<string>): Request {
    Request(None, Insert(ToOrder(OrderValues(Set("PO"), status, Absent, Absent, Absent, Absent)), false))
  }

  function LineCall(l: Line): Request
    requires l.qty.Some? && l.received.Some?
  {
    var v := LineValues(Set(l.por), Set(l.qty.value), Absent, Set(l.received.value), Absent, Absent);
    Request(None, Insert(ToLine(v), false))
  }

  /** Two orders, the first in fulfilment with a line that is complete and one that is short. */
  function TwoLines(): Db {
    Db(map[1 := NO_ORDER.(docNumber := "PO", status := Some(PARTIAL)), 2 := NO_ORDER.(docNumber := "PO")],
       map[1 := SHORT, 2 := FULL], map[], [HistoryRow(1, None, PARTIAL, None, None, None)], 3, 3, 1)
  }

  lemma TwoLinesSums()
    ensures var lines := TwoLines().lines;
            && Derived(lines, 1) == PARTIAL && Derived(map[1 := SHORT], 1) == PARTIAL
            && Derived(lines - {1}, 1) == RECEIVED && SumOf(lines - {1}, 1, Received) > 0.0
  {
    var lines := TwoLines().lines;
    assert lines - {1} == map[2 := FULL] && map[2 := FULL] - {2} == map[] && map[1 := SHORT] - {1} == map[];
    SumTake(lines, 1, 1, Qty);
    SumTake(lines, 1, 1, Received);
    SumTake(map[2 := FULL], 2, 1, Qty);
    SumTake(map[2 := FULL], 2, 1, Received);
    SumTake(map[1 := SHORT], 1, 1, Qty);
    SumTake(map[1 := SHORT], 1, 1, Received);
  }

  lemma TwoLinesReachable()
    ensures Reachable(TwoLines())
  {
    hide Reachable;
    EmptyReachable();
    var one := EMPTY.(orders := map[1 := TwoLines().orders[1]], history := TwoLines().history, nextOrder := 2);
    var two := one.(orders := TwoLines().orders, nextOrder := 3);
    var three := two.(lines := map[1 := SHORT], nextLine := 2);
    FirstOrder();
    ReachableThen(EMPTY, OrderCall(Set(PARTIAL)));
    SecondOrder(one);
    ReachableThen(one, OrderCall(Absent));
    TwoLinesSums();
    AddLine(two, SHORT);
    ReachableThen(two, LineCall(SHORT));
    AddLine(three, FULL);
    ReachableThen(three, LineCall(FULL));
  }

  lemma FirstOrder()
    ensures Apply(EMPTY, OrderCall(Set(PARTIAL))).0 ==
            EMPTY.(orders := map[1 := TwoLines().orders[1]], history := TwoLines().history, nextOrder := 2)
  {
    assert Trim("") == "";
  }

  lemma SecondOrder(db: Db)
    ensures Apply(db, OrderCall(Absent)).0 ==
            db.(orders := db.orders[db.nextOrder := NO_ORDER.(docNumber := "PO")], nextOrder := db.nextOrder + 1)
  {
  }

  /** A line that leaves its order partially received needs no sync. */
  lemma AddLine(db: Db, l: Line)
    requires l == SHORT || l == FULL
    requires 1 in db.orders && StatusOf(db, 1) == PARTIAL && Derived(db.lines[db.nextLine := l], 1) == PARTIAL
    ensures Apply(db, LineCall(l)).0 == db.(lines := db.lines[db.nextLine := l], nextLine := db.nextLine + 1)
  {
    hide SumOf;
    hide Derived;
  }

  /** Two received lines, one of them short: once the short one moves away the order is complete but not marked so. */
  lemma MovedLineLeavesStale()
    ensures exists db: Db, r: Request, left: int :: LeavesStale(db, r, left)
  {
    var db := TwoLines();
    var r := Request(None, Call.Update(1, ToLine(LineValues(Set(2), Absent, Absent, Absent, Absent, Absent)), false));
    TwoLinesReachable();
    TwoLinesSums();
    hide Reachable;
    hide SumOf;
    hide Derived;
    hide Apply;
    MovedLineSyncsExactly(db, r, 1, 1);
    assert LeavesStale(db, r, 1);
  }
}
