/** Looking further ahead only appends to a forecast. */
module Horizon {
  import opened Text
  import opened Calendar
  import opened Obligations
  import opened Forecast
  import opened Sql
  import Sorting

  /** Two reports on the same day that differ only in how far they look. */
  ghost predicate Extends(near: Report, far: Report) {
    Proper(near) && Proper(far) && far == near.(through := far.through) && !Before(far.through, near.through)
  }

  /** Every obligation counted falls inside the report. */
  lemma {:induction false} LandingsInWindow(rows: seq<Row>, rep: Report)
    requires Proper(rep)
    ensures forall i :: 0 <= i < |Landings(rows, rep)| ==> InWindow(Landings(rows, rep)[i], rep)
  {
    hide Open;
    hide InWindow;
    if rows != [] { LandingsInWindow(rows[..|rows| - 1], rep); }
  }

  lemma BeforeTransitive(a: Date, b: Date, c: Date)
    requires !Before(b, a) && !Before(c, b)
    ensures !Before(c, a)
  {
  }

  /** What the row adds to the near report it adds to the far one; only later dates are new there. */
  lemma RowExtends(row: Row, near: Report, far: Report)
    requires Extends(near, far)
    ensures Open(row, near) == Open(row, far)
    ensures Lands(row, near) ==> Lands(row, far)
    ensures Lands(row, far) && !Lands(row, near) ==> Before(near.through, Open(row, far).value.date)
  {
    SameOpen(row, near, far);
    hide Open;
    var l := Open(row, near);
    if l.Some? && InWindow(l.value, near) { BeforeTransitive(l.value.date, near.through, far.through); }
  }

  lemma SameOpen(row: Row, near: Report, far: Report)
    requires Extends(near, far)
    ensures Open(row, near) == Open(row, far)
  {
  }

  lemma LaterKey(date: Date, overdue: bool, through: Date, l: Landing)
    requires Valid(date) && 0 <= date.year <= 9999 && !Before(through, date) && Before(through, l.date)
    ensures LexLess(Key(date, overdue), KeyOf(l)) && Key(date, overdue) != KeyOf(l)
  {
    KeyOrder(date, overdue, l.date, l.overdue);
  }

  /** The buckets inside the near report hold the same in both. */
  lemma {:induction false} SameBucket(rows: seq<Row>, near: Report, far: Report, c: string, date: Date, overdue: bool)
    requires Extends(near, far) && Valid(date) && 0 <= date.year <= 9999 && !Before(near.through, date)
    ensures var key := Key(date, overdue);
            && EventOf(Landings(rows, near), c, key) == EventOf(Landings(rows, far), c, key)
            && NetUpTo(Landings(rows, near), c, key) == NetUpTo(Landings(rows, far), c, key)
  {
    hide Open;
    hide Key;
    hide KeyOf;
    hide AddTo;
    if rows != [] {
      var front, last := rows[..|rows| - 1], rows[|rows| - 1];
      SameBucket(front, near, far, c, date, overdue);
      RowExtends(last, near, far);
      if Lands(last, far) && !Lands(last, near) {
        LaterKey(date, overdue, near.through, Open(last, far).value);
      }
      LandingsMore(rows, near, c, Key(date, overdue));
      LandingsMore(rows, far, c, Key(date, overdue));
    }
  }

  lemma LandingsMore(rows: seq<Row>, rep: Report, c: string, key: string)
    requires Proper(rep) && rows != []
    ensures var front, last := rows[..|rows| - 1], rows[|rows| - 1];
            var e, n := EventOf(Landings(front, rep), c, key), NetUpTo(Landings(front, rep), c, key);
            if Lands(last, rep) then
              var l := Open(last, rep).value;
              && EventOf(Landings(rows, rep), c, key) == (if IsIn(l, c, key) then AddTo(e, l) else e)
              && NetUpTo(Landings(rows, rep), c, key) ==
                 (if l.currency == c && !LexLess(key, KeyOf(l)) then n + Net(l) else n)
            else EventOf(Landings(rows, rep), c, key) == e && NetUpTo(Landings(rows, rep), c, key) == n
  {
    hide Open;
    hide KeyOf;
    var ls, front := Landings(rows, rep), Landings(rows[..|rows| - 1], rep);
    if Lands(rows[|rows| - 1], rep) {
      assert ls[..|ls| - 1] == front;
    } else {
      assert ls == front;
    }
  }

  /** A date inside the near report has a bucket in one report exactly when it has one in the other. */
  lemma {:induction false} SameBuckets(rows: seq<Row>, near: Report, far: Report, l: Landing)
    requires Extends(near, far)
    ensures l in Landings(rows, near) <==> l in Landings(rows, far) && !Before(near.through, l.date)
  {
    hide Open;
    if rows != [] {
      SameBuckets(rows[..|rows| - 1], near, far, l);
      RowExtends(rows[|rows| - 1], near, far);
    }
  }

  /** A bucket with an obligation inside the near report is the same in both. */
  lemma NearBucket(rows: seq<Row>, near: Report, far: Report, c: string, l: Landing)
    requires Extends(near, far) && l in Landings(rows, far) && l.currency == c && !Before(near.through, l.date)
    ensures var key := KeyOf(l); var ls, ls' := Landings(rows, near), Landings(rows, far);
            && HasBucket(ls, c, key) && HasBucket(ls', c, key)
            && EventOf(ls, c, key) == EventOf(ls', c, key) && NetUpTo(ls, c, key) == NetUpTo(ls', c, key)
  {
    SameBuckets(rows, near, far, l);
    SameBucket(rows, near, far, c, l.date, l.overdue);
    hide Landings;
    hide EventOf;
    hide NetUpTo;
    var ls, ls' := Landings(rows, near), Landings(rows, far);
    var i :| 0 <= i < |ls| && ls[i] == l;
    var j :| 0 <= j < |ls'| && ls'[j] == l;
    assert IsIn(ls[i], c, KeyOf(l)) && IsIn(ls'[j], c, KeyOf(l));
  }

  /** An obligation of an entry's bucket. */
  lemma Witness(e: ForecastEntry, ls: seq<Landing>, opening: map<string, int>)
    requires IsEntry(e, ls, opening)
    ensures exists l :: l in ls && l.currency == e.currency && KeyOf(l) == EntryKey(e)
  {
    var l := ls[LastIn(ls, e.currency, EntryKey(e))];
    hide EventOf;
    hide KeyOf;
    hide EntryKey;
    assert l in ls;
  }

  lemma EntryExtends(rows: seq<Row>, near: Report, far: Report, opening: map<string, int>, e: ForecastEntry)
    requires Extends(near, far) && IsEntry(e, Landings(rows, near), opening)
    ensures IsEntry(e, Landings(rows, far), opening)
  {
    hide Landings;
    hide EventOf;
    hide NetUpTo;
    hide HasBucket;
    hide KeyOf;
    hide EntryKey;
    Witness(e, Landings(rows, near), opening);
    var l :| l in Landings(rows, near) && l.currency == e.currency && KeyOf(l) == EntryKey(e);
    SameBuckets(rows, near, far, l);
    NearBucket(rows, near, far, e.currency, l);
  }

  /** An entry of the far report that comes before one of the near report is in the near report. */
  lemma EarlierEntryIsNear(rows: seq<Row>, near: Report, far: Report, opening: map<string, int>, x: ForecastEntry,
                           y: ForecastEntry)
    requires Extends(near, far) && x.currency == y.currency && EntryLess(x, y)
    requires IsEntry(x, Landings(rows, far), opening) && IsEntry(y, Landings(rows, near), opening)
    ensures IsEntry(x, Landings(rows, near), opening)
  {
    hide EntryLess;
    hide EntryKey;
    hide Landings;
    hide EventOf;
    hide NetUpTo;
    hide HasBucket;
    hide LexLess;
    hide Key;
    hide InWindow;
    EntryExtends(rows, near, far, opening, y);
    EntryKeyOrder(x, y, Landings(rows, far), opening);
    Witness(x, Landings(rows, far), opening);
    Witness(y, Landings(rows, near), opening);
    var l :| l in Landings(rows, far) && l.currency == x.currency && KeyOf(l) == EntryKey(x);
    var m :| m in Landings(rows, near) && m.currency == y.currency && KeyOf(m) == EntryKey(y);
    KeyOrder(l.date, l.overdue, m.date, m.overdue);
    SameBuckets(rows, near, far, m);
    NotAfter(l.date, m.date, near.through);
    NearBucket(rows, near, far, x.currency, l);
  }

  lemma NotAfter(a: Date, b: Date, through: Date)
    requires (Before(a, b) || a == b) && !Before(through, b)
    ensures !Before(through, a)
  {
  }

  /** The entries of one currency. */
  function OfCurrency(f: seq<ForecastEntry>, c: string): seq<ForecastEntry> {
    if f == [] then [] else (if f[0].currency == c then [f[0]] else []) + OfCurrency(f[1..], c)
  }

  lemma {:induction false} OfCurrencyOrder(f: seq<ForecastEntry>, c: string)
    ensures forall e :: e in OfCurrency(f, c) <==> e in f && e.currency == c
    ensures Sorting.Ascending(EntryLess, f) ==> Sorting.Ascending(EntryLess, OfCurrency(f, c))
  {
    hide EntryLess;
    if f != [] {
      OfCurrencyOrder(f[1..], c);
      assert forall e :: e in f <==> e == f[0] || e in f[1..];
      if Sorting.Ascending(EntryLess, f) {
        assert forall e :: e in f[1..] ==> EntryLess(f[0], e);
      }
    }
  }

  /**
   Horizon stability: with the same day and rows, what a currency's forecast shows up to a nearer
   horizon, balances and details included, is the front of what it shows up to a further one.
   */
  lemma HorizonStable(rows: seq<Row>, near: Report, far: Report, opening: map<string, int>,
                      f: seq<ForecastEntry>, g: seq<ForecastEntry>, c: string)
    requires Extends(near, far)
    requires IsForecast(f, Landings(rows, near), opening) && IsForecast(g, Landings(rows, far), opening)
    ensures OfCurrency(f, c) <= OfCurrency(g, c)
  {
    EntryOrder();
    OfCurrencyOrder(f, c);
    OfCurrencyOrder(g, c);
    hide IsEntry;
    hide OfCurrency;
    forall x | x in OfCurrency(f, c) ensures x in OfCurrency(g, c) {
      EntryExtends(rows, near, far, opening, x);
    }
    forall x, y | x in OfCurrency(g, c) && y in OfCurrency(f, c) && EntryLess(x, y) ensures x in OfCurrency(f, c) {
      EarlierEntryIsNear(rows, near, far, opening, x, y);
    }
    hide EntryLess;
    Sorting.AscendingFront(EntryLess, OfCurrency(f, c), OfCurrency(g, c));
  }
}
