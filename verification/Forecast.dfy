/** What the cash forecast promises, and what follows from it. */
module Forecast {
  import opened Text
  import opened Calendar
  import opened Obligations
  import Sorting

  datatype ForecastEntry = ForecastEntry(currency: string, dueDate: string, overdue: bool, payable: int,
                                         receivable: int, net: int, projected: int, details: seq<Detail>)

  function OpeningOf(opening: map<string, int>, c: string): int {
    if c in opening then opening[c] else 0
  }

  /** The entry of one bucket; its balance counts every obligation of the currency up to it. */
  function EntryOf(ls: seq<Landing>, opening: map<string, int>, c: string, key: string): ForecastEntry {
    var e := EventOf(ls, c, key);
    ForecastEntry(c, e.date, e.overdue, e.payable, e.receivable, e.receivable - e.payable,
                  OpeningOf(opening, c) + NetUpTo(ls, c, key), e.details)
  }

  function EntryKey(e: ForecastEntry): string {
    e.dueDate + Suffix(e.overdue)
  }

  /** By currency, then date, then the overdue bucket first. */
  predicate EntryLess(x: ForecastEntry, y: ForecastEntry) {
    || LexLess(x.currency, y.currency)
    || (x.currency == y.currency
        && (LexLess(x.dueDate, y.dueDate) || (x.dueDate == y.dueDate && x.overdue && !y.overdue)))
  }

  ghost predicate IsEntry(e: ForecastEntry, ls: seq<Landing>, opening: map<string, int>) {
    HasBucket(ls, e.currency, EntryKey(e)) && e == EntryOf(ls, opening, e.currency, EntryKey(e))
  }

  /** One entry for every bucket that holds an obligation, in strictly ascending order. */
  ghost predicate IsForecast(f: seq<ForecastEntry>, ls: seq<Landing>, opening: map<string, int>) {
    && Sorting.Ascending(EntryLess, f)
    && forall e :: e in f <==> IsEntry(e, ls, opening)
  }

  // ---- order

  lemma EntryOrder()
    ensures Sorting.StrictOrder(EntryLess)
  {
    forall x ensures !EntryLess(x, x) {
      LexIrreflexive(x.currency);
      LexIrreflexive(x.dueDate);
    }
    forall x, y, z | EntryLess(x, y) && EntryLess(y, z) ensures EntryLess(x, z) {
      if LexLess(x.currency, y.currency) && LexLess(y.currency, z.currency) {
        LexTransitive(x.currency, y.currency, z.currency);
      }
      if LexLess(x.dueDate, y.dueDate) && LexLess(y.dueDate, z.dueDate) {
        LexTransitive(x.dueDate, y.dueDate, z.dueDate);
      }
    }
  }

  /** The entry of a bucket carries the bucket's key, and a date that can be written. */
  lemma BucketKey(ls: seq<Landing>, opening: map<string, int>, c: string, key: string)
    requires HasBucket(ls, c, key)
    ensures EntryKey(EntryOf(ls, opening, c, key)) == key
    ensures |EntryOf(ls, opening, c, key).dueDate| == 10
    ensures IsEntry(EntryOf(ls, opening, c, key), ls, opening)
  {
    BucketDate(ls, c, key);
    FormatLength(ls[LastIn(ls, c, key)].date);
    hide FormatDate;
    hide EventOf;
  }

  /** Within a currency, entries are ordered as their keys are. */
  lemma EntryKeyOrder(x: ForecastEntry, y: ForecastEntry, ls: seq<Landing>, opening: map<string, int>)
    requires IsEntry(x, ls, opening) && IsEntry(y, ls, opening) && x.currency == y.currency
    ensures EntryLess(x, y) <==> LexLess(EntryKey(x), EntryKey(y))
    ensures EntryKey(x) == EntryKey(y) ==> x == y
  {
    BucketKey(ls, opening, x.currency, EntryKey(x));
    BucketKey(ls, opening, y.currency, EntryKey(y));
    SplitOrder(x.dueDate, Suffix(x.overdue), y.dueDate, Suffix(y.overdue));
    SuffixOrder(x.overdue, y.overdue);
    LexIrreflexive(x.currency);
    LexIrreflexive(x.dueDate);
    hide LexLess;
    hide Suffix;
    hide EventOf;
  }

  // ---- what a forecast shows

  /** The rows decide the forecast: no order of reading maps shows in it. */
  lemma ForecastUnique(f: seq<ForecastEntry>, g: seq<ForecastEntry>, ls: seq<Landing>, opening: map<string, int>)
    requires IsForecast(f, ls, opening) && IsForecast(g, ls, opening)
    ensures f == g
  {
    EntryOrder();
    hide IsEntry;
    hide EntryLess;
    Sorting.AscendingUnique(EntryLess, f, g);
  }

  ghost predicate Holds(e: ForecastEntry, l: Landing) {
    e.currency == l.currency && EntryKey(e) == KeyOf(l)
  }

  /** Every obligation counted lands in exactly one entry, and its detail is listed there. */
  lemma LandsExactlyOnce(f: seq<ForecastEntry>, ls: seq<Landing>, opening: map<string, int>, i: nat)
    requires IsForecast(f, ls, opening) && i < |ls|
    ensures exists j :: 0 <= j < |f| && Holds(f[j], ls[i]) && ls[i].detail in f[j].details
              && forall k :: 0 <= k < |f| && Holds(f[k], ls[i]) ==> k == j
  {
    hide EventOf;
    hide KeyOf;
    hide EntryLess;
    hide EntryKey;
    hide NetUpTo;
    var l := ls[i];
    var key := KeyOf(l);
    assert IsIn(l, l.currency, key) && HasBucket(ls, l.currency, key);
    var e := EntryOf(ls, opening, l.currency, key);
    BucketKey(ls, opening, l.currency, key);
    DetailListed(ls, l.currency, key, i);
    hide HasBucket;
    assert e in f;
    var j :| 0 <= j < |f| && f[j] == e;
    forall k | 0 <= k < |f| && Holds(f[k], l) ensures k == j {
      assert f[k] in f;
      assert f[k] == e;
      EntriesDiffer(f, j, k);
    }
  }

  lemma EntriesDiffer(f: seq<ForecastEntry>, j: nat, k: nat)
    requires Sorting.Ascending(EntryLess, f) && j < |f| && k < |f| && f[j] == f[k]
    ensures j == k
  {
    EntryOrder();
    hide EntryLess;
  }

  lemma {:induction false} DetailListed(ls: seq<Landing>, c: string, key: string, i: nat)
    requires i < |ls| && IsIn(ls[i], c, key)
    ensures ls[i].detail in EventOf(ls, c, key).details
  {
    hide KeyOf;
    hide FormatDate;
    if i < |ls| - 1 {
      assert ls[..|ls| - 1][i] == ls[i];
      DetailListed(ls[..|ls| - 1], c, key, i);
    }
  }

  ghost predicate FirstOf(f: seq<ForecastEntry>, j: int)
    requires 0 <= j < |f|
  {
    j == 0 || f[j - 1].currency != f[j].currency
  }

  /** Entries of one currency are adjacent. */
  lemma MiddleCurrency(f: seq<ForecastEntry>, a: nat, b: nat, c: nat)
    requires Sorting.Ascending(EntryLess, f) && a <= b <= c < |f| && f[a].currency == f[c].currency
    ensures f[b].currency == f[a].currency
  {
    if a < b < c {
      assert EntryLess(f[a], f[b]) && EntryLess(f[b], f[c]);
      if LexLess(f[a].currency, f[b].currency) {
        LexIrreflexive(f[a].currency);
        if LexLess(f[b].currency, f[c].currency) { LexTransitive(f[a].currency, f[b].currency, f[c].currency); }
      }
    }
  }

  lemma EarlierEntry(f: seq<ForecastEntry>, ls: seq<Landing>, opening: map<string, int>, m: nat, j: nat)
    requires IsForecast(f, ls, opening) && m < j < |f| && f[m].currency == f[j].currency
    ensures LexLess(EntryKey(f[m]), EntryKey(f[j]))
  {
    assert f[m] in f && f[j] in f;
    EntryKeyOrder(f[m], f[j], ls, opening);
  }

  /** Where the obligations of a currency stand relative to entry j of a forecast. */
  lemma EntriesAround(f: seq<ForecastEntry>, ls: seq<Landing>, opening: map<string, int>, j: nat, i: nat)
    requires IsForecast(f, ls, opening) && j < |f| && i < |ls| && ls[i].currency == f[j].currency
    ensures KeyOf(ls[i]) == EntryKey(f[j]) || LexLess(EntryKey(f[j]), KeyOf(ls[i]))
            || (j > 0 && f[j - 1].currency == ls[i].currency && !LexLess(EntryKey(f[j - 1]), KeyOf(ls[i])))
    ensures (j == |f| - 1 || f[j + 1].currency != ls[i].currency) ==> !LexLess(EntryKey(f[j]), KeyOf(ls[i]))
  {
    hide IsForecast;
    hide EntryKey;
    hide KeyOf;
    hide LexLess;
    LandsExactlyOnce(f, ls, opening, i);
    var m :| 0 <= m < |f| && Holds(f[m], ls[i]);
    LexIrreflexive(EntryKey(f[m]));
    ForecastAscends(f, ls, opening);
    hide EntryLess;
    if m < j {
      MiddleCurrency(f, m, j - 1, j);
      EarlierEntry(f, ls, opening, m, j);
      KeysApart(EntryKey(f[m]), EntryKey(f[j]));
      if m < j - 1 {
        EarlierEntry(f, ls, opening, m, j - 1);
        KeysApart(EntryKey(f[m]), EntryKey(f[j - 1]));
      }
    } else if m > j {
      MiddleCurrency(f, j, j + 1, m);
      EarlierEntry(f, ls, opening, j, m);
    }
  }

  lemma ForecastAscends(f: seq<ForecastEntry>, ls: seq<Landing>, opening: map<string, int>)
    requires IsForecast(f, ls, opening)
    ensures Sorting.Ascending(EntryLess, f)
  {
    hide IsEntry;
    hide EntryLess;
  }

  lemma KeysApart(a: string, b: string)
    requires LexLess(a, b)
    ensures !LexLess(b, a)
  {
    LexIrreflexive(a);
    if LexLess(b, a) { LexTransitive(a, b, a); }
  }

  /** The balances chain: each entry moves the balance before it by its own net, the first the opening balance. */
  lemma BalancesChain(f: seq<ForecastEntry>, ls: seq<Landing>, opening: map<string, int>, j: nat)
    requires IsForecast(f, ls, opening) && j < |f|
    ensures f[j].net == f[j].receivable - f[j].payable
    ensures f[j].projected == f[j].net + if FirstOf(f, j) then OpeningOf(opening, f[j].currency) else f[j - 1].projected
  {
    var c, key := f[j].currency, EntryKey(f[j]);
    assert f[j] in f;
    forall i | 0 <= i < |ls| && ls[i].currency == c
      ensures KeyOf(ls[i]) == key || LexLess(key, KeyOf(ls[i]))
              || (j > 0 && f[j - 1].currency == c && !LexLess(EntryKey(f[j - 1]), KeyOf(ls[i])))
    {
      EntriesAround(f, ls, opening, j, i);
    }
    if FirstOf(f, j) {
      NetFirst(ls, c, key);
    } else {
      assert f[j - 1] in f;
      EntryKeyOrder(f[j - 1], f[j], ls, opening);
      NetStep(ls, c, EntryKey(f[j - 1]), key);
    }
  }

  /**
   Money is conserved: the last balance of a currency is its opening balance plus everything it
   receives, minus everything it pays.
   */
  lemma MoneyConserved(f: seq<ForecastEntry>, ls: seq<Landing>, opening: map<string, int>, j: nat)
    requires IsForecast(f, ls, opening) && j < |f|
    requires j == |f| - 1 || f[j + 1].currency != f[j].currency
    ensures f[j].projected == OpeningOf(opening, f[j].currency) + NetAll(ls, f[j].currency)
  {
    assert f[j] in f;
    forall i | 0 <= i < |ls| && ls[i].currency == f[j].currency ensures !LexLess(EntryKey(f[j]), KeyOf(ls[i])) {
      EntriesAround(f, ls, opening, j, i);
    }
    NetLast(ls, f[j].currency, EntryKey(f[j]));
  }
}
