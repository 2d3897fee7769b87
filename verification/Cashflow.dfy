/** buildCashflow: the maps and running totals of the report, in the order the code fills them. */
module Cashflow {
  import opened Wrappers
  import opened Text
  import opened Calendar
  import opened Obligations
  import opened Forecast
  import opened Sql
  import Horizon
  import Sorting

  // ---- account balances

  datatype Account = Account(name: string, currency: string, balance: int)

  /** The accounts, nothing posted yet; a later row with the same id replaces an earlier one. */
  function AccountsRead(rows: seq<Row>): map<int, Account> {
    if rows == [] then map[] else
      var front, last := AccountsRead(rows[..|rows| - 1]), rows[|rows| - 1];
      var id := IntValue(At(last, "bnk_id"));
      if id.None? then front
      else front[id.value := Account(StringValue(At(last, "bnk_name")), StringValue(At(last, "bnk_currency")), 0)]
  }

  function AccountCurrencies(rows: seq<Row>): map<int, string> {
    map id | id in AccountsRead(rows) :: AccountsRead(rows)[id].currency
  }

  /** Every account with what was posted to it up to the report date. */
  function FinalAccounts(accountRows: seq<Row>, transactionRows: seq<Row>, asOf: Date): map<int, Account> {
    map id | id in AccountsRead(accountRows) ::
      AccountsRead(accountRows)[id].(balance := PostedTo(Postings(transactionRows, asOf), id))
  }

  /** Account and amount of a bank transaction dated on or before the report date. */
  function Posting(row: Row, asOf: Date): Option<(int, int)> {
    var id, amount := IntValue(At(row, "bnk_id")), IntValue(At(row, "btx_amount_minor"));
    var date := ParseDate(StringValue(At(row, "btx_date")));
    if id.Some? && amount.Some? && date.Some? && !Before(asOf, date.value) then Some((id.value, amount.value)) else None
  }

  function Postings(rows: seq<Row>, asOf: Date): seq<(int, int)> {
    if rows == [] then [] else
      var p := Posting(rows[|rows| - 1], asOf);
      Postings(rows[..|rows| - 1], asOf) + if p.Some? then [p.value] else []
  }

  /** What was posted to one account. */
  function PostedTo(ps: seq<(int, int)>, id: int): int {
    if ps == [] then 0 else
      PostedTo(ps[..|ps| - 1], id) + if ps[|ps| - 1].0 == id then ps[|ps| - 1].1 else 0
  }

  /** What was posted to the given accounts of one currency. */
  function PostedIn(ps: seq<(int, int)>, currencies: map<int, string>, ids: set<int>, c: string): int {
    if ps == [] then 0 else
      var (id, amount) := ps[|ps| - 1];
      PostedIn(ps[..|ps| - 1], currencies, ids, c)
        + if id in ids && id in currencies && currencies[id] == c then amount else 0
  }

  lemma {:induction false} PostedOneMore(ps: seq<(int, int)>, currencies: map<int, string>, ids: set<int>, id: int,
                                         c: string)
    requires id !in ids && id in currencies
    ensures PostedIn(ps, currencies, ids + {id}, c) ==
            PostedIn(ps, currencies, ids, c) + if currencies[id] == c then PostedTo(ps, id) else 0
  {
    if ps != [] { PostedOneMore(ps[..|ps| - 1], currencies, ids, id, c); }
  }

  lemma {:induction false} PostedToNone(ps: seq<(int, int)>, currencies: map<int, string>, c: string)
    ensures PostedIn(ps, currencies, {}, c) == 0
  {
    if ps != [] { PostedToNone(ps[..|ps| - 1], currencies, c); }
  }

  lemma PostedMore(ps: seq<(int, int)>, p: (int, int), id: int)
    ensures PostedTo(ps + [p], id) == PostedTo(ps, id) + if p.0 == id then p.1 else 0
  {
    assert (ps + [p])[..|ps|] == ps;
  }

  lemma {:induction false} NothingPosted(rows: seq<Row>)
    ensures forall id :: id in AccountsRead(rows) ==> AccountsRead(rows)[id].balance == 0
  {
    if rows != [] { NothingPosted(rows[..|rows| - 1]); }
  }

  method LoadAccounts(rows: seq<Row>) returns (accounts: map<int, Account>)
    ensures accounts == AccountsRead(rows)
  {
    accounts := map[];
    for i := 0 to |rows|
      invariant accounts == AccountsRead(rows[..i])
    {
      assert rows[..i + 1][..i] == rows[..i];
      var id := IntValue(At(rows[i], "bnk_id"));
      if id.None? { continue; }
      var name, currency := StringValue(At(rows[i], "bnk_name")), StringValue(At(rows[i], "bnk_currency"));
      accounts := accounts[id.value := Account(name, currency, 0)];
    }
    assert rows[..|rows|] == rows;
  }

  lemma PostingsMore(rows: seq<Row>, i: nat, asOf: Date)
    requires i < |rows|
    ensures var p := Posting(rows[i], asOf);
            Postings(rows[..i + 1], asOf) ==
            if p.Some? then Postings(rows[..i], asOf) + [p.value] else Postings(rows[..i], asOf)
  {
    hide Posting;
    assert rows[..i + 1][..i] == rows[..i];
  }

  method PostTransactions(accounts: map<int, Account>, rows: seq<Row>, asOf: Date) returns (posted: map<int, Account>)
    ensures posted == map id | id in accounts ::
              accounts[id].(balance := accounts[id].balance + PostedTo(Postings(rows, asOf), id))
  {
    hide Posting;
    hide PostedTo;
    posted := accounts;
    assert rows[..0] == [];
    forall id ensures PostedTo(Postings(rows[..0], asOf), id) == 0 { NothingTo(id); }
    hide Postings;
    for i := 0 to |rows|
      invariant posted.Keys == accounts.Keys
      invariant forall id :: id in accounts ==>
        posted[id] == accounts[id].(balance := accounts[id].balance + PostedTo(Postings(rows[..i], asOf), id))
    {
      var p := Posting(rows[i], asOf);
      PostingsMore(rows, i, asOf);
      if p.Some? {
        forall id { PostedMore(Postings(rows[..i], asOf), p.value, id); }
      }
      if p.Some? && p.value.0 in posted {
        var (id, amount) := p.value;
        posted := posted[id := posted[id].(balance := posted[id].balance + amount)];
      }
    }
    assert rows[..|rows|] == rows;
  }

  lemma NothingTo(id: int)
    ensures PostedTo([], id) == 0
  {
  }

  /** What each currency's accounts hold: every transaction counted once, for its account's currency. */
  ghost predicate IsOpening(opening: map<string, int>, accounts: seq<Row>, transactions: seq<Row>, asOf: Date) {
    var currencies := AccountCurrencies(accounts);
    && (forall c :: c in opening <==> exists id :: id in currencies && currencies[id] == c)
    && forall c :: c in opening ==> opening[c] == PostedIn(Postings(transactions, asOf), currencies, currencies.Keys, c)
  }

  /** Balances by currency, the accounts taken in any order. */
  method SumByCurrency(accounts: map<int, Account>, ghost currencies: map<int, string>, ghost ps: seq<(int, int)>)
    returns (balances: map<string, int>)
    requires accounts.Keys == currencies.Keys
    requires forall id :: id in accounts ==>
               accounts[id].currency == currencies[id] && accounts[id].balance == PostedTo(ps, id)
    ensures forall c :: c in balances <==> exists id :: id in currencies && currencies[id] == c
    ensures forall c :: c in balances ==> balances[c] == PostedIn(ps, currencies, currencies.Keys, c)
  {
    balances := map[];
    var rest := accounts.Keys;
    ghost var done: set<int> := {};
    forall c { PostedToNone(ps, currencies, c); }
    hide PostedIn;
    hide PostedTo;
    while rest != {}
      invariant done + rest == currencies.Keys && done !! rest
      invariant forall c :: c in balances <==> exists id :: id in done && currencies[id] == c
      invariant forall c :: OpeningOf(balances, c) == PostedIn(ps, currencies, done, c)
      decreases |rest|
    {
      SomeId(rest);
      var id :| id in rest;
      forall c { PostedOneMore(ps, currencies, done, id, c); }
      var account := accounts[id];
      balances := balances[account.currency := OpeningOf(balances, account.currency) + account.balance];
      rest, done := rest - {id}, done + {id};
    }
    assert done == currencies.Keys;
  }

  // ---- the list of accounts

  datatype AccountSummary = AccountSummary(id: int, name: string, currency: string, balanceMinor: int)

  predicate NameLess(x: AccountSummary, y: AccountSummary) {
    LexLess(x.name, y.name)
  }

  function SummaryOf(id: int, account: Account): AccountSummary {
    AccountSummary(id, account.name, account.currency, account.balance)
  }

  /** How often a summary occurs in a list of these accounts. */
  function Occurs(s: AccountSummary, accounts: map<int, Account>, ids: set<int>): nat {
    if s.id in ids && s.id in accounts && s == SummaryOf(s.id, accounts[s.id]) then 1 else 0
  }

  /** Every account once, by name; accounts of one name in any order. */
  ghost predicate IsAccountList(list: seq<AccountSummary>, accounts: map<int, Account>) {
    && Sorting.InOrder(NameLess, list)
    && forall s :: multiset(list)[s] == Occurs(s, accounts, accounts.Keys)
  }

  lemma NameOrder()
    ensures Sorting.StrictOrder(NameLess)
  {
    forall x ensures !NameLess(x, x) { LexIrreflexive(x.name); }
    forall x, y, z | NameLess(x, y) && NameLess(y, z) ensures NameLess(x, z) { LexTransitive(x.name, y.name, z.name); }
  }

  /** The accounts are taken in any order and then sorted. */
  method ListAccounts(accounts: map<int, Account>) returns (list: seq<AccountSummary>)
    ensures IsAccountList(list, accounts)
  {
    hide NameLess;
    list := [];
    var rest := accounts.Keys;
    while rest != {}
      invariant rest <= accounts.Keys
      invariant forall s :: multiset(list)[s] == Occurs(s, accounts, accounts.Keys - rest)
      decreases |rest|
    {
      SomeId(rest);
      var id :| id in rest;
      list := list + [SummaryOf(id, accounts[id])];
      rest := rest - {id};
    }
    NameOrder();
    list := Sorting.SortInOrder(NameLess, list);
  }

  // ---- events by currency and bucket

  type Events = map<string, map<string, Event>>

  function EventAt(events: Events, c: string, key: string): Option<Event> {
    if c in events && key in events[c] then Some(events[c][key]) else None
  }

  /** What the events must hold for a bucket. */
  ghost function Expected(ls: seq<Landing>, c: string, key: string): Option<Event> {
    if HasBucket(ls, c, key) then Some(EventOf(ls, c, key)) else None
  }

  function EntryOrZero(e: Option<Event>): Event {
    if e.Some? then e.value else NO_EVENT
  }

  /** An open obligation in the window names the currency, whatever its kind. */
  ghost predicate Mentioned(rows: seq<Row>, rep: Report, c: string)
    requires Proper(rep)
  {
    exists i :: 0 <= i < |rows| && Mentions(rows[i], rep, c)
  }

  predicate Mentions(row: Row, rep: Report, c: string)
    requires Proper(rep)
  {
    var l := Open(row, rep);
    l.Some? && InWindow(l.value, rep) && l.value.currency == c
  }

  ghost predicate IsEvents(events: Events, rows: seq<Row>, rep: Report)
    requires Proper(rep)
  {
    && (forall c :: c in events <==> Mentioned(rows, rep, c))
    && forall c, key :: EventAt(events, c, key) == Expected(Landings(rows, rep), c, key)
  }

  lemma ExpectedMore(ls: seq<Landing>, l: Landing, c: string, key: string)
    ensures Expected(ls + [l], c, key) ==
            if IsIn(l, c, key) then Some(AddTo(EntryOrZero(Expected(ls, c, key)), l)) else Expected(ls, c, key)
  {
    hide KeyOf;
    hide AddTo;
    var more := ls + [l];
    assert more[..|ls|] == ls;
    if !HasBucket(ls, c, key) { NoBucketNoEvent(ls, c, key); }
    if HasBucket(ls, c, key) {
      var i :| 0 <= i < |ls| && IsIn(ls[i], c, key);
      assert more[i] == ls[i];
    }
    if HasBucket(more, c, key) && !IsIn(l, c, key) {
      var i :| 0 <= i < |more| && IsIn(more[i], c, key);
      assert ls[i] == more[i];
    }
    if IsIn(l, c, key) { assert more[|ls|] == l; }
  }

  lemma MentionedMore(rows: seq<Row>, rep: Report, c: string)
    requires Proper(rep) && rows != []
    ensures Mentioned(rows, rep, c) <==> Mentioned(rows[..|rows| - 1], rep, c) || Mentions(rows[|rows| - 1], rep, c)
  {
    hide Mentions;
    var front := rows[..|rows| - 1];
    if Mentioned(front, rep, c) {
      var i :| 0 <= i < |front| && Mentions(front[i], rep, c);
      assert rows[i] == front[i];
    }
    if Mentioned(rows, rep, c) {
      var i :| 0 <= i < |rows| && Mentions(rows[i], rep, c);
      assert i < |front| ==> front[i] == rows[i];
    }
  }

  /** The map entries of one row. */
  function PutEvent(events: Events, l: Landing): Events {
    var byDate := if l.currency in events then events[l.currency] else map[];
    if !Counts(l) then events[l.currency := byDate] else
      var key := KeyOf(l);
      var entry := if key in byDate then byDate[key] else NO_EVENT;
      events[l.currency := byDate[key := AddTo(entry, l)]]
  }

  lemma PutEventAt(events: Events, l: Landing, c: string, key: string)
    ensures c in PutEvent(events, l) <==> c in events || c == l.currency
    ensures EventAt(PutEvent(events, l), c, key) ==
            if Counts(l) && IsIn(l, c, key) then Some(AddTo(EntryOrZero(EventAt(events, c, key)), l))
            else EventAt(events, c, key)
  {
    hide KeyOf;
    hide AddTo;
  }

  lemma LastRow(rows: seq<Row>, rep: Report)
    requires Proper(rep) && rows != []
    ensures var ls, l := Landings(rows[..|rows| - 1], rep), Open(rows[|rows| - 1], rep);
            Landings(rows, rep) == if l.Some? && InWindow(l.value, rep) && Counts(l.value) then ls + [l.value] else ls
  {
    hide Open;
  }

  lemma LastMentions(rows: seq<Row>, rep: Report, c: string)
    requires Proper(rep) && rows != []
    ensures var l := Open(rows[|rows| - 1], rep);
            Mentions(rows[|rows| - 1], rep, c) <==> l.Some? && InWindow(l.value, rep) && l.value.currency == c
  {
    hide Open;
  }

  lemma EventsStep(events: Events, rows: seq<Row>, rep: Report, l: Landing)
    requires Proper(rep) && rows != [] && Open(rows[|rows| - 1], rep) == Some(l) && InWindow(l, rep)
    requires IsEvents(events, rows[..|rows| - 1], rep)
    ensures IsEvents(PutEvent(events, l), rows, rep)
  {
    hide Open;
    hide InWindow;
    hide Counts;
    hide Landings;
    hide PutEvent;
    hide Expected;
    hide EventAt;
    hide Mentions;
    hide Mentioned;
    hide IsIn;
    hide AddTo;
    LastRow(rows, rep);
    var ls := Landings(rows[..|rows| - 1], rep);
    forall c ensures c in PutEvent(events, l) <==> Mentioned(rows, rep, c) {
      PutEventAt(events, l, c, "");
      MentionedMore(rows, rep, c);
      LastMentions(rows, rep, c);
    }
    forall c, key ensures EventAt(PutEvent(events, l), c, key) == Expected(Landings(rows, rep), c, key) {
      PutEventAt(events, l, c, key);
      ExpectedMore(ls, l, c, key);
    }
  }

  lemma EventsSkip(events: Events, rows: seq<Row>, rep: Report)
    requires Proper(rep) && rows != []
    requires var l := Open(rows[|rows| - 1], rep); l.None? || !InWindow(l.value, rep)
    requires IsEvents(events, rows[..|rows| - 1], rep)
    ensures IsEvents(events, rows, rep)
  {
    hide Open;
    hide InWindow;
    hide Landings;
    hide Expected;
    hide EventAt;
    hide Mentions;
    hide Mentioned;
    LastRow(rows, rep);
    forall c ensures c in events <==> Mentioned(rows, rep, c) {
      MentionedMore(rows, rep, c);
      LastMentions(rows, rep, c);
    }
  }

  /** The loop over the obligations. */
  method LoadEvents(rows: seq<Row>, rep: Report) returns (events: Events)
    requires Proper(rep)
    ensures IsEvents(events, rows, rep)
  {
    events := map[];
    assert rows[..0] == [] && Landings([], rep) == [];
    for i := 0 to |rows|
      invariant IsEvents(events, rows[..i], rep)
    {
      hide IsEvents;
      hide Open;
      ghost var front := rows[..i + 1];
      assert front[..|front| - 1] == rows[..i] && front[|front| - 1] == rows[i];
      var l := Open(rows[i], rep);
      if l.None? || !InWindow(l.value, rep) {
        EventsSkip(events, front, rep);
        continue;
      }
      EventsStep(events, front, rep, l.value);
      events := PutEvent(events, l.value);
    }
    assert rows[..|rows|] == rows;
  }

  // ---- the forecast

  /** The keys are exactly those of the currency's buckets. */
  ghost predicate AreKeys(keys: seq<string>, ls: seq<Landing>, c: string) {
    Sorting.Ascending(LexLess, keys) && forall k :: k in keys <==> HasBucket(ls, c, k)
  }

  /** Up to key i the balance has moved by key i's bucket beyond key i - 1. */
  lemma RunningNet(keys: seq<string>, ls: seq<Landing>, c: string, i: nat)
    requires AreKeys(keys, ls, c) && i < |keys|
    ensures var e := EventOf(ls, c, keys[i]);
            NetUpTo(ls, c, keys[i]) == (if i == 0 then 0 else NetUpTo(ls, c, keys[i - 1])) + e.receivable - e.payable
  {
    hide KeyOf;
    hide LexLess;
    hide EventOf;
    hide NetUpTo;
    forall n | 0 <= n < |ls| && ls[n].currency == c
      ensures KeyOf(ls[n]) == keys[i] || LexLess(keys[i], KeyOf(ls[n]))
              || (i > 0 && !LexLess(keys[i - 1], KeyOf(ls[n])))
    {
      assert IsIn(ls[n], c, KeyOf(ls[n]));
      assert KeyOf(ls[n]) in keys;
      var m :| 0 <= m < |keys| && keys[m] == KeyOf(ls[n]);
      if m < i {
        LexIrreflexive(keys[m]);
        if m < i - 1 { KeysApart(keys[m], keys[i - 1]); }
      }
    }
    if i == 0 { NetFirst(ls, c, keys[0]); } else { NetStep(ls, c, keys[i - 1], keys[i]); }
  }

  /** The events of one currency, bucket by bucket. */
  ghost predicate IsByDate(byDate: map<string, Event>, ls: seq<Landing>, c: string) {
    && (forall key :: key in byDate <==> HasBucket(ls, c, key))
    && (forall key :: key in byDate ==> byDate[key] == EventOf(ls, c, key))
  }

  /** The entry the loop writes at key i, its balance counted up to there. */
  lemma RunningEntry(keys: seq<string>, byDate: map<string, Event>, ls: seq<Landing>, opening: map<string, int>,
                     c: string, i: nat)
    requires AreKeys(keys, ls, c) && IsByDate(byDate, ls, c) && i < |keys|
    ensures keys[i] in byDate
    ensures var event := byDate[keys[i]];
            var projected := (if i == 0 then OpeningOf(opening, c) else EntryOf(ls, opening, c, keys[i - 1]).projected)
                             + (event.receivable - event.payable);
            ForecastEntry(c, event.date, event.overdue, event.payable, event.receivable,
                          event.receivable - event.payable, projected, event.details) ==
                          EntryOf(ls, opening, c, keys[i])
  {
    hide EventOf;
    hide NetUpTo;
    hide HasBucket;
    hide LexLess;
    RunningNet(keys, ls, c, i);
    hide Sorting.Ascending;
    assert keys[i] in keys;
  }

  /** The entries of one currency, their balance running on from its opening balance. */
  method CurrencyForecast(c: string, byDate: map<string, Event>, start: int, ghost ls: seq<Landing>,
                          ghost opening: map<string, int>)
    returns (entries: seq<ForecastEntry>)
    requires IsByDate(byDate, ls, c) && start == OpeningOf(opening, c)
    ensures EntriesOf(entries, ls, opening, {c})
  {
    var keys := SortKeys(byDate.Keys);
    assert AreKeys(keys, ls, c);
    hide *;
    entries := RunKeys(keys, c, byDate, start, ls, opening);
    EntriesAreKeys(keys, entries, ls, opening, c);
  }

  method RunKeys(keys: seq<string>, c: string, byDate: map<string, Event>, start: int, ghost ls: seq<Landing>,
                 ghost opening: map<string, int>)
    returns (entries: seq<ForecastEntry>)
    requires AreKeys(keys, ls, c) && IsByDate(byDate, ls, c) && start == OpeningOf(opening, c)
    ensures |entries| == |keys|
    ensures forall j :: 0 <= j < |keys| ==> entries[j] == EntryOf(ls, opening, c, keys[j])
  {
    hide *;
    entries := [];
    var projected := start;
    for i := 0 to |keys|
      invariant |entries| == i
      invariant projected == if i == 0 then OpeningOf(opening, c) else entries[i - 1].projected
      invariant forall j :: 0 <= j < i ==> entries[j] == EntryOf(ls, opening, c, keys[j])
    {
      RunningEntry(keys, byDate, ls, opening, c, i);
      var event := byDate[keys[i]];
      var net := event.receivable - event.payable;
      projected := projected + net;
      entries := entries + [ForecastEntry(c, event.date, event.overdue, event.payable, event.receivable, net,
                                          projected, event.details)];
    }
  }

  lemma EntriesAreKeys(keys: seq<string>, entries: seq<ForecastEntry>, ls: seq<Landing>, opening: map<string, int>,
                       c: string)
    requires AreKeys(keys, ls, c) && |entries| == |keys|
    requires forall j :: 0 <= j < |keys| ==> entries[j] == EntryOf(ls, opening, c, keys[j])
    ensures EntriesOf(entries, ls, opening, {c})
  {
    hide EventOf;
    hide NetUpTo;
    hide HasBucket;
    hide LexLess;
    hide EntryKey;
    forall j | 0 <= j < |keys|
      ensures EntryKey(entries[j]) == keys[j] && IsEntry(entries[j], ls, opening) && entries[j].currency == c
    {
      assert keys[j] in keys;
      BucketKey(ls, opening, c, keys[j]);
    }
    forall e: ForecastEntry | e.currency == c && IsEntry(e, ls, opening) ensures e in entries {
      assert EntryKey(e) in keys;
      var j :| 0 <= j < |keys| && keys[j] == EntryKey(e);
      assert entries[j] == e;
    }
    forall i, j | 0 <= i < j < |entries| ensures entries[i] != entries[j] {
      LexIrreflexive(keys[i]);
    }
  }

  /** Any two entries of a forecast can be ordered. */
  lemma EntriesComparable(entries: seq<ForecastEntry>, ls: seq<Landing>, opening: map<string, int>)
    requires forall e :: e in entries ==> IsEntry(e, ls, opening)
    ensures Sorting.Comparable(EntryLess, entries)
  {
    hide IsEntry;
    forall x, y | x in entries && y in entries ensures x == y || EntryLess(x, y) || EntryLess(y, x) {
      if x.currency == y.currency {
        EntryKeyOrder(x, y, ls, opening);
        EntryKeyOrder(y, x, ls, opening);
        LexTotal(EntryKey(x), EntryKey(y));
      } else {
        LexTotal(x.currency, y.currency);
      }
    }
  }

  datatype CurrencyOpening = CurrencyOpening(currency: string, openingMinor: int, hasAccount: bool)

  predicate OpeningLess(x: CurrencyOpening, y: CurrencyOpening) {
    LexLess(x.currency, y.currency)
  }

  /** One opening line for every currency with an account or an open obligation, in order. */
  ghost predicate IsOpenings(o: seq<CurrencyOpening>, opening: map<string, int>, events: Events) {
    && Sorting.Ascending(OpeningLess, o)
    && forall x :: x in o <==>
         (x.currency in opening || x.currency in events)
         && x == CurrencyOpening(x.currency, OpeningOf(opening, x.currency), x.currency in opening)
  }

  lemma OpeningsSort(o: seq<CurrencyOpening>, opening: map<string, int>)
    requires forall x :: x in o ==>
               x == CurrencyOpening(x.currency, OpeningOf(opening, x.currency), x.currency in opening)
    ensures Sorting.StrictOrder(OpeningLess) && Sorting.Comparable(OpeningLess, o)
  {
    forall x ensures !OpeningLess(x, x) { LexIrreflexive(x.currency); }
    forall x, y, z | OpeningLess(x, y) && OpeningLess(y, z) ensures OpeningLess(x, z) {
      LexTransitive(x.currency, y.currency, z.currency);
    }
    forall x, y | x in o && y in o ensures x == y || OpeningLess(x, y) || OpeningLess(y, x) {
      LexTotal(x.currency, y.currency);
    }
  }

  /** The last two loops of the report: currencies in any order, then both lists sorted. */
  method Assemble(balances: map<string, int>, events: Events, ghost rows: seq<Row>, ghost rep: Report)
    returns (openings: seq<CurrencyOpening>, forecast: seq<ForecastEntry>)
    requires Proper(rep) && IsEvents(events, rows, rep)
    ensures IsOpenings(openings, balances, events)
    ensures IsForecast(forecast, Landings(rows, rep), balances)
  {
    ghost var ls := Landings(rows, rep);
    ExpectedEvents(events, rows, rep);
    openings, forecast := Collect(balances, events, ls);
    SortsBoth(openings, forecast, balances, events, ls);
    hide *;
    openings := Sorting.Sort(OpeningLess, openings);
    forecast := Sorting.Sort(EntryLess, forecast);
    SortedForecast(forecast, ls, balances);
    SortedOpenings(openings, balances, events);
  }

  lemma ExpectedEvents(events: Events, rows: seq<Row>, rep: Report)
    requires Proper(rep) && IsEvents(events, rows, rep)
    ensures AllExpected(events, Landings(rows, rep))
  {
    hide Landings;
    hide Expected;
  }

  ghost predicate AllExpected(events: Events, ls: seq<Landing>) {
    forall c, key :: EventAt(events, c, key) == Expected(ls, c, key)
  }

  /** The opening lines of these currencies. */
  ghost predicate OpeningsOf(o: seq<CurrencyOpening>, opening: map<string, int>, done: set<string>) {
    && Sorting.Distinct(o)
    && forall x :: x in o <==>
         x.currency in done && x == CurrencyOpening(x.currency, OpeningOf(opening, x.currency), x.currency in opening)
  }

  /** The entries of these currencies. */
  ghost predicate EntriesOf(f: seq<ForecastEntry>, ls: seq<Landing>, opening: map<string, int>, done: set<string>) {
    && Sorting.Distinct(f)
    && forall e :: e in f <==> e.currency in done && IsEntry(e, ls, opening)
  }

  lemma OpeningsMore(o: seq<CurrencyOpening>, opening: map<string, int>, done: set<string>, c: string)
    requires OpeningsOf(o, opening, done) && c !in done
    ensures OpeningsOf(o + [CurrencyOpening(c, OpeningOf(opening, c), c in opening)], opening, done + {c})
  {
    hide OpeningOf;
  }

  lemma EntriesMore(f: seq<ForecastEntry>, g: seq<ForecastEntry>, ls: seq<Landing>, opening: map<string, int>,
                    done: set<string>, c: string)
    requires EntriesOf(f, ls, opening, done) && EntriesOf(g, ls, opening, {c}) && c !in done
    ensures EntriesOf(f + g, ls, opening, done + {c})
  {
    hide IsEntry;
    forall i, j | 0 <= i < j < |f + g| ensures (f + g)[i] != (f + g)[j] {
      if i < |f| <= j { assert (f + g)[i] in f && (f + g)[j] in g; }
    }
  }

  /** The lines of every currency, currencies taken in any order. */
  method Collect(balances: map<string, int>, events: Events, ghost ls: seq<Landing>)
    returns (openings: seq<CurrencyOpening>, forecast: seq<ForecastEntry>)
    requires AllExpected(events, ls)
    ensures OpeningsOf(openings, balances, balances.Keys + events.Keys)
    ensures EntriesOf(forecast, ls, balances, balances.Keys + events.Keys)
  {
    openings, forecast := [], [];
    var all := balances.Keys + events.Keys;
    var rest := all;
    ghost var done: set<string> := {};
    NothingYet(balances, ls, done);
    assert Split(all, done, rest);
    hide *;
    while rest != {}
      invariant Split(all, done, rest)
      invariant OpeningsOf(openings, balances, done) && EntriesOf(forecast, ls, balances, done)
      decreases |rest|
    {
      var c :| c in rest;
      SplitMore(all, done, rest, c);
      OpeningsMore(openings, balances, done, c);
      openings := openings + [CurrencyOpening(c, OpeningOf(balances, c), c in balances)];
      var entries := EntriesFor(c, balances, events, ls);
      EntriesMore(forecast, entries, ls, balances, done, c);
      forecast := forecast + entries;
      rest, done := rest - {c}, done + {c};
    }
    SplitEnds(all, done);
  }

  ghost predicate Split(all: set<string>, done: set<string>, rest: set<string>) {
    done + rest == all && done !! rest
  }

  lemma SplitMore(all: set<string>, done: set<string>, rest: set<string>, c: string)
    requires Split(all, done, rest) && c in rest
    ensures Split(all, done + {c}, rest - {c}) && c !in done
  {
  }

  lemma SplitEnds(all: set<string>, done: set<string>)
    requires Split(all, done, {})
    ensures done == all
  {
  }

  method EntriesFor(c: string, balances: map<string, int>, events: Events, ghost ls: seq<Landing>)
    returns (entries: seq<ForecastEntry>)
    requires AllExpected(events, ls)
    ensures EntriesOf(entries, ls, balances, {c})
  {
    ByDateExpected(events, ls, c);
    hide *;
    var byDate := if c in events then events[c] else map[];
    entries := CurrencyForecast(c, byDate, OpeningOf(balances, c), ls, balances);
  }

  lemma NothingYet(opening: map<string, int>, ls: seq<Landing>, none: set<string>)
    requires none == {}
    ensures OpeningsOf([], opening, none) && EntriesOf([], ls, opening, none)
  {
  }

  lemma SortsBoth(o: seq<CurrencyOpening>, f: seq<ForecastEntry>, opening: map<string, int>, events: Events,
                  ls: seq<Landing>)
    requires OpeningsOf(o, opening, opening.Keys + events.Keys)
    requires EntriesOf(f, ls, opening, opening.Keys + events.Keys) && AllExpected(events, ls)
    ensures Sorting.StrictOrder(OpeningLess) && Sorting.Distinct(o) && Sorting.Comparable(OpeningLess, o)
    ensures Sorting.StrictOrder(EntryLess) && Sorting.Distinct(f) && Sorting.Comparable(EntryLess, f)
    ensures forall x :: x in o <==>
              (x.currency in opening || x.currency in events)
              && x == CurrencyOpening(x.currency, OpeningOf(opening, x.currency), x.currency in opening)
    ensures forall e :: e in f <==> IsEntry(e, ls, opening)
  {
    OpeningsSort(o, opening);
    EntryOrder();
    EntriesComparable(f, ls, opening);
    EveryEntryNamed(events, ls, opening, opening.Keys + events.Keys);
    hide IsEntry;
    hide OpeningLess;
    hide EntryLess;
    hide AllExpected;
  }

  lemma SortedForecast(f: seq<ForecastEntry>, ls: seq<Landing>, opening: map<string, int>)
    requires Sorting.Ascending(EntryLess, f) && forall e :: e in f <==> IsEntry(e, ls, opening)
    ensures IsForecast(f, ls, opening)
  {
    hide IsEntry;
    hide EntryLess;
  }

  lemma SortedOpenings(o: seq<CurrencyOpening>, opening: map<string, int>, events: Events)
    requires Sorting.Ascending(OpeningLess, o)
    requires forall x :: x in o <==>
               (x.currency in opening || x.currency in events)
               && x == CurrencyOpening(x.currency, OpeningOf(opening, x.currency), x.currency in opening)
    ensures IsOpenings(o, opening, events)
  {
    hide OpeningLess;
  }

  lemma ByDateExpected(events: Events, ls: seq<Landing>, c: string)
    requires AllExpected(events, ls)
    ensures IsByDate(if c in events then events[c] else map[], ls, c)
  {
    hide HasBucket;
    hide EventOf;
    var byDate := if c in events then events[c] else map[];
    forall key
      ensures (key in byDate <==> HasBucket(ls, c, key)) && (key in byDate ==> byDate[key] == EventOf(ls, c, key))
    {
      assert EventAt(events, c, key) == Expected(ls, c, key);
    }
  }

  lemma EveryEntryNamed(events: Events, ls: seq<Landing>, opening: map<string, int>, done: set<string>)
    requires AllExpected(events, ls)
    requires events.Keys <= done
    ensures forall e :: IsEntry(e, ls, opening) ==> e.currency in done
  {
    hide EventOf;
    hide HasBucket;
    hide NetUpTo;
    forall e | IsEntry(e, ls, opening) ensures e.currency in done {
      assert EventAt(events, e.currency, EntryKey(e)) == Expected(ls, e.currency, EntryKey(e));
    }
  }

  /** Opening lines and forecast follow from these tables, by way of the opening balances and the events. */
  ghost predicate Shows(openings: seq<CurrencyOpening>, forecast: seq<ForecastEntry>, opening: map<string, int>,
                        events: Events, accountRows: seq<Row>, transactionRows: seq<Row>, obligationRows: seq<Row>,
                        rep: Report)
    requires Proper(rep)
  {
    && IsOpening(opening, accountRows, transactionRows, rep.asOf)
    && IsEvents(events, obligationRows, rep)
    && IsOpenings(openings, opening, events)
    && IsForecast(forecast, Landings(obligationRows, rep), opening)
  }

  /** The whole report: accounts, designations in use, opening lines and forecast, from the four tables. */
  method BuildCashflow(accountRows: seq<Row>, transactionRows: seq<Row>, obligationRows: seq<Row>,
                       designationRows: seq<Row>, asOf: Date, through: Date)
    returns (accountList: seq<AccountSummary>, designations: seq<Designation>,
             openings: seq<CurrencyOpening>, forecast: seq<ForecastEntry>)
    requires Valid(asOf) && 0 <= asOf.year <= 9999 && Valid(through)
    ensures IsAccountList(accountList, FinalAccounts(accountRows, transactionRows, asOf))
    ensures IsDesignationList(designations, designationRows)
    ensures exists opening, events ::
              Shows(openings, forecast, opening, events, accountRows, transactionRows, obligationRows,
                    Report(asOf, through, DesignationNames(designationRows)))
  {
    hide IsAccountList;
    hide IsDesignationList;
    var names;
    names, designations := LoadDesignations(designationRows);
    var balances;
    accountList, balances := LoadBalances(accountRows, transactionRows, asOf);
    var rep := Report(asOf, through, names);
    var events := LoadEvents(obligationRows, rep);
    hide IsOpening;
    hide IsEvents;
    hide IsForecast;
    hide IsOpenings;
    openings, forecast := Assemble(balances, events, obligationRows, rep);
    assert Shows(openings, forecast, balances, events, accountRows, transactionRows, obligationRows, rep);
  }

  /** Accounts with their balances, and the balances by currency. */
  method LoadBalances(accountRows: seq<Row>, transactionRows: seq<Row>, asOf: Date)
    returns (accountList: seq<AccountSummary>, balances: map<string, int>)
    ensures IsAccountList(accountList, FinalAccounts(accountRows, transactionRows, asOf))
    ensures IsOpening(balances, accountRows, transactionRows, asOf)
  {
    hide AccountsRead;
    hide Postings;
    hide PostedTo;
    hide PostedIn;
    hide IsAccountList;
    NothingPosted(accountRows);
    var accounts := LoadAccounts(accountRows);
    accounts := PostTransactions(accounts, transactionRows, asOf);
    assert accounts == FinalAccounts(accountRows, transactionRows, asOf);
    balances := SumByCurrency(accounts, AccountCurrencies(accountRows), Postings(transactionRows, asOf));
    accountList := ListAccounts(accounts);
  }

  /** Nothing else meets the report's description: the tables alone decide it, not the order maps are read in. */
  lemma ReportUnique(accountRows: seq<Row>, transactionRows: seq<Row>, obligationRows: seq<Row>, rep: Report,
                     o: seq<CurrencyOpening>, f: seq<ForecastEntry>, opening: map<string, int>, events: Events,
                     o': seq<CurrencyOpening>, f': seq<ForecastEntry>, opening': map<string, int>, events': Events)
    requires Proper(rep)
    requires Shows(o, f, opening, events, accountRows, transactionRows, obligationRows, rep)
    requires Shows(o', f', opening', events', accountRows, transactionRows, obligationRows, rep)
    ensures o == o' && f == f'
  {
    OpeningUnique(opening, opening', accountRows, transactionRows, rep.asOf);
    hide IsOpening;
    ForecastUnique(f, f', Landings(obligationRows, rep), opening);
    hide IsForecast;
    hide EventAt;
    hide Mentioned;
    assert forall c :: c in events <==> c in events';
    hide IsEvents;
    OpeningsSort(o, opening);
    assert forall x :: x in o <==> x in o';
    hide OpeningLess;
    Sorting.AscendingUnique(OpeningLess, o, o');
  }

  /**
   Two reports over the same tables on the same day: what a currency's forecast shows up to the
   nearer horizon is the front of what it shows up to the further one.
   */
  lemma ReportsExtend(accountRows: seq<Row>, transactionRows: seq<Row>, obligationRows: seq<Row>,
                      near: Report, far: Report,
                      o: seq<CurrencyOpening>, f: seq<ForecastEntry>, opening: map<string, int>, events: Events,
                      o': seq<CurrencyOpening>, g: seq<ForecastEntry>, opening': map<string, int>, events': Events,
                      c: string)
    requires Horizon.Extends(near, far)
    requires Shows(o, f, opening, events, accountRows, transactionRows, obligationRows, near)
    requires Shows(o', g, opening', events', accountRows, transactionRows, obligationRows, far)
    ensures Horizon.OfCurrency(f, c) <= Horizon.OfCurrency(g, c)
  {
    OpeningUnique(opening, opening', accountRows, transactionRows, near.asOf);
    hide IsOpening;
    hide IsEvents;
    hide IsOpenings;
    hide IsForecast;
    hide Horizon.OfCurrency;
    Horizon.HorizonStable(obligationRows, near, far, opening, f, g, c);
  }

  lemma OpeningUnique(opening: map<string, int>, opening': map<string, int>, accounts: seq<Row>,
                      transactions: seq<Row>, asOf: Date)
    requires IsOpening(opening, accounts, transactions, asOf) && IsOpening(opening', accounts, transactions, asOf)
    ensures opening == opening'
  {
    hide AccountCurrencies;
    hide Postings;
    hide PostedIn;
    assert opening.Keys == opening'.Keys;
  }

  /** Code to name; a later row replaces an earlier one, rows without a code are skipped. */
  function DesignationNames(rows: seq<Row>): map<string, string> {
    if rows == [] then map[] else
      var front, last := DesignationNames(rows[..|rows| - 1]), rows[|rows| - 1];
      var code := StringValue(At(last, "dsg_code"));
      if code == "" then front else front[code := StringValue(At(last, "dsg_name"))]
  }

  datatype Designation = Designation(code: string, name: string)

  predicate CodeLess(x: Designation, y: Designation) {
    LexLess(x.code, y.code)
  }

  predicate InUse(row: Row) {
    StringValue(At(row, "dsg_code")) != "" && StringValue(At(row, "dsg_status")) in {"", "Active"}
  }

  function DesignationOf(row: Row): Designation {
    Designation(StringValue(At(row, "dsg_code")), StringValue(At(row, "dsg_name")))
  }

  /** The designations in use, in the order of their rows. */
  function DesignationsInUse(rows: seq<Row>): seq<Designation> {
    if rows == [] then [] else
      var last := rows[|rows| - 1];
      DesignationsInUse(rows[..|rows| - 1]) + if InUse(last) then [DesignationOf(last)] else []
  }

  /** One entry for every row in use, by code. */
  ghost predicate IsDesignationList(list: seq<Designation>, rows: seq<Row>) {
    Sorting.InOrder(CodeLess, list) && multiset(list) == multiset(DesignationsInUse(rows))
  }

  lemma CodeOrder()
    ensures Sorting.StrictOrder(CodeLess)
  {
    forall x ensures !CodeLess(x, x) { LexIrreflexive(x.code); }
    forall x, y, z | CodeLess(x, y) && CodeLess(y, z) ensures CodeLess(x, z) { LexTransitive(x.code, y.code, z.code); }
  }

  method LoadDesignations(rows: seq<Row>) returns (names: map<string, string>, list: seq<Designation>)
    ensures names == DesignationNames(rows)
    ensures IsDesignationList(list, rows)
  {
    names, list := ReadDesignations(rows);
    CodeOrder();
    hide CodeLess;
    list := Sorting.SortInOrder(CodeLess, list);
  }

  /** The loop over the designation codes. */
  method ReadDesignations(rows: seq<Row>) returns (names: map<string, string>, list: seq<Designation>)
    ensures names == DesignationNames(rows) && list == DesignationsInUse(rows)
  {
    names, list := map[], [];
    for i := 0 to |rows|
      invariant names == DesignationNames(rows[..i]) && list == DesignationsInUse(rows[..i])
    {
      assert rows[..i + 1][..i] == rows[..i];
      var code, name := StringValue(At(rows[i], "dsg_code")), StringValue(At(rows[i], "dsg_name"));
      if code == "" { continue; }
      names := names[code := name];
      var status := StringValue(At(rows[i], "dsg_status"));
      if status == "" || status == "Active" {
        list := list + [Designation(code, name)];
      }
    }
    assert rows[..|rows|] == rows;
  }
}
