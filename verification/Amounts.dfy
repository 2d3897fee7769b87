/**
 The report in the words of its rows: which cells make a row count, on which side and on which date,
 and what one row more changes in the balances shown.
 */
module Amounts {
  import opened Wrappers
  import opened Text
  import opened Sql
  import opened Calendar
  import opened Obligations
  import opened Forecast
  import opened Cashflow
  import Sorting

  // ---- cells

  /** The text of a text cell; anything else has none. */
  lemma TextCell(c: Cell)
    ensures c.Txt? ==> StringValue(c) == c.s
    ensures !c.Txt? ==> StringValue(c) == ""
  {
  }

  /** Whole numbers and texts of whole numbers are amounts; a fraction, a NULL or any other text is none. */
  lemma AmountCell(c: Cell, n: int)
    ensures IntValue(c) == Some(n) <==> (c.Num? && c.n == n as real) || (c.Txt? && ParseInt(c.s) == Some(n))
    ensures c.Null? ==> IntValue(c).None? && ValueOrZero(c) == 0
    ensures IntValue(c) == Some(n) ==> ValueOrZero(c) == n
    ensures IntValue(c).None? && c.Txt? ==> ValueOrZero(c) == 0
  {
    hide ParseInt;
  }

  /** What a designation is shown as: its code with the name, or the code alone where no name is known. */
  lemma DesignationLaw(code: string, names: map<string, string>)
    ensures code == "" ==> DesignationLabel(code, names) == ""
    ensures code != "" && code in names && names[code] != "" ==>
              DesignationLabel(code, names) == code + " - " + names[code] && DesignationName(code, names) == names[code]
    ensures code !in names || names[code] == "" ==>
              DesignationLabel(code, names) == code && DesignationName(code, names) == code
  {
  }

  // ---- obligations

  function CellText(row: Row, column: string): string {
    match At(row, column)
    case Txt(s) => s
    case _ => ""
  }

  predicate HasAmount(row: Row, n: int) {
    var c := At(row, "fob_amount_minor");
    n > 0 && ((c.Num? && c.n == n as real) || (c.Txt? && ParseInt(c.s) == Some(n)))
  }

  predicate HasDue(row: Row, due: Date) {
    ParseDate(CellText(row, "fob_due_date")) == Some(due)
  }

  /** Neither paid nor cancelled, of amount n in a currency, due on `due`, and no later than the report goes. */
  predicate IsOpen(row: Row, rep: Report, n: int, due: Date) {
    && HasAmount(row, n) && HasDue(row, due) && CellText(row, "fob_currency") != ""
    && CellText(row, "fob_status") != "paid" && CellText(row, "fob_status") != "cancelled"
    && !Before(rep.through, if Before(due, rep.asOf) then rep.asOf else due)
  }

  predicate IsCounted(row: Row, rep: Report, n: int, due: Date) {
    && IsOpen(row, rep, n, due)
    && (CellText(row, "fob_type") == "payable" || CellText(row, "fob_type") == "receivable")
  }

  /** What a counted row says about itself. */
  predicate Details(d: Detail, row: Row, n: int, names: map<string, string>) {
    && d.title == CellText(row, "fob_label") && d.counterparty == CellText(row, "fob_counterparty")
    && d.source == CellText(row, "fob_source_type") && d.dueDate == CellText(row, "fob_due_date")
    && d.kind == CellText(row, "fob_type") && d.status == CellText(row, "fob_status") && d.amountMinor == n
    && d.id == ValueOrZero(At(row, "fob_id"))
    && d.designation == DesignationLabel(CellText(row, "fob_designation_code"), names)
    && d.designationName == DesignationName(CellText(row, "fob_designation_code"), names)
  }

  /** One landing more, on the row's side, amount, currency and date. */
  predicate LandsAs(l: Landing, row: Row, rep: Report, n: int, due: Date) {
    && l.amount == n && l.kind == CellText(row, "fob_type") && l.currency == CellText(row, "fob_currency")
    && (l.overdue <==> Before(due, rep.asOf)) && l.date == (if Before(due, rep.asOf) then rep.asOf else due)
    && Details(l.detail, row, n, rep.names)
  }

  /** A row adds one landing exactly when its cells make it count, and changes none of the others. */
  lemma CountedExactly(rows: seq<Row>, row: Row, rep: Report)
    requires Proper(rep)
    ensures Landings([], rep) == []
    ensures forall n, due :: IsCounted(row, rep, n, due) ==>
              exists l :: Landings(rows + [row], rep) == Landings(rows, rep) + [l] && LandsAs(l, row, rep, n, due)
    ensures (forall n, due :: !IsCounted(row, rep, n, due)) ==> Landings(rows + [row], rep) == Landings(rows, rep)
  {
    LandingsMore(rows, row, rep);
    forall n, due | IsCounted(row, rep, n, due) { OpenCounted(row, rep, n, due); }
    if Lands(row, rep) {
      var n := LandsCounted(row, rep);
    }
    hide IsCounted;
    hide LandsAs;
    hide Open;
    hide Lands;
  }

  lemma LandingsMore(rows: seq<Row>, row: Row, rep: Report)
    requires Proper(rep)
    ensures Landings(rows + [row], rep) == Landings(rows, rep) + if Lands(row, rep) then [Open(row, rep).value] else []
  {
    hide Open;
    hide Lands;
    assert (rows + [row])[..|rows|] == rows;
  }

  lemma OpenCounted(row: Row, rep: Report, n: int, due: Date)
    requires Proper(rep) && IsCounted(row, rep, n, due)
    ensures Lands(row, rep) && LandsAs(Open(row, rep).value, row, rep, n, due)
  {
    hide ParseInt;
    hide ParseDate;
    hide DesignationLabel;
    hide DesignationName;
  }

  lemma LandsCounted(row: Row, rep: Report) returns (n: int)
    requires Proper(rep) && Lands(row, rep)
    ensures exists due :: IsCounted(row, rep, n, due)
  {
    hide ParseInt;
    hide ParseDate;
    n := IntValue(At(row, "fob_amount_minor")).value;
    assert IsCounted(row, rep, n, ParseDate(CellText(row, "fob_due_date")).value);
  }

  // ---- both sides of an entry

  /** The amounts of one kind due in a currency on a date, overdue or not. */
  function DueOn(ls: seq<Landing>, kind: string, c: string, date: string, overdue: bool): int {
    if ls == [] then 0 else
      var l := ls[|ls| - 1];
      DueOn(ls[..|ls| - 1], kind, c, date, overdue)
      + if l.kind == kind && l.currency == c && FormatDate(l.date) == date && l.overdue == overdue then l.amount else 0
  }

  /** The amounts of one kind in a currency. */
  function DueIn(ls: seq<Landing>, kind: string, c: string): int {
    if ls == [] then 0 else
      DueIn(ls[..|ls| - 1], kind, c)
      + if ls[|ls| - 1].kind == kind && ls[|ls| - 1].currency == c then ls[|ls| - 1].amount else 0
  }

  lemma {:induction false} EventSums(ls: seq<Landing>, c: string, date: string, overdue: bool)
    requires |date| == 10
    ensures EventOf(ls, c, date + Suffix(overdue)).payable == DueOn(ls, "payable", c, date, overdue)
    ensures EventOf(ls, c, date + Suffix(overdue)).receivable == DueOn(ls, "receivable", c, date, overdue)
  {
    if ls != [] {
      EventSums(ls[..|ls| - 1], c, date, overdue);
      InBucket(ls[|ls| - 1], c, date, overdue);
      hide IsIn;
      hide FormatDate;
      hide Suffix;
    }
  }

  lemma InBucket(l: Landing, c: string, date: string, overdue: bool)
    requires |date| == 10
    ensures IsIn(l, c, date + Suffix(overdue)) <==>
            l.currency == c && FormatDate(l.date) == date && l.overdue == overdue
  {
    FormatLength(l.date);
    SplitOrder(FormatDate(l.date), Suffix(l.overdue), date, Suffix(overdue));
    SuffixOrder(l.overdue, overdue);
    hide FormatDate;
    hide Suffix;
    hide LexLess;
  }

  /** An entry pays the payables and receives the receivables due in its currency on its date, and nothing else. */
  lemma EntrySides(f: seq<ForecastEntry>, ls: seq<Landing>, opening: map<string, int>, j: nat)
    requires IsForecast(f, ls, opening) && j < |f|
    ensures f[j].payable == DueOn(ls, "payable", f[j].currency, f[j].dueDate, f[j].overdue)
    ensures f[j].receivable == DueOn(ls, "receivable", f[j].currency, f[j].dueDate, f[j].overdue)
    ensures f[j].net == f[j].receivable - f[j].payable
  {
    assert f[j] in f && IsEntry(f[j], ls, opening);
    BucketKey(ls, opening, f[j].currency, EntryKey(f[j]));
    EventSums(ls, f[j].currency, f[j].dueDate, f[j].overdue);
    hide EventOf;
    hide DueOn;
    hide HasBucket;
    hide NetUpTo;
    hide IsForecast;
  }

  lemma {:induction false} NetSides(ls: seq<Landing>, c: string)
    ensures NetAll(ls, c) == DueIn(ls, "receivable", c) - DueIn(ls, "payable", c)
  {
    if ls != [] { NetSides(ls[..|ls| - 1], c); }
  }

  /** The last balance shown of a currency: its opening balance where no entry is shown. */
  function LastBalance(f: seq<ForecastEntry>, c: string, start: int): int {
    if f == [] then start
    else if f[|f| - 1].currency == c then f[|f| - 1].projected
    else LastBalance(f[..|f| - 1], c, start)
  }

  lemma {:induction false} LastIndex(f: seq<ForecastEntry>, c: string, start: int) returns (j: int)
    ensures -1 <= j < |f| && forall i :: j < i < |f| ==> f[i].currency != c
    ensures if j == -1 then LastBalance(f, c, start) == start
            else f[j].currency == c && f[j].projected == LastBalance(f, c, start)
  {
    if f == [] {
      j := -1;
    } else if f[|f| - 1].currency == c {
      j := |f| - 1;
    } else {
      j := LastIndex(f[..|f| - 1], c, start);
    }
  }

  lemma {:induction false} NoneDue(ls: seq<Landing>, kind: string, c: string)
    requires forall i :: 0 <= i < |ls| ==> ls[i].currency != c
    ensures DueIn(ls, kind, c) == 0
  {
    if ls != [] {
      assert forall i :: 0 <= i < |ls| - 1 ==> ls[..|ls| - 1][i] == ls[i];
      NoneDue(ls[..|ls| - 1], kind, c);
    }
  }

  /** The last balance is the opening balance, plus all receivables, minus all payables of the currency. */
  lemma LastBalanceExactly(f: seq<ForecastEntry>, ls: seq<Landing>, opening: map<string, int>, c: string)
    requires IsForecast(f, ls, opening)
    ensures LastBalance(f, c, OpeningOf(opening, c)) ==
            OpeningOf(opening, c) + DueIn(ls, "receivable", c) - DueIn(ls, "payable", c)
  {
    var j := LastIndex(f, c, OpeningOf(opening, c));
    if j >= 0 {
      MoneyConserved(f, ls, opening, j);
      NetSides(ls, c);
    } else {
      forall i | 0 <= i < |ls| ensures ls[i].currency != c { LandsExactlyOnce(f, ls, opening, i); }
      NoneDue(ls, "receivable", c);
      NoneDue(ls, "payable", c);
    }
    hide *;
  }

  lemma DueMore(ls: seq<Landing>, l: Landing, kind: string, c: string)
    ensures DueIn(ls + [l], kind, c) == DueIn(ls, kind, c) + if l.kind == kind && l.currency == c then l.amount else 0
  {
    assert (ls + [l])[..|ls|] == ls;
  }

  /**
   One obligation row more: a payable that counts lowers the last balance of its currency by its
   amount, a receivable raises it, and no other balance moves.
   */
  lemma AddObligation(accountRows: seq<Row>, transactionRows: seq<Row>, rows: seq<Row>, row: Row, rep: Report,
                      n: int, due: Date, c: string,
                      o: seq<CurrencyOpening>, f: seq<ForecastEntry>, opening: map<string, int>, events: Events,
                      o': seq<CurrencyOpening>, g: seq<ForecastEntry>, opening': map<string, int>, events': Events)
    requires Proper(rep) && IsCounted(row, rep, n, due)
    requires Shows(o, f, opening, events, accountRows, transactionRows, rows, rep)
    requires Shows(o', g, opening', events', accountRows, transactionRows, rows + [row], rep)
    ensures var was, now := LastBalance(f, c, OpeningOf(opening, c)), LastBalance(g, c, OpeningOf(opening', c));
            now == if CellText(row, "fob_currency") != c then was
                   else if CellText(row, "fob_type") == "payable" then was - n
                   else was + n
  {
    OpeningUnique(opening, opening', accountRows, transactionRows, rep.asOf);
    CountedExactly(rows, row, rep);
    SideOf(row, rep, n, due);
    OneLanding(Landings(rows, rep), Landings(rows + [row], rep), row, rep, n, due, f, g, opening, c);
    hide *;
  }

  lemma OneLanding(ls: seq<Landing>, more: seq<Landing>, row: Row, rep: Report, n: int, due: Date,
                   f: seq<ForecastEntry>, g: seq<ForecastEntry>, opening: map<string, int>, c: string)
    requires exists l :: more == ls + [l] && LandsAs(l, row, rep, n, due)
    requires CellText(row, "fob_type") == "payable" || CellText(row, "fob_type") == "receivable"
    requires IsForecast(f, ls, opening) && IsForecast(g, more, opening)
    ensures var was, now := LastBalance(f, c, OpeningOf(opening, c)), LastBalance(g, c, OpeningOf(opening, c));
            now == if CellText(row, "fob_currency") != c then was
                   else if CellText(row, "fob_type") == "payable" then was - n
                   else was + n
  {
    hide *;
    var l :| more == ls + [l] && LandsAs(l, row, rep, n, due);
    LandedAs(l, row, rep, n, due);
    LastBalanceExactly(f, ls, opening, c);
    LastBalanceExactly(g, more, opening, c);
    DueMore(ls, l, "payable", c);
    DueMore(ls, l, "receivable", c);
    SidesDiffer();
  }

  lemma SidesDiffer()
    ensures "payable" != "receivable"
  {
  }

  lemma LandedAs(l: Landing, row: Row, rep: Report, n: int, due: Date)
    requires LandsAs(l, row, rep, n, due)
    ensures l.amount == n && l.kind == CellText(row, "fob_type") && l.currency == CellText(row, "fob_currency")
  {
  }

  lemma SideOf(row: Row, rep: Report, n: int, due: Date)
    requires IsCounted(row, rep, n, due)
    ensures CellText(row, "fob_type") == "payable" || CellText(row, "fob_type") == "receivable"
  {
  }

  /** A row that does not count leaves the forecast as it was. */
  lemma UncountedRow(accountRows: seq<Row>, transactionRows: seq<Row>, rows: seq<Row>, row: Row, rep: Report,
                     o: seq<CurrencyOpening>, f: seq<ForecastEntry>, opening: map<string, int>, events: Events,
                     o': seq<CurrencyOpening>, g: seq<ForecastEntry>, opening': map<string, int>, events': Events)
    requires Proper(rep) && forall n, due :: !IsCounted(row, rep, n, due)
    requires Shows(o, f, opening, events, accountRows, transactionRows, rows, rep)
    requires Shows(o', g, opening', events', accountRows, transactionRows, rows + [row], rep)
    ensures f == g
  {
    OpeningUnique(opening, opening', accountRows, transactionRows, rep.asOf);
    CountedExactly(rows, row, rep);
    ForecastUnique(f, g, Landings(rows, rep), opening);
    hide *;
  }

  // ---- opening lines

  /** A currency is named by an open row, of whatever kind. */
  lemma MentionLaw(row: Row, rep: Report, c: string)
    requires Proper(rep)
    ensures Mentions(row, rep, c) <==>
            CellText(row, "fob_currency") == c && exists n, due :: IsOpen(row, rep, n, due)
  {
    hide ParseInt;
    hide ParseDate;
    if Mentions(row, rep, c) {
      var n := IntValue(At(row, "fob_amount_minor")).value;
      assert IsOpen(row, rep, n, ParseDate(CellText(row, "fob_due_date")).value);
    }
  }

  ghost predicate Names(row: Row, rep: Report, c: string) {
    CellText(row, "fob_currency") == c && exists n, due :: IsOpen(row, rep, n, due)
  }

  ghost predicate Named(rows: seq<Row>, rep: Report, c: string) {
    exists i :: 0 <= i < |rows| && Names(rows[i], rep, c)
  }

  ghost predicate Held(accounts: map<int, Account>, c: string) {
    exists id :: id in accounts && accounts[id].currency == c
  }

  ghost predicate HasLine(o: seq<CurrencyOpening>, c: string) {
    exists i :: 0 <= i < |o| && o[i].currency == c
  }

  /** A currency has its line exactly when an account holds it or an open row names it. */
  lemma OpeningLines(accountRows: seq<Row>, transactions: seq<Row>, rows: seq<Row>, rep: Report, c: string,
                     o: seq<CurrencyOpening>, f: seq<ForecastEntry>, opening: map<string, int>, events: Events)
    requires Proper(rep)
    requires Shows(o, f, opening, events, accountRows, transactions, rows, rep)
    ensures HasLine(o, c) <==> Held(AccountsRead(accountRows), c) || Named(rows, rep, c)
    ensures forall i :: 0 <= i < |o| && o[i].currency == c ==>
              (o[i].hasAccount <==> Held(AccountsRead(accountRows), c)) && o[i].openingMinor == OpeningOf(opening, c)
  {
    HeldExactly(accountRows, transactions, rep.asOf, opening, c);
    NamedExactly(rows, rep, events, c);
    LinesExactly(o, opening, events, c);
    hide *;
  }

  lemma NamedExactly(rows: seq<Row>, rep: Report, events: Events, c: string)
    requires Proper(rep) && IsEvents(events, rows, rep)
    ensures c in events <==> Named(rows, rep, c)
  {
    forall i | 0 <= i < |rows| { MentionLaw(rows[i], rep, c); }
    assert c in events <==> Mentioned(rows, rep, c);
    hide Mentions;
    hide IsOpen;
    hide CellText;
    hide Landings;
    hide Expected;
    hide EventAt;
  }

  lemma LinesExactly(o: seq<CurrencyOpening>, opening: map<string, int>, events: Events, c: string)
    requires IsOpenings(o, opening, events)
    ensures HasLine(o, c) <==> c in opening || c in events
    ensures forall i :: 0 <= i < |o| && o[i].currency == c ==>
              (o[i].hasAccount <==> c in opening) && o[i].openingMinor == OpeningOf(opening, c)
  {
    hide OpeningOf;
    hide Sorting.Ascending;
    var line := CurrencyOpening(c, OpeningOf(opening, c), c in opening);
    assert line in o <==> c in opening || c in events;
    forall i | 0 <= i < |o| && o[i].currency == c ensures o[i] == line { assert o[i] in o; }
  }

  lemma HeldExactly(accountRows: seq<Row>, transactions: seq<Row>, asOf: Date, opening: map<string, int>, c: string)
    requires IsOpening(opening, accountRows, transactions, asOf)
    ensures c in opening <==> Held(AccountsRead(accountRows), c)
  {
    hide PostedIn;
    hide AccountCurrencies;
    CurrenciesRead(accountRows);
    hide AccountsRead;
    var currencies, accounts := AccountCurrencies(accountRows), AccountsRead(accountRows);
    if id :| id in accounts && accounts[id].currency == c {
      assert id in currencies && currencies[id] == c;
    }
  }

  lemma CurrenciesRead(rows: seq<Row>)
    ensures AccountCurrencies(rows).Keys == AccountsRead(rows).Keys
    ensures forall id :: id in AccountsRead(rows) ==> AccountCurrencies(rows)[id] == AccountsRead(rows)[id].currency
  {
    hide AccountsRead;
  }

  // ---- the order shown

  /** By currency, then by date, overdue before due. */
  lemma EntriesInOrder(f: seq<ForecastEntry>, ls: seq<Landing>, opening: map<string, int>, i: nat, j: nat)
    requires IsForecast(f, ls, opening) && i < j < |f|
    ensures f[i].currency == f[j].currency || LexLess(f[i].currency, f[j].currency)
    ensures f[i].currency == f[j].currency ==> f[i].dueDate == f[j].dueDate || LexLess(f[i].dueDate, f[j].dueDate)
    ensures f[i].currency == f[j].currency && f[i].dueDate == f[j].dueDate ==> f[i].overdue && !f[j].overdue
  {
    hide IsEntry;
    LexIrreflexive(f[i].currency);
    LexIrreflexive(f[i].dueDate);
    hide LexLess;
    assert EntryLess(f[i], f[j]);
  }

  /** Opening lines by currency, accounts by name and designations by code. */
  lemma ListsInOrder(o: seq<CurrencyOpening>, opening: map<string, int>, events: Events,
                     accountList: seq<AccountSummary>, accounts: map<int, Account>,
                     designations: seq<Designation>, rows: seq<Row>)
    requires IsOpenings(o, opening, events)
    requires IsAccountList(accountList, accounts) && IsDesignationList(designations, rows)
    ensures forall i, j :: 0 <= i < j < |o| ==> LexLess(o[i].currency, o[j].currency)
    ensures forall i, j :: 0 <= i < j < |accountList| ==> !LexLess(accountList[j].name, accountList[i].name)
    ensures forall i, j :: 0 <= i < j < |designations| ==> !LexLess(designations[j].code, designations[i].code)
  {
    hide LexLess;
    hide Occurs;
    assert forall i, j :: 0 <= i < j < |o| ==> OpeningLess(o[i], o[j]);
    assert forall i, j :: 0 <= i < j < |accountList| ==> !NameLess(accountList[j], accountList[i]);
    assert forall i, j :: 0 <= i < j < |designations| ==> !CodeLess(designations[j], designations[i]);
  }

  // ---- accounts and postings

  /** The account a row names, and what it says of it. */
  lemma AccountLaw(rows: seq<Row>, row: Row, id: int)
    ensures AccountsRead([]) == map[]
    ensures var was, now := AccountsRead(rows), AccountsRead(rows + [row]);
            if IntValue(At(row, "bnk_id")) == Some(id)
            then && id in now && now[id].name == CellText(row, "bnk_name")
                 && now[id].currency == CellText(row, "bnk_currency") && now[id].balance == 0
            else (id in now <==> id in was) && (id in now ==> now[id] == was[id])
  {
    hide IntValue;
    assert (rows + [row])[..|rows|] == rows;
  }

  /** The row posts n to the account: dated, and not after the day of the report. */
  predicate Posts(row: Row, asOf: Date, id: int, n: int) {
    && IntValue(At(row, "bnk_id")) == Some(id) && IntValue(At(row, "btx_amount_minor")) == Some(n)
    && ParseDate(CellText(row, "btx_date")).Some? && !Before(asOf, ParseDate(CellText(row, "btx_date")).value)
  }

  lemma PostingExactly(rows: seq<Row>, row: Row, asOf: Date)
    ensures forall id, n :: Posts(row, asOf, id, n) ==> Postings(rows + [row], asOf) == Postings(rows, asOf) + [(id, n)]
    ensures (forall id, n :: !Posts(row, asOf, id, n)) ==> Postings(rows + [row], asOf) == Postings(rows, asOf)
  {
    hide IntValue;
    hide ParseDate;
    assert (rows + [row])[..|rows|] == rows;
    if Posting(row, asOf).Some? {
      assert Posts(row, asOf, Posting(row, asOf).value.0, Posting(row, asOf).value.1);
    }
  }

  /** A posting raises the balance of its account by its amount; any other row leaves every balance alone. */
  lemma BalanceLaw(accountRows: seq<Row>, rows: seq<Row>, row: Row, asOf: Date, id: int)
    requires id in AccountsRead(accountRows)
    ensures FinalAccounts(accountRows, [], asOf)[id].balance == 0
    ensures var was := FinalAccounts(accountRows, rows, asOf)[id];
            var now := FinalAccounts(accountRows, rows + [row], asOf)[id];
            && now.name == was.name && now.currency == was.currency
            && (forall n :: Posts(row, asOf, id, n) ==> now.balance == was.balance + n)
            && ((forall n :: !Posts(row, asOf, id, n)) ==> now.balance == was.balance)
  {
    PostingExactly(rows, row, asOf);
    assert Postings([], asOf) == [];
    NothingTo(id);
    forall i, n { PostedMore(Postings(rows, asOf), (i, n), id); }
    hide Posts;
    hide Postings;
    hide PostedTo;
    hide AccountsRead;
  }

  lemma {:induction false} PostedInMore(ps: seq<(int, int)>, p: (int, int), currencies: map<int, string>, c: string)
    ensures PostedIn(ps + [p], currencies, currencies.Keys, c) ==
            PostedIn(ps, currencies, currencies.Keys, c)
            + if p.0 in currencies && currencies[p.0] == c then p.1 else 0
  {
    assert (ps + [p])[..|ps|] == ps;
  }

  /** One bank transaction more moves every balance of its account's currency by its amount, and no other. */
  lemma AddTransaction(accountRows: seq<Row>, transactions: seq<Row>, row: Row, rows: seq<Row>, rep: Report,
                       id: int, n: int, c: string,
                       o: seq<CurrencyOpening>, f: seq<ForecastEntry>, opening: map<string, int>, events: Events,
                       o': seq<CurrencyOpening>, g: seq<ForecastEntry>, opening': map<string, int>, events': Events)
    requires Proper(rep) && Posts(row, rep.asOf, id, n)
    requires Shows(o, f, opening, events, accountRows, transactions, rows, rep)
    requires Shows(o', g, opening', events', accountRows, transactions + [row], rows, rep)
    ensures var accounts := AccountsRead(accountRows);
            var moved := if id in accounts && accounts[id].currency == c then n else 0;
            && OpeningOf(opening', c) == OpeningOf(opening, c) + moved
            && LastBalance(g, c, OpeningOf(opening', c)) == LastBalance(f, c, OpeningOf(opening, c)) + moved
  {
    var ls := Landings(rows, rep);
    OpeningMore(accountRows, transactions, row, rep.asOf, id, n, c, opening, opening');
    LastBalanceExactly(f, ls, opening, c);
    LastBalanceExactly(g, ls, opening', c);
    hide *;
  }

  lemma OpeningMore(accountRows: seq<Row>, transactions: seq<Row>, row: Row, asOf: Date, id: int, n: int, c: string,
                    opening: map<string, int>, opening': map<string, int>)
    requires Posts(row, asOf, id, n)
    requires IsOpening(opening, accountRows, transactions, asOf)
    requires IsOpening(opening', accountRows, transactions + [row], asOf)
    ensures var accounts := AccountsRead(accountRows);
            OpeningOf(opening', c) ==
            OpeningOf(opening, c) + if id in accounts && accounts[id].currency == c then n else 0
  {
    PostingExactly(transactions, row, asOf);
    var currencies := AccountCurrencies(accountRows);
    PostedInMore(Postings(transactions, asOf), (id, n), currencies, c);
    hide Postings;
    hide PostedIn;
    hide Posts;
    hide AccountsRead;
    assert c in opening <==> c in opening';
    if c !in opening && id in currencies { assert currencies[id] != c; }
  }

  // ---- designations

  /** A designation row names its code, and is offered while its status is empty or Active. */
  lemma DesignationRow(rows: seq<Row>, row: Row)
    ensures DesignationNames([]) == map[] && DesignationsInUse([]) == []
    ensures var code, name := CellText(row, "dsg_code"), CellText(row, "dsg_name");
            && DesignationNames(rows + [row]) ==
               (if code == "" then DesignationNames(rows) else DesignationNames(rows)[code := name])
            && DesignationsInUse(rows + [row]) ==
               DesignationsInUse(rows)
               + (if code != "" && (CellText(row, "dsg_status") == "" || CellText(row, "dsg_status") == "Active")
                  then [Designation(code, name)] else [])
  {
    assert (rows + [row])[..|rows|] == rows;
  }
}
