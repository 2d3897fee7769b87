/**
 Which obligations a cash forecast counts, in which bucket each lands, and what a bucket and
 the balance up to it amount to.
 */
module Obligations {
  import opened Wrappers
  import opened Text
  import opened Sql
  import opened Calendar

  function StringValue(c: Cell): string {
    if c.Txt? then c.s else ""
  }

  /** intValue: a whole number, or text that parses as one. */
  function IntValue(c: Cell): Option<int> {
    match c
    case Null => None
    case Num(n, _) => if n.Floor as real == n then Some(n.Floor) else None
    case Txt(s) => ParseInt(s)
  }

  /** valueOrZero: a fraction is cut off, anything that is no number counts as zero. */
  function ValueOrZero(c: Cell): int {
    match c
    case Null => 0
    case Num(n, _) => if n >= 0.0 then n.Floor else -((-n).Floor)
    case Txt(s) => if ParseInt(s).Some? then ParseInt(s).value else 0
  }

  /** The dates of a report and the names of designation codes. */
  datatype Report = Report(asOf: Date, through: Date, names: map<string, string>)

  predicate Proper(rep: Report) {
    Valid(rep.asOf) && 0 <= rep.asOf.year <= 9999 && Valid(rep.through)
  }

  /** reportDates: both dates are optional, the report runs ninety days by default. */
  function ReportDates(today: Date, rawAsOf: string, rawThrough: string): (r: Result<(Date, Date), string>)
    requires Valid(today)
    ensures r.Ok? ==> Valid(r.value.0) && Valid(r.value.1) && !Before(r.value.1, r.value.0)
  {
    var asOf := if rawAsOf == "" then Some(today) else ParseDate(rawAsOf);
    if asOf.None? then Err("as_of must use YYYY-MM-DD") else
      var through := if rawThrough == "" then Some(AddDays(asOf.value, 90)) else ParseDate(rawThrough);
      if through.None? then Err("through must use YYYY-MM-DD")
      else if Before(through.value, asOf.value) then Err("through must be on or after as_of")
      else Ok((asOf.value, through.value))
  }

  /** d is the four-digit-year date that s writes. */
  predicate IsWritten(d: Date, s: string) {
    Valid(d) && 0 <= d.year <= 9999 && FormatDate(d) == s
  }

  /** A report from a to t is what the caller asks for: today and ninety days on where nothing is said. */
  predicate Asked(today: Date, rawAsOf: string, rawThrough: string, a: Date, t: Date)
    requires Valid(today)
  {
    && (if rawAsOf == "" then a == today else IsWritten(a, rawAsOf))
    && (if rawThrough == "" then Valid(t) && DayNumber(t) == DayNumber(a) + 90 else IsWritten(t, rawThrough))
    && !Before(t, a)
  }

  /** The report covers dates the caller asks for, and is refused only when there are none. */
  lemma ReportDatesExactly(today: Date, rawAsOf: string, rawThrough: string)
    requires Valid(today)
    ensures var r := ReportDates(today, rawAsOf, rawThrough);
            && (r.Ok? ==> Asked(today, rawAsOf, rawThrough, r.value.0, r.value.1))
            && (r.Err? ==> forall a, t :: !Asked(today, rawAsOf, rawThrough, a, t))
            && (r.Ok? && rawAsOf == "" ==> r.value.0 == today)
            && (r.Ok? && rawAsOf != "" ==> FormatDate(r.value.0) == rawAsOf)
            && (r.Ok? && rawThrough == "" ==> DayNumber(r.value.1) == DayNumber(r.value.0) + 90)
            && (r.Ok? && rawThrough != "" ==> FormatDate(r.value.1) == rawThrough)
  {
    hide FormatDate;
    hide ParseDate;
    hide DayNumber;
    WrittenParses(rawAsOf);
    WrittenParses(rawThrough);
    var asOf := if rawAsOf == "" then Some(today) else ParseDate(rawAsOf);
    if asOf.Some? {
      AddDaysNumber(asOf.value, 90);
    }
    hide AddDays;
  }

  lemma WrittenParses(s: string)
    ensures forall d :: IsWritten(d, s) <==> ParseDate(s) == Some(d)
  {
    forall d | IsWritten(d, s) ensures ParseDate(s) == Some(d) {
      ParseFormat(d);
    }
    if ParseDate(s).Some? {
      FormatParse(s);
    }
    hide ParseDate;
    hide FormatDate;
  }

  /** designationLabel. */
  function DesignationLabel(code: string, names: map<string, string>): string {
    if code == "" then ""
    else if code in names && names[code] != "" then code + " - " + names[code]
    else code
  }

  function DesignationName(code: string, names: map<string, string>): string {
    if code in names && names[code] != "" then names[code] else code
  }

  datatype Detail = Detail(id: int, title: string, counterparty: string, source: string, dueDate: string, kind: string,
                           status: string, amountMinor: int, designation: string, designationName: string)

  function DetailOf(row: Row, amount: int, names: map<string, string>): Detail {
    var code := StringValue(At(row, "fob_designation_code"));
    Detail(ValueOrZero(At(row, "fob_id")), StringValue(At(row, "fob_label")), StringValue(At(row, "fob_counterparty")),
           StringValue(At(row, "fob_source_type")), StringValue(At(row, "fob_due_date")),
           StringValue(At(row, "fob_type")), StringValue(At(row, "fob_status")), amount,
           DesignationLabel(code, names), DesignationName(code, names))
  }

  // ---- where an obligation lands

  /** An open obligation with its forecast date: its due date, or the report date if that has passed. */
  datatype AnyLanding = Landing(currency: string, date: Date, overdue: bool, kind: string, amount: int, detail: Detail)

  /** The dates that can be written, and positive amounts. */
  type Landing = l: AnyLanding | Valid(l.date) && 0 <= l.date.year <= 9999 && l.amount > 0
    witness AnyLanding.Landing("", Date(0, 1, 1), false, "", 1, Detail(0, "", "", "", "", "", "", 0, "", ""))

  function Open(row: Row, rep: Report): Option<Landing>
    requires Proper(rep)
  {
    var status := StringValue(At(row, "fob_status"));
    if status == "paid" || status == "cancelled" then None else
      var amount := IntValue(At(row, "fob_amount_minor"));
      var currency := StringValue(At(row, "fob_currency"));
      var due := ParseDate(StringValue(At(row, "fob_due_date")));
      if amount.None? || amount.value <= 0 || currency == "" || due.None? then None else
        var overdue := Before(due.value, rep.asOf);
        Some(AnyLanding.Landing(currency, if overdue then rep.asOf else due.value, overdue,
                                StringValue(At(row, "fob_type")), amount.value,
                                DetailOf(row, amount.value, rep.names)))
  }

  /** The forecast date is inside the report. */
  predicate InWindow(l: Landing, rep: Report) {
    !Before(rep.through, l.date)
  }

  predicate Counts(l: Landing) {
    l.kind == "payable" || l.kind == "receivable"
  }

  /** The row is in the window and payable or receivable. */
  predicate Lands(row: Row, rep: Report)
    requires Proper(rep)
  {
    var l := Open(row, rep);
    l.Some? && InWindow(l.value, rep) && Counts(l.value)
  }

  /** The obligations a forecast counts, in row order. */
  function Landings(rows: seq<Row>, rep: Report): seq<Landing>
    requires Proper(rep)
  {
    if rows == [] then [] else
      var last := rows[|rows| - 1];
      Landings(rows[..|rows| - 1], rep) + if Lands(last, rep) then [Open(last, rep).value] else []
  }

  /** The bucket key of a date: overdue obligations come before those due on the day. */
  function Key(date: Date, overdue: bool): string
    requires Valid(date) && date.year >= 0
  {
    FormatDate(date) + Suffix(overdue)
  }

  function Suffix(overdue: bool): string {
    if overdue then "|0" else "|1"
  }

  function KeyOf(l: Landing): string {
    Key(l.date, l.overdue)
  }

  lemma SuffixOrder(oa: bool, ob: bool)
    ensures LexLess(Suffix(oa), Suffix(ob)) <==> oa && !ob
    ensures Suffix(oa) == Suffix(ob) <==> oa == ob
  {
    var u, v := if oa then "0" else "1", if ob then "0" else "1";
    assert Suffix(oa) == "|" + u && Suffix(ob) == "|" + v;
    assert Suffix(oa)[1] == u[0] && Suffix(ob)[1] == v[0];
    assert u[1..] == "" && v[1..] == "";
    LexAppend("|", u, v);
  }

  lemma SplitOrder(x: string, p: string, y: string, q: string)
    requires |x| == |y|
    ensures LexLess(x + p, y + q) <==> if x != y then LexLess(x, y) else LexLess(p, q)
    ensures x + p == y + q <==> x == y && p == q
  {
    assert (x + p)[..|x|] == x && (y + q)[..|x|] == y;
    assert (x + p)[|x|..] == p && (y + q)[|x|..] == q;
    if x != y { LexFront(x, y, p, q); } else { LexAppend(x, p, q); }
    hide LexLess;
  }

  /** Keys compare as texts exactly as their dates do, the overdue bucket first. */
  lemma KeyOrder(a: Date, oa: bool, b: Date, ob: bool)
    requires Valid(a) && Valid(b) && 0 <= a.year <= 9999 && 0 <= b.year <= 9999
    ensures LexLess(Key(a, oa), Key(b, ob)) <==> Before(a, b) || (a == b && oa && !ob)
    ensures Key(a, oa) == Key(b, ob) <==> a == b && oa == ob
  {
    hide LexLess;
    TextOrder(a, b);
    FormatLength(a);
    FormatLength(b);
    SuffixOrder(oa, ob);
    hide FormatDate;
    hide Suffix;
    SplitOrder(FormatDate(a), Suffix(oa), FormatDate(b), Suffix(ob));
  }

  lemma FormatLength(d: Date)
    requires Valid(d) && 0 <= d.year <= 9999
    ensures |FormatDate(d)| == 10
  {
    DateLengths(d);
  }

  // ---- buckets

  datatype Event = Event(date: string, overdue: bool, payable: int, receivable: int, details: seq<Detail>)

  const NO_EVENT: Event := Event("", false, 0, 0, [])

  function Payable(l: Landing): int { if l.kind == "payable" then l.amount else 0 }
  function Receivable(l: Landing): int { if l.kind == "receivable" then l.amount else 0 }
  function Net(l: Landing): int { Receivable(l) - Payable(l) }

  predicate IsIn(l: Landing, c: string, key: string) {
    l.currency == c && KeyOf(l) == key
  }

  function AddTo(e: Event, l: Landing): Event {
    Event(FormatDate(l.date), l.overdue, e.payable + Payable(l), e.receivable + Receivable(l), e.details + [l.detail])
  }

  /** What the obligations of one bucket add up to, their details in row order. */
  function EventOf(ls: seq<Landing>, c: string, key: string): Event {
    if ls == [] then NO_EVENT else
      var e, last := EventOf(ls[..|ls| - 1], c, key), ls[|ls| - 1];
      if IsIn(last, c, key) then AddTo(e, last) else e
  }

  ghost predicate HasBucket(ls: seq<Landing>, c: string, key: string) {
    exists i :: 0 <= i < |ls| && IsIn(ls[i], c, key)
  }

  /** All receivables minus all payables of a currency whose bucket is not after `key`. */
  function NetUpTo(ls: seq<Landing>, c: string, key: string): int {
    if ls == [] then 0 else
      var n, last := NetUpTo(ls[..|ls| - 1], c, key), ls[|ls| - 1];
      if last.currency == c && !LexLess(key, KeyOf(last)) then n + Net(last) else n
  }

  /** All receivables minus all payables of a currency. */
  function NetAll(ls: seq<Landing>, c: string): int {
    if ls == [] then 0 else
      NetAll(ls[..|ls| - 1], c) + if ls[|ls| - 1].currency == c then Net(ls[|ls| - 1]) else 0
  }

  lemma {:induction false} NoBucketNoEvent(ls: seq<Landing>, c: string, key: string)
    requires !HasBucket(ls, c, key)
    ensures EventOf(ls, c, key) == NO_EVENT
  {
    hide KeyOf;
    if ls != [] {
      var front := ls[..|ls| - 1];
      assert forall i :: 0 <= i < |front| ==> front[i] == ls[i];
      NoBucketNoEvent(front, c, key);
    }
  }

  /** The last obligation of a bucket. */
  ghost function LastIn(ls: seq<Landing>, c: string, key: string): (i: int)
    requires HasBucket(ls, c, key)
    ensures 0 <= i < |ls| && IsIn(ls[i], c, key)
  {
    if IsIn(ls[|ls| - 1], c, key) then |ls| - 1 else
      EarlierBucket(ls, c, key);
      LastIn(ls[..|ls| - 1], c, key)
  }

  lemma EarlierBucket(ls: seq<Landing>, c: string, key: string)
    requires HasBucket(ls, c, key) && !IsIn(ls[|ls| - 1], c, key)
    ensures HasBucket(ls[..|ls| - 1], c, key)
  {
    hide IsIn;
    var i :| 0 <= i < |ls| && IsIn(ls[i], c, key);
    assert ls[..|ls| - 1][i] == ls[i];
  }

  /** A bucket carries the date and the overdue flag its key was made of. */
  lemma {:induction false} BucketDate(ls: seq<Landing>, c: string, key: string)
    requires HasBucket(ls, c, key)
    ensures var e, l := EventOf(ls, c, key), ls[LastIn(ls, c, key)];
            e.date == FormatDate(l.date) && e.overdue == l.overdue
  {
    hide KeyOf;
    hide FormatDate;
    if !IsIn(ls[|ls| - 1], c, key) {
      EarlierBucket(ls, c, key);
      BucketDate(ls[..|ls| - 1], c, key);
    }
  }

  /** From one bucket to the next the balance moves by exactly what the next bucket holds. */
  lemma {:induction false} NetStep(ls: seq<Landing>, c: string, low: string, key: string)
    requires LexLess(low, key)
    requires forall i :: 0 <= i < |ls| && ls[i].currency == c ==>
               !LexLess(low, KeyOf(ls[i])) || KeyOf(ls[i]) == key || LexLess(key, KeyOf(ls[i]))
    ensures var e := EventOf(ls, c, key); NetUpTo(ls, c, key) == NetUpTo(ls, c, low) + e.receivable - e.payable
  {
    hide KeyOf;
    if ls != [] {
      var front, last := ls[..|ls| - 1], ls[|ls| - 1];
      assert forall i :: 0 <= i < |front| ==> front[i] == ls[i];
      NetStep(front, c, low, key);
      if last.currency == c {
        KeyBetween(low, key, KeyOf(last));
      }
    }
  }

  lemma KeyBetween(low: string, key: string, k: string)
    requires LexLess(low, key) && (!LexLess(low, k) || k == key || LexLess(key, k))
    ensures !LexLess(key, k) <==> !LexLess(low, k) || k == key
    ensures k == key ==> LexLess(low, k)
  {
    LexIrreflexive(key);
    if LexLess(key, k) { LexTransitive(low, key, k); }
  }

  /** At the first bucket the balance has moved by just that bucket. */
  lemma {:induction false} NetFirst(ls: seq<Landing>, c: string, key: string)
    requires forall i :: 0 <= i < |ls| && ls[i].currency == c ==> KeyOf(ls[i]) == key || LexLess(key, KeyOf(ls[i]))
    ensures var e := EventOf(ls, c, key); NetUpTo(ls, c, key) == e.receivable - e.payable
  {
    hide KeyOf;
    if ls != [] {
      var front := ls[..|ls| - 1];
      assert forall i :: 0 <= i < |front| ==> front[i] == ls[i];
      NetFirst(front, c, key);
      LexIrreflexive(key);
    }
  }

  /** Once no bucket is later, everything has moved. */
  lemma {:induction false} NetLast(ls: seq<Landing>, c: string, key: string)
    requires forall i :: 0 <= i < |ls| && ls[i].currency == c ==> !LexLess(key, KeyOf(ls[i]))
    ensures NetUpTo(ls, c, key) == NetAll(ls, c)
  {
    hide KeyOf;
    if ls != [] {
      var front := ls[..|ls| - 1];
      assert forall i :: 0 <= i < |front| ==> front[i] == ls[i];
      NetLast(front, c, key);
    }
  }
}
