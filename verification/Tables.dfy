/**
 The purchasing tables. A row is a record of its modelled columns, a nullable column is an
 Option, and `note` stands for the remaining editable columns of a row.
 */
module Tables {
  import opened Wrappers
  import opened Text

  datatype Order = Order(docNumber: string, status: Option<string>, payment: Option<string>,
                         currency: Option<string>, totalMinor: Option<int>, note: Option<string>)

  datatype Line = Line(por: int, qty: Option<real>, price: Option<real>, received: Option<real>,
                       currency: Option<string>, note: Option<string>)

  datatype User = User(limitMinor: Option<int>, note: Option<string>)

  datatype HistoryRow = HistoryRow(order: int, previous: Option<string>, status: string,
                                   payment: Option<string>, user: Option<int>, note: Option<string>)

  /** The database. The `next` counters are the AUTOINCREMENT sequences: ids are never reused. */
  datatype Db = Db(orders: map<int, Order>, lines: map<int, Line>, users: map<int, User>,
                   history: seq<HistoryRow>, nextOrder: int, nextLine: int, nextUser: int)

  /** What a caller supplies for one column: nothing, NULL or a value. */
  datatype Write<+T> = Absent | SetNull | Set(value: T)

  datatype OrderValues = OrderValues(docNumber: Write<string>, status: Write<string>, payment: Write<string>,
                                     currency: Write<string>, totalMinor: Write<int>, note: Write<string>)

  datatype LineValues = LineValues(por: Write<int>, qty: Write<real>, price: Write<real>,
                                   received: Write<real>, currency: Write<string>, note: Write<string>)

  datatype UserValues = UserValues(limitMinor: Write<int>, note: Write<string>)

  datatype Values = ToOrder(o: OrderValues) | ToLine(l: LineValues) | ToUser(u: UserValues)

  datatype Table = PurchaseOrders | PoComponents | Users

  const NO_ORDER: Order := Order("", None, None, None, None, None)
  const NO_LINE: Line := Line(0, None, None, None, None, None)
  const NO_USER: User := User(None, None)

  function Assign<T>(v: Option<T>, w: Write<T>): Option<T> {
    match w
    case Absent => v
    case SetNull => None
    case Set(x) => Some(x)
  }

  /** The columns InsertableColumns lets through; por_total_minor is not editable. */
  predicate WritesOrder(v: OrderValues) {
    !v.docNumber.Absent? || !v.status.Absent? || !v.payment.Absent? || !v.currency.Absent? || !v.note.Absent?
  }

  predicate WritesLine(v: LineValues) {
    || !v.por.Absent? || !v.qty.Absent? || !v.price.Absent? || !v.received.Absent?
    || !v.currency.Absent? || !v.note.Absent?
  }

  predicate WritesUser(v: UserValues) {
    !v.limitMinor.Absent? || !v.note.Absent?
  }

  function AssignOrder(o: Order, v: OrderValues): Order {
    o.(docNumber := if v.docNumber.Set? then v.docNumber.value else o.docNumber,
       status := Assign(o.status, v.status), payment := Assign(o.payment, v.payment),
       currency := Assign(o.currency, v.currency), note := Assign(o.note, v.note))
  }

  function AssignLine(l: Line, v: LineValues): Line {
    Line(if v.por.Set? then v.por.value else l.por, Assign(l.qty, v.qty), Assign(l.price, v.price),
         Assign(l.received, v.received), Assign(l.currency, v.currency), Assign(l.note, v.note))
  }

  function AssignUser(u: User, v: UserValues): User {
    User(Assign(u.limitMinor, v.limitMinor), Assign(u.note, v.note))
  }

  // ---- nullable text

  /** sql.NullString read as a string: NULL is the empty string. */
  function Str(v: Option<string>): string {
    if v.Some? then v.value else ""
  }

  /** nullableText: blank text is stored as NULL. */
  function NullableText(s: string): (r: Option<string>)
    ensures r.None? <==> Blank(s)
    ensures r.Some? ==> r.value == s
    ensures Trim(Str(r)) == Trim(s)
  {
    if Blank(s) then None else Some(s)
  }

  /** nullableString, the same for a value that may already be NULL. */
  function NullableString(v: Option<string>): Option<string> {
    if v.None? || Blank(v.value) then None else v
  }

  // ---- status vocabulary

  const APPROVED := "approved"
  const REJECTED := "rejected"
  const DRAFT := "draft"
  const PENDING := "pending_approval"
  const PARTIAL := "partially_received"
  const RECEIVED := "received"
  const DERIVED_NOTE := "derived from line receipts"

  const PO_STATUSES: seq<string> :=
    [DRAFT, PENDING, APPROVED, REJECTED, "issued", "confirmed", PARTIAL, RECEIVED,
     "invoiced", "closed", "on_hold", "pending_revision", "cancelled"]
  const PAYMENT_STATUSES: seq<string> := ["unpaid", "partially_paid", "paid", "refunded"]

  predicate Decided(s: string) {
    s == APPROVED || s == REJECTED
  }

  predicate Fulfilling(s: string) {
    s == "issued" || s == "confirmed" || s == PARTIAL || s == RECEIVED
  }

  /** The statuses from which an order can be decided. */
  predicate Undecided(s: string) {
    s == "" || s == DRAFT || s == PENDING
  }

  /** What purchaseOrderSnapshot reads. */
  datatype Snap = Snap(status: string, payment: string)

  function SnapOf(o: Order): Snap {
    Snap(Str(o.status), Str(o.payment))
  }

  /** What the history can show of an order: blank and NULL payment tags look alike. */
  function Visible(o: Order): (string, Option<string>) {
    (Str(o.status), NullableText(Str(o.payment)))
  }
}
