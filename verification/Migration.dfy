/**
 The startup rewriting of purchase-order statuses from before the lifecycle. It runs as a list
 of UPDATE statements; together they act on every order like one simultaneous mapping.
 */
module Migration {
  import opened Wrappers
  import opened Tables

  datatype Rename = Rename(source: string, target: string)

  const RENAMES: seq<Rename> := [
    Rename("sent", "issued"), Rename("prepared", "confirmed"), Rename("shipped", "confirmed"),
    Rename("delivered", RECEIVED), Rename("paid", "closed"), Rename("complete", "closed"),
    Rename("inactive", "cancelled")]

  predicate Legacy(s: string) {
    exists i :: 0 <= i < |RENAMES| && RENAMES[i].source == s
  }

  /** UPDATE purchase_orders SET por_status = new WHERE por_status = old, for one order. */
  function RenameStatus(o: Order, r: Rename): Order {
    if o.status == Some(r.source) then o.(status := Some(r.target)) else o
  }

  function TagPaid(o: Order): Order {
    if o.status == Some("paid") then o.(payment := Some("paid")) else o
  }

  /** SQL's TRIM removes spaces only. */
  function SqlTrimLeft(s: string): string {
    if s != "" && s[0] == ' ' then SqlTrimLeft(s[1..]) else s
  }

  predicate SqlBlank(v: Option<string>) {
    v.None? || SqlTrimLeft(v.value) == ""
  }

  function DefaultPayment(o: Order): Order {
    if SqlBlank(o.payment) then o.(payment := Some("unpaid")) else o
  }

  function RenameAll(o: Order, rs: seq<Rename>): Order
    decreases |rs|
  {
    if rs == [] then o else RenameAll(RenameStatus(o, rs[0]), rs[1..])
  }

  /** The statements of migratePOStatuses, with the renames in the order of `rs`. */
  function MigrateInOrder(o: Order, rs: seq<Rename>): Order {
    DefaultPayment(RenameAll(TagPaid(o), rs))
  }

  function NewStatus(s: string): string {
    match s
    case "sent" => "issued"
    case "prepared" => "confirmed"
    case "shipped" => "confirmed"
    case "delivered" => RECEIVED
    case "paid" => "closed"
    case "complete" => "closed"
    case "inactive" => "cancelled"
    case _ => s
  }

  /** The migration as one mapping: a paid order becomes closed and tagged paid, a blank tag unpaid. */
  function Migrated(o: Order): Order {
    o.(status := if o.status.Some? then Some(NewStatus(o.status.value)) else None,
       payment := if o.status == Some("paid") then Some("paid")
                  else if SqlBlank(o.payment) then Some("unpaid") else o.payment)
  }

  ghost predicate SameRenames(rs: seq<Rename>) {
    forall r :: r in rs <==> r in RENAMES
  }

  lemma RenameFacts(r: Rename)
    requires r in RENAMES
    ensures NewStatus(r.source) == r.target && NewStatus(r.target) == r.target && r.source != r.target
    ensures !Legacy(r.target)
  {
    var i :| 0 <= i < |RENAMES| && RENAMES[i] == r;
    assert |RENAMES| == 7;
    assert i == 0 || i == 1 || i == 2 || i == 3 || i == 4 || i == 5 || i == 6;
  }

  lemma LegacyFacts(s: string)
    ensures Legacy(s) <==> NewStatus(s) != s
    ensures Legacy(s) ==> Rename(s, NewStatus(s)) in RENAMES
    ensures !Legacy(NewStatus(s))
  {
    assert |RENAMES| == 7;
    assert RENAMES[0].source == "sent" && RENAMES[1].source == "prepared" && RENAMES[2].source == "shipped";
    assert RENAMES[3].source == "delivered" && RENAMES[4].source == "paid" && RENAMES[5].source == "complete";
    assert RENAMES[6].source == "inactive";
    if Legacy(s) {
      var i :| 0 <= i < |RENAMES| && RENAMES[i].source == s;
      RenameFacts(RENAMES[i]);
    }
  }

  /** Each rename statement moves a status at most once, to a status no later one moves. */
  lemma {:induction false} RenameAllEffect(o: Order, rs: seq<Rename>)
    requires forall r :: r in rs ==> r in RENAMES
    ensures o.status.None? ==> RenameAll(o, rs) == o
    ensures o.status.Some? && Rename(o.status.value, NewStatus(o.status.value)) in rs
            ==> RenameAll(o, rs) == o.(status := Some(NewStatus(o.status.value)))
    ensures o.status.Some? && (forall r :: r in rs ==> r.source != o.status.value) ==> RenameAll(o, rs) == o
    decreases |rs|
  {
    if rs != [] {
      var next := RenameStatus(o, rs[0]);
      RenameFacts(rs[0]);
      RenameAllEffect(next, rs[1..]);
      if next != o {
        forall r | r in rs[1..] ensures r.source != rs[0].target {
          assert r in rs;
          RenameFacts(r);
        }
      }
    }
  }

  /** Whatever the order of the renames, the statements equal the simultaneous mapping. */
  lemma MigrationIsSimultaneous(o: Order, rs: seq<Rename>)
    requires SameRenames(rs)
    ensures MigrateInOrder(o, rs) == Migrated(o)
  {
    var tagged := TagPaid(o);
    RenameAllEffect(tagged, rs);
    if o.status.Some? {
      LegacyFacts(o.status.value);
      if !Legacy(o.status.value) {
        forall r | r in rs ensures r.source != o.status.value {
          var i :| 0 <= i < |RENAMES| && RENAMES[i] == r;
        }
      }
    }
  }

  /** Afterwards no legacy status and no blank payment tag is left, and a second run changes nothing. */
  lemma MigrationSettles(o: Order)
    ensures Migrated(o).status.Some? ==> !Legacy(Migrated(o).status.value)
    ensures !SqlBlank(Migrated(o).payment)
    ensures Migrated(Migrated(o)) == Migrated(o)
    ensures Decided(Str(Migrated(o).status)) <==> Decided(Str(o.status))
  {
    if o.status.Some? {
      LegacyFacts(o.status.value);
      LegacyFacts(NewStatus(o.status.value));
    }
  }

  lemma {:induction false} SpacesOnly(s: string)
    ensures SqlBlank(Some(s)) <==> forall i :: 0 <= i < |s| ==> s[i] == ' '
  {
    if s != "" {
      SpacesOnly(s[1..]);
      assert forall i :: 0 < i < |s| ==> s[i] == s[1..][i - 1];
    }
  }

  /** The new status of every old one, the tag of a paid order, and the default tag. */
  lemma MigrationLaw(o: Order)
    ensures var n, tag := Migrated(o), Str(o.payment);
            && (n.status == if o.status == Some("sent") then Some("issued")
                            else if o.status == Some("prepared") || o.status == Some("shipped") then Some("confirmed")
                            else if o.status == Some("delivered") then Some("received")
                            else if o.status == Some("paid") || o.status == Some("complete") then Some("closed")
                            else if o.status == Some("inactive") then Some("cancelled")
                            else o.status)
            && (n.payment == if o.status == Some("paid") then Some("paid")
                             else if forall i :: 0 <= i < |tag| ==> tag[i] == ' ' then Some("unpaid")
                             else o.payment)
            && n.docNumber == o.docNumber && n.currency == o.currency
            && n.totalMinor == o.totalMinor && n.note == o.note
  {
    if o.payment.Some? {
      SpacesOnly(o.payment.value);
    }
    hide SqlBlank;
  }
}
