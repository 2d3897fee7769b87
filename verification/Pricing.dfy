/** Totals over the lines of an order, in exact arithmetic. */
module Pricing {
  import opened Wrappers
  import opened Text
  import opened Tables

  function OrZero(v: Option<real>): real {
    if v.Some? then v.value else 0.0
  }

  function Cost(l: Line): real { OrZero(l.qty) * OrZero(l.price) }
  function Qty(l: Line): real { OrZero(l.qty) }
  function Received(l: Line): real { OrZero(l.received) }

  function Share(l: Line, por: int, amount: Line -> real): real {
    if l.por == por then amount(l) else 0.0
  }

  /** SELECT SUM(amount) FROM po_components WHERE por_id = por. */
  ghost function SumOf(lines: map<int, Line>, por: int, amount: Line -> real): real {
    if lines.Keys == {} then 0.0 else
      SomeId(lines.Keys);
      var k :| k in lines.Keys;
      Share(lines[k], por, amount) + SumOf(lines - {k}, por, amount)
  }

  /** The sum does not depend on which row is taken first. */
  lemma {:induction false} SumTake(lines: map<int, Line>, k: int, por: int, amount: Line -> real)
    requires k in lines
    ensures SumOf(lines, por, amount) == Share(lines[k], por, amount) + SumOf(lines - {k}, por, amount)
  {
    var c :| c in lines && SumOf(lines, por, amount) == Share(lines[c], por, amount) + SumOf(lines - {c}, por, amount);
    if c != k {
      SumTake(lines - {c}, k, por, amount);
      SumTake(lines - {k}, c, por, amount);
      assert lines - {c} - {k} == lines - {k} - {c};
    }
  }

  /** The same total added up along one reading order of the rows. */
  function SumAlong(lines: map<int, Line>, ids: seq<int>, por: int, amount: Line -> real): real
    requires forall i :: 0 <= i < |ids| ==> ids[i] in lines
  {
    if ids == [] then 0.0 else Share(lines[ids[0]], por, amount) + SumAlong(lines, ids[1..], por, amount)
  }

  /** Reading the lines in any order gives the same total. */
  lemma {:induction false} LineOrderIrrelevant(lines: map<int, Line>, ids: seq<int>, por: int, amount: Line -> real)
    requires forall k :: k in lines <==> k in ids
    requires forall i, j :: 0 <= i < j < |ids| ==> ids[i] != ids[j]
    ensures SumAlong(lines, ids, por, amount) == SumOf(lines, por, amount)
  {
    if ids == [] {
      assert forall k: int :: k !in lines.Keys;
      assert lines.Keys == {};
    } else {
      var k, rest := ids[0], lines - {ids[0]};
      forall j ensures j in rest <==> j in ids[1..] {
        assert j in ids <==> j == k || j in ids[1..];
      }
      LineOrderIrrelevant(rest, ids[1..], por, amount);
      SumAlongRestrict(lines, k, ids[1..], por, amount);
      SumTake(lines, k, por, amount);
    }
  }

  lemma {:induction false} SumAlongRestrict(lines: map<int, Line>, k: int, ids: seq<int>, por: int,
                                            amount: Line -> real)
    requires k !in ids && forall i :: 0 <= i < |ids| ==> ids[i] in lines
    ensures SumAlong(lines, ids, por, amount) == SumAlong(lines - {k}, ids, por, amount)
  {
    if ids != [] {
      SumAlongRestrict(lines, k, ids[1..], por, amount);
    }
  }

  /** Lines of other orders do not count. */
  lemma {:induction false} SumOther(lines: map<int, Line>, por: int, amount: Line -> real)
    requires forall k :: k in lines ==> lines[k].por != por
    ensures SumOf(lines, por, amount) == 0.0
  {
    if lines.Keys != {} {
      SomeId(lines.Keys);
      var k :| k in lines.Keys;
      SumTake(lines, k, por, amount);
      SumOther(lines - {k}, por, amount);
    }
  }

  ghost function LineCurrencies(lines: map<int, Line>, por: int): set<string> {
    set k | k in lines && lines[k].por == por && lines[k].currency.Some? :: lines[k].currency.value
  }

  /** SELECT MIN(poc_currency), which skips NULL. */
  ghost function LeastCurrency(lines: map<int, Line>, por: int): Option<string> {
    LeastOf(LineCurrencies(lines, por))
  }

  /** math.Round: to the nearest integer, halves away from zero. */
  function Round(x: real): int {
    if x >= 0.0 then (x + 0.5).Floor else -((-x + 0.5).Floor)
  }

  /** The exact price of an order in minor units. */
  ghost function ExactMinor(lines: map<int, Line>, por: int): real {
    SumOf(lines, por, Cost) * 100.0
  }

  ghost function TotalMinor(lines: map<int, Line>, por: int): int {
    Round(ExactMinor(lines, por))
  }

  ghost predicate HasLines(lines: map<int, Line>, por: int) {
    exists k :: k in lines && lines[k].por == por
  }

  /** The currency an order is priced in: its own, or the least currency among its lines. */
  ghost function PricedCurrency(lines: map<int, Line>, por: int, own: Option<string>): Option<string> {
    if Blank(Str(own)) then LeastCurrency(lines, por) else own
  }

  /** The recorded total is the exact price to within half a minor unit. */
  lemma TotalWithinHalf(lines: map<int, Line>, por: int)
    ensures -0.5 <= TotalMinor(lines, por) as real - ExactMinor(lines, por) <= 0.5
  {
    RoundWithinHalf(ExactMinor(lines, por));
  }

  lemma RoundWithinHalf(x: real)
    ensures -0.5 <= Round(x) as real - x <= 0.5
  {
  }

  /** A signing limit covers the recorded total exactly when the exact price is under limit + 1/2. */
  lemma LimitIsExact(lines: map<int, Line>, por: int, limit: int)
    requires limit >= 0
    ensures TotalMinor(lines, por) <= limit <==> ExactMinor(lines, por) < limit as real + 0.5
  {
    var x := ExactMinor(lines, por);
    if x >= 0.0 {
      assert (x + 0.5).Floor <= limit <==> x + 0.5 < limit as real + 1.0;
    } else {
      assert Round(x) <= 0;
    }
  }

  // ---- what the sums are, line by line

  /** A line of the order adds a hundred times its quantity times its price, other lines add nothing. */
  lemma PriceLaw(lines: map<int, Line>, k: int, por: int)
    requires k in lines
    ensures var quantity := if lines[k].qty.Some? then lines[k].qty.value else 0.0;
            var price := if lines[k].price.Some? then lines[k].price.value else 0.0;
            ExactMinor(lines, por) ==
            (if lines[k].por == por then 100.0 * quantity * price else 0.0) + ExactMinor(lines - {k}, por)
  {
    SumTake(lines, k, por, Cost);
    hide SumOf;
  }

  lemma LinesLaw(lines: map<int, Line>, por: int)
    ensures HasLines(lines, por) <==> !forall k :: k in lines ==> lines[k].por != por
  {
  }

  /** An order without lines costs nothing. */
  lemma PriceOfNothing(lines: map<int, Line>, por: int)
    requires forall k :: k in lines ==> lines[k].por != por
    ensures ExactMinor(lines, por) == 0.0
  {
    SumOther(lines, por, Cost);
  }

  /** A line of the order adds what it orders and what it has received, other lines add nothing. */
  lemma ReceiptLaw(lines: map<int, Line>, k: int, por: int)
    requires k in lines
    ensures var ordered := if lines[k].qty.Some? then lines[k].qty.value else 0.0;
            var received := if lines[k].received.Some? then lines[k].received.value else 0.0;
            if lines[k].por == por
            then SumOf(lines, por, Qty) == ordered + SumOf(lines - {k}, por, Qty)
                 && SumOf(lines, por, Received) == received + SumOf(lines - {k}, por, Received)
            else SumOf(lines, por, Qty) == SumOf(lines - {k}, por, Qty)
                 && SumOf(lines, por, Received) == SumOf(lines - {k}, por, Received)
  {
    SumTake(lines, k, por, Qty);
    SumTake(lines, k, por, Received);
    hide SumOf;
  }

  /** Rounding is to the nearest integer, and away from zero in the middle. */
  lemma RoundLaw(x: real)
    ensures x >= 0.0 ==> Round(x) as real - 0.5 <= x < Round(x) as real + 0.5
    ensures x < 0.0 ==> Round(x) as real - 0.5 < x <= Round(x) as real + 0.5
  {
  }

  /** The currency of an order is its own; failing that, the least one among its lines. */
  lemma CurrencyLaw(lines: map<int, Line>, por: int, own: Option<string>)
    ensures var priced := PricedCurrency(lines, por, own);
            if own.Some? && Trim(own.value) != "" then priced == own
            else if priced.None? then forall k :: k in lines && lines[k].por == por ==> lines[k].currency.None?
            else && (exists k :: k in lines && lines[k].por == por && lines[k].currency == priced)
                 && forall k :: k in lines && lines[k].por == por && lines[k].currency.Some? ==>
                      !LexLess(lines[k].currency.value, priced.value)
  {
    assert Trim("") == "";
    hide LexLess;
    hide Trim;
    var s := LineCurrencies(lines, por);
    if s != {} {
      LeastExists(s);
    }
    forall k | k in lines && lines[k].por == por && lines[k].currency.Some? ensures lines[k].currency.value in s {
    }
  }
}
