/**
 The cash-flow client reads a whole table through the bounded list endpoint, page by page in
 primary-key order.
 */
module Paging {
  import opened Wrappers
  import opened Text
  import opened Sql
  import opened Query
  import opened Listing
  import Sorting

  const PAGE: int := 200

  /** A record that asks for everything in key order. */
  predicate IsUnfiltered(t: TableDef, opts: ListOptions) {
    && opts.sort == t.primaryKey && !opts.desc && Trim(opts.search) == ""
    && opts.filter == map[] && opts.from == map[] && opts.to == map[]
  }

  /** The table has a unique numeric key that is shown and may be sorted by. */
  ghost predicate Keyed(t: TableDef, stored: seq<Row>) {
    && SortChoice(t, t.primaryKey) == t.primaryKey && t.primaryKey in ReadableColumns(t.fields)
    && (forall i :: 0 <= i < |stored| ==> At(stored[i], t.primaryKey).Num?)
    && forall i, j :: 0 <= i < j < |stored| ==> At(stored[i], t.primaryKey).n != At(stored[j], t.primaryKey).n
  }

  ghost predicate AscendingKeys(key: string, rows: seq<Row>) {
    && (forall i :: 0 <= i < |rows| ==> At(rows[i], key).Num?)
    && forall i, j :: 0 <= i < j < |rows| ==> At(rows[i], key).n < At(rows[j], key).n
  }

  /** Every row of the table exactly once, in ascending key order. */
  ghost predicate InKeyOrder(t: TableDef, stored: seq<Row>, rows: seq<Row>) {
    multiset(rows) == multiset(stored) && AscendingKeys(t.primaryKey, rows)
  }

  /** The database's answer to an unfiltered query by key leaves nothing to choose. */
  lemma AnswerInKeyOrder(t: TableDef, stored: seq<Row>, opts: ListOptions, rows: seq<Row>)
    requires Keyed(t, stored) && IsUnfiltered(t, opts)
    ensures Selected(stored, opts, t.primaryKey, rows) <==> InKeyOrder(t, stored, rows)
  {
    assert forall row: Row :: Meets(row, opts);
    hide Meets;
    if multiset(rows) == multiset(stored) {
      KeysKept(t, stored, rows);
    }
    if Selected(stored, opts, t.primaryKey, rows) {
      assert multiset(rows) == multiset(stored);
    }
  }

  lemma KeysKept(t: TableDef, stored: seq<Row>, rows: seq<Row>)
    requires Keyed(t, stored) && multiset(rows) == multiset(stored)
    ensures |rows| == |stored| && Keyed(t, rows)
  {
    assert |rows| == |multiset(rows)| == |multiset(stored)| == |stored|;
    forall i | 0 <= i < |rows| ensures rows[i] in stored {
      assert rows[i] in multiset(rows);
    }
    forall i, j | 0 <= i < j < |rows| ensures At(rows[i], t.primaryKey).n != At(rows[j], t.primaryKey).n {
      if rows[i] == rows[j] {
        TwiceInMultiset(rows, i, j);
        OnceInMultiset(t, stored, rows[i]);
      } else {
        assert rows[i] in stored && rows[j] in stored;
      }
    }
  }

  lemma TwiceInMultiset(rows: seq<Row>, i: int, j: int)
    requires 0 <= i < j < |rows| && rows[i] == rows[j]
    ensures multiset(rows)[rows[i]] >= 2
  {
    assert rows == rows[..j] + rows[j..];
    assert rows[..j][i] == rows[i] && rows[j..][0] == rows[i];
    assert rows[i] in multiset(rows[..j]) && rows[i] in multiset(rows[j..]);
  }

  lemma {:induction false} OnceInMultiset(t: TableDef, stored: seq<Row>, row: Row)
    requires Keyed(t, stored)
    ensures multiset(stored)[row] <= 1
  {
    if stored != [] {
      var rest := stored[1..];
      assert stored == [stored[0]] + rest;
      OnceInMultiset(t, rest, row);
      if row == stored[0] {
        assert row !in rest;
        assert row !in multiset(rest);
      }
    }
  }

  /** The size of the largest table the client can read. */
  const CAPACITY: int := MAX_OFFSET + PAGE

  /**
   What the database returns for one page of the table in key order, `answer`: a row more than the
   page from the offset on, with the columns that are shown.
   */
  function Records(t: TableDef, answer: seq<Row>, offset: int): seq<Row> {
    Projected(Window(answer, PAGE + 1, offset), ReadableColumns(t.fields))
  }

  /** Nothing else can come back for an unfiltered query by key. */
  lemma RecordsAreTheOutcome(t: TableDef, opts: ListOptions, stored: seq<Row>, answer: seq<Row>,
                             outcome: Option<seq<Row>>)
    requires Keyed(t, stored) && InKeyOrder(t, stored, answer) && IsUnfiltered(t, opts) && opts.limit == PAGE
    ensures Runs(stored, QueryText(t, opts), QueryArgs(opts), outcome) <==>
            outcome == Some(Records(t, answer, opts.offset))
  {
    RunsExactly(t, opts, stored, outcome);
    AnswerInKeyOrder(t, stored, opts, answer);
    hide Runs;
    hide QueryText;
    hide QueryArgs;
    hide Selected;
    hide IsUnfiltered;
    hide Projected;
    hide Window;
    hide InKeyOrder;
    if outcome.Some? {
      if full :| FromSelection(t, opts, stored, full, outcome.value) {
        OnlyAnswer(t, opts, stored, answer, full);
      }
      if outcome.value == Records(t, answer, opts.offset) {
        assert FromSelection(t, opts, stored, answer, outcome.value);
      }
    }
  }

  lemma OnlyAnswer(t: TableDef, opts: ListOptions, stored: seq<Row>, answer: seq<Row>, full: seq<Row>)
    requires Keyed(t, stored) && InKeyOrder(t, stored, answer) && IsUnfiltered(t, opts)
    requires Selected(stored, opts, SortChoice(t, opts.sort), full)
    ensures full == answer
  {
    AnswerInKeyOrder(t, stored, opts, full);
    hide Selected;
    hide InKeyOrder;
    KeyOrderUnique(t, stored, full, answer);
  }

  /**
   listRows returns the whole table, every row once and in key order with the columns shown, exactly
   when the table has at most 1,000,200 rows; beyond that a page past the largest offset is refused.
   */
  method ListRows(t: TableDef, readReal: string -> Option<Cell>, ghost stored: seq<Row>, answer: seq<Row>)
    returns (r: Result<seq<Row>, string>)
    requires Keyed(t, stored) && InKeyOrder(t, stored, answer) && Trim(t.primaryKey) == t.primaryKey
    ensures r.Ok? <==> |stored| <= 1_000_200
    ensures r.Ok? ==> r.value == Projected(answer, ReadableColumns(t.fields)) && AscendingKeys(t.primaryKey, r.value)
  {
    KeysKept(t, stored, answer);
    KeysShown(t, answer, ReadableColumns(t.fields));
    hide InKeyOrder;
    hide Keyed;
    hide ReadableColumns;
    hide Project;
    ghost var shown := Projected(answer, ReadableColumns(t.fields));
    var rows: seq<Row> := [];
    var offset := 0;
    ghost var pages := 0;
    while true
      invariant 0 <= offset == 200 * pages <= |answer| && rows == shown[..offset]
      invariant pages <= 5001 && (0 < pages ==> offset < |answer|)
      decreases |answer| - offset
    {
      var page := GetPage(t, offset, readReal, stored, answer);
      if page.Err? {
        return Err(page.error);
      }
      rows := rows + page.value.rows;
      if !page.value.hasMore {
        assert rows == shown;
        return Ok(rows);
      }
      if |page.value.rows| == 0 {
        return Err("empty page with has_more");
      }
      offset, pages := offset + |page.value.rows|, pages + 1;
    }
  }

  lemma KeysShown(t: TableDef, rows: seq<Row>, columns: seq<string>)
    requires AscendingKeys(t.primaryKey, rows) && t.primaryKey in columns
    ensures AscendingKeys(t.primaryKey, Projected(rows, columns))
  {
    var shown := Projected(rows, columns);
    assert forall i :: 0 <= i < |rows| ==> At(shown[i], t.primaryKey) == At(rows[i], t.primaryKey);
  }

  /** The request for one page. */
  function PageInput(t: TableDef, offset: nat): ListInput {
    ListInput(t.primaryKey, "", FormatInt(PAGE), FormatInt(offset), "", "", "", map[], map[], map[])
  }

  lemma PageOptions(t: TableDef, offset: nat, readReal: string -> Option<Cell>)
    requires SortChoice(t, t.primaryKey) == t.primaryKey && Trim(t.primaryKey) == t.primaryKey
    ensures var input := PageInput(t, offset);
            && (Acceptable(t, input, readReal) <==> offset <= MAX_OFFSET)
            && (Acceptable(t, input, readReal) ==>
                  var opts := OptionsOf(t, input, readReal);
                  IsUnfiltered(t, opts) && opts.limit == PAGE && opts.offset == offset)
  {
    PageNumbers(t, offset);
    assert Trim("") == "";
    hide LimitOf;
    hide OffsetOf;
    hide DescOf;
    hide FormatInt;
    hide SortChoice;
    hide TextColumns;
  }

  /** How the endpoint reads the numbers of a page request. */
  lemma PageNumbers(t: TableDef, offset: nat)
    ensures var input := PageInput(t, offset);
            && LimitOf(input) == Ok(PAGE) && DescOf(input) == Ok(false)
            && (OffsetOf(input).Ok? <==> offset <= MAX_OFFSET)
            && (OffsetOf(input).Ok? ==> OffsetOf(input).value == offset)
  {
    hide ParseBoundedInt;
    hide FormatInt;
    assert Trim("") == "";
    BoundedRoundTrip(PAGE, 30, 1, MAX_LIMIT);
    BoundedRoundTrip(offset, 0, 0, MAX_OFFSET);
  }

  /** The request for one page of 200 rows; it is refused exactly past the largest offset. */
  method GetPage(t: TableDef, offset: nat, readReal: string -> Option<Cell>, ghost stored: seq<Row>, answer: seq<Row>)
    returns (r: Result<ListResult, string>)
    requires Keyed(t, stored) && InKeyOrder(t, stored, answer) && Trim(t.primaryKey) == t.primaryKey
    requires offset <= |answer|
    ensures r.Ok? <==> offset <= MAX_OFFSET
    ensures r.Ok? ==> (r.value.hasMore <==> |answer| > offset + PAGE)
    ensures r.Ok? ==>
              r.value.rows == Projected(answer, ReadableColumns(t.fields))
                              [offset..if |answer| > offset + PAGE then offset + PAGE else |answer|]
  {
    PageRequest(t, offset, readReal, stored, answer);
    hide *;
    var outcome := Some(Records(t, answer, offset));
    r := ApiListRecords(t, PageInput(t, offset), readReal, stored, outcome);
    if r.Ok? {
      PageShows(t, offset, readReal, stored, answer, r.value);
    }
  }

  lemma PageRequest(t: TableDef, offset: nat, readReal: string -> Option<Cell>, stored: seq<Row>, answer: seq<Row>)
    requires Keyed(t, stored) && InKeyOrder(t, stored, answer) && Trim(t.primaryKey) == t.primaryKey
    ensures var input := PageInput(t, offset);
            && ReadableColumns(t.fields) != []
            && (Acceptable(t, input, readReal) <==> offset <= MAX_OFFSET)
            && (Acceptable(t, input, readReal) ==>
                  RunsInput(t, input, readReal, stored, Some(Records(t, answer, offset))))
  {
    PageOptions(t, offset, readReal);
    hide InKeyOrder;
    hide Acceptable;
    hide OptionsOf;
    hide PageInput;
    hide Records;
    hide IsUnfiltered;
    hide Runs;
    hide QueryText;
    hide QueryArgs;
    hide SortChoice;
    hide ReadableColumns;
    var input := PageInput(t, offset);
    if Acceptable(t, input, readReal) {
      var opts := OptionsOf(t, input, readReal);
      RecordsAreTheOutcome(t, opts, stored, answer, Some(Records(t, answer, offset)));
    }
  }

  lemma PageShows(t: TableDef, offset: nat, readReal: string -> Option<Cell>, stored: seq<Row>, answer: seq<Row>,
                  page: ListResult)
    requires Keyed(t, stored) && InKeyOrder(t, stored, answer) && Trim(t.primaryKey) == t.primaryKey
    requires offset <= |answer| && Acceptable(t, PageInput(t, offset), readReal)
    requires IsPage(t, OptionsOf(t, PageInput(t, offset), readReal), stored, page)
    ensures page.hasMore <==> |answer| > offset + PAGE
    ensures page.rows == Projected(answer, ReadableColumns(t.fields))
                         [offset..if |answer| > offset + PAGE then offset + PAGE else |answer|]
  {
    PageOptions(t, offset, readReal);
    hide InKeyOrder;
    hide Acceptable;
    hide OptionsOf;
    hide PageInput;
    hide IsUnfiltered;
    hide Selected;
    hide SortChoice;
    hide PageOf;
    hide Keyed;
    hide Projected;
    hide ReadableColumns;
    var opts := OptionsOf(t, PageInput(t, offset), readReal);
    var full :| Selected(stored, opts, SortChoice(t, opts.sort), full) && PageOf(t, opts, full, page);
    OnlyAnswer(t, opts, stored, answer, full);
    PageRows(t, opts, answer, page);
  }

  lemma PageRows(t: TableDef, opts: ListOptions, answer: seq<Row>, page: ListResult)
    requires PageOf(t, opts, answer, page) && opts.limit == PAGE && 0 <= opts.offset <= |answer|
    ensures page.hasMore <==> |answer| > opts.offset + PAGE
    ensures page.rows == Projected(answer, ReadableColumns(t.fields))
                         [opts.offset..if |answer| > opts.offset + PAGE then opts.offset + PAGE else |answer|]
  {
    hide Project;
    hide ReadableColumns;
  }

  /** Two readings of an unchanged table agree: the key order is the only answer. */
  lemma KeyOrderUnique(t: TableDef, stored: seq<Row>, a: seq<Row>, b: seq<Row>)
    requires InKeyOrder(t, stored, a) && InKeyOrder(t, stored, b)
    ensures a == b
  {
    forall x ensures x in a <==> x in b {
      assert x in a <==> x in multiset(a);
      assert x in b <==> x in multiset(b);
    }
    Sorting.AscendingUnique((x, y) => KeyLess(t.primaryKey, x, y), a, b);
  }

  predicate KeyLess(key: string, x: Row, y: Row) {
    At(x, key).Num? && At(y, key).Num? && At(x, key).n < At(y, key).n
  }
}
