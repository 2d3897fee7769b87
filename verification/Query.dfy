/**
 Store.List: a filter record is compiled to the text of a query and positional arguments, and the
 page a database returns for it holds exactly the rows that meet the record.
 */
module Query {
  import opened Wrappers
  import opened Text
  import opened Sql
  import Like

  datatype Kind = Plain | Textarea | Day | Integer | Real | Enum | Status | Foreign | Password | Blob

  datatype Field = Field(column: string, kind: Kind, sortable: bool)

  datatype TableDef = TableDef(name: string, primaryKey: string, defaultSort: string, parentTable: string,
                               parentField: string, fields: seq<Field>)

  datatype ListOptions = ListOptions(sort: string, desc: bool, limit: int, offset: int,
                                     filter: map<string, Cell>, from: map<string, Cell>, to: map<string, Cell>,
                                     search: string, searchColumns: seq<string>)

  datatype ListResult = ListResult(rows: seq<Row>, hasMore: bool)

  ghost predicate IsField(t: TableDef, column: string) {
    exists i :: 0 <= i < |t.fields| && t.fields[i].column == column
  }

  /** Field i is the first of that column. */
  ghost predicate IsFirst(t: TableDef, column: string, i: int) {
    && 0 <= i < |t.fields| && t.fields[i].column == column
    && forall j :: 0 <= j < i ==> t.fields[j].column != column
  }

  /** TableDef.Field: the first field of that column. */
  method FindField(t: TableDef, column: string) returns (r: Option<Field>)
    ensures r.None? <==> !IsField(t, column)
    ensures r.Some? ==> r.value.column == column
    ensures r.Some? ==> exists i :: IsFirst(t, column, i) && t.fields[i] == r.value
  {
    for i := 0 to |t.fields|
      invariant forall j :: 0 <= j < i ==> t.fields[j].column != column
    {
      if t.fields[i].column == column {
        assert IsFirst(t, column, i);
        return Some(t.fields[i]);
      }
    }
    r := None;
  }

  // ---- what the record asks for

  predicate Searching(opts: ListOptions) {
    Trim(opts.search) != "" && opts.searchColumns != []
  }

  ghost predicate Holds(op: Op, left: Cell, right: Cell) {
    && !left.Null? && !right.Null?
    && match op
       case Equal => Same(left, right)
       case AtLeast => Same(left, right) || Less(right, left)
       case AtMost => Same(left, right) || Less(left, right)
  }

  /** Every equality, every inclusive bound, and the search text in one of the search columns. */
  ghost predicate Meets(row: Row, opts: ListOptions) {
    && (forall c :: c in opts.filter ==> Holds(Equal, At(row, c), opts.filter[c]))
    && (forall c :: c in opts.from ==> Holds(AtLeast, At(row, c), opts.from[c]))
    && (forall c :: c in opts.to ==> Holds(AtMost, At(row, c), opts.to[c]))
    && (Searching(opts) ==> exists c :: c in opts.searchColumns && Contains(row, c, Trim(opts.search)))
  }

  ghost predicate Contains(row: Row, column: string, search: string) {
    !At(row, column).Null? && Like.Occurs(search, AsText(At(row, column)))
  }

  ghost predicate KnownColumns(t: TableDef, opts: ListOptions) {
    && (forall c :: c in opts.filter || c in opts.from || c in opts.to ==> IsField(t, c))
    && (Searching(opts) ==> forall c :: c in opts.searchColumns ==> IsField(t, c))
  }

  // ---- what it is compiled to

  function Comparisons(columns: seq<string>, op: Op): seq<Cond> {
    if columns == [] then [] else Comparisons(columns[..|columns| - 1], op) + [Compare(columns[|columns| - 1], op)]
  }

  function Values(columns: seq<string>, m: map<string, Cell>): seq<Cell>
    requires forall c :: c in columns ==> c in m
  {
    if columns == [] then [] else Values(columns[..|columns| - 1], m) + [m[columns[|columns| - 1]]]
  }

  function Pattern(opts: ListOptions): Cell {
    Txt("%" + Like.EscapeLike(Trim(opts.search)) + "%")
  }

  function Repeat(c: Cell, n: nat): seq<Cell> {
    if n == 0 then [] else [c] + Repeat(c, n - 1)
  }

  ghost function Conds(opts: ListOptions): seq<Cond> {
    Comparisons(SortedKeys(opts.filter.Keys), Equal)
      + Comparisons(SortedKeys(opts.from.Keys), AtLeast)
      + Comparisons(SortedKeys(opts.to.Keys), AtMost)
      + (if Searching(opts) then [AnyLike(opts.searchColumns)] else [])
  }

  ghost function Args(opts: ListOptions): seq<Cell> {
    Values(SortedKeys(opts.filter.Keys), opts.filter)
      + Values(SortedKeys(opts.from.Keys), opts.from)
      + Values(SortedKeys(opts.to.Keys), opts.to)
      + (if Searching(opts) then Repeat(Pattern(opts), |opts.searchColumns|) else [])
  }

  // ---- the compiled conditions mean what the record asks for

  lemma {:induction false} HolesAppend(a: seq<Cond>, b: seq<Cond>)
    ensures AllHoles(a + b) == AllHoles(a) + AllHoles(b)
  {
    if a == [] {
      assert a + b == b;
    } else {
      assert (a + b)[0] == a[0] && (a + b)[1..] == a[1..] + b;
      HolesAppend(a[1..], b);
    }
  }

  lemma {:induction false} EvalAppend(a: seq<Cond>, x: seq<Cell>, b: seq<Cond>, y: seq<Cell>, row: Row)
    requires |x| == AllHoles(a) && AllHoles(b) <= |y|
    ensures AllHoles(a + b) <= |x + y|
    ensures EvalAll(a + b, x + y, row) == Yes <==> EvalAll(a, x, row) == Yes && EvalAll(b, y, row) == Yes
  {
    HolesAppend(a, b);
    if a == [] {
      assert a + b == b && x + y == y;
    } else {
      var h := Holes(a[0]);
      assert (a + b)[0] == a[0] && (a + b)[1..] == a[1..] + b;
      assert (x + y)[h..] == x[h..] + y;
      EvalAppend(a[1..], x[h..], b, y, row);
      EvalFirst(a[0], x, y, row);
    }
  }

  /** A condition looks only at its own arguments. */
  lemma EvalFirst(c: Cond, x: seq<Cell>, y: seq<Cell>, row: Row)
    requires Holes(c) <= |x|
    ensures Eval(c, x + y, row) == Eval(c, x, row)
  {
    if c.AnyLike? { LikesFirst(c.columns, x, y, row); }
  }

  lemma {:induction false} LikesFirst(columns: seq<string>, x: seq<Cell>, y: seq<Cell>, row: Row)
    requires |columns| <= |x|
    ensures EvalLikes(columns, x + y, row) == EvalLikes(columns, x, row)
  {
    if columns != [] {
      assert (x + y)[1..] == x[1..] + y;
      LikesFirst(columns[1..], x[1..], y, row);
    }
  }

  lemma {:induction false} ComparisonsMean(columns: seq<string>, op: Op, m: map<string, Cell>, row: Row)
    requires forall c :: c in columns ==> c in m
    ensures AllHoles(Comparisons(columns, op)) == |Values(columns, m)|
    ensures EvalAll(Comparisons(columns, op), Values(columns, m), row) == Yes
            <==> forall c :: c in columns ==> Holds(op, At(row, c), m[c])
  {
    if columns != [] {
      var front, last := columns[..|columns| - 1], columns[|columns| - 1];
      ComparisonsMean(front, op, m, row);
      HolesAppend(Comparisons(front, op), [Compare(last, op)]);
      EvalAppend(Comparisons(front, op), Values(front, m), [Compare(last, op)], [m[last]], row);
      ComparedMeans(op, At(row, last), m[last]);
      assert columns == front + [last];
    }
  }

  lemma ComparedMeans(op: Op, left: Cell, right: Cell)
    ensures Compared(op, left, right) == Yes <==> Holds(op, left, right)
  {
    if left.Txt? && right.Txt? {
      LexTotal(left.s, right.s);
      LexIrreflexive(left.s);
      if LexLess(left.s, right.s) && LexLess(right.s, left.s) {
        LexTransitive(left.s, right.s, left.s);
      }
    }
  }

  lemma {:induction false} LikesMean(columns: seq<string>, search: string, row: Row)
    ensures |Repeat(Txt("%" + Like.EscapeLike(search) + "%"), |columns|)| == |columns|
    ensures EvalLikes(columns, Repeat(Txt("%" + Like.EscapeLike(search) + "%"), |columns|), row) == Yes
            <==> exists c :: c in columns && Contains(row, c, search)
  {
    if columns != [] {
      LikesMean(columns[1..], search, row);
      var cell := At(row, columns[0]);
      if !cell.Null? { Like.SearchIsLiteral(search, AsText(cell)); }
      assert columns[0] in columns && forall c :: c in columns <==> c == columns[0] || c in columns[1..];
    }
  }

  /** The compiled conditions, with their arguments bound by position, keep a row exactly when it meets the record. */
  lemma CompiledMeaning(opts: ListOptions, row: Row)
    ensures AllHoles(Conds(opts)) == |Args(opts)|
    ensures EvalAll(Conds(opts), Args(opts), row) == Yes <==> Meets(row, opts)
  {
    hide EvalAll;
    hide AllHoles;
    hide SortedKeys;
    hide Comparisons;
    hide Values;
    hide Repeat;
    hide Holds;
    hide Contains;
    var f, g, h := SortedKeys(opts.filter.Keys), SortedKeys(opts.from.Keys), SortedKeys(opts.to.Keys);
    ComparisonsMean(f, Equal, opts.filter, row);
    ComparisonsMean(g, AtLeast, opts.from, row);
    ComparisonsMean(h, AtMost, opts.to, row);
    var fc, gc, hc := Comparisons(f, Equal), Comparisons(g, AtLeast), Comparisons(h, AtMost);
    var fv, gv, hv := Values(f, opts.filter), Values(g, opts.from), Values(h, opts.to);
    var sc := if Searching(opts) then [AnyLike(opts.searchColumns)] else [];
    var sv := if Searching(opts) then Repeat(Pattern(opts), |opts.searchColumns|) else [];
    SearchMeaning(opts, row);
    HolesAppend(fc, gc);
    EvalAppend(fc, fv, gc, gv, row);
    HolesAppend(fc + gc, hc);
    EvalAppend(fc + gc, fv + gv, hc, hv, row);
    HolesAppend(fc + gc + hc, sc);
    EvalAppend(fc + gc + hc, fv + gv + hv, sc, sv, row);
  }

  lemma SearchMeaning(opts: ListOptions, row: Row)
    ensures var sc := if Searching(opts) then [AnyLike(opts.searchColumns)] else [];
            var sv := if Searching(opts) then Repeat(Pattern(opts), |opts.searchColumns|) else [];
            && AllHoles(sc) == |sv|
            && (EvalAll(sc, sv, row) == Yes <==>
                (Searching(opts) ==> exists c :: c in opts.searchColumns && Contains(row, c, Trim(opts.search))))
  {
    if Searching(opts) {
      LikesMean(opts.searchColumns, Trim(opts.search), row);
      var sc := [AnyLike(opts.searchColumns)];
      assert sc[1..] == [];
    }
  }

  // ---- compiling

  lemma {:induction false} TextsAppend(a: seq<Cond>, c: Cond)
    ensures CondTexts(a + [c]) == CondTexts(a) + [CondText(c)]
  {
    if a == [] {
      assert [] + [c] == [c] && CondTexts([c][1..]) == [];
    } else {
      assert (a + [c])[0] == a[0] && (a + [c])[1..] == a[1..] + [c];
      TextsAppend(a[1..], c);
    }
  }

  lemma {:induction false} TextsConcat(a: seq<Cond>, b: seq<Cond>)
    ensures CondTexts(a + b) == CondTexts(a) + CondTexts(b)
  {
    if a == [] {
      assert a + b == b;
    } else {
      assert (a + b)[0] == a[0] && (a + b)[1..] == a[1..] + b;
      TextsConcat(a[1..], b);
    }
  }

  lemma ComparisonsMore(columns: seq<string>, i: nat, op: Op, m: map<string, Cell>)
    requires i < |columns| && forall c :: c in columns ==> c in m
    ensures Comparisons(columns[..i + 1], op) == Comparisons(columns[..i], op) + [Compare(columns[i], op)]
    ensures Values(columns[..i + 1], m) == Values(columns[..i], m) + [m[columns[i]]]
  {
    assert columns[..i + 1][..i] == columns[..i];
  }

  lemma NoComparisons(op: Op, m: map<string, Cell>)
    ensures CondTexts(Comparisons([], op)) == [] && Values([], m) == []
  {
  }

  /** One comparison clause and one argument for each column of the map. */
  method CompareClauses(t: TableDef, m: map<string, Cell>, op: Op)
    returns (ok: bool, clauses: seq<string>, args: seq<Cell>)
    ensures ok <==> forall c :: c in m ==> IsField(t, c)
    ensures ok ==> clauses == CondTexts(Comparisons(SortedKeys(m.Keys), op)) && args == Values(SortedKeys(m.Keys), m)
  {
    hide SortedKeys;
    hide LexLess;
    hide OpText;
    hide QuoteIdent;
    hide IsField;
    hide CondTexts;
    hide Comparisons;
    hide Values;
    clauses, args := [], [];
    var columns := SortKeys(m.Keys);
    NoComparisons(op, m);
    for i := 0 to |columns|
      invariant forall j :: 0 <= j < i ==> IsField(t, columns[j])
      invariant clauses == CondTexts(Comparisons(columns[..i], op)) && args == Values(columns[..i], m)
    {
      var field := FindField(t, columns[i]);
      if field.None? {
        return false, [], [];
      }
      ComparisonsMore(columns, i, op, m);
      TextsAppend(Comparisons(columns[..i], op), Compare(columns[i], op));
      clauses := clauses + [QuoteIdent(field.value.column) + OpText(op)];
      args := args + [m[columns[i]]];
    }
    assert columns[..|columns|] == columns;
    forall c | c in m ensures IsField(t, c) {
      assert c in columns;
    }
    ok := true;
  }

  lemma {:induction false} RepeatMore(c: Cell, n: nat)
    ensures Repeat(c, n + 1) == Repeat(c, n) + [c]
  {
    if n > 0 { RepeatMore(c, n - 1); }
  }

  lemma {:induction false} LikeTextsAppend(columns: seq<string>, c: string)
    ensures LikeTexts(columns + [c]) == LikeTexts(columns) + [QuoteIdent(c) + LIKE]
  {
    if columns == [] {
      assert [] + [c] == [c] && LikeTexts([c][1..]) == [];
    } else {
      assert (columns + [c])[0] == columns[0] && (columns + [c])[1..] == columns[1..] + [c];
      LikeTextsAppend(columns[1..], c);
    }
  }

  /** One LIKE match and one pattern for each search column. */
  method SearchClause(t: TableDef, opts: ListOptions) returns (ok: bool, clauses: seq<string>, args: seq<Cell>)
    ensures ok <==> (Searching(opts) ==> forall c :: c in opts.searchColumns ==> IsField(t, c))
    ensures ok ==> clauses == CondTexts(if Searching(opts) then [AnyLike(opts.searchColumns)] else [])
    ensures ok ==> args == if Searching(opts) then Repeat(Pattern(opts), |opts.searchColumns|) else []
  {
    hide QuoteIdent;
    hide IsField;
    hide Trim;
    if !Searching(opts) {
      return true, [], [];
    }
    var matches := [];
    args := [];
    var columns := opts.searchColumns;
    for i := 0 to |columns|
      invariant forall j :: 0 <= j < i ==> IsField(t, columns[j])
      invariant matches == LikeTexts(columns[..i]) && args == Repeat(Pattern(opts), i)
    {
      var field := FindField(t, columns[i]);
      if field.None? {
        return false, [], [];
      }
      assert columns[..i + 1] == columns[..i] + [columns[i]];
      LikeTextsAppend(columns[..i], columns[i]);
      RepeatMore(Pattern(opts), i);
      matches := matches + [QuoteIdent(field.value.column) + LIKE];
      args := args + [Txt("%" + Like.EscapeLike(Trim(opts.search)) + "%")];
    }
    assert columns[..|columns|] == columns;
    assert CondTexts([AnyLike(columns)][1..]) == [];
    clauses := ["(" + Join(matches, " OR ") + ")"];
    ok := true;
  }

  /** The WHERE text and the arguments; the order in which the maps are read does not show. */
  method CompileWhere(t: TableDef, opts: ListOptions) returns (ok: bool, text: string, args: seq<Cell>)
    ensures ok <==> KnownColumns(t, opts)
    ensures ok ==> text == WhereText(CondTexts(Conds(opts))) && args == Args(opts)
  {
    var ok1, clauses, args1 := CompareClauses(t, opts.filter, Equal);
    if !ok1 { return false, "", []; }
    var ok2, from, args2 := CompareClauses(t, opts.from, AtLeast);
    if !ok2 { return false, "", []; }
    var ok3, to, args3 := CompareClauses(t, opts.to, AtMost);
    if !ok3 { return false, "", []; }
    var ok4, search, args4 := SearchClause(t, opts);
    if !ok4 { return false, "", []; }
    ghost var fc := Comparisons(SortedKeys(opts.filter.Keys), Equal);
    ghost var gc := Comparisons(SortedKeys(opts.from.Keys), AtLeast);
    ghost var hc := Comparisons(SortedKeys(opts.to.Keys), AtMost);
    TextsConcat(fc, gc);
    TextsConcat(fc + gc, hc);
    TextsConcat(fc + gc + hc, if Searching(opts) then [AnyLike(opts.searchColumns)] else []);
    clauses := clauses + from + to + search;
    ok, text, args := true, WhereText(clauses), args1 + args2 + args3 + args4;
  }

  // ---- running

  /** Cells in ORDER BY order, NULL first. */
  predicate Precedes(a: Cell, b: Cell) {
    !b.Null? && (a.Null? || Less(a, b))
  }

  ghost predicate Ordered(rows: seq<Row>, column: string, desc: bool) {
    forall i, j :: 0 <= i < j < |rows| ==>
      if desc then !Precedes(At(rows[i], column), At(rows[j], column))
      else !Precedes(At(rows[j], column), At(rows[i], column))
  }

  /** The rows of the answer before LIMIT and OFFSET: those all conditions hold of, in order, ties in any order. */
  ghost predicate Answers(q: Select, args: seq<Cell>, stored: seq<Row>, full: seq<Row>)
    requires AllHoles(q.conds) <= |args|
  {
    && (forall row :: multiset(full)[row] == if EvalAll(q.conds, args, row) == Yes then multiset(stored)[row] else 0)
    && Ordered(full, q.sort, q.desc)
  }

  function Project(row: Row, columns: seq<string>): Row {
    map c | c in columns :: At(row, c)
  }

  /** The selected columns of the rows. */
  function Projected(rows: seq<Row>, columns: seq<string>): (r: seq<Row>)
    ensures |r| == |rows|
  {
    seq(|rows|, i requires 0 <= i < |rows| => Project(rows[i], columns))
  }

  function WholeNumber(c: Cell): Option<int> {
    if c.Num? && c.n.Floor as real == c.n then Some(c.n.Floor) else None
  }

  /** n rows from row k on; a negative k counts as zero. */
  function Window(rows: seq<Row>, n: nat, k: int): seq<Row> {
    var lo := if k < 0 then 0 else if k < |rows| then k else |rows|;
    if lo + n < |rows| then rows[lo..lo + n] else rows[lo..]
  }

  /** LIMIT n OFFSET k; a negative limit is none, a negative offset counts as zero. */
  function Limited(rows: seq<Row>, n: int, k: int): seq<Row> {
    if n < 0 then Window(rows, |rows|, k) else Window(rows, n, k)
  }

  /**
   What a database may return for a query: it reads the text, binds the arguments by position, the
   last two to LIMIT and OFFSET, and fails when the text is no query or the arguments do not fit.
   */
  ghost predicate Runs(stored: seq<Row>, text: string, args: seq<Cell>, outcome: Option<seq<Row>>) {
    match ReadSelect(text)
    case None => outcome.None?
    case Some(q) =>
      var n := AllHoles(q.conds);
      if |args| != n + 2 || WholeNumber(args[n]).None? || WholeNumber(args[n + 1]).None? then outcome.None?
      else
        var limit, offset := WholeNumber(args[n]).value, WholeNumber(args[n + 1]).value;
        exists full ::
          Answers(q, args, stored, full) && outcome == Some(Projected(Limited(full, limit, offset), q.columns))
  }

  // ---- the query List writes

  /** The columns List selects: all but passwords, in the order of the fields. */
  function ReadableColumns(fields: seq<Field>): seq<string> {
    if fields == [] then [] else
      var last := fields[|fields| - 1];
      ReadableColumns(fields[..|fields| - 1]) + if last.kind.Password? then [] else [last.column]
  }

  /** A password never comes back: its column is not selected unless another field has the same. */
  lemma {:induction false} NoPasswordSelected(fields: seq<Field>, c: string)
    ensures c in ReadableColumns(fields) <==>
            exists i :: 0 <= i < |fields| && !fields[i].kind.Password? && fields[i].column == c
  {
    if fields != [] {
      var front := fields[..|fields| - 1];
      NoPasswordSelected(front, c);
      if i :| 0 <= i < |front| && !front[i].kind.Password? && front[i].column == c {
        assert fields[i] == front[i];
      }
      if i :| 0 <= i < |fields| && !fields[i].kind.Password? && fields[i].column == c {
        assert i < |front| ==> front[i] == fields[i];
      }
    }
  }

  /** selectColumns. */
  method SelectColumns(t: TableDef) returns (columns: seq<string>)
    ensures columns == ReadableColumns(t.fields)
  {
    columns := [];
    for i := 0 to |t.fields|
      invariant columns == ReadableColumns(t.fields[..i])
    {
      assert t.fields[..i + 1][..i] == t.fields[..i];
      if t.fields[i].kind.Password? {
        continue;
      }
      columns := columns + [t.fields[i].column];
    }
    assert t.fields[..|t.fields|] == t.fields;
  }

  function Number(n: int): Cell {
    Num(n as real, FormatInt(n))
  }

  ghost function QueryText(t: TableDef, opts: ListOptions): string {
    SelectText(ReadableColumns(t.fields), t.name, WhereText(CondTexts(Conds(opts))), SortChoice(t, opts.sort),
               opts.desc)
  }

  /** The filters' arguments, then one row more than the limit, then the offset. */
  ghost function QueryArgs(opts: ListOptions): seq<Cell> {
    Args(opts) + [Number(Limit(opts) + 1), Number(opts.offset)]
  }

  /** The first field of that column may be sorted by. */
  ghost predicate Sortable(t: TableDef, column: string) {
    exists i :: IsFirst(t, column, i) && t.fields[i].sortable
  }

  ghost function SortChoice(t: TableDef, requested: string): string {
    if requested != "" && Sortable(t, requested) then requested else t.defaultSort
  }

  /** TableDef.SortColumn: the requested column where it may be sorted by, otherwise the table's default. */
  method SortColumn(t: TableDef, requested: string) returns (column: string)
    ensures column == SortChoice(t, requested)
  {
    if requested == "" {
      return t.defaultSort;
    }
    var field := FindField(t, requested);
    if field.None? || !field.value.sortable {
      return t.defaultSort;
    }
    column := field.value.column;
  }

  /** Choosing twice is choosing once. */
  lemma SortChoiceTwice(t: TableDef, requested: string)
    ensures SortChoice(t, SortChoice(t, requested)) == SortChoice(t, requested)
  {
  }

  function Limit(opts: ListOptions): (limit: int)
    ensures limit > 0
  {
    if opts.limit <= 0 then 50 else opts.limit
  }

  /** The rows that meet the record, in order, whatever the database does with ties. */
  ghost predicate Selected(stored: seq<Row>, opts: ListOptions, sort: string, answer: seq<Row>) {
    && (forall row :: multiset(answer)[row] == if Meets(row, opts) then multiset(stored)[row] else 0)
    && Ordered(answer, sort, opts.desc)
  }

  lemma {:induction false} ComparisonsWellFormed(columns: seq<string>, op: Op)
    ensures forall i :: 0 <= i < |Comparisons(columns, op)| ==> WellFormed(Comparisons(columns, op)[i])
  {
    if columns != [] { ComparisonsWellFormed(columns[..|columns| - 1], op); }
  }

  lemma CondsWellFormed(opts: ListOptions)
    ensures forall i :: 0 <= i < |Conds(opts)| ==> WellFormed(Conds(opts)[i])
  {
    ComparisonsWellFormed(SortedKeys(opts.filter.Keys), Equal);
    ComparisonsWellFormed(SortedKeys(opts.from.Keys), AtLeast);
    ComparisonsWellFormed(SortedKeys(opts.to.Keys), AtMost);
    hide Comparisons;
    hide SortedKeys;
  }

  /** Arguments beyond the conditions' own change nothing. */
  lemma {:induction false} EvalExtra(cs: seq<Cond>, x: seq<Cell>, y: seq<Cell>, row: Row)
    requires AllHoles(cs) <= |x|
    ensures EvalAll(cs, x + y, row) == EvalAll(cs, x, row)
  {
    if cs != [] {
      var h := Holes(cs[0]);
      assert (x + y)[h..] == x[h..] + y;
      EvalFirst(cs[0], x, y, row);
      EvalExtra(cs[1..], x[h..], y, row);
    }
  }

  /** The rows a database finds for the compiled query are exactly those that meet the record. */
  lemma AnswerIsSelection(t: TableDef, opts: ListOptions, stored: seq<Row>, full: seq<Row>)
    ensures AllHoles(Conds(opts)) == |Args(opts)|
    ensures var q := Select(ReadableColumns(t.fields), t.name, Conds(opts), SortChoice(t, opts.sort), opts.desc);
            Answers(q, QueryArgs(opts), stored, full) <==> Selected(stored, opts, SortChoice(t, opts.sort), full)
  {
    CompiledMeaning(opts, map[]);
    hide Conds;
    hide Args;
    hide EvalAll;
    hide Meets;
    hide Ordered;
    hide ReadableColumns;
    hide SortChoice;
    hide Number;
    forall row: Row ensures EvalAll(Conds(opts), QueryArgs(opts), row) == Yes <==> Meets(row, opts) {
      CompiledMeaning(opts, row);
      EvalExtra(Conds(opts), Args(opts), [Number(Limit(opts) + 1), Number(opts.offset)], row);
    }
  }

  /** One outcome of the query: the columns of a window, one row longer than the limit, of the selected rows. */
  ghost predicate FromSelection(t: TableDef, opts: ListOptions, stored: seq<Row>, full: seq<Row>, records: seq<Row>) {
    && Selected(stored, opts, SortChoice(t, opts.sort), full)
    && records == Projected(Window(full, Limit(opts) + 1, opts.offset), ReadableColumns(t.fields))
  }

  /**
   What a database may return for the query List writes, with the arguments it binds: exactly the
   windows of the rows that meet the record. A table with nothing to select is no query.
   */
  lemma RunsExactly(t: TableDef, opts: ListOptions, stored: seq<Row>, outcome: Option<seq<Row>>)
    ensures Runs(stored, QueryText(t, opts), QueryArgs(opts), outcome) <==>
            if ReadableColumns(t.fields) == [] then outcome.None?
            else outcome.Some? && exists full :: FromSelection(t, opts, stored, full, outcome.value)
  {
    var columns, sort := ReadableColumns(t.fields), SortChoice(t, opts.sort);
    CondsWellFormed(opts);
    SelectRoundTrip(columns, t.name, Conds(opts), sort, opts.desc);
    BoundNumbers(opts);
    hide *;
    RunsRead(t, opts, stored, outcome);
  }

  /** The last two arguments are read as the numbers they were bound to. */
  lemma BoundNumbers(opts: ListOptions)
    ensures var n := |Args(opts)|; var args := QueryArgs(opts);
            && |args| == n + 2 && WholeNumber(args[n]) == Some(Limit(opts) + 1)
            && WholeNumber(args[n + 1]) == Some(opts.offset)
  {
    hide Args;
    hide FormatInt;
  }

  lemma RunsRead(t: TableDef, opts: ListOptions, stored: seq<Row>, outcome: Option<seq<Row>>)
    requires var columns, sort := ReadableColumns(t.fields), SortChoice(t, opts.sort);
             ReadSelect(QueryText(t, opts)) ==
             if columns == [] then None else Some(Select(columns, t.name, Conds(opts), sort, opts.desc))
    requires var n := |Args(opts)|; var args := QueryArgs(opts);
             && |args| == n + 2 && WholeNumber(args[n]) == Some(Limit(opts) + 1)
             && WholeNumber(args[n + 1]) == Some(opts.offset)
    ensures Runs(stored, QueryText(t, opts), QueryArgs(opts), outcome) <==>
            if ReadableColumns(t.fields) == [] then outcome.None?
            else outcome.Some? && exists full :: FromSelection(t, opts, stored, full, outcome.value)
  {
    AnswerIsSelection(t, opts, stored, []);
    forall full {
      AnswerIsSelection(t, opts, stored, full);
    }
    hide ReadSelect;
    hide QueryText;
    hide QueryArgs;
    hide Conds;
    hide Args;
    hide Answers;
    hide Selected;
    hide ReadableColumns;
    hide SortChoice;
    hide WholeNumber;
    hide Window;
    hide Projected;
    hide Limit;
    hide AllHoles;
    var columns, args := ReadableColumns(t.fields), QueryArgs(opts);
    if columns != [] && outcome.Some? {
      var q := Select(columns, t.name, Conds(opts), SortChoice(t, opts.sort), opts.desc);
      if full :| Answers(q, args, stored, full)
                 && outcome == Some(Projected(Limited(full, Limit(opts) + 1, opts.offset), columns))
      {
        assert FromSelection(t, opts, stored, full, outcome.value);
      }
      if full :| FromSelection(t, opts, stored, full, outcome.value) {
        assert Answers(q, args, stored, full);
      }
    }
  }

  /** The extra row tells whether rows are left, and is cut off again. */
  lemma OneMore(rows: seq<Row>, n: nat, k: int, columns: seq<string>)
    ensures var more := Projected(Window(rows, n + 1, k), columns);
            && (|more| > n <==> |rows| > n + if k < 0 then 0 else k)
            && Projected(Window(rows, n, k), columns) == if |more| > n then more[..n] else more
  {
    hide Project;
  }

  /** The page shows the asked-for window of these rows, and says whether more are left. */
  ghost predicate PageOf(t: TableDef, opts: ListOptions, full: seq<Row>, page: ListResult) {
    && page.rows == Projected(Window(full, Limit(opts), opts.offset), ReadableColumns(t.fields))
    && (page.hasMore <==> |full| > Limit(opts) + if opts.offset < 0 then 0 else opts.offset)
  }

  /** A page of the rows that meet the record, in the order asked for. */
  ghost predicate IsPage(t: TableDef, opts: ListOptions, stored: seq<Row>, page: ListResult) {
    exists full :: Selected(stored, opts, SortChoice(t, opts.sort), full) && PageOf(t, opts, full, page)
  }

  /** List asks for one row more than the limit to learn whether there are more. */
  method List(t: TableDef, opts: ListOptions, ghost stored: seq<Row>, outcome: Option<seq<Row>>)
    returns (r: Result<ListResult, string>)
    requires KnownColumns(t, opts) ==> Runs(stored, QueryText(t, opts), QueryArgs(opts), outcome)
    ensures r.Ok? <==> KnownColumns(t, opts) && ReadableColumns(t.fields) != []
    ensures r.Ok? ==> IsPage(t, opts, stored, r.value)
  {
    var limit := opts.limit;
    if limit <= 0 {
      limit := 50;
    }
    var ok, text, args := Compile(t, opts, limit);
    if !ok {
      return Err("unknown column");
    }
    RunsExactly(t, opts, stored, outcome);
    assert limit == Limit(opts);
    hide *;
    if outcome.None? {
      return Err("list rows");
    }
    var records := outcome.value;
    var hasMore, rows := false, records;
    if |records| > limit {
      hasMore, rows := true, records[..limit];
    }
    Cut(t, opts, stored, records, ListResult(rows, hasMore));
    r := Ok(ListResult(rows, hasMore));
  }

  lemma Cut(t: TableDef, opts: ListOptions, stored: seq<Row>, records: seq<Row>, page: ListResult)
    requires exists full :: FromSelection(t, opts, stored, full, records)
    requires page == if |records| > Limit(opts) then ListResult(records[..Limit(opts)], true)
                     else ListResult(records, false)
    ensures IsPage(t, opts, stored, page)
  {
    var full :| FromSelection(t, opts, stored, full, records);
    OneMore(full, Limit(opts), opts.offset, ReadableColumns(t.fields));
    hide Selected;
    hide Window;
    hide Projected;
    hide ReadableColumns;
    hide SortChoice;
    assert PageOf(t, opts, full, page);
  }

  /** The text of the query and its arguments, the limit and the offset last. */
  method Compile(t: TableDef, opts: ListOptions, limit: int) returns (ok: bool, text: string, args: seq<Cell>)
    requires limit == Limit(opts)
    ensures ok <==> KnownColumns(t, opts)
    ensures ok ==> text == QueryText(t, opts) && args == QueryArgs(opts)
  {
    var sort := SortColumn(t, opts.sort);
    var where, values;
    ok, where, values := CompileWhere(t, opts);
    var columns := SelectColumns(t);
    text := SelectText(columns, t.name, where, sort, opts.desc);
    args := values + [Number(limit + 1), Number(opts.offset)];
  }

  // ---- in the words of the rows

  /** Numbers compare as numbers, texts as texts, and every number comes before every text. */
  lemma CellLaw(a: Cell, b: Cell)
    ensures a.Num? && b.Num? ==> (Less(a, b) <==> a.n < b.n) && (Same(a, b) <==> a.n == b.n)
    ensures a.Txt? && b.Txt? ==> (Less(a, b) <==> LexLess(a.s, b.s)) && (Same(a, b) <==> a.s == b.s)
    ensures a.Num? && b.Txt? ==> Less(a, b) && !Less(b, a) && !Same(a, b)
    ensures AsTextLaw(a) && AsTextLaw(b)
  {
  }

  predicate AsTextLaw(c: Cell) {
    (c.Txt? ==> AsText(c) == c.s) && (c.Num? ==> AsText(c) == c.text)
  }

  /** Which rows meet a record: equal to the filters, not below `from`, not above `to`, never through a NULL. */
  lemma MeetsLaw(row: Row, opts: ListOptions)
    ensures Meets(row, opts) <==>
            && (forall c :: c in opts.filter ==>
                  !At(row, c).Null? && !opts.filter[c].Null? && Same(At(row, c), opts.filter[c]))
            && (forall c :: c in opts.from ==>
                  !At(row, c).Null? && !opts.from[c].Null? && !Less(At(row, c), opts.from[c]))
            && (forall c :: c in opts.to ==>
                  !At(row, c).Null? && !opts.to[c].Null? && !Less(opts.to[c], At(row, c)))
            && (Trim(opts.search) != "" && opts.searchColumns != [] ==>
                  exists c :: c in opts.searchColumns && Found(Trim(opts.search), At(row, c)))
  {
    forall c | c in opts.filter { ComparedMeans(Equal, At(row, c), opts.filter[c]); }
    forall c | c in opts.from { ComparedMeans(AtLeast, At(row, c), opts.from[c]); }
    forall c | c in opts.to { ComparedMeans(AtMost, At(row, c), opts.to[c]); }
    hide Less;
    hide Same;
    hide Holds;
    hide Trim;
    forall c { FoundExactly(row, c, Trim(opts.search)); }
    hide Contains;
    hide Found;
  }

  /** The text occurs in the cell, up to the case of ASCII letters. */
  ghost predicate Found(search: string, cell: Cell) {
    !cell.Null? && exists i :: FoundAt(search, AsText(cell), i)
  }

  predicate FoundAt(search: string, text: string, i: int) {
    && 0 <= i <= |text| - |search|
    && (forall k :: 0 <= k < |search| ==> Like.Fold(search[k]) == Like.Fold(text[i + k]))
  }

  lemma FoundExactly(row: Row, column: string, search: string)
    ensures Contains(row, column, search) <==> Found(search, At(row, column))
  {
    hide Like.Fold;
    hide AsText;
    if At(row, column).Null? { return; }
    var text := AsText(At(row, column));
    forall i ensures Like.OccursAt(search, text, i) <==> FoundAt(search, text, i) {
      if 0 <= i <= |text| - |search| {
        assert text[i..i + |search|] == seq(|search|, k requires 0 <= k < |search| => text[i + k]);
      }
    }
  }

  /** The rows of a page: fifty when no limit is given, from the offset on, each with the columns shown. */
  lemma PageLaw(t: TableDef, opts: ListOptions, full: seq<Row>, page: ListResult)
    requires PageOf(t, opts, full, page)
    ensures var limit := if opts.limit <= 0 then 50 else opts.limit;
            var offset := if opts.offset < 0 then 0 else opts.offset;
            && (|page.rows| ==
                if |full| <= offset then 0 else if |full| - offset < limit then |full| - offset else limit)
            && (page.hasMore <==> |full| > limit + offset)
            && (forall i, c :: 0 <= i < |page.rows| ==> (c in page.rows[i] <==> c in ReadableColumns(t.fields)))
            && (forall i, c :: 0 <= i < |page.rows| && c in page.rows[i] ==>
                  page.rows[i][c] == At(full[offset + i], c))
  {
  }

  /** The order is by the column asked for if its first field may be sorted by, and by the default otherwise. */
  lemma SortLaw(t: TableDef, requested: string, i: nat)
    ensures requested == "" || (forall j :: 0 <= j < |t.fields| ==> t.fields[j].column != requested) ==>
              SortChoice(t, requested) == t.defaultSort
    ensures requested != "" && i < |t.fields| && t.fields[i].column == requested
            && (forall j :: 0 <= j < i ==> t.fields[j].column != requested) ==>
              SortChoice(t, requested) == if t.fields[i].sortable then requested else t.defaultSort
  {
    if i < |t.fields| && t.fields[i].column == requested && forall j :: 0 <= j < i ==> t.fields[j].column != requested {
      assert IsFirst(t, requested, i);
      forall j | IsFirst(t, requested, j) ensures j == i {
        assert j < i || i < j || j == i;
      }
    }
  }

  lemma PageOrdered(t: TableDef, opts: ListOptions, stored: seq<Row>, page: ListResult, i: nat, j: nat)
    requires IsPage(t, opts, stored, page) && i < j < |page.rows|
    ensures var column := SortChoice(t, opts.sort);
            column in ReadableColumns(t.fields) ==>
              (if opts.desc then !Precedes(At(page.rows[i], column), At(page.rows[j], column))
               else !Precedes(At(page.rows[j], column), At(page.rows[i], column)))
  {
    var full :| Selected(stored, opts, SortChoice(t, opts.sort), full) && PageOf(t, opts, full, page);
    PageLaw(t, opts, full, page);
    hide Meets;
    hide Precedes;
    hide SortChoice;
    hide ReadableColumns;
    hide PageOf;
  }

  /** Rows without a value come first in an ascending page and last in a descending one. */
  lemma NullOrder(t: TableDef, opts: ListOptions, stored: seq<Row>, page: ListResult, i: nat, j: nat)
    requires IsPage(t, opts, stored, page) && i < j < |page.rows|
    ensures var column := SortChoice(t, opts.sort);
            column in ReadableColumns(t.fields) ==>
              (if opts.desc then At(page.rows[i], column).Null? ==> At(page.rows[j], column).Null?
               else At(page.rows[j], column).Null? ==> At(page.rows[i], column).Null?)
  {
    PageOrdered(t, opts, stored, page, i, j);
    hide IsPage;
    hide LexLess;
    hide SortChoice;
    hide ReadableColumns;
  }

  /** The order of a page by a shown column, numbers among numbers and texts among texts. */
  lemma OrderLaw(t: TableDef, opts: ListOptions, stored: seq<Row>, page: ListResult, i: nat, j: nat)
    requires IsPage(t, opts, stored, page) && i < j < |page.rows|
    ensures var column := SortChoice(t, opts.sort);
            column in ReadableColumns(t.fields) ==>
              && (At(page.rows[i], column).Num? && At(page.rows[j], column).Num? ==>
                    if opts.desc then At(page.rows[i], column).n >= At(page.rows[j], column).n
                    else At(page.rows[i], column).n <= At(page.rows[j], column).n)
              && (At(page.rows[i], column).Txt? && At(page.rows[j], column).Txt? ==>
                    if opts.desc then !LexLess(At(page.rows[i], column).s, At(page.rows[j], column).s)
                    else !LexLess(At(page.rows[j], column).s, At(page.rows[i], column).s))
  {
    PageOrdered(t, opts, stored, page, i, j);
    hide IsPage;
    hide LexLess;
    hide SortChoice;
    hide ReadableColumns;
  }
}
