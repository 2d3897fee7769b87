/**
 The WHERE clauses the server writes: their text, how a database reads that text, and what it
 means for a row in three-valued logic, with one argument for each placeholder in order.
 */
module Sql {
  import opened Wrappers
  import opened Text
  import Like

  /** A stored value or a bound argument; a number carries the text it prints as. */
  datatype Cell = Null | Num(n: real, text: string) | Txt(s: string)

  type Row = map<string, Cell>

  function At(row: Row, column: string): Cell {
    if column in row then row[column] else Null
  }

  function AsText(c: Cell): string
    requires !c.Null?
  {
    if c.Num? then c.text else c.s
  }

  /** The order of non-NULL values: numbers before text. */
  predicate Less(a: Cell, b: Cell)
    requires !a.Null? && !b.Null?
  {
    match (a, b)
    case (Num(x, _), Num(y, _)) => x < y
    case (Num(_, _), Txt(_)) => true
    case (Txt(_), Num(_, _)) => false
    case (Txt(s), Txt(t)) => LexLess(s, t)
  }

  predicate Same(a: Cell, b: Cell)
    requires !a.Null? && !b.Null?
  {
    (a.Num? && b.Num? && a.n == b.n) || (a.Txt? && b.Txt? && a.s == b.s)
  }

  // ---- three-valued logic

  datatype Truth = Yes | No | Unknown

  function Of(b: bool): Truth { if b then Yes else No }

  function And(a: Truth, b: Truth): Truth {
    if a == No || b == No then No else if a == Yes && b == Yes then Yes else Unknown
  }

  function Or(a: Truth, b: Truth): Truth {
    if a == Yes || b == Yes then Yes else if a == No && b == No then No else Unknown
  }

  // ---- conditions

  datatype Op = Equal | AtLeast | AtMost

  /** A comparison with one placeholder, or a search of several columns with one each. */
  datatype Cond = Compare(column: string, op: Op) | AnyLike(columns: seq<string>)

  function Holes(c: Cond): nat {
    if c.Compare? then 1 else |c.columns|
  }

  function Compared(op: Op, left: Cell, right: Cell): Truth {
    if left.Null? || right.Null? then Unknown else
      match op
      case Equal => Of(Same(left, right))
      case AtLeast => Of(!Less(left, right))
      case AtMost => Of(!Less(right, left))
  }

  function Liked(left: Cell, pattern: Cell): Truth {
    if left.Null? || pattern.Null? then Unknown else Of(Like.Matches(AsText(pattern), AsText(left)))
  }

  function EvalLikes(columns: seq<string>, args: seq<Cell>, row: Row): Truth
    requires |columns| <= |args|
  {
    if columns == [] then No
    else Or(Liked(At(row, columns[0]), args[0]), EvalLikes(columns[1..], args[1..], row))
  }

  function Eval(c: Cond, args: seq<Cell>, row: Row): Truth
    requires Holes(c) <= |args|
  {
    match c
    case Compare(column, op) => Compared(op, At(row, column), args[0])
    case AnyLike(columns) => EvalLikes(columns, args, row)
  }

  function AllHoles(cs: seq<Cond>): nat {
    if cs == [] then 0 else Holes(cs[0]) + AllHoles(cs[1..])
  }

  /** All conditions joined by AND, the arguments taken in order; an empty list holds. */
  function EvalAll(cs: seq<Cond>, args: seq<Cell>, row: Row): Truth
    requires AllHoles(cs) <= |args|
  {
    if cs == [] then Yes else And(Eval(cs[0], args, row), EvalAll(cs[1..], args[Holes(cs[0])..], row))
  }

  // ---- the text written

  /** strings.ReplaceAll(identifier, `"`, `""`). */
  function Doubled(s: string): string {
    if s == "" then "" else (if s[0] == '"' then "\"\"" else [s[0]]) + Doubled(s[1..])
  }

  function QuoteIdent(s: string): string {
    "\"" + Doubled(s) + "\""
  }

  function OpText(op: Op): string {
    match op
    case Equal => " = ?"
    case AtLeast => " >= ?"
    case AtMost => " <= ?"
  }

  const LIKE := " LIKE ? ESCAPE '\\'"

  function Join(parts: seq<string>, sep: string): string {
    if parts == [] then "" else if |parts| == 1 then parts[0] else parts[0] + sep + Join(parts[1..], sep)
  }

  function LikeTexts(columns: seq<string>): seq<string> {
    if columns == [] then [] else [QuoteIdent(columns[0]) + LIKE] + LikeTexts(columns[1..])
  }

  function CondText(c: Cond): string {
    match c
    case Compare(column, op) => QuoteIdent(column) + OpText(op)
    case AnyLike(columns) => "(" + Join(LikeTexts(columns), " OR ") + ")"
  }

  function CondTexts(cs: seq<Cond>): seq<string> {
    if cs == [] then [] else [CondText(cs[0])] + CondTexts(cs[1..])
  }

  function WhereText(clauses: seq<string>): string {
    if clauses == [] then "" else " WHERE " + Join(clauses, " AND ")
  }

  /** The words of the query, clause by clause. */
  lemma Words(column: string, table: string, where: string)
    ensures CondText(Compare(column, Equal)) == QuoteIdent(column) + " = ?"
    ensures CondText(Compare(column, AtLeast)) == QuoteIdent(column) + " >= ?"
    ensures CondText(Compare(column, AtMost)) == QuoteIdent(column) + " <= ?"
    ensures CondText(AnyLike([column])) == "(" + QuoteIdent(column) + " LIKE ? ESCAPE '\\')"
    ensures var name := QuoteIdent(column);
            && SelectText([column], table, where, column, true) ==
               "SELECT " + (name + (" FROM " + (QuoteIdent(table) + (where +
               (" ORDER BY " + (name + " DESC LIMIT ? OFFSET ?"))))))
            && SelectText([column], table, where, column, false) ==
               "SELECT " + (name + (" FROM " + (QuoteIdent(table) + (where +
               (" ORDER BY " + (name + " ASC LIMIT ? OFFSET ?"))))))
  {
    hide QuoteIdent;
    assert LikeTexts([column]) == [QuoteIdent(column) + LIKE] + LikeTexts([]);
    assert Quoted([column]) == [QuoteIdent(column)] + Quoted([]);
  }

  // ---- the text read

  predicate StartsWith(s: string, prefix: string) {
    prefix <= s
  }

  /** The rest of a quoted identifier after its opening quote, and what follows it. */
  function ReadQuoted(s: string): Option<(string, string)> {
    if s == "" then None
    else if s[0] == '"' then
      if StartsWith(s, "\"\"") then
        match ReadQuoted(s[2..])
        case None => None
        case Some((name, rest)) => Some(("\"" + name, rest))
      else Some(("", s[1..]))
    else
      match ReadQuoted(s[1..])
      case None => None
      case Some((name, rest)) => Some(([s[0]] + name, rest))
  }

  function ReadIdent(s: string): Option<(string, string)> {
    if StartsWith(s, "\"") then ReadQuoted(s[1..]) else None
  }

  /** One or more searches joined by OR, up to the closing parenthesis. */
  function ReadLikes(s: string, fuel: nat): Option<(seq<string>, string)>
    decreases fuel
  {
    if fuel == 0 then None else
      match ReadIdent(s)
      case None => None
      case Some((column, after)) =>
        if !StartsWith(after, LIKE) then None else
          var rest := after[|LIKE|..];
          if StartsWith(rest, ")") then Some(([column], rest[1..]))
          else if !StartsWith(rest, " OR ") then None
          else
            match ReadLikes(rest[4..], fuel - 1)
            case None => None
            case Some((columns, end)) => Some(([column] + columns, end))
  }

  function ReadCond(s: string): Option<(Cond, string)> {
    if StartsWith(s, "(") then
      match ReadLikes(s[1..], |s|)
      case None => None
      case Some((columns, rest)) => Some((AnyLike(columns), rest))
    else
      match ReadIdent(s)
      case None => None
      case Some((column, rest)) =>
        if StartsWith(rest, " = ?") then Some((Compare(column, Equal), rest[4..]))
        else if StartsWith(rest, " >= ?") then Some((Compare(column, AtLeast), rest[5..]))
        else if StartsWith(rest, " <= ?") then Some((Compare(column, AtMost), rest[5..]))
        else None
  }

  /** One or more conditions joined by AND, as far as they go. */
  function ReadConds(s: string, fuel: nat): Option<(seq<Cond>, string)>
    decreases fuel
  {
    if fuel == 0 then None else
      match ReadCond(s)
      case None => None
      case Some((c, rest)) =>
        if !StartsWith(rest, " AND ") then Some(([c], rest))
        else
          match ReadConds(rest[5..], fuel - 1)
          case None => None
          case Some((cs, end)) => Some(([c] + cs, end))
  }

  /** The conditions of an optional WHERE clause, and what follows it. */
  function ReadWhere(s: string): Option<(seq<Cond>, string)> {
    if StartsWith(s, " WHERE ") then ReadConds(s[7..], |s|) else Some(([], s))
  }

  /** One or more identifiers separated by commas. */
  function ReadIdents(s: string, fuel: nat): Option<(seq<string>, string)>
    decreases fuel
  {
    if fuel == 0 then None else
      match ReadIdent(s)
      case None => None
      case Some((name, rest)) =>
        if !StartsWith(rest, ", ") then Some(([name], rest))
        else
          match ReadIdents(rest[2..], fuel - 1)
          case None => None
          case Some((names, end)) => Some(([name] + names, end))
  }

  /** ORDER BY a column, ascending or descending, and a limit and an offset to come as arguments. */
  function ReadTail(s: string): Option<(string, bool)> {
    if !StartsWith(s, " ORDER BY ") then None else
      match ReadIdent(s[10..])
      case None => None
      case Some((sort, rest)) =>
        if rest == " ASC LIMIT ? OFFSET ?" then Some((sort, false))
        else if rest == " DESC LIMIT ? OFFSET ?" then Some((sort, true))
        else None
  }

  /** The columns, table, conditions and order of a query. */
  datatype Select = Select(columns: seq<string>, table: string, conds: seq<Cond>, sort: string, desc: bool)

  /** The table and what follows the columns. */
  function ReadFrom(columns: seq<string>, s: string): Option<Select> {
    if !StartsWith(s, " FROM ") then None else
      match ReadIdent(s[6..])
      case None => None
      case Some((table, rest)) =>
        match ReadWhere(rest)
        case None => None
        case Some((conds, tail)) =>
          match ReadTail(tail)
          case None => None
          case Some((sort, desc)) => Some(Select(columns, table, conds, sort, desc))
  }

  function ReadSelect(s: string): Option<Select> {
    if !StartsWith(s, "SELECT ") then None else
      match ReadIdents(s[7..], |s|)
      case None => None
      case Some((columns, rest)) => ReadFrom(columns, rest)
  }

  // ---- reading what was written

  predicate NotQuoted(rest: string) {
    rest == "" || rest[0] != '"'
  }

  lemma Strip(prefix: string, rest: string)
    ensures StartsWith(prefix + rest, prefix) && (prefix + rest)[|prefix|..] == rest
  {
  }

  lemma {:induction false} QuotedRoundTrip(name: string, rest: string)
    requires NotQuoted(rest)
    ensures ReadQuoted(Doubled(name) + "\"" + rest) == Some((name, rest))
  {
    var s := Doubled(name) + "\"" + rest;
    if name == "" {
      assert s == "\"" + rest;
      assert s[1..] == rest;
    } else {
      QuotedRoundTrip(name[1..], rest);
      var tail := Doubled(name[1..]) + "\"" + rest;
      if name[0] == '"' {
        assert s == "\"\"" + tail;
        assert s[2..] == tail;
      } else {
        assert s == [name[0]] + tail;
        assert s[1..] == tail;
      }
      assert name == [name[0]] + name[1..];
    }
  }

  /** A quoted identifier is read back as the identifier, whatever characters it holds. */
  lemma IdentRoundTrip(name: string, rest: string)
    requires NotQuoted(rest)
    ensures ReadIdent(QuoteIdent(name) + rest) == Some((name, rest))
  {
    QuotedRoundTrip(name, rest);
    assert (QuoteIdent(name) + rest)[1..] == Doubled(name) + "\"" + rest;
  }

  lemma LastLike(column: string, rest: string, fuel: nat)
    requires fuel > 0
    ensures ReadLikes(QuoteIdent(column) + (LIKE + (")" + rest)), fuel) == Some(([column], rest))
  {
    IdentRoundTrip(column, LIKE + (")" + rest));
    assert (LIKE + (")" + rest))[|LIKE|..] == ")" + rest;
  }

  lemma MoreLikes(column: string, more: string, columns: seq<string>, rest: string, fuel: nat)
    requires fuel > 0 && ReadLikes(more, fuel - 1) == Some((columns, rest))
    ensures ReadLikes(QuoteIdent(column) + (LIKE + (" OR " + more)), fuel) == Some(([column] + columns, rest))
  {
    IdentRoundTrip(column, LIKE + (" OR " + more));
    var after := LIKE + (" OR " + more);
    assert StartsWith(after, LIKE) && after[|LIKE|..] == " OR " + more;
    assert (" OR " + more)[0] == ' ' && StartsWith(" OR " + more, " OR ");
    assert (" OR " + more)[4..] == more;
  }

  lemma {:induction false} LikesRoundTrip(columns: seq<string>, rest: string, fuel: nat)
    requires columns != [] && fuel >= |columns|
    ensures ReadLikes(Join(LikeTexts(columns), " OR ") + ")" + rest, fuel) == Some((columns, rest))
  {
    hide ReadLikes;
    var texts := LikeTexts(columns);
    var s := Join(texts, " OR ") + ")" + rest;
    var first := QuoteIdent(columns[0]);
    if |columns| == 1 {
      assert columns == [columns[0]] && columns[1..] == [];
      assert LikeTexts(columns[1..]) == [];
      assert texts == [first + LIKE];
      assert s == first + (LIKE + (")" + rest));
      LastLike(columns[0], rest, fuel);
    } else {
      assert texts[1..] == LikeTexts(columns[1..]);
      var more := Join(texts[1..], " OR ") + ")" + rest;
      assert s == first + (LIKE + (" OR " + more));
      LikesRoundTrip(columns[1..], rest, fuel - 1);
      MoreLikes(columns[0], more, columns[1..], rest, fuel);
      assert columns == [columns[0]] + columns[1..];
    }
  }

  predicate WellFormed(c: Cond) {
    c.AnyLike? ==> c.columns != []
  }

  lemma {:induction false} LikeTextsLong(columns: seq<string>)
    requires columns != []
    ensures |Join(LikeTexts(columns), " OR ")| >= |columns|
  {
    if |columns| > 1 {
      assert LikeTexts(columns)[1..] == LikeTexts(columns[1..]);
      LikeTextsLong(columns[1..]);
    }
  }

  lemma CompareRoundTrip(column: string, op: Op, rest: string)
    ensures ReadCond(QuoteIdent(column) + OpText(op) + rest) == Some((Compare(column, op), rest))
  {
    var s := QuoteIdent(column) + OpText(op) + rest;
    assert s == QuoteIdent(column) + (OpText(op) + rest);
    IdentRoundTrip(column, OpText(op) + rest);
    assert s[0] == '"';
    hide ReadIdent;
    assert (OpText(op) + rest)[|OpText(op)|..] == rest;
  }

  lemma CondRoundTrip(c: Cond, rest: string)
    requires WellFormed(c)
    ensures ReadCond(CondText(c) + rest) == Some((c, rest))
  {
    match c
    case Compare(column, op) =>
      CompareRoundTrip(column, op, rest);
    case AnyLike(columns) =>
      var s := CondText(c) + rest;
      LikeTextsLong(columns);
      LikesRoundTrip(columns, rest, |s|);
      hide ReadLikes;
      assert s[1..] == Join(LikeTexts(columns), " OR ") + ")" + rest;
  }

  /** The text after the conditions does not go on with another one. */
  predicate EndsConds(rest: string) {
    !StartsWith(rest, " AND ") && !StartsWith(rest, " WHERE ")
  }

  lemma Regroup(a: string, b: string, c: string, d: string)
    ensures ((a + b) + c) + d == a + (b + (c + d))
  {
  }

  /** Joined parts begin with the first one. */
  lemma JoinMore(parts: seq<string>, sep: string, rest: string)
    requires parts != []
    ensures Join(parts, sep) + rest ==
            parts[0] + if |parts| == 1 then rest else sep + (Join(parts[1..], sep) + rest)
  {
    if |parts| > 1 {
      Regroup(parts[0], sep, Join(parts[1..], sep), rest);
    }
  }

  lemma JoinCondsMore(cs: seq<Cond>, rest: string)
    requires cs != []
    ensures Join(CondTexts(cs), " AND ") + rest ==
            CondText(cs[0]) + if |cs| == 1 then rest else " AND " + (Join(CondTexts(cs[1..]), " AND ") + rest)
  {
    hide CondText;
    hide Join;
    CondTextsLong(cs);
    assert CondTexts(cs)[0] == CondText(cs[0]) && CondTexts(cs)[1..] == CondTexts(cs[1..]);
    JoinMore(CondTexts(cs), " AND ", rest);
  }

  lemma {:induction false} CondsRoundTrip(cs: seq<Cond>, rest: string, fuel: nat)
    requires cs != [] && fuel >= |cs| && forall i :: 0 <= i < |cs| ==> WellFormed(cs[i])
    requires EndsConds(rest)
    ensures ReadConds(Join(CondTexts(cs), " AND ") + rest, fuel) == Some((cs, rest))
  {
    hide *;
    JoinCondsMore(cs, rest);
    if |cs| == 1 {
      assert cs == [cs[0]];
      LastCond(cs[0], rest, fuel);
    } else {
      CondsRoundTrip(cs[1..], rest, fuel - 1);
      MoreConds(cs[0], Join(CondTexts(cs[1..]), " AND ") + rest, cs[1..], rest, fuel);
      assert cs == [cs[0]] + cs[1..];
    }
  }

  lemma LastCond(c: Cond, rest: string, fuel: nat)
    requires WellFormed(c) && fuel > 0 && EndsConds(rest)
    ensures ReadConds(CondText(c) + rest, fuel) == Some(([c], rest))
  {
    CondRoundTrip(c, rest);
    hide ReadCond;
    hide CondText;
  }

  lemma MoreConds(c: Cond, more: string, cs: seq<Cond>, rest: string, fuel: nat)
    requires WellFormed(c) && fuel > 0 && ReadConds(more, fuel - 1) == Some((cs, rest))
    ensures ReadConds(CondText(c) + (" AND " + more), fuel) == Some(([c] + cs, rest))
  {
    CondRoundTrip(c, " AND " + more);
    assert (" AND " + more)[5..] == more && StartsWith(" AND " + more, " AND ");
    hide ReadCond;
    hide CondText;
  }

  lemma {:induction false} CondTextsLong(cs: seq<Cond>)
    ensures |Join(CondTexts(cs), " AND ")| >= |cs| && |CondTexts(cs)| == |cs|
  {
    if cs != [] {
      assert |CondText(cs[0])| >= 1;
      if |cs| > 1 {
        assert CondTexts(cs)[1..] == CondTexts(cs[1..]);
        CondTextsLong(cs[1..]);
      }
    }
  }

  lemma SomeWhere(cs: seq<Cond>, rest: string)
    requires cs != [] && EndsConds(rest) && forall i :: 0 <= i < |cs| ==> WellFormed(cs[i])
    ensures ReadWhere(" WHERE " + (Join(CondTexts(cs), " AND ") + rest)) == Some((cs, rest))
  {
    hide ReadConds;
    hide CondTexts;
    hide Join;
    hide StartsWith;
    var joined := Join(CondTexts(cs), " AND ");
    CondTextsLong(cs);
    CondsRoundTrip(cs, rest, |" WHERE " + (joined + rest)|);
    Strip(" WHERE ", joined + rest);
  }

  lemma NoWhere(rest: string)
    requires EndsConds(rest)
    ensures ReadWhere(WhereText([]) + rest) == Some(([], rest))
  {
    assert WhereText([]) + rest == rest;
    hide StartsWith;
  }

  lemma WhereSplit(texts: seq<string>, rest: string)
    requires texts != []
    ensures WhereText(texts) + rest == " WHERE " + (Join(texts, " AND ") + rest)
  {
    hide Join;
  }

  /** The WHERE text is read as exactly the conditions it was written for, up to the text after it. */
  lemma WhereRoundTrip(cs: seq<Cond>, rest: string)
    requires EndsConds(rest) && forall i :: 0 <= i < |cs| ==> WellFormed(cs[i])
    ensures ReadWhere(WhereText(CondTexts(cs)) + rest) == Some((cs, rest))
  {
    hide *;
    CondTextsLong(cs);
    if cs == [] {
      NoWhere(rest);
    } else {
      SomeWhere(cs, rest);
      WhereSplit(CondTexts(cs), rest);
    }
  }

  // ---- the whole query

  function Quoted(names: seq<string>): seq<string> {
    if names == [] then [] else [QuoteIdent(names[0])] + Quoted(names[1..])
  }

  /** joinQuoted. */
  function JoinQuoted(names: seq<string>): string {
    Join(Quoted(names), ", ")
  }

  function Direction(desc: bool): string {
    if desc then " DESC LIMIT ? OFFSET ?" else " ASC LIMIT ? OFFSET ?"
  }

  function TailText(sort: string, desc: bool): string {
    " ORDER BY " + (QuoteIdent(sort) + Direction(desc))
  }

  /** The query List writes around its WHERE text. */
  function SelectText(columns: seq<string>, table: string, where: string, sort: string, desc: bool): string {
    "SELECT " + (JoinQuoted(columns) + (" FROM " + (QuoteIdent(table) + (where + TailText(sort, desc)))))
  }

  lemma JoinQuotedMore(names: seq<string>, rest: string)
    requires names != []
    ensures JoinQuoted(names) + rest ==
            QuoteIdent(names[0]) + if |names| == 1 then rest else ", " + (JoinQuoted(names[1..]) + rest)
  {
    hide QuoteIdent;
    hide Join;
    assert Quoted(names)[0] == QuoteIdent(names[0]) && Quoted(names)[1..] == Quoted(names[1..]);
    JoinMore(Quoted(names), ", ", rest);
    assert |Quoted(names)| == 1 <==> Quoted(names[1..]) == [];
  }

  lemma {:induction false} IdentsRoundTrip(names: seq<string>, rest: string, fuel: nat)
    requires names != [] && fuel >= |names| && NotQuoted(rest) && !StartsWith(rest, ", ")
    ensures ReadIdents(JoinQuoted(names) + rest, fuel) == Some((names, rest))
  {
    hide *;
    JoinQuotedMore(names, rest);
    if |names| == 1 {
      assert names == [names[0]];
      LastIdent(names[0], rest, fuel);
    } else {
      IdentsRoundTrip(names[1..], rest, fuel - 1);
      MoreIdents(names[0], JoinQuoted(names[1..]) + rest, names[1..], rest, fuel);
      assert names == [names[0]] + names[1..];
    }
  }

  lemma LastIdent(name: string, rest: string, fuel: nat)
    requires fuel > 0 && NotQuoted(rest) && !StartsWith(rest, ", ")
    ensures ReadIdents(QuoteIdent(name) + rest, fuel) == Some(([name], rest))
  {
    IdentRoundTrip(name, rest);
    hide ReadIdent;
    hide QuoteIdent;
  }

  lemma MoreIdents(name: string, more: string, names: seq<string>, rest: string, fuel: nat)
    requires fuel > 0 && ReadIdents(more, fuel - 1) == Some((names, rest))
    ensures ReadIdents(QuoteIdent(name) + (", " + more), fuel) == Some(([name] + names, rest))
  {
    IdentRoundTrip(name, ", " + more);
    assert StartsWith(", " + more, ", ") && (", " + more)[2..] == more;
    hide ReadIdent;
    hide QuoteIdent;
  }

  lemma {:induction false} QuotedLong(names: seq<string>)
    ensures |JoinQuoted(names)| >= |names| && (names == [] ==> JoinQuoted(names) == "")
  {
    if |names| > 1 {
      assert Quoted(names)[1..] == Quoted(names[1..]);
      QuotedLong(names[1..]);
    } else if |names| == 1 {
      assert Quoted(names) == [QuoteIdent(names[0])];
    }
  }

  lemma TailRoundTrip(sort: string, desc: bool)
    ensures ReadTail(TailText(sort, desc)) == Some((sort, desc)) && EndsConds(TailText(sort, desc))
  {
    var s := TailText(sort, desc);
    assert s[1] == 'O';
    assert StartsWith(s, " ORDER BY ") && s[10..] == QuoteIdent(sort) + Direction(desc);
    IdentRoundTrip(sort, Direction(desc));
    assert Direction(false)[1] == 'A' && Direction(true)[1] == 'D';
    hide ReadIdent;
    hide QuoteIdent;
  }

  lemma FromRoundTrip(columns: seq<string>, table: string, cs: seq<Cond>, sort: string, desc: bool)
    requires forall i :: 0 <= i < |cs| ==> WellFormed(cs[i])
    ensures ReadFrom(columns, " FROM " + (QuoteIdent(table) + (WhereText(CondTexts(cs)) + TailText(sort, desc)))) ==
            Some(Select(columns, table, cs, sort, desc))
  {
    hide TailText;
    hide ReadTail;
    hide ReadWhere;
    hide ReadIdent;
    hide QuoteIdent;
    hide CondTexts;
    hide Join;
    var tail := TailText(sort, desc);
    var rest := WhereText(CondTexts(cs)) + tail;
    var s := " FROM " + (QuoteIdent(table) + rest);
    TailRoundTrip(sort, desc);
    WhereRoundTrip(cs, tail);
    AfterTable(cs, sort, desc);
    IdentRoundTrip(table, rest);
    assert StartsWith(s, " FROM ") && s[6..] == QuoteIdent(table) + rest;
  }

  lemma AfterTable(cs: seq<Cond>, sort: string, desc: bool)
    ensures NotQuoted(WhereText(CondTexts(cs)) + TailText(sort, desc))
  {
    hide CondTexts;
    hide Join;
    hide QuoteIdent;
    var s := WhereText(CondTexts(cs)) + TailText(sort, desc);
    assert s[0] == ' ';
  }

  lemma FromStarts(x: string)
    ensures NotQuoted(" FROM " + x) && !StartsWith(" FROM " + x, ", ")
  {
    assert (" FROM " + x)[0] == ' ';
  }

  /** A query over at least one column is read back as its parts; one over no column is not a query. */
  lemma SelectRoundTrip(columns: seq<string>, table: string, cs: seq<Cond>, sort: string, desc: bool)
    requires forall i :: 0 <= i < |cs| ==> WellFormed(cs[i])
    ensures ReadSelect(SelectText(columns, table, WhereText(CondTexts(cs)), sort, desc)) ==
            if columns == [] then None else Some(Select(columns, table, cs, sort, desc))
  {
    hide ReadFrom;
    hide WhereText;
    hide TailText;
    hide QuoteIdent;
    hide CondTexts;
    hide ReadIdents;
    hide JoinQuoted;
    hide StartsWith;
    hide NotQuoted;
    var body := QuoteIdent(table) + (WhereText(CondTexts(cs)) + TailText(sort, desc));
    var rest := " FROM " + body;
    Strip("SELECT ", JoinQuoted(columns) + rest);
    FromStarts(body);
    QuotedLong(columns);
    if columns == [] {
      NoColumns(body, |"SELECT " + (JoinQuoted(columns) + rest)|);
    } else {
      FromRoundTrip(columns, table, cs, sort, desc);
      IdentsRoundTrip(columns, rest, |"SELECT " + (JoinQuoted(columns) + rest)|);
    }
  }

  lemma NoColumns(body: string, fuel: nat)
    ensures ReadIdents("" + (" FROM " + body), fuel) == None
  {
    assert "" + (" FROM " + body) == " FROM " + body;
    assert (" FROM " + body)[0] == ' ';
  }
}
