/**
 The list endpoint: a request arrives as text, its filters are read by the kinds of their columns,
 and the answer is a page of Store.List.
 */
module Listing {
  import opened Wrappers
  import opened Text
  import opened Calendar
  import opened Sql
  import opened Query
  import Like

  const MAX_LIMIT: int := 200
  const MAX_OFFSET: int := 1_000_000
  const TEXT_KINDS: set<Kind> := {Plain, Textarea}

  /** parseBoundedInt. */
  function ParseBoundedInt(raw: string, default_: int, lo: int, hi: int): (r: Result<int, string>)
    ensures r.Ok? ==> r.value == default_ || lo <= r.value <= hi
  {
    var text := Trim(raw);
    if text == "" then Ok(default_) else
      match ParseInt(text)
      case None => Err("must be an integer")
      case Some(n) => if n < lo || n > hi then Err("out of bounds") else Ok(n)
  }

  lemma FormatNotBlank(n: int)
    ensures Trim(FormatInt(n)) == FormatInt(n) && FormatInt(n) != ""
  {
    var s := FormatInt(n);
    var d := Decimal(if n < 0 then -n else n);
    assert d[|d| - 1] == s[|s| - 1];
    assert s[0] == '-' || IsDigit(s[0]);
    assert IsDigit(s[|s| - 1]);
    assert !IsSpace(s[0]) && !IsSpace(s[|s| - 1]);
  }

  /**
   A number written into the query is read back, and refused exactly outside its bounds; a blank
   means the default.
   */
  lemma BoundedRoundTrip(n: int, default_: int, lo: int, hi: int)
    requires MIN_INT64 <= lo && hi <= MAX_INT64
    ensures var r := ParseBoundedInt(FormatInt(n), default_, lo, hi);
            (r.Ok? <==> lo <= n <= hi) && (r.Ok? ==> r.value == n)
    ensures forall blank: string :: Blank(blank) ==> ParseBoundedInt(blank, default_, lo, hi) == Ok(default_)
  {
    FormatNotBlank(n);
    if MIN_INT64 <= n <= MAX_INT64 { ParseFormatInt(n); } else { ParseLargeInt(n); }
  }

  lemma ParseLargeInt(n: int)
    requires n < MIN_INT64 || MAX_INT64 < n
    ensures ParseInt(FormatInt(n)) == None
  {
    var s := FormatInt(n);
    if n < 0 {
      assert s[1..] == Decimal(-n);
    } else {
      assert IsDigit(s[0]);
    }
  }

  /** The texts of parseStrictBool, whatever the case of their letters. */
  function ParseStrictBool(raw: string, default_: bool): Result<bool, string> {
    var text := Trim(raw);
    if text == "" then Ok(default_) else
      var lower := seq(|text|, i requires 0 <= i < |text| => Like.Fold(text[i]));
      if lower in {"1", "true", "yes", "on"} then Ok(true)
      else if lower in {"0", "false", "no", "off"} then Ok(false)
      else Err("must be a boolean")
  }

  /** The columns of the text fields, in the order of the fields. */
  function TextColumns(fields: seq<Field>): seq<string> {
    if fields == [] then [] else
      var last := fields[|fields| - 1];
      TextColumns(fields[..|fields| - 1]) + if last.kind in TEXT_KINDS then [last.column] else []
  }

  lemma {:induction false} TextColumnsAreFields(fields: seq<Field>)
    ensures forall c :: c in TextColumns(fields) <==>
                        exists i :: 0 <= i < |fields| && (fields[i].kind.Plain? || fields[i].kind.Textarea?)
                                    && fields[i].column == c
  {
    if fields != [] {
      var front := fields[..|fields| - 1];
      TextColumnsAreFields(front);
      forall c | exists i :: 0 <= i < |fields| && fields[i].kind in TEXT_KINDS && fields[i].column == c
        ensures c in TextColumns(fields)
      {
        var i :| 0 <= i < |fields| && fields[i].kind in TEXT_KINDS && fields[i].column == c;
        assert i < |front| ==> front[i] == fields[i];
      }
      forall c | c in TextColumns(front)
        ensures exists i :: 0 <= i < |fields| && fields[i].kind in TEXT_KINDS && fields[i].column == c
      {
        var i :| 0 <= i < |front| && front[i].kind in TEXT_KINDS && front[i].column == c;
        assert fields[i] == front[i];
      }
    }
  }

  /** The text columns a search may match. */
  method SearchableColumns(t: TableDef) returns (columns: seq<string>)
    ensures columns == TextColumns(t.fields)
  {
    columns := [];
    for i := 0 to |t.fields|
      invariant columns == TextColumns(t.fields[..i])
    {
      assert t.fields[..i + 1][..i] == t.fields[..i];
      if t.fields[i].kind in TEXT_KINDS {
        columns := columns + [t.fields[i].column];
      }
    }
    assert t.fields[..|t.fields|] == t.fields;
  }

  // ---- filter values

  /** ParseFieldValue; reading a fraction is left to `readReal`, no value stands for NULL. */
  function ParseFieldValue(kind: Kind, raw: string, readReal: string -> Option<Cell>): Result<Option<Cell>, string> {
    var text := Trim(raw);
    if text == "" then
      Ok(if kind in {Plain, Textarea, Password} then Some(Txt("")) else None)
    else
      match kind
      case Integer => ReadInteger(text)
      case Foreign => ReadInteger(text)
      case Real => if readReal(text).Some? then Ok(Some(readReal(text).value)) else Err("not a number")
      case Day => if ParseDate(text).Some? then Ok(Some(Txt(FormatDate(ParseDate(text).value)))) else Err("not a date")
      case _ => Ok(Some(Txt(text)))
  }

  function ReadInteger(text: string): Result<Option<Cell>, string> {
    if ParseInt(text).Some? then Ok(Some(Number(ParseInt(text).value))) else Err("not a number")
  }

  /** A date or an enumerated value is filtered by the text given, up to surrounding white space. */
  lemma TextFilterKept(kind: Kind, raw: string, readReal: string -> Option<Cell>)
    requires kind !in {Integer, Foreign, Real} && !Blank(raw) && ParseFieldValue(kind, raw, readReal).Ok?
    ensures ParseFieldValue(kind, raw, readReal).value == Some(Txt(Trim(raw)))
  {
    if kind == Day { FormatParse(Trim(raw)); }
    hide ParseDate;
    hide FormatDate;
  }

  /** The value of a filter on a column, read by the kind of the first field of that name. */
  ghost function ReadFilter(t: TableDef, column: string, raw: string, readReal: string -> Option<Cell>): Option<Cell> {
    if !IsField(t, column) then None else
      FirstExists(t, column);
      var i :| IsFirst(t, column, i);
      match ParseFieldValue(t.fields[i].kind, raw, readReal)
      case Ok(v) => v
      case Err(_) => None
  }

  lemma FirstExists(t: TableDef, column: string)
    requires IsField(t, column)
    ensures exists i :: IsFirst(t, column, i)
    decreases |t.fields|
  {
    var front := t.(fields := t.fields[..|t.fields| - 1]);
    if IsField(front, column) {
      FirstExists(front, column);
      var i :| IsFirst(front, column, i);
      assert IsFirst(t, column, i);
    } else {
      assert forall j :: 0 <= j < |front.fields| ==> front.fields[j] == t.fields[j];
      var i :| 0 <= i < |t.fields| && t.fields[i].column == column;
      assert IsFirst(t, column, i);
    }
  }

  ghost predicate AllRead(t: TableDef, raw: map<string, string>, readReal: string -> Option<Cell>) {
    forall c :: c in raw ==> ReadFilter(t, c, raw[c], readReal).Some?
  }

  ghost function ReadAll(t: TableDef, raw: map<string, string>, readReal: string -> Option<Cell>): map<string, Cell> {
    map c | c in raw && ReadFilter(t, c, raw[c], readReal).Some? :: ReadFilter(t, c, raw[c], readReal).value
  }

  /** resolveColumnFilters. */
  method ResolveColumnFilters(t: TableDef, raw: map<string, string>, readReal: string -> Option<Cell>)
    returns (r: Option<map<string, Cell>>)
    ensures r.Some? <==> AllRead(t, raw, readReal)
    ensures r.Some? ==> r.value == ReadAll(t, raw, readReal)
  {
    hide ReadFilter;
    var resolved: map<string, Cell> := map[];
    var left := raw.Keys;
    while left != {}
      invariant left <= raw.Keys && resolved.Keys == raw.Keys - left
      invariant forall c :: c in resolved ==> ReadFilter(t, c, raw[c], readReal) == Some(resolved[c])
      decreases |left|
    {
      var column :| column in left;
      var cell := ResolveColumn(t, column, raw[column], readReal);
      if cell.None? {
        return None;
      }
      resolved := resolved[column := cell.value];
      left := left - {column};
    }
    r := Some(resolved);
  }

  method ResolveColumn(t: TableDef, column: string, raw: string, readReal: string -> Option<Cell>)
    returns (r: Option<Cell>)
    ensures r == ReadFilter(t, column, raw, readReal)
  {
    var field := FindField(t, column);
    if field.None? {
      return None;
    }
    var parsed := ParseFieldValue(field.value.kind, raw, readReal);
    r := if parsed.Ok? then parsed.value else None;
  }

  predicate IsSubtable(t: TableDef) {
    !Blank(t.parentTable) && !Blank(t.parentField)
  }

  /**
   The parent filter of a request, if it is permitted: no id, or an id for the declared parent field
   of a subtable.
   */
  ghost function ParentFilter(t: TableDef, field: string, id: string, readReal: string -> Option<Cell>)
    : Option<map<string, Cell>>
  {
    if Blank(id) then if Blank(field) then Some(map[]) else None
    else if IsSubtable(t) && (Blank(field) || Trim(field) == t.parentField)
            && ReadFilter(t, t.parentField, Trim(id), readReal).Some?
    then Some(map[t.parentField := ReadFilter(t, t.parentField, Trim(id), readReal).value])
    else None
  }

  /** resolveParentFilter. */
  method ResolveParentFilter(t: TableDef, rawField: string, rawId: string, readReal: string -> Option<Cell>)
    returns (r: Option<map<string, Cell>>)
    ensures r == ParentFilter(t, rawField, rawId, readReal)
  {
    var id, field := Trim(rawId), Trim(rawField);
    if id == "" {
      if field != "" {
        return None;
      }
      return Some(map[]);
    }
    if !IsSubtable(t) {
      return None;
    }
    if field == "" {
      field := t.parentField;
    }
    if field != t.parentField {
      return None;
    }
    var cell := ResolveColumn(t, field, id, readReal);
    if cell.None? {
      return None;
    }
    r := Some(map[field := cell.value]);
  }

  // ---- a request

  datatype ListInput = ListInput(sort: string, desc: string, limit: string, offset: string, search: string,
                                 parentField: string, parentId: string, equals: map<string, string>,
                                 from: map<string, string>, to: map<string, string>)

  function LimitOf(input: ListInput): (r: Result<int, string>)
    ensures r.Ok? ==> 1 <= r.value <= MAX_LIMIT
  {
    ParseBoundedInt(input.limit, 30, 1, MAX_LIMIT)
  }

  function OffsetOf(input: ListInput): (r: Result<int, string>)
    ensures r.Ok? ==> 0 <= r.value <= MAX_OFFSET
  {
    ParseBoundedInt(input.offset, 0, 0, MAX_OFFSET)
  }

  function DescOf(input: ListInput): Result<bool, string> {
    ParseStrictBool(input.desc, false)
  }

  /** Numbers within bounds, a boolean flag, a permitted parent filter, and filters that can be read. */
  ghost predicate Acceptable(t: TableDef, input: ListInput, readReal: string -> Option<Cell>) {
    && LimitOf(input).Ok? && OffsetOf(input).Ok? && DescOf(input).Ok?
    && ParentFilter(t, input.parentField, input.parentId, readReal).Some?
    && AllRead(t, input.equals, readReal) && AllRead(t, input.from, readReal) && AllRead(t, input.to, readReal)
  }

  /** What an acceptable request asks of the store; an equality filter wins over the parent filter on its column. */
  ghost function OptionsOf(t: TableDef, input: ListInput, readReal: string -> Option<Cell>): ListOptions
    requires Acceptable(t, input, readReal)
  {
    ListOptions(SortChoice(t, Trim(input.sort)), DescOf(input).value, LimitOf(input).value, OffsetOf(input).value,
                ParentFilter(t, input.parentField, input.parentId, readReal).value + ReadAll(t, input.equals, readReal),
                ReadAll(t, input.from, readReal), ReadAll(t, input.to, readReal), input.search, TextColumns(t.fields))
  }

  lemma FiltersAreColumns(t: TableDef, input: ListInput, readReal: string -> Option<Cell>)
    requires Acceptable(t, input, readReal)
    ensures KnownColumns(t, OptionsOf(t, input, readReal))
  {
    TextColumnsAreFields(t.fields);
    hide TextColumns;
    hide SortChoice;
    hide ParseFieldValue;
    hide LimitOf;
    hide OffsetOf;
    hide DescOf;
  }

  /** The database's outcome for the query of an acceptable request. */
  ghost predicate RunsInput(t: TableDef, input: ListInput, readReal: string -> Option<Cell>, stored: seq<Row>,
                            outcome: Option<seq<Row>>)
    requires Acceptable(t, input, readReal)
  {
    var opts := OptionsOf(t, input, readReal);
    Runs(stored, QueryText(t, opts), QueryArgs(opts), outcome)
  }

  /**
   The request is refused exactly when it is not acceptable or the table has no column to show;
   otherwise the answer is a page of the rows that meet it.
   */
  method ApiListRecords(t: TableDef, input: ListInput, readReal: string -> Option<Cell>, ghost stored: seq<Row>,
                        outcome: Option<seq<Row>>)
    returns (r: Result<ListResult, string>)
    requires Acceptable(t, input, readReal) ==> RunsInput(t, input, readReal, stored, outcome)
    ensures r.Ok? <==> Acceptable(t, input, readReal) && ReadableColumns(t.fields) != []
    ensures r.Ok? ==> IsPage(t, OptionsOf(t, input, readReal), stored, r.value)
  {
    hide AllRead;
    hide ReadAll;
    hide ParentFilter;
    hide LimitOf;
    hide OffsetOf;
    hide DescOf;
    hide Trim;
    hide SortChoice;
    hide TextColumns;
    hide IsPage;
    hide Runs;
    hide QueryText;
    hide QueryArgs;
    hide KnownColumns;
    hide ReadableColumns;
    var limit, offset, desc := LimitOf(input), OffsetOf(input), DescOf(input);
    if limit.Err? { return Err(limit.error); }
    if offset.Err? { return Err(offset.error); }
    if desc.Err? { return Err(desc.error); }
    var parent := ResolveParentFilter(t, input.parentField, input.parentId, readReal);
    if parent.None? { return Err("parent filter"); }
    var equals := ResolveColumnFilters(t, input.equals, readReal);
    if equals.None? { return Err("filter"); }
    var from := ResolveColumnFilters(t, input.from, readReal);
    if from.None? { return Err("filter"); }
    var to := ResolveColumnFilters(t, input.to, readReal);
    if to.None? { return Err("filter"); }
    var sort := SortColumn(t, Trim(input.sort));
    var columns := SearchableColumns(t);
    FiltersAreColumns(t, input, readReal);
    var opts := ListOptions(sort, desc.value, limit.value, offset.value, parent.value + equals.value, from.value,
                            to.value, input.search, columns);
    r := List(t, opts, stored, outcome);
  }

  // ---- in the words of the request

  /** The trimmed text is this word, up to the case of ASCII letters. */
  predicate Says(raw: string, word: string) {
    var s := Trim(raw);
    && |s| == |word|
    && forall i :: 0 <= i < |s| ==> s[i] == word[i] || ('A' <= s[i] <= 'Z' && s[i] as int + 32 == word[i] as int)
  }

  predicate SaysYes(raw: string) {
    Says(raw, "1") || Says(raw, "true") || Says(raw, "yes") || Says(raw, "on")
  }

  predicate SaysNo(raw: string) {
    Says(raw, "0") || Says(raw, "false") || Says(raw, "no") || Says(raw, "off")
  }

  lemma SaysLower(raw: string, word: string)
    requires forall i :: 0 <= i < |word| ==> !('A' <= word[i] <= 'Z')
    ensures var s := Trim(raw);
            Says(raw, word) <==> seq(|s|, i requires 0 <= i < |s| => Like.Fold(s[i])) == word
  {
    hide Trim;
    var s := Trim(raw);
    var lower := seq(|s|, i requires 0 <= i < |s| => Like.Fold(s[i]));
    if lower == word {
      forall i | 0 <= i < |s| ensures s[i] == word[i] || ('A' <= s[i] <= 'Z' && s[i] as int + 32 == word[i] as int) {
        assert lower[i] == word[i];
      }
    }
  }

  /** Descending for yes, ascending for no and for nothing, refused for anything else. */
  lemma DescLaw(input: ListInput)
    ensures DescOf(input).Ok? <==> Trim(input.desc) == "" || SaysYes(input.desc) || SaysNo(input.desc)
    ensures DescOf(input).Ok? ==> (DescOf(input).value <==> SaysYes(input.desc))
  {
    var raw := input.desc;
    SaysLower(raw, "1");
    SaysLower(raw, "true");
    SaysLower(raw, "yes");
    SaysLower(raw, "on");
    SaysLower(raw, "0");
    SaysLower(raw, "false");
    SaysLower(raw, "no");
    SaysLower(raw, "off");
    Apart();
    hide Says;
    hide Like.Fold;
    hide Trim;
  }

  lemma Apart()
    ensures {"1", "true", "yes", "on"} !! {"0", "false", "no", "off"}
  {
    assert "true"[0] == 't' && "yes"[0] == 'y' && "on"[1] == 'n' && "1"[0] == '1';
    assert "false"[0] == 'f' && "no"[0] == 'n' && "off"[1] == 'f' && "0"[0] == '0';
    assert |"true"| == 4 && |"yes"| == 3 && |"on"| == 2 && |"false"| == 5 && |"no"| == 2 && |"off"| == 3;
  }

  /** How many rows, from which on: thirty and the first without a word, otherwise the number within its bounds. */
  lemma NumberLaw(input: ListInput)
    ensures LimitOf(input) == if Trim(input.limit) == "" then Ok(30)
                              else match ParseInt(Trim(input.limit))
                                   case None => LimitOf(input)
                                   case Some(n) => if 1 <= n <= 200 then Ok(n) else LimitOf(input)
    ensures LimitOf(input).Ok? <==>
            Trim(input.limit) == ""
            || (ParseInt(Trim(input.limit)).Some? && 1 <= ParseInt(Trim(input.limit)).value <= 200)
    ensures OffsetOf(input) == if Trim(input.offset) == "" then Ok(0)
                               else match ParseInt(Trim(input.offset))
                                    case None => OffsetOf(input)
                                    case Some(n) => if 0 <= n <= 1_000_000 then Ok(n) else OffsetOf(input)
    ensures OffsetOf(input).Ok? <==>
            Trim(input.offset) == ""
            || (ParseInt(Trim(input.offset)).Some? && 0 <= ParseInt(Trim(input.offset)).value <= 1_000_000)
  {
    hide Trim;
    hide ParseInt;
  }

  /** How the text of a filter is read, kind by kind. */
  lemma FilterLaw(t: TableDef, c: string, raw: string, readReal: string -> Option<Cell>, i: nat)
    requires IsFirst(t, c, i)
    ensures i < |t.fields|
    ensures var read, kind, text := ReadFilter(t, c, raw, readReal), t.fields[i].kind, Trim(raw);
            && (text == "" ==>
                  read == if kind.Plain? || kind.Textarea? || kind.Password? then Some(Txt("")) else None)
            && (text != "" && (kind.Integer? || kind.Foreign?) ==>
                  read == if ParseInt(text).Some?
                          then Some(Num(ParseInt(text).value as real, FormatInt(ParseInt(text).value))) else None)
            && (text != "" && kind.Real? ==> read == readReal(text))
            && (text != "" && kind.Day? ==> read == if ParseDate(text).Some? then Some(Txt(text)) else None)
            && (text != "" && !(kind.Integer? || kind.Foreign? || kind.Real? || kind.Day?) ==> read == Some(Txt(text)))
  {
    KindLaw(t.fields[i].kind, raw, readReal);
    FirstRead(t, c, raw, readReal, i);
    hide *;
  }

  lemma FirstRead(t: TableDef, c: string, raw: string, readReal: string -> Option<Cell>, i: nat)
    requires IsFirst(t, c, i)
    ensures ReadFilter(t, c, raw, readReal) == ReadAs(t.fields[i].kind, raw, readReal)
  {
    FirstExists(t, c);
    OneFirst(t, c, i);
    hide IsFirst;
    hide IsField;
    hide ParseFieldValue;
  }

  function ReadAs(kind: Kind, raw: string, readReal: string -> Option<Cell>): Option<Cell> {
    match ParseFieldValue(kind, raw, readReal)
    case Ok(v) => v
    case Err(_) => None
  }

  lemma KindLaw(kind: Kind, raw: string, readReal: string -> Option<Cell>)
    ensures var read, text := ReadAs(kind, raw, readReal), Trim(raw);
            && (text == "" ==>
                  read == if kind.Plain? || kind.Textarea? || kind.Password? then Some(Txt("")) else None)
            && (text != "" && (kind.Integer? || kind.Foreign?) ==>
                  read == if ParseInt(text).Some?
                          then Some(Num(ParseInt(text).value as real, FormatInt(ParseInt(text).value))) else None)
            && (text != "" && kind.Real? ==> read == readReal(text))
            && (text != "" && kind.Day? ==> read == if ParseDate(text).Some? then Some(Txt(text)) else None)
            && (text != "" && !(kind.Integer? || kind.Foreign? || kind.Real? || kind.Day?) ==> read == Some(Txt(text)))
  {
    DateKept(Trim(raw));
    hide Trim;
    hide ParseInt;
    hide ParseDate;
    hide FormatDate;
    hide FormatInt;
  }

  lemma DateKept(text: string)
    ensures ParseDate(text).Some? ==> FormatDate(ParseDate(text).value) == text
  {
    if ParseDate(text).Some? { FormatParse(text); }
    hide ParseDate;
    hide FormatDate;
  }

  lemma OneFirst(t: TableDef, c: string, i: int)
    requires IsFirst(t, c, i)
    ensures IsField(t, c) && forall j :: IsFirst(t, c, j) ==> j == i
  {
  }

  /** An acceptable request asks for its own filters, bounds, search, order and window, and for nothing else. */
  lemma RequestLaw(t: TableDef, input: ListInput, readReal: string -> Option<Cell>)
    requires Acceptable(t, input, readReal)
    ensures var opts := OptionsOf(t, input, readReal);
            && (opts.desc <==> SaysYes(input.desc)) && opts.search == input.search
            && opts.limit == LimitOf(input).value && opts.offset == OffsetOf(input).value
            && opts.sort == SortChoice(t, Trim(input.sort)) && opts.searchColumns == TextColumns(t.fields)
            && opts.from.Keys == input.from.Keys && opts.to.Keys == input.to.Keys
            && (forall c :: c in input.from ==> Some(opts.from[c]) == ReadFilter(t, c, input.from[c], readReal))
            && (forall c :: c in input.to ==> Some(opts.to[c]) == ReadFilter(t, c, input.to[c], readReal))
            && (forall c :: c in input.equals ==>
                  c in opts.filter && Some(opts.filter[c]) == ReadFilter(t, c, input.equals[c], readReal))
            && (forall c :: c in opts.filter && c !in input.equals ==>
                  && Trim(input.parentId) != "" && c == t.parentField
                  && Some(opts.filter[c]) == ReadFilter(t, c, Trim(input.parentId), readReal))
            && (Trim(input.parentId) != "" ==> t.parentField in opts.filter)
  {
    DescLaw(input);
    hide SaysYes;
    hide SaysNo;
    hide Trim;
    hide ReadFilter;
    hide LimitOf;
    hide OffsetOf;
    hide DescOf;
    hide SortChoice;
    hide TextColumns;
  }

  /** Which requests are acceptable, part by part. */
  lemma AcceptableLaw(t: TableDef, input: ListInput, readReal: string -> Option<Cell>)
    ensures Acceptable(t, input, readReal) <==>
            && LimitOf(input).Ok? && OffsetOf(input).Ok?
            && (Trim(input.desc) == "" || SaysYes(input.desc) || SaysNo(input.desc))
            && ParentFilter(t, input.parentField, input.parentId, readReal).Some?
            && (forall c :: c in input.equals ==> ReadFilter(t, c, input.equals[c], readReal).Some?)
            && (forall c :: c in input.from ==> ReadFilter(t, c, input.from[c], readReal).Some?)
            && (forall c :: c in input.to ==> ReadFilter(t, c, input.to[c], readReal).Some?)
  {
    DescLaw(input);
    hide SaysYes;
    hide SaysNo;
    hide Trim;
    hide ReadFilter;
    hide LimitOf;
    hide OffsetOf;
    hide DescOf;
    hide ParentFilter;
  }

  /** When a parent filter is permitted. */
  lemma ParentLaw(t: TableDef, field: string, id: string, readReal: string -> Option<Cell>)
    ensures ParentFilter(t, field, id, readReal).Some? <==>
            if Trim(id) == "" then Trim(field) == ""
            else && Trim(t.parentTable) != "" && Trim(t.parentField) != ""
                 && (Trim(field) == "" || Trim(field) == t.parentField)
                 && ReadFilter(t, t.parentField, Trim(id), readReal).Some?
  {
    hide Trim;
    hide ReadFilter;
  }
}
