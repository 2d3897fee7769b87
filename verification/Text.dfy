/** Strings as the server handles them: white space trimming, byte order, decimal numbers. */
module Text {
  import opened Wrappers
  import Sorting

  /** The characters that Go's strings.TrimSpace removes. */
  predicate IsSpace(c: char) {
    || c in {'\t', '\n', '\U{0B}', '\U{0C}', '\r', ' ', '\U{85}', '\U{A0}', '\U{1680}'}
    || '\U{2000}' <= c <= '\U{200A}'
    || c in {'\U{2028}', '\U{2029}', '\U{202F}', '\U{205F}', '\U{3000}'}
  }

  function TrimLeft(s: string): (r: string)
    ensures r == "" || !IsSpace(r[0])
    ensures s != "" && !IsSpace(s[0]) ==> r == s
  {
    if s != "" && IsSpace(s[0]) then TrimLeft(s[1..]) else s
  }

  function TrimRight(s: string): (r: string)
    ensures r == "" || !IsSpace(r[|r| - 1])
    ensures s != "" && !IsSpace(s[|s| - 1]) ==> r == s
    ensures s != "" && !IsSpace(s[0]) ==> r != "" && r[0] == s[0]
  {
    if s != "" && IsSpace(s[|s| - 1]) then TrimRight(s[..|s| - 1]) else s
  }

  /** strings.TrimSpace. */
  function Trim(s: string): string {
    TrimRight(TrimLeft(s))
  }

  predicate Blank(s: string) {
    Trim(s) == ""
  }

  lemma TrimIdempotent(s: string)
    ensures Trim(Trim(s)) == Trim(s)
  {
    var t := Trim(s);
    if t != "" {
      assert !IsSpace(TrimLeft(s)[0]);
      assert TrimLeft(t) == t;
    }
  }

  /** Byte order of UTF-8 text, which is the order of the code points. */
  predicate LexLess(a: string, b: string) {
    b != "" && (a == "" || a[0] < b[0] || (a[0] == b[0] && LexLess(a[1..], b[1..])))
  }

  lemma LexIrreflexive(a: string)
    ensures !LexLess(a, a)
  {
  }

  lemma {:induction false} LexTransitive(a: string, b: string, c: string)
    requires LexLess(a, b) && LexLess(b, c)
    ensures LexLess(a, c)
  {
    if a != "" && a[0] == b[0] && b[0] == c[0] {
      LexTransitive(a[1..], b[1..], c[1..]);
    }
  }

  lemma {:induction false} LexTotal(a: string, b: string)
    ensures a == b || LexLess(a, b) || LexLess(b, a)
  {
    if a != "" && b != "" && a[0] == b[0] {
      LexTotal(a[1..], b[1..]);
      assert a == [a[0]] + a[1..] && b == [b[0]] + b[1..];
    }
  }

  lemma LexSameFirst(a: string, b: string)
    requires a != "" && b != "" && a[0] == b[0]
    ensures LexLess(a, b) == LexLess(a[1..], b[1..])
  {
  }

  lemma {:induction false} LexAppend(p: string, a: string, b: string)
    ensures LexLess(p + a, p + b) == LexLess(a, b)
  {
    hide LexLess;
    if p == "" {
      assert p + a == a && p + b == b;
    } else {
      LexAppend(p[1..], a, b);
      assert (p + a)[1..] == p[1..] + a && (p + b)[1..] == p[1..] + b;
      LexSameFirst(p + a, p + b);
    }
  }

  /** Two strings of equal length that differ are ordered by their fronts alone. */
  lemma {:induction false} LexFront(a: string, b: string, x: string, y: string)
    requires |a| == |b| && a != b
    ensures LexLess(a + x, b + y) == LexLess(a, b)
  {
    assert a != "";
    assert (a + x)[1..] == a[1..] + x && (b + y)[1..] == b[1..] + y;
    if a[0] == b[0] {
      assert a == [a[0]] + a[1..] && b == [b[0]] + b[1..];
      LexFront(a[1..], b[1..], x, y);
    }
  }

  lemma LexSorts(s: seq<string>)
    ensures Sorting.StrictOrder(LexLess) && Sorting.Comparable(LexLess, s)
  {
    forall x ensures !LexLess(x, x) { LexIrreflexive(x); }
    forall x, y, z | LexLess(x, y) && LexLess(y, z) ensures LexLess(x, z) { LexTransitive(x, y, z); }
    forall x, y ensures x == y || LexLess(x, y) || LexLess(y, x) { LexTotal(x, y); }
  }

  /** The least of a set of texts. */
  ghost predicate IsLeast(m: string, s: set<string>) {
    m in s && forall x :: x in s ==> !LexLess(x, m)
  }

  lemma {:induction false} LeastExists(s: set<string>)
    requires s != {}
    ensures exists m :: IsLeast(m, s)
  {
    var x :| x in s;
    if s == {x} {
      LexIrreflexive(x);
      assert IsLeast(x, s);
    } else {
      LeastExists(s - {x});
      var m :| IsLeast(m, s - {x});
      var least := if LexLess(x, m) then x else m;
      forall y | y in s ensures !LexLess(y, least) {
        LexIrreflexive(x);
        if y != x && LexLess(y, least) && least == x {
          LexTransitive(y, x, m);
        }
      }
      assert IsLeast(least, s);
    }
  }

  lemma LeastUnique(a: string, b: string, s: set<string>)
    requires IsLeast(a, s) && IsLeast(b, s)
    ensures a == b
  {
    LexTotal(a, b);
  }

  ghost function LeastOf(s: set<string>): Option<string> {
    if s == {} then None else
      LeastExists(s);
      var m :| IsLeast(m, s);
      Some(m)
  }

  /** The texts of a set in ascending order. */
  ghost function SortedKeys(s: set<string>): (r: seq<string>)
    ensures Sorting.Ascending(LexLess, r) && forall x :: x in r <==> x in s
  {
    if s == {} then [] else
      LeastExists(s);
      var m :| IsLeast(m, s);
      var rest := SortedKeys(s - {m});
      assert forall x :: x in rest ==> LexLess(m, x) by {
        forall x | x in rest ensures LexLess(m, x) { LexTotal(m, x); }
      }
      [m] + rest
  }

  /** Map keys read in any order and then sorted. */
  method SortKeys(keys: set<string>) returns (sorted: seq<string>)
    ensures sorted == SortedKeys(keys)
  {
    hide SortedKeys;
    hide LexLess;
    sorted := [];
    var rest := keys;
    while rest != {}
      invariant rest <= keys && Sorting.Distinct(sorted)
      invariant forall k :: k in sorted <==> k in keys && k !in rest
      decreases |rest|
    {
      var k :| k in rest;
      sorted, rest := sorted + [k], rest - {k};
    }
    LexSorts(sorted);
    sorted := Sorting.Sort(LexLess, sorted);
    Sorting.AscendingUnique(LexLess, sorted, SortedKeys(keys));
  }

  // ---- decimal numbers

  predicate IsDigit(c: char) {
    '0' <= c <= '9'
  }

  function DigitChar(n: nat): (c: char)
    requires n < 10
    ensures IsDigit(c) && DigitValue(c) == n
  {
    ['0', '1', '2', '3', '4', '5', '6', '7', '8', '9'][n]
  }

  function DigitValue(c: char): (n: nat)
    requires IsDigit(c)
    ensures n < 10
  {
    c as int - '0' as int
  }

  predicate AllDigits(s: string) {
    forall i :: 0 <= i < |s| ==> IsDigit(s[i])
  }

  function DigitsValue(s: string): nat
    requires AllDigits(s)
  {
    if s == "" then 0 else 10 * DigitsValue(s[..|s| - 1]) + DigitValue(s[|s| - 1])
  }

  /** Decimal digits of n, at least one of them. */
  function Decimal(n: nat): (s: string)
    ensures s != "" && AllDigits(s) && DigitsValue(s) == n
  {
    if n < 10 then [DigitChar(n)] else
      var front := Decimal(n / 10);
      var s := front + [DigitChar(n % 10)];
      assert s[..|s| - 1] == front;
      s
  }

  function FormatInt(n: int): string {
    if n < 0 then "-" + Decimal(-n) else Decimal(n)
  }

  const MIN_INT64: int := -0x8000_0000_0000_0000
  const MAX_INT64: int := 0x7FFF_FFFF_FFFF_FFFF

  /** strconv.ParseInt in base 10 with 64 bits: an optional sign and at least one digit, in range. */
  function ParseInt(s: string): Option<int> {
    var signed := s != "" && s[0] in {'+', '-'};
    var digits := if signed then s[1..] else s;
    if digits == "" || !AllDigits(digits) then None
    else
      var n: int := if signed && s[0] == '-' then 0 - DigitsValue(digits) else DigitsValue(digits);
      if MIN_INT64 <= n <= MAX_INT64 then Some(n) else None
  }

  lemma ParseFormatInt(n: int)
    requires MIN_INT64 <= n <= MAX_INT64
    ensures ParseInt(FormatInt(n)) == Some(n)
  {
    var s := FormatInt(n);
    if n < 0 {
      assert s[1..] == Decimal(-n);
    } else {
      assert IsDigit(s[0]);
    }
  }

  /** A text comes before another when it is its beginning, or has the smaller character where they first differ. */
  lemma {:induction false} LexLaw(a: string, b: string)
    ensures LexLess(a, b) <==>
            (a < b || exists i :: 0 <= i < |a| && i < |b| && a[..i] == b[..i] && a[i] < b[i])
    decreases |a|
  {
    if a != "" && b != "" {
      if a[0] == b[0] {
        LexLaw(a[1..], b[1..]);
        SameHead(a, b);
      } else {
        OtherHead(a, b);
      }
    }
  }

  lemma SameHead(a: string, b: string)
    requires a != "" && b != "" && a[0] == b[0]
    ensures a < b <==> a[1..] < b[1..]
    ensures (exists i :: 0 <= i < |a| && i < |b| && a[..i] == b[..i] && a[i] < b[i]) <==>
            (exists i :: 0 <= i < |a[1..]| && i < |b[1..]| && a[1..][..i] == b[1..][..i] && a[1..][i] < b[1..][i])
  {
    var u, v := a[1..], b[1..];
    if i :| 0 <= i < |u| && i < |v| && u[..i] == v[..i] && u[i] < v[i] {
      assert a[..i + 1] == [a[0]] + u[..i] && b[..i + 1] == [b[0]] + v[..i];
      assert a[i + 1] < b[i + 1];
    }
    if i :| 0 <= i < |a| && i < |b| && a[..i] == b[..i] && a[i] < b[i] {
      assert u[..i - 1] == a[..i][1..] && v[..i - 1] == b[..i][1..];
      assert u[i - 1] < v[i - 1];
    }
  }

  lemma OtherHead(a: string, b: string)
    requires a != "" && b != "" && a[0] != b[0]
    ensures (exists i :: 0 <= i < |a| && i < |b| && a[..i] == b[..i] && a[i] < b[i]) <==> a[0] < b[0]
  {
    assert a[..0] == b[..0];
    assert forall i :: 0 < i <= |a| ==> a[..i][0] == a[0];
    assert forall i :: 0 < i <= |b| ==> b[..i][0] == b[0];
  }

  /** Trimming cuts white space off both ends and nothing else. */
  lemma TrimLaw(s: string)
    ensures exists i, j :: 0 <= i <= j <= |s| && Trim(s) == s[i..j] && Spaces(s[..i]) && Spaces(s[j..])
    ensures Trim(s) != "" ==> !IsSpace(Trim(s)[0]) && !IsSpace(Trim(s)[|Trim(s)| - 1])
  {
    var i := LeftEnd(s);
    var t := s[i..];
    var n := RightEnd(t);
    assert t[..n] == s[i..i + n] && t[n..] == s[i + n..];
  }

  predicate Spaces(s: string) {
    forall i :: 0 <= i < |s| ==> IsSpace(s[i])
  }

  lemma {:induction false} LeftEnd(s: string) returns (i: nat)
    ensures i <= |s| && TrimLeft(s) == s[i..] && Spaces(s[..i])
  {
    if s != "" && IsSpace(s[0]) {
      i := LeftEnd(s[1..]);
      i := i + 1;
      assert s[i..] == s[1..][i - 1..];
      assert s[..i] == [s[0]] + s[1..][..i - 1];
    } else {
      i := 0;
    }
  }

  lemma {:induction false} RightEnd(s: string) returns (n: nat)
    ensures n <= |s| && TrimRight(s) == s[..n] && Spaces(s[n..])
  {
    if s != "" && IsSpace(s[|s| - 1]) {
      n := RightEnd(s[..|s| - 1]);
      assert s[..n] == s[..|s| - 1][..n];
      assert s[n..] == s[..|s| - 1][n..] + [s[|s| - 1]];
    } else {
      n := |s|;
    }
  }

  /** The usual white space, and no other printable ASCII character. */
  lemma SpaceLaw(c: char)
    ensures c == ' ' || c == '\t' || c == '\n' || c == '\r' ==> IsSpace(c)
    ensures '!' <= c <= '~' ==> !IsSpace(c)
  {
  }

  /** An integer is digits with an optional sign before them, within 64 bits; nothing else is one. */
  lemma ParseIntLaw(s: string)
    ensures forall d: string :: d != "" && AllDigits(d) && (s == d || s == "+" + d) ==>
              ParseInt(s) == if DigitsValue(d) <= 0x7FFF_FFFF_FFFF_FFFF then Some(DigitsValue(d)) else None
    ensures forall d: string :: d != "" && AllDigits(d) && s == "-" + d ==>
              ParseInt(s) == if DigitsValue(d) <= 0x8000_0000_0000_0000 then Some(0 - DigitsValue(d)) else None
    ensures ParseInt(s).Some? ==>
              s != "" && AllDigits(if s[0] == '+' || s[0] == '-' then s[1..] else s)
              && (s[0] == '+' || s[0] == '-' ==> |s| > 1)
  {
    forall d: string | d != "" && AllDigits(d) && s == d
      ensures ParseInt(s) == if DigitsValue(d) <= 0x7FFF_FFFF_FFFF_FFFF then Some(DigitsValue(d)) else None
    {
      assert IsDigit(d[0]);
    }
    forall d: string | d != "" && AllDigits(d) && (s == "+" + d || s == "-" + d) ensures s[1..] == d {
    }
  }
}
