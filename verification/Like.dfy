/** SQL LIKE with the escape character `\`, and the escaping that makes a search literal. */
module Like {

  /** LIKE ignores the case of ASCII letters only. */
  function Fold(c: char): char {
    if 'A' <= c <= 'Z' then (c as int - 'A' as int + 'a' as int) as char else c
  }

  predicate SameText(a: string, b: string) {
    |a| == |b| && forall i :: 0 <= i < |a| ==> Fold(a[i]) == Fold(b[i])
  }

  /** text LIKE pattern ESCAPE '\'. */
  predicate Matches(pattern: string, text: string)
    decreases |pattern| + |text|
  {
    if pattern == "" then text == ""
    else if pattern[0] == '%' then Matches(pattern[1..], text) || (text != "" && Matches(pattern, text[1..]))
    else if pattern[0] == '_' then text != "" && Matches(pattern[1..], text[1..])
    else if pattern[0] == '\\' then
      |pattern| > 1 && text != "" && Fold(pattern[1]) == Fold(text[0]) && Matches(pattern[2..], text[1..])
    else text != "" && Fold(pattern[0]) == Fold(text[0]) && Matches(pattern[1..], text[1..])
  }

  /** escapeLike. */
  function EscapeLike(s: string): string {
    if s == "" then ""
    else (if s[0] in {'\\', '%', '_'} then ['\\', s[0]] else [s[0]]) + EscapeLike(s[1..])
  }

  /** s occurs in text, ignoring ASCII case. */
  ghost predicate Occurs(s: string, text: string) {
    exists i :: OccursAt(s, text, i)
  }

  predicate OccursAt(s: string, text: string, i: int) {
    0 <= i <= |text| - |s| && SameText(s, text[i..i + |s|])
  }

  /** An escaped text matches itself and nothing else. */
  lemma {:induction false} EscapedPrefix(s: string, rest: string, text: string)
    ensures Matches(EscapeLike(s) + rest, text) <==>
            |s| <= |text| && SameText(s, text[..|s|]) && Matches(rest, text[|s|..])
    decreases |s|
  {
    var e := EscapeLike(s) + rest;
    if s == "" {
      assert e == rest && text[0..] == text;
    } else {
      var tail := EscapeLike(s[1..]) + rest;
      var head := if s[0] in {'\\', '%', '_'} then ['\\', s[0]] else [s[0]];
      assert e == head + tail;
      assert e[|head|..] == tail;
      if text != "" {
        EscapedPrefix(s[1..], rest, text[1..]);
        if |s| <= |text| {
          assert text[1..][..|s| - 1] == text[1..|s|] && text[1..][|s| - 1..] == text[|s|..];
          assert SameText(s, text[..|s|]) <==> Fold(s[0]) == Fold(text[0]) && SameText(s[1..], text[1..|s|]);
        }
      }
    }
  }

  lemma {:induction false} PercentMatchesAll(text: string)
    ensures Matches("%", text)
    decreases |text|
  {
    if text != "" {
      PercentMatchesAll(text[1..]);
    } else {
      assert "%"[1..] == "";
    }
  }

  /** A leading % lets the rest of the pattern start anywhere. */
  lemma {:induction false} PercentSkips(rest: string, text: string)
    ensures Matches("%" + rest, text) <==> exists i :: 0 <= i <= |text| && Matches(rest, text[i..])
    decreases |text|
  {
    var pattern := "%" + rest;
    assert pattern[0] == '%' && pattern[1..] == rest;
    assert text[0..] == text;
    if text != "" {
      PercentSkips(rest, text[1..]);
      forall i | 0 <= i <= |text| - 1 ensures text[1..][i..] == text[i + 1..] {}
      if j :| 0 <= j <= |text[1..]| && Matches(rest, text[1..][j..]) {
        assert Matches(rest, text[j + 1..]);
      }
      if i :| 0 <= i <= |text| && Matches(rest, text[i..]) && i > 0 {
        assert text[1..][i - 1..] == text[i..];
      }
    }
  }

  /** Search is literal, whatever wildcards or escapes the search text contains. */
  lemma SearchIsLiteral(s: string, text: string)
    ensures Matches("%" + EscapeLike(s) + "%", text) <==> Occurs(s, text)
  {
    var rest := EscapeLike(s) + "%";
    assert "%" + EscapeLike(s) + "%" == "%" + rest;
    PercentSkips(rest, text);
    forall i | 0 <= i <= |text| ensures Matches(rest, text[i..]) <==> OccursAt(s, text, i) {
      EscapedPrefix(s, "%", text[i..]);
      if |s| <= |text[i..]| {
        PercentMatchesAll(text[i..][|s|..]);
        assert text[i..][..|s|] == text[i..i + |s|];
      }
    }
  }

  /** Two characters are the same up to the case of ASCII letters. */
  lemma FoldLaw(a: char, b: char)
    ensures Fold(a) == Fold(b) <==>
            a == b || ('A' <= a <= 'Z' && b as int == a as int + 32) || ('A' <= b <= 'Z' && a as int == b as int + 32)
  {
  }

  /** An underscore that is not escaped stands for any one character, a percent sign for any text. */
  lemma WildcardLaw(text: string)
    ensures Matches("_", text) <==> |text| == 1
    ensures Matches("%", text)
  {
    PercentMatchesAll(text);
    assert "_"[1..] == "";
    if text != "" { assert |text[1..]| == |text| - 1; }
  }
}
