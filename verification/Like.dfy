/** Pattern matching in the store, and the escaping that makes a search text literal. */
module Like {

  /** The lower case of an ASCII letter; every other character is its own. */
  function Lower(c: char): (r: char)
    ensures 'A' <= c <= 'Z' || r == c
  {
    if 'A' <= c <= 'Z' then c - 'A' + 'a' else c
  }

  function Lowered(s: string): (r: string)
    ensures |r| == |s| && forall i :: 0 <= i < |s| ==> r[i] == Lower(s[i])
  {
    if s == [] then [] else [Lower(s[0])] + Lowered(s[1..])
  }

  predicate IsLetter(c: char) { 65 <= c as int <= 90 || 97 <= c as int <= 122 }

  /** One character, or one ASCII letter in its two cases, which are 32 code points apart. */
  predicate EitherCase(c: char, d: char) {
    c == d || (IsLetter(c) && IsLetter(d) && (c as int == d as int + 32 || d as int == c as int + 32))
  }

  /** Two characters have one lower case exactly when they are one, or one letter in its two cases; and that is not a capital. */
  lemma LowerMeans(c: char, d: char)
    ensures Lower(c) == Lower(d) <==> EitherCase(c, d)
    ensures EitherCase(Lower(c), c) && !(65 <= Lower(c) as int <= 90)
  {
  }

  /** LIKE with the escape character `\`: `%` stands for any text, `_` for one character, an escaped character for itself, and
      ASCII letters match in either case. */
  predicate Matches(pattern: string, text: string)
    decreases |pattern| + |text|
  {
    if pattern == [] then text == []
    else if pattern[0] == '%' then Matches(pattern[1..], text) || (text != [] && Matches(pattern, text[1..]))
    else if pattern[0] == '\\' then
      |pattern| >= 2 && text != [] && EitherCase(pattern[1], text[0]) && Matches(pattern[2..], text[1..])
    else text != [] && (pattern[0] == '_' || EitherCase(pattern[0], text[0])) && Matches(pattern[1..], text[1..])
  }

  function Replaced(s: string, c: char, into: string): string {
    if s == [] then [] else (if s[0] == c then into else [s[0]]) + Replaced(s[1..], c, into)
  }

  /** Escape characters first, then the two wildcards. */
  function EscapeLike(value: string): string {
    Replaced(Replaced(Replaced(value, '\\', "\\\\"), '%', "\\%"), '_', "\\_")
  }

  lemma {:induction false} ReplacedConcat(a: string, b: string, c: char, into: string)
    ensures Replaced(a + b, c, into) == Replaced(a, c, into) + Replaced(b, c, into)
  {
    if a == [] {
      assert a + b == b;
    } else {
      assert (a + b)[1..] == a[1..] + b;
      ReplacedConcat(a[1..], b, c, into);
    }
  }

  function Escaped(c: char): string { if c == '\\' || c == '%' || c == '_' then ['\\', c] else [c] }

  lemma ReplacedOne(d: char, c: char, into: string)
    ensures Replaced([d], c, into) == if d == c then into else [d]
  {
    assert [d][1..] == [];
    assert into + [] == into;
  }

  lemma ReplacedTwo(d: char, e: char, c: char, into: string)
    ensures Replaced([d, e], c, into) == (if d == c then into else [d]) + (if e == c then into else [e])
  {
    assert [d, e] == [d] + [e];
    ReplacedConcat([d], [e], c, into);
    ReplacedOne(d, c, into);
    ReplacedOne(e, c, into);
  }

  lemma EscapeOne(c: char)
    ensures EscapeLike([c]) == Escaped(c)
  {
    ReplacedOne(c, '\\', "\\\\");
    ReplacedOne(c, '%', "\\%");
    ReplacedOne(c, '_', "\\_");
    ReplacedTwo('\\', '\\', '%', "\\%");
    ReplacedTwo('\\', '\\', '_', "\\_");
    ReplacedTwo('\\', '%', '_', "\\_");
  }

  /** The three replacements escape character by character. */
  lemma EscapeFirst(s: string)
    requires s != []
    ensures EscapeLike(s) == Escaped(s[0]) + EscapeLike(s[1..])
  {
    var a, b := [s[0]], s[1..];
    assert s == a + b;
    ReplacedConcat(a, b, '\\', "\\\\");
    ReplacedConcat(Replaced(a, '\\', "\\\\"), Replaced(b, '\\', "\\\\"), '%', "\\%");
    ReplacedConcat(Replaced(Replaced(a, '\\', "\\\\"), '%', "\\%"), Replaced(Replaced(b, '\\', "\\\\"), '%', "\\%"), '_', "\\_");
    EscapeOne(s[0]);
  }

  // ----- what a search finds -----

  /** A text begins with another, letters in either case. */
  predicate Begins(text: string, query: string) {
    |query| <= |text| && forall j :: 0 <= j < |query| ==> EitherCase(query[j], text[j])
  }

  /** Somewhere in a text another begins. */
  predicate Contains(text: string, query: string) { exists i :: 0 <= i <= |text| && Begins(text[i..], query) }

  lemma {:induction false} AnyMatches(text: string)
    ensures Matches("%", text)
  {
    assert "%"[1..] == [];
    if text != [] {
      AnyMatches(text[1..]);
    }
  }

  lemma BeginsFirst(text: string, query: string)
    requires query != []
    ensures Begins(text, query) <==> text != [] && EitherCase(query[0], text[0]) && Begins(text[1..], query[1..])
  {
    hide EitherCase;
    if text != [] {
      assert forall j :: 0 <= j < |query| - 1 ==> query[1..][j] == query[j + 1];
      assert forall j :: 0 <= j < |text| - 1 ==> text[1..][j] == text[j + 1];
      assert forall j :: 1 <= j < |query| ==> query[j] == query[1..][j - 1];
      assert forall j :: 1 <= j < |text| ==> text[j] == text[1..][j - 1];
    }
  }

  /** An escaped query matches itself, whatever wildcards it holds. */
  lemma {:induction false} EscapedMatches(query: string, text: string)
    ensures Matches(EscapeLike(query) + "%", text) <==> Begins(text, query)
    decreases |query|
  {
    if query == [] {
      assert EscapeLike(query) + "%" == "%";
      AnyMatches(text);
    } else {
      EscapeFirst(query);
      BeginsFirst(text, query);
      var pattern, rest := EscapeLike(query) + "%", EscapeLike(query[1..]) + "%";
      hide EscapeLike, Begins;
      assert pattern == Escaped(query[0]) + rest;
      if |Escaped(query[0])| == 2 {
        assert pattern[0] == '\\' && pattern[1] == query[0] && pattern[2..] == rest;
      } else {
        assert pattern[0] == query[0] && pattern[1..] == rest;
      }
      if text != [] {
        EscapedMatches(query[1..], text[1..]);
      }
    }
  }

  lemma {:induction false} AnywhereMatches(pattern: string, text: string)
    ensures Matches("%" + pattern, text) <==> exists i :: 0 <= i <= |text| && Matches(pattern, text[i..])
    decreases |text|
  {
    var whole := "%" + pattern;
    assert whole[0] == '%' && whole[1..] == pattern;
    assert text[0..] == text;
    if text != [] {
      AnywhereMatches(pattern, text[1..]);
      assert forall i :: 1 <= i <= |text| ==> text[i..] == text[1..][i - 1..];
      assert forall i :: 0 <= i <= |text| - 1 ==> text[1..][i..] == text[i + 1..];
    }
  }

  /** The pattern of a search matches exactly the texts that contain the search text, its wildcards taken literally. */
  lemma SearchFinds(query: string, text: string)
    ensures Matches("%" + EscapeLike(query) + "%", text) <==> Contains(text, query)
  {
    hide Matches, EscapeLike, Begins;
    assert "%" + EscapeLike(query) + "%" == "%" + (EscapeLike(query) + "%");
    AnywhereMatches(EscapeLike(query) + "%", text);
    forall i | 0 <= i <= |text| ensures Matches(EscapeLike(query) + "%", text[i..]) <==> Begins(text[i..], query) {
      EscapedMatches(query, text[i..]);
    }
  }

  /** Lowering a text beforehand changes nothing. */
  lemma LoweredContains(text: string, query: string)
    ensures Contains(Lowered(text), query) <==> Contains(text, query)
  {
    LoweredLetters(text);
    hide EitherCase, Lower;
    forall i | 0 <= i <= |text| ensures Begins(Lowered(text)[i..], query) <==> Begins(text[i..], query) {
      assert forall j :: 0 <= j < |text| - i ==> Lowered(text)[i..][j] == Lowered(text)[i + j] && text[i..][j] == text[i + j];
    }
  }

  /** A character matches a lowered one exactly when it matches the one that was lowered. */
  lemma LoweredLetters(text: string)
    ensures forall j: nat, c :: j < |text| ==> (EitherCase(c, Lowered(text)[j]) <==> EitherCase(c, text[j]))
    ensures forall j: nat, c :: j < |text| ==> (EitherCase(Lowered(text)[j], c) <==> EitherCase(text[j], c))
  {
  }

  /** So does lowering the search text. */
  lemma LoweredQuery(text: string, query: string)
    ensures Contains(text, Lowered(query)) <==> Contains(text, query)
  {
    LoweredLetters(query);
    hide EitherCase, Lower;
    forall i | 0 <= i <= |text| ensures Begins(text[i..], Lowered(query)) <==> Begins(text[i..], query) {
    }
  }
}
