/** Escaping text for a double-quoted literal. */
module QuoteCodec {

  function WrapWithQuotes(s: string): string { "\"" + s + "\"" }

  // ------------------------------------------------------------- escape all

  function EscapeAll(s: string): string {
    if s == "" then ""
    else (if s[0] == '"' || s[0] == '\\' then ['\\', s[0]] else [s[0]]) + EscapeAll(s[1..])
  }

  function Escaped(c: char): string { if c == '"' || c == '\\' then ['\\', c] else [c] }

  lemma EscapeAllCons(c: char, t: string)
    ensures EscapeAll([c] + t) == Escaped(c) + EscapeAll(t)
  {
    assert ([c] + t)[1..] == t;
  }

  lemma Associates(a: string, b: string, c: string)
    ensures (a + b) + c == a + (b + c)
  {
  }

  /** Escaping works character by character: quotes and backslashes get a backslash in
      front, and every other character stays. */
  lemma {:induction false} EscapeAllJoins(a: string, b: string)
    ensures EscapeAll(a + b) == EscapeAll(a) + EscapeAll(b)
  {
    if a == "" {
      assert a + b == b;
    } else {
      var c, t := a[0], a[1..];
      EscapeAllJoins(t, b);
      EscapeAllCons(c, t);
      EscapeAllCons(c, t + b);
      assert a == [c] + t && a + b == [c] + (t + b);
      Associates(Escaped(c), EscapeAll(t), EscapeAll(b));
    }
  }

  lemma EscapeAllOne(c: char)
    ensures EscapeAll([c]) == if c == '"' then "\\\"" else if c == '\\' then "\\\\" else [c]
  {
    assert [c][1..] == "";
  }

  /** Drops every escaping backslash. */
  function Unescape(t: string): string {
    if t == "" then ""
    else if t[0] == '\\' && |t| > 1 then [t[1]] + Unescape(t[2..])
    else [t[0]] + Unescape(t[1..])
  }

  /** A reader of the literal, after its opening quote: it ends at the first quote
      that no backslash escapes, and nothing may follow. */
  predicate Closes(t: string, escaped: bool) {
    if t == "" then false
    else if escaped then Closes(t[1..], false)
    else if t[0] == '\\' then Closes(t[1..], true)
    else if t[0] == '"' then |t| == 1
    else Closes(t[1..], false)
  }

  predicate IsLiteral(t: string) { t != "" && t[0] == '"' && Closes(t[1..], false) }

  lemma {:induction false} UnescapeEscapeAll(s: string)
    ensures Unescape(EscapeAll(s)) == s
  {
    if s != "" {
      UnescapeEscapeAll(s[1..]);
      var t := EscapeAll(s);
      if s[0] == '"' || s[0] == '\\' {
        assert t[2..] == EscapeAll(s[1..]);
      } else {
        assert t[1..] == EscapeAll(s[1..]);
      }
    }
  }

  lemma {:induction false} EscapeAllCloses(s: string)
    ensures Closes(EscapeAll(s) + "\"", false)
  {
    if s != "" {
      EscapeAllCloses(s[1..]);
      var t := EscapeAll(s) + "\"";
      if s[0] == '"' || s[0] == '\\' {
        assert t[1..][1..] == EscapeAll(s[1..]) + "\"";
        assert Closes(t[1..], true);
      } else {
        assert t[1..] == EscapeAll(s[1..]) + "\"";
      }
    }
  }

  /** Any text escaped with EscapeAll and wrapped is one literal. */
  lemma EscapeAllIsLiteral(s: string)
    ensures IsLiteral(WrapWithQuotes(EscapeAll(s)))
  {
    EscapeAllCloses(s);
    assert WrapWithQuotes(EscapeAll(s))[1..] == EscapeAll(s) + "\"";
  }

  method EscapeAllLoop(s: string) returns (res: string)
    ensures res == EscapeAll(s)
  {
    res := "";
    for i := 0 to |s|
      invariant res + EscapeAll(s[i..]) == EscapeAll(s)
    {
      assert s[i..][0] == s[i] && s[i..][1..] == s[i + 1..];
      if s[i] == '"' || s[i] == '\\' { res := res + ['\\']; }
      res := res + [s[i]];
    }
  }

  // ---------------------------------------------------------- escape quotes

  /** Escapes the quotes of `s` that no backslash precedes, where `last` is the
      last character written before. */
  function EscapeAfter(s: string, last: char): string {
    if s == "" then ""
    else (if s[0] == '"' && last != '\\' then ['\\', '"'] else [s[0]]) + EscapeAfter(s[1..], s[0])
  }

  /** `EscapeQuotes` reads the last written character at every quote, so its text
      must not start with one. */
  function EscapeQuotes(s: string): string
    requires s != "" ==> s[0] != '"'
  {
    if s == "" then "" else [s[0]] + EscapeAfter(s[1..], s[0])
  }

  method EscapeQuotesLoop(s: string) returns (res: string)
    requires s != "" ==> s[0] != '"'
    ensures res == EscapeQuotes(s)
  {
    res := "";
    for i := 0 to |s|
      invariant i > 0 ==> res != "" && res[|res| - 1] == s[i - 1]
      invariant i == 0 ==> res == ""
      invariant i > 0 ==> res + EscapeAfter(s[i..], s[i - 1]) == EscapeQuotes(s)
    {
      assert s[i..][0] == s[i] && s[i..][1..] == s[i + 1..];
      if s[i] == '"' && res[|res| - 1] != '\\' { res := res + ['\\']; }
      res := res + [s[i]];
    }
  }

  lemma {:induction false} EscapeAfterTwice(s: string, last: char)
    ensures EscapeAfter(EscapeAfter(s, last), last) == EscapeAfter(s, last)
  {
    if s != "" {
      EscapeAfterTwice(s[1..], s[0]);
      var t := EscapeAfter(s, last);
      if s[0] == '"' && last != '\\' {
        assert t[1..][1..] == EscapeAfter(s[1..], '"');
        assert EscapeAfter(t[1..], '\\') == ['"'] + EscapeAfter(t[1..][1..], '"');
      } else {
        assert t[1..] == EscapeAfter(s[1..], s[0]);
      }
    }
  }

  /** Escaping quotes twice is escaping them once. */
  lemma EscapeQuotesIdempotent(s: string)
    requires s != "" ==> s[0] != '"'
    ensures EscapeQuotes(s) != "" ==> EscapeQuotes(s)[0] != '"'
    ensures EscapeQuotes(EscapeQuotes(s)) == EscapeQuotes(s)
  {
    if s != "" {
      EscapeAfterTwice(s[1..], s[0]);
      assert EscapeQuotes(s)[1..] == EscapeAfter(s[1..], s[0]);
    }
  }

  lemma {:induction false} EscapeAfterIsEscapeAll(s: string, last: char)
    requires '\\' !in s && last != '\\'
    ensures EscapeAfter(s, last) == EscapeAll(s)
  {
    if s != "" { EscapeAfterIsEscapeAll(s[1..], s[0]); }
  }

  /** On text without backslashes the two escapers agree. */
  lemma EscapersAgree(s: string)
    requires (s != "" ==> s[0] != '"') && '\\' !in s
    ensures EscapeQuotes(s) == EscapeAll(s)
  {
    if s != "" { EscapeAfterIsEscapeAll(s[1..], s[0]); }
  }

  /** After `run` backslashes: every quote is preceded by no backslash or by an
      odd number of them, and the text does not end in an odd number. */
  predicate Paired(s: string, run: nat) {
    if s == "" then run % 2 == 0
    else if s[0] == '\\' then Paired(s[1..], run + 1)
    else if s[0] == '"' then (run == 0 || run % 2 == 1) && Paired(s[1..], 0)
    else Paired(s[1..], 0)
  }

  lemma {:induction false} ClosesIffPaired(s: string, last: char, run: nat)
    requires last == '\\' <==> run > 0
    ensures Closes(EscapeAfter(s, last) + "\"", run % 2 == 1) <==> Paired(s, run)
  {
    var t := EscapeAfter(s, last) + "\"";
    if s == "" {
      assert t == "\"";
    } else {
      var next := if s[0] == '\\' then run + 1 else 0;
      ClosesIffPaired(s[1..], s[0], next);
      var rest := EscapeAfter(s[1..], s[0]) + "\"";
      if s[0] == '"' && last != '\\' {
        assert t[1..][1..] == rest;
        assert Closes(t[1..], true) <==> Closes(rest, false);
      } else {
        assert t[1..] == rest;
      }
    }
  }

  /** Text escaped with EscapeQuotes and wrapped is one literal exactly when its
      backslashes pair up: an even, non-empty run before a quote, or an odd run
      at the end, breaks it. */
  lemma EscapeQuotesIsLiteralIff(s: string)
    requires s != "" ==> s[0] != '"'
    ensures IsLiteral(WrapWithQuotes(EscapeQuotes(s))) <==> Paired(s, 0)
  {
    var t := WrapWithQuotes(EscapeQuotes(s));
    assert t[1..] == EscapeQuotes(s) + "\"";
    ClosesIffPaired(s, ' ', 0);
    if s != "" { assert EscapeAfter(s, ' ') == EscapeQuotes(s); }
  }

  /** With EscapeQuotes a quote gets a backslash unless one precedes it, and every
      other character stays. */
  lemma {:induction false} EscapeQuotesAppends(s: string, c: char)
    requires s != "" && s[0] != '"'
    ensures EscapeQuotes(s + [c])
            == EscapeQuotes(s) + if c == '"' && s[|s| - 1] != '\\' then "\\\"" else [c]
  {
    assert (s + [c])[1..] == s[1..] + [c];
    EscapeAfterAppends(s[1..], s[0], c);
  }

  lemma EscapeAfterCons(x: char, t: string, last: char)
    ensures EscapeAfter([x] + t, last) == (if x == '"' && last != '\\' then "\\\"" else [x]) + EscapeAfter(t, x)
  {
    assert ([x] + t)[1..] == t;
  }

  lemma {:induction false} EscapeAfterAppends(s: string, last: char, c: char)
    ensures var end := if s == "" then last else s[|s| - 1];
      EscapeAfter(s + [c], last) == EscapeAfter(s, last) + if c == '"' && end != '\\' then "\\\"" else [c]
  {
    if s == "" {
      assert s + [c] == [c] + "";
      EscapeAfterCons(c, "", last);
    } else {
      var x, t := s[0], s[1..];
      EscapeAfterAppends(t, x, c);
      EscapeAfterCons(x, t, last);
      EscapeAfterCons(x, t + [c], last);
      assert s == [x] + t && s + [c] == [x] + (t + [c]);
      var end := s[|s| - 1];
      Associates(if x == '"' && last != '\\' then "\\\"" else [x], EscapeAfter(t, x),
                 if c == '"' && end != '\\' then "\\\"" else [c]);
    }
  }
}
