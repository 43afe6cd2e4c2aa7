/** HTML escaping on the backend and its reversal in the page. */
module HtmlCodec {
  import opened Wrappers
  import opened Text

  /** The five escaped characters and their codes. */
  function Code(c: char): string
    requires Special(c)
  {
    if c == '\t' then "&#9;" else if c == '\n' then "&#10;" else if c == '"' then "&#34;"
    else if c == '\\' then "&#92;" else "&#39;"
  }

  predicate Special(c: char) { c == '\t' || c == '\n' || c == '"' || c == '\\' || c == '\'' }

  /** A code is the character's number between "&#" and ";". */
  lemma CodeIsNumber(c: char)
    requires Special(c)
    ensures Code(c) == "&#" + ToString(c as nat) + ";"
  {
    assert ToString(9) == "9" && ToString(10) == "10" && ToString(34) == "34";
    assert ToString(39) == "39" && ToString(92) == "92";
  }

  /** Escaped are the tab, the newline, the two quotes and the backslash. */
  lemma SpecialIff(c: char)
    ensures Special(c) <==> c as nat in {9, 10, 34, 39, 92}
  {
  }

  function HtmlEscape(s: string): string {
    if s == "" then "" else EscapeChar(s[0]) + HtmlEscape(s[1..])
  }

  function EscapeMap(): (m: map<char, string>)
    ensures forall c :: c in m <==> Special(c)
    ensures forall c :: c in m ==> m[c] == Code(c)
  {
    map['\t' := "&#9;", '\n' := "&#10;", '"' := "&#34;", '\\' := "&#92;", '\'' := "&#39;"]
  }

  function EscapeChar(c: char): string {
    if Special(c) then Code(c) else [c]
  }

  lemma EscapeStep(res: string, s: string, i: nat, piece: string)
    requires i < |s| && piece == EscapeChar(s[i])
    ensures (res + piece) + HtmlEscape(s[i + 1..]) == res + HtmlEscape(s[i..])
  {
    assert s[i..][1..] == s[i + 1..];
  }

  method HtmlEscapeLoop(s: string) returns (res: string)
    ensures res == HtmlEscape(s)
  {
    var escapes := EscapeMap();
    res := "";
    assert s[0..] == s;
    for i := 0 to |s|
      invariant res + HtmlEscape(s[i..]) == HtmlEscape(s)
    {
      ghost var before := res;
      if s[i] !in escapes {
        res := res + [s[i]];
        EscapeStep(before, s, i, [s[i]]);
      } else {
        res := res + escapes[s[i]];
        EscapeStep(before, s, i, escapes[s[i]]);
      }
    }
  }

  lemma EscapeCons(c: char, t: string)
    ensures HtmlEscape([c] + t) == EscapeChar(c) + HtmlEscape(t)
  {
    assert ([c] + t)[1..] == t;
  }

  lemma Associates(a: string, b: string, c: string)
    ensures (a + b) + c == a + (b + c)
  {
  }

  /** Escaping works character by character: a special character becomes its code,
      and every other one stays. */
  lemma {:induction false} EscapeJoins(a: string, b: string)
    ensures HtmlEscape(a + b) == HtmlEscape(a) + HtmlEscape(b)
  {
    if a == "" {
      assert a + b == b;
    } else {
      var c, t := a[0], a[1..];
      EscapeJoins(t, b);
      EscapeCons(c, t);
      EscapeCons(c, t + b);
      assert a == [c] + t && a + b == [c] + (t + b);
      Associates(EscapeChar(c), HtmlEscape(t), HtmlEscape(b));
    }
  }

  lemma EscapeOne(c: char)
    ensures HtmlEscape([c]) == if c as nat in {9, 10, 34, 39, 92} then "&#" + ToString(c as nat) + ";" else [c]
  {
    SpecialIff(c);
    if Special(c) { CodeIsNumber(c); }
    assert [c][1..] == "";
  }

  /** No special character is left. */
  lemma {:induction false} EscapedIsSafe(s: string)
    ensures forall i :: 0 <= i < |HtmlEscape(s)| ==> !Special(HtmlEscape(s)[i])
  {
    if s != "" { EscapedIsSafe(s[1..]); }
  }

  /** A global regular-expression replacement of a code by a character. */
  function ReplaceAll(t: string, code: string, c: char): string
    requires code != ""
    decreases |t|
  {
    if t == "" then ""
    else if code <= t then [c] + ReplaceAll(t[|code|..], code, c)
    else [t[0]] + ReplaceAll(t[1..], code, c)
  }

  function Replace(t: string, c: char): string
    requires Special(c)
  {
    ReplaceAll(t, Code(c), c)
  }

  /** The page replaces the codes one after the other. */
  function UnEscape(t: string): string {
    Replace(Replace(Replace(Replace(Replace(t, '\t'), '\n'), '"'), '\''), '\\')
  }

  // ------------------------------------------------------- decoding in one pass

  /** The character whose code a text starts with. */
  function Starts(t: string): (r: Option<char>)
    ensures r.Some? ==> Special(r.value) && Code(r.value) <= t
    ensures r.None? ==> forall c :: Special(c) ==> !(Code(c) <= t)
  {
    if Code('\t') <= t then Some('\t') else if Code('\n') <= t then Some('\n') else if Code('"') <= t then Some('"')
    else if Code('\'') <= t then Some('\'') else if Code('\\') <= t then Some('\\') else None
  }

  /** All codes decoded from left to right at once. */
  function Decode(t: string): string
    decreases |t|
  {
    if t == "" then ""
    else match Starts(t)
      case None => [t[0]] + Decode(t[1..])
      case Some(c) => [c] + Decode(t[|Code(c)|..])
  }

  lemma OneLeadingCode(t: string, c: char, d: char)
    requires Special(c) && Special(d) && Code(c) <= t && Code(d) <= t
    ensures c == d
  {
    assert t[2] == Code(c)[2] == Code(d)[2];
    assert t[3] == Code(c)[3] == Code(d)[3];
  }

  lemma NoAmpersandNoCode(t: string)
    requires t == "" || t[0] != '&'
    ensures Starts(t).None?
  {
    var c := Starts(t);
    if c.Some? { var q := CodeTail(c.value); }
  }

  /** What follows the ampersand of a code: no ampersand, nothing special. */
  lemma CodeTail(c: char) returns (q: string)
    requires Special(c)
    ensures Code(c) == "&" + q && '&' !in q && forall x :: x in q ==> !Special(x)
  {
    q := Code(c)[1..];
  }

  // ------------------------------------------------------------ one replacement

  lemma ReplacePlain(x: char, u: string, code: string, c: char)
    requires code != "" && x != code[0]
    ensures ReplaceAll([x] + u, code, c) == [x] + ReplaceAll(u, code, c)
  {
    assert ([x] + u)[0] == x && ([x] + u)[1..] == u;
  }

  lemma {:induction false} ReplaceSkips(w: string, u: string, code: string, c: char)
    requires code != "" && code[0] !in w
    ensures ReplaceAll(w + u, code, c) == w + ReplaceAll(u, code, c)
  {
    if w == "" {
      assert w + u == u;
    } else {
      ReplaceSkips(w[1..], u, code, c);
      assert w[0] in w;
      assert w + u == [w[0]] + (w[1..] + u);
      ReplacePlain(w[0], w[1..] + u, code, c);
    }
  }

  lemma ReplaceKeepsOtherCode(d: char, u: string, c: char)
    requires Special(c) && Special(d) && c != d
    ensures Replace(Code(d) + u, c) == Code(d) + Replace(u, c)
  {
    var q := CodeTail(d);
    var t := Code(d) + u;
    if Code(c) <= t { OneLeadingCode(t, c, d); }
    assert t[0] == '&' && t[1..] == q + u;
    ReplaceSkips(q, u, Code(c), c);
  }

  lemma ReplaceDecodesCode(u: string, c: char)
    requires Special(c)
    ensures Replace(Code(c) + u, c) == [c] + Replace(u, c)
  {
    assert (Code(c) + u)[|Code(c)|..] == u;
  }

  lemma ReplaceHead(u: string, c: char)
    requires Special(c)
    ensures Replace(u, c) == "" <==> u == ""
    ensures u != "" ==> Replace(u, c)[0] == c || (Replace(u, c)[0] == u[0] && Replace(u, c)[1..] == Replace(u[1..], c))
  {
  }

  /** A replacement never completes the tail of a code. */
  lemma {:induction false} TailWasThere(u: string, c: char, q: string)
    requires Special(c) && '&' !in q && (forall x :: x in q ==> !Special(x)) && q <= Replace(u, c)
    ensures q <= u
    decreases |q|
  {
    if q != "" {
      ReplaceHead(u, c);
      assert q[0] == Replace(u, c)[0] == u[0];
      assert q[1..] <= Replace(u, c)[1..] == Replace(u[1..], c);
      TailWasThere(u[1..], c, q[1..]);
    }
  }

  lemma MatchWasThere(x: char, u: string, c: char, d: char)
    requires Special(c) && Special(d) && Code(d) <= [x] + Replace(u, c)
    ensures Code(d) <= [x] + u
  {
    var q := CodeTail(d);
    assert Code(d)[0] == '&' && ([x] + Replace(u, c))[0] == x;
    assert Code(d)[1..] == q && ([x] + Replace(u, c))[1..] == Replace(u, c);
    assert q <= Replace(u, c);
    TailWasThere(u, c, q);
  }

  lemma NoNewMatch(x: char, u: string, c: char)
    requires Special(c) && Starts([x] + u).None?
    ensures Starts([x] + Replace(u, c)).None?
  {
    var d := Starts([x] + Replace(u, c));
    if d.Some? { MatchWasThere(x, u, c, d.value); }
  }

  // ---------------------------------------------------------- the replacements

  function ReplaceBy(t: string, cs: seq<char>): string
    requires forall c :: c in cs ==> Special(c)
  {
    if cs == [] then t else Replace(ReplaceBy(t, cs[..|cs| - 1]), cs[|cs| - 1])
  }

  lemma {:induction false} ReplaceByOther(x: char, u: string, cs: seq<char>)
    requires (forall c :: c in cs ==> Special(c)) && Starts([x] + u).None?
    ensures ReplaceBy([x] + u, cs) == [x] + ReplaceBy(u, cs) && Starts([x] + ReplaceBy(u, cs)).None?
  {
    if cs != [] {
      var front, c := cs[..|cs| - 1], cs[|cs| - 1];
      ReplaceByOther(x, u, front);
      var v := ReplaceBy(u, front);
      NoNewMatch(x, v, c);
      assert ([x] + v)[1..] == v && !(Code(c) <= [x] + v);
    }
  }

  lemma {:induction false} ReplaceByCode(d: char, u: string, cs: seq<char>)
    requires (forall c :: c in cs ==> Special(c)) && Special(d)
    ensures ReplaceBy(Code(d) + u, cs) == (if d in cs then [d] else Code(d)) + ReplaceBy(u, cs)
  {
    if cs != [] {
      var front, c := cs[..|cs| - 1], cs[|cs| - 1];
      ReplaceByCode(d, u, front);
      assert cs == front + [c];
      var v := ReplaceBy(u, front);
      if d in front {
        ReplaceSkips([d], v, Code(c), c);
      } else if c == d {
        ReplaceDecodesCode(v, c);
      } else {
        ReplaceKeepsOtherCode(d, v, c);
      }
    }
  }

  const ORDER := ['\t', '\n', '"', '\'', '\\']

  lemma UnEscapeIsReplaceBy(t: string)
    ensures UnEscape(t) == ReplaceBy(t, ORDER)
  {
    var a, b, c, d := ['\t'], ['\t', '\n'], ['\t', '\n', '"'], ['\t', '\n', '"', '\''];
    assert ReplaceBy(t, []) == t;
    assert a[..0] == [] && ReplaceBy(t, a) == Replace(t, '\t');
    assert b[..1] == a && ReplaceBy(t, b) == Replace(ReplaceBy(t, a), '\n');
    assert c[..2] == b && ReplaceBy(t, c) == Replace(ReplaceBy(t, b), '"');
    assert d[..3] == c && ReplaceBy(t, d) == Replace(ReplaceBy(t, c), '\'');
    assert ORDER[..4] == d;
  }

  lemma {:induction false} ReplaceByDecodes(t: string)
    ensures ReplaceBy(t, ORDER) == Decode(t)
    decreases |t|
  {
    if t == "" {
      ReplaceByNothing(ORDER);
    } else {
      match Starts(t)
      case None =>
        assert t == [t[0]] + t[1..];
        ReplaceByOther(t[0], t[1..], ORDER);
        ReplaceByDecodes(t[1..]);
      case Some(c) =>
        var u := t[|Code(c)|..];
        assert t == Code(c) + u;
        ReplaceByCode(c, u, ORDER);
        ReplaceByDecodes(u);
    }
  }

  lemma {:induction false} ReplaceByNothing(cs: seq<char>)
    requires forall c :: c in cs ==> Special(c)
    ensures ReplaceBy("", cs) == ""
  {
    if cs != [] { ReplaceByNothing(cs[..|cs| - 1]); }
  }

  /** The five replacements in sequence decode every code once, from left to
      right: none of them creates a match for a later one. */
  lemma UnEscapeIsDecode(t: string)
    ensures UnEscape(t) == Decode(t)
  {
    UnEscapeIsReplaceBy(t);
    ReplaceByDecodes(t);
  }

  // --------------------------------------------------------------- round trip

  lemma EscapeHead(s: string)
    ensures HtmlEscape(s) == "" <==> s == ""
    ensures s != "" ==>
        HtmlEscape(s)[0] == '&' || (HtmlEscape(s)[0] == s[0] && HtmlEscape(s)[1..] == HtmlEscape(s[1..]))
  {
  }

  lemma {:induction false} EscapedTailWasThere(s: string, q: string)
    requires '&' !in q && (forall x :: x in q ==> !Special(x)) && q <= HtmlEscape(s)
    ensures q <= s
    decreases |q|
  {
    if q != "" {
      EscapeHead(s);
      assert q[0] == HtmlEscape(s)[0] == s[0];
      assert q[1..] <= HtmlEscape(s)[1..] == HtmlEscape(s[1..]);
      EscapedTailWasThere(s[1..], q[1..]);
    }
  }

  lemma EscapePlainHead(w: string, u: string)
    requires w != "" && !Special(w[0]) && HtmlEscape(w[1..] + u) == w[1..] + HtmlEscape(u)
    ensures HtmlEscape(w + u) == w + HtmlEscape(u)
  {
    assert (w + u)[0] == w[0] && (w + u)[1..] == w[1..] + u;
  }

  lemma {:induction false} EscapeSkips(w: string, u: string)
    requires forall x :: x in w ==> !Special(x)
    ensures HtmlEscape(w + u) == w + HtmlEscape(u)
  {
    if w == "" {
      assert w + u == u;
    } else {
      EscapeSkips(w[1..], u);
      EscapePlainHead(w, u);
    }
  }

  lemma EscapedMatchWasThere(s: string, d: char)
    requires s != "" && !Special(s[0]) && Special(d) && Code(d) <= HtmlEscape(s)
    ensures Code(d) <= s
  {
    var q := CodeTail(d);
    assert HtmlEscape(s) == [s[0]] + HtmlEscape(s[1..]);
    assert Code(d)[0] == '&' && Code(d)[1..] == q;
    assert HtmlEscape(s)[1..] == HtmlEscape(s[1..]);
    EscapedTailWasThere(s[1..], q);
  }

  lemma DecodeLeading(c: char, t: string)
    requires Special(c)
    ensures Decode(Code(c) + t) == [c] + Decode(t)
  {
    var u := Code(c) + t;
    assert Code(c) <= u && u[|Code(c)|..] == t;
    OneLeadingCode(u, c, Starts(u).value);
  }

  lemma DecodePlain(x: char, t: string)
    requires Starts([x] + t).None?
    ensures Decode([x] + t) == [x] + Decode(t)
  {
    assert ([x] + t)[1..] == t;
  }

  lemma DecodeEscapedPlain(x: char, rest: string)
    requires !Special(x) && Starts([x] + rest).None?
    ensures Decode(HtmlEscape([x] + rest)) == [x] + Decode(HtmlEscape(rest))
  {
    var s := [x] + rest;
    assert s[1..] == rest && HtmlEscape(s) == [x] + HtmlEscape(rest);
    var d := Starts(HtmlEscape(s));
    if d.Some? { EscapedMatchWasThere(s, d.value); }
    DecodePlain(x, HtmlEscape(rest));
  }

  lemma DecodeEscapedSpecial(x: char, rest: string)
    requires Special(x)
    ensures Decode(HtmlEscape([x] + rest)) == [x] + Decode(HtmlEscape(rest))
  {
    assert ([x] + rest)[1..] == rest;
    assert HtmlEscape([x] + rest) == Code(x) + HtmlEscape(rest);
    DecodeLeading(x, HtmlEscape(rest));
  }

  lemma DecodeSpecial(x: char, rest: string)
    requires Special(x)
    ensures Decode([x] + rest) == [x] + Decode(rest)
  {
    NoAmpersandNoCode([x] + rest);
    DecodePlain(x, rest);
  }

  lemma DecodeEscapedCode(d: char, u: string)
    requires Special(d)
    ensures Decode(HtmlEscape(Code(d) + u)) == [d] + Decode(HtmlEscape(u))
  {
    EscapeSkips(Code(d), u);
    DecodeLeading(d, HtmlEscape(u));
  }

  lemma EscapedSpecialHead(s: string)
    requires s != "" && Special(s[0]) && Decode(HtmlEscape(s[1..])) == Decode(s[1..])
    ensures Decode(HtmlEscape(s)) == Decode(s)
  {
    DecodeEscapedSpecial(s[0], s[1..]);
    DecodeSpecial(s[0], s[1..]);
    assert s == [s[0]] + s[1..];
  }

  lemma EscapedPlainHead(s: string)
    requires s != "" && !Special(s[0]) && Starts(s).None? && Decode(HtmlEscape(s[1..])) == Decode(s[1..])
    ensures Decode(HtmlEscape(s)) == Decode(s)
  {
    assert s == [s[0]] + s[1..];
    DecodeEscapedPlain(s[0], s[1..]);
    DecodePlain(s[0], s[1..]);
  }

  lemma EscapedCodeHead(s: string, d: char, u: string)
    requires Special(d) && s == Code(d) + u && Decode(HtmlEscape(u)) == Decode(u)
    ensures Decode(HtmlEscape(s)) == Decode(s)
  {
    DecodeEscapedCode(d, u);
    DecodeLeading(d, u);
  }

  lemma {:induction false} DecodeEscape(s: string)
    ensures Decode(HtmlEscape(s)) == Decode(s)
    decreases |s|
  {
    if s != "" {
      var start := Starts(s);
      if Special(s[0]) {
        DecodeEscape(s[1..]);
        EscapedSpecialHead(s);
      } else if start.None? {
        DecodeEscape(s[1..]);
        EscapedPlainHead(s);
      } else {
        var u := s[|Code(start.value)|..];
        DecodeEscape(u);
        EscapedCodeHead(s, start.value, u);
      }
    }
  }

  ghost predicate HoldsCode(s: string) {
    exists c :: Special(c) && Contains(s, Code(c))
  }

  lemma {:induction false} DecodeShrinks(s: string)
    ensures |Decode(s)| <= |s|
    ensures Decode(s) == s <==> !HoldsCode(s)
    decreases |s|
  {
    if s == "" {
      assert forall c :: Special(c) ==> !(Code(c) <= s);
    } else {
      match Starts(s)
      case None =>
        DecodeShrinks(s[1..]);
        assert s == [s[0]] + s[1..];
        assert Decode(s)[1..] == Decode(s[1..]);
        assert HoldsCode(s) <==> HoldsCode(s[1..]) by {
          assert forall c :: Special(c) ==> (Contains(s, Code(c)) <==> Contains(s[1..], Code(c)));
        }
      case Some(c) =>
        DecodeShrinks(s[|Code(c)|..]);
        assert Contains(s, Code(c));
    }
  }

  /** Unescaping what was escaped gives the text back exactly when it held none
      of the five codes itself. */
  lemma UnEscapeEscapeIff(s: string)
    ensures UnEscape(HtmlEscape(s)) == s <==> !HoldsCode(s)
  {
    UnEscapeIsDecode(HtmlEscape(s));
    DecodeEscape(s);
    DecodeShrinks(s);
  }
}
