/** The string primitives the program takes from its libraries: trimming,
    searching, C strings, and decimal numbers. */
module Text {
  import opened Wrappers

  // ------------------------------------------------------------ searching

  predicate Contains(s: string, p: string) {
    p <= s || (s != "" && Contains(s[1..], p))
  }

  lemma {:induction false} ContainsAt(s: string, p: string, i: nat)
    requires i + |p| <= |s| && s[i..i + |p|] == p
    ensures Contains(s, p)
    decreases i
  {
    if i > 0 {
      assert s[1..][i - 1..i - 1 + |p|] == p;
      ContainsAt(s[1..], p, i - 1);
    }
  }

  lemma {:induction false} WhereContained(s: string, p: string) returns (i: nat)
    requires Contains(s, p)
    ensures i + |p| <= |s| && s[i..i + |p|] == p
    decreases |s|
  {
    if p <= s {
      i := 0;
    } else {
      var k := WhereContained(s[1..], p);
      i := k + 1;
      assert s[i..i + |p|] == s[1..][k..k + |p|];
    }
  }

  ghost predicate StandsIn(s: string, p: string) { exists before, after :: s == before + p + after }

  lemma StandsAt(s: string, p: string, i: nat)
    requires i + |p| <= |s| && s[i..i + |p|] == p
    ensures StandsIn(s, p)
  {
    assert s == s[..i] + p + s[i + |p|..];
  }

  /** A text contains another if and only if the other stands somewhere in it. */
  lemma ContainsIff(s: string, p: string)
    ensures Contains(s, p) <==> StandsIn(s, p)
  {
    if Contains(s, p) {
      var i := WhereContained(s, p);
      StandsAt(s, p, i);
    }
    if StandsIn(s, p) {
      var before, after :| s == before + p + after;
      assert s[|before|..|before| + |p|] == p;
      ContainsAt(s, p, |before|);
    }
  }

  // ------------------------------------------------------------- trimming

  function TrimLeft(s: string, sp: char -> bool): string {
    if s != "" && sp(s[0]) then TrimLeft(s[1..], sp) else s
  }

  function TrimRight(s: string, sp: char -> bool): string {
    if s != "" && sp(s[|s| - 1]) then TrimRight(s[..|s| - 1], sp) else s
  }

  function Trim(s: string, sp: char -> bool): string {
    TrimRight(TrimLeft(s, sp), sp)
  }

  predicate Trimmed(s: string, sp: char -> bool) {
    s == "" || (!sp(s[0]) && !sp(s[|s| - 1]))
  }

  lemma {:induction false} TrimLeftHead(s: string, sp: char -> bool)
    ensures var t := TrimLeft(s, sp); t == "" || !sp(t[0])
  {
    if s != "" && sp(s[0]) { TrimLeftHead(s[1..], sp); }
  }

  lemma {:induction false} TrimRightEnds(s: string, sp: char -> bool)
    ensures var t := TrimRight(s, sp); t <= s && (t == "" || !sp(t[|t| - 1]))
  {
    if s != "" && sp(s[|s| - 1]) { TrimRightEnds(s[..|s| - 1], sp); }
  }

  /** Trimming yields a trimmed string, and leaves trimmed strings alone. */
  lemma TrimIsTrimmed(s: string, sp: char -> bool)
    ensures Trimmed(Trim(s, sp), sp)
    ensures Trimmed(s, sp) ==> Trim(s, sp) == s
  {
    TrimLeftHead(s, sp);
    TrimRightEnds(TrimLeft(s, sp), sp);
  }

  predicate AllOf(s: string, sp: char -> bool) { forall i :: 0 <= i < |s| ==> sp(s[i]) }

  lemma {:induction false} TrimLeftDrops(s: string, sp: char -> bool) returns (before: string)
    ensures s == before + TrimLeft(s, sp) && AllOf(before, sp)
  {
    if s != "" && sp(s[0]) {
      var b := TrimLeftDrops(s[1..], sp);
      before := [s[0]] + b;
    } else {
      before := "";
    }
  }

  lemma {:induction false} TrimRightDrops(s: string, sp: char -> bool) returns (after: string)
    ensures s == TrimRight(s, sp) + after && AllOf(after, sp)
  {
    if s != "" && sp(s[|s| - 1]) {
      var a := TrimRightDrops(s[..|s| - 1], sp);
      after := a + [s[|s| - 1]];
      assert s == s[..|s| - 1] + [s[|s| - 1]];
    } else {
      after := "";
    }
  }

  /** Trimming drops white space at the two ends and nothing else. */
  lemma TrimDrops(s: string, sp: char -> bool) returns (before: string, after: string)
    ensures s == before + Trim(s, sp) + after && AllOf(before, sp) && AllOf(after, sp)
  {
    before := TrimLeftDrops(s, sp);
    after := TrimRightDrops(TrimLeft(s, sp), sp);
    assert s == before + (Trim(s, sp) + after);
  }

  lemma {:induction false} PaddedLeft(before: string, t: string, sp: char -> bool)
    requires AllOf(before, sp) && (t == "" || !sp(t[0]))
    ensures TrimLeft(before + t, sp) == t
  {
    if before == "" {
      assert before + t == t;
    } else {
      assert (before + t)[1..] == before[1..] + t;
      PaddedLeft(before[1..], t, sp);
    }
  }

  lemma {:induction false} PaddedRight(t: string, after: string, sp: char -> bool)
    requires AllOf(after, sp) && (t == "" || !sp(t[|t| - 1]))
    ensures TrimRight(t + after, sp) == t
  {
    if after == "" {
      assert t + after == t;
    } else {
      var n := |after| - 1;
      assert (t + after)[..|t + after| - 1] == t + after[..n];
      PaddedRight(t, after[..n], sp);
    }
  }

  /** Trimming finds a trimmed text again in any white space around it. */
  lemma TrimFinds(before: string, t: string, after: string, sp: char -> bool)
    requires AllOf(before, sp) && AllOf(after, sp) && Trimmed(t, sp) && t != ""
    ensures Trim(before + t + after, sp) == t
  {
    assert before + t + after == before + (t + after);
    PaddedLeft(before, t + after, sp);
    PaddedRight(t, after, sp);
  }

  // ------------------------------------------------------------ C strings

  /** `as_string().c_str()`: everything before the first NUL. */
  function CStr(s: string): string {
    if s == "" || s[0] == '\0' then "" else [s[0]] + CStr(s[1..])
  }

  predicate NulFree(s: string) {
    forall i :: 0 <= i < |s| ==> s[i] != '\0'
  }

  lemma {:induction false} CStrFixed(s: string)
    ensures CStr(s) == s <==> NulFree(s)
    ensures NulFree(CStr(s))
  {
    if s != "" {
      CStrFixed(s[1..]);
      assert s == [s[0]] + s[1..];
      if s[0] != '\0' {
        assert CStr(s)[1..] == CStr(s[1..]);
        assert NulFree(s) ==> NulFree(s[1..]);
        assert NulFree(s[1..]) ==> NulFree(s) by {
          if NulFree(s[1..]) {
            forall i | 0 <= i < |s| ensures s[i] != '\0' {
              if i > 0 { assert s[i] == s[1..][i - 1]; }
            }
          }
        }
      }
    }
  }

  /** Cutting at a NUL keeps what stands before the first one. */
  lemma {:induction false} CStrIsPrefix(s: string)
    ensures CStr(s) <= s && (CStr(s) == s || s[|CStr(s)|] == '\0') && '\0' !in CStr(s)
  {
    if s != "" && s[0] != '\0' {
      CStrIsPrefix(s[1..]);
      assert s == [s[0]] + s[1..];
    }
  }

  // ------------------------------------------------------ decimal numbers

  const U64: nat := 0x1_0000_0000_0000_0000

  /** The white space of the C locale. */
  predicate IsSpace(c: char) {
    c == ' ' || '\t' <= c <= '\r'
  }

  /** Tab, line feed, vertical tab, form feed, carriage return and space. */
  lemma IsSpaceIff(c: char)
    ensures IsSpace(c) <==> c as nat in {9, 10, 11, 12, 13, 32}
  {
  }

  predicate IsDigit(c: char) { '0' <= c <= '9' }

  predicate AllDigits(s: string) {
    forall i :: 0 <= i < |s| ==> IsDigit(s[i])
  }

  function DigitChar(d: nat): (c: char)
    requires d < 10
    ensures IsDigit(c) && c as int - '0' as int == d
  {
    ('0' as int + d) as char
  }

  /** `std::to_string` of an unsigned number. */
  function ToString(n: nat): (s: string)
    ensures |s| > 0 && AllDigits(s)
  {
    if n < 10 then [DigitChar(n)] else ToString(n / 10) + [DigitChar(n % 10)]
  }

  function DecimalValue(s: string): nat
    requires AllDigits(s)
  {
    if s == "" then 0
    else 10 * DecimalValue(s[..|s| - 1]) + (s[|s| - 1] as int - '0' as int)
  }

  /** The text behind a sign. */
  function Unsigned(t: string): string { if t != "" && (t[0] == '-' || t[0] == '+') then t[1..] else t }

  lemma SplitSign(t: string) returns (sign: string)
    requires t != ""
    ensures t == sign + Unsigned(t) && (sign == "" || sign == "+" || sign == "-") && (sign == "-" ==> t[0] == '-')
  {
    sign := if t[0] == '-' || t[0] == '+' then [t[0]] else "";
  }

  /** `StrToUint`: a leading '-' is refused, and otherwise `std::stoul` must
      consume the whole text: white space, an optional sign, then digits whose
      value fits 64 bits. A '-' behind white space negates modulo 2^64. */
  function StrToUint(s: string): (r: Result<nat>)
    ensures r.Ok? ==> r.value < U64
  {
    if s != "" && s[0] == '-' then Err(InvalidArgument)
    else
      var t := TrimLeft(s, IsSpace);
      var digits := Unsigned(t);
      if digits == "" || !AllDigits(digits) then Err(InvalidArgument)
      else
        var v := DecimalValue(digits);
        if v >= U64 then Err(OutOfRange)
        else if t[0] == '-' && v > 0 then Ok(U64 - v)
        else Ok(v)
  }

  lemma {:induction false} DecimalRoundTrip(n: nat)
    ensures DecimalValue(ToString(n)) == n
  {
    if n >= 10 {
      DecimalRoundTrip(n / 10);
      assert ToString(n)[..|ToString(n)| - 1] == ToString(n / 10);
    }
  }

  /** A printed id is read back as the same id. */
  lemma IdSurvivesPrinting(n: nat)
    requires n < U64
    ensures StrToUint(ToString(n)) == Ok(n)
  {
    DecimalRoundTrip(n);
    assert IsDigit(ToString(n)[0]);
  }

  /** Which texts are numbers: spaces, a sign or none, and digits whose value fits
      64 bits, with no '-' in front. */
  ghost predicate IsNumeral(s: string, spaces: string, sign: string, digits: string) {
    && s == spaces + sign + digits && AllOf(spaces, IsSpace) && (sign == "" || sign == "+" || sign == "-")
    && digits != "" && AllDigits(digits) && DecimalValue(digits) < U64 && !("-" <= s)
  }

  lemma SplitNumber(s: string) returns (spaces: string, sign: string, digits: string)
    requires StrToUint(s).Ok?
    ensures IsNumeral(s, spaces, sign, digits)
  {
    spaces := TrimLeftDrops(s, IsSpace);
    var t := TrimLeft(s, IsSpace);
    sign := SplitSign(t);
    digits := Unsigned(t);
    assert s == spaces + (sign + digits) == spaces + sign + digits;
  }

  lemma {:induction false} SpacesAreTrimmed(spaces: string, t: string)
    requires AllOf(spaces, IsSpace) && t != "" && !IsSpace(t[0])
    ensures TrimLeft(spaces + t, IsSpace) == t
  {
    if spaces == "" {
      assert spaces + t == t;
    } else {
      assert (spaces + t)[1..] == spaces[1..] + t;
      SpacesAreTrimmed(spaces[1..], t);
    }
  }

  /** Such a text parses to the value of its digits, negated in 64-bit arithmetic
      after a '-'. */
  lemma NumeralParses(s: string, spaces: string, sign: string, digits: string)
    requires IsNumeral(s, spaces, sign, digits)
    ensures var v := DecimalValue(digits);
      StrToUint(s) == Ok(if sign == "-" && v > 0 then U64 - v else v)
  {
    var t := sign + digits;
    assert s == spaces + t && IsDigit(digits[0]);
    SpacesAreTrimmed(spaces, t);
    assert TrimLeft(s, IsSpace) == t;
    assert s != "" && s[0] != '-' by { assert "-" <= s <==> s != "" && s[0] == '-'; }
    if sign == "" { assert t == digits; } else { assert t[0] == sign[0] && t[1..] == digits; }
  }

  /** ... and no other text parses. */
  lemma NumberIff(s: string)
    ensures StrToUint(s).Ok? <==> exists spaces, sign, digits :: IsNumeral(s, spaces, sign, digits)
  {
    if StrToUint(s).Ok? {
      var spaces, sign, digits := SplitNumber(s);
      assert IsNumeral(s, spaces, sign, digits);
    }
    if spaces, sign, digits :| IsNumeral(s, spaces, sign, digits) { NumeralParses(s, spaces, sign, digits); }
  }
}
