/** Naming the directory a device is mounted on. */
module Endpoint {
  import opened Counting
  import opened Text
  import opened Dto

  // --------------------------------------------------------------- sanitizing

  predicate Unsafe(c: char) { c == '\\' || c == '/' || c == '\'' || c == '"' }

  function Sanitized(s: string): (r: string)
    ensures |r| == |s|
    ensures forall i :: 0 <= i < |s| ==> r[i] == if Unsafe(s[i]) then '_' else s[i]
  {
    seq(|s|, i requires 0 <= i < |s| => if Unsafe(s[i]) then '_' else s[i])
  }

  /** Unsafe are the two quotes, the slash and the backslash. */
  lemma UnsafeIff(c: char)
    ensures Unsafe(c) <==> c as nat in {34, 39, 47, 92}
  {
  }

  /** A sanitized text is safe, only unsafe texts change, and sanitizing twice is
      sanitizing once. */
  lemma SanitizedIsSafe(s: string)
    ensures forall c :: c in Sanitized(s) ==> !Unsafe(c)
    ensures Sanitized(s) == s <==> forall c :: c in s ==> !Unsafe(c)
    ensures Sanitized(Sanitized(s)) == Sanitized(s)
  {
    if Sanitized(s) == s { assert forall i :: 0 <= i < |s| ==> !Unsafe(s[i]); }
  }

  method SanitizeMount(s: string) returns (res: string)
    ensures res == Sanitized(s)
  {
    res := "";
    for i := 0 to |s|
      invariant res == Sanitized(s)[..i]
    {
      if s[i] == '\\' || s[i] == '/' || s[i] == '\'' || s[i] == '"' {
        res := res + ['_'];
      } else {
        res := res + [s[i]];
      }
    }
  }

  // ------------------------------------------------------------ the name series

  /** The k-th name tried: the base, the base with "_0", and from then on the
      last character replaced by the whole index. */
  function Name(base: string, k: nat): string {
    if k == 0 then base
    else if k == 1 then base + "_0"
    else
      var previous := Name(base, k - 1);
      if previous == "" then "" else previous[..|previous| - 1] + ToString(k)
  }

  /** The series as it begins, and where it turns. */
  lemma NamesBegin(base: string)
    ensures Name(base, 0) == base && Name(base, 1) == base + "_0" && Name(base, 2) == base + "_2"
    ensures Name(base, 9) == base + "_9" && Name(base, 10) == base + "_10" && Name(base, 11) == base + "_111"
  {
    DigitName(base, 2);
    DigitName(base, 9);
    assert ToString(10) == "10" && ToString(11) == "11";
    assert Name(base, 10)[..|Name(base, 10)| - 1] == base + "_1";
  }

  lemma {:induction false} DigitName(base: string, k: nat)
    requires 2 <= k <= 9
    ensures Name(base, k) == base + "_" + [DigitChar(k)]
  {
    if k > 2 { DigitName(base, k - 1); }
    var previous := Name(base, k - 1);
    assert previous[..|previous| - 1] == base + "_" by {
      assert previous == base + "_" + [if k == 2 then '0' else DigitChar(k - 1)];
    }
  }

  lemma ToStringLength(n: nat)
    ensures n < 10 ==> |ToString(n)| == 1 && ToString(n)[0] == DigitChar(n)
    ensures n >= 10 ==> |ToString(n)| >= 2
  {
  }

  /** One-digit indices keep the length and show in the last character. */
  lemma {:induction false} ShortName(base: string, k: nat)
    requires 1 <= k <= 9
    ensures |Name(base, k)| == |base| + 2
    ensures Name(base, k)[|base| + 1] == if k == 1 then '0' else DigitChar(k)
  {
    ToStringLength(k);
    if k > 1 { ShortName(base, k - 1); }
  }

  /** From two-digit indices on the names grow at every step. */
  lemma {:induction false} LongName(base: string, k: nat)
    requires k >= 10
    ensures |Name(base, k)| > |Name(base, k - 1)| >= |base| + 2
  {
    ToStringLength(k);
    if k == 10 { ShortName(base, 9); } else { LongName(base, k - 1); }
  }

  lemma {:induction false} NamesGrow(base: string, i: nat, j: nat)
    requires i < j && j >= 10
    ensures |Name(base, i)| < |Name(base, j)|
    decreases j
  {
    LongName(base, j);
    if i < j - 1 {
      if j - 1 >= 10 {
        NamesGrow(base, i, j - 1);
      } else if i >= 1 {
        ShortName(base, i);
        ShortName(base, 9);
      }
    }
  }

  /** No name is tried twice. */
  lemma NamesDiffer(base: string, i: nat, j: nat)
    requires i < j
    ensures Name(base, i) != Name(base, j)
  {
    if j >= 10 {
      NamesGrow(base, i, j);
    } else {
      ShortName(base, j);
      if i >= 1 { ShortName(base, i); }
    }
  }

  ghost function Tried(base: string, k: nat): set<string> {
    set i | 0 <= i < k :: Name(base, i)
  }

  lemma {:induction false} TriedCount(base: string, k: nat)
    ensures |Tried(base, k)| == k
  {
    if k > 0 {
      TriedCount(base, k - 1);
      var last := Name(base, k - 1);
      forall i | 0 <= i < k - 1 ensures Name(base, i) != last { NamesDiffer(base, i, k - 1); }
      assert Tried(base, k) == Tried(base, k - 1) + {last};
      assert last !in Tried(base, k - 1);
    } else {
      assert Tried(base, 0) == {};
    }
  }

  /** `endpoint` is the first name of the series that is not occupied. */
  ghost predicate FirstFree(base: string, occupied: set<string>, endpoint: string) {
    exists k: nat :: IsFirstFree(base, occupied, endpoint, k)
  }

  ghost predicate IsFirstFree(base: string, occupied: set<string>, endpoint: string, k: nat) {
    k <= |occupied| && endpoint == Name(base, k) && endpoint !in occupied && Tried(base, k) <= occupied
  }

  lemma ProbeStep(base: string, occupied: set<string>, k: nat)
    requires Tried(base, k) <= occupied && Name(base, k) in occupied
    ensures k < |occupied| && Tried(base, k + 1) <= occupied
  {
    TriedCount(base, k + 1);
    assert Tried(base, k + 1) == Tried(base, k) + {Name(base, k)};
    SubsetCount(Tried(base, k + 1), occupied);
  }

  lemma NameNonEmpty(base: string, k: nat)
    requires k >= 1
    ensures Name(base, k) != ""
  {
    if k <= 9 { ShortName(base, k); } else { LongName(base, k); }
  }

  lemma TriedHas(base: string, i: nat, j: nat)
    requires i < j
    ensures Name(base, i) in Tried(base, j)
  {
  }

  /** The loop of CreateMountEndpoint with its 32-bit index. With fewer than
      2^32 occupied names it stops within one more probe than there are. */
  method FindEndpoint(base: string, occupied: set<string>) returns (endpoint: string)
    requires |occupied| < U32
    ensures FirstFree(base, occupied, endpoint)
  {
    endpoint := base;
    var index: nat := 0;
    while endpoint in occupied
      invariant index <= |occupied|
      invariant endpoint == Name(base, index)
      invariant Tried(base, index) <= occupied
      decreases |occupied| - index
    {
      ProbeStep(base, occupied, index);
      if index == 0 {
        endpoint := endpoint + "_0";
        index := (index + 1) % U32;
      } else {
        NameNonEmpty(base, index);
        index := (index + 1) % U32;
        endpoint := endpoint[..|endpoint| - 1];
        endpoint := endpoint + ToString(index);
      }
    }
    assert IsFirstFree(base, occupied, endpoint, index);
  }

  /** The first free name is unique. */
  lemma FirstFreeIsUnique(base: string, occupied: set<string>, a: string, b: string)
    requires FirstFree(base, occupied, a) && FirstFree(base, occupied, b)
    ensures a == b
  {
    var i: nat :| IsFirstFree(base, occupied, a, i);
    var j: nat :| IsFirstFree(base, occupied, b, j);
    if i < j {
      TriedHas(base, i, j);
    } else if j < i {
      TriedHas(base, j, i);
    }
  }

  /** With finitely many occupied names a free one exists. */
  lemma {:induction false} FreeNameExists(base: string, occupied: set<string>, k: nat) returns (endpoint: string)
    requires k <= |occupied| + 1 && Tried(base, k) <= occupied
    ensures FirstFree(base, occupied, endpoint)
    decreases |occupied| + 1 - k
  {
    TriedCount(base, k);
    SubsetCount(Tried(base, k), occupied);
    endpoint := Name(base, k);
    if endpoint in occupied {
      ProbeStep(base, occupied, k);
      endpoint := FreeNameExists(base, occupied, k + 1);
    } else {
      assert IsFirstFree(base, occupied, endpoint, k);
    }
  }

  // ---------------------------------------------------------- the last component

  /** Every name of the series stays inside the same directory. */
  lemma ReplacedEnd(dir: string, p: string, digits: string)
    requires p != ""
    ensures (dir + p)[..|dir + p| - 1] + digits == dir + (p[..|p| - 1] + digits)
  {
    assert (dir + p)[..|dir + p| - 1] == dir + p[..|p| - 1];
  }

  lemma {:induction false} NameKeepsDirectory(dir: string, s: string, k: nat)
    ensures Name(dir + s, k) == dir + Name(s, k)
    ensures k >= 1 ==> Name(s, k) != ""
  {
    if k == 1 {
      assert dir + s + "_0" == dir + (s + "_0");
    } else if k > 1 {
      NameKeepsDirectory(dir, s, k - 1);
      ReplacedEnd(dir, Name(s, k - 1), ToString(k));
    }
  }

  lemma {:induction false} NameHasNoSlash(s: string, k: nat)
    requires '/' !in s
    ensures '/' !in Name(s, k)
  {
    if k > 1 {
      NameHasNoSlash(s, k - 1);
      assert AllDigits(ToString(k));
      forall c | c in ToString(k) ensures c != '/' {
        var i :| 0 <= i < |ToString(k)| && ToString(k)[i] == c;
        assert IsDigit(ToString(k)[i]);
      }
    }
  }

  /** An endpoint is a directory right below `dir`, whatever the title held. */
  lemma EndpointStaysBelow(dir: string, title: string, occupied: set<string>, endpoint: string) returns (leaf: string)
    requires FirstFree(dir + Sanitized(title), occupied, endpoint)
    ensures endpoint == dir + leaf && '/' !in leaf && endpoint !in occupied
  {
    var k: nat :| IsFirstFree(dir + Sanitized(title), occupied, endpoint, k);
    leaf := Name(Sanitized(title), k);
    NameKeepsDirectory(dir, Sanitized(title), k);
    NameHasNoSlash(Sanitized(title), k);
  }
}
