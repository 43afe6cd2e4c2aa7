/** Reading the log page by page, newest page first, in 32-bit arithmetic. */
module LogPages {
  import opened Text
  import opened Dto

  const INT_MAX: nat := 0x7FFF_FFFF

  // ---------------------------------------------------------------- filtering

  predicate Selected(line: string, filters: seq<string>) {
    filters == [] || exists i :: 0 <= i < |filters| && Contains(line, filters[i])
  }

  function Entry(n: nat, line: string): string { "[" + ToString(n) + "] " + line }

  /** The selected lines, each with its line number. */
  function Numbered(lines: seq<string>, filters: seq<string>): seq<string> {
    if lines == [] then []
    else
      var n := |lines|;
      Numbered(lines[..n - 1], filters) + if Selected(lines[n - 1], filters) then [Entry(n, lines[n - 1])] else []
  }

  method GetFromFile(lines: seq<string>, filters: seq<string>) returns (res: seq<string>)
    ensures res == Numbered(lines, filters)
  {
    res := [];
    var lineNumber := 0;
    while lineNumber < |lines|
      invariant lineNumber <= |lines|
      invariant res == Numbered(lines[..lineNumber], filters)
    {
      var line := lines[lineNumber];
      assert lines[..lineNumber + 1][..lineNumber] == lines[..lineNumber];
      lineNumber := lineNumber + 1;
      if Selected(line, filters) {
        res := res + [Entry(lineNumber, line)];
      }
    }
    assert lines[..|lines|] == lines;
  }

  /** The k-th entry is the k-th selected line under its own line number. */
  lemma {:induction false} NumberedFrom(lines: seq<string>, filters: seq<string>, k: nat) returns (i: nat)
    requires k < |Numbered(lines, filters)|
    ensures i < |lines| && Selected(lines[i], filters) && |Numbered(lines[..i], filters)| == k
    ensures Numbered(lines, filters)[k] == Entry(i + 1, lines[i])
  {
    var n := |lines| - 1;
    if k < |Numbered(lines[..n], filters)| {
      i := NumberedFrom(lines[..n], filters, k);
      assert lines[..n][..i] == lines[..i];
    } else {
      i := n;
    }
  }

  /** A line matches if there are no filters or it contains one of them. */
  lemma SelectedIff(line: string, filters: seq<string>)
    ensures Selected(line, filters) <==> filters == [] || exists f :: f in filters && Contains(line, f)
  {
    if f :| f in filters && Contains(line, f) {
      var i :| 0 <= i < |filters| && filters[i] == f;
    }
  }

  /** The positions of the matching lines, ascending. */
  ghost predicate Shows(at: seq<nat>, lines: seq<string>, filters: seq<string>) {
    && (forall i, j :: 0 <= i < j < |at| ==> at[i] < at[j])
    && (forall i :: 0 <= i < |at| ==> at[i] < |lines|)
    && (forall i: nat :: i in at <==> i < |lines| && Selected(lines[i], filters))
  }

  /** The entries are the lines at these positions, behind their numbers in brackets. */
  ghost predicate Lists(all: seq<string>, at: seq<nat>, lines: seq<string>) {
    && |all| == |at|
    && forall k :: 0 <= k < |at| ==> at[k] < |lines| && all[k] == "[" + ToString(at[k] + 1) + "] " + lines[at[k]]
  }

  lemma ShowsNext(front: seq<nat>, lines: seq<string>, filters: seq<string>, n: nat, at: seq<nat>)
    requires |lines| == n + 1 && Shows(front, lines[..n], filters)
    requires at == if Selected(lines[n], filters) then front + [n] else front
    ensures Shows(at, lines, filters)
  {
    assert forall i: nat :: i in at <==> i in front || (i == n && Selected(lines[n], filters));
    assert forall i: nat :: i < n ==> lines[..n][i] == lines[i];
  }

  lemma ListsNext(all: seq<string>, front: seq<nat>, lines: seq<string>, n: nat)
    requires |lines| == n + 1 && Lists(all, front, lines[..n])
    ensures Lists(all, front, lines) && Lists(all + [Entry(n + 1, lines[n])], front + [n], lines)
  {
  }

  /** The entries are exactly the matching lines, in order, each behind its number. */
  lemma {:induction false} NumberedIsComplete(lines: seq<string>, filters: seq<string>) returns (at: seq<nat>)
    ensures Shows(at, lines, filters) && Lists(Numbered(lines, filters), at, lines)
  {
    if lines == [] {
      at := [];
    } else {
      var n := |lines| - 1;
      var front := NumberedIsComplete(lines[..n], filters);
      at := if Selected(lines[n], filters) then front + [n] else front;
      ShowsNext(front, lines, filters, n, at);
      ListsNext(Numbered(lines[..n], filters), front, lines, n);
    }
  }

  /** Without filters every line is shown, under its own number. */
  lemma {:induction false} AllNumbered(lines: seq<string>)
    ensures var all := Numbered(lines, []);
      |all| == |lines| && forall k :: 0 <= k < |lines| ==> all[k] == "[" + ToString(k + 1) + "] " + lines[k]
  {
    if lines != [] { AllNumbered(lines[..|lines| - 1]); }
  }

  // ------------------------------------------------------------------ paging

  /** `static_cast<int>` of an unsigned 32-bit value. */
  function ToInt(u: nat): int { if u % U32 <= INT_MAX then u % U32 else u % U32 - U32 }

  function PagesNumber(n: nat, size: nat): nat {
    if size == 0 then 0
    else
      var pages := (n % U32) / size;
      if (pages * size) % U32 < n % U32 then (pages + 1) % U32 else pages
  }

  function Clamp(i: int): nat { if i < 0 then 0 else i }

  datatype PageData = PageData(currPage: nat, pagesNumber: nat, data: seq<string>)

  /** The entries between the two index computations, after clamping. */
  function Window(all: seq<string>, lastOffset: int, firstOffset: int): seq<string> {
    var n := ToInt(|all|);
    var last := if Clamp(n - lastOffset) > n then n else Clamp(n - lastOffset);
    var first := Clamp(n - firstOffset);
    if first >= last then [] else all[first..last]
  }

  /** The entries a page request returns. */
  function PageOf(all: seq<string>, page: nat, size: nat): seq<string> {
    Window(all, ToInt(page * size), ToInt(((page + 1) % U32) * size))
  }

  method CountPages(n: nat, size: nat) returns (pages: nat)
    ensures pages == PagesNumber(n, size)
  {
    pages := 0;
    if size > 0 {
      var numLines := n % U32;
      pages := numLines / size;
      if (pages * size) % U32 < numLines {
        pages := (pages + 1) % U32;
      }
    }
  }

  method CopyWindow(all: seq<string>, lastOffset: int, firstOffset: int) returns (out: seq<string>)
    ensures out == Window(all, lastOffset, firstOffset)
  {
    var linesSize := ToInt(|all|);
    var indexLast := linesSize - lastOffset;
    var indexFirst := linesSize - firstOffset;
    if indexFirst < 0 { indexFirst := 0; }
    if indexLast < 0 { indexLast := 0; }
    if indexLast > linesSize { indexLast := linesSize; }
    out := [];
    if indexFirst >= indexLast { return; }
    for i := indexFirst to indexLast
      invariant out == all[indexFirst..i]
    {
      out := out + [all[i]];
    }
  }

  method GetByPage(lines: seq<string>, filters: seq<string>, page: nat, size: nat) returns (data: PageData)
    requires page < U32 && size < U32
    ensures data == PageData(page, PagesNumber(|Numbered(lines, filters)|, size),
        PageOf(Numbered(lines, filters), page, size))
  {
    var all := GetFromFile(lines, filters);
    var pages := CountPages(|all|, size);
    var out := CopyWindow(all, ToInt(page * size), ToInt(((page + 1) % U32) * size));
    data := PageData(page, pages, out);
  }

  // ------------------------------------------------------------ what a page is

  /** Page `page` counted from the newest entries. */
  function Slice(all: seq<string>, page: nat, size: nat): seq<string> {
    var first, last := Clamp(|all| - (page + 1) * size), Clamp(|all| - page * size);
    SliceBounds(|all|, page, size);
    all[first..last]
  }

  lemma SliceBounds(n: nat, page: nat, size: nat)
    ensures Clamp(n - (page + 1) * size) <= Clamp(n - page * size) <= n
  {
    assert (page + 1) * size == page * size + size;
    assert page * size >= 0;
  }

  lemma MulStep(k: nat, s: nat)
    ensures (k + 1) * s == k * s + s
  {
  }

  lemma {:induction false} MulMono(a: nat, b: nat, s: nat)
    requires a <= b
    ensures a * s <= b * s
    decreases b
  {
    if a < b {
      MulMono(a, b - 1, s);
      MulStep(b - 1, s);
    }
  }

  function Range(all: seq<string>, x: nat, y: nat): seq<string>
    requires x <= y
  {
    all[Clamp(|all| - y)..Clamp(|all| - x)]
  }

  lemma WindowIsRange(all: seq<string>, x: nat, y: nat)
    requires |all| <= INT_MAX && x <= y <= INT_MAX
    ensures Window(all, ToInt(x), ToInt(y)) == Range(all, x, y)
  {
    assert ToInt(x) == x && ToInt(y) == y;
  }

  lemma WindowIff(all: seq<string>, x: nat, y: nat)
    requires |all| <= INT_MAX && x < |all| && x < y < x + U32 && |all| - ToInt(y) <= INT_MAX
    ensures Window(all, ToInt(x), ToInt(y)) == Range(all, x, y) <==> (y <= INT_MAX || y >= U32 + |all|)
  {
    assert ToInt(x) == x;
    assert y % U32 == if y < U32 then y else y - U32;
    assert |Range(all, x, y)| > 0;
    if y <= INT_MAX {
      WindowIsRange(all, x, y);
    } else if y < U32 + |all| {
      assert Window(all, ToInt(x), ToInt(y)) == [];
    }
  }

  lemma PageBounds(page: nat, size: nat)
    requires 1 <= size
    ensures page <= page * size && page + 1 <= (page + 1) * size == page * size + size
  {
    MulStep(page, size);
    MulMono(1, size, page);
  }

  lemma PageIsWindow(all: seq<string>, page: nat, size: nat)
    requires page + 1 < U32
    ensures PageOf(all, page, size) == Window(all, ToInt(page * size), ToInt((page + 1) * size))
    ensures page * size <= (page + 1) * size && Slice(all, page, size) == Range(all, page * size, (page + 1) * size)
  {
    MulStep(page, size);
    assert (page + 1) % U32 == page + 1;
  }

  /** While the products stay in the signed range, a page is the slice it names. */
  lemma PageIsSlice(all: seq<string>, page: nat, size: nat)
    requires |all| <= INT_MAX && 1 <= size && (page + 1) * size <= INT_MAX
    ensures PageOf(all, page, size) == Slice(all, page, size)
  {
    PageBounds(page, size);
    PageIsWindow(all, page, size);
    WindowIsRange(all, page * size, (page + 1) * size);
  }

  /** An existing page is returned exactly when the upper product neither leaves
      the signed range nor comes back below the number of entries. Requests whose
      subtraction overflows have no defined result. */
  lemma ExistingPageIff(all: seq<string>, page: nat, size: nat)
    requires |all| <= INT_MAX && 1 <= size < U32 && page * size < |all|
    requires |all| - ToInt((page + 1) * size) <= INT_MAX
    ensures PageOf(all, page, size) == Slice(all, page, size)
            <==> ((page + 1) * size <= INT_MAX || (page + 1) * size >= U32 + |all|)
  {
    PageBounds(page, size);
    PageIsWindow(all, page, size);
    WindowIff(all, page * size, (page + 1) * size);
  }

  /** The two offsets a request is turned into, as signed 32-bit numbers. */
  function LastOffset(page: nat, size: nat): int { ToInt(page * size) }

  function FirstOffset(page: nat, size: nat): int { ToInt(((page + 1) % U32) * size) }

  lemma WindowEmptyIff(all: seq<string>, x: int, y: int)
    requires |all| <= INT_MAX
    ensures Window(all, x, y) == [] <==> |all| == 0 || x >= |all| || y <= 0 || y <= x
  {
    assert ToInt(|all|) == |all|;
  }

  /** When a page past the end comes out empty: there is nothing to show, or the
      offsets do not wrap into the log. */
  predicate StaysPastEnd(n: nat, page: nat, size: nat) {
    var x, y := LastOffset(page, size), FirstOffset(page, size);
    n == 0 || x >= n || y <= 0 || y <= x
  }

  /** A page past the end is empty, as it should be, exactly then. */
  lemma PastEndPageIff(all: seq<string>, page: nat, size: nat)
    requires |all| <= INT_MAX && page < U32 && size < U32 && page * size >= |all|
    requires |all| - LastOffset(page, size) <= INT_MAX && |all| - FirstOffset(page, size) <= INT_MAX
    ensures Slice(all, page, size) == []
    ensures PageOf(all, page, size) == Slice(all, page, size) <==> StaysPastEnd(|all|, page, size)
  {
    SliceLength(all, page, size);
    WindowEmptyIff(all, LastOffset(page, size), FirstOffset(page, size));
  }

  /** One such page: number 2^31 of size 2 shows the newest entries again. */
  lemma WrappedPage(all: seq<string>)
    requires 2 <= |all| <= INT_MAX
    ensures !StaysPastEnd(|all|, 0x8000_0000, 2)
    ensures PageOf(all, 0x8000_0000, 2) == Slice(all, 0, 2) != []
    ensures Slice(all, 0x8000_0000, 2) == []
  {
    assert ToInt(0x1_0000_0000) == 0 && ToInt(0x1_0000_0002) == 2;
    assert PageOf(all, 0x8000_0000, 2) == Window(all, 0, 2);
    WindowIsRange(all, 0, 2);
  }

  // ------------------------------------------------------------- the partition

  lemma DivisionBounds(n: nat, size: nat)
    requires 1 <= size
    ensures (n / size) * size <= n < (n / size + 1) * size
  {
    MulStep(n / size, size);
  }

  lemma PagesNumberValue(n: nat, size: nat, q: nat, x: nat)
    requires n <= INT_MAX && 1 <= size && q == n / size && x == q * size && x <= n
    ensures PagesNumber(n, size) == if x < n then q + 1 else q
  {
    FactorAtMost(q, size);
    assert n % U32 == n && x % U32 == x;
  }

  lemma {:induction false} FactorAtMost(q: nat, size: nat)
    requires 1 <= size
    ensures q <= q * size
  {
    if q > 0 {
      FactorAtMost(q - 1, size);
      MulStep(q - 1, size);
    }
  }

  lemma CeilingOf(n: nat, size: nat, q: nat, p: nat)
    requires q * size <= n < (q + 1) * size && 1 <= size
    requires p == if q * size < n then q + 1 else q
    ensures p * size >= n && (p > 0 ==> (p - 1) * size < n)
  {
    if q * size == n && q > 0 { MulStep(q - 1, size); }
  }

  /** The number of pages is the quotient rounded up. */
  lemma PagesNumberIsCeiling(n: nat, size: nat)
    requires n <= INT_MAX && 1 <= size < U32
    ensures var p := PagesNumber(n, size); p * size >= n && (p > 0 ==> (p - 1) * size < n)
  {
    DivisionBounds(n, size);
    PagesNumberValue(n, size, n / size, (n / size) * size);
    CeilingOf(n, size, n / size, PagesNumber(n, size));
  }

  /** Pages `k - 1` down to 0, one after the other. */
  function PagesDown(k: nat, page: nat -> seq<string>): seq<string> {
    if k == 0 then [] else page(k - 1) + PagesDown(k - 1, page)
  }

  ghost predicate Adjacent(all: seq<string>, page: nat -> seq<string>, offset: nat -> nat, j: nat) {
    offset(j) <= offset(j + 1) && page(j) == Range(all, offset(j), offset(j + 1))
  }

  /** Adjacent ranges read downwards join up. */
  lemma {:induction false} PagesDownJoin(all: seq<string>, k: nat, page: nat -> seq<string>, offset: nat -> nat)
    requires offset(0) == 0
    requires forall j: nat :: j < k ==> Adjacent(all, page, offset, j)
    ensures PagesDown(k, page) == all[Clamp(|all| - offset(k))..]
  {
    if k == 0 {
      assert all[|all|..] == [];
    } else {
      PagesDownJoin(all, k - 1, page, offset);
      assert Adjacent(all, page, offset, k - 1);
      JoinSlices(all, Clamp(|all| - offset(k)), Clamp(|all| - offset(k - 1)));
    }
  }

  lemma JoinSlices(all: seq<string>, a: nat, b: nat)
    requires a <= b <= |all|
    ensures all[a..b] + all[b..] == all[a..]
  {
  }

  lemma PageInRange(all: seq<string>, p: nat, j: nat, size: nat)
    requires |all| <= INT_MAX && 1 <= size && p * size <= INT_MAX && j < p
    ensures j * size <= (j + 1) * size && PageOf(all, j, size) == Range(all, j * size, (j + 1) * size)
  {
    MulMono(j + 1, p, size);
    PageBounds(j, size);
    PageIsWindow(all, j, size);
    WindowIsRange(all, j * size, (j + 1) * size);
  }

  /** Read from the last page to page 0, the pages hold every entry once and in
      order. */
  lemma PagesPartitionTheLog(all: seq<string>, size: nat)
    requires |all| <= INT_MAX && 1 <= size < U32 && PagesNumber(|all|, size) * size <= INT_MAX
    ensures PagesDown(PagesNumber(|all|, size), (page: nat) => PageOf(all, page, size)) == all
  {
    var p := PagesNumber(|all|, size);
    var pageOf, offset := (page: nat) => PageOf(all, page, size), (page: nat) => page * size;
    PagesNumberIsCeiling(|all|, size);
    forall j: nat | j < p ensures Adjacent(all, pageOf, offset, j) {
      PageInRange(all, p, j, size);
    }
    PagesDownJoin(all, p, pageOf, offset);
    assert Clamp(|all| - offset(p)) == 0;
  }

  lemma SliceLength(all: seq<string>, page: nat, size: nat)
    ensures page * size >= |all| ==> |Slice(all, page, size)| == 0
    ensures page * size < |all| ==>
        |Slice(all, page, size)| == if (page + 1) * size <= |all| then size else |all| - page * size
  {
    MulStep(page, size);
    SliceBounds(|all|, page, size);
  }

  /** All pages but the oldest are full, the oldest is not empty, and later ones
      are. */
  lemma PageLengths(all: seq<string>, page: nat, size: nat)
    requires |all| <= INT_MAX && 1 <= size < U32 && (page + 1) * size <= INT_MAX
    ensures var p := PagesNumber(|all|, size); var n := |PageOf(all, page, size)|;
      && (page + 1 < p ==> n == size)
      && (page + 1 == p ==> 0 < n <= size)
      && (page >= p ==> n == 0)
  {
    var p := PagesNumber(|all|, size);
    PageIsSlice(all, page, size);
    PagesNumberIsCeiling(|all|, size);
    SliceLength(all, page, size);
    MulStep(page, size);
    if page + 1 < p {
      MulMono(page + 1, p - 1, size);
    } else if page >= p {
      MulMono(p, page, size);
    }
  }

  /** The pages of a log, joined from the last to the first, show exactly its matching
      lines, each once, in order, and under its own number. */
  lemma PagesShowTheLog(lines: seq<string>, filters: seq<string>, size: nat) returns (at: seq<nat>)
    requires |lines| <= INT_MAX && 1 <= size < U32
    requires PagesNumber(|Numbered(lines, filters)|, size) * size <= INT_MAX
    ensures Shows(at, lines, filters)
    ensures var all := Numbered(lines, filters);
      Lists(PagesDown(PagesNumber(|all|, size), (page: nat) => PageOf(all, page, size)), at, lines)
  {
    at := NumberedIsComplete(lines, filters);
    FewerShown(at, |lines|);
    PagesPartitionTheLog(Numbered(lines, filters), size);
  }

  lemma {:induction false} FewerShown(at: seq<nat>, n: nat)
    requires (forall i, j :: 0 <= i < j < |at| ==> at[i] < at[j]) && forall i :: 0 <= i < |at| ==> at[i] < n
    ensures |at| <= n
  {
    if at != [] {
      var k := |at| - 1;
      FewerShown(at[..k], at[k]);
    }
  }

  /** With a page size of zero there are no pages, and every page is empty. */
  lemma NoPages(all: seq<string>, page: nat)
    requires |all| <= INT_MAX
    ensures PagesNumber(|all|, 0) == 0 && PageOf(all, page, 0) == []
  {
    assert page * 0 == 0 && ((page + 1) % U32) * 0 == 0;
    WindowEmptyIff(all, 0, 0);
  }
}
