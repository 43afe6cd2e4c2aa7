/** Which overlaps of the event thread and the review do harm. */
module OverlapRuns {
  import opened Wrappers
  import opened Dto
  import opened Tables
  import opened MountStore
  import opened MountWorld
  import opened MountAgreement
  import opened MountOverlap

  // ------------------------------------------------------ the harmful overlaps

  /** The event thread mounts where the review is about to unmount, or the review
      decides to unmount where the event thread has just mounted and not yet
      recorded. */
  datatype Overlap = MountUnderReview | ReviewUnderMount

  predicate Mounting(pc: Pc) { pc.Mounted? || pc.Inserting? }

  predicate Overlaps(s: State, m: Move, o: Overlap) {
    match o
    case MountUnderReview =>
      m.MountDone? && s.event.Idle? && s.review.Chosen? && s.review.line.dir == m.dir
    case ReviewUnderMount =>
      && m.NextAbsent? && s.review.Idle? && s.work != [] && Mounting(s.event)
      && var pc := Choose(s.mtab, s.work[0], m.opens); pc.Chosen? && pc.line.dir == s.event.entry.mountPoint
  }

  /** Endpoints are no mount points, and no device reports the type "ntfs3". */
  predicate Legal(s: State, m: Move) { Ordinary(s, m) && (m.MountDone? ==> m.fs != "ntfs3") }

  ghost predicate AllLegal(s: State, moves: seq<Move>)
    decreases |moves|
  {
    moves == [] || (Legal(s, moves[0]) && AllLegal(Next(s, moves[0]), moves[1..]))
  }

  /** Only the allowed overlaps occur. */
  ghost predicate Obeys(allowed: set<Overlap>, s: State, moves: seq<Move>)
    decreases |moves|
  {
    moves == []
    || ((forall o :: Overlaps(s, moves[0], o) ==> o in allowed) && Obeys(allowed, Next(s, moves[0]), moves[1..]))
  }

  /** What is mounted where a thread is about to unmount is what it has read. */
  ghost predicate Reads(mtab: seq<MntLine>, pc: Pc) {
    pc.Chosen? ==> forall i :: 0 <= i < |mtab| && mtab[i].dir == pc.line.dir ==> mtab[i] == pc.line
  }

  /** A mount that is not recorded yet still stands, out of the way of the review. */
  ghost predicate Stands(s: State) {
    Mounting(s.event) ==>
      && HasLine(s.mtab, s.event.entry) && s.event.entry.fsType != "ntfs3"
      && (s.review.Chosen? ==> s.review.line.dir != s.event.entry.mountPoint)
  }

  ghost predicate Tracks(s: State) {
    PlainTypes(s.rows) && Reads(s.mtab, s.event) && Reads(s.mtab, s.review) && Stands(s)
  }

  lemma TrackedNeverStrands(s: State, m: Move)
    requires Inv(s) && Tracks(s)
    ensures !Strands(s, m)
  {
    if m.Continue? && At(s, m.who).Chosen? {
      var line := At(s, m.who).line;
      if LastAt(s.mtab, line.dir).Some? {
        var i := LineIndex(s.mtab, LastAt(s.mtab, line.dir).value);
        assert s.mtab[i] == line;
        forall id | id in s.rows && Matches(s.rows[id], line) ensures s.rows[id] == Looked(line) && line.fsname != "" {
          MatchIsLookup(s.rows[id], line);
        }
      }
    }
  }

  lemma MountTracks(s: State, m: Move, s': State)
    requires Tracks(s) && m.MountDone? && Legal(s, m) && Begin(s, m) == Some(s') && !Overlaps(s, m, MountUnderReview)
    ensures Tracks(s')
  {
    var l := MntLine(m.name, m.dir, KernelType(m.fs), m.blank);
    AppendKeepsLine(s.mtab, l, MountEntry(m.name, m.dir, m.fs));
    assert forall i :: 0 <= i < |s'.mtab| ==> s'.mtab[i] == if i < |s.mtab| then s.mtab[i] else l;
  }

  lemma ChosenReads(mtab: seq<MntLine>, name: string, opens: bool)
    requires DistinctDirs(mtab)
    ensures Reads(mtab, Choose(mtab, name, opens))
  {
    var pc := Choose(mtab, name, opens);
    if pc.Chosen? { var k := LineIndex(mtab, pc.line); }
  }

  lemma BeginTracks(s: State, m: Move, s': State)
    requires DistinctDirs(s.mtab) && Tracks(s) && !m.Continue? && Legal(s, m) && Begin(s, m) == Some(s')
    requires forall o :: !Overlaps(s, m, o)
    ensures Tracks(s')
  {
    match m
    case MountDone(_, _, _, _) =>
      assert !Overlaps(s, m, MountUnderReview);
      MountTracks(s, m, s');
    case StartUnMount(name, opens) => ChosenReads(s.mtab, name, opens);
    case NextAbsent(opens) =>
      assert !Overlaps(s, m, ReviewUnderMount);
      ChosenReads(s.mtab, s.work[0], opens);
    case _ =>
  }

  lemma DetachTracks(s: State, who: Who, line: MntLine, s': State)
    requires DistinctDirs(s.mtab) && Tracks(s) && At(s, who) == Chosen(line) && LastAt(s.mtab, line.dir).Some?
    requires s' == UnMountStep(s, who, line, true)
    ensures Tracks(s')
  {
    var i := LineIndex(s.mtab, LastAt(s.mtab, line.dir).value);
    DetachIsExact(s.mtab, i);
    assert forall k :: 0 <= k < |s'.mtab| ==> s'.mtab[k] == s.mtab[if k < i then k else k + 1];
    if Mounting(s'.event) { WithoutKeepsLine(s.mtab, i, s.event.entry); }
  }

  lemma AdvanceTracks(s: State, who: Who, ok: bool, s': State)
    requires DistinctDirs(s.mtab) && Tracks(s) && Advance(s, who, ok) == Some(s')
    requires !s.review.Mounted? && !s.review.Inserting?
    ensures Tracks(s')
  {
    if At(s, who).Inserting? {
      CreateRowKeepsPlain(s.rows, At(s, who).entry);
    } else if At(s, who).Chosen? && ok && LastAt(s.mtab, At(s, who).line.dir).Some? {
      DetachTracks(s, who, At(s, who).line, s');
    }
  }

  lemma CreateRowKeepsPlain(rows: MountRows, e: MountEntry)
    requires PlainTypes(rows) && e.fsType != "ntfs3"
    ensures PlainTypes(CreateRow(rows, e))
  {
  }

  lemma StepTracks(s: State, m: Move)
    requires Inv(s) && Tracks(s) && Legal(s, m) && forall o :: !Overlaps(s, m, o)
    ensures Tracks(Next(s, m))
  {
    if Step(s, m).Some? {
      if m.Continue? { AdvanceTracks(s, m.who, m.ok, Next(s, m)); } else { BeginTracks(s, m, Next(s, m)); }
    }
  }

  /** The two threads may overlap in every other way without stranding a row. */
  lemma {:induction false} ApartNeverStrands(s: State, moves: seq<Move>)
    requires Inv(s) && Tracks(s) && AllLegal(s, moves) && Obeys({}, s, moves)
    ensures AllOrdinary(s, moves) && NeverStrands(s, moves)
    decreases |moves|
  {
    if moves != [] {
      TrackedNeverStrands(s, moves[0]);
      StepIff(s, moves[0]);
      assert forall o :: !Overlaps(s, moves[0], o);
      StepTracks(s, moves[0]);
      ApartNeverStrands(Next(s, moves[0]), moves[1..]);
    }
  }

  /** A start from which the daemon runs: both threads rest, in agreement. */
  ghost predicate Starts(s: State) { Inv(s) && AtRest(s) && PlainTypes(s.rows) }

  ghost predicate RestsInAgreement(s: State) {
    AtRest(s) ==> forall dirs :: Agreement(World(s.mtab, dirs, s.rows))
  }

  lemma ApartRestsInAgreement(s: State, moves: seq<Move>)
    requires Starts(s) && AllLegal(s, moves) && Obeys({}, s, moves)
    ensures RestsInAgreement(Run(s, moves))
  {
    ApartNeverStrands(s, moves);
    if AtRest(Run(s, moves)) {
      forall dirs ensures Agreement(World(Run(s, moves).mtab, dirs, Run(s, moves).rows)) {
        UnstrandedRunAgrees(s, moves, dirs);
      }
    }
  }

  // ------------------------------------------------------------ two failing runs

  /** A run through legal moves from `s` to `t` with the given overlaps at most. */
  ghost predicate Leads(s: State, moves: seq<Move>, t: State, may: set<Overlap>) {
    Run(s, moves) == t && AllLegal(s, moves) && Obeys(may, s, moves)
  }

  lemma LeadsOne(s: State, m: Move, t: State, may: set<Overlap>)
    requires Legal(s, m) && Step(s, m) == Some(t) && forall o :: Overlaps(s, m, o) ==> o in may
    ensures Leads(s, [m], t, may)
  {
    assert Run(t, []) == t && AllLegal(t, []) && Obeys(may, t, []);
  }

  lemma {:induction false} LeadsOn(s: State, a: seq<Move>, t: State, b: seq<Move>, u: State, may: set<Overlap>)
    requires Leads(s, a, t, may) && Leads(t, b, u, may)
    ensures Leads(s, a + b, u, may)
    decreases |a|
  {
    if a == [] {
      assert a + b == b;
    } else {
      assert (a + b)[0] == a[0] && (a + b)[1..] == a[1..] + b;
      LeadsOn(Next(s, a[0]), a[1..], t, b, u, may);
    }
  }

  const GO_EVENT := Continue(EventThread, true)
  const GO_REVIEW := Continue(ReviewThread, true)

  /** The event thread unmounts the only mount and deletes its row. */
  lemma EventUnMounts(s: State, l: MntLine, may: set<Overlap>) returns (t: State)
    requires s.event.Idle? && s.mtab == [l] && s.rows == map[0 := Looked(l)] && l.fsname != "" && l.dir != ""
    ensures t == s.(mtab := [], rows := map[])
    ensures Leads(s, [StartUnMount(l.fsname, true)] + [GO_EVENT] + [GO_EVENT] + [GO_EVENT], t, may)
  {
    var a := s.(event := Chosen(l));
    assert FirstOf(s.mtab, l.fsname) == Some(l);
    LeadsOne(s, StartUnMount(l.fsname, true), a, may);
    var b := a.(mtab := [], event := Detached(l));
    assert LastAt(a.mtab, l.dir) == Some(l) && Detach([l], l.dir) == [];
    LeadsOne(a, GO_EVENT, b, may);
    LeadsOn(s, [StartUnMount(l.fsname, true)], a, [GO_EVENT], b, may);
    var c := b.(event := Deleting(0));
    assert b.rows[0] == Looked(l) && Looked(l) in b.rows.Values;
    assert forall id :: id in b.rows ==> id == 0;
    assert FindEntry(b.rows, Looked(l)) == Some(0);
    LeadsOne(b, GO_EVENT, c, may);
    LeadsOn(s, [StartUnMount(l.fsname, true)] + [GO_EVENT], b, [GO_EVENT], c, may);
    t := c.(rows := map[], event := Idle);
    assert c.rows - {0} == map[];
    LeadsOne(c, GO_EVENT, t, may);
    LeadsOn(s, [StartUnMount(l.fsname, true)] + [GO_EVENT] + [GO_EVENT], c, [GO_EVENT], t, may);
  }

  /** The event thread records its mount in an empty table. */
  lemma EventRecords(s: State, e: MountEntry, may: set<Overlap>) returns (t: State)
    requires s.event == Mounted(e) && s.rows == map[]
    ensures t == s.(rows := map[0 := e], event := Idle)
    ensures Leads(s, [GO_EVENT] + [GO_EVENT], t, may)
  {
    var a := s.(event := Inserting(e));
    assert FindEntry(s.rows, e).None?;
    LeadsOne(s, GO_EVENT, a, may);
    t := a.(rows := map[0 := e], event := Idle);
    assert CreateRow(a.rows, e) == map[0 := e];
    LeadsOne(a, GO_EVENT, t, may);
    LeadsOn(s, [GO_EVENT], a, [GO_EVENT], t, may);
  }

  /** The review detaches the only mount, at the directory it has read, and finds
      no row of the device it has read. */
  lemma ReviewDetaches(s: State, line: MntLine, l: MntLine, may: set<Overlap>) returns (t: State)
    requires s.review == Chosen(line) && s.mtab == [l] && l.dir == line.dir && line.fsname != ""
    requires Looked(line) !in s.rows.Values
    ensures t == s.(mtab := [], review := Idle)
    ensures Leads(s, [GO_REVIEW] + [GO_REVIEW], t, may)
  {
    var a := s.(mtab := [], review := Detached(line));
    assert LastAt(s.mtab, l.dir) == Some(l) && Detach([l], l.dir) == [];
    LeadsOne(s, GO_REVIEW, a, may);
    t := a.(review := Idle);
    assert FindEntry(a.rows, Looked(line)).None?;
    LeadsOne(a, GO_REVIEW, t, may);
    LeadsOn(s, [GO_REVIEW], a, [GO_REVIEW], t, may);
  }

  function Recorded(l: MntLine): State { State([l], map[0 := Looked(l)], Idle, Idle, []) }

  function Stuck(e: MountEntry): State { State([], map[0 := e], Idle, Idle, []) }

  lemma RecordedIsFine(l: MntLine)
    requires l.fsname != "" && l.dir != "" && KernelType(TableType(l.fstype)) == l.fstype
    ensures Starts(Recorded(l))
  {
    var s := Recorded(l);
    assert Matches(s.rows[0], s.mtab[0]);
  }

  /** Both threads rest, and a row is left without a mount. */
  ghost predicate RestsWrongly(s: State) {
    AtRest(s) && forall dirs :: !Agreement(World(s.mtab, dirs, s.rows))
  }

  lemma StuckRestsWrongly(e: MountEntry)
    ensures RestsWrongly(Stuck(e))
  {
    assert 0 in Stuck(e).rows && !HasLine([], e);
  }

  lemma ReviewLists(l: MntLine, may: set<Overlap>) returns (t: State)
    requires l.fsname != ""
    ensures t == Recorded(l).(work := [l.fsname]) && Leads(Recorded(l), [TakeSnapshot({})], t, may)
  {
    var s := Recorded(l);
    t := s.(work := [l.fsname]);
    assert s.rows.Keys == {0};
    assert LeastFrom({0}, 0) == Some(0) by { assert 0 in {0 as Id}; }
    assert LeastFrom({0}, After(0)) == None;
    assert RowsFrom(s.rows, 0) == [Looked(l)];
    assert AbsentNames([Looked(l)], {}) == [l.fsname];
    LeadsOne(s, TakeSnapshot({}), t, may);
  }

  lemma ReviewChooses(s: State, l: MntLine, may: set<Overlap>) returns (t: State)
    requires s.review.Idle? && s.work == [l.fsname] && s.mtab == [l] && l.dir != ""
    requires Mounting(s.event) ==> ReviewUnderMount in may
    ensures t == s.(work := [], review := Chosen(l)) && Leads(s, [NextAbsent(true)], t, may)
  {
    t := s.(work := [], review := Chosen(l));
    assert FirstOf(s.mtab, l.fsname) == Some(l) && s.work[1..] == [];
    LeadsOne(s, NextAbsent(true), t, may);
  }

  lemma EventMounts(s: State, name: string, dir: string, fs: string, blank: bool, may: set<Overlap>) returns (t: State)
    requires s.event.Idle? && s.mtab == [] && name != "" && dir != "" && fs != "ntfs3"
    requires s.review.Chosen? ==> MountUnderReview in may
    ensures t == s.(mtab := [MntLine(name, dir, KernelType(fs), blank)], event := Mounted(MountEntry(name, dir, fs)))
    ensures Leads(s, [MountDone(name, dir, fs, blank)], t, may)
  {
    t := s.(mtab := [MntLine(name, dir, KernelType(fs), blank)], event := Mounted(MountEntry(name, dir, fs)));
    assert s.mtab + [MntLine(name, dir, KernelType(fs), blank)] == [MntLine(name, dir, KernelType(fs), blank)];
    LeadsOne(s, MountDone(name, dir, fs, blank), t, may);
  }

  /** A stick is pulled and plugged in again while the review has it on its list:
      the review unmounts the new mount before its row is inserted, and at rest a
      row without a mount is left. */
  lemma ReviewOutrunsCreate(l: MntLine, fs: string, may: set<Overlap>) returns (moves: seq<Move>)
    requires l.fsname != "" && l.dir != "" && l.fstype == KernelType(fs) && fs != "ntfs3" && ReviewUnderMount in may
    ensures Starts(Recorded(l))
    ensures Leads(Recorded(l), moves, Stuck(Looked(l)), may) && RestsWrongly(Stuck(Looked(l)))
  {
    RecordedIsFine(l);
    StuckRestsWrongly(Looked(l));
    var s := Recorded(l);
    var a := ReviewLists(l, may);
    moves := [TakeSnapshot({})];
    var b := EventUnMounts(a, l, may);
    var unMount := [StartUnMount(l.fsname, true)] + [GO_EVENT] + [GO_EVENT] + [GO_EVENT];
    LeadsOn(s, moves, a, unMount, b, may);
    moves := moves + unMount;
    var c := EventMounts(b, l.fsname, l.dir, fs, l.blank, may);
    var again := [MountDone(l.fsname, l.dir, fs, l.blank)];
    LeadsOn(s, moves, b, again, c, may);
    moves := moves + again;
    var d := ReviewChooses(c, l, may);
    LeadsOn(s, moves, c, [NextAbsent(true)], d, may);
    moves := moves + [NextAbsent(true)];
    var e := ReviewDetaches(d, l, l, may);
    LeadsOn(s, moves, d, [GO_REVIEW] + [GO_REVIEW], e, may);
    moves := moves + ([GO_REVIEW] + [GO_REVIEW]);
    var f := EventRecords(e, Looked(l), may);
    LeadsOn(s, moves, e, [GO_EVENT] + [GO_EVENT], f, may);
    moves := moves + ([GO_EVENT] + [GO_EVENT]);
  }

  /** The review reads where a stick is mounted; before it unmounts, another device
      is mounted there and recorded. The review takes that mount away. */
  lemma ReviewUnMountsStranger(l: MntLine, name: string, fs: string, blank: bool, may: set<Overlap>)
      returns (moves: seq<Move>)
    requires l.fsname != "" && l.dir != "" && KernelType(TableType(l.fstype)) == l.fstype && name != ""
    requires name != l.fsname && fs != "ntfs3" && MountUnderReview in may
    ensures Starts(Recorded(l))
    ensures var e := MountEntry(name, l.dir, fs); Leads(Recorded(l), moves, Stuck(e), may) && RestsWrongly(Stuck(e))
  {
    RecordedIsFine(l);
    StuckRestsWrongly(MountEntry(name, l.dir, fs));
    var s := Recorded(l);
    var a := ReviewLists(l, may);
    moves := [TakeSnapshot({})];
    var b := ReviewChooses(a, l, may);
    LeadsOn(s, moves, a, [NextAbsent(true)], b, may);
    moves := moves + [NextAbsent(true)];
    var c := EventUnMounts(b, l, may);
    var unMount := [StartUnMount(l.fsname, true)] + [GO_EVENT] + [GO_EVENT] + [GO_EVENT];
    LeadsOn(s, moves, b, unMount, c, may);
    moves := moves + unMount;
    var d := EventMounts(c, name, l.dir, fs, blank, may);
    var other := [MountDone(name, l.dir, fs, blank)];
    LeadsOn(s, moves, c, other, d, may);
    moves := moves + other;
    var e := EventRecords(d, MountEntry(name, l.dir, fs), may);
    LeadsOn(s, moves, d, [GO_EVENT] + [GO_EVENT], e, may);
    moves := moves + ([GO_EVENT] + [GO_EVENT]);
    var f := ReviewDetaches(e, l, e.mtab[0], may);
    LeadsOn(s, moves, e, [GO_REVIEW] + [GO_REVIEW], f, may);
    moves := moves + ([GO_REVIEW] + [GO_REVIEW]);
  }

  // ------------------------------------------------- the other direction fails too

  function Nothing(): State { State([], map[], Idle, Idle, []) }

  /** Without a harmful overlap every row has its mount, but not every mount its row:
      a review that has read mtab before a mount drops the row of that mount. */
  lemma StaleReviewDropsRow(l: MntLine, fs: string, may: set<Overlap>) returns (moves: seq<Move>)
    requires l.fsname != "" && l.dir != "" && l.fstype == KernelType(fs) && fs != "ntfs3"
    ensures Starts(Nothing()) && Leads(Nothing(), moves, Nothing().(mtab := [l]), may)
  {
    var s := Nothing();
    var a := s.(review := HasValid({}));
    assert LiveDirs(s.mtab) == {};
    LeadsOne(s, StartReview(ReviewThread, true), a, may);
    moves := [StartReview(ReviewThread, true)];
    var b := EventMounts(a, l.fsname, l.dir, fs, l.blank, may);
    var mount := [MountDone(l.fsname, l.dir, fs, l.blank)];
    LeadsOn(s, moves, a, mount, b, may);
    moves := moves + mount;
    var c := EventRecords(b, MountEntry(l.fsname, l.dir, fs), may);
    LeadsOn(s, moves, b, [GO_EVENT] + [GO_EVENT], c, may);
    moves := moves + ([GO_EVENT] + [GO_EVENT]);
    var d := c.(rows := map[], review := Idle);
    assert Live(c.rows, {}) == map[];
    LeadsOne(c, GO_REVIEW, d, may);
    LeadsOn(s, moves, c, [GO_REVIEW], d, may);
    moves := moves + [GO_REVIEW];
  }

  // --------------------------------------------------------- exactly these two

  /** Whatever the threads do within the allowed overlaps, they rest in agreement. */
  ghost predicate RestsWell(allowed: set<Overlap>) {
    forall s, moves :: Starts(s) && AllLegal(s, moves) && Obeys(allowed, s, moves) ==> RestsInAgreement(Run(s, moves))
  }

  lemma FailingRun(s: State, moves: seq<Move>, t: State, allowed: set<Overlap>)
    requires Starts(s) && Leads(s, moves, t, allowed) && RestsWrongly(t)
    ensures !RestsWell(allowed)
  {
    var dirs: map<string, bool> := map[];
    assert !Agreement(World(t.mtab, dirs, t.rows));
    assert !RestsInAgreement(Run(s, moves));
  }

  /** Runs of the two threads always rest in agreement if and only if neither
      harmful overlap may occur. */
  lemma OverlapIff(allowed: set<Overlap>)
    ensures RestsWell(allowed) <==> MountUnderReview !in allowed && ReviewUnderMount !in allowed
  {
    var l := MntLine("/dev/sdb1", "/media/stick", "vfat", false);
    if ReviewUnderMount in allowed {
      var moves := ReviewOutrunsCreate(l, "vfat", allowed);
      FailingRun(Recorded(l), moves, Stuck(Looked(l)), allowed);
    } else if MountUnderReview in allowed {
      var moves := ReviewUnMountsStranger(l, "/dev/sdc1", "vfat", false, allowed);
      FailingRun(Recorded(l), moves, Stuck(MountEntry("/dev/sdc1", l.dir, "vfat")), allowed);
    } else {
      forall o: Overlap ensures o !in allowed {
        match o
        case MountUnderReview =>
        case ReviewUnderMount =>
      }
      assert allowed == {};
      forall s, moves | Starts(s) && AllLegal(s, moves) && Obeys(allowed, s, moves)
        ensures RestsInAgreement(Run(s, moves))
      {
        ApartRestsInAgreement(s, moves);
      }
    }
  }

  // ------------------------------------------ alone, the steps are the operations

  function Go(who: Who, ok: bool): Move { Continue(who, ok) }

  lemma RunCons(s: State, m: Move, rest: seq<Move>)
    ensures Run(s, [m] + rest) == Run(Next(s, m), rest)
  {
    assert ([m] + rest)[1..] == rest;
  }

  lemma RunTwo(s: State, a: Move, b: Move)
    ensures Run(s, [a, b]) == Next(Next(s, a), b)
  {
    var t := Next(Next(s, a), b);
    RunCons(s, a, [b]);
    RunCons(Next(s, a), b, []);
    assert [b] + [] == [b] && [a] + [b] == [a, b] && Run(t, []) == t;
  }

  lemma RunThree(s: State, a: Move, b: Move, c: Move)
    ensures Run(s, [a, b, c]) == Next(Next(Next(s, a), b), c)
  {
    RunCons(s, a, [b, c]);
    RunTwo(Next(s, a), b, c);
    assert [a] + [b, c] == [a, b, c];
  }

  lemma RunFour(s: State, a: Move, b: Move, c: Move, d: Move)
    ensures Run(s, [a, b, c, d]) == Next(Next(Next(Next(s, a), b), c), d)
  {
    RunCons(s, a, [b, c, d]);
    RunThree(Next(s, a), b, c, d);
    assert [a] + [b, c, d] == [a, b, c, d];
  }

  /** The end of an unmount: the thread has looked a row up and deletes it. */
  lemma EndOfSearch(s: State, found: Option<Id>, ok: bool)
    ensures var after := Next(Found(s, EventThread, found), Go(EventThread, ok));
      after == s.(event := Idle, rows := match found case None => s.rows case Some(id) => s.rows - {id})
  {
  }

  /** What is left of an unmount after mtab was read. */
  function Finish(s: State, ok: bool): State {
    Next(Next(Next(s, Go(EventThread, ok)), Go(EventThread, ok)), Go(EventThread, ok))
  }

  lemma FinishAbsent(s: State, name: string, ok: bool)
    requires s.event == Absent(name)
    ensures Finish(s, ok)
            == s.(event := Idle,
                  rows := match FindDevice(s.rows, name) case None => s.rows case Some(id) => s.rows - {id})
  {
    EndOfSearch(s, FindDevice(s.rows, name), ok);
  }

  lemma FinishChosen(s: State, line: MntLine, ok: bool)
    requires s.event == Chosen(line) && LastAt(s.mtab, line.dir).Some?
    ensures Finish(s, ok)
            == if !ok then s.(event := Idle)
               else if line.fsname == "" then s.(event := Idle, mtab := Detach(s.mtab, line.dir))
               else s.(event := Idle, mtab := Detach(s.mtab, line.dir),
                       rows := match FindEntry(s.rows, Looked(line)) case None => s.rows case Some(id) => s.rows - {id})
  {
    if ok && line.fsname != "" {
      EndOfSearch(s.(mtab := Detach(s.mtab, line.dir)), FindEntry(s.rows, Looked(line)), ok);
    }
  }

  /** An unmount that no other thread disturbs does what UnMount does to the mounts
      and the rows. */
  lemma SoloUnMount(s: State, name: string, env: UnMountAnswers, dirs: map<string, bool>)
    requires s.event.Idle?
    ensures var go := Go(EventThread, env.umountOk);
      var after := UnMount(World(s.mtab, dirs, s.rows), name, env).0;
      Run(s, [StartUnMount(name, env.mtabOpens), go, go, go]) == s.(mtab := after.mtab, rows := after.rows)
  {
    var go, pc := Go(EventThread, env.umountOk), Choose(s.mtab, name, env.mtabOpens);
    RunFour(s, StartUnMount(name, env.mtabOpens), go, go, go);
    match pc
    case Absent(_) => FinishAbsent(s.(event := pc), name, env.umountOk);
    case Chosen(line) =>
      var i := LineIndex(s.mtab, line);
      FinishChosen(s.(event := pc), line, env.umountOk);
    case _ =>
  }

  /** A mount that no other thread disturbs does what PerformMount does to them. */
  lemma SoloMount(s: State, dev: UsbDevice, env: MountAnswers, endpoint: string, dirs: map<string, bool>)
    requires s.event.Idle? && (env.mountOk || env.readOnlyOk)
    ensures var go := Go(EventThread, true);
      var after := PerformMount(World(s.mtab, dirs, s.rows), dev, env, endpoint);
      Run(s, [MountDone(dev.blockName, endpoint, dev.filesystem, env.blank), go, go])
      == s.(mtab := after.mtab, rows := after.rows)
  {
    var go := Go(EventThread, true);
    RunThree(s, MountDone(dev.blockName, endpoint, dev.filesystem, env.blank), go, go);
  }

  /** A review of the rows that no other thread disturbs does what ReviewMountPoints
      does to them. */
  lemma SoloReview(s: State, who: Who, review: ReviewAnswers, dirs: map<string, bool>)
    requires At(s, who).Idle?
    ensures Run(s, [StartReview(who, review.mtabOpens), Go(who, true)])
            == s.(rows := ReviewMountPoints(World(s.mtab, dirs, s.rows), review).rows)
  {
    var a, b := StartReview(who, review.mtabOpens), Go(who, true);
    RunTwo(s, a, b);
    var valid := if review.mtabOpens then LiveDirs(s.mtab) else {};
    SweepKeepsRest(World(s.mtab, dirs, Live(s.rows, valid)), review.listing, valid);
  }

  /** The list of a review: the devices of the rows that are not present, in id order. */
  lemma {:induction false} AbsentNamesMean(snapshot: seq<MountEntry>, present: set<string>)
    ensures forall name :: name in AbsentNames(snapshot, present) <==>
      name != "" && name !in present && exists i :: 0 <= i < |snapshot| && snapshot[i].devName == name
  {
    if snapshot != [] {
      AbsentNamesMean(snapshot[1..], present);
      assert forall i :: 1 <= i < |snapshot| ==> snapshot[i] == snapshot[1..][i - 1];
    }
  }
}
