/** The periodic review runs in a thread of its own, beside the thread that
    handles events. One step of the state machine is one read of mtab, one
    mount(2) or umount2, or one access to the table under its lock; directories do
    not matter here. The review thread may unmount what is on its list, and any
    order of the two threads' steps is a run. */
module MountOverlap {
  import opened Wrappers
  import opened Dto
  import opened Tables
  import opened MountStore
  import opened MountWorld
  import opened MountAgreement

  datatype Who = EventThread | ReviewThread

  function Other(who: Who): Who { if who.EventThread? then ReviewThread else EventThread }

  /** Where a thread stands inside a mount, an unmount or a review. */
  datatype Pc =
    | Idle
    | Mounted(entry: MountEntry)    // mount(2) went through; Create searches next
    | Inserting(entry: MountEntry)  // ... and found no equal row
    | HasValid(valid: set<string>)  // mtab read; RemoveExpired next
    | Chosen(line: MntLine)         // mtab read; umount2 next
    | Detached(line: MntLine)       // umount2 went through; the search for the row next
    | Absent(name: string)          // mtab does not list the device; the search next
    | Deleting(id: Id)              // a row was found

  /** `work` lists the devices the review has yet to unmount. */
  datatype State = State(mtab: seq<MntLine>, rows: MountRows, event: Pc, review: Pc, work: seq<string>)

  function At(s: State, who: Who): Pc { if who.EventThread? then s.event else s.review }

  function Put(s: State, who: Who, pc: Pc): State {
    if who.EventThread? then s.(event := pc) else s.(review := pc)
  }

  datatype Move =
    | MountDone(name: string, dir: string, fs: string, blank: bool)  // by the event thread
    | StartReview(who: Who, opens: bool)
    | TakeSnapshot(present: set<string>)                             // by the review thread
    | StartUnMount(name: string, opens: bool)                        // by the event thread
    | NextAbsent(opens: bool)                                        // by the review thread
    | Continue(who: Who, ok: bool)

  function Mover(m: Move): Who {
    match m
    case StartReview(who, _) => who
    case Continue(who, _) => who
    case TakeSnapshot(_) => ReviewThread
    case NextAbsent(_) => ReviewThread
    case _ => EventThread
  }

  function Choose(mtab: seq<MntLine>, name: string, opens: bool): Pc {
    if !opens then Idle
    else match FirstOf(mtab, name)
      case None => Absent(name)
      case Some(line) => if line.dir == "" then Absent(name) else Chosen(line)
  }

  function AbsentNames(snapshot: seq<MountEntry>, present: set<string>): seq<string> {
    if snapshot == [] then []
    else
      var name := snapshot[0].devName;
      (if name in present || name == "" then [] else [name]) + AbsentNames(snapshot[1..], present)
  }

  function Begin(s: State, m: Move): Option<State>
    requires !m.Continue?
  {
    if !At(s, Mover(m)).Idle? then None
    else match m
      case MountDone(name, dir, fs, blank) =>
        Some(s.(mtab := s.mtab + [MntLine(name, dir, KernelType(fs), blank)],
                event := if name == "" || dir == "" then Idle else Mounted(MountEntry(name, dir, fs))))
      case StartReview(who, opens) => Some(Put(s, who, HasValid(if opens then LiveDirs(s.mtab) else {})))
      case TakeSnapshot(present) => Some(s.(work := AbsentNames(RowsFrom(s.rows, 0), present)))
      case StartUnMount(name, opens) => Some(s.(event := Choose(s.mtab, name, opens)))
      case NextAbsent(opens) =>
        if s.work == [] then None
        else Some(s.(review := Choose(s.mtab, s.work[0], opens), work := s.work[1..]))
  }

  /** umount2 fails where nothing is mounted. */
  function UnMountStep(s: State, who: Who, line: MntLine, ok: bool): State {
    if !ok || LastAt(s.mtab, line.dir).None? then Put(s, who, Idle)
    else Put(s.(mtab := Detach(s.mtab, line.dir)), who, if line.fsname == "" then Idle else Detached(line))
  }

  function Found(s: State, who: Who, found: Option<Id>): State {
    Put(s, who, if found.Some? then Deleting(found.value) else Idle)
  }

  function Advance(s: State, who: Who, ok: bool): Option<State> {
    match At(s, who)
    case Idle => None
    case Mounted(e) => Some(Put(s, who, if FindEntry(s.rows, e).Some? then Idle else Inserting(e)))
    case Inserting(e) => Some(Put(s.(rows := CreateRow(s.rows, e)), who, Idle))
    case HasValid(valid) => Some(Put(s.(rows := Live(s.rows, valid)), who, Idle))
    case Chosen(line) => Some(UnMountStep(s, who, line, ok))
    case Detached(line) => Some(Found(s, who, FindEntry(s.rows, Looked(line))))
    case Absent(name) => Some(Found(s, who, FindDevice(s.rows, name)))
    case Deleting(id) => Some(Put(s.(rows := s.rows - {id}), who, Idle))
  }

  function Step(s: State, m: Move): Option<State> {
    if m.Continue? then Advance(s, m.who, m.ok) else Begin(s, m)
  }

  /** A move that is not possible changes nothing. */
  function Next(s: State, m: Move): State { if Step(s, m).Some? then Step(s, m).value else s }

  function Run(s: State, moves: seq<Move>): State
    decreases |moves|
  {
    if moves == [] then s else Run(Next(s, moves[0]), moves[1..])
  }

  // ------------------------------------------------------------- the invariant

  /** The thread is about to delete row `id`. */
  predicate Takes(pc: Pc, rows: MountRows, id: Id)
    requires id in rows
  {
    (pc.Detached? && rows[id] == Looked(pc.line)) || (pc.Deleting? && pc.id == id)
  }

  /** The row has its mount, or a thread on the way to delete it. */
  ghost predicate Covered(s: State, id: Id)
    requires id in s.rows
  {
    HasLine(s.mtab, s.rows[id]) || Takes(s.event, s.rows, id) || Takes(s.review, s.rows, id)
  }

  ghost predicate AllCovered(s: State) { forall id :: id in s.rows ==> Covered(s, id) }

  ghost predicate Shape(s: State) {
    && Distinct(s.rows) && DistinctDirs(s.mtab)
    && (forall id :: id in s.rows ==> Proper(s.rows[id]))
    && !s.review.Mounted? && !s.review.Inserting?
    && (s.event.Mounted? || s.event.Inserting? ==> Proper(s.event.entry))
    && (s.event.Inserting? ==> s.event.entry !in s.rows.Values)
  }

  ghost predicate Inv(s: State) { Shape(s) && AllCovered(s) }

  predicate AtRest(s: State) { s.event.Idle? && s.review.Idle? && s.work == [] }

  /** At rest nobody is about to delete anything, so every row has its mount. */
  lemma RestAgrees(s: State, dirs: map<string, bool>)
    requires Inv(s) && AtRest(s)
    ensures Agreement(World(s.mtab, dirs, s.rows))
  {
    forall id | id in s.rows ensures HasLine(s.mtab, s.rows[id]) { assert Covered(s, id); }
  }

  // ------------------------------------------------------------ stranded rows

  /** The row is inserted although its mount is gone, and no thread will find it. */
  ghost predicate InsertStrands(s: State, e: MountEntry) {
    var id := NextId(s.rows.Keys);
    && id !in s.rows && !HasLine(s.mtab, e)
    && !(s.review.Detached? && Looked(s.review.line) == e) && !(s.review.Deleting? && s.review.id == id)
  }

  /** Row `id` loses its mount with line `there`, and neither thread takes it. */
  predicate Stranded(s: State, who: Who, line: MntLine, there: MntLine, id: Id)
    requires id in s.rows
  {
    && Matches(s.rows[id], there) && (line.fsname == "" || s.rows[id] != Looked(line))
    && !Takes(At(s, Other(who)), s.rows, id)
  }

  /** umount2 detaches a mount whose row is not the one the thread then looks for,
      and that no other thread is about to delete. */
  ghost predicate DetachStrands(s: State, who: Who, line: MntLine) {
    var there := LastAt(s.mtab, line.dir);
    there.Some? && exists id :: id in s.rows && Stranded(s, who, line, there.value, id)
  }

  ghost predicate Strands(s: State, m: Move) {
    m.Continue? &&
    match At(s, m.who)
    case Inserting(e) => InsertStrands(s, e)
    case Chosen(line) => m.ok && DetachStrands(s, m.who, line)
    case _ => false
  }

  /** The event thread picks an endpoint that is no mount point. */
  predicate Ordinary(s: State, m: Move) { m.MountDone? ==> LastAt(s.mtab, m.dir).None? }

  // ------------------------------------------------------------------ the steps

  lemma InsertCovers(s: State, id: Id, e: MountEntry, s': State)
    requires AllCovered(s) && s.event.Inserting? && id !in s.rows
    requires s' == s.(rows := s.rows[id := e], event := Idle)
    ensures AllCovered(s') <==> HasLine(s.mtab, e) || Takes(s.review, s'.rows, id)
  {
    forall k | k in s.rows ensures Covered(s', k) { assert Covered(s, k) && s'.rows[k] == s.rows[k]; }
    assert AllCovered(s') <==> Covered(s', id);
  }

  lemma InsertKeepsShape(s: State, s': State)
    requires Shape(s) && s.event.Inserting?
    requires s' == s.(rows := CreateRow(s.rows, s.event.entry), event := Idle)
    ensures Shape(s')
  {
    var e := s.event.entry;
    assert FindEntry(s.rows, e).None?;
    CreateKeepsDistinct(s.rows, e);
    CreatedOrThere(s.rows, e);
  }

  lemma InsertIff(s: State, s': State)
    requires Inv(s) && s.event.Inserting?
    requires s' == s.(rows := CreateRow(s.rows, s.event.entry), event := Idle)
    ensures Inv(s') <==> !InsertStrands(s, s.event.entry)
  {
    var e, id := s.event.entry, NextId(s.rows.Keys);
    InsertKeepsShape(s, s');
    if id !in s.rows {
      InsertCovers(s, id, e, s');
    } else {
      forall k | k in s.rows ensures Covered(s', k) { assert Covered(s, k); }
    }
  }

  lemma StillThere(mtab: seq<MntLine>, i: nat, e: MountEntry)
    requires i < |mtab| && HasLine(Without(mtab, i), e)
    ensures HasLine(mtab, e)
  {
    var k :| 0 <= k < |Without(mtab, i)| && Matches(e, Without(mtab, i)[k]);
    assert Without(mtab, i)[k] == mtab[if k < i then k else k + 1];
  }

  lemma DetachedLine(mtab: seq<MntLine>, i: nat, e: MountEntry)
    requires DistinctDirs(mtab) && i < |mtab|
    ensures HasLine(Without(mtab, i), e) <==> HasLine(mtab, e) && !Matches(e, mtab[i])
  {
    if HasLine(Without(mtab, i), e) { StillThere(mtab, i, e); }
    if HasLine(mtab, e) {
      if Matches(e, mtab[i]) { LineIsGone(mtab, i, e); } else { WithoutKeepsLine(mtab, i, e); }
    }
  }

  lemma DetachCovers(s: State, who: Who, line: MntLine, i: nat, s': State, id: Id)
    requires At(s, who) == Chosen(line) && i < |s.mtab| && DistinctDirs(s.mtab) && id in s.rows && Covered(s, id)
    requires s' == Put(s.(mtab := Without(s.mtab, i)), who, if line.fsname == "" then Idle else Detached(line))
    ensures Covered(s', id) <==> !Stranded(s, who, line, s.mtab[i], id)
  {
    DetachedLine(s.mtab, i, s.rows[id]);
  }

  lemma DetachIff(s: State, who: Who, line: MntLine, s': State)
    requires Inv(s) && At(s, who) == Chosen(line) && LastAt(s.mtab, line.dir).Some?
    requires s' == UnMountStep(s, who, line, true)
    ensures Inv(s') <==> !DetachStrands(s, who, line)
  {
    var i := LineIndex(s.mtab, LastAt(s.mtab, line.dir).value);
    DetachIsExact(s.mtab, i);
    WithoutKeepsDistinct(s.mtab, i);
    assert Shape(s');
    forall id | id in s.rows ensures Covered(s', id) <==> !Stranded(s, who, line, s.mtab[i], id) {
      assert Covered(s, id);
      DetachCovers(s, who, line, i, s', id);
    }
  }

  /** Steps that delete rows. */
  lemma DeleteKeeps(s: State, who: Who, rows: MountRows, s': State)
    requires Inv(s) && s' == Put(s.(rows := rows), who, Idle)
    requires forall id :: id in rows ==> id in s.rows && rows[id] == s.rows[id]
    requires forall id :: id in rows ==> !Takes(At(s, who), s.rows, id)
    requires !At(s, who).Inserting?
    ensures Inv(s')
  {
    forall id | id in s'.rows ensures Covered(s', id) { assert Covered(s, id); }
  }

  /** Steps that only move a thread, which goes on to take what it was to take. */
  lemma MoveKeeps(s: State, who: Who, pc: Pc, s': State)
    requires Inv(s) && s' == Put(s, who, pc)
    requires forall id :: id in s.rows && Takes(At(s, who), s.rows, id) ==> Takes(pc, s.rows, id)
    requires !pc.Mounted? && (pc.Inserting? ==> At(s, who) == Mounted(pc.entry) && pc.entry !in s.rows.Values)
    ensures Inv(s')
  {
    forall id | id in s'.rows ensures Covered(s', id) { assert Covered(s, id); }
  }

  lemma FoundTakes(s: State, line: MntLine)
    requires Distinct(s.rows)
    ensures var found := FindEntry(s.rows, Looked(line));
      forall id :: id in s.rows && s.rows[id] == Looked(line) ==> found == Some(id)
  {
    forall id | id in s.rows && s.rows[id] == Looked(line) ensures FindEntry(s.rows, Looked(line)) == Some(id) {
      assert s.rows[id] in s.rows.Values;
    }
  }

  lemma DeletingKeeps(s: State, who: Who, ok: bool, s': State)
    requires Inv(s) && Advance(s, who, ok) == Some(s') && (At(s, who).HasValid? || At(s, who).Deleting?)
    ensures Inv(s')
  {
    DeleteKeeps(s, who, s'.rows, s');
  }

  lemma FindingKeeps(s: State, who: Who, ok: bool, s': State)
    requires Inv(s) && Advance(s, who, ok) == Some(s') && (At(s, who).Detached? || At(s, who).Absent?)
    ensures Inv(s')
  {
    if At(s, who).Detached? { FoundTakes(s, At(s, who).line); }
    MoveKeeps(s, who, At(s', who), s');
  }

  /** A search that decides about an insertion, or a umount2 that fails. */
  lemma DecidingKeeps(s: State, who: Who, ok: bool, s': State)
    requires Inv(s) && Advance(s, who, ok) == Some(s') && (At(s, who).Mounted? || At(s, who).Chosen?)
    requires At(s, who).Chosen? ==> !ok || LastAt(s.mtab, At(s, who).line.dir).None?
    ensures Inv(s')
  {
    MoveKeeps(s, who, At(s', who), s');
  }

  lemma BeginKeeps(s: State, m: Move, s': State)
    requires Inv(s) && !m.Continue? && Begin(s, m) == Some(s') && Ordinary(s, m)
    ensures Inv(s')
  {
    forall id | id in s.rows ensures Covered(s', id) {
      assert Covered(s, id);
      if m.MountDone? { AppendKeepsLine(s.mtab, s'.mtab[|s.mtab|], s.rows[id]); }
    }
  }

  /** A step keeps every row covered if and only if it strands none. */
  lemma StepIff(s: State, m: Move)
    requires Inv(s) && Ordinary(s, m)
    ensures Inv(Next(s, m)) <==> !Strands(s, m)
  {
    if Step(s, m).Some? {
      var s' := Step(s, m).value;
      if m.Continue? {
        if s.event.Inserting? && m.who.EventThread? {
          InsertIff(s, s');
        } else if At(s, m.who).Chosen? && m.ok && LastAt(s.mtab, At(s, m.who).line.dir).Some? {
          DetachIff(s, m.who, At(s, m.who).line, s');
        } else if At(s, m.who).HasValid? || At(s, m.who).Deleting? {
          DeletingKeeps(s, m.who, m.ok, s');
        } else if At(s, m.who).Detached? || At(s, m.who).Absent? {
          FindingKeeps(s, m.who, m.ok, s');
        } else {
          DecidingKeeps(s, m.who, m.ok, s');
        }
      } else {
        BeginKeeps(s, m, s');
      }
    }
  }

  // ------------------------------------------------------------------ whole runs

  ghost predicate AllOrdinary(s: State, moves: seq<Move>)
    decreases |moves|
  {
    moves == [] || (Ordinary(s, moves[0]) && AllOrdinary(Next(s, moves[0]), moves[1..]))
  }

  ghost predicate AlwaysCovered(s: State, moves: seq<Move>)
    decreases |moves|
  {
    Inv(s) && (moves == [] || AlwaysCovered(Next(s, moves[0]), moves[1..]))
  }

  ghost predicate NeverStrands(s: State, moves: seq<Move>)
    decreases |moves|
  {
    moves == [] || (!Strands(s, moves[0]) && NeverStrands(Next(s, moves[0]), moves[1..]))
  }

  /** Every row keeps its mount, or a thread on the way to delete it, throughout a
      run of the two threads, if and only if no step strands a row. */
  lemma {:induction false} RunIff(s: State, moves: seq<Move>)
    requires Inv(s) && AllOrdinary(s, moves)
    ensures AlwaysCovered(s, moves) <==> NeverStrands(s, moves)
    decreases |moves|
  {
    if moves != [] {
      StepIff(s, moves[0]);
      if Inv(Next(s, moves[0])) { RunIff(Next(s, moves[0]), moves[1..]); }
    }
  }

  /** ... so a run that strands no row leaves rows and mounts in agreement when
      both threads rest. */
  lemma {:induction false} UnstrandedRunAgrees(s: State, moves: seq<Move>, dirs: map<string, bool>)
    requires Inv(s) && AllOrdinary(s, moves) && NeverStrands(s, moves) && AtRest(Run(s, moves))
    ensures Agreement(World(Run(s, moves).mtab, dirs, Run(s, moves).rows))
    decreases |moves|
  {
    if moves == [] {
      RestAgrees(s, dirs);
    } else {
      StepIff(s, moves[0]);
      UnstrandedRunAgrees(Next(s, moves[0]), moves[1..], dirs);
    }
  }
}
