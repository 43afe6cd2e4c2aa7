/** Any number of threads using a table without transactions. One step of the
    state machine is one lock operation, one access to the rows under a lock, or
    one access to the file; a blocked thread has no step. The machine is written
    over an abstract table and then used for mount_points. */
module StoreProtocol {
  import opened Wrappers
  import opened Dto

  type Tid = int

  /** A table as the protocol sees it: how an operation changes the rows, how
      the rows are printed, and which operations look before they change. */
  datatype Store<!D, !O> = Store(
    apply: (D, O) -> D,
    print_: D -> Json,
    checks: O -> bool,          // looks at the rows first, under a shared lock
    refuses: (D, O) -> bool,    // ... and ends there
    throws: (D, O) -> bool)     // fails under the exclusive lock, changing nothing

  /** What an idle thread may start: a changing operation, or a lookup. */
  datatype Call<O> = Change(op: O) | Lookup

  /** Where a thread stands inside an operation. */
  datatype Pc<O> =
    | Idle
    | WantLookup
    | LookingUp            // holds data_mutex_ shared
    | WantCheck(op: O)     // before Find of Create, or CheckIndex of Update
    | Checking(op: O)      // holds data_mutex_ shared
    | WantData(op: O)
    | HoldData(op: O)      // holds data_mutex_ exclusively
    | Changed              // still holds it, rows changed
    | WantFile
    | HoldFile             // holds file_mutex_
    | Opened               // the file was truncated by opening it
    | Rendering            // and holds data_mutex_ shared inside ToJson
    | Rendered(version: int, text: Json)
    | Written              // about to release file_mutex_

  predicate InWriteRaw<O>(pc: Pc<O>) {
    pc.WantFile? || pc.HoldFile? || pc.Opened? || pc.Rendering? || pc.Rendered? || pc.Written?
  }

  datatype Write = Write(version: int, text: Json)

  /** The shared state. `history` lists every value the rows had, `writes` every
      completed write with the version it shows, and `boot` is the text the
      table was loaded from; these three only record. */
  datatype State<D, O> = State(
    data: D, file: Option<Json>,
    writer: Option<Tid>, readers: set<Tid>, fileOwner: Option<Tid>,
    pcs: map<Tid, Pc<O>>,
    boot: Option<Json>, history: seq<D>, writes: seq<Write>)

  function At<D, O>(s: State<D, O>, t: Tid): Pc<O> { if t in s.pcs then s.pcs[t] else Idle }

  function Go<D, O>(s: State<D, O>, t: Tid, pc: Pc<O>): State<D, O> { s.(pcs := s.pcs[t := pc]) }

  function Init<D, O>(data: D, file: Option<Json>): State<D, O> {
    State(data, file, None, {}, None, map[], file, [data], [])
  }

  function Begin<D, O>(m: Store<D, O>, call: Call<O>): Pc<O> {
    match call
    case Lookup => WantLookup
    case Change(op) => if m.checks(op) then WantCheck(op) else WantData(op)
  }

  /** WriteRaw: one thread at a time opens, prints and writes. */
  function WriteRawStep<D, O>(m: Store<D, O>, s: State<D, O>, t: Tid): Option<State<D, O>>
    requires InWriteRaw(At(s, t))
  {
    match At(s, t)
    case WantFile => if s.fileOwner.None? then Some(Go(s.(fileOwner := Some(t)), t, HoldFile)) else None
    case HoldFile => Some(Go(s.(file := None), t, Opened))
    case Opened => if s.writer.None? then Some(Go(s.(readers := s.readers + {t}), t, Rendering)) else None
    case Rendering => Some(Go(s.(readers := s.readers - {t}), t, Rendered(|s.history| - 1, m.print_(s.data))))
    case Rendered(version, text) =>
      Some(Go(s.(file := Some(text), writes := s.writes + [Write(version, text)]), t, Written))
    case Written => Some(Go(s.(fileOwner := None), t, Idle))
  }

  /** The part of an operation before WriteRaw. */
  function OperationStep<D, O>(m: Store<D, O>, s: State<D, O>, t: Tid, call: Call<O>): Option<State<D, O>>
    requires !InWriteRaw(At(s, t))
  {
    match At(s, t)
    case Idle => Some(Go(s, t, Begin(m, call)))
    case WantLookup => if s.writer.None? then Some(Go(s.(readers := s.readers + {t}), t, LookingUp)) else None
    case LookingUp => Some(Go(s.(readers := s.readers - {t}), t, Idle))
    case WantCheck(op) => if s.writer.None? then Some(Go(s.(readers := s.readers + {t}), t, Checking(op))) else None
    case Checking(op) =>
      Some(Go(s.(readers := s.readers - {t}), t, if m.refuses(s.data, op) then Idle else WantData(op)))
    case WantData(op) =>
      if s.writer.None? && s.readers == {} then Some(Go(s.(writer := Some(t)), t, HoldData(op))) else None
    case HoldData(op) =>
      if m.throws(s.data, op) then Some(Go(s.(writer := None), t, Idle))
      else var data := m.apply(s.data, op); Some(Go(s.(data := data, history := s.history + [data]), t, Changed))
    case Changed => Some(Go(s.(writer := None), t, WantFile))
  }

  function Step<D, O>(m: Store<D, O>, s: State<D, O>, t: Tid, call: Call<O>): Option<State<D, O>> {
    if InWriteRaw(At(s, t)) then WriteRawStep(m, s, t) else OperationStep(m, s, t, call)
  }

  datatype Pick<O> = Pick(t: Tid, call: Call<O>)

  /** A run under a scheduler; picking a blocked thread changes nothing. */
  function Run<D, O>(m: Store<D, O>, s: State<D, O>, schedule: seq<Pick<O>>): State<D, O> {
    if schedule == [] then s
    else
      var before := Run(m, s, schedule[..|schedule| - 1]);
      var pick := schedule[|schedule| - 1];
      match Step(m, before, pick.t, pick.call)
      case None => before
      case Some(after) => after
  }

  // ------------------------------------------------------------- the invariant

  predicate ReadsData<O>(pc: Pc<O>) { pc.LookingUp? || pc.Checking? || pc.Rendering? }

  predicate WritesData<O>(pc: Pc<O>) { pc.HoldData? || pc.Changed? }

  predicate OwnsFile<O>(pc: Pc<O>) { pc.HoldFile? || pc.Opened? || pc.Rendering? || pc.Rendered? || pc.Written? }

  ghost predicate WriterLock<D, O>(s: State<D, O>) {
    && (s.writer.Some? ==> WritesData(At(s, s.writer.value)) && s.readers == {})
    && (forall t :: WritesData(At(s, t)) ==> s.writer == Some(t))
  }

  ghost predicate ReaderLocks<D, O>(s: State<D, O>) {
    forall t :: t in s.readers <==> ReadsData(At(s, t))
  }

  ghost predicate FileLock<D, O>(s: State<D, O>) {
    && (s.fileOwner.Some? ==> OwnsFile(At(s, s.fileOwner.value)))
    && (forall t :: OwnsFile(At(s, t)) ==> s.fileOwner == Some(t))
  }

  ghost predicate Locks<D, O>(s: State<D, O>) { WriterLock(s) && ReaderLocks(s) && FileLock(s) }

  ghost predicate VersionOk<D, O>(m: Store<D, O>, s: State<D, O>, version: int, text: Json) {
    0 <= version < |s.history| && text == m.print_(s.history[version])
  }

  /** A thread past its change stands on a rows value the table was not loaded
      with. */
  ghost predicate Advanced<D, O>(s: State<D, O>) {
    && s.history != []
    && forall t :: OwnsFile(At(s, t)) || At(s, t).Changed? || At(s, t).WantFile? ==> |s.history| > 1
  }

  /** Every rendered text shows a value the rows really had, and writes never go
      back to an older one. */
  ghost predicate Versions<D, O>(m: Store<D, O>, s: State<D, O>) {
    && s.history != [] && s.history[|s.history| - 1] == s.data
    && (forall t :: At(s, t).Rendered? ==> VersionOk(m, s, At(s, t).version, At(s, t).text))
    && (forall i :: 0 <= i < |s.writes| ==> VersionOk(m, s, s.writes[i].version, s.writes[i].text))
    && (forall i, j :: 0 <= i < j < |s.writes| ==> s.writes[i].version <= s.writes[j].version)
    && (forall t, i :: At(s, t).Rendered? && 0 <= i < |s.writes| ==> s.writes[i].version <= At(s, t).version)
  }

  /** The thread will still bring the present rows to the file. */
  predicate Pending<D, O>(s: State<D, O>, t: Tid) {
    match At(s, t)
    case Changed => true
    case WantFile => true
    case HoldFile => true
    case Opened => true
    case Rendering => true
    case Rendered(version, _) => version == |s.history| - 1
    case _ => false
  }

  ghost predicate Agrees<D, O>(m: Store<D, O>, s: State<D, O>) {
    if |s.history| <= 1 then s.file == s.boot else s.file == Some(m.print_(s.data))
  }

  ghost predicate Agreement<D, O>(m: Store<D, O>, s: State<D, O>) {
    (exists t :: Pending(s, t)) || (Agrees(m, s) && forall t :: !At(s, t).Rendered?)
  }

  ghost predicate Inv<D, O>(m: Store<D, O>, s: State<D, O>) {
    Locks(s) && Advanced(s) && Versions(m, s) && Agreement(m, s)
  }

  lemma InitInv<D, O>(m: Store<D, O>, data: D, file: Option<Json>)
    ensures Inv(m, Init(data, file))
  {
  }

  lemma OperationWriterLock<D, O>(m: Store<D, O>, s: State<D, O>, t: Tid, call: Call<O>, s': State<D, O>)
    requires !InWriteRaw(At(s, t)) && OperationStep(m, s, t, call) == Some(s')
    requires Locks(s)
    ensures WriterLock(s')
  {
    assert forall u :: u != t ==> At(s', u) == At(s, u);
  }

  lemma OperationOtherLocks<D, O>(m: Store<D, O>, s: State<D, O>, t: Tid, call: Call<O>, s': State<D, O>)
    requires !InWriteRaw(At(s, t)) && OperationStep(m, s, t, call) == Some(s')
    requires Locks(s)
    ensures ReaderLocks(s') && FileLock(s')
  {
    assert forall u :: u != t ==> At(s', u) == At(s, u);
  }

  lemma ChangeRecords<D, O>(m: Store<D, O>, s: State<D, O>, t: Tid, call: Call<O>, s': State<D, O>)
    requires At(s, t).HoldData? && OperationStep(m, s, t, call) == Some(s')
    requires Advanced(s) && Versions(m, s)
    ensures Advanced(s') && Versions(m, s') && s'.history[0] == s.history[0] && s'.boot == s.boot
  {
    assert forall u :: u != t ==> At(s', u) == At(s, u);
    assert s.history <= s'.history;
    assert forall v, text :: VersionOk(m, s, v, text) ==> VersionOk(m, s', v, text);
  }

  /** What a step that leaves the rows and the file alone keeps. */
  lemma SameRecords<D, O>(m: Store<D, O>, s: State<D, O>, t: Tid, s': State<D, O>)
    requires Advanced(s) && Versions(m, s)
    requires s'.history == s.history && s'.data == s.data && s'.writes == s.writes && s'.pcs == s.pcs[t := At(s', t)]
    requires !OwnsFile(At(s', t)) && !At(s', t).Changed? && (At(s', t).WantFile? ==> At(s, t).Changed?)
    ensures Advanced(s') && Versions(m, s')
  {
    assert forall u :: u != t ==> At(s', u) == At(s, u);
    assert forall v, text :: VersionOk(m, s, v, text) <==> VersionOk(m, s', v, text);
  }

  lemma OperationRecords<D, O>(m: Store<D, O>, s: State<D, O>, t: Tid, call: Call<O>, s': State<D, O>)
    requires !InWriteRaw(At(s, t)) && OperationStep(m, s, t, call) == Some(s')
    requires Advanced(s) && Versions(m, s)
    ensures Advanced(s') && Versions(m, s') && s'.history[0] == s.history[0] && s'.boot == s.boot
  {
    if At(s, t).HoldData? { ChangeRecords(m, s, t, call, s'); } else { SameRecords(m, s, t, s'); }
  }

  lemma OperationAgreement<D, O>(m: Store<D, O>, s: State<D, O>, t: Tid, call: Call<O>, s': State<D, O>)
    requires !InWriteRaw(At(s, t)) && OperationStep(m, s, t, call) == Some(s')
    requires Advanced(s) && Versions(m, s) && Agreement(m, s)
    ensures Agreement(m, s')
  {
    assert forall u :: u != t ==> At(s', u) == At(s, u);
    if Pending(s', t) {
    } else if u :| Pending(s, u) {
      assert Pending(s', u);
    } else {
      assert forall u :: !Pending(s, u);
    }
  }

  lemma WriteRawWriterLock<D, O>(m: Store<D, O>, s: State<D, O>, t: Tid, s': State<D, O>)
    requires InWriteRaw(At(s, t)) && WriteRawStep(m, s, t) == Some(s')
    requires Locks(s)
    ensures WriterLock(s')
  {
    assert forall u :: u != t ==> At(s', u) == At(s, u);
  }

  lemma WriteRawOtherLocks<D, O>(m: Store<D, O>, s: State<D, O>, t: Tid, s': State<D, O>)
    requires InWriteRaw(At(s, t)) && WriteRawStep(m, s, t) == Some(s')
    requires Locks(s)
    ensures ReaderLocks(s') && FileLock(s')
  {
    assert forall u :: u != t ==> At(s', u) == At(s, u);
  }

  lemma WriteRawRecords<D, O>(m: Store<D, O>, s: State<D, O>, t: Tid, s': State<D, O>)
    requires InWriteRaw(At(s, t)) && WriteRawStep(m, s, t) == Some(s')
    requires FileLock(s) && Advanced(s) && Versions(m, s)
    ensures Advanced(s') && Versions(m, s') && s'.history[0] == s.history[0] && s'.boot == s.boot
  {
    assert forall u :: u != t ==> At(s', u) == At(s, u);
    assert forall v, text :: VersionOk(m, s, v, text) ==> VersionOk(m, s', v, text);
    if At(s, t).Rendered? {
      var w := Write(At(s, t).version, At(s, t).text);
      assert s'.writes == s.writes + [w] && VersionOk(m, s, w.version, w.text);
      assert forall u :: !At(s', u).Rendered?;
    } else {
      assert s'.writes == s.writes;
    }
  }

  lemma WriteRawAgreement<D, O>(m: Store<D, O>, s: State<D, O>, t: Tid, s': State<D, O>)
    requires InWriteRaw(At(s, t)) && WriteRawStep(m, s, t) == Some(s')
    requires FileLock(s) && Advanced(s) && Versions(m, s) && Agreement(m, s)
    ensures Agreement(m, s')
  {
    assert forall u :: u != t ==> At(s', u) == At(s, u);
    if Pending(s', t) {
    } else if u :| u != t && Pending(s, u) {
      assert Pending(s', u);
    } else if At(s, t).Rendered? {
      assert Pending(s, t);
      assert VersionOk(m, s, At(s, t).version, At(s, t).text);
      assert Agrees(m, s');
    } else {
      assert !Pending(s, t);
      assert forall u :: !Pending(s, u);
    }
  }

  lemma StepInv<D, O>(m: Store<D, O>, s: State<D, O>, t: Tid, call: Call<O>, s': State<D, O>)
    requires Inv(m, s) && Step(m, s, t, call) == Some(s')
    ensures Inv(m, s') && s'.history[0] == s.history[0] && s'.boot == s.boot
  {
    if InWriteRaw(At(s, t)) {
      WriteRawWriterLock(m, s, t, s');
      WriteRawOtherLocks(m, s, t, s');
      WriteRawRecords(m, s, t, s');
      WriteRawAgreement(m, s, t, s');
    } else {
      OperationWriterLock(m, s, t, call, s');
      OperationOtherLocks(m, s, t, call, s');
      OperationRecords(m, s, t, call, s');
      OperationAgreement(m, s, t, call, s');
    }
  }

  lemma {:induction false} RunInv<D, O>(m: Store<D, O>, data: D, file: Option<Json>, schedule: seq<Pick<O>>)
    ensures Inv(m, Run(m, Init(data, file), schedule))
    ensures var s := Run(m, Init(data, file), schedule); s.boot == file && s.history[0] == data
  {
    if schedule == [] {
      InitInv(m, data, file);
    } else {
      var front, pick := schedule[..|schedule| - 1], schedule[|schedule| - 1];
      RunInv(m, data, file, front);
      var s := Run(m, Init(data, file), front);
      var next := Step(m, s, pick.t, pick.call);
      if next.Some? {
        StepInv(m, s, pick.t, pick.call, next.value);
      }
    }
  }

  // --------------------------------------------------------------- the theorems

  ghost predicate Quiet<D, O>(s: State<D, O>) { forall t :: At(s, t).Idle? }

  /** Whenever no operation is in flight the file is the text of the rows, or
      the text they were loaded from if nothing ever changed them. */
  lemma QuietFileAgrees<D, O>(m: Store<D, O>, data: D, file: Option<Json>, schedule: seq<Pick<O>>)
    requires Quiet(Run(m, Init(data, file), schedule))
    ensures var s := Run(m, Init(data, file), schedule);
      s.file == if |s.history| <= 1 then file else Some(m.print_(s.data))
    ensures var s := Run(m, Init(data, file), schedule); |s.history| <= 1 ==> s.data == data
  {
    RunInv(m, data, file, schedule);
    var s := Run(m, Init(data, file), schedule);
    assert forall t :: At(s, t).Idle?;
    assert forall t :: !Pending(s, t);
  }

  /** Every completed write is the text of a value the rows really had, and
      successive writes never go back to an older value. */
  lemma WritesAreMonotone<D, O>(m: Store<D, O>, data: D, file: Option<Json>, schedule: seq<Pick<O>>, i: nat, j: nat)
    requires i < j < |Run(m, Init(data, file), schedule).writes|
    ensures var s := Run(m, Init(data, file), schedule);
      && 0 <= s.writes[i].version <= s.writes[j].version < |s.history|
      && s.writes[i].text == m.print_(s.history[s.writes[i].version])
      && s.writes[j].text == m.print_(s.history[s.writes[j].version])
  {
    RunInv(m, data, file, schedule);
    var s := Run(m, Init(data, file), schedule);
    assert VersionOk(m, s, s.writes[i].version, s.writes[i].text)
      && VersionOk(m, s, s.writes[j].version, s.writes[j].text);
  }

  lemma SomeReader<T>(readers: set<T>) returns (r: T)
    requires readers != {}
    ensures r in readers
  {
    r :| r in readers;
  }

  /** No run deadlocks: while an operation is in flight, some thread inside an
      operation can step. */
  lemma NoDeadlock<D, O>(m: Store<D, O>, data: D, file: Option<Json>, schedule: seq<Pick<O>>, t: Tid, call: Call<O>)
      returns (u: Tid)
    requires !At(Run(m, Init(data, file), schedule), t).Idle?
    ensures var s := Run(m, Init(data, file), schedule); !At(s, u).Idle? && Step(m, s, u, call).Some?
  {
    RunInv(m, data, file, schedule);
    var s := Run(m, Init(data, file), schedule);
    if s.writer.Some? {
      u := s.writer.value;
    } else if s.readers != {} {
      u := SomeReader(s.readers);
    } else if s.fileOwner.Some? {
      u := s.fileOwner.value;
    } else {
      u := t;
    }
  }

  // ------------------------------------------------- a thread nobody disturbs

  /** At rest no lock is held. */
  lemma RestIsUnlocked<D, O>(s: State<D, O>)
    requires Locks(s) && Quiet(s)
    ensures s.writer.None? && s.readers == {} && s.fileOwner.None?
  {
    assert forall t :: At(s, t).Idle?;
    if s.readers != {} {
      var r := SomeReader(s.readers);
      assert false;
    }
  }

  /** Thread `t` is picked `n` times in a row. */
  function Solo<O>(t: Tid, call: Call<O>, n: nat): seq<Pick<O>> { seq(n, i => Pick(t, call)) }

  lemma SoloNext<D, O>(m: Store<D, O>, s: State<D, O>, t: Tid, call: Call<O>, n: nat, r: State<D, O>, r': State<D, O>)
    requires Run(m, s, Solo(t, call, n)) == r && Step(m, r, t, call) == Some(r')
    ensures Run(m, s, Solo(t, call, n + 1)) == r'
  {
    var longer := Solo(t, call, n + 1);
    assert longer != [] && longer[..|longer| - 1] == Solo(t, call, n) && longer[|longer| - 1] == Pick(t, call);
  }

  /** Before the change: thread `t` is at `pc`, and all is as it was at rest. */
  ghost predicate Before<D, O>(s: State<D, O>, r: State<D, O>, t: Tid, pc: Pc<O>) {
    r == s.(pcs := r.pcs) && r.pcs == s.pcs[t := pc]
  }

  lemma GoAgain<D, O>(s: State<D, O>, r: State<D, O>, t: Tid, pc: Pc<O>, next: Pc<O>)
    requires Before(s, r, t, pc)
    ensures Before(s, Go(r, t, next), t, next)
  {
    assert s.pcs[t := pc][t := next] == s.pcs[t := next];
  }

  lemma SoloThree<D, O>(m: Store<D, O>, s: State<D, O>, t: Tid, call: Call<O>, n: nat,
                        r: State<D, O>, a: State<D, O>, b: State<D, O>, d: State<D, O>)
    requires Run(m, s, Solo(t, call, n)) == r && Step(m, r, t, call) == Some(a)
    requires Step(m, a, t, call) == Some(b) && Step(m, b, t, call) == Some(d)
    ensures Run(m, s, Solo(t, call, n + 3)) == d
  {
    SoloNext(m, s, t, call, n, r, a);
    SoloNext(m, s, t, call, n + 1, a, b);
    SoloNext(m, s, t, call, n + 2, b, d);
  }

  lemma CheckSteps<D, O>(m: Store<D, O>, s: State<D, O>, t: Tid, op: O)
      returns (a: State<D, O>, b: State<D, O>, d: State<D, O>)
    requires At(s, t).Idle? && s.writer.None? && s.readers == {} && m.checks(op)
    ensures var c := Change(op);
      Step(m, s, t, c) == Some(a) && Step(m, a, t, c) == Some(b) && Step(m, b, t, c) == Some(d)
    ensures Before(s, d, t, if m.refuses(s.data, op) then Idle else WantData(op))
  {
    var end := if m.refuses(s.data, op) then Idle else WantData(op);
    a := Go(s, t, WantCheck(op));
    b := Go(a.(readers := a.readers + {t}), t, Checking(op));
    d := Go(b.(readers := b.readers - {t}), t, end);
    assert b.readers - {t} == s.readers && d.pcs == s.pcs[t := end];
  }

  /** An operation that looks first has looked after three steps, and goes on or
      ends. */
  lemma SoloChecks<D, O>(m: Store<D, O>, s: State<D, O>, t: Tid, op: O)
    requires Locks(s) && Quiet(s) && m.checks(op)
    ensures var r := Run(m, s, Solo(t, Change(op), 3));
      Before(s, r, t, if m.refuses(s.data, op) then Idle else WantData(op))
  {
    RestIsUnlocked(s);
    assert At(s, t).Idle?;
    var a, b, d := CheckSteps(m, s, t, op);
    SoloThree(m, s, t, Change(op), 0, s, a, b, d);
  }

  lemma SoloStarts<D, O>(m: Store<D, O>, s: State<D, O>, t: Tid, op: O)
    requires Locks(s) && Quiet(s) && !m.checks(op)
    ensures Before(s, Run(m, s, Solo(t, Change(op), 1)), t, WantData(op))
  {
    assert At(s, t).Idle?;
    SoloNext(m, s, t, Change(op), 0, s, Go(s, t, WantData(op)));
  }

  lemma ChangeSteps<D, O>(m: Store<D, O>, r: State<D, O>, t: Tid, op: O, call: Call<O>)
      returns (a: State<D, O>, b: State<D, O>, d: State<D, O>)
    requires At(r, t) == WantData(op) && r.writer.None? && r.readers == {} && !m.throws(r.data, op)
    ensures Step(m, r, t, call) == Some(a) && Step(m, a, t, call) == Some(b) && Step(m, b, t, call) == Some(d)
    ensures d.data == m.apply(r.data, op) && d.file == r.file && d.pcs == r.pcs[t := WantFile]
    ensures d.writer.None? && d.readers == {} && d.fileOwner == r.fileOwner
  {
    var after := m.apply(r.data, op);
    a := Go(r.(writer := Some(t)), t, HoldData(op));
    b := Go(a.(data := after, history := a.history + [after]), t, Changed);
    d := Go(b.(writer := None), t, WantFile);
  }

  /** Three more steps change the rows. */
  lemma SoloChanges<D, O>(m: Store<D, O>, s: State<D, O>, t: Tid, op: O, n: nat)
    requires Locks(s) && Quiet(s) && !m.throws(s.data, op)
    requires Before(s, Run(m, s, Solo(t, Change(op), n)), t, WantData(op))
    ensures var r := Run(m, s, Solo(t, Change(op), n + 3));
      && r.data == m.apply(s.data, op) && r.file == s.file && r.pcs == s.pcs[t := WantFile]
      && r.writer.None? && r.readers == {} && r.fileOwner.None?
  {
    RestIsUnlocked(s);
    var r := Run(m, s, Solo(t, Change(op), n));
    var a, b, d := ChangeSteps(m, r, t, op, Change(op));
    SoloThree(m, s, t, Change(op), n, r, a, b, d);
    assert r.pcs[t := WantFile] == s.pcs[t := WantFile];
  }

  /** Three more open the file and print the rows. */
  lemma SoloPrints<D, O>(m: Store<D, O>, s: State<D, O>, t: Tid, op: O, n: nat)
    requires var r := Run(m, s, Solo(t, Change(op), n));
      At(r, t).WantFile? && r.writer.None? && r.readers == {} && r.fileOwner.None?
    ensures var r, after := Run(m, s, Solo(t, Change(op), n)), Run(m, s, Solo(t, Change(op), n + 3));
      && after.data == r.data && At(after, t).Rendering? && after.readers == {t} && after.writer.None?
      && after.pcs == r.pcs[t := Rendering]
  {
    var c, r := Change(op), Run(m, s, Solo(t, Change(op), n));
    var a := Go(r.(fileOwner := Some(t)), t, HoldFile);
    var b := Go(a.(file := None), t, Opened);
    var d := Go(b.(readers := b.readers + {t}), t, Rendering);
    SoloNext(m, s, t, c, n, r, a);
    SoloNext(m, s, t, c, n + 1, a, b);
    SoloNext(m, s, t, c, n + 2, b, d);
  }

  /** Three more write them and come to rest. */
  lemma SoloWrites<D, O>(m: Store<D, O>, s: State<D, O>, t: Tid, op: O, n: nat)
    requires At(Run(m, s, Solo(t, Change(op), n)), t).Rendering?
    ensures var r, after := Run(m, s, Solo(t, Change(op), n)), Run(m, s, Solo(t, Change(op), n + 3));
      after.data == r.data && after.file == Some(m.print_(r.data)) && after.pcs == r.pcs[t := Idle]
  {
    var c, r := Change(op), Run(m, s, Solo(t, Change(op), n));
    var a := Go(r.(readers := r.readers - {t}), t, Rendered(|r.history| - 1, m.print_(r.data)));
    var w := Write(|r.history| - 1, m.print_(r.data));
    var b := Go(a.(file := Some(w.text), writes := a.writes + [w]), t, Written);
    var d := Go(b.(fileOwner := None), t, Idle);
    SoloNext(m, s, t, c, n, r, a);
    SoloNext(m, s, t, c, n + 1, a, b);
    SoloNext(m, s, t, c, n + 2, b, d);
    assert r.pcs[t := a.pcs[t]][t := Written][t := Idle] == r.pcs[t := Idle];
  }

  /** The steps of one call. */
  function CallLength<D, O>(m: Store<D, O>, data: D, op: O): nat {
    if !m.checks(op) then 10 else if m.refuses(data, op) then 3 else 12
  }

  /** A call nobody disturbs comes to rest again. Unless it is refused, the rows are
      changed and the file shows them. */
  lemma SoloIsDone<D, O>(m: Store<D, O>, s: State<D, O>, t: Tid, op: O)
    requires Locks(s) && Quiet(s) && !m.throws(s.data, op)
    ensures var after := Run(m, s, Solo(t, Change(op), CallLength(m, s.data, op)));
      && Quiet(after)
      && if m.checks(op) && m.refuses(s.data, op) then after.data == s.data && after.file == s.file
         else after.data == m.apply(s.data, op) && after.file == Some(m.print_(after.data))
  {
    var n := if m.checks(op) then 3 else 1;
    if m.checks(op) { SoloChecks(m, s, t, op); } else { SoloStarts(m, s, t, op); }
    if !(m.checks(op) && m.refuses(s.data, op)) {
      SoloChanges(m, s, t, op, n);
      SoloPrints(m, s, t, op, n + 3);
      SoloWrites(m, s, t, op, n + 6);
    }
    var after := Run(m, s, Solo(t, Change(op), CallLength(m, s.data, op)));
    forall u ensures At(after, u).Idle? { assert At(s, u).Idle?; }
  }

  /** A change that throws under the lock leaves rows and file alone and gives the
      lock back. */
  lemma ThrowingChangesNothing<D, O>(m: Store<D, O>, s: State<D, O>, t: Tid, call: Call<O>)
    requires At(s, t).HoldData? && m.throws(s.data, At(s, t).op)
    ensures Step(m, s, t, call) == Some(s.(writer := None, pcs := s.pcs[t := Idle]))
  {
  }

  /** A lookup nobody disturbs holds the data lock shared while it looks, and changes
      nothing. */
  lemma SoloLookup<D, O>(m: Store<D, O>, s: State<D, O>, t: Tid)
    requires Locks(s) && Quiet(s)
    ensures var looking := Run(m, s, Solo(t, Lookup, 2));
      At(looking, t).LookingUp? && looking.readers == {t} && looking.data == s.data && looking.file == s.file
    ensures var after := Run(m, s, Solo(t, Lookup, 3)); Before(s, after, t, Idle) && Quiet(after)
  {
    RestIsUnlocked(s);
    assert At(s, t).Idle?;
    var a := Go(s, t, WantLookup);
    var b := Go(a.(readers := a.readers + {t}), t, LookingUp);
    var d := Go(b.(readers := b.readers - {t}), t, Idle);
    SoloNext(m, s, t, Lookup, 0, s, a);
    SoloNext(m, s, t, Lookup, 1, a, b);
    SoloNext(m, s, t, Lookup, 2, b, d);
    assert b.readers == {t} && b.readers - {t} == s.readers;
    forall u ensures At(d, u).Idle? { assert At(s, u).Idle?; }
  }
}
