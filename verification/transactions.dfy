/** Any number of threads that change a table only inside transactions. One step
    of the state machine is one lock operation, one flag change, one element of a
    batch, or one access to the file. File opens succeed. */
module Transactions {
  import opened Wrappers
  import opened Counting
  import opened Dto

  type Tid = int

  /** A table as a transaction sees it: what an element does, or throws, and how
      the rows are printed. */
  datatype Store<!D, !O> = Store(apply: (D, O) -> Result<D>, print_: D -> Json)

  /** Where a thread stands. From `HasTx` on it owns transaction_mutex_, from
      `HasData` on data_mutex_, from `Inside` on file_mutex_. A thread whose batch
      threw keeps all three: nothing closes its transaction. */
  datatype Pc<O> =
    | Out
    | WantTx(batch: seq<O>)
    | HasTx(batch: seq<O>)
    | Flagged(batch: seq<O>)
    | HasData(batch: seq<O>)
    | Inside(batch: seq<O>, done: nat)
    | Threw(batch: seq<O>, done: nat)
    | Cloned(batch: seq<O>)
    | Opened(batch: seq<O>)
    | Saved
    | FileFree
    | DataFree
    | FlagDown

  /** `order` lists the batches in the order their threads took the transaction
      lock, `committed` those whose text reached the file; `boot` and `first` are
      the file and rows at the start. These four only record. */
  datatype State<D, O> = State(
    data: D, file: Option<Json>, started: bool,
    txOwner: Option<Tid>, dataOwner: Option<Tid>, fileOwner: Option<Tid>,
    pcs: map<Tid, Pc<O>>,
    boot: Option<Json>, first: D, order: seq<seq<O>>, committed: seq<seq<O>>)

  function At<D, O>(s: State<D, O>, t: Tid): Pc<O> { if t in s.pcs then s.pcs[t] else Out }

  function Go<D, O>(s: State<D, O>, t: Tid, pc: Pc<O>): State<D, O> { s.(pcs := s.pcs[t := pc]) }

  function Init<D, O>(data: D, file: Option<Json>): State<D, O> {
    State(data, file, false, None, None, None, map[], file, data, [], [])
  }

  /** One element: an operation sees the flag and takes no lock; without the flag
      it would wait for the data lock its own thread holds. */
  function InsideStep<D, O>(m: Store<D, O>, s: State<D, O>, t: Tid, batch: seq<O>, done: nat): Option<State<D, O>> {
    if !s.started then None
    else if done >= |batch| then Some(Go(s, t, Cloned(batch)))
    else match m.apply(s.data, batch[done])
      case Err(_) => Some(Go(s, t, Threw(batch, done)))
      case Ok(data) => Some(Go(s.(data := data), t, Inside(batch, done + 1)))
  }

  function Step<D, O>(m: Store<D, O>, s: State<D, O>, t: Tid, batch: seq<O>): Option<State<D, O>> {
    match At(s, t)
    case Out => Some(Go(s, t, WantTx(batch)))
    case WantTx(b) =>
      if s.txOwner.None? then Some(Go(s.(txOwner := Some(t), order := s.order + [b]), t, HasTx(b))) else None
    case HasTx(b) => Some(Go(s.(started := true), t, Flagged(b)))
    case Flagged(b) => if s.dataOwner.None? then Some(Go(s.(dataOwner := Some(t)), t, HasData(b))) else None
    case HasData(b) => if s.fileOwner.None? then Some(Go(s.(fileOwner := Some(t)), t, Inside(b, 0))) else None
    case Inside(b, done) => InsideStep(m, s, t, b, done)
    case Threw(_, _) => None
    case Cloned(b) => if s.started then Some(Go(s.(file := None), t, Opened(b))) else None
    case Opened(b) => Some(Go(s.(file := Some(m.print_(s.data)), committed := s.committed + [b]), t, Saved))
    case Saved => Some(Go(s.(fileOwner := None), t, FileFree))
    case FileFree => Some(Go(s.(dataOwner := None), t, DataFree))
    case DataFree => Some(Go(s.(started := false), t, FlagDown))
    case FlagDown => Some(Go(s.(txOwner := None), t, Out))
  }

  datatype Pick<O> = Pick(t: Tid, batch: seq<O>)

  function Run<D, O>(m: Store<D, O>, s: State<D, O>, schedule: seq<Pick<O>>): State<D, O> {
    if schedule == [] then s
    else
      var before := Run(m, s, schedule[..|schedule| - 1]);
      var pick := schedule[|schedule| - 1];
      match Step(m, before, pick.t, pick.batch)
      case None => before
      case Some(after) => after
  }

  // -------------------------------------------------- sequential application

  function ApplyBatch<D, O>(m: Store<D, O>, data: D, batch: seq<O>): Result<D> {
    if batch == [] then Ok(data)
    else match ApplyBatch(m, data, batch[..|batch| - 1])
      case Err(e) => Err(e)
      case Ok(mid) => m.apply(mid, batch[|batch| - 1])
  }

  function ApplyBatches<D, O>(m: Store<D, O>, data: D, batches: seq<seq<O>>): Result<D> {
    if batches == [] then Ok(data)
    else match ApplyBatches(m, data, batches[..|batches| - 1])
      case Err(e) => Err(e)
      case Ok(mid) => ApplyBatch(m, mid, batches[|batches| - 1])
  }

  lemma {:induction false} ApplyBatchesNext<D, O>(m: Store<D, O>, data: D, batches: seq<seq<O>>, b: seq<O>, mid: D)
    requires ApplyBatches(m, data, batches) == Ok(mid)
    ensures ApplyBatches(m, data, batches + [b]) == ApplyBatch(m, mid, b)
  {
    assert (batches + [b])[..|batches|] == batches;
  }

  lemma {:induction false} ApplyBatchNext<D, O>(m: Store<D, O>, data: D, batch: seq<O>, k: nat, mid: D)
    requires k < |batch| && ApplyBatch(m, data, batch[..k]) == Ok(mid)
    ensures ApplyBatch(m, data, batch[..k + 1]) == m.apply(mid, batch[k])
  {
    assert batch[..k + 1][..k] == batch[..k];
  }

  // ------------------------------------------------------------- the invariant

  predicate OwnsTx<O>(pc: Pc<O>) { !pc.Out? && !pc.WantTx? }

  predicate OwnsData<O>(pc: Pc<O>) {
    OwnsTx(pc) && !pc.HasTx? && !pc.Flagged? && !pc.DataFree? && !pc.FlagDown?
  }

  predicate OwnsFile<O>(pc: Pc<O>) { OwnsData(pc) && !pc.HasData? && !pc.FileFree? }

  predicate FlagUp<O>(pc: Pc<O>) { OwnsTx(pc) && !pc.HasTx? && !pc.FlagDown? }

  predicate Uncommitted<O>(pc: Pc<O>) {
    OwnsTx(pc) && !pc.Saved? && !pc.FileFree? && !pc.DataFree? && !pc.FlagDown?
  }

  /** The pc of the thread inside a transaction, if there is one. */
  function Current<D, O>(s: State<D, O>): Pc<O> {
    if s.txOwner.Some? then At(s, s.txOwner.value) else Out
  }

  ghost predicate Exclusive<D, O>(s: State<D, O>) {
    && (s.txOwner.Some? ==> OwnsTx(At(s, s.txOwner.value)))
    && (forall t :: OwnsTx(At(s, t)) ==> s.txOwner == Some(t))
    && s.dataOwner == (if OwnsData(Current(s)) then s.txOwner else None)
    && s.fileOwner == (if OwnsFile(Current(s)) then s.txOwner else None)
    && s.started == FlagUp(Current(s))
  }

  /** Memory is the committed batches plus the part of the current one that has
      run, and the file is the text of the committed batches. */
  ghost predicate Serial<D, O>(m: Store<D, O>, s: State<D, O>) {
    var base, pc := ApplyBatches(m, s.first, s.committed), Current(s);
    && base.Ok?
    && s.order == s.committed + (if Uncommitted(pc) then [pc.batch] else [])
    && (if pc.Inside? || pc.Threw? then
          pc.done <= |pc.batch| && ApplyBatch(m, base.value, pc.batch[..pc.done]) == Ok(s.data)
        else if pc.Cloned? || pc.Opened? then ApplyBatch(m, base.value, pc.batch) == Ok(s.data)
        else s.data == base.value)
    && (OwnsTx(pc) && !Uncommitted(pc) ==> s.committed != [])
    && (pc.Threw? ==> pc.done < |pc.batch| && m.apply(s.data, pc.batch[pc.done]).Err?)
    && s.file == (if pc.Opened? then None else if s.committed == [] then s.boot else Some(m.print_(base.value)))
  }

  lemma StepExclusive<D, O>(m: Store<D, O>, s: State<D, O>, t: Tid, batch: seq<O>, s': State<D, O>)
    requires Exclusive(s) && Step(m, s, t, batch) == Some(s')
    ensures Exclusive(s')
    ensures OwnsTx(At(s, t)) ==> Current(s) == At(s, t)
    ensures !OwnsTx(At(s, t)) && !OwnsTx(At(s', t)) ==> Current(s') == Current(s)
    ensures OwnsTx(At(s', t)) ==> Current(s') == At(s', t)
    ensures OwnsTx(At(s, t)) && !OwnsTx(At(s', t)) ==> Current(s').Out?
    ensures !OwnsTx(At(s, t)) && OwnsTx(At(s', t)) ==> Current(s).Out?
  {
    assert forall u :: u != t ==> At(s', u) == At(s, u);
  }

  lemma InsideSerial<D, O>(m: Store<D, O>, s: State<D, O>, t: Tid, batch: seq<O>, s': State<D, O>)
    requires Exclusive(s) && Serial(m, s) && Step(m, s, t, batch) == Some(s') && At(s, t).Inside?
    ensures Serial(m, s')
  {
    StepExclusive(m, s, t, batch, s');
    var b, done := At(s, t).batch, At(s, t).done;
    if done < |b| {
      ApplyBatchNext(m, ApplyBatches(m, s.first, s.committed).value, b, done, s.data);
    } else {
      assert b[..done] == b;
    }
  }

  lemma WriteSerial<D, O>(m: Store<D, O>, s: State<D, O>, t: Tid, batch: seq<O>, s': State<D, O>)
    requires Exclusive(s) && Serial(m, s) && Step(m, s, t, batch) == Some(s') && At(s, t).Opened?
    ensures Serial(m, s')
  {
    StepExclusive(m, s, t, batch, s');
    ApplyBatchesNext(m, s.first, s.committed, At(s, t).batch, ApplyBatches(m, s.first, s.committed).value);
  }

  lemma StepSerial<D, O>(m: Store<D, O>, s: State<D, O>, t: Tid, batch: seq<O>, s': State<D, O>)
    requires Exclusive(s) && Serial(m, s) && Step(m, s, t, batch) == Some(s')
    ensures Serial(m, s')
  {
    match At(s, t)
    case Inside(b, done) => InsideSerial(m, s, t, batch, s');
    case Opened(b) => WriteSerial(m, s, t, batch, s');
    case HasData(b) =>
      StepExclusive(m, s, t, batch, s');
      assert b[..0] == [];
    case _ => StepExclusive(m, s, t, batch, s');
  }

  ghost predicate Inv<D, O>(m: Store<D, O>, s: State<D, O>) { Exclusive(s) && Serial(m, s) }

  lemma {:induction false} RunInv<D, O>(m: Store<D, O>, s: State<D, O>, schedule: seq<Pick<O>>)
    requires Inv(m, s)
    ensures Inv(m, Run(m, s, schedule))
    ensures Run(m, s, schedule).first == s.first && Run(m, s, schedule).boot == s.boot
  {
    if schedule != [] {
      var front, pick := schedule[..|schedule| - 1], schedule[|schedule| - 1];
      RunInv(m, s, front);
      var before := Run(m, s, front);
      var next := Step(m, before, pick.t, pick.batch);
      if next.Some? {
        StepExclusive(m, before, pick.t, pick.batch, next.value);
        StepSerial(m, before, pick.t, pick.batch, next.value);
      }
    }
  }

  // --------------------------------------------------------------- the theorems

  /** Two threads are never inside a transaction together. */
  lemma OneTransactionAtATime<D, O>(m: Store<D, O>, data: D, file: Option<Json>, schedule: seq<Pick<O>>, t: Tid, u: Tid)
    requires var s := Run(m, Init(data, file), schedule); OwnsTx(At(s, t)) && OwnsTx(At(s, u))
    ensures t == u
  {
    RunInv(m, Init(data, file), schedule);
  }

  /** Whenever nobody is inside a transaction, memory is the result of running
      all batches one after the other in lock order, and the file is its text. */
  lemma TransactionsAreSerial<D, O>(m: Store<D, O>, data: D, file: Option<Json>, schedule: seq<Pick<O>>)
    requires Run(m, Init(data, file), schedule).txOwner.None?
    ensures var s := Run(m, Init(data, file), schedule);
      && ApplyBatches(m, data, s.order) == Ok(s.data)
      && s.file == if s.order == [] then file else Some(m.print_(s.data))
  {
    RunInv(m, Init(data, file), schedule);
    var s := Run(m, Init(data, file), schedule);
    assert s.order == s.committed;
  }

  /** At the moment a batch has been written, memory and file show it and every
      batch before it. */
  lemma CommitIsVisible<D, O>(m: Store<D, O>, data: D, file: Option<Json>, schedule: seq<Pick<O>>, t: Tid)
    requires At(Run(m, Init(data, file), schedule), t).Saved?
    ensures var s := Run(m, Init(data, file), schedule);
      && ApplyBatches(m, data, s.order) == Ok(s.data) && s.file == Some(m.print_(s.data))
  {
    RunInv(m, Init(data, file), schedule);
    var s := Run(m, Init(data, file), schedule);
    assert OwnsTx(At(s, t));
    assert Current(s) == At(s, t);
    assert s.order == s.committed;
  }

  /** Unless a batch threw, some thread on its way through a transaction can
      step. */
  lemma NoDeadlock<D, O>(m: Store<D, O>, data: D, file: Option<Json>, schedule: seq<Pick<O>>, t: Tid, batch: seq<O>)
      returns (u: Tid)
    requires var s := Run(m, Init(data, file), schedule); !At(s, t).Out? && !Current(s).Threw?
    ensures var s := Run(m, Init(data, file), schedule); !At(s, u).Out? && Step(m, s, u, batch).Some?
  {
    RunInv(m, Init(data, file), schedule);
    var s := Run(m, Init(data, file), schedule);
    u := if s.txOwner.Some? then s.txOwner.value else t;
  }

  // ------------------------------------------------------- a batch that throws

  /** A batch that throws is never committed, and from then on no transaction of
      any thread begins or ends. */
  lemma {:induction false} ThrownBatchBlocksAll<D, O>(m: Store<D, O>, s: State<D, O>, schedule: seq<Pick<O>>, t: Tid)
    requires Inv(m, s) && At(s, t).Threw?
    ensures var s' := Run(m, s, schedule);
      && At(s', t) == At(s, t) && s'.order == s.order && s'.committed == s.committed
      && s'.data == s.data && s'.file == s.file
      && forall u :: u != t ==> At(s', u).Out? || At(s', u).WantTx?
  {
    RunInv(m, s, schedule);
    if schedule != [] {
      var front, pick := schedule[..|schedule| - 1], schedule[|schedule| - 1];
      ThrownBatchBlocksAll(m, s, front, t);
      RunInv(m, s, front);
      var before := Run(m, s, front);
      assert OwnsTx(At(before, t));
    }
    assert OwnsTx(At(Run(m, s, schedule), t));
  }

  lemma {:induction false} RunConcat<D, O>(m: Store<D, O>, s: State<D, O>, a: seq<Pick<O>>, b: seq<Pick<O>>)
    ensures Run(m, s, a + b) == Run(m, Run(m, s, a), b)
    decreases |b|
  {
    if b == [] {
      assert a + b == a;
    } else {
      assert (a + b)[..|a + b| - 1] == a + b[..|b| - 1];
      RunConcat(m, s, a, b[..|b| - 1]);
    }
  }

  /** Thread `t` steps `n` times in a row. */
  function Solo<O>(t: Tid, batch: seq<O>, n: nat): seq<Pick<O>> { seq(n, i => Pick(t, batch)) }

  lemma SoloNext<D, O>(m: Store<D, O>, s: State<D, O>, t: Tid, batch: seq<O>, n: nat)
    ensures var before := Run(m, s, Solo(t, batch, n));
      Run(m, s, Solo(t, batch, n + 1)) == match Step(m, before, t, batch) case None => before case Some(after) => after
  {
    assert Solo(t, batch, n + 1)[..n] == Solo(t, batch, n);
  }

  /** Thread `t` holds all locks, `done` elements have run, and the file is as it
      was. */
  ghost predicate Alone<D, O>(s: State<D, O>, r: State<D, O>, t: Tid, pc: Pc<O>) {
    && At(r, t) == pc && r.started && r.file == s.file && r.committed == s.committed
    && r.txOwner == r.dataOwner == r.fileOwner == Some(t)
  }

  lemma SoloStep<D, O>(m: Store<D, O>, s: State<D, O>, t: Tid, batch: seq<O>, n: nat, r: State<D, O>, r': State<D, O>)
    requires Run(m, s, Solo(t, batch, n)) == r && Step(m, r, t, batch) == Some(r')
    ensures Run(m, s, Solo(t, batch, n + 1)) == r'
  {
    SoloNext(m, s, t, batch, n);
  }

  lemma SoloLocks<D, O>(m: Store<D, O>, s: State<D, O>, t: Tid, batch: seq<O>)
    requires Exclusive(s) && s.txOwner.None? && At(s, t).Out?
    ensures var r := Run(m, s, Solo(t, batch, 3));
      && At(r, t) == Flagged(batch) && r.started && r.txOwner == Some(t)
      && r == s.(started := r.started, txOwner := r.txOwner, order := r.order, pcs := r.pcs)
  {
    var a := Go(s, t, WantTx(batch));
    var b := Go(a.(txOwner := Some(t), order := s.order + [batch]), t, HasTx(batch));
    var c := Go(b.(started := true), t, Flagged(batch));
    assert Step(m, s, t, batch) == Some(a);
    SoloStep(m, s, t, batch, 0, s, a);
    assert Step(m, a, t, batch) == Some(b);
    SoloStep(m, s, t, batch, 1, a, b);
    assert Step(m, b, t, batch) == Some(c);
    SoloStep(m, s, t, batch, 2, b, c);
  }

  lemma SoloBegins<D, O>(m: Store<D, O>, s: State<D, O>, t: Tid, batch: seq<O>)
    requires Exclusive(s) && s.txOwner.None? && At(s, t).Out?
    ensures var r := Run(m, s, Solo(t, batch, 5)); Alone(s, r, t, Inside(batch, 0)) && r.data == s.data
  {
    SoloLocks(m, s, t, batch);
    var c := Run(m, s, Solo(t, batch, 3));
    var d := Go(c.(dataOwner := Some(t)), t, HasData(batch));
    var e := Go(d.(fileOwner := Some(t)), t, Inside(batch, 0));
    assert Step(m, c, t, batch) == Some(d);
    SoloStep(m, s, t, batch, 3, c, d);
    assert Step(m, d, t, batch) == Some(e);
    SoloStep(m, s, t, batch, 4, d, e);
  }

  /** As far as the batch runs, so far the thread gets; then it has thrown. */
  lemma {:induction false} SoloRuns<D, O>(m: Store<D, O>, s: State<D, O>, t: Tid, batch: seq<O>, k: nat)
    requires Exclusive(s) && s.txOwner.None? && At(s, t).Out? && k <= |batch|
    ensures var r, run := Run(m, s, Solo(t, batch, 5 + k)), ApplyBatch(m, s.data, batch[..k]);
      if run.Ok? then Alone(s, r, t, Inside(batch, k)) && r.data == run.value
      else At(r, t).Threw? && r.file == s.file && r.committed == s.committed
  {
    if k == 0 {
      SoloBegins(m, s, t, batch);
    } else {
      SoloRuns(m, s, t, batch, k - 1);
      SoloNext(m, s, t, batch, 4 + k);
      assert batch[..k][..k - 1] == batch[..k - 1];
    }
  }

  lemma SoloThree<D, O>(m: Store<D, O>, s: State<D, O>, t: Tid, batch: seq<O>, n: nat,
                        a: State<D, O>, b: State<D, O>, c: State<D, O>)
    requires Step(m, Run(m, s, Solo(t, batch, n)), t, batch) == Some(a)
    requires Step(m, a, t, batch) == Some(b) && Step(m, b, t, batch) == Some(c)
    ensures Run(m, s, Solo(t, batch, n + 3)) == c
  {
    SoloStep(m, s, t, batch, n, Run(m, s, Solo(t, batch, n)), a);
    SoloStep(m, s, t, batch, n + 1, a, b);
    SoloStep(m, s, t, batch, n + 2, b, c);
  }

  lemma WriteSteps<D, O>(m: Store<D, O>, r: State<D, O>, t: Tid, batch: seq<O>)
      returns (a: State<D, O>, b: State<D, O>, c: State<D, O>)
    requires At(r, t) == Cloned(batch) && r.started
    ensures Step(m, r, t, batch) == Some(a) && Step(m, a, t, batch) == Some(b) && Step(m, b, t, batch) == Some(c)
    ensures At(c, t).FileFree? && c.data == r.data && c.file == Some(m.print_(r.data))
  {
    a := Go(r.(file := None), t, Opened(batch));
    b := Go(a.(file := Some(m.print_(r.data)), committed := r.committed + [batch]), t, Saved);
    c := Go(b.(fileOwner := None), t, FileFree);
  }

  lemma LeaveSteps<D, O>(m: Store<D, O>, r: State<D, O>, t: Tid, batch: seq<O>)
      returns (a: State<D, O>, b: State<D, O>, c: State<D, O>)
    requires At(r, t).FileFree?
    ensures Step(m, r, t, batch) == Some(a) && Step(m, a, t, batch) == Some(b) && Step(m, b, t, batch) == Some(c)
    ensures At(c, t).Out? && c.txOwner.None? && c.data == r.data && c.file == r.file
  {
    a := Go(r.(dataOwner := None), t, DataFree);
    b := Go(a.(started := false), t, FlagDown);
    c := Go(b.(txOwner := None), t, Out);
  }

  lemma SoloWrites<D, O>(m: Store<D, O>, s: State<D, O>, t: Tid, batch: seq<O>, n: nat)
    requires Alone(s, Run(m, s, Solo(t, batch, n)), t, Cloned(batch))
    ensures var before, r := Run(m, s, Solo(t, batch, n)), Run(m, s, Solo(t, batch, n + 3));
      At(r, t).FileFree? && r.data == before.data && r.file == Some(m.print_(r.data))
  {
    var a, b, c := WriteSteps(m, Run(m, s, Solo(t, batch, n)), t, batch);
    SoloThree(m, s, t, batch, n, a, b, c);
  }

  lemma SoloLeaves<D, O>(m: Store<D, O>, s: State<D, O>, t: Tid, batch: seq<O>, n: nat)
    requires At(Run(m, s, Solo(t, batch, n)), t).FileFree?
    ensures var before, r := Run(m, s, Solo(t, batch, n)), Run(m, s, Solo(t, batch, n + 3));
      At(r, t).Out? && r.txOwner.None? && r.data == before.data && r.file == before.file
  {
    var a, b, c := LeaveSteps(m, Run(m, s, Solo(t, batch, n)), t, batch);
    SoloThree(m, s, t, batch, n, a, b, c);
  }

  lemma ThrownStays<D, O>(m: Store<D, O>, s: State<D, O>, t: Tid, batch: seq<O>, n: nat, r: State<D, O>)
    requires Run(m, s, Solo(t, batch, n)) == r && At(r, t).Threw?
    ensures Run(m, s, Solo(t, batch, n + 1)) == r
  {
    assert Step(m, r, t, batch).None?;
    SoloNext(m, s, t, batch, n);
  }

  lemma {:induction false} StaysFrom<S>(at: nat -> S, n: nat, k: nat)
    requires forall i: nat :: n <= i && at(i) == at(n) ==> at(i + 1) == at(n)
    ensures at(n + k) == at(n)
  {
    if k > 0 { StaysFrom(at, n, k - 1); }
  }

  lemma StaysThrown<D, O>(m: Store<D, O>, s: State<D, O>, t: Tid, batch: seq<O>, n: nat, k: nat)
    requires At(Run(m, s, Solo(t, batch, n)), t).Threw?
    ensures Run(m, s, Solo(t, batch, n + k)) == Run(m, s, Solo(t, batch, n))
  {
    var at := (i: nat) => Run(m, s, Solo(t, batch, i));
    forall i: nat | n <= i && at(i) == at(n) ensures at(i + 1) == at(n) {
      ThrownStays(m, s, t, batch, i, at(n));
    }
    StaysFrom(at, n, k);
  }

  /** A thread that runs a batch while nobody else is inside a transaction gets out
      again, with the batch applied and written, if and only if the batch applies
      to the rows it finds; otherwise it has thrown. */
  lemma SoloEndsIff<D, O>(m: Store<D, O>, s: State<D, O>, t: Tid, batch: seq<O>)
    requires Exclusive(s) && s.txOwner.None? && At(s, t).Out?
    ensures var r, run := Run(m, s, Solo(t, batch, |batch| + 12)), ApplyBatch(m, s.data, batch);
      if run.Ok? then At(r, t).Out? && r.txOwner.None? && r.data == run.value && r.file == Some(m.print_(r.data))
      else At(r, t).Threw? && r.file == s.file && r.committed == s.committed
  {
    assert batch[..|batch|] == batch;
    SoloRuns(m, s, t, batch, |batch|);
    var n := 5 + |batch|;
    if ApplyBatch(m, s.data, batch).Ok? {
      SoloNext(m, s, t, batch, n);
      SoloWrites(m, s, t, batch, n + 1);
      SoloLeaves(m, s, t, batch, n + 4);
    } else {
      StaysThrown(m, s, t, batch, n, 7);
    }
  }

  /** A batch that does not apply, once run, keeps everyone else out for good, under
      every schedule. */
  lemma FailingBatchBlocksAll<D, O>(m: Store<D, O>, s: State<D, O>, t: Tid, batch: seq<O>, later: seq<Pick<O>>)
    requires Inv(m, s) && s.txOwner.None? && At(s, t).Out? && ApplyBatch(m, s.data, batch).Err?
    ensures var r := Run(m, s, Solo(t, batch, |batch| + 12) + later);
      && At(r, t).Threw? && r.file == s.file && r.committed == s.committed
      && forall u :: u != t ==> At(r, u).Out? || At(r, u).WantTx?
  {
    var solo := Solo(t, batch, |batch| + 12);
    SoloEndsIff(m, s, t, batch);
    RunInv(m, s, solo);
    ThrownBatchBlocksAll(m, Run(m, s, solo), later, t);
    RunConcat(m, s, solo, later);
  }

  // ------------------------------------------------------ no batch is forgotten

  /** What is counted of a batch. */
  type Measure<!O, !X> = seq<O> -> multiset<X>

  ghost function Total<O, X>(batches: seq<seq<O>>, f: Measure<O, X>): multiset<X> {
    if batches == [] then multiset{} else Total(batches[..|batches| - 1], f) + f(batches[|batches| - 1])
  }

  ghost function HeldBy<O, X>(f: Measure<O, X>): Pc<O> -> multiset<X> {
    (pc: Pc<O>) => if pc.WantTx? then f(pc.batch) else multiset{}
  }

  /** The batches of the threads that wait for the transaction lock. */
  ghost function Waiting<O, X>(pcs: map<Tid, Pc<O>>, f: Measure<O, X>): multiset<X> { Sum(pcs, HeldBy(f)) }

  lemma WaitingMoves<D, O, X>(s: State<D, O>, t: Tid, pc: Pc<O>, f: Measure<O, X>)
    ensures Waiting(s.pcs[t := pc], f) + HeldBy(f)(At(s, t)) == Waiting(s.pcs, f) + HeldBy(f)(pc)
  {
    if t in s.pcs { SumChanged(s.pcs, t, pc, HeldBy(f)); } else { SumAdded(s.pcs, t, pc, HeldBy(f)); }
  }

  /** What was begun along a schedule: a thread outside begins the batch it is
      given. */
  ghost function Begun<D, O, X>(m: Store<D, O>, s: State<D, O>, schedule: seq<Pick<O>>, f: Measure<O, X>): multiset<X> {
    if schedule == [] then multiset{}
    else
      var front, pick := schedule[..|schedule| - 1], schedule[|schedule| - 1];
      Begun(m, s, front, f) + if At(Run(m, s, front), pick.t).Out? then f(pick.batch) else multiset{}
  }

  lemma StepOrders<D, O, X>(m: Store<D, O>, s: State<D, O>, t: Tid, batch: seq<O>, s': State<D, O>, f: Measure<O, X>)
    requires Step(m, s, t, batch) == Some(s')
    ensures s'.pcs == s.pcs[t := At(s', t)]
    ensures s'.order == if At(s, t).WantTx? then s.order + [At(s, t).batch] else s.order
    ensures At(s, t).Out? ==> At(s', t) == WantTx(batch)
    ensures !At(s, t).Out? ==> !At(s', t).WantTx?
  {
  }

  lemma TotalNext<O, X>(batches: seq<seq<O>>, b: seq<O>, f: Measure<O, X>)
    ensures Total(batches + [b], f) == Total(batches, f) + f(b)
  {
    assert (batches + [b])[..|batches|] == batches;
  }

  lemma Moved<X>(total: multiset<X>, waiting: multiset<X>, left: multiset<X>, part: multiset<X>)
    requires left + part == waiting
    ensures (total + part) + left == total + waiting
  {
  }

  lemma StepConserves<D, O, X>(m: Store<D, O>, s: State<D, O>, t: Tid, batch: seq<O>, s': State<D, O>, f: Measure<O, X>)
    requires Step(m, s, t, batch) == Some(s')
    ensures Total(s'.order, f) + Waiting(s'.pcs, f)
            == Total(s.order, f) + Waiting(s.pcs, f) + if At(s, t).Out? then f(batch) else multiset{}
  {
    StepOrders(m, s, t, batch, s', f);
    WaitingMoves(s, t, At(s', t), f);
    if At(s, t).WantTx? {
      TotalNext(s.order, At(s, t).batch, f);
      Moved(Total(s.order, f), Waiting(s.pcs, f), Waiting(s'.pcs, f), f(At(s, t).batch));
    } else if At(s, t).Out? {
      assert Waiting(s'.pcs, f) == Waiting(s.pcs, f) + f(batch);
    } else {
      assert HeldBy(f)(At(s, t)) == multiset{} && HeldBy(f)(At(s', t)) == multiset{};
      assert Waiting(s'.pcs, f) + multiset{} == Waiting(s'.pcs, f);
      assert Waiting(s.pcs, f) + multiset{} == Waiting(s.pcs, f);
    }
  }

  /** Every begun batch is either waiting for the lock or in the order, once. */
  lemma {:induction false} RunConserves<D, O, X>(m: Store<D, O>, data: D, file: Option<Json>, schedule: seq<Pick<O>>,
                                                f: Measure<O, X>)
    ensures var s := Run(m, Init(data, file), schedule);
      Total(s.order, f) + Waiting(s.pcs, f) == Begun(m, Init(data, file), schedule, f)
  {
    if schedule != [] {
      var front, pick := schedule[..|schedule| - 1], schedule[|schedule| - 1];
      RunConserves(m, data, file, front, f);
      var before := Run(m, Init(data, file), front);
      var next := Step(m, before, pick.t, pick.batch);
      if next.Some? {
        StepConserves(m, before, pick.t, pick.batch, next.value, f);
      } else {
        assert !At(before, pick.t).Out?;
      }
    }
  }

  /** A batch counted as one. */
  ghost function Whole<O>(): Measure<O, seq<O>> { (b: seq<O>) => multiset{b} }

  /** A batch counted by its elements. */
  ghost function Parts<O>(): Measure<O, O> { (b: seq<O>) => multiset(b) }

  lemma {:induction false} TotalWhole<O>(batches: seq<seq<O>>)
    ensures Total(batches, Whole()) == multiset(batches)
  {
    if batches != [] {
      var front, last := batches[..|batches| - 1], batches[|batches| - 1];
      TotalWhole(front);
      assert batches == front + [last];
    }
  }

  ghost predicate AllOfSize<O>(schedule: seq<Pick<O>>, k: nat) {
    forall i :: 0 <= i < |schedule| ==> |schedule[i].batch| == k
  }

  lemma SizeStep(elements: nat, batches: nat, k: nat)
    requires elements == batches * k
    ensures elements + k == (batches + 1) * k
  {
  }

  lemma {:induction false} BegunSizes<D, O>(m: Store<D, O>, s: State<D, O>, schedule: seq<Pick<O>>, k: nat)
    requires AllOfSize(schedule, k)
    ensures |Begun(m, s, schedule, Parts())| == |Begun(m, s, schedule, Whole())| * k
  {
    if schedule != [] {
      var n := |schedule| - 1;
      var front, b := schedule[..n], schedule[n].batch;
      BegunSizes(m, s, front, k);
      SizeStep(|Begun(m, s, front, Parts())|, |Begun(m, s, front, Whole())|, k);
      if At(Run(m, s, front), schedule[n].t).Out? {
        assert |Begun(m, s, schedule, Parts())| == |Begun(m, s, front, Parts())| + |multiset(b)|;
        assert |Begun(m, s, schedule, Whole())| == |Begun(m, s, front, Whole())| + 1;
      } else {
        assert Begun(m, s, schedule, Parts()) == Begun(m, s, front, Parts());
        assert Begun(m, s, schedule, Whole()) == Begun(m, s, front, Whole());
      }
    }
  }

  ghost predicate Finished<D, O>(s: State<D, O>) { forall t :: At(s, t).Out? }

  lemma NobodyWaits<D, O, X>(s: State<D, O>, f: Measure<O, X>)
    requires Finished(s)
    ensures Waiting(s.pcs, f) == multiset{}
  {
    forall t | t in s.pcs ensures HeldBy(f)(s.pcs[t]) == multiset{} { assert At(s, t).Out?; }
    SumOfNothing(s.pcs, HeldBy(f));
  }

  /** When every thread is out again, rows and file are the begun batches, each
      once, applied in some order. */
  lemma FinishedRunIsSerial<D, O>(m: Store<D, O>, data: D, file: Option<Json>, schedule: seq<Pick<O>>)
    requires Finished(Run(m, Init(data, file), schedule))
    ensures var s := Run(m, Init(data, file), schedule);
      && s.txOwner.None? && multiset(s.order) == Begun(m, Init(data, file), schedule, Whole())
      && ApplyBatches(m, data, s.order) == Ok(s.data)
      && s.file == if s.order == [] then file else Some(m.print_(s.data))
  {
    var s := Run(m, Init(data, file), schedule);
    RunInv(m, Init(data, file), schedule);
    assert s.txOwner.None?;
    TransactionsAreSerial(m, data, file, schedule);
    RunConserves(m, data, file, schedule, Whole());
    NobodyWaits(s, Whole());
    TotalWhole(s.order);
  }
}
