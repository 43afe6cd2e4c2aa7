/** The protocol of StoreProtocol with the mount_points table in it. */
module MountProtocol {
  import opened Wrappers
  import opened Counting
  import opened Text
  import opened Dto
  import opened Tables
  import opened MountStore
  import opened StoreProtocol

  type Op = TableOp<MountEntry>

  /** Create looks for the entry, and Update for the id, before the exclusive
      lock is taken. */
  predicate Looks(op: Op) { op.Create? || op.Update? }

  predicate Refuses(rows: MountRows, op: Op) {
    (op.Create? && FindEntry(rows, op.row).Some?) || (op.Update? && op.id !in rows)
  }

  /** `data_.at` throws if the row is gone since the check. */
  predicate Throws(rows: MountRows, op: Op) { op.Update? && op.id !in rows }

  const MOUNTS: Store<MountRows, Op> :=
    Store((rows: MountRows, op: Op) => Apply(rows, op), (rows: MountRows) => TableJson(rows, ShowMount),
          Looks, Refuses, Throws)

  type MountState = State<MountRows, Op>

  lemma PrintsMounts(rows: MountRows)
    ensures MOUNTS.print_(rows) == TableJson(rows, ShowMount)
  {
  }

  /** A daemon restarted while no operation is in flight reads back the rows it
      had, whatever the interleaving before. */
  lemma QuietRestart(data: MountRows, file: Option<Json>, schedule: seq<Pick<Op>>, s: MountState)
    requires s == Run(MOUNTS, Init(data, file), schedule) && Quiet(s)
    requires LoadFile(file, ReadMountRow) == Ok(data)
    requires forall id :: id in s.data ==> NulFreeMount(s.data[id])
    ensures LoadFile(s.file, ReadMountRow) == Ok(s.data)
  {
    QuietFileAgrees(MOUNTS, data, file, schedule);
    if |s.history| > 1 {
      MountsReload(s.data);
      PrintsMounts(s.data);
    }
  }

  // ------------------------------------------------- a thread nobody disturbs

  /** A call that one thread makes while the others rest. It is refused exactly when
      it creates a row that is there, or updates one that is not. */
  lemma SoloCall(s: MountState, t: Tid, op: Op) returns (after: MountState)
    requires Locks(s) && Quiet(s)
    ensures after == Run(MOUNTS, s, Solo(t, Change(op), CallLength(MOUNTS, s.data, op))) && Quiet(after)
    ensures if (op.Create? && op.row in s.data.Values) || (op.Update? && op.id !in s.data) then
              after.data == s.data && after.file == s.file
            else
              after.data == Apply(s.data, op) && after.file == Some(TableJson(after.data, ShowMount))
  {
    after := Run(MOUNTS, s, Solo(t, Change(op), CallLength(MOUNTS, s.data, op)));
    if op.Update? && op.id !in s.data {
      SoloChecks(MOUNTS, s, t, op);
      forall u ensures At(after, u).Idle? { assert At(s, u).Idle?; }
    } else {
      SoloIsDone(MOUNTS, s, t, op);
      PrintsMounts(after.data);
    }
  }

  lemma SoloReloads(after: MountState)
    requires after.file == Some(TableJson(after.data, ShowMount))
    requires forall id :: id in after.data ==> NulFreeMount(after.data[id])
    ensures LoadFile(after.file, ReadMountRow) == Ok(after.data)
  {
    MountsReload(after.data);
  }

  /** A deletion nobody disturbs ends at rest, with the row gone from the table and
      from what a restart reads, and every other row as before. */
  lemma SoloDelete(s: MountState, t: Tid, id: Id) returns (after: MountState)
    requires Locks(s) && Quiet(s)
    ensures after == Run(MOUNTS, s, Solo(t, Change(TableOp.Delete(id)), 10)) && Quiet(after)
    ensures id !in after.data && OthersKept(s.data, id, after.data)
    ensures (forall k :: k in s.data ==> NulFreeMount(s.data[k]))
            ==> LoadFile(after.file, ReadMountRow) == Ok(after.data)
  {
    after := SoloCall(s, t, TableOp.Delete(id));
    ApplyMeans(s.data, id, MountEntry("", "", ""), (e: MountEntry) => false);
    if forall k :: k in s.data ==> NulFreeMount(s.data[k]) { SoloReloads(after); }
  }

  /** A creation nobody disturbs ends at rest, with the entry in the table and in
      what a restart reads, and every old row as before. */
  lemma SoloCreate(s: MountState, t: Tid, e: MountEntry) returns (after: MountState)
    requires Locks(s) && Quiet(s) && U64 - 1 !in s.data && e !in s.data.Values
    ensures after == Run(MOUNTS, s, Solo(t, Change(TableOp.Create(e)), 12)) && Quiet(after)
    ensures exists k: Id :: k !in s.data && k in after.data && after.data[k] == e && OthersKept(s.data, k, after.data)
    ensures NulFreeMount(e) && (forall k :: k in s.data ==> NulFreeMount(s.data[k]))
            ==> LoadFile(after.file, ReadMountRow) == Ok(after.data)
  {
    after := SoloCall(s, t, TableOp.Create(e));
    assert FindEntry(s.data, e).None?;
    CreateIsFresh(s.data, e);
    var k: Id :| k !in s.data && after.data == s.data[k := e];
    assert OthersKept(s.data, k, after.data);
    if NulFreeMount(e) && forall j :: j in s.data ==> NulFreeMount(s.data[j]) { SoloReloads(after); }
  }

  // ------------------------------------------------------------- who may create

  /** Which thread may create which entry. */
  type Rights = (Tid, MountEntry) -> bool

  predicate Permitted(t: Tid, op: Op, may: Rights) { !op.Update? && (op.Create? ==> may(t, op.row)) }

  /** Threads create only what they may, and, as in the daemon, none updates. */
  ghost predicate Disciplined(schedule: seq<Pick<Op>>, may: Rights) {
    forall i :: 0 <= i < |schedule| && schedule[i].call.Change? ==> Permitted(schedule[i].t, schedule[i].call.op, may)
  }

  /** No entry may be created by two threads. */
  ghost predicate OneOwnerEach(may: Rights) { forall t, u, e :: may(t, e) && may(u, e) ==> t == u }

  /** The rows are distinct, and a creator past its check still has a new entry. */
  ghost predicate Fresh(s: MountState, may: Rights) {
    && Distinct(s.data)
    && (forall t :: At(s, t).WantCheck? || At(s, t).Checking? || At(s, t).WantData? || At(s, t).HoldData?
          ==> Permitted(t, At(s, t).op, may))
    && (forall t :: (At(s, t).WantData? || At(s, t).HoldData?) && At(s, t).op.Create? ==>
      At(s, t).op.row !in s.data.Values)
  }

  lemma ApplyShrinks(rows: MountRows, op: Op)
    requires Distinct(rows) && (op.Delete? || op.Clear? || op.RemoveExpired?)
    ensures Distinct(Apply(rows, op)) && Apply(rows, op).Values <= rows.Values
  {
    var after := Apply(rows, op);
    assert forall id :: id in after ==> id in rows && after[id] == rows[id];
  }

  /** What `Fresh` asks of one thread. */
  ghost predicate FreshPc(rows: MountRows, t: Tid, pc: Pc<Op>, may: Rights) {
    && (pc.WantCheck? || pc.Checking? || pc.WantData? || pc.HoldData? ==> Permitted(t, pc.op, may))
    && ((pc.WantData? || pc.HoldData?) && pc.op.Create? ==> pc.op.row !in rows.Values)
  }

  /** A step that leaves the rows alone only moves thread `t`. */
  lemma MoveFresh(s: MountState, t: Tid, s': MountState, may: Rights)
    requires Fresh(s, may) && s'.data == s.data && s'.pcs == s.pcs[t := At(s', t)] && FreshPc(s.data, t, At(s', t), may)
    ensures Fresh(s', may)
  {
    assert forall u :: u != t ==> At(s', u) == At(s, u);
  }

  lemma IdleStepFresh(s: MountState, t: Tid, call: Call<Op>, s': MountState, may: Rights)
    requires FreshPc(s.data, t, At(s, t), may) && Step(MOUNTS, s, t, call) == Some(s')
    requires call.Change? ==> Permitted(t, call.op, may)
    requires !At(s, t).HoldData? || Throws(s.data, At(s, t).op)
    ensures s'.data == s.data && s'.pcs == s.pcs[t := At(s', t)] && FreshPc(s.data, t, At(s', t), may)
  {
  }

  lemma ChangeStepFresh(s: MountState, t: Tid, op: Op, s': MountState, may: Rights)
    requires OneOwnerEach(may) && Fresh(s, may) && At(s, t) == HoldData(op)
    requires s'.data == Apply(s.data, op) && s'.pcs == s.pcs[t := Changed]
    ensures Fresh(s', may)
  {
    assert forall u :: u != t ==> At(s', u) == At(s, u);
    if op.Create? {
      assert FindEntry(s.data, op.row).None?;
      CreateKeepsDistinct(s.data, op.row);
    } else {
      ApplyShrinks(s.data, op);
    }
  }

  lemma StepFresh(s: MountState, t: Tid, call: Call<Op>, s': MountState, may: Rights)
    requires OneOwnerEach(may) && Fresh(s, may) && Step(MOUNTS, s, t, call) == Some(s')
    requires call.Change? ==> Permitted(t, call.op, may)
    ensures Fresh(s', may)
  {
    if At(s, t).HoldData? && !Throws(s.data, At(s, t).op) {
      ChangeStepFresh(s, t, At(s, t).op, s', may);
    } else {
      IdleStepFresh(s, t, call, s', may);
      MoveFresh(s, t, s', may);
    }
  }

  lemma {:induction false} RunFresh(data: MountRows, file: Option<Json>, schedule: seq<Pick<Op>>, may: Rights)
    requires Distinct(data) && OneOwnerEach(may) && Disciplined(schedule, may)
    ensures Fresh(Run(MOUNTS, Init(data, file), schedule), may)
  {
    if schedule != [] {
      var front, pick := schedule[..|schedule| - 1], schedule[|schedule| - 1];
      RunFresh(data, file, front, may);
      var s := Run(MOUNTS, Init(data, file), front);
      var next := Step(MOUNTS, s, pick.t, pick.call);
      if next.Some? { StepFresh(s, pick.t, pick.call, next.value, may); }
    }
  }

  /** Threads that create different entries never store one twice, although the
      check and the insertion use separate locks. */
  lemma OwnersKeepDistinct(data: MountRows, file: Option<Json>, schedule: seq<Pick<Op>>, may: Rights)
    requires Distinct(data) && OneOwnerEach(may) && Disciplined(schedule, may)
    ensures Distinct(Run(MOUNTS, Init(data, file), schedule).data)
  {
    RunFresh(data, file, schedule, may);
  }

  // ---------------------------------------------------- two creating threads

  lemma RunNext<D, O>(m: Store<D, O>, s: State<D, O>, schedule: seq<Pick<O>>, pick: Pick<O>)
    ensures Run(m, s, schedule + [pick]) ==
      match Step(m, Run(m, s, schedule), pick.t, pick.call)
      case None => Run(m, s, schedule)
      case Some(after) => after
  {
    assert (schedule + [pick])[..|schedule|] == schedule;
  }

  ghost predicate Unlocked<D, O>(s: State<D, O>) { s.writer.None? && s.readers == {} }

  function Thrice<O>(schedule: seq<Pick<O>>, p: Pick<O>): seq<Pick<O>> { schedule + [p] + [p] + [p] }

  lemma ThriceDisciplined(schedule: seq<Pick<Op>>, p: Pick<Op>, may: Rights)
    requires Disciplined(schedule, may) && (p.call.Change? ==> Permitted(p.t, p.call.op, may))
    ensures Disciplined(Thrice(schedule, p), may)
  {
  }

  /** Thread `t` alone goes from idle through its check to the data lock. */
  lemma PassCheck<D, O>(m: Store<D, O>, s: State<D, O>, schedule: seq<Pick<O>>, t: Tid, op: O)
      returns (longer: seq<Pick<O>>)
    requires var r := Run(m, s, schedule); At(r, t).Idle? && Unlocked(r) && m.checks(op) && !m.refuses(r.data, op)
    ensures var r, after := Run(m, s, schedule), Run(m, s, longer);
      after.data == r.data && Unlocked(after) && after.pcs == r.pcs[t := WantData(op)]
    ensures longer == Thrice(schedule, Pick(t, Change(op)))
  {
    var p := Pick(t, Change(op));
    longer := Thrice(schedule, p);
    RunNext(m, s, schedule, p);
    RunNext(m, s, schedule + [p], p);
    RunNext(m, s, schedule + [p] + [p], p);
  }

  /** Thread `t` alone takes the data lock, changes the rows, and leaves it. */
  lemma ChangeRows<D, O>(m: Store<D, O>, s: State<D, O>, schedule: seq<Pick<O>>, t: Tid, op: O)
      returns (longer: seq<Pick<O>>)
    requires var r := Run(m, s, schedule); At(r, t) == WantData(op) && Unlocked(r) && !m.throws(r.data, op)
    ensures var r, after := Run(m, s, schedule), Run(m, s, longer);
      after.data == m.apply(r.data, op) && Unlocked(after) && after.pcs == r.pcs[t := WantFile]
    ensures longer == Thrice(schedule, Pick(t, Lookup))
  {
    var p := Pick(t, Lookup);
    longer := Thrice(schedule, p);
    RunNext(m, s, schedule, p);
    RunNext(m, s, schedule + [p], p);
    RunNext(m, s, schedule + [p] + [p], p);
  }

  lemma CreatedTwice(e: MountEntry)
    ensures !Distinct(CreateRow(CreateRow(map[], e), e))
  {
    var none: MountRows := map[];
    var once := CreateRow(none, e);
    assert once == map[0 := e];
    assert Top(once.Keys) == 1 by { assert 0 in once.Keys; }
    var rows := CreateRow(once, e);
    assert 0 in rows && 1 in rows && rows[0] == rows[1];
  }

  /** The schedule in which both pass the check before either inserts. */
  function Overlap(e: MountEntry, t: Tid, u: Tid): seq<Pick<Op>> {
    var op: Op := TableOp.Create(e);
    Thrice(Thrice(Thrice(Thrice([], Pick(t, Change(op))), Pick(u, Change(op))), Pick(t, Lookup)), Pick(u, Lookup))
  }

  lemma OverlapIsDisciplined(e: MountEntry, t: Tid, u: Tid, may: Rights)
    requires may(t, e) && may(u, e)
    ensures Disciplined(Overlap(e, t, u), may)
  {
    var op: Op := TableOp.Create(e);
    var p, q := Pick(t, Change(op)), Pick(u, Change(op));
    ThriceDisciplined([], p, may);
    ThriceDisciplined(Thrice([], p), q, may);
    ThriceDisciplined(Thrice(Thrice([], p), q), Pick(t, Lookup), may);
    ThriceDisciplined(Thrice(Thrice(Thrice([], p), q), Pick(t, Lookup)), Pick(u, Lookup), may);
  }

  /** Any two threads that create the same entry can store it twice. */
  lemma TwoCreatorsCanDuplicate(e: MountEntry, t: Tid, u: Tid)
    requires t != u
    ensures !Distinct(Run(MOUNTS, Init(map[], None), Overlap(e, t, u)).data)
  {
    var s: MountState := Init(map[], None);
    var op: Op := TableOp.Create(e);
    assert FindEntry(map[], e).None?;
    var a := PassCheck(MOUNTS, s, [], t, op);
    var b := PassCheck(MOUNTS, s, a, u, op);
    var c := ChangeRows(MOUNTS, s, b, t, op);
    var d := ChangeRows(MOUNTS, s, c, u, op);
    CreatedTwice(e);
  }

  /** The check before Create guards against duplicates, under every schedule and
      from every start, exactly when no entry may be created by two threads. */
  lemma GuardWorksIff(may: Rights)
    ensures OneOwnerEach(may)
            <==> forall data, file, schedule :: Distinct(data) && Disciplined(schedule, may)
                   ==> Distinct(Run(MOUNTS, Init(data, file), schedule).data)
  {
    if OneOwnerEach(may) {
      forall data, file, schedule | Distinct(data) && Disciplined(schedule, may)
        ensures Distinct(Run(MOUNTS, Init(data, file), schedule).data)
      {
        OwnersKeepDistinct(data, file, schedule, may);
      }
    } else {
      var t, u, e :| may(t, e) && may(u, e) && t != u;
      TwoCreatorsCanDuplicate(e, t, u);
      OverlapIsDisciplined(e, t, u, may);
      var none: MountRows := map[];
      assert Distinct(none) && !Distinct(Run(MOUNTS, Init(none, None), Overlap(e, t, u)).data);
    }
  }

  // --------------------------------------------------------- nothing is lost

  /** The entries whose Create was begun along a schedule. */
  function Begun(s: MountState, schedule: seq<Pick<Op>>): set<MountEntry> {
    if schedule == [] then {}
    else
      var front, pick := schedule[..|schedule| - 1], schedule[|schedule| - 1];
      Begun(s, front) + NewlyBegun(Run(MOUNTS, s, front), pick)
  }

  function NewlyBegun(s: MountState, pick: Pick<Op>): set<MountEntry> {
    if At(s, pick.t).Idle? && pick.call.Change? && pick.call.op.Create? then {pick.call.op.row} else {}
  }

  ghost predicate OnlyCreates(schedule: seq<Pick<Op>>) {
    forall i :: 0 <= i < |schedule| && schedule[i].call.Change? ==> schedule[i].call.op.Create?
  }

  /** A thread on its way to insert. */
  predicate Carries(pc: Pc<Op>) { pc.WantCheck? || pc.Checking? || pc.WantData? || pc.HoldData? }

  ghost predicate Lands(s: MountState, e: MountEntry) {
    e in s.data.Values || exists t :: Carries(At(s, t)) && At(s, t).op == TableOp.Create(e)
  }

  /** The rows grew from `data` by entries of `begun`, without gaps in the ids,
      and every entry of `begun` is there or on its way. */
  ghost predicate Landing(data: MountRows, begun: set<MountEntry>, s: MountState) {
    && s.data.Values <= data.Values + begun
    && (forall id :: id in data ==> id in s.data && s.data[id] == data[id])
    && (forall e :: e in begun ==> Lands(s, e))
    && (forall t :: Carries(At(s, t)) ==> At(s, t).op.Create? && At(s, t).op.row in begun)
    && Top(s.data.Keys) - |s.data| == Top(data.Keys) - |data|
  }

  lemma AddedValue<R>(rows: map<Id, R>, id: Id, row: R)
    requires id !in rows
    ensures rows[id := row].Values == rows.Values + {row} && |rows[id := row]| == |rows| + 1
  {
    var after := rows[id := row];
    assert after.Keys == rows.Keys + {id} && |after| == |after.Keys| && |rows| == |rows.Keys|;
    forall x | x in rows.Values ensures x in after.Values {
      var k :| k in rows && rows[k] == x;
      assert after[k] == x;
    }
    assert after[id] == row;
  }

  lemma {:induction false} DistinctCount(rows: MountRows)
    requires Distinct(rows)
    ensures |rows| == |rows.Values|
    decreases |rows|
  {
    if rows != map[] {
      var id :| id in rows;
      var rest := rows - {id};
      assert rows == rest[id := rows[id]];
      AddedValue(rest, id, rows[id]);
      assert rows[id] !in rest.Values;
      DistinctCount(rest);
    }
  }

  lemma FewerRows(rows: MountRows, e: MountEntry, all: set<MountEntry>)
    requires Distinct(rows) && e !in rows.Values && e in all && rows.Values <= all
    ensures |rows| < |all|
  {
    DistinctCount(rows);
    SubsetCount(rows.Values + {e}, all);
  }

  lemma TopGrows(keys: set<Id>, id: Id)
    requires id as nat == Top(keys)
    ensures id !in keys && Top(keys + {id}) == Top(keys) + 1
  {
    assert id in keys + {id};
  }

  lemma InsertedAtTop<R>(rows: map<Id, R>, row: R) returns (id: Id)
    requires Top(rows.Keys) < U64
    ensures id as nat == Top(rows.Keys) && id !in rows && CreateRow(rows, row) == rows[id := row]
  {
    id := NextId(rows.Keys);
  }

  lemma GrowsByOne<R>(rows: map<Id, R>, row: R)
    requires Top(rows.Keys) < U64
    ensures var after := CreateRow(rows, row);
      && after.Values == rows.Values + {row} && |after| == |rows| + 1 && Top(after.Keys) == Top(rows.Keys) + 1
      && forall id :: id in rows ==> id in after && after[id] == rows[id]
  {
    var id := InsertedAtTop(rows, row);
    TopGrows(rows.Keys, id);
    AddedValue(rows, id, row);
    assert rows[id := row].Keys == rows.Keys + {id};
  }

  /** Everything that may ever be in the table: what was there and what began. */
  ghost predicate Bounded(data: MountRows, begun: set<MountEntry>, all: set<MountEntry>) {
    Distinct(data) && data.Values + begun <= all && Top(data.Keys) + |all| - |data| <= U64
  }

  lemma InsertedRows(data: MountRows, begun: set<MountEntry>, all: set<MountEntry>, s: MountState, e: MountEntry)
    requires Landing(data, begun, s) && Distinct(s.data) && Bounded(data, begun, all) && e !in s.data.Values
        && e in begun
    ensures var after := CreateRow(s.data, e);
      && after.Values == s.data.Values + {e}
      && (forall id :: id in data ==> id in after && after[id] == data[id])
      && Top(after.Keys) - |after| == Top(data.Keys) - |data|
  {
    FewerRows(s.data, e, all);
    GrowsByOne(s.data, e);
  }

  lemma InsertLands(data: MountRows, begun: set<MountEntry>, s: MountState, t: Tid, e: MountEntry, s': MountState)
    requires forall x :: x in begun ==> Lands(s, x)
    requires At(s, t) == HoldData(TableOp.Create(e)) && s'.pcs == s.pcs[t := Changed]
    requires s'.data.Values == s.data.Values + {e}
    ensures forall x :: x in begun ==> Lands(s', x)
  {
    assert forall u :: u != t ==> At(s', u) == At(s, u);
    forall x | x in begun ensures Lands(s', x) {
      if x !in s'.data.Values {
        var u :| Carries(At(s, u)) && At(s, u).op == TableOp.Create(x);
        assert Carries(At(s', u));
      }
    }
  }

  lemma InsertStepLands(data: MountRows, begun: set<MountEntry>, all: set<MountEntry>, s: MountState, t: Tid,
                        e: MountEntry, s': MountState)
    requires Landing(data, begun, s) && Distinct(s.data) && Bounded(data, begun, all)
    requires At(s, t) == HoldData(TableOp.Create(e)) && e !in s.data.Values && e in begun
    requires s'.data == CreateRow(s.data, e) && s'.pcs == s.pcs[t := Changed]
    ensures Landing(data, begun, s')
  {
    InsertedRows(data, begun, all, s, e);
    InsertLands(data, begun, s, t, e, s');
    assert forall u :: Carries(At(s', u)) ==> At(s', u) == At(s, u);
  }

  /** A step that leaves the rows alone: what thread `t` carried is still carried,
      or is in the table. */
  lemma MoveLands(data: MountRows, begun: set<MountEntry>, s: MountState, t: Tid, s': MountState, more: set<MountEntry>)
    requires Landing(data, begun, s) && s'.data == s.data && s'.pcs == s.pcs[t := At(s', t)]
    requires Carries(At(s, t)) ==>
        At(s, t).op.row in s.data.Values || (Carries(At(s', t)) && At(s', t).op == At(s, t).op)
    requires Carries(At(s', t)) ==> At(s', t).op.Create? && At(s', t).op.row in begun + more
    requires forall e :: e in more ==> Carries(At(s', t)) && At(s', t).op == TableOp.Create(e)
    ensures Landing(data, begun + more, s')
  {
    assert forall u :: u != t ==> At(s', u) == At(s, u);
    forall x | x in begun ensures Lands(s', x) {
      if x !in s.data.Values {
        var u :| Carries(At(s, u)) && At(s, u).op == TableOp.Create(x);
        assert Carries(At(s', u)) && At(s', u).op == TableOp.Create(x);
      }
    }
    forall x | x in more ensures Lands(s', x) { assert Carries(At(s', t)); }
  }

  lemma StepMoves(s: MountState, pick: Pick<Op>, s': MountState)
    requires Step(MOUNTS, s, pick.t, pick.call) == Some(s') && !At(s, pick.t).HoldData?
    requires Carries(At(s, pick.t)) ==> At(s, pick.t).op.Create?
    requires pick.call.Change? ==> pick.call.op.Create?
    ensures var t, more := pick.t, NewlyBegun(s, pick);
      && s'.data == s.data && s'.pcs == s.pcs[t := At(s', t)]
      && (Carries(At(s, t)) ==> At(s, t).op.row in s.data.Values || (Carries(At(s', t)) && At(s', t).op == At(s, t).op))
      && (Carries(At(s', t)) ==> (Carries(At(s, t)) && At(s', t).op == At(s, t).op) || more == {At(s', t).op.row})
      && (Carries(At(s', t)) ==> At(s', t).op.Create?)
      && (forall e :: e in more ==> Carries(At(s', t)) && At(s', t).op == TableOp.Create(e))
  {
  }

  lemma InsertingLands(data: MountRows, begun: set<MountEntry>, all: set<MountEntry>, s: MountState, pick: Pick<Op>,
                       s': MountState, may: Rights)
    requires Landing(data, begun, s) && Fresh(s, may) && Bounded(data, begun, all) && At(s, pick.t).HoldData?
    requires Step(MOUNTS, s, pick.t, pick.call) == Some(s')
    ensures Landing(data, begun, s') && NewlyBegun(s, pick) == {}
  {
    assert Carries(At(s, pick.t));
    InsertStepLands(data, begun, all, s, pick.t, At(s, pick.t).op.row, s');
  }

  lemma MovingLands(data: MountRows, begun: set<MountEntry>, s: MountState, pick: Pick<Op>, s': MountState)
    requires Landing(data, begun, s) && !At(s, pick.t).HoldData?
    requires Step(MOUNTS, s, pick.t, pick.call) == Some(s') && (pick.call.Change? ==> pick.call.op.Create?)
    ensures Landing(data, begun + NewlyBegun(s, pick), s')
  {
    StepMoves(s, pick, s');
    MoveLands(data, begun, s, pick.t, s', NewlyBegun(s, pick));
  }

  lemma StepLands(data: MountRows, begun: set<MountEntry>, all: set<MountEntry>, s: MountState, pick: Pick<Op>,
                  s': MountState, may: Rights)
    requires Landing(data, begun, s) && Fresh(s, may) && Bounded(data, begun, all)
    requires Step(MOUNTS, s, pick.t, pick.call) == Some(s') && (pick.call.Change? ==> pick.call.op.Create?)
    ensures Landing(data, begun + NewlyBegun(s, pick), s')
  {
    if At(s, pick.t).HoldData? {
      InsertingLands(data, begun, all, s, pick, s', may);
      assert begun + NewlyBegun(s, pick) == begun;
    } else {
      MovingLands(data, begun, s, pick, s');
    }
  }

  /** The state after a pick, blocked or not. */
  function Picked(s: MountState, pick: Pick<Op>): MountState {
    var next := Step(MOUNTS, s, pick.t, pick.call);
    if next.Some? then next.value else s
  }

  lemma PickLands(data: MountRows, begun: set<MountEntry>, all: set<MountEntry>, s: MountState, pick: Pick<Op>,
                  may: Rights)
    requires Landing(data, begun, s) && Fresh(s, may) && Bounded(data, begun, all)
    requires pick.call.Change? ==> pick.call.op.Create?
    ensures Landing(data, begun + NewlyBegun(s, pick), Picked(s, pick))
  {
    var next := Step(MOUNTS, s, pick.t, pick.call);
    if next.Some? {
      StepLands(data, begun, all, s, pick, next.value, may);
    } else {
      assert !At(s, pick.t).Idle?;
      assert begun + NewlyBegun(s, pick) == begun;
    }
  }

  lemma LastPick(s: MountState, schedule: seq<Pick<Op>>)
    requires schedule != []
    ensures var n := |schedule| - 1;
      && Run(MOUNTS, s, schedule) == Picked(Run(MOUNTS, s, schedule[..n]), schedule[n])
      && Begun(s, schedule) == Begun(s, schedule[..n]) + NewlyBegun(Run(MOUNTS, s, schedule[..n]), schedule[n])
  {
  }

  lemma {:induction false} RunLands(data: MountRows, start: MountState, schedule: seq<Pick<Op>>,
                                    all: set<MountEntry>, may: Rights)
    requires OneOwnerEach(may) && Disciplined(schedule, may) && OnlyCreates(schedule)
    requires Landing(data, {}, start) && Fresh(start, may) && Bounded(data, Begun(start, schedule), all)
    ensures Landing(data, Begun(start, schedule), Run(MOUNTS, start, schedule))
    ensures Fresh(Run(MOUNTS, start, schedule), may)
  {
    if schedule != [] {
      var n := |schedule| - 1;
      LastPick(start, schedule);
      RunLands(data, start, schedule[..n], all, may);
      var before, begun := Run(MOUNTS, start, schedule[..n]), Begun(start, schedule[..n]);
      PickLands(data, begun, all, before, schedule[n], may);
      PickFresh(before, schedule[n], may);
    }
  }

  lemma PickFresh(s: MountState, pick: Pick<Op>, may: Rights)
    requires OneOwnerEach(may) && Fresh(s, may) && (pick.call.Change? ==> Permitted(pick.t, pick.call.op, may))
    ensures Fresh(Picked(s, pick), may)
  {
    var next := Step(MOUNTS, s, pick.t, pick.call);
    if next.Some? { StepFresh(s, pick.t, pick.call, next.value, may); }
  }

  lemma AllLanded(data: MountRows, begun: set<MountEntry>, s: MountState)
    requires Landing(data, begun, s) && Quiet(s)
    ensures s.data.Values == data.Values + begun
  {
    forall e | e in begun ensures e in s.data.Values {
      assert Lands(s, e);
      assert forall t :: At(s, t).Idle?;
    }
    forall e | e in data.Values ensures e in s.data.Values {
      var id :| id in data && data[id] == e;
      assert s.data[id] == e;
    }
  }

  lemma InitLands(data: MountRows, file: Option<Json>, may: Rights)
    requires Distinct(data)
    ensures Landing(data, {}, Init(data, file)) && Fresh(Init(data, file), may)
  {
  }

  lemma RoomIsBound(data: MountRows, begun: set<MountEntry>)
    requires Distinct(data) && Room(data, begun)
    ensures Bounded(data, begun, data.Values + begun)
  {
    NewCount(data, begun);
  }

  /** When threads that create different entries only create, and all are idle
      again, every begun entry is in the table exactly once beside the old rows. */
  lemma ConcurrentCreatesAllLand(data: MountRows, file: Option<Json>, schedule: seq<Pick<Op>>, may: Rights)
    requires Distinct(data) && OneOwnerEach(may) && Disciplined(schedule, may) && OnlyCreates(schedule)
    requires Quiet(Run(MOUNTS, Init(data, file), schedule))
    requires Room(data, Begun(Init(data, file), schedule))
    ensures var begun, s := Begun(Init(data, file), schedule), Run(MOUNTS, Init(data, file), schedule);
      && Distinct(s.data) && s.data.Values == data.Values + begun && |s.data| == |data| + |begun - data.Values|
      && forall id :: id in data ==> id in s.data && s.data[id] == data[id]
  {
    var begun, s := Begun(Init(data, file), schedule), Run(MOUNTS, Init(data, file), schedule);
    NewCount(data, begun);
    InitLands(data, file, may);
    RoomIsBound(data, begun);
    RunLands(data, Init(data, file), schedule, data.Values + begun, may);
    AllLanded(data, begun, s);
    DistinctCount(s.data);
  }

  /** The ids left above the rows suffice for the new entries. */
  predicate Room(data: MountRows, begun: set<MountEntry>) { Top(data.Keys) + |begun - data.Values| <= U64 }

  lemma NewCount(data: MountRows, begun: set<MountEntry>)
    requires Distinct(data)
    ensures |data.Values + begun| == |data| + |begun - data.Values|
  {
    DistinctCount(data);
    assert data.Values + begun == data.Values + (begun - data.Values);
  }
}
