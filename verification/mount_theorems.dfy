/** What mounting and reviewing achieve. */
module MountTheorems {
  import opened Wrappers
  import opened Text
  import opened Dto
  import opened Tables
  import opened MountStore
  import opened RuleStore
  import opened Endpoint
  import opened MountWorld
  import opened MountAgreement

  // ------------------------------------------------- mount and unmount undo

  /** The mount reached mount(2). */
  ghost predicate ReachesMount(w: World, rules: RuleRows, dev: UsbDevice, env: MountAnswers) {
    var rule := FindRule(rules, Device(dev.vid, dev.pid, dev.serial));
    && rule.Some? && rules[rule.value].users != [] && rules[rule.value].groups != []
    && !(dev.devType == "disk" && dev.filesystem != "ntfs") && env.aclOk
    && MakeEndpoint(w, env, EndpointOf(w, dev, env)).1
  }

  lemma {:induction false} FirstOfAppended(mtab: seq<MntLine>, l: MntLine)
    requires FirstOf(mtab, l.fsname).None?
    ensures FirstOf(mtab + [l], l.fsname) == Some(l)
  {
    if mtab == [] {
      assert (mtab + [l])[0] == l;
    } else {
      assert mtab[0].fsname != l.fsname;
      FirstOfAppended(mtab[1..], l);
      assert (mtab + [l])[1..] == mtab[1..] + [l];
    }
  }

  lemma FreeEndpointIsUsable(w: World, dev: UsbDevice, env: MountAnswers)
    ensures var e := EndpointOf(w, dev, env);
      e != "" && Contains(e, ROOT) && (e in w.dirs ==> IsEmptyDir(w, e))
  {
    var dir := ROOT + env.owner + "/";
    var e := EndpointOf(w, dev, env);
    var k: nat :| IsFirstFree(dir + Title(dev, env), Occupied(w), e, k);
    NameKeepsDirectory(dir, Title(dev, env), k);
    assert e[0..|ROOT|] == ROOT;
    ContainsAt(e, ROOT, 0);
  }

  lemma CreateThenDelete(rows: MountRows, e: MountEntry)
    requires e !in rows.Values
    ensures FindEntry(rows, e).None?
    ensures var after := CreateMount(rows, e);
      match FindEntry(after, e)
      case None => after == rows && U64 - 1 in rows && 0 in rows
      case Some(id) => after - {id} == rows
  {
    var after := CreateMount(rows, e);
    assert FindEntry(rows, e).None?;
    if U64 - 1 in rows {
      CreateAtLastId(rows, e);
      if 0 !in rows { assert 0 in after && after[0] == e; assert e in after.Values; }
    } else {
      CreateIsFresh(rows, e);
      var id: Id :| id !in rows && after == rows[id := e];
      assert after[id] == e && e in after.Values;
    }
    assert forall id :: id in rows ==> rows[id] in rows.Values;
  }

  lemma MountReached(w: World, rules: RuleRows, dev: UsbDevice, env: MountAnswers)
    requires ReachesMount(w, rules, dev, env)
    ensures var e := EndpointOf(w, dev, env);
      Mount(w, rules, dev, env) == (PerformMount(MakeEndpoint(w, env, e).0, dev, env, e), true)
  {
  }

  /** Unmounting the latest mount of a device detaches that line. */
  lemma UnMountLatest(w: World, mtab: seq<MntLine>, l: MntLine)
    requires w.mtab == mtab + [l] && FirstOf(mtab, l.fsname).None? && l.fsname != "" && l.dir != ""
    ensures UnMount(w, l.fsname, UnMountAnswers(true, true)) == (Release(w.(mtab := mtab), l), true)
  {
    FirstOfAppended(mtab, l);
    assert Detach(mtab + [l], l.dir) == mtab;
  }

  /** No id is left for a new row. */
  predicate Full(rows: MountRows) { U64 - 1 in rows && 0 in rows }

  lemma ReleaseOfNewRow(w: World, made: World, l: MntLine, fs: string)
    requires made.rows == CreateMount(w.rows, MountEntry(l.fsname, l.dir, fs)) && made.mtab == w.mtab
    requires fs != "ntfs3" && l.fstype == KernelType(fs) && MountEntry(l.fsname, l.dir, fs) !in w.rows.Values
    requires LastAt(w.mtab, l.dir).None? ==> made.dirs == w.dirs[l.dir := true]
    ensures var after := Release(made, l);
      && after.mtab == w.mtab && after.rows == w.rows
      && (LastAt(w.mtab, l.dir).None? && !Full(w.rows) ==> after.dirs == w.dirs - {l.dir})
  {
    CreateThenDelete(w.rows, MountEntry(l.fsname, l.dir, fs));
    if LastAt(w.mtab, l.dir).None? { assert made.dirs - {l.dir} == w.dirs - {l.dir}; }
  }

  /** Mounting a device that is neither mounted nor recorded and unmounting it
      again restores the mount list and the table, ids included, and leaves no
      endpoint directory, whether the mount was read-write or read-only. */
  lemma MountThenUnMountRestores(w: World, rules: RuleRows, dev: UsbDevice, env: MountAnswers)
    requires ReachesMount(w, rules, dev, env) && (env.mountOk || env.readOnlyOk)
    requires dev.blockName != "" && dev.filesystem != "ntfs3" && FirstOf(w.mtab, dev.blockName).None?
    requires MountEntry(dev.blockName, EndpointOf(w, dev, env), dev.filesystem) !in w.rows.Values
    ensures var e := EndpointOf(w, dev, env);
      var (mounted, ok) := Mount(w, rules, dev, env);
      var (after, done) := UnMount(mounted, dev.blockName, UnMountAnswers(true, true));
      && ok && done
      && mounted.mtab == w.mtab + [MntLine(dev.blockName, e, KernelType(dev.filesystem), env.blank)]
      && after.mtab == w.mtab && after.rows == w.rows
      && (LastAt(w.mtab, e).None? && !Full(w.rows) ==> after.dirs == w.dirs - {e})
  {
    var e := EndpointOf(w, dev, env);
    FreeEndpointIsUsable(w, dev, env);
    MountReached(w, rules, dev, env);
    var l := MntLine(dev.blockName, e, KernelType(dev.filesystem), env.blank);
    var mounted := Mount(w, rules, dev, env).0;
    UnMountLatest(mounted, w.mtab, l);
    assert LastAt(w.mtab, e).None? ==> mounted.dirs == w.dirs[e := true];
    ReleaseOfNewRow(w, mounted.(mtab := w.mtab), l, dev.filesystem);
  }

  lemma UnmountedIsUnrecorded(w: World, blockName: string)
    requires Agreement(w) && FirstOf(w.mtab, blockName).None?
    ensures forall id :: id in w.rows ==> w.rows[id].devName != blockName
  {
    forall id | id in w.rows ensures w.rows[id].devName != blockName {
      var i :| 0 <= i < |w.mtab| && Matches(w.rows[id], w.mtab[i]);
    }
  }

  lemma Ntfs3Stays(w: World, made: World, l: MntLine)
    requires made.rows == CreateMount(w.rows, MountEntry(l.fsname, l.dir, "ntfs3")) && !Full(w.rows)
    requires l.fstype == "ntfs3" && forall id :: id in w.rows ==> w.rows[id].devName != l.fsname
    requires forall i :: 0 <= i < |made.mtab| ==> made.mtab[i].fsname != l.fsname
    ensures Release(made, l).rows == made.rows != w.rows && !Agreement(Release(made, l))
  {
    var e := MountEntry(l.fsname, l.dir, "ntfs3");
    assert e !in w.rows.Values && Looked(l) !in w.rows.Values;
    CreateThenDelete(w.rows, e);
    var id := FindEntry(made.rows, e).value;
    CreatedOrThere(w.rows, e);
    assert Looked(l) !in made.rows.Values;
    assert !HasLine(made.mtab, made.rows[id]);
  }

  /** Mounting an unmounted device and unmounting it again restores the table,
      and keeps the agreement, if and only if the device does not report the type
      "ntfs3" itself. A full table never held the row. */
  lemma MountThenUnMountIff(w: World, rules: RuleRows, dev: UsbDevice, env: MountAnswers)
    requires Agreement(w) && ReachesMount(w, rules, dev, env) && (env.mountOk || env.readOnlyOk)
    requires dev.blockName != "" && FirstOf(w.mtab, dev.blockName).None? && !Full(w.rows)
    ensures var mounted := Mount(w, rules, dev, env).0;
      var after := UnMount(mounted, dev.blockName, UnMountAnswers(true, true)).0;
      && Agreement(mounted) && after.mtab == w.mtab
      && (after.rows == w.rows <==> dev.filesystem != "ntfs3")
      && (Agreement(after) <==> dev.filesystem != "ntfs3")
  {
    UnmountedIsUnrecorded(w, dev.blockName);
    var e := EndpointOf(w, dev, env);
    assert forall fs :: MountEntry(dev.blockName, e, fs) !in w.rows.Values;
    MountAgrees(w, rules, dev, env);
    if dev.filesystem != "ntfs3" {
      MountThenUnMountRestores(w, rules, dev, env);
    } else {
      FreeEndpointIsUsable(w, dev, env);
      MountReached(w, rules, dev, env);
      var l := MntLine(dev.blockName, e, "ntfs3", env.blank);
      var mounted := Mount(w, rules, dev, env).0;
      UnMountLatest(mounted, w.mtab, l);
      Ntfs3Stays(w, mounted.(mtab := w.mtab), l);
    }
  }

  /** When both mount attempts fail nothing is recorded and no endpoint stays. */
  lemma FailedMountLeavesNothing(w: World, rules: RuleRows, dev: UsbDevice, env: MountAnswers)
    requires ReachesMount(w, rules, dev, env) && !env.mountOk && !env.readOnlyOk
    ensures var e := EndpointOf(w, dev, env);
      var after := Mount(w, rules, dev, env).0;
      && after.mtab == w.mtab && after.rows == w.rows
      && (LastAt(w.mtab, e).None? ==> after.dirs == w.dirs - {e})
  {
    var e := EndpointOf(w, dev, env);
    FreeEndpointIsUsable(w, dev, env);
    var made := MakeEndpoint(w, env, e).0;
    if LastAt(w.mtab, e).None? {
      assert made.dirs - {e} == w.dirs - {e};
    }
  }

  // ------------------------------------------------------ reviewing directories

  /** From any state and with any answers, the sweep removes only directories
      that are empty and not mount points. */
  lemma {:induction false} SweepIsSafe(w: World, listing: seq<string>, valid: set<string>, p: string)
    requires p in w.dirs && p !in SweepDirs(w, listing, valid).dirs
    ensures w.dirs[p] && LastAt(w.mtab, p).None?
    decreases |listing|
  {
    var q := listing[0];
    if q in w.dirs && IsEmptyDir(w, q) && q !in valid {
      if p != q { SweepIsSafe(w.(dirs := w.dirs - {q}), listing[1..], valid, p); }
    } else {
      SweepIsSafe(w, listing[1..], valid, p);
    }
  }

  /** Every mount point among the directories is in the valid set. */
  ghost predicate MountsAreValid(w: World, valid: set<string>) {
    forall p :: p in w.dirs && LastAt(w.mtab, p).Some? ==> p in valid
  }

  /** The directories a complete sweep leaves. */
  function Swept(w: World, listed: set<string>, valid: set<string>): map<string, bool> {
    map p | p in w.dirs && !(p in listed && IsEmptyDir(w, p) && p !in valid) :: w.dirs[p]
  }

  lemma {:induction false} SweepIsFilter(w: World, listing: seq<string>, valid: set<string>)
    requires MountsAreValid(w, valid)
    ensures SweepDirs(w, listing, valid).dirs == Swept(w, (set p | p in listing), valid)
    decreases |listing|
  {
    if listing != [] {
      var p := listing[0];
      var rest := set q | q in listing[1..];
      assert (set q | q in listing) == {p} + rest;
      if p in w.dirs && IsEmptyDir(w, p) && p !in valid {
        var next := w.(dirs := w.dirs - {p});
        SweepIsFilter(next, listing[1..], valid);
        assert forall q :: q in next.dirs ==> (IsEmptyDir(next, q) <==> IsEmptyDir(w, q));
        assert Swept(next, rest, valid) == Swept(w, {p} + rest, valid);
      } else {
        SweepIsFilter(w, listing[1..], valid);
        assert Swept(w, rest, valid) == Swept(w, {p} + rest, valid);
      }
    }
  }

  ghost predicate DirsBelowRoot(w: World) { forall p :: p in w.dirs ==> Contains(p, ROOT) }

  lemma MountedIsLive(w: World)
    requires DirsBelowRoot(w)
    ensures MountsAreValid(w, LiveDirs(w.mtab))
  {
    forall p | p in w.dirs && LastAt(w.mtab, p).Some? ensures p in LiveDirs(w.mtab) {
      var l := LastAt(w.mtab, p).value;
      var i := LineIndex(w.mtab, l);
      assert Contains(w.mtab[i].dir, ROOT);
    }
  }

  /** From any state, a review keeps exactly the rows whose directory is a live
      mount below the root, under their ids, removes exactly the listed empty
      directories without a mount, and a second review changes nothing. */
  lemma ReviewIsExact(w: World, env: ReviewAnswers)
    requires env.mtabOpens && DirsBelowRoot(w)
    ensures var after := ReviewMountPoints(w, env);
      && after.mtab == w.mtab
      && (forall id :: id in after.rows <==> id in w.rows && w.rows[id].mountPoint in LiveDirs(w.mtab))
      && (forall id :: id in after.rows ==> after.rows[id] == w.rows[id])
      && (forall p :: p in after.dirs <==> p in w.dirs && !(p in env.listing && w.dirs[p] && LastAt(w.mtab, p).None?))
      && (forall p :: p in after.dirs ==> after.dirs[p] == w.dirs[p])
      && ReviewMountPoints(after, env) == after
  {
    var valid := LiveDirs(w.mtab);
    var lived := w.(rows := Live(w.rows, valid));
    var after := ReviewMountPoints(w, env);
    MountedIsLive(lived);
    SweepKeepsRest(lived, env.listing, valid);
    SweepIsFilter(lived, env.listing, valid);
    forall p | p in w.dirs ensures LastAt(w.mtab, p).None? ==> p !in valid {
    }
    var again := after.(rows := Live(after.rows, valid));
    assert again.rows == after.rows;
    MountedIsLive(after);
    SweepKeepsRest(after, env.listing, valid);
    SweepIsFilter(after, env.listing, valid);
    assert Swept(after, (set p | p in env.listing), valid) == after.dirs;
  }

  // ---------------------------------------------------------- vanished devices

  lemma {:induction false} SnapshotHasRow(rows: MountRows, lo: nat, e: MountEntry)
    ensures e in RowsFrom(rows, lo) <==> exists id :: id in rows && lo <= id && rows[id] == e
    decreases U64 - lo
  {
    match LeastFrom(rows.Keys, lo)
    case None =>
    case Some(k) => SnapshotHasRow(rows, After(k), e);
  }

  /** With one mtab line per device there is one row per device. */
  lemma OneRowPerDevice(w: World, i: Id, j: Id)
    requires Agreement(w) && PlainTypes(w.rows) && DistinctDevices(w.mtab)
    requires i in w.rows && j in w.rows && w.rows[i].devName == w.rows[j].devName
    ensures i == j
  {
    var a :| 0 <= a < |w.mtab| && Matches(w.rows[i], w.mtab[a]);
    var b :| 0 <= b < |w.mtab| && Matches(w.rows[j], w.mtab[b]);
    assert a == b;
    MatchIsLookup(w.rows[i], w.mtab[a]);
    MatchIsLookup(w.rows[j], w.mtab[b]);
  }

  ghost predicate Tidy(w: World) {
    Agreement(w) && PlainTypes(w.rows) && DistinctDirs(w.mtab) && DistinctDevices(w.mtab)
  }

  lemma {:induction false} FirstOfUnique(mtab: seq<MntLine>, i: nat)
    requires DistinctDevices(mtab) && i < |mtab|
    ensures FirstOf(mtab, mtab[i].fsname) == Some(mtab[i])
  {
    var l := FirstOf(mtab, mtab[i].fsname).value;
    var k := LineIndex(mtab, l);
  }

  lemma UnMountOfLine(w: World, i: nat)
    requires DistinctDirs(w.mtab) && DistinctDevices(w.mtab) && i < |w.mtab| && w.mtab[i].dir != ""
        && w.mtab[i].fsname != ""
    ensures UnMount(w, w.mtab[i].fsname, UnMountAnswers(true, true)).0
            == Release(w.(mtab := Without(w.mtab, i)), w.mtab[i])
  {
    FirstOfUnique(w.mtab, i);
    DetachIsExact(w.mtab, i);
  }

  /** Unmounting a recorded device removes its row and its line and nothing
      else. */
  lemma UnMountRecorded(w: World, id: Id)
    requires Tidy(w) && id in w.rows
    ensures var after := UnMount(w, w.rows[id].devName, UnMountAnswers(true, true)).0;
      Tidy(after) && after.rows == w.rows - {id}
  {
    var e := w.rows[id];
    var i :| 0 <= i < |w.mtab| && Matches(e, w.mtab[i]);
    UnMountOfLine(w, i);
    WithoutKeepsDistinct(w.mtab, i);
    ReleaseAgrees(w, i, w.(mtab := Without(w.mtab, i)));
    MatchedRowIsReleased(w.(mtab := Without(w.mtab, i)), w.mtab[i], id);
  }

  predicate Succeeds(env: UnMountAnswers) { env.mtabOpens && env.umountOk }

  /** The entries whose unmount the system lets through. */
  function Released(snapshot: seq<MountEntry>, env: nat -> UnMountAnswers): set<MountEntry> {
    set i | 0 <= i < |snapshot| && Succeeds(env(i)) :: snapshot[i]
  }

  lemma ReleasedStep(snapshot: seq<MountEntry>, env: nat -> UnMountAnswers)
    requires snapshot != []
    ensures var n := |snapshot| - 1;
      Released(snapshot, env) == Released(snapshot[..n], env) + if Succeeds(env(n)) then {snapshot[n]} else {}
  {
    var n := |snapshot| - 1;
    forall e | e in Released(snapshot[..n], env) ensures e in Released(snapshot, env) {
      var i :| 0 <= i < n && Succeeds(env(i)) && snapshot[..n][i] == e;
      assert snapshot[i] == e;
    }
    forall e | e in Released(snapshot, env)
      ensures e in Released(snapshot[..n], env) || (Succeeds(env(n)) && e == snapshot[n])
    {
      var i :| 0 <= i <= n && Succeeds(env(i)) && snapshot[i] == e;
      if i < n { assert snapshot[..n][i] == e; }
    }
  }

  /** The table lacks exactly the rows of absent devices in `gone`. */
  ghost predicate Shrunk(rows: MountRows, gone: set<MountEntry>, present: set<string>, after: MountRows) {
    forall id :: (id in after <==> id in rows && (rows[id].devName in present || rows[id] !in gone))
      && (id in after ==> after[id] == rows[id])
  }

  lemma ShrunkStep(rows: MountRows, gone: set<MountEntry>, present: set<string>, before: MountRows, id: Id)
    requires Distinct(rows) && Shrunk(rows, gone, present, before) && id in rows && rows[id] !in gone
    ensures id in before && before[id] == rows[id]
    ensures Shrunk(rows, gone + {rows[id]}, present, if rows[id].devName in present then before else before - {id})
  {
  }

  /** A recorded device is mounted, so an unmount the system refuses changes
      nothing. */
  lemma RefusedUnMount(w: World, id: Id, env: UnMountAnswers)
    requires Tidy(w) && id in w.rows && !Succeeds(env)
    ensures UnMount(w, w.rows[id].devName, env).0 == w
  {
    var i :| 0 <= i < |w.mtab| && Matches(w.rows[id], w.mtab[i]);
    FirstOfUnique(w.mtab, i);
  }

  /** The snapshot stays good while the table shrinks: after its first part, the
      table lacks exactly the absent devices met so far whose unmount went
      through. */
  lemma {:induction false} UnMountAbsentIsExact(w: World, snapshot: seq<MountEntry>, present: set<string>,
                                                env: nat -> UnMountAnswers)
    requires Tidy(w)
    requires forall i :: 0 <= i < |snapshot| ==> snapshot[i] in w.rows.Values
    requires forall i, j :: 0 <= i < j < |snapshot| ==> snapshot[i] != snapshot[j]
    ensures var after := UnMountAbsent(w, snapshot, present, env);
      Tidy(after) && Shrunk(w.rows, Released(snapshot, env), present, after.rows)
  {
    if snapshot != [] {
      var n := |snapshot| - 1;
      var front, e := snapshot[..n], snapshot[n];
      UnMountAbsentIsExact(w, front, present, env);
      var before := UnMountAbsent(w, front, present, env);
      var id :| id in w.rows && w.rows[id] == e;
      ReleasedStep(snapshot, env);
      assert e !in Released(front, env);
      ShrunkStep(w.rows, Released(front, env), present, before.rows, id);
      assert e.devName != "";
      if e.devName !in present {
        if Succeeds(env(n)) { UnMountRecorded(before, id); } else { RefusedUnMount(before, id, env(n)); }
      }
    }
  }

  lemma {:induction false} SnapshotIsDistinct(rows: MountRows, lo: nat)
    requires Distinct(rows)
    ensures forall i, j :: 0 <= i < j < |RowsFrom(rows, lo)| ==> RowsFrom(rows, lo)[i] != RowsFrom(rows, lo)[j]
    decreases U64 - lo
  {
    match LeastFrom(rows.Keys, lo)
    case None =>
    case Some(k) =>
      SnapshotIsDistinct(rows, After(k));
      SnapshotHasRow(rows, After(k), rows[k]);
      assert rows[k] !in RowsFrom(rows, After(k));
  }

  lemma LiveIsBelowRoot(w: World, id: Id)
    requires Agreement(w) && id in w.rows
    ensures w.rows[id].mountPoint in LiveDirs(w.mtab) <==> Contains(w.rows[id].mountPoint, ROOT)
  {
    var i :| 0 <= i < |w.mtab| && Matches(w.rows[id], w.mtab[i]);
  }

  lemma ReviewedRows(w: World, review: ReviewAnswers)
    requires Tidy(w)
    ensures var reviewed := ReviewMountPoints(w, review);
      && Tidy(reviewed) && reviewed.mtab == w.mtab
      && (forall id ::
            id in reviewed.rows <==> id in w.rows && review.mtabOpens && Contains(w.rows[id].mountPoint, ROOT))
      && (forall id :: id in reviewed.rows ==> reviewed.rows[id] == w.rows[id])
  {
    ReviewAgrees(w, review);
    ReviewKeepsPlain(w, review);
    var valid := if review.mtabOpens then LiveDirs(w.mtab) else {};
    SweepKeepsRest(w.(rows := Live(w.rows, valid)), review.listing, valid);
    forall id | id in w.rows
      ensures w.rows[id].mountPoint in LiveDirs(w.mtab) <==> Contains(w.rows[id].mountPoint, ROOT)
    {
      LiveIsBelowRoot(w, id);
    }
  }

  lemma SnapshotIsGood(rows: MountRows)
    requires Distinct(rows)
    ensures var snapshot := RowsFrom(rows, 0);
      && (forall i :: 0 <= i < |snapshot| ==> snapshot[i] in rows.Values)
      && (forall i, j :: 0 <= i < j < |snapshot| ==> snapshot[i] != snapshot[j])
      && (forall id :: id in rows ==> rows[id] in snapshot)
  {
    var snapshot := RowsFrom(rows, 0);
    forall i | 0 <= i < |snapshot| ensures snapshot[i] in rows.Values {
      SnapshotHasRow(rows, 0, snapshot[i]);
    }
    forall id | id in rows ensures rows[id] in snapshot {
      SnapshotHasRow(rows, 0, rows[id]);
    }
    SnapshotIsDistinct(rows, 0);
  }

  /** The entries a review takes out of the mounts: those it finds in its snapshot
      and whose unmount goes through. */
  function TakenOut(w: World, review: ReviewAnswers, env: nat -> UnMountAnswers): set<MountEntry> {
    Released(RowsFrom(ReviewMountPoints(w, review).rows, 0), env)
  }

  /** Whatever the system answers, a review of the connected devices keeps exactly
      the rows mounted below the root whose device is present or could not be
      unmounted, unchanged and each with its live mount; an unreadable mtab
      empties the table. */
  lemma ReviewOfDevices(w: World, present: set<string>, review: ReviewAnswers, env: nat -> UnMountAnswers)
    requires Tidy(w)
    ensures var after := ReviewConnectedDevices(w, present, review, env);
      && Tidy(after)
      && (forall id :: id in after.rows <==>
            && id in w.rows && review.mtabOpens && Contains(w.rows[id].mountPoint, ROOT)
            && (w.rows[id].devName in present || w.rows[id] !in TakenOut(w, review, env)))
      && (forall id :: id in after.rows ==> after.rows[id] == w.rows[id] && HasLine(after.mtab, w.rows[id]))
  {
    var reviewed := ReviewMountPoints(w, review);
    ReviewedRows(w, review);
    SnapshotIsGood(reviewed.rows);
    UnMountAbsentIsExact(reviewed, RowsFrom(reviewed.rows, 0), present, env);
  }

  /** If every unmount succeeds, exactly the rows of present devices remain. */
  lemma ReviewOfVanishedDevices(w: World, present: set<string>, review: ReviewAnswers, env: nat -> UnMountAnswers)
    requires Tidy(w) && review.mtabOpens && forall i: nat :: Succeeds(env(i))
    ensures var after := ReviewConnectedDevices(w, present, review, env);
      && Tidy(after)
      && (forall id :: id in after.rows <==>
            id in w.rows && w.rows[id].devName in present && Contains(w.rows[id].mountPoint, ROOT))
      && (forall id :: id in after.rows ==> after.rows[id] == w.rows[id] && HasLine(after.mtab, w.rows[id]))
  {
    var reviewed := ReviewMountPoints(w, review);
    var snapshot := RowsFrom(reviewed.rows, 0);
    ReviewedRows(w, review);
    SnapshotIsGood(reviewed.rows);
    ReviewOfDevices(w, present, review, env);
    forall id | id in reviewed.rows ensures w.rows[id] in TakenOut(w, review, env) {
      var i :| 0 <= i < |snapshot| && snapshot[i] == reviewed.rows[id];
      assert Succeeds(env(i));
    }
  }
}
