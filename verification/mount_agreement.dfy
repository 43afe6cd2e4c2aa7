/** The mount table against the kernel's mount list, event by event. */
module MountAgreement {
  import opened Wrappers
  import opened Dto
  import opened MountStore
  import opened RuleStore
  import opened MountWorld

  // ------------------------------------------------------------- the invariant

  /** Same device, same directory, same type up to ntfs mounted as ntfs3. */
  predicate Matches(e: MountEntry, l: MntLine) {
    l.fsname == e.devName && l.dir == e.mountPoint && l.fstype == KernelType(e.fsType)
  }

  ghost predicate HasLine(mtab: seq<MntLine>, e: MountEntry) {
    exists i :: 0 <= i < |mtab| && Matches(e, mtab[i])
  }

  predicate Proper(e: MountEntry) { e.devName != "" && e.mountPoint != "" }

  /** The rows are pairwise distinct and each has a matching mtab line. */
  ghost predicate Agreement(w: World) {
    && Distinct(w.rows)
    && forall id :: id in w.rows ==> Proper(w.rows[id]) && HasLine(w.mtab, w.rows[id])
  }

  /** No row holds the type "ntfs3", under which UnMount never looks. */
  ghost predicate PlainTypes(rows: MountRows) { forall id :: id in rows ==> rows[id].fsType != "ntfs3" }

  ghost predicate DistinctDirs(mtab: seq<MntLine>) {
    forall i, j :: 0 <= i < j < |mtab| ==> mtab[i].dir != mtab[j].dir
  }

  ghost predicate DistinctDevices(mtab: seq<MntLine>) {
    forall i, j :: 0 <= i < j < |mtab| ==> mtab[i].fsname != mtab[j].fsname
  }

  // ----------------------------------------------------------------- mtab facts

  function Without(mtab: seq<MntLine>, i: nat): seq<MntLine>
    requires i < |mtab|
  {
    mtab[..i] + mtab[i + 1..]
  }

  /** With distinct directories, umount2 removes the one line with that path. */
  lemma {:induction false} DetachIsExact(mtab: seq<MntLine>, i: nat)
    requires DistinctDirs(mtab) && i < |mtab|
    ensures Detach(mtab, mtab[i].dir) == Without(mtab, i)
  {
    var n := |mtab| - 1;
    if i < n {
      DetachIsExact(mtab[..n], i);
      assert Without(mtab, i) == Without(mtab[..n], i) + [mtab[n]];
    } else {
      assert Without(mtab, i) == mtab[..n];
    }
  }

  lemma WithoutKeepsDistinct(mtab: seq<MntLine>, i: nat)
    requires i < |mtab|
    ensures DistinctDirs(mtab) ==> DistinctDirs(Without(mtab, i))
    ensures DistinctDevices(mtab) ==> DistinctDevices(Without(mtab, i))
    ensures DistinctDirs(mtab) ==> LastAt(Without(mtab, i), mtab[i].dir).None?
  {
  }

  /** A row that does not match the removed line keeps its own. */
  lemma WithoutKeepsLine(mtab: seq<MntLine>, i: nat, e: MountEntry)
    requires i < |mtab| && HasLine(mtab, e) && !Matches(e, mtab[i])
    ensures HasLine(Without(mtab, i), e)
  {
    var k :| 0 <= k < |mtab| && Matches(e, mtab[k]);
    var out := Without(mtab, i);
    assert out[if k < i then k else k - 1] == mtab[k];
  }

  lemma AppendKeepsLine(mtab: seq<MntLine>, l: MntLine, e: MountEntry)
    ensures HasLine(mtab + [l], e) <==> HasLine(mtab, e) || Matches(e, l)
  {
    if HasLine(mtab, e) {
      var k :| 0 <= k < |mtab| && Matches(e, mtab[k]);
      assert (mtab + [l])[k] == mtab[k];
    }
    assert (mtab + [l])[|mtab|] == l;
  }

  // ------------------------------------------------------------------ mounting

  lemma CreatedOrThere(rows: MountRows, e: MountEntry)
    ensures forall id :: id in CreateMount(rows, e) ==>
      CreateMount(rows, e)[id] == e || (id in rows && CreateMount(rows, e)[id] == rows[id])
  {
  }

  lemma AppendAgrees(w: World, l: MntLine)
    requires Agreement(w)
    ensures Agreement(w.(mtab := w.mtab + [l]))
  {
    forall id | id in w.rows ensures HasLine(w.mtab + [l], w.rows[id]) {
      AppendKeepsLine(w.mtab, l, w.rows[id]);
    }
  }

  lemma RecordAgrees(w: World, e: MountEntry)
    requires Agreement(w) && Proper(e) && HasLine(w.mtab, e)
    ensures Agreement(w.(rows := CreateMount(w.rows, e)))
  {
    CreateKeepsDistinct(w.rows, e);
    CreatedOrThere(w.rows, e);
  }

  lemma PerformMountAgrees(w: World, dev: UsbDevice, env: MountAnswers, endpoint: string)
    requires Agreement(w)
    ensures Agreement(PerformMount(w, dev, env, endpoint))
  {
    if env.mountOk || env.readOnlyOk {
      var l := MntLine(dev.blockName, endpoint, KernelType(dev.filesystem), env.blank);
      var e := MountEntry(dev.blockName, endpoint, dev.filesystem);
      AppendAgrees(w, l);
      AppendKeepsLine(w.mtab, l, e);
      if dev.blockName != "" && endpoint != "" { RecordAgrees(w.(mtab := w.mtab + [l]), e); }
    }
  }

  lemma MountAgrees(w: World, rules: RuleRows, dev: UsbDevice, env: MountAnswers)
    requires Agreement(w)
    ensures Agreement(Mount(w, rules, dev, env).0)
  {
    var endpoint := EndpointOf(w, dev, env);
    var (made, ok) := MakeEndpoint(w, env, endpoint);
    PerformMountAgrees(made, dev, env, endpoint);
  }

  // ---------------------------------------------------------------- unmounting

  lemma LineIndex(mtab: seq<MntLine>, l: MntLine) returns (i: nat)
    requires l in mtab
    ensures i < |mtab| && mtab[i] == l
  {
    i :| 0 <= i < |mtab| && mtab[i] == l;
  }

  /** The entry UnMount looks up for a line it detached. */
  function Looked(l: MntLine): MountEntry { MountEntry(l.fsname, l.dir, TableType(l.fstype)) }

  lemma MatchIsLookup(e: MountEntry, l: MntLine)
    requires Matches(e, l)
    ensures e == Looked(l) <==> e.fsType != "ntfs3"
  {
  }

  lemma MatchedRowIsReleased(w: World, l: MntLine, id: Id)
    requires Distinct(w.rows) && id in w.rows && w.rows[id].fsType != "ntfs3" && Matches(w.rows[id], l)
    ensures Release(w, l).rows == w.rows - {id}
  {
    MatchIsLookup(w.rows[id], l);
    assert w.rows[id] in w.rows.Values;
  }

  lemma ReleaseAgrees(w: World, i: nat, detached: World)
    requires Agreement(w) && i < |w.mtab|
    requires detached == w.(mtab := Without(w.mtab, i))
    requires forall id :: id in w.rows && Matches(w.rows[id], w.mtab[i]) ==> w.rows[id].fsType != "ntfs3"
    ensures Agreement(Release(detached, w.mtab[i]))
  {
    var l := w.mtab[i];
    var after := Release(detached, l);
    assert forall id :: id in after.rows ==> id in w.rows && after.rows[id] == w.rows[id];
    forall id | id in after.rows ensures HasLine(after.mtab, after.rows[id]) {
      if Matches(w.rows[id], l) {
        MatchedRowIsReleased(detached, l, id);
      } else {
        WithoutKeepsLine(w.mtab, i, w.rows[id]);
      }
    }
  }

  /** With distinct directories no other line stands for an entry of line `i`. */
  lemma LineIsGone(mtab: seq<MntLine>, i: nat, e: MountEntry)
    requires DistinctDirs(mtab) && i < |mtab| && Matches(e, mtab[i])
    ensures !HasLine(Without(mtab, i), e)
  {
    forall k | 0 <= k < |Without(mtab, i)| ensures !Matches(e, Without(mtab, i)[k]) {
      assert Without(mtab, i)[k] == mtab[if k < i then k else k + 1];
    }
  }

  lemma ReleaseLeavesNtfs3(w: World, i: nat, detached: World, id: Id)
    requires DistinctDirs(w.mtab) && i < |w.mtab| && id in w.rows
    requires detached == w.(mtab := Without(w.mtab, i))
    requires Matches(w.rows[id], w.mtab[i]) && w.rows[id].fsType == "ntfs3"
    ensures id in Release(detached, w.mtab[i]).rows && !Agreement(Release(detached, w.mtab[i]))
  {
    MatchIsLookup(w.rows[id], w.mtab[i]);
    LineIsGone(w.mtab, i, w.rows[id]);
    var after := Release(detached, w.mtab[i]);
    assert id in after.rows && after.rows[id] == w.rows[id] && after.mtab == detached.mtab;
  }

  /** UnMount detaches a mount of the device. */
  predicate Detaches(w: World, blockName: string, env: UnMountAnswers) {
    var first := FirstOf(w.mtab, blockName);
    env.mtabOpens && env.umountOk && first.Some? && first.value.dir != ""
  }

  /** The mount of the device is recorded under the type "ntfs3". */
  predicate RecordedAsNtfs3(w: World, blockName: string) {
    var first := FirstOf(w.mtab, blockName);
    first.Some? && MountEntry(blockName, first.value.dir, "ntfs3") in w.rows.Values
  }

  lemma RecordedRow(w: World, blockName: string, i: nat, id: Id)
    requires Agreement(w) && DistinctDirs(w.mtab) && i < |w.mtab| && FirstOf(w.mtab, blockName) == Some(w.mtab[i])
    requires id in w.rows
    ensures w.rows[id] == MountEntry(blockName, w.mtab[i].dir, "ntfs3")
            <==> Matches(w.rows[id], w.mtab[i]) && w.rows[id].fsType == "ntfs3"
  {
    var k :| 0 <= k < |w.mtab| && Matches(w.rows[id], w.mtab[k]);
    if w.rows[id].mountPoint == w.mtab[i].dir { assert k == i; }
  }

  /** Whatever the system answers, unmounting keeps the agreement, except that it
      leaves a row of type "ntfs3" behind. */
  lemma UnMountAgreesIff(w: World, blockName: string, env: UnMountAnswers)
    requires Agreement(w) && DistinctDirs(w.mtab)
    ensures Agreement(UnMount(w, blockName, env).0) <==> !(Detaches(w, blockName, env) && RecordedAsNtfs3(w, blockName))
  {
    if Detaches(w, blockName, env) {
      var first := FirstOf(w.mtab, blockName);
      var i := LineIndex(w.mtab, first.value);
      DetachIsExact(w.mtab, i);
      var detached := w.(mtab := Without(w.mtab, i));
      forall id | id in w.rows
        ensures w.rows[id] == MountEntry(blockName, w.mtab[i].dir, "ntfs3")
                <==> Matches(w.rows[id], w.mtab[i]) && w.rows[id].fsType == "ntfs3"
      {
        RecordedRow(w, blockName, i, id);
      }
      if blockName == "" {
        forall id | id in w.rows ensures HasLine(detached.mtab, w.rows[id]) {
          WithoutKeepsLine(w.mtab, i, w.rows[id]);
        }
      } else if RecordedAsNtfs3(w, blockName) {
        var id :| id in w.rows && w.rows[id] == MountEntry(blockName, w.mtab[i].dir, "ntfs3");
        ReleaseLeavesNtfs3(w, i, detached, id);
      } else {
        assert forall id :: id in w.rows ==> w.rows[id] in w.rows.Values;
        ReleaseAgrees(w, i, detached);
      }
    }
  }

  lemma UnMountKeepsPlain(w: World, blockName: string, env: UnMountAnswers)
    requires PlainTypes(w.rows)
    ensures PlainTypes(UnMount(w, blockName, env).0.rows)
    ensures !RecordedAsNtfs3(w, blockName)
  {
  }

  // ----------------------------------------------------------------- reviewing

  lemma {:induction false} SweepKeepsRest(w: World, listing: seq<string>, valid: set<string>)
    ensures var after := SweepDirs(w, listing, valid);
      && after.mtab == w.mtab && after.rows == w.rows
      && (forall p :: p in after.dirs ==> p in w.dirs && after.dirs[p] == w.dirs[p])
    decreases |listing|
  {
    if listing != [] {
      var p := listing[0];
      if p in w.dirs && IsEmptyDir(w, p) && p !in valid && LastAt(w.mtab, p).None? {
        SweepKeepsRest(w.(dirs := w.dirs - {p}), listing[1..], valid);
      } else {
        SweepKeepsRest(w, listing[1..], valid);
      }
    }
  }

  lemma ReviewAgrees(w: World, env: ReviewAnswers)
    requires Agreement(w)
    ensures Agreement(ReviewMountPoints(w, env))
  {
    var valid := if env.mtabOpens then LiveDirs(w.mtab) else {};
    SweepKeepsRest(w.(rows := Live(w.rows, valid)), env.listing, valid);
  }

  // --------------------------------------------------------------- every event

  /** The event leads to an unmount. */
  predicate AsksUnMount(w: World, dev: UsbDevice) {
    && FindDevice(w.rows, dev.blockName).Some? && dev.action.ActionRemove?
    && !Unsupported(dev.filesystem) && dev.subsystem == "block"
  }

  /** Whatever the system answers, a device event keeps rows and mounts in
      agreement, if and only if it does not unmount a mount recorded as "ntfs3". */
  lemma ProcessDeviceAgreesIff(w: World, rules: RuleRows, dev: UsbDevice, env: Answers)
    requires Agreement(w) && DistinctDirs(w.mtab)
    ensures Agreement(ProcessDevice(w, rules, dev, env))
            <==> !(AsksUnMount(w, dev) && Detaches(w, dev.blockName, env.unmount) && RecordedAsNtfs3(w, dev.blockName))
  {
    MountAgrees(w, rules, dev, env.mount);
    UnMountAgreesIff(w, dev.blockName, env.unmount);
    ReviewAgrees(w, env.review);
  }

  lemma CreateKeepsPlain(rows: MountRows, e: MountEntry)
    requires PlainTypes(rows) && e.fsType != "ntfs3"
    ensures PlainTypes(CreateMount(rows, e))
  {
    CreatedOrThere(rows, e);
  }

  lemma MountKeepsPlain(w: World, rules: RuleRows, dev: UsbDevice, env: MountAnswers)
    requires PlainTypes(w.rows) && dev.filesystem != "ntfs3"
    ensures PlainTypes(Mount(w, rules, dev, env).0.rows)
  {
    CreateKeepsPlain(w.rows, MountEntry(dev.blockName, EndpointOf(w, dev, env), dev.filesystem));
  }

  lemma ReviewKeepsPlain(w: World, env: ReviewAnswers)
    requires PlainTypes(w.rows)
    ensures PlainTypes(ReviewMountPoints(w, env).rows)
  {
    var valid := if env.mtabOpens then LiveDirs(w.mtab) else {};
    SweepKeepsRest(w.(rows := Live(w.rows, valid)), env.listing, valid);
  }

  /** While no device reports the type "ntfs3", no row holds it, and every event
      keeps the agreement. */
  lemma ProcessDeviceKeepsPlain(w: World, rules: RuleRows, dev: UsbDevice, env: Answers)
    requires PlainTypes(w.rows) && dev.filesystem != "ntfs3"
    ensures PlainTypes(ProcessDevice(w, rules, dev, env).rows)
  {
    MountKeepsPlain(w, rules, dev, env.mount);
    UnMountKeepsPlain(w, dev.blockName, env.unmount);
    ReviewKeepsPlain(w, env.review);
  }
}
