/** The other direction of the agreement: every mount below the root has its row,
    so that the daemon will unmount it. */
module MountRecords {
  import opened Text
  import opened Dto
  import opened Tables
  import opened MountStore
  import opened RuleStore
  import opened MountWorld
  import opened MountAgreement
  import opened MountTheorems
  import opened MountRuns

  predicate IsRecorded(rows: MountRows, l: MntLine) { Contains(l.dir, ROOT) ==> Looked(l) in rows.Values }

  /** Every mount names a directory, and those below the root are recorded. */
  ghost predicate AllRecorded(w: World) {
    forall i :: 0 <= i < |w.mtab| ==> w.mtab[i].dir != "" && IsRecorded(w.rows, w.mtab[i])
  }

  ghost predicate MountsBelowRoot(w: World) { exists i :: 0 <= i < |w.mtab| && Contains(w.mtab[i].dir, ROOT) }

  /** Devices have names, and mounts of others directories. */
  predicate Named(e: Event) {
    match e
    case DeviceEvent(_, dev, _) => dev.blockName != ""
    case StartUpEvent(_, _, devices, _, _) => forall i :: 0 <= i < |devices| ==> devices[i].dev.blockName != ""
    case ForeignMount(line) => line.dir != ""
    case _ => true
  }

  ghost function FullQuestion(rules: RuleRows): Question {
    (w, c) => !SeenMounted(w, c) && Mounts(w, rules, c.dev.(action := ActionAdd), c.answers) && Full(w.rows)
  }

  /** A device event leads to a review. */
  predicate AsksReview(w: World, dev: UsbDevice) {
    dev.action.ActionChange? && FindDevice(w.rows, dev.blockName).Some?
  }

  /** A review cannot read mtab while something is mounted, a mount finds no id for
      its row, or others mount below the root. */
  ghost predicate Forgets(w: World, e: Event) {
    match e
    case DeviceEvent(rules, dev, answers) =>
      || (Mounts(w, rules, dev, answers) && Full(w.rows))
      || (AsksReview(w, dev) && !answers.review.mtabOpens && MountsBelowRoot(w))
    case StartUpEvent(rules, present, devices, review, unmount) =>
      || (!review.mtabOpens && MountsBelowRoot(w))
      || Along(ReviewConnectedDevices(w, present, review, unmount), rules, devices, FullQuestion(rules))
    case ReviewEvent(_, review, _) => !review.mtabOpens && MountsBelowRoot(w)
    case ForeignMount(line) => Contains(line.dir, ROOT)
    case _ => false
  }

  // ------------------------------------------------------------------- reviews

  lemma ReadableReviewKeepsRows(w: World, review: ReviewAnswers)
    requires Sane(w) && review.mtabOpens
    ensures ReviewMountPoints(w, review).rows == w.rows && ReviewMountPoints(w, review).mtab == w.mtab
  {
    var valid := LiveDirs(w.mtab);
    SweepKeepsRest(w.(rows := Live(w.rows, valid)), review.listing, valid);
    forall id | id in w.rows ensures w.rows[id].mountPoint in valid { LiveIsBelowRoot(w, id); }
    assert Live(w.rows, valid) == w.rows;
  }

  lemma UnreadableReviewEmpties(w: World, review: ReviewAnswers)
    requires !review.mtabOpens
    ensures ReviewMountPoints(w, review).rows == map[] && ReviewMountPoints(w, review).mtab == w.mtab
  {
    SweepKeepsRest(w.(rows := Live(w.rows, {})), review.listing, {});
    assert Live(w.rows, {}) == map[];
  }

  lemma ReviewRecordsIff(w: World, review: ReviewAnswers)
    requires Sane(w) && AllRecorded(w)
    ensures AllRecorded(ReviewMountPoints(w, review)) <==> review.mtabOpens || !MountsBelowRoot(w)
  {
    if review.mtabOpens { ReadableReviewKeepsRows(w, review); } else { UnreadableReviewEmpties(w, review); }
  }

  // ------------------------------------------------------------------ unmounting

  lemma OtherLookups(mtab: seq<MntLine>, i: nat, j: nat)
    requires DistinctDirs(mtab) && i < |mtab| && j < |mtab| && i != j
    ensures Looked(mtab[i]) != Looked(mtab[j])
  {
  }

  /** Releasing one line leaves the row of another. */
  lemma ReleaseKeepsRow(w: World, l: MntLine, id: Id)
    requires id in w.rows && w.rows[id] != Looked(l)
    ensures id in Release(w, l).rows && Release(w, l).rows[id] == w.rows[id]
  {
  }

  lemma ReleaseKeepsRecord(w: World, l: MntLine, other: MntLine)
    requires IsRecorded(w.rows, other) && Looked(other) != Looked(l)
    ensures IsRecorded(Release(w, l).rows, other)
  {
    if Contains(other.dir, ROOT) {
      var id :| id in w.rows && w.rows[id] == Looked(other);
      ReleaseKeepsRow(w, l, id);
      assert Release(w, l).rows[id] == Looked(other);
    }
  }

  lemma ReleaseRecords(w: World, i: nat, detached: World)
    requires Sane(w) && AllRecorded(w) && i < |w.mtab| && detached == w.(mtab := Without(w.mtab, i))
    ensures AllRecorded(Release(detached, w.mtab[i]))
  {
    var after := Release(detached, w.mtab[i]);
    assert after.mtab == detached.mtab;
    forall k | 0 <= k < |after.mtab| ensures after.mtab[k].dir != "" && IsRecorded(after.rows, after.mtab[k]) {
      var j := if k < i then k else k + 1;
      assert after.mtab[k] == w.mtab[j];
      OtherLookups(w.mtab, i, j);
      ReleaseKeepsRecord(detached, w.mtab[i], w.mtab[j]);
    }
  }

  lemma NothingToForget(w: World, blockName: string)
    requires Agreement(w) && FirstOf(w.mtab, blockName).None?
    ensures Forget(w, blockName) == w
  {
    UnmountedIsUnrecorded(w, blockName);
  }

  lemma UnMountRecords(w: World, blockName: string, env: UnMountAnswers)
    requires Sane(w) && AllRecorded(w)
    ensures AllRecorded(UnMount(w, blockName, env).0)
  {
    var first := FirstOf(w.mtab, blockName);
    if first.None? {
      NothingToForget(w, blockName);
    } else {
      var i := LineIndex(w.mtab, first.value);
      if env.mtabOpens && env.umountOk {
        DetachIsExact(w.mtab, i);
        var detached := w.(mtab := Without(w.mtab, i));
        if blockName == "" {
          assert forall k :: 0 <= k < |detached.mtab| ==> detached.mtab[k] == w.mtab[if k < i then k else k + 1];
        } else {
          ReleaseRecords(w, i, detached);
        }
      }
    }
  }

  lemma {:induction false} UnMountAbsentRecords(w: World, snapshot: seq<MountEntry>, present: set<string>,
                                                env: nat -> UnMountAnswers)
    requires Sane(w) && AllRecorded(w)
    ensures AllRecorded(UnMountAbsent(w, snapshot, present, env))
  {
    if snapshot != [] {
      var n := |snapshot| - 1;
      UnMountAbsentRecords(w, snapshot[..n], present, env);
      UnMountAbsentIsSane(w, snapshot[..n], present, env);
      UnMountRecords(UnMountAbsent(w, snapshot[..n], present, env), snapshot[n].devName, env(n));
    }
  }

  lemma ReviewDevicesRecordIff(w: World, present: set<string>, review: ReviewAnswers, env: nat -> UnMountAnswers)
    requires Sane(w) && AllRecorded(w)
    ensures AllRecorded(ReviewConnectedDevices(w, present, review, env)) <==> review.mtabOpens || !MountsBelowRoot(w)
  {
    var reviewed := ReviewMountPoints(w, review);
    ReviewRecordsIff(w, review);
    ReviewIsSane(w, review);
    if review.mtabOpens || !MountsBelowRoot(w) {
      UnMountAbsentRecords(reviewed, RowsFrom(reviewed.rows, 0), present, env);
    } else {
      UnreadableReviewEmpties(w, review);
      assert RowsFrom(reviewed.rows, 0) == [];
    }
  }

  // -------------------------------------------------------------------- mounting

  lemma CreateMountValues(rows: MountRows, e: MountEntry)
    requires e !in rows.Values
    ensures CreateMount(rows, e).Values == rows.Values + if Full(rows) then {} else {e}
  {
    var after := CreateMount(rows, e);
    assert FindEntry(rows, e).None?;
    if U64 - 1 in rows {
      CreateAtLastId(rows, e);
      if 0 !in rows { ValuesAdded(rows, 0, e); }
    } else {
      CreateIsFresh(rows, e);
      var id: Id :| id !in rows && after == rows[id := e];
      ValuesAdded(rows, id, e);
    }
  }

  lemma ValuesAdded(rows: MountRows, id: Id, e: MountEntry)
    requires id !in rows
    ensures rows[id := e].Values == rows.Values + {e}
  {
    var after := rows[id := e];
    forall x | x in rows.Values ensures x in after.Values {
      var k :| k in rows && rows[k] == x;
      assert after[k] == x;
    }
    assert after[id] == e;
  }

  /** What a successful mount does. */
  lemma MountedWorld(w: World, rules: RuleRows, dev: UsbDevice, env: Answers)
    requires Mounts(w, rules, dev, env) && dev.blockName != ""
    ensures var after, dir := ProcessDevice(w, rules, dev, env), EndpointOf(w, dev, env.mount);
      && dir != "" && Contains(dir, ROOT)
      && after.mtab == w.mtab + [MntLine(dev.blockName, dir, KernelType(dev.filesystem), env.mount.blank)]
      && after.rows == CreateMount(w.rows, MountEntry(dev.blockName, dir, dev.filesystem))
  {
    FreeEndpointIsUsable(w, dev, env.mount);
    MountReached(w, rules, dev, env.mount);
  }

  lemma FreshDirHasNoRow(w: World, e: MountEntry)
    requires Agreement(w) && LastAt(w.mtab, e.mountPoint).None?
    ensures e !in w.rows.Values
  {
    forall id | id in w.rows ensures w.rows[id] != e {
      var i :| 0 <= i < |w.mtab| && Matches(w.rows[id], w.mtab[i]);
    }
  }

  /** A mount keeps what was recorded, and is itself recorded unless no id is left. */
  lemma AppendRecordsIff(w: World, l: MntLine, e: MountEntry, after: World)
    requires Agreement(w) && LastAt(w.mtab, l.dir).None? && l.dir != "" && Contains(l.dir, ROOT)
    requires e == Looked(l) && after.mtab == w.mtab + [l] && after.rows == CreateMount(w.rows, e)
    ensures AllRecorded(after) <==> AllRecorded(w) && !Full(w.rows)
  {
    FreshDirHasNoRow(w, e);
    CreateMountValues(w.rows, e);
    assert forall i :: 0 <= i < |w.mtab| ==> after.mtab[i] == w.mtab[i];
    assert after.mtab[|w.mtab|] == l;
    forall i | 0 <= i < |w.mtab| ensures IsRecorded(after.rows, w.mtab[i]) <==> IsRecorded(w.rows, w.mtab[i]) {
      assert w.mtab[i].dir != l.dir;
      assert Looked(w.mtab[i]) != e;
    }
  }

  lemma MountRecordsIff(w: World, rules: RuleRows, dev: UsbDevice, env: Answers)
    requires Sane(w) && Mounts(w, rules, dev, env) && !MountsOver(w, rules, dev, env)
    requires dev.blockName != "" && dev.filesystem != "ntfs3"
    ensures AllRecorded(ProcessDevice(w, rules, dev, env)) <==> AllRecorded(w) && !Full(w.rows)
  {
    MountedWorld(w, rules, dev, env);
    var dir := EndpointOf(w, dev, env.mount);
    var l := MntLine(dev.blockName, dir, KernelType(dev.filesystem), env.mount.blank);
    AppendRecordsIff(w, l, MountEntry(dev.blockName, dir, dev.filesystem), ProcessDevice(w, rules, dev, env));
  }

  lemma FailedMountRecords(w: World, rules: RuleRows, dev: UsbDevice, env: Answers)
    requires dev.action.ActionAdd? && !Mounts(w, rules, dev, env)
    ensures var after := ProcessDevice(w, rules, dev, env); after.mtab == w.mtab && after.rows == w.rows
  {
  }

  lemma AddRecordsIff(w: World, rules: RuleRows, dev: UsbDevice, env: Answers)
    requires Sane(w) && dev.action.ActionAdd? && !MountsOver(w, rules, dev, env)
    requires dev.blockName != "" && dev.filesystem != "ntfs3"
    ensures AllRecorded(ProcessDevice(w, rules, dev, env))
            <==> AllRecorded(w) && !(Mounts(w, rules, dev, env) && Full(w.rows))
  {
    if Mounts(w, rules, dev, env) {
      MountRecordsIff(w, rules, dev, env);
    } else {
      FailedMountRecords(w, rules, dev, env);
    }
  }

  /** An event that is no "add" unmounts, reviews, or does nothing. */
  lemma OtherEventIs(w: World, rules: RuleRows, dev: UsbDevice, env: Answers)
    requires !dev.action.ActionAdd?
    ensures ProcessDevice(w, rules, dev, env)
            == if AsksUnMount(w, dev) then UnMount(w, dev.blockName, env.unmount).0
               else if AsksReview(w, dev) then ReviewMountPoints(w, env.review) else w
  {
  }

  lemma DeviceEventRecordsIff(w: World, rules: RuleRows, dev: UsbDevice, env: Answers)
    requires Sane(w) && AllRecorded(w) && !MountsOver(w, rules, dev, env)
    requires dev.blockName != "" && dev.filesystem != "ntfs3"
    ensures AllRecorded(ProcessDevice(w, rules, dev, env)) <==> !Forgets(w, DeviceEvent(rules, dev, env))
  {
    if dev.action.ActionAdd? {
      AddRecordsIff(w, rules, dev, env);
    } else {
      OtherEventIs(w, rules, dev, env);
      UnMountRecords(w, dev.blockName, env.unmount);
      ReviewRecordsIff(w, env.review);
    }
  }

  // ------------------------------------------------------------------ whole runs

  /** Along start-up. */
  lemma {:induction false} ApplyRecordsIff(w: World, rules: RuleRows, devices: seq<Connected>)
    requires Sane(w) && NoNtfs3(devices) && !Along(w, rules, devices, OverQuestion(rules))
    requires forall i :: 0 <= i < |devices| ==> devices[i].dev.blockName != ""
    ensures AllRecorded(ApplyMountRules(w, rules, devices))
            <==> AllRecorded(w) && !Along(w, rules, devices, FullQuestion(rules))
  {
    if devices != [] {
      var n := |devices| - 1;
      ApplyRecordsIff(w, rules, devices[..n]);
      ApplyIsSaneIff(w, rules, devices[..n]);
      var before := ApplyMountRules(w, rules, devices[..n]);
      if !SeenMounted(before, devices[n]) {
        assert !OverQuestion(rules)(before, devices[n]);
        AddRecordsIff(before, rules, devices[n].dev.(action := ActionAdd), devices[n].answers);
      }
    }
  }

  lemma StartUpRecordsIff(w: World, e: Event)
    requires Sane(w) && AllRecorded(w) && e.StartUpEvent? && Ordinary(w, e) && Named(e) && !Breaks(w, e)
    ensures AllRecorded(Step(w, e)) <==> !Forgets(w, e)
  {
    var reviewed := ReviewConnectedDevices(w, e.present, e.review, e.unmount);
    ReviewDevicesRecordIff(w, e.present, e.review, e.unmount);
    ReviewEventIsSane(w, e.present, e.review, e.unmount);
    ApplyRecordsIff(reviewed, e.rules, e.devices);
  }

  lemma ForeignMountRecordsIff(w: World, line: MntLine)
    requires Agreement(w) && AllRecorded(w) && LastAt(w.mtab, line.dir).None? && line.dir != ""
    ensures AllRecorded(w.(mtab := w.mtab + [line])) <==> !Contains(line.dir, ROOT)
  {
    FreshDirHasNoRow(w, Looked(line));
    assert forall i :: 0 <= i < |w.mtab| ==> (w.mtab + [line])[i] == w.mtab[i];
    assert (w.mtab + [line])[|w.mtab|] == line;
  }

  lemma ForeignUnMountRecords(w: World, dir: string)
    requires DistinctDirs(w.mtab) && AllRecorded(w)
    ensures AllRecorded(w.(mtab := Detach(w.mtab, dir)))
  {
    if LastAt(w.mtab, dir).Some? {
      var i := LineIndex(w.mtab, LastAt(w.mtab, dir).value);
      DetachIsExact(w.mtab, i);
      assert forall k :: 0 <= k < |Without(w.mtab, i)| ==> Without(w.mtab, i)[k] == w.mtab[if k < i then k else k + 1];
    } else {
      DetachMissing(w.mtab, dir);
    }
  }

  lemma FilesChangeRecords(w: World, dir: string, blank: bool)
    requires AllRecorded(w)
    ensures AllRecorded(w.(mtab := SetBlank(w.mtab, dir, blank)))
  {
    var out := SetBlank(w.mtab, dir, blank);
    assert forall i :: 0 <= i < |out| ==> out[i].dir == w.mtab[i].dir && Looked(out[i]) == Looked(w.mtab[i]);
  }

  /** An event keeps every mount below the root recorded if and only if it is no
      review without mtab, finds an id for its row, and others do not mount there. */
  lemma StepRecordsIff(w: World, e: Event)
    requires Sane(w) && AllRecorded(w) && Ordinary(w, e) && Named(e) && !Breaks(w, e)
    ensures AllRecorded(Step(w, e)) <==> !Forgets(w, e)
  {
    match e
    case DeviceEvent(rules, dev, answers) => DeviceEventRecordsIff(w, rules, dev, answers);
    case StartUpEvent(_, _, _, _, _) => StartUpRecordsIff(w, e);
    case ReviewEvent(present, review, unmount) => ReviewDevicesRecordIff(w, present, review, unmount);
    case ForeignMount(line) => ForeignMountRecordsIff(w, line);
    case ForeignUnMount(dir) => ForeignUnMountRecords(w, dir);
    case FilesChange(dir, blank) => FilesChangeRecords(w, dir, blank);
    case DirChange(dir, empty) =>
  }

  /** Devices have names all along. */
  ghost predicate AllNamed(events: seq<Event>) { forall i :: 0 <= i < |events| ==> Named(events[i]) }

  ghost predicate AlwaysRecorded(w: World, events: seq<Event>) {
    AllRecorded(Run(w, events)) && (events == [] || AlwaysRecorded(w, events[..|events| - 1]))
  }

  ghost predicate NeverForgets(w: World, events: seq<Event>) {
    events == [] || var front := events[..|events| - 1];
    NeverForgets(w, front) && !Forgets(Run(w, front), events[|events| - 1])
  }

  /** Over any run that stays sane, the daemon keeps a row for every mount below its
      root at every point if and only if no event forgets one. */
  lemma {:induction false} RunsStayRecordedIff(w: World, events: seq<Event>)
    requires Sane(w) && AllRecorded(w) && AllOrdinary(w, events) && AllNamed(events) && NeverBreaks(w, events)
    ensures AlwaysRecorded(w, events) <==> NeverForgets(w, events)
  {
    if events != [] {
      var n := |events| - 1;
      var before := Run(w, events[..n]);
      RunsStayRecordedIff(w, events[..n]);
      RunsStaySaneIff(w, events[..n]);
      if AlwaysRecorded(w, events[..n]) { StepRecordsIff(before, events[n]); }
    }
  }
}
