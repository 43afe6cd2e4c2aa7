/** Whole runs of the monitor: any sequence of device events, reviews and mounts
    made by others, with any answers of the system. Each event is one step here;
    MountOverlap looks into a review that runs beside a device event. */
module MountRuns {
  import opened Wrappers
  import opened Text
  import opened Dto
  import opened Tables
  import opened MountStore
  import opened RuleStore
  import opened Endpoint
  import opened MountWorld
  import opened MountAgreement
  import opened MountTheorems

  /** What happens to the daemon. Others mount and unmount away from its root, and
      users fill and clear file systems and directories. */
  datatype Event =
    | DeviceEvent(rules: RuleRows, dev: UsbDevice, answers: Answers)
    | StartUpEvent(rules: RuleRows, present: set<string>, devices: seq<Connected>, review: ReviewAnswers,
                   unmount: nat -> UnMountAnswers)
    | ReviewEvent(present: set<string>, review: ReviewAnswers, unmount: nat -> UnMountAnswers)
    | ForeignMount(line: MntLine)
    | ForeignUnMount(dir: string)
    | FilesChange(dir: string, blank: bool)
    | DirChange(dir: string, empty: bool)

  /** The file systems mounted at a path become blank, or cease to be. */
  function SetBlank(mtab: seq<MntLine>, dir: string, blank: bool): seq<MntLine> {
    seq(|mtab|, i requires 0 <= i < |mtab| => if mtab[i].dir == dir then mtab[i].(blank := blank) else mtab[i])
  }

  function SetEmpty(dirs: map<string, bool>, dir: string, empty: bool): map<string, bool> {
    if dir in dirs then dirs[dir := empty] else dirs
  }

  ghost function Step(w: World, e: Event): World {
    match e
    case DeviceEvent(rules, dev, answers) => ProcessDevice(w, rules, dev, answers)
    case StartUpEvent(rules, present, devices, review, unmount) => StartUp(w, rules, present, devices, review, unmount)
    case ReviewEvent(present, review, unmount) => ReviewConnectedDevices(w, present, review, unmount)
    case ForeignMount(line) => w.(mtab := w.mtab + [line])
    case ForeignUnMount(dir) => w.(mtab := Detach(w.mtab, dir))
    case FilesChange(dir, blank) => w.(mtab := SetBlank(w.mtab, dir, blank))
    case DirChange(dir, empty) => w.(dirs := SetEmpty(w.dirs, dir, empty))
  }

  /** No device reports the type "ntfs3", and others mount on directories that
      exist. */
  predicate Ordinary(w: World, e: Event) {
    match e
    case DeviceEvent(_, dev, _) => dev.filesystem != "ntfs3"
    case StartUpEvent(_, _, devices, _, _) => NoNtfs3(devices)
    case ForeignMount(line) => Contains(line.dir, ROOT) ==> line.dir in w.dirs
    case _ => true
  }

  predicate NoNtfs3(devices: seq<Connected>) {
    forall i :: 0 <= i < |devices| ==> devices[i].dev.filesystem != "ntfs3"
  }

  /** The event ends in a successful mount(2). */
  ghost predicate Mounts(w: World, rules: RuleRows, dev: UsbDevice, env: Answers) {
    && FindRule(rules, Device(dev.vid, dev.pid, dev.serial)).Some? && dev.action.ActionAdd?
    && !Unsupported(dev.filesystem) && dev.subsystem == "block"
    && ReachesMount(w, rules, dev, env.mount) && (env.mount.mountOk || env.mount.readOnlyOk)
  }

  /** ... on a directory that is a mount point already. */
  ghost predicate MountsOver(w: World, rules: RuleRows, dev: UsbDevice, env: Answers) {
    Mounts(w, rules, dev, env) && LastAt(w.mtab, EndpointOf(w, dev, env.mount)).Some?
  }

  ghost predicate OneMountsOver(w: World, rules: RuleRows, c: Connected) {
    !SeenMounted(w, c) && MountsOver(w, rules, c.dev.(action := ActionAdd), c.answers)
  }

  type Question = (World, Connected) -> bool

  /** Start-up comes to a device for which the answer is yes. */
  ghost predicate Along(w: World, rules: RuleRows, devices: seq<Connected>, q: Question) {
    devices != [] && var front := devices[..|devices| - 1];
    Along(w, rules, front, q) || q(ApplyMountRules(w, rules, front), devices[|devices| - 1])
  }

  ghost function OverQuestion(rules: RuleRows): Question { (w, c) => OneMountsOver(w, rules, c) }

  ghost predicate RecordedAt(w: World, dir: string) {
    exists id :: id in w.rows && w.rows[id].mountPoint == dir
  }

  /** The event mounts over a mount point, or others unmount what is recorded. */
  ghost predicate Breaks(w: World, e: Event) {
    match e
    case DeviceEvent(rules, dev, answers) => MountsOver(w, rules, dev, answers)
    case StartUpEvent(rules, present, devices, review, unmount) =>
      Along(ReviewConnectedDevices(w, present, review, unmount), rules, devices, OverQuestion(rules))
    case ForeignMount(line) => LastAt(w.mtab, line.dir).Some?
    case ForeignUnMount(dir) => RecordedAt(w, dir)
    case _ => false
  }

  /** Mounts below the root stand on existing directories. */
  ghost predicate MountsStand(w: World) {
    forall i :: 0 <= i < |w.mtab| && Contains(w.mtab[i].dir, ROOT) ==> w.mtab[i].dir in w.dirs
  }

  ghost predicate RowsBelowRoot(w: World) {
    forall id :: id in w.rows ==> Contains(w.rows[id].mountPoint, ROOT)
  }

  ghost predicate Sane(w: World) {
    Agreement(w) && PlainTypes(w.rows) && DistinctDirs(w.mtab) && MountsStand(w) && RowsBelowRoot(w)
  }

  // ------------------------------------------------------------- shared endpoints

  /** A successful mount keeps the mount directories distinct exactly when its
      endpoint is not a mount point yet, and a mount point is only chosen when the
      file system on it is blank. */
  lemma SharedEndpoint(w: World, rules: RuleRows, dev: UsbDevice, env: MountAnswers)
    requires ReachesMount(w, rules, dev, env) && (env.mountOk || env.readOnlyOk) && DistinctDirs(w.mtab)
    ensures var there := LastAt(w.mtab, EndpointOf(w, dev, env));
      && (DistinctDirs(Mount(w, rules, dev, env).0.mtab) <==> there.None?)
      && (there.Some? && EndpointOf(w, dev, env) in w.dirs ==> there.value.blank)
  {
    MountReached(w, rules, dev, env);
    FreeEndpointIsUsable(w, dev, env);
    var e := EndpointOf(w, dev, env);
    var after := Mount(w, rules, dev, env).0.mtab;
    assert after == w.mtab + [after[|w.mtab|]] && after[|w.mtab|].dir == e;
    if LastAt(w.mtab, e).Some? {
      var i := LineIndex(w.mtab, LastAt(w.mtab, e).value);
      assert after[i].dir == after[|w.mtab|].dir;
    }
  }

  // ------------------------------------------------------------- every event

  lemma DetachStands(w: World, i: nat, detached: World)
    requires Sane(w) && i < |w.mtab| && detached == w.(mtab := Without(w.mtab, i))
    ensures DistinctDirs(detached.mtab) && MountsStand(detached) && LastAt(detached.mtab, w.mtab[i].dir).None?
  {
    WithoutKeepsDistinct(w.mtab, i);
    var out := detached.mtab;
    forall k | 0 <= k < |out| && Contains(out[k].dir, ROOT) ensures out[k].dir in w.dirs {
      assert out[k] == w.mtab[if k < i then k else k + 1];
    }
  }

  lemma RemoveDirStands(w: World, p: string)
    requires MountsStand(w)
    ensures MountsStand(RemoveDir(w, p))
  {
  }

  lemma ReleaseStands(w: World, l: MntLine)
    requires MountsStand(w) && RowsBelowRoot(w)
    ensures MountsStand(Release(w, l)) && RowsBelowRoot(Release(w, l)) && Release(w, l).mtab == w.mtab
  {
    RemoveDirStands(w, l.dir);
  }

  lemma UnMountIsSane(w: World, blockName: string, env: UnMountAnswers)
    requires Sane(w)
    ensures Sane(UnMount(w, blockName, env).0)
  {
    UnMountAgreesIff(w, blockName, env);
    UnMountKeepsPlain(w, blockName, env);
    var first := FirstOf(w.mtab, blockName);
    if first.Some? && first.value.dir != "" && env.mtabOpens && env.umountOk {
      var i := LineIndex(w.mtab, first.value);
      DetachIsExact(w.mtab, i);
      var detached := w.(mtab := Without(w.mtab, i));
      DetachStands(w, i, detached);
      ReleaseStands(detached, first.value);
      assert UnMount(w, blockName, env).0 == if blockName == "" then detached else Release(detached, first.value);
    } else {
      assert UnMount(w, blockName, env).0.mtab == w.mtab;
    }
  }

  /** In a sane state a mount point is only chosen again when the file system on it
      has become blank. */
  lemma MountsOverBlank(w: World, dev: UsbDevice, env: MountAnswers)
    requires Sane(w) && LastAt(w.mtab, EndpointOf(w, dev, env)).Some?
    ensures LastAt(w.mtab, EndpointOf(w, dev, env)).value.blank
  {
    FreeEndpointIsUsable(w, dev, env);
    var i := LineIndex(w.mtab, LastAt(w.mtab, EndpointOf(w, dev, env)).value);
  }

  lemma MountIsSane(w: World, rules: RuleRows, dev: UsbDevice, env: MountAnswers)
    requires Sane(w) && dev.filesystem != "ntfs3"
    requires ReachesMount(w, rules, dev, env) && (env.mountOk || env.readOnlyOk) ==>
        LastAt(w.mtab, EndpointOf(w, dev, env)).None?
    ensures Sane(Mount(w, rules, dev, env).0)
  {
    MountAgrees(w, rules, dev, env);
    MountKeepsPlain(w, rules, dev, env);
    var e := EndpointOf(w, dev, env);
    FreeEndpointIsUsable(w, dev, env);
    var (made, ok) := MakeEndpoint(w, env, e);
    assert Sane(made);
    if ReachesMount(w, rules, dev, env) { PerformMountIsSane(made, dev, env, e); }
  }

  lemma AppendedMountStands(w: World, l: MntLine)
    requires DistinctDirs(w.mtab) && MountsStand(w) && LastAt(w.mtab, l.dir).None? && l.dir in w.dirs
    ensures var after := w.(mtab := w.mtab + [l]); DistinctDirs(after.mtab) && MountsStand(after)
  {
  }

  lemma CreatedBelowRoot(w: World, e: MountEntry)
    requires RowsBelowRoot(w) && Contains(e.mountPoint, ROOT)
    ensures RowsBelowRoot(w.(rows := CreateMount(w.rows, e)))
  {
    var after := CreateMount(w.rows, e);
    assert forall id :: id in after ==> (id in w.rows && after[id] == w.rows[id]) || after[id] == e;
  }

  /** Recording an appended mount. */
  lemma RecordIsSane(w: World, l: MntLine, e: MountEntry)
    requires Sane(w) && LastAt(w.mtab, l.dir).None? && Contains(l.dir, ROOT) && l.dir in w.dirs
    requires e.mountPoint == l.dir && e.fsType != "ntfs3"
    ensures var after := w.(mtab := w.mtab + [l], rows := CreateMount(w.rows, e));
      DistinctDirs(after.mtab) && MountsStand(after) && RowsBelowRoot(after) && PlainTypes(after.rows)
  {
    AppendedMountStands(w, l);
    CreatedBelowRoot(w, e);
    CreateKeepsPlain(w.rows, e);
  }

  lemma PerformMountIsSane(w: World, dev: UsbDevice, env: MountAnswers, e: string)
    requires Sane(w) && dev.filesystem != "ntfs3" && Contains(e, ROOT) && e in w.dirs
    requires env.mountOk || env.readOnlyOk ==> LastAt(w.mtab, e).None?
    ensures Sane(PerformMount(w, dev, env, e))
  {
    PerformMountAgrees(w, dev, env, e);
    if env.mountOk || env.readOnlyOk {
      var l := MntLine(dev.blockName, e, KernelType(dev.filesystem), env.blank);
      AppendedMountStands(w, l);
      RecordIsSane(w, l, MountEntry(dev.blockName, e, dev.filesystem));
    } else {
      RemoveDirStands(w, e);
    }
  }

  lemma {:induction false} SweepStands(w: World, listing: seq<string>, valid: set<string>)
    requires MountsStand(w)
    ensures MountsStand(SweepDirs(w, listing, valid))
    decreases |listing|
  {
    if listing != [] {
      var p := listing[0];
      if p in w.dirs && IsEmptyDir(w, p) && p !in valid && LastAt(w.mtab, p).None? {
        SweepStands(w.(dirs := w.dirs - {p}), listing[1..], valid);
      } else {
        SweepStands(w, listing[1..], valid);
      }
    }
  }

  lemma ReviewIsSane(w: World, env: ReviewAnswers)
    requires Sane(w)
    ensures Sane(ReviewMountPoints(w, env))
  {
    var valid := if env.mtabOpens then LiveDirs(w.mtab) else {};
    var lived := w.(rows := Live(w.rows, valid));
    ReviewAgrees(w, env);
    ReviewKeepsPlain(w, env);
    SweepKeepsRest(lived, env.listing, valid);
    SweepStands(lived, env.listing, valid);
  }

  lemma {:induction false} UnMountAbsentIsSane(w: World, snapshot: seq<MountEntry>, present: set<string>,
                                               env: nat -> UnMountAnswers)
    requires Sane(w)
    ensures Sane(UnMountAbsent(w, snapshot, present, env))
  {
    if snapshot != [] {
      var front, e := snapshot[..|snapshot| - 1], snapshot[|snapshot| - 1];
      UnMountAbsentIsSane(w, front, present, env);
      UnMountIsSane(UnMountAbsent(w, front, present, env), e.devName, env(|snapshot| - 1));
    }
  }

  lemma ForeignMountIsSaneIff(w: World, line: MntLine)
    requires Sane(w) && (Contains(line.dir, ROOT) ==> line.dir in w.dirs)
    ensures Sane(w.(mtab := w.mtab + [line])) <==> LastAt(w.mtab, line.dir).None?
  {
    var out := w.mtab + [line];
    forall id | id in w.rows ensures HasLine(out, w.rows[id]) { AppendKeepsLine(w.mtab, line, w.rows[id]); }
    if LastAt(w.mtab, line.dir).Some? {
      var i := LineIndex(w.mtab, LastAt(w.mtab, line.dir).value);
      assert out[i].dir == out[|w.mtab|].dir;
    }
  }

  /** With distinct directories, a row stands on line `i` if it names its directory. */
  lemma StandsOn(w: World, i: nat, id: Id)
    requires Agreement(w) && DistinctDirs(w.mtab) && i < |w.mtab| && id in w.rows
    ensures Matches(w.rows[id], w.mtab[i]) <==> w.rows[id].mountPoint == w.mtab[i].dir
  {
    var k :| 0 <= k < |w.mtab| && Matches(w.rows[id], w.mtab[k]);
    if w.rows[id].mountPoint == w.mtab[i].dir { assert k == i; }
  }

  lemma ForeignUnMountIsSaneIff(w: World, dir: string)
    requires Sane(w)
    ensures Sane(w.(mtab := Detach(w.mtab, dir))) <==> !RecordedAt(w, dir)
  {
    if LastAt(w.mtab, dir).Some? {
      var i := LineIndex(w.mtab, LastAt(w.mtab, dir).value);
      DetachIsExact(w.mtab, i);
      DetachStands(w, i, w.(mtab := Without(w.mtab, i)));
      forall id | id in w.rows ensures HasLine(Without(w.mtab, i), w.rows[id]) <==> w.rows[id].mountPoint != dir {
        StandsOn(w, i, id);
        if w.rows[id].mountPoint == dir {
          LineIsGone(w.mtab, i, w.rows[id]);
        } else {
          WithoutKeepsLine(w.mtab, i, w.rows[id]);
        }
      }
    } else {
      DetachMissing(w.mtab, dir);
      forall id | id in w.rows ensures w.rows[id].mountPoint != dir {
        var k :| 0 <= k < |w.mtab| && Matches(w.rows[id], w.mtab[k]);
      }
    }
  }

  lemma {:induction false} DetachMissing(mtab: seq<MntLine>, p: string)
    requires LastAt(mtab, p).None?
    ensures Detach(mtab, p) == mtab
  {
    if mtab != [] {
      assert mtab[|mtab| - 1].dir != p;
      DetachMissing(mtab[..|mtab| - 1], p);
    }
  }

  lemma FilesChangeIsSane(w: World, dir: string, blank: bool)
    requires Sane(w)
    ensures Sane(w.(mtab := SetBlank(w.mtab, dir, blank)))
  {
    var out := SetBlank(w.mtab, dir, blank);
    forall id | id in w.rows ensures HasLine(out, w.rows[id]) {
      var i :| 0 <= i < |w.mtab| && Matches(w.rows[id], w.mtab[i]);
      assert Matches(w.rows[id], out[i]);
    }
  }

  /** Mounting over a mount point makes the directories clash. */
  lemma MountingOverClashes(w: World, rules: RuleRows, dev: UsbDevice, env: Answers)
    requires DistinctDirs(w.mtab) && Mounts(w, rules, dev, env)
    ensures DistinctDirs(ProcessDevice(w, rules, dev, env).mtab) <==> !MountsOver(w, rules, dev, env)
  {
    SharedEndpoint(w, rules, dev, env.mount);
  }

  /** Whatever the system answers, an event of a device stays sane if and only if
      it does not mount over a mount point. */
  lemma DeviceEventIsSaneIff(w: World, rules: RuleRows, dev: UsbDevice, env: Answers)
    requires Sane(w) && dev.filesystem != "ntfs3"
    ensures Sane(ProcessDevice(w, rules, dev, env)) <==> !MountsOver(w, rules, dev, env)
  {
    if MountsOver(w, rules, dev, env) {
      MountingOverClashes(w, rules, dev, env);
    } else {
      if dev.action.ActionAdd? && dev.subsystem == "block" && !Unsupported(dev.filesystem)
         && FindRule(rules, Device(dev.vid, dev.pid, dev.serial)).Some? {
        MountIsSane(w, rules, dev, env.mount);
      }
      UnMountIsSane(w, dev.blockName, env.unmount);
      ReviewIsSane(w, env.review);
    }
  }

  lemma ReviewEventIsSane(w: World, present: set<string>, review: ReviewAnswers, unmount: nat -> UnMountAnswers)
    requires Sane(w)
    ensures Sane(ReviewConnectedDevices(w, present, review, unmount))
  {
    var reviewed := ReviewMountPoints(w, review);
    ReviewIsSane(w, review);
    UnMountAbsentIsSane(reviewed, RowsFrom(reviewed.rows, 0), present, unmount);
  }

  // ------------------------------------------------------------------ start-up

  /** An "add" event leaves the mounts alone or appends one of its device. */
  lemma AddAppends(w: World, rules: RuleRows, dev: UsbDevice, env: Answers)
    requires dev.action.ActionAdd?
    ensures var after := ProcessDevice(w, rules, dev, env).mtab;
      if Mounts(w, rules, dev, env) then
        |after| == |w.mtab| + 1 && after[..|w.mtab|] == w.mtab && after[|w.mtab|].fsname == dev.blockName
      else after == w.mtab
  {
    if Mounts(w, rules, dev, env) { MountReached(w, rules, dev, env.mount); }
  }

  lemma ApplyOnePrefix(w: World, rules: RuleRows, c: Connected)
    ensures w.mtab <= ApplyOne(w, rules, c).mtab
  {
    AddAppends(w, rules, c.dev.(action := ActionAdd), c.answers);
  }

  lemma ApplyOneIsSaneIff(w: World, rules: RuleRows, c: Connected)
    requires Sane(w) && c.dev.filesystem != "ntfs3"
    ensures if OverQuestion(rules)(w, c) then !DistinctDirs(ApplyOne(w, rules, c).mtab) else Sane(ApplyOne(w, rules, c))
  {
    var dev := c.dev.(action := ActionAdd);
    if !SeenMounted(w, c) {
      if MountsOver(w, rules, dev, c.answers) { MountingOverClashes(w, rules, dev, c.answers); }
      DeviceEventIsSaneIff(w, rules, dev, c.answers);
    }
  }

  /** Start-up stays sane if and only if it nowhere mounts over a mount point. */
  lemma {:induction false} ApplyIsSaneIff(w: World, rules: RuleRows, devices: seq<Connected>)
    requires Sane(w) && NoNtfs3(devices)
    ensures var after := ApplyMountRules(w, rules, devices);
      if Along(w, rules, devices, OverQuestion(rules)) then !DistinctDirs(after.mtab) else Sane(after)
  {
    if devices != [] {
      var n := |devices| - 1;
      ApplyIsSaneIff(w, rules, devices[..n]);
      var before := ApplyMountRules(w, rules, devices[..n]);
      if Along(w, rules, devices[..n], OverQuestion(rules)) {
        ApplyOnePrefix(before, rules, devices[n]);
        assert !DistinctDirs(ApplyOne(before, rules, devices[n]).mtab);
      } else {
        ApplyOneIsSaneIff(before, rules, devices[n]);
      }
    }
  }

  /** A device that has a mount is mounted again. */
  ghost predicate Remounts(w: World, rules: RuleRows, c: Connected) {
    && FirstOf(w.mtab, c.dev.blockName).Some? && !SeenMounted(w, c)
    && Mounts(w, rules, c.dev.(action := ActionAdd), c.answers)
  }

  ghost function RemountQuestion(rules: RuleRows): Question { (w, c) => Remounts(w, rules, c) }

  lemma ApplyOneKeepsOneLineIff(w: World, rules: RuleRows, c: Connected)
    requires DistinctDevices(w.mtab)
    ensures DistinctDevices(ApplyOne(w, rules, c).mtab) <==> !RemountQuestion(rules)(w, c)
  {
    var dev := c.dev.(action := ActionAdd);
    AddAppends(w, rules, dev, c.answers);
    if !SeenMounted(w, c) && Mounts(w, rules, dev, c.answers) {
      var after := ProcessDevice(w, rules, dev, c.answers).mtab;
      var n := |w.mtab|;
      assert forall i :: 0 <= i < n ==> after[i] == w.mtab[i];
      if FirstOf(w.mtab, c.dev.blockName).Some? {
        var i := LineIndex(w.mtab, FirstOf(w.mtab, c.dev.blockName).value);
        assert after[i].fsname == after[n].fsname;
      }
    }
  }

  /** Start-up leaves one mount per device if and only if it nowhere mounts a
      mounted device again. */
  lemma {:induction false} ApplyKeepsOneLineIff(w: World, rules: RuleRows, devices: seq<Connected>)
    requires DistinctDevices(w.mtab)
    ensures DistinctDevices(ApplyMountRules(w, rules, devices).mtab)
        <==> !Along(w, rules, devices, RemountQuestion(rules))
  {
    if devices != [] {
      var n := |devices| - 1;
      ApplyKeepsOneLineIff(w, rules, devices[..n]);
      var before := ApplyMountRules(w, rules, devices[..n]);
      if Along(w, rules, devices[..n], RemountQuestion(rules)) {
        ApplyOnePrefix(before, rules, devices[n]);
        assert !DistinctDevices(ApplyOne(before, rules, devices[n]).mtab);
      } else {
        ApplyOneKeepsOneLineIff(before, rules, devices[n]);
      }
    }
  }

  lemma {:induction false} ReadableMtabNoRemount(w: World, rules: RuleRows, devices: seq<Connected>)
    requires forall i :: 0 <= i < |devices| ==> devices[i].mtabOpens
    ensures !Along(w, rules, devices, RemountQuestion(rules))
  {
    if devices != [] {
      var n := |devices| - 1;
      assert devices[n].mtabOpens;
      ReadableMtabNoRemount(w, rules, devices[..n]);
    }
  }

  /** It never does while mtab can be read. */
  lemma ReadableMtabKeepsOneLine(w: World, rules: RuleRows, devices: seq<Connected>)
    requires DistinctDevices(w.mtab) && forall i :: 0 <= i < |devices| ==> devices[i].mtabOpens
    ensures DistinctDevices(ApplyMountRules(w, rules, devices).mtab)
  {
    ApplyKeepsOneLineIff(w, rules, devices);
    ReadableMtabNoRemount(w, rules, devices);
  }

  // -------------------------------------------------- start-up, for all answers

  /** A connected device and whether mtab opens when it is looked up. */
  datatype Look = Look(dev: UsbDevice, mtabOpens: bool)

  function Answered(looks: seq<Look>, answers: seq<Answers>): seq<Connected>
    requires |answers| == |looks|
  {
    seq(|looks|, i requires 0 <= i < |looks| => Connected(looks[i].dev, looks[i].mtabOpens, answers[i]))
  }

  /** The device has a rule under which it may be mounted. */
  predicate MayMount(rules: RuleRows, dev: UsbDevice) {
    var rule := FindRule(rules, Device(dev.vid, dev.pid, dev.serial));
    && rule.Some? && rules[rule.value].users != [] && rules[rule.value].groups != []
    && !Unsupported(dev.filesystem) && dev.subsystem == "block"
    && !(dev.devType == "disk" && dev.filesystem != "ntfs")
  }

  /** Everything the system is asked for succeeds. */
  function Willing(): Answers {
    Answers(MountAnswers("", false, true, true, true, true, true, true, false), UnMountAnswers(true, true),
            ReviewAnswers(true, []))
  }

  lemma MountsIfMay(w: World, rules: RuleRows, dev: UsbDevice, env: Answers)
    requires dev.action.ActionAdd?
    ensures Mounts(w, rules, dev, env) ==> MayMount(rules, dev)
    ensures MayMount(rules, dev) ==> Mounts(w, rules, dev, Willing())
  {
  }

  /** Mounting other devices does not change whether a device is mounted. */
  lemma {:induction false} OthersDoNotMount(w: World, rules: RuleRows, devices: seq<Connected>, name: string)
    requires forall i :: 0 <= i < |devices| ==> devices[i].dev.blockName != name
    ensures FirstOf(ApplyMountRules(w, rules, devices).mtab, name).Some? <==> FirstOf(w.mtab, name).Some?
  {
    if devices != [] {
      var n := |devices| - 1;
      OthersDoNotMount(w, rules, devices[..n], name);
      var before := ApplyMountRules(w, rules, devices[..n]);
      AddAppends(before, rules, devices[n].dev.(action := ActionAdd), devices[n].answers);
      SameMounted(before.mtab, ApplyOne(before, rules, devices[n]).mtab, devices[n].dev.blockName, name);
    }
  }

  lemma SameMounted(before: seq<MntLine>, after: seq<MntLine>, other: string, name: string)
    requires after == before
             || (|after| == |before| + 1 && after[..|before|] == before && after[|before|].fsname == other)
    requires other != name
    ensures FirstOf(after, name).Some? <==> FirstOf(before, name).Some?
  {
    assert forall i :: 0 <= i < |before| ==> after[i] == before[i];
    if FirstOf(before, name).Some? {
      var i := LineIndex(before, FirstOf(before, name).value);
      assert after[i].fsname == name;
    }
  }

  lemma {:induction false} AlongAt(w: World, rules: RuleRows, devices: seq<Connected>, q: Question, k: nat)
    requires k < |devices| && q(ApplyMountRules(w, rules, devices[..k]), devices[k])
    ensures Along(w, rules, devices, q)
    decreases |devices|
  {
    var n := |devices| - 1;
    if k < n {
      assert devices[..n][..k] == devices[..k];
      AlongAt(w, rules, devices[..n], q, k);
    }
  }

  ghost predicate DistinctNames(looks: seq<Look>) {
    forall i, j :: 0 <= i < j < |looks| ==> looks[i].dev.blockName != looks[j].dev.blockName
  }

  ghost predicate SeesMounted(w: World, rules: RuleRows, looks: seq<Look>) {
    forall k :: 0 <= k < |looks| && FirstOf(w.mtab, looks[k].dev.blockName).Some? && MayMount(rules, looks[k].dev)
      ==> looks[k].mtabOpens
  }

  lemma {:induction false} SeeingNeverRemounts(w: World, rules: RuleRows, looks: seq<Look>, answers: seq<Answers>,
                                               n: nat)
    requires DistinctNames(looks) && SeesMounted(w, rules, looks) && |answers| == |looks| && n <= |looks|
    ensures !Along(w, rules, Answered(looks, answers)[..n], RemountQuestion(rules))
  {
    if n > 0 {
      var devices := Answered(looks, answers);
      var front := devices[..n - 1];
      assert devices[..n][..n - 1] == front && devices[..n][n - 1] == devices[n - 1];
      SeeingNeverRemounts(w, rules, looks, answers, n - 1);
      OthersDoNotMount(w, rules, front, looks[n - 1].dev.blockName);
      MountsIfMay(ApplyMountRules(w, rules, front), rules, looks[n - 1].dev.(action := ActionAdd), answers[n - 1]);
    }
  }

  lemma BlindRemounts(w: World, rules: RuleRows, looks: seq<Look>, k: nat) returns (answers: seq<Answers>)
    requires DistinctNames(looks) && k < |looks| && !looks[k].mtabOpens
    requires FirstOf(w.mtab, looks[k].dev.blockName).Some? && MayMount(rules, looks[k].dev)
    ensures |answers| == |looks| && Along(w, rules, Answered(looks, answers), RemountQuestion(rules))
  {
    answers := seq(|looks|, i => Willing());
    var devices := Answered(looks, answers);
    OthersDoNotMount(w, rules, devices[..k], looks[k].dev.blockName);
    MountsIfMay(ApplyMountRules(w, rules, devices[..k]), rules, looks[k].dev.(action := ActionAdd), Willing());
    AlongAt(w, rules, devices, RemountQuestion(rules), k);
  }

  /** Start-up leaves one mount per device, whatever the system answers to the
      mounts, if and only if mtab opens at every mounted device with a rule. */
  lemma StartUpKeepsOneLineIff(w: World, rules: RuleRows, looks: seq<Look>)
    requires DistinctDevices(w.mtab) && DistinctNames(looks)
    ensures (forall answers :: |answers| == |looks| ==>
               DistinctDevices(ApplyMountRules(w, rules, Answered(looks, answers)).mtab))
            <==> SeesMounted(w, rules, looks)
  {
    if SeesMounted(w, rules, looks) {
      forall answers | |answers| == |looks|
        ensures DistinctDevices(ApplyMountRules(w, rules, Answered(looks, answers)).mtab)
      {
        SeeingNeverRemounts(w, rules, looks, answers, |looks|);
        assert Answered(looks, answers)[..|looks|] == Answered(looks, answers);
        ApplyKeepsOneLineIff(w, rules, Answered(looks, answers));
      }
    } else {
      var k :| 0 <= k < |looks| && FirstOf(w.mtab, looks[k].dev.blockName).Some? && MayMount(rules, looks[k].dev)
        && !looks[k].mtabOpens;
      var answers := BlindRemounts(w, rules, looks, k);
      ApplyKeepsOneLineIff(w, rules, Answered(looks, answers));
    }
  }

  // ------------------------------------------------------------------ witnesses

  /** A stick whose rule is known, and a system on which everything succeeds but,
      if so said, the first look at mtab. */
  function Stick(fs: string): UsbDevice {
    UsbDevice(ActionAdd, "block", "/dev/sdb1", "", "0A1B", fs, "partition", "0951", "1666", "S1")
  }

  const STICK_RULES: RuleRows :=
    map[0 := PermissionEntry(Device("0951", "1666", "S1"), [User(0, "root")], [Group(0, "root")])]

  function Answering(blank: bool): Answers {
    Answers(MountAnswers("root_root", false, true, true, true, true, true, true, blank), UnMountAnswers(true, true),
            ReviewAnswers(true, []))
  }

  lemma StickMounts(w: World, fs: string, blank: bool)
    requires !Unsupported(fs)
    ensures Mounts(w, STICK_RULES, Stick(fs), Answering(blank))
  {
    assert 0 in STICK_RULES && STICK_RULES[0].device == Device("0951", "1666", "S1");
    assert FindRule(STICK_RULES, Device("0951", "1666", "S1")) == Some(0);
  }

  /** With an unreadable mtab, start-up mounts a mounted stick once more. */
  lemma UnreadableMtabRemounts(w: World)
    requires DistinctDevices(w.mtab) && FirstOf(w.mtab, "/dev/sdb1").Some?
    ensures !DistinctDevices(ApplyMountRules(w, STICK_RULES, [Connected(Stick("vfat"), false, Answering(false))]).mtab)
  {
    var c := Connected(Stick("vfat"), false, Answering(false));
    StickMounts(w, "vfat", false);
    assert ApplyMountRules(w, STICK_RULES, []) == w && [c][..0] == [];
    ApplyKeepsOneLineIff(w, STICK_RULES, [c]);
    assert RemountQuestion(STICK_RULES)(w, c);
  }

  /** A stick that reports the type "ntfs3", plugged in and unmounted: from an empty
      state the daemon is left with a row that has no mount. */
  lemma Ntfs3StickLeavesRow()
    ensures var w := World([], map[], map[]);
      var mounted := Mount(w, STICK_RULES, Stick("ntfs3"), Answering(false).mount).0;
      var after := UnMount(mounted, "/dev/sdb1", UnMountAnswers(true, true)).0;
      Agreement(w) && Agreement(mounted) && after.mtab == [] && after.rows != map[] && !Agreement(after)
  {
    var w := World([], map[], map[]);
    StickMounts(w, "ntfs3", false);
    MountThenUnMountIff(w, STICK_RULES, Stick("ntfs3"), Answering(false).mount);
  }

  /** A blank mount on the base name is chosen as the endpoint. */
  lemma BlankBaseIsChosen(w: World, dev: UsbDevice, env: MountAnswers)
    requires Base(dev, env) in w.dirs && LastAt(w.mtab, Base(dev, env)).Some?
    requires LastAt(w.mtab, Base(dev, env)).value.blank
    ensures EndpointOf(w, dev, env) == Base(dev, env)
  {
    var base := Base(dev, env);
    assert IsFirstFree(base, Occupied(w), base, 0);
    FirstFreeIsUnique(base, Occupied(w), base, EndpointOf(w, dev, env));
  }

  /** A state in agreement, and an event that mounts over a mount point: a second
      stick with the UUID of a blank one. */
  lemma BlankStickIsMountedOver()
    ensures var dir := Base(Stick("vfat"), Answering(true).mount);
      var w := World([MntLine("/dev/sdc1", dir, "vfat", true)], map[dir := true],
        map[0 := MountEntry("/dev/sdc1", dir, "vfat")]);
      Sane(w) && MountsOver(w, STICK_RULES, Stick("vfat"), Answering(true))
  {
    var dir := Base(Stick("vfat"), Answering(true).mount);
    var e := MountEntry("/dev/sdc1", dir, "vfat");
    var w := World([MntLine("/dev/sdc1", dir, "vfat", true)], map[dir := true], map[0 := e]);
    StickMounts(w, "vfat", true);
    assert w.mtab[0].dir == dir && Matches(e, w.mtab[0]);
    BlankBaseIsChosen(w, Stick("vfat"), Answering(true).mount);
    FreeEndpointIsUsable(w, Stick("vfat"), Answering(true).mount);
  }

  // ------------------------------------------------------------------ whole runs

  /** An ordinary event keeps a sane state sane if and only if it does not mount
      over a mount point, and nobody else unmounts what is recorded. */
  lemma StepIsSaneIff(w: World, e: Event)
    requires Sane(w) && Ordinary(w, e)
    ensures Sane(Step(w, e)) <==> !Breaks(w, e)
  {
    match e
    case DeviceEvent(rules, dev, answers) => DeviceEventIsSaneIff(w, rules, dev, answers);
    case StartUpEvent(rules, present, devices, review, unmount) =>
      ReviewEventIsSane(w, present, review, unmount);
      ApplyIsSaneIff(ReviewConnectedDevices(w, present, review, unmount), rules, devices);
    case ReviewEvent(present, review, unmount) => ReviewEventIsSane(w, present, review, unmount);
    case ForeignMount(line) => ForeignMountIsSaneIff(w, line);
    case ForeignUnMount(dir) => ForeignUnMountIsSaneIff(w, dir);
    case FilesChange(dir, blank) => FilesChangeIsSane(w, dir, blank);
    case DirChange(dir, empty) =>
  }

  // -------------------------------------------------------------------- healing

  /** Whatever happened before, a review that can read mtab restores the agreement
      if and only if the rows it keeps, those whose directory is a mount point,
      still carry their own mounts. */
  lemma ReviewRestoresIff(w: World, review: ReviewAnswers)
    requires review.mtabOpens && Distinct(w.rows) && forall id :: id in w.rows ==> Proper(w.rows[id])
    ensures Agreement(ReviewMountPoints(w, review))
            <==> forall id :: id in w.rows && w.rows[id].mountPoint in LiveDirs(w.mtab) ==> HasLine(w.mtab, w.rows[id])
  {
    var kept := Live(w.rows, LiveDirs(w.mtab));
    SweepKeepsRest(w.(rows := kept), review.listing, LiveDirs(w.mtab));
    assert forall id :: id in kept <==> id in w.rows && w.rows[id].mountPoint in LiveDirs(w.mtab);
    assert forall id :: id in kept ==> kept[id] == w.rows[id];
  }

  /** What a review keeps besides the agreement. */
  lemma ReviewStands(w: World, review: ReviewAnswers)
    requires PlainTypes(w.rows) && DistinctDirs(w.mtab) && MountsStand(w) && RowsBelowRoot(w)
    ensures var after := ReviewMountPoints(w, review);
      PlainTypes(after.rows) && DistinctDirs(after.mtab) && MountsStand(after) && RowsBelowRoot(after)
  {
    var valid := if review.mtabOpens then LiveDirs(w.mtab) else {};
    var lived := w.(rows := Live(w.rows, valid));
    ReviewKeepsPlain(w, review);
    SweepKeepsRest(lived, review.listing, valid);
    SweepStands(lived, review.listing, valid);
  }

  /** Rows whose directory is still a mount point stand on the lines left. */
  lemma OthersStand(w: World, i: nat, id: Id)
    requires Agreement(w) && DistinctDirs(w.mtab) && i < |w.mtab| && id in w.rows
    requires w.rows[id].mountPoint in LiveDirs(Without(w.mtab, i))
    ensures HasLine(Without(w.mtab, i), w.rows[id])
  {
    var out := Without(w.mtab, i);
    var j :| 0 <= j < |out| && out[j].dir == w.rows[id].mountPoint;
    assert out[j] == w.mtab[if j < i then j else j + 1];
    StandsOn(w, i, id);
    WithoutKeepsLine(w.mtab, i, w.rows[id]);
  }

  /** A stick unmounted by hand leaves its row behind until the next such review. */
  lemma HandUnMountIsHealed(w: World, dir: string, review: ReviewAnswers)
    requires Sane(w) && review.mtabOpens
    ensures Sane(ReviewMountPoints(w.(mtab := Detach(w.mtab, dir)), review))
  {
    var v := w.(mtab := Detach(w.mtab, dir));
    if RecordedAt(w, dir) {
      var k :| k in w.rows && w.rows[k].mountPoint == dir;
      var i :| 0 <= i < |w.mtab| && Matches(w.rows[k], w.mtab[i]);
      DetachIsExact(w.mtab, i);
      DetachStands(w, i, v);
      forall id | id in v.rows && v.rows[id].mountPoint in LiveDirs(v.mtab) ensures HasLine(v.mtab, v.rows[id]) {
        OthersStand(w, i, id);
      }
      ReviewRestoresIff(v, review);
      ReviewStands(v, review);
    } else {
      ForeignUnMountIsSaneIff(w, dir);
      ReviewIsSane(v, review);
    }
  }

  ghost function Run(w: World, events: seq<Event>): World {
    if events == [] then w else Step(Run(w, events[..|events| - 1]), events[|events| - 1])
  }

  ghost predicate AllOrdinary(w: World, events: seq<Event>) {
    events == [] || var front := events[..|events| - 1];
    AllOrdinary(w, front) && Ordinary(Run(w, front), events[|events| - 1])
  }

  /** The state is sane at every point of the run. */
  ghost predicate AlwaysSane(w: World, events: seq<Event>) {
    Sane(Run(w, events)) && (events == [] || AlwaysSane(w, events[..|events| - 1]))
  }

  ghost predicate NeverBreaks(w: World, events: seq<Event>) {
    events == [] || var front := events[..|events| - 1];
    NeverBreaks(w, front) && !Breaks(Run(w, front), events[|events| - 1])
  }

  /** Over any run of ordinary events, rows and mounts agree and no two mounts
      share a directory at every point, if and only if no event mounts over a
      mount point and nobody else unmounts what is recorded. */
  lemma {:induction false} RunsStaySaneIff(w: World, events: seq<Event>)
    requires Sane(w) && AllOrdinary(w, events)
    ensures AlwaysSane(w, events) <==> NeverBreaks(w, events)
  {
    if events != [] {
      var n := |events| - 1;
      RunsStaySaneIff(w, events[..n]);
      var before := Run(w, events[..n]);
      if AlwaysSane(w, events[..n]) { StepIsSaneIff(before, events[n]); }
    }
  }

  /** While every file system mounted below the root holds something, no event
      mounts over a mount point. */
  lemma FilledMountsDoNotStack(w: World, rules: RuleRows, dev: UsbDevice, env: Answers)
    requires Sane(w) && forall i :: 0 <= i < |w.mtab| && Contains(w.mtab[i].dir, ROOT) ==> !w.mtab[i].blank
    ensures !MountsOver(w, rules, dev, env)
  {
    var e := EndpointOf(w, dev, env.mount);
    FreeEndpointIsUsable(w, dev, env.mount);
    if LastAt(w.mtab, e).Some? {
      var i := LineIndex(w.mtab, LastAt(w.mtab, e).value);
    }
  }
}
