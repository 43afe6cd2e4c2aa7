/** What mounting, unmounting and reviewing do to the world: the kernel's mount
    list, the mount directories, and the mount_points table. System calls are
    environment answers. */
module MountWorld {
  import opened Wrappers
  import opened Text
  import opened Dto
  import opened Tables
  import opened MountStore
  import opened RuleStore
  import opened Endpoint

  const ROOT := "/media/alt-usb-mount/"

  /** A line of /etc/mtab; `blank` says that the root of the mounted file system
      has no entries. */
  datatype MntLine = MntLine(fsname: string, dir: string, fstype: string, blank: bool)

  /** `dirs` holds the directories below the per-owner directories, by path, and
      whether each is empty underneath whatever is mounted on it. */
  datatype World = World(mtab: seq<MntLine>, dirs: map<string, bool>, rows: MountRows)

  datatype Action = ActionAdd | ActionRemove | ActionChange | ActionOther

  datatype UsbDevice = UsbDevice(action: Action, subsystem: string, blockName: string, fsLabel: string, fsUuid: string,
                                 filesystem: string, devType: string, vid: string, pid: string, serial: string)

  /** The answers of the system to one Mount. `owner` is the name of the
      per-owner directory, `labelExists` what fs::exists says about the raw label
      path. */
  datatype MountAnswers = MountAnswers(owner: string, labelExists: bool, aclOk: bool, mkdirOk: bool, chownOk: bool,
                                       chmodOk: bool, mountOk: bool, readOnlyOk: bool, blank: bool)

  datatype UnMountAnswers = UnMountAnswers(mtabOpens: bool, umountOk: bool)

  /** `listing` is the order in which the directory iteration meets the paths. */
  datatype ReviewAnswers = ReviewAnswers(mtabOpens: bool, listing: seq<string>)

  // ------------------------------------------------------------- the kernel

  /** The mount that is visible at a path is the latest one there. */
  function LastAt(mtab: seq<MntLine>, p: string): (r: Option<MntLine>)
    ensures r.None? <==> forall i :: 0 <= i < |mtab| ==> mtab[i].dir != p
    ensures r.Some? ==> r.value in mtab && r.value.dir == p
  {
    if mtab == [] then None
    else if mtab[|mtab| - 1].dir == p then Some(mtab[|mtab| - 1])
    else LastAt(mtab[..|mtab| - 1], p)
  }

  lemma {:induction false} LastAtIsLatest(mtab: seq<MntLine>, p: string) returns (i: nat)
    requires LastAt(mtab, p).Some?
    ensures i < |mtab| && mtab[i] == LastAt(mtab, p).value && mtab[i].dir == p
    ensures forall j :: i < j < |mtab| ==> mtab[j].dir != p
  {
    var n := |mtab| - 1;
    if mtab[n].dir == p { i := n; } else { i := LastAtIsLatest(mtab[..n], p); }
  }

  /** umount2 detaches the latest mount at a path. */
  function Detach(mtab: seq<MntLine>, p: string): seq<MntLine> {
    if mtab == [] then []
    else if mtab[|mtab| - 1].dir == p then mtab[..|mtab| - 1]
    else Detach(mtab[..|mtab| - 1], p) + [mtab[|mtab| - 1]]
  }

  function FirstOf(mtab: seq<MntLine>, blockName: string): (r: Option<MntLine>)
    ensures r.None? <==> forall i :: 0 <= i < |mtab| ==> mtab[i].fsname != blockName
    ensures r.Some? ==> r.value in mtab && r.value.fsname == blockName
  {
    if mtab == [] then None else if mtab[0].fsname == blockName then Some(mtab[0]) else FirstOf(mtab[1..], blockName)
  }

  /** fs::is_empty on an existing directory. */
  predicate IsEmptyDir(w: World, p: string)
    requires p in w.dirs
  {
    match LastAt(w.mtab, p)
    case None => w.dirs[p]
    case Some(l) => l.blank
  }

  function Occupied(w: World): set<string> {
    set p | p in w.dirs && !IsEmptyDir(w, p)
  }

  /** RemoveMountPoint: fs::remove fails on a mount point and is_empty on a
      missing path. */
  function RemoveDir(w: World, p: string): World {
    if p in w.dirs && IsEmptyDir(w, p) && LastAt(w.mtab, p).None? then w.(dirs := w.dirs - {p}) else w
  }

  /** The type handed to mount(2): ntfs goes to the ntfs3 driver. */
  function KernelType(fs: string): string { if fs == "ntfs" then "ntfs3" else fs }

  /** The type UnMount looks for, from the type in mtab. */
  function TableType(fs: string): string { if fs == "ntfs3" then "ntfs" else fs }

  // ---------------------------------------------------------------- mounting

  function Title(dev: UsbDevice, env: MountAnswers): string {
    if dev.fsLabel != "" && !env.labelExists then Sanitized(dev.fsLabel)
    else if dev.fsUuid != "" then Sanitized(dev.fsUuid)
    else "usb"
  }

  function Base(dev: UsbDevice, env: MountAnswers): string { ROOT + env.owner + "/" + Title(dev, env) }

  ghost function FreeName(base: string, occupied: set<string>): (e: string)
    ensures FirstFree(base, occupied, e)
  {
    assert exists e :: FirstFree(base, occupied, e) by {
      assert Tried(base, 0) == {};
      var e := FreeNameExists(base, occupied, 0);
    }
    var e :| FirstFree(base, occupied, e);
    e
  }

  ghost function EndpointOf(w: World, dev: UsbDevice, env: MountAnswers): string {
    FreeName(Base(dev, env), Occupied(w))
  }

  /** PerfomMount and the row it is recorded with. */
  function PerformMount(w: World, dev: UsbDevice, env: MountAnswers, endpoint: string): World {
    if env.mountOk || env.readOnlyOk then
      var mounted := w.(mtab := w.mtab + [MntLine(dev.blockName, endpoint, KernelType(dev.filesystem), env.blank)]);
      if dev.blockName == "" || endpoint == "" then mounted
      else mounted.(rows := CreateMount(w.rows, MountEntry(dev.blockName, endpoint, dev.filesystem)))
    else
      RemoveDir(w, endpoint)
  }

  /** CreateMountEndpoint: the directory it leaves, or its failure. */
  function MakeEndpoint(w: World, env: MountAnswers, endpoint: string): (World, bool) {
    if endpoint !in w.dirs && !env.mkdirOk then (w, false)
    else
      var made := if endpoint in w.dirs then w else w.(dirs := w.dirs[endpoint := true]);
      (made, env.chownOk && env.chmodOk)
  }

  ghost function Mount(w: World, rules: RuleRows, dev: UsbDevice, env: MountAnswers): (World, bool) {
    var rule := FindRule(rules, Device(dev.vid, dev.pid, dev.serial));
    if rule.None? then (w, false)
    else
      var perms := rules[rule.value];
      if perms.users == [] || perms.groups == [] then (w, false)
      else if dev.devType == "disk" && dev.filesystem != "ntfs" then (w, true)
      else if !env.aclOk then (w, false)
      else
        var endpoint := EndpointOf(w, dev, env);
        var (made, ok) := MakeEndpoint(w, env, endpoint);
        if !ok then (made, false) else (PerformMount(made, dev, env, endpoint), true)
  }

  // -------------------------------------------------------------- unmounting

  /** Removing the row of a device that mtab does not list. */
  function Forget(w: World, blockName: string): World {
    match FindDevice(w.rows, blockName)
    case None => w
    case Some(id) => w.(rows := w.rows - {id})
  }

  /** Removing the row and the directory of a mount that was detached. */
  function Release(w: World, line: MntLine): World {
    match FindEntry(w.rows, MountEntry(line.fsname, line.dir, TableType(line.fstype)))
    case None => w
    case Some(id) => var cleaned := RemoveDir(w, line.dir); cleaned.(rows := w.rows - {id})
  }

  function UnMount(w: World, blockName: string, env: UnMountAnswers): (World, bool) {
    if !env.mtabOpens then (w, false)
    else
      match FirstOf(w.mtab, blockName)
      case None => (Forget(w, blockName), true)
      case Some(line) =>
        if line.dir == "" then (Forget(w, blockName), true)
        else if !env.umountOk then (w, false)
        else if blockName == "" then (w.(mtab := Detach(w.mtab, line.dir)), true)
        else (Release(w.(mtab := Detach(w.mtab, line.dir)), line), true)
  }

  // ---------------------------------------------------------------- reviewing

  /** The mount points below the root, as a substring test on mtab. */
  function LiveDirs(mtab: seq<MntLine>): set<string> {
    set i | 0 <= i < |mtab| && Contains(mtab[i].dir, ROOT) :: mtab[i].dir
  }

  /** The folder sweep. Removing a mount point fails and ends the sweep. */
  function SweepDirs(w: World, listing: seq<string>, valid: set<string>): World
    decreases |listing|
  {
    if listing == [] then w
    else
      var p := listing[0];
      if p in w.dirs && IsEmptyDir(w, p) && p !in valid then
        if LastAt(w.mtab, p).Some? then w else SweepDirs(w.(dirs := w.dirs - {p}), listing[1..], valid)
      else SweepDirs(w, listing[1..], valid)
  }

  function ReviewMountPoints(w: World, env: ReviewAnswers): World {
    var valid := if env.mtabOpens then LiveDirs(w.mtab) else {};
    SweepDirs(w.(rows := Live(w.rows, valid)), env.listing, valid)
  }

  /** Unmounts, in order, the snapshot entries whose device is not present; `env`
      holds the answers for each position. An entry without a device name is
      skipped. */
  function UnMountAbsent(w: World, snapshot: seq<MountEntry>, present: set<string>, env: nat -> UnMountAnswers): World {
    if snapshot == [] then w
    else
      var before := UnMountAbsent(w, snapshot[..|snapshot| - 1], present, env);
      var e := snapshot[|snapshot| - 1];
      if e.devName in present || e.devName == "" then before
      else UnMount(before, e.devName, env(|snapshot| - 1)).0
  }

  function ReviewConnectedDevices(w: World, present: set<string>, review: ReviewAnswers,
      env: nat -> UnMountAnswers): World {
    var reviewed := ReviewMountPoints(w, review);
    UnMountAbsent(reviewed, RowsFrom(reviewed.rows, 0), present, env)
  }

  // ------------------------------------------------------------ device events

  predicate Unsupported(fs: string) { fs == "" || fs == "jfs" || fs == "LVM2_member" }

  datatype Answers = Answers(mount: MountAnswers, unmount: UnMountAnswers, review: ReviewAnswers)

  ghost function ProcessDevice(w: World, rules: RuleRows, dev: UsbDevice, env: Answers): World {
    var known := FindRule(rules, Device(dev.vid, dev.pid, dev.serial)).Some?;
    var mounted := FindDevice(w.rows, dev.blockName).Some?;
    if ((known && dev.action.ActionAdd?) || (mounted && dev.action.ActionRemove?)) && !Unsupported(dev.filesystem) then
      if dev.subsystem != "block" then w
      else if dev.action.ActionAdd? then Mount(w, rules, dev, env.mount).0
      else UnMount(w, dev.blockName, env.unmount).0
    else if dev.action.ActionChange? && mounted then ReviewMountPoints(w, env.review)
    else w
  }

  // ------------------------------------------------------------------ start-up

  /** A connected device, and what the system answers while it is looked at:
      `mtabOpens` for the test whether it is mounted, `answers` for the event. */
  datatype Connected = Connected(dev: UsbDevice, mtabOpens: bool, answers: Answers)

  /** An unreadable mtab reads as one without mounts. */
  predicate SeenMounted(w: World, c: Connected) { c.mtabOpens && FirstOf(w.mtab, c.dev.blockName).Some? }

  ghost function ApplyOne(w: World, rules: RuleRows, c: Connected): World {
    if SeenMounted(w, c) then w else ProcessDevice(w, rules, c.dev.(action := ActionAdd), c.answers)
  }

  /** Plays an "add" event for every connected device not seen in mtab. */
  ghost function ApplyMountRules(w: World, rules: RuleRows, devices: seq<Connected>): World {
    if devices == [] then w
    else ApplyOne(ApplyMountRules(w, rules, devices[..|devices| - 1]), rules, devices[|devices| - 1])
  }

  /** What the monitor does before it waits for events. It enumerates the devices
      twice: `present` for the review, `devices` for the mounts. */
  ghost function StartUp(w: World, rules: RuleRows, present: set<string>, devices: seq<Connected>,
                         review: ReviewAnswers, env: nat -> UnMountAnswers): World {
    ApplyMountRules(ReviewConnectedDevices(w, present, review, env), rules, devices)
  }
}
