/** What mounting, unmounting and reviewing do from any state, case by case. */
module MountMeaning {
  import opened Text
  import opened Dto
  import opened Tables
  import opened MountStore
  import opened RuleStore
  import opened Endpoint
  import opened MountWorld

  // -------------------------------------------------------------- directories

  /** A directory is empty to the program if the latest mount on it is blank, or if
      nothing is mounted there and it has no entries itself. */
  lemma OccupiedIff(w: World, p: string)
    ensures p in Occupied(w) <==>
      p in w.dirs
      && if exists i :: 0 <= i < |w.mtab| && w.mtab[i].dir == p then !LastAt(w.mtab, p).value.blank else !w.dirs[p]
  {
  }

  /** Removing a directory works exactly when it is there, is empty, and carries no
      mount; nothing else changes. */
  lemma RemoveDirIff(w: World, p: string)
    ensures var after := RemoveDir(w, p);
      && after.mtab == w.mtab && after.rows == w.rows
      && (p !in after.dirs <==> p !in w.dirs || (w.dirs[p] && forall i :: 0 <= i < |w.mtab| ==> w.mtab[i].dir != p))
      && forall q :: q != p ==> (q in after.dirs <==> q in w.dirs) && (q in w.dirs ==> after.dirs[q] == w.dirs[q])
  {
  }

  /** The name of an endpoint: the label, unless it is empty or its path exists;
      otherwise the UUID, unless it is empty; otherwise "usb". */
  lemma TitleMeans(dev: UsbDevice, env: MountAnswers)
    ensures dev.fsLabel != "" && !env.labelExists ==> Title(dev, env) == Sanitized(dev.fsLabel)
    ensures (dev.fsLabel == "" || env.labelExists) && dev.fsUuid != "" ==> Title(dev, env) == Sanitized(dev.fsUuid)
    ensures (dev.fsLabel == "" || env.labelExists) && dev.fsUuid == "" ==> Title(dev, env) == "usb"
    ensures Base(dev, env) == "/media/alt-usb-mount/" + env.owner + "/" + Title(dev, env)
  {
  }

  /** Making an endpoint succeeds exactly when the directory is there or can be made,
      and chown and chmod succeed; a directory it made stays either way. */
  lemma MakeEndpointMeans(w: World, env: MountAnswers, e: string)
    ensures var (after, ok) := MakeEndpoint(w, env, e);
      && (ok <==> (e in w.dirs || env.mkdirOk) && env.chownOk && env.chmodOk)
      && after.mtab == w.mtab && after.rows == w.rows
      && (e in after.dirs <==> e in w.dirs || env.mkdirOk)
      && (e !in w.dirs && env.mkdirOk ==> after.dirs[e])
      && forall q :: q in w.dirs ==> q in after.dirs && after.dirs[q] == w.dirs[q]
  {
  }

  // ------------------------------------------------------------------ mounting

  /** A mount that ends before mount(2) records nothing; it reports success only for
      a whole disk that is not ntfs. */
  lemma SkippedMount(w: World, rules: RuleRows, dev: UsbDevice, env: MountAnswers)
    requires var rule := FindRule(rules, Device(dev.vid, dev.pid, dev.serial));
      || rule.None? || rules[rule.value].users == [] || rules[rule.value].groups == []
      || (dev.devType == "disk" && dev.filesystem != "ntfs") || !env.aclOk
      || !env.chownOk || !env.chmodOk
    ensures var (after, ok) := Mount(w, rules, dev, env);
      && after.mtab == w.mtab && after.rows == w.rows
      && (ok ==> dev.devType == "disk" && dev.filesystem != "ntfs")
  {
  }

  lemma DiskIsSkipped(w: World, rules: RuleRows, dev: UsbDevice, env: MountAnswers)
    requires var rule := FindRule(rules, Device(dev.vid, dev.pid, dev.serial));
      rule.Some? && rules[rule.value].users != [] && rules[rule.value].groups != []
    requires dev.devType == "disk" && dev.filesystem != "ntfs"
    ensures Mount(w, rules, dev, env) == (w, true)
  {
  }

  /** ntfs is mounted as ntfs3, every other type as itself; back from mtab it is the
      other way round. */
  lemma TypesMean(fs: string)
    ensures KernelType("ntfs") == "ntfs3" && TableType("ntfs3") == "ntfs"
    ensures fs != "ntfs" ==> KernelType(fs) == fs
    ensures fs != "ntfs3" ==> TableType(fs) == fs
  {
  }

  // ---------------------------------------------------------------- unmounting

  /** The mount an unmount goes for is the first line of the device. */
  lemma {:induction false} FirstOfIsFirst(mtab: seq<MntLine>, name: string) returns (i: nat)
    requires FirstOf(mtab, name).Some?
    ensures i < |mtab| && mtab[i] == FirstOf(mtab, name).value && mtab[i].fsname == name
    ensures forall j :: 0 <= j < i ==> mtab[j].fsname != name
  {
    if mtab[0].fsname == name {
      i := 0;
    } else {
      var k := FirstOfIsFirst(mtab[1..], name);
      i := k + 1;
      assert forall j :: 1 <= j < i ==> mtab[j] == mtab[1..][j - 1];
    }
  }

  /** The table lacks exactly the row with the least id among those that satisfy `p`,
      if there is one. */
  ghost predicate LacksFirst(before: MountRows, after: MountRows, p: MountEntry -> bool) {
    if exists id :: id in before && p(before[id]) then
      exists k :: k in before && p(before[k]) && (forall id :: id in before && p(before[id]) ==> k <= id)
                  && OthersKept(before, k, after) && k !in after
    else after == before
  }

  lemma LacksFound(rows: MountRows, p: MountEntry -> bool)
    ensures LacksFirst(rows, match FindRow(rows, p) case None => rows case Some(k) => rows - {k}, p)
  {
    match FindRow(rows, p)
    case None =>
    case Some(k) => assert OthersKept(rows, k, rows - {k});
  }

  predicate Unlisted(w: World, name: string) { forall i :: 0 <= i < |w.mtab| ==> w.mtab[i].fsname != name }

  /** Without an mtab, and when umount2 fails, nothing changes and failure is
      reported. */
  lemma UnMountFails(w: World, name: string, env: UnMountAnswers)
    requires !env.mtabOpens || (!env.umountOk && FirstOf(w.mtab, name).Some? && FirstOf(w.mtab, name).value.dir != "")
    ensures UnMount(w, name, env) == (w, false)
  {
  }

  /** From any state, unmounting a device that mtab does not list forgets its first
      row and touches nothing else. */
  lemma UnMountUnlisted(w: World, name: string, env: UnMountAnswers)
    requires env.mtabOpens && Unlisted(w, name)
    ensures var (after, ok) := UnMount(w, name, env);
      && ok && after.mtab == w.mtab && after.dirs == w.dirs
      && LacksFirst(w.rows, after.rows, (e: MountEntry) => e.devName == name)
  {
    LacksFound(w.rows, (e: MountEntry) => e.devName == name);
  }

  /** From any state, a successful unmount detaches the latest mount at the directory
      of the device's first line, and drops the first row with this device, this
      directory and the type as recorded. Only with such a row, and if it is empty
      and carries no other mount, the directory goes too. */
  lemma UnMountListed(w: World, name: string, env: UnMountAnswers)
    requires env.mtabOpens && env.umountOk && name != ""
    requires FirstOf(w.mtab, name).Some? && FirstOf(w.mtab, name).value.dir != ""
    ensures var (after, ok) := UnMount(w, name, env);
      var line := FirstOf(w.mtab, name).value;
      var e := MountEntry(name, line.dir, if line.fstype == "ntfs3" then "ntfs" else line.fstype);
      && ok && after.mtab == Detach(w.mtab, line.dir)
      && LacksFirst(w.rows, after.rows, (x: MountEntry) => x == e)
      && (e !in w.rows.Values ==> after.dirs == w.dirs)
      && (e in w.rows.Values ==> after.dirs == RemoveDir(w.(mtab := after.mtab), line.dir).dirs)
  {
    var line := FirstOf(w.mtab, name).value;
    var e := MountEntry(name, line.dir, TableType(line.fstype));
    LacksFound(w.rows, (x: MountEntry) => x == e);
  }

  // ------------------------------------------------------------- device events

  lemma UnsupportedIff(fs: string)
    ensures Unsupported(fs) <==> fs in {"", "jfs", "LVM2_member"}
  {
  }

  ghost predicate HasRule(rules: RuleRows, dev: UsbDevice) {
    exists id :: id in rules && rules[id].device == Device(dev.vid, dev.pid, dev.serial)
  }

  ghost predicate HasRow(w: World, name: string) { exists id :: id in w.rows && w.rows[id].devName == name }

  /** Adding a supported block device with a rule mounts it, removing a recorded one
      unmounts it, a change of a recorded device reviews the mounts, and every other
      event does nothing. */
  lemma EventMeans(w: World, rules: RuleRows, dev: UsbDevice, env: Answers)
    ensures var after := ProcessDevice(w, rules, dev, env);
      var usable := dev.subsystem == "block" && dev.filesystem !in {"", "jfs", "LVM2_member"};
      match dev.action
      case ActionAdd => after == if HasRule(rules, dev) && usable then Mount(w, rules, dev, env.mount).0 else w
      case ActionRemove =>
        after == if HasRow(w, dev.blockName) && usable then UnMount(w, dev.blockName, env.unmount).0 else w
      case ActionChange => after == if HasRow(w, dev.blockName) then ReviewMountPoints(w, env.review) else w
      case ActionOther => after == w
  {
  }

  /** The remove event of a stick that was unmounted by hand forgets its first row. */
  lemma RemovedByHand(w: World, rules: RuleRows, dev: UsbDevice, env: Answers)
    requires dev.action.ActionRemove? && dev.subsystem == "block" && dev.filesystem !in {"", "jfs", "LVM2_member"}
    requires env.unmount.mtabOpens && Unlisted(w, dev.blockName) && HasRow(w, dev.blockName)
    ensures var after := ProcessDevice(w, rules, dev, env);
      && after.mtab == w.mtab && after.dirs == w.dirs
      && LacksFirst(w.rows, after.rows, (e: MountEntry) => e.devName == dev.blockName)
  {
    EventMeans(w, rules, dev, env);
    UnMountUnlisted(w, dev.blockName, env.unmount);
  }

  // ------------------------------------------------------------------- reviews

  /** The live directories are the mount points with the root in their path. */
  lemma LiveDirsIff(mtab: seq<MntLine>, p: string)
    ensures p in LiveDirs(mtab) <==>
      Contains(p, "/media/alt-usb-mount/") && exists i :: 0 <= i < |mtab| && mtab[i].dir == p
  {
  }

  /** Start-up leaves a device alone that a readable mtab lists, and otherwise plays
      its "add" event. */
  lemma ApplyOneMeans(w: World, rules: RuleRows, c: Connected)
    ensures c.mtabOpens && !Unlisted(w, c.dev.blockName) ==> ApplyOne(w, rules, c) == w
    ensures !c.mtabOpens || Unlisted(w, c.dev.blockName) ==>
      ApplyOne(w, rules, c) == ProcessDevice(w, rules, c.dev.(action := ActionAdd), c.answers)
  {
  }

  /** A review passes over entries that are present or have no name ... */
  lemma {:induction false} NothingAbsent(w: World, snapshot: seq<MountEntry>, present: set<string>,
                                         env: nat -> UnMountAnswers)
    requires forall i :: 0 <= i < |snapshot| ==> snapshot[i].devName == "" || snapshot[i].devName in present
    ensures UnMountAbsent(w, snapshot, present, env) == w
  {
    if snapshot != [] { NothingAbsent(w, snapshot[..|snapshot| - 1], present, env); }
  }

  /** ... and unmounts the other ones in the order of the snapshot. */
  lemma AbsentIsUnMounted(w: World, front: seq<MountEntry>, e: MountEntry, present: set<string>,
                          env: nat -> UnMountAnswers)
    requires e.devName != "" && e.devName !in present
    ensures UnMountAbsent(w, front + [e], present, env)
            == UnMount(UnMountAbsent(w, front, present, env), e.devName, env(|front|)).0
  {
    assert (front + [e])[..|front|] == front;
  }
}
