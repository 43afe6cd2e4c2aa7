/** The objects that mount, unmount and review, proved against MountWorld. */
module MountDaemon {
  import opened Wrappers
  import opened Counting
  import opened Dto
  import opened Tables
  import opened MountStore
  import opened RuleStore
  import opened Endpoint
  import opened MountWorld

  /** The state the kernel and the file system keep. */
  class System {
    var mtab: seq<MntLine>
    var dirs: map<string, bool>

    constructor (mtab: seq<MntLine>, dirs: map<string, bool>)
      ensures this.mtab == mtab && this.dirs == dirs
    {
      this.mtab := mtab;
      this.dirs := dirs;
    }
  }

  class CustomMount {
    const sys: System
    const mounts: Mountpoints
    const rules: DevicePermissions
    const device: UsbDevice
    var uid: Option<Uid>
    var gid: Option<Uid>
    var baseMountPoint: Option<string>
    var endMountPoint: Option<string>

    constructor (sys: System, mounts: Mountpoints, rules: DevicePermissions, device: UsbDevice)
      ensures this.sys == sys && this.mounts == mounts && this.rules == rules && this.device == device
      ensures uid.None? && gid.None? && baseMountPoint.None? && endMountPoint.None?
    {
      this.sys := sys;
      this.mounts := mounts;
      this.rules := rules;
      this.device := device;
      uid, gid, baseMountPoint, endMountPoint := None, None, None, None;
    }

    function View(): World
      reads sys, mounts.base
    {
      World(sys.mtab, sys.dirs, mounts.base.data)
    }

    /** The endpoint is looked for below the base directory, and made if it is
        missing. */
    method CreateMountEndpoint(env: MountAnswers) returns (ok: bool)
      requires baseMountPoint == Some(ROOT + env.owner) && |Occupied(View())| < U32
      modifies this`endMountPoint, sys`dirs
      ensures ok ==> endMountPoint.Some? && endMountPoint.value == EndpointOf(old(View()), device, env)
      ensures (View(), ok) == MakeEndpoint(old(View()), env, EndpointOf(old(View()), device, env))
    {
      ghost var before := View();
      var endpoint := baseMountPoint.value + "/";
      if device.fsLabel != "" && !env.labelExists {
        var title := SanitizeMount(device.fsLabel);
        endpoint := endpoint + title;
      } else if device.fsUuid != "" {
        var title := SanitizeMount(device.fsUuid);
        endpoint := endpoint + title;
      } else {
        endpoint := endpoint + "usb";
      }
      assert endpoint == Base(device, env);
      endpoint := FindEndpoint(endpoint, Occupied(View()));
      FirstFreeIsUnique(Base(device, env), Occupied(before), endpoint, EndpointOf(before, device, env));
      if endpoint !in sys.dirs {
        if !env.mkdirOk { return false; }
        sys.dirs := sys.dirs[endpoint := true];
      }
      if !env.chownOk || !env.chmodOk { return false; }
      endMountPoint := Some(endpoint);
      ok := true;
    }

    method RemoveMountPoint(path: string)
      modifies sys`dirs
      ensures View() == RemoveDir(old(View()), path)
    {
      if path in sys.dirs && IsEmptyDir(View(), path) && LastAt(sys.mtab, path).None? {
        sys.dirs := sys.dirs - {path};
      }
    }

    /** Tries read-write, then read-only. */
    method PerfomMount(env: MountAnswers) returns (mounted: bool)
      requires endMountPoint.Some? && endMountPoint.value in sys.dirs
      modifies sys
      ensures mounted == (env.mountOk || env.readOnlyOk)
      ensures mounted ==> View() == old(View()).(mtab := old(sys.mtab)
        + [MntLine(device.blockName, endMountPoint.value, KernelType(device.filesystem), env.blank)])
      ensures !mounted ==> View() == RemoveDir(old(View()), endMountPoint.value)
    {
      var fs := device.filesystem;
      if device.filesystem == "ntfs" { fs := fs + "3"; }
      assert fs == KernelType(device.filesystem);
      if !env.mountOk {
        if !env.readOnlyOk {
          RemoveMountPoint(endMountPoint.value);
          return false;
        }
      }
      sys.mtab := sys.mtab + [MntLine(device.blockName, endMountPoint.value, fs, env.blank)];
      mounted := true;
    }

    method Mount(env: MountAnswers) returns (ok: bool)
      requires |Occupied(View())| < U32 && !mounts.base.transactionStarted
      modifies this, sys, mounts.base`data, mounts.base`file
      ensures (View(), ok) == MountWorld.Mount(old(View()), old(rules.base.data), device, env)
    {
      var index := rules.Find(Device(device.vid, device.pid, device.serial));
      if index.None? { return false; }
      var perms := rules.base.data[index.value];
      if perms.users == [] || perms.groups == [] { return false; }
      uid, gid := Some(perms.users[0].uid), Some(perms.groups[0].gid);
      if device.devType == "disk" && device.filesystem != "ntfs" { return true; }
      if !env.aclOk { return false; }
      baseMountPoint := Some(ROOT + env.owner);
      var made := CreateMountEndpoint(env);
      if !made { return false; }
      var mounted := PerfomMount(env);
      if mounted {
        if device.blockName != "" && endMountPoint.value != "" {
          mounts.Create(MountEntry(device.blockName, endMountPoint.value, device.filesystem));
        }
      }
      ok := true;
    }

    method UnMount(env: UnMountAnswers) returns (ok: bool)
      modifies sys, mounts.base`data, mounts.base`file
      ensures (View(), ok) == MountWorld.UnMount(old(View()), device.blockName, env)
    {
      if !env.mtabOpens { return false; }
      var line := FirstOf(sys.mtab, device.blockName);
      var mountPoint, fsType := "", "";
      if line.Some? { mountPoint, fsType := line.value.dir, line.value.fstype; }
      if fsType == "ntfs3" { fsType := fsType[..|fsType| - 1]; }
      if mountPoint != "" {
        if !env.umountOk { return false; }
        sys.mtab := Detach(sys.mtab, mountPoint);
        if device.blockName != "" {
          assert fsType == TableType(line.value.fstype);
          var index := mounts.Find(MountEntry(device.blockName, mountPoint, fsType));
          if index.Some? {
            RemoveMountPoint(mountPoint);
            mounts.base.Delete(index.value);
          }
        }
      } else {
        var index := mounts.FindByDevice(device.blockName);
        if index.Some? { mounts.base.Delete(index.value); }
      }
      ok := true;
    }
  }

  class UdevMonitor {
    const sys: System
    const mounts: Mountpoints
    const rules: DevicePermissions

    constructor (sys: System, mounts: Mountpoints, rules: DevicePermissions)
      ensures this.sys == sys && this.mounts == mounts && this.rules == rules
    {
      this.sys := sys;
      this.mounts := mounts;
      this.rules := rules;
    }

    function View(): World
      reads sys, mounts.base
    {
      World(sys.mtab, sys.dirs, mounts.base.data)
    }

    method ReviewMountPoints(env: ReviewAnswers)
      modifies sys`dirs, mounts.base`data, mounts.base`file
      ensures View() == MountWorld.ReviewMountPoints(old(View()), env)
    {
      var valid := if env.mtabOpens then LiveDirs(sys.mtab) else {};
      mounts.RemoveExpired(valid);
      ghost var whole := SweepDirs(View(), env.listing, valid);
      var i := 0;
      while i < |env.listing|
        invariant 0 <= i <= |env.listing|
        invariant SweepDirs(View(), env.listing[i..], valid) == whole
        invariant sys.mtab == old(sys.mtab) && mounts.base.data == Live(old(mounts.base.data), valid)
      {
        var p := env.listing[i];
        if p in sys.dirs && IsEmptyDir(View(), p) && p !in valid {
          if LastAt(sys.mtab, p).Some? { return; }
          sys.dirs := sys.dirs - {p};
        }
        i := i + 1;
      }
    }

    method ReviewConnectedDevices(present: set<string>, review: ReviewAnswers, env: nat -> UnMountAnswers)
      modifies sys, mounts.base`data, mounts.base`file
      ensures View() == MountWorld.ReviewConnectedDevices(old(View()), present, review, env)
    {
      ReviewMountPoints(review);
      ghost var reviewed := View();
      var snapshot := mounts.base.GetAll();
      for i := 0 to |snapshot|
        invariant View() == UnMountAbsent(reviewed, snapshot[..i], present, env)
      {
        assert snapshot[..i + 1][..i] == snapshot[..i];
        if snapshot[i].devName !in present && snapshot[i].devName != "" {
          var device := UsbDevice(ActionRemove, "", snapshot[i].devName, "", "", "", "", "", "", "");
          var mounter := new CustomMount(sys, mounts, rules, device);
          var done := mounter.UnMount(env(i));
        }
      }
      assert snapshot[..|snapshot|] == snapshot;
    }

    method ProcessDevice(dev: UsbDevice, env: Answers)
      requires |Occupied(View())| < U32 && !mounts.base.transactionStarted
      modifies sys, mounts.base`data, mounts.base`file
      ensures View() == MountWorld.ProcessDevice(old(View()), old(rules.base.data), dev, env)
    {
      var rule := rules.Find(Device(dev.vid, dev.pid, dev.serial));
      var row := mounts.FindByDevice(dev.blockName);
      var added := rule.Some? && dev.action.ActionAdd?;
      var removed := row.Some? && dev.action.ActionRemove?;
      if (added || removed) && !Unsupported(dev.filesystem) {
        if dev.subsystem == "block" {
          var mounter := new CustomMount(sys, mounts, rules, dev);
          if dev.action.ActionAdd? {
            var ok := mounter.Mount(env.mount);
          } else {
            var ok := mounter.UnMount(env.unmount);
          }
        }
        return;
      }
      if dev.action.ActionChange? && row.Some? {
        ReviewMountPoints(env.review);
      }
    }

    method ApplyMountRulesIfNotMounted(devices: seq<Connected>)
      requires !mounts.base.transactionStarted
      requires |sys.dirs| + |devices| < U32
      modifies sys, mounts.base`data, mounts.base`file
      ensures View() == ApplyMountRules(old(View()), old(rules.base.data), devices)
    {
      ghost var start, table := View(), rules.base.data;
      for i := 0 to |devices|
        invariant rules.base.data == table && !mounts.base.transactionStarted
        invariant |sys.dirs| + (|devices| - i) < U32
        invariant View() == ApplyMountRules(start, table, devices[..i])
      {
        assert devices[..i + 1][..i] == devices[..i];
        var dev := devices[i].dev.(action := ActionAdd);
        var seen := devices[i].mtabOpens && FirstOf(sys.mtab, dev.blockName).Some?;
        if !seen {
          OccupiedIsSmall(View());
          ProcessGrowsLittle(View(), table, dev, devices[i].answers);
          ProcessDevice(dev, devices[i].answers);
        }
      }
      assert devices[..|devices|] == devices;
    }

    /** The part of Run before the event loop. */
    method StartUp(present: set<string>, devices: seq<Connected>, review: ReviewAnswers, env: nat -> UnMountAnswers)
      requires !mounts.base.transactionStarted
      requires |sys.dirs| + |devices| < U32
      modifies sys, mounts.base`data, mounts.base`file
      ensures View() == MountWorld.StartUp(old(View()), old(rules.base.data), present, devices, review, env)
    {
      ReviewShrinks(View(), present, review, env);
      ReviewConnectedDevices(present, review, env);
      ApplyMountRulesIfNotMounted(devices);
    }
  }

  lemma KeysShrink(a: map<string, bool>, b: map<string, bool>)
    requires a.Keys <= b.Keys
    ensures |a| <= |b|
  {
    assert |a| == |a.Keys| && |b| == |b.Keys|;
    SubsetCount(a.Keys, b.Keys);
  }

  lemma OccupiedIsSmall(w: World)
    ensures |Occupied(w)| <= |w.dirs|
  {
    assert Occupied(w) <= w.dirs.Keys && |w.dirs| == |w.dirs.Keys|;
    SubsetCount(Occupied(w), w.dirs.Keys);
  }

  /** One event makes at most one directory. */
  lemma ProcessGrowsLittle(w: World, rules: RuleRows, dev: UsbDevice, env: Answers)
    requires dev.action.ActionAdd?
    ensures |ProcessDevice(w, rules, dev, env).dirs| <= |w.dirs| + 1
  {
    var e := EndpointOf(w, dev, env.mount);
    var after := Mount(w, rules, dev, env.mount).0;
    assert after.dirs.Keys <= w.dirs[e := true].Keys;
    KeysShrink(after.dirs, w.dirs[e := true]);
    if e in w.dirs {
      assert w.dirs[e := true].Keys == w.dirs.Keys;
      KeysShrink(w.dirs[e := true], w.dirs);
    }
  }

  lemma {:induction false} SweepShrinks(w: World, listing: seq<string>, valid: set<string>)
    ensures SweepDirs(w, listing, valid).dirs.Keys <= w.dirs.Keys
    decreases |listing|
  {
    if listing != [] {
      var p := listing[0];
      if p in w.dirs && IsEmptyDir(w, p) && p !in valid && LastAt(w.mtab, p).None? {
        SweepShrinks(w.(dirs := w.dirs - {p}), listing[1..], valid);
      } else {
        SweepShrinks(w, listing[1..], valid);
      }
    }
  }

  lemma {:induction false} AbsentShrinks(w: World, snapshot: seq<MountEntry>, present: set<string>,
      env: nat -> UnMountAnswers)
    ensures UnMountAbsent(w, snapshot, present, env).dirs.Keys <= w.dirs.Keys
  {
    if snapshot != [] { AbsentShrinks(w, snapshot[..|snapshot| - 1], present, env); }
  }

  lemma ReviewShrinks(w: World, present: set<string>, review: ReviewAnswers, env: nat -> UnMountAnswers)
    ensures |ReviewConnectedDevices(w, present, review, env).dirs| <= |w.dirs|
  {
    var valid := if review.mtabOpens then LiveDirs(w.mtab) else {};
    SweepShrinks(w.(rows := Live(w.rows, valid)), review.listing, valid);
    var reviewed := ReviewMountPoints(w, review);
    AbsentShrinks(reviewed, RowsFrom(reviewed.rows, 0), present, env);
    KeysShrink(ReviewConnectedDevices(w, present, review, env).dirs, w.dirs);
  }
}
