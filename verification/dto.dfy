/** The stored entries and their JSON form. A JSON object is a map from keys to
    values, so the order of its members is not modelled. */
module Dto {
  import opened Wrappers
  import opened Text

  /** `uint64_t` row ids and the 32-bit `uid_t` and `gid_t`. */
  type Id = n: nat | n < U64

  const U32: nat := 0x1_0000_0000

  type Uid = n: nat | n < U32

  const INT64_MAX: nat := 0x7FFF_FFFF_FFFF_FFFF

  // ----------------------------------------------------------------- JSON

  /** A boost::json value: the two integer kinds are kept apart, and the kinds
      the program never writes are one case. */
  datatype Json =
    | Int64(i: int)
    | UInt64(u: nat)
    | Str(s: string)
    | Arr(items: seq<Json>)
    | Obj(fields: map<string, Json>)
    | Other

  /** Printing a value and parsing the text: an unsigned integer comes back in
      the signed kind when it fits, everything else comes back unchanged. */
  function Reparse(j: Json): Json {
    match j
    case UInt64(u) => if u <= INT64_MAX then Int64(u) else j
    case Arr(items) => Arr(seq(|items|, i requires 0 <= i < |items| => Reparse(items[i])))
    case Obj(fields) => Obj(map k | k in fields :: Reparse(fields[k]))
    case _ => j
  }

  predicate IsStr(fields: map<string, Json>, key: string) {
    key in fields && fields[key].Str?
  }

  predicate IsNumber(fields: map<string, Json>, key: string) {
    key in fields && (fields[key].Int64? || fields[key].UInt64?)
  }

  /** `to_number<uint64_t>`, which throws on a negative or foreign value. */
  function ToUint64(j: Json): Result<Id> {
    match j
    case Int64(i) => if 0 <= i < U64 then Ok(i) else Err(RuntimeError)
    case UInt64(u) => if u < U64 then Ok(u) else Err(RuntimeError)
    case _ => Err(RuntimeError)
  }

  // -------------------------------------------------------------- entries

  datatype Device = Device(vid: string, pid: string, serial: string)

  datatype User = User(uid: Uid, name: string)

  datatype Group = Group(gid: Uid, name: string)

  datatype MountEntry = MountEntry(devName: string, mountPoint: string, fsType: string)

  datatype PermissionEntry = PermissionEntry(device: Device, users: seq<User>, groups: seq<Group>)

  function DeviceJson(d: Device): Json {
    Obj(map["vid" := Str(d.vid), "pid" := Str(d.pid), "serial" := Str(d.serial)])
  }

  function UserJson(u: User): Json {
    Obj(map["uid" := UInt64(u.uid), "name" := Str(u.name)])
  }

  function GroupJson(g: Group): Json {
    Obj(map["gid" := UInt64(g.gid), "name" := Str(g.name)])
  }

  function MountJson(e: MountEntry): Json {
    Obj(map["dev_name" := Str(e.devName), "mount_point" := Str(e.mountPoint), "fs_type" := Str(e.fsType)])
  }

  function UserArray(users: seq<User>): seq<Json> {
    seq(|users|, i requires 0 <= i < |users| => UserJson(users[i]))
  }

  function GroupArray(groups: seq<Group>): seq<Json> {
    seq(|groups|, i requires 0 <= i < |groups| => GroupJson(groups[i]))
  }

  function PermissionJson(e: PermissionEntry): Json {
    Obj(map["device" := DeviceJson(e.device), "users" := Arr(UserArray(e.users)),
      "groups" := Arr(GroupArray(e.groups))])
  }

  function DeviceFrom(fields: map<string, Json>): Result<Device> {
    if !IsStr(fields, "vid") || !IsStr(fields, "pid") || !IsStr(fields, "serial") then Err(InvalidArgument)
    else Ok(Device(CStr(fields["vid"].s), CStr(fields["pid"].s), CStr(fields["serial"].s)))
  }

  function UserFrom(fields: map<string, Json>): Result<User> {
    if !IsNumber(fields, "uid") || !IsStr(fields, "name") then Err(InvalidArgument)
    else match ToUint64(fields["uid"])
      case Err(e) => Err(e)
      case Ok(n) => Ok(User(n % U32, CStr(fields["name"].s)))
  }

  function GroupFrom(fields: map<string, Json>): Result<Group> {
    if !IsNumber(fields, "gid") || !IsStr(fields, "name") then Err(InvalidArgument)
    else match ToUint64(fields["gid"])
      case Err(e) => Err(e)
      case Ok(n) => Ok(Group(n % U32, CStr(fields["name"].s)))
  }

  function MountFrom(fields: map<string, Json>): Result<MountEntry> {
    if !IsStr(fields, "dev_name") || !IsStr(fields, "mount_point") || !IsStr(fields, "fs_type") then
      Err(InvalidArgument)
    else
      Ok(MountEntry(CStr(fields["dev_name"].s), CStr(fields["mount_point"].s), CStr(fields["fs_type"].s)))
  }

  /** Reads the elements of an array in order and stops at the first failure. */
  function ReadAll<T>(items: seq<Json>, read: map<string, Json> -> Result<T>): Result<seq<T>> {
    if items == [] then Ok([])
    else
      match ReadAll(items[..|items| - 1], read)
      case Err(e) => Err(e)
      case Ok(front) =>
        var last := items[|items| - 1];
        if !last.Obj? then Err(RuntimeError)
        else match read(last.fields)
          case Err(e) => Err(e)
          case Ok(t) => Ok(front + [t])
  }

  /** An array reads exactly when every element is an object that reads, and then
      element by element. */
  lemma {:induction false} ReadAllIff<T>(items: seq<Json>, read: map<string, Json> -> Result<T>)
    ensures var r := ReadAll(items, read);
      && (r.Ok? <==> forall i :: 0 <= i < |items| ==> items[i].Obj? && read(items[i].fields).Ok?)
      && (r.Ok? ==> |r.value| == |items| && forall i :: 0 <= i < |items| ==> read(items[i].fields) == Ok(r.value[i]))
  {
    if items != [] {
      var front := items[..|items| - 1];
      ReadAllIff(front, read);
      assert forall i :: 0 <= i < |front| ==> items[i] == front[i];
    }
  }

  function PermissionFrom(fields: map<string, Json>): Result<PermissionEntry> {
    if !("device" in fields && fields["device"].Obj? && "users" in fields && fields["users"].Arr?
         && "groups" in fields && fields["groups"].Arr?) then
      Err(InvalidArgument)
    else match ReadAll(fields["users"].items, UserFrom)
      case Err(e) => Err(e)
      case Ok(users) => match ReadAll(fields["groups"].items, GroupFrom)
        case Err(e) => Err(e)
        case Ok(groups) => match DeviceFrom(fields["device"].fields)
          case Err(e) => Err(e)
          case Ok(device) => Ok(PermissionEntry(device, users, groups))
  }

  /** A failing element fails the whole array. */
  lemma {:induction false} ReadAllPrefix<T>(items: seq<Json>, n: nat, read: map<string, Json> -> Result<T>)
    requires n <= |items| && ReadAll(items[..n], read).Err?
    ensures ReadAll(items, read) == Err(ReadAll(items[..n], read).error)
    decreases |items|
  {
    if n < |items| {
      assert items[..|items| - 1][..n] == items[..n];
      ReadAllPrefix(items[..|items| - 1], n, read);
    } else {
      assert items[..n] == items;
    }
  }

  // -------------------------------- the loops of the PermissionEntry class

  method ReadArray<T>(items: seq<Json>, read: map<string, Json> -> Result<T>) returns (r: Result<seq<T>>)
    ensures r == ReadAll(items, read)
  {
    var out: seq<T> := [];
    for i := 0 to |items|
      invariant ReadAll(items[..i], read) == Ok(out)
    {
      assert items[..i + 1][..i] == items[..i];
      if !items[i].Obj? {
        ReadAllPrefix(items, i + 1, read);
        return Err(RuntimeError);
      }
      var one := read(items[i].fields);
      if one.Err? {
        ReadAllPrefix(items, i + 1, read);
        return Err(one.error);
      }
      out := out + [one.value];
    }
    assert items[..|items|] == items;
    r := Ok(out);
  }

  method ReadPermission(fields: map<string, Json>) returns (r: Result<PermissionEntry>)
    ensures r == PermissionFrom(fields)
  {
    if !("device" in fields && fields["device"].Obj? && "users" in fields && fields["users"].Arr?
         && "groups" in fields && fields["groups"].Arr?) {
      return Err(InvalidArgument);
    }
    var users := ReadArray(fields["users"].items, UserFrom);
    if users.Err? { return Err(users.error); }
    var groups := ReadArray(fields["groups"].items, GroupFrom);
    if groups.Err? { return Err(groups.error); }
    var device := DeviceFrom(fields["device"].fields);
    if device.Err? { return Err(device.error); }
    r := Ok(PermissionEntry(device.value, users.value, groups.value));
  }

  method PrintPermission(e: PermissionEntry) returns (j: Json)
    ensures j == PermissionJson(e)
  {
    var users := [];
    for i := 0 to |e.users|
      invariant users == UserArray(e.users)[..i]
    {
      users := users + [UserJson(e.users[i])];
    }
    var groups := [];
    for i := 0 to |e.groups|
      invariant groups == GroupArray(e.groups)[..i]
    {
      groups := groups + [GroupJson(e.groups[i])];
    }
    assert users == UserArray(e.users) && groups == GroupArray(e.groups);
    j := Obj(map["device" := DeviceJson(e.device), "users" := Arr(users), "groups" := Arr(groups)]);
  }

  // ---------------------------------------------------------- member names

  /** The members of the stored objects, by the names in the file. */
  lemma StoredMembers(e: MountEntry, p: PermissionEntry)
    ensures var f := MountJson(e).fields;
      f.Keys == {"dev_name", "mount_point", "fs_type"}
      && f["dev_name"] == Str(e.devName) && f["mount_point"] == Str(e.mountPoint) && f["fs_type"] == Str(e.fsType)
    ensures var f := PermissionJson(p).fields;
      f.Keys == {"device", "users", "groups"} && f["device"].Obj? && f["users"].Arr? && f["groups"].Arr?
      && var d := f["device"].fields;
      d.Keys == {"vid", "pid", "serial"}
      && d["vid"] == Str(p.device.vid) && d["pid"] == Str(p.device.pid) && d["serial"] == Str(p.device.serial)
    ensures var f := PermissionJson(p).fields;
      |f["users"].items| == |p.users| && |f["groups"].items| == |p.groups|
  {
  }

  lemma StoredAccounts(u: User, g: Group)
    ensures var f := UserJson(u).fields;
      f.Keys == {"uid", "name"} && f["uid"] == UInt64(u.uid) && f["name"] == Str(u.name)
    ensures var f := GroupJson(g).fields;
      f.Keys == {"gid", "name"} && f["gid"] == UInt64(g.gid) && f["name"] == Str(g.name)
  {
  }

  /** Which objects read as mounts, and as what. */
  lemma MountFromIff(fields: map<string, Json>)
    ensures MountFrom(fields).Ok? <==>
      forall k :: k in {"dev_name", "mount_point", "fs_type"} ==> k in fields && fields[k].Str?
    ensures MountFrom(fields).Ok? ==>
      var e := MountFrom(fields).value;
      && e.devName == CStr(fields["dev_name"].s) && e.mountPoint == CStr(fields["mount_point"].s)
      && e.fsType == CStr(fields["fs_type"].s)
  {
  }

  /** Which objects read as devices, and as what. */
  lemma DeviceFromIff(fields: map<string, Json>)
    ensures DeviceFrom(fields).Ok? <==> forall k :: k in {"vid", "pid", "serial"} ==> k in fields && fields[k].Str?
    ensures DeviceFrom(fields).Ok? ==>
      DeviceFrom(fields).value == Device(CStr(fields["vid"].s), CStr(fields["pid"].s), CStr(fields["serial"].s))
  {
  }

  /** A JSON value that is a number in the unsigned 64-bit range. */
  predicate IsUnsigned(j: Json) { (j.Int64? && 0 <= j.i < U64) || (j.UInt64? && j.u < U64) }

  function NumberOf(j: Json): int { if j.Int64? then j.i else if j.UInt64? then j.u else -1 }

  /** Which objects read as accounts; ids are taken modulo 2^32. */
  lemma AccountFromIff(fields: map<string, Json>)
    ensures UserFrom(fields).Ok? <==>
      "uid" in fields && IsUnsigned(fields["uid"]) && "name" in fields && fields["name"].Str?
    ensures UserFrom(fields).Ok? ==>
      UserFrom(fields).value.uid as int == NumberOf(fields["uid"]) % 0x1_0000_0000
      && UserFrom(fields).value.name == CStr(fields["name"].s)
    ensures GroupFrom(fields).Ok? <==>
      "gid" in fields && IsUnsigned(fields["gid"]) && "name" in fields && fields["name"].Str?
    ensures GroupFrom(fields).Ok? ==>
      GroupFrom(fields).value.gid as int == NumberOf(fields["gid"]) % 0x1_0000_0000
      && GroupFrom(fields).value.name == CStr(fields["name"].s)
  {
  }

  /** Which objects read as rules: a readable device and arrays of readable
      accounts. */
  lemma PermissionFromIff(fields: map<string, Json>)
    ensures PermissionFrom(fields).Ok? <==>
      && "device" in fields && fields["device"].Obj? && DeviceFrom(fields["device"].fields).Ok?
      && "users" in fields && fields["users"].Arr?
      && (forall i :: 0 <= i < |fields["users"].items| ==>
            fields["users"].items[i].Obj? && UserFrom(fields["users"].items[i].fields).Ok?)
      && "groups" in fields && fields["groups"].Arr?
      && (forall i :: 0 <= i < |fields["groups"].items| ==>
            fields["groups"].items[i].Obj? && GroupFrom(fields["groups"].items[i].fields).Ok?)
  {
    if "users" in fields && fields["users"].Arr? { ReadAllIff(fields["users"].items, UserFrom); }
    if "groups" in fields && fields["groups"].Arr? { ReadAllIff(fields["groups"].items, GroupFrom); }
  }

  // ---------------------------------------------------------- round trips

  /** What a stored entry is after its strings went through `c_str()`. */
  function CDevice(d: Device): Device { Device(CStr(d.vid), CStr(d.pid), CStr(d.serial)) }

  function CMount(e: MountEntry): MountEntry {
    MountEntry(CStr(e.devName), CStr(e.mountPoint), CStr(e.fsType))
  }

  function CUsers(users: seq<User>): seq<User> {
    seq(|users|, i requires 0 <= i < |users| => User(users[i].uid, CStr(users[i].name)))
  }

  function CGroups(groups: seq<Group>): seq<Group> {
    seq(|groups|, i requires 0 <= i < |groups| => Group(groups[i].gid, CStr(groups[i].name)))
  }

  function CPermission(e: PermissionEntry): PermissionEntry {
    PermissionEntry(CDevice(e.device), CUsers(e.users), CGroups(e.groups))
  }

  predicate NulFreeDevice(d: Device) { NulFree(d.vid) && NulFree(d.pid) && NulFree(d.serial) }

  predicate NulFreeMount(e: MountEntry) { NulFree(e.devName) && NulFree(e.mountPoint) && NulFree(e.fsType) }

  predicate NulFreePermission(e: PermissionEntry) {
    && NulFreeDevice(e.device)
    && (forall i :: 0 <= i < |e.users| ==> NulFree(e.users[i].name))
    && (forall i :: 0 <= i < |e.groups| ==> NulFree(e.groups[i].name))
  }

  lemma CMountFixed(e: MountEntry)
    ensures CMount(e) == e <==> NulFreeMount(e)
  {
    CStrFixed(e.devName);
    CStrFixed(e.mountPoint);
    CStrFixed(e.fsType);
  }

  lemma CUsersFixed(users: seq<User>)
    ensures CUsers(users) == users <==> (forall i :: 0 <= i < |users| ==> NulFree(users[i].name))
  {
    forall i | 0 <= i < |users| ensures CUsers(users)[i] == users[i] <==> NulFree(users[i].name) {
      CStrFixed(users[i].name);
    }
    assert CUsers(users) == users <==> (forall i :: 0 <= i < |users| ==> CUsers(users)[i] == users[i]);
  }

  lemma CGroupsFixed(groups: seq<Group>)
    ensures CGroups(groups) == groups <==> (forall i :: 0 <= i < |groups| ==> NulFree(groups[i].name))
  {
    forall i | 0 <= i < |groups| ensures CGroups(groups)[i] == groups[i] <==> NulFree(groups[i].name) {
      CStrFixed(groups[i].name);
    }
    assert CGroups(groups) == groups <==> (forall i :: 0 <= i < |groups| ==> CGroups(groups)[i] == groups[i]);
  }

  lemma CPermissionFixed(e: PermissionEntry)
    ensures CPermission(e) == e <==> NulFreePermission(e)
  {
    CStrFixed(e.device.vid);
    CStrFixed(e.device.pid);
    CStrFixed(e.device.serial);
    CUsersFixed(e.users);
    CGroupsFixed(e.groups);
  }

  lemma ReparseObject(fields: map<string, Json>)
    ensures Reparse(Obj(fields)).Obj? && Reparse(Obj(fields)).fields.Keys == fields.Keys
    ensures forall k :: k in fields ==> Reparse(Obj(fields)).fields[k] == Reparse(fields[k])
  {
  }

  lemma UserReads(u: User)
    ensures Reparse(UserJson(u)).Obj? && UserFrom(Reparse(UserJson(u)).fields) == Ok(User(u.uid, CStr(u.name)))
  {
    var m := UserJson(u).fields;
    assert "uid" in m && "name" in m;
    ReparseObject(m);
  }

  lemma GroupReads(g: Group)
    ensures Reparse(GroupJson(g)).Obj? && GroupFrom(Reparse(GroupJson(g)).fields) == Ok(Group(g.gid, CStr(g.name)))
  {
    var m := GroupJson(g).fields;
    assert "gid" in m && "name" in m;
    ReparseObject(m);
  }

  lemma DeviceReads(d: Device)
    ensures Reparse(DeviceJson(d)).Obj? && DeviceFrom(Reparse(DeviceJson(d)).fields) == Ok(CDevice(d))
  {
    var m := DeviceJson(d).fields;
    assert "vid" in m && "pid" in m && "serial" in m;
    ReparseObject(m);
  }

  function ReparseItems(items: seq<Json>): seq<Json> {
    seq(|items|, i requires 0 <= i < |items| => Reparse(items[i]))
  }

  lemma {:induction false} UsersRead(users: seq<User>)
    ensures ReadAll(ReparseItems(UserArray(users)), UserFrom) == Ok(CUsers(users))
  {
    if users == [] {
      assert CUsers(users) == [];
    } else {
      var n := |users| - 1;
      UsersRead(users[..n]);
      UserReads(users[n]);
      var items := ReparseItems(UserArray(users));
      assert items[..n] == ReparseItems(UserArray(users[..n]));
      assert items[n] == Reparse(UserJson(users[n]));
      assert CUsers(users) == CUsers(users[..n]) + [User(users[n].uid, CStr(users[n].name))];
    }
  }

  lemma {:induction false} GroupsRead(groups: seq<Group>)
    ensures ReadAll(ReparseItems(GroupArray(groups)), GroupFrom) == Ok(CGroups(groups))
  {
    if groups == [] {
      assert CGroups(groups) == [];
    } else {
      var n := |groups| - 1;
      GroupsRead(groups[..n]);
      GroupReads(groups[n]);
      var items := ReparseItems(GroupArray(groups));
      assert items[..n] == ReparseItems(GroupArray(groups[..n]));
      assert items[n] == Reparse(GroupJson(groups[n]));
      assert CGroups(groups) == CGroups(groups[..n]) + [Group(groups[n].gid, CStr(groups[n].name))];
    }
  }

  /** A stored mount entry is read back with its strings cut at the first NUL. */
  lemma MountReads(e: MountEntry, fields: map<string, Json>)
    requires forall k :: k in MountJson(e).fields ==> k in fields && fields[k] == Reparse(MountJson(e).fields[k])
    ensures MountFrom(fields) == Ok(CMount(e))
  {
    var m := MountJson(e).fields;
    assert "dev_name" in m && "mount_point" in m && "fs_type" in m;
  }

  lemma PermissionReads(e: PermissionEntry, fields: map<string, Json>)
    requires forall k :: k in PermissionJson(e).fields ==>
        k in fields && fields[k] == Reparse(PermissionJson(e).fields[k])
    ensures PermissionFrom(fields) == Ok(CPermission(e))
  {
    var m := PermissionJson(e).fields;
    assert "device" in m && "users" in m && "groups" in m;
    assert fields["users"] == Arr(ReparseItems(UserArray(e.users)));
    assert fields["groups"] == Arr(ReparseItems(GroupArray(e.groups)));
    assert fields["device"] == Reparse(DeviceJson(e.device));
    UsersRead(e.users);
    GroupsRead(e.groups);
    DeviceReads(e.device);
  }
}
