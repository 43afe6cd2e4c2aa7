/** The daemon's side of saving rules: delete, update, create, inside one
    transaction. */
module RulePatch {
  import opened Wrappers
  import opened Text
  import opened Dto
  import opened Tables
  import opened RuleStore

  // ----------------------------------------------------------- the request

  datatype UpdateItem = UpdateItem(id: string, vid: string, pid: string, serial: string, user: string, group: string)

  datatype CreateItem = CreateItem(vid: string, pid: string, serial: string, user: string, group: string)

  datatype Form = Form(created: seq<CreateItem>, updated: seq<UpdateItem>, deleted: seq<string>,
    notchanged: seq<string>)

  /** The system accounts a request is checked against: the human users with
      root appended, and the human groups. */
  datatype Accounts = Accounts(users: seq<User>, groups: seq<Group>)

  function FindUser(users: seq<User>, name: string): (r: Option<User>)
    ensures r.Some? ==> r.value in users && r.value.name == name
  {
    if users == [] then None else if users[0].name == name then Some(users[0]) else FindUser(users[1..], name)
  }

  function FindGroup(groups: seq<Group>, name: string): (r: Option<Group>)
    ensures r.Some? ==> r.value in groups && r.value.name == name
  {
    if groups == [] then None else if groups[0].name == name then Some(groups[0]) else FindGroup(groups[1..], name)
  }

  /** Of several accounts with one name the first is found. */
  lemma {:induction false} FindUserIsFirst(users: seq<User>, name: string) returns (i: nat)
    requires FindUser(users, name).Some?
    ensures i < |users| && users[i] == FindUser(users, name).value
    ensures forall j :: 0 <= j < i ==> users[j].name != name
  {
    if users[0].name == name {
      i := 0;
    } else {
      var k := FindUserIsFirst(users[1..], name);
      i := k + 1;
      assert forall j :: 1 <= j < i ==> users[j] == users[1..][j - 1];
    }
  }

  lemma {:induction false} FindGroupIsFirst(groups: seq<Group>, name: string) returns (i: nat)
    requires FindGroup(groups, name).Some?
    ensures i < |groups| && groups[i] == FindGroup(groups, name).value
    ensures forall j :: 0 <= j < i ==> groups[j].name != name
  {
    if groups[0].name == name {
      i := 0;
    } else {
      var k := FindGroupIsFirst(groups[1..], name);
      i := k + 1;
      assert forall j :: 1 <= j < i ==> groups[j] == groups[1..][j - 1];
    }
  }

  lemma {:induction false} KnownAccountIsFound(sys: Accounts, user: User, group: Group)
    ensures user in sys.users ==> FindUser(sys.users, user.name).Some?
    ensures group in sys.groups ==> FindGroup(sys.groups, group.name).Some?
    decreases |sys.users| + |sys.groups|
  {
    if sys.users != [] { KnownAccountIsFound(sys.(users := sys.users[1..]), user, group); }
    if sys.groups != [] { KnownAccountIsFound(sys.(groups := sys.groups[1..]), user, group); }
  }

  /** The form shows root as "--". */
  function AccountName(text: string): string { if text == "--" then "root" else text }

  predicate IsHexDigit(c: char) { IsDigit(c) || 'a' <= c <= 'f' || 'A' <= c <= 'F' }

  /** Four characters that `std::stoi` in base 16 consumes entirely and whose
      value lies in 0 .. 0xFFFF. */
  predicate ValidVid(s: string) {
    && |s| == 4 && s[0] != '-'
    && var t := TrimLeft(s, IsSpace);
    var digits := HexPart(Unsigned(t));
    && digits != "" && AllHex(digits)
    && (t[0] == '-' ==> forall i :: 0 <= i < |digits| ==> digits[i] == '0')
  }

  /** The text behind "0x". */
  function HexPart(u: string): string {
    if |u| > 2 && u[0] == '0' && (u[1] == 'x' || u[1] == 'X') then u[2..] else u
  }

  predicate AllHex(s: string) { forall i :: 0 <= i < |s| ==> IsHexDigit(s[i]) }

  // ------------------------------------------------------- one list element

  datatype RuleOp = DeleteRule(id: string) | UpdateRule(item: UpdateItem) | CreateRule(newItem: CreateItem)

  /** Fields left empty keep the stored value, and so does an account name the
      system does not know. */
  function PatchDevice(d: Device, item: UpdateItem): Device {
    Device(if CStr(item.vid) != "" then CStr(item.vid) else d.vid,
           if CStr(item.pid) != "" then CStr(item.pid) else d.pid,
           if CStr(item.serial) != "" then CStr(item.serial) else d.serial)
  }

  function PatchUser(users: seq<User>, item: UpdateItem, sys: Accounts): Result<seq<User>> {
    match FindUser(sys.users, AccountName(CStr(item.user)))
    case None => Ok(users)
    case Some(u) => if CStr(item.user) == "" then Ok(users) else if users == [] then Err(OutOfRange)
      else Ok(users[0 := u])
  }

  function PatchGroup(groups: seq<Group>, item: UpdateItem, sys: Accounts): Result<seq<Group>> {
    match FindGroup(sys.groups, CStr(item.group))
    case None => Ok(groups)
    case Some(g) => if CStr(item.group) == "" then Ok(groups) else if groups == [] then Err(OutOfRange)
      else Ok(groups[0 := g])
  }

  /** The stored entry goes through its JSON form, so every string is cut at a
      NUL on the way back. */
  function Patch(e: PermissionEntry, item: UpdateItem, sys: Accounts): Result<PermissionEntry> {
    match PatchUser(e.users, item, sys)
    case Err(x) => Err(x)
    case Ok(users) => match PatchGroup(e.groups, item, sys)
      case Err(x) => Err(x)
      case Ok(groups) => Ok(CPermission(PermissionEntry(PatchDevice(e.device, item), users, groups)))
  }

  function NewRule(item: CreateItem, sys: Accounts): Result<PermissionEntry> {
    var vid, pid, serial := CStr(item.vid), CStr(item.pid), CStr(item.serial);
    var user := FindUser(sys.users, AccountName(CStr(item.user)));
    var group := FindGroup(sys.groups, CStr(item.group));
    if !ValidVid(vid) || !ValidVid(pid) || serial == "" || CStr(item.user) == "" || CStr(item.group) == ""
       || group.None? || user.None? then
      Err(InvalidArgument)
    else
      Ok(PermissionEntry(Device(vid, pid, serial), [user.value], [group.value]))
  }

  // ------------------------------------------------- what a sent name does

  /** The stored accounts are as before, or the first one is replaced by the one with
      the given name. */
  ghost predicate UserBecomes(before: seq<User>, after: seq<User>, name: string) {
    before != [] && |after| == |before| && after[0].name == name && after[1..] == before[1..]
  }

  ghost predicate GroupBecomes(before: seq<Group>, after: seq<Group>, name: string) {
    before != [] && |after| == |before| && after[0].name == name && after[1..] == before[1..]
  }

  /** What an update does to the users of a rule: "--" makes root the first user, the
      name of a system user makes that user the first, and anything else changes
      nothing. */
  lemma PatchUserMeans(users: seq<User>, item: UpdateItem, sys: Accounts)
    requires users != []
    ensures var sent, r := CStr(item.user), PatchUser(users, item, sys);
      && (sent == "" ==> r == Ok(users))
      && (sent == "--" && (exists u :: u in sys.users && u.name == "root") ==>
            r.Ok? && UserBecomes(users, r.value, "root") && r.value[0] in sys.users)
      && (sent != "" && sent != "--" && (exists u :: u in sys.users && u.name == sent) ==>
            r.Ok? && UserBecomes(users, r.value, sent) && r.value[0] in sys.users)
      && (sent != "--" && (forall u :: u in sys.users ==> u.name != sent) ==> r == Ok(users))
      && (sent == "--" && (forall u :: u in sys.users ==> u.name != "root") ==> r == Ok(users))
  {
    var sent := CStr(item.user);
    var none := Group(0, "");
    if u :| u in sys.users && u.name == sent { KnownAccountIsFound(sys, u, none); }
    if u :| u in sys.users && u.name == "root" { KnownAccountIsFound(sys, u, none); }
  }

  /** ... and to its groups, where "--" means nothing special. */
  lemma PatchGroupMeans(groups: seq<Group>, item: UpdateItem, sys: Accounts)
    requires groups != []
    ensures var sent, r := CStr(item.group), PatchGroup(groups, item, sys);
      && (sent == "" ==> r == Ok(groups))
      && (sent != "" && (exists g :: g in sys.groups && g.name == sent) ==>
            r.Ok? && GroupBecomes(groups, r.value, sent) && r.value[0] in sys.groups)
      && ((forall g :: g in sys.groups ==> g.name != sent) ==> r == Ok(groups))
  {
    var sent := CStr(item.group);
    if g :| g in sys.groups && g.name == sent { KnownAccountIsFound(sys, User(0, ""), g); }
  }

  /** An update keeps the cells that are not sent. */
  lemma PatchDeviceMeans(d: Device, item: UpdateItem)
    ensures var after := PatchDevice(d, item);
      && (CStr(item.vid) == "" ==> after.vid == d.vid) && (CStr(item.vid) != "" ==> after.vid == CStr(item.vid))
      && (CStr(item.pid) == "" ==> after.pid == d.pid) && (CStr(item.pid) != "" ==> after.pid == CStr(item.pid))
      && (CStr(item.serial) == "" ==> after.serial == d.serial)
      && (CStr(item.serial) != "" ==> after.serial == CStr(item.serial))
  {
  }

  /** A patched rule is made of these three, cut at NULs. */
  lemma PatchMeans(e: PermissionEntry, item: UpdateItem, sys: Accounts)
    ensures var r := Patch(e, item, sys);
      && (r.Ok? <==> PatchUser(e.users, item, sys).Ok? && PatchGroup(e.groups, item, sys).Ok?)
      && (r.Ok? ==> r.value.device == CDevice(PatchDevice(e.device, item))
                    && r.value.users == CUsers(PatchUser(e.users, item, sys).value)
                    && r.value.groups == CGroups(PatchGroup(e.groups, item, sys).value))
  {
  }

  /** A new rule has the sent device, one user and one group: the system's user of
      the sent name, root for "--", and the system's group of the sent name. */
  lemma NewRuleMeans(item: CreateItem, sys: Accounts)
    ensures var r := NewRule(item, sys);
      r.Ok? ==>
        && r.value.device == Device(CStr(item.vid), CStr(item.pid), CStr(item.serial))
        && |r.value.users| == 1 && r.value.users[0] in sys.users
        && r.value.users[0].name == (if CStr(item.user) == "--" then "root" else CStr(item.user))
        && |r.value.groups| == 1 && r.value.groups[0] in sys.groups && r.value.groups[0].name == CStr(item.group)
  {
  }

  /** Which new rules are accepted. */
  lemma NewRuleIff(item: CreateItem, sys: Accounts)
    ensures NewRule(item, sys).Ok? <==>
      && ValidVid(CStr(item.vid)) && ValidVid(CStr(item.pid)) && CStr(item.serial) != ""
      && CStr(item.user) != "" && CStr(item.group) != ""
      && (exists u :: u in sys.users && u.name == if CStr(item.user) == "--" then "root" else CStr(item.user))
      && (exists g :: g in sys.groups && g.name == CStr(item.group))
  {
    var name := if CStr(item.user) == "--" then "root" else CStr(item.user);
    if u :| u in sys.users && u.name == name { KnownAccountIsFound(sys, u, Group(0, "")); }
    if g :| g in sys.groups && g.name == CStr(item.group) { KnownAccountIsFound(sys, User(0, ""), g); }
  }

  /** Characters that numbers may hold beside their digits. */
  predicate NumberMark(c: char) { IsSpace(c) || c == '+' || c == '-' || c == 'x' || c == 'X' }

  /** Texts without spaces, signs and an 'x' are valid ids exactly when they are four
      hexadecimal digits. */
  lemma PlainVidIff(s: string)
    requires forall i :: 0 <= i < |s| ==> !NumberMark(s[i])
    ensures ValidVid(s) <==> |s| == 4 && AllHex(s)
  {
    if |s| == 4 {
      assert !NumberMark(s[0]) && !NumberMark(s[1]);
      assert TrimLeft(s, IsSpace) == s && Unsigned(s) == s && HexPart(s) == s;
    }
  }

  /** Which texts are hexadecimal numbers: spaces, a sign or none, "0x" or nothing,
      and digits, which are all zero behind a '-'. */
  ghost predicate IsHexNumeral(s: string, spaces: string, sign: string, prefix: string, digits: string) {
    && s == spaces + (sign + (prefix + digits)) && AllOf(spaces, IsSpace)
    && (sign == "" || sign == "+" || sign == "-") && (prefix == "" || prefix == "0x" || prefix == "0X")
    && digits != "" && AllHex(digits) && (sign == "-" ==> forall i :: 0 <= i < |digits| ==> digits[i] == '0')
  }

  lemma HexNumeralIsValid(s: string, spaces: string, sign: string, prefix: string, digits: string)
    requires IsHexNumeral(s, spaces, sign, prefix, digits) && |s| == 4 && s[0] != '-'
    ensures ValidVid(s)
  {
    var u := prefix + digits;
    var t := sign + u;
    assert IsHexDigit(digits[0]) && (prefix == "" ==> u == digits) && (prefix != "" ==> u[2..] == digits);
    SpacesAreTrimmed(spaces, t);
    assert TrimLeft(s, IsSpace) == t;
    assert Unsigned(t) == u by { if sign == "" { assert t == u; } else { assert t[0] == sign[0] && t[1..] == u; } }
    assert HexPart(u) == digits by { if prefix == "" && |u| > 1 { assert IsHexDigit(u[1]); } }
  }

  lemma SplitHex(u: string) returns (prefix: string)
    ensures u == prefix + HexPart(u) && (prefix == "" || prefix == "0x" || prefix == "0X")
  {
    prefix := if HexPart(u) == u then "" else [u[0], u[1]];
    assert HexPart(u) != u ==> u == [u[0], u[1]] + u[2..];
  }

  lemma SplitVid(s: string) returns (spaces: string, sign: string, prefix: string, digits: string)
    requires ValidVid(s)
    ensures IsHexNumeral(s, spaces, sign, prefix, digits)
  {
    spaces := TrimLeftDrops(s, IsSpace);
    var t := TrimLeft(s, IsSpace);
    sign := SplitSign(t);
    prefix := SplitHex(Unsigned(t));
    digits := HexPart(Unsigned(t));
  }

  /** A text is a valid id if and only if it is such a number of four characters that
      does not begin with a '-'. */
  lemma ValidVidIff(s: string)
    ensures ValidVid(s) <==>
      |s| == 4 && s[0] != '-' && exists spaces, sign, prefix, digits :: IsHexNumeral(s, spaces, sign, prefix, digits)
  {
    if ValidVid(s) {
      var spaces, sign, prefix, digits := SplitVid(s);
      assert IsHexNumeral(s, spaces, sign, prefix, digits);
    } else if |s| == 4 && s[0] != '-' {
      if spaces, sign, prefix, digits :| IsHexNumeral(s, spaces, sign, prefix, digits) {
        HexNumeralIsValid(s, spaces, sign, prefix, digits);
      }
    }
  }

  function ApplyRule(op: RuleOp, rows: RuleRows, sys: Accounts): Result<RuleRows> {
    match op
    case DeleteRule(text) =>
      (match StrToUint(CStr(text))
       case Err(x) => Err(x)
       case Ok(id) => Ok(rows - {id}))
    case UpdateRule(item) =>
      (match StrToUint(CStr(item.id))
       case Err(x) => Err(x)
       case Ok(id) =>
         if id !in rows then Err(InvalidArgument)
         else match Patch(rows[id], item, sys)
           case Err(x) => Err(x)
           case Ok(e) => Ok(rows[id := e]))
    case CreateRule(item) =>
      (match NewRule(item, sys)
       case Err(x) => Err(x)
       case Ok(e) => Ok(if FindRule(rows, e.device).Some? then rows else CreateRow(rows, e)))
  }

  /** Elements are applied in order; the first exception ends the batch. */
  function ApplyRules(ops: seq<RuleOp>, rows: RuleRows, sys: Accounts): Result<RuleRows> {
    if ops == [] then Ok(rows)
    else match ApplyRules(ops[..|ops| - 1], rows, sys)
      case Err(x) => Err(x)
      case Ok(before) => ApplyRule(ops[|ops| - 1], before, sys)
  }

  function DeleteOps(ids: seq<string>): seq<RuleOp> { seq(|ids|, i requires 0 <= i < |ids| => DeleteRule(ids[i])) }

  function UpdateOps(items: seq<UpdateItem>): seq<RuleOp> {
    seq(|items|, i requires 0 <= i < |items| => UpdateRule(items[i]))
  }

  function CreateOps(items: seq<CreateItem>): seq<RuleOp> {
    seq(|items|, i requires 0 <= i < |items| => CreateRule(items[i]))
  }

  function Ops(form: Form): seq<RuleOp> {
    DeleteOps(form.deleted) + UpdateOps(form.updated) + CreateOps(form.created)
  }

  /** A batch runs as its first part and then the rest. */
  lemma {:induction false} ApplyRulesConcat(a: seq<RuleOp>, b: seq<RuleOp>, rows: RuleRows, sys: Accounts)
    ensures ApplyRules(a + b, rows, sys) == match ApplyRules(a, rows, sys)
                                            case Err(x) => Err(x)
                                            case Ok(mid) => ApplyRules(b, mid, sys)
    decreases |b|
  {
    if b == [] {
      assert a + b == a;
    } else {
      assert (a + b)[..|a + b| - 1] == a + b[..|b| - 1];
      ApplyRulesConcat(a, b[..|b| - 1], rows, sys);
    }
  }

  // ----------------------------------------------- which requests go through

  predicate Parses(text: string) { StrToUint(CStr(text)).Ok? }

  /** The ids a list of deletions names. */
  function ParsedIds(ids: seq<string>): set<Id> {
    if ids == [] then {}
    else
      var last := ids[|ids| - 1];
      ParsedIds(ids[..|ids| - 1]) + if Parses(last) then {StrToUint(CStr(last)).value} else {}
  }

  predicate SendsUser(item: UpdateItem, sys: Accounts) {
    CStr(item.user) != "" && FindUser(sys.users, AccountName(CStr(item.user))).Some?
  }

  predicate SendsGroup(item: UpdateItem, sys: Accounts) {
    CStr(item.group) != "" && FindGroup(sys.groups, CStr(item.group)).Some?
  }

  /** The rule to update is there, and has an account to replace if a known one is
      sent. */
  predicate UpdateFits(item: UpdateItem, rows: RuleRows, sys: Accounts) {
    && Parses(item.id)
    && var id := StrToUint(CStr(item.id)).value;
    && id in rows
    && (SendsUser(item, sys) ==> rows[id].users != []) && (SendsGroup(item, sys) ==> rows[id].groups != [])
  }

  /** A new rule has valid ids, no empty field, and accounts the system knows. */
  predicate CreateFits(item: CreateItem, sys: Accounts) {
    && ValidVid(CStr(item.vid)) && ValidVid(CStr(item.pid)) && CStr(item.serial) != ""
    && CStr(item.user) != "" && FindUser(sys.users, AccountName(CStr(item.user))).Some?
    && CStr(item.group) != "" && FindGroup(sys.groups, CStr(item.group)).Some?
  }

  /** Can be checked against the stored rules before anything is applied. */
  predicate RequestFits(form: Form, rows: RuleRows, sys: Accounts) {
    && (forall i :: 0 <= i < |form.deleted| ==> Parses(form.deleted[i]))
    && (forall i :: 0 <= i < |form.updated| ==> UpdateFits(form.updated[i], rows - ParsedIds(form.deleted), sys))
    && (forall i :: 0 <= i < |form.created| ==> CreateFits(form.created[i], sys))
  }

  /** One more element: the list goes through if its front does and the element
      fits, and `good` is kept. */
  ghost predicate ListStep<T>(xs: seq<T>, run: seq<T> -> Result<RuleRows>, fits: T -> bool,
      good: (seq<T>, RuleRows) -> bool)
    requires xs != []
  {
    var n := |xs| - 1;
    var front, r := run(xs[..n]), run(xs);
    && (r.Ok? ==> front.Ok?)
    && (front.Ok? && good(xs[..n], front.value) ==> (r.Ok? <==> fits(xs[n])) && (r.Ok? ==> good(xs, r.value)))
  }

  lemma {:induction false} ListGoesThroughIff<T>(xs: seq<T>, run: seq<T> -> Result<RuleRows>, fits: T -> bool,
                                                 good: (seq<T>, RuleRows) -> bool)
    requires run([]).Ok? && good([], run([]).value)
    requires forall ys :: ys != [] ==> ListStep(ys, run, fits, good)
    ensures run(xs).Ok? <==> forall i :: 0 <= i < |xs| ==> fits(xs[i])
    ensures run(xs).Ok? ==> good(xs, run(xs).value)
  {
    if xs != [] {
      var n := |xs| - 1;
      ListGoesThroughIff(xs[..n], run, fits, good);
      assert ListStep(xs, run, fits, good);
      assert forall i :: 0 <= i < n ==> xs[..n][i] == xs[i];
    }
  }

  lemma LastDelete(ids: seq<string>, rows: RuleRows, sys: Accounts)
    requires ids != []
    ensures var n := |ids| - 1;
      var front, r := ApplyRules(DeleteOps(ids[..n]), rows, sys), ApplyRules(DeleteOps(ids), rows, sys);
      && (r.Ok? <==> front.Ok? && Parses(ids[n]))
      && (r.Ok? ==> r.value == front.value - {StrToUint(CStr(ids[n])).value})
  {
    assert DeleteOps(ids)[..|ids| - 1] == DeleteOps(ids[..|ids| - 1]);
  }

  lemma DeletesGoThroughIff(ids: seq<string>, rows: RuleRows, sys: Accounts)
    ensures var r := ApplyRules(DeleteOps(ids), rows, sys);
      && (r.Ok? <==> forall i :: 0 <= i < |ids| ==> Parses(ids[i]))
      && (r.Ok? ==> r.value == rows - ParsedIds(ids))
  {
    var run := (xs: seq<string>) => ApplyRules(DeleteOps(xs), rows, sys);
    var left := (xs: seq<string>, r: RuleRows) => r == rows - ParsedIds(xs);
    assert DeleteOps([]) == [] && ParsedIds([]) == {} && run([]) == Ok(rows);
    forall xs | xs != [] ensures ListStep(xs, run, Parses, left) {
      LastDelete(xs, rows, sys);
    }
    ListGoesThroughIff(ids, run, Parses, left);
  }

  /** An update keeps the ids, and whether a rule has users and groups. */
  ghost predicate SameShape(before: RuleRows, after: RuleRows) {
    && before.Keys == after.Keys
    && forall id :: id in before ==>
         (before[id].users == [] <==> after[id].users == []) && (before[id].groups == [] <==> after[id].groups == [])
  }

  lemma PatchIff(e: PermissionEntry, item: UpdateItem, sys: Accounts)
    ensures var r := Patch(e, item, sys);
      && (r.Ok? <==> (SendsUser(item, sys) ==> e.users != []) && (SendsGroup(item, sys) ==> e.groups != []))
      && (r.Ok? ==> (r.value.users == [] <==> e.users == []) && (r.value.groups == [] <==> e.groups == []))
  {
  }

  lemma UpdateGoesThroughIff(item: UpdateItem, rows: RuleRows, sys: Accounts)
    ensures var r := ApplyRule(RuleOp.UpdateRule(item), rows, sys);
      (r.Ok? <==> UpdateFits(item, rows, sys)) && (r.Ok? ==> SameShape(rows, r.value))
  {
    if Parses(item.id) && StrToUint(CStr(item.id)).value in rows {
      PatchIff(rows[StrToUint(CStr(item.id)).value], item, sys);
    }
  }

  lemma FitsSameShape(item: UpdateItem, before: RuleRows, after: RuleRows, sys: Accounts)
    requires SameShape(before, after)
    ensures UpdateFits(item, before, sys) <==> UpdateFits(item, after, sys)
  {
  }

  lemma LastUpdate(items: seq<UpdateItem>, rows: RuleRows, sys: Accounts)
    requires items != []
    ensures var n := |items| - 1;
      var front, r := ApplyRules(UpdateOps(items[..n]), rows, sys), ApplyRules(UpdateOps(items), rows, sys);
      && (r.Ok? <==> front.Ok? && UpdateFits(items[n], front.value, sys))
      && (r.Ok? ==> SameShape(front.value, r.value))
  {
    var n := |items| - 1;
    assert UpdateOps(items)[..n] == UpdateOps(items[..n]);
    var front := ApplyRules(UpdateOps(items[..n]), rows, sys);
    if front.Ok? { UpdateGoesThroughIff(items[n], front.value, sys); }
  }

  lemma SameShapeNext(rows: RuleRows, mid: RuleRows, after: RuleRows)
    requires SameShape(rows, mid) && SameShape(mid, after)
    ensures SameShape(rows, after)
  {
  }

  lemma UpdateListStep(xs: seq<UpdateItem>, rows: RuleRows, sys: Accounts)
    requires xs != []
    ensures ListStep(xs, (ys: seq<UpdateItem>) => ApplyRules(UpdateOps(ys), rows, sys),
                     (item: UpdateItem) => UpdateFits(item, rows, sys),
                     (ys: seq<UpdateItem>, r: RuleRows) => SameShape(rows, r))
  {
    var n := |xs| - 1;
    LastUpdate(xs, rows, sys);
    var front, r := ApplyRules(UpdateOps(xs[..n]), rows, sys), ApplyRules(UpdateOps(xs), rows, sys);
    if front.Ok? && SameShape(rows, front.value) {
      FitsSameShape(xs[n], rows, front.value, sys);
      if r.Ok? { SameShapeNext(rows, front.value, r.value); }
    }
  }

  lemma UpdatesGoThroughIff(items: seq<UpdateItem>, rows: RuleRows, sys: Accounts)
    ensures var r := ApplyRules(UpdateOps(items), rows, sys);
      && (r.Ok? <==> forall i :: 0 <= i < |items| ==> UpdateFits(items[i], rows, sys))
      && (r.Ok? ==> SameShape(rows, r.value))
  {
    var run := (xs: seq<UpdateItem>) => ApplyRules(UpdateOps(xs), rows, sys);
    var fits := (item: UpdateItem) => UpdateFits(item, rows, sys);
    var good := (xs: seq<UpdateItem>, r: RuleRows) => SameShape(rows, r);
    assert UpdateOps([]) == [] && run([]) == Ok(rows);
    forall xs | xs != [] ensures ListStep(xs, run, fits, good) { UpdateListStep(xs, rows, sys); }
    ListGoesThroughIff(items, run, fits, good);
  }

  lemma LastCreate(items: seq<CreateItem>, rows: RuleRows, sys: Accounts)
    requires items != []
    ensures var n := |items| - 1;
      ApplyRules(CreateOps(items), rows, sys).Ok?
      <==> ApplyRules(CreateOps(items[..n]), rows, sys).Ok? && CreateFits(items[n], sys)
  {
    assert CreateOps(items)[..|items| - 1] == CreateOps(items[..|items| - 1]);
  }

  lemma CreatesGoThroughIff(items: seq<CreateItem>, rows: RuleRows, sys: Accounts)
    ensures ApplyRules(CreateOps(items), rows, sys).Ok? <==> forall i :: 0 <= i < |items| ==> CreateFits(items[i], sys)
  {
    var run := (xs: seq<CreateItem>) => ApplyRules(CreateOps(xs), rows, sys);
    var fits := (item: CreateItem) => CreateFits(item, sys);
    var good := (xs: seq<CreateItem>, r: RuleRows) => true;
    assert CreateOps([]) == [] && run([]) == Ok(rows);
    forall xs | xs != [] ensures ListStep(xs, run, fits, good) { LastCreate(xs, rows, sys); }
    ListGoesThroughIff(items, run, fits, good);
  }

  /** A request goes through if and only if it fits: every deleted id parses, every
      updated rule is there and not deleted by the same request, with an account to
      replace where one is sent, and every new rule is valid. */
  lemma RequestGoesThroughIff(form: Form, rows: RuleRows, sys: Accounts)
    ensures ApplyRules(Ops(form), rows, sys).Ok? <==> RequestFits(form, rows, sys)
  {
    var d, u, c := DeleteOps(form.deleted), UpdateOps(form.updated), CreateOps(form.created);
    ApplyRulesConcat(d + u, c, rows, sys);
    ApplyRulesConcat(d, u, rows, sys);
    DeletesGoThroughIff(form.deleted, rows, sys);
    var left := rows - ParsedIds(form.deleted);
    UpdatesGoThroughIff(form.updated, left, sys);
    if ApplyRules(d + u, rows, sys).Ok? { CreatesGoThroughIff(form.created, ApplyRules(d + u, rows, sys).value, sys); }
  }

  /** A page that updates a rule another page has deleted in the meantime sends a
      request that does not go through. */
  lemma StaleUpdateThrows(rows: RuleRows, item: UpdateItem, id: Id, sys: Accounts)
    requires id !in rows && item.id == ToString(id)
    ensures ApplyRules(Ops(Form([], [item], [], [])), rows, sys).Err?
  {
    var form := Form([], [item], [], []);
    RequestGoesThroughIff(form, rows, sys);
    assert NulFree(item.id) by { assert forall i :: 0 <= i < |item.id| ==> IsDigit(item.id[i]); }
    CStrFixed(item.id);
    IdSurvivesPrinting(id);
    assert !UpdateFits(form.updated[0], rows - ParsedIds(form.deleted), sys);
  }

  // -------------------------------------------------------- the D-Bus method

  class DbusMethods {
    const permissions: DevicePermissions

    constructor (permissions: DevicePermissions)
      ensures this.permissions == permissions
    {
      this.permissions := permissions;
    }

    method DeleteRules(ids: seq<string>, ghost sys: Accounts) returns (r: Result<()>)
      requires permissions.base.transactionStarted
      modifies permissions.base`data, permissions.base`file
      ensures permissions.base.file == old(permissions.base.file)
      ensures Outcome(r, DeleteOps(ids), old(permissions.base.data), permissions.base.data, sys)
    {
      ghost var rows := permissions.base.data;
      for i := 0 to |ids|
        invariant permissions.base.file == old(permissions.base.file)
        invariant ApplyRules(DeleteOps(ids)[..i], rows, sys) == Ok(permissions.base.data)
      {
        NextStep(DeleteOps(ids), i, rows, sys);
        var id := StrToUint(CStr(ids[i]));
        if id.Err? { return Err(id.error); }
        permissions.base.Delete(id.value);
      }
      assert DeleteOps(ids)[..|ids|] == DeleteOps(ids);
      r := Ok(());
    }

    method PatchOriginalDevice(device: Device, item: UpdateItem) returns (original: Device)
      ensures original == PatchDevice(device, item)
    {
      original := device;
      var vid, pid, serial := CStr(item.vid), CStr(item.pid), CStr(item.serial);
      if vid != "" { original := original.(vid := vid); }
      if pid != "" { original := original.(pid := pid); }
      if serial != "" { original := original.(serial := serial); }
    }

    /** Edits a local copy of the stored entry field by field. */
    method PatchOriginal(stored: PermissionEntry, item: UpdateItem, sys: Accounts) returns (r: Result<PermissionEntry>)
      ensures r == Patch(stored, item, sys)
    {
      var device := PatchOriginalDevice(stored.device, item);
      var users, groups := stored.users, stored.groups;
      var user, group := CStr(item.user), CStr(item.group);
      if user == "--" { user := "root"; }
      if user != "" && sys.users != [] {
        var found := FindUser(sys.users, user);
        if found.Some? {
          if users == [] { return Err(OutOfRange); }
          users := users[0 := found.value];
        }
      }
      assert PatchUser(stored.users, item, sys) == Ok(users);
      if group != "" && sys.groups != [] {
        var found := FindGroup(sys.groups, group);
        if found.Some? {
          if groups == [] { return Err(OutOfRange); }
          groups := groups[0 := found.value];
        }
      }
      assert PatchGroup(stored.groups, item, sys) == Ok(groups);
      r := Ok(CPermission(PermissionEntry(device, users, groups)));
    }

    method UpdateRule(item: UpdateItem, sys: Accounts) returns (r: Result<()>)
      requires permissions.base.transactionStarted
      modifies permissions.base`data, permissions.base`file
      ensures permissions.base.file == old(permissions.base.file)
      ensures ApplyRule(RuleOp.UpdateRule(item), old(permissions.base.data), sys)
              == if r.Ok? then Ok(permissions.base.data) else Err(r.error)
    {
      var id := StrToUint(CStr(item.id));
      if id.Err? { return Err(id.error); }
      var read := permissions.Read(id.value);
      if read.Err? { return Err(read.error); }
      var entry := PatchOriginal(read.value, item, sys);
      if entry.Err? { return Err(entry.error); }
      r := permissions.base.Update(id.value, entry.value);
    }

    method UpdateRules(items: seq<UpdateItem>, sys: Accounts) returns (r: Result<()>)
      requires permissions.base.transactionStarted
      modifies permissions.base`data, permissions.base`file
      ensures permissions.base.file == old(permissions.base.file)
      ensures Outcome(r, UpdateOps(items), old(permissions.base.data), permissions.base.data, sys)
    {
      ghost var rows := permissions.base.data;
      for i := 0 to |items|
        invariant permissions.base.file == old(permissions.base.file)
        invariant ApplyRules(UpdateOps(items)[..i], rows, sys) == Ok(permissions.base.data)
      {
        ghost var ops, before := UpdateOps(items), permissions.base.data;
        r := UpdateRule(items[i], sys);
        NextOutcome(r, ops, i, rows, before, permissions.base.data, sys);
        if r.Err? { return; }
      }
      assert UpdateOps(items)[..|items|] == UpdateOps(items);
      r := Ok(());
    }

    method CreateRules(items: seq<CreateItem>, sys: Accounts) returns (r: Result<()>)
      requires permissions.base.transactionStarted
      modifies permissions.base`data, permissions.base`file
      ensures permissions.base.file == old(permissions.base.file)
      ensures Outcome(r, CreateOps(items), old(permissions.base.data), permissions.base.data, sys)
    {
      ghost var rows := permissions.base.data;
      for i := 0 to |items|
        invariant permissions.base.file == old(permissions.base.file)
        invariant ApplyRules(CreateOps(items)[..i], rows, sys) == Ok(permissions.base.data)
      {
        NextStep(CreateOps(items), i, rows, sys);
        var vid, pid, serial := CStr(items[i].vid), CStr(items[i].pid), CStr(items[i].serial);
        var user := CStr(items[i].user);
        if user == "--" { user := "root"; }
        var group := CStr(items[i].group);
        var systemUser := FindUser(sys.users, user);
        var systemGroup := FindGroup(sys.groups, group);
        if !ValidVid(vid) || !ValidVid(pid) || serial == "" || user == "" || group == ""
           || systemGroup.None? || systemUser.None? {
          return Err(InvalidArgument);
        }
        var entry := PermissionEntry(Device(vid, pid, serial), [systemUser.value], [systemGroup.value]);
        var twin := permissions.Find(entry.device);
        if twin.None? {
          permissions.Create(entry);
        }
      }
      assert CreateOps(items)[..|items|] == CreateOps(items);
      r := Ok(());
    }

    /** Runs the three lists in one transaction. When an element throws, the
        transaction is left open: the flag stays up and nothing is written. */
    method SaveRules(form: Form, sys: Accounts, opens: bool) returns (ghost r: Result<RuleRows>)
      requires !permissions.base.transactionStarted
      modifies permissions.base
      ensures r == ApplyRules(Ops(form), old(permissions.base.data), sys)
      ensures r.Ok? ==> permissions.base.data == r.value && !permissions.base.transactionStarted
      ensures r.Ok? ==> permissions.base.file == if opens then Some(TableJson(r.value, permissions.base.show))
                                                 else old(permissions.base.file)
      ensures r.Err? ==> permissions.base.transactionStarted && permissions.base.file == old(permissions.base.file)
      ensures permissions.base.transactionStarted <==> !RequestFits(form, old(permissions.base.data), sys)
    {
      ghost var rows := permissions.base.data;
      RequestGoesThroughIff(form, rows, sys);
      ghost var d, u, c := DeleteOps(form.deleted), UpdateOps(form.updated), CreateOps(form.created);
      ApplyRulesConcat(d + u, c, rows, sys);
      ApplyRulesConcat(d, u, rows, sys);
      permissions.base.StartTransaction();
      var deleted := DeleteRules(form.deleted, sys);
      if deleted.Err? { return Err(deleted.error); }
      var updated := UpdateRules(form.updated, sys);
      if updated.Err? { return Err(updated.error); }
      var created := CreateRules(form.created, sys);
      if created.Err? { return Err(created.error); }
      r := Ok(permissions.base.data);
      var ok := permissions.base.ProcessTransaction(opens);
    }
  }

  /** How a loop over one list ends: with the batch applied, or with the
      exception the batch ends in. */
  ghost predicate Outcome(r: Result<()>, ops: seq<RuleOp>, before: RuleRows, after: RuleRows, sys: Accounts) {
    ApplyRules(ops, before, sys) == if r.Ok? then Ok(after) else Err(r.error)
  }

  lemma NextOutcome(r: Result<()>, ops: seq<RuleOp>, i: nat, rows: RuleRows, before: RuleRows, after: RuleRows,
      sys: Accounts)
    requires i < |ops| && ApplyRules(ops[..i], rows, sys) == Ok(before)
    requires ApplyRule(ops[i], before, sys) == if r.Ok? then Ok(after) else Err(r.error)
    ensures ApplyRules(if r.Ok? then ops[..i + 1] else ops, rows, sys) == if r.Ok? then Ok(after) else Err(r.error)
  {
    NextStep(ops, i, rows, sys);
  }

  lemma ErrorStops(ops: seq<RuleOp>, i: nat, rows: RuleRows, sys: Accounts)
    requires i <= |ops| && ApplyRules(ops[..i], rows, sys).Err?
    ensures ApplyRules(ops, rows, sys) == ApplyRules(ops[..i], rows, sys)
  {
    ApplyRulesConcat(ops[..i], ops[i..], rows, sys);
    assert ops[..i] + ops[i..] == ops;
  }

  lemma {:induction false} NextStep(ops: seq<RuleOp>, i: nat, rows: RuleRows, sys: Accounts)
    requires i < |ops| && ApplyRules(ops[..i], rows, sys).Ok?
    ensures var r := ApplyRule(ops[i], ApplyRules(ops[..i], rows, sys).value, sys);
      ApplyRules(ops[..i + 1], rows, sys) == r && (r.Err? ==> ApplyRules(ops, rows, sys) == r)
  {
    assert ops[..i + 1][..i] == ops[..i];
    if ApplyRules(ops[..i + 1], rows, sys).Err? { ErrorStops(ops, i + 1, rows, sys); }
  }
}
