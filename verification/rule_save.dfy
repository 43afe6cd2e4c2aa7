/** Saving the rules form end to end: the difference the page sends, applied by
    the daemon, turns the table into what the page shows. */
module RuleSave {
  import opened Wrappers
  import opened Text
  import opened Dto
  import opened Tables
  import opened RuleStore
  import opened RulePatch
  import opened RuleForm
  import opened RulePlan

  // -------------------------------------------------- a page and its table

  function ShownUser(name: string): string { if name == "root" then "--" else name }

  /** A cell differs from the stored value only when it carries the changed
      mark. */
  ghost predicate RowLoaded(r: FormRow, id: Id, e: PermissionEntry) {
    && r.ruleId == ToString(id)
    && e.users != [] && e.groups != []
    && (!r.vid.changed ==> r.vid.text == e.device.vid)
    && (!r.pid.changed ==> r.pid.text == e.device.pid)
    && (!r.serial.changed ==> r.serial.text == e.device.serial)
    && (!r.user.changed ==> r.user.text == ShownUser(e.users[0].name))
    && (!r.group.changed ==> r.group.text == e.groups[0].name)
  }

  /** The rows that are not appended were loaded from the current table: row i
      from the rule with id `ids[i]`, and every rule has its row. */
  ghost predicate Loaded(rows: seq<FormRow>, ids: seq<Id>, table: RuleRows) {
    && |ids| == |rows|
    && (forall i :: 0 <= i < |rows| && !rows[i].appended ==>
      ids[i] in table && RowLoaded(rows[i], ids[i], table[ids[i]]))
    && (forall i, j ::
          0 <= i < |rows| && 0 <= j < |rows| && !rows[i].appended && !rows[j].appended && ids[i] == ids[j] ==> i == j)
    && (forall id :: id in table ==> exists i :: 0 <= i < |rows| && !rows[i].appended && ids[i] == id)
    && (forall i :: 0 <= i < |rows| && rows[i].appended ==> !rows[i].deleted)
  }

  predicate KnownUser(c: Cell, sys: Accounts) {
    NulFree(T(c.text)) && FindUser(sys.users, AccountName(T(c.text))).Some?
  }

  predicate KnownGroup(c: Cell, sys: Accounts) {
    NulFree(T(c.text)) && FindGroup(sys.groups, T(c.text)).Some?
  }

  /** A live row the page lets through: edited cells are filled in, and accounts
      are known; an appended row names a device by valid ids. */
  predicate Acceptable(r: FormRow, sys: Accounts) {
    && (r.appended || SomeChanged(r) ==> AllFields(r))
    && (r.appended || r.vid.changed ==> NulFree(T(r.vid.text)))
    && (r.appended || r.pid.changed ==> NulFree(T(r.pid.text)))
    && (r.appended || r.serial.changed ==> NulFree(T(r.serial.text)))
    && (r.appended || r.user.changed ==> KnownUser(r.user, sys))
    && (r.appended || r.group.changed ==> KnownGroup(r.group, sys))
    && (r.appended ==> SomeChanged(r) && ValidVid(T(r.vid.text)) && ValidVid(T(r.pid.text)))
  }

  ghost predicate AccountsOk(sys: Accounts) {
    && (forall u :: u in sys.users ==> NulFree(u.name))
    && (forall g :: g in sys.groups ==> NulFree(g.name))
  }

  /** Every stored rule has a user and a group, and no string holds a NUL. */
  ghost predicate WellFormed(table: RuleRows) {
    forall id :: id in table ==> FitRule(table[id])
  }

  ghost predicate FitRule(e: PermissionEntry) {
    NulFreePermission(e) && e.users != [] && e.groups != []
  }

  /** What the page may submit against a table. */
  ghost predicate Submittable(rows: seq<FormRow>, ids: seq<Id>, table: RuleRows, sys: Accounts) {
    && Loaded(rows, ids, table)
    && NoDuplicates(rows)
    && AccountsOk(sys)
    && (forall i :: 0 <= i < |rows| && !rows[i].deleted ==> Acceptable(rows[i], sys))
    && var plan := PlanOf(rows, ids, table, sys); Room(KeptIds(plan), |Added(plan)|)
  }

  // ------------------------------------------------------- what it should do

  /** The stored rule with the marked cells replaced by what the page shows. */
  function Edited(r: FormRow, e: PermissionEntry, sys: Accounts): PermissionEntry {
    var user, group := FindUser(sys.users, AccountName(T(r.user.text))), FindGroup(sys.groups, T(r.group.text));
    PermissionEntry(
      Device(if r.vid.changed then T(r.vid.text) else e.device.vid,
             if r.pid.changed then T(r.pid.text) else e.device.pid,
             if r.serial.changed then T(r.serial.text) else e.device.serial),
      if r.user.changed && user.Some? && e.users != [] then e.users[0 := user.value] else e.users,
      if r.group.changed && group.Some? && e.groups != [] then e.groups[0 := group.value] else e.groups)
  }

  function Entered(r: FormRow, sys: Accounts): PermissionEntry {
    var user, group := FindUser(sys.users, AccountName(T(r.user.text))), FindGroup(sys.groups, T(r.group.text));
    PermissionEntry(Device(T(r.vid.text), T(r.pid.text), T(r.serial.text)),
                    if user.Some? then [user.value] else [],
                    if group.Some? then [group.value] else [])
  }

  function StepOf(r: FormRow, id: Id, e: PermissionEntry, sys: Accounts): Step {
    if r.appended then Add(Entered(r, sys), CreateItemOf(r))
    else if r.deleted then Drop(id)
    else Keep(id, e, Edited(r, e, sys), if SomeChanged(r) then Some(UpdateItemOf(r)) else None)
  }

  function Stored(table: RuleRows, id: Id): PermissionEntry {
    if id in table then table[id] else PermissionEntry(Device("", "", ""), [], [])
  }

  function PlanOf(rows: seq<FormRow>, ids: seq<Id>, table: RuleRows, sys: Accounts): seq<Step>
    requires |ids| == |rows|
  {
    seq(|rows|, i requires 0 <= i < |rows| => StepOf(rows[i], ids[i], Stored(table, ids[i]), sys))
  }

  /** The cell shows the user: "--" stands for root, any other text for itself. */
  predicate NamesUser(text: string, name: string) {
    if T(text) == "--" then name == "root" || name == text else name == T(text) || name == text
  }

  /** A rule reads as the row shows it, up to white space around the cells. */
  ghost predicate Shows(r: FormRow, e: PermissionEntry) {
    && T(e.device.vid) == T(r.vid.text) && T(e.device.pid) == T(r.pid.text) && T(e.device.serial) == T(r.serial.text)
    && e.users != [] && NamesUser(r.user.text, e.users[0].name)
    && e.groups != [] && (e.groups[0].name == T(r.group.text) || r.group.text == e.groups[0].name)
  }

  // ------------------------------------------------------------ one row

  /** A printed id passes unchanged through the trim of the page. */
  lemma RuleIdSurvives(id: Id)
    ensures T(ToString(id)) == ToString(id) && StrToUint(CStr(T(ToString(id)))) == Ok(id)
  {
    var s := ToString(id);
    assert IsDigit(s[0]) && IsDigit(s[|s| - 1]);
    TrimIsTrimmed(s, JsSpace);
    PrintedIdParses(id);
  }

  lemma SentCell(c: Cell)
    requires c.changed ==> NulFree(T(c.text)) && T(c.text) != ""
    ensures CStr(Sent(c)) == if c.changed then T(c.text) else ""
  {
    if c.changed { CStrFixed(T(c.text)); }
  }

  lemma AccountsAreNulFree(r: FormRow, sys: Accounts)
    requires AccountsOk(sys)
    ensures var u := FindUser(sys.users, AccountName(T(r.user.text))); u.Some? ==> NulFree(u.value.name)
    ensures var g := FindGroup(sys.groups, T(r.group.text)); g.Some? ==> NulFree(g.value.name)
  {
  }

  lemma EditedIsNulFree(r: FormRow, e: PermissionEntry, sys: Accounts)
    requires FitRule(e) && Acceptable(r, sys) && AccountsOk(sys)
    ensures FitRule(Edited(r, e, sys))
  {
    AccountsAreNulFree(r, sys);
  }

  lemma DeviceIsEdited(r: FormRow, e: PermissionEntry, sys: Accounts)
    requires Acceptable(r, sys)
    ensures PatchDevice(e.device, UpdateItemOf(r)) == Edited(r, e, sys).device
  {
    SentCell(r.vid);
    SentCell(r.pid);
    SentCell(r.serial);
  }

  lemma AccountsAreEdited(r: FormRow, e: PermissionEntry, sys: Accounts)
    requires FitRule(e) && Acceptable(r, sys)
    ensures PatchUser(e.users, UpdateItemOf(r), sys) == Ok(Edited(r, e, sys).users)
    ensures PatchGroup(e.groups, UpdateItemOf(r), sys) == Ok(Edited(r, e, sys).groups)
  {
    SentCell(r.user);
    SentCell(r.group);
  }

  /** The daemon's patch of one sent row is the edit the page shows. */
  lemma PatchIsEdited(r: FormRow, e: PermissionEntry, sys: Accounts)
    requires FitRule(e) && Acceptable(r, sys) && AccountsOk(sys) && SomeChanged(r)
    ensures Patch(e, UpdateItemOf(r), sys) == Ok(Edited(r, e, sys))
  {
    DeviceIsEdited(r, e, sys);
    AccountsAreEdited(r, e, sys);
    EditedIsNulFree(r, e, sys);
    CPermissionFixed(Edited(r, e, sys));
  }

  lemma NewRuleIsEntered(r: FormRow, sys: Accounts)
    requires r.appended && Acceptable(r, sys)
    ensures NewRule(CreateItemOf(r), sys) == Ok(Entered(r, sys))
  {
    CStrFixed(T(r.vid.text));
    CStrFixed(T(r.pid.text));
    CStrFixed(T(r.serial.text));
    CStrFixed(T(r.user.text));
    CStrFixed(T(r.group.text));
  }

  lemma RowIsSound(r: FormRow, id: Id, e: PermissionEntry, sys: Accounts)
    requires !r.appended ==> RowLoaded(r, id, e) && FitRule(e)
    requires (!r.deleted || r.appended) ==> Acceptable(r, sys)
    requires AccountsOk(sys)
    ensures Sound(StepOf(r, id, e, sys), sys)
  {
    if r.appended {
      NewRuleIsEntered(r, sys);
    } else if !r.deleted {
      if SomeChanged(r) {
        RuleIdSurvives(id);
        PatchIsEdited(r, e, sys);
      } else {
        assert Edited(r, e, sys) == e;
      }
    }
  }

  /** What a surviving row becomes reads as the row shows it. */
  lemma RowIsShown(r: FormRow, id: Id, e: PermissionEntry, sys: Accounts)
    requires !r.appended ==> RowLoaded(r, id, e)
    requires Acceptable(r, sys) && (r.appended || !r.deleted)
    ensures Shows(r, Final(StepOf(r, id, e, sys)))
  {
    TrimIsTrimmed(r.vid.text, JsSpace);
    TrimIsTrimmed(r.pid.text, JsSpace);
    TrimIsTrimmed(r.serial.text, JsSpace);
    TrimIsTrimmed(T(r.vid.text), JsSpace);
    TrimIsTrimmed(T(r.pid.text), JsSpace);
    TrimIsTrimmed(T(r.serial.text), JsSpace);
  }

  lemma RowKind(form: Form, r: FormRow, id: Id, e: PermissionEntry, sys: Accounts)
    requires !r.appended ==> r.ruleId == ToString(id)
    requires r.appended ==> !r.deleted
    requires !r.deleted ==> Acceptable(r, sys)
    ensures var s := StepOf(r, id, e, sys);
      && AddRow(form, r).created == form.created + (if s.Add? then [s.create] else [])
      && AddRow(form, r).deleted == form.deleted + (if s.Drop? then [ToString(s.id)] else [])
      && AddRow(form, r).updated == form.updated + (if s.Keep? && s.update.Some? then [s.update.value] else [])
  {
    if r.appended {
      assert !IsExisting(r) && IsCreated(r) && AllFields(r);
    } else {
      RuleIdSurvives(id);
      assert IsExisting(r);
      assert !r.deleted && SomeChanged(r) ==> AllFields(r);
    }
  }

  // ------------------------------------------------------------ the whole page

  /** The three lists of the request are the three lists of the plan. */
  lemma LastRow(rows: seq<FormRow>, n: nat)
    requires 0 < n <= |rows|
    ensures FormOf(rows[..n]) == AddRow(FormOf(rows[..n - 1]), rows[n - 1])
  {
    assert rows[..n][..n - 1] == rows[..n - 1];
  }

  lemma LastStep(plan: seq<Step>, n: nat)
    requires 0 < n <= |plan|
    ensures var s := plan[n - 1];
      && Deletes(plan[..n]) == Deletes(plan[..n - 1]) + (if s.Drop? then [ToString(s.id)] else [])
      && Updates(plan[..n]) == Updates(plan[..n - 1]) + (if s.Keep? && s.update.Some? then [s.update.value] else [])
      && Creates(plan[..n]) == Creates(plan[..n - 1]) + (if s.Add? then [s.create] else [])
  {
    assert plan[..n][..n - 1] == plan[..n - 1];
  }

  /** The lists of a form are those of a plan. */
  predicate Carried(form: Form, plan: seq<Step>) {
    form.deleted == Deletes(plan) && form.updated == Updates(plan) && form.created == Creates(plan)
  }

  predicate RowFits(r: FormRow, id: Id, sys: Accounts) {
    && (!r.appended ==> r.ruleId == ToString(id)) && (r.appended ==> !r.deleted) && (!r.deleted ==> Acceptable(r, sys))
  }

  lemma CarriesNext(form: Form, plan: seq<Step>, n: nat, r: FormRow, id: Id, e: PermissionEntry, sys: Accounts)
    requires n < |plan| && Carried(form, plan[..n]) && plan[n] == StepOf(r, id, e, sys) && RowFits(r, id, sys)
    ensures Carried(AddRow(form, r), plan[..n + 1])
  {
    RowKind(form, r, id, e, sys);
    LastStep(plan, n + 1);
  }

  lemma {:induction false} FormCarriesPlan(rows: seq<FormRow>, ids: seq<Id>, table: RuleRows, sys: Accounts, n: nat)
    requires |ids| == |rows| && n <= |rows|
    requires forall i :: 0 <= i < |rows| ==> RowFits(rows[i], ids[i], sys)
    ensures Carried(FormOf(rows[..n]), PlanOf(rows, ids, table, sys)[..n])
  {
    if n > 0 {
      var m := n - 1;
      FormCarriesPlan(rows, ids, table, sys, m);
      LastRow(rows, n);
      assert RowFits(rows[m], ids[m], sys);
      CarriesNext(FormOf(rows[..m]), PlanOf(rows, ids, table, sys), m, rows[m], ids[m], Stored(table, ids[m]), sys);
    }
  }

  lemma PageKeysSeparate(rows: seq<FormRow>, ids: seq<Id>, table: RuleRows, sys: Accounts)
    requires Loaded(rows, ids, table) && NoDuplicates(rows)
    requires forall i :: 0 <= i < |rows| && !rows[i].deleted ==>
        Shows(rows[i], Final(StepOf(rows[i], ids[i], Stored(table, ids[i]), sys)))
    ensures DistinctDevices(PlanOf(rows, ids, table, sys))
  {
    var plan := PlanOf(rows, ids, table, sys);
    forall i, j | 0 <= i < |plan| && 0 <= j < |plan| && !plan[i].Drop? && !plan[j].Drop?
                  && Final(plan[i]).device == Final(plan[j]).device
      ensures i == j
    {
      assert Shows(rows[i], Final(plan[i])) && Shows(rows[j], Final(plan[j]));
      assert Key(rows[i]) == Key(rows[j]);
      assert Keys(rows)[i] == Some(Key(rows[i])) && Keys(rows)[j] == Some(Key(rows[j]));
      assert !SameKey(Keys(rows), i, j);
    }
  }

  lemma StepIds(r: FormRow, id: Id, e: PermissionEntry, sys: Accounts)
    ensures var s := StepOf(r, id, e, sys);
      (s.Add? <==> r.appended) && (!s.Add? ==> s.id == id) && (s.Keep? ==> s.was == e)
  {
  }

  lemma PlanCovers(rows: seq<FormRow>, ids: seq<Id>, table: RuleRows, plan: seq<Step>)
    requires Loaded(rows, ids, table) && |plan| == |rows|
    requires forall i :: 0 <= i < |rows| ==>
      (plan[i].Add? <==> rows[i].appended) && (!plan[i].Add? ==> plan[i].id == ids[i])
      && (plan[i].Keep? ==> plan[i].was == Stored(table, ids[i]))
    ensures Covers(plan, table)
  {
    forall id | id in table ensures exists i :: 0 <= i < |plan| && !plan[i].Add? && plan[i].id == id {
      var i :| 0 <= i < |rows| && !rows[i].appended && ids[i] == id;
      assert !plan[i].Add? && plan[i].id == id;
    }
  }

  /** What a submitted page comes down to: a good plan, a request that carries
      it, and rows that read as the rules they become. */
  ghost predicate PageMeans(rows: seq<FormRow>, form: Form, plan: seq<Step>, table: RuleRows, sys: Accounts) {
    && |rows| == |plan|
    && GoodPlan(plan, table, sys)
    && form.deleted == Deletes(plan) && form.updated == Updates(plan) && form.created == Creates(plan)
    && StepsAreShown(rows, plan)
  }

  ghost predicate StepsAreShown(rows: seq<FormRow>, plan: seq<Step>)
    requires |rows| == |plan|
  {
    forall i :: 0 <= i < |plan| && !plan[i].Drop? ==> Shows(rows[i], Final(plan[i]))
  }

  lemma StepsAreSoundAndShown(rows: seq<FormRow>, ids: seq<Id>, table: RuleRows, sys: Accounts, i: nat)
    requires Submittable(rows, ids, table, sys) && WellFormed(table) && i < |rows|
    ensures var s := StepOf(rows[i], ids[i], Stored(table, ids[i]), sys);
      && Sound(s, sys) && (!rows[i].deleted ==> Shows(rows[i], Final(s)))
      && (s.Add? <==> rows[i].appended) && (!s.Add? ==> s.id == ids[i]) && (s.Keep? ==> s.was == Stored(table, ids[i]))
  {
    RowIsSound(rows[i], ids[i], Stored(table, ids[i]), sys);
    StepIds(rows[i], ids[i], Stored(table, ids[i]), sys);
    if !rows[i].deleted { RowIsShown(rows[i], ids[i], Stored(table, ids[i]), sys); }
  }

  lemma PlanIsGood(rows: seq<FormRow>, ids: seq<Id>, table: RuleRows, sys: Accounts)
    requires Submittable(rows, ids, table, sys) && WellFormed(table)
    ensures var plan := PlanOf(rows, ids, table, sys); GoodPlan(plan, table, sys) && StepsAreShown(rows, plan)
  {
    var plan := PlanOf(rows, ids, table, sys);
    forall i | 0 <= i < |rows| ensures
      && Sound(plan[i], sys) && (!rows[i].deleted ==> Shows(rows[i], Final(plan[i])))
      && (plan[i].Add? <==> rows[i].appended) && (!plan[i].Add? ==> plan[i].id == ids[i])
      && (plan[i].Keep? ==> plan[i].was == Stored(table, ids[i]))
    {
      StepsAreSoundAndShown(rows, ids, table, sys, i);
    }
    PlanCovers(rows, ids, table, plan);
    PageKeysSeparate(rows, ids, table, sys);
  }

  lemma SubmittedPageMeans(rows: seq<FormRow>, ids: seq<Id>, table: RuleRows, sys: Accounts)
    requires Submittable(rows, ids, table, sys) && WellFormed(table)
    ensures PageMeans(rows, FormOf(rows), PlanOf(rows, ids, table, sys), table, sys)
  {
    var plan := PlanOf(rows, ids, table, sys);
    PlanIsGood(rows, ids, table, sys);
    FormCarriesPlan(rows, ids, table, sys, |rows|);
    assert rows[..|rows|] == rows && plan[..|plan|] == plan;
  }

  ghost predicate RulesAreShown(rows: seq<FormRow>, plan: seq<Step>, after: RuleRows)
    requires |rows| == |plan|
  {
    forall id :: id in after ==> exists j: nat :: j < |rows| && Owns(plan, after, id, j) && Shows(rows[j], after[id])
  }

  lemma OwnedIsShown(rows: seq<FormRow>, plan: seq<Step>, after: RuleRows)
    requires |rows| == |plan| && StepsAreShown(rows, plan) && CarriedOut(plan, after)
    ensures RulesAreShown(rows, plan, after)
  {
    forall id | id in after
      ensures exists j: nat :: j < |rows| && Owns(plan, after, id, j) && Shows(rows[j], after[id])
    {
      var j := EveryRuleIsOwned(plan, after, id);
    }
  }

  /** Applying the request of a page carries out the page: kept rows stay at
      their ids with their marked cells replaced, appended rows follow above,
      nothing else is left, and every rule reads as its row shows it. */
  lemma SaveRulesIsExact(rows: seq<FormRow>, ids: seq<Id>, table: RuleRows, sys: Accounts) returns (after: RuleRows)
    requires Submittable(rows, ids, table, sys) && WellFormed(table)
    ensures ApplyRules(Ops(FormOf(rows)), table, sys) == Ok(after)
    ensures CarriedOut(PlanOf(rows, ids, table, sys), after)
    ensures RulesAreShown(rows, PlanOf(rows, ids, table, sys), after)
  {
    SubmittedPageMeans(rows, ids, table, sys);
    after := PlanIsCarriedOut(PlanOf(rows, ids, table, sys), table, sys);
    OwnedIsShown(rows, PlanOf(rows, ids, table, sys), after);
  }

  // ------------------------------------------------------- an untouched page

  /** A rule as the page first shows it. */
  function PageRow(id: Id, e: PermissionEntry): FormRow
    requires e.users != [] && e.groups != []
  {
    FormRow(ToString(id), false, false,
            Cell(e.device.vid, false), Cell(e.device.pid, false), Cell(e.device.serial, false),
            Cell(ShownUser(e.users[0].name), false), Cell(e.groups[0].name, false))
  }

  ghost predicate Listing(ids: seq<Id>, table: RuleRows) {
    && (forall i, j :: 0 <= i < j < |ids| ==> ids[i] != ids[j])
    && (forall id :: id in ids <==> id in table)
  }

  lemma {:induction false} UnmarkedSendsNothing(rows: seq<FormRow>)
    requires forall i :: 0 <= i < |rows| ==> !rows[i].appended && !rows[i].deleted && !SomeChanged(rows[i])
    ensures var form := FormOf(rows); form.created == [] && form.updated == [] && form.deleted == []
  {
    if rows != [] { UnmarkedSendsNothing(rows[..|rows| - 1]); }
  }

  lemma {:induction false} NothingAdded(plan: seq<Step>)
    requires forall i :: 0 <= i < |plan| ==> !plan[i].Add?
    ensures Added(plan) == []
  {
    if plan != [] { NothingAdded(plan[..|plan| - 1]); }
  }

  lemma KeptHaveRoom(plan: seq<Step>)
    ensures Top(KeptIds(plan)) <= U64
  {
  }

  ghost predicate Untouched(rows: seq<FormRow>, ids: seq<Id>, table: RuleRows) {
    && WellFormed(table) && Listing(ids, table) && |rows| == |ids|
    && forall i :: 0 <= i < |rows| ==> ids[i] in table && rows[i] == PageRow(ids[i], table[ids[i]])
  }

  lemma UntouchedIsLoaded(rows: seq<FormRow>, ids: seq<Id>, table: RuleRows)
    requires Untouched(rows, ids, table)
    ensures Loaded(rows, ids, table)
    ensures forall i :: 0 <= i < |rows| ==> !rows[i].appended && !rows[i].deleted && !SomeChanged(rows[i])
  {
    assert forall id :: id in table ==> id in ids;
  }

  lemma UntouchedHasRoom(rows: seq<FormRow>, ids: seq<Id>, table: RuleRows, sys: Accounts)
    requires |ids| == |rows| && forall i :: 0 <= i < |rows| ==> !rows[i].appended
    ensures var plan := PlanOf(rows, ids, table, sys); Room(KeptIds(plan), |Added(plan)|)
  {
    var plan := PlanOf(rows, ids, table, sys);
    forall i | 0 <= i < |plan| ensures !plan[i].Add? { StepIds(rows[i], ids[i], Stored(table, ids[i]), sys); }
    NothingAdded(plan);
    KeptHaveRoom(plan);
  }

  /** The page as it was loaded may be submitted whenever its keys are distinct,
      and then the table stays as it is. */
  lemma UntouchedPageKeepsTable(rows: seq<FormRow>, ids: seq<Id>, table: RuleRows, sys: Accounts)
    requires Untouched(rows, ids, table) && AccountsOk(sys) && NoDuplicates(rows)
    ensures Submittable(rows, ids, table, sys)
    ensures ApplyRules(Ops(FormOf(rows)), table, sys) == Ok(table)
  {
    UntouchedIsLoaded(rows, ids, table);
    UntouchedHasRoom(rows, ids, table, sys);
    UnmarkedSendsNothing(rows);
    NothingApplied(FormOf(rows), table, sys);
  }

  lemma NothingApplied(form: Form, table: RuleRows, sys: Accounts)
    requires form.created == [] && form.updated == [] && form.deleted == []
    ensures ApplyRules(Ops(form), table, sys) == Ok(table)
  {
    assert Ops(form) == [];
  }

  // ----------------------------------------------------------- unique devices

  lemma StepIsFit(r: FormRow, id: Id, e: PermissionEntry, sys: Accounts)
    requires !r.appended ==> FitRule(e)
    requires Acceptable(r, sys) && AccountsOk(sys) && (r.appended || !r.deleted)
    ensures FitRule(Final(StepOf(r, id, e, sys)))
  {
    AccountsAreNulFree(r, sys);
    if !r.appended { EditedIsNulFree(r, e, sys); }
  }

  /** A saved table holds at most one rule per device and stays well formed. */
  lemma SaveKeepsRulesUnique(rows: seq<FormRow>, ids: seq<Id>, table: RuleRows, sys: Accounts) returns (after: RuleRows)
    requires Submittable(rows, ids, table, sys) && WellFormed(table)
    ensures ApplyRules(Ops(FormOf(rows)), table, sys) == Ok(after)
    ensures UniqueDevices(after) && WellFormed(after)
  {
    var plan := PlanOf(rows, ids, table, sys);
    after := SaveRulesIsExact(rows, ids, table, sys);
    SubmittedPageMeans(rows, ids, table, sys);
    CarriedOutIsUnique(plan, after);
    forall id | id in after ensures FitRule(after[id]) {
      var j := EveryRuleIsOwned(plan, after, id);
      StepIsFit(rows[j], ids[j], Stored(table, ids[j]), sys);
    }
  }

  // ------------------------------------------------------------ many saves

  datatype Submission = Submission(rows: seq<FormRow>, ids: seq<Id>, sys: Accounts)

  ghost predicate SaveStep(before: RuleRows, save: Submission, after: RuleRows) {
    && Submittable(save.rows, save.ids, before, save.sys)
    && ApplyRules(Ops(FormOf(save.rows)), before, save.sys) == Ok(after)
  }

  /** A history of saves, each submitted against the table the one before left. */
  ghost predicate History(tables: seq<RuleRows>, saves: seq<Submission>) {
    && |tables| == |saves| + 1
    && forall k :: 0 <= k < |saves| ==> SaveStep(tables[k], saves[k], tables[k + 1])
  }

  lemma FirstIsOnly(table: RuleRows, id: Id)
    requires UniqueDevices(table) && id in table
    ensures FindRule(table, table[id].device) == Some(id)
  {
  }

  ghost predicate Healthy(table: RuleRows) { WellFormed(table) && UniqueDevices(table) }

  lemma {:induction false} InvariantOfHistory<A, B>(states: seq<A>, steps: seq<B>, step: (A, B, A) -> bool,
      inv: A -> bool, k: nat)
    requires |states| == |steps| + 1 && k < |states|
    requires forall i :: 0 <= i < |steps| ==> step(states[i], steps[i], states[i + 1])
    requires forall i :: 0 <= i < |steps| && inv(states[i]) && step(states[i], steps[i], states[i + 1]) ==>
        inv(states[i + 1])
    requires inv(states[0])
    ensures inv(states[k])
  {
    if k > 0 { InvariantOfHistory(states, steps, step, inv, k - 1); }
  }

  /** Over any history of saves there is at most one rule per device ... */
  lemma RulesStayUnique(tables: seq<RuleRows>, saves: seq<Submission>, k: nat)
    requires History(tables, saves) && k < |tables| && Healthy(tables[0])
    ensures Healthy(tables[k])
  {
    forall i | 0 <= i < |saves| && Healthy(tables[i]) ensures Healthy(tables[i + 1]) {
      StepKeepsHealth(tables[i], saves[i], tables[i + 1]);
    }
    InvariantOfHistory(tables, saves, SaveStep, Healthy, k);
  }

  lemma StepKeepsHealth(before: RuleRows, save: Submission, after: RuleRows)
    ensures SaveStep(before, save, after) && Healthy(before) ==> Healthy(after)
  {
    if SaveStep(before, save, after) && Healthy(before) {
      var saved := SaveKeepsRulesUnique(save.rows, save.ids, before, save.sys);
    }
  }

  /** ... so the rule `Find` returns for a device is the only one there is. */
  lemma FindIsUnambiguous(tables: seq<RuleRows>, saves: seq<Submission>, k: nat, id: Id)
    requires History(tables, saves) && k < |tables| && id in tables[k]
    requires Healthy(tables[0])
    ensures FindRule(tables[k], tables[k][id].device) == Some(id)
  {
    RulesStayUnique(tables, saves, k);
    FirstIsOnly(tables[k], id);
  }
}
