/** One rule per device, for every request on every table: pages loaded from the
    present table, and pages that another save has overtaken. */
module RuleRuns {
  import opened Wrappers
  import opened Text
  import opened Dto
  import opened Tables
  import opened RuleStore
  import opened RulePatch
  import opened RuleForm
  import opened RulePlan
  import opened RuleSave
  import opened Transactions
  import opened RuleTransactions

  // ----------------------------------------------- what a request does to keys

  predicate Names(item: UpdateItem, id: Id) { StrToUint(CStr(item.id)) == Ok(id) }

  /** The device of rule `id` after a list of updates. */
  function DeviceAfter(d: Device, id: Id, items: seq<UpdateItem>): Device {
    if items == [] then d
    else
      var before, last := DeviceAfter(d, id, items[..|items| - 1]), items[|items| - 1];
      if Names(last, id) then CDevice(PatchDevice(before, last)) else before
  }

  predicate Stays(form: Form, rows: RuleRows, id: Id) { id in rows && id !in ParsedIds(form.deleted) }

  /** The stored rules that are not deleted, in their updated form, name pairwise
      different devices. */
  ghost predicate EditsSeparate(form: Form, rows: RuleRows) {
    forall i, j :: Stays(form, rows, i) && Stays(form, rows, j) && i != j ==>
      DeviceAfter(rows[i].device, i, form.updated) != DeviceAfter(rows[j].device, j, form.updated)
  }

  // ------------------------------------------------------------- the updates

  /** The rules after a list of updates: the same ids, and the devices updated. */
  ghost predicate DevicesUpdated(rows: RuleRows, items: seq<UpdateItem>, after: RuleRows) {
    && after.Keys == rows.Keys
    && forall id :: id in rows ==> after[id].device == DeviceAfter(rows[id].device, id, items)
  }

  lemma PatchedDevice(e: PermissionEntry, item: UpdateItem, sys: Accounts)
    requires Patch(e, item, sys).Ok?
    ensures Patch(e, item, sys).value.device == CDevice(PatchDevice(e.device, item))
  {
  }

  lemma OneUpdate(item: UpdateItem, rows: RuleRows, sys: Accounts)
    requires ApplyRule(RuleOp.UpdateRule(item), rows, sys).Ok?
    ensures var after := ApplyRule(RuleOp.UpdateRule(item), rows, sys).value;
      && after.Keys == rows.Keys
      && forall id :: id in rows ==>
           after[id].device == if Names(item, id) then CDevice(PatchDevice(rows[id].device, item)) else rows[id].device
  {
    PatchedDevice(rows[StrToUint(CStr(item.id)).value], item, sys);
  }

  lemma LastUpdateDevices(items: seq<UpdateItem>, rows: RuleRows, sys: Accounts)
    requires items != []
    ensures var n := |items| - 1;
      var front, after := ApplyRules(UpdateOps(items[..n]), rows, sys), ApplyRules(UpdateOps(items), rows, sys);
      after.Ok? ==>
        front.Ok? && (DevicesUpdated(rows, items[..n], front.value) ==> DevicesUpdated(rows, items, after.value))
  {
    var n := |items| - 1;
    assert UpdateOps(items)[..n] == UpdateOps(items[..n]);
    var front := ApplyRules(UpdateOps(items[..n]), rows, sys);
    if front.Ok? && ApplyRules(UpdateOps(items), rows, sys).Ok? { OneUpdate(items[n], front.value, sys); }
  }

  lemma {:induction false} UpdatesGiveDevices(items: seq<UpdateItem>, rows: RuleRows, sys: Accounts)
    ensures var r := ApplyRules(UpdateOps(items), rows, sys); r.Ok? ==> DevicesUpdated(rows, items, r.value)
  {
    if items == [] {
      assert UpdateOps(items) == [];
    } else {
      LastUpdateDevices(items, rows, sys);
      UpdatesGiveDevices(items[..|items| - 1], rows, sys);
    }
  }

  // ------------------------------------------------------------- the creates

  /** Creating neither breaks nor repairs uniqueness. */
  lemma CreateUniqueIff(rows: RuleRows, e: PermissionEntry)
    requires FindRule(rows, e.device).None?
    ensures UniqueDevices(CreateRow(rows, e)) <==> UniqueDevices(rows)
  {
    var after, id := CreateRow(rows, e), NextId(rows.Keys);
    assert forall k :: k in rows ==> rows[k].device != e.device;
    if id !in rows {
      assert forall k :: k in rows ==> k in after && after[k] == rows[k];
      assert forall k :: k in after ==> k in rows || k == id;
    }
  }

  lemma OneCreate(item: CreateItem, rows: RuleRows, sys: Accounts)
    requires ApplyRule(RuleOp.CreateRule(item), rows, sys).Ok?
    ensures UniqueDevices(ApplyRule(RuleOp.CreateRule(item), rows, sys).value) <==> UniqueDevices(rows)
  {
    var e := NewRule(item, sys).value;
    if FindRule(rows, e.device).None? { CreateUniqueIff(rows, e); }
  }

  lemma LastCreateUnique(items: seq<CreateItem>, rows: RuleRows, sys: Accounts)
    requires items != []
    ensures var n := |items| - 1;
      var front, after := ApplyRules(CreateOps(items[..n]), rows, sys), ApplyRules(CreateOps(items), rows, sys);
      after.Ok? ==> front.Ok? && (UniqueDevices(after.value) <==> UniqueDevices(front.value))
  {
    var n := |items| - 1;
    assert CreateOps(items)[..n] == CreateOps(items[..n]);
    var front := ApplyRules(CreateOps(items[..n]), rows, sys);
    if front.Ok? && ApplyRules(CreateOps(items), rows, sys).Ok? { OneCreate(items[n], front.value, sys); }
  }

  lemma {:induction false} CreatesUniqueIff(items: seq<CreateItem>, rows: RuleRows, sys: Accounts)
    ensures var r := ApplyRules(CreateOps(items), rows, sys);
      r.Ok? ==> (UniqueDevices(r.value) <==> UniqueDevices(rows))
  {
    if items == [] {
      assert CreateOps(items) == [];
    } else {
      LastCreateUnique(items, rows, sys);
      CreatesUniqueIff(items[..|items| - 1], rows, sys);
    }
  }

  // --------------------------------------------------------------- one request

  lemma UpdatedUniqueIff(form: Form, rows: RuleRows, after: RuleRows)
    requires DevicesUpdated(rows - ParsedIds(form.deleted), form.updated, after)
    ensures UniqueDevices(after) <==> EditsSeparate(form, rows)
  {
    var left := rows - ParsedIds(form.deleted);
    assert forall id :: id in after <==> Stays(form, rows, id);
    assert forall id :: id in left ==> after[id].device == DeviceAfter(rows[id].device, id, form.updated);
  }

  /** A request that goes through leaves at most one rule per device if and only if
      its deletions and updates do; whether the table had one before, and what is
      created, does not matter. */
  lemma RequestUniqueIff(form: Form, rows: RuleRows, sys: Accounts)
    ensures var r := ApplyRules(Ops(form), rows, sys); r.Ok? ==> (UniqueDevices(r.value) <==> EditsSeparate(form, rows))
  {
    var d, u, c := DeleteOps(form.deleted), UpdateOps(form.updated), CreateOps(form.created);
    ApplyRulesConcat(d + u, c, rows, sys);
    ApplyRulesConcat(d, u, rows, sys);
    DeletesGoThroughIff(form.deleted, rows, sys);
    var left := rows - ParsedIds(form.deleted);
    UpdatesGiveDevices(form.updated, left, sys);
    if ApplyRules(Ops(form), rows, sys).Ok? {
      var edited := ApplyRules(u, left, sys).value;
      UpdatedUniqueIff(form, rows, edited);
      CreatesUniqueIff(form.created, edited, sys);
    }
  }

  /** The request of a page loaded from the present table always qualifies. */
  lemma FreshPageIsSeparate(rows: seq<FormRow>, ids: seq<Id>, table: RuleRows, sys: Accounts)
    requires Submittable(rows, ids, table, sys) && WellFormed(table)
    ensures EditsSeparate(FormOf(rows), table)
  {
    var after := SaveKeepsRulesUnique(rows, ids, table, sys);
    RequestUniqueIff(FormOf(rows), table, sys);
  }

  // -------------------------------------------------------------- many requests

  datatype Request = Request(form: Form, sys: Accounts)

  ghost predicate Leaves(before: RuleRows, request: Request, after: RuleRows) {
    ApplyRules(Ops(request.form), before, request.sys) == Ok(after)
  }

  /** Any requests that go through, one after the other, whatever table the pages
      behind them were loaded from. */
  ghost predicate Requested(tables: seq<RuleRows>, requests: seq<Request>) {
    |tables| == |requests| + 1 && forall k :: 0 <= k < |requests| ==> Leaves(tables[k], requests[k], tables[k + 1])
  }

  lemma PointwiseIff(good: nat -> bool, kept: nat -> bool, n: nat)
    requires forall k: nat :: k < n ==> (good(k + 1) <==> kept(k))
    ensures (forall k: nat :: k <= n ==> good(k)) <==> good(0) && forall k: nat :: k < n ==> kept(k)
  {
    if forall k: nat :: k <= n ==> good(k) {
      forall k: nat | k < n ensures kept(k) { assert good(k + 1); }
    } else if good(0) && forall k: nat :: k < n ==> kept(k) {
      forall k: nat | k <= n ensures good(k) {
        if k > 0 { assert kept(k - 1) && good(k - 1 + 1); }
      }
    }
  }

  /** At every point there is at most one rule per device if and only if there was
      at the start and every request keeps its edits apart. */
  lemma RequestsUniqueIff(tables: seq<RuleRows>, requests: seq<Request>)
    requires Requested(tables, requests)
    ensures (forall k :: 0 <= k < |tables| ==> UniqueDevices(tables[k]))
            <==> UniqueDevices(tables[0])
                 && forall k :: 0 <= k < |requests| ==> EditsSeparate(requests[k].form, tables[k])
  {
    var good := (k: nat) => k < |tables| ==> UniqueDevices(tables[k]);
    var kept := (k: nat) => k < |requests| ==> EditsSeparate(requests[k].form, tables[k]);
    forall k: nat | k < |requests| ensures good(k + 1) <==> kept(k) {
      assert Leaves(tables[k], requests[k], tables[k + 1]);
      RequestUniqueIff(requests[k].form, tables[k], requests[k].sys);
    }
    PointwiseIff(good, kept, |requests|);
    assert forall k: nat :: k <= |requests| ==> (good(k) <==> UniqueDevices(tables[k]));
    assert forall k: nat :: k < |requests| ==> (kept(k) <==> EditsSeparate(requests[k].form, tables[k]));
  }

  /** What Find returns for a device is the only rule for it, for all rules, if and
      only if there is at most one rule per device. */
  lemma FindIsOnlyIff(table: RuleRows)
    ensures (forall id :: id in table ==> FindRule(table, table[id].device) == Some(id)) <==> UniqueDevices(table)
  {
    if UniqueDevices(table) {
      forall id | id in table ensures FindRule(table, table[id].device) == Some(id) { FirstIsOnly(table, id); }
    }
  }

  lemma {:induction false} SaveAllNext(forms: seq<Form>, rows: RuleRows, sys: Accounts)
    requires forms != [] && SaveAll(forms, rows, sys).Ok?
    ensures var n := |forms| - 1;
      var front := SaveAll(forms[..n], rows, sys);
      front.Ok? && ApplyRules(Ops(forms[n]), front.value, sys) == SaveAll(forms, rows, sys)
  {
  }

  /** The last request of a serial order keeps its edits apart. */
  ghost predicate LastIsSeparate(forms: seq<Form>, rows: RuleRows, sys: Accounts) {
    if forms == [] then UniqueDevices(rows)
    else
      var front := SaveAll(forms[..|forms| - 1], rows, sys);
      front.Ok? && EditsSeparate(forms[|forms| - 1], front.value)
  }

  /** Concurrent SaveRules calls, fresh or overtaken, leave at most one rule per
      device if and only if, in the order they were carried out, the last one
      keeps its edits apart. */
  lemma FinishedSavesUniqueIff(sys: Accounts, data: RuleRows, file: Option<Json>, schedule: seq<Pick<RuleOp>>)
      returns (forms: seq<Form>)
    requires FormsOnly(schedule) && Finished(Run(Requests(sys), Init(data, file), schedule))
    ensures multiset(AllOps(forms)) == Begun(Requests(sys), Init(data, file), schedule, Whole())
    ensures var s := Run(Requests(sys), Init(data, file), schedule);
      SaveAll(forms, data, sys) == Ok(s.data) && (UniqueDevices(s.data) <==> LastIsSeparate(forms, data, sys))
  {
    forms := FinishedSavesAreSerial(sys, data, file, schedule);
    if forms != [] {
      SaveAllNext(forms, data, sys);
      RequestUniqueIff(forms[|forms| - 1], SaveAll(forms[..|forms| - 1], data, sys).value, sys);
    }
  }

  // ---------------------------------------------------------- an overtaken page

  const ROOT_ACCOUNTS := Accounts([User(0, "root")], [Group(0, "root")])

  function StickRule(serial: string): PermissionEntry {
    PermissionEntry(Device("0951", "1666", serial), [User(0, "root")], [Group(0, "root")])
  }

  function Sticks(first: string, second: string): RuleRows { map[0 := StickRule(first), 1 := StickRule(second)] }

  /** The page with one rule, whose serial is edited. */
  function EditedPage(from: string, to: string): seq<FormRow> {
    [PageRow(0, StickRule(from)).(serial := Cell(to, true))]
  }

  function NewRow(serial: string): FormRow {
    FormRow("", true, false, Cell("0951", true), Cell("1666", true), Cell(serial, true),
            Cell("--", true), Cell("root", true))
  }

  /** The same page, with a rule appended. */
  function ExtendedPage(from: string, added: string): seq<FormRow> { [PageRow(0, StickRule(from)), NewRow(added)] }

  predicate PlainSerial(s: string) { s != "" && Trimmed(s, JsSpace) && NulFree(s) }

  lemma DigitsAreValid(s: string)
    requires |s| == 4 && AllDigits(s)
    ensures ValidVid(s)
  {
    assert IsDigit(s[0]) && IsDigit(s[1]);
    assert TrimLeft(s, IsSpace) == s;
    assert forall i :: 0 <= i < |s| ==> IsDigit(s[i]) && IsHexDigit(s[i]);
  }

  lemma PlainTexts(serial: string)
    requires PlainSerial(serial)
    ensures T(serial) == serial && T("0951") == "0951" && T("1666") == "1666" && T("--") == "--" && T("root") == "root"
    ensures T("0") == "0" && ToString(0) == "0"
    ensures ValidVid("0951") && ValidVid("1666")
    ensures NulFree("0951") && NulFree("1666") && NulFree("--") && NulFree("root")
  {
    TrimIsTrimmed(serial, JsSpace);
    TrimIsTrimmed("0951", JsSpace);
    TrimIsTrimmed("1666", JsSpace);
    TrimIsTrimmed("--", JsSpace);
    TrimIsTrimmed("root", JsSpace);
    TrimIsTrimmed("0", JsSpace);
    DigitsAreValid("0951");
    DigitsAreValid("1666");
  }

  lemma EditedPageIsLoaded(from: string, to: string)
    ensures Loaded(EditedPage(from, to), [0], map[0 := StickRule(from)])
  {
    assert RowLoaded(EditedPage(from, to)[0], 0, StickRule(from));
  }

  lemma EditedRowIsFine(from: string, to: string)
    requires PlainSerial(to)
    ensures Acceptable(EditedPage(from, to)[0], ROOT_ACCOUNTS)
  {
    PlainTexts(to);
  }

  lemma EditedPageHasRoom(from: string, to: string)
    ensures var plan := PlanOf(EditedPage(from, to), [0], map[0 := StickRule(from)], ROOT_ACCOUNTS);
      Room(KeptIds(plan), |Added(plan)|)
  {
    var table := map[0 := StickRule(from)];
    var plan := PlanOf(EditedPage(from, to), [0], table, ROOT_ACCOUNTS);
    StepIds(EditedPage(from, to)[0], 0, Stored(table, 0), ROOT_ACCOUNTS);
    AddedAtMost(plan);
    assert forall id :: id in KeptIds(plan) ==> id == 0;
  }

  lemma EditedPageIsFine(from: string, to: string)
    requires PlainSerial(from) && PlainSerial(to)
    ensures Submittable(EditedPage(from, to), [0], map[0 := StickRule(from)], ROOT_ACCOUNTS)
  {
    EditedPageIsLoaded(from, to);
    EditedRowIsFine(from, to);
    EditedPageHasRoom(from, to);
    RootAccountsAreOk();
  }

  lemma EditedPageSends(from: string, to: string)
    requires PlainSerial(from) && PlainSerial(to)
    ensures var form := FormOf(EditedPage(from, to));
      form == Form([], [UpdateItemOf(EditedPage(from, to)[0])], [], [])
  {
    PlainTexts(to);
    var rows := EditedPage(from, to);
    assert rows[..0] == [] && FormOf(rows) == AddRow(FormOf(rows[..0]), rows[0]);
  }

  lemma RootIsKnown(row: FormRow)
    requires T(row.user.text) == "--" && T(row.group.text) == "root"
    ensures KnownUser(row.user, ROOT_ACCOUNTS) <==> NulFree("--")
    ensures KnownGroup(row.group, ROOT_ACCOUNTS) <==> NulFree("root")
    ensures FindUser(ROOT_ACCOUNTS.users, AccountName("--")) == Some(User(0, "root"))
    ensures FindGroup(ROOT_ACCOUNTS.groups, "root") == Some(Group(0, "root"))
  {
  }

  lemma EditedStep(from: string, to: string)
    requires PlainSerial(from) && PlainSerial(to)
    ensures var row := EditedPage(from, to)[0];
      var s := StepOf(row, 0, StickRule(from), ROOT_ACCOUNTS);
      s == Keep(0, StickRule(from), StickRule(to), Some(UpdateItemOf(row))) && Sound(s, ROOT_ACCOUNTS)
  {
    PlainTexts(to);
    var row := EditedPage(from, to)[0];
    assert Acceptable(row, ROOT_ACCOUNTS) && RowLoaded(row, 0, StickRule(from));
    RowIsSound(row, 0, StickRule(from), ROOT_ACCOUNTS);
  }

  lemma UpdatedAlone(s: Step, item: UpdateItem, form: Form, table: RuleRows, after: RuleRows)
    requires s.Keep? && s.update == Some(item) && Sound(s, ROOT_ACCOUNTS) && s.id in table && table[s.id] == s.was
    requires form == Form([], [item], [], []) && after == table[s.id := s.becomes]
    ensures Leaves(table, Request(form, ROOT_ACCOUNTS), after)
  {
    assert UpdateOps([]) == [] && [] + [item] == [item];
    UpdateNext([], s, table, ROOT_ACCOUNTS, table);
    assert Ops(form) == UpdateOps([item]);
  }

  lemma NewStep(serial: string)
    requires PlainSerial(serial)
    ensures Acceptable(NewRow(serial), ROOT_ACCOUNTS)
    ensures var s := StepOf(NewRow(serial), 0, StickRule(serial), ROOT_ACCOUNTS);
      s == Add(StickRule(serial), CreateItemOf(NewRow(serial))) && Sound(s, ROOT_ACCOUNTS)
  {
    PlainTexts(serial);
    RootIsKnown(NewRow(serial));
    RowIsSound(NewRow(serial), 0, StickRule(serial), ROOT_ACCOUNTS);
  }

  lemma ExtendedPageSends(from: string, added: string)
    requires PlainSerial(from) && PlainSerial(added)
    ensures var form := FormOf(ExtendedPage(from, added));
      form.created == [CreateItemOf(NewRow(added))] && form.updated == [] && form.deleted == []
  {
    PlainTexts(added);
    var rows := ExtendedPage(from, added);
    assert rows[..1] == [PageRow(0, StickRule(from))] && rows[..1][..0] == [];
    assert FormOf(rows[..1]) == AddRow(FormOf([]), PageRow(0, StickRule(from)));
    assert FormOf(rows) == AddRow(FormOf(rows[..1]), rows[1]);
  }

  lemma SecondStick(from: string, added: string)
    requires from != added
    ensures var table: RuleRows := map[0 := StickRule(from)];
      && FindRule(table, StickRule(added).device).None?
      && CreateRow(table, StickRule(added)) == Sticks(from, added)
  {
    var table: RuleRows := map[0 := StickRule(from)];
    assert table.Keys == {0} && Top({0}) == 1 by { assert 0 in {0 as Id}; }
    assert forall id :: id in table ==> table[id].device != StickRule(added).device;
  }

  lemma CreatedAlone(item: CreateItem, e: PermissionEntry, table: RuleRows)
    requires Sound(Add(e, item), ROOT_ACCOUNTS) && FindRule(table, e.device).None?
    ensures ApplyRules(CreateOps([item]), table, ROOT_ACCOUNTS) == Ok(CreateRow(table, e))
  {
    assert CreateOps([]) == [] && [] + [item] == [item];
    CreateNext([], Add(e, item), table, ROOT_ACCOUNTS, table);
  }

  lemma OnlyCreates(form: Form, item: CreateItem)
    requires form.created == [item] && form.updated == [] && form.deleted == []
    ensures Ops(form) == CreateOps([item])
  {
  }

  lemma AppliedExtension(from: string, added: string)
    requires PlainSerial(from) && PlainSerial(added) && from != added
    ensures ApplyRules(Ops(FormOf(ExtendedPage(from, added))), map[0 := StickRule(from)], ROOT_ACCOUNTS)
            == Ok(Sticks(from, added))
  {
    ExtendedPageSends(from, added);
    NewStep(added);
    SecondStick(from, added);
    OnlyCreates(FormOf(ExtendedPage(from, added)), CreateItemOf(NewRow(added)));
    CreatedAlone(CreateItemOf(NewRow(added)), StickRule(added), map[0 := StickRule(from)]);
  }

  lemma ExtendedPageIsLoaded(from: string, added: string)
    requires PlainSerial(from)
    ensures Loaded(ExtendedPage(from, added), [0, 0], map[0 := StickRule(from)])
  {
    assert RowLoaded(ExtendedPage(from, added)[0], 0, StickRule(from));
  }

  lemma StickKey(row: FormRow, serial: string)
    requires T(row.vid.text) == "0951" && T(row.pid.text) == "1666" && T(row.serial.text) == serial
    ensures |Key(row)| >= 8 && Key(row)[8..] == serial
  {
    assert Key(row) == ("0951" + "1666") + serial && |"0951" + "1666"| == 8;
  }

  lemma TwoSeparate(keys: seq<Option<string>>)
    requires |keys| == 2 && keys[0] != keys[1]
    ensures Separate(keys)
  {
  }

  lemma ExtendedPageHasNoTwins(from: string, added: string)
    requires PlainSerial(from) && PlainSerial(added) && from != added
    ensures NoDuplicates(ExtendedPage(from, added))
  {
    PlainTexts(added);
    PlainTexts(from);
    var rows := ExtendedPage(from, added);
    StickKey(rows[0], from);
    StickKey(rows[1], added);
    TwoSeparate(Keys(rows));
  }

  lemma ExtendedPageHasRoom(from: string, added: string)
    ensures var plan := PlanOf(ExtendedPage(from, added), [0, 0], map[0 := StickRule(from)], ROOT_ACCOUNTS);
      Room(KeptIds(plan), |Added(plan)|)
  {
    var table := map[0 := StickRule(from)];
    var plan := PlanOf(ExtendedPage(from, added), [0, 0], table, ROOT_ACCOUNTS);
    StepIds(ExtendedPage(from, added)[0], 0, Stored(table, 0), ROOT_ACCOUNTS);
    StepIds(ExtendedPage(from, added)[1], 0, Stored(table, 0), ROOT_ACCOUNTS);
    AddedAtMost(plan);
    assert forall id :: id in KeptIds(plan) ==> id == 0;
  }

  lemma {:induction false} AddedAtMost(plan: seq<Step>)
    ensures |Added(plan)| <= |plan|
  {
    if plan != [] { AddedAtMost(plan[..|plan| - 1]); }
  }

  lemma UntouchedRowIsFine(from: string)
    ensures Acceptable(PageRow(0, StickRule(from)), ROOT_ACCOUNTS)
  {
  }

  lemma RootAccountsAreOk()
    ensures AccountsOk(ROOT_ACCOUNTS)
  {
  }

  lemma ExtendedPageIsFine(from: string, added: string)
    requires PlainSerial(from) && PlainSerial(added) && from != added
    ensures Submittable(ExtendedPage(from, added), [0, 0], map[0 := StickRule(from)], ROOT_ACCOUNTS)
  {
    ExtendedPageIsLoaded(from, added);
    ExtendedPageHasNoTwins(from, added);
    ExtendedPageHasRoom(from, added);
    NewStep(added);
    UntouchedRowIsFine(from);
    RootAccountsAreOk();
  }

  lemma TwoAlike(serial: string)
    ensures !UniqueDevices(Sticks(serial, serial))
  {
    var after: RuleRows := Sticks(serial, serial);
    assert 0 in after && 1 in after && after[0].device == after[1].device;
  }

  /** A page that adds a rule ... */
  lemma ExtendingPage(from: string, added: string) returns (page: seq<FormRow>, ids: seq<Id>)
    requires PlainSerial(from) && PlainSerial(added) && from != added
    ensures Submittable(page, ids, map[0 := StickRule(from)], ROOT_ACCOUNTS)
    ensures Leaves(map[0 := StickRule(from)], Request(FormOf(page), ROOT_ACCOUNTS), Sticks(from, added))
  {
    page, ids := ExtendedPage(from, added), [0, 0];
    ExtendedPageIsFine(from, added);
    AppliedExtension(from, added);
  }

  ghost predicate Carries(s: Step, item: UpdateItem, table: RuleRows, after: RuleRows) {
    && s.Keep? && s.update == Some(item) && Sound(s, ROOT_ACCOUNTS)
    && s.id in table && table[s.id] == s.was && after == table[s.id := s.becomes]
  }

  lemma CarriedAlone(s: Step, item: UpdateItem, page: seq<FormRow>, table: RuleRows, after: RuleRows)
    requires Carries(s, item, table, after) && FormOf(page) == Form([], [item], [], [])
    ensures Leaves(table, Request(FormOf(page), ROOT_ACCOUNTS), after)
  {
    UpdatedAlone(s, item, FormOf(page), table, after);
  }

  lemma EditedSticks(from: string, to: string, item: UpdateItem)
    requires Sound(Keep(0, StickRule(from), StickRule(to), Some(item)), ROOT_ACCOUNTS)
    ensures Carries(Keep(0, StickRule(from), StickRule(to), Some(item)), item, Sticks(from, to), Sticks(to, to))
  {
    assert Sticks(from, to)[0 := StickRule(to)] == Sticks(to, to);
  }

  lemma EditedRow(from: string, to: string) returns (page: seq<FormRow>, ids: seq<Id>, s: Step, item: UpdateItem)
    requires PlainSerial(from) && PlainSerial(to)
    ensures Submittable(page, ids, map[0 := StickRule(from)], ROOT_ACCOUNTS)
    ensures FormOf(page) == Form([], [item], [], [])
    ensures Carries(s, item, Sticks(from, to), Sticks(to, to))
  {
    page, ids := EditedPage(from, to), [0];
    item := UpdateItemOf(page[0]);
    s := Keep(0, StickRule(from), StickRule(to), Some(item));
    EditedPageIsFine(from, to);
    EditedPageSends(from, to);
    EditedStep(from, to);
    EditedSticks(from, to, item);
  }

  /** ... and a page that changes the serial of its rule. */
  lemma EditingPage(from: string, to: string) returns (page: seq<FormRow>, ids: seq<Id>)
    requires PlainSerial(from) && PlainSerial(to)
    ensures Submittable(page, ids, map[0 := StickRule(from)], ROOT_ACCOUNTS)
    ensures Leaves(Sticks(from, to), Request(FormOf(page), ROOT_ACCOUNTS), Sticks(to, to))
  {
    var s, item;
    page, ids, s, item := EditedRow(from, to);
    CarriedAlone(s, item, page, Sticks(from, to), Sticks(to, to));
  }

  /** Two pages are loaded from the same table, and both pass the duplicate check.
      One adds a rule; the other, saved later, changes its own rule to the same
      device. Two rules for one device are left. */
  lemma OvertakenPageDuplicates(from: string, to: string)
      returns (table: RuleRows, first: seq<FormRow>, second: seq<FormRow>, ids: seq<seq<Id>>, tables: seq<RuleRows>)
    requires PlainSerial(from) && PlainSerial(to) && from != to
    ensures |ids| == 2
    ensures Submittable(first, ids[0], table, ROOT_ACCOUNTS) && Submittable(second, ids[1], table, ROOT_ACCOUNTS)
    ensures |tables| == 3 && tables[0] == table && UniqueDevices(table) && !UniqueDevices(tables[2])
    ensures Requested(tables, [Request(FormOf(first), ROOT_ACCOUNTS), Request(FormOf(second), ROOT_ACCOUNTS)])
  {
    table := map[0 := StickRule(from)];
    tables := [table, Sticks(from, to), Sticks(to, to)];
    var firstIds, secondIds;
    first, firstIds := ExtendingPage(from, to);
    second, secondIds := EditingPage(from, to);
    ids := [firstIds, secondIds];
    TwoAlike(to);
  }
}
