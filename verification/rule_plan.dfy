/** What a saved page means for the table, row by row, and the proof that the
    daemon's three passes carry it out. */
module RulePlan {
  import opened Wrappers
  import opened Text
  import opened Dto
  import opened Tables
  import opened RuleStore
  import opened RulePatch

  /** A rule is dropped, kept (perhaps changed by an update), or added. */
  datatype Step =
    | Drop(id: Id)
    | Keep(id: Id, was: PermissionEntry, becomes: PermissionEntry, update: Option<UpdateItem>)
    | Add(entry: PermissionEntry, create: CreateItem)

  function Final(s: Step): PermissionEntry
    requires !s.Drop?
  {
    if s.Keep? then s.becomes else s.entry
  }

  // ----------------------------------------------- the lists that carry a plan

  function Deletes(plan: seq<Step>): seq<string> {
    if plan == [] then []
    else
      var s := plan[|plan| - 1];
      Deletes(plan[..|plan| - 1]) + if s.Drop? then [ToString(s.id)] else []
  }

  function Updates(plan: seq<Step>): seq<UpdateItem> {
    if plan == [] then []
    else
      var s := plan[|plan| - 1];
      Updates(plan[..|plan| - 1]) + if s.Keep? && s.update.Some? then [s.update.value] else []
  }

  function Creates(plan: seq<Step>): seq<CreateItem> {
    if plan == [] then []
    else
      var s := plan[|plan| - 1];
      Creates(plan[..|plan| - 1]) + if s.Add? then [s.create] else []
  }

  /** The added rules, in page order. */
  function Added(plan: seq<Step>): seq<PermissionEntry> {
    if plan == [] then []
    else
      var s := plan[|plan| - 1];
      Added(plan[..|plan| - 1]) + if s.Add? then [s.entry] else []
  }

  ghost function KeptIds(plan: seq<Step>): set<Id> {
    set i | 0 <= i < |plan| && plan[i].Keep? :: plan[i].id
  }

  // ------------------------------------------------------------- good plans

  /** The request element of a step does to the daemon's entry what the step
      says. */
  ghost predicate Sound(s: Step, sys: Accounts) {
    match s
    case Drop(_) => true
    case Keep(id, was, becomes, update) =>
      (update.None? ==> was == becomes)
      && (update.Some? ==> StrToUint(CStr(update.value.id)) == Ok(id) && Patch(was, update.value, sys) == Ok(becomes))
    case Add(entry, create) => NewRule(create, sys) == Ok(entry)
  }

  /** Every rule of the table has exactly one step. */
  ghost predicate Covers(plan: seq<Step>, table: RuleRows) {
    && (forall i :: 0 <= i < |plan| && plan[i].Keep? ==> plan[i].id in table && table[plan[i].id] == plan[i].was)
    && (forall i, j ::
          0 <= i < |plan| && 0 <= j < |plan| && !plan[i].Add? && !plan[j].Add? && plan[i].id == plan[j].id ==> i == j)
    && (forall id :: id in table ==> exists i :: 0 <= i < |plan| && !plan[i].Add? && plan[i].id == id)
  }

  /** No two surviving rules name the same device. */
  ghost predicate DistinctDevices(plan: seq<Step>) {
    forall i, j ::
      (0 <= i < |plan| && 0 <= j < |plan| && !plan[i].Drop? && !plan[j].Drop?
       && Final(plan[i]).device == Final(plan[j]).device) ==> i == j
  }

  /** The counter can hand out `k` more ids without wrapping. */
  ghost predicate Room(keys: set<Id>, k: nat) { Top(keys) + k <= U64 }

  /** `es` sits right above the old rows, in order, and nothing else changed. */
  ghost predicate Above(rows: RuleRows, es: seq<PermissionEntry>, after: RuleRows) {
    var n := Top(rows.Keys);
    && (forall id :: id in rows ==> id in after && after[id] == rows[id])
    && (forall id: Id :: n <= id < n + |es| ==> id in after && after[id] == es[id - n])
    && (forall id :: id in after ==> id in rows || n <= id < n + |es|)
  }

  /** The kept rules at their ids, in their final form. */
  ghost predicate Survivors(plan: seq<Step>, rows: RuleRows) {
    && rows.Keys == KeptIds(plan)
    && forall i :: 0 <= i < |plan| && plan[i].Keep? ==> plan[i].id in rows && rows[plan[i].id] == plan[i].becomes
  }

  // ------------------------------------------------------------- the deletes

  lemma {:induction false} LastOp(ops: seq<RuleOp>, op: RuleOp, rows: RuleRows, sys: Accounts)
    requires ApplyRules(ops, rows, sys).Ok?
    ensures ApplyRules(ops + [op], rows, sys) == ApplyRule(op, ApplyRules(ops, rows, sys).value, sys)
  {
    assert (ops + [op])[..|ops|] == ops;
  }

  /** A printed id is free of NULs and parses back. */
  lemma PrintedIdParses(id: Id)
    ensures CStr(ToString(id)) == ToString(id) && StrToUint(CStr(ToString(id))) == Ok(id)
  {
    var s := ToString(id);
    assert NulFree(s) by { assert forall i :: 0 <= i < |s| ==> IsDigit(s[i]); }
    CStrFixed(s);
    IdSurvivesPrinting(id);
  }

  lemma DeleteNext(ids: seq<string>, id: Id, rows: RuleRows, sys: Accounts, t: RuleRows)
    requires ApplyRules(DeleteOps(ids), rows, sys) == Ok(t)
    ensures ApplyRules(DeleteOps(ids + [ToString(id)]), rows, sys) == Ok(t - {id})
  {
    assert DeleteOps(ids + [ToString(id)]) == DeleteOps(ids) + [DeleteRule(ToString(id))];
    LastOp(DeleteOps(ids), DeleteRule(ToString(id)), rows, sys);
    PrintedIdParses(id);
  }

  ghost predicate DroppedBy(plan: seq<Step>, id: Id) {
    exists i :: 0 <= i < |plan| && plan[i] == Drop(id)
  }

  lemma DroppedStep(front: seq<Step>, s: Step)
    ensures forall id :: DroppedBy(front + [s], id) <==> DroppedBy(front, id) || s == Drop(id)
  {
    var plan := front + [s];
    forall id ensures DroppedBy(plan, id) <==> DroppedBy(front, id) || s == Drop(id) {
      if i :| 0 <= i < |front| && front[i] == Drop(id) { assert plan[i] == Drop(id); }
      if s == Drop(id) { assert plan[|front|] == Drop(id); }
    }
  }

  /** The table lacks exactly the dropped rules. */
  ghost predicate Remaining(plan: seq<Step>, table: RuleRows, t: RuleRows) {
    && (forall id :: id in t <==> id in table && !DroppedBy(plan, id))
    && (forall id :: id in t ==> t[id] == table[id])
  }

  lemma RemainingNext(front: seq<Step>, s: Step, table: RuleRows, t: RuleRows)
    requires Remaining(front, table, t)
    ensures Remaining(front + [s], table, if s.Drop? then t - {s.id} else t)
  {
    DroppedStep(front, s);
  }

  lemma {:induction false} DeletesApply(plan: seq<Step>, table: RuleRows, sys: Accounts) returns (t: RuleRows)
    ensures ApplyRules(DeleteOps(Deletes(plan)), table, sys) == Ok(t)
    ensures Remaining(plan, table, t)
  {
    if plan == [] {
      t := table;
      assert DeleteOps(Deletes(plan)) == [];
    } else {
      var front, s := plan[..|plan| - 1], plan[|plan| - 1];
      t := DeletesApply(front, table, sys);
      RemainingNext(front, s, table, t);
      assert front + [s] == plan;
      if s.Drop? {
        DeleteNext(Deletes(front), s.id, table, sys, t);
        t := t - {s.id};
      } else {
        assert Deletes(plan) == Deletes(front);
      }
    }
  }

  // ------------------------------------------------------------- the updates

  lemma UpdateNext(items: seq<UpdateItem>, s: Step, rows: RuleRows, sys: Accounts, t: RuleRows)
    requires ApplyRules(UpdateOps(items), rows, sys) == Ok(t)
    requires s.Keep? && s.update.Some? && Sound(s, sys) && s.id in t && t[s.id] == s.was
    ensures ApplyRules(UpdateOps(items + [s.update.value]), rows, sys) == Ok(t[s.id := s.becomes])
  {
    var op := UpdateRule(s.update.value);
    assert UpdateOps(items + [s.update.value]) == UpdateOps(items) + [op];
    LastOp(UpdateOps(items), op, rows, sys);
  }

  /** The first `n` steps are carried out, the others not yet. */
  ghost predicate Halfway(plan: seq<Step>, n: nat, t: RuleRows) {
    && t.Keys == KeptIds(plan)
    && forall i :: 0 <= i < |plan| && plan[i].Keep? ==>
      plan[i].id in t && t[plan[i].id] == if i < n then plan[i].becomes else plan[i].was
  }

  lemma HalfwayStep(plan: seq<Step>, table: RuleRows, m: nat, t: RuleRows)
    requires Covers(plan, table) && m < |plan| && Halfway(plan, m, t)
    requires plan[m].Keep? && plan[m].update.None? ==> plan[m].was == plan[m].becomes
    ensures Halfway(plan, m + 1,
      if plan[m].Keep? && plan[m].update.Some? then t[plan[m].id := plan[m].becomes] else t)
  {
    if plan[m].Keep? { assert plan[m].id in t.Keys; }
  }

  lemma {:induction false} UpdatesApply(plan: seq<Step>, table: RuleRows, sys: Accounts, base: RuleRows, n: nat)
      returns (t: RuleRows)
    requires Covers(plan, table) && Halfway(plan, 0, base) && n <= |plan|
    requires forall i :: 0 <= i < |plan| ==> Sound(plan[i], sys)
    ensures ApplyRules(UpdateOps(Updates(plan[..n])), base, sys) == Ok(t)
    ensures Halfway(plan, n, t)
  {
    if n == 0 {
      t := base;
    } else {
      var m := n - 1;
      t := UpdatesApply(plan, table, sys, base, m);
      assert plan[..n][..m] == plan[..m];
      var s := plan[m];
      assert Sound(s, sys);
      HalfwayStep(plan, table, m, t);
      if s.Keep? && s.update.Some? {
        UpdateNext(Updates(plan[..m]), s, base, sys, t);
        t := t[s.id := s.becomes];
      } else {
        assert Updates(plan[..n]) == Updates(plan[..m]);
      }
    }
  }

  // ------------------------------------------------------------- the creates

  function Extend(rows: RuleRows, es: seq<PermissionEntry>): RuleRows {
    if es == [] then rows else CreateRow(Extend(rows, es[..|es| - 1]), es[|es| - 1])
  }

  lemma AboveTop(rows: RuleRows, es: seq<PermissionEntry>, after: RuleRows)
    requires Room(rows.Keys, |es|) && Above(rows, es, after)
    ensures Top(after.Keys) == Top(rows.Keys) + |es|
  {
    if es != [] {
      var last: Id := Top(rows.Keys) + (|es| - 1);
      assert last in after.Keys;
    } else {
      assert after.Keys == rows.Keys;
    }
  }

  lemma PushAbove(rows: RuleRows, es: seq<PermissionEntry>, e: PermissionEntry, t: RuleRows)
    requires Room(rows.Keys, |es| + 1) && Above(rows, es, t)
    ensures Above(rows, es + [e], CreateRow(t, e))
  {
    AboveTop(rows, es, t);
    assert NextId(t.Keys) !in t;
  }

  /** Created rules take the ids right above the largest one, in order. */
  lemma {:induction false} ExtendShape(rows: RuleRows, es: seq<PermissionEntry>)
    requires Room(rows.Keys, |es|)
    ensures Above(rows, es, Extend(rows, es))
  {
    if es != [] {
      var front := es[..|es| - 1];
      ExtendShape(rows, front);
      PushAbove(rows, front, es[|es| - 1], Extend(rows, front));
      assert front + [es[|es| - 1]] == es;
    }
  }

  /** The k-th added rule comes from the k-th Add step. */
  lemma {:induction false} AddedFrom(plan: seq<Step>, k: nat) returns (j: nat)
    requires k < |Added(plan)|
    ensures j < |plan| && plan[j].Add? && |Added(plan[..j])| == k && Added(plan)[k] == plan[j].entry
  {
    var m := |plan| - 1;
    if k < |Added(plan[..m])| {
      j := AddedFrom(plan[..m], k);
      assert plan[..m][..j] == plan[..j];
    } else {
      j := m;
    }
  }

  lemma {:induction false} AddedLength(plan: seq<Step>, n: nat)
    requires n <= |plan|
    ensures |Added(plan[..n])| <= |Added(plan)|
  {
    if n < |plan| {
      AddedLength(plan[..|plan| - 1], n);
      assert plan[..|plan| - 1][..n] == plan[..n];
    } else {
      assert plan[..n] == plan;
    }
  }

  /** Rule `id` of the resulting table is the outcome of step `j`. */
  ghost predicate Owns(plan: seq<Step>, after: RuleRows, id: Id, j: nat)
    requires id in after
  {
    && j < |plan| && !plan[j].Drop?
    && after[id] == Final(plan[j])
    && id as nat == if plan[j].Keep? then plan[j].id as nat else Top(KeptIds(plan)) + |Added(plan[..j])|
  }

  lemma OwnerExists(plan: seq<Step>, base: RuleRows, n: nat, id: Id, t: RuleRows) returns (j: nat)
    requires n <= |plan| && Survivors(plan, base) && Above(base, Added(plan[..n]), t) && id in t
    ensures Owns(plan, t, id, j) && (plan[j].Add? ==> j < n)
  {
    if id in base {
      assert id in KeptIds(plan);
      var i :| 0 <= i < |plan| && plan[i].Keep? && plan[i].id == id;
      j := i;
    } else {
      j := AddedFrom(plan[..n], id - Top(base.Keys));
      assert plan[..n][..j] == plan[..j];
    }
  }

  lemma CreateNext(items: seq<CreateItem>, s: Step, rows: RuleRows, sys: Accounts, t: RuleRows)
    requires ApplyRules(CreateOps(items), rows, sys) == Ok(t)
    requires s.Add? && Sound(s, sys) && FindRule(t, s.entry.device).None?
    ensures ApplyRules(CreateOps(items + [s.create]), rows, sys) == Ok(CreateRow(t, s.entry))
  {
    assert CreateOps(items + [s.create]) == CreateOps(items) + [CreateRule(s.create)];
    LastOp(CreateOps(items), CreateRule(s.create), rows, sys);
  }

  /** No added rule meets its own device in the table, so none is skipped. */
  lemma NoTwinFound(plan: seq<Step>, base: RuleRows, n: nat, t: RuleRows)
    requires n < |plan| && plan[n].Add? && DistinctDevices(plan) && Survivors(plan, base)
    requires Above(base, Added(plan[..n]), t)
    ensures FindRule(t, plan[n].entry.device).None?
  {
    var found := FindRule(t, plan[n].entry.device);
    if found.Some? {
      var j := OwnerExists(plan, base, n, found.value, t);
    }
  }

  lemma {:induction false} CreatesApply(plan: seq<Step>, sys: Accounts, base: RuleRows, n: nat)
    requires DistinctDevices(plan) && Survivors(plan, base) && n <= |plan| && Room(base.Keys, |Added(plan)|)
    requires forall i :: 0 <= i < |plan| ==> Sound(plan[i], sys)
    ensures ApplyRules(CreateOps(Creates(plan[..n])), base, sys) == Ok(Extend(base, Added(plan[..n])))
  {
    if n > 0 {
      var m := n - 1;
      CreatesApply(plan, sys, base, m);
      assert plan[..n][..m] == plan[..m];
      AddedLength(plan, m);
      ExtendShape(base, Added(plan[..m]));
      if plan[m].Add? {
        assert Sound(plan[m], sys);
        NoTwinFound(plan, base, m, Extend(base, Added(plan[..m])));
        CreateNext(Creates(plan[..m]), plan[m], base, sys, Extend(base, Added(plan[..m])));
        var news := Added(plan[..n]);
        assert news[..|news| - 1] == Added(plan[..m]);
      } else {
        assert Creates(plan[..n]) == Creates(plan[..m]) && Added(plan[..n]) == Added(plan[..m]);
      }
    }
  }

  // -------------------------------------------------------------- the outcome

  /** The table a plan asks for: kept rules at their old ids, added rules right
      above the largest kept id, in order, and nothing else. */
  ghost predicate CarriedOut(plan: seq<Step>, after: RuleRows) {
    exists base :: Survivors(plan, base) && Above(base, Added(plan), after)
  }

  ghost predicate GoodPlan(plan: seq<Step>, table: RuleRows, sys: Accounts) {
    && Covers(plan, table)
    && DistinctDevices(plan)
    && Room(KeptIds(plan), |Added(plan)|)
    && forall i :: 0 <= i < |plan| ==> Sound(plan[i], sys)
  }

  lemma RemainingIsKept(plan: seq<Step>, table: RuleRows, t: RuleRows)
    requires Covers(plan, table) && Remaining(plan, table, t)
    ensures Halfway(plan, 0, t)
  {
    forall i | 0 <= i < |plan| && plan[i].Keep? ensures plan[i].id in t {
      assert plan[i].id in table;
    }
    forall id ensures id in t <==> id in KeptIds(plan) {
      if id in t {
        var i :| 0 <= i < |plan| && !plan[i].Add? && plan[i].id == id;
        assert plan[i] != Drop(id);
      }
    }
  }

  /** Deleting, updating and creating in that order carries out a good plan,
      even when devices are swapped between rules on the way. */
  lemma PlanIsCarriedOut(plan: seq<Step>, table: RuleRows, sys: Accounts) returns (after: RuleRows)
    requires GoodPlan(plan, table, sys)
    ensures ApplyRules(DeleteOps(Deletes(plan)) + UpdateOps(Updates(plan)) + CreateOps(Creates(plan)), table, sys)
        == Ok(after)
    ensures CarriedOut(plan, after)
  {
    assert plan[..|plan|] == plan;
    var remaining := DeletesApply(plan, table, sys);
    RemainingIsKept(plan, table, remaining);
    var base := UpdatesApply(plan, table, sys, remaining, |plan|);
    assert Survivors(plan, base);
    CreatesApply(plan, sys, base, |plan|);
    after := Extend(base, Added(plan));
    ExtendShape(base, Added(plan));
    ApplyRulesConcat(DeleteOps(Deletes(plan)), UpdateOps(Updates(plan)), table, sys);
    ApplyRulesConcat(DeleteOps(Deletes(plan)) + UpdateOps(Updates(plan)), CreateOps(Creates(plan)), table, sys);
  }

  ghost predicate UniqueDevices(table: RuleRows) {
    forall i, j :: i in table && j in table && table[i].device == table[j].device ==> i == j
  }

  lemma EveryRuleIsOwned(plan: seq<Step>, after: RuleRows, id: Id) returns (j: nat)
    requires CarriedOut(plan, after) && id in after
    ensures Owns(plan, after, id, j)
  {
    assert plan[..|plan|] == plan;
    var base :| Survivors(plan, base) && Above(base, Added(plan), after);
    j := OwnerExists(plan, base, |plan|, id, after);
  }

  lemma CarriedOutIsUnique(plan: seq<Step>, after: RuleRows)
    requires DistinctDevices(plan) && CarriedOut(plan, after)
    ensures UniqueDevices(after)
  {
    forall a, b | a in after && b in after && after[a].device == after[b].device ensures a == b {
      var i := EveryRuleIsOwned(plan, after, a);
      var j := EveryRuleIsOwned(plan, after, b);
    }
  }
}
