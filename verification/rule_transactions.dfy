/** The transactions of the permissions table. */
module RuleTransactions {
  import opened Wrappers
  import opened Text
  import opened Dto
  import opened Tables
  import opened RuleStore
  import opened RulePatch
  import opened RulePlan
  import opened Transactions

  // ---------------------------------------------------------- saved requests

  /** Elements of SaveRules requests, on a machine with the given accounts. */
  function Requests(sys: Accounts): Store<RuleRows, RuleOp> {
    Store((rows: RuleRows, op: RuleOp) => ApplyRule(op, rows, sys), (rows: RuleRows) => TableJson(rows, ShowRule))
  }

  lemma {:induction false} BatchIsRequest(sys: Accounts, rows: RuleRows, ops: seq<RuleOp>)
    ensures ApplyBatch(Requests(sys), rows, ops) == ApplyRules(ops, rows, sys)
  {
    if ops != [] { BatchIsRequest(sys, rows, ops[..|ops| - 1]); }
  }

  function SaveAll(forms: seq<Form>, rows: RuleRows, sys: Accounts): Result<RuleRows> {
    if forms == [] then Ok(rows)
    else match SaveAll(forms[..|forms| - 1], rows, sys)
      case Err(e) => Err(e)
      case Ok(mid) => ApplyRules(Ops(forms[|forms| - 1]), mid, sys)
  }

  function AllOps(forms: seq<Form>): seq<seq<RuleOp>> {
    seq(|forms|, i requires 0 <= i < |forms| => Ops(forms[i]))
  }

  lemma {:induction false} BatchesAreSaves(sys: Accounts, rows: RuleRows, forms: seq<Form>)
    ensures ApplyBatches(Requests(sys), rows, AllOps(forms)) == SaveAll(forms, rows, sys)
  {
    if forms != [] {
      var front := forms[..|forms| - 1];
      BatchesAreSaves(sys, rows, front);
      assert AllOps(forms)[..|forms| - 1] == AllOps(front);
      var mid := SaveAll(front, rows, sys);
      if mid.Ok? { BatchIsRequest(sys, mid.value, Ops(forms[|forms| - 1])); }
    }
  }

  /** Concurrent SaveRules requests end as if they had been saved one after the
      other in the order they got the transaction lock, and a restart then reads
      that table back. */
  lemma SavesAreSerial(sys: Accounts, data: RuleRows, file: Option<Json>, schedule: seq<Pick<RuleOp>>, forms: seq<Form>)
    requires var s := Run(Requests(sys), Init(data, file), schedule); s.txOwner.None? && s.order == AllOps(forms)
    ensures var s := Run(Requests(sys), Init(data, file), schedule); SaveAll(forms, data, sys) == Ok(s.data)
    ensures var s := Run(Requests(sys), Init(data, file), schedule);
      forms != [] && (forall id :: id in s.data ==> id <= INT64_MAX && NulFreePermission(s.data[id]))
      ==> LoadFile(s.file, ReadRuleRow) == Ok(s.data)
  {
    TransactionsAreSerial(Requests(sys), data, file, schedule);
    BatchesAreSaves(sys, data, forms);
    RulesReload(Run(Requests(sys), Init(data, file), schedule).data);
  }

  /** Every batch that is begun is some form's request. */
  ghost predicate FormsOnly(schedule: seq<Pick<RuleOp>>) {
    forall i :: 0 <= i < |schedule| ==> exists form :: schedule[i].batch == Ops(form)
  }

  lemma {:induction false} BegunFrom<D, O>(m: Store<D, O>, s: State<D, O>, schedule: seq<Pick<O>>, b: seq<O>)
      returns (i: nat)
    requires b in Begun(m, s, schedule, Whole())
    ensures i < |schedule| && schedule[i].batch == b
  {
    var n := |schedule| - 1;
    if b in Begun(m, s, schedule[..n], Whole()) { i := BegunFrom(m, s, schedule[..n], b); } else { i := n; }
  }

  ghost function FormOfBatch(b: seq<RuleOp>): Form
    requires exists form :: b == Ops(form)
  {
    var form :| b == Ops(form);
    form
  }

  lemma BatchesAreForms(order: seq<seq<RuleOp>>) returns (forms: seq<Form>)
    requires forall i :: 0 <= i < |order| ==> exists form :: order[i] == Ops(form)
    ensures AllOps(forms) == order
  {
    forms := seq(|order|, i requires 0 <= i < |order| => FormOfBatch(order[i]));
    assert forall i :: 0 <= i < |order| ==> AllOps(forms)[i] == order[i];
  }

  lemma OrderIsForms(m: Store<RuleRows, RuleOp>, s: State<RuleRows, RuleOp>, schedule: seq<Pick<RuleOp>>,
                     order: seq<seq<RuleOp>>)
    requires FormsOnly(schedule) && multiset(order) == Begun(m, s, schedule, Whole())
    ensures forall i :: 0 <= i < |order| ==> exists form :: order[i] == Ops(form)
  {
    forall i | 0 <= i < |order| ensures exists form :: order[i] == Ops(form) {
      assert order[i] in multiset(order);
      var k := BegunFrom(m, s, schedule, order[i]);
    }
  }

  /** When every SaveRules call is over, the table is what the begun requests, each
      once, give one after the other in some order, and a restart reads it back. */
  lemma FinishedSavesAreSerial(sys: Accounts, data: RuleRows, file: Option<Json>, schedule: seq<Pick<RuleOp>>)
      returns (forms: seq<Form>)
    requires FormsOnly(schedule) && Finished(Run(Requests(sys), Init(data, file), schedule))
    ensures multiset(AllOps(forms)) == Begun(Requests(sys), Init(data, file), schedule, Whole())
    ensures var s := Run(Requests(sys), Init(data, file), schedule); SaveAll(forms, data, sys) == Ok(s.data)
    ensures var s := Run(Requests(sys), Init(data, file), schedule);
      forms != [] && (forall id :: id in s.data ==> id <= INT64_MAX && NulFreePermission(s.data[id]))
      ==> LoadFile(s.file, ReadRuleRow) == Ok(s.data)
  {
    var s := Run(Requests(sys), Init(data, file), schedule);
    FinishedRunIsSerial(Requests(sys), data, file, schedule);
    OrderIsForms(Requests(sys), Init(data, file), schedule, s.order);
    forms := BatchesAreForms(s.order);
    SavesAreSerial(sys, data, file, schedule, forms);
  }

  // ------------------------------------------------------- requests that throw

  /** A SaveRules call that nobody disturbs leaves its transaction if and only if
      its request fits the rules it finds; otherwise it has thrown inside. */
  lemma SaveEndsIff(sys: Accounts, s: State<RuleRows, RuleOp>, t: Tid, form: Form)
    requires Exclusive(s) && s.txOwner.None? && At(s, t).Out?
    ensures var r := Run(Requests(sys), s, Solo(t, Ops(form), |Ops(form)| + 12));
      if RequestFits(form, s.data, sys) then At(r, t).Out? && ApplyRules(Ops(form), s.data, sys) == Ok(r.data)
      else At(r, t).Threw?
  {
    SoloEndsIff(Requests(sys), s, t, Ops(form));
    BatchIsRequest(sys, s.data, Ops(form));
    RequestGoesThroughIff(form, s.data, sys);
  }

  /** A request that does not fit the rules it finds stops all saving: whatever the
      threads do later, no other one gets into a transaction, and the file stays. */
  lemma UnfitSaveBlocksAll(sys: Accounts, s: State<RuleRows, RuleOp>, t: Tid, form: Form, later: seq<Pick<RuleOp>>)
    requires Inv(Requests(sys), s) && s.txOwner.None? && At(s, t).Out? && !RequestFits(form, s.data, sys)
    ensures var r := Run(Requests(sys), s, Solo(t, Ops(form), |Ops(form)| + 12) + later);
      && At(r, t).Threw? && r.file == s.file && r.committed == s.committed
      && forall u :: u != t ==> At(r, u).Out? || At(r, u).WantTx?
  {
    BatchIsRequest(sys, s.data, Ops(form));
    RequestGoesThroughIff(form, s.data, sys);
    FailingBatchBlocksAll(Requests(sys), s, t, Ops(form), later);
  }

  /** Two pages suffice: one deletes a rule, the other, loaded before, updates it. */
  lemma StalePageBlocksAll(sys: Accounts, data: RuleRows, file: Option<Json>, t: Tid, item: UpdateItem, id: Id,
                           later: seq<Pick<RuleOp>>)
    requires id !in data && item.id == ToString(id)
    ensures var ops := Ops(Form([], [item], [], []));
      var r := Run(Requests(sys), Init(data, file), Solo(t, ops, |ops| + 12) + later);
      At(r, t).Threw? && r.file == file && forall u :: u != t ==> At(r, u).Out? || At(r, u).WantTx?
  {
    var form := Form([], [item], [], []);
    StaleUpdateThrows(data, item, id, sys);
    RequestGoesThroughIff(form, data, sys);
    UnfitSaveBlocksAll(sys, Init(data, file), t, form, later);
  }

  // --------------------------------------------------------- plain insertions

  /** Transactions made of DevicePermissions::Create calls. */
  function Insertions(): Store<RuleRows, PermissionEntry> {
    Store((rows: RuleRows, e: PermissionEntry) => Ok(CreateRow(rows, e)), (rows: RuleRows) => TableJson(rows, ShowRule))
  }

  function Flat(batches: seq<seq<PermissionEntry>>): seq<PermissionEntry> {
    if batches == [] then [] else Flat(batches[..|batches| - 1]) + batches[|batches| - 1]
  }

  lemma {:induction false} BatchExtends(rows: RuleRows, es: seq<PermissionEntry>)
    ensures ApplyBatch(Insertions(), rows, es) == Ok(Extend(rows, es))
  {
    if es != [] { BatchExtends(rows, es[..|es| - 1]); }
  }

  lemma {:induction false} ExtendConcat(rows: RuleRows, a: seq<PermissionEntry>, b: seq<PermissionEntry>)
    ensures Extend(rows, a + b) == Extend(Extend(rows, a), b)
    decreases |b|
  {
    if b == [] {
      assert a + b == a;
    } else {
      assert (a + b)[..|a + b| - 1] == a + b[..|b| - 1];
      ExtendConcat(rows, a, b[..|b| - 1]);
    }
  }

  lemma {:induction false} BatchesExtend(rows: RuleRows, batches: seq<seq<PermissionEntry>>)
    ensures ApplyBatches(Insertions(), rows, batches) == Ok(Extend(rows, Flat(batches)))
  {
    if batches != [] {
      var front, last := batches[..|batches| - 1], batches[|batches| - 1];
      BatchesExtend(rows, front);
      BatchExtends(Extend(rows, Flat(front)), last);
      ExtendConcat(rows, Flat(front), last);
    }
  }

  lemma CreateCounts(rows: RuleRows, e: PermissionEntry)
    requires NextId(rows.Keys) !in rows
    ensures |CreateRow(rows, e)| == |rows| + 1
  {
    var id := NextId(rows.Keys);
    assert CreateRow(rows, e) == rows[id := e];
    assert rows[id := e].Keys == rows.Keys + {id};
  }

  lemma NextIsFree(rows: RuleRows, es: seq<PermissionEntry>)
    requires Room(rows.Keys, |es| + 1)
    ensures NextId(Extend(rows, es).Keys) !in Extend(rows, es)
  {
    ExtendShape(rows, es);
    AboveTop(rows, es, Extend(rows, es));
  }

  lemma {:induction false} ExtendCounts(rows: RuleRows, es: seq<PermissionEntry>)
    requires Room(rows.Keys, |es|)
    ensures |Extend(rows, es)| == |rows| + |es|
  {
    if es != [] {
      var front := es[..|es| - 1];
      ExtendCounts(rows, front);
      NextIsFree(rows, front);
      CreateCounts(Extend(rows, front), es[|es| - 1]);
    }
  }

  /** However many threads insert rows in transactions, no insertion is lost and
      none overwrites another: the new rows follow the old ones in lock order. */
  lemma ConcurrentInsertsAllLand(data: RuleRows, file: Option<Json>, schedule: seq<Pick<PermissionEntry>>)
    requires var s := Run(Insertions(), Init(data, file), schedule); s.txOwner.None? && Room(data.Keys, |Flat(s.order)|)
    ensures var s := Run(Insertions(), Init(data, file), schedule);
      Above(data, Flat(s.order), s.data) && |s.data| == |data| + |Flat(s.order)|
  {
    var s := Run(Insertions(), Init(data, file), schedule);
    TransactionsAreSerial(Insertions(), data, file, schedule);
    BatchesExtend(data, s.order);
    ExtendShape(data, Flat(s.order));
    ExtendCounts(data, Flat(s.order));
  }

  lemma {:induction false} TotalParts(batches: seq<seq<PermissionEntry>>)
    ensures Total(batches, Parts()) == multiset(Flat(batches))
  {
    if batches != [] { TotalParts(batches[..|batches| - 1]); }
  }

  /** When every thread is out again, exactly the rows the threads began to insert
      are in the table beside the old ones, each as often as it was begun. */
  lemma FinishedInsertsCount(data: RuleRows, file: Option<Json>, schedule: seq<Pick<PermissionEntry>>)
    requires Finished(Run(Insertions(), Init(data, file), schedule))
    requires Room(data.Keys, |Begun(Insertions(), Init(data, file), schedule, Parts())|)
    ensures var s, begun := Run(Insertions(), Init(data, file), schedule),
        Begun(Insertions(), Init(data, file), schedule, Parts());
      && Above(data, Flat(s.order), s.data) && multiset(Flat(s.order)) == begun && |s.data| == |data| + |begun|
  {
    var s := Run(Insertions(), Init(data, file), schedule);
    FinishedRunIsSerial(Insertions(), data, file, schedule);
    RunConserves(Insertions(), data, file, schedule, Parts());
    NobodyWaits(s, Parts());
    TotalParts(s.order);
    assert |multiset(Flat(s.order))| == |Flat(s.order)|;
    ConcurrentInsertsAllLand(data, file, schedule);
  }

  /** N transactions of k rows each end with N * k rows more. */
  lemma EqualInsertsCount(data: RuleRows, file: Option<Json>, schedule: seq<Pick<PermissionEntry>>, n: nat, k: nat)
    requires Finished(Run(Insertions(), Init(data, file), schedule))
    requires AllOfSize(schedule, k) && |Begun(Insertions(), Init(data, file), schedule, Whole())| == n
    requires Room(data.Keys, n * k)
    ensures |Run(Insertions(), Init(data, file), schedule).data| == |data| + n * k
  {
    BegunSizes(Insertions(), Init(data, file), schedule, k);
    FinishedInsertsCount(data, file, schedule);
  }
}
