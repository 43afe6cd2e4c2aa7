/** The rules form of the web page: the duplicate check and the difference that
    is sent to the daemon. A row of the page is a record of its cells. */
module RuleForm {
  import opened Wrappers
  import opened Text
  import opened RulePatch

  datatype Cell = Cell(text: string, changed: bool)

  datatype FormRow = FormRow(ruleId: string, appended: bool, deleted: bool,
                             vid: Cell, pid: Cell, serial: Cell, user: Cell, group: Cell)

  /** White space and line ends as `String.prototype.trim` sees them. */
  predicate JsSpace(c: char) {
    || '\t' <= c <= '\r' || c == ' ' || c == '\U{00A0}' || c == '\U{1680}'
    || '\U{2000}' <= c <= '\U{200A}' || c == '\U{2028}' || c == '\U{2029}' || c == '\U{202F}'
    || c == '\U{205F}' || c == '\U{3000}' || c == '\U{FEFF}'
  }

  /** The code points of the white space and the line ends of ECMAScript. */
  lemma JsSpaceIff(c: char)
    ensures JsSpace(c) <==>
      c as nat in {9, 10, 11, 12, 13, 32, 160, 5760, 8232, 8233, 8239, 8287, 12288, 65279} || 8192 <= c as nat <= 8202
  {
  }

  function T(s: string): string { Trim(s, JsSpace) }

  /** The page reads a cell without the white space around its text. */
  lemma CellIsTrimmed(before: string, text: string, after: string)
    requires AllOf(before, JsSpace) && AllOf(after, JsSpace) && Trimmed(text, JsSpace) && text != ""
    ensures T(before + text + after) == text
  {
    TrimFinds(before, text, after, JsSpace);
  }

  predicate IsExisting(r: FormRow) { !r.appended && T(r.ruleId) != "" }

  predicate SomeChanged(r: FormRow) {
    r.vid.changed || r.pid.changed || r.serial.changed || r.user.changed || r.group.changed
  }

  predicate AllFields(r: FormRow) {
    T(r.vid.text) != "" && T(r.pid.text) != "" && T(r.serial.text) != "" && T(r.user.text) != ""
      && T(r.group.text) != ""
  }

  predicate IsDeleted(r: FormRow) { IsExisting(r) && r.deleted }

  predicate IsUpdated(r: FormRow) { IsExisting(r) && !r.deleted && SomeChanged(r) }

  predicate IsCreated(r: FormRow) { !IsExisting(r) && SomeChanged(r) }

  function Key(r: FormRow): string { T(r.vid.text) + T(r.pid.text) + T(r.serial.text) }

  // ---------------------------------------------------------- duplicate check

  /** The keys of the live rows; deleted rows have none. */
  function Keys(rows: seq<FormRow>): seq<Option<string>> {
    seq(|rows|, i requires 0 <= i < |rows| => if rows[i].deleted then None else Some(Key(rows[i])))
  }

  ghost predicate SameKey(keys: seq<Option<string>>, i: int, j: int)
    requires 0 <= i < |keys| && 0 <= j < |keys|
  {
    i != j && keys[i].Some? && keys[i] == keys[j]
  }

  /** Position `i` shares its key with another one among the first `n`. */
  ghost predicate HasTwin(keys: seq<Option<string>>, n: nat, i: int)
    requires n <= |keys|
  {
    0 <= i < n && exists j :: 0 <= j < n && SameKey(keys, i, j)
  }

  ghost predicate Separate(keys: seq<Option<string>>) {
    forall i, j :: 0 <= i < |keys| && 0 <= j < |keys| ==> !SameKey(keys, i, j)
  }

  /** No two live rows show the same device. */
  ghost predicate NoDuplicates(rows: seq<FormRow>) { Separate(Keys(rows)) }

  /** The ids of the live rows have four characters, as valid ids do. */
  ghost predicate WideIds(rows: seq<FormRow>) {
    forall i :: 0 <= i < |rows| && !rows[i].deleted ==> |T(rows[i].vid.text)| == 4 && |T(rows[i].pid.text)| == 4
  }

  predicate SameDevice(a: FormRow, b: FormRow) {
    && T(a.vid.text) == T(b.vid.text) && T(a.pid.text) == T(b.pid.text) && T(a.serial.text) == T(b.serial.text)
  }

  /** No two live rows show the same vid, pid and serial. */
  ghost predicate DevicesDiffer(rows: seq<FormRow>) {
    forall i, j :: 0 <= i < j < |rows| && !rows[i].deleted && !rows[j].deleted ==> !SameDevice(rows[i], rows[j])
  }

  lemma SplitKey(vid: string, pid: string, serial: string)
    requires |vid| == 4 && |pid| == 4
    ensures var k := vid + pid + serial; k[..4] == vid && k[4..8] == pid && k[8..] == serial
  {
  }

  lemma WideKeys(a: FormRow, b: FormRow)
    requires |T(a.vid.text)| == 4 && |T(a.pid.text)| == 4 && |T(b.vid.text)| == 4 && |T(b.pid.text)| == 4
    ensures Key(a) == Key(b) <==> SameDevice(a, b)
  {
    SplitKey(T(a.vid.text), T(a.pid.text), T(a.serial.text));
    SplitKey(T(b.vid.text), T(b.pid.text), T(b.serial.text));
  }

  /** For such rows the duplicate check on joined keys is one on devices. */
  lemma NoDuplicatesIff(rows: seq<FormRow>)
    requires WideIds(rows)
    ensures NoDuplicates(rows) <==> DevicesDiffer(rows)
  {
    var keys := Keys(rows);
    forall i, j | 0 <= i < |rows| && 0 <= j < |rows| && i != j && !rows[i].deleted && !rows[j].deleted
      ensures SameKey(keys, i, j) <==> SameDevice(rows[i], rows[j])
    {
      WideKeys(rows[i], rows[j]);
    }
    if DevicesDiffer(rows) {
      forall i, j | 0 <= i < |keys| && 0 <= j < |keys| ensures !SameKey(keys, i, j) {
        if keys[i].Some? && keys[j].Some? && i < j { assert !SameDevice(rows[i], rows[j]); }
        if keys[i].Some? && keys[j].Some? && j < i { assert !SameDevice(rows[j], rows[i]); }
      }
    } else {
      var i, j :| 0 <= i < j < |rows| && !rows[i].deleted && !rows[j].deleted && SameDevice(rows[i], rows[j]);
      assert SameKey(keys, i, j);
    }
  }

  lemma TwinStays(keys: seq<Option<string>>, n: nat, i: int)
    requires n < |keys| && HasTwin(keys, n, i)
    ensures HasTwin(keys, n + 1, i)
  {
    var j :| 0 <= j < n && SameKey(keys, i, j);
  }

  lemma TwinAdds(keys: seq<Option<string>>, n: nat, first: nat)
    requires first < n < |keys| && SameKey(keys, first, n)
    ensures forall i :: HasTwin(keys, n + 1, i) <==> HasTwin(keys, n, i) || i == n || i == first
  {
    assert SameKey(keys, n, first);
    assert HasTwin(keys, n + 1, n) && HasTwin(keys, n + 1, first);
    forall i | HasTwin(keys, n, i) ensures HasTwin(keys, n + 1, i) { TwinStays(keys, n, i); }
    forall i | HasTwin(keys, n + 1, i) && i != n && i != first ensures HasTwin(keys, n, i) {
      var j :| 0 <= j < n + 1 && SameKey(keys, i, j);
      if j == n { assert SameKey(keys, i, first); }
    }
  }

  lemma TwinSame(keys: seq<Option<string>>, n: nat)
    requires n < |keys| && forall j :: 0 <= j < n ==> !SameKey(keys, j, n)
    ensures forall i :: HasTwin(keys, n + 1, i) <==> HasTwin(keys, n, i)
  {
    forall i | HasTwin(keys, n, i) ensures HasTwin(keys, n + 1, i) { TwinStays(keys, n, i); }
    forall i | HasTwin(keys, n + 1, i) ensures HasTwin(keys, n, i) {
      var j :| 0 <= j < n + 1 && SameKey(keys, i, j);
      SameKeySymmetric(keys, i, j);
    }
  }

  lemma SameKeySymmetric(keys: seq<Option<string>>, i: nat, j: nat)
    requires i < |keys| && j < |keys| && SameKey(keys, i, j)
    ensures SameKey(keys, j, i)
  {
  }

  function Mark(duplicates: seq<nat>, a: nat, b: nat): (r: seq<nat>)
    ensures forall i :: i in r <==> i in duplicates || i == a || i == b
  {
    duplicates + [a, b]
  }

  /** The map of the keys seen so far, each with the first position that has it. */
  ghost predicate Seen(keys: seq<Option<string>>, n: nat, seen: map<string, nat>)
    requires n <= |keys|
  {
    && (forall k :: k in seen ==> seen[k] < n && keys[seen[k]] == Some(k))
    && (forall i :: 0 <= i < n && keys[i].Some? ==> keys[i].value in seen)
  }

  lemma SeenStep(keys: seq<Option<string>>, n: nat, seen: map<string, nat>)
    requires n < |keys| && Seen(keys, n, seen)
    ensures var k := keys[n];
      if k.Some? && k.value in seen then Seen(keys, n + 1, seen) && seen[k.value] < n && SameKey(keys, seen[k.value], n)
      else Seen(keys, n + 1, if k.Some? then seen[k.value := n] else seen)
           && forall j :: 0 <= j < n ==> !SameKey(keys, j, n)
  {
    var k := keys[n];
    if k.Some? && k.value in seen {
      assert keys[seen[k.value]] == k;
    } else {
      forall j | 0 <= j < n ensures !SameKey(keys, j, n) {
        assert keys[j].Some? ==> keys[j].value in seen;
      }
      var next := if k.Some? then seen[k.value := n] else seen;
      forall i | 0 <= i < n + 1 && keys[i].Some? ensures keys[i].value in next {
        if i == n { assert keys[i] == k; }
      }
      assert Seen(keys, n + 1, next);
    }
  }

  lemma EmptyMeansSeparate(keys: seq<Option<string>>, duplicates: seq<nat>)
    requires forall i: nat :: i in duplicates <==> HasTwin(keys, |keys|, i)
    ensures |duplicates| == 0 <==> Separate(keys)
  {
    if |duplicates| > 0 {
      assert duplicates[0] in duplicates;
      assert HasTwin(keys, |keys|, duplicates[0]);
    } else {
      forall i, j | 0 <= i < |keys| && 0 <= j < |keys| ensures !SameKey(keys, i, j) {
        assert !HasTwin(keys, |keys|, i);
      }
    }
  }

  /** Reports whether the live rows have distinct keys, and which rows get the
      duplicate mark. */
  method CheckNoDuplicateRows(rows: seq<FormRow>) returns (ok: bool, duplicates: seq<nat>)
    ensures ok <==> NoDuplicates(rows)
    ensures WideIds(rows) ==> (ok <==> DevicesDiffer(rows))
    ensures forall i: nat :: i in duplicates <==> HasTwin(Keys(rows), |rows|, i)
  {
    ghost var keys := Keys(rows);
    var seen: map<string, nat> := map[];
    duplicates := [];
    for index := 0 to |rows|
      invariant |keys| == |rows| && Seen(keys, index, seen)
      invariant forall i: nat :: i in duplicates <==> HasTwin(keys, index, i)
    {
      var key := Key(rows[index]);
      SeenStep(keys, index, seen);
      if !rows[index].deleted && key in seen {
        TwinAdds(keys, index, seen[key]);
        duplicates := Mark(duplicates, index, seen[key]);
      } else {
        TwinSame(keys, index);
        if !rows[index].deleted {
          seen := seen[key := index];
        }
      }
    }
    ok := |duplicates| == 0;
    EmptyMeansSeparate(keys, duplicates);
    if WideIds(rows) { NoDuplicatesIff(rows); }
  }

  // ------------------------------------------------------------ the difference

  function Sent(c: Cell): string { if c.changed then T(c.text) else "" }

  function UpdateItemOf(r: FormRow): UpdateItem {
    UpdateItem(T(r.ruleId), Sent(r.vid), Sent(r.pid), Sent(r.serial), Sent(r.user), Sent(r.group))
  }

  function CreateItemOf(r: FormRow): CreateItem {
    CreateItem(T(r.vid.text), T(r.pid.text), T(r.serial.text), T(r.user.text), T(r.group.text))
  }

  /** What one row adds to the request. Rows with an empty field are dropped. */
  function AddRow(form: Form, r: FormRow): Form {
    if IsCreated(r) then (if AllFields(r) then form.(created := form.created + [CreateItemOf(r)]) else form)
    else if IsDeleted(r) then form.(deleted := form.deleted + [T(r.ruleId)])
    else if IsUpdated(r) then (if AllFields(r) then form.(updated := form.updated + [UpdateItemOf(r)]) else form)
    else if IsExisting(r) then form.(notchanged := form.notchanged + [T(r.ruleId)])
    else form
  }

  function FormOf(rows: seq<FormRow>): Form {
    if rows == [] then Form([], [], [], []) else AddRow(FormOf(rows[..|rows| - 1]), rows[|rows| - 1])
  }

  /** Where a row of the page lands. An appended row, or one without an id, is sent
      as a new rule if a cell is marked and all are filled in; a row of a stored
      rule is sent as deleted if it is marked so, and otherwise as updated if a cell
      is marked and all are filled in; a marked row with an empty cell is dropped;
      and a row without marks is listed as unchanged. */
  lemma RowLands(form: Form, r: FormRow)
    ensures var stored := !r.appended && T(r.ruleId) != "";
      var marked := r.vid.changed || r.pid.changed || r.serial.changed || r.user.changed || r.group.changed;
      var filled := T(r.vid.text) != "" && T(r.pid.text) != "" && T(r.serial.text) != "" && T(r.user.text) != ""
                    && T(r.group.text) != "";
      var after := AddRow(form, r);
      && after.created == form.created + (if !stored && marked && filled then
           [CreateItem(T(r.vid.text), T(r.pid.text), T(r.serial.text), T(r.user.text), T(r.group.text))] else [])
      && after.deleted == form.deleted + (if stored && r.deleted then [T(r.ruleId)] else [])
      && |after.updated| == |form.updated| + (if stored && !r.deleted && marked && filled then 1 else 0)
      && form.updated <= after.updated
      && (stored && !r.deleted && marked && filled ==> UpdateShows(after.updated[|form.updated|], r))
      && after.notchanged == form.notchanged + (if stored && !r.deleted && !marked then [T(r.ruleId)] else [])
  {
  }

  /** The item carries the id of the row and the texts of its marked cells. */
  predicate UpdateShows(item: UpdateItem, r: FormRow) {
    && item.id == T(r.ruleId)
    && item.vid == (if r.vid.changed then T(r.vid.text) else "")
    && item.pid == (if r.pid.changed then T(r.pid.text) else "")
    && item.serial == (if r.serial.changed then T(r.serial.text) else "")
    && item.user == (if r.user.changed then T(r.user.text) else "")
    && item.group == (if r.group.changed then T(r.group.text) else "")
  }

  method SaveRules(rows: seq<FormRow>) returns (res: Option<Form>)
    ensures res == if NoDuplicates(rows) then Some(FormOf(rows)) else None
    ensures WideIds(rows) ==> (res.Some? <==> DevicesDiffer(rows))
  {
    var ok, duplicates := CheckNoDuplicateRows(rows);
    if !ok { return None; }
    var created: seq<CreateItem>, updated: seq<UpdateItem>, deleted, notchanged := [], [], [], [];
    for n := 0 to |rows|
      invariant Form(created, updated, deleted, notchanged) == FormOf(rows[..n])
    {
      assert rows[..n + 1][..n] == rows[..n];
      var r := rows[n];
      var isExisting := !r.appended && T(r.ruleId) != "";
      var isDeleted := isExisting && r.deleted;
      var isUpdated := isExisting && !isDeleted && SomeChanged(r);
      var isNotChanged := isExisting && !isUpdated && !isDeleted;
      var isCreated := !isExisting && SomeChanged(r);
      if isCreated && AllFields(r) {
        created := created + [CreateItemOf(r)];
      }
      if isDeleted {
        deleted := deleted + [T(r.ruleId)];
      } else if isUpdated && AllFields(r) {
        updated := updated + [UpdateItemOf(r)];
      } else if isNotChanged {
        notchanged := notchanged + [T(r.ruleId)];
      }
    }
    assert rows[..|rows|] == rows;
    res := Some(Form(created, updated, deleted, notchanged));
  }
}
