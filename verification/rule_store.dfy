/** The permissions table: which user and group own which device. */
module RuleStore {
  import opened Wrappers
  import opened Text
  import opened Dto
  import opened Tables

  type RuleRows = map<Id, PermissionEntry>

  function ShowRule(e: PermissionEntry): map<string, Json> { PermissionJson(e).fields }

  /** One element of the stored array. The check on "id" refuses the unsigned
      JSON kind, which is the kind an id above 2^63 - 1 has after parsing. */
  function ReadRuleRow(element: Json): Result<(Id, PermissionEntry)> {
    if !element.Obj? then Err(RuntimeError)
    else
      var f := element.fields;
      if !("device" in f && f["device"].Obj? && "users" in f && f["users"].Arr? && "groups" in f && f["groups"].Arr?
           && "id" in f && !f["id"].UInt64?) then
        Err(RuntimeError)
      else match ToUint64(f["id"])
        case Err(e) => Err(e)
        case Ok(id) => match PermissionFrom(f)
          case Err(e) => Err(e)
          case Ok(entry) => Ok((id, entry))
  }

  function FindRule(rows: RuleRows, d: Device): Option<Id> {
    FindRow(rows, (e: PermissionEntry) => e.device == d)
  }

  /** The rule found for a device is the one with the least id. */
  lemma FindRuleIsFirst(rows: RuleRows, d: Device)
    ensures match FindRule(rows, d)
      case None => forall id :: id in rows ==> rows[id].device != d
      case Some(k) => k in rows && rows[k].device == d && forall id :: id in rows && rows[id].device == d ==> k <= id
  {
  }

  /** Which array elements read as rules: the id must be of the signed kind. */
  lemma ReadRuleRowIff(element: Json)
    ensures ReadRuleRow(element).Ok? <==>
      && element.Obj? && PermissionFrom(element.fields).Ok?
      && "id" in element.fields && element.fields["id"].Int64? && 0 <= element.fields["id"].i < U64
    ensures ReadRuleRow(element).Ok? ==>
      ReadRuleRow(element).value.0 as int == element.fields["id"].i
      && ReadRuleRow(element).value.1 == PermissionFrom(element.fields).value
  {
    if element.Obj? { PermissionFromIff(element.fields); }
  }

  lemma RuleRowReads(id: Id, e: PermissionEntry)
    ensures var r := ReadRuleRow(Reparse(RowJson(id, e, ShowRule)));
      if id <= INT64_MAX then r == Ok((id, CPermission(e))) else r.Err?
  {
    var m := PermissionJson(e).fields;
    var row := m["id" := UInt64(id)];
    ReparseObject(row);
    var f := Reparse(Obj(row)).fields;
    assert "device" in m && "users" in m && "groups" in m && "id" !in m;
    forall k | k in m ensures k in f && f[k] == Reparse(m[k]) {
      assert k in row && row[k] == m[k];
    }
    assert f["device"] == Reparse(m["device"]) && f["users"] == Reparse(m["users"])
      && f["groups"] == Reparse(m["groups"]);
    PermissionReads(e, f);
    assert f["id"] == Reparse(UInt64(id));
  }

  lemma RulesLoad(rows: RuleRows)
    requires forall id :: id in rows ==> id <= INT64_MAX
    ensures LoadFile(Some(TableJson(rows, ShowRule)), ReadRuleRow) == Ok(Cleaned(rows, CPermission))
  {
    forall id | id in rows ensures ReadsAs(id, rows[id], ShowRule, ReadRuleRow, Ok((id, CPermission(rows[id])))) {
      RuleRowReads(id, rows[id]);
    }
    RowsLoadBack(rows, ShowRule, ReadRuleRow, CPermission, 0, map[]);
    ReparseTable(rows, ShowRule);
  }

  /** The stored text of a permissions table loads back to the same id-to-row
      map exactly when every id is below 2^63 and no string holds a NUL. */
  lemma RulesReload(rows: RuleRows)
    ensures LoadFile(Some(TableJson(rows, ShowRule)), ReadRuleRow) == Ok(rows)
            <==> forall id :: id in rows ==> id <= INT64_MAX && NulFreePermission(rows[id])
  {
    if bad :| bad in rows && bad > INT64_MAX {
      LargeIdFailsLoad(rows, bad);
    } else {
      RulesLoad(rows);
      CleanedIsSame(rows);
    }
  }

  lemma LargeIdFailsLoad(rows: RuleRows, bad: Id)
    requires bad in rows && bad > INT64_MAX
    ensures LoadFile(Some(TableJson(rows, ShowRule)), ReadRuleRow).Err?
  {
    RuleRowReads(bad, rows[bad]);
    BadRowFailsLoad(rows, ShowRule, ReadRuleRow, bad, 0, map[]);
    ReparseTable(rows, ShowRule);
  }

  lemma CleanedIsSame(rows: RuleRows)
    ensures Cleaned(rows, CPermission) == rows <==> forall id :: id in rows ==> NulFreePermission(rows[id])
  {
    var loaded := Cleaned(rows, CPermission);
    forall id | id in rows ensures loaded[id] == rows[id] <==> NulFreePermission(rows[id]) {
      CPermissionFixed(rows[id]);
    }
    assert loaded == rows <==> forall id :: id in rows ==> loaded[id] == rows[id];
  }

  class DevicePermissions {
    const base: Table<PermissionEntry>

    constructor (file: Option<Json>)
      ensures fresh(base) && base.file == file && base.data == map[] && !base.transactionStarted
      ensures base.show == ShowRule
    {
      base := new Table(ShowRule, file);
    }

    method DataFromRawJson() returns (r: Result<()>)
      requires base.data == map[]
      modifies base`data
      ensures r.Ok? <==> LoadFile(base.file, ReadRuleRow).Ok?
      ensures r.Ok? ==> LoadFile(base.file, ReadRuleRow) == Ok(base.data)
    {
      r := base.Load(ReadRuleRow);
    }

    method Create(entry: PermissionEntry)
      modifies base`data, base`file
      ensures base.data == CreateRow(old(base.data), entry) && base.file == base.Mirror(old(base.file))
    {
      base.Insert(NextId(base.data.Keys), entry);
    }

    method Read(index: Id) returns (r: Result<PermissionEntry>)
      ensures r == if index in base.data then Ok(base.data[index]) else Err(InvalidArgument)
    {
      var checked := base.CheckIndex(index);
      if checked.Err? { return Err(checked.error); }
      r := Ok(base.data[index]);
    }

    method Find(d: Device) returns (r: Option<Id>)
      ensures r == FindRule(base.data, d)
    {
      r := base.Find((e: PermissionEntry) => e.device == d);
    }
  }
}
