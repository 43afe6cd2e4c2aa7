/** The mount_points table: which device the daemon mounted where. */
module MountStore {
  import opened Wrappers
  import opened Text
  import opened Dto
  import opened Tables

  type MountRows = map<Id, MountEntry>

  function ShowMount(e: MountEntry): map<string, Json> { MountJson(e).fields }

  /** One element of the stored array; its members are checked before the entry
      is built. */
  function ReadMountRow(element: Json): Result<(Id, MountEntry)> {
    if !element.Obj? then Err(RuntimeError)
    else
      var f := element.fields;
      if !IsNumber(f, "id") || !IsStr(f, "dev_name") || !IsStr(f, "mount_point") || !IsStr(f, "fs_type") then
        Err(RuntimeError)
      else match ToUint64(f["id"])
        case Err(e) => Err(e)
        case Ok(id) => match MountFrom(f)
          case Err(e) => Err(e)
          case Ok(entry) => Ok((id, entry))
  }

  function FindEntry(rows: MountRows, e: MountEntry): (r: Option<Id>)
    ensures r.None? <==> e !in rows.Values
    ensures r.Some? ==> r.value in rows && rows[r.value] == e
  {
    FindRow(rows, (x: MountEntry) => x == e)
  }

  function FindDevice(rows: MountRows, devName: string): Option<Id> {
    FindRow(rows, (x: MountEntry) => x.devName == devName)
  }

  /** `Mountpoints::Create`: an entry equal to a stored one is not added. */
  function CreateMount(rows: MountRows, e: MountEntry): MountRows {
    if FindEntry(rows, e).Some? then rows else CreateRow(rows, e)
  }

  function Live(rows: MountRows, valid: set<string>): MountRows {
    Sweep(rows, (e: MountEntry) => e.mountPoint !in valid)
  }

  /** No two rows hold the same entry. */
  ghost predicate Distinct(rows: MountRows) {
    forall i, j :: i in rows && j in rows && rows[i] == rows[j] ==> i == j
  }

  /** The row of a device is the one with the least id. */
  lemma FindDeviceIsFirst(rows: MountRows, devName: string)
    ensures match FindDevice(rows, devName)
      case None => forall id :: id in rows ==> rows[id].devName != devName
      case Some(k) => k in rows && rows[k].devName == devName
                      && forall id :: id in rows && rows[id].devName == devName ==> k <= id
  {
  }

  /** An entry is stored exactly when it is not there yet. */
  lemma CreateMountIff(rows: MountRows, e: MountEntry)
    requires U64 - 1 !in rows
    ensures e in CreateMount(rows, e).Values
    ensures CreateMount(rows, e) == rows <==> e in rows.Values
    ensures forall id :: id in rows ==> id in CreateMount(rows, e) && CreateMount(rows, e)[id] == rows[id]
  {
    if FindEntry(rows, e).None? {
      CreateIsFresh(rows, e);
      var id: Id :| id !in rows && CreateMount(rows, e) == rows[id := e];
      assert CreateMount(rows, e)[id] == e;
    } else {
      assert rows[FindEntry(rows, e).value] in rows.Values;
    }
  }

  /** Which array elements read as rows, and under which id. */
  lemma ReadMountRowIff(element: Json)
    ensures ReadMountRow(element).Ok? <==>
      element.Obj? && MountFrom(element.fields).Ok? && "id" in element.fields && IsUnsigned(element.fields["id"])
    ensures ReadMountRow(element).Ok? ==>
      ReadMountRow(element).value.0 as int == NumberOf(element.fields["id"])
      && ReadMountRow(element).value.1 == MountFrom(element.fields).value
  {
  }

  /** Create never stores an entry twice, whatever the ids are. */
  lemma CreateKeepsDistinct(rows: MountRows, e: MountEntry)
    requires Distinct(rows)
    ensures Distinct(CreateMount(rows, e))
    ensures CreateMount(rows, e).Values <= rows.Values + {e}
  {
    var after := CreateMount(rows, e);
    forall i, j | i in after && j in after && after[i] == after[j] ensures i == j {
      if FindEntry(rows, e).None? {
        assert forall k :: k in rows ==> rows[k] in rows.Values;
      }
    }
  }

  lemma MountRowReads(id: Id, e: MountEntry)
    ensures ReadMountRow(Reparse(RowJson(id, e, ShowMount))) == Ok((id, CMount(e)))
  {
    var m := MountJson(e).fields;
    var row := m["id" := UInt64(id)];
    ReparseObject(row);
    var f := Reparse(Obj(row)).fields;
    assert "dev_name" in m && "mount_point" in m && "fs_type" in m && "id" !in m;
    forall k | k in m ensures k in f && f[k] == Reparse(m[k]) {
      assert k in row && row[k] == m[k];
    }
    MountReads(e, f);
    assert f["id"] == Reparse(UInt64(id));
  }

  lemma MountsLoad(rows: MountRows)
    ensures LoadFile(Some(TableJson(rows, ShowMount)), ReadMountRow) == Ok(Cleaned(rows, CMount))
  {
    forall id | id in rows ensures ReadsAs(id, rows[id], ShowMount, ReadMountRow, Ok((id, CMount(rows[id])))) {
      MountRowReads(id, rows[id]);
    }
    RowsLoadBack(rows, ShowMount, ReadMountRow, CMount, 0, map[]);
    ReparseTable(rows, ShowMount);
  }

  /** The stored text of a mount table loads back to the same id-to-row map
      exactly when no string holds a NUL; every 64-bit id survives. */
  lemma MountsReload(rows: MountRows)
    ensures LoadFile(Some(TableJson(rows, ShowMount)), ReadMountRow) == Ok(rows)
            <==> forall id :: id in rows ==> NulFreeMount(rows[id])
  {
    MountsLoad(rows);
    var loaded := Cleaned(rows, CMount);
    forall id | id in rows ensures loaded[id] == rows[id] <==> NulFreeMount(rows[id]) {
      CMountFixed(rows[id]);
    }
    assert loaded == rows <==> forall id :: id in rows ==> loaded[id] == rows[id];
  }

  class Mountpoints {
    const base: Table<MountEntry>

    constructor (file: Option<Json>)
      ensures fresh(base) && base.file == file && base.data == map[] && !base.transactionStarted
      ensures base.show == ShowMount
    {
      base := new Table(ShowMount, file);
    }

    method DataFromRawJson() returns (r: Result<()>)
      requires base.data == map[]
      modifies base`data
      ensures r.Ok? <==> LoadFile(base.file, ReadMountRow).Ok?
      ensures r.Ok? ==> LoadFile(base.file, ReadMountRow) == Ok(base.data)
    {
      r := base.Load(ReadMountRow);
    }

    method Create(entry: MountEntry)
      modifies base`data, base`file
      ensures base.data == CreateMount(old(base.data), entry)
      ensures base.file == if entry in old(base.data.Values) then old(base.file) else base.Mirror(old(base.file))
    {
      var index := Find(entry);
      if index.None? {
        base.Insert(NextId(base.data.Keys), entry);
      }
    }

    method Read(index: Id) returns (r: Result<MountEntry>)
      ensures r == if index in base.data then Ok(base.data[index]) else Err(InvalidArgument)
    {
      var checked := base.CheckIndex(index);
      if checked.Err? { return Err(checked.error); }
      r := Ok(base.data[index]);
    }

    method Find(entry: MountEntry) returns (r: Option<Id>)
      ensures r == FindEntry(base.data, entry)
    {
      r := base.Find((x: MountEntry) => x == entry);
    }

    method FindByDevice(devName: string) returns (r: Option<Id>)
      ensures r == FindDevice(base.data, devName)
    {
      r := base.Find((x: MountEntry) => x.devName == devName);
    }

    method RemoveExpired(valid: set<string>)
      modifies base`data, base`file
      ensures base.data == Live(old(base.data), valid) && base.file == base.Mirror(old(base.file))
    {
      base.RemoveExpired((e: MountEntry) => e.mountPoint !in valid);
    }
  }
}
