/** The table behind both stores: an ordered map from 64-bit ids to rows, its
    JSON mirror, and what single operations do to it. */
module Tables {
  import opened Wrappers
  import opened Text
  import opened Dto

  // ------------------------------------------------------- ordered traversal

  function After(id: Id): nat { id as nat + 1 }

  lemma {:induction false} LeastExists(keys: set<Id>) returns (least: Id)
    requires keys != {}
    ensures least in keys && forall j :: j in keys ==> least <= j
  {
    var x :| x in keys;
    var rest := keys - {x};
    least := x;
    if rest != {} {
      var m := LeastExists(rest);
      if m < x { least := m; }
    }
    assert forall j :: j in keys ==> j == x || j in rest;
  }

  /** Where a map iterator lands: the first id not below `lo`. */
  function LeastFrom(keys: set<Id>, lo: nat): (r: Option<Id>)
    ensures r.None? ==> forall k :: k in keys ==> k < lo
    ensures r.Some? ==> r.value in keys && lo <= r.value && forall k :: k in keys && lo <= k ==> r.value <= k
  {
    var above := set k | k in keys && lo <= k;
    if above == {} then
      assert forall k :: k in keys && lo <= k ==> k in above;
      None
    else
      assert exists k :: k in above && forall j :: j in above ==> k <= j by { var k := LeastExists(above); }
      var least: Id :| least in above && forall k :: k in above ==> least <= k;
      assert forall k :: k in keys && lo <= k ==> k in above;
      Some(least)
  }

  /** Erasing the current element leaves its successor where it was. */
  lemma EraseKeepsSuccessor(keys: set<Id>, here: Id)
    ensures LeastFrom(keys - {here}, After(here)) == LeastFrom(keys, After(here))
  {
    var r := LeastFrom(keys, After(here));
    if r.Some? { assert r.value in keys - {here}; }
  }

  lemma {:induction false} GreatestExists(keys: set<Id>) returns (most: Id)
    requires keys != {}
    ensures most in keys && forall j :: j in keys ==> j <= most
  {
    var x :| x in keys;
    var rest := keys - {x};
    most := x;
    if rest != {} {
      var m := GreatestExists(rest);
      if x < m { most := m; }
    }
    assert forall j :: j in keys ==> j == x || j in rest;
  }

  /** `data_.rbegin()->first`. */
  function Greatest(keys: set<Id>): (k: Id)
    requires keys != {}
    ensures k in keys && forall j :: j in keys ==> j <= k
  {
    assert exists k :: k in keys && forall j :: j in keys ==> j <= k by { var k := GreatestExists(keys); }
    var most: Id :| most in keys && forall j :: j in keys ==> j <= most;
    most
  }

  // -------------------------------------------------------------- operations

  /** The least number above every key. */
  function Top(keys: set<Id>): (t: nat)
    ensures forall k :: k in keys ==> k < t
    ensures t == 0 || exists k :: k in keys && k as nat == t - 1
  {
    if keys == {} then 0 else Greatest(keys) as nat + 1
  }

  /** The id a new row gets, in 64-bit arithmetic. */
  function NextId(keys: set<Id>): Id { Top(keys) % U64 }

  function Emplace<R>(rows: map<Id, R>, id: Id, row: R): map<Id, R> {
    if id in rows then rows else rows[id := row]
  }

  function CreateRow<R>(rows: map<Id, R>, row: R): map<Id, R> {
    Emplace(rows, NextId(rows.Keys), row)
  }

  function Sweep<R>(rows: map<Id, R>, expired: R -> bool): map<Id, R> {
    map id | id in rows && !expired(rows[id]) :: rows[id]
  }

  /** The first row in id order that satisfies `p`. */
  ghost predicate IsFirst<R>(rows: map<Id, R>, p: R -> bool, r: Option<Id>) {
    match r
    case None => forall id :: id in rows ==> !p(rows[id])
    case Some(k) => k in rows && p(rows[k]) && forall id :: id in rows && p(rows[id]) ==> k <= id
  }

  function FindFrom<R>(rows: map<Id, R>, p: R -> bool, lo: nat): (r: Option<Id>)
    ensures r.None? ==> forall id :: id in rows && lo <= id ==> !p(rows[id])
    ensures r.Some? ==> r.value in rows && lo <= r.value && p(rows[r.value])
    ensures r.Some? ==> forall id :: id in rows && lo <= id && p(rows[id]) ==> r.value <= id
    decreases U64 - lo
  {
    match LeastFrom(rows.Keys, lo)
    case None => None
    case Some(k) => if p(rows[k]) then Some(k) else FindFrom(rows, p, After(k))
  }

  /** `std::find_if` over the map. */
  function FindRow<R>(rows: map<Id, R>, p: R -> bool): (r: Option<Id>)
    ensures IsFirst(rows, p, r)
  {
    FindFrom(rows, p, 0)
  }

  datatype TableOp<!R> =
    | Create(row: R)
    | Update(id: Id, row: R)
    | Delete(id: Id)
    | Clear
    | RemoveExpired(expired: R -> bool)

  /** The effect of one operation. An Update of a missing id throws and changes
      nothing. */
  function Apply<R>(rows: map<Id, R>, op: TableOp<R>): map<Id, R> {
    match op
    case Create(row) => CreateRow(rows, row)
    case Update(id, row) => if id in rows then rows[id := row] else rows
    case Delete(id) => rows - {id}
    case Clear => map[]
    case RemoveExpired(expired) => Sweep(rows, expired)
  }

  /** The rows other than `id` are as before. */
  ghost predicate OthersKept<R(!new)>(rows: map<Id, R>, id: Id, after: map<Id, R>) {
    forall k :: k != id ==> (k in after <==> k in rows) && (k in rows ==> k in after && after[k] == rows[k])
  }

  /** What the operations do, row by row. */
  lemma ApplyMeans<R(!new)>(rows: map<Id, R>, id: Id, row: R, expired: R -> bool)
    ensures var after := Apply(rows, Delete(id)); id !in after && OthersKept(rows, id, after)
    ensures forall k :: k !in Apply(rows, Clear)
    ensures var after := Apply(rows, RemoveExpired(expired));
      forall k :: (k in after <==> k in rows && !expired(rows[k])) && (k in after ==> after[k] == rows[k])
    ensures var after := Apply(rows, Update(id, row));
      if id in rows then id in after && after[id] == row && OthersKept(rows, id, after)
      else forall k :: (k in after <==> k in rows) && (k in after ==> after[k] == rows[k])
    ensures var after := Apply(rows, Create(row));
      (exists k: Id :: k !in rows && k in after && after[k] == row && OthersKept(rows, k, after)
                       && forall j :: j in rows ==> j < k)
      <==> U64 - 1 !in rows
  {
    CreateIsFresh(rows, row);
    var after := Apply(rows, Create(row));
    if k: Id :| k !in rows && after == rows[k := row] && forall j :: j in rows ==> j < k {
      assert OthersKept(rows, k, after);
    }
    if k: Id :| k !in rows && k in after && after[k] == row && OthersKept(rows, k, after)
                && forall j :: j in rows ==> j < k {
      assert after == rows[k := row];
    }
  }

  function ApplyAll<R>(rows: map<Id, R>, ops: seq<TableOp<R>>): map<Id, R> {
    if ops == [] then rows else Apply(ApplyAll(rows, ops[..|ops| - 1]), ops[|ops| - 1])
  }

  /** Creating keeps every row and puts the new one above all of them exactly
      when the largest 64-bit id is free. */
  lemma CreateIsFresh<R>(rows: map<Id, R>, row: R)
    ensures var after := CreateRow(rows, row);
      (exists id: Id :: id !in rows && after == rows[id := row] && forall k :: k in rows ==> k < id)
      <==> U64 - 1 !in rows
  {
    var id := NextId(rows.Keys);
    if rows.Keys == {} {
      assert id !in rows && CreateRow(rows, row) == rows[id := row];
    } else {
      var top := Greatest(rows.Keys);
      if top < U64 - 1 {
        assert id !in rows && CreateRow(rows, row) == rows[id := row] && forall k :: k in rows ==> k < id;
      }
    }
  }

  /** At the last id the counter wraps to 0: the row is lost exactly when 0 is
      taken, and even then no other row is touched. */
  lemma CreateAtLastId<R>(rows: map<Id, R>, row: R)
    requires U64 - 1 in rows
    ensures CreateRow(rows, row) == if 0 in rows then rows else rows[0 := row]
  {
    assert Greatest(rows.Keys) == U64 - 1;
  }

  /** Over any run, a row that is never absent changes only through an Update
      at its own id. */
  lemma {:induction false} SurvivorIsFramed<R>(rows: map<Id, R>, ops: seq<TableOp<R>>, id: Id)
    requires forall n :: 0 <= n <= |ops| ==> id in ApplyAll(rows, ops[..n])
    requires forall n :: 0 <= n < |ops| ==> !(ops[n].Update? && ops[n].id == id)
    ensures id in ApplyAll(rows, ops) && id in rows && ApplyAll(rows, ops)[id] == rows[id]
  {
    assert ops[..|ops|] == ops;
    if ops == [] {
      assert ApplyAll(rows, ops[..0]) == rows;
    } else {
      var front := ops[..|ops| - 1];
      forall n | 0 <= n <= |front| ensures id in ApplyAll(rows, front[..n]) {
        assert front[..n] == ops[..n];
      }
      SurvivorIsFramed(rows, front, id);
      assert id in ApplyAll(rows, front);
      assert !(ops[|front|].Update? && ops[|front|].id == id);
    }
  }

  // --------------------------------------------------------------- the mirror

  function RowJson<R>(id: Id, row: R, show: R -> map<string, Json>): Json {
    Obj(show(row)["id" := UInt64(id)])
  }

  /** The JSON of the rows from id `lo` on, in id order. */
  function RowsJson<R>(rows: map<Id, R>, show: R -> map<string, Json>, lo: nat): seq<Json>
    decreases U64 - lo
  {
    match LeastFrom(rows.Keys, lo)
    case None => []
    case Some(k) => [RowJson(k, rows[k], show)] + RowsJson(rows, show, After(k))
  }

  function TableJson<R>(rows: map<Id, R>, show: R -> map<string, Json>): Json {
    Arr(RowsJson(rows, show, 0))
  }

  /** `DataFromRawJson`: rows are emplaced in order of appearance, and the first
      bad element aborts the load. */
  function LoadRows<R>(items: seq<Json>, read: Json -> Result<(Id, R)>, acc: map<Id, R>): Result<map<Id, R>> {
    if items == [] then Ok(acc)
    else match read(items[0])
      case Err(e) => Err(e)
      case Ok((id, row)) => LoadRows(items[1..], read, Emplace(acc, id, row))
  }

  /** Loading the text of a file; `None` is the empty file of a new table. */
  function LoadFile<R>(file: Option<Json>, read: Json -> Result<(Id, R)>): Result<map<Id, R>> {
    match file
    case None => Ok(map[])
    case Some(text) =>
      var value := Reparse(text);
      if value.Arr? then LoadRows(value.items, read, map[]) else Err(RuntimeError)
  }

  /** Row `id` comes from the first element that carries this id. */
  ghost predicate FirstWins<R>(items: seq<Json>, read: Json -> Result<(Id, R)>, id: Id, row: R) {
    exists i :: 0 <= i < |items| && read(items[i]) == Ok((id, row))
      && forall j :: 0 <= j < i && read(items[j]).Ok? ==> read(items[j]).value.0 != id
  }

  ghost predicate AllRead<R>(items: seq<Json>, read: Json -> Result<(Id, R)>) {
    forall i :: 0 <= i < |items| ==> read(items[i]).Ok?
  }

  lemma {:induction false} LoadRowsMeans<R>(items: seq<Json>, read: Json -> Result<(Id, R)>, acc: map<Id, R>)
    ensures var r := LoadRows(items, read, acc);
      && (r.Ok? <==> AllRead(items, read))
      && (r.Ok? ==> acc.Keys <= r.value.Keys)
      && (r.Ok? ==> forall id :: id in acc ==> r.value[id] == acc[id])
      && (r.Ok? ==> forall id :: id in r.value && id !in acc ==> FirstWins(items, read, id, r.value[id]))
      && (r.Ok? ==> forall i :: 0 <= i < |items| ==> read(items[i]).value.0 in r.value)
  {
    if items != [] && read(items[0]).Ok? {
      var (k, row) := read(items[0]).value;
      var rest := items[1..];
      LoadRowsMeans(rest, read, Emplace(acc, k, row));
      assert forall i :: 0 <= i < |rest| ==> items[i + 1] == rest[i];
      assert AllRead(rest, read) <==> AllRead(items, read) by {
        assert forall i :: 1 <= i < |items| ==> items[i] == rest[i - 1];
      }
      var r := LoadRows(items, read, acc);
      if r.Ok? {
        forall id | id in r.value && id !in acc ensures FirstWins(items, read, id, r.value[id]) {
          if id == k {
            assert read(items[0]) == Ok((id, r.value[id]));
          } else {
            var i :| 0 <= i < |rest| && read(rest[i]) == Ok((id, r.value[id]))
              && forall j :: 0 <= j < i && read(rest[j]).Ok? ==> read(rest[j]).value.0 != id;
            assert read(items[i + 1]) == Ok((id, r.value[id]));
            assert forall j :: 1 <= j < i + 1 ==> items[j] == rest[j - 1];
          }
        }
      }
    }
  }

  /** A file loads exactly when it is empty or an array of readable rows; it
      yields one row for each id in it, and the first of equal ids wins. */
  lemma LoadFileMeans<R>(file: Option<Json>, read: Json -> Result<(Id, R)>)
    ensures var r := LoadFile(file, read);
      && (r.Ok? <==> file.None? || (Reparse(file.value).Arr? && AllRead(Reparse(file.value).items, read)))
      && (file.None? ==> r == Ok(map[]))
      && (r.Ok? && file.Some? ==> var items := Reparse(file.value).items;
           && (forall id :: id in r.value ==> FirstWins(items, read, id, r.value[id]))
           && (forall i :: 0 <= i < |items| ==> read(items[i]).value.0 in r.value))
  {
    if file.Some? && Reparse(file.value).Arr? {
      LoadRowsMeans(Reparse(file.value).items, read, map[]);
    }
  }

  ghost predicate ReadsAs<R>(id: Id, row: R, show: R -> map<string, Json>, read: Json -> Result<(Id, R)>,
      r: Result<(Id, R)>) {
    read(Reparse(RowJson(id, row, show))) == r
  }

  function Cleaned<R>(rows: map<Id, R>, clean: R -> R): map<Id, R> {
    map id | id in rows :: clean(rows[id])
  }

  ghost predicate LoadedBelow<R>(rows: map<Id, R>, clean: R -> R, lo: nat, acc: map<Id, R>) {
    forall id :: (id in acc <==> id in rows && id < lo) && (id in acc ==> acc[id] == clean(rows[id]))
  }

  lemma LoadStep<R>(rows: map<Id, R>, clean: R -> R, lo: nat, acc: map<Id, R>)
    requires LoadedBelow(rows, clean, lo, acc)
    ensures match LeastFrom(rows.Keys, lo)
      case None => acc == Cleaned(rows, clean)
      case Some(k) => LoadedBelow(rows, clean, After(k), Emplace(acc, k, clean(rows[k])))
  {
  }

  lemma HeadRow<R>(rows: map<Id, R>, show: R -> map<string, Json>, lo: nat, k: Id)
    requires LeastFrom(rows.Keys, lo) == Some(k)
    ensures var items := ReparseItems(RowsJson(rows, show, lo));
      items != [] && items[0] == Reparse(RowJson(k, rows[k], show))
      && items[1..] == ReparseItems(RowsJson(rows, show, After(k)))
  {
  }

  lemma {:induction false} RowsLoadBack<R>(rows: map<Id, R>, show: R -> map<string, Json>,
      read: Json -> Result<(Id, R)>, clean: R -> R, lo: nat, acc: map<Id, R>)
    requires forall id :: id in rows ==> ReadsAs(id, rows[id], show, read, Ok((id, clean(rows[id]))))
    requires LoadedBelow(rows, clean, lo, acc)
    ensures LoadRows(ReparseItems(RowsJson(rows, show, lo)), read, acc) == Ok(Cleaned(rows, clean))
    decreases U64 - lo
  {
    LoadStep(rows, clean, lo, acc);
    match LeastFrom(rows.Keys, lo)
    case None =>
      assert ReparseItems(RowsJson(rows, show, lo)) == [];
    case Some(k) =>
      HeadRow(rows, show, lo, k);
      assert ReadsAs(k, rows[k], show, read, Ok((k, clean(rows[k]))));
      RowsLoadBack(rows, show, read, clean, After(k), Emplace(acc, k, clean(rows[k])));
  }

  lemma {:induction false} BadRowFailsLoad<R>(rows: map<Id, R>, show: R -> map<string, Json>,
      read: Json -> Result<(Id, R)>, bad: Id, lo: nat, acc: map<Id, R>)
    requires bad in rows && lo <= bad && read(Reparse(RowJson(bad, rows[bad], show))).Err?
    ensures LoadRows(ReparseItems(RowsJson(rows, show, lo)), read, acc).Err?
    decreases U64 - lo
  {
    var k := LeastFrom(rows.Keys, lo).value;
    var items := ReparseItems(RowsJson(rows, show, lo));
    HeadRow(rows, show, lo, k);
    if k != bad {
      match read(items[0])
      case Err(_) =>
      case Ok((id, row)) => BadRowFailsLoad(rows, show, read, bad, After(k), Emplace(acc, id, row));
    }
  }

  lemma ReparseTable<R>(rows: map<Id, R>, show: R -> map<string, Json>)
    ensures Reparse(TableJson(rows, show)) == Arr(ReparseItems(RowsJson(rows, show, 0)))
  {
  }

  // ---------------------------------------------------------------- the class

  /** The table object: the rows in memory, the file that mirrors them, and the
      transaction flag. `show` is the virtual ToJson of the stored entries. */
  class Table<R> {
    var data: map<Id, R>
    var file: Option<Json>
    var transactionStarted: bool
    const show: R -> map<string, Json>

    constructor (show: R -> map<string, Json>, file: Option<Json>)
      ensures this.show == show && this.file == file && data == map[] && !transactionStarted
    {
      this.show := show;
      this.file := file;
      data := map[];
      transactionStarted := false;
    }

    /** What the file holds after an operation that changed the rows. */
    ghost function Mirror(before: Option<Json>): Option<Json>
      reads this
    {
      if transactionStarted then before else Some(TableJson(data, show))
    }

    method ToJson() returns (j: Json)
      ensures j == TableJson(data, show)
    {
      var out := [];
      var it := LeastFrom(data.Keys, 0);
      ghost var lo: nat := 0;
      while it.Some?
        invariant it == LeastFrom(data.Keys, lo)
        invariant out + RowsJson(data, show, lo) == RowsJson(data, show, 0)
        decreases if it.Some? then U64 - it.value else 0
      {
        out := out + [RowJson(it.value, data[it.value], show)];
        lo := After(it.value);
        it := LeastFrom(data.Keys, After(it.value));
      }
      j := Arr(out);
    }

    method WriteRaw()
      modifies this`file
      ensures file == Some(TableJson(data, show))
    {
      var text := ToJson();
      file := Some(text);
    }

    method CheckIndex(index: Id) returns (r: Result<()>)
      ensures r == if index in data then Ok(()) else Err(InvalidArgument)
    {
      r := if index in data then Ok(()) else Err(InvalidArgument);
    }

    method Delete(index: Id)
      modifies this`data, this`file
      ensures data == old(data) - {index} && file == Mirror(old(file))
      ensures data == Apply(old(data), TableOp.Delete(index))
    {
      data := data - {index};
      if !transactionStarted { WriteRaw(); }
    }

    method Clear()
      modifies this`data, this`file
      ensures data == map[] && file == Mirror(old(file))
      ensures data == Apply(old(data), TableOp.Clear)
    {
      data := map[];
      if !transactionStarted { WriteRaw(); }
    }

    method Insert(index: Id, row: R)
      modifies this`data, this`file
      ensures data == Emplace(old(data), index, row) && file == Mirror(old(file))
    {
      data := Emplace(data, index, row);
      if !transactionStarted { WriteRaw(); }
    }

    method Update(index: Id, row: R) returns (r: Result<()>)
      modifies this`data, this`file
      ensures r.Ok? <==> index in old(data)
      ensures r.Ok? ==> data == old(data)[index := row] && file == Mirror(old(file))
      ensures r.Ok? ==> data == Apply(old(data), TableOp.Update(index, row))
      ensures r.Err? ==> data == old(data) && file == old(file)
    {
      r := CheckIndex(index);
      if r.Ok? {
        data := data[index := row];
        if !transactionStarted { WriteRaw(); }
      }
    }

    method Find(p: R -> bool) returns (r: Option<Id>)
      ensures r == FindRow(data, p)
    {
      var it := LeastFrom(data.Keys, 0);
      ghost var lo: nat := 0;
      while it.Some? && !p(data[it.value])
        invariant it == LeastFrom(data.Keys, lo)
        invariant FindFrom(data, p, lo) == FindRow(data, p)
        decreases if it.Some? then U64 - it.value else 0
      {
        lo := After(it.value);
        it := LeastFrom(data.Keys, After(it.value));
      }
      r := it;
    }

    /** Erases while iterating: the iterator moves to the successor either way. */
    method RemoveExpired(expired: R -> bool)
      modifies this`data, this`file
      ensures data == Sweep(old(data), expired) && file == Mirror(old(file))
      ensures data == Apply(old(data), TableOp.RemoveExpired(expired))
    {
      var it := LeastFrom(data.Keys, 0);
      ghost var lo: nat := 0;
      while it.Some?
        invariant it == LeastFrom(data.Keys, lo)
        invariant data == map id | id in old(data) && (lo <= id || !expired(old(data)[id])) :: old(data)[id]
        invariant file == old(file) && transactionStarted == old(transactionStarted)
        decreases if it.Some? then U64 - it.value else 0
      {
        var here := it.value;
        it := LeastFrom(data.Keys, After(here));
        if expired(data[here]) {
          EraseKeepsSuccessor(data.Keys, here);
          assert (data - {here}).Keys == data.Keys - {here};
          data := data - {here};
        }
        lo := After(here);
      }
      if !transactionStarted { WriteRaw(); }
    }

    /** The rows in id order. */
    method GetAll() returns (all: seq<R>)
      ensures all == RowsFrom(data, 0)
    {
      all := [];
      var it := LeastFrom(data.Keys, 0);
      ghost var lo: nat := 0;
      while it.Some?
        invariant it == LeastFrom(data.Keys, lo)
        invariant all + RowsFrom(data, lo) == RowsFrom(data, 0)
        decreases if it.Some? then U64 - it.value else 0
      {
        all := all + [data[it.value]];
        lo := After(it.value);
        it := LeastFrom(data.Keys, After(it.value));
      }
    }

    method StartTransaction()
      requires !transactionStarted
      modifies this`transactionStarted
      ensures transactionStarted
    {
      transactionStarted := true;
    }

    /** Commits: the clone is taken here, after the changes, so a failed write
        keeps the changed rows in memory and the old text in the file. */
    method ProcessTransaction(opens: bool) returns (ok: bool)
      requires transactionStarted
      modifies this
      ensures ok == opens && !transactionStarted && data == old(data)
      ensures file == if opens then Some(TableJson(data, show)) else old(file)
    {
      var clone := data;
      if opens {
        WriteRaw();
        ok := true;
      } else {
        data, clone := clone, data;
        clone := map[];
        ok := false;
      }
      transactionStarted := false;
    }

    method Load(read: Json -> Result<(Id, R)>) returns (r: Result<()>)
      requires data == map[]
      modifies this`data
      ensures r.Ok? <==> LoadFile(file, read).Ok?
      ensures r.Ok? ==> LoadFile(file, read) == Ok(data)
    {
      if file.None? { return Ok(()); }
      var value := Reparse(file.value);
      if !value.Arr? { return Err(RuntimeError); }
      var i := 0;
      while i < |value.items|
        invariant 0 <= i <= |value.items|
        invariant LoadRows(value.items[i..], read, data) == LoadRows(value.items, read, map[])
      {
        var row := read(value.items[i]);
        if row.Err? { return Err(row.error); }
        data := Emplace(data, row.value.0, row.value.1);
        i := i + 1;
      }
      r := Ok(());
    }
  }

  function RowsFrom<R>(rows: map<Id, R>, lo: nat): seq<R>
    decreases U64 - lo
  {
    match LeastFrom(rows.Keys, lo)
    case None => []
    case Some(k) => [rows[k]] + RowsFrom(rows, After(k))
  }

  /** The ids from `lo` on, as the iterator meets them. */
  function IdsFrom(keys: set<Id>, lo: nat): seq<Id>
    decreases U64 - lo
  {
    match LeastFrom(keys, lo)
    case None => []
    case Some(k) => [k] + IdsFrom(keys, After(k))
  }

  /** The iteration meets every id once, in ascending order. */
  lemma {:induction false} IdsAscend(keys: set<Id>, lo: nat)
    ensures var ids := IdsFrom(keys, lo);
      && (forall i, j :: 0 <= i < j < |ids| ==> ids[i] < ids[j])
      && (forall k :: k in ids <==> k in keys && lo <= k)
    decreases U64 - lo
  {
    match LeastFrom(keys, lo)
    case None =>
    case Some(k) =>
      var ids, rest := IdsFrom(keys, lo), IdsFrom(keys, After(k));
      IdsAscend(keys, After(k));
      forall i | 0 <= i < |rest| ensures k < rest[i] { assert rest[i] in rest; }
      assert ids == [k] + rest;
  }

  /** The printed rows and the listed rows follow the ids in that order. */
  lemma {:induction false} RowsFollowIds<R>(rows: map<Id, R>, show: R -> map<string, Json>, lo: nat)
    ensures var ids, printed, listed := IdsFrom(rows.Keys, lo), RowsJson(rows, show, lo), RowsFrom(rows, lo);
      && |printed| == |ids| && |listed| == |ids|
      && forall i :: 0 <= i < |ids| ==>
           ids[i] in rows && printed[i] == RowJson(ids[i], rows[ids[i]], show) && listed[i] == rows[ids[i]]
    decreases U64 - lo
  {
    match LeastFrom(rows.Keys, lo)
    case None =>
    case Some(k) => RowsFollowIds(rows, show, After(k));
  }

  /** A printed row is the members of its entry and its id. */
  lemma RowMembers<R>(id: Id, row: R, show: R -> map<string, Json>)
    requires "id" !in show(row)
    ensures var f := RowJson(id, row, show).fields;
      f.Keys == show(row).Keys + {"id"} && f["id"] == UInt64(id) && forall k :: k in show(row) ==> f[k] == show(row)[k]
  {
  }
}
