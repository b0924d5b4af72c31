/** The table schema `TableData` (yammy_core/src/tabledata.rs) and the record
    `Entry` (yammy_core/src/entry.rs). The two files use each other
    (`TableData::check` takes an `Entry`, `Entry::new` takes a `TableData`), so
    they share one module.

    An `Entry` does not remember its schema: every operation that validates a
    value takes the `TableData` as a parameter. */
module Records {
  import opened Wrappers
  import V = EntryValues
  import opened EntryDatas

  /** The smallest index at which `name` occurs, if any: the linear scan of
      `string_to_id`. */
  function FirstIndex(names: seq<string>, name: string): (r: Option<nat>)
    ensures r.Some? ==> r.value < |names| && names[r.value] == name
    ensures r.Some? ==> forall j :: 0 <= j < r.value ==> names[j] != name
    ensures r.None? <==> name !in names
  {
    if names == [] then None
    else if names[0] == name then Some(0)
    else match FirstIndex(names[1..], name)
      case None => None
      case Some(k) => Some(k + 1)
  }

  /** An append-only list of named, typed columns. Column `i` is
      `(strings[i], entryDatas[i])`; names need not be unique. */
  class TableData {
    var idCounter: nat
    var strings: seq<string>
    var entryDatas: seq<EntryData>

    /** The three fields grow together (the source's debug assertions). */
    ghost predicate Valid()
      reads this
    {
      idCounter == |strings| == |entryDatas|
    }

    /** `TableData::new`: no columns. */
    constructor ()
      ensures Valid() && idCounter == 0 && strings == [] && entryDatas == []
    {
      idCounter := 0;
      strings := [];
      entryDatas := [];
    }

    /** `len`: the number of columns. */
    function Len(): nat
      reads this
    {
      idCounter
    }

    /** `add_data`: appends one column, which gets the next index. */
    method AddData(name: string, entryData: EntryData)
      requires Valid()
      modifies this
      ensures Valid() && Len() == old(Len()) + 1
      ensures strings == old(strings) + [name] && entryDatas == old(entryDatas) + [entryData]
      ensures IdToString(old(Len())) == Some(name) && GetEntryData(old(Len())) == Some(entryData)
      ensures forall i :: 0 <= i < old(Len()) ==>
        IdToString(i) == old(IdToString(i)) && GetEntryData(i) == old(GetEntryData(i))
    {
      idCounter := idCounter + 1;
      strings := strings + [name];
      entryDatas := entryDatas + [entryData];
    }

    /** The answer of `string_to_id`, for use in specifications. */
    function NameIndex(name: string): Option<nat>
      reads this
    {
      FirstIndex(strings, name)
    }

    /** `string_to_id`: the first column with this name, or None. */
    method StringToId(name: string) returns (r: Option<nat>)
      requires Valid()
      ensures r == NameIndex(name)
      ensures r.Some? ==> r.value < Len() && strings[r.value] == name
      ensures r.Some? ==> forall j :: 0 <= j < r.value ==> strings[j] != name
      ensures r.None? <==> name !in strings
    {
      for id := 0 to |strings|
        invariant forall j :: 0 <= j < id ==> strings[j] != name
      {
        if strings[id] == name {
          return Some(id);
        }
      }
      return None;
    }

    /** `id_to_string`: the name of column `id`, None past the end. */
    function IdToString(id: nat): (r: Option<string>)
      reads this
      requires Valid()
      ensures r.Some? <==> id < Len()
      ensures r.Some? ==> r.value == strings[id]
    {
      if id < idCounter then Some(strings[id]) else None
    }

    /** `get_entrydata`: the descriptor of column `id`, None past the end. */
    function GetEntryData(id: nat): (r: Option<EntryData>)
      reads this
      requires Valid()
      ensures r.Some? <==> id < Len()
      ensures r.Some? ==> r.value == entryDatas[id]
    {
      if id < idCounter then Some(entryDatas[id]) else None
    }

    /** What `check` accepts: one value per column, each of its column's type. */
    ghost predicate Accepts(e: Entry)
      reads this
      requires Valid()
    {
      e.Len() == Len() && forall i :: 0 <= i < Len() ==> EntryDatas.Check(entryDatas[i], e.values[i]).Pass?
    }

    /** What `check` may answer for `e`: Pass exactly when `e` is accepted; a
        length mismatch is reported first; otherwise the error of the first
        column whose value has the wrong type. */
    ghost predicate CheckReports(e: Entry, r: Outcome)
      reads this
      requires Valid()
    {
      && (r.Pass? <==> Accepts(e))
      && (e.Len() != Len() ==> r == Fail(LengthMismatch))
      && (e.Len() == Len() && r.Fail? ==>
            exists i :: 0 <= i < Len() && r == EntryDatas.Check(entryDatas[i], e.values[i])
              && forall j :: 0 <= j < i ==> EntryDatas.Check(entryDatas[j], e.values[j]).Pass?)
    }

    /** `TableData::check`: a length mismatch is reported first; otherwise the
        error of the first column whose value has the wrong type. */
    method Check(e: Entry) returns (r: Outcome)
      requires Valid()
      ensures CheckReports(e, r)
    {
      if e.Len() != Len() {
        return Fail(LengthMismatch);
      }
      for key := 0 to e.Len()
        invariant forall j :: 0 <= j < key ==> EntryDatas.Check(entryDatas[j], e.values[j]).Pass?
      {
        var value := e.GetKey(key).value;
        var entryData := GetEntryData(key).value;
        var checked := EntryDatas.Check(entryData, value);
        if checked.Fail? {
          return checked;
        }
      }
      return Pass;
    }

    /** The entry `Entry::new` builds: every column at its default. It passes
        `check`. */
    function DefaultEntry(): (e: Entry)
      reads this
      requires Valid()
      ensures e.Len() == Len()
      ensures forall i :: 0 <= i < Len() ==> e.values[i] == GetDefault(entryDatas[i])
      ensures Accepts(e)
    {
      var ds := entryDatas;
      Entry(seq(|ds|, i requires 0 <= i < |ds| => GetDefault(ds[i])))
    }
  }

  /** `Entry::new`: one default value per column of `tableData`. */
  method NewEntry(tableData: TableData) returns (e: Entry)
    requires tableData.Valid()
    ensures e == tableData.DefaultEntry()
    ensures tableData.Accepts(e)
  {
    var values: seq<V.EntryValue> := [];
    for valueId := 0 to tableData.Len()
      invariant |values| == valueId
      invariant forall j :: 0 <= j < valueId ==> values[j] == GetDefault(tableData.entryDatas[j])
    {
      var entryData := tableData.GetEntryData(valueId).value;
      values := values + [GetDefault(entryData)];
    }
    e := Entry(values);
  }

  /** A record: one value per column of the schema it was made for. */
  datatype Entry = Entry(values: seq<V.EntryValue>)
  {
    /** `len`: the number of values. */
    function Len(): nat {
      |values|
    }

    /** `get_key`: the value at index `id`, an error past the end. */
    function GetKey(id: nat): (r: Result<V.EntryValue>)
      ensures r.Ok? <==> id < Len()
      ensures r.Ok? ==> r.value == values[id]
      ensures r.Err? ==> r.error == KeyOutOfBounds(id)
    {
      if id < |values| then Ok(values[id]) else Err(KeyOutOfBounds(id))
    }

    /** `get_key_by_string`: resolves the name through `tableData`, then
        `get_key`; an unknown name is an error of its own. */
    function GetKeyByString(tableData: TableData, name: string): (r: Result<V.EntryValue>)
      reads tableData
      ensures tableData.NameIndex(name).None? ==> r == Err(UnknownKey(name))
      ensures tableData.NameIndex(name).Some? ==> r == GetKey(tableData.NameIndex(name).value)
    {
      match tableData.NameIndex(name)
      case None => Err(UnknownKey(name))
      case Some(id) => GetKey(id)
    }

    /** `set_key`: the entry with value `id` replaced, when `id` is in bounds
        and the value has the column's type; otherwise an error, and the
        caller's entry is unchanged. The source unwraps the column descriptor
        of an in-bounds index, so such an index must be a column of
        `tableData`. */
    function SetKey(tableData: TableData, id: nat, value: V.EntryValue): (r: Result<Entry>)
      reads tableData
      requires tableData.Valid()
      requires id < Len() ==> id < tableData.Len()
      ensures id >= Len() ==> r == Err(KeyOutOfBounds(id))
      ensures id < Len() ==> (r.Ok? <==> TypeOf(value) == tableData.entryDatas[id].entryType)
      ensures id < Len() && r.Err? ==> r.error == MismatchError(tableData.entryDatas[id].entryType)
      ensures r.Ok? ==> r.value.Len() == Len() && r.value.GetKey(id) == Ok(value)
      ensures r.Ok? ==> forall j :: 0 <= j < Len() && j != id ==> r.value.values[j] == values[j]
    {
      if id < |values| then
        match EntryDatas.Check(tableData.GetEntryData(id).value, value)
        case Fail(e) => Err(e)
        case Pass => Ok(Entry(values[id := value]))
      else
        Err(KeyOutOfBounds(id))
    }

    /** `set_key_by_string`: an unknown name is an error; otherwise `set_key`
        at the first column with that name. */
    function SetKeyByString(tableData: TableData, name: string, value: V.EntryValue): (r: Result<Entry>)
      reads tableData
      requires tableData.Valid()
      ensures tableData.NameIndex(name).None? ==> r == Err(UnknownKey(name))
      ensures tableData.NameIndex(name).Some? ==> r == SetKey(tableData, tableData.NameIndex(name).value, value)
    {
      match tableData.NameIndex(name)
      case None => Err(UnknownKey(name))
      case Some(id) => SetKey(tableData, id, value)
    }
  }

  /** A successful `set_key` keeps an entry that `check` accepted acceptable:
      the record invariant is enforced on every mutation. */
  lemma SetKeyKeepsAccepted(tableData: TableData, e: Entry, id: nat, value: V.EntryValue)
    requires tableData.Valid() && tableData.Accepts(e)
    ensures e.SetKey(tableData, id, value).Ok? ==> tableData.Accepts(e.SetKey(tableData, id, value).value)
  {
  }

  /** Reading back what `set_key` wrote yields the value; reading any other
      index yields what was there before. */
  lemma SetKeyThenGetKey(tableData: TableData, e: Entry, id: nat, value: V.EntryValue, other: nat)
    requires tableData.Valid() && e.Len() == tableData.Len()
    requires e.SetKey(tableData, id, value).Ok?
    ensures e.SetKey(tableData, id, value).value.GetKey(id) == Ok(value)
    ensures other != id ==> e.SetKey(tableData, id, value).value.GetKey(other) == e.GetKey(other)
  {
  }

  /** A schema with no columns: every lookup by name or by index fails. */
  lemma EmptyTableLookups(tableData: TableData, name: string, id: nat)
    requires tableData.Valid() && tableData.Len() == 0
    ensures tableData.NameIndex(name).None?
    ensures tableData.IdToString(id).None? && tableData.GetEntryData(id).None?
  {
  }
}
