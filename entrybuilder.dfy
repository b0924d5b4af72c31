/** `EntryBuilder` of yammy_core/src/builder/entrybuilder.rs: a fail-fast
    chain of `set_key` calls on a fresh `Entry`, threaded by value. The first
    error is kept and every later step is skipped. */
module EntryBuilders {
  import Wrappers
  import V = EntryValues
  import opened Records

  /** One call of the chain. */
  datatype Step =
    | SetKeyStep(id: nat, value: V.EntryValue)
    | SetKeyByStringStep(name: string, value: V.EntryValue)

  datatype EntryBuilder = Ok(entry: Entry, tableData: TableData) | Err(error: Wrappers.Error)
  {
    /** The entry under construction always passes its table's `check`. */
    ghost predicate Valid()
      reads if Ok? then {tableData} else {}
    {
      Ok? ==> tableData.Valid() && tableData.Accepts(entry)
    }

    /** `set_key`: `Entry::set_key` on the held entry; its error ends the
        chain. An ended chain stays as it is. */
    function SetKey(id: nat, value: V.EntryValue): (r: EntryBuilder)
      reads if Ok? then {tableData} else {}
      requires Valid()
      ensures r.Valid()
      ensures Err? ==> r == this
      ensures Ok? ==> (r.Ok? <==> entry.SetKey(tableData, id, value).Ok?)
      ensures Ok? && r.Ok? ==> r.tableData == tableData && r.entry == entry.SetKey(tableData, id, value).value
      ensures Ok? && r.Err? ==> r.error == entry.SetKey(tableData, id, value).error
    {
      if Err? then this
      else
        SetKeyKeepsAccepted(tableData, entry, id, value);
        var result := entry.SetKey(tableData, id, value);
        if result.Ok? then Ok(result.value, tableData) else Err(result.error)
    }

    /** `set_key_by_string`: the same, through `Entry::set_key_by_string`. */
    function SetKeyByString(name: string, value: V.EntryValue): (r: EntryBuilder)
      reads if Ok? then {tableData} else {}
      requires Valid()
      ensures r.Valid()
      ensures Err? ==> r == this
      ensures Ok? ==> (r.Ok? <==> entry.SetKeyByString(tableData, name, value).Ok?)
      ensures Ok? && r.Ok? ==> r.tableData == tableData && r.entry == entry.SetKeyByString(tableData, name, value).value
      ensures Ok? && r.Err? ==> r.error == entry.SetKeyByString(tableData, name, value).error
    {
      if Err? then this
      else
        var result := entry.SetKeyByString(tableData, name, value);
        if result.Ok? then
          SetKeyKeepsAccepted(tableData, entry, tableData.NameIndex(name).value, value);
          Ok(result.value, tableData)
        else Err(result.error)
    }

    /** One step of the chain. */
    function Apply(step: Step): (r: EntryBuilder)
      reads if Ok? then {tableData} else {}
      requires Valid()
      ensures r.Valid()
      ensures r.Ok? ==> Ok? && r.tableData == tableData
    {
      match step
      case SetKeyStep(id, value) => SetKey(id, value)
      case SetKeyByStringStep(name, value) => SetKeyByString(name, value)
    }

    /** `get`: the entry when no step failed, the first error otherwise. */
    function Get(): (r: Wrappers.Result<Entry>)
      ensures r.Ok? <==> Ok?
      ensures r.Ok? ==> r.value == entry
      ensures r.Err? ==> r.error == error
    {
      if Ok? then Wrappers.Ok(entry) else Wrappers.Err(error)
    }
  }

  /** `EntryBuilder::new`: an unfailed chain on `Entry::new(tableData)`. */
  function New(tableData: TableData): (b: EntryBuilder)
    reads tableData
    requires tableData.Valid()
    ensures b.Ok? && b.tableData == tableData && b.Valid()
    ensures b.entry.Len() == tableData.Len()
    ensures forall i :: 0 <= i < tableData.Len() ==>
      b.entry.values[i] == EntryDatas.GetDefault(tableData.entryDatas[i])
  {
    Ok(tableData.DefaultEntry(), tableData)
  }

  /** The builder after a whole chain of steps. */
  function Run(b: EntryBuilder, steps: seq<Step>): (r: EntryBuilder)
    reads if b.Ok? then {b.tableData} else {}
    requires b.Valid()
    ensures r.Valid()
    ensures r.Ok? ==> b.Ok? && r.tableData == b.tableData
    decreases |steps|
  {
    if steps == [] then b else Run(b.Apply(steps[0]), steps[1..])
  }

  /** An ended chain skips every later step. */
  lemma {:induction false} ErrAbsorbs(e: Wrappers.Error, steps: seq<Step>)
    ensures Run(Err(e), steps) == Err(e)
    decreases |steps|
  {
    if steps != [] {
      ErrAbsorbs(e, steps[1..]);
    }
  }

  /** Running two chains one after the other is running their concatenation. */
  lemma {:induction false} RunConcat(b: EntryBuilder, first: seq<Step>, second: seq<Step>)
    requires b.Valid()
    ensures Run(b, first + second) == Run(Run(b, first), second)
    decreases |first|
  {
    if first != [] {
      assert (first + second)[0] == first[0];
      assert (first + second)[1..] == first[1..] + second;
      RunConcat(b.Apply(first[0]), first[1..], second);
    } else {
      assert first + second == second;
    }
  }

  /** First error wins: once a prefix of the chain fails, the whole chain
      ends with that prefix's error. */
  lemma FirstErrorWins(b: EntryBuilder, steps: seq<Step>, k: nat)
    requires b.Valid() && k <= |steps|
    requires Run(b, steps[..k]).Err?
    ensures Run(b, steps).Get() == Wrappers.Err(Run(b, steps[..k]).error)
  {
    assert steps == steps[..k] + steps[k..];
    RunConcat(b, steps[..k], steps[k..]);
    ErrAbsorbs(Run(b, steps[..k]).error, steps[k..]);
  }

  /** Whatever the chain, a built entry passes its table's `check`. */
  lemma BuiltEntryAccepted(tableData: TableData, steps: seq<Step>)
    requires tableData.Valid()
    ensures Run(New(tableData), steps).Get().Ok? ==> tableData.Accepts(Run(New(tableData), steps).Get().value)
  {
  }
}
