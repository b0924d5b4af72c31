/** `DefaultModBuilder` of yammy_core/src/builder/defaultmodbuilder.rs: a
    fail-fast chain of `insert` and `remove` calls on an owned `DefaultMod`.
    The first error breaks the chain; a broken chain leaves the mod alone. */
module DefaultModBuilders {
  import opened Wrappers
  import opened Ids
  import opened Records
  import opened TableDataMaps
  import opened ModTraits
  import opened DefaultMods

  datatype DefaultModBuilder = Mod(m: DefaultMod) | Broken(error: Error)
  {
    /** The mod under construction keeps its invariant. */
    ghost predicate Valid()
      reads if Mod? then {m, m.tableDataMap} + m.tableDataMap.tables.Values else {}
    {
      Mod? ==> m.Valid()
    }

    /** `insert`: `DefaultMod::insert` on the held mod; its error breaks the
        chain, and the failed insert has left the mod unchanged. A broken
        chain stays as it is. */
    method Insert(table: string, id: ID, value: Entry) returns (b: DefaultModBuilder)
      requires Valid()
      modifies if Mod? then {m} else {}
      ensures b.Valid()
      ensures Broken? ==> b == this
      ensures Mod? ==> (b.Mod? <==> table in m.tableDataMap.tables && m.tableDataMap.tables[table].Accepts(value))
      ensures Mod? && table !in m.tableDataMap.tables ==> b == Broken(UnknownTable(table))
      ensures Mod? && table in m.tableDataMap.tables && b.Broken? ==>
        m.tableDataMap.tables[table].CheckReports(value, Fail(b.error))
      ensures Mod? && b.Mod? ==> b.m == m && m.State() == old(m.State()).WithEntry(table, id, value)
      ensures Mod? && b.Broken? ==> m.State() == old(m.State())
    {
      match this
      case Broken(_) =>
        return this;
      case Mod(actual) =>
        var r := actual.Insert(table, id, value);
        if r.Fail? {
          return Broken(r.error);
        }
        return Mod(actual);
    }

    /** `remove`: `DefaultMod::remove` on the held mod, which never fails, so
        an unbroken chain stays unbroken. */
    method Remove(table: string, id: ID) returns (b: DefaultModBuilder)
      requires Valid()
      modifies if Mod? then {m} else {}
      ensures b.Valid()
      ensures Broken? ==> b == this
      ensures Mod? ==> b == this && m.State() == old(m.State()).WithTombstone(table, id)
    {
      match this
      case Broken(_) =>
        return this;
      case Mod(actual) =>
        var r := actual.Remove(table, id);
        return Mod(actual);
    }

    /** `get`: the mod when no step failed, the first error otherwise. */
    function Get(): (r: Result<DefaultMod>)
      ensures r.Ok? <==> Mod?
      ensures r.Ok? ==> r.value == m
      ensures r.Err? ==> r.error == error
    {
      if Mod? then Ok(m) else Err(error)
    }
  }

  /** `DefaultModBuilder::new`: an unbroken chain on a new, empty mod. */
  method New(metadata: Metadata, tableDataMap: TableDataMap) returns (b: DefaultModBuilder)
    requires tableDataMap.Valid()
    ensures b.Mod? && fresh(b.m) && b.Valid()
    ensures b.m.State() == Empty && b.m.metadata == metadata && b.m.tableDataMap == tableDataMap
  {
    var m := new DefaultMod(metadata, tableDataMap);
    return Mod(m);
  }
}
