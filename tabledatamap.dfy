/** `TableDataMap` of yammy_core/src/tabledatamap.rs: table name to schema.
    It is filled once and then shared read-only by every mod. */
module TableDataMaps {
  import opened Wrappers
  import opened Records

  class TableDataMap {
    var tables: map<string, TableData>

    /** Every schema in the map keeps its own invariant. */
    ghost predicate Valid()
      reads this, tables.Values
    {
      forall name :: name in tables ==> tables[name].Valid()
    }

    /** `TableDataMap::new`: no table. */
    constructor ()
      ensures Valid() && tables == map[]
      ensures forall name :: !ContainsKey(name)
    {
      tables := map[];
    }

    /** `insert`: binds `name` to `tableData`, replacing any earlier binding;
        every other name keeps its schema. */
    method Insert(name: string, tableData: TableData)
      requires Valid() && tableData.Valid()
      modifies this
      ensures Valid()
      ensures tables == old(tables)[name := tableData]
      ensures Get(name) == Some(tableData)
      ensures forall other :: other != name ==> Get(other) == old(Get(other))
    {
      tables := tables[name := tableData];
    }

    /** `contains_key`: exactly when `get` finds a schema. */
    function ContainsKey(name: string): (r: bool)
      reads this
      ensures r <==> Get(name).Some?
    {
      name in tables
    }

    /** `get`: the schema bound to `name`, if any. */
    function Get(name: string): (r: Option<TableData>)
      reads this
      ensures r.Some? <==> name in tables
      ensures r.Some? ==> r.value == tables[name]
    {
      if name in tables then Some(tables[name]) else None
    }

    /** `map[name]`: the source panics on an absent name; present, it is
        what `get` returns. */
    function Index(name: string): (r: TableData)
      reads this
      requires name in tables
      ensures Get(name) == Some(r)
    {
      tables[name]
    }
  }
}
