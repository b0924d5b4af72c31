/** `TableDataMapBuilder` of yammy_core/src/builder/tabledatamapbuilder.rs:
    owns one `TableDataMap` and inserts tables into it, threaded by value. */
module TableDataMapBuilders {
  import opened Records
  import opened TableDataMaps

  datatype TableDataMapBuilder = TableDataMapBuilder(tableDataMap: TableDataMap)
  {
    /** `insert`: `TableDataMap::insert` on the held map, so a later insert
        of the same name overwrites and every other name keeps its table. */
    method Insert(name: string, tableData: TableData) returns (b: TableDataMapBuilder)
      requires tableDataMap.Valid() && tableData.Valid()
      modifies tableDataMap
      ensures b == this && tableDataMap.Valid()
      ensures tableDataMap.tables == old(tableDataMap.tables)[name := tableData]
    {
      tableDataMap.Insert(name, tableData);
      return this;
    }

    /** `get`: the accumulated map. */
    function Get(): TableDataMap {
      tableDataMap
    }
  }

  /** `TableDataMapBuilder::new`: a builder on a new, empty map. */
  method New() returns (b: TableDataMapBuilder)
    ensures fresh(b.tableDataMap) && b.tableDataMap.Valid() && b.tableDataMap.tables == map[]
  {
    var tableDataMap := new TableDataMap();
    return TableDataMapBuilder(tableDataMap);
  }
}
