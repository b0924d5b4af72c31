/** `TableDataBuilder` of yammy_core/src/builder/tabledatabuilder.rs: owns
    one `TableData` and appends columns to it, threaded by value. */
module TableDataBuilders {
  import opened Wrappers
  import opened EntryDatas
  import opened Records

  datatype TableDataBuilder = TableDataBuilder(tableData: TableData)
  {
    /** `add_data`: `TableData::add_data` on the held table; the builder
        itself is handed back. */
    method AddData(name: string, entryData: EntryData) returns (b: TableDataBuilder)
      requires tableData.Valid()
      modifies tableData
      ensures b == this && tableData.Valid()
      ensures tableData.Len() == old(tableData.Len()) + 1
      ensures tableData.strings == old(tableData.strings) + [name]
      ensures tableData.entryDatas == old(tableData.entryDatas) + [entryData]
    {
      tableData.AddData(name, entryData);
      return this;
    }

    /** `get`: the accumulated table. */
    function Get(): TableData {
      tableData
    }
  }

  /** `TableDataBuilder::new`: a builder on a new, empty table. */
  method New() returns (b: TableDataBuilder)
    ensures fresh(b.tableData) && b.tableData.Valid()
    ensures b.tableData.Len() == 0 && b.tableData.strings == [] && b.tableData.entryDatas == []
  {
    var tableData := new TableData();
    return TableDataBuilder(tableData);
  }

  /** The tests' "chara" table, built through the builder: "name" is a
      String column with index 0, "pv" an Unsigned64 column with index 1. */
  method CharaTable() returns (tableData: TableData)
    ensures fresh(tableData) && tableData.Valid() && tableData.Len() == 2
    ensures tableData.NameIndex("name") == Some(0) && tableData.entryDatas[0] == EntryDatas.New(EntryType.String)
    ensures tableData.NameIndex("pv") == Some(1) && tableData.entryDatas[1] == EntryDatas.New(EntryType.Unsigned64)
  {
    var b := New();
    b := b.AddData("name", EntryDatas.New(EntryType.String));
    b := b.AddData("pv", EntryDatas.New(EntryType.Unsigned64));
    tableData := b.Get();
    assert tableData.strings == ["name", "pv"];
  }
}
