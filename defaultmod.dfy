/** `DefaultMod` of yammy_core/src/defaultmod.rs, the reference `ModWrite`.

    Per table it keeps the entries it added or modified and a set of removed
    ids (tombstones). Each (table, id) pair is Absent, Modified (an entry is
    stored) or Removed (a tombstone is stored), never both: `insert` clears
    the tombstone before storing, `remove` drops the entry before adding the
    tombstone. `ModState` is that state as a value, with one transition per
    write operation; the class's methods are proved against it. */
module DefaultMods {
  import opened Wrappers
  import opened Ids
  import opened Records
  import opened TableDataMaps
  import opened ModTraits

  /** No element occurs twice. */
  predicate Distinct<T(==)>(s: seq<T>) {
    forall i, j :: 0 <= i < j < |s| ==> s[i] != s[j]
  }

  datatype ModState = ModState(
    modified: map<string, map<ID, Entry>>,
    removed: map<string, set<ID>>)
  {
    /** The entry this mod stores for (table, id), if any. */
    function EntryOf(table: string, id: ID): Option<Entry> {
      if table in modified && id in modified[table] then Some(modified[table][id]) else None
    }

    /** Whether this mod holds a tombstone for (table, id). */
    predicate IsRemoved(table: string, id: ID) {
      table in removed && id in removed[table]
    }

    function RemovedIds(table: string): set<ID> {
      if table in removed then removed[table] else {}
    }

    function ModifiedIds(table: string): set<ID> {
      if table in modified then modified[table].Keys else {}
    }

    /** Tables that have received an insert; never pruned. */
    function ModifiedTables(): set<string> {
      modified.Keys
    }

    /** No (table, id) is both Modified and Removed. */
    ghost predicate NoOverlap() {
      forall table, id :: EntryOf(table, id).Some? ==> !IsRemoved(table, id)
    }

    /** The `restore` transition: drops the tombstone of (table, id) and
        touches nothing else. */
    function WithoutTombstone(table: string, id: ID): (s: ModState)
      ensures !s.IsRemoved(table, id)
      ensures s.modified == modified
      ensures forall t, i :: (t, i) != (table, id) ==> s.IsRemoved(t, i) == IsRemoved(t, i)
    {
      if table in removed then ModState(modified, removed[table := removed[table] - {id}]) else this
    }

    /** The transition of a successful `insert`: (table, id) becomes
        Modified with entry `e`; every other pair keeps its state. */
    function WithEntry(table: string, id: ID, e: Entry): (s: ModState)
      ensures s.EntryOf(table, id) == Some(e) && !s.IsRemoved(table, id)
      ensures id in s.ModifiedIds(table)
      ensures s.ModifiedTables() == ModifiedTables() + {table}
      ensures forall t, i :: (t, i) != (table, id) ==>
        s.EntryOf(t, i) == EntryOf(t, i) && s.IsRemoved(t, i) == IsRemoved(t, i)
    {
      var restored := WithoutTombstone(table, id);
      var inner := if table in restored.modified then restored.modified[table] else map[];
      ModState(restored.modified[table := inner[id := e]], restored.removed)
    }

    /** The `remove` transition: (table, id) becomes Removed; nothing changes
        when it already was; every other pair keeps its state, and the table
        stays among the modified tables. */
    function WithTombstone(table: string, id: ID): (s: ModState)
      ensures s.IsRemoved(table, id) && id in s.RemovedIds(table)
      ensures NoOverlap() ==> s.EntryOf(table, id) == None && id !in s.ModifiedIds(table)
      ensures IsRemoved(table, id) ==> s == this
      ensures s.ModifiedTables() == ModifiedTables()
      ensures forall t, i :: (t, i) != (table, id) ==>
        s.EntryOf(t, i) == EntryOf(t, i) && s.IsRemoved(t, i) == IsRemoved(t, i)
    {
      if IsRemoved(table, id) then this
      else
        var modified' := if table in modified then modified[table := modified[table] - {id}] else modified;
        ModState(modified', removed[table := RemovedIds(table) + {id}])
    }
  }

  /** The state of a new mod. */
  const Empty := ModState(map[], map[])

  /** A new mod has no modified table and no removed id. */
  lemma EmptyHasNothing(table: string, id: ID)
    ensures Empty.ModifiedTables() == {} && Empty.ModifiedIds(table) == {} && Empty.RemovedIds(table) == {}
    ensures Empty.EntryOf(table, id) == None && !Empty.IsRemoved(table, id)
  {
  }

  /** Every write keeps the Absent / Modified / Removed states exclusive. */
  lemma TransitionsKeepNoOverlap(s: ModState, table: string, id: ID, e: Entry)
    requires s.NoOverlap()
    ensures s.WithEntry(table, id, e).NoOverlap()
    ensures s.WithTombstone(table, id).NoOverlap()
    ensures s.WithoutTombstone(table, id).NoOverlap()
  {
    var s1, s2, s3 := s.WithEntry(table, id, e), s.WithTombstone(table, id), s.WithoutTombstone(table, id);
    forall t, i | s1.EntryOf(t, i).Some? ensures !s1.IsRemoved(t, i) {
    }
    forall t, i | s2.EntryOf(t, i).Some? ensures !s2.IsRemoved(t, i) {
    }
    forall t, i | s3.EntryOf(t, i).Some? ensures !s3.IsRemoved(t, i) {
      assert s3.EntryOf(t, i) == s.EntryOf(t, i);
    }
  }

  /** `remove` twice is `remove` once. */
  lemma RemoveIdempotent(s: ModState, table: string, id: ID)
    ensures s.WithTombstone(table, id).WithTombstone(table, id) == s.WithTombstone(table, id)
  {
  }

  /** Removing and then inserting the same id makes the new entry visible
      and clears the tombstone. */
  lemma InsertAfterRemove(s: ModState, table: string, id: ID, e: Entry)
    ensures s.WithTombstone(table, id).WithEntry(table, id, e).EntryOf(table, id) == Some(e)
    ensures !s.WithTombstone(table, id).WithEntry(table, id, e).IsRemoved(table, id)
    ensures id !in s.WithTombstone(table, id).WithEntry(table, id, e).RemovedIds(table)
  {
  }

  /** `restore` of a removed id returns it to Absent: no entry comes back. */
  lemma RestoreAfterRemoveIsAbsent(s: ModState, table: string, id: ID)
    requires s.NoOverlap()
    ensures s.WithTombstone(table, id).WithoutTombstone(table, id).EntryOf(table, id) == None
    ensures !s.WithTombstone(table, id).WithoutTombstone(table, id).IsRemoved(table, id)
  {
  }

  /** The tests' scenario: two inserts into "chara" and one removal list both
      inserted ids and exactly the removed one. */
  lemma TwoInsertsAndARemove(hero: Entry, twilight: Entry)
    ensures
      var s := Empty.WithEntry("chara", ID.String("hero"), hero)
                    .WithEntry("chara", Integer(100), twilight)
                    .WithTombstone("chara", ID.String("Ezylryb"));
      && s.ModifiedIds("chara") == {ID.String("hero"), Integer(100)}
      && s.RemovedIds("chara") == {ID.String("Ezylryb")}
      && s.ModifiedTables() == {"chara"}
  {
    var s1 := Empty.WithEntry("chara", ID.String("hero"), hero);
    var s2 := s1.WithEntry("chara", Integer(100), twilight);
    assert s2.modified["chara"].Keys == {ID.String("hero"), Integer(100)};
    assert !s2.IsRemoved("chara", ID.String("Ezylryb"));
  }

  /** The read side of a mod in state `s` (`impl ModRead for DefaultMod`):
      none of its queries fails, each answers from the state, and together
      they keep the `ModRead` contract. */
  function ReaderOf(s: ModState, metadata: Metadata, tableDataMap: TableDataMap): (r: ModReader)
    ensures Honest(r)
    ensures r.metadata == metadata && r.tableDataMap == tableDataMap
    ensures r.modifiedTableList == s.ModifiedTables()
    ensures forall table :: r.modifiedEntryList(table) == Ok(s.ModifiedIds(table))
    ensures forall table :: r.listRemoved(table) == Ok(s.RemovedIds(table))
    ensures forall table, id :: r.getEntry(table, id) == Ok(s.EntryOf(table, id))
    ensures forall table, id :: r.isRemoved(table, id) == Ok(s.IsRemoved(table, id))
  {
    ModReader(
      metadata,
      tableDataMap,
      s.ModifiedTables(),
      table => Ok(s.ModifiedIds(table)),
      (table, id) => Ok(s.EntryOf(table, id)),
      (table, id) => Ok(s.IsRemoved(table, id)),
      table => Ok(s.RemovedIds(table)))
  }

  class DefaultMod {
    const metadata: Metadata
    const tableDataMap: TableDataMap
    var modifiedData: map<string, map<ID, Entry>>
    var removedValue: map<string, set<ID>>

    function State(): ModState
      reads this
    {
      ModState(modifiedData, removedValue)
    }

    /** The mod's invariant: states are exclusive, and every stored entry is
        in a known table and passes that table's `check`. */
    ghost predicate Valid()
      reads this, tableDataMap, tableDataMap.tables.Values
    {
      && tableDataMap.Valid()
      && State().NoOverlap()
      && forall table, id :: State().EntryOf(table, id).Some? ==>
           table in tableDataMap.tables && tableDataMap.tables[table].Accepts(State().EntryOf(table, id).value)
    }

    /** `DefaultMod::new`: nothing modified, nothing removed. */
    constructor (metadata: Metadata, tableDataMap: TableDataMap)
      requires tableDataMap.Valid()
      ensures Valid() && State() == Empty
      ensures this.metadata == metadata && this.tableDataMap == tableDataMap
    {
      this.metadata := metadata;
      this.tableDataMap := tableDataMap;
      modifiedData := map[];
      removedValue := map[];
    }

    /** `is_writable`: a DefaultMod always accepts writes. */
    function IsWritable(): (r: bool)
      ensures r
    {
      true
    }

    /** `get_modified_table_list`: each table that has received an insert,
        once, in an unspecified order. */
    method GetModifiedTableList() returns (r: seq<string>)
      ensures forall table :: table in r <==> table in State().ModifiedTables()
      ensures Distinct(r)
    {
      r := [];
      var rest := modifiedData.Keys;
      while rest != {}
        invariant rest <= modifiedData.Keys
        invariant forall table :: table in r <==> table in modifiedData && table !in rest
        invariant Distinct(r)
        decreases |rest|
      {
        var table :| table in rest;
        r := r + [table];
        rest := rest - {table};
      }
    }

    /** `get_modified_entry_list`: each id this mod stores an entry for in
        `table`, once; empty for a table it never inserted into. */
    method GetModifiedEntryList(table: string) returns (r: Result<seq<ID>>)
      ensures r.Ok?
      ensures forall id :: id in r.value <==> id in State().ModifiedIds(table)
      ensures Distinct(r.value)
    {
      if table !in modifiedData {
        return Ok([]);
      }
      var entries: seq<ID> := [];
      var rest := modifiedData[table].Keys;
      while rest != {}
        invariant rest <= modifiedData[table].Keys
        invariant forall id :: id in entries <==> id in modifiedData[table] && id !in rest
        invariant Distinct(entries)
        decreases |rest|
      {
        var id :| id in rest;
        entries := entries + [id];
        rest := rest - {id};
      }
      return Ok(entries);
    }

    /** `get_entry`: the entry this mod itself stores, never lower-layer data. */
    function GetEntry(table: string, id: ID): (r: Result<Option<Entry>>)
      reads this
      ensures r == Ok(State().EntryOf(table, id))
    {
      if table !in modifiedData then Ok(None)
      else if id in modifiedData[table] then Ok(Some(modifiedData[table][id]))
      else Ok(None)
    }

    /** `is_removed`: whether this mod holds a tombstone for (table, id). */
    function IsRemoved(table: string, id: ID): (r: Result<bool>)
      reads this
      ensures r == Ok(State().IsRemoved(table, id))
    {
      if table in removedValue then Ok(id in removedValue[table]) else Ok(false)
    }

    /** `list_removed`: the tombstones of `table`; empty when there is none. */
    function ListRemoved(table: string): (r: Result<set<ID>>)
      reads this
      ensures r == Ok(State().RemovedIds(table))
    {
      if table in removedValue then Ok(removedValue[table]) else Ok({})
    }

    /** This mod seen through `ModRead`: every `ModWrite` is a `ModRead`. */
    function AsReader(): (r: ModReader)
      reads this
      ensures Honest(r)
      ensures r.metadata == metadata && r.tableDataMap == tableDataMap
      ensures forall table, id :: r.getEntry(table, id) == GetEntry(table, id)
      ensures forall table, id :: r.isRemoved(table, id) == IsRemoved(table, id)
      ensures forall table :: r.listRemoved(table) == ListRemoved(table)
      ensures r.modifiedTableList == State().ModifiedTables()
      ensures forall table :: r.modifiedEntryList(table) == Ok(State().ModifiedIds(table))
    {
      ReaderOf(State(), metadata, tableDataMap)
    }

    /** `restore`: drops the tombstone of (table, id), if any; stored entries
        are untouched. Never fails. */
    method Restore(table: string, id: ID) returns (r: Outcome)
      requires Valid()
      modifies this
      ensures Valid() && r == Pass
      ensures State() == old(State()).WithoutTombstone(table, id)
    {
      if table in removedValue {
        removedValue := removedValue[table := removedValue[table] - {id}];
      }
      TransitionsKeepNoOverlap(old(State()), table, id, Entry([]));
      return Pass;
    }

    /** `insert`: fails on a table the schema map does not know, or on an
        entry that table's `check` rejects, leaving the mod unchanged;
        otherwise clears the tombstone and stores the entry. */
    method Insert(table: string, id: ID, value: Entry) returns (r: Outcome)
      requires Valid()
      modifies this
      ensures Valid()
      ensures table !in tableDataMap.tables ==> r == Fail(UnknownTable(table))
      ensures table in tableDataMap.tables ==> tableDataMap.tables[table].CheckReports(value, r)
      ensures r.Fail? ==> State() == old(State())
      ensures r.Pass? ==> State() == old(State()).WithEntry(table, id, value)
    {
      var tableData: TableData;
      match tableDataMap.Get(table)
      case None =>
        return Fail(UnknownTable(table));
      case Some(found) =>
        tableData := found;
      var checked := tableData.Check(value);
      if checked.Fail? {
        return checked;
      }
      // `restore` never fails, so the source's error propagation here is inert.
      var _ := Restore(table, id);
      if table !in modifiedData {
        modifiedData := modifiedData[table := map[]];
      }
      modifiedData := modifiedData[table := modifiedData[table][id := value]];
      assert State() == old(State()).WithEntry(table, id, value);
      TransitionsKeepNoOverlap(old(State()), table, id, value);
      forall t, i | State().EntryOf(t, i).Some?
        ensures t in tableDataMap.tables && tableDataMap.tables[t].Accepts(State().EntryOf(t, i).value)
      {
        if (t, i) != (table, id) {
          assert State().EntryOf(t, i) == old(State()).EntryOf(t, i);
        }
      }
      return Pass;
    }

    /** `remove`: a no-op when the id is already removed (so the table need
        not be known); otherwise drops the stored entry, if any, and adds the
        tombstone. Never fails. */
    method Remove(table: string, id: ID) returns (r: Outcome)
      requires Valid()
      modifies this
      ensures Valid() && r == Pass
      ensures State() == old(State()).WithTombstone(table, id)
    {
      if IsRemoved(table, id).value {
        return Pass;
      }
      if table in modifiedData {
        if id in modifiedData[table] {
          modifiedData := modifiedData[table := modifiedData[table] - {id}];
        } else {
          assert modifiedData[table] - {id} == modifiedData[table];
          assert modifiedData == modifiedData[table := modifiedData[table] - {id}];
        }
      }
      if table in removedValue {
        removedValue := removedValue[table := removedValue[table] + {id}];
      } else {
        assert old(State()).RemovedIds(table) + {id} == {id};
        removedValue := removedValue[table := {id}];
      }
      assert State().modified == old(State()).WithTombstone(table, id).modified;
      assert State().removed == old(State()).WithTombstone(table, id).removed;
      assert State() == old(State()).WithTombstone(table, id);
      TransitionsKeepNoOverlap(old(State()), table, id, Entry([]));
      forall t, i | State().EntryOf(t, i).Some?
        ensures t in tableDataMap.tables && tableDataMap.tables[t].Accepts(State().EntryOf(t, i).value)
      {
        assert State().EntryOf(t, i) == old(State()).EntryOf(t, i);
      }
      return Pass;
    }
  }
}
