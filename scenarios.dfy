/** The scenarios of the in-file tests of
    yammy_core/src/builder/defaultmodbuilder.rs and yammy_core/src/modpack.rs,
    run through the builders and proved for every execution. */
module Scenarios {
  import opened Wrappers
  import opened Ids
  import V = EntryValues
  import opened EntryDatas
  import opened Records
  import opened TableDataMaps
  import opened ModTraits
  import opened DefaultMods
  import opened ModPacks
  import EntryBuilders
  import TableDataBuilders
  import TableDataMapBuilders
  import DefaultModBuilders

  /** The tests' schemas: "chara" (name, pv) and "attack" (name, dmg). */
  method GameTables() returns (tableDataMap: TableDataMap, chara: TableData, attack: TableData)
    ensures fresh(tableDataMap) && fresh(chara) && fresh(attack)
    ensures tableDataMap.Valid() && tableDataMap.tables == map["chara" := chara, "attack" := attack]
    ensures chara.Valid() && attack.Valid()
    ensures chara.Len() == 2 && chara.NameIndex("name") == Some(0) && chara.NameIndex("pv") == Some(1)
    ensures chara.entryDatas == [EntryDatas.New(EntryType.String), EntryDatas.New(EntryType.Unsigned64)]
    ensures attack.Len() == 2 && attack.NameIndex("name") == Some(0) && attack.NameIndex("dmg") == Some(1)
    ensures attack.entryDatas == [EntryDatas.New(EntryType.String), EntryDatas.New(EntryType.Unsigned64)]
  {
    chara := TableDataBuilders.CharaTable();
    var attackBuilder := TableDataBuilders.New();
    attackBuilder := attackBuilder.AddData("name", EntryDatas.New(EntryType.String));
    attackBuilder := attackBuilder.AddData("dmg", EntryDatas.New(EntryType.Unsigned64));
    attack := attackBuilder.Get();
    assert attack.strings == ["name", "dmg"];
    var mapBuilder := TableDataMapBuilders.New();
    mapBuilder := mapBuilder.Insert("chara", chara);
    mapBuilder := mapBuilder.Insert("attack", attack);
    tableDataMap := mapBuilder.Get();
    assert chara.entryDatas == [EntryDatas.New(EntryType.String), EntryDatas.New(EntryType.Unsigned64)];
  }

  /** A (name, number) record of a two-column table, built with `set_key`. */
  method NamedEntry(tableData: TableData, name: string, number: u64) returns (e: Entry)
    requires tableData.Valid() && tableData.Len() == 2
    requires tableData.entryDatas == [EntryDatas.New(EntryType.String), EntryDatas.New(EntryType.Unsigned64)]
    ensures e.values == [V.String(name), V.Unsigned64(number)] && tableData.Accepts(e)
  {
    var built := EntryBuilders.New(tableData)
      .SetKey(0, V.String(name))
      .SetKey(1, V.Unsigned64(number))
      .Get();
    e := built.value;
  }

  /** The mod of `test_default_mod_builder`: "hero" and 100 inserted into
      "chara", then "Ezylryb" removed from it. */
  method HeroMod(tableDataMap: TableDataMap, chara: TableData, hero: Entry, twilight: Entry)
    returns (b: DefaultModBuilders.DefaultModBuilder)
    requires tableDataMap.Valid() && "chara" in tableDataMap.tables && tableDataMap.tables["chara"] == chara
    requires chara.Accepts(hero) && chara.Accepts(twilight)
    ensures b.Mod? && b.Valid()
    ensures b.m.State() == Empty.WithEntry("chara", ID.String("hero"), hero)
                                .WithEntry("chara", Integer(100), twilight)
                                .WithTombstone("chara", ID.String("Ezylryb"))
  {
    b := DefaultModBuilders.New(DefaultMetadata(), tableDataMap);
    b := b.Insert("chara", ID.String("hero"), hero);
    b := b.Insert("chara", Integer(100), twilight);
    b := b.Remove("chara", ID.String("Ezylryb"));
  }

  /** An insert into a table the schema map lacks breaks a new chain. */
  method UnknownTableBreaks(tableDataMap: TableDataMap, e: Entry) returns (r: Result<DefaultMod>)
    requires tableDataMap.Valid() && "unexistant" !in tableDataMap.tables
    ensures r == Err(UnknownTable("unexistant"))
  {
    var b := DefaultModBuilders.New(DefaultMetadata(), tableDataMap);
    b := b.Insert("unexistant", ID.String("something"), e);
    r := b.Get();
  }

  /** `test_default_mod_builder`: two inserts and a remove list both ids as
      modified and the removed id as removed; an insert into an unknown table
      breaks the chain. */
  method DefaultModBuilderScenario() returns (built: Result<DefaultMod>, unknown: Result<DefaultMod>)
    ensures built.Ok?
    ensures built.value.State().ModifiedIds("chara") == {ID.String("hero"), Integer(100)}
    ensures built.value.State().RemovedIds("chara") == {ID.String("Ezylryb")}
    ensures unknown == Err(UnknownTable("unexistant"))
  {
    var tableDataMap, chara, attack := GameTables();
    var hero := NamedEntry(chara, "Soren", 300);
    var twilight := NamedEntry(chara, "Twilight", 32);
    var b := HeroMod(tableDataMap, chara, hero, twilight);
    built := b.Get();
    TwoInsertsAndARemove(hero, twilight);

    unknown := UnknownTableBreaks(tableDataMap, chara.DefaultEntry());
  }

  /** The base mod of `test_modpack`: "hero" and "partner" in "chara",
      "bc" in "attack". */
  method BaseMod(tableDataMap: TableDataMap, chara: TableData, attack: TableData, soren: Entry, twilight: Entry, battleClaw: Entry)
    returns (m: DefaultMod)
    requires tableDataMap.Valid() && tableDataMap.tables == map["chara" := chara, "attack" := attack]
    requires chara.Valid() && attack.Valid()
    requires chara.Accepts(soren) && chara.Accepts(twilight) && attack.Accepts(battleClaw)
    ensures fresh(m) && m.Valid() && m.metadata == DefaultMetadata() && m.tableDataMap == tableDataMap
    ensures m.State() == Empty.WithEntry("chara", ID.String("hero"), soren)
                              .WithEntry("chara", ID.String("partner"), twilight)
                              .WithEntry("attack", ID.String("bc"), battleClaw)
  {
    var b := DefaultModBuilders.New(DefaultMetadata(), tableDataMap);
    b := b.Insert("chara", ID.String("hero"), soren);
    b := b.Insert("chara", ID.String("partner"), twilight);
    b := b.Insert("attack", ID.String("bc"), battleClaw);
    m := b.m;
  }

  /** The static mod of `test_modpack`: "ice_shard" inserted into "attack",
      "bc" removed from it. */
  method StaticMod(tableDataMap: TableDataMap, attack: TableData, iceShard: Entry) returns (m: DefaultMod)
    requires tableDataMap.Valid() && "attack" in tableDataMap.tables && tableDataMap.tables["attack"] == attack
    requires attack.Accepts(iceShard)
    ensures fresh(m) && m.Valid() && m.metadata == DefaultMetadata() && m.tableDataMap == tableDataMap
    ensures m.State() == Empty.WithEntry("attack", ID.String("ice_shard"), iceShard).WithTombstone("attack", ID.String("bc"))
  {
    var b := DefaultModBuilders.New(DefaultMetadata(), tableDataMap);
    b := b.Insert("attack", ID.String("ice_shard"), iceShard);
    b := b.Remove("attack", ID.String("bc"));
    m := b.m;
  }

  /** The states of `test_modpack`'s base and static mods, as far as "hero"
      and "bc" are concerned. */
  lemma ModPackStates(base: ModState, shelved: ModState, soren: Entry, twilight: Entry, battleClaw: Entry, iceShard: Entry)
    requires base == Empty.WithEntry("chara", ID.String("hero"), soren)
                          .WithEntry("chara", ID.String("partner"), twilight)
                          .WithEntry("attack", ID.String("bc"), battleClaw)
    requires shelved == Empty.WithEntry("attack", ID.String("ice_shard"), iceShard).WithTombstone("attack", ID.String("bc"))
    ensures base.EntryOf("chara", ID.String("hero")) == Some(soren)
    ensures !shelved.IsRemoved("chara", ID.String("hero")) && shelved.EntryOf("chara", ID.String("hero")) == None
    ensures shelved.IsRemoved("attack", ID.String("bc"))
  {
  }

  /** The layers of `test_modpack` before the `set_entry`: with a base mod
      holding "hero" and a static mod that removed "bc" but says nothing of
      "hero", the base mod's "hero" shows through an empty current mod, and
      the static mod hides the base mod's "bc". */
  lemma ModPackLayers(base: ModState, shelved: ModState, md: Metadata, tableDataMap: TableDataMap, soren: Entry)
    requires base.EntryOf("chara", ID.String("hero")) == Some(soren)
    requires !shelved.IsRemoved("chara", ID.String("hero")) && shelved.EntryOf("chara", ID.String("hero")) == None
    requires shelved.IsRemoved("attack", ID.String("bc"))
    ensures Resolve([ReaderOf(Empty, md, tableDataMap), ReaderOf(shelved, md, tableDataMap)],
                    ReaderOf(base, md, tableDataMap), "chara", ID.String("hero")) == Ok(Some(soren))
    ensures Resolve([ReaderOf(Empty, md, tableDataMap), ReaderOf(shelved, md, tableDataMap)],
                    ReaderOf(base, md, tableDataMap), "attack", ID.String("bc")) == Ok(None)
  {
    var front, back, bottom := ReaderOf(Empty, md, tableDataMap), ReaderOf(shelved, md, tableDataMap), ReaderOf(base, md, tableDataMap);
    var layers := [front, back];
    var hero, bc := ID.String("hero"), ID.String("bc");
    assert front.isRemoved("chara", hero) == Ok(false) && front.getEntry("chara", hero) == Ok(None);
    assert back.isRemoved("chara", hero) == Ok(false) && back.getEntry("chara", hero) == Ok(None);
    assert bottom.getEntry("chara", hero) == Ok(Some(soren));
    AllTransparentAsksBase(layers, bottom, "chara", hero);
    assert front.isRemoved("attack", bc) == Ok(false) && front.getEntry("attack", bc) == Ok(None);
    assert back.isRemoved("attack", bc) == Ok(true);
    FirstOpaqueLayerDecides(layers, bottom, "attack", bc, 1);
  }

  /** The queries of `test_modpack` on a pack whose current mod is new and
      whose one static mod is `shelved`. */
  method QueryPack(game: Game, current: DefaultMod, shelved: ModReader, newClaw: Entry)
    returns (hero: Result<Option<Entry>>, hidden: Result<Option<Entry>>, restored: Result<Option<Entry>>)
    requires current.Valid() && current.State() == Empty
    requires "attack" in current.tableDataMap.tables && current.tableDataMap.tables["attack"].Accepts(newClaw)
    modifies current
    ensures hero == Resolve([ReaderOf(Empty, current.metadata, current.tableDataMap), shelved], game.baseMod, "chara", ID.String("hero"))
    ensures hidden == Resolve([ReaderOf(Empty, current.metadata, current.tableDataMap), shelved], game.baseMod, "attack", ID.String("bc"))
    ensures restored == Ok(Some(newClaw))
  {
    var pack := new ModPack(game, current);
    pack.InsertMod(shelved);
    assert current.AsReader() == ReaderOf(Empty, current.metadata, current.tableDataMap);
    assert pack.Layers() == [ReaderOf(Empty, current.metadata, current.tableDataMap), shelved];
    hero := pack.GetEntry("chara", ID.String("hero"));
    hidden := pack.GetEntry("attack", ID.String("bc"));
    var r := pack.SetEntry("attack", ID.String("bc"), newClaw);
    restored := pack.GetEntry("attack", ID.String("bc"));
  }

  /** `test_modpack`: the base mod's entry shows through an empty current
      mod; a static mod's removal hides the base mod's entry; a `set_entry`
      in the current mod overrides that removal. */
  method ModPackScenario() returns (hero: Result<Option<Entry>>, hidden: Result<Option<Entry>>, restored: Result<Option<Entry>>)
    ensures hero.Ok? && hero.value.Some? && hero.value.value.GetKey(0) == Ok(V.String("Soren"))
    ensures hidden == Ok(None)
    ensures restored.Ok? && restored.value.Some? && restored.value.value.GetKey(0) == Ok(V.String("battle claw"))
  {
    var tableDataMap, chara, attack := GameTables();
    var soren := NamedEntry(chara, "Soren", 300);
    var twilight := NamedEntry(chara, "Twilight", 100);
    var battleClaw := NamedEntry(attack, "battle claw", 90);
    var iceShard := NamedEntry(attack, "ice shard", 0);
    var baseMod := BaseMod(tableDataMap, chara, attack, soren, twilight, battleClaw);
    var staticMod := StaticMod(tableDataMap, attack, iceShard);
    var current := new DefaultMod(DefaultMetadata(), tableDataMap);
    ModPackStates(baseMod.State(), staticMod.State(), soren, twilight, battleClaw, iceShard);
    ModPackLayers(baseMod.State(), staticMod.State(), DefaultMetadata(), tableDataMap, soren);

    var newClaw := NamedEntry(attack, "battle claw", 0);
    hero, hidden, restored := QueryPack(Game(baseMod.AsReader(), tableDataMap), current, staticMod.AsReader(), newClaw);
  }
}
