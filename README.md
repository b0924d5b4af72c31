# yammy_core in Dafny

A verified model of the core of yammy, a game-modding library. A game's data
is a set of tables. Each table has a schema (`TableData`): an append-only list
of named, typed columns. A record (`Entry`) holds one value per column. A mod
adds, modifies or removes records, keyed by table name and `ID`. A `ModPack`
stacks mods and answers each lookup with the record of the most important mod
that has a say: the current (writable) mod first, then the static mods front
to back, then the game's base mod.

Modules follow the source files. entry.rs and tabledata.rs use each other, so
they share `Records`; `ModTraits` gathers mod.rs, metadata.rs and game.rs;
`Wrappers` and `Scenarios` have no source file of their own:

- `Ids`: `ID` and its derived total order.
- `EntryValues`: the four-variant value and its accessors.
- `EntryDatas`: column types, defaults and the type check.
- `Records`: the `TableData` class, `Entry::new` and the `Entry` record.
- `TableDataMaps`: the table-name-to-schema map.
- `ModTraits`: the read side of a mod (`ModRead`) as a record of query
  functions, its documented contract `Honest`, `Metadata` and `Game`.
- `DefaultMods`: `DefaultMod`. Its state is also a value, `ModState`, with
  one transition per write. The class's methods are proved against those
  transitions.
- `ModPacks`: the resolution function `Resolve`, its lemmas and the `ModPack`
  class. `ModPack::get_entry`'s loop is proved equal to `Resolve`.
- `EntryBuilders`, `TableDataBuilders`, `TableDataMapBuilders`,
  `DefaultModBuilders`: the fail-fast builders.
- `Scenarios`: the in-file tests of defaultmodbuilder.rs and modpack.rs,
  chained through the builders and proved for every run.
- `Wrappers`: `Option`, `Result`, `Outcome` and the error kinds.

Where a doc comment and the code disagree, the model follows the code.
`ModRead::get_modified_table_list` is documented as listing the tables in
which the mod adds, modifies or deletes. `DefaultMod` lists only the tables
that have received an insert, so a table where the mod only removed ids is
not listed. The model keeps that behaviour, and `Honest` asks only that
tables with modified entries are listed. `is_writable` is implemented by
`DefaultMod` but not declared in `ModRead`; it is a `DefaultMod` function.

## Model

| member | source | states |
|---|---|---|
| Ids.CompareStringsEqual | yammy_core/src/lib.rs:16-18 | the String order reports Equal exactly for equal strings |
| Ids.CompareStringsFlip | yammy_core/src/lib.rs:16-18 | swapping the operands of the String order flips the answer |
| Ids.CompareStringsTransitive | yammy_core/src/lib.rs:16-18 | the String order is transitive |
| Ids.ProperPrefixSortsFirst | yammy_core/src/lib.rs:16-18 | a proper prefix sorts before the longer string |
| Ids.FirstDifferenceDecides | yammy_core/src/lib.rs:16-18 | after a common prefix, the first differing character decides the String order |
| Ids.Compare | yammy_core/src/lib.rs:16-20 | the derived `cmp` answers Equal exactly for equal ids, and across variants every String id is Less than every Integer id |
| Ids.Le | yammy_core/src/lib.rs:16-20 | the derived `<=` holds exactly when the ids are equal or the first compares Less |
| Ids.CompareFlip | yammy_core/src/lib.rs:16-20 | the id order is antisymmetric: swapping the operands flips the answer |
| Ids.CompareTransitive | yammy_core/src/lib.rs:16-20 | the id order is transitive |
| Ids.StringsBeforeIntegers | yammy_core/src/lib.rs:16-20 | every String id sorts strictly before every Integer id |
| Ids.WithinVariant | yammy_core/src/lib.rs:16-20 | Integer ids order by their u64 value; String ids by the String order |
| Ids.LeIsTotalOrder | yammy_core/src/lib.rs:16 | `<=` on ids is reflexive, antisymmetric, transitive and total |
| EntryValues.EntryValue.GetString | yammy_core/src/entryvalue.rs:17-22 | Some exactly for a String value, holding its payload |
| EntryValues.EntryValue.GetU64 | yammy_core/src/entryvalue.rs:24-29 | Some exactly for an Unsigned64 value, holding its payload |
| EntryValues.EntryValue.GetBool | yammy_core/src/entryvalue.rs:31-36 | Some exactly for a Boolean value, holding its payload |
| EntryValues.EntryValue.GetF64 | yammy_core/src/entryvalue.rs:38-43 | Some exactly for a Float64 value, holding its payload |
| EntryValues.ExactlyOneAccessor | yammy_core/src/entryvalue.rs:8-43 | every value answers Some to exactly one of the four accessors |
| EntryValues.AccessorRoundTrips | yammy_core/src/entryvalue.rs:46-61 | wrapping a payload and reading it back with the matching accessor gives the payload |
| EntryDatas.New | yammy_core/src/entrydata.rs:21-27 | the given type, no reference, no default |
| EntryDatas.Reference | yammy_core/src/entrydata.rs:29-32 | sets the reference and changes nothing else |
| EntryDatas.Check | yammy_core/src/entrydata.rs:52-71 | passes exactly when the value's variant is the column's type; otherwise fails with that type's error |
| EntryDatas.Default | yammy_core/src/entrydata.rs:34-38 | fails with the check's error on a wrongly typed value; otherwise stores it and keeps type and reference |
| EntryDatas.ZeroValue | yammy_core/src/entrydata.rs:43-48 | the zero value of a type has that type |
| EntryDatas.GetDefault | yammy_core/src/entrydata.rs:40-49 | the stored default if any, else the type's zero value; either way it passes the check |
| EntryDatas.ZeroValues | yammy_core/src/entrydata.rs:43-48 | the zero values are "", 0, +0.0 and false |
| EntryDatas.DefaultThenGetDefault | yammy_core/src/entrydata.rs:34-42 | a default set with `default` is what `get_default` returns |
| Records.FirstIndex | yammy_core/src/tabledata.rs:38-45 | the smallest index holding the name, or None exactly when no index does |
| Records.TableData.constructor | yammy_core/src/tabledata.rs:17-19 | a new schema has no columns and keeps the length invariant |
| Records.TableData.AddData | yammy_core/src/tabledata.rs:28-35 | appends one column at index old len, keeps the three fields the same length, earlier columns unchanged |
| Records.TableData.StringToId | yammy_core/src/tabledata.rs:38-45 | the scan returns the smallest index whose name matches, None when no name matches |
| Records.TableData.IdToString | yammy_core/src/tabledata.rs:47-53 | Some(name of column id) exactly when id < len |
| Records.TableData.GetEntryData | yammy_core/src/tabledata.rs:55-61 | Some(descriptor of column id) exactly when id < len |
| Records.TableData.Check | yammy_core/src/tabledata.rs:63-81 | passes exactly when lengths match and every value passes its column's check; a length mismatch fails first, otherwise the first failing column's error |
| Records.TableData.DefaultEntry | yammy_core/src/tabledata.rs:98-99 | one default per column, and the result passes the schema's check |
| Records.NewEntry | yammy_core/src/entry.rs:17-24 | the push loop yields the schema's default entry, which the schema accepts |
| Records.Entry.GetKey | yammy_core/src/entry.rs:26-34 | the value at id when id < len, an out-of-bounds error otherwise |
| Records.Entry.GetKeyByString | yammy_core/src/entry.rs:36-41 | unknown name is an error; otherwise get_key at the name's first index |
| Records.Entry.SetKey | yammy_core/src/entry.rs:43-52 | out of bounds fails; a wrongly typed value fails with the column's error; success replaces only that value and keeps the length |
| Records.Entry.SetKeyByString | yammy_core/src/entry.rs:54-64 | unknown name is an error; otherwise set_key at the name's first index |
| Records.SetKeyKeepsAccepted | yammy_core/src/entry.rs:43-52 | a successful set_key keeps an accepted entry accepted |
| Records.SetKeyThenGetKey | yammy_core/src/entry.rs:43-52 | after set_key, get_key reads the new value there and the old values elsewhere |
| Records.EmptyTableLookups | yammy_core/src/tabledata.rs:84-90 | on a schema with no columns every lookup by name or index is None |
| TableDataMaps.TableDataMap.constructor | yammy_core/src/tabledatamap.rs:11-13 | a new map contains no key |
| TableDataMaps.TableDataMap.Insert | yammy_core/src/tabledatamap.rs:15-17 | binds the name, overwriting; every other name keeps its schema |
| TableDataMaps.TableDataMap.ContainsKey | yammy_core/src/tabledatamap.rs:19-21 | true exactly when get finds a schema |
| TableDataMaps.TableDataMap.Get | yammy_core/src/tabledatamap.rs:23-25 | Some exactly for a bound name, holding its schema |
| TableDataMaps.TableDataMap.Index | yammy_core/src/tabledatamap.rs:28-33 | defined for a bound name, and then equal to get |
| ModTraits.Honest | yammy_core/src/mod.rs:10-28 | the documented contract of `ModRead` over the query record `ModReader`: `is_removed` agrees with `list_removed`, `get_entry` answers exactly for the listed modified ids, and a table with modified ids is among the modified tables |
| DefaultMods.ModState.WithoutTombstone | yammy_core/src/defaultmod.rs:89-94 | restore clears the tombstone of the pair, keeps every other tombstone and every entry |
| DefaultMods.ModState.WithEntry | yammy_core/src/defaultmod.rs:96-120 | a successful insert makes the pair Modified with the entry, adds the table to the modified tables, changes no other pair |
| DefaultMods.ModState.WithTombstone | yammy_core/src/defaultmod.rs:122-142 | remove makes the pair Removed (entry dropped), is a no-op on a removed pair, keeps the modified tables, changes no other pair |
| DefaultMods.EmptyHasNothing | yammy_core/src/defaultmod.rs:19-26 | a new mod has no modified table, no entry and no removed id |
| DefaultMods.TransitionsKeepNoOverlap | yammy_core/src/defaultmod.rs:89-142 | insert, remove and restore keep each pair out of being both Modified and Removed |
| DefaultMods.RemoveIdempotent | yammy_core/src/defaultmod.rs:122-125 | removing twice is removing once |
| DefaultMods.InsertAfterRemove | yammy_core/src/defaultmod.rs:275-289 | insert after remove makes the entry visible and clears the tombstone |
| DefaultMods.RestoreAfterRemoveIsAbsent | yammy_core/src/defaultmod.rs:89-94 | restore after remove leaves the pair Absent: no entry comes back |
| DefaultMods.TwoInsertsAndARemove | yammy_core/src/builder/defaultmodbuilder.rs:102-128 | two inserts and a remove list exactly both ids as modified and the removed id as removed |
| DefaultMods.ReaderOf | yammy_core/src/defaultmod.rs:29-86 | `impl ModRead for DefaultMod` on any state: no query fails, each answers from the state (entries, tombstones, modified ids and tables), and together they keep the ModRead contract `Honest` |
| DefaultMods.DefaultMod.constructor | yammy_core/src/defaultmod.rs:19-26 | a new mod is valid and has the empty state |
| DefaultMods.DefaultMod.IsWritable | yammy_core/src/defaultmod.rs:38-40 | always true |
| DefaultMods.DefaultMod.GetModifiedTableList | yammy_core/src/defaultmod.rs:42-48 | lists each table that has received an insert, once |
| DefaultMods.DefaultMod.GetModifiedEntryList | yammy_core/src/defaultmod.rs:50-59 | never fails; lists each modified id of the table, once; empty for an untouched table |
| DefaultMods.DefaultMod.GetEntry | yammy_core/src/defaultmod.rs:61-69 | never fails; the entry this mod itself stores, None otherwise |
| DefaultMods.DefaultMod.IsRemoved | yammy_core/src/defaultmod.rs:71-77 | never fails; true exactly when this mod holds the tombstone |
| DefaultMods.DefaultMod.ListRemoved | yammy_core/src/defaultmod.rs:79-85 | never fails; the table's tombstones, empty when there are none |
| DefaultMods.DefaultMod.AsReader | yammy_core/src/mod.rs:32 | every DefaultMod is an honest ModRead whose five queries, the modified table and entry lists included, agree with the mod's own |
| DefaultMods.DefaultMod.Restore | yammy_core/src/defaultmod.rs:89-94 | never fails; the state takes the restore transition and stays valid |
| DefaultMods.DefaultMod.Insert | yammy_core/src/defaultmod.rs:96-120 | unknown table fails with UnknownTable; otherwise the result is exactly what the table's `check` reports (Pass iff accepted, LengthMismatch first, else the first failing column's error); failure changes nothing; success takes the insert transition; validity kept |
| DefaultMods.DefaultMod.Remove | yammy_core/src/defaultmod.rs:122-142 | never fails, even for an unknown table; takes the remove transition; validity kept |
| ModPacks.Resolve | yammy_core/src/modpack.rs:44-77 | per layer, removal first and entry second, the first layer with a say decides, else the base mod's `get_entry`; an entry answered comes from some layer or the base mod, and a None that is not the base mod's comes from some layer's removal |
| ModPacks.TransparentPrefixSkipped | yammy_core/src/modpack.rs:56-68 | layers that neither removed nor hold the id are skipped |
| ModPacks.FirstOpaqueLayerDecides | yammy_core/src/modpack.rs:44-68 | the first layer that is not transparent decides: its error, its removal (None) or its entry |
| ModPacks.AllTransparentAsksBase | yammy_core/src/modpack.rs:69-77 | with every layer transparent the answer is the base mod's get_entry, errors included |
| ModPacks.BaseRemovalNeverAsked | yammy_core/src/modpack.rs:69-77 | the answer depends on the base mod only through its get_entry |
| ModPacks.FrontLayer | yammy_core/src/modpack.rs:44-55 | a layer placed in front decides when it is not transparent, and passes through otherwise |
| ModPacks.ModPack.constructor | yammy_core/src/modpack.rs:24-30 | a new pack has no static mods |
| ModPacks.ModPack.InsertMod | yammy_core/src/modpack.rs:35-37 | the new mod goes in front of all static mods, behind the current mod |
| ModPacks.ModPack.GetEntry | yammy_core/src/modpack.rs:39-78 | the loop's answer is the layered resolution; the current mod's removal or entry decides at once |
| ModPacks.ModPack.SetEntry | yammy_core/src/modpack.rs:80-83 | the current mod's insert only, with its error passed up unchanged (UnknownTable, or what the table's `check` reports); on success the pack resolves the id to the new entry |
| ModPacks.ModPack.Remove | yammy_core/src/modpack.rs:86-89 | the current mod's remove only; the pack then resolves the id to None |
| EntryBuilders.New | yammy_core/src/builder/entrybuilder.rs:17-19 | an unfailed chain holding Entry::new of the schema |
| EntryBuilders.EntryBuilder.SetKey | yammy_core/src/builder/entrybuilder.rs:22-33 | behaves as Entry::set_key in the Ok state, ends the chain on its error, keeps a failed chain unchanged |
| EntryBuilders.EntryBuilder.SetKeyByString | yammy_core/src/builder/entrybuilder.rs:36-47 | behaves as Entry::set_key_by_string in the same way |
| EntryBuilders.EntryBuilder.Get | yammy_core/src/builder/entrybuilder.rs:50-55 | Ok(entry) exactly when no step failed, the kept error otherwise |
| EntryBuilders.ErrAbsorbs | yammy_core/src/builder/entrybuilder.rs:31 | a failed chain stays failed with the same error through any steps |
| EntryBuilders.RunConcat | yammy_core/src/builder/entrybuilder.rs:22-47 | chaining two step lists is running their concatenation |
| EntryBuilders.FirstErrorWins | yammy_core/src/builder/entrybuilder.rs:22-55 | once a prefix fails, get reports that prefix's error |
| EntryBuilders.BuiltEntryAccepted | yammy_core/src/builder/entrybuilder.rs:17-55 | any entry a chain builds passes its schema's check |
| TableDataBuilders.New | yammy_core/src/builder/tabledatabuilder.rs:12-16 | a builder on a new, empty schema |
| TableDataBuilders.TableDataBuilder.AddData | yammy_core/src/builder/tabledatabuilder.rs:19-22 | TableData::add_data on the held schema: columns get indices in call order |
| TableDataBuilders.CharaTable | yammy_core/src/builder/defaultmodbuilder.rs:83-86 | "name" gets index 0 and "pv" index 1 |
| TableDataMapBuilders.New | yammy_core/src/builder/tabledatamapbuilder.rs:14-18 | a builder on a new, empty map |
| TableDataMapBuilders.TableDataMapBuilder.Insert | yammy_core/src/builder/tabledatamapbuilder.rs:21-24 | TableDataMap::insert on the held map: overwrite on the same name, other names kept |
| DefaultModBuilders.New | yammy_core/src/builder/defaultmodbuilder.rs:21-23 | an unbroken chain on a new, empty mod |
| DefaultModBuilders.DefaultModBuilder.Insert | yammy_core/src/builder/defaultmodbuilder.rs:28-39 | DefaultMod::insert in the Mod state; Broken with UnknownTable for an unknown table, otherwise with the error the table's `check` reports; a broken chain untouched |
| DefaultModBuilders.DefaultModBuilder.Remove | yammy_core/src/builder/defaultmodbuilder.rs:44-55 | DefaultMod::remove in the Mod state, which never breaks; a broken chain untouched |
| DefaultModBuilders.DefaultModBuilder.Get | yammy_core/src/builder/defaultmodbuilder.rs:58-63 | Ok(mod) exactly when no step failed |
| Scenarios.GameTables | yammy_core/src/builder/defaultmodbuilder.rs:80-95 | the tests' two schemas, built with the builders |
| Scenarios.NamedEntry | yammy_core/src/builder/defaultmodbuilder.rs:106-109 | a two-column record built with set_key holds the two values and is accepted |
| Scenarios.HeroMod | yammy_core/src/builder/defaultmodbuilder.rs:102-120 | the builder chain's state is two insert transitions then a remove transition |
| Scenarios.UnknownTableBreaks | yammy_core/src/builder/defaultmodbuilder.rs:130-139 | an insert into an unknown table makes get fail with UnknownTable |
| Scenarios.DefaultModBuilderScenario | yammy_core/src/builder/defaultmodbuilder.rs:71-140 | the built mod lists both inserted ids and the removed id |
| Scenarios.BaseMod | yammy_core/src/modpack.rs:147-172 | the base mod holds hero, partner and bc |
| Scenarios.StaticMod | yammy_core/src/modpack.rs:195-206 | the static mod holds ice_shard and a tombstone for bc |
| Scenarios.ModPackStates | yammy_core/src/modpack.rs:120-206 | the test's base mod holds hero; its static mod says nothing of hero and removed bc |
| Scenarios.ModPackLayers | yammy_core/src/modpack.rs:211-229 | whenever the base mod holds hero and a static mod removed bc but says nothing of hero, hero shows through an empty current mod and bc is hidden |
| Scenarios.QueryPack | yammy_core/src/modpack.rs:208-254 | the pack's answers before and after set_entry |
| Scenarios.ModPackScenario | yammy_core/src/modpack.rs:92-255 | hero resolves to "Soren", bc to None, and after set_entry bc to "battle claw" |

## Left out

- Records.Entry.SetKey: requires that an `id` within the entry is also a column of the schema (`id < Len() ==> id < tableData.Len()`), which excludes the panic of `get_entrydata(id).unwrap()` (entry.rs:46); every entry built by `Entry::new` or kept by `check` meets it.
- Records.Entry.SetKey: the source updates the entry in place through `&mut self`; the model returns the updated entry, and on failure the caller keeps the unchanged one, which is the same observable behaviour.
- ModPacks.ModPack.GetEntry: the source asks the current mod before its loop over the static mods; the model runs one loop over the current mod followed by the static mods, in the same order and with the same early returns.
- DefaultMods.DefaultMod.Insert: the source propagates an error from `restore`, which never fails; the model calls `Restore` and ignores its always-`Pass` result.
- ModTraits.Honest: states only what `ModRead`'s doc comments promise and `DefaultMod` keeps. Tables where a mod only removed ids need not be listed, because `DefaultMod` does not list them.
- The `Mutex` around the current mod, lock poisoning and the `unwrap` on locking (modpack.rs:40-43, 81, 87): concurrency. The current mod is an owned `DefaultMod`.
- `Arc` sharing: schemas are shared object references. Static and base mods are `ModReader` values. `DefaultMod.AsReader` takes a snapshot of the mod's state, which is exact for a mod that is never written again.
- Other `ModRead` implementations: a static or base mod is any `ModReader`, whose queries may fail. Errors are propagated as the source does.
- error_chain messages and `chain_err` context: errors are a small datatype of kinds. The builders' `get` adds context that is not modelled.
- Float64 payloads are opaque 64-bit patterns compared bitwise. No arithmetic is done on them, and NaN equality is not modelled.
- HashMap iteration order: `GetModifiedTableList` and `GetModifiedEntryList` return duplicate-free sequences in unspecified order. `list_removed`'s BTreeSet is a set, so its iteration order is not modelled.
- `usize` indices and `id_counter` are unbounded `nat`s. Overflow past `usize::MAX` columns is not modelled.
- `Metadata` and `LicensePermission` are plain data carried along, and the core never reads them. `get_metadata` and `get_tabledatamap` are the record fields `metadata` and `tableDataMap`.
- `Game` is a record of a base mod and a schema map, not a trait; the base mod is fixed per game.
- The builders' panicking `unwrap` helpers (entrybuilder.rs:58-60, defaultmodbuilder.rs:66-68) are not modelled. Neither is `Index`'s panic on an absent name: `TableDataMap.Index` requires the name to be present.
- `TableData::len`, `Entry::len` and the builders' `get` on a plain field carry no contract of their own. They are used in the other members' contracts.
- The `yammy_gui` and `yammy_gui_cmd` crates (terminal UI and input loop) are not part of this model.
