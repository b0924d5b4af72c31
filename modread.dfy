/** The `ModRead` capability of yammy_core/src/mod.rs, the mod `Metadata`
    (yammy_core/src/metadata.rs) and the `Game` collaborator
    (yammy_core/src/game.rs).

    A `ModRead` is any object answering the read queries of a mod. Here it is
    the record of those queries, `ModReader`: a static or base mod is an
    immutable shared value, so its queries are plain functions of their
    arguments, and each may fail with an error of its own. `Honest` states
    the contract the trait's documentation asks of every implementation. */
module ModTraits {
  import opened Wrappers
  import opened Ids
  import opened Records
  import opened TableDataMaps

  datatype LicensePermission =
    | PublicDomain
    | FreeShareModUse
    | FreeShareUse
    | OtherLicense
    | StandardCopyright

  /** Descriptive data of a mod; the core stores it and never reads it. */
  datatype Metadata = Metadata(
    name: string,
    authors: seq<string>,
    description: string,
    license: string,
    permission: LicensePermission)

  /** `Metadata::default()`. */
  function DefaultMetadata(): Metadata {
    Metadata("", [], "", "", StandardCopyright)
  }

  /** The queries of `ModRead`. Lists whose order the source leaves
      unspecified (they come from hash maps) are sets. */
  datatype ModReader = ModReader(
    metadata: Metadata,
    tableDataMap: TableDataMap,
    modifiedTableList: set<string>,
    modifiedEntryList: string -> Result<set<ID>>,
    getEntry: (string, ID) -> Result<Option<Entry>>,
    isRemoved: (string, ID) -> Result<bool>,
    listRemoved: string -> Result<set<ID>>)

  /** The documented contract of `ModRead`, where the queries answer:
      `is_removed` agrees with membership in `list_removed`; `get_entry`
      answers an entry exactly for the ids `get_modified_entry_list` lists
      (only what this mod itself added or modified); and a table in which the
      mod modified something is among the modified tables. */
  ghost predicate Honest(r: ModReader) {
    && (forall table, id ::
          r.isRemoved(table, id).Ok? && r.listRemoved(table).Ok? ==>
            (r.isRemoved(table, id).value <==> id in r.listRemoved(table).value))
    && (forall table, id ::
          r.getEntry(table, id).Ok? && r.modifiedEntryList(table).Ok? ==>
            (r.getEntry(table, id).value.Some? <==> id in r.modifiedEntryList(table).value))
    && (forall table ::
          r.modifiedEntryList(table).Ok? && r.modifiedEntryList(table).value != {} ==>
            table in r.modifiedTableList)
  }

  /** The `Game` collaborator: the schemas and the base mod. Both are shared
      and never change once the game is set up. */
  datatype Game = Game(baseMod: ModReader, tableDataMap: TableDataMap)
}
