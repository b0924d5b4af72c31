/** `ModPack` of yammy_core/src/modpack.rs: a stack of mods answering
    `get_entry` with the entry of the most important mod.

    Layers in priority order: the current (writable) mod, then the static
    mods front to back, then the game's base mod. `Resolve` is that
    resolution as a function of the layers; the class's `GetEntry` loop is
    proved equal to it. */
module ModPacks {
  import opened Wrappers
  import opened Ids
  import opened Records
  import opened ModTraits
  import opened DefaultMods

  /** A layer that neither removed nor holds (table, id): resolution passes
      through it. */
  predicate Transparent(layer: ModReader, table: string, id: ID) {
    layer.isRemoved(table, id) == Ok(false) && layer.getEntry(table, id) == Ok(None)
  }

  /** What a non-transparent layer decides: a failing query is an error, a
      removal hides the id, an entry is the answer. */
  function Decision(layer: ModReader, table: string, id: ID): Result<Option<Entry>> {
    match layer.isRemoved(table, id)
    case Err(e) => Err(e)
    case Ok(removed) =>
      if removed then Ok(None)
      else match layer.getEntry(table, id)
        case Err(e) => Err(e)
        case Ok(found) => Ok(found)
  }

  /** The answer of `get_entry`: per layer, removal is asked first and the
      entry second, and the first layer that says something decides; when
      none does, the base mod is asked for its entry only. */
  function Resolve(layers: seq<ModReader>, base: ModReader, table: string, id: ID): (r: Result<Option<Entry>>)
    ensures layers == [] ==> r == base.getEntry(table, id)
    ensures r.Ok? && r.value.Some? ==>
      r == base.getEntry(table, id) || exists j :: 0 <= j < |layers| && layers[j].getEntry(table, id) == r
    ensures r.Ok? && r.value.None? && r != base.getEntry(table, id) ==>
      exists j :: 0 <= j < |layers| && layers[j].isRemoved(table, id) == Ok(true)
    decreases |layers|
  {
    if layers == [] then base.getEntry(table, id)
    else match layers[0].isRemoved(table, id)
      case Err(e) => Err(e)
      case Ok(removed) =>
        if removed then Ok(None)
        else match layers[0].getEntry(table, id)
          case Err(e) => Err(e)
          case Ok(found) => if found.Some? then Ok(found) else Resolve(layers[1..], base, table, id)
  }

  /** Layers that say nothing about (table, id) can be dropped. */
  lemma {:induction false} TransparentPrefixSkipped(layers: seq<ModReader>, base: ModReader, table: string, id: ID, k: nat)
    requires k <= |layers|
    requires forall j :: 0 <= j < k ==> Transparent(layers[j], table, id)
    ensures Resolve(layers, base, table, id) == Resolve(layers[k..], base, table, id)
    decreases k
  {
    if k > 0 {
      assert layers[1..][k - 1..] == layers[k..];
      TransparentPrefixSkipped(layers[1..], base, table, id, k - 1);
    }
  }

  /** The first layer that is not transparent decides: its error, its
      removal (None) or its entry, whatever lies below it. */
  lemma FirstOpaqueLayerDecides(layers: seq<ModReader>, base: ModReader, table: string, id: ID, k: nat)
    requires k < |layers|
    requires forall j :: 0 <= j < k ==> Transparent(layers[j], table, id)
    requires !Transparent(layers[k], table, id)
    ensures Resolve(layers, base, table, id) == Decision(layers[k], table, id)
  {
    TransparentPrefixSkipped(layers, base, table, id, k);
  }

  /** When every layer is transparent, the answer is the base mod's entry
      (None when it has nothing), errors included. */
  lemma AllTransparentAsksBase(layers: seq<ModReader>, base: ModReader, table: string, id: ID)
    requires forall j :: 0 <= j < |layers| ==> Transparent(layers[j], table, id)
    ensures Resolve(layers, base, table, id) == base.getEntry(table, id)
  {
    TransparentPrefixSkipped(layers, base, table, id, |layers|);
  }

  /** The base mod's `is_removed`, and every other of its queries, is never
      consulted: two base mods whose `get_entry` agree give the same answer. */
  lemma {:induction false} BaseRemovalNeverAsked(layers: seq<ModReader>, base: ModReader, base': ModReader, table: string, id: ID)
    requires base.getEntry(table, id) == base'.getEntry(table, id)
    ensures Resolve(layers, base, table, id) == Resolve(layers, base', table, id)
    decreases |layers|
  {
    if layers != [] {
      BaseRemovalNeverAsked(layers[1..], base, base', table, id);
    }
  }

  /** A layer placed in front of the others decides whenever it is not
      transparent; otherwise the answer is that of the layers behind it. */
  lemma FrontLayer(front: ModReader, layers: seq<ModReader>, base: ModReader, table: string, id: ID)
    ensures !Transparent(front, table, id) ==> Resolve([front] + layers, base, table, id) == Decision(front, table, id)
    ensures Transparent(front, table, id) ==> Resolve([front] + layers, base, table, id) == Resolve(layers, base, table, id)
  {
    assert ([front] + layers)[1..] == layers;
  }

  class ModPack {
    const game: Game
    /** The current mod: the only layer that is written. */
    const current: DefaultMod
    /** The static mods, most important first. */
    var staticMods: seq<ModReader>

    ghost predicate Valid()
      reads current, current.tableDataMap, current.tableDataMap.tables.Values
    {
      current.Valid()
    }

    /** All layers above the base mod, most important first. */
    function Layers(): (r: seq<ModReader>)
      reads this, current
      ensures |r| == |staticMods| + 1 && r[1..] == staticMods
      ensures r[0] == current.AsReader()
    {
      [current.AsReader()] + staticMods
    }

    /** `ModPack::new`: no static mods. */
    constructor (game: Game, current: DefaultMod)
      ensures this.game == game && this.current == current && staticMods == []
    {
      this.game := game;
      this.current := current;
      staticMods := [];
    }

    /** `insert_mod`: the new mod becomes the most important static mod. */
    method InsertMod(m: ModReader)
      modifies this
      ensures staticMods == [m] + old(staticMods)
      ensures Layers() == [old(Layers())[0], m] + old(Layers())[1..]
    {
      staticMods := [m] + staticMods;
    }

    /** `get_entry`: scans the layers with early returns, then asks the base
        mod. A removal or an entry in the current mod decides at once. */
    method GetEntry(table: string, id: ID) returns (r: Result<Option<Entry>>)
      ensures r == Resolve(Layers(), game.baseMod, table, id)
      ensures current.State().IsRemoved(table, id) ==> r == Ok(None)
      ensures !current.State().IsRemoved(table, id) && current.State().EntryOf(table, id).Some? ==>
        r == Ok(current.State().EntryOf(table, id))
    {
      var layers := Layers();
      var i := 0;
      while i < |layers|
        invariant 0 <= i <= |layers|
        invariant Resolve(layers[i..], game.baseMod, table, id) == Resolve(layers, game.baseMod, table, id)
      {
        var layer := layers[i];
        assert layers[i..][1..] == layers[i + 1..];
        match layer.isRemoved(table, id)
        case Err(e) =>
          return Err(e);
        case Ok(removed) =>
          if removed {
            return Ok(None);
          }
        match layer.getEntry(table, id)
        case Err(e) =>
          return Err(e);
        case Ok(found) =>
          if found.Some? {
            return Ok(found);
          }
        i := i + 1;
      }
      r := game.baseMod.getEntry(table, id);
    }

    /** `set_entry`: the current mod's `insert`; static and base mods are
        untouched. On success the entry is what `get_entry` answers, whatever
        the static mods say. */
    method SetEntry(table: string, id: ID, entry: Entry) returns (r: Outcome)
      requires Valid()
      modifies current
      ensures Valid()
      ensures table !in current.tableDataMap.tables ==> r == Fail(UnknownTable(table))
      ensures table in current.tableDataMap.tables ==> current.tableDataMap.tables[table].CheckReports(entry, r)
      ensures r.Fail? ==> current.State() == old(current.State())
      ensures r.Pass? ==> current.State() == old(current.State()).WithEntry(table, id, entry)
      ensures r.Pass? ==> Resolve(Layers(), game.baseMod, table, id) == Ok(Some(entry))
    {
      r := current.Insert(table, id, entry);
      if r.Pass? {
        FrontLayer(current.AsReader(), staticMods, game.baseMod, table, id);
      }
    }

    /** `remove`: the current mod's `remove`; afterwards `get_entry` answers
        None, whatever the lower layers hold. */
    method Remove(table: string, id: ID) returns (r: Outcome)
      requires Valid()
      modifies current
      ensures Valid() && r == Pass
      ensures current.State() == old(current.State()).WithTombstone(table, id)
      ensures Resolve(Layers(), game.baseMod, table, id) == Ok(None)
    {
      r := current.Remove(table, id);
      FrontLayer(current.AsReader(), staticMods, game.baseMod, table, id);
    }
  }
}
