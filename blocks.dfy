/**
 * A block of the city map: a position, a type, a background colour fixed from
 * the type when the block is made, and an append-only list of items. The
 * block's aggregate colour, aggregate thermal value and colour-to-name table are
 * functions of that state.
 */
module Blocks {
  import opened Items

  /**
   * The block type. A block is made with a type string; "house", "road" and
   * "tree" are told apart, and every other string falls into `Other`.
   */
  datatype BlockType = House | Road | Tree | Other(name: string)

  /** The type string a block was made with. */
  function Label(t: BlockType): string {
    match t
    case House => "house"
    case Road => "road"
    case Tree => "tree"
    case Other(s) => s
  }

  /** Classifies a type string; `Label` recovers the string. */
  function KindOf(s: string): (t: BlockType)
    ensures Label(t) == s
    ensures t.Other? <==> s !in {"house", "road", "tree"}
  {
    if s == "house" then House
    else if s == "road" then Road
    else if s == "tree" then Tree
    else Other(s)
  }

  /** A type that some string classifies to: `Other` never carries a known label. */
  predicate Canonical(t: BlockType) {
    t.Other? ==> t.name !in {"house", "road", "tree"}
  }

  /** `KindOf` inverts `Label` on every type a string can produce. */
  lemma KindOfLabel(t: BlockType)
    requires Canonical(t)
    ensures KindOf(Label(t)) == t
  {
  }

  const White := Color(255, 255, 255)
  const Gray := Color(128, 128, 128)
  const Black := Color(0, 0, 0)

  /** `set_background_color`: the background colour chosen from the type. */
  function Background(t: BlockType): Color {
    if t == House then White
    else if t == Road then Gray
    else Black
  }

  /** White is for houses only, grey for roads only, black for every other type. */
  lemma BackgroundByType(t: BlockType)
    ensures Background(t) == White <==> t == House
    ensures Background(t) == Gray <==> t == Road
    ensures Background(t) == Black <==> !(t == House || t == Road)
  {
  }

  /** The set of normalised colours of the items. */
  function ItemColors(items: seq<Item>): set<Rgb> {
    set k | 0 <= k < |items| :: Normalize(items[k].color)
  }

  /**
   * The colour-to-name table built from the items in list order: each item
   * enters its normalised colour with its name, so a later item overwrites an
   * earlier one of the same colour.
   */
  function NameMap(items: seq<Item>): (m: map<Rgb, string>)
    ensures m.Keys == ItemColors(items)
  {
    if items == [] then map[]
    else
      var n := |items| - 1;
      var m := NameMap(items[..n]);
      assert ItemColors(items) == ItemColors(items[..n]) + {Normalize(items[n].color)} by {
        forall k | 0 <= k < n ensures items[..n][k] == items[k] { }
      }
      m[Normalize(items[n].color) := items[n].name]
  }

  /** Each colour maps to the name of the last item in list order that has it. */
  lemma {:induction false} NameMapLastWins(items: seq<Item>, k: nat)
    requires k < |items|
    requires forall k' :: k < k' < |items| ==> Normalize(items[k'].color) != Normalize(items[k].color)
    ensures Normalize(items[k].color) in NameMap(items)
    ensures NameMap(items)[Normalize(items[k].color)] == items[k].name
  {
    var n := |items| - 1;
    if k < n {
      var prefix := items[..n];
      assert prefix[k] == items[k];
      NameMapLastWins(prefix, k);
    }
  }

  class Block {
    const position: (int, int)
    const kind: BlockType
    /** Fixed from the type when the block is made, never recomputed. */
    const background: Color := Background(kind)
    var items: seq<Item>

    /** A block with no items whose background colour is fixed by its type. */
    constructor (position: (int, int), blockType: string := "house")
      ensures this.position == position && kind == KindOf(blockType)
      ensures background == Background(kind) && items == []
    {
      this.position := position;
      kind := KindOf(blockType);
      items := [];
    }

    /** `add_item`: appends the item; position, type and background are constants. */
    method AddItem(item: Item)
      modifies this
      ensures items == old(items) + [item]
    {
      items := items + [item];
    }

    /**
     * `get_rgb`: the normalised background colour of an empty block, otherwise
     * the channel-wise mean of the items' normalised colours.
     */
    function AggregateColor(): (c: Rgb)
      reads this
      ensures InUnitCube(c)
    {
      if items == [] then Normalize(background) else MeanRgb(items)
    }

    /** `get_thermal_value`: 25 for an empty block, otherwise the items' mean. */
    function AggregateThermal(): (t: real)
      reads this
      ensures items == [] ==> t == 25.0
      ensures items != [] ==> MinThermal(items) <= t <= MaxThermal(items)
    {
      if items == [] then 25.0
      else
        MeanThermalBetweenExtremes(items);
        MeanThermal(items)
    }

    /**
     * `get_item_names`: an empty block maps its normalised background colour
     * to its type string; otherwise every item colour maps to an item name.
     */
    function ItemNames(): (m: map<Rgb, string>)
      reads this
      ensures items == [] ==> m.Keys == {Normalize(background)} && m[Normalize(background)] == Label(kind)
      ensures items != [] ==> m.Keys == ItemColors(items)
    {
      if items == [] then map[Normalize(background) := Label(kind)] else NameMap(items)
    }
  }
}
