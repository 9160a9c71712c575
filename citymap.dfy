/**
 * The grid pipeline: populating a height-by-width grid of blocks, the overall
 * thermal value over the non-road blocks, and the colour and thermal views.
 *
 * The random house-or-tree draw is an input, `isHouse(i, j)`, consulted only
 * for cells outside the road columns.
 */
module CityMap {
  import opened Items
  import opened Blocks

  /** The item a tree cell always gets, and a house cell gets when houses lead. */
  const TreeItem := Item("Tree", Color(0, 128, 0), -1.0)

  /** Columns strictly between 3 and 6 are road. */
  predicate IsRoadColumn(j: int) {
    3 < j < 6
  }

  // ---------------------------------------------------------------------------
  // Population, as pure functions of the choices

  /** The running house and tree counters of one population run. */
  datatype Counters = Counters(houses: nat, trees: nat)

  /** What one cell receives: the type string of its block and its items. */
  datatype Placement = Placement(blockType: string, items: seq<Item>)

  /** The cell in column `j`, given the counters so far and the draw. */
  function Place(c: Counters, j: int, house: bool): Placement {
    if IsRoadColumn(j) then Placement("road", [])
    else if house then Placement("house", if c.houses > c.trees then [TreeItem] else [])
    else Placement("tree", [TreeItem])
  }

  /** The counters house_count and tree_count after the cell in column `j`. */
  function Advance(c: Counters, j: int, house: bool): Counters {
    if IsRoadColumn(j) then c
    else if house then Counters(c.houses + 1, if c.houses > c.trees then c.trees + 1 else c.trees)
    else Counters(c.houses, c.trees + 1)
  }

  /** The counters just before cell (i, j) is filled, in row-major order. */
  function Before(isHouse: (nat, nat) -> bool, width: nat, i: nat, j: nat): Counters
    requires j <= width
    decreases i, j
  {
    if j > 0 then Advance(Before(isHouse, width, i, j - 1), j - 1, isHouse(i, j - 1))
    else if i > 0 then Before(isHouse, width, i - 1, width)
    else Counters(0, 0)
  }

  /** What cell (i, j) receives. */
  function CellAt(isHouse: (nat, nat) -> bool, width: nat, i: nat, j: nat): Placement
    requires j < width
  {
    Place(Before(isHouse, width, i, j), j, isHouse(i, j))
  }

  /** Everything placed before cell (i, j), in row-major order. */
  function PlacedBefore(isHouse: (nat, nat) -> bool, width: nat, i: nat, j: nat): seq<Placement>
    requires j <= width
    decreases i, j
  {
    if j > 0 then PlacedBefore(isHouse, width, i, j - 1) + [CellAt(isHouse, width, i, j - 1)]
    else if i > 0 then PlacedBefore(isHouse, width, i - 1, width)
    else []
  }

  /** The number of house cells among the placements. */
  function HouseCells(ps: seq<Placement>): nat {
    if ps == [] then 0
    else HouseCells(ps[..|ps| - 1]) + (if ps[|ps| - 1].blockType == "house" then 1 else 0)
  }

  /** The number of Tree items among the placements. */
  function TreeItems(ps: seq<Placement>): nat {
    if ps == [] then 0
    else TreeItems(ps[..|ps| - 1]) + multiset(ps[|ps| - 1].items)[TreeItem]
  }

  /**
   * The counters always tally what has been placed: `house_count` is the
   * number of house cells so far and `tree_count` the number of Tree items.
   */
  lemma {:induction false} CountersTally(isHouse: (nat, nat) -> bool, width: nat, i: nat, j: nat)
    requires j <= width
    ensures Before(isHouse, width, i, j).houses == HouseCells(PlacedBefore(isHouse, width, i, j))
    ensures Before(isHouse, width, i, j).trees == TreeItems(PlacedBefore(isHouse, width, i, j))
    decreases i, j
  {
    if j > 0 {
      CountersTally(isHouse, width, i, j - 1);
      var ps := PlacedBefore(isHouse, width, i, j - 1);
      var c := Before(isHouse, width, i, j - 1);
      var p := Place(c, j - 1, isHouse(i, j - 1));
      assert PlacedBefore(isHouse, width, i, j) == ps + [p];
      assert Before(isHouse, width, i, j) == Advance(c, j - 1, isHouse(i, j - 1));
      AdvanceTallies(c, j - 1, isHouse(i, j - 1));
      TalliesAppend(ps, p);
    } else if i > 0 {
      CountersTally(isHouse, width, i - 1, width);
    }
  }

  /** One more placement adds its own house cell and Tree items to the tallies. */
  lemma TalliesAppend(ps: seq<Placement>, p: Placement)
    ensures HouseCells(ps + [p]) == HouseCells(ps) + HouseCells([p])
    ensures TreeItems(ps + [p]) == TreeItems(ps) + TreeItems([p])
  {
    assert (ps + [p])[..|ps|] == ps;
    assert [p][..0] == [];
  }

  /** `Advance` adds exactly what `Place` puts in the cell to the counters. */
  lemma AdvanceTallies(c: Counters, j: int, house: bool)
    ensures var p := Place(c, j, house);
      Advance(c, j, house) == Counters(c.houses + HouseCells([p]), c.trees + TreeItems([p]))
  {
    var p := Place(c, j, house);
    assert [p][..0] == [];
    if p.items == [] {
      assert multiset(p.items)[TreeItem] == 0;
    } else {
      assert p.items == [TreeItem];
      assert multiset(p.items)[TreeItem] == 1;
    }
  }

  /** Houses never lead trees by more than one. */
  lemma {:induction false} HousesNeverOutrunTrees(isHouse: (nat, nat) -> bool, width: nat, i: nat, j: nat)
    requires j <= width
    ensures Before(isHouse, width, i, j).houses <= Before(isHouse, width, i, j).trees + 1
    decreases i, j
  {
    if j > 0 {
      HousesNeverOutrunTrees(isHouse, width, i, j - 1);
    } else if i > 0 {
      HousesNeverOutrunTrees(isHouse, width, i - 1, width);
    }
  }

  /**
   * A house cell receives a Tree item exactly when more house cells than Tree
   * items have been placed before it; otherwise it stays empty.
   */
  lemma HouseGetsTreeIff(isHouse: (nat, nat) -> bool, width: nat, i: nat, j: nat)
    requires j < width && !IsRoadColumn(j) && isHouse(i, j)
    ensures var ps, cell := PlacedBefore(isHouse, width, i, j), CellAt(isHouse, width, i, j);
      && cell.blockType == "house"
      && (cell.items == [TreeItem] <==> HouseCells(ps) > TreeItems(ps))
      && (cell.items == [] <==> HouseCells(ps) <= TreeItems(ps))
  {
    CountersTally(isHouse, width, i, j);
  }

  /**
   * The layout of every cell: road columns are empty roads; every other cell is
   * a house or a tree; a tree holds exactly one Tree item, a house at most one.
   */
  lemma CellLayout(isHouse: (nat, nat) -> bool, width: nat, i: nat, j: nat)
    requires j < width
    ensures var cell := CellAt(isHouse, width, i, j);
      && (IsRoadColumn(j) ==> cell.blockType == "road" && cell.items == [])
      && (!IsRoadColumn(j) ==> cell.blockType == (if isHouse(i, j) then "house" else "tree"))
      && (cell.blockType == "tree" ==> cell.items == [TreeItem])
      && (cell.blockType == "house" ==> |cell.items| <= 1)
  {
  }

  /** A cell holding one Tree item shows colour (0, 128/255, 0) and thermal value -1. */
  lemma TreeCellAggregates(items: seq<Item>)
    requires items == [TreeItem]
    ensures MeanRgb(items) == Rgb(0.0, 128.0 / 255.0, 0.0)
    ensures MeanThermal(items) == -1.0
  {
    MeanRgbOfUniform(items, TreeItem.color);
    MeanThermalOfUniform(items, -1.0);
  }

  // ---------------------------------------------------------------------------
  // The grid

  /** Every cell of the grid holds a block. */
  predicate Populated(g: array2<Block?>)
    reads g
  {
    forall i, j :: 0 <= i < g.Length0 && 0 <= j < g.Length1 ==> g[i, j] != null
  }

  /** The blocks the grid holds. */
  function Cells(g: array2<Block?>): set<Block?>
    reads g
  {
    set i, j | 0 <= i < g.Length0 && 0 <= j < g.Length1 :: g[i, j]
  }

  /** A block is its own position's block and was filled from `CellAt`. */
  predicate FilledFrom(g: array2<Block?>, isHouse: (nat, nat) -> bool, i: nat, j: nat)
    requires i < g.Length0 && j < g.Length1
    reads g, g[i, j]
  {
    var b, cell := g[i, j], CellAt(isHouse, g.Length1, i, j);
    && b != null
    && b.position == (i, j)
    && b.kind == KindOf(cell.blockType)
    && b.background == Background(b.kind)
    && b.items == cell.items
  }

  /**
   * `create_map`: fills the grid in row-major order with fresh blocks whose
   * type and items are those `CellAt` prescribes.
   */
  method CreateMap(height: nat, width: nat, isHouse: (nat, nat) -> bool) returns (blocks: array2<Block?>)
    ensures fresh(blocks) && blocks.Length0 == height && blocks.Length1 == width
    ensures Populated(blocks)
    ensures forall i, j :: 0 <= i < height && 0 <= j < width ==>
      fresh(blocks[i, j]) && FilledFrom(blocks, isHouse, i, j)
  {
    blocks := new Block?[height, width];
    var houseCount, treeCount := 0, 0;
    for i := 0 to height
      invariant Counters(houseCount, treeCount) == Before(isHouse, width, i, 0)
      invariant forall i', j' :: 0 <= i' < i && 0 <= j' < width ==>
        fresh(blocks[i', j']) && FilledFrom(blocks, isHouse, i', j')
    {
      for j := 0 to width
        invariant Counters(houseCount, treeCount) == Before(isHouse, width, i, j)
        invariant forall i', j' :: 0 <= i' < height && 0 <= j' < width && (i' < i || (i' == i && j' < j)) ==>
          fresh(blocks[i', j']) && FilledFrom(blocks, isHouse, i', j')
      {
        var block: Block;
        if 3 < j < 6 {
          block := new Block((i, j), "road");
        } else {
          var blockType := if isHouse(i, j) then "house" else "tree";
          block := new Block((i, j), blockType);
          if blockType == "house" {
            if houseCount > treeCount {
              block.AddItem(TreeItem);
              treeCount := treeCount + 1;
            }
            houseCount := houseCount + 1;
          } else if blockType == "tree" {
            block.AddItem(TreeItem);
            treeCount := treeCount + 1;
          }
        }
        blocks[i, j] := block;
      }
    }
  }

  // ---------------------------------------------------------------------------
  // Overall thermal value

  /** Sum of the thermal values of the non-road blocks in row `i`, columns below `j`. */
  function RowSum(g: array2<Block?>, i: nat, j: nat): real
    requires Populated(g) && i < g.Length0 && j <= g.Length1
    reads g, Cells(g)
  {
    if j == 0 then 0.0
    else
      var b := g[i, j - 1];
      RowSum(g, i, j - 1) + (if b.kind != Road then b.AggregateThermal() else 0.0)
  }

  /** The number of non-road blocks in row `i`, columns below `j`. */
  function RowCount(g: array2<Block?>, i: nat, j: nat): nat
    requires Populated(g) && i < g.Length0 && j <= g.Length1
    reads g, Cells(g)
  {
    if j == 0 then 0
    else RowCount(g, i, j - 1) + (if g[i, j - 1].kind != Road then 1 else 0)
  }

  /** Sum of the thermal values of the non-road blocks in the rows below `i`. */
  function GridSum(g: array2<Block?>, i: nat): real
    requires Populated(g) && i <= g.Length0
    reads g, Cells(g)
  {
    if i == 0 then 0.0 else GridSum(g, i - 1) + RowSum(g, i - 1, g.Length1)
  }

  /** The number of non-road blocks in the rows below `i`. */
  function GridCount(g: array2<Block?>, i: nat): nat
    requires Populated(g) && i <= g.Length0
    reads g, Cells(g)
  {
    if i == 0 then 0 else GridCount(g, i - 1) + RowCount(g, i - 1, g.Length1)
  }

  /** The baseline of the thermal total. */
  const Baseline := 10.0

  /** The fallback when the grid has no non-road block. */
  const DefaultThermal := 25.0

  /**
   * (10 + the sum of the non-road thermal values) divided by the number of
   * non-road blocks, or 25 when there is none.
   */
  function OverallThermal(g: array2<Block?>): real
    requires Populated(g)
    reads g, Cells(g)
  {
    var k := GridCount(g, g.Length0);
    if k > 0 then (Baseline + GridSum(g, g.Length0)) / k as real else DefaultThermal
  }

  /** `calculate_overall_thermal`: accumulates over the grid in row-major order. */
  method CalculateOverallThermal(g: array2<Block?>) returns (r: real)
    requires Populated(g)
    ensures r == OverallThermal(g)
  {
    var total := Baseline;
    var count := 0;
    for i := 0 to g.Length0
      invariant total == Baseline + GridSum(g, i)
      invariant count == GridCount(g, i)
    {
      for j := 0 to g.Length1
        invariant total == Baseline + GridSum(g, i) + RowSum(g, i, j)
        invariant count == GridCount(g, i) + RowCount(g, i, j)
      {
        if g[i, j].kind != Road {
          total := total + g[i, j].AggregateThermal();
          count := count + 1;
        }
      }
    }
    r := if count > 0 then total / count as real else DefaultThermal;
  }

  /** Every block of row `i` below column `j` is a road. */
  predicate RowAllRoad(g: array2<Block?>, i: nat, j: nat)
    requires Populated(g) && i < g.Length0 && j <= g.Length1
    reads g, Cells(g)
  {
    forall j' :: 0 <= j' < j ==> g[i, j'].kind == Road
  }

  lemma {:induction false} RowCountZeroIff(g: array2<Block?>, i: nat, j: nat)
    requires Populated(g) && i < g.Length0 && j <= g.Length1
    ensures RowCount(g, i, j) == 0 <==> RowAllRoad(g, i, j)
  {
    if j > 0 {
      RowCountZeroIff(g, i, j - 1);
    }
  }

  lemma {:induction false} GridCountZeroIff(g: array2<Block?>, i: nat)
    requires Populated(g) && i <= g.Length0
    ensures GridCount(g, i) == 0 <==> forall i' :: 0 <= i' < i ==> RowAllRoad(g, i', g.Length1)
  {
    if i > 0 {
      GridCountZeroIff(g, i - 1);
      RowCountZeroIff(g, i - 1, g.Length1);
    }
  }

  /**
   * No block is counted exactly when every block is a road (which includes the
   * empty grid); then the overall value is the fallback 25 and nothing is divided.
   */
  lemma OverallThermalFallback(g: array2<Block?>)
    requires Populated(g)
    ensures GridCount(g, g.Length0) == 0 <==>
      forall i, j :: 0 <= i < g.Length0 && 0 <= j < g.Length1 ==> g[i, j].kind == Road
    ensures GridCount(g, g.Length0) == 0 ==> OverallThermal(g) == DefaultThermal
  {
    GridCountZeroIff(g, g.Length0);
    if GridCount(g, g.Length0) != 0 {
      var i :| 0 <= i < g.Length0 && !RowAllRoad(g, i, g.Length1);
      var j :| 0 <= j < g.Length1 && g[i, j].kind != Road;
    } else {
      forall i, j | 0 <= i < g.Length0 && 0 <= j < g.Length1 ensures g[i, j].kind == Road {
        assert RowAllRoad(g, i, g.Length1);
      }
    }
  }

  lemma {:induction false} RowCountNoRoad(g: array2<Block?>, i: nat, j: nat)
    requires Populated(g) && i < g.Length0 && j <= g.Length1
    requires forall j' :: 0 <= j' < j ==> g[i, j'].kind != Road
    ensures RowCount(g, i, j) == j
  {
    if j > 0 {
      RowCountNoRoad(g, i, j - 1);
    }
  }

  lemma {:induction false} GridCountNoRoad(g: array2<Block?>, i: nat)
    requires Populated(g) && i <= g.Length0
    requires forall i', j :: 0 <= i' < i && 0 <= j < g.Length1 ==> g[i', j].kind != Road
    ensures GridCount(g, i) == i * g.Length1
  {
    if i > 0 {
      GridCountNoRoad(g, i - 1);
      RowCountNoRoad(g, i - 1, g.Length1);
    }
  }

  /** Without roads every block is counted, so the divisor is height times width. */
  lemma OverallThermalNoRoads(g: array2<Block?>)
    requires Populated(g) && g.Length0 > 0 && g.Length1 > 0
    requires forall i, j :: 0 <= i < g.Length0 && 0 <= j < g.Length1 ==> g[i, j].kind != Road
    ensures OverallThermal(g) == (Baseline + GridSum(g, g.Length0)) / (g.Length0 * g.Length1) as real
  {
    GridCountNoRoad(g, g.Length0);
  }

  // ---------------------------------------------------------------------------
  // Views

  /** The thermal value the view shows for a block: `overall` for a road, else its own. */
  function ShownThermal(b: Block, overall: real): real
    reads b
  {
    if b.kind == Road then overall else b.AggregateThermal()
  }

  /**
   * `generate_views`: a height x width x 3 colour view and a height x width
   * thermal view, every cell written; road cells show `overall`, every other
   * cell its own thermal value. The grid is only read.
   */
  method GenerateViews(g: array2<Block?>, overall: real) returns (rgbView: array3<real>, thermalView: array2<real>)
    requires Populated(g)
    ensures fresh(rgbView) && fresh(thermalView)
    ensures rgbView.Length0 == g.Length0 && rgbView.Length1 == g.Length1 && rgbView.Length2 == 3
    ensures thermalView.Length0 == g.Length0 && thermalView.Length1 == g.Length1
    ensures forall i, j :: 0 <= i < g.Length0 && 0 <= j < g.Length1 ==>
      && rgbView[i, j, 0] == g[i, j].AggregateColor().r
      && rgbView[i, j, 1] == g[i, j].AggregateColor().g
      && rgbView[i, j, 2] == g[i, j].AggregateColor().b
      && thermalView[i, j] == ShownThermal(g[i, j], overall)
  {
    var height, width := g.Length0, g.Length1;
    rgbView := new real[height, width, 3];
    thermalView := new real[height, width];
    for i := 0 to height
      invariant forall i', j' :: 0 <= i' < i && 0 <= j' < width ==>
        && rgbView[i', j', 0] == g[i', j'].AggregateColor().r
        && rgbView[i', j', 1] == g[i', j'].AggregateColor().g
        && rgbView[i', j', 2] == g[i', j'].AggregateColor().b
        && thermalView[i', j'] == ShownThermal(g[i', j'], overall)
    {
      for j := 0 to width
        invariant forall i', j' :: 0 <= i' < height && 0 <= j' < width && (i' < i || (i' == i && j' < j)) ==>
          && rgbView[i', j', 0] == g[i', j'].AggregateColor().r
          && rgbView[i', j', 1] == g[i', j'].AggregateColor().g
          && rgbView[i', j', 2] == g[i', j'].AggregateColor().b
          && thermalView[i', j'] == ShownThermal(g[i', j'], overall)
      {
        var b := g[i, j];
        var c := b.AggregateColor();
        rgbView[i, j, 0], rgbView[i, j, 1], rgbView[i, j, 2] := c.r, c.g, c.b;
        if b.kind == Road {
          thermalView[i, j] := overall;
        } else {
          thermalView[i, j] := b.AggregateThermal();
        }
      }
    }
  }
}
