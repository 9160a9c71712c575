# City-block grid model

A Dafny model of the grid-aggregation pipeline of a synthetic city-block map
(`code.py`). A map is a height × width grid of blocks. A block has a position,
a type (`"house"`, `"road"`, `"tree"` or any other string), a background colour
fixed from that type when the block is made, and an append-only list of items.
An item has a name, an integer RGB colour and a thermal value. The code keeps
`"tree"` as a type string of its own. For the background it falls into the
default branch together with every unknown string (black), and it differs from
them only in the label the colour-to-name table shows.

- `items.dfy`, module `Items`: items, integer colours (`Color`, channels
  0..255) and normalised colours (`Rgb`, channels divided by 255). It also holds
  the channel-wise colour mean and the thermal mean over a list of items.
- `blocks.dfy`, module `Blocks`: the block type, the background colour, the
  colour-to-name table, and the class `Block`. In `Block`, position, type and
  background are constants and `items` is the only field that changes.
  `AddItem` appends to `items`. `AggregateColor`, `AggregateThermal` and
  `ItemNames` are functions of the block's state.
- `citymap.dfy`, module `CityMap`: the grid as an `array2<Block?>` (the source
  allocates an empty object array and fills it), and three methods:
  - `CreateMap` fills the grid in row-major order.
  - `CalculateOverallThermal` accumulates over the non-road blocks.
  - `GenerateViews` fills a fresh height × width × 3 colour array and a
    height × width thermal array.

Each method is proved against pure functions:
- `Before`, `Place`, `CellAt` and `PlacedBefore` give the counters and the
  contents of every cell of a population run.
- `RowSum`, `RowCount`, `GridSum`, `GridCount` and `OverallThermal` define the
  overall thermal value.
- `ShownThermal` gives what the thermal view shows for a block.

All arithmetic is exact. Colour channels are integers. Normalised channels,
means and thermal values are `real`, and every division in the model is an
exact real quotient (the code divides floating-point numbers, which round).

The random house-or-tree draw is the parameter `isHouse(i, j)` of `CreateMap`.
It is consulted only for cells outside the road columns, so a population run
is a deterministic function of its inputs.

## Model

| member | source | states |
|---|---|---|
| `Items.Normalize` | code.py:11-12 | An item's colour divided by 255 has every channel in [0, 1]. |
| `Items.NormalizeInjective` | code.py:11-12 | Two colours normalise to the same triple if and only if they are equal, so item colours and their normalised keys correspond one to one. |
| `Items.MeanChannelBounds` | code.py:37 | The mean of one normalised channel over a non-empty item list lies in [0, 1]. |
| `Items.MeanRgb` | code.py:37-38 | The channel-wise mean of the items' normalised colours lies in the unit cube. |
| `Items.MeanRgbOfUniform` | code.py:37-38 | If every item has colour c, the mean colour is exactly c / 255. |
| `Items.MeanThermalWithin` | code.py:43-44 | If every item's thermal value lies in [lo, hi], the mean lies in [lo, hi]. |
| `Items.MeanThermalBetweenExtremes` | code.py:43-44 | The mean thermal value lies between the smallest and the largest item value. |
| `Items.MeanThermalOfUniform` | code.py:43-44 | If every item has thermal value t, the mean is t. |
| `Blocks.KindOf` | code.py:18-21 | Classifying a type string loses nothing: `Label` gives the string back, and the result is `Other` exactly for strings other than "house", "road" and "tree". |
| `Blocks.KindOfLabel` | code.py:24-29 | Classifying the label of any type a string can produce gives that type back. |
| `Blocks.BackgroundByType` | code.py:24-29 | The background is white (255,255,255) if and only if the type is house. It is grey (128,128,128) if and only if the type is road. It is black (0,0,0) for every other type, tree included. |
| `Blocks.NameMap` | code.py:48 | The colour-to-name table has as keys exactly the set of the items' normalised colours. |
| `Blocks.NameMapLastWins` | code.py:48 | A colour maps to the name of the last item in list order that has it. |
| `Blocks.Block.constructor` | code.py:18-22 | A new block has the given position, the type classified from the given string (default "house"), no items, and the background chosen by `Background` from that type. |
| `Blocks.Block.AddItem` | code.py:31-32 | The new item list is the old one with the item appended. Position, type and background are constants and cannot change. |
| `Blocks.Block.AggregateColor` | code.py:34-38 | The block's colour has every channel in [0, 1]. It is the normalised background for an empty block, otherwise `MeanRgb` of the items. |
| `Blocks.Block.AggregateThermal` | code.py:40-44 | An empty block has thermal value 25. Otherwise the value lies between the smallest and the largest item thermal value. |
| `Blocks.Block.ItemNames` | code.py:46-50 | An empty block gives a one-entry table mapping its normalised background to its type string. Otherwise the keys are exactly the items' normalised colours. |
| `CityMap.AdvanceTallies` | code.py:61-76 | Each cell's counter update adds exactly one house for a house cell, and exactly the number of Tree items the cell received. |
| `CityMap.CountersTally` | code.py:55-76 | Before every cell, `house_count` equals the number of house cells placed so far and `tree_count` the number of Tree items placed so far. |
| `CityMap.HousesNeverOutrunTrees` | code.py:55-76 | `house_count <= tree_count + 1` holds before every cell. |
| `CityMap.HouseGetsTreeIff` | code.py:67-72 | A house cell receives a Tree item if and only if more house cells than Tree items have been placed before it. Otherwise it stays empty. |
| `CityMap.CellLayout` | code.py:61-76 | Cells in columns with 3 < j < 6 are roads with no items. Every other cell is a house or a tree as drawn. A tree holds exactly one Tree item, a house at most one. |
| `CityMap.TreeCellAggregates` | code.py:69-70 | A block holding one Tree item shows colour (0, 128/255, 0) and thermal value -1. |
| `CityMap.CreateMap` | code.py:53-79 | The result is a fresh height × width grid of fresh blocks. Block (i, j) has position (i, j), its type and items are what `CellAt` prescribes, and its background is the one its type fixes. |
| `CityMap.CalculateOverallThermal` | code.py:81-91 | The result equals `OverallThermal`: (10 + the sum of the non-road thermal values) / their count, or 25 when the count is 0. |
| `CityMap.GridCountZeroIff` | code.py:85-89 | No block is counted if and only if every row consists of roads only. |
| `CityMap.OverallThermalFallback` | code.py:91 | The count is 0 exactly when every block is a road (an empty grid included). Then the overall value is 25, and no division happens. |
| `CityMap.OverallThermalNoRoads` | code.py:85-91 | On a non-empty grid without roads, the divisor is height × width. |
| `CityMap.GenerateViews` | code.py:93-106 | Both views are fresh and have the grid's shape (three channels for colour). Every cell is written. Colour cell (i, j) holds the block's aggregate colour. Thermal cell (i, j) holds `overall` for a road and the block's own thermal value otherwise. The grid is only read. |

## Left out

- `draw_map` and its hover handler (code.py:108-150): matplotlib drawing, colour bar and tooltip wiring. The nearest-colour search in the handler uses a floating-point norm and dict iteration order.
- The `__main__` entry point (code.py:152-158): it fixes a 10 × 10 grid and calls the pipeline.
- `random.random()` and the 0.3 threshold (code.py:64): the draw is the `isHouse` input, and its probability is not modelled.
- IEEE floating point (numpy arrays and means): the model computes with exact reals, so rounding is not captured.
- `Item.get_thermal_value` (code.py:14-15) is the datatype field `thermal`. `Item.get_rgb` is `Normalize` of the item's colour.
- Item colours are restricted to channels in 0..255: every colour the code builds lies in that range (the Tree item's (0,128,0) at code.py:69 and code.py:74, and the backgrounds at code.py:26-29). The source itself does not check the range.
- Negative grid dimensions: the dimensions are `nat`. The source fails on them when it allocates the array.
- `CityMap.CalculateOverallThermal`, `CityMap.GenerateViews`: these take a grid whose every cell holds a block (`Populated`). The source would fail on an empty cell, and `CreateMap` always fills every cell.
- `Blocks.Block.AggregateThermal`: its contract bounds the mean between the extreme item values instead of restating it. The exact mean is the function body, `MeanThermal`.
