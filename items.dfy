/**
 * Items that can be placed on a block of the city map: a name, an integer RGB
 * colour and a thermal value, plus the channel-wise and thermal means that a
 * block takes over its items.
 *
 * All arithmetic is exact: colour channels are integers in 0..255, normalised
 * channels and thermal values are reals.
 */
module Items {

  /** One colour channel, an integer in 0..255. */
  type Channel = x: int | 0 <= x <= 255

  /** An integer RGB colour. */
  datatype Color = Color(r: Channel, g: Channel, b: Channel)

  /** A colour with every channel divided by 255. */
  datatype Rgb = Rgb(r: real, g: real, b: real)

  /** A placeable object; `thermal` is what `get_thermal_value` returns. */
  datatype Item = Item(name: string, color: Color, thermal: real)

  /** Every channel lies in [0, 1]. */
  predicate InUnitCube(c: Rgb) {
    && 0.0 <= c.r <= 1.0
    && 0.0 <= c.g <= 1.0
    && 0.0 <= c.b <= 1.0
  }

  /** The colour with each channel divided by 255 (`get_rgb` of an item). */
  function Normalize(c: Color): (n: Rgb)
    ensures InUnitCube(n)
  {
    Rgb(c.r as real / 255.0, c.g as real / 255.0, c.b as real / 255.0)
  }

  /** Two colours normalise to the same triple exactly when they are equal. */
  lemma NormalizeInjective(a: Color, b: Color)
    ensures Normalize(a) == Normalize(b) <==> a == b
  {
  }

  /** Channel `k` of a normalised colour: 0 is red, 1 green, 2 blue. */
  function Chan(c: Rgb, k: nat): real
    requires k < 3
  {
    if k == 0 then c.r else if k == 1 then c.g else c.b
  }

  /** Sum over the items of channel `k` of their normalised colours. */
  function SumChannel(items: seq<Item>, k: nat): real
    requires k < 3
  {
    if items == [] then 0.0 else Chan(Normalize(items[0].color), k) + SumChannel(items[1..], k)
  }

  /** The arithmetic mean over the items of channel `k` of their normalised colours. */
  function MeanChannel(items: seq<Item>, k: nat): real
    requires items != [] && k < 3
  {
    SumChannel(items, k) / |items| as real
  }

  /** A channel sum lies between 0 and the number of items. */
  lemma {:induction false} SumChannelBounds(items: seq<Item>, k: nat)
    requires k < 3
    ensures 0.0 <= SumChannel(items, k) <= |items| as real
  {
    if items != [] {
      SumChannelBounds(items[1..], k);
    }
  }

  /** A channel mean lies in [0, 1]. */
  lemma MeanChannelBounds(items: seq<Item>, k: nat)
    requires items != [] && k < 3
    ensures 0.0 <= MeanChannel(items, k) <= 1.0
  {
    SumChannelBounds(items, k);
  }

  /** The channel-wise arithmetic mean of the items' normalised colours. */
  function MeanRgb(items: seq<Item>): (m: Rgb)
    requires items != []
    ensures InUnitCube(m)
  {
    MeanChannelBounds(items, 0);
    MeanChannelBounds(items, 1);
    MeanChannelBounds(items, 2);
    Rgb(MeanChannel(items, 0), MeanChannel(items, 1), MeanChannel(items, 2))
  }

  /** When every item has colour `c`, a channel sum is `|items|` times that channel of `c`. */
  lemma {:induction false} SumChannelOfUniform(items: seq<Item>, c: Color, k: nat)
    requires k < 3
    requires forall i :: 0 <= i < |items| ==> items[i].color == c
    ensures SumChannel(items, k) == |items| as real * Chan(Normalize(c), k)
  {
    if items != [] {
      SumChannelOfUniform(items[1..], c, k);
      AddOneMore(|items[1..]| as real, Chan(Normalize(c), k));
    }
  }

  /** One step of the uniform sum, kept apart so the nonlinear real step stays stable. */
  lemma AddOneMore(m: real, x: real)
    ensures x + m * x == (m + 1.0) * x
  {
  }

  /** When every item has colour `c`, the mean colour is `Normalize(c)`. */
  lemma MeanRgbOfUniform(items: seq<Item>, c: Color)
    requires items != []
    requires forall i :: 0 <= i < |items| ==> items[i].color == c
    ensures MeanRgb(items) == Normalize(c)
  {
    var n, u := |items| as real, Normalize(c);
    SumChannelOfUniform(items, c, 0);
    SumChannelOfUniform(items, c, 1);
    SumChannelOfUniform(items, c, 2);
    QuotientOfMultiple(SumChannel(items, 0), n, u.r);
    QuotientOfMultiple(SumChannel(items, 1), n, u.g);
    QuotientOfMultiple(SumChannel(items, 2), n, u.b);
  }

  /** Dividing n * x by n gives x, kept apart so the nonlinear real step stays stable. */
  lemma QuotientOfMultiple(s: real, n: real, x: real)
    requires n > 0.0 && s == n * x
    ensures s / n == x
  {
  }

  /** Sum of the items' thermal values. */
  function SumThermal(items: seq<Item>): real {
    if items == [] then 0.0 else items[0].thermal + SumThermal(items[1..])
  }

  /** The arithmetic mean of the items' thermal values. */
  function MeanThermal(items: seq<Item>): real
    requires items != []
  {
    SumThermal(items) / |items| as real
  }

  /** Every item's thermal value lies in [lo, hi]. */
  predicate ThermalWithin(items: seq<Item>, lo: real, hi: real) {
    forall k :: 0 <= k < |items| ==> lo <= items[k].thermal <= hi
  }

  lemma {:induction false} SumThermalBounds(items: seq<Item>, lo: real, hi: real)
    requires ThermalWithin(items, lo, hi)
    ensures |items| as real * lo <= SumThermal(items) <= |items| as real * hi
  {
    if items != [] {
      assert ThermalWithin(items[1..], lo, hi);
      SumThermalBounds(items[1..], lo, hi);
    }
  }

  /** The mean thermal value lies within any bounds that hold of every item. */
  lemma MeanThermalWithin(items: seq<Item>, lo: real, hi: real)
    requires items != []
    requires ThermalWithin(items, lo, hi)
    ensures lo <= MeanThermal(items) <= hi
  {
    SumThermalBounds(items, lo, hi);
    var n := |items| as real;
    assert n * lo / n == lo && n * hi / n == hi;
  }

  /** The smallest thermal value among the items. */
  function MinThermal(items: seq<Item>): (t: real)
    requires items != []
    ensures exists k :: 0 <= k < |items| && items[k].thermal == t
    ensures forall k :: 0 <= k < |items| ==> t <= items[k].thermal
  {
    if |items| == 1 then items[0].thermal
    else
      var rest := MinThermal(items[1..]);
      if items[0].thermal <= rest then items[0].thermal else rest
  }

  /** The largest thermal value among the items. */
  function MaxThermal(items: seq<Item>): (t: real)
    requires items != []
    ensures exists k :: 0 <= k < |items| && items[k].thermal == t
    ensures forall k :: 0 <= k < |items| ==> items[k].thermal <= t
  {
    if |items| == 1 then items[0].thermal
    else
      var rest := MaxThermal(items[1..]);
      if items[0].thermal >= rest then items[0].thermal else rest
  }

  /** The mean thermal value lies between the smallest and the largest item value. */
  lemma MeanThermalBetweenExtremes(items: seq<Item>)
    requires items != []
    ensures MinThermal(items) <= MeanThermal(items) <= MaxThermal(items)
  {
    MeanThermalWithin(items, MinThermal(items), MaxThermal(items));
  }

  /** When every item has thermal value `t`, so does the mean. */
  lemma MeanThermalOfUniform(items: seq<Item>, t: real)
    requires items != []
    requires forall k :: 0 <= k < |items| ==> items[k].thermal == t
    ensures MeanThermal(items) == t
  {
    MeanThermalWithin(items, t, t);
  }
}
