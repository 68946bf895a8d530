/**
 * The records the layout engine consumes and produces.
 */
module Records {
  import opened Geometry

  datatype Option<T> = None | Some(value: T)

  /**
   * A stock as the visualisation holds it after transformation. Only the
   * fields the modelled operations read are kept; `returns1Y` is the parsed
   * one-year return in percent.
   */
  datatype Stock = Stock(
    symbol: string,
    sector: string,
    marketCapCategory: string,
    price: real,
    weekHigh52: real,
    returns1Y: real)

  /** One `{position, size, stock}` entry of the engine's output. */
  datatype PlacedPoint = PlacedPoint(position: Vec3, size: real, stock: Stock)

  /** The stocks of a list of placed points, in order. */
  function StocksOf(points: seq<PlacedPoint>): (r: seq<Stock>)
    ensures |r| == |points|
    ensures forall i :: 0 <= i < |points| ==> r[i] == points[i].stock
  {
    if |points| == 0 then [] else StocksOf(points[..|points| - 1]) + [points[|points| - 1].stock]
  }

  lemma {:induction false} StocksOfAppend(points: seq<PlacedPoint>, p: PlacedPoint)
    ensures StocksOf(points + [p]) == StocksOf(points) + [p.stock]
  {
    assert (points + [p])[..|points|] == points;
  }

  lemma {:induction false} StocksOfConcat(a: seq<PlacedPoint>, b: seq<PlacedPoint>)
    ensures StocksOf(a + b) == StocksOf(a) + StocksOf(b)
  {
    assert forall i :: 0 <= i < |a + b| ==> StocksOf(a + b)[i] == (StocksOf(a) + StocksOf(b))[i];
  }
}
