/**
 * Market-capitalisation categories and the node radius each one gets.
 */
module MarketCap {

  const SmallCap: string := "Small Cap"
  const MidCap: string := "Mid Cap"
  const LargeCap: string := "Large Cap"

  const Trillion: real := 1000000000000.0

  /** Category boundaries: 1.2 trillion and 7 trillion. */
  const MidCapFloor: real := 1.2 * Trillion
  const LargeCapFloor: real := 7.0 * Trillion

  /** determineMarketCapCategory: each value falls in exactly one of three half-open bands. */
  function DetermineMarketCapCategory(value: real): (c: string)
    ensures c == LargeCap <==> value >= LargeCapFloor
    ensures c == MidCap <==> MidCapFloor <= value < LargeCapFloor
    ensures c == SmallCap <==> value < MidCapFloor
  {
    if value >= LargeCapFloor then LargeCap
    else if value >= MidCapFloor then MidCap
    else SmallCap
  }

  /** The position of a category in the order small < mid < large. */
  function Rank(category: string): nat
  {
    if category == LargeCap then 2 else if category == MidCap then 1 else 0
  }

  /** A larger market value never lands in a smaller category. */
  lemma {:induction false} CategoryMonotone(v1: real, v2: real)
    requires v1 <= v2
    ensures Rank(DetermineMarketCapCategory(v1)) <= Rank(DetermineMarketCapCategory(v2))
  {
  }

  /** Whether getNodeSizeByMarketCap calls Math.random for this category. */
  predicate UsesDraw(category: string)
  {
    category == SmallCap || category == MidCap || category == LargeCap
  }

  /** The radius of an unknown category. */
  const DefaultNodeSize: real := 0.65

  /**
   * getNodeSizeByMarketCap, with the value Math.random returned passed as
   * `draw` (it is ignored for a category that does not use it). With a draw
   * in [0, 1) each known category gets a radius in its own band.
   */
  function NodeSizeByMarketCap(category: string, draw: real): (s: real)
    ensures !UsesDraw(category) ==> s == DefaultNodeSize
    ensures 0.0 <= draw < 1.0 && category == SmallCap ==> 0.5 <= s < 0.6
    ensures 0.0 <= draw < 1.0 && category == MidCap ==> 1.1 <= s < 1.2
    ensures 0.0 <= draw < 1.0 && category == LargeCap ==> 2.4 <= s < 2.7
  {
    if category == SmallCap then 0.5 + draw * 0.1
    else if category == MidCap then 1.1 + draw * 0.1
    else if category == LargeCap then 2.4 + draw * 0.3
    else DefaultNodeSize
  }

  /**
   * Whatever the draws, a larger category always gets a strictly larger
   * radius, and the default radius sits between the small and the mid band.
   */
  lemma {:induction false} SizesOrderedByCategory(c1: string, d1: real, c2: string, d2: real)
    requires UsesDraw(c1) && UsesDraw(c2)
    requires 0.0 <= d1 < 1.0 && 0.0 <= d2 < 1.0
    requires Rank(c1) < Rank(c2)
    ensures NodeSizeByMarketCap(c1, d1) < NodeSizeByMarketCap(c2, d2)
    ensures c1 == SmallCap ==> NodeSizeByMarketCap(c1, d1) < DefaultNodeSize
    ensures c2 == MidCap ==> DefaultNodeSize < NodeSizeByMarketCap(c2, d2)
  {
    assert c1 == SmallCap || c1 == MidCap;
    assert c2 == MidCap || c2 == LargeCap;
  }
}
