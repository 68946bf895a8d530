/**
 * The colour a node gets from the two display toggles ("52 week high" and
 * "1Y Returns %") and the stock's data.
 */
module NodeColor {
  import opened Records

  const HighBlue: string := "#248FE1"
  const BrightGreen: string := "#5CF989"
  const DarkGreen: string := "#2D7B43"
  const LossRed: string := "#C83B3B"
  /** The flag that tells the renderer to use the node's texture instead of a colour. */
  const Texture: string := "TEXTURE"

  const HighThreshold: real := 0.95

  /**
   * isAt52WeekHigh: price / weekHigh52 >= 0.95 under JavaScript division.
   * Dividing by zero gives +Infinity for a positive price (so the test
   * passes), NaN for a zero price and -Infinity for a negative one (so it fails).
   */
  predicate IsAt52WeekHigh(price: real, weekHigh52: real)
    ensures weekHigh52 > 0.0 ==> (IsAt52WeekHigh(price, weekHigh52) <==> price >= HighThreshold * weekHigh52)
    ensures weekHigh52 < 0.0 ==> (IsAt52WeekHigh(price, weekHigh52) <==> price <= HighThreshold * weekHigh52)
    ensures weekHigh52 == 0.0 ==> (IsAt52WeekHigh(price, weekHigh52) <==> price > 0.0)
  {
    if weekHigh52 == 0.0 then price > 0.0
    else
      QuotientFacts(price, weekHigh52);
      price / weekHigh52 >= HighThreshold
  }

  lemma {:induction false} QuotientFacts(p: real, w: real)
    requires w != 0.0
    ensures w > 0.0 ==> (p / w >= HighThreshold <==> p >= HighThreshold * w)
    ensures w < 0.0 ==> (p / w >= HighThreshold <==> p <= HighThreshold * w)
  {
    var q := p / w;
    assert p == q * w;
    if w > 0.0 {
      if q >= HighThreshold {
        assert q * w >= HighThreshold * w;
      } else {
        assert q * w < HighThreshold * w;
      }
    } else {
      if q >= HighThreshold {
        assert q * w <= HighThreshold * w;
      } else {
        assert q * w > HighThreshold * w;
      }
    }
  }

  function At52WeekHigh(stock: Stock): bool
  {
    IsAt52WeekHigh(stock.price, stock.weekHigh52)
  }

  /**
   * getNodeColor. Blue exactly when the 52-week toggle is on and the stock is
   * at its high; the texture exactly when, short of that, the returns toggle
   * is off; otherwise the returns colour: bright green above 10 %, dark green
   * from 0 % to 10 %, red below 0 %.
   */
  function GetNodeColor(show52WeekHigh: bool, show1YReturns: bool, stock: Stock): (c: string)
    ensures c == HighBlue <==> show52WeekHigh && At52WeekHigh(stock)
    ensures c == Texture <==> !show1YReturns && !(show52WeekHigh && At52WeekHigh(stock))
    ensures show1YReturns && !(show52WeekHigh && At52WeekHigh(stock)) ==>
              && (c == BrightGreen <==> stock.returns1Y > 10.0)
              && (c == DarkGreen <==> 0.0 <= stock.returns1Y <= 10.0)
              && (c == LossRed <==> stock.returns1Y < 0.0)
  {
    if show52WeekHigh && !show1YReturns then
      (if At52WeekHigh(stock) then HighBlue else Texture)
    else if show52WeekHigh && At52WeekHigh(stock) then
      HighBlue
    else if show1YReturns then
      var returns1Y := stock.returns1Y;
      if returns1Y > 10.0 then BrightGreen
      else if returns1Y >= 0.0 then DarkGreen
      else LossRed
    else
      Texture
  }
}
