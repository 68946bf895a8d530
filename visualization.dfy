/**
 * The visualisation object's own bookkeeping around the layout engine: the
 * loaded and filtered stock lists, the memoised position and size store
 * keyed by symbol, and the animation-speed save and restore done when a node
 * is selected and deselected. Rendering is not part of this model.
 */
module Visualization {
  import opened Geometry
  import opened Records
  import opened Placement
  import opened LayoutProperties
  import opened Clusters

  /** The drop-down value that disables a filter. */
  const All: string := "All"
  /** The cap on the number of nodes drawn after a filter change. */
  const MaxNodeCount: nat := 100
  const DefaultNodeCount: nat := 50
  const DefaultAnimationSpeed: real := 0.1

  // ---------------------------------------------------------------------
  // Filtering
  // ---------------------------------------------------------------------

  /** Array.prototype.filter: the stocks satisfying keep, in their order. */
  function KeepWhere(stocks: seq<Stock>, keep: Stock -> bool): seq<Stock>
  {
    if |stocks| == 0 then []
    else KeepWhere(stocks[..|stocks| - 1], keep) + (if keep(stocks[|stocks| - 1]) then [stocks[|stocks| - 1]] else [])
  }

  function SectorIs(sector: string): Stock -> bool
  {
    (s: Stock) => s.sector == sector
  }

  function MarketCapIs(marketCap: string): Stock -> bool
  {
    (s: Stock) => s.marketCapCategory == marketCap
  }

  function FilterBySector(stocks: seq<Stock>, sector: string): seq<Stock>
  {
    if sector == All then stocks else KeepWhere(stocks, SectorIs(sector))
  }

  function FilterByMarketCap(stocks: seq<Stock>, marketCap: string): seq<Stock>
  {
    if marketCap == All then stocks else KeepWhere(stocks, MarketCapIs(marketCap))
  }

  /** filterStocks: the sector filter, then the market-cap filter. */
  function Filtered(stocks: seq<Stock>, sector: string, marketCap: string): seq<Stock>
  {
    FilterByMarketCap(FilterBySector(stocks, sector), marketCap)
  }

  /** The selection a stock must meet to survive both filters. */
  predicate Matches(s: Stock, sector: string, marketCap: string)
  {
    (sector == All || s.sector == sector) && (marketCap == All || s.marketCapCategory == marketCap)
  }

  /** The number of nodes drawn: the filtered count, capped at 100. */
  function NodeCountFor(filteredCount: nat): (c: nat)
    ensures c <= MaxNodeCount && c <= filteredCount
    ensures c == filteredCount || c == MaxNodeCount
  {
    if filteredCount < MaxNodeCount then filteredCount else MaxNodeCount
  }

  lemma KeepWhereSnoc(stocks: seq<Stock>, x: Stock, keep: Stock -> bool)
    ensures KeepWhere(stocks + [x], keep) == KeepWhere(stocks, keep) + (if keep(x) then [x] else [])
  {
    assert (stocks + [x])[..|stocks|] == stocks;
  }

  /** Filtering works element by element: it distributes over concatenation. */
  lemma {:induction false} KeepWhereConcat(a: seq<Stock>, b: seq<Stock>, keep: Stock -> bool)
    ensures KeepWhere(a + b, keep) == KeepWhere(a, keep) + KeepWhere(b, keep)
    decreases |b|
  {
    if |b| == 0 {
      assert a + b == a;
    } else {
      var init, x := b[..|b| - 1], b[|b| - 1];
      assert b == init + [x];
      assert a + b == (a + init) + [x];
      KeepWhereSnoc(a + init, x, keep);
      KeepWhereConcat(a, init, keep);
      KeepWhereSnoc(init, x, keep);
    }
  }

  lemma {:induction false} KeepWhereMembers(stocks: seq<Stock>, keep: Stock -> bool, x: Stock)
    ensures x in KeepWhere(stocks, keep) <==> x in stocks && keep(x)
    decreases |stocks|
  {
    if |stocks| > 0 {
      var init := stocks[..|stocks| - 1];
      assert stocks == init + [stocks[|stocks| - 1]];
      KeepWhereMembers(init, keep, x);
    }
  }

  /** A stock survives filterStocks exactly when it is loaded and matches the selection. */
  lemma FilteredMembers(stocks: seq<Stock>, sector: string, marketCap: string, x: Stock)
    ensures x in Filtered(stocks, sector, marketCap) <==> x in stocks && Matches(x, sector, marketCap)
  {
    if sector != All {
      KeepWhereMembers(stocks, SectorIs(sector), x);
    }
    if marketCap != All {
      KeepWhereMembers(FilterBySector(stocks, sector), MarketCapIs(marketCap), x);
    }
  }

  /**
   * filterStocks keeps input order: filtering a concatenation is the
   * concatenation of the filtered parts, and a single stock is kept iff it
   * matches. Together these pin the result down as the ordered subsequence
   * of matching stocks.
   */
  lemma FilteredConcat(a: seq<Stock>, b: seq<Stock>, sector: string, marketCap: string)
    ensures Filtered(a + b, sector, marketCap) == Filtered(a, sector, marketCap) + Filtered(b, sector, marketCap)
  {
    if sector != All {
      KeepWhereConcat(a, b, SectorIs(sector));
    }
    if marketCap != All {
      KeepWhereConcat(FilterBySector(a, sector), FilterBySector(b, sector), MarketCapIs(marketCap));
    }
  }

  lemma FilteredSingle(x: Stock, sector: string, marketCap: string)
    ensures Filtered([x], sector, marketCap) == if Matches(x, sector, marketCap) then [x] else []
  {
    if sector != All {
      KeepWhereSnoc([], x, SectorIs(sector));
      assert [] + [x] == [x];
    }
    if marketCap != All {
      var afterSector := FilterBySector([x], sector);
      if afterSector == [x] {
        KeepWhereSnoc([], x, MarketCapIs(marketCap));
        assert [] + [x] == [x];
      }
    }
  }

  /** With both filters on "All" the filtered list is the loaded list. */
  lemma FilteredAllIsIdentity(stocks: seq<Stock>)
    ensures Filtered(stocks, All, All) == stocks
  {
  }

  // ---------------------------------------------------------------------
  // Position and size store
  // ---------------------------------------------------------------------

  /** The symbol-keyed position map after setting each point in order. */
  function PositionStore(points: seq<PlacedPoint>): map<string, Vec3>
  {
    if |points| == 0 then map[]
    else PositionStore(points[..|points| - 1])[points[|points| - 1].stock.symbol := points[|points| - 1].position]
  }

  /** The symbol-keyed size map after setting each point in order. */
  function SizeStore(points: seq<PlacedPoint>): map<string, real>
  {
    if |points| == 0 then map[]
    else SizeStore(points[..|points| - 1])[points[|points| - 1].stock.symbol := points[|points| - 1].size]
  }

  function SymbolsOf(points: seq<PlacedPoint>): set<string>
  {
    set i | 0 <= i < |points| :: points[i].stock.symbol
  }

  function SymbolsOfStocks(stocks: seq<Stock>): set<string>
  {
    set s | s in stocks :: s.symbol
  }

  /** Both stores hold exactly the symbols of the placed points. */
  lemma {:induction false} StoreKeys(points: seq<PlacedPoint>)
    ensures PositionStore(points).Keys == SymbolsOf(points)
    ensures SizeStore(points).Keys == SymbolsOf(points)
    decreases |points|
  {
    if |points| > 0 {
      var init := points[..|points| - 1];
      StoreKeys(init);
      forall sym | sym in SymbolsOf(points)
        ensures sym in SymbolsOf(init) + {points[|points| - 1].stock.symbol}
      {
        var i :| 0 <= i < |points| && points[i].stock.symbol == sym;
        if i < |points| - 1 {
          assert init[i] == points[i];
        }
      }
      forall sym | sym in SymbolsOf(init)
        ensures sym in SymbolsOf(points)
      {
        var i :| 0 <= i < |init| && init[i].stock.symbol == sym;
        assert points[i] == init[i];
      }
    }
  }

  /**
   * A later entry for the same symbol overwrites an earlier one: the store
   * holds the position and size of the last point carrying each symbol.
   */
  lemma {:induction false} StoreLastWins(points: seq<PlacedPoint>, i: nat)
    requires i < |points|
    requires forall j :: i < j < |points| ==> points[j].stock.symbol != points[i].stock.symbol
    ensures points[i].stock.symbol in PositionStore(points) && points[i].stock.symbol in SizeStore(points)
    ensures PositionStore(points)[points[i].stock.symbol] == points[i].position
    ensures SizeStore(points)[points[i].stock.symbol] == points[i].size
    decreases |points|
  {
    if i < |points| - 1 {
      var init := points[..|points| - 1];
      assert init[i] == points[i];
      forall j | i < j < |init|
        ensures init[j].stock.symbol != init[i].stock.symbol
      {
        assert init[j] == points[j];
      }
      StoreLastWins(init, i);
      assert points[|points| - 1].stock.symbol != points[i].stock.symbol;
    }
  }

  /**
   * Stores built from any arrangement of the loaded stocks (such as the
   * layout's output, which holds each of them exactly once) are keyed by
   * exactly the loaded symbols.
   */
  lemma StoreCoversStocks(points: seq<PlacedPoint>, stocks: seq<Stock>)
    requires multiset(StocksOf(points)) == multiset(stocks)
    ensures PositionStore(points).Keys == SymbolsOfStocks(stocks)
    ensures SizeStore(points).Keys == SymbolsOfStocks(stocks)
  {
    StoreKeys(points);
    var placed := StocksOf(points);
    forall sym | sym in SymbolsOf(points)
      ensures sym in SymbolsOfStocks(stocks)
    {
      var i :| 0 <= i < |points| && points[i].stock.symbol == sym;
      assert placed[i] in multiset(placed);
    }
    forall sym | sym in SymbolsOfStocks(stocks)
      ensures sym in SymbolsOf(points)
    {
      var s :| s in stocks && s.symbol == sym;
      assert s in multiset(placed);
      var i :| 0 <= i < |placed| && placed[i] == s;
      assert points[i].stock.symbol == sym;
    }
  }

  /** The forEach that sets each point's position and size under its symbol. */
  method BuildStore(points: seq<PlacedPoint>) returns (positions: map<string, Vec3>, sizes: map<string, real>)
    ensures positions == PositionStore(points) && sizes == SizeStore(points)
  {
    positions, sizes := map[], map[];
    for i := 0 to |points|
      invariant positions == PositionStore(points[..i])
      invariant sizes == SizeStore(points[..i])
    {
      assert points[..i + 1][..i] == points[..i];
      var point := points[i];
      positions := positions[point.stock.symbol := point.position];
      sizes := sizes[point.stock.symbol := point.size];
    }
    assert points[..|points|] == points;
  }

  /**
   * Lay out the loaded stocks and build both stores from the result: every
   * loaded symbol gets an entry, and no other symbol does.
   */
  method LayOutStore(env: Env, stocks: seq<Stock>, k: nat)
    returns (positions: map<string, Vec3>, sizes: map<string, real>, next: nat)
    ensures var layout := Layout(env, stocks, k);
      && positions == PositionStore(layout.points)
      && sizes == SizeStore(layout.points)
      && next == layout.next
    ensures positions.Keys == SymbolsOfStocks(stocks) && sizes.Keys == SymbolsOfStocks(stocks)
    ensures positions.Keys == sizes.Keys
  {
    var allPoints, _, _, afterLayout := Create3DSectorClusters(env, stocks, k);
    positions, sizes := BuildStore(allPoints);
    next := afterLayout;
    StoreCoversStocks(allPoints, stocks);
  }

  // ---------------------------------------------------------------------
  // Node selection
  // ---------------------------------------------------------------------

  /** The selection-related fields of the visualisation, as a value. */
  datatype Selection = Selection(animationSpeed: real, originalAnimationSpeed: real,
                                 isNodeSelected: bool, selectedNode: Option<Stock>)

  /** selectNode: save the speed unless a node is already selected, then freeze. */
  function Select(s: Selection, node: Stock): Selection
  {
    var saved := if s.isNodeSelected then s.originalAnimationSpeed else s.animationSpeed;
    Selection(0.0, saved, true, Some(node))
  }

  /** deselectNode: with a node selected, restore the saved speed and clear it. */
  function Deselect(s: Selection): Selection
  {
    if !s.isNodeSelected then s
    else Selection(s.originalAnimationSpeed, s.originalAnimationSpeed, false, None)
  }

  predicate ConsistentSelection(s: Selection)
  {
    s.isNodeSelected <==> s.selectedNode.Some?
  }

  /** Selecting freezes the animation and deselecting brings back the speed it had. */
  lemma SelectDeselectRestoresSpeed(s: Selection, node: Stock)
    requires !s.isNodeSelected
    ensures Select(s, node).animationSpeed == 0.0
    ensures Deselect(Select(s, node)).animationSpeed == s.animationSpeed
    ensures !Deselect(Select(s, node)).isNodeSelected && Deselect(Select(s, node)).selectedNode == None
  {
  }

  /**
   * Switching to another node while one is selected keeps the first saved
   * speed, so the frozen 0 is never saved in its place.
   */
  lemma ReselectKeepsSavedSpeed(s: Selection, first: Stock, second: Stock)
    requires !s.isNodeSelected
    ensures Select(Select(s, first), second).originalAnimationSpeed == s.animationSpeed
    ensures Deselect(Select(Select(s, first), second)).animationSpeed == s.animationSpeed
  {
  }

  /** deselectNode does nothing when no node is selected. */
  lemma DeselectWhenIdle(s: Selection)
    requires !s.isNodeSelected
    ensures Deselect(s) == s
  {
  }

  /** Both operations keep the flag and the selected node in step. */
  lemma SelectionStaysConsistent(s: Selection, node: Stock)
    requires ConsistentSelection(s)
    ensures ConsistentSelection(Select(s, node)) && ConsistentSelection(Deselect(s))
  {
  }

  // ---------------------------------------------------------------------
  // The visualisation object
  // ---------------------------------------------------------------------

  class SphereVisualization {
    /** The injected numerics and random stream, and the next unread draw. */
    const env: Env
    var cursor: nat

    var stocks: seq<Stock>
    var filteredStocks: seq<Stock>
    var selectedSector: string
    var selectedMarketCap: string
    var show52WeekHigh: bool
    var show1YReturns: bool
    var nodeCount: nat
    var stockPositions: map<string, Vec3>
    var stockSizes: map<string, real>
    var animationSpeed: real
    var originalAnimationSpeed: real
    var isNodeSelected: bool
    var selectedNode: Option<Stock>

    /**
     * The invariant every operation of the component keeps. No operation
     * needs it to run; it records what the operations maintain: the
     * filtered list comes from the loaded one, every stored position has a
     * stored size, and the selected-node flag is set exactly while a node is
     * held.
     */
    ghost predicate Valid()
      reads this
    {
      ListsValid() && StoreValid() && ConsistentSelection(CurrentSelection())
    }

    /** The filtered list is drawn from the loaded one and the node count is capped. */
    ghost predicate ListsValid()
      reads this`stocks, this`filteredStocks, this`nodeCount
    {
      && nodeCount <= MaxNodeCount
      && (forall s :: s in filteredStocks ==> s in stocks)
    }

    /** Every stored symbol has both a position and a size. */
    ghost predicate StoreValid()
      reads this`stockPositions, this`stockSizes
    {
      stockPositions.Keys == stockSizes.Keys
    }

    function CurrentSelection(): Selection
      reads this`animationSpeed, this`originalAnimationSpeed, this`isNodeSelected, this`selectedNode
    {
      Selection(animationSpeed, originalAnimationSpeed, isNodeSelected, selectedNode)
    }

    constructor(env: Env)
      ensures Valid()
      ensures this.env == env && cursor == 0
      ensures stocks == [] && filteredStocks == []
      ensures selectedSector == All && selectedMarketCap == All
      ensures !show52WeekHigh && !show1YReturns
      ensures nodeCount == DefaultNodeCount
      ensures stockPositions == map[] && stockSizes == map[]
      ensures CurrentSelection() == Selection(DefaultAnimationSpeed, 0.0, false, None)
    {
      this.env := env;
      cursor := 0;
      stocks := [];
      filteredStocks := [];
      selectedSector := All;
      selectedMarketCap := All;
      show52WeekHigh := false;
      show1YReturns := false;
      nodeCount := DefaultNodeCount;
      stockPositions := map[];
      stockSizes := map[];
      animationSpeed := DefaultAnimationSpeed;
      originalAnimationSpeed := 0.0;
      isNodeSelected := false;
      selectedNode := None;
    }

    /** The end of fetchStockData: the fetched (or fallback) list becomes both lists. */
    method LoadStocks(loaded: seq<Stock>)
      requires Valid()
      modifies this`stocks, this`filteredStocks
      ensures Valid()
      ensures stocks == loaded && filteredStocks == loaded
    {
      stocks := loaded;
      filteredStocks := loaded;
    }

    /**
     * filterStocks: recompute the filtered list and the node count. The
     * position store is left alone, so filtering never moves a stock.
     */
    method FilterStocks()
      requires Valid()
      modifies this`filteredStocks, this`nodeCount
      ensures Valid()
      ensures filteredStocks == Filtered(stocks, selectedSector, selectedMarketCap)
      ensures nodeCount == NodeCountFor(|filteredStocks|)
      ensures stockPositions == old(stockPositions) && stockSizes == old(stockSizes)
    {
      var filtered := stocks;
      if selectedSector != All {
        filtered := KeepWhere(filtered, SectorIs(selectedSector));
      }
      if selectedMarketCap != All {
        filtered := KeepWhere(filtered, MarketCapIs(selectedMarketCap));
      }
      filteredStocks := filtered;
      nodeCount := if |filteredStocks| < MaxNodeCount then |filteredStocks| else MaxNodeCount;
      forall x | x in filteredStocks
        ensures x in stocks
      {
        FilteredMembers(stocks, selectedSector, selectedMarketCap, x);
      }
    }

    /** The sector drop-down's change handler, without the redraw. */
    method ChangeSector(sector: string)
      requires Valid()
      modifies this`selectedSector, this`filteredStocks, this`nodeCount
      ensures Valid() && selectedSector == sector
      ensures filteredStocks == Filtered(stocks, sector, selectedMarketCap)
      ensures nodeCount == NodeCountFor(|filteredStocks|)
      ensures stockPositions == old(stockPositions) && stockSizes == old(stockSizes)
    {
      selectedSector := sector;
      FilterStocks();
    }

    /** The market-cap drop-down's change handler, without the redraw. */
    method ChangeMarketCap(marketCap: string)
      requires Valid()
      modifies this`selectedMarketCap, this`filteredStocks, this`nodeCount
      ensures Valid() && selectedMarketCap == marketCap
      ensures filteredStocks == Filtered(stocks, selectedSector, marketCap)
      ensures nodeCount == NodeCountFor(|filteredStocks|)
      ensures stockPositions == old(stockPositions) && stockSizes == old(stockSizes)
    {
      selectedMarketCap := marketCap;
      FilterStocks();
    }

    /**
     * initializePositionsAndSizes: a no-op once the position store holds
     * anything; otherwise lay out the full loaded list (not the filtered one)
     * and key every point's position and size by its symbol.
     */
    method InitializePositionsAndSizes()
      requires Valid()
      modifies this`stockPositions, this`stockSizes, this`cursor
      ensures Valid()
      ensures old(|stockPositions|) > 0 ==>
        stockPositions == old(stockPositions) && stockSizes == old(stockSizes) && cursor == old(cursor)
      ensures old(|stockPositions|) == 0 ==> StoreFromLayout(old(cursor))
    {
      if |stockPositions| > 0 {
        return;
      }
      RebuildStore();
    }

    /** The store as laying out the loaded stocks from draw k leaves it. */
    ghost predicate StoreFromLayout(k: nat)
      reads this
    {
      var layout := Layout(env, stocks, k);
      && stockPositions == PositionStore(layout.points)
      && stockSizes == SizeStore(layout.points)
      && cursor == layout.next
      && stockPositions.Keys == SymbolsOfStocks(stocks)
      && stockSizes.Keys == SymbolsOfStocks(stocks)
    }

    /** Clear both maps, lay out the loaded stocks and refill the maps. */
    method RebuildStore()
      modifies this`stockPositions, this`stockSizes, this`cursor
      ensures StoreValid() && StoreFromLayout(old(cursor))
    {
      // Clearing both maps and setting every entry leaves exactly the maps
      // built from the layout, so they are assigned in one step.
      var positions, sizes, next := LayOutStore(env, stocks, cursor);
      stockPositions, stockSizes, cursor := positions, sizes, next;
    }

    /** selectNode, without the halo and the dimming of the other nodes. */
    method SelectNode(node: Stock)
      requires Valid()
      modifies this`animationSpeed, this`originalAnimationSpeed, this`isNodeSelected, this`selectedNode
      ensures Valid()
      ensures CurrentSelection() == Select(old(CurrentSelection()), node)
    {
      if !isNodeSelected {
        originalAnimationSpeed := animationSpeed;
      }
      animationSpeed := 0.0;
      isNodeSelected := true;
      selectedNode := Some(node);
    }

    /** deselectNode, without removing the halo and restoring opacities. */
    method DeselectNode()
      requires Valid()
      modifies this`animationSpeed, this`isNodeSelected, this`selectedNode
      ensures Valid()
      ensures CurrentSelection() == Deselect(old(CurrentSelection()))
    {
      if !isNodeSelected {
        return;
      }
      animationSpeed := originalAnimationSpeed;
      isNodeSelected := false;
      selectedNode := None;
    }
  }
}
