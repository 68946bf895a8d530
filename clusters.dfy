/**
 * create3DSectorClusters as the loops the engine runs: the search loop with
 * its attempt counter, the two collision scans that stop at the first hit,
 * the push passes of the fallback, and the loops over stocks and sectors
 * that push every placed entry onto `sectorPositions` and `points`. Each
 * method is proved to compute the matching function of the Placement
 * module, so the guarantees proved there hold for what these loops return.
 */
module Clusters {
  import opened Geometry
  import opened Records
  import opened MarketCap
  import opened Grouping
  import opened Diagnostics
  import opened Placement
  import opened LayoutProperties

  /** The intra-sector scan: is the candidate too close to any node of the sector so far? */
  method HasSectorCollision(num: Numerics, candidate: Vec3, nodeSize: real, minDistance: real,
                            sectorPositions: seq<PlacedPoint>) returns (hasCollision: bool)
    ensures hasCollision <==> !ClearOfSector(num, candidate, nodeSize, minDistance, sectorPositions)
  {
    var i := 0;
    while i < |sectorPositions|
      invariant 0 <= i <= |sectorPositions|
      invariant forall j :: 0 <= j < i ==> !TooClose(num, candidate, nodeSize, minDistance, sectorPositions[j])
    {
      var existingPos := sectorPositions[i].position;
      var existingSize := sectorPositions[i].size;
      var requiredDistance := nodeSize + existingSize + minDistance;
      var actualDistance := Distance(num, candidate, existingPos);
      if actualDistance < requiredDistance {
        return true;
      }
      i := i + 1;
    }
    return false;
  }

  /** The inter-sector scan: does the candidate overlap any node placed so far, with the 8.0 gap? */
  method HasGapCollision(num: Numerics, candidate: Vec3, nodeSize: real, points: seq<PlacedPoint>)
    returns (hasCollision: bool)
    ensures hasCollision <==> !ClearOfAll(num, candidate, nodeSize, points)
  {
    var i := 0;
    while i < |points|
      invariant 0 <= i <= |points|
      invariant forall j :: 0 <= j < i ==>
                  !CheckSphereOverlap(num, candidate, nodeSize, points[j].position, points[j].size, InterSectorGap)
    {
      if CheckSphereOverlap(num, candidate, nodeSize, points[i].position, points[i].size, InterSectorGap) {
        return true;
      }
      i := i + 1;
    }
    return false;
  }

  /** Both scans of one candidate: the candidate when it passes them, nothing otherwise. */
  method ScanCandidate(num: Numerics, sc: SectorCtx, candidate: Vec3, nodeSize: real,
                       sectorPositions: seq<PlacedPoint>, points: seq<PlacedPoint>) returns (position: Option<Vec3>)
    ensures position == if Accepted(num, sc, candidate, nodeSize, sectorPositions, points) then Some(candidate) else None
  {
    var hasCollision := HasSectorCollision(num, candidate, nodeSize, sc.minDistance, sectorPositions);
    if !hasCollision {
      hasCollision := HasGapCollision(num, candidate, nodeSize, points);
    }
    position := if hasCollision then None else Some(candidate);
  }

  /**
   * The candidate of attempt number `attempt` with the cursor at k: four
   * draws in the random phase, two on the grid, then the point on the
   * sphere.
   */
  method DrawCandidate(env: Env, sc: SectorCtx, attempt: nat, k: nat) returns (candidate: Vec3, next: nat)
    requires 1 <= attempt <= MaxAttempts
    ensures (candidate, next) == Candidate(env, sc, attempt, k)
    ensures next == k + DrawsBetween(attempt - 1, attempt)
  {
    var angles: Angles;
    if attempt <= RandomPhaseAttempts {
      angles := RandomPhaseAngles(sc.region, env.rand(k), env.rand(k + 1), env.rand(k + 2), env.rand(k + 3));
      next := k + 4;
    } else {
      angles := GridPhaseAngles(sc.region, sc.count, attempt, env.rand(k), env.rand(k + 1));
      next := k + 2;
    }
    candidate := SphericalToCartesian(env.num, angles.theta, angles.phi, SphereRadius);
  }

  /**
   * One attempt of the search, attempt number `attempt` with the cursor at
   * k: the candidate of the random or the grid phase, then the intra-sector
   * scan and, if that found nothing, the inter-sector scan. Returns the
   * candidate when both scans pass.
   */
  method TryAttempt(env: Env, sc: SectorCtx, nodeSize: real, sectorPositions: seq<PlacedPoint>,
                    points: seq<PlacedPoint>, attempt: nat, k: nat, ghost searchStart: nat)
    returns (position: Option<Vec3>, next: nat)
    requires 1 <= attempt <= MaxAttempts
    requires k == searchStart + DrawsBetween(0, attempt - 1)
    ensures next == searchStart + DrawsBetween(0, attempt)
    ensures var candidate := Candidates(env, sc, searchStart)[attempt - 1];
      position == if Accepted(env.num, sc, candidate, nodeSize, sectorPositions, points) then Some(candidate) else None
  {
    var candidate;
    candidate, next := DrawCandidate(env, sc, attempt, k);
    CandidatesUpToAt(env, sc, MaxAttempts, searchStart, attempt);
    position := ScanCandidate(env.num, sc, candidate, nodeSize, sectorPositions, points);
  }

  /**
   * The search loop: up to 200 attempts, the first 100 random, the rest on
   * the grid, until a candidate passes both scans. Returns the position
   * found, if any, the attempts made and the cursor of the random stream.
   */
  method SearchPosition(env: Env, sc: SectorCtx, nodeSize: real, sectorPositions: seq<PlacedPoint>,
                        points: seq<PlacedPoint>, k: nat) returns (position: Option<Vec3>, attempts: nat, next: nat)
    ensures SearchOutcome(position, attempts)
         == SearchFrom(env.num, sc, nodeSize, sectorPositions, points, Candidates(env, sc, k), 0)
    ensures next == k + DrawsBetween(0, attempts)
  {
    ghost var candidates := Candidates(env, sc, k);
    position, attempts, next := None, 0, k;
    while position.None? && attempts < MaxAttempts
      invariant attempts <= MaxAttempts
      invariant next == k + DrawsBetween(0, attempts)
      invariant position.None? ==>
        SearchFrom(env.num, sc, nodeSize, sectorPositions, points, candidates, attempts)
        == SearchFrom(env.num, sc, nodeSize, sectorPositions, points, candidates, 0)
      invariant position.Some? ==>
        SearchOutcome(position, attempts) == SearchFrom(env.num, sc, nodeSize, sectorPositions, points, candidates, 0)
      decreases MaxAttempts - attempts
    {
      attempts := attempts + 1;
      position, next := TryAttempt(env, sc, nodeSize, sectorPositions, points, attempts, next, k);
    }
  }

  /** One push pass: whether any node of the sector is too close, and the summed push away from those. */
  method ComputePush(num: Numerics, position: Vec3, nodeSize: real, minDistance: real,
                     sectorPositions: seq<PlacedPoint>) returns (needsPush: bool, pushVector: Vec3)
    ensures PushResult(needsPush, pushVector) == PushOver(num, position, nodeSize, minDistance, sectorPositions, |sectorPositions|)
  {
    needsPush, pushVector := false, Vec3(0.0, 0.0, 0.0);
    for i := 0 to |sectorPositions|
      invariant PushResult(needsPush, pushVector) == PushOver(num, position, nodeSize, minDistance, sectorPositions, i)
    {
      var existingPos := sectorPositions[i].position;
      var distance := Distance(num, position, existingPos);
      var minRequired := nodeSize + sectorPositions[i].size + minDistance;
      if distance < minRequired {
        needsPush := true;
        var pushDirection := Normalize(num, position.Sub(existingPos));
        var pushStrength := (minRequired - distance) * 0.5;
        pushVector := pushVector.Add(pushDirection.Scale(pushStrength));
      }
    }
  }

  /** One push pass: either nothing is too close and the relaxation stops here, or the node moves on. */
  method PushStep(num: Numerics, position: Vec3, nodeSize: real, minDistance: real,
                  sectorPositions: seq<PlacedPoint>, passes: nat) returns (moved: bool, newPosition: Vec3)
    requires passes < MaxPushPasses
    ensures moved ==>
      Relax(num, position, nodeSize, minDistance, sectorPositions, passes)
      == Relax(num, newPosition, nodeSize, minDistance, sectorPositions, passes + 1)
    ensures !moved ==> Relax(num, position, nodeSize, minDistance, sectorPositions, passes) == Relaxed(position, passes)
  {
    assert Relax(num, position, nodeSize, minDistance, sectorPositions, passes)
        == PushPass(num, position, nodeSize, minDistance, sectorPositions, passes);
    var needsPush, pushVector := ComputePush(num, position, nodeSize, minDistance, sectorPositions);
    moved := needsPush;
    newPosition := if needsPush then Reproject(num, position, pushVector) else position;
  }

  /** The push passes: at most 10, leaving early on the first pass that finds nothing to push. */
  method RelaxPosition(num: Numerics, start: Vec3, nodeSize: real, minDistance: real,
                       sectorPositions: seq<PlacedPoint>) returns (position: Vec3, passes: nat)
    ensures Relaxed(position, passes) == Relax(num, start, nodeSize, minDistance, sectorPositions, 0)
  {
    position, passes := start, 0;
    while passes < MaxPushPasses
      invariant passes <= MaxPushPasses
      invariant Relax(num, position, nodeSize, minDistance, sectorPositions, passes)
             == Relax(num, start, nodeSize, minDistance, sectorPositions, 0)
      decreases MaxPushPasses - passes
    {
      var moved, newPosition := PushStep(num, position, nodeSize, minDistance, sectorPositions, passes);
      if !moved {
        return;
      }
      position := newPosition;
      passes := passes + 1;
    }
    assert Relax(num, position, nodeSize, minDistance, sectorPositions, passes) == Relaxed(position, passes);
  }

  /** The fallback: the spiral start, then the push passes. */
  method FallbackPosition(env: Env, sc: SectorCtx, nodeSize: real, sectorPositions: seq<PlacedPoint>,
                          stockIndex: nat, k: nat) returns (position: Vec3, passes: nat, next: nat)
    ensures (Relaxed(position, passes), next) == Fallback(env, sc, nodeSize, sectorPositions, stockIndex, k)
  {
    var start := FallbackAngles(env, sc, stockIndex, k);
    var angles := start.0;
    next := start.1;
    var spiralPosition := SphericalToCartesian(env.num, angles.theta, angles.phi, SphereRadius);
    position, passes := RelaxPosition(env.num, spiralPosition, nodeSize, sc.minDistance, sectorPositions);
  }

  /** The entry of a stock the search found no position for: the fallback from the cursor after the search. */
  method FallbackPlacement(env: Env, sc: SectorCtx, stock: Stock, stockIndex: nat, nodeSize: real,
                           sectorPositions: seq<PlacedPoint>, points: seq<PlacedPoint>,
                           ghost candidates: seq<Vec3>, ghost searchStart: nat, attempts: nat, afterSearch: nat)
    returns (point: PlacedPoint, fellBack: bool, next: nat)
    requires SearchFrom(env.num, sc, nodeSize, sectorPositions, points, candidates, 0) == SearchOutcome(None, attempts)
    requires afterSearch == searchStart + DrawsBetween(0, attempts)
    ensures Placed(point, fellBack, next)
         == PlaceWith(env, sc, stock, stockIndex, nodeSize, sectorPositions, points, candidates, searchStart)
  {
    var fallbackPosition, passes;
    fallbackPosition, passes, next := FallbackPosition(env, sc, nodeSize, sectorPositions, stockIndex, afterSearch);
    point, fellBack := PlacedPoint(fallbackPosition, nodeSize, stock), true;
    PlaceWithFellBack(env, sc, stock, stockIndex, nodeSize, sectorPositions, points, candidates, searchStart,
                      attempts, Relaxed(fallbackPosition, passes), next);
  }

  /**
   * The rest of one stock's placement once the search is done: the found
   * position, or the fallback from the cursor after the search.
   */
  method FinishPlacement(env: Env, sc: SectorCtx, stock: Stock, stockIndex: nat, nodeSize: real,
                         sectorPositions: seq<PlacedPoint>, points: seq<PlacedPoint>,
                         ghost candidates: seq<Vec3>, ghost searchStart: nat,
                         position: Option<Vec3>, attempts: nat, afterSearch: nat)
    returns (point: PlacedPoint, fellBack: bool, next: nat)
    requires SearchOutcome(position, attempts) == SearchFrom(env.num, sc, nodeSize, sectorPositions, points, candidates, 0)
    requires afterSearch == searchStart + DrawsBetween(0, attempts)
    ensures Placed(point, fellBack, next)
         == PlaceWith(env, sc, stock, stockIndex, nodeSize, sectorPositions, points, candidates, searchStart)
  {
    if position.Some? {
      point, fellBack, next := PlacedPoint(position.value, nodeSize, stock), false, afterSearch;
      PlaceWithSearched(env, sc, stock, stockIndex, nodeSize, sectorPositions, points, candidates, searchStart,
                        position.value, attempts);
    } else {
      point, fellBack, next := FallbackPlacement(env, sc, stock, stockIndex, nodeSize, sectorPositions, points,
                                                 candidates, searchStart, attempts, afterSearch);
    }
  }

  /**
   * One stock: its size from the market-cap category, the search, and the
   * fallback only when the search found nothing (the engine warns then;
   * `fellBack` records it).
   */
  method PlaceStock(env: Env, sc: SectorCtx, stock: Stock, stockIndex: nat,
                    sectorPositions: seq<PlacedPoint>, points: seq<PlacedPoint>, k: nat)
    returns (point: PlacedPoint, fellBack: bool, next: nat)
    ensures Placed(point, fellBack, next) == PlaceOne(env, sc, stock, stockIndex, sectorPositions, points, k)
  {
    var nodeSize := NodeSizeByMarketCap(stock.marketCapCategory, env.rand(k));
    var searchStart := k + SizeDraws(stock.marketCapCategory);
    var position, attempts, afterSearch := SearchPosition(env, sc, nodeSize, sectorPositions, points, searchStart);
    point, fellBack, next := FinishPlacement(env, sc, stock, stockIndex, nodeSize, sectorPositions, points,
                                             Candidates(env, sc, searchStart), searchStart,
                                             position, attempts, afterSearch);
  }

  /**
   * One sector: each stock of the group placed in turn and its entry pushed
   * onto both lists, then the verification pass over the sector's entries.
   */
  method PlaceSector(env: Env, sc: SectorCtx, group: seq<Stock>, pointsIn: seq<PlacedPoint>,
                     fellBackIn: seq<bool>, k: nat)
    returns (sectorPositions: seq<PlacedPoint>, points: seq<PlacedPoint>, fellBack: seq<bool>, next: nat,
             overlapCount: nat)
    ensures Progress(sectorPositions, points, fellBack, next)
         == PlaceSectorFrom(PlaceStepFor(env, sc), group, 0, Progress([], pointsIn, fellBackIn, k))
    ensures overlapCount == |ViolatingPairs(env.num, sectorPositions, sc.minDistance)|
  {
    sectorPositions, points, fellBack, next := [], pointsIn, fellBackIn, k;
    for stockIndex := 0 to |group|
      invariant PlaceSectorFrom(PlaceStepFor(env, sc), group, stockIndex, Progress(sectorPositions, points, fellBack, next))
             == PlaceSectorFrom(PlaceStepFor(env, sc), group, 0, Progress([], pointsIn, fellBackIn, k))
    {
      var point, usedFallback;
      point, usedFallback, next := PlaceStock(env, sc, group[stockIndex], stockIndex, sectorPositions, points, next);
      sectorPositions := sectorPositions + [point];
      points := points + [point];
      fellBack := fellBack + [usedFallback];
    }
    overlapCount := CountOverlaps(env.num, sectorPositions, sc.minDistance);
  }

  /**
   * create3DSectorClusters: group by sector, then place each sector in its
   * region. Every stock comes back exactly once, and every position the
   * search found keeps both gaps from all nodes placed before it.
   */
  method Create3DSectorClusters(env: Env, stocks: seq<Stock>, k: nat)
    returns (points: seq<PlacedPoint>, fellBack: seq<bool>, overlapCounts: seq<nat>, next: nat)
    ensures LayoutResult(points, fellBack, overlapCounts, next) == Layout(env, stocks, k)
    ensures StocksOf(points) == ConcatGroups(stocks, Sectors(stocks))
    ensures multiset(StocksOf(points)) == multiset(stocks) && |points| == |stocks|
    ensures |fellBack| == |points| && Separated(env.num, stocks, points, fellBack)
    ensures |overlapCounts| == |Sectors(stocks)|
  {
    var sectors, stocksBySector := GroupBySector(stocks);
    points, fellBack, overlapCounts, next := [], [], [], k;
    for sectorIndex := 0 to |sectors|
      invariant LayoutFrom(env, stocks, sectorIndex, LayoutResult(points, fellBack, overlapCounts, next))
             == Layout(env, stocks, k)
    {
      var sector := sectors[sectorIndex];
      var sectorStocks := stocksBySector[sector];
      MembersNonEmpty(stocks, sector);
      var region := RegionFor(sectorIndex);
      var dynamicMinDistance := DynamicMinDistance(env.num, sector, |sectorStocks|);
      var sc := SectorCtx(sector, region, |sectorStocks|, dynamicMinDistance);
      assert sc == SectorCtxAt(env.num, stocks, sectorIndex);
      var sectorPositions, overlapCount;
      sectorPositions, points, fellBack, next, overlapCount := PlaceSector(env, sc, sectorStocks, points, fellBack, next);
      overlapCounts := overlapCounts + [overlapCount];
    }
    LayoutPlacesEveryStockOnce(env, stocks, k);
    LayoutKeepsGaps(env, stocks, k);
  }
}
