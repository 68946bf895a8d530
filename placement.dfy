/**
 * The cluster layout of create3DSectorClusters as functions of its inputs:
 * the sector regions, the candidate positions of the two-phase search, the
 * acceptance test, the spiral fallback with its push relaxation, and the
 * whole layout, sector after sector. The loops that compute these live in
 * the Clusters module and are proved equal to them.
 *
 * Math.random is a stream `rand` read from a cursor; every function that
 * draws takes the cursor and returns where it stopped.
 */
module Placement {
  import opened Geometry
  import opened Records
  import opened MarketCap
  import opened Grouping
  import opened Diagnostics

  /** settings.sphereRadius */
  const SphereRadius: real := 25.0
  /** maxAttempts of the search; the first RandomPhaseAttempts of them are random, the rest on a grid. */
  const MaxAttempts: nat := 200
  const RandomPhaseAttempts: nat := 100
  /** The push relaxation of the fallback runs at most this many passes. */
  const MaxPushPasses: nat := 10
  /** The gap kept from every node already placed, whatever its sector. */
  const InterSectorGap: real := 8.0
  /** The golden angle of the fallback spiral, in radians. */
  const GoldenAngle: real := 2.39996
  /** The width of the extra jitter: (draw - 0.5) * RandomOffset3D lies in [-0.5, 0.5). */
  const RandomOffset3D: real := 1.0

  const Technology: string := "Technology"
  const TechnologyMinDistance: real := 2.5
  const BaseMinDistance: real := 1.5

  /** The environment of a layout run: the numeric library and the random stream. */
  datatype Env = Env(num: Numerics, rand: nat -> real)

  type PosInt = n: nat | n >= 1 witness 1

  /** A patch of the sphere: centre angles and the spread around them. */
  datatype Region = Region(theta: real, phi: real, name: string, thetaRange: real, phiRange: real)

  /** The five regions, handed out to sectors by position, not by name. */
  const SectorRegions: seq<Region> := [
    Region(0.0, Pi / 12.0, "Technology", Pi / 5.0, Pi / 8.0),
    Region(Pi, Pi / 2.0, "Energy", Pi / 8.0, Pi / 10.0),
    Region(5.0 * Pi / 3.0, Pi / 2.0, "Finance", Pi / 8.0, Pi / 10.0),
    Region(2.0 * Pi / 3.0, 5.0 * Pi / 6.0, "Healthcare", Pi / 8.0, Pi / 10.0),
    Region(4.0 * Pi / 3.0, 5.0 * Pi / 6.0, "Consumer", Pi / 8.0, Pi / 10.0)
  ]

  /** The region of the sector listed at position sectorIndex. */
  function RegionFor(sectorIndex: nat): Region
  {
    SectorRegions[sectorIndex % |SectorRegions|]
  }

  /**
   * Two sectors share a region exactly when their positions agree modulo 5:
   * the sixth sector is placed on top of the first.
   */
  lemma {:induction false} RegionReuse(i: nat, j: nat)
    ensures RegionFor(i) == RegionFor(j) <==> i % 5 == j % 5
  {
    var a, b := i % 5, j % 5;
    if a != b {
      assert SectorRegions[a].name != SectorRegions[b].name;
    }
  }

  /**
   * dynamicMinDistance: the intra-sector gap, the larger of the base gap
   * (2.5 for "Technology", 1.5 otherwise) and 0.3 times the square root of
   * the sector's size.
   */
  function DynamicMinDistance(num: Numerics, sector: string, count: nat): (d: real)
    ensures d >= (if sector == Technology then TechnologyMinDistance else BaseMinDistance)
    ensures d >= num.sqrt(count as real) * 0.3
    ensures d == (if sector == Technology then TechnologyMinDistance else BaseMinDistance)
         || d == num.sqrt(count as real) * 0.3
  {
    Max(if sector == Technology then TechnologyMinDistance else BaseMinDistance, num.sqrt(count as real) * 0.3)
  }

  /** The intra-sector gap of a sector of the input. */
  function SectorMinDistance(num: Numerics, stocks: seq<Stock>, sector: string): real
  {
    DynamicMinDistance(num, sector, |Members(stocks, sector)|)
  }

  /** What the placement of one sector knows about it. */
  datatype SectorCtx = SectorCtx(name: string, region: Region, count: PosInt, minDistance: real)

  function SectorCtxFor(num: Numerics, sector: string, sectorIndex: nat, count: PosInt): SectorCtx
  {
    SectorCtx(sector, RegionFor(sectorIndex), count, DynamicMinDistance(num, sector, count))
  }

  lemma {:induction false} SelfBelowSquare(g: nat)
    ensures g <= g * g
  {
    if g > 0 {
      assert g * g == g * (g - 1) + g;
    }
  }

  /** The least r >= g with r * r >= m. */
  function CeilSqrtFrom(m: nat, g: nat): nat
    decreases m - g
  {
    if g * g >= m then g
    else
      SelfBelowSquare(g);
      CeilSqrtFrom(m, g + 1)
  }

  lemma {:induction false} CeilSqrtFromBounds(m: nat, g: nat)
    requires g == 0 || (g - 1) * (g - 1) < m
    ensures var r := CeilSqrtFrom(m, g); r * r >= m && (r == 0 || (r - 1) * (r - 1) < m)
    decreases m - g
  {
    if g * g < m {
      SelfBelowSquare(g);
      CeilSqrtFromBounds(m, g + 1);
    }
  }

  /** The least g with g * g >= m, that is, ceil(sqrt(m)) computed exactly. */
  function CeilSqrt(m: nat): nat
  {
    CeilSqrtFrom(m, 0)
  }

  /** gridSize = ceil(sqrt(2n)): the side of the smallest square grid with room for 2n cells. */
  function GridSize(count: PosInt): nat
  {
    CeilSqrt(2 * count)
  }

  /** The grid side is at least 2, has room for 2n cells, and is the least such side. */
  lemma {:induction false} GridSizeBounds(count: PosInt)
    ensures GridSize(count) >= 2
    ensures GridSize(count) * GridSize(count) >= 2 * count
    ensures (GridSize(count) - 1) * (GridSize(count) - 1) < 2 * count
  {
    CeilSqrtFromBounds(2 * count, 0);
    SquareOfSmall(GridSize(count));
  }

  lemma {:induction false} SquareOfSmall(g: nat)
    ensures g <= 1 ==> g * g <= 1
  {
    if g <= 1 {
      MulMonotone(g, 1, g);
    }
  }

  /** The (column, row) cell a grid-phase attempt aims at: attempt - 100 laid out row by row. */
  function GridCell(count: PosInt, attempt: nat): (nat, nat)
    requires attempt > RandomPhaseAttempts
  {
    GridSizeBounds(count);
    var gridAttempt := attempt - RandomPhaseAttempts;
    (gridAttempt % GridSize(count), gridAttempt / GridSize(count))
  }

  /**
   * The grid phase numbers its attempts from 1, so the column is always
   * inside the grid, cell (0, 0) is never aimed at, and the attempt is
   * recovered from its cell.
   */
  lemma {:induction false} GridCellFacts(count: PosInt, attempt: nat)
    requires attempt > RandomPhaseAttempts
    ensures GridCell(count, attempt).0 < GridSize(count)
    ensures GridCell(count, attempt) != (0, 0)
    ensures GridCell(count, attempt).1 * GridSize(count) + GridCell(count, attempt).0 == attempt - RandomPhaseAttempts
  {
    GridSizeBounds(count);
  }

  lemma {:induction false} MulMonotone(a: int, b: int, c: nat)
    requires a <= b
    ensures a * c <= b * c
  {
    var d := b - a;
    assert b * c == a * c + d * c;
  }

  /** A row index below the side leaves room for a whole row before the last cell. */
  lemma {:induction false} RowsBelowSide(y: int, gs: nat)
    ensures 0 <= y < gs ==> y * gs + gs <= gs * gs
  {
    if 0 <= y < gs {
      MulMonotone(y, gs - 1, gs);
      assert (gs - 1) * gs + gs == gs * gs;
    }
  }

  lemma {:induction false} DivModOfCell(g: nat, gs: nat, x: nat, y: nat)
    requires x < gs && g == y * gs + x
    ensures g / gs == y && g % gs == x
  {
    var q, r := g / gs, g % gs;
    assert q * gs + r == y * gs + x;
    if q < y {
      assert (q + 1) * gs == q * gs + gs;
      MulMonotone(q + 1, y, gs);
    } else if q > y {
      assert (y + 1) * gs == y * gs + gs;
      MulMonotone(y + 1, q, gs);
    }
  }

  /**
   * When the grid has at most 100 cells, the grid phase aims at every cell
   * other than (0, 0): cell (x, y) at attempt 100 + y * gridSize + x.
   */
  lemma {:induction false} GridSweepCoversCells(count: PosInt, x: nat, y: nat)
    requires GridSize(count) * GridSize(count) <= MaxAttempts - RandomPhaseAttempts
    requires x < GridSize(count) && y < GridSize(count) && (x, y) != (0, 0)
    ensures RandomPhaseAttempts < RandomPhaseAttempts + y * GridSize(count) + x <= MaxAttempts
    ensures GridCell(count, RandomPhaseAttempts + y * GridSize(count) + x) == (x, y)
  {
    GridSizeBounds(count);
    var gs := GridSize(count);
    var g := y * gs + x;
    RowsBelowSide(y, gs);
    if y > 0 {
      MulMonotone(1, y, gs);
    }
    DivModOfCell(g, gs, x, y);
  }

  /** When the grid has at most 100 cells, the last grid-phase attempt aims past the grid's last row. */
  lemma {:induction false} GridSweepOverrunsRows(count: PosInt)
    requires GridSize(count) * GridSize(count) <= MaxAttempts - RandomPhaseAttempts
    ensures GridCell(count, MaxAttempts).1 >= GridSize(count)
  {
    GridSizeBounds(count);
    var gs := GridSize(count);
    var q, r := 100 / gs, 100 % gs;
    assert 100 == q * gs + r;
    RowsBelowSide(q, gs);
  }

  /** A candidate direction: azimuth theta and polar angle phi. */
  datatype Angles = Angles(theta: real, phi: real)

  /**
   * Attempts 1 to 100: an offset within the region's spread plus a jitter of
   * at most half a radian in each angle, from four draws in the order
   * theta offset, phi offset, theta jitter, phi jitter.
   */
  function RandomPhaseAngles(region: Region, d1: real, d2: real, d3: real, d4: real): (a: Angles)
    ensures PhiMin <= a.phi <= PhiMax
  {
    var thetaOffset := (d1 - 0.5) * region.thetaRange;
    var phiOffset := (d2 - 0.5) * region.phiRange;
    var additionalThetaOffset := (d3 - 0.5) * RandomOffset3D;
    var additionalPhiOffset := (d4 - 0.5) * RandomOffset3D;
    Angles(region.theta + thetaOffset + additionalThetaOffset,
           ClampPhi(region.phi + phiOffset + additionalPhiOffset))
  }

  /**
   * With draws in [0, 1), a random-phase azimuth lies within half the
   * region's spread plus half a radian of the region's centre.
   */
  lemma {:induction false} RandomPhaseWithinReach(region: Region, d1: real, d2: real, d3: real, d4: real)
    requires 0.0 <= d1 < 1.0 && 0.0 <= d3 < 1.0
    requires region.thetaRange >= 0.0
    ensures region.theta - region.thetaRange / 2.0 - 0.5 <= RandomPhaseAngles(region, d1, d2, d3, d4).theta
    ensures RandomPhaseAngles(region, d1, d2, d3, d4).theta < region.theta + region.thetaRange / 2.0 + 0.5
  {
    var t := region.thetaRange;
    var u := d1 - 0.5;
    var a := RandomPhaseAngles(region, d1, d2, d3, d4);
    assert a.theta == region.theta + u * t + (d3 - 0.5) * RandomOffset3D;
    NonNegativeProduct(u + 0.5, t);
    NonNegativeProduct(0.5 - u, t);
    assert (u + 0.5) * t == u * t + 0.5 * t;
    assert (0.5 - u) * t == 0.5 * t - u * t;
  }

  lemma NonNegativeProduct(a: real, b: real)
    requires a >= 0.0 && b >= 0.0
    ensures a * b >= 0.0
  {
  }

  /**
   * Attempts 101 to 200: the centre of the attempt's grid cell in the
   * region, then a jitter of at most half a radian from two draws (theta,
   * then phi); the polar angle is clamped before and after the jitter.
   */
  function GridPhaseAngles(region: Region, count: PosInt, attempt: nat, d1: real, d2: real): (a: Angles)
    requires attempt > RandomPhaseAttempts
    ensures PhiMin <= a.phi <= PhiMax
  {
    GridSizeBounds(count);
    var gridSize := GridSize(count);
    var (gridX, gridY) := GridCell(count, attempt);
    var thetaStep := region.thetaRange / gridSize as real;
    var phiStep := region.phiRange / gridSize as real;
    var theta := region.theta - region.thetaRange / 2.0 + (gridX as real + 0.5) * thetaStep;
    var phi := ClampPhi(region.phi - region.phiRange / 2.0 + (gridY as real + 0.5) * phiStep);
    Angles(theta + (d1 - 0.5) * RandomOffset3D, ClampPhi(phi + (d2 - 0.5) * RandomOffset3D))
  }

  /** The angles of search attempt `attempt` (1-based) and the cursor after its draws. */
  function CandidateAngles(env: Env, sc: SectorCtx, attempt: nat, k: nat): (r: (Angles, nat))
    ensures PhiMin <= r.0.phi <= PhiMax
    ensures r.1 == k + (if attempt <= RandomPhaseAttempts then 4 else 2)
  {
    if attempt <= RandomPhaseAttempts then
      (RandomPhaseAngles(sc.region, env.rand(k), env.rand(k + 1), env.rand(k + 2), env.rand(k + 3)), k + 4)
    else
      (GridPhaseAngles(sc.region, sc.count, attempt, env.rand(k), env.rand(k + 1)), k + 2)
  }

  /** The candidate position of an attempt, on the sphere of radius 25. */
  function Candidate(env: Env, sc: SectorCtx, attempt: nat, k: nat): (Vec3, nat)
  {
    var (a, k') := CandidateAngles(env, sc, attempt, k);
    (SphericalToCartesian(env.num, a.theta, a.phi, SphereRadius), k')
  }

  /** A node at pos with radius size is closer to q than their radii plus minDistance. */
  predicate TooClose(num: Numerics, pos: Vec3, size: real, minDistance: real, q: PlacedPoint)
  {
    Distance(num, pos, q.position) < size + q.size + minDistance
  }

  /** The intra-sector test: no node of the sector so far is too close. */
  predicate ClearOfSector(num: Numerics, pos: Vec3, size: real, minDistance: real, sectorPositions: seq<PlacedPoint>)
  {
    forall j :: 0 <= j < |sectorPositions| ==> !TooClose(num, pos, size, minDistance, sectorPositions[j])
  }

  /** The inter-sector test: no node placed so far overlaps with the 8.0 gap. */
  predicate ClearOfAll(num: Numerics, pos: Vec3, size: real, points: seq<PlacedPoint>)
  {
    forall j :: 0 <= j < |points| ==>
      !CheckSphereOverlap(num, pos, size, points[j].position, points[j].size, InterSectorGap)
  }

  /** A candidate is accepted when it passes both tests. */
  predicate Accepted(num: Numerics, sc: SectorCtx, pos: Vec3, size: real,
                     sectorPositions: seq<PlacedPoint>, points: seq<PlacedPoint>)
  {
    ClearOfSector(num, pos, size, sc.minDistance, sectorPositions) && ClearOfAll(num, pos, size, points)
  }

  /** The draws taken by the attempts after `from`, up to and including `to`. */
  function DrawsBetween(from: nat, to: nat): int
  {
    var r := RandomPhaseAttempts;
    4 * ((if to < r then to else r) - (if from < r then from else r))
    + 2 * ((if to > r then to else r) - (if from > r then from else r))
  }

  /**
   * Attempt a takes 4 draws in the random phase and 2 in the grid phase, so
   * a search that makes all 200 attempts takes 600.
   */
  lemma AttemptDraws(a: nat)
    requires 1 <= a <= MaxAttempts
    ensures DrawsBetween(a - 1, a) == (if a <= RandomPhaseAttempts then 4 else 2)
    ensures DrawsBetween(0, MaxAttempts) == 600
  {
  }

  /**
   * The positions attempts 1 to n try when the search's first draw is at
   * cursor k: attempt a draws from the cursor after the draws of the
   * attempts before it. An attempt's draws depend only on its number, so
   * this is the sequence the search walks, however far it gets.
   */
  function CandidatesUpTo(env: Env, sc: SectorCtx, n: nat, k: nat): (cs: seq<Vec3>)
    requires n <= MaxAttempts
    ensures |cs| == n
  {
    if n == 0 then []
    else CandidatesUpTo(env, sc, n - 1, k) + [Candidate(env, sc, n, k + DrawsBetween(0, n - 1)).0]
  }

  /** The 200 candidates of a search whose first draw is at cursor k. */
  function Candidates(env: Env, sc: SectorCtx, k: nat): seq<Vec3>
  {
    CandidatesUpTo(env, sc, MaxAttempts, k)
  }

  /** Attempt a's candidate, for any a up to n. */
  lemma {:induction false} CandidatesUpToAt(env: Env, sc: SectorCtx, n: nat, k: nat, a: nat)
    requires 1 <= a <= n <= MaxAttempts
    ensures CandidatesUpTo(env, sc, n, k)[a - 1] == Candidate(env, sc, a, k + DrawsBetween(0, a - 1)).0
  {
    if a < n {
      CandidatesUpToAt(env, sc, n - 1, k, a);
    }
  }

  /** Where the search stopped: the accepted position if any, and the attempts made. */
  datatype SearchOutcome = SearchOutcome(position: Option<Vec3>, attempts: nat)

  /**
   * The search loop over the candidates, continued after `attempts`
   * attempts: it stops at the first accepted candidate or when the
   * candidates run out.
   */
  function SearchFrom(num: Numerics, sc: SectorCtx, size: real, sectorPositions: seq<PlacedPoint>,
                      points: seq<PlacedPoint>, candidates: seq<Vec3>, attempts: nat): (r: SearchOutcome)
    requires attempts <= |candidates|
    ensures attempts <= r.attempts <= |candidates|
    ensures r.position.None? ==> r.attempts == |candidates|
    decreases |candidates| - attempts
  {
    if attempts == |candidates| then SearchOutcome(None, attempts)
    else if Accepted(num, sc, candidates[attempts], size, sectorPositions, points) then
      SearchOutcome(Some(candidates[attempts]), attempts + 1)
    else SearchFrom(num, sc, size, sectorPositions, points, candidates, attempts + 1)
  }

  /**
   * A position the search returns is the candidate of its last attempt,
   * and it passes both tests.
   */
  lemma {:induction false} SearchFindsAccepted(num: Numerics, sc: SectorCtx, size: real,
                                               sectorPositions: seq<PlacedPoint>, points: seq<PlacedPoint>,
                                               candidates: seq<Vec3>, attempts: nat)
    requires attempts <= |candidates|
    ensures var r := SearchFrom(num, sc, size, sectorPositions, points, candidates, attempts);
      r.position.Some? ==>
        && r.attempts > attempts
        && r.position.value == candidates[r.attempts - 1]
        && Accepted(num, sc, r.position.value, size, sectorPositions, points)
    decreases |candidates| - attempts
  {
    if attempts < |candidates| {
      if Accepted(num, sc, candidates[attempts], size, sectorPositions, points) {
        assert SearchFrom(num, sc, size, sectorPositions, points, candidates, attempts)
            == SearchOutcome(Some(candidates[attempts]), attempts + 1);
      } else {
        SearchFindsAccepted(num, sc, size, sectorPositions, points, candidates, attempts + 1);
      }
    }
  }

  /**
   * The search stops at the first accepted candidate: every candidate it
   * tried before its last attempt failed, and when it returns nothing,
   * every candidate failed.
   */
  lemma {:induction false} SearchSkipsOnlyRejected(num: Numerics, sc: SectorCtx, size: real,
                                                   sectorPositions: seq<PlacedPoint>, points: seq<PlacedPoint>,
                                                   candidates: seq<Vec3>, attempts: nat)
    requires attempts <= |candidates|
    ensures var r := SearchFrom(num, sc, size, sectorPositions, points, candidates, attempts);
      forall j :: attempts <= j < r.attempts - (if r.position.Some? then 1 else 0) ==>
        !Accepted(num, sc, candidates[j], size, sectorPositions, points)
    decreases |candidates| - attempts
  {
    if attempts < |candidates| && !Accepted(num, sc, candidates[attempts], size, sectorPositions, points) {
      SearchSkipsOnlyRejected(num, sc, size, sectorPositions, points, candidates, attempts + 1);
    }
  }

  /** Fallback spiral radius: 0.2 plus 0.1 per earlier stock of the sector, capped at 0.8 from the seventh on. */
  function SpiralRadius(stockIndex: nat): (r: real)
    ensures 0.2 <= r <= 0.8
    ensures r == 0.8 <==> stockIndex >= 6
  {
    Min(0.8, 0.2 + stockIndex as real * 0.1)
  }

  /**
   * The fallback start: the region centre moved along a golden-angle spiral
   * by the stock's index within its sector, then jittered by two draws.
   */
  function FallbackAngles(env: Env, sc: SectorCtx, stockIndex: nat, k: nat): (r: (Angles, nat))
    ensures PhiMin <= r.0.phi <= PhiMax
    ensures r.1 == k + 2
  {
    var spiralRadius := SpiralRadius(stockIndex);
    var spiralAngle := stockIndex as real * GoldenAngle;
    var theta := sc.region.theta + env.num.cos(spiralAngle) * spiralRadius * sc.region.thetaRange;
    var phi := sc.region.phi + env.num.sin(spiralAngle) * spiralRadius * sc.region.phiRange;
    (Angles(theta + (env.rand(k) - 0.5) * RandomOffset3D, ClampPhi(phi + (env.rand(k + 1) - 0.5) * RandomOffset3D)),
     k + 2)
  }

  /** One push pass: whether any node of the sector is too close, and the summed push away from those that are. */
  datatype PushResult = PushResult(needsPush: bool, push: Vec3)

  /** The push pass over the first i nodes of the sector. */
  function PushOver(num: Numerics, pos: Vec3, size: real, minDistance: real,
                    sectorPositions: seq<PlacedPoint>, i: nat): PushResult
    requires i <= |sectorPositions|
  {
    if i == 0 then PushResult(false, Vec3(0.0, 0.0, 0.0))
    else
      var prev := PushOver(num, pos, size, minDistance, sectorPositions, i - 1);
      var existing := sectorPositions[i - 1];
      var distance := Distance(num, pos, existing.position);
      var minRequired := size + existing.size + minDistance;
      if distance < minRequired then
        var pushDirection := Normalize(num, pos.Sub(existing.position));
        var pushStrength := (minRequired - distance) * 0.5;
        PushResult(true, prev.push.Add(pushDirection.Scale(pushStrength)))
      else
        prev
  }

  /**
   * A pass over the first i nodes asks for a push exactly when one of them
   * is too close, and pushes by nothing when none is.
   */
  lemma {:induction false} PushOverMeaning(num: Numerics, pos: Vec3, size: real, minDistance: real,
                                           sectorPositions: seq<PlacedPoint>, i: nat)
    requires i <= |sectorPositions|
    ensures var r := PushOver(num, pos, size, minDistance, sectorPositions, i);
      && (r.needsPush <==> exists j :: 0 <= j < i && TooClose(num, pos, size, minDistance, sectorPositions[j]))
      && (!r.needsPush ==> r.push == Vec3(0.0, 0.0, 0.0))
  {
    if i > 0 {
      PushOverMeaning(num, pos, size, minDistance, sectorPositions, i - 1);
    }
  }

  /** A whole pass finds nothing to push exactly when the position already passes the intra-sector test. */
  lemma {:induction false} PushNeededIffTooClose(num: Numerics, pos: Vec3, size: real, minDistance: real,
                                                 sectorPositions: seq<PlacedPoint>)
    ensures PushOver(num, pos, size, minDistance, sectorPositions, |sectorPositions|).needsPush
        <==> !ClearOfSector(num, pos, size, minDistance, sectorPositions)
  {
    PushOverMeaning(num, pos, size, minDistance, sectorPositions, |sectorPositions|);
  }

  /** Move by the push and put the result back on the sphere. */
  function Reproject(num: Numerics, pos: Vec3, push: Vec3): Vec3
  {
    Normalize(num, pos.Add(push)).Scale(SphereRadius)
  }

  /** The outcome of the relaxation: the final position and the number of pushes applied. */
  datatype Relaxed = Relaxed(position: Vec3, passes: nat)

  /** The push relaxation from pass `pass` on: a push per pass until a pass finds nothing or 10 were applied. */
  function Relax(num: Numerics, pos: Vec3, size: real, minDistance: real,
                 sectorPositions: seq<PlacedPoint>, pass: nat): (r: Relaxed)
    requires pass <= MaxPushPasses
    ensures pass <= r.passes <= MaxPushPasses
    decreases MaxPushPasses - pass, 1
  {
    if pass == MaxPushPasses then Relaxed(pos, pass)
    else PushPass(num, pos, size, minDistance, sectorPositions, pass)
  }

  /** Push pass number pass + 1: stop where nothing is too close, otherwise move and go on. */
  function PushPass(num: Numerics, pos: Vec3, size: real, minDistance: real,
                    sectorPositions: seq<PlacedPoint>, pass: nat): (r: Relaxed)
    requires pass < MaxPushPasses
    ensures pass <= r.passes <= MaxPushPasses
    decreases MaxPushPasses - pass, 0
  {
    var p := PushOver(num, pos, size, minDistance, sectorPositions, |sectorPositions|);
    if !p.needsPush then Relaxed(pos, pass)
    else Relax(num, Reproject(num, pos, p.push), size, minDistance, sectorPositions, pass + 1)
  }

  /**
   * Stopping before the tenth push means the position passes the
   * intra-sector test, and a position that already passes is left where it
   * is, with no push applied.
   */
  lemma {:induction false} RelaxStopsWhenClear(num: Numerics, pos: Vec3, size: real, minDistance: real,
                                               sectorPositions: seq<PlacedPoint>, pass: nat)
    requires pass <= MaxPushPasses
    ensures var r := Relax(num, pos, size, minDistance, sectorPositions, pass);
      && (r.passes < MaxPushPasses ==> ClearOfSector(num, r.position, size, minDistance, sectorPositions))
      && (ClearOfSector(num, pos, size, minDistance, sectorPositions) ==> r == Relaxed(pos, pass))
    decreases MaxPushPasses - pass
  {
    PushNeededIffTooClose(num, pos, size, minDistance, sectorPositions);
    if pass < MaxPushPasses {
      assert Relax(num, pos, size, minDistance, sectorPositions, pass)
          == PushPass(num, pos, size, minDistance, sectorPositions, pass);
      var p := PushOver(num, pos, size, minDistance, sectorPositions, |sectorPositions|);
      if p.needsPush {
        RelaxStopsWhenClear(num, Reproject(num, pos, p.push), size, minDistance, sectorPositions, pass + 1);
      }
    }
  }

  /** The fallback: the spiral start relaxed by the push passes, and the cursor after its two draws. */
  function Fallback(env: Env, sc: SectorCtx, size: real, sectorPositions: seq<PlacedPoint>,
                    stockIndex: nat, k: nat): (r: (Relaxed, nat))
    ensures r.1 == k + 2
  {
    var (a, k') := FallbackAngles(env, sc, stockIndex, k);
    var start := SphericalToCartesian(env.num, a.theta, a.phi, SphereRadius);
    (Relax(env.num, start, size, sc.minDistance, sectorPositions, 0), k')
  }

  /** At most 10 pushes; fewer means the fallback position passes the intra-sector test. */
  lemma {:induction false} FallbackBounds(env: Env, sc: SectorCtx, size: real, sectorPositions: seq<PlacedPoint>,
                                          stockIndex: nat, k: nat)
    ensures var r := Fallback(env, sc, size, sectorPositions, stockIndex, k);
      && r.0.passes <= MaxPushPasses
      && (r.0.passes < MaxPushPasses ==> ClearOfSector(env.num, r.0.position, size, sc.minDistance, sectorPositions))
  {
    var (a, _) := FallbackAngles(env, sc, stockIndex, k);
    RelaxStopsWhenClear(env.num, SphericalToCartesian(env.num, a.theta, a.phi, SphereRadius),
                        size, sc.minDistance, sectorPositions, 0);
  }

  /** One stock placed: its entry, whether the fallback was used, and the cursor. */
  datatype Placed = Placed(point: PlacedPoint, fellBack: bool, next: nat)

  /** The draw a stock's size takes: one for a known category, none otherwise. */
  function SizeDraws(category: string): nat
  {
    if UsesDraw(category) then 1 else 0
  }

  /**
   * Placing the stock at index stockIndex, of size nodeSize, once its size
   * is drawn: the search over the candidates, whose first draw is at
   * searchStart, and the fallback from the cursor after the search only
   * when it found nothing.
   */
  function PlaceWith(env: Env, sc: SectorCtx, stock: Stock, stockIndex: nat, nodeSize: real,
                     sectorPositions: seq<PlacedPoint>, points: seq<PlacedPoint>,
                     candidates: seq<Vec3>, searchStart: nat): Placed
  {
    var search := SearchFrom(env.num, sc, nodeSize, sectorPositions, points, candidates, 0);
    var afterSearch := searchStart + DrawsBetween(0, search.attempts);
    if search.position.Some? then
      Placed(PlacedPoint(search.position.value, nodeSize, stock), false, afterSearch)
    else
      var (relaxed, k') := Fallback(env, sc, nodeSize, sectorPositions, stockIndex, afterSearch);
      Placed(PlacedPoint(relaxed.position, nodeSize, stock), true, k')
  }

  /**
   * Whatever the candidates: the entry carries the stock and its size, a
   * position from the search passes both tests, and the cursor moves past
   * searchStart.
   */
  lemma {:induction false} PlaceWithFacts(env: Env, sc: SectorCtx, stock: Stock, stockIndex: nat, nodeSize: real,
                                          sectorPositions: seq<PlacedPoint>, points: seq<PlacedPoint>,
                                          candidates: seq<Vec3>, searchStart: nat)
    ensures var r := PlaceWith(env, sc, stock, stockIndex, nodeSize, sectorPositions, points, candidates, searchStart);
      && r.point.stock == stock
      && r.point.size == nodeSize
      && (!r.fellBack ==> Accepted(env.num, sc, r.point.position, nodeSize, sectorPositions, points))
      && r.next > searchStart
  {
    SearchFindsAccepted(env.num, sc, nodeSize, sectorPositions, points, candidates, 0);
  }

  /** When the search finds a position, the entry is placed there and the cursor is where the search left it. */
  lemma PlaceWithSearched(env: Env, sc: SectorCtx, stock: Stock, stockIndex: nat, nodeSize: real,
                          sectorPositions: seq<PlacedPoint>, points: seq<PlacedPoint>,
                          candidates: seq<Vec3>, searchStart: nat, position: Vec3, attempts: nat)
    requires SearchFrom(env.num, sc, nodeSize, sectorPositions, points, candidates, 0) == SearchOutcome(Some(position), attempts)
    ensures PlaceWith(env, sc, stock, stockIndex, nodeSize, sectorPositions, points, candidates, searchStart)
         == Placed(PlacedPoint(position, nodeSize, stock), false, searchStart + DrawsBetween(0, attempts))
  {
  }

  /** When the search finds nothing, the entry is placed where the fallback from the cursor after the search puts it. */
  lemma PlaceWithFellBack(env: Env, sc: SectorCtx, stock: Stock, stockIndex: nat, nodeSize: real,
                          sectorPositions: seq<PlacedPoint>, points: seq<PlacedPoint>,
                          candidates: seq<Vec3>, searchStart: nat, attempts: nat, relaxed: Relaxed, next: nat)
    requires SearchFrom(env.num, sc, nodeSize, sectorPositions, points, candidates, 0) == SearchOutcome(None, attempts)
    requires Fallback(env, sc, nodeSize, sectorPositions, stockIndex, searchStart + DrawsBetween(0, attempts)) == (relaxed, next)
    ensures PlaceWith(env, sc, stock, stockIndex, nodeSize, sectorPositions, points, candidates, searchStart)
         == Placed(PlacedPoint(relaxed.position, nodeSize, stock), true, next)
  {
  }

  /**
   * Placing the stock at index stockIndex of its sector: size draw, search,
   * and the fallback only when the search found nothing.
   */
  function PlaceOne(env: Env, sc: SectorCtx, stock: Stock, stockIndex: nat,
                    sectorPositions: seq<PlacedPoint>, points: seq<PlacedPoint>, k: nat): Placed
  {
    var nodeSize := NodeSizeByMarketCap(stock.marketCapCategory, env.rand(k));
    var searchStart := k + SizeDraws(stock.marketCapCategory);
    PlaceWith(env, sc, stock, stockIndex, nodeSize, sectorPositions, points, Candidates(env, sc, searchStart), searchStart)
  }

  /** PlaceOne is PlaceWith over the stock's drawn size and its 200 candidates. */
  lemma PlaceOneIsPlaceWith(env: Env, sc: SectorCtx, stock: Stock, stockIndex: nat,
                            sectorPositions: seq<PlacedPoint>, points: seq<PlacedPoint>, k: nat)
    ensures var nodeSize := NodeSizeByMarketCap(stock.marketCapCategory, env.rand(k));
      var searchStart := k + SizeDraws(stock.marketCapCategory);
      PlaceOne(env, sc, stock, stockIndex, sectorPositions, points, k)
      == PlaceWith(env, sc, stock, stockIndex, nodeSize, sectorPositions, points, Candidates(env, sc, searchStart), searchStart)
  {
  }

  /**
   * The entry carries the stock and the size its category gives, and at
   * least one draw is taken.
   */
  lemma {:induction false} PlaceOneEntry(env: Env, sc: SectorCtx, stock: Stock, stockIndex: nat,
                                         sectorPositions: seq<PlacedPoint>, points: seq<PlacedPoint>, k: nat)
    ensures var r := PlaceOne(env, sc, stock, stockIndex, sectorPositions, points, k);
      && r.point.stock == stock
      && r.point.size == NodeSizeByMarketCap(stock.marketCapCategory, env.rand(k))
      && r.next > k
  {
    var nodeSize := NodeSizeByMarketCap(stock.marketCapCategory, env.rand(k));
    var searchStart := k + SizeDraws(stock.marketCapCategory);
    PlaceOneIsPlaceWith(env, sc, stock, stockIndex, sectorPositions, points, k);
    PlaceWithFacts(env, sc, stock, stockIndex, nodeSize, sectorPositions, points, Candidates(env, sc, searchStart), searchStart);
  }

  /** A position from the search passes both tests against the nodes placed before it. */
  lemma {:induction false} PlaceOneSearchedAccepted(env: Env, sc: SectorCtx, stock: Stock, stockIndex: nat,
                                                    sectorPositions: seq<PlacedPoint>, points: seq<PlacedPoint>, k: nat)
    ensures var r := PlaceOne(env, sc, stock, stockIndex, sectorPositions, points, k);
      !r.fellBack ==>
        Accepted(env.num, sc, r.point.position, NodeSizeByMarketCap(stock.marketCapCategory, env.rand(k)), sectorPositions, points)
  {
    var nodeSize := NodeSizeByMarketCap(stock.marketCapCategory, env.rand(k));
    var searchStart := k + SizeDraws(stock.marketCapCategory);
    PlaceOneIsPlaceWith(env, sc, stock, stockIndex, sectorPositions, points, k);
    PlaceWithFacts(env, sc, stock, stockIndex, nodeSize, sectorPositions, points, Candidates(env, sc, searchStart), searchStart);
  }

  /** The search from the first candidate finds nothing exactly when every candidate fails one of the two tests. */
  lemma {:induction false} SearchFailsIffAllRejected(num: Numerics, sc: SectorCtx, size: real,
                                                     sectorPositions: seq<PlacedPoint>, points: seq<PlacedPoint>,
                                                     candidates: seq<Vec3>)
    ensures SearchFrom(num, sc, size, sectorPositions, points, candidates, 0).position.None?
        <==> forall j :: 0 <= j < |candidates| ==> !Accepted(num, sc, candidates[j], size, sectorPositions, points)
  {
    var r := SearchFrom(num, sc, size, sectorPositions, points, candidates, 0);
    SearchSkipsOnlyRejected(num, sc, size, sectorPositions, points, candidates, 0);
    SearchFindsAccepted(num, sc, size, sectorPositions, points, candidates, 0);
    if r.position.Some? {
      assert Accepted(num, sc, candidates[r.attempts - 1], size, sectorPositions, points);
    }
  }

  /** Whatever the candidates, the fallback is used exactly when every one of them fails a test. */
  lemma {:induction false} PlaceWithFallsBackIffAllRejected(env: Env, sc: SectorCtx, stock: Stock, stockIndex: nat,
                                                            nodeSize: real, sectorPositions: seq<PlacedPoint>,
                                                            points: seq<PlacedPoint>, candidates: seq<Vec3>,
                                                            searchStart: nat)
    ensures PlaceWith(env, sc, stock, stockIndex, nodeSize, sectorPositions, points, candidates, searchStart).fellBack
        <==> forall j :: 0 <= j < |candidates| ==> !Accepted(env.num, sc, candidates[j], nodeSize, sectorPositions, points)
  {
    SearchFailsIffAllRejected(env.num, sc, nodeSize, sectorPositions, points, candidates);
  }

  /**
   * The fallback is used exactly when none of the stock's 200 candidates,
   * drawn after its size, passes both tests at the drawn size.
   */
  lemma {:induction false} PlaceOneFallsBackIffAllRejected(env: Env, sc: SectorCtx, stock: Stock, stockIndex: nat,
                                                           sectorPositions: seq<PlacedPoint>, points: seq<PlacedPoint>,
                                                           k: nat)
    ensures var candidates := Candidates(env, sc, k + SizeDraws(stock.marketCapCategory));
      var nodeSize := NodeSizeByMarketCap(stock.marketCapCategory, env.rand(k));
      (PlaceOne(env, sc, stock, stockIndex, sectorPositions, points, k).fellBack
       <==> forall j :: 0 <= j < |candidates| ==> !Accepted(env.num, sc, candidates[j], nodeSize, sectorPositions, points))
  {
    var nodeSize := NodeSizeByMarketCap(stock.marketCapCategory, env.rand(k));
    var searchStart := k + SizeDraws(stock.marketCapCategory);
    PlaceOneIsPlaceWith(env, sc, stock, stockIndex, sectorPositions, points, k);
    PlaceWithFallsBackIffAllRejected(env, sc, stock, stockIndex, nodeSize, sectorPositions, points,
                                     Candidates(env, sc, searchStart), searchStart);
  }

  /**
   * One stock's placement as the sector loop sees it: from the stock, its
   * index within the sector, the sector's nodes so far, all nodes so far and
   * the cursor, to the placed entry.
   */
  type PlaceStep = (Stock, nat, seq<PlacedPoint>, seq<PlacedPoint>, nat) -> Placed

  /** The placement step of create3DSectorClusters for one sector. */
  function PlaceStepFor(env: Env, sc: SectorCtx): PlaceStep
  {
    (stock: Stock, stockIndex: nat, sectorPositions: seq<PlacedPoint>, points: seq<PlacedPoint>, k: nat) => PlaceOne(env, sc, stock, stockIndex, sectorPositions, points, k)
  }

  /** Every entry the step places carries the stock it was given. */
  ghost predicate KeepsStock(place: PlaceStep)
  {
    forall stock, i, sp, points, k :: place(stock, i, sp, points, k).point.stock == stock
  }

  /** Every entry the step places without the fallback passes both tests against the nodes so far. */
  ghost predicate SearchedAreAccepted(num: Numerics, sc: SectorCtx, place: PlaceStep)
  {
    forall stock, i, sp, points, k :: !place(stock, i, sp, points, k).fellBack ==>
      Accepted(num, sc, place(stock, i, sp, points, k).point.position, place(stock, i, sp, points, k).point.size, sp, points)
  }

  lemma {:induction false} PlaceStepForContract(env: Env, sc: SectorCtx)
    ensures KeepsStock(PlaceStepFor(env, sc))
    ensures SearchedAreAccepted(env.num, sc, PlaceStepFor(env, sc))
  {
    var place := PlaceStepFor(env, sc);
    forall stock, i, sp, points, k
      ensures place(stock, i, sp, points, k).point.stock == stock
      ensures !place(stock, i, sp, points, k).fellBack ==>
        Accepted(env.num, sc, place(stock, i, sp, points, k).point.position, place(stock, i, sp, points, k).point.size, sp, points)
    {
      PlaceOneEntry(env, sc, stock, i, sp, points, k);
      PlaceOneSearchedAccepted(env, sc, stock, i, sp, points, k);
    }
  }

  /** The layout state inside a sector: the sector's nodes, all nodes, the fallback flags, the cursor. */
  datatype Progress = Progress(sectorPositions: seq<PlacedPoint>, points: seq<PlacedPoint>, fellBack: seq<bool>, next: nat)

  /** The loop over a sector's stocks, from stock i on; each entry goes to both lists. */
  function PlaceSectorFrom(place: PlaceStep, group: seq<Stock>, i: nat, st: Progress): Progress
    requires i <= |group|
    decreases |group| - i
  {
    if i == |group| then st
    else
      var placed := place(group[i], i, st.sectorPositions, st.points, st.next);
      PlaceSectorFrom(place, group, i + 1,
        Progress(st.sectorPositions + [placed.point], st.points + [placed.point],
                 st.fellBack + [placed.fellBack], placed.next))
  }

  /** The result of the whole layout: the points, the fallback flags, each sector's overlap count, the cursor. */
  datatype LayoutResult = LayoutResult(points: seq<PlacedPoint>, fellBack: seq<bool>, overlapCounts: seq<nat>, next: nat)

  /** The context of the sector listed at position si. */
  function SectorCtxAt(num: Numerics, stocks: seq<Stock>, si: nat): SectorCtx
    requires si < |Sectors(stocks)|
  {
    var sector := Sectors(stocks)[si];
    MembersNonEmpty(stocks, sector);
    SectorCtxFor(num, sector, si, |Members(stocks, sector)|)
  }

  /** One iteration of the sector loop: place the sector's stocks, then count its overlaps. */
  function LayoutStep(env: Env, stocks: seq<Stock>, si: nat, acc: LayoutResult): LayoutResult
    requires si < |Sectors(stocks)|
  {
    var sc := SectorCtxAt(env.num, stocks, si);
    var placed := PlaceSectorFrom(PlaceStepFor(env, sc), Members(stocks, sc.name), 0, Progress([], acc.points, acc.fellBack, acc.next));
    var overlapCount: nat := |ViolatingPairs(env.num, placed.sectorPositions, sc.minDistance)|;
    LayoutResult(placed.points, placed.fellBack, acc.overlapCounts + [overlapCount], placed.next)
  }

  /** The loop over the sectors, from the sector listed at si on. */
  function LayoutFrom(env: Env, stocks: seq<Stock>, si: nat, acc: LayoutResult): LayoutResult
    requires si <= |Sectors(stocks)|
    decreases |Sectors(stocks)| - si
  {
    if si == |Sectors(stocks)| then acc
    else LayoutFrom(env, stocks, si + 1, LayoutStep(env, stocks, si, acc))
  }

  /** create3DSectorClusters on `stocks`, with the random stream starting at k. */
  function Layout(env: Env, stocks: seq<Stock>, k: nat): LayoutResult
  {
    LayoutFrom(env, stocks, 0, LayoutResult([], [], [], k))
  }
}
