/**
 * What the cluster layout guarantees, proved about the functions of the
 * Placement module: every stock is placed exactly once, grouped by sector
 * in first-appearance order; every position found by the search keeps both
 * gaps from every node placed before it; and a sector whose stocks were all
 * placed by the search reports no overlaps.
 */
module LayoutProperties {
  import opened Geometry
  import opened Records
  import opened Grouping
  import opened Diagnostics
  import opened Placement

  /**
   * p, placed after q, keeps the 8.0 gap from it and, when both are of the
   * same sector, that sector's intra-sector gap too.
   */
  predicate SeparatedFrom(num: Numerics, stocks: seq<Stock>, p: PlacedPoint, q: PlacedPoint)
  {
    var d := Distance(num, p.position, q.position);
    && d >= p.size + q.size + InterSectorGap
    && (p.stock.sector == q.stock.sector ==> d >= p.size + q.size + SectorMinDistance(num, stocks, p.stock.sector))
  }

  /** Every node the search placed (its fallback flag is off) is separated from all nodes before it. */
  predicate Separated(num: Numerics, stocks: seq<Stock>, points: seq<PlacedPoint>, fellBack: seq<bool>)
    requires |fellBack| == |points|
  {
    forall i, j :: 0 <= j < i < |points| && !fellBack[i] ==> SeparatedFrom(num, stocks, points[i], points[j])
  }

  lemma PrefixStep<T>(a: seq<T>, s: seq<T>, x: T)
    requires |a| >= |s| + 1 && a[..|s| + 1] == s + [x]
    ensures a[..|s|] == s
    ensures a[|s|..] == [x] + a[|s| + 1..]
  {
    assert a[..|s|] == a[..|s| + 1][..|s|];
    assert a[|s|] == a[..|s| + 1][|s|];
  }

  lemma ConsSlice<T>(s: seq<T>, i: nat)
    requires i < |s|
    ensures s[i..] == [s[i]] + s[i + 1..]
  {
  }

  lemma AppendRegroup<T>(s: seq<T>, x: T, t: seq<T>, u: seq<T>)
    requires u == [x] + t
    ensures (s + [x]) + t == s + u
  {
  }

  /** Placing a sector adds one fallback flag per stock of the group and keeps the earlier flags. */
  lemma {:induction false} PlaceSectorFlags(place: PlaceStep, group: seq<Stock>, i: nat, st: Progress)
    requires i <= |group|
    ensures |PlaceSectorFrom(place, group, i, st).fellBack| == |st.fellBack| + (|group| - i)
    ensures PlaceSectorFrom(place, group, i, st).fellBack[..|st.fellBack|] == st.fellBack
    decreases |group| - i
  {
    if i < |group| {
      var placed := place(group[i], i, st.sectorPositions, st.points, st.next);
      var st' := Progress(st.sectorPositions + [placed.point], st.points + [placed.point],
                          st.fellBack + [placed.fellBack], placed.next);
      PlaceSectorFlags(place, group, i + 1, st');
      PrefixStep(PlaceSectorFrom(place, group, i + 1, st').fellBack, st.fellBack, placed.fellBack);
    }
  }

  /**
   * Placing a sector appends one entry per stock of the group to the
   * sector's list, and the same entries to the list of all points.
   */
  lemma {:induction false} PlaceSectorAppends(place: PlaceStep, group: seq<Stock>, i: nat, st: Progress)
    requires i <= |group|
    ensures |PlaceSectorFrom(place, group, i, st).sectorPositions| == |st.sectorPositions| + (|group| - i)
    ensures PlaceSectorFrom(place, group, i, st).sectorPositions[..|st.sectorPositions|] == st.sectorPositions
    ensures PlaceSectorFrom(place, group, i, st).points
         == st.points + PlaceSectorFrom(place, group, i, st).sectorPositions[|st.sectorPositions|..]
    decreases |group| - i
  {
    var n := |st.sectorPositions|;
    if i < |group| {
      var placed := place(group[i], i, st.sectorPositions, st.points, st.next);
      var st' := Progress(st.sectorPositions + [placed.point], st.points + [placed.point],
                          st.fellBack + [placed.fellBack], placed.next);
      PlaceSectorAppends(place, group, i + 1, st');
      var tail := PlaceSectorFrom(place, group, i + 1, st').sectorPositions;
      PrefixStep(tail, st.sectorPositions, placed.point);
      AppendRegroup(st.points, placed.point, tail[n + 1..], tail[n..]);
    } else {
      assert st.sectorPositions[n..] == [];
    }
  }

  /** The entries a sector adds carry the group's stocks, in group order. */
  lemma {:induction false} PlaceSectorStocks(place: PlaceStep, group: seq<Stock>, i: nat, st: Progress)
    requires KeepsStock(place)
    requires i <= |group|
    ensures |PlaceSectorFrom(place, group, i, st).sectorPositions| >= |st.sectorPositions|
    ensures StocksOf(PlaceSectorFrom(place, group, i, st).sectorPositions[|st.sectorPositions|..]) == group[i..]
    decreases |group| - i
  {
    var n := |st.sectorPositions|;
    PlaceSectorAppends(place, group, i, st);
    if i < |group| {
      var placed := place(group[i], i, st.sectorPositions, st.points, st.next);
      var st' := Progress(st.sectorPositions + [placed.point], st.points + [placed.point],
                          st.fellBack + [placed.fellBack], placed.next);
      PlaceSectorStocks(place, group, i + 1, st');
      var tail := PlaceSectorFrom(place, group, i + 1, st').sectorPositions;
      PlaceSectorAppends(place, group, i + 1, st');
      PrefixStep(tail, st.sectorPositions, placed.point);
      ConsSlice(group, i);
      StocksOfConcat([placed.point], tail[n + 1..]);
    } else {
      assert st.sectorPositions[n..] == [];
    }
  }

  /**
   * Placing a sector keeps every search-placed node separated, given that
   * the sector's nodes so far are the tail of all nodes and no earlier node
   * belongs to the sector.
   */
  lemma {:induction false} PlaceSectorSeparated(num: Numerics, stocks: seq<Stock>, sc: SectorCtx, place: PlaceStep,
                                                group: seq<Stock>, i: nat, st: Progress)
    requires KeepsStock(place) && SearchedAreAccepted(num, sc, place)
    requires i <= |group|
    requires |st.fellBack| == |st.points|
    requires |st.sectorPositions| <= |st.points|
    requires st.sectorPositions == st.points[|st.points| - |st.sectorPositions|..]
    requires sc.minDistance == SectorMinDistance(num, stocks, sc.name)
    requires forall m :: 0 <= m < |group| ==> group[m].sector == sc.name
    requires forall j :: 0 <= j < |st.points| - |st.sectorPositions| ==> st.points[j].stock.sector != sc.name
    requires forall m :: 0 <= m < |st.sectorPositions| ==> st.sectorPositions[m].stock.sector == sc.name
    requires Separated(num, stocks, st.points, st.fellBack)
    ensures var r := PlaceSectorFrom(place, group, i, st);
      |r.fellBack| == |r.points| && Separated(num, stocks, r.points, r.fellBack)
    decreases |group| - i
  {
    if i < |group| {
      var placed := place(group[i], i, st.sectorPositions, st.points, st.next);
      var p := placed.point;
      var st' := Progress(st.sectorPositions + [p], st.points + [p], st.fellBack + [placed.fellBack], placed.next);
      var n := |st.points|;
      var base := n - |st.sectorPositions|;
      assert st'.sectorPositions == st'.points[base..];
      forall a, b | 0 <= b < a < |st'.points| && !st'.fellBack[a]
        ensures SeparatedFrom(num, stocks, st'.points[a], st'.points[b])
      {
        if a < n {
          assert st'.points[a] == st.points[a] && st'.points[b] == st.points[b] && st'.fellBack[a] == st.fellBack[a];
        } else {
          assert st'.points[a] == p && st'.points[b] == st.points[b];
          assert Accepted(num, sc, p.position, p.size, st.sectorPositions, st.points);
          var q := st.points[b];
          assert !CheckSphereOverlap(num, p.position, p.size, q.position, q.size, InterSectorGap);
          if q.stock.sector == p.stock.sector {
            assert b >= base;
            assert st.sectorPositions[b - base] == q;
            assert !TooClose(num, p.position, p.size, sc.minDistance, st.sectorPositions[b - base]);
          }
        }
      }
      PlaceSectorSeparated(num, stocks, sc, place, group, i + 1, st');
    }
  }

  /** What holds after the first si sectors: their groups placed in order, gaps kept, one count per sector. */
  predicate LayoutInvariant(num: Numerics, stocks: seq<Stock>, si: nat, acc: LayoutResult)
    requires si <= |Sectors(stocks)|
  {
    && StocksOf(acc.points) == ConcatGroups(stocks, Sectors(stocks)[..si])
    && |acc.fellBack| == |acc.points|
    && |acc.overlapCounts| == si
    && Separated(num, stocks, acc.points, acc.fellBack)
  }

  /** No stock placed for the sectors listed before si belongs to the sector listed at si. */
  lemma {:induction false} EarlierPointsOutsideSector(stocks: seq<Stock>, si: nat, points: seq<PlacedPoint>)
    requires si < |Sectors(stocks)|
    requires StocksOf(points) == ConcatGroups(stocks, Sectors(stocks)[..si])
    ensures forall j :: 0 <= j < |points| ==> points[j].stock.sector != Sectors(stocks)[si]
  {
    var S := Sectors(stocks);
    ConcatGroupsSectors(stocks, S[..si]);
    SectorsDistinct(stocks);
    assert S[si] !in S[..si];
    forall j | 0 <= j < |points|
      ensures points[j].stock.sector != S[si]
    {
      assert StocksOf(points)[j] == points[j].stock;
      assert points[j].stock in ConcatGroups(stocks, S[..si]);
    }
  }

  lemma {:induction false} GroupIsOneSector(stocks: seq<Stock>, sector: string)
    ensures forall m :: 0 <= m < |Members(stocks, sector)| ==> Members(stocks, sector)[m].sector == sector
  {
    MembersAreTheSector(stocks, sector);
    forall m | 0 <= m < |Members(stocks, sector)|
      ensures Members(stocks, sector)[m].sector == sector
    {
      assert Members(stocks, sector)[m] in Members(stocks, sector);
    }
  }

  lemma {:induction false} ConcatGroupsStep(stocks: seq<Stock>, si: nat, a: seq<PlacedPoint>, b: seq<PlacedPoint>)
    requires si < |Sectors(stocks)|
    requires StocksOf(a) == ConcatGroups(stocks, Sectors(stocks)[..si])
    requires StocksOf(b) == Members(stocks, Sectors(stocks)[si])
    ensures StocksOf(a + b) == ConcatGroups(stocks, Sectors(stocks)[..si + 1])
  {
    var S := Sectors(stocks);
    StocksOfConcat(a, b);
    assert S[..si + 1][..si] == S[..si];
  }

  /** One iteration of the sector loop keeps the invariant. */
  lemma {:induction false} LayoutStepKeepsInvariant(env: Env, stocks: seq<Stock>, si: nat, acc: LayoutResult)
    requires si < |Sectors(stocks)|
    requires LayoutInvariant(env.num, stocks, si, acc)
    ensures LayoutInvariant(env.num, stocks, si + 1, LayoutStep(env, stocks, si, acc))
  {
    var sc := SectorCtxAt(env.num, stocks, si);
    var place := PlaceStepFor(env, sc);
    PlaceStepForContract(env, sc);
    var group := Members(stocks, sc.name);
    var st := Progress([], acc.points, acc.fellBack, acc.next);
    EarlierPointsOutsideSector(stocks, si, acc.points);
    GroupIsOneSector(stocks, sc.name);
    assert acc.points[|acc.points|..] == [];
    PlaceSectorAppends(place, group, 0, st);
    PlaceSectorStocks(place, group, 0, st);
    PlaceSectorFlags(place, group, 0, st);
    PlaceSectorSeparated(env.num, stocks, sc, place, group, 0, st);
    var placed := PlaceSectorFrom(place, group, 0, st);
    assert placed.sectorPositions[0..] == placed.sectorPositions;
    assert group[0..] == group;
    ConcatGroupsStep(stocks, si, acc.points, placed.sectorPositions);
  }

  /** The sector-by-sector loop keeps its invariant to the end. */
  lemma {:induction false} LayoutFromInvariant(env: Env, stocks: seq<Stock>, si: nat, acc: LayoutResult)
    requires si <= |Sectors(stocks)|
    requires LayoutInvariant(env.num, stocks, si, acc)
    ensures LayoutInvariant(env.num, stocks, |Sectors(stocks)|, LayoutFrom(env, stocks, si, acc))
    decreases |Sectors(stocks)| - si
  {
    if si < |Sectors(stocks)| {
      LayoutStepKeepsInvariant(env, stocks, si, acc);
      LayoutFromInvariant(env, stocks, si + 1, LayoutStep(env, stocks, si, acc));
    }
  }

  /**
   * Every stock is placed exactly once: the output's stocks are the sector
   * groups laid end to end, a permutation of the input of the same length;
   * there is one fallback flag per point and one overlap count per sector.
   */
  lemma {:induction false} LayoutPlacesEveryStockOnce(env: Env, stocks: seq<Stock>, k: nat)
    ensures var r := Layout(env, stocks, k);
      && StocksOf(r.points) == ConcatGroups(stocks, Sectors(stocks))
      && multiset(StocksOf(r.points)) == multiset(stocks)
      && |r.points| == |stocks|
      && |r.fellBack| == |r.points|
      && |r.overlapCounts| == |Sectors(stocks)|
  {
    assert Sectors(stocks)[..0] == [];
    LayoutFromInvariant(env, stocks, 0, LayoutResult([], [], [], k));
    assert Sectors(stocks)[..|Sectors(stocks)|] == Sectors(stocks);
    GroupsPartitionStocks(stocks);
  }

  /**
   * Every position the search found keeps a gap of 8.0 plus both radii from
   * every node placed before it, of any sector, and its sector's
   * dynamicMinDistance plus both radii from earlier nodes of its own sector.
   */
  lemma {:induction false} LayoutKeepsGaps(env: Env, stocks: seq<Stock>, k: nat)
    ensures var r := Layout(env, stocks, k);
      |r.fellBack| == |r.points| && Separated(env.num, stocks, r.points, r.fellBack)
  {
    assert Sectors(stocks)[..0] == [];
    LayoutFromInvariant(env, stocks, 0, LayoutResult([], [], [], k));
  }

  /**
   * When the last nodes of a separated layout all come from the search and
   * all belong to one sector, that run of nodes has no violating pair at
   * the sector's own gap.
   */
  lemma {:induction false} SearchedRunIsClean(num: Numerics, stocks: seq<Stock>, points: seq<PlacedPoint>,
                                              fellBack: seq<bool>, n: nat, sector: string)
    requires EvenSquare(num)
    requires |fellBack| == |points| && n <= |points|
    requires Separated(num, stocks, points, fellBack)
    requires forall i :: n <= i < |fellBack| ==> !fellBack[i]
    requires forall i :: n <= i < |points| ==> points[i].stock.sector == sector
    ensures |ViolatingPairs(num, points[n..], SectorMinDistance(num, stocks, sector))| == 0
  {
    var sp := points[n..];
    forall a, b | 0 <= a < b < |sp|
      ensures Distance(num, sp[b].position, sp[a].position)
              >= sp[b].size + sp[a].size + SectorMinDistance(num, stocks, sector)
    {
      assert points[n + b] == sp[b] && points[n + a] == sp[a];
      assert SeparatedFrom(num, stocks, points[n + b], points[n + a]);
    }
    SeparatedSectorReportsNothing(num, sp, SectorMinDistance(num, stocks, sector));
  }

  lemma {:induction false} EntriesOfGroup(sp: seq<PlacedPoint>, group: seq<Stock>, sector: string)
    requires StocksOf(sp) == group
    requires forall m :: 0 <= m < |group| ==> group[m].sector == sector
    ensures forall m :: 0 <= m < |sp| ==> sp[m].stock.sector == sector
  {
    forall m | 0 <= m < |sp|
      ensures sp[m].stock.sector == sector
    {
      assert StocksOf(sp)[m] == sp[m].stock;
    }
  }

  /**
   * A sector none of whose stocks needed the fallback passes the
   * verification pass with no overlaps.
   */
  lemma {:induction false} SectorWithoutFallbackReportsNothing(env: Env, stocks: seq<Stock>, sc: SectorCtx,
                                                               group: seq<Stock>, points: seq<PlacedPoint>,
                                                               fellBack: seq<bool>, k: nat)
    requires EvenSquare(env.num)
    requires |fellBack| == |points|
    requires sc.minDistance == SectorMinDistance(env.num, stocks, sc.name)
    requires forall m :: 0 <= m < |group| ==> group[m].sector == sc.name
    requires forall j :: 0 <= j < |points| ==> points[j].stock.sector != sc.name
    requires Separated(env.num, stocks, points, fellBack)
    ensures var r := PlaceSectorFrom(PlaceStepFor(env, sc), group, 0, Progress([], points, fellBack, k));
      (forall i :: |fellBack| <= i < |r.fellBack| ==> !r.fellBack[i])
        ==> |ViolatingPairs(env.num, r.sectorPositions, sc.minDistance)| == 0
  {
    var st := Progress([], points, fellBack, k);
    var place := PlaceStepFor(env, sc);
    PlaceStepForContract(env, sc);
    assert points[|points|..] == [];
    PlaceSectorAppends(place, group, 0, st);
    PlaceSectorStocks(place, group, 0, st);
    PlaceSectorFlags(place, group, 0, st);
    PlaceSectorSeparated(env.num, stocks, sc, place, group, 0, st);
    var r := PlaceSectorFrom(place, group, 0, st);
    var n := |points|;
    assert r.sectorPositions[0..] == r.sectorPositions && group[0..] == group;
    assert r.points[n..] == r.sectorPositions;
    EntriesOfGroup(r.sectorPositions, group, sc.name);
    if forall i :: n <= i < |r.fellBack| ==> !r.fellBack[i] {
      SearchedRunIsClean(env.num, stocks, r.points, r.fellBack, n, sc.name);
    }
  }
}
