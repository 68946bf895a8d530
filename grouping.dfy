/**
 * Grouping the stocks by sector, as the first step of the cluster layout:
 * each sector's stocks in input order, the sectors in the order they are
 * first met.
 */
module Grouping {
  import opened Records

  /** The distinct sectors of `stocks`, in order of first appearance. */
  function Sectors(stocks: seq<Stock>): seq<string>
  {
    if |stocks| == 0 then []
    else
      var earlier := Sectors(stocks[..|stocks| - 1]);
      var s := stocks[|stocks| - 1].sector;
      if s in earlier then earlier else earlier + [s]
  }

  /** The stocks of one sector, in input order. */
  function Members(stocks: seq<Stock>, sector: string): seq<Stock>
  {
    if |stocks| == 0 then []
    else
      var last := stocks[|stocks| - 1];
      Members(stocks[..|stocks| - 1], sector) + (if last.sector == sector then [last] else [])
  }

  /** The groups of the listed sectors, one after the other. */
  function ConcatGroups(stocks: seq<Stock>, sectors: seq<string>): seq<Stock>
  {
    if |sectors| == 0 then []
    else ConcatGroups(stocks, sectors[..|sectors| - 1]) + Members(stocks, sectors[|sectors| - 1])
  }

  lemma {:induction false} PrefixOfAppend<T>(s: seq<T>, x: T)
    ensures (s + [x])[..|s|] == s
  {
  }

  /** The sector list holds every sector of the input and nothing else. */
  lemma {:induction false} SectorsCover(stocks: seq<Stock>)
    ensures forall i :: 0 <= i < |stocks| ==> stocks[i].sector in Sectors(stocks)
    ensures forall s :: s in Sectors(stocks) ==> exists i :: 0 <= i < |stocks| && stocks[i].sector == s
  {
    if |stocks| > 0 {
      var p := stocks[..|stocks| - 1];
      SectorsCover(p);
      assert forall i :: 0 <= i < |p| ==> stocks[i] == p[i];
    }
  }

  /** No sector is listed twice. */
  lemma {:induction false} SectorsDistinct(stocks: seq<Stock>)
    ensures forall a, b :: 0 <= a < b < |Sectors(stocks)| ==> Sectors(stocks)[a] != Sectors(stocks)[b]
  {
    if |stocks| > 0 {
      SectorsDistinct(stocks[..|stocks| - 1]);
    }
  }

  /**
   * Sectors come in first-appearance order: wherever a later-listed sector
   * occurs in the input, an earlier-listed one has already occurred.
   */
  lemma {:induction false} SectorsInFirstAppearanceOrder(stocks: seq<Stock>)
    ensures forall a, b, j :: 0 <= a < b < |Sectors(stocks)| && 0 <= j < |stocks| && stocks[j].sector == Sectors(stocks)[b]
              ==> exists i :: 0 <= i < j && stocks[i].sector == Sectors(stocks)[a]
  {
    var S := Sectors(stocks);
    forall a, b, j | 0 <= a < b < |S| && 0 <= j < |stocks| && stocks[j].sector == S[b]
      ensures exists i :: 0 <= i < j && stocks[i].sector == S[a]
    {
      EarlierSectorOccursFirst(stocks, a, b, j);
    }
  }

  lemma {:induction false} EarlierSectorOccursFirst(stocks: seq<Stock>, a: int, b: int, j: int)
    requires 0 <= a < b < |Sectors(stocks)| && 0 <= j < |stocks| && stocks[j].sector == Sectors(stocks)[b]
    ensures exists i :: 0 <= i < j && stocks[i].sector == Sectors(stocks)[a]
  {
    var n := |stocks| - 1;
    var p := stocks[..n];
    var x := stocks[n];
    var S, P := Sectors(stocks), Sectors(p);
    SectorsCover(p);
    if x.sector in P {
      assert S == P;
      var j' := j;
      if j == n {
        assert P[b] in P;
        j' :| 0 <= j' < n && p[j'].sector == P[b];
      }
      assert p[j'].sector == P[b];
      EarlierSectorOccursFirst(p, a, b, j');
      var i :| 0 <= i < j' && p[i].sector == P[a];
      assert stocks[i].sector == S[a];
    } else if b < |P| {
      assert S == P + [x.sector];
      assert P[b] in P;
      assert j != n;
      assert p[j].sector == P[b];
      EarlierSectorOccursFirst(p, a, b, j);
      var i :| 0 <= i < j && p[i].sector == P[a];
      assert stocks[i].sector == S[a];
    } else {
      assert S == P + [x.sector];
      assert S[a] == P[a] && P[a] in P;
      var i :| 0 <= i < n && p[i].sector == P[a];
      assert j == n;
      assert stocks[i].sector == S[a];
    }
  }

  /** A group holds exactly the input's stocks of that sector, in input order. */
  lemma {:induction false} MembersAreTheSector(stocks: seq<Stock>, sector: string)
    ensures forall x :: x in Members(stocks, sector) ==> x.sector == sector
    ensures forall i :: 0 <= i < |stocks| && stocks[i].sector == sector ==> stocks[i] in Members(stocks, sector)
  {
    if |stocks| > 0 {
      var p := stocks[..|stocks| - 1];
      var last := stocks[|stocks| - 1];
      MembersAreTheSector(p, sector);
      assert Members(stocks, sector) == Members(p, sector) + (if last.sector == sector then [last] else []);
      forall i | 0 <= i < |p|
        ensures stocks[i] == p[i]
      {
      }
    }
  }

  /** A group takes each stock no more often than the input holds it. */
  lemma {:induction false} MembersWithinInput(stocks: seq<Stock>, sector: string)
    ensures multiset(Members(stocks, sector)) <= multiset(stocks)
  {
    if |stocks| > 0 {
      var p, last := stocks[..|stocks| - 1], stocks[|stocks| - 1];
      MembersWithinInput(p, sector);
      assert stocks == p + [last];
      assert multiset(stocks) == multiset(p) + multiset{last};
      if last.sector == sector {
        assert multiset(Members(stocks, sector)) == multiset(Members(p, sector)) + multiset{last};
      } else {
        assert Members(stocks, sector) == Members(p, sector);
      }
    }
  }

  /** Every listed sector has at least one stock. */
  lemma {:induction false} MembersNonEmpty(stocks: seq<Stock>, sector: string)
    requires sector in Sectors(stocks)
    ensures |Members(stocks, sector)| >= 1
  {
    SectorsCover(stocks);
    MembersAreTheSector(stocks, sector);
    var i :| 0 <= i < |stocks| && stocks[i].sector == sector;
    assert stocks[i] in Members(stocks, sector);
  }

  lemma {:induction false} MembersOfAbsentSector(stocks: seq<Stock>, sector: string)
    requires sector !in Sectors(stocks)
    ensures Members(stocks, sector) == []
  {
    if |stocks| > 0 {
      var p := stocks[..|stocks| - 1];
      assert sector !in Sectors(p);
      MembersOfAbsentSector(p, sector);
    }
  }

  /** The concatenated groups only hold stocks of the listed sectors. */
  lemma {:induction false} ConcatGroupsSectors(stocks: seq<Stock>, sectors: seq<string>)
    ensures forall x :: x in ConcatGroups(stocks, sectors) ==> x.sector in sectors
  {
    if |sectors| > 0 {
      ConcatGroupsSectors(stocks, sectors[..|sectors| - 1]);
      MembersAreTheSector(stocks, sectors[|sectors| - 1]);
    }
  }

  lemma {:induction false} ConcatGroupsAppend(stocks: seq<Stock>, x: Stock, sectors: seq<string>)
    requires forall a, b :: 0 <= a < b < |sectors| ==> sectors[a] != sectors[b]
    ensures multiset(ConcatGroups(stocks + [x], sectors))
         == multiset(ConcatGroups(stocks, sectors)) + (if x.sector in sectors then multiset{x} else multiset{})
  {
    if |sectors| > 0 {
      var init := sectors[..|sectors| - 1];
      var s := sectors[|sectors| - 1];
      assert sectors == init + [s];
      ConcatGroupsAppend(stocks, x, init);
      PrefixOfAppend(stocks, x);
      var extra := if x.sector == s then [x] else [];
      assert Members(stocks + [x], s) == Members(stocks, s) + extra;
      assert s !in init;
    }
  }

  /**
   * Grouping is a partition: laying the groups end to end, in sector order,
   * gives back every input stock exactly once.
   */
  lemma {:induction false} GroupsPartitionStocks(stocks: seq<Stock>)
    ensures multiset(ConcatGroups(stocks, Sectors(stocks))) == multiset(stocks)
    ensures |ConcatGroups(stocks, Sectors(stocks))| == |stocks|
  {
    if |stocks| > 0 {
      var p := stocks[..|stocks| - 1];
      var x := stocks[|stocks| - 1];
      assert stocks == p + [x];
      GroupsPartitionStocks(p);
      SectorsDistinct(stocks);
      ConcatGroupsAppend(p, x, Sectors(stocks));
      assert x.sector in Sectors(stocks);
      if x.sector !in Sectors(p) {
        MembersOfAbsentSector(p, x.sector);
        assert Sectors(stocks) == Sectors(p) + [x.sector];
        assert Sectors(stocks)[..|Sectors(p)|] == Sectors(p);
      } else {
        assert Sectors(stocks) == Sectors(p);
      }
      assert multiset(ConcatGroups(stocks, Sectors(stocks))) == multiset(stocks);
    }
    MultisetSizeIsLength(ConcatGroups(stocks, Sectors(stocks)), stocks);
  }

  lemma MultisetSizeIsLength<T>(a: seq<T>, b: seq<T>)
    requires multiset(a) == multiset(b)
    ensures |a| == |b|
  {
    assert |multiset(a)| == |a|;
    assert |multiset(b)| == |b|;
  }

  /**
   * The grouping loop of create3DSectorClusters: one pass over the input,
   * starting a group the first time a sector is seen and appending to it
   * afterwards.
   */
  method GroupBySector(stocks: seq<Stock>) returns (sectors: seq<string>, groups: map<string, seq<Stock>>)
    ensures sectors == Sectors(stocks)
    ensures groups.Keys == set s | s in sectors
    ensures forall s :: s in groups ==> groups[s] == Members(stocks, s)
  {
    sectors, groups := [], map[];
    for i := 0 to |stocks|
      invariant sectors == Sectors(stocks[..i])
      invariant groups.Keys == set s | s in sectors
      invariant forall s :: s in groups ==> groups[s] == Members(stocks[..i], s)
    {
      var stock := stocks[i];
      assert stocks[..i + 1][..i] == stocks[..i];
      if stock.sector !in groups {
        sectors := sectors + [stock.sector];
        groups := groups[stock.sector := []];
        MembersOfAbsentSector(stocks[..i], stock.sector);
      }
      groups := groups[stock.sector := groups[stock.sector] + [stock]];
    }
    assert stocks[..|stocks|] == stocks;
  }
}
