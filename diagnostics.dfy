/**
 * The verification pass run after each sector is placed: it counts the
 * pairs of the sector's nodes that sit closer than their radii plus the
 * sector's minimum distance. It only reads the positions.
 */
module Diagnostics {
  import opened Geometry
  import opened Records

  /** Entries a and b of a sector are closer than their radii plus the minimum distance. */
  predicate Violates(num: Numerics, ps: seq<PlacedPoint>, minDistance: real, a: nat, b: nat)
    requires a < |ps| && b < |ps|
  {
    Distance(num, ps[a].position, ps[b].position) < ps[a].size + ps[b].size + minDistance
  }

  /** The violating pairs (a, b) with a < b < j, in increasing b. */
  function RowPairs(num: Numerics, ps: seq<PlacedPoint>, minDistance: real, a: nat, j: nat): seq<(nat, nat)>
    requires a < |ps| && j <= |ps|
  {
    if j <= a + 1 then []
    else RowPairs(num, ps, minDistance, a, j - 1)
         + (if Violates(num, ps, minDistance, a, j - 1) then [(a, j - 1)] else [])
  }

  /** The violating pairs whose first index is below i, row by row. */
  function PairsBefore(num: Numerics, ps: seq<PlacedPoint>, minDistance: real, i: nat): seq<(nat, nat)>
    requires i <= |ps|
  {
    if i == 0 then [] else PairsBefore(num, ps, minDistance, i - 1) + RowPairs(num, ps, minDistance, i - 1, |ps|)
  }

  /** All violating pairs of the sector, in the order the pass meets them. */
  function ViolatingPairs(num: Numerics, ps: seq<PlacedPoint>, minDistance: real): seq<(nat, nat)>
  {
    PairsBefore(num, ps, minDistance, |ps|)
  }

  /** Row a up to j holds (x, y) exactly when x is a and y a later index below j whose pair violates. */
  lemma {:induction false} RowPairsMember(num: Numerics, ps: seq<PlacedPoint>, minDistance: real, a: nat, j: nat,
                                          x: nat, y: nat)
    requires a < |ps| && j <= |ps|
    ensures (x, y) in RowPairs(num, ps, minDistance, a, j) <==> x == a && a < y < j && Violates(num, ps, minDistance, x, y)
  {
    if j > a + 1 {
      RowPairsMember(num, ps, minDistance, a, j - 1, x, y);
      var shorter := RowPairs(num, ps, minDistance, a, j - 1);
      var last: seq<(nat, nat)> := if Violates(num, ps, minDistance, a, j - 1) then [(a, j - 1)] else [];
      assert RowPairs(num, ps, minDistance, a, j) == shorter + last;
      assert (x, y) in shorter + last <==> (x, y) in shorter || (x, y) in last;
    }
  }

  /** The rows before i hold (x, y) exactly when x is below i and the ordered pair violates. */
  lemma {:induction false} PairsBeforeMember(num: Numerics, ps: seq<PlacedPoint>, minDistance: real, i: nat,
                                             x: nat, y: nat)
    requires i <= |ps|
    ensures (x, y) in PairsBefore(num, ps, minDistance, i) <==> x < i && x < y < |ps| && Violates(num, ps, minDistance, x, y)
  {
    if i > 0 {
      PairsBeforeMember(num, ps, minDistance, i - 1, x, y);
      RowPairsMember(num, ps, minDistance, i - 1, |ps|, x, y);
      var before := PairsBefore(num, ps, minDistance, i - 1);
      var row := RowPairs(num, ps, minDistance, i - 1, |ps|);
      assert PairsBefore(num, ps, minDistance, i) == before + row;
      assert (x, y) in before + row <==> (x, y) in before || (x, y) in row;
    }
  }

  /** A pair is reported exactly when it is an ordered pair of the sector that violates the minimum distance. */
  lemma {:induction false} ViolatingPairsExactly(num: Numerics, ps: seq<PlacedPoint>, minDistance: real)
    ensures forall x: nat, y: nat :: (x, y) in ViolatingPairs(num, ps, minDistance)
              <==> x < y < |ps| && Violates(num, ps, minDistance, x, y)
  {
    forall x: nat, y: nat
      ensures (x, y) in ViolatingPairs(num, ps, minDistance) <==> x < y < |ps| && Violates(num, ps, minDistance, x, y)
    {
      PairsBeforeMember(num, ps, minDistance, |ps|, x, y);
    }
  }

  /** The ordered violating pairs of the sector, as a set. */
  function ViolatingPairSet(num: Numerics, ps: seq<PlacedPoint>, minDistance: real): set<(nat, nat)>
  {
    set x: nat, y: nat | x < y < |ps| && Violates(num, ps, minDistance, x, y) :: (x, y)
  }

  /** No pair appears twice in the list. */
  predicate NoRepeats(pairs: seq<(nat, nat)>)
  {
    forall p, q :: 0 <= p < q < |pairs| ==> pairs[p] != pairs[q]
  }

  lemma {:induction false} NoRepeatsConcat(a: seq<(nat, nat)>, b: seq<(nat, nat)>)
    requires NoRepeats(a) && NoRepeats(b)
    requires forall e :: e in a ==> e !in b
    ensures NoRepeats(a + b)
  {
    forall p, q | 0 <= p < q < |a + b|
      ensures (a + b)[p] != (a + b)[q]
    {
      if p < |a| && |a| <= q {
        assert (a + b)[p] == a[p] && a[p] in a;
        assert (a + b)[q] == b[q - |a|] && b[q - |a|] in b;
      }
    }
  }

  /** A list without repeats has as many entries as distinct elements. */
  lemma {:induction false} NoRepeatsCount(pairs: seq<(nat, nat)>)
    requires NoRepeats(pairs)
    ensures |set e | e in pairs| == |pairs|
    decreases |pairs|
  {
    if |pairs| > 0 {
      var init, last := pairs[..|pairs| - 1], pairs[|pairs| - 1];
      assert pairs == init + [last];
      assert NoRepeats(init);
      NoRepeatsCount(init);
      assert last !in init;
      assert (set e | e in pairs) == (set e | e in init) + {last};
    }
  }

  /** Each row lists each of its pairs once. */
  lemma {:induction false} RowPairsNoRepeats(num: Numerics, ps: seq<PlacedPoint>, minDistance: real, a: nat, j: nat)
    requires a < |ps| && j <= |ps|
    ensures NoRepeats(RowPairs(num, ps, minDistance, a, j))
  {
    if j > a + 1 {
      RowPairsNoRepeats(num, ps, minDistance, a, j - 1);
      RowPairsMember(num, ps, minDistance, a, j - 1, a, j - 1);
      var last: seq<(nat, nat)> := if Violates(num, ps, minDistance, a, j - 1) then [(a, j - 1)] else [];
      NoRepeatsConcat(RowPairs(num, ps, minDistance, a, j - 1), last);
    }
  }

  /** The rows before i together list each of their pairs once. */
  lemma {:induction false} PairsBeforeNoRepeats(num: Numerics, ps: seq<PlacedPoint>, minDistance: real, i: nat)
    requires i <= |ps|
    ensures NoRepeats(PairsBefore(num, ps, minDistance, i))
  {
    if i > 0 {
      PairsBeforeNoRepeats(num, ps, minDistance, i - 1);
      RowPairsNoRepeats(num, ps, minDistance, i - 1, |ps|);
      RowsDisjoint(num, ps, minDistance, i - 1);
      NoRepeatsConcat(PairsBefore(num, ps, minDistance, i - 1), RowPairs(num, ps, minDistance, i - 1, |ps|));
    }
  }

  /** Row i shares no pair with the rows before it. */
  lemma {:induction false} RowsDisjoint(num: Numerics, ps: seq<PlacedPoint>, minDistance: real, i: nat)
    requires i < |ps|
    ensures forall e: (nat, nat) :: e in PairsBefore(num, ps, minDistance, i) ==> e !in RowPairs(num, ps, minDistance, i, |ps|)
  {
    forall e: (nat, nat) | e in PairsBefore(num, ps, minDistance, i)
      ensures e !in RowPairs(num, ps, minDistance, i, |ps|)
    {
      var (x, y) := e;
      PairsBeforeMember(num, ps, minDistance, i, x, y);
      RowPairsMember(num, ps, minDistance, i, |ps|, x, y);
    }
  }

  /**
   * The pass counts every ordered violating pair exactly once: the length of
   * the list is the number of pairs i < j of the sector that violate.
   */
  lemma {:induction false} ViolatingPairsCountEachOnce(num: Numerics, ps: seq<PlacedPoint>, minDistance: real)
    ensures NoRepeats(ViolatingPairs(num, ps, minDistance))
    ensures |ViolatingPairs(num, ps, minDistance)| == |ViolatingPairSet(num, ps, minDistance)|
  {
    var vp := ViolatingPairs(num, ps, minDistance);
    PairsBeforeNoRepeats(num, ps, minDistance, |ps|);
    NoRepeatsCount(vp);
    ViolatingPairsExactly(num, ps, minDistance);
    forall e: (nat, nat)
      ensures e in vp <==> e in ViolatingPairSet(num, ps, minDistance)
    {
      assert e == (e.0, e.1);
    }
    assert (set e | e in vp) == ViolatingPairSet(num, ps, minDistance);
  }

  /** The count is zero exactly when no pair of the sector violates the minimum distance. */
  lemma {:induction false} NoOverlapsIffSeparated(num: Numerics, ps: seq<PlacedPoint>, minDistance: real)
    ensures |ViolatingPairs(num, ps, minDistance)| == 0
        <==> forall a: nat, b: nat :: a < b < |ps| ==> !Violates(num, ps, minDistance, a, b)
  {
    ViolatingPairsExactly(num, ps, minDistance);
    var vp := ViolatingPairs(num, ps, minDistance);
    if |vp| > 0 {
      assert vp[0] in vp;
      var (a, b) := vp[0];
      assert a < b < |ps| && Violates(num, ps, minDistance, a, b);
    }
  }

  /**
   * A sector each of whose nodes kept the minimum distance from the nodes
   * placed before it, measured from the later node as the search does,
   * reports no overlaps.
   */
  lemma {:induction false} SeparatedSectorReportsNothing(num: Numerics, ps: seq<PlacedPoint>, minDistance: real)
    requires EvenSquare(num)
    requires forall a, b :: 0 <= a < b < |ps| ==>
               Distance(num, ps[b].position, ps[a].position) >= ps[b].size + ps[a].size + minDistance
    ensures |ViolatingPairs(num, ps, minDistance)| == 0
  {
    forall a: nat, b: nat | a < b < |ps|
      ensures !Violates(num, ps, minDistance, a, b)
    {
      DistanceSymmetric(num, ps[a].position, ps[b].position);
    }
    NoOverlapsIffSeparated(num, ps, minDistance);
  }

  /** The verification pass: the number of violating pairs i < j of one sector. */
  method CountOverlaps(num: Numerics, sectorPositions: seq<PlacedPoint>, minDistance: real) returns (overlapCount: nat)
    ensures overlapCount == |ViolatingPairs(num, sectorPositions, minDistance)|
    ensures overlapCount == |ViolatingPairSet(num, sectorPositions, minDistance)|
  {
    var ps := sectorPositions;
    overlapCount := 0;
    for i := 0 to |ps|
      invariant overlapCount == |PairsBefore(num, ps, minDistance, i)|
    {
      for j := i + 1 to |ps|
        invariant overlapCount == |PairsBefore(num, ps, minDistance, i)| + |RowPairs(num, ps, minDistance, i, j)|
      {
        var distance := Distance(num, ps[i].position, ps[j].position);
        var minRequired := ps[i].size + ps[j].size + minDistance;
        if distance < minRequired {
          overlapCount := overlapCount + 1;
        }
      }
    }
    ViolatingPairsCountEachOnce(num, ps, minDistance);
  }
}
