/** Grading scales: validating bands, and grading with a validated scale. Percentages
    are in hundredths, 0 to 10000. */
module GradingScale {
  import opened Common
  import Sorting

  datatype Band = Band(letter: string, min: int, max: int, gradePoint: int, isPass: bool)

  const FULL := 10000

  predicate Contains(b: Band, percent: int) { b.min <= percent <= b.max }

  // --------------------------------------------------------------- validation

  datatype Verdict = Accepted | NoBands | MinAboveMax | GradePointAboveMax | LowestNotZero | HighestNotFull | Overlap | Gap

  predicate ByMin(a: Band, b: Band) { a.min <= b.min }

  /** The first fault of a single band, in order. */
  function BandFault(ordered: seq<Band>, maxGradePoint: int): Verdict {
    if ordered == [] then Accepted
    else if ordered[0].min > ordered[0].max then MinAboveMax
    else if ordered[0].gradePoint > maxGradePoint then GradePointAboveMax
    else BandFault(ordered[1..], maxGradePoint)
  }

  /** The first fault between neighbours, in order. */
  function PairFault(ordered: seq<Band>): Verdict {
    if |ordered| < 2 then Accepted
    else if ordered[1].min <= ordered[0].max then Overlap
    else if ordered[1].min - ordered[0].max > 1 then Gap
    else PairFault(ordered[1..])
  }

  function ValidateOrdered(ordered: seq<Band>, maxGradePoint: int): Verdict
    requires ordered != []
  {
    if BandFault(ordered, maxGradePoint) != Accepted then BandFault(ordered, maxGradePoint)
    else if ordered[0].min != 0 then LowestNotZero
    else if ordered[|ordered| - 1].max != FULL then HighestNotFull
    else PairFault(ordered)
  }

  function ValidateBands(bands: seq<Band>, maxGradePoint: int): Verdict {
    if bands == [] then NoBands else ValidateOrdered(Sorting.Sort(ByMin, bands), maxGradePoint)
  }

  // ----------------------------------------------------------------- exactness

  /** How many bands a mark falls into. */
  function Hits(bands: seq<Band>, percent: int): nat {
    if bands == [] then 0 else Hits(bands[1..], percent) + if Contains(bands[0], percent) then 1 else 0
  }

  /** The bands, in order, cut `start`..100 into consecutive non-empty pieces. */
  predicate Tiles(ordered: seq<Band>, start: int) {
    if ordered == [] then start == FULL + 1
    else ordered[0].min == start <= ordered[0].max && Tiles(ordered[1..], ordered[0].max + 1)
  }

  predicate NonEmpty(bands: seq<Band>) {
    forall b :: b in bands ==> b.min <= b.max
  }

  /** The ends are percentages, as the fields' own validators require. */
  predicate EndsInRange(bands: seq<Band>) {
    forall b :: b in bands ==> 0 <= b.min && b.max <= FULL
  }

  predicate PointsWithin(bands: seq<Band>, maxGradePoint: int) {
    forall b :: b in bands ==> b.gradePoint <= maxGradePoint
  }

  lemma {:induction false} BandFaultExact(ordered: seq<Band>, maxGradePoint: int)
    ensures BandFault(ordered, maxGradePoint) == Accepted <==> NonEmpty(ordered) && PointsWithin(ordered, maxGradePoint)
  {
    if ordered != [] {
      BandFaultExact(ordered[1..], maxGradePoint);
      assert forall b :: b in ordered <==> b == ordered[0] || b in ordered[1..];
    }
  }

  lemma {:induction false} TilesExact(ordered: seq<Band>)
    requires ordered != [] && NonEmpty(ordered)
    ensures Tiles(ordered, ordered[0].min) <==> PairFault(ordered) == Accepted && ordered[|ordered| - 1].max == FULL
  {
    if |ordered| >= 2 {
      TilesExact(ordered[1..]);
    } else {
      assert ordered[1..] == [];
    }
  }

  lemma {:induction false} TilesHitOnce(ordered: seq<Band>, start: int, percent: int)
    requires Tiles(ordered, start) && percent <= FULL
    ensures Hits(ordered, percent) == if start <= percent then 1 else 0
  {
    if ordered != [] {
      TilesHitOnce(ordered[1..], ordered[0].max + 1, percent);
    }
  }

  lemma {:induction false} HitsMember(bands: seq<Band>, percent: int) returns (i: nat)
    requires Hits(bands, percent) > 0
    ensures i < |bands| && Contains(bands[i], percent)
  {
    if Contains(bands[0], percent) {
      i := 0;
    } else {
      var j := HitsMember(bands[1..], percent);
      i := j + 1;
    }
  }

  lemma {:induction false} MemberHits(bands: seq<Band>, percent: int, i: nat)
    requires i < |bands| && Contains(bands[i], percent)
    ensures Hits(bands, percent) > 0
  {
    if i > 0 {
      MemberHits(bands[1..], percent, i - 1);
    }
  }

  ghost predicate HitsOnceFrom(bands: seq<Band>, start: int) {
    forall percent :: start <= percent <= FULL ==> Hits(bands, percent) == 1
  }

  /** Sorted non-empty bands that hold every mark exactly once tile the range. */
  lemma {:induction false} HitOnceTiles(ordered: seq<Band>, start: int)
    requires Sorting.Sorted(ByMin, ordered) && NonEmpty(ordered) && start <= FULL + 1
    requires forall b :: b in ordered ==> start <= b.min && b.max <= FULL
    requires HitsOnceFrom(ordered, start)
    ensures Tiles(ordered, start)
  {
    if ordered == [] {
      assert start <= FULL ==> Hits(ordered, start) == 1;
    } else {
      assert Hits(ordered, start) == 1;
      var i := HitsMember(ordered, start);
      assert i == 0 || ByMin(ordered[0], ordered[i]);
      var rest, next := ordered[1..], ordered[0].max + 1;
      forall j | 0 <= j < |rest|
        ensures next <= rest[j].min
      {
        assert rest[j] in ordered && ByMin(ordered[0], ordered[j + 1]);
        assert Hits(ordered, rest[j].min) == 1;
        MemberHits(rest, rest[j].min, j);
      }
      forall percent | next <= percent <= FULL
        ensures Hits(rest, percent) == 1
      {
        assert Hits(ordered, percent) == 1;
      }
      HitOnceTiles(rest, next);
    }
  }

  lemma {:induction false} HitsInsert(b: Band, bands: seq<Band>, percent: int)
    ensures Hits(Sorting.Insert(ByMin, b, bands), percent) == Hits(bands, percent) + if Contains(b, percent) then 1 else 0
  {
    if bands != [] && !ByMin(b, bands[0]) {
      HitsInsert(b, bands[1..], percent);
      assert Sorting.Insert(ByMin, b, bands)[1..] == Sorting.Insert(ByMin, b, bands[1..]);
    } else {
      assert ([b] + bands)[1..] == bands;
    }
  }

  lemma {:induction false} HitsSorted(bands: seq<Band>, percent: int)
    ensures Hits(Sorting.Sort(ByMin, bands), percent) == Hits(bands, percent)
  {
    if bands != [] {
      HitsSorted(bands[1..], percent);
      HitsInsert(bands[0], Sorting.Sort(ByMin, bands[1..]), percent);
    }
  }

  /** Validation is exact, whatever the order of the bands: with ends in 0..100, a scale
      is accepted if and only if its bands are non-empty with grade points within the
      maximum, and every two-decimal mark lies in exactly one of them. */
  lemma ValidationExact(bands: seq<Band>, maxGradePoint: int)
    requires EndsInRange(bands)
    ensures ValidateBands(bands, maxGradePoint) == Accepted
            <==> NonEmpty(bands) && PointsWithin(bands, maxGradePoint) && HitsOnceFrom(bands, 0)
  {
    if bands == [] {
      assert Hits(bands, 0) == 0;
    } else {
      SortedBands(bands, maxGradePoint);
      OrderedExact(Sorting.Sort(ByMin, bands), maxGradePoint);
    }
  }

  lemma OrderedExact(ordered: seq<Band>, maxGradePoint: int)
    requires ordered != [] && Sorting.Sorted(ByMin, ordered) && EndsInRange(ordered)
    ensures ValidateOrdered(ordered, maxGradePoint) == Accepted
            <==> NonEmpty(ordered) && PointsWithin(ordered, maxGradePoint) && HitsOnceFrom(ordered, 0)
  {
    BandFaultExact(ordered, maxGradePoint);
    if NonEmpty(ordered) {
      TilesExact(ordered);
      if Tiles(ordered, 0) {
        forall percent | 0 <= percent <= FULL
          ensures Hits(ordered, percent) == 1
        {
          TilesHitOnce(ordered, 0, percent);
        }
      }
      if HitsOnceFrom(ordered, 0) {
        HitOnceTiles(ordered, 0);
      }
    }
  }

  /** Sorting changes neither the bands nor how many of them hold a mark. */
  lemma SortedBands(bands: seq<Band>, maxGradePoint: int)
    ensures var ordered := Sorting.Sort(ByMin, bands);
            && Sorting.Sorted(ByMin, ordered) && |ordered| == |bands|
            && (EndsInRange(ordered) <==> EndsInRange(bands)) && (NonEmpty(ordered) <==> NonEmpty(bands))
            && (PointsWithin(ordered, maxGradePoint) <==> PointsWithin(bands, maxGradePoint))
            && (HitsOnceFrom(ordered, 0) <==> HitsOnceFrom(bands, 0))
  {
    Sorting.SortSorts(ByMin, bands);
    Sorting.MultisetMembers(Sorting.Sort(ByMin, bands), bands);
    forall percent
      ensures Hits(Sorting.Sort(ByMin, bands), percent) == Hits(bands, percent)
    {
      HitsSorted(bands, percent);
    }
  }

  lemma {:induction false} HitsAround(x: seq<Band>, b: Band, y: seq<Band>, percent: int)
    ensures Hits(x + [b] + y, percent) == Hits(x + y, percent) + if Contains(b, percent) then 1 else 0
  {
    if x == [] {
      assert ([] + [b] + y)[1..] == y && [] + y == y;
    } else {
      assert (x + [b] + y)[1..] == x[1..] + [b] + y && (x + y)[1..] == x[1..] + y;
      HitsAround(x[1..], b, y, percent);
    }
  }

  lemma HitsRemoved(bands: seq<Band>, i: nat, percent: int)
    requires i < |bands|
    ensures multiset(bands[..i] + bands[i + 1..]) == multiset(bands) - multiset{bands[i]}
    ensures Hits(bands, percent) == Hits(bands[..i] + bands[i + 1..], percent) + if Contains(bands[i], percent) then 1 else 0
  {
    assert bands == bands[..i] + [bands[i]] + bands[i + 1..];
    HitsAround(bands[..i], bands[i], bands[i + 1..], percent);
  }

  lemma SamePlace(a: seq<Band>, b: seq<Band>) returns (j: nat)
    requires multiset(a) == multiset(b) && a != []
    ensures j < |b| && b[j] == a[0]
  {
    Sorting.MultisetMembers(a, b);
    assert a[0] in b;
    j :| 0 <= j < |b| && b[j] == a[0];
  }

  lemma {:induction false} HitsPermuted(a: seq<Band>, b: seq<Band>, percent: int)
    requires multiset(a) == multiset(b)
    ensures Hits(a, percent) == Hits(b, percent)
    decreases |a|
  {
    if a == [] {
      Sorting.MultisetMembers(a, b);
    } else {
      hide Hits, Contains;
      var j := SamePlace(a, b);
      HitsRemoved(a, 0, percent);
      HitsRemoved(b, j, percent);
      HitsPermuted(a[..0] + a[1..], b[..j] + b[j + 1..], percent);
    }
  }

  /** The order the bands are given in never decides whether a scale is accepted. */
  lemma AcceptanceOrderFree(a: seq<Band>, b: seq<Band>, maxGradePoint: int)
    requires multiset(a) == multiset(b) && EndsInRange(a)
    ensures ValidateBands(a, maxGradePoint) == Accepted <==> ValidateBands(b, maxGradePoint) == Accepted
  {
    Sorting.MultisetMembers(a, b);
    ValidationExact(a, maxGradePoint);
    ValidationExact(b, maxGradePoint);
    forall percent
      ensures Hits(a, percent) == Hits(b, percent)
    {
      HitsPermuted(a, b, percent);
    }
  }

  // ------------------------------------------------------- what a refusal says

  lemma {:induction false} HitsTwice(bands: seq<Band>, percent: int, i: nat, j: nat)
    requires i < j < |bands| && Contains(bands[i], percent) && Contains(bands[j], percent)
    ensures Hits(bands, percent) >= 2
  {
    if i == 0 {
      MemberHits(bands[1..], percent, j - 1);
    } else {
      HitsTwice(bands[1..], percent, i - 1, j - 1);
    }
  }

  lemma NoHit(bands: seq<Band>, percent: int)
    requires forall i :: 0 <= i < |bands| ==> !(bands[i].min <= percent <= bands[i].max)
    ensures Hits(bands, percent) == 0
  {
    if Hits(bands, percent) > 0 {
      var i := HitsMember(bands, percent);
    }
  }

  lemma {:induction false} PairFaultAt(ordered: seq<Band>) returns (k: nat)
    requires PairFault(ordered) != Accepted
    ensures k + 1 < |ordered| && PairFault(ordered) in {Overlap, Gap}
    ensures PairFault(ordered) == Overlap ==> ordered[k + 1].min <= ordered[k].max
    ensures PairFault(ordered) == Gap ==> ordered[k + 1].min > ordered[k].max + 1
    ensures forall i :: 0 <= i < k ==> ordered[i].max < ordered[i + 1].min
  {
    if ordered[1].min <= ordered[0].max || ordered[1].min - ordered[0].max > 1 {
      k := 0;
    } else {
      var j := PairFaultAt(ordered[1..]);
      k := j + 1;
    }
  }

  lemma {:induction false} BandFaultReal(ordered: seq<Band>, maxGradePoint: int)
    ensures BandFault(ordered, maxGradePoint) in {Accepted, MinAboveMax, GradePointAboveMax}
    ensures BandFault(ordered, maxGradePoint) == MinAboveMax ==> exists b :: b in ordered && b.min > b.max
    ensures BandFault(ordered, maxGradePoint) == GradePointAboveMax ==> exists b :: b in ordered && b.gradePoint > maxGradePoint
  {
    if ordered != [] {
      assert ordered[0] in ordered;
      BandFaultReal(ordered[1..], maxGradePoint);
    }
  }

  predicate SomeMark(bands: seq<Band>, times: nat, percent: int) {
    0 <= percent <= FULL && if times == 0 then Hits(bands, percent) == 0 else Hits(bands, percent) >= times
  }

  /** What a refusal says of the scale is true of it, whatever the order of its bands: a
      gap is a mark in no band, an overlap a mark in two. The one loose message is the one
      about the highest band: it is given when no band holds 100, but also when one does
      and another band overlaps it. */
  ghost predicate Real(v: Verdict, bands: seq<Band>, maxGradePoint: int) {
    match v
    case Accepted => true
    case NoBands => bands == []
    case MinAboveMax => exists b :: b in bands && b.min > b.max
    case GradePointAboveMax => exists b :: b in bands && b.gradePoint > maxGradePoint
    case LowestNotZero => Hits(bands, 0) == 0
    case HighestNotFull => Hits(bands, FULL) == 0 || exists percent :: SomeMark(bands, 2, percent)
    case Overlap => exists percent :: SomeMark(bands, 2, percent)
    case Gap => exists percent :: SomeMark(bands, 0, percent)
  }

  lemma FaultsAreReal(bands: seq<Band>, maxGradePoint: int)
    requires EndsInRange(bands)
    ensures Real(ValidateBands(bands, maxGradePoint), bands, maxGradePoint)
  {
    if bands != [] {
      var ordered := Sorting.Sort(ByMin, bands);
      SortedBands(bands, maxGradePoint);
      Sorting.MultisetMembers(ordered, bands);
      OrderedFaultReal(ordered, maxGradePoint);
      forall percent
        ensures Hits(ordered, percent) == Hits(bands, percent)
      {
        HitsSorted(bands, percent);
      }
      var v := ValidateOrdered(ordered, maxGradePoint);
      hide *;
      RealOfBoth(v, ordered, bands, maxGradePoint);
    }
  }

  /** What is said of bands is said of the same bands in another order. */
  lemma RealOfBoth(v: Verdict, a: seq<Band>, b: seq<Band>, maxGradePoint: int)
    requires v != NoBands && Real(v, a, maxGradePoint) && forall x :: x in a <==> x in b
    requires forall percent :: Hits(a, percent) == Hits(b, percent)
    ensures Real(v, b, maxGradePoint)
  {
    hide Hits;
    assert Hits(a, 0) == Hits(b, 0) && Hits(a, FULL) == Hits(b, FULL);
    forall times, percent | SomeMark(a, times, percent)
      ensures SomeMark(b, times, percent)
    {
      assert Hits(a, percent) == Hits(b, percent);
    }
  }

  /** The loose message, on an input: 100 lies in a band, and the highest band is blamed. */
  lemma HighestBlamed()
    ensures var bands := [Band("A", 0, FULL, 4, true), Band("B", 5000, 8000, 3, true)];
            ValidateBands(bands, 4) == HighestNotFull && Hits(bands, FULL) == 1
  {
    var a, b := Band("A", 0, FULL, 4, true), Band("B", 5000, 8000, 3, true);
    assert [a, b][1..] == [b] && [b][1..] == [];
    assert Sorting.Sort(ByMin, [b]) == [b];
    assert Sorting.Sort(ByMin, [a, b]) == Sorting.Insert(ByMin, a, [b]) == [a, b];
    assert BandFault([a, b], 4) == BandFault([b], 4) == BandFault([], 4) == Accepted;
    assert Hits([b], FULL) == Hits([], FULL) == 0 && Hits([a, b], FULL) == Hits([b], FULL) + 1;
  }

  lemma OrderedFaultReal(ordered: seq<Band>, maxGradePoint: int)
    requires ordered != [] && Sorting.Sorted(ByMin, ordered) && EndsInRange(ordered)
    ensures Real(ValidateOrdered(ordered, maxGradePoint), ordered, maxGradePoint)
    ensures ValidateOrdered(ordered, maxGradePoint) != NoBands
  {
    BandFaultReal(ordered, maxGradePoint);
    if BandFault(ordered, maxGradePoint) == Accepted {
      BandFaultExact(ordered, maxGradePoint);
      forall i | 0 <= i < |ordered|
        ensures ordered[i] in ordered && ordered[0].min <= ordered[i].min <= ordered[i].max
      {
        assert i > 0 ==> ByMin(ordered[0], ordered[i]);
      }
      if ordered[0].min != 0 {
        NoHit(ordered, 0);
      } else if ordered[|ordered| - 1].max != FULL {
        HighestReal(ordered);
      } else if PairFault(ordered) != Accepted {
        PairFaultReal(ordered);
      }
    }
  }

  lemma HighestReal(ordered: seq<Band>)
    requires ordered != [] && Sorting.Sorted(ByMin, ordered) && EndsInRange(ordered) && NonEmpty(ordered)
    requires ordered[|ordered| - 1].max != FULL
    ensures Hits(ordered, FULL) == 0 || exists percent :: SomeMark(ordered, 2, percent)
  {
    var last := |ordered| - 1;
    assert ordered[last] in ordered;
    if Hits(ordered, FULL) > 0 {
      var i := HitsMember(ordered, FULL);
      assert ordered[i] in ordered && ByMin(ordered[i], ordered[last]);
      HitsTwice(ordered, ordered[last].min, i, last);
      assert SomeMark(ordered, 2, ordered[last].min);
    }
  }

  lemma PairFaultReal(ordered: seq<Band>)
    requires Sorting.Sorted(ByMin, ordered) && EndsInRange(ordered) && NonEmpty(ordered) && PairFault(ordered) != Accepted
    ensures Real(PairFault(ordered), ordered, 0) && PairFault(ordered) in {Overlap, Gap}
  {
    var k := PairFaultAt(ordered);
    assert ordered[k] in ordered && ordered[k + 1] in ordered && ByMin(ordered[k], ordered[k + 1]);
    if PairFault(ordered) == Overlap {
      HitsTwice(ordered, ordered[k + 1].min, k, k + 1);
      assert SomeMark(ordered, 2, ordered[k + 1].min);
    } else {
      var mark := ordered[k].max + 1;
      forall i | 0 <= i < |ordered|
        ensures !(ordered[i].min <= mark <= ordered[i].max)
      {
        assert i < k ==> ordered[i].max < ordered[i + 1].min && (i + 1 < k ==> ByMin(ordered[i + 1], ordered[k]));
        assert i > k + 1 ==> ByMin(ordered[k + 1], ordered[i]);
      }
      NoHit(ordered, mark);
      assert SomeMark(ordered, 0, mark);
    }
  }

  // ------------------------------------------------------------------ grading

  datatype Grade = Graded(band: Band) | OutOfRange | NoBandCovers

  /** `grade_for`: the first band that contains the percentage. */
  function GradeFor(bands: seq<Band>, percent: int): Grade {
    if percent < 0 || percent > FULL then OutOfRange
    else if bands == [] then NoBandCovers
    else if Contains(bands[0], percent) then Graded(bands[0])
    else GradeFor(bands[1..], percent)
  }

  lemma {:induction false} FirstHit(bands: seq<Band>, percent: int, i: nat)
    requires 0 <= percent <= FULL && i < |bands| && Contains(bands[i], percent) && Hits(bands, percent) == 1
    ensures GradeFor(bands, percent) == Graded(bands[i])
  {
    if i > 0 {
      MemberHits(bands[1..], percent, i - 1);
      FirstHit(bands[1..], percent, i - 1);
    }
  }

  /** With an accepted scale every percentage is graded, by the only band that holds it. */
  lemma AcceptedScaleGrades(bands: seq<Band>, maxGradePoint: int, percent: int) returns (i: nat)
    requires EndsInRange(bands) && ValidateBands(bands, maxGradePoint) == Accepted
    requires 0 <= percent <= FULL
    ensures i < |bands| && GradeFor(bands, percent) == Graded(bands[i])
    ensures forall j :: 0 <= j < |bands| ==> (Contains(bands[j], percent) <==> j == i)
  {
    ValidationExact(bands, maxGradePoint);
    assert Hits(bands, percent) == 1;
    i := HitsMember(bands, percent);
    FirstHit(bands, percent, i);
    forall j | 0 <= j < |bands| && Contains(bands[j], percent)
      ensures j == i
    {
      OnlyHit(bands, percent, i, j);
    }
  }

  lemma {:induction false} OnlyHit(bands: seq<Band>, percent: int, i: nat, j: nat)
    requires i < |bands| && j < |bands| && Contains(bands[i], percent) && Contains(bands[j], percent)
    requires Hits(bands, percent) == 1
    ensures i == j
  {
    if i > 0 && j > 0 {
      OnlyHit(bands[1..], percent, i - 1, j - 1) by {
        MemberHits(bands[1..], percent, i - 1);
      }
    } else if i > 0 {
      MemberHits(bands[1..], percent, i - 1);
    } else if j > 0 {
      MemberHits(bands[1..], percent, j - 1);
    }
  }

  /** Any percentage is graded by the first band that holds it, if one does. */
  lemma {:induction false} GradeForExact(bands: seq<Band>, percent: int)
    ensures GradeFor(bands, percent) == OutOfRange <==> percent < 0 || percent > FULL
    ensures GradeFor(bands, percent).Graded? ==>
              exists i :: 0 <= i < |bands| && GradeFor(bands, percent) == Graded(bands[i]) && FirstHolds(bands, i, percent)
    ensures GradeFor(bands, percent) == NoBandCovers ==>
              forall i :: 0 <= i < |bands| ==> !(bands[i].min <= percent <= bands[i].max)
  {
    if bands != [] && 0 <= percent <= FULL {
      if bands[0].min <= percent <= bands[0].max {
        assert FirstHolds(bands, 0, percent);
      } else {
        GradeForExact(bands[1..], percent);
        if GradeFor(bands[1..], percent).Graded? {
          var i :| 0 <= i < |bands[1..]| && GradeFor(bands[1..], percent) == Graded(bands[1..][i]) && FirstHolds(bands[1..], i, percent);
          assert FirstHolds(bands, i + 1, percent) by {
            forall j | 0 <= j < i + 1
              ensures !(bands[j].min <= percent <= bands[j].max)
            {
              assert j > 0 ==> bands[j] == bands[1..][j - 1];
            }
          }
        } else {
          assert forall i :: 0 < i < |bands| ==> bands[i] == bands[1..][i - 1];
        }
      }
    }
  }

  predicate FirstHolds(bands: seq<Band>, i: nat, percent: int) {
    i < |bands| && bands[i].min <= percent <= bands[i].max
    && forall j :: 0 <= j < i ==> !(bands[j].min <= percent <= bands[j].max)
  }
}
