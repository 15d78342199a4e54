/**
 The tier bands derived from the fitted medians
 (tools/derive_native_tiers.py:133-167), over the reals.

 A band edge is the geometric midpoint of two group medians.  The model keeps the
 two medians and compares squares, so no root is taken.
 */
module TierBands {
  import opened Wrappers
  import opened Isotonic

  /** One collapsed group: its median and its highest rung index. */
  datatype Group = Group(value: real, index: int)

  /** One band boundary between the medians `lo` and `hi`; `index` is the rung
      below it. */
  datatype Bound = Bound(lo: real, hi: real, index: int)

  const TOLERANCE: real := 0.000000001

  predicate Same(g: Group, value: real) {
    -TOLERANCE < g.value - value < TOLERANCE
  }

  // ---------------------------------------------------------------- grouping

  /** The grouping keeps groups apart, gives every fitted value a group, and names
      each group by its first median and the highest rung in it. */
  ghost predicate IsGrouping(fitted: seq<real>, present: seq<int>, groups: seq<Group>)
    requires |fitted| == |present|
  {
    && Separated(groups)
    && (forall j {:trigger HasGroup(groups, fitted[j])} :: 0 <= j < |fitted| ==> HasGroup(groups, fitted[j]))
    && (forall k {:trigger IsGroupOf(fitted, present, groups[k])} :: 0 <= k < |groups| ==> IsGroupOf(fitted, present, groups[k]))
  }

  ghost predicate HasGroup(groups: seq<Group>, value: real) {
    exists k :: 0 <= k < |groups| && Holds(groups[k], value)
  }

  /** `g` carries the highest rung of the values it holds, and a value among them. */
  ghost predicate IsGroupOf(fitted: seq<real>, present: seq<int>, g: Group)
    requires |fitted| == |present|
  {
    && g.value in fitted
    && (exists j :: 0 <= j < |fitted| && present[j] == g.index && Holds(g, fitted[j]))
    && (forall j :: 0 <= j < |fitted| && Holds(g, fitted[j]) ==> present[j] <= g.index)
  }

  /** Values from the group's first one up to the tolerance above it. */
  predicate Holds(g: Group, value: real) {
    g.value <= value < g.value + TOLERANCE
  }

  /** Medians and indices both rise strictly, medians by the tolerance or more. */
  ghost predicate Separated(groups: seq<Group>) {
    forall i, k :: 0 <= i < k < |groups| ==>
      groups[i].value + TOLERANCE <= groups[k].value && groups[i].index < groups[k].index
  }

  predicate Rising(present: seq<int>) {
    forall i, j :: 0 <= i < j < |present| ==> present[i] < present[j]
  }

  /** The groups after one more fitted value. */
  function Grouped(groups: seq<Group>, value: real, index: int): seq<Group> {
    var last := |groups| - 1;
    if |groups| > 0 && Same(groups[last], value) then
      groups[..last] + [Group(groups[last].value, Max(groups[last].index, index))]
    else
      groups + [Group(value, index)]
  }

  lemma GroupIsBelow(fitted: seq<real>, present: seq<int>, g: Group, n: nat)
    requires n < |fitted| == |present| && NonDecreasing(fitted) && Rising(present)
    requires IsGroupOf(fitted[..n], present[..n], g)
    ensures g.value <= fitted[n] && g.index < present[n]
  {
    var i :| 0 <= i < n && fitted[..n][i] == g.value;
    assert fitted[i] <= fitted[n];
    var j :| 0 <= j < n && present[..n][j] == g.index && Holds(g, fitted[..n][j]);
    assert present[j] < present[n];
  }

  /** A group the next value does not join stays as it is. */
  lemma OldGroupStays(fitted: seq<real>, present: seq<int>, g: Group, n: nat)
    requires n < |fitted| == |present|
    requires IsGroupOf(fitted[..n], present[..n], g) && !Holds(g, fitted[n])
    ensures IsGroupOf(fitted[..n + 1], present[..n + 1], g)
  {
    var f, p := fitted[..n + 1], present[..n + 1];
    assert f == fitted[..n] + [fitted[n]] && p == present[..n] + [present[n]];
    var j :| 0 <= j < n && present[..n][j] == g.index && Holds(g, fitted[..n][j]);
    assert p[j] == g.index && Holds(g, f[j]);
  }

  /** The group the next value joins takes that value's rung. */
  lemma JoinedGroup(fitted: seq<real>, present: seq<int>, g: Group, n: nat)
    requires n < |fitted| == |present| && Rising(present)
    requires g.value in fitted[..n + 1] && Holds(g, fitted[n]) && g.index == present[n]
    ensures IsGroupOf(fitted[..n + 1], present[..n + 1], g)
  {
    var f, p := fitted[..n + 1], present[..n + 1];
    assert p[n] == g.index && Holds(g, f[n]);
  }

  lemma GroupedKeepsGrouping(fitted: seq<real>, present: seq<int>, groups: seq<Group>, n: nat)
    requires n < |fitted| == |present| && NonDecreasing(fitted) && Rising(present)
    requires IsGrouping(fitted[..n], present[..n], groups)
    ensures IsGrouping(fitted[..n + 1], present[..n + 1], Grouped(groups, fitted[n], present[n]))
  {
    var v, index := fitted[n], present[n];
    var after := Grouped(groups, v, index);
    forall k | 0 <= k < |groups|
      ensures groups[k].value <= v && groups[k].index < index
    {
      assert IsGroupOf(fitted[..n], present[..n], groups[k]);
      GroupIsBelow(fitted, present, groups[k], n);
    }
    GroupedStaysSeparated(groups, v, index);
    forall k | 0 <= k < |after|
      ensures IsGroupOf(fitted[..n + 1], present[..n + 1], after[k])
    {
      if k < |after| - 1 {
        assert after[k] == groups[k] && after[k].value + TOLERANCE <= after[|after| - 1].value <= v;
        assert IsGroupOf(fitted[..n], present[..n], groups[k]);
        OldGroupStays(fitted, present, groups[k], n);
      } else {
        assert fitted[..n + 1] == fitted[..n] + [v];
        assert k < |groups| ==> IsGroupOf(fitted[..n], present[..n], groups[k]);
        JoinedGroup(fitted, present, after[k], n);
      }
    }
    var f := fitted[..n + 1];
    forall j | 0 <= j < |f|
      ensures HasGroup(after, f[j])
    {
      if j < n {
        assert HasGroup(groups, fitted[..n][j]);
      }
      OldValueHasGroup(groups, v, index, fitted[j]);
    }
  }

  lemma OldValueHasGroup(groups: seq<Group>, value: real, index: int, other: real)
    requires HasGroup(groups, other) || other == value
    requires forall k :: 0 <= k < |groups| ==> groups[k].value <= value
    ensures HasGroup(Grouped(groups, value, index), other)
  {
    var after := Grouped(groups, value, index);
    if HasGroup(groups, other) {
      var k :| 0 <= k < |groups| && Holds(groups[k], other);
      assert Holds(after[k], other);
    } else {
      assert Holds(after[|after| - 1], value);
    }
  }

  lemma GroupedStaysSeparated(g: seq<Group>, value: real, index: int)
    requires Separated(g)
    requires forall k :: 0 <= k < |g| ==> g[k].value <= value && g[k].index < index
    ensures Separated(Grouped(g, value, index))
  {
  }

  method ComputeGroups(fitted: seq<real>, present: seq<int>) returns (groups: seq<Group>)
    requires |fitted| == |present| && NonDecreasing(fitted) && Rising(present)
    ensures IsGrouping(fitted, present, groups)
  {
    groups := [];
    for n := 0 to |fitted|
      invariant IsGrouping(fitted[..n], present[..n], groups)
    {
      GroupedKeepsGrouping(fitted, present, groups, n);
      var last := |groups| - 1;
      if |groups| > 0 && Same(groups[last], fitted[n]) {
        groups := groups[..last] + [Group(groups[last].value, Max(groups[last].index, present[n]))];
      } else {
        groups := groups + [Group(fitted[n], present[n])];
      }
    }
    assert fitted[..|fitted|] == fitted && present[..|present|] == present;
  }

  // ------------------------------------------------------------------ edges

  /** `soul` lies under the edge between `lo` and `hi`. */
  predicate Under(soul: real, b: Bound) {
    if b.lo > 0.0 && b.hi > 0.0 then
      soul < 0.0 || Times(soul, soul) < Times(b.lo, b.hi)
    else
      soul < (b.lo + b.hi) / 2.0
  }

  /** `soul` lies exactly on the edge. */
  predicate On(soul: real, b: Bound) {
    if b.lo > 0.0 && b.hi > 0.0 then
      soul >= 0.0 && Times(soul, soul) == Times(b.lo, b.hi)
    else
      soul == (b.lo + b.hi) / 2.0
  }

  lemma ProductGrows(x: real, y: real, z: real)
    requires 0.0 < z && x < y
    ensures Times(x, z) < Times(y, z)
    ensures Times(x, z) == Times(z, x)
  {
    assert (y - x) * z > 0.0;
  }

  /** The edge lies strictly between its two medians. */
  lemma EdgeIsBetween(b: Bound, soul: real)
    requires b.lo < b.hi
    ensures soul <= b.lo ==> Under(soul, b)
    ensures soul >= b.hi ==> !Under(soul, b) && !On(soul, b)
  {
    if b.lo > 0.0 {
      ProductGrows(b.lo, b.hi, b.lo);
      ProductGrows(b.lo, b.hi, b.hi);
      if 0.0 <= soul < b.lo {
        SquareGrows(soul, b.lo);
      } else if soul > b.hi {
        SquareGrows(b.hi, soul);
      }
    }
  }

  lemma SquareGrows(x: real, y: real)
    requires 0.0 <= x < y
    ensures Times(x, x) < Times(y, y)
  {
    ProductGrows(x, y, y);
    if x == 0.0 {
      assert Times(x, x) == 0.0;
    } else {
      ProductGrows(x, y, x);
    }
  }

  /** The two medians round the edge after group `k`. */
  function EdgeAfter(groups: seq<Group>, k: nat): Bound
    requires k + 1 < |groups|
  {
    Bound(groups[k].value, groups[k + 1].value, groups[k].index)
  }

  /** Group `k`'s band holds `soul`: at or over the edge below, under the one above. */
  ghost predicate InBand(groups: seq<Group>, soul: real, k: int) {
    && 0 <= k < |groups|
    && (k > 0 ==> !Under(soul, EdgeAfter(groups, k - 1)))
    && (k + 1 < |groups| ==> Under(soul, EdgeAfter(groups, k)))
  }

  /** Edges rise strictly: the median between two edges is over one and under the
      next, and whatever is not under an edge is over every earlier one. */
  lemma {:induction false} EdgesRise(groups: seq<Group>, soul: real, i: nat, k: nat)
    requires Separated(groups) && i < k && k + 1 < |groups|
    ensures !Under(soul, EdgeAfter(groups, k)) ==>
              !Under(soul, EdgeAfter(groups, i)) && !On(soul, EdgeAfter(groups, i))
    ensures On(soul, EdgeAfter(groups, i)) ==> Under(soul, EdgeAfter(groups, k))
  {
    EdgeIsBetween(EdgeAfter(groups, k), soul);
    EdgeIsBetween(EdgeAfter(groups, i), soul);
    assert groups[i + 1].value <= groups[k].value;
  }

  /** A larger reward never lands in a lower band, and no reward lands in two. */
  lemma BandsAreMonotone(groups: seq<Group>, s: real, t: real, i: int, k: int)
    requires Separated(groups) && s <= t && InBand(groups, s, i) && InBand(groups, t, k)
    ensures i <= k && groups[i].index <= groups[k].index
    ensures s == t ==> i == k
  {
    if k < i {
      UnderGoesDown(EdgeAfter(groups, k), s, t);
      if k + 1 < i {
        EdgesRise(groups, s, k, i - 1);
      }
      assert false;
    }
    if s == t && i < k {
      if i + 1 < k {
        EdgesRise(groups, t, i, k - 1);
      }
      assert false;
    }
  }

  lemma UnderGoesDown(b: Bound, s: real, t: real)
    requires s <= t && Under(t, b)
    ensures Under(s, b)
  {
    if 0.0 <= s < t {
      SquareGrows(s, t);
    }
  }

  /** Every group's own median lies in its own band: no band is unreachable. */
  lemma OwnMedianIsInBand(groups: seq<Group>, k: nat)
    requires Separated(groups) && k < |groups|
    ensures InBand(groups, groups[k].value, k)
  {
    if k > 0 {
      EdgeIsBetween(EdgeAfter(groups, k - 1), groups[k].value);
    }
    if k + 1 < |groups| {
      EdgeIsBetween(EdgeAfter(groups, k), groups[k].value);
    }
  }

  /** Any other value of a group keeps the group's rung exactly when it is under the
      edge above: by squares, or by the arithmetic midpoint when the group's median is
      not positive. */
  lemma HeldValueIsInBand(groups: seq<Group>, k: nat, value: real)
    requires Separated(groups) && k < |groups| && Holds(groups[k], value)
    ensures InBand(groups, value, k) <==>
            (|| k + 1 == |groups|
             || (if groups[k].value > 0.0 then Times(value, value) < Times(groups[k].value, groups[k + 1].value)
                 else value < (groups[k].value + groups[k + 1].value) / 2.0))
  {
    if k > 0 {
      EdgeIsBetween(EdgeAfter(groups, k - 1), value);
    }
    if k + 1 < |groups| {
      assert groups[k].value < groups[k + 1].value;
    }
  }

  /** The gap above a group's median under which the whole group keeps its rung. */
  predicate Clear(value: real, next: real) {
    if value > 0.0 then Times(value + TOLERANCE, value + TOLERANCE) <= Times(value, next)
    else value + TOLERANCE <= (value + next) / 2.0
  }

  /** Every value a group can hold keeps its rung exactly when the gap is that wide. */
  lemma WholeGroupKeepsRung(groups: seq<Group>, k: nat)
    requires Separated(groups) && k < |groups|
    ensures (forall value :: Holds(groups[k], value) ==> InBand(groups, value, k))
            <==> k + 1 == |groups| || Clear(groups[k].value, groups[k + 1].value)
  {
    if k + 1 == |groups| || Clear(groups[k].value, groups[k + 1].value) {
      forall value | Holds(groups[k], value)
        ensures InBand(groups, value, k)
      {
        HeldValueIsInBand(groups, k, value);
        if k + 1 < |groups| && groups[k].value > 0.0 {
          SquareGrows(value, groups[k].value + TOLERANCE);
        }
      }
    } else {
      var value := StrayValue(groups[k].value, groups[k + 1].value);
      HeldValueIsInBand(groups, k, value);
    }
  }

  /** With less of a gap, some value of the group is not under the edge. */
  lemma StrayValue(median: real, next: real) returns (value: real)
    requires median + TOLERANCE <= next && !Clear(median, next)
    ensures median <= value < median + TOLERANCE
    ensures if median > 0.0 then Times(value, value) >= Times(median, next) else value >= (median + next) / 2.0
  {
    var top := median + TOLERANCE;
    if median > 0.0 {
      var edge := Times(median, next);
      ProductGrows(median, next, median);
      value := HeronStep(top, edge);
      if value < median {
        SquareGrows(value, median);
      }
    } else {
      value := (top + (median + next) / 2.0) / 2.0;
    }
  }

  /** One step of Heron's rule from above a square root lands between the two. */
  lemma HeronStep(top: real, square: real) returns (value: real)
    requires top > 0.0 && 0.0 < square < Times(top, top)
    ensures 0.0 < value < top && Times(value, value) >= square
  {
    var other := square / top;
    assert Times(other, top) == square;
    value := (top + other) / 2.0;
    if other >= top {
      AtLeastTimes(other, top);
      assert false;
    }
    MeanSquare(top, other);
  }

  lemma AtLeastTimes(x: real, y: real)
    requires y > 0.0 && x >= y
    ensures Times(x, y) >= Times(y, y)
  {
    assert (x - y) * y >= 0.0;
  }

  lemma MeanSquare(x: real, y: real)
    ensures var mean := (x + y) / 2.0;
            Times(mean, mean) >= Times(y, x)
  {
    var half := (x - y) / 2.0;
    assert half * half >= 0.0;
    assert ((x + y) / 2.0) * ((x + y) / 2.0) == x * y + half * half;
  }

  const FIRST: Group := Group(1.0, 1)
  const SECOND: Group := Group(1.000000001, 2)
  const STRAY: real := 1.0000000009

  /** Three fitted values, of which the second joins the first one's group. */
  lemma StrayGrouping()
    ensures IsGrouping([FIRST.value, STRAY, SECOND.value], [0, 1, 2], [FIRST, SECOND])
  {
    var fitted, present := [FIRST.value, STRAY, SECOND.value], [0, 1, 2];
    assert Holds(FIRST, fitted[0]) && Holds(FIRST, fitted[1]) && Holds(SECOND, fitted[2]);
    assert !Holds(FIRST, fitted[2]) && !Holds(SECOND, fitted[0]) && !Holds(SECOND, fitted[1]);
    assert [FIRST, SECOND][0] == FIRST && [FIRST, SECOND][1] == SECOND;
    assert present[1] == FIRST.index && present[2] == SECOND.index;
    assert IsGroupOf(fitted, present, FIRST) && IsGroupOf(fitted, present, SECOND);
  }

  lemma StrayIsOverItsEdge()
    ensures Times(STRAY, STRAY) >= Times(FIRST.value, SECOND.value)
  {
  }

  /** Such values occur: the second of these three joins the first group and lies over
      its edge, so the table gives it the stronger group's rung. */
  lemma CollapsedValueMayLoseItsRung()
    ensures IsGrouping([FIRST.value, STRAY, SECOND.value], [0, 1, 2], [FIRST, SECOND])
    ensures Holds(FIRST, STRAY) && !InBand([FIRST, SECOND], STRAY, 0) && InBand([FIRST, SECOND], STRAY, 1)
  {
    StrayGrouping();
    StrayIsOverItsEdge();
    HeldValueIsInBand([FIRST, SECOND], 0, STRAY);
  }

  /** A reward exactly on an edge takes the stronger rung. */
  lemma EdgeTakesStrongerRung(groups: seq<Group>, soul: real, k: nat)
    requires Separated(groups) && k + 1 < |groups| && On(soul, EdgeAfter(groups, k))
    ensures InBand(groups, soul, k + 1)
  {
    if k + 2 < |groups| {
      EdgesRise(groups, soul, k, k + 1);
    }
  }

  method ComputeBounds(groups: seq<Group>) returns (bounds: seq<Bound>)
    ensures |bounds| == Max(|groups| - 1, 0)
    ensures forall k :: 0 <= k < |bounds| ==> bounds[k] == EdgeAfter(groups, k)
  {
    bounds := [];
    for i := 0 to Max(|groups| - 1, 0)
      invariant |bounds| == i
      invariant forall k :: 0 <= k < i ==> bounds[k] == EdgeAfter(groups, k)
    {
      bounds := bounds + [Bound(groups[i].value, groups[i + 1].value, groups[i].index)];
    }
  }

  method NativeFor(groups: seq<Group>, bounds: seq<Bound>, soul: real) returns (index: int)
    requires |groups| > 0 && Separated(groups) && |bounds| == |groups| - 1
    requires forall k :: 0 <= k < |bounds| ==> bounds[k] == EdgeAfter(groups, k)
    ensures exists k :: InBand(groups, soul, k) && index == groups[k].index
    ensures forall k :: InBand(groups, soul, k) ==> index == groups[k].index
    ensures forall k :: 0 <= k < |groups| && soul == groups[k].value ==> index == groups[k].index
    ensures forall k :: 0 <= k < |bounds| && On(soul, bounds[k]) ==> index == groups[k + 1].index
  {
    ghost var band := |bounds|;
    index := groups[|groups| - 1].index;
    for i := 0 to |bounds|
      invariant band == |bounds| && index == groups[band].index
      invariant i > 0 ==> !Under(soul, bounds[i - 1])
    {
      if Under(soul, bounds[i]) {
        index := bounds[i].index;
        band := i;
        break;
      }
    }
    BandDecides(groups, soul, band);
  }

  /** Knowing one band of a reward settles every claim about its rung. */
  lemma BandDecides(groups: seq<Group>, soul: real, band: int)
    requires Separated(groups) && InBand(groups, soul, band)
    ensures forall k :: InBand(groups, soul, k) ==> k == band
    ensures forall k :: 0 <= k < |groups| && soul == groups[k].value ==> k == band
    ensures forall k :: 0 <= k < |groups| - 1 && On(soul, EdgeAfter(groups, k)) ==> k + 1 == band
  {
    forall k | InBand(groups, soul, k)
      ensures k == band
    {
      BandsAreMonotone(groups, soul, soul, k, band);
    }
    forall k | 0 <= k < |groups| && soul == groups[k].value
      ensures InBand(groups, soul, k)
    {
      OwnMedianIsInBand(groups, k);
    }
    forall k | 0 <= k < |groups| - 1 && On(soul, EdgeAfter(groups, k))
      ensures InBand(groups, soul, k + 1)
    {
      EdgeTakesStrongerRung(groups, soul, k);
    }
  }

  // ---------------------------------------------------------- the whole table

  /** The gap above group `k` is wide enough for the whole group. */
  predicate ClearAbove(groups: seq<Group>, k: nat)
    requires k < |groups|
  {
    k + 1 == |groups| || Clear(groups[k].value, groups[k + 1].value)
  }

  /** The rung of any value of a group, from the band it lies in. */
  lemma RungOfHeldValue(groups: seq<Group>, soul: real, band: int)
    requires Separated(groups) && InBand(groups, soul, band)
    ensures forall k :: 0 <= k < |groups| && Holds(groups[k], soul) ==>
              (groups[band].index == groups[k].index <==> k + 1 == |groups| || Under(soul, EdgeAfter(groups, k)))
    ensures forall k :: 0 <= k < |groups| && Holds(groups[k], soul) && ClearAbove(groups, k) ==>
              groups[band].index == groups[k].index
  {
    forall k | 0 <= k < |groups| && Holds(groups[k], soul)
      ensures groups[band].index == groups[k].index <==> k + 1 == |groups| || Under(soul, EdgeAfter(groups, k))
      ensures ClearAbove(groups, k) ==> groups[band].index == groups[k].index
    {
      HeldValueIsInBand(groups, k, soul);
      WholeGroupKeepsRung(groups, k);
      BandDecides(groups, soul, band);
    }
  }

  /** Fits the medians, groups them and looks one reward up.  No group at all is
      the source's index error. */
  method DeriveRung(medians: seq<real>, present: seq<int>, soul: real)
    returns (rung: Option<int>, ghost fit: seq<real>, ghost collapsed: seq<Group>)
    requires |medians| == |present| && Rising(present)
    ensures IsBestFit(medians, fit) && IsGrouping(fit, present, collapsed)
    ensures rung == None <==> medians == []
    ensures rung.Some? ==> rung.value in present
    ensures rung.Some? ==> exists k :: InBand(collapsed, soul, k) && rung.value == collapsed[k].index
    ensures forall k :: 0 <= k < |collapsed| && Holds(collapsed[k], soul) ==>
              (rung == Some(collapsed[k].index) <==> k + 1 == |collapsed| || Under(soul, EdgeAfter(collapsed, k)))
    ensures forall k :: 0 <= k < |collapsed| && Holds(collapsed[k], soul) && ClearAbove(collapsed, k) ==>
              rung == Some(collapsed[k].index)
    ensures SeparateSamples(medians) ==>
              forall j :: 0 <= j < |medians| && soul == medians[j] ==> rung == Some(present[j])
  {
    var fitted := ComputeIsotonic(medians);
    var groups := ComputeGroups(fitted, present);
    fit, collapsed := fitted, groups;
    if |groups| == 0 {
      assert fitted != [] ==> HasGroup(groups, fitted[0]);
      return None, fit, collapsed;
    }
    assert IsGroupOf(fitted, present, groups[0]);
    var bounds := ComputeBounds(groups);
    var index := NativeFor(groups, bounds, soul);
    rung := Some(index);
    ghost var k :| InBand(groups, soul, k) && index == groups[k].index;
    assert IsGroupOf(fitted, present, groups[k]);
    RungOfHeldValue(groups, soul, k);
    SeparateSampleKeepsItsRung(medians, fitted, present, groups, soul, k);
  }

  /** Medians that already rise by the tolerance or more. */
  predicate SeparateSamples(medians: seq<real>) {
    forall i, j :: 0 <= i < j < |medians| ==> medians[i] + TOLERANCE <= medians[j]
  }

  /** With nothing to pool, every rung is a group of its own under its own index. */
  lemma SeparateSampleIsItsOwnGroup(medians: seq<real>, present: seq<int>, groups: seq<Group>, j: nat)
    requires |medians| == |present| && j < |medians|
    requires SeparateSamples(medians) && IsGrouping(medians, present, groups)
    ensures exists k :: 0 <= k < |groups| && groups[k].value == medians[j] && groups[k].index == present[j]
  {
    assert HasGroup(groups, medians[j]);
    var k :| 0 <= k < |groups| && Holds(groups[k], medians[j]);
    assert IsGroupOf(medians, present, groups[k]);
    var i :| 0 <= i < |medians| && groups[k].value == medians[i];
    assert i == j;
    var h :| 0 <= h < |medians| && present[h] == groups[k].index && Holds(groups[k], medians[h]);
    assert h == j;
  }

  /** Samples already apart look themselves up. */
  lemma SeparateSampleKeepsItsRung(medians: seq<real>, fitted: seq<real>, present: seq<int>, groups: seq<Group>, soul: real, band: int)
    requires |medians| == |present| && IsBestFit(medians, fitted) && IsGrouping(fitted, present, groups)
    requires Separated(groups) && InBand(groups, soul, band)
    ensures SeparateSamples(medians) ==>
              forall j :: 0 <= j < |medians| && soul == medians[j] ==> groups[band].index == present[j]
  {
    if SeparateSamples(medians) {
      BestFitIsUnique(medians, fitted, fitted);
      BandDecides(groups, soul, band);
      forall j | 0 <= j < |medians| && soul == medians[j]
        ensures groups[band].index == present[j]
      {
        SeparateSampleIsItsOwnGroup(medians, present, groups, j);
      }
    }
  }
}
