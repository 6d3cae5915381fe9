/**
 The storage-share donut (`StorageShareDonutChart` in src/components/OverviewCharts.tsx), over exact
 reals. Colours are left out.
 */
module Donut {
  import opened Decimals
  import opened Options

  const MAX_SLICES := 7
  const MIN_VISIBLE_PCT: real := 1.5

  /** A database as listed; a size that is not a finite number counts as 0. */
  datatype Database = Database(name: Option<string>, sizeOnDisk: Option<real>)

  datatype Share = Share(name: string, value: real)

  datatype Segment = Segment(name: string, value: real, pct: real)

  function ShareOf(d: Database): Share {
    Share(if d.name.Some? then d.name.value else "unknown", if d.sizeOnDisk.Some? then d.sizeOnDisk.value else 0.0)
  }

  /** The databases with a positive size. */
  function Positive(dbs: seq<Database>): (r: seq<Share>)
    ensures forall i :: 0 <= i < |r| ==> r[i].value > 0.0
  {
    if dbs == [] then []
    else (if ShareOf(dbs[0]).value > 0.0 then [ShareOf(dbs[0])] else []) + Positive(dbs[1..])
  }

  /** Exactly the databases of positive size, in order, a nameless one as "unknown". */
  lemma {:induction false} PositiveMeans(a: seq<Database>, b: seq<Database>, d: Database)
    ensures Positive(a + b) == Positive(a) + Positive(b) && Positive([]) == []
    ensures Positive([d]) ==
      if d.sizeOnDisk.Some? && d.sizeOnDisk.value > 0.0
      then [Share(if d.name.Some? then d.name.value else "unknown", d.sizeOnDisk.value)] else []
  {
    assert [d][1..] == [];
    if a == [] {
      assert a + b == b && [] + Positive(b) == Positive(b);
    } else {
      assert (a + b)[0] == a[0] && (a + b)[1..] == a[1..] + b;
      PositiveMeans(a[1..], b, d);
    }
  }

  // ----- Stable sort, largest first -----

  function Insert(x: Share, s: seq<Share>): seq<Share> {
    if s == [] || x.value >= s[0].value then [x] + s else [s[0]] + Insert(x, s[1..])
  }

  function SortDesc(s: seq<Share>): seq<Share> {
    if s == [] then [] else Insert(s[0], SortDesc(s[1..]))
  }

  predicate Descending(s: seq<Share>) {
    forall i, j :: 0 <= i < j < |s| ==> s[i].value >= s[j].value
  }

  lemma {:induction false} InsertMultiset(x: Share, s: seq<Share>)
    ensures multiset(Insert(x, s)) == multiset{x} + multiset(s)
  {
    if s != [] && x.value < s[0].value {
      InsertMultiset(x, s[1..]);
      assert s == [s[0]] + s[1..];
    }
  }

  lemma MembersBelow(r: seq<Share>, x: Share, rest: seq<Share>, bound: real)
    requires multiset(r) == multiset{x} + multiset(rest)
    requires x.value <= bound && forall i :: 0 <= i < |rest| ==> rest[i].value <= bound
    ensures forall i :: 0 <= i < |r| ==> r[i].value <= bound
  {
    forall i | 0 <= i < |r|
      ensures r[i].value <= bound
    {
      assert r[i] in multiset(r);
      assert r[i] == x || r[i] in rest;
    }
  }

  lemma {:induction false} InsertProperties(x: Share, s: seq<Share>)
    requires Descending(s)
    ensures Descending(Insert(x, s)) && multiset(Insert(x, s)) == multiset{x} + multiset(s)
  {
    InsertMultiset(x, s);
    if s != [] && x.value < s[0].value {
      InsertProperties(x, s[1..]);
      MembersBelow(Insert(x, s[1..]), x, s[1..], s[0].value);
    }
  }

  lemma {:induction false} SortProperties(s: seq<Share>)
    ensures Descending(SortDesc(s)) && multiset(SortDesc(s)) == multiset(s)
  {
    if s != [] {
      SortProperties(s[1..]);
      InsertProperties(s[0], SortDesc(s[1..]));
      assert s == [s[0]] + s[1..];
    }
  }

  // ----- Sums -----

  /** The shares of one size. */
  function Sized(s: seq<Share>, v: real): seq<Share> {
    if s == [] then [] else (if s[0].value == v then [s[0]] else []) + Sized(s[1..], v)
  }

  lemma {:induction false} InsertStable(x: Share, s: seq<Share>, v: real)
    requires Descending(s)
    ensures Sized(Insert(x, s), v) == (if x.value == v then [x] else []) + Sized(s, v)
  {
    var r := Insert(x, s);
    if s == [] || x.value >= s[0].value {
      assert r[0] == x && r[1..] == s;
    } else {
      assert r[0] == s[0] && r[1..] == Insert(x, s[1..]);
      InsertStable(x, s[1..], v);
      if x.value == v {
        assert s[0].value != v;
      }
    }
  }

  /** Databases of one size keep their order. */
  lemma {:induction false} SortStable(s: seq<Share>, v: real)
    ensures Sized(SortDesc(s), v) == Sized(s, v)
  {
    if s != [] {
      SortStable(s[1..], v);
      SortProperties(s[1..]);
      InsertStable(s[0], SortDesc(s[1..]), v);
    }
  }

  function Sum(s: seq<Share>): real {
    if s == [] then 0.0 else s[0].value + Sum(s[1..])
  }

  function SumValues(s: seq<Segment>): real {
    if s == [] then 0.0 else s[0].value + SumValues(s[1..])
  }

  function SumPct(s: seq<Segment>): real {
    if s == [] then 0.0 else s[0].pct + SumPct(s[1..])
  }

  lemma {:induction false} SumAppend(a: seq<Share>, b: seq<Share>)
    ensures Sum(a + b) == Sum(a) + Sum(b)
  {
    if a == [] {
      assert a + b == b;
    } else {
      assert (a + b)[1..] == a[1..] + b;
      SumAppend(a[1..], b);
    }
  }

  lemma {:induction false} SumValuesAppend(a: seq<Segment>, b: seq<Segment>)
    ensures SumValues(a + b) == SumValues(a) + SumValues(b)
  {
    if a == [] {
      assert a + b == b;
    } else {
      assert (a + b)[1..] == a[1..] + b;
      SumValuesAppend(a[1..], b);
    }
  }

  /** The sum is positive as soon as something is added up. */
  lemma {:induction false} SumPositive(s: seq<Share>)
    requires forall i :: 0 <= i < |s| ==> s[i].value > 0.0
    ensures Sum(s) >= 0.0 && (s != [] ==> Sum(s) > 0.0)
  {
    if s != [] {
      SumPositive(s[1..]);
    }
  }

  // ----- Buckets -----

  function PctOf(v: real, total: real): real
    requires total > 0.0
  {
    v / total * 100.0
  }

  lemma WholePct(total: real)
    requires total > 0.0
    ensures PctOf(total, total) == 100.0
  {
    assert total / total == 1.0;
  }

  function Thick(s: seq<Share>, total: real): seq<Share>
    requires total > 0.0
  {
    if s == [] then []
    else (if PctOf(s[0].value, total) >= MIN_VISIBLE_PCT then [s[0]] else []) + Thick(s[1..], total)
  }

  lemma {:induction false} PctMonotone(v: real, w: real, total: real)
    requires total > 0.0 && v >= w
    ensures PctOf(v, total) >= PctOf(w, total)
  {
    assert v / total - w / total == (v - w) / total;
  }

  lemma {:induction false} NoneThick(s: seq<Share>, total: real)
    requires total > 0.0 && Descending(s) && s != [] && PctOf(s[0].value, total) < MIN_VISIBLE_PCT
    ensures Thick(s, total) == []
  {
    if |s| > 1 {
      PctMonotone(s[0].value, s[1].value, total);
      NoneThick(s[1..], total);
    }
  }

  /** In a descending list the thick slices are a prefix: the later slice by count picks the rest. */
  lemma {:induction false} ThickIsPrefix(s: seq<Share>, total: real)
    requires total > 0.0 && Descending(s)
    ensures Thick(s, total) <= s
  {
    if s != [] {
      if PctOf(s[0].value, total) >= MIN_VISIBLE_PCT {
        ThickIsPrefix(s[1..], total);
        assert s == [s[0]] + s[1..];
      } else {
        NoneThick(s, total);
      }
    }
  }

  /** And the first slice left out is not thick. */
  lemma {:induction false} ThickAll(s: seq<Share>, total: real)
    requires total > 0.0 && Descending(s)
    ensures |Thick(s, total)| <= |s|
    ensures |Thick(s, total)| < |s| ==> PctOf(s[|Thick(s, total)|].value, total) < MIN_VISIBLE_PCT
  {
    if s != [] {
      if PctOf(s[0].value, total) >= MIN_VISIBLE_PCT {
        ThickAll(s[1..], total);
      } else {
        NoneThick(s, total);
      }
    }
  }

  function SegmentOf(e: Share, total: real): Segment
    requires total > 0.0
  {
    Segment(e.name, e.value, PctOf(e.value, total))
  }

  function SegmentsOf(s: seq<Share>, total: real): (r: seq<Segment>)
    requires total > 0.0
    ensures |r| == |s| && forall i :: 0 <= i < |s| ==> r[i] == SegmentOf(s[i], total)
  {
    if s == [] then [] else [SegmentOf(s[0], total)] + SegmentsOf(s[1..], total)
  }

  lemma {:induction false} SegmentsSum(s: seq<Share>, total: real)
    requires total > 0.0
    ensures SumValues(SegmentsOf(s, total)) == Sum(s)
  {
    if s != [] {
      SegmentsSum(s[1..], total);
      assert SegmentsOf(s, total)[1..] == SegmentsOf(s[1..], total);
    }
  }

  /** Percentages are the values scaled by 100 / total. */
  lemma {:induction false} PctSum(s: seq<Segment>, total: real)
    requires total > 0.0 && forall i :: 0 <= i < |s| ==> s[i].pct == PctOf(s[i].value, total)
    ensures SumPct(s) == PctOf(SumValues(s), total)
  {
    if s != [] {
      PctSum(s[1..], total);
      var v, w := s[0].value, SumValues(s[1..]);
      assert (v + w) / total == v / total + w / total;
    }
  }

  datatype Slices = Slices(segments: seq<Segment>, total: real, hiddenCount: nat)

  /** Values add up to the total and percentages to 100, and every segment is real. */
  ghost predicate Balanced(r: Slices) {
    && SumValues(r.segments) == r.total
    && (r.total > 0.0 <==> r.segments != [])
    && (r.total > 0.0 ==> SumPct(r.segments) == 100.0)
    && |r.segments| <= 8
    && forall i :: 0 <= i < |r.segments| ==> r.segments[i].value > 0.0
  }

  /**
   The first `k` of the descending list are shown by name, the rest as "Other": as many as 7 and as have
   at least 1.5%.
   */
  ghost predicate Buckets(all: seq<Share>, r: Slices) {
    && r.hiddenCount <= |all|
    && var k := |all| - r.hiddenCount;
       && k <= 7
       && (k == 7 || k == |all| || (r.total > 0.0 && all[k].value / r.total * 100.0 < 1.5))
       && |r.segments| == k + (if r.hiddenCount > 0 then 1 else 0)
       && (forall i :: 0 <= i < k ==> r.segments[i].name == all[i].name && r.segments[i].value == all[i].value)
       && (forall i :: 0 <= i < k ==> r.segments[i].pct >= 1.5)
       && (forall i :: 0 <= i < |r.segments| ==>
             r.total > 0.0 && r.segments[i].pct == r.segments[i].value / r.total * 100.0)
       && (r.hiddenCount > 0 ==> r.segments[k].name == "Other (" + Print(r.hiddenCount) + ")")
  }

  function OtherSegment(overflow: seq<Share>, total: real): seq<Segment>
    requires total > 0.0
  {
    if Sum(overflow) > 0.0
    then [Segment("Other (" + Print(|overflow|) + ")", Sum(overflow), PctOf(Sum(overflow), total))]
    else []
  }

  lemma {:induction false} SegmentsBalanced(visible: seq<Share>, overflow: seq<Share>, total: real)
    requires forall i :: 0 <= i < |visible| ==> visible[i].value > 0.0
    requires forall i :: 0 <= i < |overflow| ==> overflow[i].value > 0.0
    requires total == Sum(visible + overflow) && total > 0.0 && |visible| <= MAX_SLICES
    ensures Balanced(Slices(SegmentsOf(visible, total) + OtherSegment(overflow, total), total, |overflow|))
    ensures OtherSegment(overflow, total) == [] <==> overflow == []
  {
    var segments, other := SegmentsOf(visible, total), OtherSegment(overflow, total);
    SumAppend(visible, overflow);
    SumPositive(visible);
    SumPositive(overflow);
    SegmentsSum(visible, total);
    SumValuesAppend(segments, other);
    assert SumValues(other) == Sum(overflow);
    PctSum(segments + other, total);
    WholePct(total);
    assert visible == [] && overflow == [] ==> visible + overflow == [];
  }

  lemma {:induction false} ThickSplit(all: seq<Share>, total: real)
    requires total > 0.0 && Descending(all)
    ensures var visible := Thick(Top(all), total);
      && |visible| <= |Top(all)| && visible == all[..|visible|] && all == visible + all[|visible|..]
      && (forall i :: 0 <= i < |visible| ==> PctOf(visible[i].value, total) >= MIN_VISIBLE_PCT)
      && (|visible| < |Top(all)| ==> PctOf(all[|visible|].value, total) < MIN_VISIBLE_PCT)
  {
    var top := Top(all);
    ThickIsPrefix(top, total);
    ThickPct(top, total);
    ThickAll(top, total);
    var visible := Thick(top, total);
    assert visible == top[..|visible|];
  }

  function Top(all: seq<Share>): seq<Share> {
    if |all| <= MAX_SLICES then all else all[..MAX_SLICES]
  }

  lemma {:induction false} BucketsHold(all: seq<Share>, visible: seq<Share>, total: real)
    requires total > 0.0 && Descending(all) && visible == Thick(Top(all), total)
    requires total == Sum(all) && forall i :: 0 <= i < |all| ==> all[i].value > 0.0
    ensures |visible| <= |all|
    ensures var overflow := all[|visible|..];
      var r := Slices(SegmentsOf(visible, total) + OtherSegment(overflow, total), total, |overflow|);
      Balanced(r) && Buckets(all, r)
  {
    ThickSplit(all, total);
    var overflow := all[|visible|..];
    SegmentsBalanced(visible, overflow, total);
  }

  /**
   The named slices are the largest databases, in descending order, and each stands for at least 1.5%;
   together with "Other" they add up to the total, which is 100%. There are at most 8 segments, all of
   positive size, and none exactly when no database has a positive size.
   */
  method BuildSlices(databases: seq<Database>) returns (r: Slices)
    ensures r.total == Sum(Positive(databases)) && Balanced(r)
    ensures var all := SortDesc(Positive(databases));
      multiset(all) == multiset(Positive(databases)) && Descending(all) && Buckets(all, r)
  {
    var all := SortDesc(Positive(databases));
    SortedShares(databases, all);
    var total := Sum(all);
    if total == 0.0 {
      return Slices([], 0.0, 0);
    }
    var visible := Thick(Top(all), total);
    BucketsHold(all, visible, total);
    var overflow := all[|visible|..];
    var otherValue := Sum(overflow);
    var segments := SegmentsOf(visible, total);
    ghost var named := segments;
    if otherValue > 0.0 {
      segments := segments + [Segment("Other (" + Print(|overflow|) + ")", otherValue, PctOf(otherValue, total))];
    }
    assert segments == named + OtherSegment(overflow, total);
    return Slices(segments, total, |overflow|);
  }

  lemma SortedShares(databases: seq<Database>, all: seq<Share>)
    requires all == SortDesc(Positive(databases))
    ensures multiset(all) == multiset(Positive(databases)) && Descending(all) && Sum(all) == Sum(Positive(databases))
    ensures forall i :: 0 <= i < |all| ==> all[i].value > 0.0
    ensures Sum(all) >= 0.0 && (all != [] <==> Sum(all) > 0.0)
  {
    SortProperties(Positive(databases));
    SamePositive(Positive(databases), all);
    SumPermuted(Positive(databases));
    SumPositive(all);
  }

  lemma SamePositive(a: seq<Share>, b: seq<Share>)
    requires multiset(a) == multiset(b) && forall i :: 0 <= i < |a| ==> a[i].value > 0.0
    ensures forall i :: 0 <= i < |b| ==> b[i].value > 0.0
  {
    forall i | 0 <= i < |b|
      ensures b[i].value > 0.0
    {
      assert b[i] in multiset(b) && b[i] in multiset(a);
    }
  }

  lemma {:induction false} InsertSum(x: Share, s: seq<Share>)
    ensures Sum(Insert(x, s)) == x.value + Sum(s)
  {
    if s == [] || x.value >= s[0].value {
      assert ([x] + s)[1..] == s;
    } else {
      InsertSum(x, s[1..]);
      assert Insert(x, s)[1..] == Insert(x, s[1..]);
    }
  }

  lemma {:induction false} SumPermuted(s: seq<Share>)
    ensures Sum(SortDesc(s)) == Sum(s)
  {
    if s != [] {
      SumPermuted(s[1..]);
      InsertSum(s[0], SortDesc(s[1..]));
    }
  }

  lemma {:induction false} ThickPct(s: seq<Share>, total: real)
    requires total > 0.0
    ensures forall i :: 0 <= i < |Thick(s, total)| ==> PctOf(Thick(s, total)[i].value, total) >= MIN_VISIBLE_PCT
  {
    if s != [] {
      ThickPct(s[1..], total);
    }
  }

  // ----- The gradient -----

  function Degrees(v: real, total: real): real
    requires total > 0.0
  {
    v / total * 360.0
  }

  /**
   The stops tile the circle: they start at 0, join without gap or overlap, and end at 360 degrees.
   Without segments nothing is drawn.
   */
  method GradientStops(slices: Slices) returns (stops: seq<(real, real)>)
    requires Balanced(slices)
    ensures |stops| == |slices.segments|
    ensures stops != [] ==> stops[0].0 == 0.0 && stops[|stops| - 1].1 == 360.0
    ensures forall i, j :: 0 <= i < |stops| && j == i + 1 && j < |stops| ==> stops[i].1 == stops[j].0
    ensures forall i :: 0 <= i < |stops| ==>
      slices.total > 0.0 && stops[i].0 < stops[i].1
      && stops[i].1 - stops[i].0 == slices.segments[i].value / slices.total * 360.0
  {
    stops := [];
    var segments, total := slices.segments, slices.total;
    if total == 0.0 || segments == [] { return; }
    var startDeg := 0.0;
    for k := 0 to |segments|
      invariant |stops| == k && startDeg == Degrees(SumValues(segments[..k]), total)
      invariant k > 0 ==> stops[0].0 == 0.0 && stops[k - 1].1 == startDeg
      invariant forall i, j :: 0 <= i < k && j == i + 1 && j < k ==> stops[i].1 == stops[j].0
      invariant forall i :: 0 <= i < k ==>
        stops[i].0 < stops[i].1 && stops[i].1 - stops[i].0 == Degrees(segments[i].value, total)
    {
      var angle := Degrees(segments[k].value, total);
      Wide(segments[k].value, total);
      var endDeg := startDeg + angle;
      NextDegree(segments, k, total);
      stops := stops + [(startDeg, endDeg)];
      startDeg := endDeg;
    }
    assert segments[..|segments|] == segments;
    WholePct(total);
  }

  lemma {:induction false} Wide(v: real, total: real)
    requires total > 0.0 && v > 0.0
    ensures Degrees(v, total) > 0.0
  {
  }

  lemma {:induction false} NextDegree(segments: seq<Segment>, k: nat, total: real)
    requires total > 0.0 && k < |segments|
    ensures Degrees(SumValues(segments[..k + 1]), total) == Degrees(SumValues(segments[..k]), total)
      + Degrees(segments[k].value, total)
  {
    assert segments[..k + 1] == segments[..k] + [segments[k]];
    SumValuesAppend(segments[..k], [segments[k]]);
    var a, b := SumValues(segments[..k]), segments[k].value;
    assert SumValues([segments[k]]) == b;
    assert (a + b) / total == a / total + b / total;
  }
}
