/** Collections of intervals, and the parts of a range that no interval covers. */
module Intervals {

  datatype Interval = Interval(start: int, end: int)

  predicate Contains(i: Interval, x: int) {
    i.start <= x < i.end
  }

  /** How many intervals cover `x`. */
  function Cover(s: seq<Interval>, x: int): nat {
    if s == [] then 0 else Cover(s[..|s| - 1], x) + if Contains(s[|s| - 1], x) then 1 else 0
  }

  lemma CoverNext(s: seq<Interval>, i: Interval, x: int)
    ensures Cover(s + [i], x) == Cover(s, x) + if Contains(i, x) then 1 else 0
  {
    assert (s + [i])[..|s|] == s;
  }

  lemma {:induction false} CoverRemove(s: seq<Interval>, k: nat, x: int)
    requires k < |s|
    ensures Cover(s, x) == Cover(s[..k] + s[k + 1..], x) + if Contains(s[k], x) then 1 else 0
  {
    var n := |s| - 1;
    if k < n {
      CoverRemove(s[..n], k, x);
      assert (s[..k] + s[k + 1..])[..n - 1] == s[..n][..k] + s[..n][k + 1..];
    } else {
      assert s[..k] + s[k + 1..] == s[..n];
    }
  }

  lemma {:induction false} CoverIsZero(s: seq<Interval>, x: int)
    ensures Cover(s, x) == 0 <==> forall i :: i in s ==> !Contains(i, x)
  {
    if s != [] {
      CoverIsZero(s[..|s| - 1], x);
      assert s == s[..|s| - 1] + [s[|s| - 1]];
    }
  }

  // ---- sorting ---------------------------------------------------------------------------------------

  ghost predicate Sorted(s: seq<Interval>) {
    forall j, k :: 0 <= j < k < |s| ==> s[j].start <= s[k].start
  }

  function Insert(s: seq<Interval>, i: Interval): seq<Interval> {
    if s == [] || i.start <= s[0].start then [i] + s else [s[0]] + Insert(s[1..], i)
  }

  function Sort(s: seq<Interval>): seq<Interval> {
    if s == [] then [] else Insert(Sort(s[1..]), s[0])
  }

  lemma {:induction false} InsertIsSorted(s: seq<Interval>, i: Interval)
    requires Sorted(s)
    ensures Sorted(Insert(s, i)) && forall x :: x in Insert(s, i) <==> x == i || x in s
  {
    if s != [] && i.start > s[0].start {
      InsertIsSorted(s[1..], i);
      assert s == [s[0]] + s[1..];
      var rest := Insert(s[1..], i);
      forall k | 0 <= k < |rest| ensures s[0].start <= rest[k].start {
        assert rest[k] in rest;
      }
    }
  }

  lemma {:induction false} SortIsSorted(s: seq<Interval>)
    ensures Sorted(Sort(s)) && forall x :: x in Sort(s) <==> x in s
  {
    if s != [] {
      SortIsSorted(s[1..]);
      InsertIsSorted(Sort(s[1..]), s[0]);
      assert s == [s[0]] + s[1..];
    }
  }

  // ---- the class -------------------------------------------------------------------------------------

  ghost predicate InAreas(areas: seq<Interval>, x: int) {
    exists i :: i in areas && Contains(i, x)
  }

  /** Nonempty ranges, one after the other. */
  ghost predicate Apart(areas: seq<Interval>) {
    && (forall k :: 0 <= k < |areas| ==> areas[k].start < areas[k].end)
    && (forall j, k :: 0 <= j < k < |areas| ==> areas[j].end <= areas[k].start)
  }

  /** `areas` are the parts of [start, end) that no interval of `s` covers. */
  ghost predicate FreeArea(s: seq<Interval>, start: int, end: int, areas: seq<Interval>) {
    Apart(areas) && forall x :: InAreas(areas, x) <==> start <= x < end && Cover(s, x) == 0
  }

  lemma InAreasNext(areas: seq<Interval>, i: Interval, x: int)
    ensures InAreas(areas + [i], x) <==> InAreas(areas, x) || Contains(i, x)
  {
    if Contains(i, x) {
      assert i in areas + [i];
    }
    if InAreas(areas, x) {
      var a :| a in areas && Contains(a, x);
      assert a in areas + [i];
    }
  }

  /** What the walk over the sorted intervals keeps: up to `at` every byte is in an area or covered, the areas are not
      covered, and no interval that is still to come reaches back into them. */
  ghost predicate WalkOk(sorted: seq<Interval>, k: nat, start: int, end: int, at: int, areas: seq<Interval>)
    requires k <= |sorted|
  {
    AreasOk(sorted, k, start, end, at, areas) && SeenOk(sorted, k, start, at, areas)
  }

  ghost predicate AreasOk(sorted: seq<Interval>, k: nat, start: int, end: int, at: int, areas: seq<Interval>)
    requires k <= |sorted|
  {
    && Apart(areas) && start <= at
    && (forall i :: i in areas ==> start <= i.start && i.end <= at && i.end <= end)
    && (forall i, j :: i in areas && k <= j < |sorted| ==> i.end <= sorted[j].start)
  }

  ghost predicate SeenOk(sorted: seq<Interval>, k: nat, start: int, at: int, areas: seq<Interval>)
    requires k <= |sorted|
  {
    && (forall j :: 0 <= j < k ==> sorted[j].end <= at)
    && (forall x, j :: InAreas(areas, x) && 0 <= j < k ==> !Contains(sorted[j], x))
    && (forall x :: start <= x < at && !InAreas(areas, x) ==> CoveredBy(sorted, k, x))
  }

  ghost predicate CoveredBy(sorted: seq<Interval>, k: nat, x: int)
    requires k <= |sorted|
  {
    exists j :: 0 <= j < k && Contains(sorted[j], x)
  }

  lemma WalkSkip(sorted: seq<Interval>, k: nat, start: int, end: int, at: int, areas: seq<Interval>)
    requires k < |sorted| && WalkOk(sorted, k, start, end, at, areas) && sorted[k].end <= at
    ensures WalkOk(sorted, k + 1, start, end, at, areas)
  {
  }

  lemma WalkOver(sorted: seq<Interval>, k: nat, start: int, end: int, at: int, areas: seq<Interval>)
    requires k < |sorted| && Sorted(sorted) && WalkOk(sorted, k, start, end, at, areas)
             && sorted[k].start <= at < sorted[k].end
    ensures WalkOk(sorted, k + 1, start, end, sorted[k].end, areas)
  {
    forall x | start <= x < sorted[k].end && !InAreas(areas, x) ensures CoveredBy(sorted, k + 1, x) {
      assert x >= at ==> Contains(sorted[k], x);
      assert x < at ==> CoveredBy(sorted, k, x);
    }
    assert forall x, j :: InAreas(areas, x) && 0 <= j < k + 1 ==> !Contains(sorted[j], x);
  }

  lemma {:induction false} WalkGap(sorted: seq<Interval>, k: nat, start: int, end: int, at: int, areas: seq<Interval>)
    requires k < |sorted| && Sorted(sorted) && WalkOk(sorted, k, start, end, at, areas)
    requires at < sorted[k].start < sorted[k].end && sorted[k].start < end
    ensures WalkOk(sorted, k + 1, start, end, sorted[k].end, areas + [Interval(at, sorted[k].start)])
  {
    hide InAreas;
    GapAreas(sorted, k, start, end, at, areas);
    var gap := Interval(at, sorted[k].start);
    forall x ensures InAreas(areas + [gap], x) <==> InAreas(areas, x) || Contains(gap, x) {
      InAreasNext(areas, gap, x);
    }
    forall x ensures InAreas(areas, x) ==> x < at {
      AreasBehind(sorted, k, start, end, at, areas, x);
    }
    forall x | start <= x < sorted[k].end && !InAreas(areas + [gap], x) ensures CoveredBy(sorted, k + 1, x) {
      assert x >= at ==> Contains(sorted[k], x);
      assert x < at ==> CoveredBy(sorted, k, x);
    }
  }

  lemma AreasBehind(sorted: seq<Interval>, k: nat, start: int, end: int, at: int, areas: seq<Interval>, x: int)
    requires k <= |sorted| && AreasOk(sorted, k, start, end, at, areas)
    ensures InAreas(areas, x) ==> x < at
  {
  }

  lemma GapAreas(sorted: seq<Interval>, k: nat, start: int, end: int, at: int, areas: seq<Interval>)
    requires k < |sorted| && Sorted(sorted) && AreasOk(sorted, k, start, end, at, areas)
    requires at < sorted[k].start < sorted[k].end && sorted[k].start < end
    ensures AreasOk(sorted, k + 1, start, end, sorted[k].end, areas + [Interval(at, sorted[k].start)])
  {
    assert forall i :: i in areas + [Interval(at, sorted[k].start)] <==>
        i in areas || i == Interval(at, sorted[k].start);
    assert forall j :: 0 <= j < |areas| ==> areas[j] in areas;
  }

  /** After the walk: what is left behind the last interval is free, too. */
  lemma WalkEnds(s: seq<Interval>, sorted: seq<Interval>, start: int, end: int, at: int, areas: seq<Interval>)
    requires start < end && WalkOk(sorted, |sorted|, start, end, at, areas)
    requires forall i :: i in sorted ==> i in s && i.start < end
    requires forall i :: i in s && i.end > start && end > i.start ==> i in sorted
    ensures FreeArea(s, start, end, if at < end then areas + [Interval(at, end)] else areas)
  {
    var rest := Interval(at, end);
    var all := if at < end then areas + [rest] else areas;
    assert forall j :: 0 <= j < |areas| ==> areas[j] in areas;
    forall x ensures InAreas(all, x) <==> start <= x < end && Cover(s, x) == 0 {
      InAreasNext(areas, rest, x);
      CoverIsZero(s, x);
      WalkMeans(s, sorted, start, end, at, areas, x);
    }
  }

  lemma WalkMeans(s: seq<Interval>, sorted: seq<Interval>, start: int, end: int, at: int, areas: seq<Interval>, x: int)
    requires start < end && WalkOk(sorted, |sorted|, start, end, at, areas)
    requires forall i :: i in sorted ==> i in s && i.start < end
    requires forall i :: i in s && i.end > start && end > i.start ==> i in sorted
    ensures InAreas(areas, x) || (at <= x < end) <==> start <= x < end && forall i :: i in s ==> !Contains(i, x)
  {
    if InAreas(areas, x) {
      var a :| a in areas && Contains(a, x);
      AreaBeforeEnd(sorted, start, end, at, areas, a);
      forall i | i in s ensures !Contains(i, x) {
        if i in sorted {
          var j :| 0 <= j < |sorted| && sorted[j] == i;
        }
      }
    } else if at <= x < end {
      forall i | i in s ensures !Contains(i, x) {
        if i in sorted {
          var j :| 0 <= j < |sorted| && sorted[j] == i;
        }
      }
    } else if start <= x < at {
      assert CoveredBy(sorted, |sorted|, x);
      var j :| 0 <= j < |sorted| && Contains(sorted[j], x);
      assert sorted[j] in s;
    }
  }

  lemma AreaBeforeEnd(sorted: seq<Interval>, start: int, end: int, at: int, areas: seq<Interval>, a: Interval)
    requires WalkOk(sorted, |sorted|, start, end, at, areas) && a in areas
    ensures a.end <= end
  {
  }

  class Intervals {
    var intervals: seq<Interval>

    constructor ()
      ensures intervals == [] && Valid()
    {
      intervals := [];
    }

    ghost predicate Valid()
      reads this
    {
      forall i :: i in intervals ==> i.start < i.end
    }

    /** The parts of [start, end) that no interval covers. */
    method FindFreeArea(start: int, end: int) returns (areas: seq<Interval>)
      requires Valid() && start < end
      ensures FreeArea(intervals, start, end, areas)
    {
      hide Cover, FreeArea, WalkOk, AreasOk, SeenOk, Sorted, Sort;
      var selected := [];
      for k := 0 to |intervals|
        invariant forall i :: i in selected <==> i in intervals[..k] && start < i.end && i.start < end
      {
        assert intervals[..k + 1] == intervals[..k] + [intervals[k]];
        var i := intervals[k];
        if !(i.end <= start || end <= i.start) {
          if i.start <= start && i.end >= end {
            NothingFree(intervals, start, end, i);
            return [];
          }
          selected := selected + [i];
        }
      }
      assert intervals[..|intervals|] == intervals;
      if selected == [] {
        AllFree(intervals, start, end);
        return [Interval(start, end)];
      }
      var sorted := Sort(selected);
      SortIsSorted(selected);
      areas := [];
      var at := start;
      assert WalkOk(sorted, 0, start, end, at, areas) by { WalkStarts(sorted, start, end); }
      for k := 0 to |sorted|
        invariant WalkOk(sorted, k, start, end, at, areas) && start <= at
      {
        assert sorted[k] in selected;
        var s, e := sorted[k].start, sorted[k].end;
        if e <= at {
          WalkSkip(sorted, k, start, end, at, areas);
        } else {
          if s > at {
            WalkGap(sorted, k, start, end, at, areas);
            areas := areas + [Interval(at, s)];
          } else {
            WalkOver(sorted, k, start, end, at, areas);
          }
          at := e;
        }
      }
      WalkEnds(intervals, sorted, start, end, at, areas);
      if at < end {
        areas := areas + [Interval(at, end)];
      }
    }

    /** Adds an interval; the result is the bytes that are covered now and were not before. */
    method Add(start: int, end: int) returns (areas: seq<Interval>)
      requires Valid() && start < end
      modifies this
      ensures Valid() && intervals == old(intervals) + [Interval(start, end)] && Apart(areas)
      ensures forall x :: InAreas(areas, x) <==> Cover(old(intervals), x) == 0 && Cover(intervals, x) > 0
      ensures forall i :: i in areas ==> start <= i.start < i.end <= end
    {
      areas := FindFreeArea(start, end);
      intervals := intervals + [Interval(start, end)];
      forall x ensures Cover(intervals, x) == Cover(old(intervals), x) + if start <= x < end then 1 else 0 {
        CoverNext(old(intervals), Interval(start, end), x);
      }
      InsideRange(old(intervals), start, end, areas);
    }

    /** Removes one occurrence of an interval; the result is the bytes that were covered before and are not any more. */
    method Remove(start: int, end: int) returns (areas: seq<Interval>)
      requires Valid() && Interval(start, end) in intervals
      modifies this
      ensures Valid() && Apart(areas)
      ensures exists k :: 0 <= k < |old(intervals)| && old(intervals)[k] == Interval(start, end)
                          && intervals == old(intervals)[..k] + old(intervals)[k + 1..]
      ensures forall x :: InAreas(areas, x) <==> Cover(old(intervals), x) > 0 && Cover(intervals, x) == 0
      ensures forall i :: i in areas ==> start <= i.start < i.end <= end
    {
      var k := 0;
      while intervals[k] != Interval(start, end)
        invariant 0 <= k < |intervals| && Interval(start, end) in intervals[k..]
        decreases |intervals| - k
      {
        assert intervals[k..] == [intervals[k]] + intervals[k + 1..];
        k := k + 1;
      }
      ghost var before := intervals;
      intervals := intervals[..k] + intervals[k + 1..];
      areas := FindFreeArea(start, end);
      forall x ensures Cover(before, x) == Cover(intervals, x) + if start <= x < end then 1 else 0 {
        CoverRemove(before, k, x);
      }
      InsideRange(intervals, start, end, areas);
    }
  }

  lemma WalkStarts(sorted: seq<Interval>, start: int, end: int)
    ensures WalkOk(sorted, 0, start, end, start, [])
  {
  }

  lemma NothingFree(s: seq<Interval>, start: int, end: int, i: Interval)
    requires i in s && i.start <= start && end <= i.end
    ensures FreeArea(s, start, end, [])
  {
    forall x | start <= x < end ensures Cover(s, x) > 0 {
      CoverIsZero(s, x);
      assert Contains(i, x);
    }
  }

  lemma AllFree(s: seq<Interval>, start: int, end: int)
    requires start < end && forall i :: i in s ==> i.end <= start || end <= i.start
    ensures FreeArea(s, start, end, [Interval(start, end)])
  {
    var areas := [Interval(start, end)];
    forall x ensures InAreas(areas, x) <==> start <= x < end && Cover(s, x) == 0 {
      CoverIsZero(s, x);
      assert Interval(start, end) in areas;
    }
  }

  lemma InsideRange(s: seq<Interval>, start: int, end: int, areas: seq<Interval>)
    requires FreeArea(s, start, end, areas)
    ensures forall i :: i in areas ==> start <= i.start < i.end <= end
  {
    forall i | i in areas ensures start <= i.start < i.end <= end {
      var k :| 0 <= k < |areas| && areas[k] == i;
      assert Contains(i, i.start) && Contains(i, i.end - 1);
      assert InAreas(areas, i.start) && InAreas(areas, i.end - 1);
    }
  }
}
