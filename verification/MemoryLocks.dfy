/** Memory of pending non-blocking requests: read-only as long as some request needs it. */
module MemoryLocks {
  import opened MemoryTypes
  import opened Intervals
  import opened PageMemory

  /** From `before` to `after` exactly the bytes of the areas got the permission `perm`. */
  ghost predicate AreasSet(before: imap<int, seq<Perm>>, after: imap<int, seq<Perm>>, areas: seq<Interval>, perm: Perm)
    requires Whole(before) && Whole(after)
  {
    forall x: int :: PermIn(after, x) == if InAreas(areas, x) then perm else PermIn(before, x)
  }

  /** A byte is read-only while a request covers it, writable once it has been released, and otherwise as it was. */
  ghost predicate LocksHold(original: imap<int, seq<Perm>>, bits: imap<int, seq<Perm>>, locked: seq<Interval>,
                            released: iset<int>)
    requires Whole(original) && Whole(bits)
  {
    forall x: int :: PermIn(bits, x) == if Cover(locked, x) > 0 then READONLY else if x in released then DEFINED
          else PermIn(original, x)
  }

  lemma AreasNext(a: imap<int, seq<Perm>>, b: imap<int, seq<Perm>>, c: imap<int, seq<Perm>>, areas: seq<Interval>,
                  i: Interval, perm: Perm)
    requires Whole(a) && Whole(b) && Whole(c) && i.start <= i.end
    requires AreasSet(a, b, areas, perm) && RangeSet(b, c, i.start, i.end - i.start, perm)
    ensures AreasSet(a, c, areas + [i], perm)
  {
    forall x: int ensures PermIn(c, x) == if InAreas(areas + [i], x) then perm else PermIn(a, x) {
      InAreasNext(areas, i, x);
    }
  }

  lemma AreasNone(a: imap<int, seq<Perm>>)
    requires Whole(a)
    ensures AreasSet(a, a, [], READONLY) && AreasSet(a, a, [], DEFINED)
  {
  }

  lemma {:induction false} LockedMore(original: imap<int, seq<Perm>>, before: imap<int, seq<Perm>>,
                                      after: imap<int, seq<Perm>>, locked: seq<Interval>, more: seq<Interval>,
                                      released: iset<int>, areas: seq<Interval>)
    requires Whole(original) && Whole(before) && Whole(after) && LocksHold(original, before, locked, released)
    requires AreasSet(before, after, areas, READONLY)
    requires forall x :: InAreas(areas, x) <==> Cover(locked, x) == 0 && Cover(more, x) > 0
    requires forall x :: Cover(locked, x) <= Cover(more, x)
    ensures LocksHold(original, after, more, released)
  {
    hide Cover, InAreas;
    forall x: int ensures PermIn(after, x) == if Cover(more, x) > 0 then READONLY else if x in released then DEFINED
          else PermIn(original, x) {
      assert Cover(locked, x) <= Cover(more, x);
    }
  }

  lemma {:induction false} LockedLess(original: imap<int, seq<Perm>>, before: imap<int, seq<Perm>>,
                                      after: imap<int, seq<Perm>>, locked: seq<Interval>, less: seq<Interval>,
                                      released: iset<int>, areas: seq<Interval>)
    requires Whole(original) && Whole(before) && Whole(after) && LocksHold(original, before, locked, released)
    requires AreasSet(before, after, areas, DEFINED)
    requires forall x :: InAreas(areas, x) <==> Cover(locked, x) > 0 && Cover(less, x) == 0
    requires forall x :: Cover(less, x) <= Cover(locked, x)
    ensures LocksHold(original, after, less, released + iset x | InAreas(areas, x))
  {
    hide Cover, InAreas;
    forall x: int ensures PermIn(after, x) == if Cover(less, x) > 0 then READONLY
                                              else if x in released || InAreas(areas, x) then DEFINED
                                                    else PermIn(original, x) {
      assert Cover(less, x) <= Cover(locked, x);
    }
  }

  /** Read-only bytes are those of pending requests, and those that the program had made read-only itself. */
  lemma ReadOnlyIsLocked(original: imap<int, seq<Perm>>, bits: imap<int, seq<Perm>>, locked: seq<Interval>,
                         released: iset<int>, x: int)
    requires Whole(original) && Whole(bits) && LocksHold(original, bits, locked, released)
             && PermIn(original, x) != READONLY
    ensures PermIn(bits, x) == READONLY <==> exists i :: i in locked && Contains(i, x)
  {
    CoverIsZero(locked, x);
  }

  datatype Region = Region(start: int, size: nat)

  function AsInterval(r: Region): Interval {
    Interval(r.start, r.start + r.size)
  }

  function AsIntervals(rs: seq<Region>): (s: seq<Interval>)
    ensures |s| == |rs|
  {
    if rs == [] then [] else AsIntervals(rs[..|rs| - 1]) + [AsInterval(rs[|rs| - 1])]
  }

  ghost predicate AllInside(rs: seq<Region>, length: nat) {
    forall r :: r in rs ==> 0 <= r.start && r.size > 0 && r.start + r.size <= length
  }

  /** The locked memory of a process. */
  class LockedMemory {
    const space: MemorySpace
    const locked: Intervals
    /** The bytes that have been locked and released. */
    ghost var released: iset<int>

    constructor (space: MemorySpace)
      ensures this.space == space && fresh(locked) && locked.intervals == [] && released == iset{}
    {
      this.space, released := space, iset{};
      locked := new Intervals();
    }

    ghost predicate Valid()
      reads this, locked, space, space.pages, space.vas, space.mem
    {
      space.Valid() && locked.Valid() && (forall i :: i in locked.intervals ==>
          0 <= i.start && i.end <= space.mem.Length)
    }

    /** The pending requests are those of `locked`, and each of their bytes is read-only. */
    ghost predicate Holds(original: imap<int, seq<Perm>>)
      requires Whole(original) && Valid()
      reads this, locked, space, space.pages, space.vas, space.mem
    {
      LocksHold(original, space.Bits(), locked.intervals, released)
    }

    /** Makes the areas read-only. */
    method LockAreas(areas: seq<Interval>)
      requires space.Valid() && forall i :: i in areas ==> 0 <= i.start < i.end <= space.mem.Length
      modifies space, space.pages, space.vas, space.mem
      ensures space.Valid() && AreasSet(old(space.Bits()), space.Bits(), areas, READONLY)
      ensures fresh(space.pages - old(space.pages)) && fresh(space.vas - old(space.vas))
    {
      hide AreasSet, InAreas, MemorySpace.Valid, MemorySpace.Bits, MemorySpace.Structure, RangeSet;
      AreasNone(space.Bits());
      for k := 0 to |areas|
        invariant space.Valid() && AreasSet(old(space.Bits()), space.Bits(), areas[..k], READONLY)
        invariant fresh(space.pages - old(space.pages)) && fresh(space.vas - old(space.vas))
      {
        ghost var before := space.Bits();
        var i := areas[k];
        assert i in areas;
        space.Lock(i.start, i.end - i.start);
        AreasNext(old(space.Bits()), before, space.Bits(), areas[..k], i, READONLY);
        assert areas[..k + 1] == areas[..k] + [i];
      }
      assert areas[..|areas|] == areas;
    }

    /** Makes the areas readable and writable. */
    method UnlockAreas(areas: seq<Interval>)
      requires space.Valid() && forall i :: i in areas ==> 0 <= i.start < i.end <= space.mem.Length
      modifies space, space.pages, space.vas
      ensures space.Valid() && AreasSet(old(space.Bits()), space.Bits(), areas, DEFINED)
      ensures fresh(space.pages - old(space.pages)) && fresh(space.vas - old(space.vas))
    {
      hide AreasSet, InAreas, MemorySpace.Valid, MemorySpace.Bits, MemorySpace.Structure, RangeSet;
      AreasNone(space.Bits());
      for k := 0 to |areas|
        invariant space.Valid() && AreasSet(old(space.Bits()), space.Bits(), areas[..k], DEFINED)
        invariant fresh(space.pages - old(space.pages)) && fresh(space.vas - old(space.vas))
      {
        ghost var before := space.Bits();
        var i := areas[k];
        assert i in areas;
        space.Unlock(i.start, i.end - i.start);
        AreasNext(old(space.Bits()), before, space.Bits(), areas[..k], i, DEFINED);
        assert areas[..k + 1] == areas[..k] + [i];
      }
      assert areas[..|areas|] == areas;
    }
  
    lemma AreasInside(areas: seq<Interval>, start: int, end: int)
      requires 0 <= start && end <= space.mem.Length && forall i :: i in areas ==> start <= i.start < i.end <= end
      ensures forall i :: i in areas ==> 0 <= i.start < i.end <= space.mem.Length
    {
    }

    /** One region of a new request. */
    method LockRegion(r: Region, ghost original: imap<int, seq<Perm>>)
      requires Whole(original) && Valid() && Holds(original) && 0 <= r.start && r.size > 0
               && r.start + r.size <= space.mem.Length
      modifies locked, space, space.pages, space.vas, space.mem
      ensures Valid() && Holds(original) && locked.intervals == old(locked.intervals) + [AsInterval(r)]
      ensures fresh(space.pages - old(space.pages)) && fresh(space.vas - old(space.vas))
    {
      hide LocksHold, AreasSet, InAreas, Cover, Apart, MemorySpace.Valid, MemorySpace.Bits, MemorySpace.Structure;
      ghost var before, intervals := space.Bits(), locked.intervals;
      var areas := locked.Add(r.start, r.start + r.size);
      LockAreas(areas);
      forall x ensures Cover(intervals, x) <= Cover(locked.intervals, x) {
        CoverNext(intervals, AsInterval(r), x);
      }
      LockedMore(original, before, space.Bits(), intervals, locked.intervals, released, areas);
    }

    /** One region of a request that is closed. */
    method UnlockRegion(r: Region, ghost original: imap<int, seq<Perm>>)
      requires Whole(original) && Valid() && Holds(original) && AsInterval(r) in locked.intervals
      modifies this, locked, space, space.pages, space.vas
      ensures Valid() && Holds(original) && multiset(locked.intervals)
              + multiset{AsInterval(r)} == multiset(old(locked.intervals))
      ensures fresh(space.pages - old(space.pages)) && fresh(space.vas - old(space.vas))
    {
      hide LocksHold, AreasSet, InAreas, Cover, Apart, MemorySpace.Valid, MemorySpace.Bits, MemorySpace.Structure;
      ghost var before, intervals := space.Bits(), locked.intervals;
      var areas := locked.Remove(r.start, r.start + r.size);
      ghost var k :| 0 <= k < |intervals| && intervals[k] == AsInterval(r)
            && locked.intervals == intervals[..k] + intervals[k + 1..];
      RemovedOne(intervals, k);
      AreasInside(areas, r.start, r.start + r.size);
      UnlockAreas(areas);
      forall x ensures Cover(locked.intervals, x) <= Cover(intervals, x) {
        CoverRemove(intervals, k, x);
      }
      LockedLess(original, before, space.Bits(), intervals, locked.intervals, released, areas);
      released := released + iset x | InAreas(areas, x);
    }

    /** The regions of a new request become read-only. */
    method LockMemory(regions: seq<Region>, ghost original: imap<int, seq<Perm>>)
      requires Whole(original) && Valid() && Holds(original) && AllInside(regions, space.mem.Length)
      modifies locked, space, space.pages, space.vas, space.mem
      ensures Valid() && Holds(original) && locked.intervals == old(locked.intervals) + AsIntervals(regions)
      ensures fresh(space.pages - old(space.pages)) && fresh(space.vas - old(space.vas))
    {
      hide Valid, Holds, LocksHold, MemorySpace.Valid, MemorySpace.Bits, MemorySpace.Structure;
      for k := 0 to |regions|
        invariant Valid() && Holds(original) && locked.intervals == old(locked.intervals) + AsIntervals(regions[..k])
        invariant fresh(space.pages - old(space.pages)) && fresh(space.vas - old(space.vas))
      {
        assert regions[k] in regions;
        LockRegion(regions[k], original);
        assert regions[..k + 1][..k] == regions[..k];
      }
      assert regions[..|regions|] == regions;
    }

    /** The regions of a closed request are released, but for the bytes that another pending request covers. */
    method UnlockMemory(regions: seq<Region>, ghost original: imap<int, seq<Perm>>)
      requires Whole(original) && Valid() && Holds(original) && Bag(regions) <= multiset(locked.intervals)
      modifies this, locked, space, space.pages, space.vas
      ensures Valid() && Holds(original)
      ensures multiset(locked.intervals) + Bag(regions) == multiset(old(locked.intervals))
      ensures fresh(space.pages - old(space.pages)) && fresh(space.vas - old(space.vas))
    {
      hide Valid, Holds, Bag, LocksHold, MemorySpace.Valid, MemorySpace.Bits, MemorySpace.Structure;
      NoBag(regions);
      for k := 0 to |regions|
        invariant Valid() && Holds(original)
        invariant multiset(locked.intervals) + Bag(regions[..k]) == multiset(old(locked.intervals))
        invariant fresh(space.pages - old(space.pages)) && fresh(space.vas - old(space.vas))
      {
        ghost var first, now, i := multiset(old(locked.intervals)), multiset(locked.intervals), AsInterval(regions[k]);
        OneMoreInterval(regions, k);
        StillLocked(Bag(regions), first, now, Bag(regions[..k]), i);
        UnlockRegion(regions[k], original);
        OneLessLocked(first, now, multiset(locked.intervals), Bag(regions[..k]), i);
      }
      assert regions[..|regions|] == regions;
    }

    /** Any interleaving of starting and closing requests: in the end a byte that the program itself has not made
        read-only is read-only exactly if a region of an outstanding request covers it. */
    method Run(steps: seq<LockStep>, ghost original: imap<int, seq<Perm>>) returns (pending: seq<seq<Region>>)
      requires Whole(original) && Valid() && Holds(original) && locked.intervals == []
      requires forall s :: s in steps && s.Start? ==> AllInside(s.regions, space.mem.Length)
      modifies this, locked, space, space.pages, space.vas, space.mem
      ensures Valid() && Holds(original) && pending == Outstanding(steps)
      ensures ReadOnlyExactly(original, pending)
    {
      hide Valid, Holds, LocksHold, Bag, BagOfAll, Covered, ReadOnlyExactly, MemorySpace.Valid, MemorySpace.Bits,
           MemorySpace.Structure;
      pending := [];
      NothingPending();
      for n := 0 to |steps|
        invariant Valid() && Holds(original) && pending == Outstanding(steps[..n])
        invariant multiset(locked.intervals) == BagOfAll(pending)
        invariant fresh(space.pages - old(space.pages)) && fresh(space.vas - old(space.vas))
      {
        assert steps[..n + 1][..n] == steps[..n];
        assert steps[n] in steps;
        match steps[n] {
          case Start(regions) =>
            LockMemory(regions, original);
            BagOfIntervals(regions);
            BagOneMore(pending, regions);
            pending := pending + [regions];
          case Close(k) =>
            if k < |pending| {
              BagOneLess(pending, k);
              UnlockMemory(pending[k], original);
              BagLeft(multiset(locked.intervals), BagOfAll(pending), Bag(pending[k]),
                      BagOfAll(pending[..k] + pending[k + 1..]));
              pending := pending[..k] + pending[k + 1..];
            }
        }
      }
      assert steps[..|steps|] == steps;
      CoveredByLocks(original, pending);
    }

    /** A byte that was not read-only from the start is so exactly if a region of an outstanding request covers it. */
    ghost predicate ReadOnlyExactly(original: imap<int, seq<Perm>>, pending: seq<seq<Region>>)
      requires Whole(original) && Valid()
      reads this, locked, space, space.pages, space.vas, space.mem
    {
      forall x: int :: PermIn(original, x) != READONLY
            ==> (PermIn(space.Bits(), x) == READONLY <==> Covered(pending, x))
    }

    lemma {:induction false} CoveredByLocks(original: imap<int, seq<Perm>>, pending: seq<seq<Region>>)
      requires Whole(original) && Valid() && Holds(original) && multiset(locked.intervals) == BagOfAll(pending)
      ensures ReadOnlyExactly(original, pending)
    {
      hide BagOfAll, LocksHold, Covered, MemorySpace.Bits;
      forall i ensures i in locked.intervals <==> i in BagOfAll(pending) {
        assert i in locked.intervals <==> i in multiset(locked.intervals);
      }
      forall x: int | PermIn(original, x) != READONLY ensures PermIn(space.Bits(), x) == READONLY
            <==> Covered(pending, x) {
        ReadOnlyIsLocked(original, space.Bits(), locked.intervals, released, x);
        CoveredMeans(pending, x);
      }
    }
  }

  /** A step of a process: a request with memory regions is started, or the `k`-th of the outstanding ones is closed. */
  datatype LockStep = Start(regions: seq<Region>) | Close(k: nat)

  /** The regions of the requests that some steps leave outstanding. */
  ghost function Outstanding(steps: seq<LockStep>): seq<seq<Region>> {
    if steps == [] then []
    else
      var before := Outstanding(steps[..|steps| - 1]);
      match steps[|steps| - 1]
      case Start(regions) => before + [regions]
      case Close(k) => if k < |before| then before[..k] + before[k + 1..] else before
  }

  ghost predicate Covered(pending: seq<seq<Region>>, x: int) {
    exists k, r :: 0 <= k < |pending| && r in pending[k] && r.start <= x < r.start + r.size
  }

  ghost function BagOfAll(pending: seq<seq<Region>>): multiset<Interval> {
    if pending == [] then multiset{} else BagOfAll(pending[..|pending| - 1]) + Bag(pending[|pending| - 1])
  }

  lemma NothingPending()
    ensures BagOfAll([]) == multiset{}
  {
  }

  lemma BagOneMore(pending: seq<seq<Region>>, rs: seq<Region>)
    ensures BagOfAll(pending + [rs]) == BagOfAll(pending) + Bag(rs)
  {
    assert (pending + [rs])[..|pending|] == pending;
  }

  lemma Swapped(a: multiset<Interval>, b: multiset<Interval>, c: multiset<Interval>)
    ensures a + b + c == a + c + b
  {
  }

  lemma {:induction false} BagOneLess(pending: seq<seq<Region>>, k: nat)
    requires k < |pending|
    ensures BagOfAll(pending) == BagOfAll(pending[..k] + pending[k + 1..]) + Bag(pending[k])
    ensures Bag(pending[k]) <= BagOfAll(pending)
  {
    hide Bag;
    var n := |pending| - 1;
    var rest, last := pending[..n], pending[n];
    if k < n {
      BagOneLess(rest, k);
      var less := rest[..k] + rest[k + 1..];
      assert pending[..k] + pending[k + 1..] == less + [last] && rest[k] == pending[k];
      BagOneMore(less, last);
      Swapped(BagOfAll(less), Bag(rest[k]), Bag(last));
    } else {
      assert pending[..k] + pending[k + 1..] == rest;
    }
  }

  lemma BagLeft(now: multiset<Interval>, before: multiset<Interval>, gone: multiset<Interval>,
                after: multiset<Interval>)
    requires now + gone == before && before == after + gone
    ensures now == after
  {
    assert now == (now + gone) - gone && after == (after + gone) - gone;
  }

  lemma {:induction false} BagOfIntervals(rs: seq<Region>)
    ensures multiset(AsIntervals(rs)) == Bag(rs)
  {
    if rs != [] {
      BagOfIntervals(rs[..|rs| - 1]);
    }
  }

  lemma {:induction false} InBag(rs: seq<Region>, i: Interval)
    ensures i in Bag(rs) <==> exists r :: r in rs && AsInterval(r) == i
  {
    if rs != [] {
      var n := |rs| - 1;
      InBag(rs[..n], i);
      assert rs == rs[..n] + [rs[n]];
      assert rs[n] in rs;
    }
  }

  lemma {:induction false} InBagOfAll(pending: seq<seq<Region>>, i: Interval)
    ensures i in BagOfAll(pending) <==> exists k :: 0 <= k < |pending| && i in Bag(pending[k])
  {
    hide Bag;
    if pending != [] {
      InBagOfAll(pending[..|pending| - 1], i);
    }
  }

  lemma {:induction false} CoveredMeans(pending: seq<seq<Region>>, x: int)
    ensures Covered(pending, x) <==> exists i :: i in BagOfAll(pending) && Contains(i, x)
  {
    hide Bag, BagOfAll;
    if Covered(pending, x) {
      var k, r :| 0 <= k < |pending| && r in pending[k] && r.start <= x < r.start + r.size;
      InBag(pending[k], AsInterval(r));
      InBagOfAll(pending, AsInterval(r));
    }
    if i :| i in BagOfAll(pending) && Contains(i, x) {
      InBagOfAll(pending, i);
      var k :| 0 <= k < |pending| && i in Bag(pending[k]);
      InBag(pending[k], i);
    }
  }

  /** The intervals of some regions, without order. */
  ghost function Bag(rs: seq<Region>): multiset<Interval> {
    if rs == [] then multiset{} else Bag(rs[..|rs| - 1]) + multiset{AsInterval(rs[|rs| - 1])}
  }

  lemma {:induction false} BagPrefix(rs: seq<Region>, k: nat)
    requires k <= |rs|
    ensures Bag(rs[..k]) <= Bag(rs)
    decreases |rs|
  {
    if k < |rs| {
      BagPrefix(rs[..|rs| - 1], k);
      assert rs[..|rs| - 1][..k] == rs[..k];
    } else {
      assert rs[..k] == rs;
    }
  }

  lemma NoBag(rs: seq<Region>)
    ensures Bag(rs[..0]) == multiset{}
  {
  }

  lemma OneMoreInterval(rs: seq<Region>, k: nat)
    requires k < |rs|
    ensures Bag(rs[..k + 1]) == Bag(rs[..k]) + multiset{AsInterval(rs[k])} && Bag(rs[..k + 1]) <= Bag(rs)
  {
    assert rs[..k + 1][..k] == rs[..k];
    BagPrefix(rs, k + 1);
  }

  lemma OneLessLocked(first: multiset<Interval>, before: multiset<Interval>, now: multiset<Interval>,
                      done: multiset<Interval>, i: Interval)
    requires before + done == first && now + multiset{i} == before
    ensures now + (done + multiset{i}) == first
  {
    assert now + (done + multiset{i}) == now + multiset{i} + done;
  }

  lemma StillLocked(all: multiset<Interval>, first: multiset<Interval>, now: multiset<Interval>,
                    done: multiset<Interval>, i: Interval)
    requires all <= first && now + done == first && done + multiset{i} <= all
    ensures i in now
  {
    assert (done + multiset{i})[i] <= first[i];
  }

  lemma RemovedOne(s: seq<Interval>, k: nat)
    requires k < |s|
    ensures multiset(s[..k] + s[k + 1..]) + multiset{s[k]} == multiset(s)
    ensures forall i :: i in s[..k] + s[k + 1..] ==> i in s
  {
    assert s == s[..k] + [s[k]] + s[k + 1..];
  }
}
