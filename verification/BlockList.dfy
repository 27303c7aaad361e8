/** The first-fit allocator of the client heap: an array of blocks, sorted by address, closed by an END block. */
module BlockList {
  import opened Arithmetic
  import opened MemoryTypes

  datatype BlockType = Free | Used | End

  /** A block reaches from its address to the address of the next block; `requested` means something for used blocks
      only. */
  datatype Block = Block(address: int, kind: BlockType, requested: nat)

  datatype Extent = Extent(address: int, end: int, requested: nat)

  const WORD_SIZE: int := 8

  const WORD_DIVISORS: set<int> := {1, 2, 4, 8}

  function RoundUp(x: int, k: int): (r: int)
    requires x > 0 && k > 0
    ensures x <= r < x + k && r % k == 0
    ensures x % k == 0 ==> r == x
  {
    RoundUpBounds(x, k);
    ((x - 1) / k + 1) * k
  }

  lemma RoundUpBounds(x: int, k: int)
    requires x > 0 && k > 0
    ensures x <= ((x - 1) / k + 1) * k < x + k
    ensures (((x - 1) / k + 1) * k) % k == 0
    ensures x % k == 0 ==> ((x - 1) / k + 1) * k == x
  {
    var q := (x - 1) / k;
    assert x - 1 == q * k + (x - 1) % k;
    assert (q + 1) * k == q * k + k;
    MultipleMod(q + 1, k);
    if x % k == 0 {
      var m := x / k;
      assert x == m * k;
      assert (q + 1 - m) * k == (q + 1) * k - m * k;
      SmallMultiple(q + 1 - m, k);
    }
  }

  // ---- what a block list means ----------------------------------------------------------

  ghost predicate WellFormed(bs: seq<Block>) {
    && |bs| > 0 && bs[|bs| - 1].kind == End
    && (forall i :: 0 <= i < |bs| - 1 ==> bs[i].kind != End)
    && (forall i, j :: 0 <= i < j < |bs| ==> bs[i].address < bs[j].address)
    && bs[0].address > 0
  }

  /** The blocks in use. */
  ghost function Live(bs: seq<Block>): set<Extent> {
    set i | 0 <= i < |bs| - 1 && bs[i].kind == Used :: ExtentAt(bs, i)
  }

  function ExtentAt(bs: seq<Block>, i: nat): Extent
    requires i + 1 < |bs|
  {
    Extent(bs[i].address, bs[i + 1].address, bs[i].requested)
  }

  ghost predicate NoAdjacentFree(bs: seq<Block>) {
    forall i :: 0 <= i < |bs| - 1 && bs[i].kind == Free ==> bs[i + 1].kind != Free
  }

  ghost predicate AllAligned(bs: seq<Block>) {
    forall i :: 0 <= i < |bs| ==> bs[i].address % 8 == 0
  }

  /** Blocks in use never overlap. */
  lemma LiveDisjoint(bs: seq<Block>, x: Extent, y: Extent)
    requires WellFormed(bs) && x in Live(bs) && y in Live(bs) && x != y
    ensures x.end <= y.address || y.end <= x.address
    ensures bs[0].address <= x.address < x.end <= bs[|bs| - 1].address
  {
    var i :| 0 <= i < |bs| - 1 && bs[i].kind == Used && x == ExtentAt(bs, i);
    var j :| 0 <= j < |bs| - 1 && bs[j].kind == Used && y == ExtentAt(bs, j);
    assert i != j;
  }

  // ---- splitting a list -------------------------------------------------------------------

  lemma LiveSplit(bs: seq<Block>, k: nat)
    requires k < |bs|
    ensures Live(bs) == Live(bs[..k + 1]) + Live(bs[k..])
  {
    var l, r := bs[..k + 1], bs[k..];
    forall x | x in Live(bs) ensures x in Live(l) + Live(r) {
      var i :| 0 <= i < |bs| - 1 && bs[i].kind == Used && x == ExtentAt(bs, i);
      if i < k {
        assert x == ExtentAt(l, i);
      } else {
        assert x == ExtentAt(r, i - k);
      }
    }
    forall x | x in Live(l) ensures x in Live(bs) {
      var i :| 0 <= i < |l| - 1 && l[i].kind == Used && x == ExtentAt(l, i);
      assert x == ExtentAt(bs, i);
    }
    forall x | x in Live(r) ensures x in Live(bs) {
      var i :| 0 <= i < |r| - 1 && r[i].kind == Used && x == ExtentAt(r, i);
      assert x == ExtentAt(bs, i + k);
    }
  }

  lemma LiveParts(p: seq<Block>, m: seq<Block>, r: seq<Block>)
    requires |m| > 0 && |r| > 0
    ensures Live(p + m + r) == Live(p + [m[0]]) + Live(m + [r[0]]) + Live(r)
  {
    var n := p + m + r;
    LiveSplit(n, |p|);
    LiveSplit(n[|p|..], |m|);
    assert n[..|p| + 1] == p + [m[0]];
    assert n[|p|..] == m + r;
    assert (m + r)[..|m| + 1] == m + [r[0]] && (m + r)[|m|..] == r;
  }

  /** Replacing the block at `i` by the blocks `m`, which start at the same address, replaces its extent by theirs. */
  lemma LiveReplaced(bs: seq<Block>, i: nat, m: seq<Block>)
    requires i + 1 < |bs| && |m| > 0 && m[0].address == bs[i].address && bs[i].kind != Used
    ensures Live(bs[..i] + m + bs[i + 1..]) == Live(bs) + Live(m + [bs[i + 1]])
  {
    var p, r := bs[..i], bs[i + 1..];
    LiveParts(p, m, r);
    LiveParts(p, [bs[i]], r);
    assert bs == p + [bs[i]] + r;
    LastKindIrrelevant(p, m[0], bs[i]);
    LastKindIrrelevant(p, bs[i], m[0]);
    assert Live([bs[i]] + [r[0]]) == {};
  }

  lemma LastKindIrrelevant(p: seq<Block>, x: Block, y: Block)
    requires x.address == y.address
    ensures Live(p + [x]) <= Live(p + [y])
  {
    var l, r := p + [x], p + [y];
    forall e | e in Live(l) ensures e in Live(r) {
      var i :| 0 <= i < |l| - 1 && l[i].kind == Used && e == ExtentAt(l, i);
      assert e == ExtentAt(r, i);
    }
  }

  /** The blocks that take the place of a free block [from, next) when [address, address + need) is carved out of it. */
  function Carved(from: int, address: int, need: int, next: int, size: nat): (m: seq<Block>)
  {
    (if address > from then [Block(from, Free, 0)] else []) + [Block(address, Used, size)]
    + (if address + need < next then [Block(address + need, Free, 0)] else [])
  }

  lemma CarvedLive(from: int, address: int, need: int, next: Block, size: nat)
    requires from <= address && address + need <= next.address && need > 0
    ensures Live(Carved(from, address, need, next.address, size) + [next]) == {Extent(address, address + need, size)}
  {
    var m := Carved(from, address, need, next.address, size) + [next];
    var k := if address > from then 1 else 0;
    assert m[k] == Block(address, Used, size) && m[k + 1].address == address + need;
    assert forall i :: 0 <= i < |m| - 1 && i != k ==> m[i].kind == Free;
  }

  /** A free block at `i` is big enough for `need` bytes at an aligned address. */
  predicate Fits(bs: seq<Block>, i: nat, need: int, align: int)
    requires i < |bs| && bs[i].address > 0 && align > 0
  {
    i + 1 < |bs| && bs[i].kind == Free && RoundUp(bs[i].address, align) + need <= bs[i + 1].address
  }

  /** A free block fits if and only if the room is in it, from some aligned address on. */
  lemma {:induction false} FitsMeans(bs: seq<Block>, i: nat, need: int, align: int)
    requires i < |bs| && bs[i].address > 0 && align > 0
    ensures Fits(bs, i, need, align) <==>
            i + 1 < |bs| && bs[i].kind == Free && HasRoom(bs[i].address, bs[i + 1].address, need, align)
  {
    var up := RoundUp(bs[i].address, align);
    if i + 1 < |bs| && HasRoom(bs[i].address, bs[i + 1].address, need, align) {
      var a :| IsRoom(bs[i].address, bs[i + 1].address, need, align, a);
      RoundUpLeast(bs[i].address, align, a);
    }
    assert i + 1 < |bs| && up + need <= bs[i + 1].address ==> IsRoom(bs[i].address, bs[i + 1].address, need, align, up);
  }

  ghost predicate HasRoom(from: int, to: int, need: int, align: int)
    requires align > 0
  {
    exists a :: IsRoom(from, to, need, align, a)
  }

  ghost predicate IsRoom(from: int, to: int, need: int, align: int, a: int)
    requires align > 0
  {
    a % align == 0 && from <= a && a + need <= to
  }

  lemma {:induction false} RoundUpLeast(x: int, k: int, a: int)
    requires x > 0 && k > 0 && x <= a && a % k == 0
    ensures RoundUp(x, k) <= a
  {
    var r := RoundUp(x, k);
    if a < r {
      var d, e := r / k, a / k;
      assert (d - e) * k == d * k - e * k;
      SmallMultiple(d - e, k);
      assert false;
    }
  }

  lemma CarvedWellFormed(bs: seq<Block>, i: nat, need: int, align: int, size: nat)
    requires WellFormed(bs) && i < |bs| && align > 0 && need > 0 && Fits(bs, i, need, align)
    ensures var new' := bs[..i] + Carved(bs[i].address, RoundUp(bs[i].address, align), need, bs[i + 1].address, size)
            + bs[i + 1..];
            WellFormed(new')
            && Live(new') == Live(bs) + {Extent(RoundUp(bs[i].address, align), RoundUp(bs[i].address, align) + need,
                                                size)}
  {
    var address := RoundUp(bs[i].address, align);
    var m := Carved(bs[i].address, address, need, bs[i + 1].address, size);
    LiveReplaced(bs, i, m);
    CarvedLive(bs[i].address, address, need, bs[i + 1], size);
    ReplacedWellFormed(bs, i, m);
  }

  lemma ReplacedWellFormed(bs: seq<Block>, i: nat, m: seq<Block>)
    requires WellFormed(bs) && i + 1 < |bs| && |m| > 0 && m[0].address == bs[i].address
    requires forall j :: 0 <= j < |m| ==> m[j].kind != End && m[j].address < bs[i + 1].address
    requires forall j, k :: 0 <= j < k < |m| ==> m[j].address < m[k].address
    ensures WellFormed(bs[..i] + m + bs[i + 1..])
  {
    var n := bs[..i] + m + bs[i + 1..];
    var d := |m| - 1;
    forall j, k | 0 <= j < k < |n| ensures n[j].address < n[k].address {
      assert m[0].address <= (if i <= j < i + |m| then m[j - i].address else m[0].address);
      assert n[j] == if j < i then bs[j] else if j < i + |m| then m[j - i] else bs[j - d];
      assert n[k] == if k < i then bs[k] else if k < i + |m| then m[k - i] else bs[k - d];
    }
  }

  lemma CarvedNoAdjacentFree(bs: seq<Block>, i: nat, address: int, need: int, size: nat)
    requires WellFormed(bs) && i + 1 < |bs| && bs[i].kind == Free && NoAdjacentFree(bs)
    ensures NoAdjacentFree(bs[..i] + Carved(bs[i].address, address, need, bs[i + 1].address, size) + bs[i + 1..])
  {
  }

  /** Bytes taken from the heap for a request: the red zone is added and the sum is rounded up to whole words. */
  function Need(requested: nat, redzone: nat): (need: int)
    ensures need >= requested + redzone && need > 0 && need % 8 == 0
    ensures need - 8 < requested + redzone || need == 8
  {
    RoundUp(if requested + redzone == 0 then 1 else requested + redzone, WORD_SIZE)
  }

  /** The first free block that is big enough. */
  ghost predicate FirstFit(bs: seq<Block>, i: nat, need: int, align: int)
    requires WellFormed(bs) && align > 0
  {
    i < |bs| && Fits(bs, i, need, align) && NoneFitsBefore(bs, i, need, align)
  }

  ghost predicate NoneFitsBefore(bs: seq<Block>, n: nat, need: int, align: int)
    requires WellFormed(bs) && align > 0
  {
    forall j: nat :: j < n && j < |bs| ==> bs[j].address > 0 && !Fits(bs, j, need, align)
  }

  lemma NotBeforeItself(bs: seq<Block>, i: nat, need: int, align: int)
    requires WellFormed(bs) && align > 0 && i < |bs| && Fits(bs, i, need, align)
    ensures !NoneFitsBefore(bs, |bs|, need, align)
  {
  }

  /** Growing the heap leaves a gap before an aligned block right after a free one. */
  ghost predicate TailGap(bs: seq<Block>, need: int, align: int)
    requires WellFormed(bs) && align > 0
  {
    && NoneFitsBefore(bs, |bs|, need, align)
    && bs[|bs| - 1].address % align != 0
    && |bs| >= 2 && bs[|bs| - 2].kind == Free
  }

  /** The blocks that replace the END block when the heap grows. */
  function Grown(end: int, address: int, need: int, size: nat): seq<Block> {
    (if address > end then [Block(end, Free, 0)] else [])
          + [Block(address, Used, size), Block(address + need, End, size)]
  }

  lemma AppendAscending(p: seq<Block>, g: seq<Block>)
    requires forall i, j :: 0 <= i < j < |p| ==> p[i].address < p[j].address
    requires forall i, j :: 0 <= i < j < |g| ==> g[i].address < g[j].address
    requires forall i, j :: 0 <= i < |p| && 0 <= j < |g| ==> p[i].address < g[j].address
    ensures forall i, j :: 0 <= i < j < |p + g| ==> (p + g)[i].address < (p + g)[j].address
  {
  }

  lemma GrownWellFormed(bs: seq<Block>, address: int, need: int, size: nat)
    requires WellFormed(bs) && address >= bs[|bs| - 1].address && need > 0
    ensures WellFormed(bs[..|bs| - 1] + Grown(bs[|bs| - 1].address, address, need, size))
  {
    var k := |bs| - 1;
    var p, g := bs[..k], Grown(bs[k].address, address, need, size);
    forall i, j | 0 <= i < k && 0 <= j < |g| ensures p[i].address < g[j].address {
      assert bs[i].address < bs[k].address <= g[j].address;
    }
    AppendAscending(p, g);
    forall i | 0 <= i < |p + g| - 1 ensures (p + g)[i].kind != End {
      assert (p + g)[i] == if i < k then bs[i] else g[i - k];
    }
  }

  lemma GrownAddsLive(bs: seq<Block>, address: int, need: int, size: nat)
    requires WellFormed(bs) && address >= bs[|bs| - 1].address
    ensures Live(bs[..|bs| - 1] + Grown(bs[|bs| - 1].address, address, need, size)) == Live(bs)
            + {Extent(address, address + need, size)}
  {
    var k := |bs| - 1;
    var g := Grown(bs[k].address, address, need, size);
    var n := bs[..k] + g;
    LiveSplit(n, k);
    assert n[..k + 1] == bs[..k] + [g[0]] && n[k..] == g && bs == bs[..k] + [bs[k]];
    LastKindIrrelevant(bs[..k], g[0], bs[k]);
    LastKindIrrelevant(bs[..k], bs[k], g[0]);
    GrownLive(bs[k].address, address, need, size);
  }

  lemma GrownLive(end: int, address: int, need: int, size: nat)
    requires address >= end
    ensures Live(Grown(end, address, need, size)) == {Extent(address, address + need, size)}
  {
    var g := Grown(end, address, need, size);
    var k := if address > end then 1 else 0;
    assert g[k] == Block(address, Used, size) && g[k + 1].address == address + need;
  }

  /** A place outside every block in use is not the address of one. */
  lemma NotLive(bs: seq<Block>, i: nat, x: Extent)
    requires WellFormed(bs) && i < |bs| && bs[i].kind != Used
    requires bs[i].address <= x.address && (i + 1 < |bs| ==> x.address < bs[i + 1].address)
    ensures x !in Live(bs)
  {
  }

  /** Removing a free block that follows a free block joins the two. */
  lemma JoinFree(bs: seq<Block>, j: nat)
    requires WellFormed(bs) && 1 <= j < |bs| - 1 && bs[j].kind == Free && bs[j - 1].kind == Free
    ensures WellFormed(Without(bs, j)) && Live(Without(bs, j)) == Live(bs)
  {
    var n := Without(bs, j);
    assert WellFormed(n);
    forall x ensures x in Live(bs) <==> x in Live(n) {
      JoinFreeLive(bs, j, x);
    }
  }

  lemma JoinFreeLive(bs: seq<Block>, j: nat, x: Extent)
    requires 1 <= j < |bs| - 1 && bs[j].kind == Free && bs[j - 1].kind == Free
    ensures x in Live(bs) <==> x in Live(Without(bs, j))
  {
    var n := Without(bs, j);
    if x in Live(bs) {
      var i :| 0 <= i < |bs| - 1 && bs[i].kind == Used && x == ExtentAt(bs, i);
      var k := if i < j then i else i - 1;
      assert x == ExtentAt(n, k);
    }
    if x in Live(n) {
      var k :| 0 <= k < |n| - 1 && n[k].kind == Used && x == ExtentAt(n, k);
      var i := if k < j then k else k + 1;
      assert x == ExtentAt(bs, i);
    }
  }

  lemma NothingLive(bs: seq<Block>, i: nat)
    requires WellFormed(bs) && Live(bs) == {} && i + 1 < |bs|
    ensures bs[i].kind == Free
  {
    var e := ExtentAt(bs, i);
    assert bs[i].kind == Used ==> e in Live(bs);
  }

  /** When nothing is in use, no two free blocks are neighbours exactly if at most one block precedes END; that one is
      free. */
  lemma AllFreed(bs: seq<Block>)
    requires WellFormed(bs) && Live(bs) == {}
    ensures NoAdjacentFree(bs) <==> |bs| <= 2
    ensures |bs| == 2 ==> bs[0].kind == Free
  {
    if |bs| >= 2 {
      NothingLive(bs, 0);
    }
    if |bs| > 2 {
      NothingLive(bs, 1);
      assert bs[0 + 1].kind == Free;
    }
  }

  lemma AlignedEnough(x: int, align: int)
    requires x % 8 == 0 && align in WORD_DIVISORS
    ensures x % align == 0
  {
    var m := x / 8;
    MultipleMod(8 * m, 1);
    MultipleMod(4 * m, 2);
    MultipleMod(2 * m, 4);
    if align == 1 {
      assert x == 8 * m * 1;
    } else if align == 2 {
      assert x == 4 * m * 2;
    } else if align == 4 {
      assert x == 2 * m * 4;
    }
  }

  lemma {:induction false} CarvedFacts(bs: seq<Block>, i: nat, need: int, align: int, size: nat)
    requires WellFormed(bs) && align > 0 && need > 0 && need % 8 == 0 && i < |bs| && Fits(bs, i, need, align)
    ensures var address := RoundUp(bs[i].address, align);
            var n := bs[..i] + Carved(bs[i].address, address, need, bs[i + 1].address, size) + bs[i + 1..];
            && WellFormed(n) && n[0].address == bs[0].address && n[|n| - 1] == bs[|bs| - 1]
            && Extent(address, address + need, size) !in Live(bs)
            && Live(n) == Live(bs) + {Extent(address, address + need, size)}
            && (NoAdjacentFree(bs) ==> NoAdjacentFree(n))
            && (AllAligned(bs) && align in WORD_DIVISORS ==> AllAligned(n))
  {
    hide RoundUp;
    var address := RoundUp(bs[i].address, align);
    CarvedWellFormed(bs, i, need, align, size);
    NotLive(bs, i, Extent(address, address + need, size));
    if NoAdjacentFree(bs) {
      CarvedNoAdjacentFree(bs, i, address, need, size);
    }
    if AllAligned(bs) && align in WORD_DIVISORS {
      AlignedEnough(bs[i].address, align);
      CarvedAligned(bs, i, need, size);
    }
  }

  // ---- giving a block back --------------------------------------------------------------------

  function WithFreed(bs: seq<Block>, i: nat): seq<Block>
    requires i < |bs|
  {
    bs[i := bs[i].(kind := Free)]
  }

  function Without(bs: seq<Block>, j: nat): (r: seq<Block>)
    requires j < |bs|
    ensures |r| == |bs| - 1
  {
    bs[..j] + bs[j + 1..]
  }

  /** Block `i` is freed and joined with its free neighbours. */
  function Coalesced(bs: seq<Block>, i: nat): seq<Block>
    requires i + 1 < |bs|
  {
    var n := WithFreed(bs, i);
    var n' := if bs[i + 1].kind == Free then Without(n, i + 1) else n;
    if i > 0 && bs[i - 1].kind == Free then Without(n', i) else n'
  }

  /** Free neighbours occur only at the places `lo` and `lo + 1`, or, with `n` = 1, at `lo` only. */
  ghost predicate OnlyAround(bs: seq<Block>, lo: int, n: nat) {
    forall i :: 0 <= i < |bs| - 1 && bs[i].kind == Free && bs[i + 1].kind == Free ==> lo <= i < lo + n
  }

  lemma JoinNext(bs: seq<Block>, i: nat)
    requires i + 2 < |bs| && bs[i].kind == Free && bs[i + 1].kind == Free && OnlyAround(bs, i - 1, 2)
    ensures OnlyAround(Without(bs, i + 1), i - 1, 1)
  {
    var n := Without(bs, i + 1);
    forall k | 0 <= k < |n| - 1 ensures n[k].kind == Free && n[k + 1].kind == Free ==> i - 1 <= k < i {
      if k >= i {
        assert bs[k + 1].kind == Free ==> bs[k + 1 + 1].kind != Free;
      }
    }
  }

  lemma JoinPrev(bs: seq<Block>, i: nat)
    requires 1 <= i < |bs| - 1 && bs[i - 1].kind == Free && bs[i].kind == Free && OnlyAround(bs, i - 1, 1)
    ensures NoAdjacentFree(Without(bs, i))
  {
    var n := Without(bs, i);
    forall k | 0 <= k < |n| - 1 && n[k].kind == Free ensures n[k + 1].kind != Free {
      if k >= i {
        assert bs[k + 1].kind == Free ==> bs[k + 1 + 1].kind != Free;
      } else if k == i - 1 {
        assert bs[i].kind == Free ==> bs[i + 1].kind != Free;
      }
    }
  }

  lemma CoalescedNoAdjacentFree(bs: seq<Block>, i: nat)
    requires WellFormed(bs) && i + 1 < |bs| && bs[i].kind == Used && NoAdjacentFree(bs)
    ensures NoAdjacentFree(Coalesced(bs, i))
  {
    var n := WithFreed(bs, i);
    assert OnlyAround(n, i - 1, 2);
    if bs[i + 1].kind == Free {
      JoinNext(n, i);
    }
    var n' := if bs[i + 1].kind == Free then Without(n, i + 1) else n;
    assert OnlyAround(n', i - 1, 1);
    if i > 0 && bs[i - 1].kind == Free {
      JoinPrev(n', i);
    }
  }

  lemma {:induction false} CoalescedLive(bs: seq<Block>, i: nat)
    requires WellFormed(bs) && i + 1 < |bs| && bs[i].kind == Used
    ensures WellFormed(Coalesced(bs, i)) && Live(Coalesced(bs, i)) == Live(bs) - {ExtentAt(bs, i)}
  {
    hide Live;
    FreedLive(bs, i);
    var n := WithFreed(bs, i);
    if bs[i + 1].kind == Free {
      JoinFree(n, i + 1);
    }
    var n' := if bs[i + 1].kind == Free then Without(n, i + 1) else n;
    if i > 0 && bs[i - 1].kind == Free {
      JoinFree(n', i);
    }
  }

  lemma WithoutKeeps(bs: seq<Block>, j: nat)
    requires 1 <= j < |bs| - 1
    ensures |Without(bs, j)| >= 2 && Without(bs, j)[0] == bs[0] && Without(bs, j)[|bs| - 2] == bs[|bs| - 1]
    ensures AllAligned(bs) ==> AllAligned(Without(bs, j))
  {
  }

  lemma {:induction false} CoalescedKeeps(bs: seq<Block>, i: nat)
    requires i + 1 < |bs| && bs[|bs| - 1].kind == End
    ensures var n := Coalesced(bs, i);
            && |n| >= 2 && n[0].address == bs[0].address && n[|n| - 1] == bs[|bs| - 1]
            && (AllAligned(bs) ==> AllAligned(n))
  {
    hide Without;
    var n := WithFreed(bs, i);
    assert AllAligned(bs) ==> AllAligned(n);
    if bs[i + 1].kind == Free {
      WithoutKeeps(n, i + 1);
    }
    var n' := if bs[i + 1].kind == Free then Without(n, i + 1) else n;
    if i > 0 && bs[i - 1].kind == Free {
      WithoutKeeps(n', i);
    }
  }

  class Heap {
    const heapSpace: int
    const maxSize: nat
    const redzone: nat
    var blocks: seq<Block>

    ghost predicate Valid()
      reads this
    {
      && WellFormed(blocks) && blocks[0].address == heapSpace
      && blocks[|blocks| - 1].address - heapSpace < maxSize
    }

    constructor (heapSpace: int, maxSize: nat, redzone: nat)
      requires heapSpace > 0 && maxSize > 0
      ensures Valid() && Live(blocks) == {} && NoAdjacentFree(blocks) && |blocks| == 1
      ensures this.heapSpace == heapSpace && this.maxSize == maxSize && this.redzone == redzone
    {
      this.heapSpace, this.maxSize, this.redzone := heapSpace, maxSize, redzone;
      blocks := [Block(heapSpace, End, 0)];
    }

    /** memspace_alloc. `None` is the "heaperror" report, after which the block list is unusable. */
    method Alloc(requested: nat, align: int) returns (r: Option<int>)
      requires Valid() && align > 0
      modifies this`blocks
      ensures r.None? <==> NoneFitsBefore(old(blocks), |old(blocks)|, Need(requested, redzone), align)
                           && RoundUp(old(blocks)[|old(blocks)| - 1].address, align)
                                 + Need(requested, redzone) - heapSpace >= maxSize
      ensures r.Some? ==>
                && Valid() && r.value % align == 0
                && Extent(r.value, r.value + Need(requested, redzone), requested) !in Live(old(blocks))
                && Live(blocks) == Live(old(blocks)) + {Extent(r.value, r.value + Need(requested, redzone), requested)}
      ensures r.Some? ==>
                || (NoneFitsBefore(old(blocks), |old(blocks)|, Need(requested, redzone), align)
                    && r.value == RoundUp(old(blocks)[|old(blocks)| - 1].address, align))
                || (exists i: nat :: FirstFit(old(blocks), i, Need(requested, redzone), align)
                      && r.value == RoundUp(old(blocks)[i].address, align))
      ensures r.Some? && NoAdjacentFree(old(blocks)) ==>
                (NoAdjacentFree(blocks) <==> !TailGap(old(blocks), Need(requested, redzone), align))
      ensures r.Some? && AllAligned(old(blocks)) && align in WORD_DIVISORS
              ==> AllAligned(blocks) && !TailGap(old(blocks), Need(requested, redzone), align)
    {
      hide RoundUp, Live, NoAdjacentFree, AllAligned, Carved, NoneFitsBefore;
      var allocSize := requested + redzone;
      if allocSize == 0 {
        allocSize := 1;
      }
      allocSize := RoundUp(allocSize, WORD_SIZE);
      var i := FindFit(allocSize, align);
      if blocks[i].kind == End {
        assert i + 1 == |blocks|;
        r := Grow(allocSize, requested, align);
      } else {
        var address := RoundUp(blocks[i].address, align);
        CarvedFacts(blocks, i, allocSize, align, requested);
        CarveOut(i, address, allocSize, requested);
        assert FirstFit(old(blocks), i, Need(requested, redzone), align);
        NotBeforeItself(old(blocks), i, allocSize, align);
        r := Some(address);
      }
    }

    /** The search loop of memspace_alloc: the first free block that is big enough, or END. */
    method FindFit(allocSize: int, align: int) returns (i: nat)
      requires Valid() && align > 0
      ensures i < |blocks| && (blocks[i].kind == End || FirstFit(blocks, i, allocSize, align))
      ensures blocks[i].kind == End ==> NoneFitsBefore(blocks, |blocks|, allocSize, align)
    {
      hide RoundUp;
      i := 0;
      while blocks[i].kind != End
        invariant i < |blocks| && NoneFitsBefore(blocks, i, allocSize, align)
        decreases |blocks| - i
      {
        var block, next := blocks[i], blocks[i + 1];
        if block.kind == Free {
          var s := next.address - block.address;
          if s >= allocSize {
            var address := RoundUp(block.address, align);
            var padding := address - block.address;
            if s >= allocSize + padding {
              return;
            }
          }
        }
        i := i + 1;
      }
    }

    /** The part of memspace_alloc that splits a free block. */
    method CarveOut(i: nat, address: int, need: int, requested: nat)
      requires i + 1 < |blocks| && blocks[i].address <= address && address + need <= blocks[i + 1].address
      modifies this`blocks
      ensures blocks == old(blocks)[..i] + Carved(old(blocks)[i].address, address, need, old(blocks)[i + 1].address,
                                                  requested) + old(blocks)[i + 1..]
    {
      var oldAddress, next := blocks[i].address, blocks[i + 1].address;
      var padding := address - oldAddress;
      blocks := blocks[i := Block(oldAddress, Used, requested)];
      var k := i;
      if padding > 0 {
        blocks := blocks[k := blocks[k].(address := address)];
        blocks := blocks[..k] + [Block(oldAddress, Free, 0)] + blocks[k..];
        k := k + 1;
      }
      var diff := next - oldAddress - (need + padding);
      if diff > 0 {
        blocks := blocks[..k + 1] + [Block(address + need, Free, 0)] + blocks[k + 1..];
      }
    }

    /** The part of memspace_alloc that grows the heap. */
    method Grow(need: int, requested: nat, align: int) returns (r: Option<int>)
      requires Valid() && align > 0 && need > 0 && need % 8 == 0
      modifies this`blocks
      ensures r.None? <==> RoundUp(old(blocks)[|old(blocks)| - 1].address, align) + need - heapSpace >= maxSize
      ensures r.Some? ==>
                && Valid() && r.value == RoundUp(old(blocks)[|old(blocks)| - 1].address, align)
                && Extent(r.value, r.value + need, requested) !in Live(old(blocks))
                && Live(blocks) == Live(old(blocks)) + {Extent(r.value, r.value + need, requested)}
      ensures r.Some? && NoAdjacentFree(old(blocks)) ==>
                (NoAdjacentFree(blocks) <==>
                 !(old(blocks)[|old(blocks)| - 1].address % align != 0 && |old(blocks)| >= 2
                   && old(blocks)[|old(blocks)| - 2].kind == Free))
      ensures r.Some? && AllAligned(old(blocks)) && align in WORD_DIVISORS ==>
                AllAligned(blocks) && old(blocks)[|old(blocks)| - 1].address % align == 0
    {
      hide RoundUp, Live, NoAdjacentFree, AllAligned;
      ghost var bs := blocks;
      var last := |blocks| - 1;
      var oldAddress := blocks[last].address;
      var address := RoundUp(oldAddress, align);
      var padding := address - oldAddress;
      if padding > 0 {
        blocks := blocks[last := Block(oldAddress, Free, 0)];
        blocks := blocks + [Block(address, Used, requested)];
      } else {
        blocks := blocks[last := Block(oldAddress, Used, requested)];
      }
      var newBlock := Block(address + need, End, requested);
      if newBlock.address - heapSpace >= maxSize {
        return None;
      }
      blocks := blocks + [newBlock];
      assert blocks == bs[..last] + Grown(oldAddress, address, need, requested);
      GrownWellFormed(bs, address, need, requested);
      GrownAddsLive(bs, address, need, requested);
      NotLive(bs, last, Extent(address, address + need, requested));
      if NoAdjacentFree(bs) {
        GrownNoAdjacentFree(bs, address, need, requested);
      }
      if AllAligned(bs) && align in WORD_DIVISORS {
        LastAligned(bs, align);
        GrownAligned(bs, need, requested);
      }
      r := Some(address);
    }

    /** memspace_free. `None` stands for the failed assertion on an address that is not in use. */
    method FreeBlock(address: int) returns (r: Option<int>)
      requires Valid()
      modifies this`blocks
      ensures r.None? ==> blocks == old(blocks) && forall e :: e in Live(old(blocks)) ==> e.address != address
      ensures r.Some? ==>
                && Valid()
                && exists e :: e in Live(old(blocks)) && e.address == address && r.value == e.end - e.address
                            && Live(blocks) == Live(old(blocks)) - {e}
      ensures r.Some? && NoAdjacentFree(old(blocks)) ==> NoAdjacentFree(blocks)
      ensures AllAligned(old(blocks)) ==> AllAligned(blocks)
    {
      hide Live, NoAdjacentFree, AllAligned, Coalesced;
      ghost var bs := blocks;
      var i := 0;
      while i < |blocks| - 1 && blocks[i].address != address
        invariant 0 <= i < |blocks|
        invariant forall j :: 0 <= j < i ==> blocks[j].address != address
      {
        i := i + 1;
      }
      if blocks[i].address != address || blocks[i].kind != Used {
        NoSuchBlock(bs, i, address);
        return None;
      }
      ghost var e := ExtentAt(blocks, i);
      UsedIsLive(bs, i);
      CoalescedLive(bs, i);
      CoalescedKeeps(bs, i);
      if NoAdjacentFree(bs) {
        CoalescedNoAdjacentFree(bs, i);
      }
      var size := Coalesce(i);
      r := Some(size);
    }

    method Coalesce(i: nat) returns (size: int)
      requires i + 1 < |blocks| && blocks[i].kind == Used
      modifies this`blocks
      ensures size == old(blocks)[i + 1].address - old(blocks)[i].address
      ensures blocks == Coalesced(old(blocks), i)
    {
      blocks := blocks[i := blocks[i].(kind := Free)];
      var next := blocks[i + 1];
      size := next.address - blocks[i].address;
      if next.kind == Free {
        blocks := blocks[..i + 1] + blocks[i + 2..];
      }
      if i > 0 {
        var prev := blocks[i - 1];
        if prev.kind == Free {
          blocks := blocks[..i] + blocks[i + 1..];
        }
      }
    }
  }

  lemma CarvedAligned(bs: seq<Block>, i: nat, need: int, size: nat)
    requires AllAligned(bs) && i + 1 < |bs| && need % 8 == 0
    ensures AllAligned(bs[..i] + Carved(bs[i].address, bs[i].address, need, bs[i + 1].address, size) + bs[i + 1..])
  {
  }

  lemma LastAligned(bs: seq<Block>, align: int)
    requires WellFormed(bs) && AllAligned(bs) && align in WORD_DIVISORS
    ensures bs[|bs| - 1].address % align == 0 && RoundUp(bs[|bs| - 1].address, align) == bs[|bs| - 1].address
  {
    AlignedEnough(bs[|bs| - 1].address, align);
  }

  lemma GrownAligned(bs: seq<Block>, need: int, size: nat)
    requires WellFormed(bs) && AllAligned(bs) && need % 8 == 0
    ensures AllAligned(bs[..|bs| - 1] + Grown(bs[|bs| - 1].address, bs[|bs| - 1].address, need, size))
  {
    var end := bs[|bs| - 1].address;
    assert Grown(end, end, need, size) == [Block(end, Used, size), Block(end + need, End, size)];
  }

  lemma GrownNoAdjacentFree(bs: seq<Block>, address: int, need: int, size: nat)
    requires WellFormed(bs) && NoAdjacentFree(bs) && address >= bs[|bs| - 1].address
    ensures NoAdjacentFree(bs[..|bs| - 1] + Grown(bs[|bs| - 1].address, address, need, size)) <==>
            !(address > bs[|bs| - 1].address && |bs| >= 2 && bs[|bs| - 2].kind == Free)
  {
    var k := |bs| - 1;
    var n := bs[..k] + Grown(bs[k].address, address, need, size);
    assert forall i :: 0 <= i < k ==> n[i] == bs[i];
    if address > bs[k].address && |bs| >= 2 && bs[k - 1].kind == Free {
      assert n[k - 1].kind == Free && n[k - 1 + 1].kind == Free;
    }
  }

  lemma UsedIsLive(bs: seq<Block>, i: nat)
    requires i + 1 < |bs| && bs[i].kind == Used
    ensures ExtentAt(bs, i) in Live(bs)
  {
  }

  lemma NoSuchBlock(bs: seq<Block>, i: nat, address: int)
    requires WellFormed(bs) && i < |bs|
    requires forall j :: 0 <= j < i ==> bs[j].address != address
    requires (i == |bs| - 1 && bs[i].address != address) || (bs[i].address == address && bs[i].kind != Used)
    ensures forall e :: e in Live(bs) ==> e.address != address
  {
    forall e | e in Live(bs) ensures e.address != address {
      var j :| 0 <= j < |bs| - 1 && bs[j].kind == Used && e == ExtentAt(bs, j);
    }
  }

  lemma FreedLive(bs: seq<Block>, i: nat)
    requires WellFormed(bs) && i + 1 < |bs| && bs[i].kind == Used
    ensures var n := WithFreed(bs, i);
            WellFormed(n) && Live(n) == Live(bs) - {ExtentAt(bs, i)}
  {
    var n := WithFreed(bs, i);
    var e := ExtentAt(bs, i);
    forall x | x in Live(bs) && x != e ensures x in Live(n) {
      var j :| 0 <= j < |bs| - 1 && bs[j].kind == Used && x == ExtentAt(bs, j);
      assert x == ExtentAt(n, j);
    }
    forall x | x in Live(n) ensures x in Live(bs) && x != e {
      var j :| 0 <= j < |n| - 1 && n[j].kind == Used && x == ExtentAt(n, j);
      assert x == ExtentAt(bs, j);
    }
  }

  /** Full coalescing fails for other alignments: a free block of 24 bytes at the end of the heap is too small for 32
      bytes at an alignment of 16, and the padding that aligns the grown heap is a second free block right behind
      it. */
  lemma TailGapHappens() returns (bs: seq<Block>)
    ensures WellFormed(bs) && NoAdjacentFree(bs) && AllAligned(bs) && TailGap(bs, 32, 16)
    ensures bs[|bs| - 1].address == 65560
    ensures !NoAdjacentFree(bs[..|bs| - 1] + Grown(65560, 65568, 32, 16))
  {
    bs := [Block(65536, Free, 0), Block(65560, End, 0)];
    assert RoundUp(65536, 16) == 65536;
    assert !Fits(bs, 0, 32, 16) && !Fits(bs, 1, 32, 16);
    var n := bs[..1] + Grown(65560, 65568, 32, 16);
    assert n[0].kind == Free && n[1].kind == Free;
  }
}
