/** Copy-on-write client memory: reference-counted pages and permission arrays, a page cache
    in front of the ordered page map, and saved memory images that share pages with it. */
module PageMemory {
  import opened MemoryTypes
  import opened PageDigest
  import opened BlockList

  datatype PageStatus = InvalidHash | ValidHash | Empty

  const CACHE_SIZE: nat := 12

  /** The part of a page that a saved state depends on. */
  datatype PageCopy = PageCopy(bits: seq<Perm>, data: Option<seq<Byte>>)

  /** What can be observed of one address: its permission, and its value when it is readable. */
  datatype Cell = Cell(perm: Perm, value: Option<Byte>)

  /** A permission array. `users` are the pages that point to it; `shared` marks the four uniform arrays. */
  class VA {
    const shared: bool
    var refCount: int
    var vabits: seq<Perm>
    ghost var users: set<Page>

    constructor (bits: seq<Perm>, shared: bool, ghost users: set<Page>)
      ensures refCount == 1 && vabits == bits && this.shared == shared && this.users == users
    {
      refCount, vabits, this.shared, this.users := 1, bits, shared, users;
    }

    /** Gives the `n` bytes from offset `from` the permission `perm`. */
    method Fill(from: nat, n: nat, perm: Perm)
      requires from + n <= |vabits|
      modifies this`vabits
      ensures vabits == Filled(old(vabits), from, n, perm)
    {
      var pgOff, len := from, n;
      while len > 0
        invariant pgOff + len == from + n && 0 <= len <= n && |vabits| == |old(vabits)|
        invariant forall j :: 0 <= j < |vabits| ==> vabits[j] == if from <= j < pgOff then perm else old(vabits)[j]
      {
        vabits := vabits[pgOff := perm];
        pgOff := pgOff + 1;
        len := len - 1;
      }
    }
  }

  function Filled(bits: seq<Perm>, from: nat, n: nat, perm: Perm): (r: seq<Perm>)
    requires from + n <= |bits|
    ensures |r| == |bits| && forall j :: 0 <= j < |r| ==> r[j] == if from <= j < from + n then perm else bits[j]
  {
    seq(|bits|, j requires 0 <= j < |bits| => if from <= j < from + n then perm else bits[j])
  }

  /** A page. `holders` are the ids of the saved states that hold it. */
  class Page {
    const base: int
    var refCount: int
    var va: VA
    var data: Option<seq<Byte>>
    var status: PageStatus
    var hash: int
    ghost var holders: set<nat>

    constructor (base: int, va: VA, status: PageStatus)
      ensures this.base == base && this.va == va && this.status == status
      ensures refCount == 1 && data == None && holders == {}
    {
      this.base, this.va, this.status := base, va, status;
      refCount, data, hash, holders := 1, None, 0, {};
    }
  }

  /** Slots 1 to `k` take the value of their left neighbour, one after the other; slot 0 takes `x`. */
  method ShiftIn<T>(s: seq<T>, k: nat, x: T) returns (r: seq<T>)
    requires k < |s|
    ensures r == [x] + s[..k] + s[k + 1..]
  {
    r := s;
    var i := k;
    while i > 0
      invariant 0 <= i <= k && |r| == |s|
      invariant r[..i] == s[..i] && r[i + 1..k + 1] == s[i..k] && r[k + 1..] == s[k + 1..]
    {
      ghost var r0 := r;
      r := r[i := r[i - 1]];
      assert r[i..k + 1] == [r0[..i][i - 1]] + r0[i + 1..k + 1];
      assert s[i - 1..k] == [s[..i][i - 1]] + s[i..k];
      assert r[..i - 1] == r0[..i][..i - 1];
      i := i - 1;
    }
    r := r[0 := x];
    assert r == [x] + r[1..k + 1] + r[k + 1..];
  }

  /** The permissions of an address space: an array for every page. */
  ghost predicate Whole(bits: imap<int, seq<Perm>>) {
    forall b: int :: b in bits && |bits[b]| == PAGE_SIZE
  }

  ghost function PageIn(bits: imap<int, seq<Perm>>, b: int): seq<Perm>
    requires Whole(bits)
  {
    bits[b]
  }

  ghost function PermIn(bits: imap<int, seq<Perm>>, a: int): Perm
    requires Whole(bits)
  {
    bits[Base(a)][Offset(a)]
  }

  /** From `before` to `after` exactly the addresses in [a, a + len) got the permission `perm`. */
  ghost predicate RangeSet(before: imap<int, seq<Perm>>, after: imap<int, seq<Perm>>, a: int, len: nat, perm: Perm)
    requires Whole(before) && Whole(after)
  {
    forall x: int :: PermIn(after, x) == if a <= x < a + len then perm else PermIn(before, x)
  }

  lemma NothingSet(bits: imap<int, seq<Perm>>, a: int, perm: Perm)
    requires Whole(bits)
    ensures RangeSet(bits, bits, a, 0, perm)
  {
  }

  lemma RangeSetNext(first: imap<int, seq<Perm>>, before: imap<int, seq<Perm>>, after: imap<int, seq<Perm>>, a: int,
                     m: nat, n: nat, perm: Perm)
    requires Whole(first) && Whole(before) && Whole(after)
    requires RangeSet(first, before, a, m, perm) && RangeSet(before, after, a + m, n, perm)
    ensures RangeSet(first, after, a, m + n, perm)
  {
  }

  lemma FilledRange(bits: imap<int, seq<Perm>>, a: int, n: nat, perm: Perm)
    requires Whole(bits) && Offset(a) + n <= PAGE_SIZE
    ensures RangeSet(bits, bits[Base(a) := Filled(bits[Base(a)], Offset(a), n, perm)], a, n, perm)
  {
    var after := bits[Base(a) := Filled(bits[Base(a)], Offset(a), n, perm)];
    forall x: int ensures PermIn(after, x) == if a <= x < a + n then perm else PermIn(bits, x) {
      if Base(x) != Base(a) {
        BaseUnique2(x, a, n);
      }
    }
  }

  /** `m` is the first address of [a, a + n) that misses the mask, or a + n when none does. */
  ghost predicate FirstMiss(bits: imap<int, seq<Perm>>, a: int, n: nat, mask: Perm, m: int)
    requires Whole(bits)
  {
    && a <= m <= a + n
    && (forall x :: a <= x < m ==> PermIn(bits, x).Meets(mask))
    && (m < a + n ==> !PermIn(bits, m).Meets(mask))
  }

  /** A store of `n` bytes at `a` is refused for its first byte that is not writable; what it has before the page of
      that byte has been made defined by then. */
  ghost predicate RefusedAt(before: imap<int, seq<Perm>>, after: imap<int, seq<Perm>>, a: int, n: nat)
    requires Whole(before) && Whole(after)
  {
    exists m :: m < a + n && FirstMiss(before, a, n, WRITE_MASK, m)
                && RangeSet(before, after, a, PagesUpTo(a, m), DEFINED)
  }

  /** How far the pages before that of `m` reach from `a` on. */
  function PagesUpTo(a: int, m: int): nat {
    if Base(m) > a then Base(m) - a else 0
  }

  lemma {:induction false} HasFirstMiss(bits: imap<int, seq<Perm>>, a: int, n: nat, mask: Perm) returns (m: int)
    requires Whole(bits)
    ensures FirstMiss(bits, a, n, mask, m)
    decreases n
  {
    if n == 0 || !PermIn(bits, a).Meets(mask) {
      m := a;
    } else {
      m := HasFirstMiss(bits, a + 1, n - 1, mask);
    }
  }

  lemma BaseBehind(b: int, m: int)
    requires Offset(b) == 0 && b <= m
    ensures Base(m) >= b
  {
    assert b == 65536 * (b / 65536) && Base(m) == 65536 * (m / 65536);
  }

  lemma {:induction false} RefusedHere(bits: imap<int, seq<Perm>>, a: int, n: nat, all: nat)
    requires Whole(bits) && Offset(a) + n <= PAGE_SIZE && n <= all
    requires !(forall x :: a <= x < a + n ==> PermIn(bits, x).write)
    ensures RefusedAt(bits, bits, a, all)
  {
    var m := HasFirstMiss(bits, a, n, WRITE_MASK);
    BaseUnique(m, Base(a));
    assert FirstMiss(bits, a, all, WRITE_MASK, m) && RangeSet(bits, bits, a, PagesUpTo(a, m), DEFINED);
  }

  lemma {:induction false} RefusedLater(bits0: imap<int, seq<Perm>>, bits1: imap<int, seq<Perm>>,
                                        bits2: imap<int, seq<Perm>>, a: int, n: nat, all: nat)
    requires Whole(bits0) && Whole(bits1) && Whole(bits2) && n < all && a + n == Base(a) + PAGE_SIZE
    requires forall x :: a <= x < a + n ==> PermIn(bits0, x).write
    requires RangeSet(bits0, bits1, a, n, DEFINED) && RefusedAt(bits1, bits2, a + n, all - n)
    ensures RefusedAt(bits0, bits2, a, all)
  {
    var m :| m < a + all && FirstMiss(bits1, a + n, all - n, WRITE_MASK, m)
             && RangeSet(bits1, bits2, a + n, PagesUpTo(a + n, m), DEFINED);
    BaseBehind(a + n, m);
    assert FirstMiss(bits0, a, all, WRITE_MASK, m);
    assert RangeSet(bits0, bits2, a, PagesUpTo(a, m), DEFINED);
  }

  lemma InPage(bits: imap<int, seq<Perm>>, a: int, n: nat)
    requires Whole(bits) && Offset(a) + n <= PAGE_SIZE
    ensures forall x :: a <= x < a + n ==> PermIn(bits, x) == bits[Base(a)][x - Base(a)]
  {
    forall x | a <= x < a + n ensures PermIn(bits, x) == bits[Base(a)][x - Base(a)] {
      BaseUnique(x, Base(a));
    }
  }

  lemma ScannedAddresses(bits: imap<int, seq<Perm>>, a: int, n: nat, mask: Perm, k: nat)
    requires Whole(bits) && Offset(a) + n <= PAGE_SIZE && Offset(a) <= k <= Offset(a) + n
    requires forall j :: Offset(a) <= j < k ==> bits[Base(a)][j].Meets(mask)
    requires k < Offset(a) + n ==> !bits[Base(a)][k].Meets(mask)
    ensures FirstMiss(bits, a, n, mask, Base(a) + k)
    ensures FirstMiss(bits, a, n, mask, a + n) <==> k == Offset(a) + n
  {
    InPage(bits, a, n);
  }

  /** A memory with `bytes` stored at address `a`. */
  function Stored(memory: seq<Byte>, a: int, bytes: seq<Byte>): (r: seq<Byte>)
    requires 0 <= a && a + |bytes| <= |memory|
    ensures |r| == |memory|
    ensures forall x :: 0 <= x < |r| ==> r[x] == if a <= x < a + |bytes| then bytes[x - a] else memory[x]
  {
    memory[..a] + bytes + memory[a + |bytes|..]
  }

  /** A memory whose UNDEFINED bytes in [a, a + n) were set to zero. */
  ghost predicate ZeroedUndefined(before: seq<Byte>, after: seq<Byte>, bits: imap<int, seq<Perm>>, a: int, n: nat)
    requires Whole(bits)
  {
    && |after| == |before|
    && forall x :: 0 <= x < |after| ==>
         after[x] == if a <= x < a + n && PermIn(bits, x) == UNDEFINED then 0 else before[x]
  }

  /** All pages that meet [a, a + n) are in `bases`. */
  ghost predicate Covers(bases: iset<int>, a: int, n: nat) {
    forall x :: a <= x < a + n ==> Base(x) in bases
  }

  ghost predicate CoversUpTo(bases: iset<int>, a: int, n: nat, to: int) {
    forall x :: a <= x < a + n && x < to ==> Base(x) in bases
  }

  lemma CoversNone(bases: iset<int>, a: int, n: nat)
    ensures CoversUpTo(bases, a, n, Base(a))
  {
  }

  lemma CoversMore(before: iset<int>, after: iset<int>, a: int, n: nat, b: int)
    requires CoversUpTo(before, a, n, b) && before <= after && b in after && Offset(b) == 0
    ensures CoversUpTo(after, a, n, b + PAGE_SIZE)
  {
    forall x | b <= x < b + PAGE_SIZE ensures Base(x) in after {
      BaseUnique(x, b);
    }
  }

  lemma CoversAll(bases: iset<int>, a: int, n: nat, to: int)
    requires n > 0 && CoversUpTo(bases, a, n, to) && Offset(to) == 0 && to > Base(a + n - 1)
    ensures Covers(bases, a, n)
  {
    assert to >= Base(a + n - 1) + PAGE_SIZE;
  }

  lemma CoversPart(bases: iset<int>, a: int, n: nat)
    requires Offset(a) + n <= PAGE_SIZE && Base(a) in bases
    ensures Covers(bases, a, n)
  {
    forall x | a <= x < a + n ensures Base(x) in bases {
      BaseUnique(x, Base(a));
    }
  }

  /** The verdict of trace_write on one page: what the conjunction of the permissions tells about the range. */
  lemma FlagMeaning(bits: imap<int, seq<Perm>>, a: int, n: nat, flag: Perm)
    requires Whole(bits) && 0 < n && Offset(a) + n <= PAGE_SIZE
    requires flag.write <==> forall j :: Offset(a) <= j < Offset(a) + n ==> bits[Base(a)][j].write
    requires flag.read <==> forall j :: Offset(a) <= j < Offset(a) + n ==> bits[Base(a)][j].read
    ensures flag.write <==> forall x :: a <= x < a + n ==> PermIn(bits, x).write
    ensures flag == DEFINED ==> RangeSet(bits, bits, a, n, DEFINED)
  {
    InPage(bits, a, n);
    if forall x :: a <= x < a + n ==> PermIn(bits, x).write {
      forall j | Offset(a) <= j < Offset(a) + n ensures bits[Base(a)][j].write {
        assert PermIn(bits, Base(a) + j).write;
      }
    }
  }

  lemma ZeroedNone(memory: seq<Byte>, bits: imap<int, seq<Perm>>, a: int)
    requires Whole(bits)
    ensures ZeroedUndefined(memory, memory, bits, a, 0)
  {
  }

  lemma {:induction false} ZeroedOneMore(before: seq<Byte>, during: seq<Byte>, after: seq<Byte>,
                                         bits: imap<int, seq<Perm>>, a: int, i: nat)
    requires Whole(bits) && 0 <= a && a + i < |before| && ZeroedUndefined(before, during, bits, a, i)
    requires after == if PermIn(bits, a + i) == UNDEFINED then during[a + i := 0] else during
    ensures ZeroedUndefined(before, after, bits, a, i + 1)
  {
    hide Whole, PermIn;
    forall x | 0 <= x < |after|
      ensures after[x] == if a <= x < a + i + 1 && PermIn(bits, x) == UNDEFINED then 0 else before[x]
    {
      assert during[x] == if a <= x < a + i && PermIn(bits, x) == UNDEFINED then 0 else before[x];
    }
  }

  lemma SamePage(a: int)
    requires Offset(a) != 0
    ensures Base(a) == Base(a - 1)
  {
    BaseUnique(a - 1, Base(a));
  }

  lemma BaseUnique2(x: int, a: int, n: nat)
    requires Offset(a) + n <= PAGE_SIZE && Base(x) != Base(a)
    ensures !(a <= x < a + n)
  {
    if a <= x < a + n {
      BaseUnique(x, Base(a));
    }
  }

  /** The scan loop of check_address_range_perms: the first of `n` positions that misses the mask, if any. */
  method Scan(bits: seq<Perm>, from: nat, n: nat, mask: Perm) returns (k: nat)
    requires from + n <= |bits|
    ensures from <= k <= from + n
    ensures forall j :: from <= j < k ==> bits[j].Meets(mask)
    ensures k < from + n ==> !bits[k].Meets(mask)
  {
    k := from;
    while k < from + n
      invariant from <= k <= from + n
      invariant forall j :: from <= j < k ==> bits[j].Meets(mask)
    {
      if !bits[k].Meets(mask) {
        return;
      }
      k := k + 1;
    }
  }

  /** The conjunction loop of trace_write. */
  method AndOf(bits: seq<Perm>, from: nat, n: nat) returns (flag: Perm)
    requires 0 < n && from + n <= |bits|
    ensures flag.write <==> forall j :: from <= j < from + n ==> bits[j].write
    ensures flag.read <==> forall j :: from <= j < from + n ==> bits[j].read
  {
    flag := bits[from];
    var i := 1;
    while i < n
      invariant 1 <= i <= n
      invariant flag.write <==> forall j :: from <= j < from + i ==> bits[j].write
      invariant flag.read <==> forall j :: from <= j < from + i ==> bits[j].read
    {
      flag := flag.And(bits[from + i]);
      i := i + 1;
    }
  }

  /** The four shared permission arrays, indexed by permission code. */
  method MakeUniforms() returns (u: seq<VA>, ghost all: set<VA>)
    ensures |u| == 4 && all == {u[0], u[1], u[2], u[3]} && |all| == 4 && fresh(all)
    ensures forall v :: v in all ==> |v.vabits| == PAGE_SIZE && v.refCount == 1 && v.users == {} && v.shared
    ensures u[0].vabits == UniformBits(NOACCESS) && u[1].vabits == UniformBits(UNDEFINED)
    ensures u[2].vabits == UniformBits(READONLY) && u[3].vabits == UniformBits(DEFINED)
  {
    var noaccess := new VA(UniformBits(NOACCESS), true, {});
    var undefined := new VA(UniformBits(UNDEFINED), true, {});
    var readonly := new VA(UniformBits(READONLY), true, {});
    var defined := new VA(UniformBits(DEFINED), true, {});
    u, all := [noaccess, undefined, readonly, defined], {noaccess, undefined, readonly, defined};
  }

  /** A saved memory image: the pages it holds, ordered by base, and the block list of the heap. */
  datatype MemoryImage = MemoryImage(pages: seq<Page>, blocks: seq<Block>)

  ghost function ImageIn(images: map<nat, MemoryImage>, id: nat): MemoryImage {
    if id in images then images[id] else MemoryImage([], [])
  }

  function FindPage(pages: seq<Page>, base: int): (p: Page?)
    ensures p != null ==> p in pages && p.base == base
    ensures p == null ==> forall q :: q in pages ==> q.base != base
  {
    if |pages| == 0 then null
    else if pages[0].base == base then pages[0]
    else FindPage(pages[1..], base)
  }

  /** What a saved image says about one address. */
  ghost function CellOf(pages: seq<Page>, held: map<Page, PageCopy>, a: int): Cell {
    var p := FindPage(pages, Base(a));
    if p == null || p !in held || |held[p].bits| != PAGE_SIZE then Cell(NOACCESS, None)
    else
      var perm := held[p].bits[Offset(a)];
      Cell(perm, if perm.read && held[p].data.Some? && |held[p].data.value| == PAGE_SIZE
           then Some(held[p].data.value[Offset(a)]) else None)
  }

  ghost function ViewOf(pages: seq<Page>, held: map<Page, PageCopy>, length: nat): map<int, Cell> {
    map a: int | 0 <= a < length :: CellOf(pages, held, a)
  }

  /** A page that comes from another client. */
  datatype PageContent = PageContent(base: int, bits: seq<Perm>, data: seq<Byte>)

  /** The pages of a state lie in the memory, in the order of their bases. */
  predicate Receivable(cs: seq<PageContent>, length: nat) {
    && (forall i :: 0 <= i < |cs| ==>
          Offset(cs[i].base) == 0 && 0 <= cs[i].base && cs[i].base + PAGE_SIZE <= length
          && |cs[i].bits| == PAGE_SIZE && |cs[i].data| == PAGE_SIZE)
    && (forall i, j :: 0 <= i < j < |cs| ==> cs[i].base < cs[j].base)
  }

  /** What such pages say about one address. */
  ghost function ContentCell(cs: seq<PageContent>, a: int): Cell {
    if cs == [] then Cell(NOACCESS, None)
    else if cs[0].base != Base(a) then ContentCell(cs[1..], a)
    else if |cs[0].bits| != PAGE_SIZE then Cell(NOACCESS, None)
    else
      var perm := cs[0].bits[Offset(a)];
      Cell(perm, if perm.read && |cs[0].data| == PAGE_SIZE then Some(cs[0].data[Offset(a)]) else None)
  }

  ghost function ContentView(cs: seq<PageContent>, length: nat): map<int, Cell> {
    map a: int | 0 <= a < length :: ContentCell(cs, a)
  }

  /** The pages hold the contents. */
  ghost predicate Holding(pages: seq<Page>, held: map<Page, PageCopy>, cs: seq<PageContent>) {
    |pages| == |cs| && forall i :: 0 <= i < |cs| ==>
      pages[i].base == cs[i].base && pages[i] in held && held[pages[i]] == PageCopy(cs[i].bits, Some(cs[i].data))
  }

  lemma {:induction false} HoldingCell(pages: seq<Page>, held: map<Page, PageCopy>, cs: seq<PageContent>, a: int)
    requires Holding(pages, held, cs)
    ensures CellOf(pages, held, a) == ContentCell(cs, a)
    decreases |cs|
  {
    if cs != [] && cs[0].base != Base(a) {
      assert pages[0].base == cs[0].base;
      assert FindPage(pages, Base(a)) == FindPage(pages[1..], Base(a));
      assert forall i :: 0 <= i < |cs| - 1 ==> pages[1..][i] == pages[i + 1] && cs[1..][i] == cs[i + 1];
      HoldingCell(pages[1..], held, cs[1..], a);
    }
  }

  lemma {:induction false} HoldingMore(pages: seq<Page>, held: map<Page, PageCopy>, cs: seq<PageContent>, n: nat,
                                       held': map<Page, PageCopy>, q: Page)
    requires n < |cs| && Holding(pages, held, cs[..n]) && SubMap(held, held')
    requires q.base == cs[n].base && q in held' && held'[q] == PageCopy(cs[n].bits, Some(cs[n].data))
    ensures Holding(pages + [q], held', cs[..n + 1])
  {
  }

  lemma {:induction false} ShowsContent(pages: seq<Page>, held: map<Page, PageCopy>, cs: seq<PageContent>, length: nat)
    requires Holding(pages, held, cs)
    ensures ViewOf(pages, held, length) == ContentView(cs, length)
  {
    hide CellOf, ContentCell, Holding;
    forall a | 0 <= a < length ensures CellOf(pages, held, a) == ContentCell(cs, a) {
      HoldingCell(pages, held, cs, a);
    }
  }

  lemma HoldingNone(held: map<Page, PageCopy>)
    ensures Holding([], held, [])
  {
  }

  lemma {:induction false} HeldBelow(pages: seq<Page>, held: map<Page, PageCopy>, cs: seq<PageContent>, n: nat)
    requires n < |cs| && Holding(pages, held, cs[..n])
    requires forall i, j :: 0 <= i < j < |cs| ==> cs[i].base < cs[j].base
    ensures forall p :: p in pages ==> p.base < cs[n].base
  {
  }

  ghost predicate SubMap(m1: map<Page, PageCopy>, m2: map<Page, PageCopy>) {
    forall p :: p in m1 ==> p in m2 && m2[p] == m1[p]
  }

  ghost predicate SameOutside(m1: seq<Byte>, m2: seq<Byte>, b: int) {
    |m1| == |m2| && forall x :: 0 <= x < |m1| && !(b <= x < b + PAGE_SIZE) ==> m1[x] == m2[x]
  }

  /** What memimage_restore has achieved after `k` of the current pages, `i` of which belong to the image. */
  ghost predicate RestoredTo(auxmap: map<int, Page>, bits: imap<int, seq<Perm>>, img: seq<Page>, keys: seq<int>, i: nat,
                             k: nat)
    requires Whole(bits)
  {
    && i <= |img| && k <= |keys|
    && (forall j :: 0 <= j < i ==> img[j].base in auxmap && auxmap[img[j].base] == img[j])
    && (forall m :: 0 <= m < k ==>
        keys[m] in auxmap && (auxmap[keys[m]] in img || PageIn(bits, keys[m]) == UniformBits(NOACCESS)))
  }

  /** Where the image stands relative to the current pages: every page still to come has its place among the keys to
      come. */
  ghost predicate Aligned(img: seq<Page>, keys: seq<int>, i: nat, k: nat) {
    && i <= |img| && k <= |keys|
    && (forall j, l :: 0 <= j < l < |img| ==> img[j].base < img[l].base)
    && (forall m, n :: 0 <= m < n < |keys| ==> keys[m] < keys[n])
    && (forall j :: 0 <= j < i ==> img[j].base in keys[..k])
    && (forall j :: i <= j < |img| ==> img[j].base in keys[k..])
  }

  lemma AlignedMatch(img: seq<Page>, keys: seq<int>, i: nat, k: nat)
    requires Aligned(img, keys, i, k) && i < |img| && k < |keys| && img[i].base == keys[k]
    ensures Aligned(img, keys, i + 1, k + 1)
  {
    assert keys[..k + 1] == keys[..k] + [keys[k]];
    assert keys[k..] == [keys[k]] + keys[k + 1..];
  }

  lemma AlignedSkip(img: seq<Page>, keys: seq<int>, i: nat, k: nat)
    requires Aligned(img, keys, i, k) && k < |keys| && (i < |img| ==> img[i].base != keys[k])
    ensures Aligned(img, keys, i, k + 1)
    ensures i < |img| ==> img[i].base > keys[k]
  {
    assert keys[..k + 1] == keys[..k] + [keys[k]];
    assert keys[k..] == [keys[k]] + keys[k + 1..];
    if i < |img| {
      var m :| 0 <= m < |keys[k..]| && keys[k..][m] == img[i].base;
      assert keys[k + m] == img[i].base;
    }
  }

  lemma AlignedEnd(img: seq<Page>, keys: seq<int>, i: nat)
    requires Aligned(img, keys, i, |keys|)
    ensures i == |img|
  {
    var rest := keys[|keys|..];
    assert rest == [];
    if i < |img| {
      InRest(img, rest, i);
      assert false;
    }
  }

  lemma InRest(img: seq<Page>, rest: seq<int>, i: nat)
    requires i < |img| && forall j :: i <= j < |img| ==> img[j].base in rest
    ensures |rest| > 0
  {
    assert img[i].base in rest;
  }

  lemma RestoredMatch(auxmap: map<int, Page>, bits: imap<int, seq<Perm>>, auxmap': map<int, Page>,
                      bits': imap<int, seq<Perm>>, img: seq<Page>, keys: seq<int>, i: nat, k: nat)
    requires Whole(bits) && Whole(bits') && RestoredTo(auxmap, bits, img, keys, i, k) && Aligned(img, keys, i, k)
    requires i < |img| && k < |keys| && img[i].base == keys[k]
    requires auxmap' == auxmap[keys[k] := img[i]] && forall b: int :: b != keys[k] ==>
        PageIn(bits', b) == PageIn(bits, b)
    ensures RestoredTo(auxmap', bits', img, keys, i + 1, k + 1)
  {
  }

  lemma RestoredSkip(auxmap: map<int, Page>, bits: imap<int, seq<Perm>>, auxmap': map<int, Page>,
                     bits': imap<int, seq<Perm>>, img: seq<Page>, keys: seq<int>, i: nat, k: nat)
    requires Whole(bits) && Whole(bits') && RestoredTo(auxmap, bits, img, keys, i, k) && Aligned(img, keys, i, k)
    requires k < |keys| && bits' == bits[keys[k] := UniformBits(NOACCESS)]
    requires keys[k] in auxmap' && auxmap' == auxmap[keys[k] := auxmap'[keys[k]]]
    ensures RestoredTo(auxmap', bits', img, keys, i, k + 1)
  {
    forall j | 0 <= j < i ensures img[j].base != keys[k] {
      var m :| 0 <= m < k && keys[..k][m] == img[j].base;
      assert keys[m] == img[j].base;
    }
  }

  /** The permissions and the readable bytes of a page, taken from a view alone. */
  ghost function ViewBits(view: map<int, Cell>, b: int): (bits: seq<Perm>)
    ensures |bits| == PAGE_SIZE
  {
    seq(PAGE_SIZE, j => if b + j in view then view[b + j].perm else NOACCESS)
  }

  ghost function ViewBytes(view: map<int, Cell>, b: int): (bytes: seq<Byte>)
    ensures |bytes| == PAGE_SIZE
  {
    seq(PAGE_SIZE, j => if b + j in view && view[b + j].value.Some? then view[b + j].value.value else 0)
  }

  // ---- the hash of a view --------------------------------------------------------------------------

  /** The cell of byte `j` of page `n`. */
  ghost function CellAt(view: map<int, Cell>, n: nat, j: nat): Cell {
    if 65536 * n + j in view then view[65536 * n + j] else Cell(NOACCESS, None)
  }

  ghost predicate HasReadable(view: map<int, Cell>, n: nat) {
    exists j: nat :: j < PAGE_SIZE && CellAt(view, n, j).perm.read
  }

  /** `ps` lists the pages with something readable in order. */
  ghost predicate ReadablePages(view: map<int, Cell>, count: nat, ps: seq<nat>) {
    Ascending(ps) && forall n: nat :: n in ps <==> n < count && HasReadable(view, n)
  }

  /** What is fed for page `n`: its readable bytes in order, and then its permissions unless every byte is readable. */
  ghost predicate FedFor(view: map<int, Cell>, n: nat, fed: seq<Byte>) {
    exists q :: PlacesOf(view, n, q) && FedAt(view, n, q, fed)
  }

  ghost predicate PlacesOf(view: map<int, Cell>, n: nat, q: seq<nat>) {
    Ascending(q) && forall j: nat :: j in q <==> j < PAGE_SIZE && CellAt(view, n, j).perm.read
  }

  ghost predicate FedAt(view: map<int, Cell>, n: nat, q: seq<nat>, fed: seq<Byte>) {
    && |fed| == |q| + (if |q| == PAGE_SIZE then 0 else PAGE_SIZE)
    && (forall k :: 0 <= k < |q| ==> CellAt(view, n, q[k]).value == Some(fed[k]))
    && (|q| != PAGE_SIZE ==> forall j :: 0 <= j < PAGE_SIZE ==>
          fed[|q| + j] == CellAt(view, n, j).perm.Code() as Byte)
  }

  /** The hashes of what is fed for the pages with something readable, in order. */
  ghost predicate HashesPages(md5: seq<Byte> -> int, view: map<int, Cell>, count: nat, ctx: seq<int>) {
    exists ps :: ReadablePages(view, count, ps) && HashesOf(md5, view, ps, ctx)
  }

  ghost predicate HashesOf(md5: seq<Byte> -> int, view: map<int, Cell>, ps: seq<nat>, ctx: seq<int>) {
    |ctx| == |ps| && forall k :: 0 <= k < |ps| ==> HashesPage(md5, view, ps[k], ctx[k])
  }

  ghost predicate HashesPage(md5: seq<Byte> -> int, view: map<int, Cell>, n: nat, h: int) {
    exists fed :: FedFor(view, n, fed) && h == md5(fed)
  }

  /** Every byte has a value exactly if it is readable. */
  ghost predicate Shown(view: map<int, Cell>, count: nat) {
    forall n: nat, j: nat :: n < count && j < PAGE_SIZE ==>
      (CellAt(view, n, j).value.Some? <==> CellAt(view, n, j).perm.read)
  }

  ghost predicate SameCells(v: map<int, Cell>, n: nat, w: map<int, Cell>, m: nat) {
    forall j: nat :: j < PAGE_SIZE ==> CellAt(v, n, j) == CellAt(w, m, j)
  }

  /** Both pages are readable throughout, with the same bytes. */
  ghost predicate SameReadable(v: map<int, Cell>, n: nat, w: map<int, Cell>, m: nat) {
    forall j: nat :: j < PAGE_SIZE ==>
      && CellAt(v, n, j).perm.read && CellAt(w, m, j).perm.read && CellAt(v, n, j).value == CellAt(w, m, j).value
  }

  lemma PageOfView(view: map<int, Cell>, n: nat, j: nat)
    requires j < PAGE_SIZE
    ensures ViewBits(view, 65536 * n)[j] == CellAt(view, n, j).perm
    ensures CellAt(view, n, j).value.Some? ==> ViewBytes(view, 65536 * n)[j] == CellAt(view, n, j).value.value
  {
  }

  lemma {:induction false} FedIsOfView(view: map<int, Cell>, count: nat, n: nat, fed: seq<Byte>)
    requires Shown(view, count) && n < count
    ensures FedFor(view, n, fed) <==> fed == Digest(ViewBits(view, 65536 * n), ViewBytes(view, 65536 * n))
  {
    var bits, bytes := ViewBits(view, 65536 * n), ViewBytes(view, 65536 * n);
    if FedFor(view, n, fed) {
      var q :| PlacesOf(view, n, q) && FedAt(view, n, q, fed);
      PlacesInView(view, n, q);
      FedInView(view, count, n, q, fed);
      FedIsDigest(bits, bytes, q, fed);
    }
    if fed == Digest(bits, bytes) {
      var q := DigestIs(bits, bytes);
      PlacesInView(view, n, q);
      FedInView(view, count, n, q, fed);
    }
  }

  lemma {:induction false} PlacesInView(view: map<int, Cell>, n: nat, q: seq<nat>)
    ensures PlacesOf(view, n, q) <==> ReadablePlaces(ViewBits(view, 65536 * n), q)
  {
    hide Ascending, ViewBits;
    forall j: nat | j < PAGE_SIZE ensures ViewBits(view, 65536 * n)[j] == CellAt(view, n, j).perm {
      PageOfView(view, n, j);
    }
    hide CellAt;
  }

  lemma {:induction false} FedInView(view: map<int, Cell>, count: nat, n: nat, q: seq<nat>, fed: seq<Byte>)
    requires Shown(view, count) && n < count && PlacesOf(view, n, q)
    ensures FedAt(view, n, q, fed) <==> IsFed(ViewBits(view, 65536 * n), ViewBytes(view, 65536 * n), q, fed)
  {
    hide ViewBits, ViewBytes, Ascending;
    forall j: nat | j < PAGE_SIZE
      ensures ViewBits(view, 65536 * n)[j] == CellAt(view, n, j).perm
      ensures CellAt(view, n, j).value.Some? ==> ViewBytes(view, 65536 * n)[j] == CellAt(view, n, j).value.value
    {
      PageOfView(view, n, j);
    }
    forall k | 0 <= k < |q| ensures q[k] < PAGE_SIZE && CellAt(view, n, q[k]).value.Some? {
      assert q[k] in q;
    }
    hide CellAt;
  }

  /** Two pages with something readable are fed alike exactly if their cells are the same, or both are readable
      throughout with the same bytes. */
  lemma {:induction false} FedAlike(v: map<int, Cell>, nv: nat, n: nat, w: map<int, Cell>, nw: nat, m: nat)
    requires Shown(v, nv) && n < nv && HasReadable(v, n) && Shown(w, nw) && m < nw && HasReadable(w, m)
    ensures Digest(ViewBits(v, 65536 * n), ViewBytes(v, 65536 * n))
            == Digest(ViewBits(w, 65536 * m), ViewBytes(w, 65536 * m))
            <==> SameCells(v, n, w, m) || SameReadable(v, n, w, m)
  {
    var b1, c1 := ViewBits(v, 65536 * n), ViewBytes(v, 65536 * n);
    var b2, c2 := ViewBits(w, 65536 * m), ViewBytes(w, 65536 * m);
    SomethingRead(v, n);
    SomethingRead(w, m);
    DigestIdentifies(b1, c1, b2, c2);
    assert b1 == b2 && Agree(b1, c1, c2) <==> SameCells(v, n, w, m) by { CellsOfBits(v, nv, n, w, nw, m); }
    assert FullyReadable(b1) && FullyReadable(b2) && c1 == c2 <==> SameReadable(v, n, w, m) by {
      BytesOfFull(v, nv, n, w, nw, m);
    }
  }

  lemma SomethingRead(v: map<int, Cell>, n: nat)
    requires HasReadable(v, n)
    ensures !Unreadable(ViewBits(v, 65536 * n))
  {
    var j: nat :| j < PAGE_SIZE && CellAt(v, n, j).perm.read;
    PageOfView(v, n, j);
  }

  lemma {:induction false} CellsOfBits(v: map<int, Cell>, nv: nat, n: nat, w: map<int, Cell>, nw: nat, m: nat)
    requires Shown(v, nv) && n < nv && Shown(w, nw) && m < nw
    ensures var b1, c1 := ViewBits(v, 65536 * n), ViewBytes(v, 65536 * n);
            var b2, c2 := ViewBits(w, 65536 * m), ViewBytes(w, 65536 * m);
            b1 == b2 && Agree(b1, c1, c2) <==> SameCells(v, n, w, m)
  {
    hide ViewBits, ViewBytes;
    var b1, c1 := ViewBits(v, 65536 * n), ViewBytes(v, 65536 * n);
    var b2, c2 := ViewBits(w, 65536 * m), ViewBytes(w, 65536 * m);
    forall j: nat | j < PAGE_SIZE
      ensures b1[j] == b2[j] && (b1[j].read ==> c1[j] == c2[j]) <==> CellAt(v, n, j) == CellAt(w, m, j)
    {
      PageOfView(v, n, j);
      PageOfView(w, m, j);
    }
    hide CellAt, Shown;
  }

  lemma {:induction false} BytesOfFull(v: map<int, Cell>, nv: nat, n: nat, w: map<int, Cell>, nw: nat, m: nat)
    requires Shown(v, nv) && n < nv && Shown(w, nw) && m < nw
    ensures var b1, c1 := ViewBits(v, 65536 * n), ViewBytes(v, 65536 * n);
            var b2, c2 := ViewBits(w, 65536 * m), ViewBytes(w, 65536 * m);
            FullyReadable(b1) && FullyReadable(b2) && c1 == c2 <==> SameReadable(v, n, w, m)
  {
    hide ViewBits, ViewBytes;
    var b1, c1 := ViewBits(v, 65536 * n), ViewBytes(v, 65536 * n);
    var b2, c2 := ViewBits(w, 65536 * m), ViewBytes(w, 65536 * m);
    forall j: nat | j < PAGE_SIZE
      ensures b1[j].read && b2[j].read && c1[j] == c2[j] <==>
              CellAt(v, n, j).perm.read && CellAt(w, m, j).perm.read && CellAt(v, n, j).value == CellAt(w, m, j).value
    {
      PageOfView(v, n, j);
      PageOfView(w, m, j);
    }
    hide CellAt, Shown;
  }

  /** What the hash of a client tells, if different inputs of MD5 have different hashes: two clients have the same hash
      exactly if they have equally many pages with something readable and the k-th ones of both have the same cells, or
      are readable throughout with the same bytes. Where the pages lie is not hashed. */
  lemma {:induction false} HashIdentifies(md5: seq<Byte> -> int, v: map<int, Cell>, nv: nat, cv: seq<int>,
                                          w: map<int, Cell>, nw: nat, cw: seq<int>, ps: seq<nat>, qs: seq<nat>)
    requires forall x, y :: md5(x) == md5(y) ==> x == y
    requires Shown(v, nv) && HashesPages(md5, v, nv, cv) && ReadablePages(v, nv, ps)
    requires Shown(w, nw) && HashesPages(md5, w, nw, cw) && ReadablePages(w, nw, qs)
    ensures cv == cw <==>
            |ps| == |qs| && forall k :: 0 <= k < |ps| ==>
                              SameCells(v, ps[k], w, qs[k]) || SameReadable(v, ps[k], w, qs[k])
  {
    hide Shown, SameCells, SameReadable, HasReadable, HashesPage;
    HashesThese(md5, v, nv, cv, ps);
    HashesThese(md5, w, nw, cw, qs);
    if |ps| == |qs| {
      forall k | 0 <= k < |ps|
        ensures cv[k] == cw[k] <==> SameCells(v, ps[k], w, qs[k]) || SameReadable(v, ps[k], w, qs[k])
      {
        assert ps[k] in ps && qs[k] in qs;
        OneHash(md5, v, nv, ps[k], cv[k]);
        OneHash(md5, w, nw, qs[k], cw[k]);
        FedAlike(v, nv, ps[k], w, nw, qs[k]);
      }
    }
  }

  lemma {:induction false} HashesThese(md5: seq<Byte> -> int, view: map<int, Cell>, count: nat, ctx: seq<int>,
                                       ps: seq<nat>)
    requires HashesPages(md5, view, count, ctx) && ReadablePages(view, count, ps)
    ensures HashesOf(md5, view, ps, ctx)
  {
    hide HashesOf, HasReadable;
    var qs :| ReadablePages(view, count, qs) && HashesOf(md5, view, qs, ctx);
    PlacesUnique(ps, qs);
  }

  lemma {:induction false} OneHash(md5: seq<Byte> -> int, view: map<int, Cell>, count: nat, n: nat, h: int)
    requires Shown(view, count) && n < count && HashesPage(md5, view, n, h)
    ensures h == md5(Digest(ViewBits(view, 65536 * n), ViewBytes(view, 65536 * n)))
  {
    hide Shown, FedFor;
    var fed :| FedFor(view, n, fed) && h == md5(fed);
    FedIsOfView(view, count, n, fed);
  }

  lemma ViewFrame(pages: seq<Page>, held1: map<Page, PageCopy>, held2: map<Page, PageCopy>, length: nat)
    requires forall p :: p in pages ==> p in held1 && p in held2 && held1[p] == held2[p]
    ensures ViewOf(pages, held1, length) == ViewOf(pages, held2, length)
  {
    forall a: int ensures CellOf(pages, held1, a) == CellOf(pages, held2, a) {
    }
  }

  /** `keys` lists `s` in increasing order. */
  ghost predicate Ordered(keys: seq<int>, s: set<int>) {
    && (forall i, j :: 0 <= i < j < |keys| ==> keys[i] < keys[j])
    && (forall x :: x in keys <==> x in s)
  }

  /** `pages` are the pages of the first bases in `keys`. */
  ghost predicate PagesAt(auxmap: map<int, Page>, keys: seq<int>, pages: seq<Page>) {
    |pages| <= |keys| && forall k :: 0 <= k < |pages| ==> keys[k] in auxmap && pages[k] == auxmap[keys[k]]
  }

  /** The in-order traversal of an ordered set. */
  method InOrder(s: set<int>) returns (keys: seq<int>)
    ensures Ordered(keys, s)
  {
    keys := [];
    var rest := s;
    while rest != {}
      invariant forall i, j :: 0 <= i < j < |keys| ==> keys[i] < keys[j]
      invariant forall x :: x in s <==> x in keys || x in rest
      invariant forall x :: x in rest ==> x !in keys
      decreases |rest|
    {
      ghost var some := Member(rest);
      var x :| x in rest;
      var i := 0;
      while i < |keys| && keys[i] < x
        invariant 0 <= i <= |keys| && forall j :: 0 <= j < i ==> keys[j] < x
      {
        i := i + 1;
      }
      assert i < |keys| ==> keys[i] != x;
      ghost var before := keys;
      keys := keys[..i] + [x] + keys[i..];
      assert forall y :: y in keys <==> y in before || y == x by {
        assert before == before[..i] + before[i..];
      }
      rest := rest - {x};
    }
  }

  /** What may happen to the client memory and to the state table between two commands of interest. `SetHeap` stands
      for whatever the allocator does, `Scribble` for the raw stores of the tool into bytes that nobody may read. */
  datatype Command =
    | Store(addr: int, bytes: seq<Byte>)
    | Load(addr: int, size: nat)
    | Extern(addr: int, bytes: seq<Byte>, check: bool)
    | SetPerms(addr: int, len: nat, perm: Perm)
    | LockRange(addr: int, len: nat)
    | UnlockRange(addr: int, len: nat)
    | Save
    | Restore(id: nat)
    | Forget(id: nat)
    | Hash
    | SetHeap(blocks: seq<Block>)
    | Scribble(addr: int, value: Byte)
    | Pull(contents: seq<PageContent>, blocks: seq<Block>)

  /** What is saved: what the client saw, and the blocks of its heap. */
  datatype Kept = Kept(view: map<int, Cell>, blocks: seq<Block>)

  /** What can be told about a memory from outside: what the client sees, its blocks, and the saved states. */
  datatype Outside = Outside(view: map<int, Cell>, blocks: seq<Block>, saved: map<nat, Kept>)

  /** What a command does to a memory of `length` bytes, told from outside; a command that does not apply does
      nothing. */
  ghost predicate Effect(c: Command, length: nat, a: Outside, b: Outside) {
    match c
    case Store(addr, bytes) =>
      b == a.(view := b.view)
      && if |bytes| > 0 && IsRange(addr, |bytes|, length) then StoreEffect(a.view, b.view, addr, bytes) else b == a
    case Load(_, _) => b == a
    case Extern(addr, bytes, check) =>
      b == a.(view := b.view)
      && if |bytes| > 0 && IsRange(addr, |bytes|, length) && (check ==> Writable(a.view, addr, |bytes|))
         then Overwriting(a.view, b.view, addr, bytes)
         else b == a
    case SetPerms(addr, len, perm) =>
      b == a.(view := b.view)
      && if IsRange(addr, len, length) then Permitting(a.view, b.view, addr, len, perm) else b == a
    case LockRange(addr, len) =>
      b == a.(view := b.view) && if IsRange(addr, len, length) then Locking(a.view, b.view, addr, len) else b == a
    case UnlockRange(addr, len) =>
      b == a.(view := b.view)
      && if IsRange(addr, len, length) then Permitting(a.view, b.view, addr, len, DEFINED) else b == a
    case Save => SavesAs(a, b, Kept(a.view, a.blocks))
    case Restore(id) => b == if id in a.saved then Outside(a.saved[id].view, a.saved[id].blocks, a.saved) else a
    case Forget(id) => b == a.(saved := a.saved - {id})
    case Hash => b == a
    case SetHeap(blocks) => b == a.(blocks := blocks)
    case Scribble(_, _) => b == a
    case Pull(contents, blocks) =>
      if Receivable(contents, length) then SavesAs(a, b, Kept(ContentView(contents, length), blocks)) else b == a
  }

  ghost predicate IsRunOf(commands: seq<Command>, length: nat, seen: seq<Outside>) {
    |seen| == |commands| + 1 && forall k :: 0 <= k < |commands| ==> Effect(commands[k], length, seen[k], seen[k + 1])
  }

  predicate IsRange(addr: int, n: nat, length: nat) {
    0 <= addr && addr + n <= length
  }

  ghost predicate Writable(view: map<int, Cell>, addr: int, n: nat) {
    forall x :: addr <= x < addr + n && x in view ==> view[x].perm.write
  }

  /** A store is refused for the first byte that is not writable; then what it has before the page of that byte is
      defined, but nothing is stored. */
  ghost predicate StoreEffect(v: map<int, Cell>, w: map<int, Cell>, addr: int, bytes: seq<Byte>) {
    if Writable(v, addr, |bytes|) then Overwriting(v, w, addr, bytes)
    else exists m :: addr <= m < addr + |bytes| && m in v && !v[m].perm.write && Writable(v, addr, m - addr)
                     && Permitting(v, w, addr, PagesUpTo(addr, m), DEFINED)
  }

  ghost predicate Overwriting(v: map<int, Cell>, w: map<int, Cell>, addr: int, bytes: seq<Byte>) {
    w.Keys == v.Keys && forall x :: x in w ==>
      w[x] == if addr <= x < addr + |bytes| then Cell(DEFINED, Some(bytes[x - addr])) else v[x]
  }

  /** The range gets a permission; what was readable in it and still is keeps its value. */
  ghost predicate Permitting(v: map<int, Cell>, w: map<int, Cell>, addr: int, n: nat, perm: Perm) {
    w.Keys == v.Keys && forall x :: x in w ==>
      if addr <= x < addr + n then w[x].perm == perm && (w[x].value.Some? <==> perm.read)
                                   && (perm.read && v[x].perm.read ==> w[x].value == v[x].value)
      else w[x] == v[x]
  }

  /** A locked range is read-only, and what was undefined in it is 0. */
  ghost predicate Locking(v: map<int, Cell>, w: map<int, Cell>, addr: int, n: nat) {
    Permitting(v, w, addr, n, READONLY)
    && forall x :: x in w && addr <= x < addr + n && v[x].perm == UNDEFINED ==> w[x].value == Some(0)
  }

  ghost predicate SavesAs(a: Outside, b: Outside, kept: Kept) {
    exists id: nat :: id !in a.saved && b == a.(saved := a.saved[id := kept])
  }

  /** What is seen of a memory with these permissions and bytes. */
  ghost function ViewFrom(bits: imap<int, seq<Perm>>, bytes: seq<Byte>): map<int, Cell>
    requires Whole(bits)
  {
    map a: int | 0 <= a < |bytes| :: Cell(PermIn(bits, a), if PermIn(bits, a).read then Some(bytes[a]) else None)
  }

  lemma {:induction false} ViewHolds(bits0: imap<int, seq<Perm>>, bytes0: seq<Byte>, bits1: imap<int, seq<Perm>>,
                                     bytes1: seq<Byte>, addr: int, bytes: seq<Byte>)
    requires Whole(bits0) && Whole(bits1) && 0 <= addr && addr + |bytes| <= |bytes0|
    requires RangeSet(bits0, bits1, addr, |bytes|, DEFINED) && bytes1 == Stored(bytes0, addr, bytes)
    ensures Overwriting(ViewFrom(bits0, bytes0), ViewFrom(bits1, bytes1), addr, bytes)
  {
    hide PermIn;
  }

  lemma {:induction false} ViewWritable(bits: imap<int, seq<Perm>>, bytes: seq<Byte>, addr: int, n: nat)
    requires Whole(bits) && 0 <= addr && addr + n <= |bytes|
    ensures Writable(ViewFrom(bits, bytes), addr, n) <==> forall x :: addr <= x < addr + n ==> PermIn(bits, x).write
    ensures Writable(ViewFrom(bits, bytes), addr, n) <==> FirstMiss(bits, addr, n, WRITE_MASK, addr + n)
  {
    hide PermIn;
    var view := ViewFrom(bits, bytes);
    assert forall x :: addr <= x < addr + n ==> x in view && view[x].perm == PermIn(bits, x);
  }

  lemma {:induction false} ViewLoads(bits: imap<int, seq<Perm>>, bytes0: seq<Byte>, bytes1: seq<Byte>, addr: int,
                                     n: nat)
    requires Whole(bits) && ZeroedUndefined(bytes0, bytes1, bits, addr, n)
    ensures ViewFrom(bits, bytes1) == ViewFrom(bits, bytes0)
  {
    hide PermIn;
  }

  lemma {:induction false} ViewPermits(bits0: imap<int, seq<Perm>>, bytes: seq<Byte>, bits1: imap<int, seq<Perm>>,
                                       addr: int, n: nat, perm: Perm)
    requires Whole(bits0) && Whole(bits1) && 0 <= addr && RangeSet(bits0, bits1, addr, n, perm)
    ensures Permitting(ViewFrom(bits0, bytes), ViewFrom(bits1, bytes), addr, n, perm)
  {
    hide PermIn;
  }

  lemma {:induction false} ViewLocks(bits0: imap<int, seq<Perm>>, bytes0: seq<Byte>, bits1: imap<int, seq<Perm>>,
                                     bytes1: seq<Byte>, addr: int, n: nat)
    requires Whole(bits0) && Whole(bits1) && RangeSet(bits0, bits1, addr, n, READONLY)
    requires ZeroedUndefined(bytes0, bytes1, bits0, addr, n)
    ensures Locking(ViewFrom(bits0, bytes0), ViewFrom(bits1, bytes1), addr, n)
  {
    hide PermIn;
  }

  lemma {:induction false} ViewRefuses(bits0: imap<int, seq<Perm>>, bytes: seq<Byte>, bits1: imap<int, seq<Perm>>,
                                       addr: int, data: seq<Byte>)
    requires Whole(bits0) && Whole(bits1) && 0 <= addr && addr + |data| <= |bytes|
    requires RefusedAt(bits0, bits1, addr, |data|)
    ensures StoreEffect(ViewFrom(bits0, bytes), ViewFrom(bits1, bytes), addr, data)
  {
    hide PermIn;
    var m :| m < addr + |data| && FirstMiss(bits0, addr, |data|, WRITE_MASK, m)
             && RangeSet(bits0, bits1, addr, PagesUpTo(addr, m), DEFINED);
    ViewPermits(bits0, bytes, bits1, addr, PagesUpTo(addr, m), DEFINED);
    var v := ViewFrom(bits0, bytes);
    assert m in v && !v[m].perm.write;
  }

  /** How a load of the client ends; one that goes on behind its page is not followed. */
  datatype Loading = Loaded | Refused | BeyondPage

  class MemorySpace {
    const mem: array<Byte>
    const uniform: seq<VA>
    const md5: seq<Byte> -> int
    var auxmap: map<int, Page>
    var cache: seq<Page>
    var images: map<nat, MemoryImage>
    const heap: Heap
    var nextId: nat
    var statPages: int
    var statVas: int
    ghost var pages: set<Page>
    ghost var vas: set<VA>

    // ---- ownership -----------------------------------------------------------------------

    ghost predicate IsCurrent(p: Page)
      reads this
    {
      p.base in auxmap && auxmap[p.base] == p
    }

    /** Every permission array counts its users, plus one when it is one of the shared arrays. */
    ghost predicate VasOk()
      reads this, vas, pages
    {
      && (forall v :: v in vas ==> |v.vabits| == PAGE_SIZE && v.refCount == |v.users| + (if v.shared then 1 else 0))
      && (forall v, p :: v in vas && p in v.users ==> p in pages && p.va == v)
    }

    /** Every page counts the images that hold it, plus one when it is the current page of its base. */
    ghost predicate PagesOk()
      reads this, vas, pages
    {
      forall p :: p in pages ==>
        && p.va in vas && p in p.va.users
        && p.refCount == |p.holders| + (if IsCurrent(p) then 1 else 0)
        && p.base in auxmap
    }

    ghost predicate AuxOk()
      reads this, pages
    {
      forall b :: b in auxmap ==>
        auxmap[b] in pages && auxmap[b].base == b && Offset(b) == 0 && 0 <= b && b + PAGE_SIZE <= mem.Length
    }

    ghost predicate ImagesOk()
      reads this, pages
    {
      && (forall id, p :: id in images && p in images[id].pages ==> p in pages && id in p.holders)
      && (forall p, id :: p in pages && id in p.holders ==> id in images && p in images[id].pages)
    }

    ghost predicate UniformOk()
      reads this, vas
    {
      && |uniform| == 4 && Offset(mem.Length) == 0
      && (forall i :: 0 <= i < 4 ==>
          uniform[i] in vas && uniform[i].shared && uniform[i].vabits == UniformBits(PermOfCode(i)))
      && (forall v :: v in vas && v.shared ==> v == uniform[0] || v == uniform[1] || v == uniform[2] || v == uniform[3])
    }

    ghost predicate Structure()
      reads this, vas, pages
    {
      VasOk() && PagesOk() && AuxOk() && ImagesOk() && UniformOk()
    }

    // ---- primitive steps on the structure --------------------------------------------------

    twostate predicate SameVas()
      reads this, vas
    {
      vas == old(vas) && forall v :: v in vas ==> unchanged(v)
    }

    /** `q` is a new page with permission array `v`; it became the current page of its base. */
    twostate predicate Installed(new q: Page, v: VA)
      reads this, pages, vas, q, v
    {
      && q !in old(pages) && q.refCount == 1 && q.data == None && q.holders == {} && q.va == v
      && v in vas && vas == old(vas) && images == old(images)
      && pages == old(pages) + {q} && auxmap == old(auxmap)[q.base := q]
      && (forall p :: p in old(pages) ==>
          SameButCount(p) && p.refCount == old(p.refCount) - (if old(IsCurrent(p)) && p.base == q.base then 1 else 0))
      && (forall w :: w in old(vas) && w != v ==> unchanged(w))
      && v.vabits == old(v.vabits) && v.refCount == old(v.refCount) + 1 && v.users == old(v.users) + {q}
    }

    twostate predicate SameButCount(p: Page)
      reads p
    {
      p.va == old(p.va) && p.data == old(p.data) && p.status == old(p.status) && p.hash == old(p.hash)
            && p.holders == old(p.holders)
    }

    twostate lemma InstalledVas(new q: Page, v: VA)
      requires old(VasOk()) && Installed(q, v)
      ensures VasOk()
    {
      assert q !in old(v.users);
      forall w | w in vas ensures |w.vabits| == PAGE_SIZE && w.refCount == |w.users| + (if w.shared then 1 else 0) {
        if w == v {
          assert |old(v.users) + {q}| == |old(v.users)| + 1;
        }
      }
      forall w, p | w in vas && p in w.users ensures p in pages && p.va == w {
        if p != q {
          assert p in old(w.users) && SameButCount(p);
        }
      }
    }

    twostate lemma InstalledPages(new q: Page, v: VA)
      requires old(PagesOk()) && old(AuxOk()) && Installed(q, v)
      ensures PagesOk()
    {
    }

    twostate lemma InstalledRest(new q: Page, v: VA)
      requires old(AuxOk()) && old(ImagesOk()) && old(UniformOk()) && Installed(q, v)
      requires Offset(q.base) == 0 && 0 <= q.base && q.base + PAGE_SIZE <= mem.Length
      ensures AuxOk() && ImagesOk() && UniformOk()
    {
    }

    /** `page` points to `v` instead of its former permission array. */
    twostate predicate Repointed(page: Page, new v: VA)
      reads this, pages, vas, v, page
    {
      && page in old(pages) && SamePointers(page) && page.va == v && v != old(page.va)
      && pages == old(pages) && vas == old(vas) + {v} && images == old(images) && auxmap == old(auxmap)
      && (forall p :: p in old(pages) && p != page ==> unchanged(p))
      && (forall w :: w in old(vas) && w != old(page.va) && w != v ==> unchanged(w))
      && (forall w :: w in old(vas) && w == old(page.va) ==>
            w.vabits == old(w.vabits) && w.refCount == old(w.refCount) - 1 && w.users == old(w.users) - {page})
      && (v !in old(vas) ==> |v.vabits| == PAGE_SIZE && v.refCount == 1 && !v.shared && v.users == {page})
      && (forall w :: w in old(vas) && w == v ==>
            w.vabits == old(w.vabits) && w.refCount == old(w.refCount) + 1 && w.users == old(w.users) + {page})
    }

    twostate predicate SamePointers(p: Page)
      reads p
    {
      p.refCount == old(p.refCount) && p.data == old(p.data) && p.holders == old(p.holders)
    }

    twostate lemma RepointedVas(page: Page, new v: VA)
      requires old(VasOk()) && old(PagesOk()) && Repointed(page, v)
      ensures VasOk()
    {
    }

    twostate lemma RepointedPages(page: Page, new v: VA)
      requires old(VasOk()) && old(PagesOk()) && Repointed(page, v)
      ensures PagesOk()
    {
      assert forall p :: p in pages ==> p.refCount == old(p.refCount) && p.holders == old(p.holders);
      forall p | p in pages ensures p.va in vas && p in p.va.users {
        if p != page {
          assert p.va == old(p.va) && p.va in old(vas);
        }
      }
    }

    twostate lemma {:induction false} RepointedRest(page: Page, new v: VA)
      requires old(Structure()) && Repointed(page, v)
      ensures PagesOk() && AuxOk() && ImagesOk() && UniformOk()
    {
      hide VasOk, PagesOk;
      RepointedPages(page, v);
      assert forall p :: p in pages ==> p.refCount == old(p.refCount) && p.holders == old(p.holders);
      assert AuxOk() && ImagesOk();
    }

    /** The permission arrays and their users are as before. */
    twostate lemma {:induction false} SameUsers()
      requires old(VasOk()) && SameVas() && pages == old(pages) && forall p :: p in pages ==> p.va == old(p.va)
      ensures VasOk()
    {
      forall v, p | v in vas && p in v.users ensures p in pages && p.va == v {
        assert p in old(v.users);
        assert p in old(pages) && old(p.va) == v;
      }
    }

    /** The saved page `p` became the current page of its base instead of `cur`. */
    twostate predicate Swapped(cur: Page, new p: Page)
      reads this, pages, vas, cur, p
    {
      && cur in old(pages) && p in old(pages) && old(IsCurrent(cur)) && p.base == cur.base && p != cur
      && pages == old(pages) && images == old(images) && SameVas()
      && auxmap == old(auxmap)[p.base := p]
      && (forall q :: q in old(pages) ==> SameButCount(q))
      && (forall q :: q in old(pages) && q != cur && q != p ==> q.refCount == old(q.refCount))
      && cur.refCount == old(cur.refCount) - 1 && p.refCount == old(p.refCount) + 1
    }

    twostate lemma SwappedPages(cur: Page, new p: Page)
      requires old(PagesOk()) && old(AuxOk()) && Swapped(cur, p)
      ensures PagesOk() && AuxOk()
    {
      assert forall q :: q in pages ==> q.va == old(q.va) && q.holders == old(q.holders);
    }

    twostate lemma {:induction false} SwappedStructure(cur: Page, new p: Page)
      requires old(Structure()) && Swapped(cur, p)
      ensures Structure()
    {
      hide PagesOk, AuxOk;
      SwappedPages(cur, p);
      assert forall q :: q in pages ==> q.va == old(q.va) && q.holders == old(q.holders);
      SameUsers();
      assert ImagesOk() && UniformOk();
    }

    /** State `id` took hold of `page`. */
    twostate predicate Held(page: Page, new id: nat)
      reads this, pages, vas, page
    {
      && page in old(pages) && id in old(images) && page !in ImageIn(old(images), id).pages
      && pages == old(pages) && SameVas() && auxmap == old(auxmap)
      && images == old(images)[id := MemoryImage(ImageIn(old(images), id).pages + [page],
                                                 ImageIn(old(images), id).blocks)]
      && page.va == old(page.va) && page.refCount == old(page.refCount) + 1 && page.holders == old(page.holders) + {id}
      && page.data == old(page.data) && page.status == old(page.status) && page.hash == old(page.hash)
      && (forall p :: p in old(pages) && p != page ==> unchanged(p))
    }

    twostate lemma {:induction false} HeldImages(page: Page, new id: nat)
      requires old(ImagesOk()) && Held(page, id)
      ensures ImagesOk()
    {
      var list := ImageIn(old(images), id).pages;
      assert images[id].pages == list + [page];
      forall k, p | k in images && p in images[k].pages ensures p in pages && k in p.holders {
        if p != page || k != id {
          assert k in old(images) && p in old(images)[k].pages;
          assert p in old(pages) && k in old(p.holders);
        }
      }
      forall p, k | p in pages && k in p.holders ensures k in images && p in images[k].pages {
        if p != page || k != id {
          assert k in old(p.holders);
          assert k in old(images) && p in old(images)[k].pages;
        }
      }
    }

    twostate lemma {:induction false} HeldStructure(page: Page, new id: nat)
      requires old(Structure()) && Held(page, id)
      ensures Structure()
    {
      HeldImages(page, id);
      hide ImagesOk;
      SameUsers();
      assert PagesOk();
      assert AuxOk() && UniformOk();
    }

    /** State `id` gave up the first page of its image. */
    twostate predicate Released(page: Page, new id: nat)
      reads this, pages, vas, page
    {
      && page in old(pages) && id in old(images) && |ImageIn(old(images), id).pages| > 0
      && page == ImageIn(old(images), id).pages[0] && page !in ImageIn(old(images), id).pages[1..]
      && pages == old(pages) && SameVas() && auxmap == old(auxmap)
      && images == old(images)[id := MemoryImage(ImageIn(old(images), id).pages[1..], ImageIn(old(images), id).blocks)]
      && page.va == old(page.va) && page.refCount == old(page.refCount) - 1 && page.holders == old(page.holders) - {id}
      && page.data == old(page.data) && page.status == old(page.status) && page.hash == old(page.hash)
      && (forall p :: p in old(pages) && p != page ==> unchanged(p))
    }

    twostate lemma {:induction false} ReleasedImages(page: Page, new id: nat)
      requires old(ImagesOk()) && Released(page, id)
      ensures ImagesOk()
    {
      var list := ImageIn(old(images), id).pages;
      assert images[id].pages == list[1..] && list == [page] + list[1..];
      forall k, p | k in images && p in images[k].pages ensures p in pages && k in p.holders {
        assert k in old(images) && p in old(images)[k].pages;
        assert p in old(pages) && k in old(p.holders);
        assert !(p == page && k == id);
      }
      forall p, k | p in pages && k in p.holders ensures k in images && p in images[k].pages {
        assert k in old(p.holders);
        assert k in old(images) && p in old(images)[k].pages;
      }
    }

    twostate lemma {:induction false} ReleasedStructure(page: Page, new id: nat)
      requires old(Structure()) && Released(page, id)
      ensures Structure()
    {
      ReleasedImages(page, id);
      hide ImagesOk;
      SameUsers();
      assert PagesOk();
      assert AuxOk() && UniformOk();
    }

    /** A page nobody refers to was freed. */
    twostate predicate Freed(page: Page)
      reads this, pages, vas
    {
      && page in old(pages) && old(page.refCount) == 0
      && pages == old(pages) - {page} && vas == old(vas) && images == old(images) && auxmap == old(auxmap)
      && (forall p :: p in pages ==> unchanged(p))
      && (forall v :: v in vas && v != old(page.va) ==> unchanged(v))
      && (forall v :: v in vas && v == old(page.va) ==>
            v.vabits == old(v.vabits) && v.refCount == old(v.refCount) - 1 && v.users == old(v.users) - {page})
    }

    twostate lemma FreedPages(page: Page)
      requires old(PagesOk()) && old(VasOk()) && Freed(page)
      ensures PagesOk() && VasOk()
    {
      forall p | p in pages
        ensures p.va in vas && p in p.va.users && p.refCount == |p.holders| + (if IsCurrent(p) then 1 else 0)
                && p.base in auxmap
      {
        assert p in old(pages) && p != page;
      }
      assert old(page.va) in old(vas) && page in old(page.va.users);
    }

    twostate lemma FreedMaps(page: Page)
      requires old(PagesOk()) && old(AuxOk()) && old(ImagesOk()) && Freed(page)
      ensures AuxOk() && ImagesOk()
    {
      UnownedBefore(page);
      forall b | b in auxmap ensures auxmap[b] in pages && auxmap[b].base == b {
        assert auxmap[b] in old(pages) && auxmap[b] != page;
      }
      forall id, p | id in images && p in images[id].pages ensures p in pages && id in p.holders {
        assert p in old(pages) && id in old(p.holders) && p != page;
      }
    }

    /** A page without references was held by no image, and was not current. */
    twostate lemma UnownedBefore(page: Page)
      requires old(PagesOk()) && Freed(page)
      ensures old(page.holders) == {} && !old(IsCurrent(page))
    {
      assert old(page.refCount) == |old(page.holders)| + if old(IsCurrent(page)) then 1 else 0;
      assert |old(page.holders)| == 0;
    }

    twostate lemma FreedStructure(page: Page)
      requires old(Structure()) && Freed(page)
      ensures Structure()
    {
      FreedPages(page);
      FreedMaps(page);
    }

    /** A permission array nobody refers to was freed. */
    twostate predicate VaFreed(v: VA)
      reads this, pages, vas
    {
      && v in old(vas) && old(v.refCount) == 0
      && vas == old(vas) - {v} && pages == old(pages) && images == old(images) && auxmap == old(auxmap)
      && (forall p :: p in pages ==> unchanged(p))
      && (forall w :: w in vas ==> unchanged(w))
    }

    twostate lemma VaFreedStructure(v: VA)
      requires old(Structure()) && VaFreed(v)
      ensures Structure()
    {
    }

    // ---- contents ------------------------------------------------------------------------

    /** The client memory under the page at `b`. */
    ghost function Slice(b: int): seq<Byte>
      reads mem
    {
      if 0 <= b && b + PAGE_SIZE <= mem.Length then mem[b..b + PAGE_SIZE] else []
    }

    ghost predicate HashOf(p: Page, content: seq<Byte>)
      reads p, p.va
    {
      |p.va.vabits| == |content| && p.hash == md5(Digest(p.va.vabits, content))
    }

    /** The page has no permissions: it points to the shared array of NOACCESS. */
    ghost predicate Blank(p: Page)
      reads this, p
    {
      |uniform| == 4 && p.va == uniform[NOACCESS.Code()]
    }

    /** What is stored with a page: the readable bytes of a held page are in `data`, and agree with the client memory
        while the page is also current; only a blank page is held without stored bytes; a valid hash is the hash of the
        present content. */
    ghost predicate ContentOk(p: Page)
      reads this, p, p.va, mem
    {
      && (p.data.Some? ==> |p.data.value| == PAGE_SIZE)
      && (p.holders != {} && p.data.None? ==> Unreadable(p.va.vabits) && Blank(p))
      && (p.holders != {} && p.data.Some? && IsCurrent(p) ==> Agree(p.va.vabits, p.data.value, Slice(p.base)))
      && (p.status == Empty ==> Unreadable(p.va.vabits))
      && (p.status == ValidHash ==>
            && !Unreadable(p.va.vabits)
            && (IsCurrent(p) ==> HashOf(p, Slice(p.base)))
            && (p.holders != {} && p.data.Some? ==> HashOf(p, p.data.value)))
    }

    ghost predicate ContentsOk()
      reads this, pages, vas, mem
      requires PagesOk()
    {
      forall p :: p in pages ==> ContentOk(p)
    }

    twostate predicate SameMemory()
      reads mem
    {
      mem[..] == old(mem[..])
    }

    twostate lemma SameSlice(b: int)
      requires SameMemory()
      ensures Slice(b) == old(Slice(b))
    {
      if 0 <= b && b + PAGE_SIZE <= mem.Length {
        assert mem[b..b + PAGE_SIZE] == mem[..][b..b + PAGE_SIZE];
        assert old(mem[b..b + PAGE_SIZE]) == old(mem[..])[b..b + PAGE_SIZE];
      }
    }

    /** A page whose stored fields, permissions and client memory are as before, and which has not
        newly become current or held, still has a correct content. */
    twostate lemma ContentKept(p: Page)
      requires old(ContentOk(p)) && SameMemory()
      requires p.va == old(p.va) && p.va.vabits == old(p.va.vabits) && p.data == old(p.data)
               && p.status == old(p.status) && p.hash == old(p.hash)
      requires IsCurrent(p) ==> old(IsCurrent(p))
      requires p.holders != {} ==> old(p.holders != {})
      ensures ContentOk(p)
    {
      SameSlice(p.base);
    }

    twostate lemma InstalledContents(new q: Page, v: VA)
      requires old(PagesOk()) && old(ContentsOk()) && PagesOk() && Installed(q, v) && SameMemory()
      requires q.status == InvalidHash || (q.status == Empty && Unreadable(v.vabits))
      ensures ContentsOk()
    {
      forall p | p in old(pages) ensures ContentOk(p) {
        ContentKept(p);
      }
    }

    twostate lemma RepointedContents(page: Page, new v: VA)
      requires old(PagesOk()) && old(ContentsOk()) && PagesOk() && Repointed(page, v) && SameMemory()
      requires page.status == InvalidHash && page.holders == {} && (v in old(vas) ==> v.vabits == old(v.vabits))
      ensures ContentsOk()
    {
      forall p | p in pages && p != page ensures ContentOk(p) {
        ContentKept(p);
      }
    }

    /** The client memory is untouched outside the page at `b`. */
    twostate predicate OtherBytesKept(b: int)
      reads mem
    {
      SameOutside(old(mem[..]), mem[..], b)
    }

    twostate lemma OtherSliceKept(b: int, new c: int)
      requires OtherBytesKept(b) && Offset(b) == 0 && Offset(c) == 0 && b != c
      ensures Slice(c) == old(Slice(c))
    {
      if 0 <= c && c + PAGE_SIZE <= mem.Length {
        forall x | c <= x < c + PAGE_SIZE ensures mem[..][x] == old(mem[..])[x] {
          if b <= x < b + PAGE_SIZE {
            BaseUnique(x, b);
            BaseUnique(x, c);
          }
        }
      }
    }

    twostate lemma SwappedContents(cur: Page, new p: Page)
      requires old(PagesOk()) && old(ContentsOk()) && PagesOk() && AuxOk() && Swapped(cur, p) && OtherBytesKept(p.base)
      requires p.holders != {} && |p.va.vabits| == |Slice(p.base)|
      requires p.data.Some? ==> Agree(p.va.vabits, p.data.value, Slice(p.base))
      ensures ContentsOk()
    {
      forall q | q in pages && q != p ensures ContentOk(q) {
        if IsCurrent(q) {
          OtherSliceKept(p.base, q.base);
        }
      }
      assert old(ContentOk(p));
      if p.status == ValidHash && p.data.Some? {
        ReadableAgree(p.va.vabits, p.data.value, Slice(p.base));
      }
    }

    twostate lemma HeldContents(page: Page, new id: nat)
      requires old(PagesOk()) && old(ContentsOk()) && PagesOk() && Held(page, id) && SameMemory()
      requires IsCurrent(page)
      requires page.data.None? ==> Unreadable(page.va.vabits) && Blank(page)
      requires page.data.Some? ==> Agree(page.va.vabits, page.data.value, Slice(page.base))
      ensures ContentsOk()
    {
      forall p | p in pages && p != page ensures ContentOk(p) {
        ContentKept(p);
      }
      SameSlice(page.base);
      if page.status == ValidHash && page.data.Some? {
        ReadableAgree(page.va.vabits, page.data.value, Slice(page.base));
      }
    }

    twostate lemma ReleasedContents(page: Page, new id: nat)
      requires old(PagesOk()) && old(ContentsOk()) && PagesOk() && Released(page, id) && SameMemory()
      ensures ContentsOk()
    {
      forall p | p in pages ensures ContentOk(p) {
        ContentKept(p);
      }
    }

    twostate lemma FreedContents(page: Page)
      requires old(PagesOk()) && old(ContentsOk()) && PagesOk() && Freed(page) && SameMemory()
      ensures ContentsOk()
    {
      forall p | p in pages ensures ContentOk(p) {
        ContentKept(p);
      }
    }

    twostate lemma VaFreedContents(v: VA)
      requires old(PagesOk()) && old(ContentsOk()) && PagesOk() && VaFreed(v) && SameMemory()
      ensures ContentsOk()
    {
      forall p | p in pages ensures ContentOk(p) {
        ContentKept(p);
      }
    }

    // ---- the whole invariant ---------------------------------------------------------------

    ghost predicate ImagesSorted()
      reads this
    {
      (forall id :: id in images ==> id < nextId) &&
      forall id, i, j :: id in images && 0 <= i < j < |images[id].pages|
            ==> images[id].pages[i].base < images[id].pages[j].base
    }

    /** The cache holds current pages only, with distinct bases. */
    ghost predicate CacheOk()
      reads this
    {
      && |cache| <= CACHE_SIZE
      && (forall i :: 0 <= i < |cache| ==> IsCurrent(cache[i]))
      && (forall i, j :: 0 <= i < j < |cache| ==> cache[i].base != cache[j].base)
    }

    ghost predicate StatsOk()
      reads this
    {
      statPages == |pages| && statVas == |vas|
    }

    ghost predicate LiveOk()
      reads this, pages, vas
    {
      && (forall p :: p in pages ==> p.refCount > 0)
      && (forall v :: v in vas ==> v.refCount > 0)
    }

    /** Everything but the cache. */
    ghost predicate ValidPages()
      reads this, pages, vas, mem
      ensures ValidPages() ==> Structure() && PagesOk() && AuxOk()
    {
      Structure() && ContentsOk() && StatsOk() && LiveOk() && ImagesSorted()
    }

    ghost predicate Valid()
      reads this, pages, vas, mem
      ensures Valid() ==> Structure() && PagesOk() && AuxOk()
    {
      ValidPages() && CacheOk()
    }

    /** The four shared permission arrays, an empty page map and an empty heap. */
    constructor (mem: array<Byte>, md5: seq<Byte> -> int, heapSpace: int, heapMaxSize: nat, redzone: nat)
      requires Offset(mem.Length) == 0 && heapSpace > 0 && heapMaxSize > 0
      ensures Valid() && this.mem == mem && this.md5 == md5 && images == map[] && auxmap == map[]
      ensures pages == {} && statVas == 4 && fresh(heap) && heap.Valid()
      ensures fresh(vas)
    {
      this.mem, this.md5 := mem, md5;
      var shared, all := MakeUniforms();
      uniform := shared;
      auxmap, cache, images, nextId := map[], [], map[], 100;
      statPages, statVas := 0, 4;
      pages, vas := {}, all;
      heap := new Heap(heapSpace, heapMaxSize, redzone);
      new;
      hide Valid, UniformOk, UniformBits;
      InitialUniforms();
      InitialValid();
    }

    lemma InitialUniforms()
      requires |uniform| == 4 && Offset(mem.Length) == 0
      requires uniform[0] in vas && uniform[1] in vas && uniform[2] in vas && uniform[3] in vas
      requires vas == {uniform[0], uniform[1], uniform[2], uniform[3]}
      requires forall v :: v in vas ==> v.shared
      requires uniform[0].vabits == UniformBits(NOACCESS) && uniform[1].vabits == UniformBits(UNDEFINED)
      requires uniform[2].vabits == UniformBits(READONLY) && uniform[3].vabits == UniformBits(DEFINED)
      ensures UniformOk()
    {
      assert PermOfCode(0) == NOACCESS && PermOfCode(1) == UNDEFINED && PermOfCode(2) == READONLY
            && PermOfCode(3) == DEFINED;
    }

    lemma InitialValid()
      requires UniformOk() && pages == {} && auxmap == map[] && cache == [] && images == map[]
      requires forall v :: v in vas ==> |v.vabits| == PAGE_SIZE && v.refCount == 1 && v.users == {} && v.shared
      requires statPages == 0 && statVas == |vas|
      ensures Valid()
    {
    }

    // ---- frames ------------------------------------------------------------------------------

    /** What the saved states store: the pages they hold, with permissions and stored bytes. */
    ghost function HeldPages(): map<Page, PageCopy>
      reads this, pages, vas
      requires PagesOk()
    {
      map p | p in pages && p.holders != {} :: PageCopy(p.va.vabits, p.data)
    }

    /** What the saved states store is untouched. */
    twostate predicate ImagesKept()
      reads this, pages, vas
      requires old(PagesOk()) && PagesOk()
    {
      images == old(images) && HeldPages() == old(HeldPages())
    }

    /** The permissions of the page at base `b`; an absent page is all NOACCESS. */
    ghost function BitsAt(b: int): (bits: seq<Perm>)
      reads this, pages, vas
      requires Structure()
      ensures |bits| == PAGE_SIZE
    {
      if b in auxmap then auxmap[b].va.vabits else UniformBits(NOACCESS)
    }

    /** The permissions of the whole address space, page by page. */
    ghost function Bits(): (bits: imap<int, seq<Perm>>)
      reads this, pages, vas
      requires Structure()
      ensures Whole(bits)
    {
      imap b: int :: BitsAt(b)
    }

    /** The bases whose current page is owned by nobody else and whose hash is marked as invalid:
        the pages that the client may write to. */
    ghost function Dirty(): iset<int>
      reads this, pages
      requires AuxOk()
    {
      iset b: int | b in auxmap && auxmap[b].holders == {} && auxmap[b].status == InvalidHash
    }

    /** What can be observed of the client memory. */
    ghost function View(): map<int, Cell>
      reads this, pages, vas, mem
      requires Structure()
    {
      map a: int | 0 <= a < mem.Length :: Cell(PermIn(Bits(), a), if PermIn(Bits(), a).read then Some(mem[a]) else None)
    }

    /** What can be observed of the saved state `id`. */
    ghost function SavedView(id: nat): map<int, Cell>
      reads this, pages, vas
      requires Structure() && id in images
    {
      ViewOf(images[id].pages, HeldPages(), mem.Length)
    }

    // ---- copy on write -----------------------------------------------------------------------

    /** page_update: `page` takes the place of the page of the same base in the cache and in the map. */
    method PageUpdate(page: Page)
      modifies this`cache, this`auxmap
      ensures auxmap == old(auxmap)[page.base := page]
      ensures |cache| == |old(cache)|
      ensures forall i :: 0 <= i < |cache| ==>
                cache[i] == if old(cache)[i].base == page.base && (forall k :: 0 <= k < i ==>
                    old(cache)[k].base != page.base)
                            then page else old(cache)[i]
    {
      var i := 0;
      while i < |cache|
        invariant 0 <= i <= |cache| && cache == old(cache)
        invariant forall k :: 0 <= k < i ==> cache[k].base != page.base
      {
        if cache[i].base == page.base {
          cache := cache[i := page];
          break;
        }
        i := i + 1;
      }
      auxmap := auxmap[page.base := page];
    }

    /** Allocates a page with permission array `v` and makes it the current page of `base`. */
    method InstallNew(base: int, v: VA, status: PageStatus) returns (q: Page)
      requires v in vas && AuxOk()
      modifies this`auxmap, this`cache, this`pages, this`statPages, pages, v
      ensures fresh(q) && Installed(q, v) && q.base == base && q.status == status
      ensures statPages == old(statPages) + 1
      ensures |cache| == |old(cache)|
      ensures forall i :: 0 <= i < |cache| ==>
                cache[i] == if old(cache)[i].base == base && (forall k :: 0 <= k < i ==> old(cache)[k].base != base)
                            then q else old(cache)[i]
    {
      if base in auxmap {
        auxmap[base].refCount := auxmap[base].refCount - 1;
      }
      q := new Page(base, v, status);
      v.refCount := v.refCount + 1;
      v.users := v.users + {q};
      pages := pages + {q};
      statPages := statPages + 1;
      PageUpdate(q);
    }

    twostate lemma CacheUpdated(new q: Page, v: VA)
      requires old(CacheOk()) && Installed(q, v) && |cache| == |old(cache)|
      requires forall i :: 0 <= i < |cache| ==>
                cache[i] == if old(cache)[i].base == q.base && (forall k :: 0 <= k < i ==> old(cache)[k].base != q.base)
                            then q else old(cache)[i]
      ensures CacheOk()
    {
    }

    twostate lemma InstalledKeepsImages(new q: Page, v: VA)
      requires old(PagesOk()) && PagesOk() && Installed(q, v)
      ensures ImagesKept()
    {
    }

    twostate lemma InstalledCounts(new q: Page, v: VA)
      requires old(PagesOk()) && old(AuxOk()) && old(StatsOk()) && old(LiveOk()) && old(ImagesSorted())
               && Installed(q, v)
      requires forall p :: p in old(pages) && old(IsCurrent(p)) && p.base == q.base ==> old(p.refCount) >= 2
      requires statPages == old(statPages) + 1 && statVas == old(statVas) && nextId == old(nextId)
      ensures StatsOk() && LiveOk() && ImagesSorted()
    {
    }

    twostate lemma InstalledStructure(new q: Page, v: VA)
      requires old(Structure()) && Installed(q, v)
      requires Offset(q.base) == 0 && 0 <= q.base && q.base + PAGE_SIZE <= mem.Length
      ensures Structure()
    {
      InstalledVas(q, v);
      InstalledPages(q, v);
      InstalledRest(q, v);
    }

    twostate lemma InstalledValid(new q: Page, v: VA)
      requires old(ValidPages()) && Installed(q, v) && SameMemory()
      requires forall p :: p in old(pages) && old(IsCurrent(p)) && p.base == q.base ==> old(p.refCount) >= 2
      requires q.status == InvalidHash || (q.status == Empty && Unreadable(v.vabits))
      requires Offset(q.base) == 0 && 0 <= q.base && q.base + PAGE_SIZE <= mem.Length
      requires statPages == old(statPages) + 1 && statVas == old(statVas) && nextId == old(nextId)
      ensures ValidPages() && ImagesKept()
    {
      InstalledStructure(q, v);
      InstalledContents(q, v);
      InstalledCounts(q, v);
      InstalledKeepsImages(q, v);
    }

    /** Only the stored content, status or hash of `page` changed. */
    twostate predicate Marked(page: Page)
      reads this, pages, vas, page
    {
      && pages == old(pages) && SameVas() && images == old(images) && auxmap == old(auxmap)
      && statPages == old(statPages) && statVas == old(statVas) && nextId == old(nextId)
      && page.va == old(page.va) && page.refCount == old(page.refCount) && page.holders == old(page.holders)
      && forall p :: p in old(pages) && p != page ==> unchanged(p)
    }

    twostate lemma MarkedStructure(page: Page)
      requires old(Structure()) && Marked(page)
      ensures Structure()
    {
      assert forall p :: p in pages ==>
          p.va == old(p.va) && p.refCount == old(p.refCount) && p.holders == old(p.holders);
      SameUsers();
      assert PagesOk();
      assert AuxOk() && UniformOk();
      assert ImagesOk();
    }

    twostate lemma MarkedContents(page: Page)
      requires old(PagesOk()) && old(ContentsOk()) && PagesOk() && Marked(page) && SameMemory()
      requires ContentOk(page)
      ensures ContentsOk()
    {
      forall p | p in pages && p != page ensures ContentOk(p) {
        ContentKept(p);
      }
    }

    twostate lemma MarkedValid(page: Page)
      requires old(ValidPages()) && Marked(page) && SameMemory() && ContentOk(page)
      ensures ValidPages()
    {
      MarkedStructure(page);
      MarkedContents(page);
    }

    twostate lemma MarkedKeepsImages(page: Page)
      requires old(PagesOk()) && PagesOk() && Marked(page)
      requires page.holders != {} ==> page.data == old(page.data)
      ensures ImagesKept()
    {
    }

    twostate lemma MarkedKeepsDirty(page: Page)
      requires old(Structure()) && Structure() && Marked(page) && page.status == InvalidHash && IsCurrent(page)
      ensures old(Dirty()) <= Dirty()
      ensures page.holders == {} ==> page.base in Dirty()
    {
      forall b | b in old(Dirty()) ensures b in Dirty() {
        assert old(auxmap)[b] in old(pages);
      }
    }

    twostate lemma MarkedKeepsBits(page: Page)
      requires old(Structure()) && Structure() && Marked(page)
      ensures Bits() == old(Bits())
    {
    }

    method MarkChanged(page: Page)
      requires Valid() && IsCurrent(page)
      modifies page`status
      ensures Valid() && ImagesKept() && Bits() == old(Bits()) && Marked(page) && page.status == InvalidHash
      ensures page.holders == {} ==> page.base in Dirty()
      ensures old(Dirty()) <= Dirty()
    {
      page.status := InvalidHash;
      assert ContentOk(page);
      MarkedValid(page);
      MarkedKeepsImages(page);
      MarkedKeepsBits(page);
      MarkedKeepsDirty(page);
    }

    lemma CurrentUnheld(page: Page)
      requires Valid() && IsCurrent(page)
      ensures page in pages
      ensures page.refCount == 1 <==> page.holders == {}
      ensures page.refCount >= 1 && page.va in vas && page.va.refCount >= 1
    {
    }

    twostate lemma InstalledKeepsDirty(new q: Page, v: VA)
      requires old(PagesOk()) && old(AuxOk()) && AuxOk() && Installed(q, v)
      requires q.status == InvalidHash || q.base !in old(auxmap)
      ensures old(Dirty()) <= Dirty()
      ensures q.status == InvalidHash ==> q.base in Dirty()
    {
      forall b | b in old(Dirty()) ensures b in Dirty() {
        assert old(auxmap)[b] in old(pages);
      }
    }

    twostate lemma {:induction false} InstalledBitsAt(new q: Page, v: VA, new b: int)
      requires old(Structure()) && Structure() && Installed(q, v)
      ensures BitsAt(b) == if b == q.base then v.vabits else old(BitsAt(b))
    {
      hide HeldPages, UniformOk, ImagesOk, UniformBits;
      if b != q.base && b in old(auxmap) {
        assert old(auxmap)[b] in old(pages) && auxmap[b] == old(auxmap)[b];
        assert auxmap[b].va in old(vas);
      }
    }

    twostate lemma {:induction false} InstalledKeepsBits(new q: Page, v: VA)
      requires old(Structure()) && Structure() && Installed(q, v)
      ensures Bits() == old(Bits())[q.base := v.vabits]
    {
      hide Structure, BitsAt, VasOk, PagesOk, AuxOk, ImagesOk, UniformOk, Whole;
      forall b: int ensures Bits()[b] == old(Bits())[q.base := v.vabits][b] {
        InstalledBitsAt(q, v, b);
      }
    }

    /** page_clone: a page with two owners is replaced by a fresh one that shares its permissions. */
    method CloneCurrent(page: Page) returns (q: Page)
      requires Valid() && IsCurrent(page) && page.refCount >= 2
      modifies this, pages, vas
      ensures fresh(q) && Installed(q, old(page.va)) && q.base == page.base && q.status == InvalidHash
      ensures Valid() && ImagesKept() && Bits() == old(Bits())
      ensures q.base in Dirty()
      ensures old(Dirty()) <= Dirty()
    {
      hide HeldPages, StatsOk, LiveOk, ContentOk, ContentsOk, VasOk, ImagesOk, UniformOk, CacheOk;
      q := InstallNew(page.base, page.va, InvalidHash);
      InstalledValid(q, old(page.va));
      CacheUpdated(q, old(page.va));
      InstalledKeepsBits(q, old(page.va));
      InstalledKeepsDirty(q, old(page.va));
    }

    method PrepareForWriteData(page: Page) returns (q: Page)
      requires Valid() && IsCurrent(page)
      modifies this, pages, vas
      ensures Valid() && ImagesKept() && Bits() == old(Bits())
      ensures old(Dirty()) <= Dirty()
      ensures IsCurrent(q) && q.base == page.base && q in pages
      ensures q.refCount == 1 && q.status == InvalidHash && q.holders == {}
      ensures q.base in Dirty()
      ensures auxmap.Keys == old(auxmap).Keys
      ensures old(pages) <= pages && fresh(pages - old(pages)) && vas == old(vas)
    {
      hide Valid, Structure, Bits, HeldPages, PagesOk, Dirty, AuxOk;
      CurrentUnheld(page);
      if page.refCount >= 2 {
        q := CloneCurrent(page);
      } else {
        MarkChanged(page);
        q := page;
      }
    }

    // ---- the page cache ----------------------------------------------------------------------

    twostate predicate OnlyCacheChanged()
      reads this, pages, vas
    {
      && pages == old(pages) && vas == old(vas) && images == old(images) && auxmap == old(auxmap)
      && statPages == old(statPages) && statVas == old(statVas) && nextId == old(nextId)
      && (forall p :: p in pages ==> unchanged(p)) && (forall v :: v in vas ==> unchanged(v))
    }

    twostate lemma CacheChangeKeepsStructure()
      requires old(Structure()) && OnlyCacheChanged()
      ensures Structure()
    {
    }

    twostate lemma CacheChangeKeepsRest()
      requires old(ValidPages()) && Structure() && OnlyCacheChanged() && SameMemory()
      ensures ValidPages() && ImagesKept()
    {
      forall p | p in pages ensures ContentOk(p) {
        ContentKept(p);
      }
    }

    twostate lemma CacheChangeKeepsValid()
      requires old(ValidPages()) && OnlyCacheChanged() && SameMemory()
      ensures ValidPages() && ImagesKept() && Bits() == old(Bits()) && old(Dirty()) <= Dirty()
    {
      CacheChangeKeepsStructure();
      CacheChangeKeepsRest();
      forall b | b in old(Dirty()) ensures b in Dirty() {
        assert old(auxmap)[b] in old(pages);
      }
    }

    /** Looks `b` up in the cache and moves a hit to the front. */
    method FindInCache(b: int) returns (p: Page?)
      requires CacheOk()
      modifies this`cache
      ensures CacheOk()
      ensures p != null ==> b in auxmap && auxmap[b] == p && |cache| > 0 && cache[0] == p
      ensures p == null ==> cache == old(cache) && forall i :: 0 <= i < |cache| ==> cache[i].base != b
      ensures multiset(cache) == multiset(old(cache))
    {
      if |cache| > 0 && cache[0].base == b {
        return cache[0];
      }
      var i := 1;
      while i < |cache|
        invariant cache == old(cache)
        invariant i >= 1 && forall k :: 0 <= k < i && k < |cache| ==> cache[k].base != b
      {
        if cache[i].base == b {
          MoveToFront(i);
          return cache[0];
        }
        i := i + 1;
      }
      return null;
    }

    method MoveToFront(k: nat)
      requires CacheOk() && k < |cache|
      modifies this`cache
      ensures cache == [old(cache)[k]] + old(cache)[..k] + old(cache)[k + 1..]
      ensures CacheOk() && multiset(cache) == multiset(old(cache))
    {
      var page := cache[k];
      assert cache == cache[..k] + [page] + cache[k + 1..];
      cache := ShiftIn(cache, k, page);
      MovedDistinct(old(cache), k);
    }

    static lemma MovedDistinct(s: seq<Page>, k: nat)
      requires k < |s| && forall i, j :: 0 <= i < j < |s| ==> s[i].base != s[j].base
      ensures var r := [s[k]] + s[..k] + s[k + 1..];
              forall i, j :: 0 <= i < j < |r| ==> r[i].base != r[j].base
    {
    }

    /** memspace_add_to_page_cache: appends while there is room, otherwise drops the last entry and puts the page
        first. */
    method AddToPageCache(page: Page)
      requires CacheOk() && IsCurrent(page)
      requires forall i :: 0 <= i < |cache| ==> cache[i].base != page.base
      modifies this`cache
      ensures CacheOk()
      ensures cache == if |old(cache)| < CACHE_SIZE then old(cache) + [page] else [page] + old(cache)[..CACHE_SIZE - 1]
    {
      if |cache| < CACHE_SIZE {
        cache := cache + [page];
        return;
      }
      cache := ShiftIn(cache, CACHE_SIZE - 1, page);
    }

    /** get_page_or_null: the page of address `a`, found exactly as in the ordered map alone. */
    method GetPageOrNull(a: int) returns (page: Page?)
      requires Valid()
      modifies this`cache
      ensures Valid() && ImagesKept() && Bits() == old(Bits())
      ensures old(Dirty()) <= Dirty()
      ensures page == if Base(a) in auxmap then auxmap[Base(a)] else null
      ensures page != null ==> page.base == Base(a) && page in cache
      ensures auxmap == old(auxmap)
    {
      var b := Base(a);
      page := FindInCache(b);
      if page == null && b in auxmap {
        page := auxmap[b];
        AddToPageCache(page);
      }
      CacheChangeKeepsValid();
    }

    lemma PageFits(a: int)
      requires Offset(mem.Length) == 0 && 0 <= a < mem.Length
      ensures 0 <= Base(a) && Base(a) + PAGE_SIZE <= mem.Length && Offset(Base(a)) == 0
    {
    }

    /** get_page: like the above, but an absent page is created, empty and without permissions. */
    method GetPage(a: int) returns (page: Page)
      requires Valid() && 0 <= a < mem.Length
      modifies this, pages, vas
      ensures Valid() && ImagesKept() && Bits() == old(Bits())
      ensures old(Dirty()) <= Dirty()
      ensures page.base == Base(a) && auxmap == old(auxmap)[Base(a) := page]
      ensures Base(a) in old(auxmap) ==> page == old(auxmap)[Base(a)] && pages == old(pages)
      ensures Base(a) !in old(auxmap) ==> fresh(page) && pages == old(pages) + {page} && page.status == Empty
      ensures vas == old(vas)
    {
      var p := GetPageOrNull(a);
      if p != null {
        page := p;
      } else {
        PageFits(a);
        page := CreatePage(Base(a));
      }
    }

    /** page_new_empty on a base without a page. */
    method CreatePage(b: int) returns (page: Page)
      requires Valid() && b !in auxmap && Offset(b) == 0 && 0 <= b && b + PAGE_SIZE <= mem.Length
      modifies this, pages, vas
      ensures Valid() && ImagesKept() && Bits() == old(Bits())
      ensures old(Dirty()) <= Dirty()
      ensures page.base == b && auxmap == old(auxmap)[b := page]
      ensures fresh(page) && pages == old(pages) + {page} && page.status == Empty
      ensures vas == old(vas)
    {
      ghost var v := uniform[NOACCESS.Code()];
      page := InstallNew(b, uniform[NOACCESS.Code()], Empty);
      InstalledValid(page, v);
      CacheUpdated(page, v);
      InstalledKeepsBits(page, v);
      InstalledKeepsDirty(page, v);
    }

    // ---- writing permissions -------------------------------------------------------------------

    twostate lemma RepointedCounts(page: Page, new v: VA)
      requires old(PagesOk()) && old(AuxOk()) && old(LiveOk()) && old(StatsOk()) && old(ImagesSorted())
               && Repointed(page, v)
      requires statPages == old(statPages) && statVas == old(statVas) + (if v in old(vas) then 0 else 1)
               && nextId == old(nextId)
      ensures StatsOk() && ImagesSorted()
      ensures old(page.va.refCount) >= 2 ==> LiveOk()
      ensures forall p :: p in pages ==> p.refCount > 0
      ensures forall w :: w in vas && w != old(page.va) ==> w.refCount > 0
    {
      assert v in old(vas) ==> vas == old(vas);
    }

    twostate lemma RepointedKeepsImages(page: Page, new v: VA)
      requires old(PagesOk()) && PagesOk() && Repointed(page, v) && page.holders == {}
      requires v in old(vas) ==> v.vabits == old(v.vabits)
      ensures ImagesKept()
    {
    }

    twostate lemma RepointedKeepsDirty(page: Page, new v: VA)
      requires old(AuxOk()) && AuxOk() && Repointed(page, v) && page.status == InvalidHash
      ensures old(Dirty()) <= Dirty()
    {
      forall b | b in old(Dirty()) ensures b in Dirty() {
        assert old(auxmap)[b] in old(pages);
      }
    }

    twostate lemma RepointedKeepsBits(page: Page, new v: VA)
      requires old(Structure()) && Structure() && Repointed(page, v) && IsCurrent(page)
      requires v in old(vas) ==> v.vabits == old(v.vabits)
      ensures Bits() == old(Bits())[page.base := v.vabits]
    {
    }

    twostate lemma RepointedStructure(page: Page, new v: VA)
      requires old(Structure()) && Repointed(page, v)
      ensures Structure()
    {
      RepointedVas(page, v);
      RepointedRest(page, v);
    }

    lemma VaOwnedAlone(page: Page)
      requires Structure() && page in pages && page.va.refCount == 1
      ensures !page.va.shared && page.va.users == {page}
    {
      assert page in page.va.users;
      assert page.va.users == {page} + (page.va.users - {page});
    }

    /** The step shared by page_prepare_for_write_va and trace_write: the page gets its own copy of its permissions. */
    method Unshare(page: Page)
      requires Valid() && IsCurrent(page) && page.holders == {} && page.status == InvalidHash && page.va.refCount >= 2
      modifies this`vas, this`statVas, page`va, page.va
      ensures Valid() && ImagesKept() && Bits() == old(Bits())
      ensures old(Dirty()) <= Dirty()
      ensures fresh(page.va) && page.va.refCount == 1 && vas == old(vas) + {page.va}
    {
      var v := CloneVa(page);
      RepointedStructure(page, v);
      RepointedContents(page, v);
      RepointedCounts(page, v);
      RepointedKeepsImages(page, v);
      RepointedKeepsBits(page, v);
      RepointedKeepsDirty(page, v);
    }

    method CloneVa(page: Page) returns (v: VA)
      requires page in pages && page.va in vas && |page.va.vabits| == PAGE_SIZE
      modifies this`vas, this`statVas, page`va, page.va
      ensures fresh(v) && page.va == v && Repointed(page, v) && v.vabits == old(page.va.vabits) && v.refCount == 1
      ensures statVas == old(statVas) + 1 && page.status == old(page.status)
      ensures vas == old(vas) + {v}
    {
      page.va.refCount := page.va.refCount - 1;
      page.va.users := page.va.users - {page};
      v := new VA(page.va.vabits, false, {page});
      vas := vas + {v};
      statVas := statVas + 1;
      page.va := v;
    }

    method PrepareForWriteVa(page: Page) returns (q: Page)
      requires Valid() && IsCurrent(page)
      modifies this, pages, vas
      ensures Valid() && ImagesKept() && Bits() == old(Bits())
      ensures old(Dirty()) <= Dirty()
      ensures IsCurrent(q) && q.base == page.base && q in pages && q.va in vas && auxmap.Keys == old(auxmap).Keys
      ensures q.holders == {} && q.status == InvalidHash && q.va.refCount == 1
      ensures old(pages) <= pages && fresh(pages - old(pages)) && fresh(vas - old(vas))
    {
      hide Valid, Structure, Bits, HeldPages, PagesOk, Dirty, AuxOk;
      q := PrepareForWriteData(page);
      CurrentUnheld(q);
      if q.va.refCount >= 2 {
        Unshare(q);
      }
    }

    /** Only the permission array of `page` was rewritten in place. */
    twostate predicate Rewritten(page: Page)
      reads this, pages, vas, page, page.va
    {
      && page in old(pages) && page.va == old(page.va) && page.va in vas && |page.va.vabits| == PAGE_SIZE
      && pages == old(pages) && vas == old(vas) && images == old(images) && auxmap == old(auxmap)
      && statPages == old(statPages) && statVas == old(statVas) && nextId == old(nextId)
      && page.va.refCount == old(page.va.refCount) && page.va.users == old(page.va.users)
      && (forall p :: p in old(pages) ==> unchanged(p))
      && (forall v :: v in old(vas) && v != page.va ==> unchanged(v))
    }

    twostate lemma RewrittenStructure(page: Page)
      requires old(Structure()) && Rewritten(page) && !page.va.shared
      ensures Structure()
    {
    }

    twostate lemma RewrittenContents(page: Page)
      requires old(Structure()) && old(ContentsOk()) && PagesOk() && Rewritten(page) && SameMemory()
      requires page.va.users == {page} && page.holders == {} && page.status == InvalidHash
      ensures ContentsOk()
    {
      forall p | p in pages && p != page ensures ContentOk(p) {
        assert p.va != page.va;
        ContentKept(p);
      }
    }

    twostate lemma RewrittenKeepsImages(page: Page)
      requires old(PagesOk()) && PagesOk() && Rewritten(page) && page.va.users == {page} && page.holders == {}
      ensures ImagesKept()
    {
    }

    twostate lemma RewrittenKeepsBits(page: Page)
      requires old(Structure()) && Structure() && Rewritten(page) && page.va.users == {page} && IsCurrent(page)
      ensures Bits() == old(Bits())[page.base := page.va.vabits]
    {
    }

    twostate lemma RewrittenKeepsDirty(page: Page)
      requires old(AuxOk()) && AuxOk() && Rewritten(page)
      ensures old(Dirty()) <= Dirty()
    {
      forall b | b in old(Dirty()) ensures b in Dirty() {
        assert old(auxmap)[b] in old(pages);
      }
    }

    method FillBits(page: Page, from: nat, n: nat, perm: Perm)
      requires Valid() && IsCurrent(page) && from + n <= PAGE_SIZE
      requires page.holders == {} && page.status == InvalidHash && page.va.refCount == 1
      modifies page.va`vabits
      ensures Valid() && ImagesKept()
      ensures old(Dirty()) <= Dirty()
      ensures Bits() == old(Bits())[page.base := Filled(old(Bits())[page.base], from, n, perm)]
    {
      VaOwnedAlone(page);
      page.va.Fill(from, n, perm);
      RewrittenStructure(page);
      RewrittenContents(page);
      RewrittenKeepsImages(page);
      RewrittenKeepsBits(page);
      RewrittenKeepsDirty(page);
    }

    // ---- permissions of address ranges ---------------------------------------------------------

    method PointTo(page: Page, u: VA)
      requires page in pages && page.va in vas && u in vas && u != page.va
      modifies page`va, page.va, u
      ensures Repointed(page, u) && page.status == old(page.status) && u.vabits == old(u.vabits)
    {
      page.va.refCount := page.va.refCount - 1;
      page.va.users := page.va.users - {page};
      page.va := u;
      u.refCount := u.refCount + 1;
      u.users := u.users + {page};
    }

    ghost predicate LiveExcept(v: VA)
      reads this, pages, vas
    {
      && (forall p :: p in pages ==> p.refCount > 0)
      && (forall w :: w in vas && w != v ==> w.refCount > 0)
    }

    twostate lemma VaFreedCounts(v: VA)
      requires old(LiveExcept(v)) && old(StatsOk()) && old(ImagesSorted()) && VaFreed(v)
      requires statPages == old(statPages) && statVas == old(statVas) - 1 && nextId == old(nextId)
      ensures StatsOk() && LiveOk() && ImagesSorted()
    {
    }

    twostate lemma VaFreedKeeps(v: VA)
      requires old(Structure()) && Structure() && VaFreed(v)
      ensures ImagesKept() && Bits() == old(Bits()) && old(Dirty()) <= Dirty()
    {
      forall b | b in old(Dirty()) ensures b in Dirty() {
        assert old(auxmap)[b] in old(pages);
      }
    }

    /** The second half of va_dispose: frees a permission array that lost its last owner. */
    method FreeVaIfUnused(v: VA)
      requires Structure() && ContentsOk() && StatsOk() && ImagesSorted() && LiveExcept(v) && v in vas
      modifies this`vas, this`statVas
      ensures ValidPages() && ImagesKept() && Bits() == old(Bits()) && vas <= old(vas)
      ensures old(Dirty()) <= Dirty()
    {
      hide Bits, HeldPages, Dirty;
      assert v.refCount >= 0;
      if v.refCount <= 0 {
        vas := vas - {v};
        statVas := statVas - 1;
        VaFreedStructure(v);
        VaFreedContents(v);
        VaFreedCounts(v);
        VaFreedKeeps(v);
      }
    }

    lemma UniformFacts(perm: Perm)
      requires Structure()
      ensures perm.Code() < |uniform| && uniform[perm.Code()] in vas && uniform[perm.Code()].vabits == UniformBits(perm)
    {
      assert PermOfCode(perm.Code()) == perm;
    }

    /** Second half of page_set_va: the page points to the shared array of `perm`. */
    method SetUniformVa(page: Page, perm: Perm)
      requires Valid() && IsCurrent(page) && page.holders == {} && page.status == InvalidHash
      modifies this`vas, this`statVas, page`va, vas
      ensures Valid() && ImagesKept()
      ensures old(Dirty()) <= Dirty()
      ensures Bits() == old(Bits())[page.base := UniformBits(perm)]
      ensures vas <= old(vas)
    {
      hide Bits, HeldPages, Dirty, VasOk, PagesOk, AuxOk, ImagesOk, ContentsOk, LiveOk, StatsOk, ImagesSorted;
      CurrentUnheld(page);
      UniformFacts(perm);
      var u := uniform[perm.Code()];
      var v := page.va;
      if u != v {
        PointTo(page, u);
        RepointedStructure(page, u);
        RepointedContents(page, u);
        RepointedCounts(page, u);
        RepointedKeepsImages(page, u);
        RepointedKeepsBits(page, u);
        RepointedKeepsDirty(page, u);
        FreeVaIfUnused(v);
      } else {
        SameBits(page, UniformBits(perm));
      }
    }

    lemma SameBits(page: Page, bits: seq<Perm>)
      requires Structure() && IsCurrent(page) && page.va.vabits == bits
      ensures Bits() == Bits()[page.base := bits]
    {
    }

    /** One stretch of set_address_range_perms inside a page. */
    method SetPagePart(a: int, n: nat, perm: Perm)
      requires Valid() && 0 <= a < mem.Length && Offset(a) + n <= PAGE_SIZE
      modifies this, pages, vas
      ensures Valid() && ImagesKept() && RangeSet(old(Bits()), Bits(), a, n, perm)
      ensures old(Dirty()) <= Dirty()
      ensures fresh(pages - old(pages)) && fresh(vas - old(vas))
    {
      hide Valid, Structure, Bits, HeldPages, PagesOk, Dirty, AuxOk;
      var page := GetPage(a);
      page := PrepareForWriteVa(page);
      FillBits(page, Offset(a), n, perm);
      FilledRange(old(Bits()), a, n, perm);
    }

    /** A whole page of set_address_range_perms. */
    method SetWholePage(a: int, perm: Perm)
      requires Valid() && 0 <= a < mem.Length && Offset(a) == 0
      modifies this, pages, vas
      ensures Valid() && ImagesKept() && RangeSet(old(Bits()), Bits(), a, PAGE_SIZE, perm)
      ensures old(Dirty()) <= Dirty()
      ensures fresh(pages - old(pages)) && fresh(vas - old(vas))
    {
      hide Valid, Structure, Bits, HeldPages, PagesOk, Dirty, AuxOk;
      var page := GetPage(a);
      page := PrepareForWriteData(page);
      SetUniformVa(page, perm);
      FilledRange(old(Bits()), a, PAGE_SIZE, perm);
      assert UniformBits(perm) == Filled(old(Bits())[a], 0, PAGE_SIZE, perm);
    }

    /** set_address_range_perms. */
    method SetAddressRangePerms(a: int, lenT: nat, perm: Perm)
      requires Valid() && 0 <= a && a + lenT <= mem.Length
      modifies this, pages, vas
      ensures Valid() && ImagesKept() && RangeSet(old(Bits()), Bits(), a, lenT, perm)
      ensures old(Dirty()) <= Dirty()
      ensures fresh(pages - old(pages)) && fresh(vas - old(vas))
    {
      hide Valid, Structure, Bits, HeldPages, PagesOk, Dirty, AuxOk, RangeSet;
      NothingSet(Bits(), a, perm);
      var lenToNext := Base(a) + PAGE_SIZE - a;
      var lenA, lenB := 0, lenT;
      var cur := a;
      if Offset(a) != 0 {
        if lenT <= lenToNext {
          lenA, lenB := lenT, 0;
        } else {
          lenA := lenToNext;
          lenB := lenT - lenA;
        }
        MemoryAligned(a);
        SetPagePart(a, lenA, perm);
        cur := Base(a) + PAGE_SIZE;
      }
      assert lenB > 0 ==> cur + lenB == a + lenT && Offset(cur) == 0;
      while lenB >= PAGE_SIZE
        invariant lenB >= 0 && Valid() && ImagesKept() && old(Dirty()) <= Dirty()
        invariant lenB > 0 ==> cur + lenB == a + lenT && Offset(cur) == 0 && a <= cur
        invariant RangeSet(old(Bits()), Bits(), a, lenT - lenB, perm)
        invariant fresh(pages - old(pages)) && fresh(vas - old(vas))
      {
        ghost var before := Bits();
        SetWholePage(cur, perm);
        RangeSetNext(old(Bits()), before, Bits(), a, lenT - lenB, PAGE_SIZE, perm);
        lenB := lenB - PAGE_SIZE;
        cur := cur + PAGE_SIZE;
      }
      if lenB > 0 {
        ghost var before := Bits();
        SetPagePart(cur, lenB, perm);
        RangeSetNext(old(Bits()), before, Bits(), a, lenT - lenB, lenB, perm);
      }
    }

    lemma MemoryAligned(a: int)
      requires Valid() && Offset(a) != 0 && a <= mem.Length
      ensures a < mem.Length
    {
    }

    // ---- checking permissions --------------------------------------------------------------

    lemma PresentBits(page: Page)
      requires Valid() && IsCurrent(page)
      ensures Bits()[page.base] == page.va.vabits && page in pages && page.va in vas
    {
    }

    lemma AbsentBits(a: int)
      requires Valid() && Base(a) !in auxmap
      ensures PermIn(Bits(), a) == NOACCESS
    {
    }

    /** One stretch of check_address_range_perms inside a page; an absent page fails even an empty stretch. */
    method CheckPart(a: int, n: nat, mask: Perm) returns (ok: bool, first: int)
      requires Valid() && Offset(a) + n <= PAGE_SIZE
      modifies this`cache
      ensures Valid() && ImagesKept() && Bits() == old(Bits()) && old(Dirty()) <= Dirty()
      ensures auxmap == old(auxmap)
      ensures ok <==> Base(a) in auxmap && FirstMiss(Bits(), a, n, mask, a + n)
      ensures !ok && n > 0 ==> a <= first < a + n && FirstMiss(Bits(), a, n, mask, first)
      ensures !ok && n == 0 ==> first == a
    {
      hide Valid, Structure, Bits, HeldPages, PagesOk, Dirty, AuxOk, Base, Offset;
      var page := GetPageOrNull(a);
      if page == null {
        AbsentBits(a);
        return false, a;
      }
      PresentBits(page);
      InPage(Bits(), a, n);
      var off := Offset(a);
      var k := Scan(page.va.vabits, off, n, mask);
      ok, first := k == off + n, Base(a) + k;
      ScannedAddresses(Bits(), a, n, mask, k);
    }

    /** check_address_range_perms: succeeds exactly when every address of the range meets the mask, and otherwise
        returns the first that does not; only an empty range in the middle of an absent page fails as well. */
    method CheckAddressRangePerms(a: int, lenT: nat, mask: Perm) returns (ok: bool, first: int)
      requires Valid()
      modifies this`cache
      ensures Valid() && ImagesKept() && Bits() == old(Bits()) && old(Dirty()) <= Dirty()
      ensures auxmap == old(auxmap)
      ensures ok <==> FirstMiss(Bits(), a, lenT, mask, a + lenT) && !(lenT == 0 && Offset(a) != 0 && Base(a) !in auxmap)
      ensures !ok && lenT > 0 ==> a <= first < a + lenT && FirstMiss(Bits(), a, lenT, mask, first)
    {
      hide Valid, Structure, Bits, HeldPages, PagesOk, Dirty, AuxOk;
      var lenToNext := Base(a) + PAGE_SIZE - a;
      var lenA, lenB := 0, lenT;
      var cur := a;
      first := a;
      if Offset(a) != 0 {
        if lenT <= lenToNext {
          lenA, lenB := lenT, 0;
        } else {
          lenA := lenToNext;
          lenB := lenT - lenA;
        }
        ok, first := CheckPart(a, lenA, mask);
        if !ok {
          return;
        }
        cur := Base(a) + PAGE_SIZE;
      }
      while lenB >= PAGE_SIZE
        invariant lenB >= 0 && Valid() && ImagesKept() && Bits() == old(Bits()) && old(Dirty()) <= Dirty()
                  && auxmap == old(auxmap)
        invariant lenB > 0 ==> cur + lenB == a + lenT && Offset(cur) == 0 && a <= cur
        invariant FirstMiss(Bits(), a, lenT - lenB, mask, a + lenT - lenB)
        invariant lenT == 0 && Offset(a) != 0 ==> Base(a) in auxmap
      {
        ok, first := CheckPart(cur, PAGE_SIZE, mask);
        if !ok {
          return;
        }
        lenB := lenB - PAGE_SIZE;
        cur := cur + PAGE_SIZE;
      }
      if lenB == 0 {
        return true, first;
      }
      ok, first := CheckPart(cur, lenB, mask);
    }

    // ---- client writes -----------------------------------------------------------------------

    /** trace_write: called before the client stores `size` bytes at `addr`. */
    method TraceWrite(addr: int, size: nat) returns (ok: bool)
      requires Valid() && size > 0
      modifies this, pages, vas
      ensures Valid() && ImagesKept() && old(Dirty()) <= Dirty()
      ensures ok <==> forall x :: addr <= x < addr + size ==> PermIn(old(Bits()), x).write
      ensures ok ==> RangeSet(old(Bits()), Bits(), addr, size, DEFINED) && Covers(Dirty(), addr, size)
      ensures !ok ==> RefusedAt(old(Bits()), Bits(), addr, size)
      ensures fresh(pages - old(pages)) && fresh(vas - old(vas))
      decreases size
    {
      hide Valid, Structure, Bits, HeldPages, PagesOk, Dirty, AuxOk, RefusedAt;
      var sz := if Offset(addr) + size > PAGE_SIZE then PAGE_SIZE - Offset(addr) else size;
      ok := TraceWriteInPage(addr, sz);
      if !ok {
        RefusedHere(Bits(), addr, sz, size);
      } else if sz != size {
        ghost var bits1 := Bits();
        ok := TraceWrite(Base(addr) + PAGE_SIZE, size - sz);
        if !ok {
          RefusedLater(old(Bits()), bits1, Bits(), addr, sz, size);
        }
      }
    }

    method TraceWriteInPage(addr: int, sz: nat) returns (ok: bool)
      requires Valid() && sz > 0 && Offset(addr) + sz <= PAGE_SIZE
      modifies this, pages, vas
      ensures Valid() && ImagesKept() && old(Dirty()) <= Dirty()
      ensures ok <==> forall x :: addr <= x < addr + sz ==> PermIn(old(Bits()), x).write
      ensures ok ==> RangeSet(old(Bits()), Bits(), addr, sz, DEFINED) && Covers(Dirty(), addr, sz)
      ensures !ok ==> Bits() == old(Bits())
      ensures fresh(pages - old(pages)) && fresh(vas - old(vas))
    {
      hide Valid, Structure, Bits, HeldPages, PagesOk, Dirty, AuxOk, Base, Offset;
      var p := GetPageOrNull(addr);
      if p == null {
        AbsentBits(addr);
        assert !PermIn(old(Bits()), addr).write;
        return false;
      }
      var page := PrepareForWriteData(p);
      ok := DefineIfWritable(page, addr, sz);
    }

    method DefineIfWritable(page: Page, addr: int, sz: nat) returns (ok: bool)
      requires Valid() && IsCurrent(page) && page.base == Base(addr) && 0 < sz && Offset(addr) + sz <= PAGE_SIZE
      requires page.holders == {} && page.status == InvalidHash && page.base in Dirty()
      modifies this, pages, vas
      ensures Valid() && ImagesKept() && old(Dirty()) <= Dirty()
      ensures ok <==> forall x :: addr <= x < addr + sz ==> PermIn(old(Bits()), x).write
      ensures ok ==> RangeSet(old(Bits()), Bits(), addr, sz, DEFINED) && Covers(Dirty(), addr, sz)
      ensures !ok ==> Bits() == old(Bits())
      ensures pages == old(pages) && fresh(vas - old(vas))
    {
      hide Valid, Structure, Bits, HeldPages, PagesOk, Dirty, AuxOk, Base, Offset;
      PresentBits(page);
      var offset := Offset(addr);
      var flag := AndOf(page.va.vabits, offset, sz);
      FlagMeaning(Bits(), addr, sz, flag);
      CoversPart(Dirty(), addr, sz);
      ok := flag.write;
      if flag == UNDEFINED {
        DefinePart(page, addr, sz);
      }
    }

    /** The part of trace_write that turns written bytes into defined ones. */
    method DefinePart(page: Page, addr: int, sz: nat)
      requires Valid() && IsCurrent(page) && page.base == Base(addr) && Offset(addr) + sz <= PAGE_SIZE
      requires page.holders == {} && page.status == InvalidHash
      modifies this, pages, vas
      ensures Valid() && ImagesKept() && old(Dirty()) <= Dirty()
      ensures RangeSet(old(Bits()), Bits(), addr, sz, DEFINED)
      ensures pages == old(pages) && fresh(vas - old(vas))
    {
      hide Valid, Structure, Bits, HeldPages, PagesOk, Dirty, AuxOk, Base, Offset;
      CurrentUnheld(page);
      if page.va.refCount >= 2 {
        Unshare(page);
      }
      FillBits(page, Offset(addr), sz, DEFINED);
      FilledRange(old(Bits()), addr, sz, DEFINED);
    }

    // ---- changes of the client memory ------------------------------------------------------

    /** Only bytes changed, and only in writable pages or where nothing is readable. */
    twostate predicate BytesChanged()
      reads this, pages, vas, mem
      requires Structure()
    {
      && unchanged(this) && (forall p :: p in pages ==> unchanged(p)) && (forall v :: v in vas ==> unchanged(v))
      && forall x :: 0 <= x < mem.Length && mem[x] != old(mem[x]) ==> Base(x) in Dirty() || !PermIn(Bits(), x).read
    }

    /** The readable bytes of a page that is not prepared for writing stay as they are. */
    twostate lemma {:induction false} BytesChangedSlice(p: Page)
      requires Structure() && BytesChanged() && p in pages && IsCurrent(p) && p.base !in Dirty()
      ensures |p.va.vabits| == |Slice(p.base)| == |old(Slice(p.base))| == PAGE_SIZE
      ensures Agree(p.va.vabits, old(Slice(p.base)), Slice(p.base))
    {
      hide HeldPages, UniformOk, ImagesOk, UniformBits;
      forall j | 0 <= j < |p.va.vabits| && p.va.vabits[j].read ensures old(Slice(p.base))[j] == Slice(p.base)[j] {
        BaseUnique(p.base + j, p.base);
        assert PermIn(Bits(), p.base + j) == BitsAt(p.base)[j];
      }
    }

    twostate lemma {:induction false} BytesChangedContent(p: Page)
      requires Structure() && BytesChanged() && p in pages && IsCurrent(p) && old(ContentOk(p))
      ensures ContentOk(p)
    {
      if p.base !in Dirty() {
        BytesChangedSlice(p);
        ReadableAgree(p.va.vabits, old(Slice(p.base)), Slice(p.base));
        hide Structure, VasOk, PagesOk, AuxOk, UniformOk, ImagesOk, Slice, Bits, Agree, Digest, Unreadable;
      }
    }

    twostate lemma BytesChangedValid()
      requires old(Valid()) && Structure() && BytesChanged()
      ensures Valid() && ImagesKept() && Bits() == old(Bits()) && Dirty() == old(Dirty())
    {
      forall p | p in pages ensures ContentOk(p) {
        if IsCurrent(p) {
          BytesChangedContent(p);
        }
      }
    }

    /** A store into pages that were prepared for writing. */
    method StoreBytes(a: int, bytes: seq<Byte>)
      requires Valid() && 0 <= a && a + |bytes| <= mem.Length && Covers(Dirty(), a, |bytes|)
      modifies mem
      ensures Valid() && ImagesKept() && Bits() == old(Bits()) && Dirty() == old(Dirty())
      ensures mem[..] == Stored(old(mem[..]), a, bytes)
    {
      hide Valid, Structure, Bits, HeldPages, PagesOk, Dirty, AuxOk, Base, Offset;
      WriteBytes(mem, a, bytes);
      BytesChangedValid();
    }

    /** fill_undefined_memory. */
    method FillUndefinedMemory(addr: int, size: nat)
      requires Valid() && 0 <= addr && addr + size <= mem.Length
      modifies this, pages, vas, mem
      ensures Valid() && ImagesKept() && Bits() == old(Bits()) && old(Dirty()) <= Dirty()
      ensures ZeroedUndefined(old(mem[..]), mem[..], old(Bits()), addr, size)
      ensures fresh(pages - old(pages)) && fresh(vas - old(vas))
    {
      hide Valid, Structure, Bits, HeldPages, PagesOk, Dirty, AuxOk, Base, Offset, ZeroedUndefined;
      if size == 0 {
        ZeroedNone(old(mem[..]), old(Bits()), addr);
        return;
      }
      var page := GetPage(addr);
      ZeroedNone(old(mem[..]), old(Bits()), addr);
      var i := 0;
      while true
        invariant 0 <= i < size && Valid() && ImagesKept() && Bits() == old(Bits()) && old(Dirty()) <= Dirty()
        invariant IsCurrent(page) && page.base == Base(addr + i)
        invariant ZeroedUndefined(old(mem[..]), mem[..], old(Bits()), addr, i)
        invariant fresh(pages - old(pages)) && fresh(vas - old(vas))
        decreases size - i
      {
        ghost var m := mem[..];
        ZeroIfUndefined(page, addr + i);
        ZeroedOneMore(old(mem[..]), m, mem[..], old(Bits()), addr, i);
        i := i + 1;
        if i == size {
          return;
        }
        if Offset(addr + i) == 0 {
          page := GetPage(addr + i);
        } else {
          SamePage(addr + i);
        }
      }
    }

    method ZeroIfUndefined(page: Page, addr: int)
      requires Valid() && 0 <= addr < mem.Length && IsCurrent(page) && page.base == Base(addr)
      modifies mem
      ensures Valid() && ImagesKept() && Bits() == old(Bits()) && Dirty() == old(Dirty()) && IsCurrent(page)
      ensures mem[..] == if PermIn(Bits(), addr) == UNDEFINED then old(mem[..])[addr := 0] else old(mem[..])
    {
      hide Valid, Structure, Bits, HeldPages, PagesOk, Dirty, AuxOk, Base, Offset;
      PresentBits(page);
      if page.va.vabits[Offset(addr)] == UNDEFINED {
        ZeroByte(addr);
      }
    }

    method ZeroByte(addr: int)
      requires Valid() && 0 <= addr < mem.Length && !PermIn(Bits(), addr).read
      modifies mem
      ensures Valid() && ImagesKept() && Bits() == old(Bits()) && Dirty() == old(Dirty())
      ensures mem[..] == old(mem[..])[addr := 0]
    {
      hide Valid, Structure, Bits, HeldPages, PagesOk, Dirty, AuxOk, Base, Offset;
      mem[addr] := 0;
      BytesChangedValid();
    }

    // ---- commands of the controller and of the client --------------------------------------

    /** trace_read: a load is refused when its first byte is not accessible. When that byte is undefined, the undefined
        bytes of the range become 0, and the range must not go on behind the page. */
    method TraceRead(addr: int, size: nat) returns (r: Loading)
      requires Valid() && size > 0 && 0 <= addr && addr + size <= mem.Length
      modifies this, pages, vas, mem
      ensures Valid() && ImagesKept() && Bits() == old(Bits()) && old(Dirty()) <= Dirty()
      ensures r.Refused? <==> PermIn(old(Bits()), addr) == NOACCESS
      ensures r.BeyondPage? <==> PermIn(old(Bits()), addr) == UNDEFINED && Offset(addr) + size > PAGE_SIZE
      ensures if r.Loaded? && PermIn(old(Bits()), addr) == UNDEFINED
              then ZeroedUndefined(old(mem[..]), mem[..], old(Bits()), addr, size) else mem[..] == old(mem[..])
      ensures fresh(pages - old(pages)) && fresh(vas - old(vas))
    {
      hide Valid, Structure, Bits, HeldPages, PagesOk, Dirty, AuxOk, Base, Offset, ZeroedUndefined;
      var page := GetPage(addr);
      PresentBits(page);
      var perm := page.va.vabits[Offset(addr)];
      if perm.read {
        return Loaded;
      }
      if perm == NOACCESS {
        return Refused;
      }
      if Offset(addr) + size > PAGE_SIZE {
        return BeyondPage;
      }
      ZeroedNone(old(mem[..]), old(Bits()), addr);
      for i := 0 to size
        invariant Valid() && ImagesKept() && Bits() == old(Bits()) && old(Dirty()) <= Dirty()
        invariant IsCurrent(page) && page.base == Base(addr)
        invariant ZeroedUndefined(old(mem[..]), mem[..], old(Bits()), addr, i)
        invariant fresh(pages - old(pages)) && fresh(vas - old(vas))
      {
        ghost var m := mem[..];
        BaseUnique(addr + i, Base(addr));
        ZeroIfUndefined(page, addr + i);
        ZeroedOneMore(old(mem[..]), m, mem[..], old(Bits()), addr, i);
      }
      r := Loaded;
    }

    /** A store of the client: refused when some byte is not writable, otherwise the range becomes
        defined and holds the new bytes. */
    method ClientWrite(addr: int, bytes: seq<Byte>) returns (ok: bool)
      requires Valid() && |bytes| > 0 && 0 <= addr && addr + |bytes| <= mem.Length
      modifies this, pages, vas, mem
      ensures Valid() && ImagesKept()
      ensures ok <==> forall x :: addr <= x < addr + |bytes| ==> PermIn(old(Bits()), x).write
      ensures ok ==>
          RangeSet(old(Bits()), Bits(), addr, |bytes|, DEFINED) && mem[..] == Stored(old(mem[..]), addr, bytes)
      ensures !ok ==> RefusedAt(old(Bits()), Bits(), addr, |bytes|) && mem[..] == old(mem[..])
      ensures fresh(pages - old(pages)) && fresh(vas - old(vas))
    {
      hide Valid, Structure, Bits, HeldPages, PagesOk, Dirty, AuxOk, Base, Offset, RefusedAt;
      ok := TraceWrite(addr, |bytes|);
      if ok {
        StoreBytes(addr, bytes);
      }
    }

    /** prepare_for_write. */
    method PrepareForWrite(addr: int, size: nat)
      requires Valid() && 0 <= addr && addr + size <= mem.Length
      modifies this, pages, vas
      ensures Valid() && ImagesKept() && Bits() == old(Bits()) && old(Dirty()) <= Dirty()
      ensures Covers(Dirty(), addr, size)
      ensures fresh(pages - old(pages)) && fresh(vas - old(vas))
    {
      hide Valid, Structure, Bits, HeldPages, PagesOk, Dirty, AuxOk, CoversUpTo;
      if size == 0 {
        return;
      }
      var lastPage := Base(addr + size - 1);
      var cur := Base(addr);
      CoversNone(Dirty(), addr, size);
      while cur <= lastPage
        invariant Offset(cur) == 0 && Base(addr) <= cur <= lastPage + PAGE_SIZE
        invariant Valid() && ImagesKept() && Bits() == old(Bits()) && old(Dirty()) <= Dirty()
        invariant CoversUpTo(Dirty(), addr, size, cur)
        invariant fresh(pages - old(pages)) && fresh(vas - old(vas))
        decreases lastPage + PAGE_SIZE - cur
      {
        ghost var before := Dirty();
        PreparePage(cur);
        CoversMore(before, Dirty(), addr, size, cur);
        cur := cur + PAGE_SIZE;
      }
      CoversAll(Dirty(), addr, size, cur);
    }

    method PreparePage(base: int)
      requires Valid() && 0 <= base < mem.Length && Offset(base) == 0
      modifies this, pages, vas
      ensures Valid() && ImagesKept() && Bits() == old(Bits()) && old(Dirty()) <= Dirty() && base in Dirty()
      ensures fresh(pages - old(pages)) && vas == old(vas)
    {
      hide Valid, Structure, Bits, HeldPages, PagesOk, Dirty, AuxOk;
      var page := GetPage(base);
      page := PrepareForWriteData(page);
    }

    /** The WRITE commands of the controller: with `check`, a range that is not writable throughout is refused. */
    method ExternWrite(addr: int, bytes: seq<Byte>, check: bool) returns (ok: bool)
      requires Valid() && 0 <= addr && addr + |bytes| <= mem.Length
      modifies this, pages, vas, mem
      ensures Valid() && ImagesKept()
      ensures |bytes| > 0 ==> (ok <==> !check || FirstMiss(old(Bits()), addr, |bytes|, WRITE_MASK, addr + |bytes|))
      ensures ok ==>
          RangeSet(old(Bits()), Bits(), addr, |bytes|, DEFINED) && mem[..] == Stored(old(mem[..]), addr, bytes)
      ensures !ok ==> Bits() == old(Bits()) && mem[..] == old(mem[..])
      ensures fresh(pages - old(pages)) && fresh(vas - old(vas))
    {
      hide Valid, Structure, Bits, HeldPages, PagesOk, Dirty, AuxOk, Base, Offset;
      if check {
        var first;
        ok, first := CheckAddressRangePerms(addr, |bytes|, WRITE_MASK);
        if !ok {
          return;
        }
      }
      WriteUnchecked(addr, bytes);
      ok := true;
    }

    method WriteUnchecked(addr: int, bytes: seq<Byte>)
      requires Valid() && 0 <= addr && addr + |bytes| <= mem.Length
      modifies this, pages, vas, mem
      ensures Valid() && ImagesKept()
      ensures RangeSet(old(Bits()), Bits(), addr, |bytes|, DEFINED) && mem[..] == Stored(old(mem[..]), addr, bytes)
      ensures fresh(pages - old(pages)) && fresh(vas - old(vas))
    {
      hide Valid, Structure, Bits, HeldPages, PagesOk, Dirty, AuxOk, Base, Offset;
      PrepareForWrite(addr, |bytes|);
      SetAddressRangePerms(addr, |bytes|, DEFINED);
      StoreBytes(addr, bytes);
    }

    /** The LOCK command: undefined bytes are zeroed, then the range becomes read-only. */
    method Lock(addr: int, size: nat)
      requires Valid() && 0 <= addr && addr + size <= mem.Length
      modifies this, pages, vas, mem
      ensures Valid() && ImagesKept()
      ensures RangeSet(old(Bits()), Bits(), addr, size, READONLY)
      ensures ZeroedUndefined(old(mem[..]), mem[..], old(Bits()), addr, size)
      ensures fresh(pages - old(pages)) && fresh(vas - old(vas))
    {
      hide Valid, Structure, Bits, HeldPages, PagesOk, Dirty, AuxOk, Base, Offset;
      FillUndefinedMemory(addr, size);
      SetAddressRangePerms(addr, size, READONLY);
    }

    /** The UNLOCK command. */
    method Unlock(addr: int, size: nat)
      requires Valid() && 0 <= addr && addr + size <= mem.Length
      modifies this, pages, vas
      ensures Valid() && ImagesKept()
      ensures RangeSet(old(Bits()), Bits(), addr, size, DEFINED)
      ensures fresh(pages - old(pages)) && fresh(vas - old(vas))
    {
      SetAddressRangePerms(addr, size, DEFINED);
    }

    // ---- SAVE ----------------------------------------------------------------------------------

    /** Fresh storage for the content of a page. */
    static method NewData() returns (data: seq<Byte>)
      ensures |data| == PAGE_SIZE
    {
      data := seq(PAGE_SIZE, _ => 0);
    }

    /** The stored content of `page` is what the client memory holds where the page is readable. */
    ghost predicate StoredNow(page: Page)
      reads this, page, page.va, mem
    {
      && (page.data.None? ==> Unreadable(page.va.vabits) && Blank(page))
      && (page.data.Some? ==> Agree(page.va.vabits, page.data.value, Slice(page.base)))
    }

    /** memimage_save_page_content. */
    method SavePageContent(page: Page)
      requires |uniform| == 4 && (forall i :: 0 <= i < 4 ==> uniform[i].vabits == UniformBits(PermOfCode(i)))
      requires |page.va.vabits| == PAGE_SIZE && 0 <= page.base && page.base + PAGE_SIZE <= mem.Length
      requires page.data.Some? ==> |page.data.value| == PAGE_SIZE
      modifies page`data
      ensures StoredNow(page) && (page.data.Some? ==> |page.data.value| == PAGE_SIZE)
    {
      var va := page.va;
      if va == uniform[NOACCESS.Code()] {
        assert PermOfCode(NOACCESS.Code()) == NOACCESS;
        return;
      }
      if page.data == None {
        var data := NewData();
        page.data := Some(data);
      }
      if va == uniform[DEFINED.Code()] || va == uniform[READONLY.Code()] {
        page.data := Some(mem[page.base..page.base + PAGE_SIZE]);
        return;
      }
      var dst := page.data.value;
      var j := 0;
      while j < PAGE_SIZE
        invariant 0 <= j <= PAGE_SIZE && |dst| == PAGE_SIZE
        invariant forall k :: 0 <= k < j && va.vabits[k].read ==> dst[k] == mem[page.base + k]
      {
        if va.vabits[j].read {
          dst := dst[j := mem[page.base + j]];
        }
        j := j + 1;
      }
      page.data := Some(dst);
    }

    lemma CurrentFits(page: Page)
      requires Valid() && IsCurrent(page)
      ensures |page.va.vabits| == PAGE_SIZE && 0 <= page.base && page.base + PAGE_SIZE <= mem.Length
      ensures page.data.Some? ==> |page.data.value| == PAGE_SIZE
      ensures |uniform| == 4 && forall i :: 0 <= i < 4 ==> uniform[i].vabits == UniformBits(PermOfCode(i))
      ensures page.holders != {} ==> StoredNow(page)
      ensures page.refCount < 2 <==> page.holders == {}
    {
      CurrentUnheld(page);
    }

    twostate lemma HeldCounts(page: Page, new id: nat)
      requires old(LiveOk()) && old(StatsOk()) && old(ImagesSorted()) && Held(page, id)
      requires forall p :: p in old(pages) && id in old(p.holders) ==> p.base < page.base
      requires old(ImagesOk())
      requires statPages == old(statPages) && statVas == old(statVas) && nextId == old(nextId)
      ensures LiveOk() && StatsOk() && ImagesSorted()
    {
    }

    /** The reference that state `id` takes on `page`. */
    method Hold(page: Page, id: nat)
      requires Valid() && IsCurrent(page) && page in pages && id in images && StoredNow(page)
      requires forall p :: p in pages && id in p.holders ==> p.base < page.base
      modifies this`images, page`refCount, page`holders
      ensures Valid() && Held(page, id)
    {
      hide VasOk, AuxOk, ContentsOk, LiveOk, StatsOk, ImagesSorted, UniformOk;
      assert page !in images[id].pages;
      page.refCount := page.refCount + 1;
      page.holders := page.holders + {id};
      images := images[id := MemoryImage(images[id].pages + [page], images[id].blocks)];
      HeldStructure(page, id);
      HeldContents(page, id);
      HeldCounts(page, id);
    }

    /** When the pages of a saved state are all current and the remaining current pages have no
        permissions, the client sees exactly the saved state. */
    lemma SavedIsCurrent(id: nat)
      requires Valid() && id in images
      requires forall p :: p in images[id].pages ==> IsCurrent(p)
      requires forall b :: b in auxmap ==> auxmap[b] in images[id].pages || BitsAt(b) == UniformBits(NOACCESS)
      ensures SavedView(id) == View()
    {
      forall a: int | 0 <= a < mem.Length ensures SavedView(id)[a] == View()[a] {
        SavedCellIsCurrent(id, a);
      }
    }

    lemma SavedCellIsCurrent(id: nat, a: int)
      requires Valid() && id in images && 0 <= a < mem.Length
      requires forall p :: p in images[id].pages ==> IsCurrent(p)
      requires forall b :: b in auxmap ==> auxmap[b] in images[id].pages || BitsAt(b) == UniformBits(NOACCESS)
      ensures CellOf(images[id].pages, HeldPages(), a) == Cell(PermIn(Bits(), a),
                                                               if PermIn(Bits(), a).read then Some(mem[a]) else None)
    {
      var p := FindPage(images[id].pages, Base(a));
      if p != null {
        assert IsCurrent(p) && id in p.holders;
        assert ContentOk(p);
        assert Bits()[p.base] == p.va.vabits;
        if p.va.vabits[Offset(a)].read {
          assert Slice(p.base)[Offset(a)] == mem[a];
        }
      } else {
        assert BitsAt(Base(a)) == UniformBits(NOACCESS);
        assert PermIn(Bits(), a) == NOACCESS;
      }
    }

    twostate lemma {:induction false} HeldBits(page: Page, new id: nat)
      requires old(Structure()) && Structure() && Held(page, id)
      ensures Bits() == old(Bits())
    {
      hide HeldPages, ImagesOk, UniformOk, UniformBits;
    }

    twostate lemma {:induction false} HeldKeeps(page: Page, new id: nat)
      requires old(Structure()) && Structure() && Held(page, id)
      ensures Bits() == old(Bits())
      ensures SubMap(old(HeldPages()), HeldPages())
    {
      HeldBits(page, id);
      hide Bits, BitsAt, ImagesOk, UniformOk, UniformBits;
    }

    twostate lemma NewImageStructure(id: nat)
      requires old(Structure()) && old(ImagesSorted()) && OnlyImageAdded(id)
      ensures Structure() && ImagesSorted()
    {
      assert id !in old(images);
      assert forall k :: k in old(images) ==> k in images && images[k] == old(images)[k];
    }

    twostate lemma NewImageContents(id: nat)
      requires old(PagesOk()) && old(ContentsOk()) && PagesOk() && OnlyImageAdded(id)
      ensures ContentsOk()
    {
      forall p | p in pages ensures ContentOk(p) {
        ContentKept(p);
      }
    }

    /** A state with an empty image enters the state table. */
    twostate lemma NewImageValid(id: nat)
      requires old(Valid()) && OnlyImageAdded(id)
      ensures Valid() && Bits() == old(Bits()) && HeldPages() == old(HeldPages())
    {
      NewImageStructure(id);
      NewImageContents(id);
      NewImageKeeps(id);
    }

    twostate lemma NewImageKeeps(id: nat)
      requires old(Structure()) && Structure() && OnlyImageAdded(id)
      ensures Bits() == old(Bits()) && HeldPages() == old(HeldPages())
    {
    }

    twostate predicate OnlyImageAdded(id: nat)
      reads this, pages, vas, mem
    {
      && pages == old(pages) && SameVas() && auxmap == old(auxmap) && cache == old(cache) && SameMemory()
      && statPages == old(statPages) && statVas == old(statVas) && nextId == id + 1 && id == old(nextId)
      && (forall p :: p in pages ==> unchanged(p))
      && images == old(images)[id := ImageIn(images, id)] && ImageIn(images, id).pages == []
    }

    /** One page of memimage_save. */
    method SavePage(b: int, id: nat)
      requires Valid() && b in auxmap && id in images
      requires forall p :: p in pages && id in p.holders ==> p.base < b
      modifies this`images, pages
      ensures Valid() && Bits() == old(Bits()) && SubMap(old(HeldPages()), HeldPages())
      ensures images == old(images)[id := MemoryImage(old(images)[id].pages + [auxmap[b]], old(images)[id].blocks)]
    {
      hide Valid, Structure, PagesOk, AuxOk, Bits, HeldPages, StoredNow;
      PageOfBase(b);
      var page := auxmap[b];
      CurrentFits(page);
      if page.refCount < 2 {
        StoreContent(page);
      }
      CurrentUnheld(page);
      HoldCurrent(page, id);
    }

    method HoldCurrent(page: Page, id: nat)
      requires Valid() && IsCurrent(page) && page in pages && id in images && StoredNow(page)
      requires forall p :: p in pages && id in p.holders ==> p.base < page.base
      modifies this`images, page`refCount, page`holders
      ensures Valid() && Bits() == old(Bits()) && SubMap(old(HeldPages()), HeldPages())
      ensures images == old(images)[id := MemoryImage(old(images)[id].pages + [page], old(images)[id].blocks)]
    {
      hide Valid, Structure, PagesOk, AuxOk, Bits, HeldPages, StoredNow;
      Hold(page, id);
      HeldKeeps(page, id);
    }

    lemma PageOfBase(b: int)
      requires Valid() && b in auxmap
      ensures auxmap[b] in pages && IsCurrent(auxmap[b]) && auxmap[b].base == b
    {
    }

    method StoreContent(page: Page)
      requires Valid() && IsCurrent(page) && page in pages && page.holders == {}
      modifies page`data
      ensures Valid() && StoredNow(page) && Bits() == old(Bits()) && HeldPages() == old(HeldPages())
    {
      CurrentFits(page);
      SavePageContent(page);
      MarkedValid(page);
      MarkedKeepsImages(page);
      MarkedKeepsBits(page);
    }

    /** Adds the image of a new state, still without pages. */
    method OpenImage(blocks: seq<Block>) returns (id: nat)
      requires Valid()
      modifies this`images, this`nextId
      ensures Valid() && id == old(nextId) && id !in old(images)
      ensures images == old(images)[id := MemoryImage([], blocks)]
      ensures Bits() == old(Bits()) && HeldPages() == old(HeldPages())
      ensures forall p :: p in pages ==> id !in p.holders
    {
      id := nextId;
      nextId := nextId + 1;
      images := images[id := MemoryImage([], blocks)];
      NewImageValid(id);
    }

    /** The SAVE command: the new state stores exactly what the client sees now, and no other state changes. */
    method SaveState() returns (id: nat)
      requires Valid()
      modifies this`images, this`nextId, pages
      ensures Valid() && id == old(nextId) && id !in old(images) && images.Keys == old(images).Keys + {id}
      ensures SavedView(id) == View() == old(View()) && images[id].blocks == heap.blocks
      ensures forall k :: k in old(images) ==> images[k] == old(images)[k] && SavedView(k) == old(SavedView(k))
    {
      hide Valid, Structure, PagesOk, AuxOk, Bits, HeldPages, ViewOf, SavedView, View;
      id := OpenImage(heap.blocks);
      var keys := InOrder(auxmap.Keys);
      HoldPages(id, keys);
      AllSaved(id, keys);
      SavedIsCurrent(id);
      ViewKept();
      forall k | k in old(images) ensures SavedView(k) == old(SavedView(k)) {
        StillSaved(k);
      }
    }

    twostate lemma {:induction false} ViewKept()
      requires old(Structure()) && Structure() && Bits() == old(Bits()) && SameMemory()
      ensures View() == old(View())
    {
      hide Structure, Bits;
      forall a: int | 0 <= a < mem.Length ensures View()[a] == old(View())[a] {
        assert mem[..][a] == old(mem[..])[a];
      }
    }

    /** The loop of the SAVE command: the new state takes hold of the current pages, in the order of their bases. */
    method HoldPages(id: nat, keys: seq<int>)
      requires Valid() && id in images && images[id].pages == [] && Ordered(keys, auxmap.Keys)
      requires forall p :: p in pages ==> id !in p.holders
      modifies this`images, pages
      ensures Valid() && Bits() == old(Bits()) && SubMap(old(HeldPages()), HeldPages())
      ensures id in images && images == old(images)[id := images[id]] && images[id].blocks == old(images)[id].blocks
      ensures |images[id].pages| == |keys| && PagesAt(auxmap, keys, images[id].pages)
    {
      hide Valid, Structure, PagesOk, AuxOk, Bits, HeldPages;
      var n := 0;
      while n < |keys|
        invariant 0 <= n <= |keys| && Valid() && Bits() == old(Bits()) && SubMap(old(HeldPages()), HeldPages())
        invariant id in images && images == old(images)[id := images[id]] && images[id].blocks == old(images)[id].blocks
        invariant |images[id].pages| == n && PagesAt(auxmap, keys, images[id].pages)
      {
        SavedBelow(id, keys, n);
        SavePage(keys[n], id);
        n := n + 1;
      }
    }

    lemma SavedBelow(id: nat, keys: seq<int>, n: nat)
      requires Valid() && id in images && n < |keys| && |images[id].pages| == n
      requires Ordered(keys, auxmap.Keys) && PagesAt(auxmap, keys, images[id].pages)
      ensures forall p :: p in pages && id in p.holders ==> p.base < keys[n]
    {
    }

    lemma AllSaved(id: nat, keys: seq<int>)
      requires Valid() && id in images && |images[id].pages| == |keys|
      requires Ordered(keys, auxmap.Keys) && PagesAt(auxmap, keys, images[id].pages)
      ensures forall p :: p in images[id].pages ==> IsCurrent(p)
      ensures forall b :: b in auxmap ==> auxmap[b] in images[id].pages
    {
      forall b | b in auxmap ensures auxmap[b] in images[id].pages {
        var k :| 0 <= k < |keys| && keys[k] == b;
        assert images[id].pages[k] == auxmap[b];
      }
    }

    twostate lemma StillSaved(k: nat)
      requires old(Structure()) && Structure() && k in old(images) && k in images && images[k] == old(images)[k]
      requires SubMap(old(HeldPages()), HeldPages())
      ensures SavedView(k) == old(SavedView(k))
    {
      ViewFrame(images[k].pages, old(HeldPages()), HeldPages(), mem.Length);
    }

    // ---- states of other clients -----------------------------------------------------------------

    /** `q` is a new page with permission array `v`, held by state `id` only. */
    twostate predicate Adopted(new q: Page, new v: VA, id: nat)
      reads this, pages, vas, q, v
    {
      && q !in old(pages) && q.refCount == 1 && q.holders == {id} && q.va == v && q.status == InvalidHash
      && q.data.Some? && |q.data.value| == PAGE_SIZE && q.base in old(auxmap)
      && pages == old(pages) + {q} && vas == old(vas) + {v} && auxmap == old(auxmap) && cache == old(cache)
      && id in old(images)
      && images == old(images)[id := MemoryImage(old(images)[id].pages + [q], old(images)[id].blocks)]
      && (forall p :: p in old(pages) ==> unchanged(p))
      && (forall w :: w in old(vas) && w != v ==> unchanged(w))
      && (forall w :: w in old(vas) && w == v ==>
            w.vabits == old(w.vabits) && w.refCount == old(w.refCount) + 1 && w.users == old(w.users) + {q})
      && (v !in old(vas) ==> |v.vabits| == PAGE_SIZE && v.refCount == 1 && !v.shared && v.users == {q})
    }

    twostate lemma AdoptedVas(new q: Page, new v: VA, id: nat)
      requires old(VasOk()) && Adopted(q, v, id)
      ensures VasOk()
    {
      forall w | w in vas ensures |w.vabits| == PAGE_SIZE && w.refCount == |w.users| + (if w.shared then 1 else 0) {
        if w in old(vas) && w == v {
          assert q !in old(w.users);
          assert |old(w.users) + {q}| == |old(w.users)| + 1;
        }
      }
      forall w, p | w in vas && p in w.users ensures p in pages && p.va == w {
        if p != q {
          assert p in old(w.users) && unchanged(p);
        }
      }
    }

    twostate lemma AdoptedPages(new q: Page, new v: VA, id: nat)
      requires old(PagesOk()) && old(AuxOk()) && Adopted(q, v, id)
      ensures PagesOk() && !IsCurrent(q)
    {
    }

    twostate lemma AdoptedRest(new q: Page, new v: VA, id: nat)
      requires old(AuxOk()) && old(ImagesOk()) && old(UniformOk()) && Adopted(q, v, id)
      ensures AuxOk() && ImagesOk() && UniformOk()
    {
    }

    twostate lemma {:induction false} AdoptedStructure(new q: Page, new v: VA, id: nat)
      requires old(Structure()) && Adopted(q, v, id)
      ensures Structure() && !IsCurrent(q)
    {
      hide UniformBits;
      AdoptedVas(q, v, id);
      AdoptedPages(q, v, id);
      AdoptedRest(q, v, id);
    }

    twostate lemma AdoptedContents(new q: Page, new v: VA, id: nat)
      requires old(PagesOk()) && old(ContentsOk()) && PagesOk() && Adopted(q, v, id) && SameMemory() && !IsCurrent(q)
      ensures ContentsOk()
    {
      forall p | p in old(pages) ensures ContentOk(p) {
        ContentKept(p);
      }
    }

    twostate lemma AdoptedCounts(new q: Page, new v: VA, id: nat)
      requires old(StatsOk()) && old(LiveOk()) && old(ImagesSorted()) && old(ImagesOk()) && Adopted(q, v, id)
      requires forall p :: p in old(images)[id].pages ==> p.base < q.base
      requires statPages == old(statPages) + 1 && statVas == old(statVas) + (if v in old(vas) then 0 else 1)
               && nextId == old(nextId)
      ensures StatsOk() && LiveOk() && ImagesSorted()
    {
      assert v in old(vas) ==> vas == old(vas);
    }

    twostate lemma {:induction false} AdoptedBits(new q: Page, new v: VA, id: nat)
      requires old(Structure()) && Structure() && Adopted(q, v, id)
      ensures Bits() == old(Bits())
    {
      hide HeldPages, ImagesOk, UniformOk, UniformBits;
    }

    twostate lemma {:induction false} AdoptedKeeps(new q: Page, new v: VA, id: nat)
      requires old(Structure()) && Structure() && Adopted(q, v, id)
      ensures Bits() == old(Bits())
      ensures SubMap(old(HeldPages()), HeldPages())
      ensures q in HeldPages() && HeldPages()[q] == PageCopy(v.vabits, q.data)
    {
      AdoptedBits(q, v, id);
      hide Bits, BitsAt, ImagesOk, UniformOk, UniformBits;
    }

    /** A page that comes from another client belongs to state `id` alone; its base gets a page here, too. A uniform
        page shares its permission array. */
    method AdoptPage(id: nat, c: PageContent) returns (q: Page)
      requires Valid() && id in images && Receivable([c], mem.Length)
      requires forall p :: p in images[id].pages ==> p.base < c.base
      modifies this, pages, vas
      ensures Valid() && Bits() == old(Bits()) && SubMap(old(HeldPages()), HeldPages())
      ensures images == old(images)[id := MemoryImage(old(images)[id].pages + [q], old(images)[id].blocks)]
      ensures q.base == c.base && q in HeldPages() && HeldPages()[q] == PageCopy(c.bits, Some(c.data))
      ensures fresh(pages - old(pages)) && fresh(vas - old(vas))
    {
      hide Valid, Structure, PagesOk, AuxOk, Bits, HeldPages;
      assert c == [c][0];
      var current := GetPage(c.base);
      q := PutPulled(id, c);
    }

    method PutPulled(id: nat, c: PageContent) returns (q: Page)
      requires Valid() && id in images && c.base in auxmap && |c.bits| == PAGE_SIZE && |c.data| == PAGE_SIZE
      requires forall p :: p in images[id].pages ==> p.base < c.base
      modifies this`images, this`pages, this`vas, this`statPages, this`statVas, vas
      ensures Valid() && Bits() == old(Bits()) && SubMap(old(HeldPages()), HeldPages())
      ensures images == old(images)[id := MemoryImage(old(images)[id].pages + [q], old(images)[id].blocks)]
      ensures q.base == c.base && q in HeldPages() && HeldPages()[q] == PageCopy(c.bits, Some(c.data))
      ensures fresh(q) && pages == old(pages) + {q} && fresh(vas - old(vas)) && old(vas) <= vas
    {
      hide Valid, Structure, PagesOk, AuxOk, Bits, HeldPages, UniformBits;
      UniformsThere();
      var v := UniformFor(c.bits);
      if v != null {
        q := PutShared(id, c, v);
      } else {
        q := PutOwn(id, c);
      }
      AdoptedValid(q, q.va, id);
    }

    /** The shared array with these permissions. */
    method UniformFor(bits: seq<Perm>) returns (v: VA?)
      requires |uniform| == 4
      ensures v != null ==> v in uniform && v.vabits == bits
    {
      v := null;
      for k := 0 to 4 {
        if bits == uniform[k].vabits {
          return uniform[k];
        }
      }
    }

    method PutShared(id: nat, c: PageContent, v: VA) returns (q: Page)
      requires v in vas && id in images && c.base in auxmap && |c.data| == PAGE_SIZE
      modifies this`images, this`pages, this`statPages, v
      ensures fresh(q) && q.base == c.base && q.va == v && q.data == Some(c.data) && v.vabits == old(v.vabits)
      ensures Adopted(q, v, id) && statPages == old(statPages) + 1
    {
      q := new Page(c.base, v, InvalidHash);
      q.data, q.holders := Some(c.data), {id};
      v.refCount, v.users := v.refCount + 1, v.users + {q};
      pages, statPages := pages + {q}, statPages + 1;
      images := images[id := MemoryImage(images[id].pages + [q], images[id].blocks)];
    }

    method PutOwn(id: nat, c: PageContent) returns (q: Page)
      requires id in images && c.base in auxmap && |c.data| == PAGE_SIZE && |c.bits| == PAGE_SIZE
      modifies this`images, this`pages, this`vas, this`statPages, this`statVas
      ensures fresh(q) && fresh(q.va) && q.base == c.base && q.data == Some(c.data) && q.va.vabits == c.bits
      ensures Adopted(q, q.va, id) && statPages == old(statPages) + 1 && statVas == old(statVas) + 1
    {
      var v := new VA(c.bits, false, {});
      q := new Page(c.base, v, InvalidHash);
      q.data, q.holders := Some(c.data), {id};
      v.users := {q};
      pages, statPages := pages + {q}, statPages + 1;
      vas, statVas := vas + {v}, statVas + 1;
      images := images[id := MemoryImage(images[id].pages + [q], images[id].blocks)];
    }

    lemma UniformsThere()
      requires Valid()
      ensures |uniform| == 4 && forall i :: 0 <= i < 4 ==> uniform[i] in vas
    {
    }

    twostate lemma {:induction false} AdoptedValid(new q: Page, new v: VA, id: nat)
      requires old(Valid()) && Adopted(q, v, id) && SameMemory()
      requires forall p :: p in old(images)[id].pages ==> p.base < q.base
      requires statPages == old(statPages) + 1 && statVas == old(statVas) + (if v in old(vas) then 0 else 1)
               && nextId == old(nextId)
      ensures Valid() && Bits() == old(Bits()) && SubMap(old(HeldPages()), HeldPages())
      ensures q in HeldPages() && HeldPages()[q] == PageCopy(v.vabits, q.data)
    {
      AdoptedStructure(q, v, id);
      AdoptedContents(q, v, id);
      AdoptedCounts(q, v, id);
      AdoptedKeeps(q, v, id);
      AdoptedCache(q, v, id);
      hide Adopted, VasOk, PagesOk, AuxOk, UniformOk, ImagesOk, ContentsOk, ContentOk, StatsOk, LiveOk, CacheOk,
           ImagesSorted, Bits, HeldPages, UniformBits, SubMap;
    }

    twostate lemma AdoptedCache(new q: Page, new v: VA, id: nat)
      requires old(CacheOk()) && Adopted(q, v, id)
      ensures CacheOk()
    {
    }

    /** The CONN_PULL_STATE command: a new state enters the table, with pages and blocks that come from another
        client. The client memory and the other states stay as they are. */
    method AdoptState(cs: seq<PageContent>, blocks: seq<Block>) returns (id: nat)
      requires Valid() && Receivable(cs, mem.Length)
      modifies this, pages, vas
      ensures Valid() && id == old(nextId) && id !in old(images) && images.Keys == old(images).Keys + {id}
      ensures View() == old(View()) && images[id].blocks == blocks
      ensures SavedView(id) == ContentView(cs, mem.Length)
      ensures forall k :: k in old(images) ==> images[k] == old(images)[k] && SavedView(k) == old(SavedView(k))
      ensures fresh(pages - old(pages)) && fresh(vas - old(vas))
    {
      hide Valid, Structure, PagesOk, AuxOk, Bits, HeldPages, ViewOf, View, Holding, ContentCell, CellOf;
      id := OpenImage(blocks);
      assert cs[..0] == [];
      assert Holding([], HeldPages(), []) by { HoldingNone(HeldPages()); }
      for n := 0 to |cs|
        invariant Valid() && Bits() == old(Bits()) && SubMap(old(HeldPages()), HeldPages())
        invariant id in images && images == old(images)[id := images[id]] && images[id].blocks == blocks
        invariant Holding(images[id].pages, HeldPages(), cs[..n])
        invariant fresh(pages - old(pages)) && fresh(vas - old(vas))
      {
        HeldBelow(images[id].pages, HeldPages(), cs, n);
        ghost var before, held := images[id].pages, HeldPages();
        var q := AdoptPage(id, cs[n]);
        HoldingMore(before, held, cs, n, HeldPages(), q);
      }
      assert cs[..|cs|] == cs;
      ShowsContent(images[id].pages, HeldPages(), cs, mem.Length);
      ViewKept();
      forall k | k in old(images) ensures SavedView(k) == old(SavedView(k)) {
        StillSaved(k);
      }
    }

    // ---- FREE ----------------------------------------------------------------------------------

    ghost predicate LiveExceptPage(p: Page)
      reads this, pages, vas
    {
      && (forall q :: q in pages && q != p ==> q.refCount > 0)
      && (forall v :: v in vas ==> v.refCount > 0)
    }

    twostate lemma FreedCounts(page: Page)
      requires old(LiveExceptPage(page)) && old(StatsOk()) && old(ImagesSorted()) && old(Structure()) && Freed(page)
      requires statPages == old(statPages) - 1 && statVas == old(statVas) && nextId == old(nextId)
      ensures StatsOk() && ImagesSorted()
      ensures forall p :: p in pages ==> p.refCount > 0
      ensures forall v :: v in vas && v != old(page.va) ==> v.refCount > 0
    {
    }

    twostate lemma FreedKeepsImages(page: Page)
      requires old(PagesOk()) && PagesOk() && Freed(page)
      ensures ImagesKept()
    {
      assert old(page.refCount) == |old(page.holders)| + if old(IsCurrent(page)) then 1 else 0;
      assert old(page.holders) == {};
      assert forall p :: p in pages ==>
          p in old(pages) && p.holders == old(p.holders) && p.data == old(p.data) && p.va == old(p.va);
      forall p | p in HeldPages() ensures p in old(HeldPages()) && HeldPages()[p] == old(HeldPages())[p] {
        assert p.va.vabits == old(p.va.vabits);
      }
      forall p | p in old(HeldPages()) ensures p in HeldPages() {
        assert p != page;
      }
    }

    twostate lemma FreedKeepsBits(page: Page)
      requires old(Structure()) && Structure() && Freed(page)
      ensures Bits() == old(Bits())
    {
      forall b: int ensures BitsAt(b) == old(BitsAt(b)) {
        assert b in auxmap ==> old(auxmap)[b] in pages;
      }
    }

    /** The second half of page_dispose: frees a page that lost its last owner. */
    method FreePageIfUnused(page: Page)
      requires Structure() && ContentsOk() && StatsOk() && ImagesSorted() && LiveExceptPage(page) && page in pages
      modifies this`pages, this`vas, this`statPages, this`statVas, page.va
      ensures ValidPages() && ImagesKept() && Bits() == old(Bits())
      ensures pages <= old(pages) && vas <= old(vas)
    {
      hide Bits, HeldPages, VasOk, AuxOk, ImagesOk, ContentsOk, LiveOk, StatsOk, ImagesSorted, UniformOk, ImagesKept;
      assert page.refCount >= 0;
      if page.refCount <= 0 {
        FreePage(page);
      } else {
        assert LiveOk() by {
          AllLive(page);
        }
        NothingChanged();
      }
    }

    lemma AllLive(page: Page)
      requires LiveExceptPage(page) && page.refCount > 0
      ensures LiveOk()
    {
    }

    twostate lemma NothingChanged()
      requires old(Structure()) && Structure() && images == old(images) && HeldPages() == old(HeldPages())
      ensures ImagesKept()
    {
    }

    method FreePage(page: Page)
      requires Structure() && ContentsOk() && StatsOk() && ImagesSorted() && LiveExceptPage(page) && page in pages
               && page.refCount == 0
      modifies this`pages, this`vas, this`statPages, this`statVas, page.va
      ensures ValidPages() && ImagesKept() && Bits() == old(Bits())
      ensures pages <= old(pages) && vas <= old(vas)
    {
      hide Bits, HeldPages, VasOk, ImagesOk, UniformOk, ContentsOk, StatsOk, ImagesSorted;
      var v := page.va;
      RemovePage(page);
      FreedStructure(page);
      FreedContents(page);
      FreedCounts(page);
      FreedKeepsImages(page);
      FreedKeepsBits(page);
      FreeVaIfUnused(v);
    }

    method RemovePage(page: Page)
      requires page in pages && page.va in vas && page.refCount == 0
      modifies this`pages, this`statPages, page.va
      ensures Freed(page) && statPages == old(statPages) - 1
    {
      statPages := statPages - 1;
      pages := pages - {page};
      page.va.refCount := page.va.refCount - 1;
      page.va.users := page.va.users - {page};
    }

    twostate lemma ReleasedCounts(page: Page, new id: nat)
      requires old(LiveOk()) && old(StatsOk()) && old(ImagesSorted()) && Released(page, id)
      requires statPages == old(statPages) && statVas == old(statVas) && nextId == old(nextId)
      ensures LiveExceptPage(page) && StatsOk() && ImagesSorted()
    {
    }

    twostate lemma {:induction false} ReleasedBits(page: Page, new id: nat)
      requires old(Structure()) && Structure() && Released(page, id)
      ensures Bits() == old(Bits())
    {
      hide HeldPages, ImagesOk, UniformOk, UniformBits;
    }

    twostate lemma {:induction false} ReleasedKeeps(page: Page, new id: nat)
      requires old(Structure()) && Structure() && Released(page, id)
      ensures Bits() == old(Bits()) && SubMap(HeldPages(), old(HeldPages()))
    {
      ReleasedBits(page, id);
      hide Bits, BitsAt, ImagesOk, UniformOk, UniformBits;
    }

    /** One turn of memimage_free: the state gives up a page, which is disposed. */
    method ReleaseFirst(id: nat)
      requires Valid() && id in images && |images[id].pages| > 0
      modifies this`images, this`pages, this`vas, this`statPages, this`statVas, pages, vas
      ensures Valid() && Bits() == old(Bits()) && SubMap(HeldPages(), old(HeldPages()))
      ensures images == old(images)[id := MemoryImage(old(images)[id].pages[1..], old(images)[id].blocks)]
      ensures pages <= old(pages) && vas <= old(vas)
    {
      hide Bits, HeldPages, VasOk, PagesOk, AuxOk, ContentsOk, LiveOk, StatsOk, UniformOk;
      var page := images[id].pages[0];
      HeldByFirst(id);
      ReleasePage(page, id);
      ReleasedStructure(page, id);
      ReleasedContents(page, id);
      ReleasedCounts(page, id);
      ReleasedKeeps(page, id);
      FreePageIfUnused(page);
    }

    lemma HeldByFirst(id: nat)
      requires Structure() && ImagesSorted() && id in images && |images[id].pages| > 0
      ensures images[id].pages[0] in pages && images[id].pages[0].va in vas
      ensures images[id].pages[0] !in images[id].pages[1..]
    {
      assert images[id].pages[0] in images[id].pages;
    }

    method ReleasePage(page: Page, id: nat)
      requires page in pages && id in images && |images[id].pages| > 0 && page == images[id].pages[0]
               && page !in images[id].pages[1..]
      modifies this`images, page`refCount, page`holders
      ensures Released(page, id)
    {
      page.refCount := page.refCount - 1;
      page.holders := page.holders - {id};
      images := images[id := MemoryImage(images[id].pages[1..], images[id].blocks)];
    }

    twostate predicate OnlyImageRemoved(id: nat)
      reads this, pages, vas, mem
    {
      && pages == old(pages) && SameVas() && auxmap == old(auxmap) && cache == old(cache) && SameMemory()
      && statPages == old(statPages) && statVas == old(statVas) && nextId == old(nextId)
      && (forall p :: p in pages ==> unchanged(p))
      && id in old(images) && ImageIn(old(images), id).pages == [] && images == old(images) - {id}
    }

    twostate lemma RemovedStructure(id: nat)
      requires old(Structure()) && old(ImagesSorted()) && OnlyImageRemoved(id)
      ensures Structure() && ImagesSorted()
    {
    }

    twostate lemma RemovedContents(id: nat)
      requires old(PagesOk()) && old(ContentsOk()) && PagesOk() && OnlyImageRemoved(id)
      ensures ContentsOk()
    {
      forall p | p in pages ensures ContentOk(p) {
        ContentKept(p);
      }
    }

    twostate lemma RemovedKeeps(id: nat)
      requires old(Structure()) && Structure() && OnlyImageRemoved(id)
      ensures Bits() == old(Bits()) && HeldPages() == old(HeldPages())
    {
    }

    twostate lemma ImageRemoved(id: nat)
      requires old(Valid()) && OnlyImageRemoved(id)
      ensures Valid() && Bits() == old(Bits()) && HeldPages() == old(HeldPages())
    {
      RemovedStructure(id);
      RemovedContents(id);
      RemovedKeeps(id);
    }

    method CloseImage(id: nat)
      requires Valid() && id in images && images[id].pages == []
      modifies this`images
      ensures Valid() && Bits() == old(Bits()) && HeldPages() == old(HeldPages()) && images == old(images) - {id}
    {
      images := images - {id};
      ImageRemoved(id);
    }

    /** The FREE command: an unknown id is refused; otherwise the state is forgotten and nothing else changes. */
    method FreeState(id: nat) returns (ok: bool)
      requires Valid()
      modifies this`images, this`pages, this`vas, this`statPages, this`statVas, pages, vas
      ensures Valid() && (ok <==> id in old(images)) && View() == old(View())
      ensures images == old(images) - {id}
      ensures forall k :: k in images ==> SavedView(k) == old(SavedView(k))
      ensures pages <= old(pages) && vas <= old(vas)
    {
      hide Valid, Structure, PagesOk, AuxOk, Bits, HeldPages, ViewOf;
      if id !in images {
        return false;
      }
      while |images[id].pages| > 0
        invariant Valid() && Bits() == old(Bits()) && SubMap(HeldPages(), old(HeldPages()))
        invariant id in images && images == old(images)[id := images[id]]
        invariant pages <= old(pages) && vas <= old(vas)
        decreases |images[id].pages|
      {
        ReleaseFirst(id);
      }
      CloseImage(id);
      forall k | k in images ensures SavedView(k) == old(SavedView(k)) {
        StoredStill(k);
      }
      ok := true;
    }

    twostate lemma StoredStill(k: nat)
      requires old(Structure()) && Valid() && k in old(images) && k in images && images[k] == old(images)[k]
      requires SubMap(HeldPages(), old(HeldPages()))
      ensures SavedView(k) == old(SavedView(k))
    {
      forall p | p in images[k].pages ensures p in HeldPages() {
        assert k in p.holders;
      }
      ViewFrame(images[k].pages, old(HeldPages()), HeldPages(), mem.Length);
    }

    // ---- RESTORE -------------------------------------------------------------------------------

    /** memimage_restore_page_content, for pages that are mapped readable and writable. Its assertion that bytes are
        stored holds, because only a blank page is held without. */
    method RestorePageContent(page: Page)
      requires UniformOk() && |page.va.vabits| == PAGE_SIZE && 0 <= page.base && page.base + PAGE_SIZE <= mem.Length
      requires page.data.Some? ==> |page.data.value| == PAGE_SIZE
      requires page.data.None? ==> Blank(page)
      modifies mem
      ensures OtherBytesKept(page.base)
      ensures page.data.Some? ==> Agree(page.va.vabits, page.data.value, Slice(page.base))
    {
      if page.va == uniform[NOACCESS.Code()] || page.va == uniform[UNDEFINED.Code()] {
        assert PermOfCode(NOACCESS.Code()) == NOACCESS && PermOfCode(UNDEFINED.Code()) == UNDEFINED;
        return;
      }
      assert page.data.Some?;
      var src, bits, dst := page.data.value, page.va.vabits, page.base;
      var whole := page.va == uniform[DEFINED.Code()];
      var j := 0;
      while j < PAGE_SIZE
        invariant 0 <= j <= PAGE_SIZE
        invariant forall x :: 0 <= x < mem.Length && !(dst <= x < dst + PAGE_SIZE) ==> mem[x] == old(mem[x])
        invariant forall k :: 0 <= k < j && bits[k].read ==> mem[dst + k] == src[k]
      {
        if whole || bits[j].read {
          mem[dst + j] := src[j];
        }
        j := j + 1;
      }
    }

    /** Restores the content of `p` and lets it take the place of the current page `cur`. */
    method SwapPage(cur: Page, p: Page)
      requires UniformOk() && cur in pages && p in pages && IsCurrent(cur) && p.base == cur.base && p != cur
      requires |p.va.vabits| == PAGE_SIZE && 0 <= p.base && p.base + PAGE_SIZE <= mem.Length
      requires p.data.Some? ==> |p.data.value| == PAGE_SIZE
      requires p.data.None? ==> Blank(p)
      modifies this`auxmap, cur`refCount, p`refCount, mem
      ensures Swapped(cur, p) && OtherBytesKept(p.base)
      ensures p.data.Some? ==> Agree(p.va.vabits, p.data.value, Slice(p.base))
    {
      RestorePageContent(p);
      p.refCount := p.refCount + 1;
      cur.refCount := cur.refCount - 1;
      auxmap := auxmap[p.base := p];
    }

    twostate lemma SwappedCounts(cur: Page, new p: Page)
      requires old(LiveOk()) && old(StatsOk()) && old(ImagesSorted()) && Swapped(cur, p)
      requires statPages == old(statPages) && statVas == old(statVas) && nextId == old(nextId)
      ensures LiveExceptPage(cur) && StatsOk() && ImagesSorted()
    {
    }

    twostate lemma SwappedKeeps(cur: Page, new p: Page)
      requires old(Structure()) && Structure() && Swapped(cur, p)
      ensures ImagesKept() && Bits() == old(Bits())[p.base := p.va.vabits]
    {
    }

    lemma HeldFits(p: Page)
      requires Structure() && ContentsOk() && p in pages && p.holders != {}
      ensures |p.va.vabits| == PAGE_SIZE && 0 <= p.base && p.base + PAGE_SIZE <= mem.Length
      ensures p.data.Some? ==> |p.data.value| == PAGE_SIZE
      ensures p.data.None? ==> Blank(p)
      ensures p.base in auxmap && auxmap[p.base] in pages && auxmap[p.base].va in vas && auxmap[p.base].base == p.base
    {
      assert ContentOk(p);
    }

    /** A turn of memimage_restore for a page of the image that is not current. */
    method SwapIn(p: Page)
      requires ValidPages() && p in pages && p.holders != {} && !IsCurrent(p)
      modifies this`auxmap, this`pages, this`vas, this`statPages, this`statVas, pages, vas, mem
      ensures ValidPages() && ImagesKept() && Bits() == old(Bits())[p.base := old(p.va.vabits)]
      ensures auxmap == old(auxmap)[p.base := p] && pages <= old(pages) && vas <= old(vas)
    {
      hide Bits, HeldPages, VasOk, PagesOk, ImagesOk, ContentsOk, LiveOk, StatsOk, UniformOk, ImagesSorted, Offset,
           AuxOk;
      HeldFits(p);
      var cur := auxmap[p.base];
      SwapPage(cur, p);
      SwappedStructure(cur, p);
      SwappedContents(cur, p);
      SwappedCounts(cur, p);
      SwappedKeeps(cur, p);
      FreePageIfUnused(cur);
    }

    /** A turn of memimage_restore for a current page that the image lacks. */
    method SwapEmpty(b: int)
      requires ValidPages() && b in auxmap
      modifies this`auxmap, this`pages, this`vas, this`statPages, this`statVas, pages, vas
      ensures ValidPages() && ImagesKept() && Bits() == old(Bits())[b := UniformBits(NOACCESS)]
      ensures b in auxmap && fresh(auxmap[b]) && auxmap == old(auxmap)[b := auxmap[b]]
      ensures fresh(pages - old(pages)) && vas <= old(vas)
    {
      hide Bits, HeldPages, VasOk, PagesOk, ImagesOk, ContentsOk, LiveOk, StatsOk, UniformOk, ImagesSorted, Offset,
           AuxOk;
      UniformFacts(NOACCESS);
      CurrentFacts(b);
      var cur, v := auxmap[b], uniform[NOACCESS.Code()];
      var q := ReplaceByEmpty(b, v);
      InstalledStructure(q, v);
      InstalledContents(q, v);
      InstalledCountsExcept(q, v, cur);
      InstalledKeepsImages(q, v);
      InstalledKeepsBits(q, v);
      FreePageIfUnused(cur);
    }

    lemma CurrentFacts(b: int)
      requires Structure() && b in auxmap
      ensures auxmap[b] in pages && auxmap[b].base == b && auxmap[b].va in vas
      ensures Offset(b) == 0 && 0 <= b && b + PAGE_SIZE <= mem.Length
    {
    }

    twostate lemma InstalledCountsExcept(new q: Page, v: VA, new cur: Page)
      requires old(PagesOk()) && old(AuxOk()) && old(StatsOk()) && old(LiveOk()) && old(ImagesSorted())
               && Installed(q, v)
      requires cur in old(pages) && old(IsCurrent(cur)) && cur.base == q.base
      requires statPages == old(statPages) + 1 && statVas == old(statVas) && nextId == old(nextId)
      ensures StatsOk() && LiveExceptPage(cur) && ImagesSorted() && cur in pages
    {
    }

    method ReplaceByEmpty(b: int, v: VA) returns (q: Page)
      requires v in vas && b in auxmap && auxmap[b] in pages && auxmap[b].base == b
      modifies this`auxmap, this`pages, this`statPages, pages, v
      ensures fresh(q) && Installed(q, v) && q.base == b && q.status == Empty
      ensures statPages == old(statPages) + 1
    {
      auxmap[b].refCount := auxmap[b].refCount - 1;
      q := new Page(b, v, Empty);
      v.refCount := v.refCount + 1;
      v.users := v.users + {q};
      pages := pages + {q};
      statPages := statPages + 1;
      auxmap := auxmap[b := q];
    }


    lemma AlignedStart(id: nat, keys: seq<int>)
      requires ValidPages() && id in images && Ordered(keys, auxmap.Keys)
      ensures Aligned(images[id].pages, keys, 0, 0)
    {
      assert keys[0..] == keys;
      forall j | 0 <= j < |images[id].pages| ensures images[id].pages[j].base in keys[0..] {
        assert images[id].pages[j] in images[id].pages;
      }
    }

    lemma HeldInImage(id: nat, p: Page)
      requires ValidPages() && id in images && p in images[id].pages
      ensures p in pages && p.holders != {}
    {
      assert id in p.holders;
    }

    /** One turn of the restoring loop. */
    method RestoreTurn(ghost id: nat, img: seq<Page>, keys: seq<int>, i: nat, k: nat) returns (i': nat)
      requires ValidPages() && id in images && img == images[id].pages
      requires Aligned(img, keys, i, k) && RestoredTo(auxmap, Bits(), img, keys, i, k) && k < |keys|
      requires Ordered(keys, auxmap.Keys)
      modifies this`auxmap, this`pages, this`vas, this`statPages, this`statVas, pages, vas, mem
      ensures ValidPages() && ImagesKept() && auxmap.Keys == old(auxmap).Keys
      ensures Aligned(img, keys, i', k + 1) && RestoredTo(auxmap, Bits(), img, keys, i', k + 1)
      ensures fresh(pages - old(pages)) && vas <= old(vas)
    {
      hide Bits, HeldPages, Structure, PagesOk, AuxOk, Aligned, RestoredTo, ValidPages;
      var b := keys[k];
      assert b in auxmap;
      if i < |img| && img[i].base == b {
        AlignedMatch(img, keys, i, k);
        i' := i + 1;
        HeldInImage(id, img[i]);
        if auxmap[b] != img[i] {
          SwapIn(img[i]);
        }
        RestoredMatch(old(auxmap), old(Bits()), auxmap, Bits(), img, keys, i, k);
      } else {
        AlignedSkip(img, keys, i, k);
        i' := i;
        SwapEmpty(b);
        RestoredSkip(old(auxmap), old(Bits()), auxmap, Bits(), img, keys, i, k);
      }
    }

    twostate lemma CacheReset()
      requires old(ValidPages()) && OnlyCacheChanged() && SameMemory() && cache == []
      ensures Valid() && ImagesKept() && Bits() == old(Bits())
    {
      CacheChangeKeepsValid();
    }

    lemma RestoredAll(id: nat, keys: seq<int>, i: nat)
      requires Valid() && id in images && Ordered(keys, auxmap.Keys)
      requires Aligned(images[id].pages, keys, i, |keys|)
               && RestoredTo(auxmap, Bits(), images[id].pages, keys, i, |keys|)
      ensures i == |images[id].pages|
      ensures SavedView(id) == View()
    {
      var img := images[id].pages;
      AlignedEnd(img, keys, i);
      forall b | b in auxmap ensures auxmap[b] in img || BitsAt(b) == UniformBits(NOACCESS) {
        var m :| 0 <= m < |keys| && keys[m] == b;
        assert PageIn(Bits(), b) == BitsAt(b);
      }
      SavedIsCurrent(id);
    }

    /** memimage_restore: a walk over the current pages, in order, beside the pages of the image. */
    method RestoreMemory(id: nat)
      requires Valid() && id in images
      modifies this, pages, vas, mem
      ensures Valid() && ImagesKept() && View() == SavedView(id)
      ensures auxmap.Keys == old(auxmap).Keys && cache == []
      ensures fresh(pages - old(pages)) && vas <= old(vas)
    {
      hide ValidPages, Structure, PagesOk, AuxOk, Bits, HeldPages, ViewOf, Aligned, RestoredTo, View, CacheOk;
      var img := images[id].pages;
      var keys := InOrder(auxmap.Keys);
      var i, k := 0, 0;
      AlignedStart(id, keys);
      NothingRestored(img, keys);
      while k < |keys|
        invariant 0 <= k <= |keys| && ValidPages() && images == old(images) && HeldPages() == old(HeldPages())
        invariant auxmap.Keys == old(auxmap).Keys && nextId == old(nextId)
        invariant Aligned(img, keys, i, k) && RestoredTo(auxmap, Bits(), img, keys, i, k)
        invariant fresh(pages - old(pages)) && vas <= old(vas)
      {
        i := RestoreTurn(id, img, keys, i, k);
        k := k + 1;
      }
      ResetCache();
      RestoredAll(id, keys, i);
    }

    lemma NothingRestored(img: seq<Page>, keys: seq<int>)
      requires Structure()
      ensures RestoredTo(auxmap, Bits(), img, keys, 0, 0)
    {
    }

    method ResetCache()
      requires ValidPages()
      modifies this`cache
      ensures Valid() && images == old(images) && HeldPages() == old(HeldPages()) && Bits() == old(Bits())
              && cache == []
    {
      cache := [];
      CacheReset();
    }

    /** The RESTORE command. For an unknown id the source reports an error and then fails; otherwise the
        client sees exactly what it saw when the state was saved, and every saved state stays as it is. */
    method RestoreState(id: nat) returns (ok: bool)
      requires Valid()
      modifies this, pages, vas, mem, heap
      ensures Valid() && (ok <==> id in images)
      ensures images == old(images) && forall k :: k in images ==> SavedView(k) == old(SavedView(k))
      ensures ok ==> View() == old(SavedView(id)) && heap.blocks == images[id].blocks
      ensures auxmap.Keys == old(auxmap).Keys
      ensures !ok ==> View() == old(View()) && heap.blocks == old(heap.blocks)
      ensures fresh(pages - old(pages)) && vas <= old(vas)
    {
      hide Valid, ValidPages, Structure, PagesOk, AuxOk, Bits, HeldPages, ViewOf, Aligned, RestoredTo, View;
      if id !in images {
        return false;
      }
      RestoreMemory(id);
      heap.blocks := images[id].blocks;
      ok := true;
    }

    // ---- HASH ----------------------------------------------------------------------------------

    /** The general loop of page_hash: runs of readable bytes are fed one after the other, none across
        the border of two pages of the machine. */
    method FeedReadable(bits: seq<Perm>, base: int) returns (fed: seq<Byte>)
      requires |bits| == PAGE_SIZE && 0 <= base && base + PAGE_SIZE <= mem.Length
      ensures fed == Readable(bits, Slice(base))
    {
      ghost var content := Slice(base);
      fed := [];
      var i := 0;
      while i < REAL_PAGES
        invariant 0 <= i <= REAL_PAGES
        invariant fed == Readable(bits[..REAL_PAGE * i], content[..REAL_PAGE * i])
      {
        fed := FeedRealPage(bits, base, REAL_PAGE * i, fed);
        i := i + 1;
      }
      assert bits[..PAGE_SIZE] == bits && content[..PAGE_SIZE] == content;
    }

    method FeedRealPage(bits: seq<Perm>, base: int, from: int, before: seq<Byte>) returns (fed: seq<Byte>)
      requires |bits| == PAGE_SIZE && 0 <= base && base + PAGE_SIZE <= mem.Length
      requires 0 <= from && from + REAL_PAGE <= PAGE_SIZE
      requires before == Readable(bits[..from], Slice(base)[..from])
      ensures fed == Readable(bits[..from + REAL_PAGE], Slice(base)[..from + REAL_PAGE])
    {
      ghost var content := Slice(base);
      fed := before;
      var s, b, j := 0, base, from;
      while j < from + REAL_PAGE
        invariant from <= j <= from + REAL_PAGE
        invariant 0 <= s && base <= b && b + s <= base + PAGE_SIZE && (s > 0 ==> b + s == base + j)
        invariant fed + mem[b..b + s] == Readable(bits[..j], content[..j])
      {
        ReadableNext(bits, content, j);
        if bits[j].read {
          if s == 0 {
            b := base + j;
          }
          s := s + 1;
          RunGrows(b, s, fed);
          assert mem[b + s - 1] == content[j];
        } else if s != 0 {
          fed := fed + mem[b..b + s];
          s := 0;
        }
        j := j + 1;
      }
      if s != 0 {
        fed := fed + mem[b..b + s];
        s := 0;
      }
    }

    lemma RunGrows(b: int, s: int, fed: seq<Byte>)
      requires 0 <= b && s > 0 && b + s <= mem.Length
      ensures fed + mem[b..b + s] == fed + mem[b..b + s - 1] + [mem[b + s - 1]]
    {
      assert mem[b..b + s] == mem[b..b + s - 1] + [mem[b + s - 1]];
    }

    static lemma ReadableNext(bits: seq<Perm>, content: seq<Byte>, j: nat)
      requires |bits| == |content| && j < |bits|
      ensures Readable(bits[..j + 1], content[..j + 1]) == Readable(bits[..j], content[..j]) + if bits[j].read
              then [content[j]] else []
    {
      assert bits[..j + 1][..j] == bits[..j] && content[..j + 1][..j] == content[..j];
    }

    /** What the page contributes to the hash of the state: nothing when no byte is readable, else the hash of its
        content. */
    ghost function Contribution(bits: seq<Perm>, content: seq<Byte>): seq<int>
      requires |bits| == |content|
    {
      if Unreadable(bits) then [] else [md5(Digest(bits, content))]
    }

    /** The hash of the readable bytes in order, and of the permissions unless all bytes are readable. */
    ghost predicate HashOfContent(bits: seq<Perm>, content: seq<Byte>, h: int)
      requires |bits| == |content|
    {
      exists q, x :: ReadablePlaces(bits, q) && IsFed(bits, content, q, x) && h == md5(x)
    }

    lemma {:induction false} ContributionIs(bits: seq<Perm>, content: seq<Byte>)
      requires |bits| == |content|
      ensures var c := Contribution(bits, content);
              if Unreadable(bits) then c == [] else |c| == 1 && HashOfContent(bits, content, c[0])
    {
      var q := DigestIs(bits, content);
    }

    /** page_hash: a remembered hash is used as it stands, and is always the hash of the present content. */
    method PageHash(page: Page) returns (fed: seq<int>)
      requires Valid() && IsCurrent(page)
      modifies page`status, page`hash
      ensures |page.va.vabits| == |Slice(page.base)|
      ensures if Unreadable(page.va.vabits) then fed == []
              else |fed| == 1 && HashOfContent(page.va.vabits, Slice(page.base), fed[0])
      ensures Valid() && ImagesKept() && Bits() == old(Bits()) && page.status != InvalidHash
      ensures |page.va.vabits| == |Slice(page.base)| && fed == Contribution(page.va.vabits, Slice(page.base))
    {
      hide VasOk, AuxOk, ImagesOk, ContentsOk, LiveOk, StatsOk, ImagesSorted, UniformOk, Bits, HeldPages;
      CurrentFits(page);
      CurrentContent(page);
      if page.status == InvalidHash {
        Rehash(page);
        StatusMeaning(page);
      }
      fed := if page.status != Empty then [page.hash] else [];
      ContributionIs(page.va.vabits, Slice(page.base));
      MarkedValid(page);
      MarkedKeepsImages(page);
      MarkedKeepsBits(page);
    }

    lemma CurrentContent(page: Page)
      requires Valid() && IsCurrent(page)
      ensures page in pages && ContentOk(page) && |Slice(page.base)| == PAGE_SIZE == |page.va.vabits|
      ensures page.va in vas
    {
    }

    lemma StatusMeaning(page: Page)
      requires page.data.Some? ==> |page.data.value| == PAGE_SIZE
      requires page.holders != {} ==> StoredNow(page)
      requires |Slice(page.base)| == |page.va.vabits| && IsCurrent(page)
      requires page.status == if Unreadable(page.va.vabits) then Empty else ValidHash
      requires page.status == ValidHash ==> HashOf(page, Slice(page.base))
      ensures ContentOk(page)
    {
      if page.status == ValidHash && page.holders != {} && page.data.Some? {
        ReadableAgree(page.va.vabits, page.data.value, Slice(page.base));
      }
    }

    method Rehash(page: Page)
      requires UniformOk() && |page.va.vabits| == PAGE_SIZE && 0 <= page.base && page.base + PAGE_SIZE <= mem.Length
      modifies page`status, page`hash
      ensures page.status == if Unreadable(page.va.vabits) then Empty else ValidHash
      ensures page.status == ValidHash ==> HashOf(page, Slice(page.base))
    {
      ReadableLength(page.va.vabits, Slice(page.base));
      if page.va == uniform[NOACCESS.Code()] || page.va == uniform[UNDEFINED.Code()] {
        assert PermOfCode(NOACCESS.Code()) == NOACCESS && PermOfCode(UNDEFINED.Code()) == UNDEFINED;
        page.status := Empty;
        return;
      }
      var ctx: seq<Byte>;
      if page.va == uniform[DEFINED.Code()] {
        assert PermOfCode(DEFINED.Code()) == DEFINED;
        ctx := mem[page.base..page.base + PAGE_SIZE];
        assert !Unreadable(page.va.vabits) by {
          assert page.va.vabits[0].read;
        }
      } else {
        ctx := FeedReadable(page.va.vabits, page.base);
        if |ctx| == 0 {
          page.status := Empty;
          return;
        }
        if |ctx| != PAGE_SIZE {
          ctx := ctx + Codes(page.va.vabits);
        }
      }
      page.hash := md5(ctx);
      page.status := ValidHash;
    }

    /** The hash input of the first `n` pages of an address space, a function of what can be observed and of nothing
        else. */
    ghost function ViewHash(view: map<int, Cell>, n: nat): seq<int> {
      if n == 0 then []
      else ViewHash(view, n - 1) + Contribution(ViewBits(view, (n - 1) * 65536), ViewBytes(view, (n - 1) * 65536))
    }

    lemma {:induction false} ViewContribution(b: int)
      requires Valid() && Offset(b) == 0 && 0 <= b && b + PAGE_SIZE <= mem.Length
      ensures Contribution(ViewBits(View(), b), ViewBytes(View(), b)) == Contribution(BitsAt(b), Slice(b))
    {
      hide View, BitsAt;
      var bits, bytes := ViewBits(View(), b), ViewBytes(View(), b);
      forall j | 0 <= j < PAGE_SIZE ensures bits[j] == BitsAt(b)[j] && (bits[j].read ==> bytes[j] == Slice(b)[j]) {
        ViewCell(b, j);
      }
      assert bits == BitsAt(b);
      ReadableAgree(bits, bytes, Slice(b));
    }

    lemma {:induction false} ViewCell(b: int, j: nat)
      requires Structure() && Offset(b) == 0 && 0 <= b && b + PAGE_SIZE <= mem.Length && j < PAGE_SIZE
      ensures b + j in View() && View()[b + j] == Cell(BitsAt(b)[j],
                                                       if BitsAt(b)[j].read then Some(Slice(b)[j]) else None)
    {
      hide Structure, BitsAt;
      BaseUnique(b + j, b);
    }

    lemma {:induction false} AbsentContributions(m: nat, n: nat)
      requires Valid() && m <= n && n * 65536 <= mem.Length
      requires forall k: nat :: m <= k < n ==> k * 65536 !in auxmap
      ensures ViewHash(View(), n) == ViewHash(View(), m)
      decreases n
    {
      hide Valid, Structure, AuxOk, PagesOk, View, Bits;
      if m < n {
        AbsentContributions(m, n - 1);
        AbsentContribution((n - 1) * 65536);
      }
    }

    lemma {:induction false} AbsentContribution(b: int)
      requires Valid() && b !in auxmap && Offset(b) == 0 && 0 <= b && b + PAGE_SIZE <= mem.Length
      ensures Contribution(ViewBits(View(), b), ViewBytes(View(), b)) == []
    {
      hide View, Bits;
      ViewContribution(b);
      assert BitsAt(b) == UniformBits(NOACCESS);
    }

    /** memspace_hash: the remembered page hashes of the present pages together are the hash of the view. */
    method MemspaceHash() returns (ctx: seq<int>)
      requires Valid()
      modifies pages
      ensures Valid() && ImagesKept() && View() == old(View())
      ensures ctx == ViewHash(View(), mem.Length / 65536)
      ensures Shown(View(), mem.Length / 65536) && HashesPages(md5, View(), mem.Length / 65536, ctx)
    {
      hide Valid, Structure, PagesOk, AuxOk, Bits, HeldPages, ViewHash, View;
      var keys := InOrder(auxmap.Keys);
      ctx := [];
      var k := 0;
      ghost var m: nat := 0;
      HashOfNothing();
      while k < |keys|
        invariant 0 <= k <= |keys| && Valid() && ImagesKept() && Bits() == old(Bits())
        invariant View() == old(View())
        invariant m * 65536 == (if k == 0 then 0 else keys[k - 1] + PAGE_SIZE) && m * 65536 <= mem.Length
        invariant ctx == ViewHash(View(), m)
      {
        PageOfBase(keys[k]);
        m := BetweenPages(keys, k, m);
        var fed := HashCurrent(keys[k], m);
        ctx := ctx + fed;
        m := m + 1;
        k := k + 1;
      }
      AfterPages(keys, m);
      HashIsOfPages();
    }

    lemma {:induction false} HashIsOfPages()
      requires Structure()
      ensures Shown(View(), mem.Length / 65536)
      ensures HashesPages(md5, View(), mem.Length / 65536, ViewHash(View(), mem.Length / 65536))
    {
      ViewIsShown();
      hide View, Shown, ReadablePages, HashesOf, ViewHash;
      var ps := ViewHashes(View(), mem.Length / 65536, mem.Length / 65536);
    }

    lemma {:induction false} ViewIsShown()
      requires Structure()
      ensures Shown(View(), mem.Length / 65536)
    {
      hide Structure, Bits;
      forall n: nat, j: nat | n < mem.Length / 65536 && j < PAGE_SIZE
        ensures CellAt(View(), n, j).value.Some? <==> CellAt(View(), n, j).perm.read
      {
        assert 65536 * n + j < mem.Length;
      }
    }

    /** The hash of a view is made of the hashes of its pages. */
    lemma {:induction false} ViewHashes(view: map<int, Cell>, count: nat, n: nat) returns (ps: seq<nat>)
      requires Shown(view, count) && n <= count
      ensures ReadablePages(view, n, ps) && HashesOf(md5, view, ps, ViewHash(view, n))
    {
      hide HasReadable, HashesPage, Shown;
      if n == 0 {
        ps := [];
      } else {
        var before := ViewHashes(view, count, n - 1);
        PageHashes(view, count, n - 1);
        ps := before + if HasReadable(view, n - 1) then [n - 1] else [];
        assert forall k :: 0 <= k < |before| ==> before[k] in before;
        forall k: nat ensures k in ps <==> k < n && HasReadable(view, k) {
          assert k in ps <==> k in before || (HasReadable(view, n - 1) && k == n - 1);
        }
      }
    }

    lemma {:induction false} PageHashes(view: map<int, Cell>, count: nat, n: nat)
      requires Shown(view, count) && n < count
      ensures var c := Contribution(ViewBits(view, n * 65536), ViewBytes(view, n * 65536));
              if HasReadable(view, n) then |c| == 1 && HashesPage(md5, view, n, c[0]) else c == []
    {
      var bits, bytes := ViewBits(view, n * 65536), ViewBytes(view, n * 65536);
      if HasReadable(view, n) {
        SomethingRead(view, n);
        FedIsOfView(view, count, n, Digest(bits, bytes));
      } else {
        forall j: nat | j < PAGE_SIZE ensures !bits[j].read {
          PageOfView(view, n, j);
        }
      }
    }

    lemma HashOfNothing()
      ensures forall view: map<int, Cell> :: ViewHash(view, 0) == []
    {
    }

    /** The pages between two neighbouring current pages contribute nothing. */
    lemma BetweenPages(keys: seq<int>, k: nat, m: nat) returns (n: nat)
      requires Valid() && Ordered(keys, auxmap.Keys) && k < |keys|
      requires m * 65536 == (if k == 0 then 0 else keys[k - 1] + PAGE_SIZE)
      ensures n * 65536 == keys[k] && keys[k] + PAGE_SIZE <= mem.Length && ViewHash(View(), n) == ViewHash(View(), m)
    {
      assert keys[k] in auxmap;
      n := keys[k] / 65536;
      if k > 0 {
        assert keys[k - 1] in auxmap && keys[k - 1] < keys[k];
      }
      forall j: nat | m <= j < n ensures j * 65536 !in auxmap {
        NotBetween(keys, auxmap.Keys, k, j * 65536);
      }
      AbsentContributions(m, n);
    }

    lemma NotBetween(keys: seq<int>, s: set<int>, k: nat, b: int)
      requires Ordered(keys, s) && k <= |keys|
      ensures b in s ==> (k < |keys| && keys[k] <= b) || (k > 0 && b <= keys[k - 1])
    {
      if b in s {
        var i :| 0 <= i < |keys| && keys[i] == b;
      }
    }

    lemma AfterPages(keys: seq<int>, m: nat)
      requires Valid() && Ordered(keys, auxmap.Keys)
      requires m * 65536 == (if |keys| == 0 then 0 else keys[|keys| - 1] + PAGE_SIZE) && m * 65536 <= mem.Length
      ensures ViewHash(View(), mem.Length / 65536) == ViewHash(View(), m)
    {
      var n := mem.Length / 65536;
      forall j: nat | m <= j < n ensures j * 65536 !in auxmap {
        NotBetween(keys, auxmap.Keys, |keys|, j * 65536);
      }
      AbsentContributions(m, n);
    }

    method HashCurrent(b: int, ghost m: nat) returns (fed: seq<int>)
      requires Valid() && b in auxmap && auxmap[b] in pages && m * 65536 == b && b + PAGE_SIZE <= mem.Length
      modifies pages
      ensures Valid() && ImagesKept() && Bits() == old(Bits()) && View() == old(View())
      ensures ViewHash(View(), m + 1) == ViewHash(View(), m) + fed
    {
      hide Valid, Structure, PagesOk, AuxOk, Bits, HeldPages;
      PageOfBase(b);
      var page := auxmap[b];
      fed := PageHash(page);
      PresentBits(page);
      BitsOfBase(b);
      ViewContribution(b);
    }

    lemma BitsOfBase(b: int)
      requires Valid() && b in auxmap
      ensures BitsAt(b) == auxmap[b].va.vabits && Offset(b) == 0 && 0 <= b
    {
    }

    // ---- what is left at the end -----------------------------------------------------------------

    lemma {:induction false} CurrentCount(keys: set<int>)
      requires AuxOk() && keys <= auxmap.Keys
      ensures |set b | b in keys :: auxmap[b]| == |keys|
    {
      var image := set b | b in keys :: auxmap[b];
      if keys != {} {
        var b := Member(keys);
        CurrentCount(keys - {b});
        assert image == (set c | c in keys - {b} :: auxmap[c]) + {auxmap[b]};
        assert auxmap[b] !in (set c | c in keys - {b} :: auxmap[c]);
      }
    }

    static ghost function VasOf(ps: set<Page>): set<VA>
      reads ps
    {
      set p | p in ps :: p.va
    }

    static lemma {:induction false} VasOfPages(ps: set<Page>)
      ensures |VasOf(ps)| <= |ps|
    {
      if ps != {} {
        var p := Member(ps);
        var rest := ps - {p};
        VasOfPages(rest);
        assert ps == rest + {p};
        assert VasOf(ps) == VasOf(rest) + {p.va};
        assert |VasOf(rest) + {p.va}| <= |VasOf(rest)| + 1;
      }
    }

    lemma UniformCount(s: set<VA>)
      requires |uniform| == 4 && s <= {uniform[0], uniform[1], uniform[2], uniform[3]}
      ensures |s| <= 4
    {
      SubsetSize(s, {uniform[0], uniform[1], uniform[2], uniform[3]});
    }

    static lemma {:induction false} SubsetSize<T>(s: set<T>, t: set<T>)
      requires s <= t
      ensures |s| <= |t|
    {
      assert t == s + (t - s);
    }

    lemma OnlyCurrentLeft()
      requires Structure() && LiveOk() && images == map[]
      ensures pages == set b | b in auxmap.Keys :: auxmap[b]
    {
      forall p | p in pages ensures IsCurrent(p) {
        assert forall id :: id in p.holders ==> id in images;
        assert p.holders == {};
      }
    }

    lemma PrivateCount()
      requires Structure() && LiveOk()
      ensures |set v | v in vas && !v.shared| <= |pages|
    {
      var private := set v | v in vas && !v.shared;
      var pointed := VasOf(pages);
      forall v | v in private ensures v in pointed {
        assert |v.users| > 0;
        var p := Member(v.users);
        assert p in pages && p.va == v;
      }
      VasOfPages(pages);
      SubsetSize(private, pointed);
    }

    /** The counters once every saved state was freed: each page is a current one, and besides the four
        shared arrays there is at most one permission array for each page. */
    lemma AllStatesFreed()
      requires Valid() && images == map[]
      ensures statPages == |auxmap|
      ensures statVas - 4 <= statPages
    {
      OnlyCurrentLeft();
      CurrentCount(auxmap.Keys);
      PrivateCount();
      var private := set v | v in vas && !v.shared;
      var common := set v | v in vas && v.shared;
      assert vas == private + common;
      UniformCount(common);
    }

    // ---- runs ----------------------------------------------------------------------------------

    predicate InRange(addr: int, len: nat) {
      0 <= addr && addr + len <= mem.Length
    }

    /** State `id` is still held and still stores what it stored. */
    twostate predicate StillHeld(id: nat)
      reads this, pages, vas
      requires old(Structure()) && Structure()
    {
      && id in images && id in old(images) && ImageIn(images, id) == ImageIn(old(images), id)
      && SavedView(id) == old(SavedView(id))
    }

    ghost function SavedStates(): map<nat, Kept>
      reads this, pages, vas
      requires Structure()
    {
      map id | id in images :: Kept(SavedView(id), images[id].blocks)
    }

    /** What can be told about this memory from outside. */
    ghost function Seen(): Outside
      reads this, pages, vas, mem, heap
      requires Structure()
    {
      Outside(View(), heap.blocks, SavedStates())
    }

    lemma ViewIs()
      requires Structure()
      ensures View() == ViewFrom(Bits(), mem[..])
    {
    }

    twostate lemma {:induction false} SavedSame()
      requires old(Structure()) && Structure() && ImagesKept()
      ensures SavedStates() == old(SavedStates())
    {
      hide Structure, HeldPages, ViewOf;
    }

    /** What a command does: the pages, their shared permissions, the cache and the counts behind it cannot be told from
        outside. A state that the command does not forget stores what it stored. */
    method Step(c: Command, ghost id: nat)
      requires Valid() && id in images && c != Forget(id)
      modifies this, pages, vas, mem, heap
      ensures Valid() && StillHeld(id) && Effect(c, mem.Length, old(Seen()), Seen())
      ensures fresh(pages - old(pages)) && fresh(vas - old(vas))
    {
      hide Valid, Structure, PagesOk, AuxOk, Bits, HeldPages, View, ViewOf, Effect;
      match c {
        case Store(addr, bytes) => StoreStep(addr, bytes);
        case Load(addr, size) => LoadStep(addr, size);
        case Extern(addr, bytes, check) => ExternStep(addr, bytes, check);
        case SetPerms(_, _, _) => PermsStep(c);
        case LockRange(_, _) => PermsStep(c);
        case UnlockRange(_, _) => PermsStep(c);
        case Scribble(addr, value) => ScribbleStep(addr, value);
        case Hash => HashStep();
        case _ => StateStep(c, id);
      }
    }

    method StoreStep(addr: int, bytes: seq<Byte>)
      requires Valid()
      modifies this, pages, vas, mem
      ensures Valid() && ImagesKept() && Effect(Store(addr, bytes), mem.Length, old(Seen()), Seen())
      ensures fresh(pages - old(pages)) && fresh(vas - old(vas))
    {
      hide Valid, Structure, PagesOk, AuxOk, Bits, HeldPages, View, ViewOf, ViewFrom, RangeSet, Stored, Overwriting,
           Writable, RefusedAt, SavedStates;
      if InRange(addr, |bytes|) && |bytes| > 0 {
        ViewIs();
        ViewWritable(Bits(), mem[..], addr, |bytes|);
        var ok := ClientWrite(addr, bytes);
        ViewIs();
        if ok {
          ViewHolds(old(Bits()), old(mem[..]), Bits(), mem[..], addr, bytes);
        } else {
          ViewRefuses(old(Bits()), mem[..], Bits(), addr, bytes);
        }
      }
      SavedSame();
    }

    method LoadStep(addr: int, size: nat)
      requires Valid()
      modifies this, pages, vas, mem
      ensures Valid() && ImagesKept() && Effect(Load(addr, size), mem.Length, old(Seen()), Seen())
      ensures fresh(pages - old(pages)) && fresh(vas - old(vas))
    {
      hide Valid, Structure, PagesOk, AuxOk, Bits, HeldPages, View, ViewOf, ViewFrom, ZeroedUndefined, SavedStates;
      if InRange(addr, size) && size > 0 {
        ViewIs();
        var r := TraceRead(addr, size);
        ViewIs();
        if mem[..] != old(mem[..]) {
          ViewLoads(Bits(), old(mem[..]), mem[..], addr, size);
        }
      }
      SavedSame();
    }

    method ExternStep(addr: int, bytes: seq<Byte>, check: bool)
      requires Valid()
      modifies this, pages, vas, mem
      ensures Valid() && ImagesKept() && Effect(Extern(addr, bytes, check), mem.Length, old(Seen()), Seen())
      ensures fresh(pages - old(pages)) && fresh(vas - old(vas))
    {
      hide Valid, Structure, PagesOk, AuxOk, Bits, HeldPages, View, ViewOf, ViewFrom, RangeSet, Stored, Overwriting,
           Writable, SavedStates;
      if InRange(addr, |bytes|) && |bytes| > 0 {
        ViewIs();
        ViewWritable(Bits(), mem[..], addr, |bytes|);
        var ok := ExternWrite(addr, bytes, check);
        ViewIs();
        if ok {
          ViewHolds(old(Bits()), old(mem[..]), Bits(), mem[..], addr, bytes);
        }
      }
      SavedSame();
    }

    /** A command that gives permissions to a range. */
    method PermsStep(c: Command)
      requires Valid() && (c.SetPerms? || c.LockRange? || c.UnlockRange?)
      modifies this, pages, vas, mem
      ensures Valid() && ImagesKept() && Effect(c, mem.Length, old(Seen()), Seen())
      ensures fresh(pages - old(pages)) && fresh(vas - old(vas))
    {
      hide Valid, Structure, PagesOk, AuxOk, Bits, HeldPages, View, ViewOf, ViewFrom, RangeSet, ZeroedUndefined,
           Permitting, Locking, SavedStates;
      ViewIs();
      match c {
        case SetPerms(addr, len, perm) =>
          if InRange(addr, len) {
            SetAddressRangePerms(addr, len, perm);
            ViewPermits(old(Bits()), mem[..], Bits(), addr, len, perm);
          }
        case LockRange(addr, len) =>
          if InRange(addr, len) {
            Lock(addr, len);
            ViewLocks(old(Bits()), old(mem[..]), Bits(), mem[..], addr, len);
          }
        case UnlockRange(addr, len) =>
          if InRange(addr, len) {
            Unlock(addr, len);
            ViewPermits(old(Bits()), mem[..], Bits(), addr, len, DEFINED);
          }
      }
      ViewIs();
      SavedSame();
    }

    method ScribbleStep(addr: int, value: Byte)
      requires Valid()
      modifies this, pages, vas, mem
      ensures Valid() && ImagesKept() && Effect(Scribble(addr, value), mem.Length, old(Seen()), Seen())
      ensures fresh(pages - old(pages)) && fresh(vas - old(vas))
    {
      hide Valid, Structure, PagesOk, AuxOk, Bits, HeldPages, View, ViewOf, SavedStates;
      ScribbleByte(addr, value);
      SavedSame();
    }

    method HashStep()
      requires Valid()
      modifies pages
      ensures Valid() && ImagesKept() && Effect(Hash, mem.Length, old(Seen()), Seen())
    {
      hide Valid, Structure, PagesOk, AuxOk, Bits, HeldPages, View, ViewOf, SavedStates, HashesPages, Shown, ViewHash;
      var digest := MemspaceHash();
      SavedSame();
    }

    /** A command about saved states or the blocks of the heap. */
    method StateStep(c: Command, ghost id: nat)
      requires Valid() && id in images && c != Forget(id)
      requires c.Save? || c.Restore? || c.Forget? || c.SetHeap? || c.Pull?
      modifies this, pages, vas, mem, heap
      ensures Valid() && StillHeld(id) && Effect(c, mem.Length, old(Seen()), Seen())
      ensures fresh(pages - old(pages)) && fresh(vas - old(vas))
    {
      hide Valid, Structure, PagesOk, AuxOk, Bits, HeldPages, View, ViewOf, Receivable;
      match c {
        case Save =>
          var new' := SaveStep();
        case Restore(k) => RestoreStep(k);
        case Forget(k) =>
          var ok := FreeState(k);
        case SetHeap(blocks) =>
          heap.blocks := blocks;
        case Pull(contents, blocks) => PullStep(contents, blocks);
      }
    }

    method SaveStep() returns (id: nat)
      requires Valid()
      modifies this, pages
      ensures Valid() && Effect(Save, mem.Length, old(Seen()), Seen()) && vas == old(vas) && pages == old(pages)
      ensures OthersKept() && id == old(nextId) && id in images
      ensures SavedView(id) == old(View()) && images[id].blocks == old(heap.blocks)
    {
      hide Valid, Structure, PagesOk, AuxOk, Bits, HeldPages, View, ViewOf;
      id := SaveState();
      Saved(id, Kept(View(), heap.blocks));
    }

    method RestoreStep(id: nat)
      requires Valid()
      modifies this, pages, vas, mem, heap
      ensures Valid() && Effect(Restore(id), mem.Length, old(Seen()), Seen()) && OthersKept()
      ensures id in old(images) ==>
          View() == old(SavedView(id)) && heap.blocks == old(images)[id].blocks
      ensures fresh(pages - old(pages)) && vas <= old(vas)
    {
      hide Valid, Structure, PagesOk, AuxOk, Bits, HeldPages, View, ViewOf, SavedView;
      var ok := RestoreState(id);
    }

    method PullStep(contents: seq<PageContent>, blocks: seq<Block>)
      requires Valid()
      modifies this, pages, vas
      ensures Valid() && Effect(Pull(contents, blocks), mem.Length, old(Seen()), Seen())
      ensures OthersKept()
      ensures fresh(pages - old(pages)) && fresh(vas - old(vas))
    {
      hide Valid, Structure, PagesOk, AuxOk, Bits, HeldPages, View, ViewOf, Receivable, ContentView;
      if Receivable(contents, mem.Length) {
        var id := AdoptState(contents, blocks);
        Saved(id, Kept(ContentView(contents, mem.Length), blocks));
      }
    }

    twostate predicate OthersKept()
      requires old(Structure()) && Structure()
      reads this, pages, vas
    {
      forall k :: k in old(images) ==> k in images && images[k] == old(images)[k] && SavedView(k) == old(SavedView(k))
    }

    /** A new state beside those that were saved before. */
    twostate lemma {:induction false} Saved(new id: nat, new kept: Kept)
      requires old(Structure()) && Structure() && id !in old(images) && images.Keys == old(images).Keys + {id}
      requires View() == old(View()) && heap.blocks == old(heap.blocks)
      requires SavedView(id) == kept.view && images[id].blocks == kept.blocks
      requires OthersKept()
      ensures SavesAs(old(Seen()), Seen(), kept)
    {
      hide Structure, View, SavedView;
      var a, b := old(Seen()), Seen();
      assert SavedStates() == old(SavedStates())[id := kept];
      assert id !in a.saved && b == a.(saved := a.saved[id := kept]);
    }

    method ScribbleByte(addr: int, value: Byte)
      requires Valid()
      modifies this, pages, vas, mem
      ensures Valid() && ImagesKept() && View() == old(View())
      ensures 0 <= addr < mem.Length && !PermIn(old(Bits()), addr).read ==> mem[addr] == value
      ensures fresh(pages - old(pages)) && fresh(vas - old(vas))
    {
      hide Valid, Structure, PagesOk, AuxOk, Bits, HeldPages, Dirty;
      if InRange(addr, 1) {
        var page := GetPage(addr);
        PresentBits(page);
        if !page.va.vabits[Offset(addr)].read {
          PutUnreadable(addr, value);
        }
      }
    }

    method PutUnreadable(addr: int, value: Byte)
      requires Valid() && 0 <= addr < mem.Length && !PermIn(Bits(), addr).read
      modifies mem
      ensures Valid() && ImagesKept() && View() == old(View()) && mem[addr] == value
    {
      hide Valid, Structure, Bits, HeldPages, PagesOk, Dirty, AuxOk, Base, Offset;
      mem[addr] := value;
      BytesChangedValid();
    }

    /** Snapshot exactness: a state that is saved, then survives any run of commands, and is restored gives back
        every permission, every readable byte and the block list of the heap. */
    method SaveRunRestore(commands: seq<Command>) returns (ghost seen: seq<Outside>)
      requires Valid() && Forget(nextId) !in commands
      modifies this, pages, vas, mem, heap
      ensures Valid() && View() == old(View()) && heap.blocks == old(heap.blocks)
      ensures IsRunOf(commands, mem.Length, seen) && Effect(Save, mem.Length, old(Seen()), seen[0])
      ensures Effect(Restore(old(nextId)), mem.Length, seen[|commands|], Seen())
    {
      hide Valid, Structure, PagesOk, AuxOk, Bits, HeldPages, View, ViewOf, SavedView, Effect, Seen;
      ghost var view, blocks, first := View(), heap.blocks, nextId;
      var id := SaveStep();
      seen := [Seen()];
      for i := 0 to |commands|
        invariant Valid() && id in images && SavedView(id) == view && images[id].blocks == blocks
        invariant IsRunOf(commands[..i], mem.Length, seen) && seen[i] == Seen()
        invariant Effect(Save, mem.Length, old(Seen()), seen[0])
        invariant fresh(pages - old(pages)) && fresh(vas - old(vas))
      {
        Step(commands[i], id);
        seen := seen + [Seen()];
      }
      assert commands[..|commands|] == commands;
      RestoreStep(id);
    }
  }

  method WriteBytes(mem: array<Byte>, a: int, bytes: seq<Byte>)
    requires 0 <= a && a + |bytes| <= mem.Length
    modifies mem
    ensures mem[..] == Stored(old(mem[..]), a, bytes)
  {
    var i := 0;
    while i < |bytes|
      invariant 0 <= i <= |bytes|
      invariant forall x :: 0 <= x < mem.Length ==> mem[x] == if a <= x < a + i then bytes[x - a] else old(mem[x])
    {
      mem[a + i] := bytes[i];
      i := i + 1;
    }
  }
}
