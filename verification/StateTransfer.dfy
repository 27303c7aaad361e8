/** A state that is pushed by one client and pulled by another one. */
module StateTransfer {
  import opened MemoryTypes
  import opened BlockList
  import opened PageMemory
  import opened Transport

  /** The pages of a list are what pages in memory store; only the flags are not known there. */
  ghost predicate StoresPages(pages: seq<Page>, held: map<Page, PageCopy>, ps: seq<PageImage>) {
    |ps| == |pages| && forall i :: 0 <= i < |ps| ==>
      && ps[i].base == pages[i].base && pages[i] in held
      && held[pages[i]] == PageCopy(ps[i].bits, ps[i].data)
  }

  ghost predicate Stores(m: MemorySpace, id: nat, s: StateImage)
    requires m.Structure() && id in m.images
    reads m, m.pages, m.vas
  {
    StoresPages(m.images[id].pages, m.HeldPages(), s.pages) && s.blocks == m.images[id].blocks
  }

  /** What the program may read lies in machine pages that it may also write, and unmapped ones have no permissions. */
  ghost predicate Ordinary(p: PageImage) {
    PageOk(p) && UnmappedIsNoAccess(p)
    && forall j: nat :: j < PAGE_SIZE && p.bits[j].read ==> ReadableRW(p, j)
  }

  /** What a pulled page contains. */
  function ContentOf(q: PageImage): PageContent
    requires q.data.Some?
  {
    PageContent(q.base, q.bits, q.data.value)
  }

  function Contents(qs: seq<PageImage>): (cs: seq<PageContent>)
    requires forall i :: 0 <= i < |qs| ==> qs[i].data.Some?
    ensures |cs| == |qs| && forall i :: 0 <= i < |qs| ==> cs[i] == ContentOf(qs[i])
  {
    if qs == [] then [] else [ContentOf(qs[0])] + Contents(qs[1..])
  }

  ghost predicate AllPulled(ps: seq<PageImage>, qs: seq<PageImage>) {
    |ps| == |qs| && forall i :: 0 <= i < |ps| ==> Ordinary(ps[i]) && Pulled(ps[i], qs[i])
  }

  lemma {:induction false} PulledCell(p: PageImage, q: PageImage, off: nat)
    requires Ordinary(p) && Pulled(p, q) && off < PAGE_SIZE
    ensures q.bits == p.bits && q.base == p.base
    ensures p.bits[off].read ==> p.data.Some? && |p.data.value| == PAGE_SIZE && q.data.value[off] == p.data.value[off]
  {
    PageRoundTrip(p, q);
    if p.bits[off].read {
      assert ReadableRW(p, off);
    }
  }

  /** What the pulled pages say about an address is what the state says about it. */
  lemma {:induction false} SameCell(pages: seq<Page>, held: map<Page, PageCopy>, ps: seq<PageImage>, qs: seq<PageImage>,
                                    a: int)
    requires StoresPages(pages, held, ps) && AllPulled(ps, qs)
    ensures forall i :: 0 <= i < |qs| ==> qs[i].data.Some?
    ensures CellOf(pages, held, a) == ContentCell(Contents(qs), a)
    decreases |ps|
  {
    hide Ordinary, Pulled;
    PulledHaveData(ps, qs);
    if ps != [] {
      PulledIs(ps[0], qs[0]);
      if ps[0].base == Base(a) {
        PulledCell(ps[0], qs[0], Offset(a));
        assert FindPage(pages, Base(a)) == pages[0];
      } else {
        assert pages[0].base == ps[0].base;
        assert FindPage(pages, Base(a)) == FindPage(pages[1..], Base(a));
        assert Contents(qs) == [ContentOf(qs[0])] + Contents(qs[1..]);
        assert Contents(qs)[1..] == Contents(qs[1..]);
        SameCell(pages[1..], held, ps[1..], qs[1..], a);
      }
    }
  }

  lemma PulledIs(p: PageImage, q: PageImage)
    requires Ordinary(p) && Pulled(p, q)
    ensures q.base == p.base && |q.bits| == PAGE_SIZE && q.data.Some? && |q.data.value| == PAGE_SIZE
    ensures |p.bits| == PAGE_SIZE
  {
  }

  lemma {:induction false} SameView(m: MemorySpace, id: nat, s: StateImage, qs: seq<PageImage>)
    requires m.Structure() && id in m.images && Stores(m, id, s) && AllPulled(s.pages, qs)
    requires forall i :: 0 <= i < |qs| ==> qs[i].data.Some?
    ensures ContentView(Contents(qs), m.mem.Length) == m.SavedView(id)
  {
    hide AllPulled, StoresPages, CellOf, ContentCell;
    forall a | 0 <= a < m.mem.Length
      ensures CellOf(m.images[id].pages, m.HeldPages(), a) == ContentCell(Contents(qs), a)
    {
      SameCell(m.images[id].pages, m.HeldPages(), s.pages, qs, a);
    }
  }

  lemma PulledHaveData(ps: seq<PageImage>, qs: seq<PageImage>)
    requires AllPulled(ps, qs)
    ensures forall i :: 0 <= i < |qs| ==> qs[i].data.Some?
  {
  }

  /** The pulled pages fit into the memory of the other client. */
  lemma {:induction false} PulledFit(m: MemorySpace, id: nat, s: StateImage, qs: seq<PageImage>)
    requires m.Valid() && id in m.images && Stores(m, id, s) && AllPulled(s.pages, qs)
    ensures (forall i :: 0 <= i < |qs| ==> qs[i].data.Some?) && Receivable(Contents(qs), m.mem.Length)
  {
    hide Ordinary, Pulled;
    forall i | 0 <= i < |qs|
      ensures qs[i].base == m.images[id].pages[i].base && qs[i].data.Some?
              && |qs[i].bits| == PAGE_SIZE && |qs[i].data.value| == PAGE_SIZE
    {
      PulledIs(s.pages[i], qs[i]);
    }
    PagesFit(m, id);
  }

  lemma PagesFit(m: MemorySpace, id: nat)
    requires m.Valid() && id in m.images
    ensures forall p :: p in m.images[id].pages ==> Offset(p.base) == 0 && 0 <= p.base
                                                    && p.base + PAGE_SIZE <= m.mem.Length
    ensures var pages := m.images[id].pages;
            forall i, j :: 0 <= i < j < |pages| ==> pages[i].base < pages[j].base
  {
  }

  /** A state that has been pulled is restored. */
  method PullAndRestore(to: MemorySpace, cs: seq<PageContent>, blocks: seq<Block>)
    requires to.Valid() && Receivable(cs, to.mem.Length)
    modifies to, to.pages, to.vas, to.mem, to.heap
    ensures to.Valid() && to.View() == ContentView(cs, to.mem.Length) && to.heap.blocks == blocks
    ensures forall k :: k in old(to.images) ==>
                      k in to.images && to.images[k] == old(to.images)[k] && to.SavedView(k) == old(to.SavedView(k))
  {
    hide *;
    var k := to.AdoptState(cs, blocks);
    var ok := to.RestoreState(k);
  }

  /** A state is transferred and restored: unless the last write falls short, the program sees in the other client what
      it saw when the state was saved, and the heap has the same blocks. */
  method TransferAndRestore(from: MemorySpace, id: nat, s: StateImage, to: MemorySpace) returns (ok: bool)
    requires from.Valid() && to.Valid() && to.mem.Length == from.mem.Length
    requires id in from.images && Stores(from, id, s) && StateOk(s)
    requires forall i :: 0 <= i < |s.pages| ==> Ordinary(s.pages[i])
    modifies to, to.pages, to.vas, to.mem, to.heap
    ensures to.Valid()
    ensures ok ==> to.View() == old(from.SavedView(id)) && to.heap.blocks == old(from.images[id].blocks)
    ensures !ok ==> to.View() == old(to.View()) && to.images == old(to.images)
    ensures forall k :: k in old(to.images) ==>
                      k in to.images && to.images[k] == old(to.images)[k] && to.SavedView(k) == old(to.SavedView(k))
  {
    hide *;
    var q := Transfer(s);
    if q.None? {
      return false;
    }
    StateArrives(from, id, s, q.value);
    PullAndRestore(to, Contents(q.value.pages), q.value.blocks);
    ok := true;
  }

  /** What arrives of a state can be restored in the other client, and shows what the state shows. */
  lemma {:induction false} StateArrives(m: MemorySpace, id: nat, s: StateImage, q: StateImage)
    requires m.Valid() && id in m.images && Stores(m, id, s)
    requires StateOk(s) && StatePulled(s, q) && forall i :: 0 <= i < |s.pages| ==> Ordinary(s.pages[i])
    ensures forall i :: 0 <= i < |q.pages| ==> q.pages[i].data.Some?
    ensures Receivable(Contents(q.pages), m.mem.Length)
    ensures ContentView(Contents(q.pages), m.mem.Length) == m.SavedView(id) && q.blocks == m.images[id].blocks
  {
    ArePulled(s, q);
    PulledFit(m, id, s, q.pages);
    SameView(m, id, s, q.pages);
    SameBlocks(m, id, s);
    hide *;
  }

  lemma SameBlocks(m: MemorySpace, id: nat, s: StateImage)
    requires m.Structure() && id in m.images && Stores(m, id, s)
    ensures s.blocks == m.images[id].blocks
  {
  }

  lemma {:induction false} ArePulled(s: StateImage, q: StateImage)
    requires StateOk(s) && StatePulled(s, q) && forall i :: 0 <= i < |s.pages| ==> Ordinary(s.pages[i])
    ensures AllPulled(s.pages, q.pages) && q.blocks == s.blocks
  {
    hide Ordinary, Pulled, PageOk;
  }
}
