/** The transfer of a saved state from one client to another: what is written to a socket, and what is made of it when
    it is read back. */
module Transport {
  import opened MemoryTypes
  import opened BlockList

  const PAGEFLAG_UNMAPPED: nat := 0
  const PAGEFLAG_RW: nat := 7

  /** How a machine page travels: the upper half of its flag byte. */
  const T_NOACCESS: nat := 0
  const T_UNDEFINED: nat := 1
  const T_FULL: nat := 2
  const T_DEFINED: nat := 3
  const T_READONLY: nat := 4
  const T_VAONLY: nat := 5

  const BUFFER_SIZE: nat := 163840

  // ---- bytes ---------------------------------------------------------------------------------------

  /** `k` bytes of a number, the lowest first. */
  function BytesOf(n: int, k: nat): (bytes: seq<Byte>)
    ensures |bytes| == k
    decreases k
  {
    if k == 0 then [] else [(n % 256) as Byte] + BytesOf(n / 256, k - 1)
  }

  function ValueOf(bytes: seq<Byte>): int {
    if bytes == [] then 0 else bytes[0] as int + 256 * ValueOf(bytes[1..])
  }

  /** The number fits into `k` bytes. */
  predicate FitsInto(n: int, k: nat)
    decreases k
  {
    n >= 0 && (if k == 0 then n == 0 else FitsInto(n / 256, k - 1))
  }

  lemma {:induction false} ValueOfBytes(n: int, k: nat)
    requires FitsInto(n, k)
    ensures ValueOf(BytesOf(n, k)) == n
  {
    if k > 0 {
      ValueOfBytes(n / 256, k - 1);
      assert BytesOf(n, k)[1..] == BytesOf(n / 256, k - 1);
    }
  }

  function BytePerms(bytes: seq<Byte>): (bits: seq<Perm>)
    ensures |bits| == |bytes|
  {
    seq(|bytes|, j requires 0 <= j < |bytes| => Perm(bytes[j] as int / 2 % 2 == 1, bytes[j] as int % 2 == 1))
  }

  lemma PermsOfBytes(bits: seq<Perm>)
    ensures BytePerms(Codes(bits)) == bits
  {
  }

  // ---- a page on the wire ------------------------------------------------------------------------------

  /** A page: flags of its machine pages, permissions, and the stored bytes, if any. */
  datatype PageImage = PageImage(base: int, flags: seq<nat>, bits: seq<Perm>, data: Option<seq<Byte>>)

  ghost predicate PageOk(p: PageImage) {
    && 0 <= p.base && FitsInto(p.base, 8) && Offset(p.base) == 0
    && |p.flags| == REAL_PAGES && (forall k :: 0 <= k < REAL_PAGES ==> p.flags[k] < 16)
    && |p.bits| == PAGE_SIZE && (p.data.Some? ==> |p.data.value| == PAGE_SIZE)
    && (forall k: nat :: k < REAL_PAGES && SendsData(CodeOf(p.flags[k], Part(p.bits, k))) ==> p.data.Some?)
  }

  /** The `k`-th machine page of a page. */
  function Part<T>(s: seq<T>, k: nat): (part: seq<T>)
    requires |s| == PAGE_SIZE && k < REAL_PAGES
    ensures |part| == REAL_PAGE
  {
    s[REAL_PAGE * k..REAL_PAGE * (k + 1)]
  }

  function AllPerm(perm: Perm): (bits: seq<Perm>)
    ensures |bits| == REAL_PAGE && forall j :: 0 <= j < REAL_PAGE ==> bits[j] == perm
  {
    seq(REAL_PAGE, _ => perm)
  }

  function Zeros(): (bytes: seq<Byte>)
    ensures |bytes| == REAL_PAGE && forall j :: 0 <= j < REAL_PAGE ==> bytes[j] == 0
  {
    seq(REAL_PAGE, _ => 0)
  }

  predicate Uniform(bits: seq<Perm>) {
    bits != [] && forall j :: 0 <= j < |bits| ==> bits[j] == bits[0]
  }

  function CodeOf(flag: nat, bits: seq<Perm>): nat
    requires |bits| == REAL_PAGE
  {
    if flag == PAGEFLAG_UNMAPPED then T_NOACCESS
    else if flag != PAGEFLAG_RW then T_VAONLY
    else if !Uniform(bits) then T_FULL
    else UniformCode(bits[0])
  }

  function UniformCode(perm: Perm): nat {
    if perm == DEFINED then T_DEFINED
    else if perm == NOACCESS then T_NOACCESS
    else if perm == UNDEFINED then T_UNDEFINED
    else T_READONLY
  }

  predicate SendsVa(code: nat) {
    code == T_VAONLY || code == T_FULL
  }

  predicate SendsData(code: nat) {
    code == T_DEFINED || code == T_READONLY || code == T_FULL
  }

  function PageCode(p: PageImage, k: nat): nat
    requires |p.flags| == REAL_PAGES && |p.bits| == PAGE_SIZE && k < REAL_PAGES
  {
    CodeOf(p.flags[k], Part(p.bits, k))
  }

  /** The flag byte of a machine page: its flag, and how it travels. */
  function FlagByte(flag: nat, code: nat): Byte
    requires flag < 16 && code < 16
  {
    (flag + 16 * code) as Byte
  }

  ghost function HeaderFlags(p: PageImage, n: nat): (bytes: seq<Byte>)
    requires PageOk(p) && n <= REAL_PAGES
    ensures |bytes| == n
    ensures forall k: nat :: k < n ==> bytes[k] == FlagByte(p.flags[k], PageCode(p, k))
  {
    if n == 0 then [] else HeaderFlags(p, n - 1) + [FlagByte(p.flags[n - 1], PageCode(p, n - 1))]
  }

  /** What travels of the permissions of a machine page. */
  ghost function VaPiece(p: PageImage, k: nat): seq<Byte>
    requires PageOk(p) && k < REAL_PAGES
  {
    if SendsVa(PageCode(p, k)) then Codes(Part(p.bits, k)) else []
  }

  ghost function DataPiece(p: PageImage, k: nat): seq<Byte>
    requires PageOk(p) && k < REAL_PAGES
  {
    if SendsData(PageCode(p, k)) then Part(p.data.value, k) else []
  }

  /** What travels of the permissions from machine page `k` on. */
  ghost function VaFrom(p: PageImage, k: nat): seq<Byte>
    requires PageOk(p) && k <= REAL_PAGES
    decreases REAL_PAGES - k
  {
    if k == REAL_PAGES then [] else VaPiece(p, k) + VaFrom(p, k + 1)
  }

  /** What travels of the stored bytes from machine page `k` on. */
  ghost function DataFrom(p: PageImage, k: nat): seq<Byte>
    requires PageOk(p) && k <= REAL_PAGES
    decreases REAL_PAGES - k
  {
    if k == REAL_PAGES then [] else DataPiece(p, k) + DataFrom(p, k + 1)
  }

  ghost function PageStream(p: PageImage): seq<Byte>
    requires PageOk(p)
  {
    BytesOf(p.base, 8) + HeaderFlags(p, REAL_PAGES) + (VaFrom(p, 0) + DataFrom(p, 0))
  }

  // ---- what travels of a page ------------------------------------------------------------------------

  ghost predicate Mixed(bits: seq<Perm>) {
    exists j, l :: 0 <= j < l < |bits| && bits[j] != bits[l]
  }

  /** Of an unmapped machine page nothing travels. Another page sends its permissions unless the client may read and
      write it and they are all the same; it sends its bytes if the client may read and write it and some byte of it
      is readable, or the permissions differ. */
  lemma {:induction false} WhatTravels(flag: nat, bits: seq<Perm>)
    requires |bits| == REAL_PAGE
    ensures SendsVa(CodeOf(flag, bits)) <==> flag != PAGEFLAG_UNMAPPED && (flag == PAGEFLAG_RW ==> Mixed(bits))
    ensures SendsData(CodeOf(flag, bits)) <==> flag == PAGEFLAG_RW && (Mixed(bits) || bits[0].read)
  {
    if Uniform(bits) {
      assert !Mixed(bits);
    } else {
      var j :| 0 <= j < |bits| && bits[j] != bits[0];
      assert 0 < j && Mixed(bits);
    }
  }

  ghost predicate NeedsVa(p: PageImage, k: nat)
    requires PageOk(p) && k < REAL_PAGES
  {
    p.flags[k] != PAGEFLAG_UNMAPPED && (p.flags[k] == PAGEFLAG_RW ==> Mixed(Part(p.bits, k)))
  }

  ghost predicate NeedsData(p: PageImage, k: nat)
    requires PageOk(p) && k < REAL_PAGES
  {
    p.flags[k] == PAGEFLAG_RW && (Mixed(Part(p.bits, k)) || Part(p.bits, k)[0].read)
  }

  /** Machine pages from `k` on whose permissions travel. */
  ghost function VaParts(p: PageImage, k: nat): set<nat>
    requires PageOk(p)
  {
    set n: nat | k <= n < REAL_PAGES && NeedsVa(p, n)
  }

  /** Machine pages from `k` on whose bytes travel. */
  ghost function DataParts(p: PageImage, k: nat): set<nat>
    requires PageOk(p)
  {
    set n: nat | k <= n < REAL_PAGES && NeedsData(p, n)
  }

  lemma {:induction false} VaLength(p: PageImage, k: nat)
    requires PageOk(p) && k <= REAL_PAGES
    ensures |VaFrom(p, k)| == REAL_PAGE * |VaParts(p, k)|
    decreases REAL_PAGES - k
  {
    hide PageOk, NeedsVa, SendsVa, PageCode, VaPiece;
    if k < REAL_PAGES {
      VaLength(p, k + 1);
      PieceTravels(p, k);
      assert VaParts(p, k) == if NeedsVa(p, k) then VaParts(p, k + 1) + {k} else VaParts(p, k + 1);
      assert k !in VaParts(p, k + 1);
    } else {
      assert VaParts(p, k) == {};
    }
  }

  lemma {:induction false} DataLength(p: PageImage, k: nat)
    requires PageOk(p) && k <= REAL_PAGES
    ensures |DataFrom(p, k)| == REAL_PAGE * |DataParts(p, k)|
    decreases REAL_PAGES - k
  {
    hide PageOk, NeedsData, SendsData, PageCode, DataPiece;
    if k < REAL_PAGES {
      DataLength(p, k + 1);
      PieceTravels(p, k);
      assert DataParts(p, k) == if NeedsData(p, k) then DataParts(p, k + 1) + {k} else DataParts(p, k + 1);
      assert k !in DataParts(p, k + 1);
    } else {
      assert DataParts(p, k) == {};
    }
  }

  lemma {:induction false} PieceTravels(p: PageImage, k: nat)
    requires PageOk(p) && k < REAL_PAGES
    ensures |VaPiece(p, k)| == (if NeedsVa(p, k) then REAL_PAGE else 0)
    ensures |DataPiece(p, k)| == (if NeedsData(p, k) then REAL_PAGE else 0)
  {
    WhatTravels(p.flags[k], Part(p.bits, k));
  }

  /** Of a page travel its header, the permissions of some machine pages and the bytes of some, and nothing else. */
  lemma {:induction false} PageLength(p: PageImage)
    requires PageOk(p)
    ensures |PageStream(p)| == 8 + REAL_PAGES + REAL_PAGE * |VaParts(p, 0)| + REAL_PAGE * |DataParts(p, 0)|
  {
    hide VaFrom, DataFrom, PageOk;
    VaLength(p, 0);
    DataLength(p, 0);
  }

  /** Permissions that the receiver gives to a machine page. */
  function PulledBits(code: nat, sent: seq<Perm>): seq<Perm> {
    if code == T_DEFINED then AllPerm(DEFINED)
    else if code == T_NOACCESS then AllPerm(NOACCESS)
    else if code == T_UNDEFINED then AllPerm(UNDEFINED)
    else if code == T_READONLY then AllPerm(READONLY)
    else sent
  }

  /** Unmapped machine pages have no permissions. */
  ghost predicate UnmappedIsNoAccess(p: PageImage)
    requires PageOk(p)
  {
    forall k: nat, j :: k < REAL_PAGES && p.flags[k] == PAGEFLAG_UNMAPPED && 0 <= j < REAL_PAGE
          ==> Part(p.bits, k)[j] == NOACCESS
  }

  /** What a machine page looks like on the other side. */
  ghost predicate PartPulled(p: PageImage, q: PageImage, k: nat)
    requires PageOk(p) && |q.bits| == PAGE_SIZE && q.data.Some? && |q.data.value| == PAGE_SIZE && k < REAL_PAGES
  {
    && Part(q.bits, k) == (if p.flags[k] == PAGEFLAG_UNMAPPED then AllPerm(NOACCESS) else Part(p.bits, k))
    && Part(q.data.value, k) == (if SendsData(PageCode(p, k)) then Part(p.data.value, k) else Zeros())
  }

  ghost predicate Pulled(p: PageImage, q: PageImage)
    requires PageOk(p)
  {
    && q.base == p.base && q.flags == p.flags && |q.bits| == PAGE_SIZE && q.data.Some? && |q.data.value| == PAGE_SIZE
    && forall k: nat :: k < REAL_PAGES ==> PartPulled(p, q, k)
  }

  /** Byte `j` of a page that the program may read. */
  ghost predicate ReadableRW(p: PageImage, j: nat)
    requires PageOk(p) && j < PAGE_SIZE
  {
    p.flags[j / 4096] == PAGEFLAG_RW && p.bits[j].read
  }

  lemma PartAt<T>(s: seq<T>, j: nat)
    requires |s| == PAGE_SIZE && j < PAGE_SIZE
    ensures j / 4096 < REAL_PAGES && j % 4096 < REAL_PAGE && Part(s, j / 4096)[j % 4096] == s[j]
  {
    assert j == 4096 * (j / 4096) + j % 4096;
  }

  lemma PartsEqual<T>(s: seq<T>, t: seq<T>)
    requires |s| == PAGE_SIZE && |t| == PAGE_SIZE && forall k: nat :: k < REAL_PAGES ==> Part(s, k) == Part(t, k)
    ensures s == t
  {
    forall j: nat | j < PAGE_SIZE ensures s[j] == t[j] {
      PartAt(s, j);
      PartAt(t, j);
    }
  }

  /** The round trip of a page. Its permissions arrive exactly when unmapped machine pages have none. */
  lemma PageRoundTrip(p: PageImage, q: PageImage)
    requires PageOk(p) && Pulled(p, q)
    ensures q.base == p.base && q.flags == p.flags
    ensures q.bits == p.bits <==> UnmappedIsNoAccess(p)
    ensures forall j: nat :: j < PAGE_SIZE && ReadableRW(p, j) ==> p.data.Some? && q.data.value[j] == p.data.value[j]
  {
    if UnmappedIsNoAccess(p) {
      forall k: nat | k < REAL_PAGES ensures Part(q.bits, k) == Part(p.bits, k) {
        assert PartPulled(p, q, k);
      }
      PartsEqual(q.bits, p.bits);
    }
    if q.bits == p.bits {
      forall k: nat, j | k < REAL_PAGES && p.flags[k] == PAGEFLAG_UNMAPPED && 0 <= j < REAL_PAGE
            ensures Part(p.bits, k)[j] == NOACCESS {
        assert PartPulled(p, q, k);
      }
    }
    forall j: nat | j < PAGE_SIZE && ReadableRW(p, j) ensures p.data.Some? && q.data.value[j] == p.data.value[j] {
      ReadableArrives(p, q, j);
    }
  }

  lemma ReadableArrives(p: PageImage, q: PageImage, j: nat)
    requires PageOk(p) && Pulled(p, q) && j < PAGE_SIZE && ReadableRW(p, j)
    ensures p.data.Some? && q.data.value[j] == p.data.value[j]
  {
    PartAt(p.bits, j);
    assert PartPulled(p, q, j / 4096);
    assert SendsData(PageCode(p, j / 4096));
    PartAt(p.data.value, j);
    PartAt(q.data.value, j);
  }

  // ---- pages that lose permissions ---------------------------------------------------------------------

  /** mem_unmap inside a page: the bytes of the range lose their permissions, the machine pages that it meets lose
      their mapping. */
  function Unmap(p: PageImage, from: nat, len: nat): PageImage
    requires |p.flags| == REAL_PAGES && |p.bits| == PAGE_SIZE
  {
    PageImage(p.base,
              seq(REAL_PAGES, k requires 0 <= k < REAL_PAGES =>
                  if from <= REAL_PAGE * k < from + len then PAGEFLAG_UNMAPPED else p.flags[k]),
              seq(PAGE_SIZE, j requires 0 <= j < PAGE_SIZE =>
                  if from <= j < from + len then NOACCESS else p.bits[j]),
              p.data)
  }

  lemma UnmapPart(p: PageImage, from: nat, len: nat, k: nat)
    requires |p.flags| == REAL_PAGES && |p.bits| == PAGE_SIZE && from % REAL_PAGE == 0 && k < REAL_PAGES
    ensures !(from <= REAL_PAGE * k < from + len) ==> Part(Unmap(p, from, len).bits, k) == Part(p.bits, k)
    ensures forall j :: 0 <= j < REAL_PAGE ==>
        Part(Unmap(p, from, len).bits, k)[j] == Unmap(p, from, len).bits[REAL_PAGE * k + j]
  {
    var q, m := Unmap(p, from, len), from / REAL_PAGE;
    assert from == REAL_PAGE * m;
    if !(from <= REAL_PAGE * k < from + len) {
      forall j | 0 <= j < REAL_PAGE ensures Part(q.bits, k)[j] == Part(p.bits, k)[j] {
        assert from <= REAL_PAGE * k + j ==> m <= k;
        assert !(from <= REAL_PAGE * k + j < from + len);
        assert Part(q.bits, k)[j] == q.bits[REAL_PAGE * k + j] && Part(p.bits, k)[j] == p.bits[REAL_PAGE * k + j];
      }
    }
  }

  lemma {:induction false} UnmapOk(p: PageImage, from: nat, len: nat)
    requires PageOk(p) && from % REAL_PAGE == 0
    ensures PageOk(Unmap(p, from, len))
  {
    hide Part, CodeOf;
    var q := Unmap(p, from, len);
    forall k: nat | k < REAL_PAGES && SendsData(CodeOf(q.flags[k], Part(q.bits, k))) ensures q.data.Some? {
      UnmapPart(p, from, len, k);
      if q.flags[k] == PAGEFLAG_UNMAPPED {
        UnmappedCode(Part(q.bits, k));
      }
    }
  }

  lemma UnmappedCode(bits: seq<Perm>)
    requires |bits| == REAL_PAGE
    ensures !SendsData(CodeOf(PAGEFLAG_UNMAPPED, bits))
  {
  }

  lemma PageLengths(p: PageImage)
    requires PageOk(p)
    ensures |p.flags| == REAL_PAGES && |p.bits| == PAGE_SIZE
  {
  }

  /** Unmapping whole machine pages takes away permissions and mapping together. A range that ends inside a machine
      page takes away the mapping of the bytes behind it as well: these are the pages whose permissions do not arrive,
      unless the bytes had none. */
  lemma {:induction false} UnmapKeepsExactly(p: PageImage, from: nat, len: nat)
    requires PageOk(p) && UnmappedIsNoAccess(p) && from % REAL_PAGE == 0 && from + len <= PAGE_SIZE
    ensures PageOk(Unmap(p, from, len))
    ensures UnmappedIsNoAccess(Unmap(p, from, len)) <==> forall j :: BehindRange(from, len, j) ==> p.bits[j] == NOACCESS
  {
    UnmapOk(p, from, len);
    var q := Unmap(p, from, len);
    hide PageOk, CodeOf;
    assert |p.flags| == |q.flags| == REAL_PAGES && |p.bits| == |q.bits| == PAGE_SIZE by { PageLengths(p); }
    if UnmappedIsNoAccess(q) {
      forall j | BehindRange(from, len, j) ensures p.bits[j] == NOACCESS {
        var k := j / REAL_PAGE;
        UnmapPart(p, from, len, k);
        assert Part(q.bits, k)[j - REAL_PAGE * k] == q.bits[j];
      }
    }
    if forall j :: BehindRange(from, len, j) ==> p.bits[j] == NOACCESS {
      forall k: nat, j | k < REAL_PAGES && q.flags[k] == PAGEFLAG_UNMAPPED && 0 <= j < REAL_PAGE
            ensures Part(q.bits, k)[j] == NOACCESS {
        UnmapPart(p, from, len, k);
        if from <= REAL_PAGE * k < from + len {
          InMachinePage(k, j);
          assert q.bits[REAL_PAGE * k + j] == NOACCESS;
        } else {
          assert Part(p.bits, k)[j] == NOACCESS;
        }
      }
    }
  }

  /** Byte `j` lies behind a range of bytes, in the machine page in which the range ends. */
  ghost predicate BehindRange(from: nat, len: nat, j: int) {
    len > 0 && from + len <= j < PAGE_SIZE && from <= REAL_PAGE * (j / REAL_PAGE) < from + len
  }

  lemma InMachinePage(k: nat, j: nat)
    requires j < REAL_PAGE
    ensures (REAL_PAGE * k + j) / REAL_PAGE == k
  {
  }

  /** An instance: of a readable and writable page, one byte is unmapped. */
  lemma {:induction false} PermissionsGetLost() returns (p: PageImage)
    ensures PageOk(p) && !UnmappedIsNoAccess(p) && forall q :: Pulled(p, q) ==> q.bits != p.bits
  {
    var full := PageImage(0, seq(REAL_PAGES, _ => PAGEFLAG_RW), seq(PAGE_SIZE, _ => DEFINED),
                          Some(seq(PAGE_SIZE, _ => 0)));
    assert PageOk(full) && UnmappedIsNoAccess(full);
    UnmapKeepsExactly(full, 0, 1);
    assert BehindRange(0, 1, 1) && full.bits[1] == DEFINED;
    p := Unmap(full, 0, 1);
    forall q | Pulled(p, q) ensures q.bits != p.bits {
      PageRoundTrip(p, q);
    }
  }

  // ---- sockets and their buffers -------------------------------------------------------------------------

  /** The bytes on their way. Writing and reading take as many bytes as they like, but at least one. */
  class Socket {
    var bytes: seq<Byte>

    constructor ()
      ensures bytes == []
    {
      bytes := [];
    }

    method Write(data: seq<Byte>) returns (written: nat)
      requires data != []
      modifies this
      ensures 0 < written <= |data| && bytes == old(bytes) + data[..written]
    {
      written :| 0 < written <= |data|;
      bytes := bytes + data[..written];
    }

    method Read(max: nat) returns (data: seq<Byte>)
      requires bytes != [] && max > 0
      modifies this
      ensures 0 < |data| <= max && old(bytes) == data + bytes
    {
      var n: nat :| 0 < n <= max && n <= |bytes|;
      data := bytes[..n];
      bytes := bytes[n..];
    }
  }

  class SocketWriteBuffer {
    const buffer: array<Byte>
    const socket: Socket
    var size: nat

    constructor (bufferSize: nat, socket: Socket)
      ensures size == 0 && this.socket == socket && fresh(buffer) && buffer.Length == bufferSize
    {
      this.socket, size := socket, 0;
      buffer := new Byte[bufferSize];
    }

    /** All that has been written, sent or not. */
    ghost function Stream(): seq<Byte>
      requires size <= buffer.Length
      reads this, buffer, socket
    {
      socket.bytes + buffer[..size]
    }

    /** swb_write: makes room for `n` more bytes and tells where; the buffer is sent first when they would fill it. Its
        assertions are the precondition. */
    method Reserve(n: nat) returns (at: nat)
      requires size <= buffer.Length && n <= buffer.Length && (size + n >= buffer.Length ==> size > 0)
      modifies this`size, socket
      ensures at + n == size <= buffer.Length
      ensures socket.bytes + buffer[..at] == old(Stream())
    {
      if size + n >= buffer.Length {
        var sent := 0;
        while sent < size
          invariant sent <= size == old(size)
          invariant socket.bytes + buffer[sent..size] == old(Stream())
        {
          var written := socket.Write(buffer[sent..size]);
          assert buffer[sent..size] == buffer[sent..sent + written] + buffer[sent + written..size];
          sent := sent + written;
        }
        size := n;
        at := 0;
      } else {
        at := size;
        size := size + n;
      }
    }

    method Put(at: nat, data: seq<Byte>)
      requires at + |data| <= buffer.Length
      modifies buffer
      ensures buffer[..at] == old(buffer[..at]) && buffer[at..at + |data|] == data
    {
      for k := 0 to |data|
        invariant forall j :: 0 <= j < at ==> buffer[j] == old(buffer[j])
        invariant forall j :: 0 <= j < k ==> buffer[at + j] == data[j]
      {
        buffer[at + k] := data[k];
      }
    }

    method Append(data: seq<Byte>)
      requires size <= buffer.Length && |data| <= buffer.Length && (size + |data| >= buffer.Length ==> size > 0)
      modifies this`size, socket, buffer
      ensures size <= buffer.Length && (|data| > 0 || old(size) > 0 ==> size > 0 || |data| == 0)
      ensures Stream() == old(Stream()) + data
    {
      var at := Reserve(|data|);
      Put(at, data);
      assert buffer[..size] == buffer[..at] + data;
    }

    /** swb_end: one write; it fails when the socket does not take everything at once. */
    method Finish() returns (ok: bool)
      requires size <= buffer.Length
      modifies socket
      ensures ok <==> socket.bytes == old(Stream())
    {
      if size == 0 {
        return true;
      }
      var written := socket.Write(buffer[..size]);
      ok := written == size;
    }
  }

  class SocketReadBuffer {
    const buffer: array<Byte>
    const socket: Socket
    var ptr: nat
    var size: nat

    ghost predicate Valid()
      reads this
    {
      ptr <= size <= buffer.Length
    }

    /** All that is still to be read. */
    ghost function Rest(): seq<Byte>
      requires Valid()
      reads this, buffer, socket
    {
      buffer[ptr..size] + socket.bytes
    }

    constructor (bufferSize: nat, socket: Socket)
      requires bufferSize > 0 && socket.bytes != []
      modifies socket
      ensures Valid() && fresh(buffer) && this.socket == socket && buffer.Length == bufferSize
              && Rest() == old(socket.bytes)
    {
      this.socket, ptr, size := socket, 0, 0;
      buffer := new Byte[bufferSize];
      new;
      Receive();
    }

    /** One read from the socket, behind what the buffer holds. */
    method Receive()
      requires Valid() && size < buffer.Length && socket.bytes != []
      modifies this`size, socket, buffer
      ensures Valid() && size > old(size) && Rest() == old(Rest())
    {
      var data := socket.Read(buffer.Length - size);
      for k := 0 to |data|
        invariant Valid() && size == old(size) && ptr == old(ptr) && old(socket.bytes) == data + socket.bytes
        invariant forall j :: 0 <= j < size ==> buffer[j] == old(buffer[j])
        invariant forall j :: 0 <= j < k ==> buffer[size + j] == data[j]
      {
        buffer[size + k] := data[k];
      }
      assert buffer[ptr..size + |data|] == old(buffer[ptr..size]) + data;
      size := size + |data|;
    }

    /** The unread bytes move to the start of the buffer. */
    method Compact()
      requires Valid()
      modifies this, buffer
      ensures Valid() && ptr == 0 && size == old(size - ptr) && Rest() == old(Rest())
    {
      var remaining := size - ptr;
      for k := 0 to remaining
        invariant ptr + remaining == size
        invariant forall j :: 0 <= j < k ==> buffer[j] == old(buffer[ptr + j])
        invariant forall j :: k <= j < buffer.Length ==> buffer[j] == old(buffer[j])
        invariant ptr == old(ptr) && size == old(size)
      {
        buffer[k] := buffer[ptr + k];
      }
      assert buffer[..remaining] == old(buffer[ptr..size]);
      ptr, size := 0, remaining;
    }

    /** srb_read: the next `n` bytes, in whatever portions the socket delivers them. */
    method Read(n: nat) returns (r: seq<Byte>)
      requires Valid() && n <= buffer.Length && n <= |Rest()|
      modifies this, socket, buffer
      ensures Valid() && r == old(Rest())[..n] && Rest() == old(Rest())[n..]
    {
      ghost var rest := Rest();
      var remaining := size - ptr;
      if remaining < n {
        Compact();
        while size < n
          invariant Valid() && ptr == 0 && Rest() == rest
          decreases n - size
        {
          Receive();
        }
      }
      r := buffer[ptr..ptr + n];
      assert rest[..n] == r;
      assert rest[n..] == buffer[ptr + n..size] + socket.bytes;
      ptr := ptr + n;
    }
  }

  // ---- pages through the buffers -----------------------------------------------------------------------

  lemma SplitAt<T>(a: seq<T>, b: seq<T>)
    ensures (a + b)[..|a|] == a && (a + b)[|a|..] == b
  {
  }

  /** How a machine page travels, and what travels with it. */
  method ClassifyPart(p: PageImage, i: nat) returns (flag: Byte, va: seq<Byte>, data: seq<Byte>)
    requires PageOk(p) && i < REAL_PAGES
    ensures flag == FlagByte(p.flags[i], PageCode(p, i)) && va == VaPiece(p, i) && data == DataPiece(p, i)
    ensures |va| <= REAL_PAGE && |data| <= REAL_PAGE
  {
    var bits := Part(p.bits, i);
    var code := CodeOf(p.flags[i], bits);
    flag := FlagByte(p.flags[i], code);
    va := if SendsVa(code) then Codes(bits) else [];
    data := if SendsData(code) then Part(p.data.value, i) else [];
  }

  /** The first half of push_page: what travels with all machine pages. */
  method Classify(p: PageImage) returns (flags: seq<Byte>, va: seq<Byte>, data: seq<Byte>)
    requires PageOk(p)
    ensures flags == HeaderFlags(p, REAL_PAGES) && va == VaFrom(p, 0) && data == DataFrom(p, 0)
    ensures |va| <= PAGE_SIZE && |data| <= PAGE_SIZE
  {
    hide PageOk, PageCode, VaPiece, DataPiece, VaFrom, DataFrom;
    assert VaFrom(p, REAL_PAGES) == [] && DataFrom(p, REAL_PAGES) == [] by { NoPiecesFrom(p, []); }
    flags, va, data := [], [], [];
    for i := 0 to REAL_PAGES
      invariant flags == HeaderFlags(p, i) && va + VaFrom(p, i) == VaFrom(p, 0)
                && data + DataFrom(p, i) == DataFrom(p, 0)
      invariant |va| <= REAL_PAGE * i && |data| <= REAL_PAGE * i
    {
      var f, v, d := ClassifyPart(p, i);
      PiecesFrom(p, i, []);
      assert va + v + VaFrom(p, i + 1) == va + (v + (VaFrom(p, i + 1) + []));
      assert data + d + DataFrom(p, i + 1) == data + (d + (DataFrom(p, i + 1) + []));
      assert PageOk(p);
      flags, va, data := flags + [f], va + v, data + d;
    }
  }

  /** push_page: the header, then the permissions that travel, then the bytes that travel. */
  method PushPage(swb: SocketWriteBuffer, p: PageImage)
    requires PageOk(p) && swb.size <= swb.buffer.Length == BUFFER_SIZE
    modifies swb`size, swb.socket, swb.buffer
    ensures swb.size <= swb.buffer.Length && swb.Stream() == old(swb.Stream()) + PageStream(p)
  {
    hide HeaderFlags, VaFrom, DataFrom, BytesOf, PageOk;
    var flags, va, data := Classify(p);
    ghost var stream := swb.Stream();
    swb.Append(BytesOf(p.base, 8) + flags);
    swb.Append(va + data);
    assert swb.Stream() == stream + (BytesOf(p.base, 8) + flags) + (va + data);
    assert stream + (BytesOf(p.base, 8) + flags) + (va + data) == stream + PageStream(p);
  }

  function FlagOf(b: Byte): nat {
    b as int % 16
  }

  function TravelOf(b: Byte): nat {
    b as int / 16
  }

  lemma FlagByteParts(flag: nat, code: nat)
    requires flag < 16 && code < 16
    ensures FlagOf(FlagByte(flag, code)) == flag && TravelOf(FlagByte(flag, code)) == code
  {
  }

  lemma {:induction false} NothingTravels(p: PageImage, code: nat, k: nat)
    requires PageOk(p) && k <= REAL_PAGES && (forall i: nat :: i < REAL_PAGES ==> PageCode(p, i) == code)
    ensures !SendsVa(code) ==> VaFrom(p, k) == []
    ensures !SendsData(code) ==> DataFrom(p, k) == []
    decreases REAL_PAGES - k
  {
    if k < REAL_PAGES {
      NothingTravels(p, code, k + 1);
    }
  }

  lemma PartAndRest<T>(s: seq<T>, k: nat)
    requires |s| == PAGE_SIZE && k < REAL_PAGES
    ensures s[REAL_PAGE * k..] == Part(s, k) + s[REAL_PAGE * (k + 1)..]
  {
  }

  lemma DataPieceIs(p: PageImage, k: nat, code: nat)
    requires PageOk(p) && k < REAL_PAGES && PageCode(p, k) == code && SendsData(code)
    ensures p.data.Some? && |p.data.value| == PAGE_SIZE && DataPiece(p, k) == Part(p.data.value, k)
  {
  }

  lemma DataThere(p: PageImage, code: nat)
    requires PageOk(p) && PageCode(p, 0) == code && SendsData(code)
    ensures p.data.Some? && |p.data.value| == PAGE_SIZE
  {
  }

  lemma {:induction false} AllTravels(p: PageImage, code: nat, k: nat)
    requires PageOk(p) && k <= REAL_PAGES && (forall i: nat :: i < REAL_PAGES ==> PageCode(p, i) == code)
                   && SendsData(code)
    ensures p.data.Some? && DataFrom(p, k) == p.data.value[REAL_PAGE * k..]
    decreases REAL_PAGES - k
  {
    hide PageOk, PageCode, Part, SendsData;
    DataThere(p, code);
    if k < REAL_PAGES {
      AllTravels(p, code, k + 1);
      DataPieceIs(p, k, code);
      PartAndRest(p.data.value, k);
    }
  }

  lemma UniformPart(flag: nat, bits: seq<Perm>)
    requires |bits| == REAL_PAGE
    ensures var code := CodeOf(flag, bits);
            var own := if flag == PAGEFLAG_UNMAPPED then AllPerm(NOACCESS) else bits;
            && (!SendsVa(code) ==> own == PulledBits(code, []))
            && (SendsVa(code) ==> own == bits)
            && code < 6
  {
  }

  /** A page that travels as one: all its machine pages in the same way, without permissions. */
  lemma WholePage(p: PageImage, code: nat, perm: Perm, q: PageImage)
    requires PageOk(p) && (forall i: nat :: i < REAL_PAGES ==> PageCode(p, i) == code)
    requires !SendsVa(code) && PulledBits(code, []) == AllPerm(perm)
    requires q == PageImage(p.base, p.flags, UniformBits(perm), q.data) && q.data.Some? && |q.data.value| == PAGE_SIZE
    requires if SendsData(code) then q.data == p.data else q.data.value == seq(PAGE_SIZE, _ => 0)
    ensures Pulled(p, q)
  {
    forall k: nat | k < REAL_PAGES ensures PartPulled(p, q, k) {
      assert PageCode(p, k) == code;
      UniformPart(p.flags[k], Part(p.bits, k));
      PartOfUniform(perm, k);
      if !SendsData(code) {
        PartOfZeros(k);
      }
    }
  }

  lemma PartOfUniform(perm: Perm, k: nat)
    requires k < REAL_PAGES
    ensures Part(UniformBits(perm), k) == AllPerm(perm)
  {
    forall j | 0 <= j < REAL_PAGE ensures Part(UniformBits(perm), k)[j] == AllPerm(perm)[j] {
      assert Part(UniformBits(perm), k)[j] == UniformBits(perm)[REAL_PAGE * k + j];
    }
  }

  lemma PartOfZeros(k: nat)
    requires k < REAL_PAGES
    ensures Part(seq(PAGE_SIZE, _ => 0 as Byte), k) == Zeros()
  {
    var zeros: seq<Byte> := seq(PAGE_SIZE, _ => 0);
    forall j | 0 <= j < REAL_PAGE ensures Part(zeros, k)[j] == Zeros()[j] {
      assert Part(zeros, k)[j] == zeros[REAL_PAGE * k + j];
    }
  }

  /** The header of a page. */
  method PullHeader(srb: SocketReadBuffer, ghost p: PageImage, ghost tail: seq<Byte>)
        returns (base: int, flags: seq<nat>, codes: seq<nat>)
    requires PageOk(p) && srb.Valid() && srb.buffer.Length == BUFFER_SIZE
    requires srb.Rest() == BytesOf(p.base, 8) + HeaderFlags(p, REAL_PAGES) + tail
    modifies srb, srb.socket, srb.buffer
    ensures srb.Valid() && srb.Rest() == tail
    ensures base == p.base && flags == p.flags && |codes| == REAL_PAGES && forall k: nat :: k < REAL_PAGES ==>
        codes[k] == PageCode(p, k)
  {
    hide PageCode;
    ghost var h := HeaderFlags(p, REAL_PAGES);
    assert BytesOf(p.base, 8) + h + tail == (BytesOf(p.base, 8) + h) + tail;
    SplitAt(BytesOf(p.base, 8) + h, tail);
    SplitAt(BytesOf(p.base, 8), h);
    var header := srb.Read(24);
    base := ValueOf(header[..8]);
    ValueOfBytes(p.base, 8);
    flags, codes := SplitFlags(header[8..], p);
  }

  method SplitFlags(bytes: seq<Byte>, ghost p: PageImage) returns (flags: seq<nat>, codes: seq<nat>)
    requires PageOk(p) && bytes == HeaderFlags(p, REAL_PAGES)
    ensures flags == p.flags && |codes| == REAL_PAGES && forall k: nat :: k < REAL_PAGES ==> codes[k] == PageCode(p, k)
  {
    hide PageCode;
    flags, codes := [], [];
    for k := 0 to REAL_PAGES
      invariant |flags| == k && |codes| == k
      invariant forall j: nat :: j < k ==> flags[j] == p.flags[j] && codes[j] == PageCode(p, j)
    {
      CodeBound(p, k);
      FlagByteParts(p.flags[k], PageCode(p, k));
      flags, codes := flags + [FlagOf(bytes[k])], codes + [TravelOf(bytes[k])];
    }
  }

  lemma CodeBound(p: PageImage, k: nat)
    requires PageOk(p) && k < REAL_PAGES
    ensures PageCode(p, k) < 6
  {
  }

  /** What the receiver makes of the permissions of a machine page. */
  ghost function OwnBits(p: PageImage, k: nat): (bits: seq<Perm>)
    requires PageOk(p) && k < REAL_PAGES
    ensures |bits| == REAL_PAGE
  {
    if p.flags[k] == PAGEFLAG_UNMAPPED then AllPerm(NOACCESS) else Part(p.bits, k)
  }

  ghost function OwnData(p: PageImage, k: nat): (bytes: seq<Byte>)
    requires PageOk(p) && k < REAL_PAGES
    ensures |bytes| == REAL_PAGE
  {
    if SendsData(PageCode(p, k)) then Part(p.data.value, k) else Zeros()
  }

  method PullBitsPart(srb: SocketReadBuffer, code: nat, ghost p: PageImage, k: nat, ghost tail: seq<Byte>)
        returns (bits: seq<Perm>)
    requires PageOk(p) && k < REAL_PAGES && srb.Valid() && srb.buffer.Length == BUFFER_SIZE
    requires code == PageCode(p, k) && srb.Rest() == VaPiece(p, k) + tail
    modifies srb, srb.socket, srb.buffer
    ensures srb.Valid() && srb.Rest() == tail && bits == OwnBits(p, k)
  {
    UniformPart(p.flags[k], Part(p.bits, k));
    PermsOfBytes(Part(p.bits, k));
    SplitAt(VaPiece(p, k), tail);
    var sent: seq<Perm> := [];
    if SendsVa(code) {
      var bytes := srb.Read(REAL_PAGE);
      sent := BytePerms(bytes);
    } else {
      assert srb.Rest() == tail;
    }
    bits := PulledBits(code, sent);
  }

  method PullDataPart(srb: SocketReadBuffer, code: nat, ghost p: PageImage, k: nat, ghost tail: seq<Byte>)
        returns (bytes: seq<Byte>)
    requires PageOk(p) && k < REAL_PAGES && srb.Valid() && srb.buffer.Length == BUFFER_SIZE
    requires code == PageCode(p, k) && srb.Rest() == DataPiece(p, k) + tail
    modifies srb, srb.socket, srb.buffer
    ensures srb.Valid() && srb.Rest() == tail && bytes == OwnData(p, k)
  {
    CodeBound(p, k);
    SplitAt(DataPiece(p, k), tail);
    if code != T_NOACCESS && code != T_VAONLY && code != T_UNDEFINED {
      bytes := srb.Read(REAL_PAGE);
    } else {
      assert srb.Rest() == tail;
      bytes := Zeros();
    }
  }

  /** The permissions of the first `n` machine pages are as they should be. */
  ghost predicate BitsDone(p: PageImage, bits: seq<Perm>, n: nat)
    requires PageOk(p) && n <= REAL_PAGES
  {
    |bits| == REAL_PAGE * n && forall j: nat :: j < n ==> bits[REAL_PAGE * j..REAL_PAGE * (j + 1)] == OwnBits(p, j)
  }

  ghost predicate DataDone(p: PageImage, data: seq<Byte>, n: nat)
    requires PageOk(p) && n <= REAL_PAGES
  {
    |data| == REAL_PAGE * n && forall j: nat :: j < n ==> data[REAL_PAGE * j..REAL_PAGE * (j + 1)] == OwnData(p, j)
  }

  lemma {:induction false} BitsNext(p: PageImage, bits: seq<Perm>, n: nat, piece: seq<Perm>)
    requires PageOk(p) && n < REAL_PAGES && BitsDone(p, bits, n) && piece == OwnBits(p, n)
    ensures BitsDone(p, bits + piece, n + 1)
  {
    hide OwnBits, PageOk;
    forall j: nat | j < n + 1 ensures (bits + piece)[REAL_PAGE * j..REAL_PAGE * (j + 1)] == OwnBits(p, j) {
      if j < n {
        assert (bits + piece)[REAL_PAGE * j..REAL_PAGE * (j + 1)] == bits[REAL_PAGE * j..REAL_PAGE * (j + 1)];
        assert bits[REAL_PAGE * j..REAL_PAGE * (j + 1)] == OwnBits(p, j);
      } else {
        assert (bits + piece)[REAL_PAGE * n..REAL_PAGE * (n + 1)] == piece;
      }
    }
  }

  lemma {:induction false} DataNext(p: PageImage, data: seq<Byte>, n: nat, piece: seq<Byte>)
    requires PageOk(p) && n < REAL_PAGES && DataDone(p, data, n) && piece == OwnData(p, n)
    ensures DataDone(p, data + piece, n + 1)
  {
    hide OwnData, PageOk;
    forall j: nat | j < n + 1 ensures (data + piece)[REAL_PAGE * j..REAL_PAGE * (j + 1)] == OwnData(p, j) {
      if j < n {
        assert (data + piece)[REAL_PAGE * j..REAL_PAGE * (j + 1)] == data[REAL_PAGE * j..REAL_PAGE * (j + 1)];
        assert data[REAL_PAGE * j..REAL_PAGE * (j + 1)] == OwnData(p, j);
      } else {
        assert (data + piece)[REAL_PAGE * n..REAL_PAGE * (n + 1)] == piece;
      }
    }
  }

  lemma {:induction false} PiecesFrom(p: PageImage, k: nat, tail: seq<Byte>)
    requires PageOk(p) && k < REAL_PAGES
    ensures VaFrom(p, k) + tail == VaPiece(p, k) + (VaFrom(p, k + 1) + tail)
    ensures DataFrom(p, k) + tail == DataPiece(p, k) + (DataFrom(p, k + 1) + tail)
  {
    hide PageOk, VaPiece, DataPiece;
  }

  lemma NoPiecesFrom(p: PageImage, tail: seq<Byte>)
    requires PageOk(p)
    ensures VaFrom(p, REAL_PAGES) + tail == tail && DataFrom(p, REAL_PAGES) + tail == tail
  {
  }

  lemma NothingDone(p: PageImage)
    requires PageOk(p)
    ensures BitsDone(p, [], 0) && DataDone(p, [], 0)
  {
  }

  method PullBits(srb: SocketReadBuffer, codes: seq<nat>, ghost p: PageImage, ghost tail: seq<Byte>)
        returns (bits: seq<Perm>)
    requires PageOk(p) && srb.Valid() && srb.buffer.Length == BUFFER_SIZE
    requires |codes| == REAL_PAGES && forall k: nat :: k < REAL_PAGES ==> codes[k] == PageCode(p, k)
    requires srb.Rest() == VaFrom(p, 0) + tail
    modifies srb, srb.socket, srb.buffer
    ensures srb.Valid() && srb.Rest() == tail && BitsDone(p, bits, REAL_PAGES)
  {
    hide PageCode, VaPiece, VaFrom, OwnBits, PageOk, BitsDone;
    bits := [];
    assert BitsDone(p, bits, 0) by { NothingDone(p); }
    for k := 0 to REAL_PAGES
      invariant srb.Valid() && srb.Rest() == VaFrom(p, k) + tail && BitsDone(p, bits, k)
    {
      PiecesFrom(p, k, tail);
      var piece := PullBitsPart(srb, codes[k], p, k, VaFrom(p, k + 1) + tail);
      BitsNext(p, bits, k, piece);
      bits := bits + piece;
    }
    NoPiecesFrom(p, tail);
  }

  method PullData(srb: SocketReadBuffer, codes: seq<nat>, ghost p: PageImage, ghost tail: seq<Byte>)
        returns (data: seq<Byte>)
    requires PageOk(p) && srb.Valid() && srb.buffer.Length == BUFFER_SIZE
    requires |codes| == REAL_PAGES && forall k: nat :: k < REAL_PAGES ==> codes[k] == PageCode(p, k)
    requires srb.Rest() == DataFrom(p, 0) + tail
    modifies srb, srb.socket, srb.buffer
    ensures srb.Valid() && srb.Rest() == tail && DataDone(p, data, REAL_PAGES)
  {
    hide PageCode, DataPiece, DataFrom, OwnData, PageOk, DataDone;
    data := [];
    assert DataDone(p, data, 0) by { NothingDone(p); }
    for k := 0 to REAL_PAGES
      invariant srb.Valid() && srb.Rest() == DataFrom(p, k) + tail && DataDone(p, data, k)
    {
      PiecesFrom(p, k, tail);
      var piece := PullDataPart(srb, codes[k], p, k, DataFrom(p, k + 1) + tail);
      DataNext(p, data, k, piece);
      data := data + piece;
    }
    NoPiecesFrom(p, tail);
  }

  /** Whether all machine pages travel in the same way. */
  predicate All(codes: seq<nat>, code: nat) {
    forall k :: 0 <= k < |codes| ==> codes[k] == code
  }

  /** A page all of whose machine pages travel in the same way, without permissions, gets one of the uniform arrays. */
  method PullWhole(srb: SocketReadBuffer, code: nat, perm: Perm, base: int, flags: seq<nat>, ghost p: PageImage,
                   ghost tail: seq<Byte>)
    returns (q: PageImage)
    requires PageOk(p) && srb.Valid() && srb.buffer.Length == BUFFER_SIZE && base == p.base && flags == p.flags
    requires (forall k: nat :: k < REAL_PAGES ==> PageCode(p, k) == code) && !SendsVa(code)
                   && PulledBits(code, []) == AllPerm(perm)
    requires srb.Rest() == VaFrom(p, 0) + (DataFrom(p, 0) + tail)
    modifies srb, srb.socket, srb.buffer
    ensures srb.Valid() && srb.Rest() == tail && Pulled(p, q)
  {
    hide PageCode, PageOk, Pulled, PulledBits;
    NothingTravels(p, code, 0);
    assert srb.Rest() == DataFrom(p, 0) + tail;
    SplitAt(DataFrom(p, 0), tail);
    var data: seq<Byte>;
    if SendsData(code) {
      AllTravels(p, code, 0);
      assert |p.data.value| == PAGE_SIZE by { DataSize(p); }
      data := srb.Read(PAGE_SIZE);
    } else {
      assert srb.Rest() == tail;
      data := seq(PAGE_SIZE, _ => 0);
    }
    q := PageImage(base, flags, UniformBits(perm), Some(data));
    WholePage(p, code, perm, q);
  }

  lemma DataSize(p: PageImage)
    requires PageOk(p) && p.data.Some?
    ensures |p.data.value| == PAGE_SIZE
  {
  }

  /** pull_page. */
  method PullPage(srb: SocketReadBuffer, ghost p: PageImage, ghost tail: seq<Byte>) returns (q: PageImage)
    requires PageOk(p) && srb.Valid() && srb.buffer.Length == BUFFER_SIZE && srb.Rest() == PageStream(p) + tail
    modifies srb, srb.socket, srb.buffer
    ensures srb.Valid() && srb.Rest() == tail && Pulled(p, q)
  {
    hide PageCode, PageOk, VaFrom, DataFrom, HeaderFlags, BytesOf, BitsDone, DataDone;
    ghost var pieces := VaFrom(p, 0) + (DataFrom(p, 0) + tail);
    assert PageStream(p) + tail == BytesOf(p.base, 8) + HeaderFlags(p, REAL_PAGES) + pieces;
    var base, flags, codes := PullHeader(srb, p, pieces);
    if All(codes, T_DEFINED) {
      q := PullWhole(srb, T_DEFINED, DEFINED, base, flags, p, tail);
    } else if All(codes, T_NOACCESS) {
      q := PullWhole(srb, T_NOACCESS, NOACCESS, base, flags, p, tail);
    } else if All(codes, T_UNDEFINED) {
      q := PullWhole(srb, T_UNDEFINED, UNDEFINED, base, flags, p, tail);
    } else if All(codes, T_READONLY) {
      q := PullWhole(srb, T_READONLY, READONLY, base, flags, p, tail);
    } else {
      var bits := PullBits(srb, codes, p, DataFrom(p, 0) + tail);
      var data := PullData(srb, codes, p, tail);
      q := PageImage(base, flags, bits, Some(data));
      PiecesPulled(p, q);
    }
  }

  lemma PiecesPulled(p: PageImage, q: PageImage)
    requires PageOk(p) && q.base == p.base && q.flags == p.flags
    requires BitsDone(p, q.bits, REAL_PAGES) && q.data.Some? && DataDone(p, q.data.value, REAL_PAGES)
    ensures Pulled(p, q)
  {
    forall k: nat | k < REAL_PAGES ensures PartPulled(p, q, k) {
      assert Part(q.bits, k) == OwnBits(p, k) && Part(q.data.value, k) == OwnData(p, k);
    }
  }

  // ---- whole states --------------------------------------------------------------------------------------

  /** A saved state: its allocation blocks, its pages, and the part that travels as it is: the pending answer and the
      registers of the thread. */
  datatype StateImage = StateImage(blocks: seq<Block>, pages: seq<PageImage>, context: seq<Byte>)

  function KindCode(kind: BlockType): int {
    match kind
    case Free => 0
    case Used => 1
    case End => 2
  }

  function KindOf(code: int): BlockType {
    if code == 0 then Free else if code == 1 then Used else End
  }

  function BlockBytes(b: Block): (bytes: seq<Byte>)
    ensures |bytes| == 24
  {
    BytesOf(b.address, 8) + BytesOf(KindCode(b.kind), 8) + BytesOf(b.requested, 8)
  }

  function BlockOf(bytes: seq<Byte>): Option<Block>
    requires |bytes| == 24
  {
    var requested := ValueOf(bytes[16..]);
    if requested < 0 then None else Some(Block(ValueOf(bytes[..8]), KindOf(ValueOf(bytes[8..16])), requested))
  }

  ghost predicate BlockFits(b: Block) {
    FitsInto(b.address, 8) && FitsInto(b.requested, 8)
  }

  lemma {:induction false} BlockRoundTrip(b: Block)
    requires BlockFits(b)
    ensures BlockOf(BlockBytes(b)) == Some(b)
  {
    hide BytesOf, ValueOf, FitsInto;
    var x, y, z := BytesOf(b.address, 8), BytesOf(KindCode(b.kind), 8), BytesOf(b.requested, 8);
    var bytes := BlockBytes(b);
    assert bytes[..8] == x && bytes[8..16] == y && bytes[16..] == z;
    ValueOfBytes(b.address, 8);
    assert FitsInto(KindCode(b.kind), 8) by { SmallFits(KindCode(b.kind), 8); }
    ValueOfBytes(KindCode(b.kind), 8);
    ValueOfBytes(b.requested, 8);
  }

  lemma {:induction false} SmallFits(n: int, k: nat)
    requires 0 <= n < 256 && k > 0
    ensures FitsInto(n, k)
  {
    ZeroFits(k - 1);
  }

  lemma {:induction false} ZeroFits(k: nat)
    ensures FitsInto(0, k)
  {
    if k > 0 {
      ZeroFits(k - 1);
    }
  }

  function BlocksBytes(bs: seq<Block>): (bytes: seq<Byte>)
    ensures |bytes| == 24 * |bs|
  {
    if bs == [] then [] else BlocksBytes(bs[..|bs| - 1]) + BlockBytes(bs[|bs| - 1])
  }

  lemma {:induction false} BlockInBytes(bs: seq<Block>, k: nat)
    requires k < |bs|
    ensures BlocksBytes(bs)[24 * k..24 * (k + 1)] == BlockBytes(bs[k])
  {
    hide BlockBytes;
    var rest := bs[..|bs| - 1];
    var before, last := BlocksBytes(rest), BlockBytes(bs[|bs| - 1]);
    assert BlocksBytes(bs) == before + last;
    if k < |rest| {
      BlockInBytes(rest, k);
      assert (before + last)[24 * k..24 * (k + 1)] == before[24 * k..24 * (k + 1)];
    } else {
      assert (before + last)[24 * k..24 * (k + 1)] == last;
    }
  }

  ghost predicate StateOk(s: StateImage) {
    && FitsInto(|s.pages|, 8) && FitsInto(|s.blocks|, 8) && 16 + |s.context| < BUFFER_SIZE
    && 24 * |s.blocks| <= BUFFER_SIZE && (forall b :: b in s.blocks ==> BlockFits(b))
    && (forall i :: 0 <= i < |s.pages| ==> PageOk(s.pages[i]))
  }

  ghost function PagesFrom(s: StateImage, i: nat): seq<Byte>
    requires StateOk(s) && i <= |s.pages|
    decreases |s.pages| - i
  {
    if i == |s.pages| then [] else PageStream(s.pages[i]) + PagesFrom(s, i + 1)
  }

  ghost function HeaderBytes(s: StateImage): seq<Byte> {
    BytesOf(|s.pages|, 8) + BytesOf(|s.blocks|, 8) + s.context
  }

  ghost function StateStream(s: StateImage): seq<Byte>
    requires StateOk(s)
  {
    HeaderBytes(s) + (BlocksBytes(s.blocks) + PagesFrom(s, 0))
  }

  method PushPages(swb: SocketWriteBuffer, s: StateImage)
    requires StateOk(s) && swb.size <= swb.buffer.Length == BUFFER_SIZE
    modifies swb`size, swb.socket, swb.buffer
    ensures swb.size <= swb.buffer.Length && swb.Stream() == old(swb.Stream()) + PagesFrom(s, 0)
  {
    hide PagesFrom, PageOk, PageStream;
    ghost var all := swb.Stream() + PagesFrom(s, 0);
    for i := 0 to |s.pages|
      invariant swb.size <= swb.buffer.Length && swb.Stream() + PagesFrom(s, i) == all
    {
      PageAndRest(s, i);
      ghost var before := swb.Stream();
      PushPage(swb, s.pages[i]);
      assert before + (PageStream(s.pages[i]) + PagesFrom(s, i + 1)) == swb.Stream() + PagesFrom(s, i + 1);
    }
    PageAndRest(s, |s.pages|);
    assert swb.Stream() + [] == swb.Stream();
  }

  /** push_state. */
  method PushState(socket: Socket, s: StateImage) returns (ok: bool)
    requires StateOk(s)
    modifies socket
    ensures ok ==> socket.bytes == old(socket.bytes) + StateStream(s)
  {
    hide PagesFrom, PageOk, BlocksBytes, BytesOf;
    var swb := new SocketWriteBuffer(BUFFER_SIZE, socket);
    ghost var start := swb.Stream();
    assert start == old(socket.bytes);
    swb.Append(BytesOf(|s.pages|, 8) + BytesOf(|s.blocks|, 8) + s.context);
    swb.Append(BlocksBytes(s.blocks));
    PushPages(swb, s);
    assert swb.Stream() == start + HeaderBytes(s) + BlocksBytes(s.blocks) + PagesFrom(s, 0);
    assert swb.Stream() == start + StateStream(s);
    ok := swb.Finish();
  }

  lemma PageAndRest(s: StateImage, i: nat)
    requires StateOk(s) && i <= |s.pages|
    ensures PagesFrom(s, i) == if i == |s.pages| then [] else PageStream(s.pages[i]) + PagesFrom(s, i + 1)
  {
  }

  ghost predicate StatePulled(s: StateImage, q: StateImage)
    requires StateOk(s)
  {
    && q.blocks == s.blocks && q.context == s.context && |q.pages| == |s.pages|
    && forall i :: 0 <= i < |s.pages| ==> Pulled(s.pages[i], q.pages[i])
  }

  /** The header of a state: the numbers of pages and blocks, and the context. */
  method PullStateHeader(srb: SocketReadBuffer, contextSize: nat, ghost s: StateImage, ghost tail: seq<Byte>)
    returns (pages: int, blocks: int, context: seq<Byte>)
    requires StateOk(s) && |s.context| == contextSize && srb.Valid() && srb.buffer.Length == BUFFER_SIZE
    requires srb.Rest() == HeaderBytes(s) + tail
    modifies srb, srb.socket, srb.buffer
    ensures srb.Valid() && srb.Rest() == tail && pages == |s.pages| && blocks == |s.blocks| && context == s.context
  {
    hide BytesOf, ValueOf, FitsInto, PageOk;
    SplitAt(HeaderBytes(s), tail);
    HeaderSize(s);
    var header := srb.Read(16 + contextSize);
    assert header[..8] == BytesOf(|s.pages|, 8) && header[8..16] == BytesOf(|s.blocks|, 8) && header[16..] == s.context;
    ValueOfBytes(|s.pages|, 8);
    ValueOfBytes(|s.blocks|, 8);
    pages, blocks, context := ValueOf(header[..8]), ValueOf(header[8..16]), header[16..];
  }

  /** The allocation list is rebuilt block by block. */
  method UnpackBlocks(bytes: seq<Byte>, count: nat, ghost bs: seq<Block>) returns (blocks: seq<Block>)
    requires |bs| == count && bytes == BlocksBytes(bs) && (forall b :: b in bs ==> BlockFits(b))
    ensures blocks == bs
  {
    hide BlocksBytes, BlockBytes, BlockFits;
    blocks := [];
    for i := 0 to count
      invariant blocks == bs[..i]
    {
      BlockInBytes(bs, i);
      BlockRoundTrip(bs[i]);
      var b := BlockOf(bytes[24 * i..24 * (i + 1)]);
      blocks := blocks + [b.value];
    }
  }

  method PullPages(srb: SocketReadBuffer, count: int, ghost s: StateImage) returns (images: seq<PageImage>)
    requires StateOk(s) && count == |s.pages| && srb.Valid() && srb.buffer.Length == BUFFER_SIZE
             && srb.Rest() == PagesFrom(s, 0)
    modifies srb, srb.socket, srb.buffer
    ensures |images| == count && forall j :: 0 <= j < count ==> Pulled(s.pages[j], images[j])
  {
    hide PagesFrom, PageOk, PageStream, Pulled;
    images := [];
    for i := 0 to count
      invariant srb.Valid() && srb.Rest() == PagesFrom(s, i)
      invariant |images| == i && forall j :: 0 <= j < i ==> Pulled(s.pages[j], images[j])
    {
      PageAndRest(s, i);
      var page := PullPage(srb, s.pages[i], PagesFrom(s, i + 1));
      images := images + [page];
    }
  }

  /** pull_state. */
  method PullState(socket: Socket, contextSize: nat, ghost s: StateImage) returns (q: StateImage)
    requires StateOk(s) && |s.context| == contextSize && socket.bytes == StateStream(s)
    modifies socket
    ensures StatePulled(s, q)
  {
    hide PagesFrom, PageOk, BlocksBytes, HeaderBytes, Pulled;
    assert |HeaderBytes(s)| > 0 by { HeaderSize(s); }
    var srb := new SocketReadBuffer(BUFFER_SIZE, socket);
    var pages, count, context := PullStateHeader(srb, contextSize, s, BlocksBytes(s.blocks) + PagesFrom(s, 0));
    SplitAt(BlocksBytes(s.blocks), PagesFrom(s, 0));
    var bytes := srb.Read(24 * count);
    var blocks := UnpackBlocks(bytes, count, s.blocks);
    var images := PullPages(srb, pages, s);
    q := StateImage(blocks, images, context);
  }

  lemma HeaderSize(s: StateImage)
    ensures |HeaderBytes(s)| == 16 + |s.context|
  {
  }

  /** A transfer between two clients: unless the last write falls short, the pages arrive as `PageRoundTrip` says, and
      the allocation list and the context arrive unchanged. */
  method Transfer(s: StateImage) returns (q: Option<StateImage>)
    requires StateOk(s)
    ensures q.Some? ==> StatePulled(s, q.value)
  {
    var socket := new Socket();
    var ok := PushState(socket, s);
    if ok {
      assert [] + StateStream(s) == StateStream(s);
      var r := PullState(socket, |s.context|, s);
      q := Some(r);
    } else {
      q := None;
    }
  }

  /** What the program can observe of a transferred state is what it could observe before. */
  lemma TransferredIsSame(s: StateImage, q: StateImage, i: nat, j: nat)
    requires StateOk(s) && StatePulled(s, q) && i < |s.pages| && j < PAGE_SIZE && UnmappedIsNoAccess(s.pages[i])
    ensures q.pages[i].base == s.pages[i].base && q.pages[i].flags == s.pages[i].flags
            && q.pages[i].bits[j] == s.pages[i].bits[j]
    ensures ReadableRW(s.pages[i], j) ==> s.pages[i].data.Some? && q.pages[i].data.value[j] == s.pages[i].data.value[j]
  {
    PageRoundTrip(s.pages[i], q.pages[i]);
  }
}
