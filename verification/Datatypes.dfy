/** Derived datatypes: where their bytes lie, and how they are packed and unpacked. */
module Datatypes {
  import opened MemoryTypes
  import Arithmetic

  datatype Datatype =
    | Buildin(size: nat)
    | Contiguous(base: Datatype, count: nat)
    | Vector(base: Datatype, count: nat, blockSize: nat, stride: int)
    | Indexed(base: Datatype, sizes: seq<nat>, displs: seq<int>)

  ghost predicate WellFormed(t: Datatype) {
    match t
    case Buildin(_) => true
    case Contiguous(base, _) => WellFormed(base)
    case Vector(base, _, _, _) => WellFormed(base)
    case Indexed(base, sizes, displs) => WellFormed(base) && |sizes| == |displs| > 0
  }

  function Sum(s: seq<nat>): nat {
    if s == [] then 0 else s[0] + Sum(s[1..])
  }

  /** The bytes of one item. */
  function Size(t: Datatype): nat {
    match t
    case Buildin(size) => size
    case Contiguous(base, count) => Size(base) * count
    case Vector(base, count, blockSize, _) => Size(base) * count * blockSize
    case Indexed(base, sizes, _) => Size(base) * Sum(sizes)
  }

  /** `k` times `step`. */
  function Times(step: int, k: nat): int {
    if k == 0 then 0 else Times(step, k - 1) + step
  }

  /** The end of the last block of an indexed type. */
  function UnpackSize(size: nat, sizes: seq<nat>, displs: seq<int>): (end: int)
    requires |sizes| == |displs| > 0
    ensures forall j :: 0 <= j < |sizes| ==> displs[j] + size * sizes[j] <= end
    ensures exists j :: 0 <= j < |sizes| && end == displs[j] + size * sizes[j]
  {
    var end := displs[0] + size * sizes[0];
    if |sizes| == 1 then end
    else
      var rest := UnpackSize(size, sizes[1..], displs[1..]);
      assert forall j :: 1 <= j < |sizes| ==> sizes[j] == sizes[1..][j - 1] && displs[j] == displs[1..][j - 1];
      assert forall j :: 0 <= j < |sizes| - 1 ==> sizes[1..][j] == sizes[j + 1] && displs[1..][j] == displs[j + 1];
      if end > rest then end else rest
  }

  /** The distance from one item to the next. */
  function Advance(t: Datatype): int
    requires WellFormed(t)
  {
    match t
    case Buildin(size) => size
    case Contiguous(base, count) => Times(Advance(base), count)
    case Vector(base, count, blockSize, stride) => Times(stride, count) - stride + Size(base) * blockSize
    case Indexed(base, sizes, displs) => UnpackSize(Size(base), sizes, displs)
  }

  // ---- the type map ----------------------------------------------------------------------------------

  function Range(p: int, n: nat): (addresses: seq<int>)
    ensures |addresses| == n && forall k :: 0 <= k < n ==> addresses[k] == p + k
  {
    seq(n, k => p + k)
  }

  /** The addresses of the bytes of one item at `p`, in packing order. */
  ghost function ItemMap(t: Datatype, p: int): seq<int>
    requires WellFormed(t)
    decreases t, 0, 0
  {
    match t
    case Buildin(size) => Range(p, size)
    case Contiguous(base, count) => TypeMap(base, p, count)
    case Vector(base, count, blockSize, stride) => Strided(base, p, blockSize, stride, count)
    case Indexed(base, sizes, displs) => Listed(base, p, sizes, displs)
  }

  /** The addresses of the bytes of `n` items. */
  ghost function TypeMap(t: Datatype, p: int, n: nat): seq<int>
    requires WellFormed(t)
    decreases t, 1, n
  {
    if n == 0 then [] else ItemMap(t, p) + TypeMap(t, p + Advance(t), n - 1)
  }

  /** `k` blocks at a distance of `stride`. */
  ghost function Strided(base: Datatype, p: int, blockSize: nat, stride: int, k: nat): seq<int>
    requires WellFormed(base)
    decreases base, 2, k
  {
    if k == 0 then [] else TypeMap(base, p, blockSize) + Strided(base, p + stride, blockSize, stride, k - 1)
  }

  /** Blocks of the given sizes at the given displacements. */
  ghost function Listed(base: Datatype, p: int, sizes: seq<nat>, displs: seq<int>): seq<int>
    requires WellFormed(base) && |sizes| == |displs|
    decreases base, 2, |sizes|
  {
    if sizes == [] then [] else TypeMap(base, p + displs[0], sizes[0]) + Listed(base, p, sizes[1..], displs[1..])
  }

  lemma MulNext(a: int, n: nat)
    requires n > 0
    ensures n * a == a + (n - 1) * a
  {
  }

  /** Packing `n` items takes `n` times the size of one. */
  lemma {:induction false} TypeMapSize(t: Datatype, p: int, n: nat)
    requires WellFormed(t)
    ensures |TypeMap(t, p, n)| == n * Size(t)
    decreases t, 1, n
  {
    if n > 0 {
      ItemMapSize(t, p);
      TypeMapSize(t, p + Advance(t), n - 1);
      MulNext(Size(t), n);
    }
  }

  lemma {:induction false} ItemMapSize(t: Datatype, p: int)
    requires WellFormed(t)
    ensures |ItemMap(t, p)| == Size(t)
    decreases t, 0, 0
  {
    hide TypeMap, Strided, Listed, Sum;
    match t {
      case Buildin(size) =>
      case Contiguous(base, count) => TypeMapSize(base, p, count);
      case Vector(base, count, blockSize, stride) =>
        StridedSize(base, p, blockSize, stride, count);
        Reorder(count, blockSize, Size(base));
      case Indexed(base, sizes, displs) => ListedSize(base, p, sizes, displs);
    }
  }

  lemma Reorder(a: nat, b: nat, c: nat)
    ensures a * (b * c) == c * a * b
  {
  }

  lemma {:induction false} StridedSize(base: Datatype, p: int, blockSize: nat, stride: int, k: nat)
    requires WellFormed(base)
    ensures |Strided(base, p, blockSize, stride, k)| == k * (blockSize * Size(base))
    decreases base, 2, k
  {
    if k > 0 {
      TypeMapSize(base, p, blockSize);
      StridedSize(base, p + stride, blockSize, stride, k - 1);
      MulNext(blockSize * Size(base), k);
    }
  }

  lemma {:induction false} ListedSize(base: Datatype, p: int, sizes: seq<nat>, displs: seq<int>)
    requires WellFormed(base) && |sizes| == |displs|
    ensures |Listed(base, p, sizes, displs)| == Size(base) * Sum(sizes)
    decreases base, 2, |sizes|
  {
    if sizes != [] {
      TypeMapSize(base, p + displs[0], sizes[0]);
      ListedSize(base, p, sizes[1..], displs[1..]);
      Distribute(Size(base), sizes[0], Sum(sizes[1..]));
    }
  }

  lemma Distribute(a: nat, b: nat, c: nat)
    ensures a * (b + c) == b * a + a * c
  {
  }

  lemma {:induction false} TimesAdd(step: int, a: nat, b: nat)
    ensures Times(step, a + b) == Times(step, a) + Times(step, b)
  {
    if b > 0 {
      TimesAdd(step, a, b - 1);
      assert a + b - 1 == a + (b - 1);
    }
  }

  /** Items behind items. */
  lemma {:induction false} TypeMapAdd(t: Datatype, p: int, a: nat, b: nat)
    requires WellFormed(t)
    ensures TypeMap(t, p, a + b) == TypeMap(t, p, a) + TypeMap(t, p + Times(Advance(t), a), b)
    decreases a
  {
    if a > 0 {
      TypeMapAdd(t, p + Advance(t), a - 1, b);
      TimesAdd(Advance(t), 1, a - 1);
      assert Times(Advance(t), 1) == Advance(t);
    }
  }

  /** `n` items of a contiguous type are `n * count` items of its base. */
  lemma {:induction false} ContiguousItems(base: Datatype, count: nat, p: int, n: nat)
    requires WellFormed(base)
    ensures TypeMap(Contiguous(base, count), p, n) == TypeMap(base, p, n * count)
    decreases n
  {
    if n > 0 {
      ContiguousItems(base, count, p + Times(Advance(base), count), n - 1);
      MulNext(count, n);
      TypeMapAdd(base, p, count, (n - 1) * count);
    }
  }

  /** `n` basic items are one range. */
  lemma {:induction false} BuildinItems(size: nat, p: int, n: nat)
    ensures TypeMap(Buildin(size), p, n) == Range(p, n * size)
    decreases n
  {
    if n > 0 {
      BuildinItems(size, p + size, n - 1);
      MulNext(size, n);
    }
  }

  // ---- the place of a byte ---------------------------------------------------------------------------

  /** The distance from one item to the next, as a sum of products. */
  ghost function Extent(t: Datatype): int
    requires WellFormed(t)
  {
    match t
    case Buildin(size) => size
    case Contiguous(base, count) => count * Extent(base)
    case Vector(base, count, blockSize, stride) => (count - 1) * stride + blockSize * Size(base)
    case Indexed(base, sizes, displs) => UnpackSize(Size(base), sizes, displs)
  }

  lemma {:induction false} TimesIs(step: int, k: nat)
    ensures Times(step, k) == k * step
  {
    if k > 0 {
      TimesIs(step, k - 1);
      assert k * step == (k - 1) * step + step;
    }
  }

  lemma {:induction false} AdvanceIs(t: Datatype)
    requires WellFormed(t)
    ensures Advance(t) == Extent(t)
  {
    match t {
      case Buildin(size) =>
      case Contiguous(base, count) =>
        AdvanceIs(base);
        TimesIs(Advance(base), count);
      case Vector(base, count, blockSize, stride) =>
        TimesIs(stride, count);
        assert (count - 1) * stride == count * stride - stride;
      case Indexed(base, sizes, displs) =>
    }
  }

  /** Where byte `k` of items lies that begin at 0, one behind the other. */
  ghost function PlaceOf(t: Datatype, k: nat): int
    requires WellFormed(t) && Size(t) > 0
    decreases t, 1
  {
    (k / Size(t)) * Extent(t) + PlaceIn(t, k % Size(t))
  }

  /** Where byte `k` of one item lies: of block `k / bytes` of a vector, and of block `j` of an indexed item when the
      blocks before it have fewer bytes than `k` and those up to it more. */
  ghost function PlaceIn(t: Datatype, k: nat): int
    requires WellFormed(t) && k < Size(t)
    decreases t, 0
  {
    match t
    case Buildin(size) => k
    case Contiguous(base, count) => SizesOfBlocks(Size(base), count, 1); PlaceOf(base, k)
    case Vector(base, count, blockSize, stride) =>
      SizesOfBlocks(Size(base), count, blockSize);
      var bytes := blockSize * Size(base);
      (k / bytes) * stride + PlaceOf(base, k % bytes)
    case Indexed(base, sizes, displs) =>
      SizesOfList(Size(base), sizes);
      var j := BlockOf(Size(base), sizes, k);
      displs[j] + PlaceOf(base, k - Size(base) * Sum(sizes[..j]))
  }

  lemma SizesOfBlocks(size: nat, count: nat, blockSize: nat)
    ensures size * count * blockSize > 0 ==> size > 0 && blockSize * size > 0
  {
    if size == 0 || blockSize == 0 {
      assert size * count * blockSize == 0;
    } else {
      assert blockSize * size >= size;
    }
  }

  lemma SizesOfList(size: nat, sizes: seq<nat>)
    ensures size * Sum(sizes) > 0 ==> size > 0
  {
  }

  /** The block that byte `k` belongs to. */
  ghost function BlockOf(size: nat, sizes: seq<nat>, k: nat): (j: nat)
    requires k < size * Sum(sizes)
    ensures j < |sizes| && size * Sum(sizes[..j]) <= k < size * Sum(sizes[..j]) + size * sizes[j]
  {
    if k < size * sizes[0] then 0
    else
      SplitFirst(size, sizes);
      var j := 1 + BlockOf(size, sizes[1..], k - size * sizes[0]);
      assert sizes[..j] == [sizes[0]] + sizes[1..][..j - 1];
      assert size * (sizes[0] + Sum(sizes[1..][..j - 1])) == size * sizes[0] + size * Sum(sizes[1..][..j - 1]);
      j
  }

  lemma SplitFirst(size: nat, sizes: seq<nat>)
    requires sizes != []
    ensures size * Sum(sizes) == size * sizes[0] + size * Sum(sizes[1..])
  {
    assert size * (sizes[0] + Sum(sizes[1..])) == size * sizes[0] + size * Sum(sizes[1..]);
  }

  lemma {:induction false} BlockUnique(size: nat, sizes: seq<nat>, i: nat, j: nat, k: int)
    requires i < |sizes| && j < |sizes|
    requires size * Sum(sizes[..i]) <= k < size * Sum(sizes[..i]) + size * sizes[i]
    requires size * Sum(sizes[..j]) <= k < size * Sum(sizes[..j]) + size * sizes[j]
    ensures i == j
  {
    if i < j {
      SumGrows(sizes, i, j);
      BlockAfter(size, Sum(sizes[..i]), sizes[i], Sum(sizes[..j]));
    } else if j < i {
      SumGrows(sizes, j, i);
      BlockAfter(size, Sum(sizes[..j]), sizes[j], Sum(sizes[..i]));
    }
  }

  lemma BlockAfter(size: nat, a: nat, b: nat, c: nat)
    requires a + b <= c
    ensures size * a + size * b <= size * c
  {
    assert size * c == size * a + size * b + size * (c - a - b);
  }

  lemma {:induction false} SumGrows(sizes: seq<nat>, i: nat, j: nat)
    requires i < j <= |sizes|
    ensures Sum(sizes[..i]) + sizes[i] <= Sum(sizes[..j])
  {
    if i == 0 {
      assert sizes[..j][0] == sizes[0];
    } else {
      SumGrows(sizes[1..], i - 1, j - 1);
      assert sizes[..i] == [sizes[0]] + sizes[1..][..i - 1] && sizes[..j] == [sizes[0]] + sizes[1..][..j - 1];
    }
  }

  lemma DivMinus(k: nat, n: nat)
    requires 0 < n <= k
    ensures (k - n) / n == k / n - 1 && (k - n) % n == k % n
  {
    var d, r := (k - n) / n, (k - n) % n;
    assert k == (d + 1) * n + r;
    DivUnique(k, n, d + 1, r);
  }

  lemma DivUnique(k: nat, n: nat, d: int, r: nat)
    requires n > 0 && k == d * n + r && r < n
    ensures k / n == d && k % n == r
  {
    var e := k / n;
    assert (e - d) * n == e * n - d * n;
    Arithmetic.SmallMultiple(e - d, n);
  }

  /** The `k`-th address of the type map is the place of byte `k`. */
  lemma {:induction false} PlaceIs(t: Datatype, p: int, n: nat, k: nat)
    requires WellFormed(t) && k < n * Size(t)
    ensures Size(t) > 0 && |TypeMap(t, p, n)| == n * Size(t) && TypeMap(t, p, n)[k] == p + PlaceOf(t, k)
    decreases t, 1, n
  {
    TypeMapSize(t, p, n);
    ItemMapSize(t, p);
    AdvanceIs(t);
    MulNext(Size(t), n);
    if k < Size(t) {
      DivUnique(k, Size(t), 0, k);
      PlaceInIs(t, p, k);
    } else {
      PlaceIs(t, p + Advance(t), n - 1, k - Size(t));
      DivMinus(k, Size(t));
      var d := k / Size(t);
      assert d * Extent(t) == (d - 1) * Extent(t) + Extent(t);
    }
  }

  lemma {:induction false} PlaceInIs(t: Datatype, p: int, k: nat)
    requires WellFormed(t) && k < Size(t)
    ensures |ItemMap(t, p)| == Size(t) && ItemMap(t, p)[k] == p + PlaceIn(t, k)
    decreases t, 0, 0
  {
    ItemMapSize(t, p);
    match t {
      case Buildin(size) =>
      case Contiguous(base, count) => PlaceIs(base, p, count, k);
      case Vector(base, count, blockSize, stride) =>
        SizesOfBlocks(Size(base), count, blockSize);
        Reorder(count, blockSize, Size(base));
        StridedPlace(base, p, blockSize, stride, count, k);
      case Indexed(base, sizes, displs) =>
        SizesOfList(Size(base), sizes);
        ListedPlace(base, p, sizes, displs, BlockOf(Size(base), sizes, k), k);
    }
  }

  lemma {:induction false} StridedPlace(base: Datatype, p: int, blockSize: nat, stride: int, count: nat, k: nat)
    requires WellFormed(base) && k < count * (blockSize * Size(base)) && Size(base) > 0 && blockSize * Size(base) > 0
    ensures |Strided(base, p, blockSize, stride, count)| == count * (blockSize * Size(base))
    ensures var bytes := blockSize * Size(base);
            Strided(base, p, blockSize, stride, count)[k] == p + (k / bytes) * stride + PlaceOf(base, k % bytes)
    decreases base, 2, count
  {
    hide PlaceOf, Size;
    var bytes := blockSize * Size(base);
    StridedSize(base, p, blockSize, stride, count);
    TypeMapSize(base, p, blockSize);
    MulNext(bytes, count);
    if k < bytes {
      DivUnique(k, bytes, 0, k);
      PlaceIs(base, p, blockSize, k);
    } else {
      StridedPlace(base, p + stride, blockSize, stride, count - 1, k - bytes);
      DivMinus(k, bytes);
      var d := k / bytes;
      assert d * stride == (d - 1) * stride + stride;
    }
  }

  lemma {:induction false} ListedPlace(base: Datatype, p: int, sizes: seq<nat>, displs: seq<int>, j: nat, k: nat)
    requires WellFormed(base) && |sizes| == |displs| && j < |sizes| && Size(base) > 0
    requires Size(base) * Sum(sizes[..j]) <= k < Size(base) * Sum(sizes[..j]) + Size(base) * sizes[j]
    ensures k < |Listed(base, p, sizes, displs)|
    ensures Listed(base, p, sizes, displs)[k] == p + displs[j] + PlaceOf(base, k - Size(base) * Sum(sizes[..j]))
    decreases base, 2, |sizes|
  {
    var first := TypeMap(base, p + displs[0], sizes[0]);
    TypeMapSize(base, p + displs[0], sizes[0]);
    assert sizes[0] * Size(base) == Size(base) * sizes[0];
    if j == 0 {
      assert sizes[..0] == [];
      PlaceIs(base, p + displs[0], sizes[0], k);
    } else {
      assert sizes[..j] == [sizes[0]] + sizes[1..][..j - 1];
      assert Size(base) * (sizes[0] + Sum(sizes[1..][..j - 1]))
          == Size(base) * sizes[0] + Size(base) * Sum(sizes[1..][..j - 1]);
      ListedPlace(base, p, sizes[1..], displs[1..], j - 1, k - Size(base) * sizes[0]);
    }
  }

  /** Byte `k` of block `j` of item `i` of a vector type. */
  lemma {:induction false} VectorPlace(base: Datatype, count: nat, blockSize: nat, stride: int, i: nat, j: nat, k: nat)
    requires WellFormed(base) && j < count && k < blockSize * Size(base)
    ensures var t := Vector(base, count, blockSize, stride);
            && Size(base) > 0 && Size(t) == count * (blockSize * Size(base)) && Size(t) > 0
            && PlaceOf(t, i * Size(t) + (j * (blockSize * Size(base)) + k))
               == i * ((count - 1) * stride + blockSize * Size(base)) + j * stride + PlaceOf(base, k)
  {
    var t, bytes := Vector(base, count, blockSize, stride), blockSize * Size(base);
    Reorder(count, blockSize, Size(base));
    Inside(count, bytes, j, k);
    SizesOfBlocks(Size(base), count, blockSize);
    var r := j * bytes + k;
    DivUnique(i * Size(t) + r, Size(t), i, r);
    DivUnique(r, bytes, j, k);
  }

  lemma Inside(count: nat, bytes: nat, j: nat, k: nat)
    requires j < count && k < bytes
    ensures j * bytes + k < count * bytes
  {
    assert count * bytes == j * bytes + bytes + (count - j - 1) * bytes;
  }

  lemma {:induction false} IndexedIn(base: Datatype, sizes: seq<nat>, displs: seq<int>, j: nat, k: nat)
    requires WellFormed(base) && |sizes| == |displs| && j < |sizes| && k < Size(base) * sizes[j]
    ensures var t, r := Indexed(base, sizes, displs), Size(base) * Sum(sizes[..j]) + k;
            Size(base) > 0 && r < Size(t) && PlaceIn(t, r) == displs[j] + PlaceOf(base, k)
  {
    hide PlaceOf, UnpackSize;
    var r := Size(base) * Sum(sizes[..j]) + k;
    SumGrows(sizes, j, |sizes|);
    assert sizes[..|sizes|] == sizes;
    BlockAfter(Size(base), Sum(sizes[..j]), sizes[j], Sum(sizes));
    SizesOfList(Size(base), sizes);
    BlockUnique(Size(base), sizes, BlockOf(Size(base), sizes, r), j, r);
  }

  /** Byte `k` of block `j` of item `i` of an indexed type. */
  lemma {:induction false} IndexedPlace(base: Datatype, sizes: seq<nat>, displs: seq<int>, i: nat, j: nat, k: nat)
    requires WellFormed(base) && |sizes| == |displs| && j < |sizes| && k < Size(base) * sizes[j]
    ensures var t := Indexed(base, sizes, displs);
            && Size(base) > 0 && Size(t) > 0
            && PlaceOf(t, i * Size(t) + (Size(base) * Sum(sizes[..j]) + k))
               == i * UnpackSize(Size(base), sizes, displs) + displs[j] + PlaceOf(base, k)
  {
    hide PlaceIn, UnpackSize;
    var t, r := Indexed(base, sizes, displs), Size(base) * Sum(sizes[..j]) + k;
    IndexedIn(base, sizes, displs, j, k);
    DivUnique(i * Size(t) + r, Size(t), i, r);
  }

  // ---- reading and writing at addresses ---------------------------------------------------------------

  ghost predicate InBounds(length: nat, addresses: seq<int>) {
    forall k :: 0 <= k < |addresses| ==> 0 <= addresses[k] < length
  }

  /** The bytes at the addresses. */
  ghost function Gather(mem: seq<Byte>, addresses: seq<int>): (data: seq<Byte>)
    requires InBounds(|mem|, addresses)
    ensures |data| == |addresses|
  {
    seq(|addresses|, k requires 0 <= k < |addresses| => mem[addresses[k]])
  }

  /** One byte after the other is stored at its address. */
  ghost function Scatter(mem: seq<Byte>, addresses: seq<int>, data: seq<Byte>): (r: seq<Byte>)
    requires |addresses| == |data| && InBounds(|mem|, addresses)
    ensures |r| == |mem|
  {
    if addresses == [] then mem
    else Scatter(mem, addresses[..|addresses| - 1], data[..|data| - 1])[addresses[|addresses| - 1] := data[|data| - 1]]
  }

  lemma {:induction false} ScatterAdd(mem: seq<Byte>, a: seq<int>, x: seq<Byte>, b: seq<int>, y: seq<Byte>)
    requires |a| == |x| && |b| == |y| && InBounds(|mem|, a) && InBounds(|mem|, b)
    ensures InBounds(|mem|, a + b)
    ensures Scatter(mem, a + b, x + y) == Scatter(Scatter(mem, a, x), b, y)
    decreases |b|
  {
    if b == [] {
      assert a + b == a && x + y == x;
    } else {
      var n := |b| - 1;
      ScatterAdd(mem, a, x, b[..n], y[..n]);
      assert (a + b)[..|a| + n] == a + b[..n] && (x + y)[..|x| + n] == x + y[..n];
    }
  }

  lemma {:induction false} ScatterElsewhere(mem: seq<Byte>, addresses: seq<int>, data: seq<Byte>, a: int)
    requires |addresses| == |data| && InBounds(|mem|, addresses) && 0 <= a < |mem| && a !in addresses
    ensures Scatter(mem, addresses, data)[a] == mem[a]
  {
    if addresses != [] {
      ScatterElsewhere(mem, addresses[..|addresses| - 1], data[..|data| - 1], a);
    }
  }

  /** The last byte stored at an address is the one that stays. */
  lemma {:induction false} ScatterLast(mem: seq<Byte>, addresses: seq<int>, data: seq<Byte>, k: nat)
    requires |addresses| == |data| && InBounds(|mem|, addresses) && k < |addresses|
             && addresses[k] !in addresses[k + 1..]
    ensures Scatter(mem, addresses, data)[addresses[k]] == data[k]
    decreases |addresses|
  {
    var n := |addresses| - 1;
    if k < n {
      assert addresses[k + 1..] == addresses[..n][k + 1..] + [addresses[n]];
      ScatterLast(mem, addresses[..n], data[..n], k);
    }
  }

  ghost predicate Distinct(addresses: seq<int>) {
    forall j, k :: 0 <= j < k < |addresses| ==> addresses[j] != addresses[k]
  }

  /** The `k`-th byte arrives at the `k`-th address, when no address occurs twice. */
  lemma ScatterDistinct(mem: seq<Byte>, addresses: seq<int>, data: seq<Byte>, k: nat)
    requires |addresses| == |data| && InBounds(|mem|, addresses) && Distinct(addresses) && k < |addresses|
    ensures Scatter(mem, addresses, data)[addresses[k]] == data[k]
  {
    ScatterLast(mem, addresses, data, k);
  }

  /** Storing what was there changes nothing, even when addresses occur several times. */
  lemma {:induction false} ScatterGathered(mem: seq<Byte>, addresses: seq<int>)
    requires InBounds(|mem|, addresses)
    ensures Scatter(mem, addresses, Gather(mem, addresses)) == mem
  {
    if addresses != [] {
      var n := |addresses| - 1;
      ScatterGathered(mem, addresses[..n]);
      assert Gather(mem, addresses)[..n] == Gather(mem, addresses[..n]);
    }
  }

  lemma GatherAdd(mem: seq<Byte>, a: seq<int>, b: seq<int>)
    requires InBounds(|mem|, a) && InBounds(|mem|, b)
    ensures InBounds(|mem|, a + b) && Gather(mem, a + b) == Gather(mem, a) + Gather(mem, b)
  {
  }

  lemma {:induction false} ScatterRange(mem: seq<Byte>, p: int, data: seq<Byte>)
    requires 0 <= p && p + |data| <= |mem|
    ensures Scatter(mem, Range(p, |data|), data) == mem[..p] + data + mem[p + |data|..]
  {
    if data != [] {
      var n := |data| - 1;
      ScatterRange(mem, p, data[..n]);
      assert Range(p, |data|)[..n] == Range(p, n);
    }
  }

  // ---- the laws of transfer -----------------------------------------------------------------------------

  /** Packing `n` items of one type and unpacking as `m` items of another type of the same total size: the `k`-th byte
      of the first type map arrives at the `k`-th address of the second. */
  lemma Transfer(from: seq<Byte>, t: Datatype, p: int, n: nat, to: seq<Byte>, u: Datatype, q: int, m: nat, k: nat)
    requires WellFormed(t) && WellFormed(u) && n * Size(t) == m * Size(u) && k < n * Size(t)
    requires InBounds(|from|, TypeMap(t, p, n)) && InBounds(|to|, TypeMap(u, q, m)) && Distinct(TypeMap(u, q, m))
    ensures |TypeMap(t, p, n)| == |TypeMap(u, q, m)| == n * Size(t)
    ensures Scatter(to, TypeMap(u, q, m), Gather(from, TypeMap(t, p, n)))[TypeMap(u, q, m)[k]]
            == from[TypeMap(t, p, n)[k]]
  {
    TypeMapSize(t, p, n);
    TypeMapSize(u, q, m);
    ScatterDistinct(to, TypeMap(u, q, m), Gather(from, TypeMap(t, p, n)), k);
  }

  /** Bytes outside the type map stay as they are. */
  lemma OutsideUntouched(mem: seq<Byte>, t: Datatype, p: int, n: nat, data: seq<Byte>, a: int)
    requires WellFormed(t) && |data| == n * Size(t) && InBounds(|mem|, TypeMap(t, p, n)) && 0 <= a < |mem|
             && a !in TypeMap(t, p, n)
    ensures |TypeMap(t, p, n)| == |data| && Scatter(mem, TypeMap(t, p, n), data)[a] == mem[a]
  {
    TypeMapSize(t, p, n);
    ScatterElsewhere(mem, TypeMap(t, p, n), data, a);
  }

  /** Packing and unpacking with one type is the identity, even when blocks overlap. */
  lemma PackUnpack(mem: seq<Byte>, t: Datatype, p: int, n: nat)
    requires WellFormed(t) && InBounds(|mem|, TypeMap(t, p, n))
    ensures Scatter(mem, TypeMap(t, p, n), Gather(mem, TypeMap(t, p, n))) == mem
  {
    ScatterGathered(mem, TypeMap(t, p, n));
  }

  /** How many items a message holds: whole ones, or not; items of size zero cannot be counted, the division fails. */
  datatype Count = Items(n: nat) | NotWhole | DividesByZero

  /** get_count. */
  function GetCount(t: Datatype, size: nat): (count: Count)
    ensures count.DividesByZero? <==> Size(t) == 0
    ensures count.Items? ==> count.n * Size(t) == size
    ensures count.NotWhole? <==> Size(t) > 0 && forall n: nat :: n * Size(t) != size
  {
    if Size(t) == 0 then DividesByZero
    else
      CountExact(Size(t), size);
      if size % Size(t) == 0 then Items(size / Size(t)) else NotWhole
  }

  lemma CountExact(s: nat, size: nat)
    requires s > 0
    ensures size % s == 0 ==> (size / s) * s == size
    ensures size % s == 0 <==> exists n: nat :: n * s == size
  {
    if size % s == 0 {
      assert (size / s) * s == size;
    }
    if n: nat :| n * s == size {
      Arithmetic.MultipleMod(n, s);
    }
  }

  // ---- packed and unpacked bytes -----------------------------------------------------------------------

  /** Byte `k` of the data is the one at its place. */
  ghost predicate PackedFrom(mem: seq<Byte>, t: Datatype, p: int, n: nat, data: seq<Byte>)
    requires WellFormed(t)
  {
    |data| == n * Size(t)
    && (Size(t) > 0 ==> forall k: nat :: k < |data| ==>
          0 <= p + PlaceOf(t, k) < |mem| && data[k] == mem[p + PlaceOf(t, k)])
  }

  /** Byte `k` of the data is at its place, unless a later one has the same place; all other bytes are as before. */
  ghost predicate UnpackedTo(mem0: seq<Byte>, mem: seq<Byte>, t: Datatype, p: int, n: nat, data: seq<Byte>)
    requires WellFormed(t)
  {
    && |mem| == |mem0| && |data| == n * Size(t)
    && (Size(t) > 0 ==> AreThere(mem, t, p, data)) && OthersSame(mem0, mem, t, p, |data|)
  }

  ghost predicate AreThere(mem: seq<Byte>, t: Datatype, p: int, data: seq<Byte>)
    requires WellFormed(t) && Size(t) > 0
  {
    forall k: nat :: k < |data| && LastAt(t, |data|, k) ==>
      0 <= p + PlaceOf(t, k) < |mem| && mem[p + PlaceOf(t, k)] == data[k]
  }

  ghost predicate OthersSame(mem0: seq<Byte>, mem: seq<Byte>, t: Datatype, p: int, length: nat)
    requires WellFormed(t)
  {
    |mem| == |mem0| && forall a :: 0 <= a < |mem| && !IsPlace(t, p, length, a) ==> mem[a] == mem0[a]
  }

  ghost predicate LastAt(t: Datatype, length: nat, k: nat)
    requires WellFormed(t) && Size(t) > 0
  {
    forall l: nat :: k < l < length ==> PlaceOf(t, l) != PlaceOf(t, k)
  }

  ghost predicate IsPlace(t: Datatype, p: int, length: nat, a: int)
    requires WellFormed(t)
  {
    Size(t) > 0 && exists k: nat :: k < length && a == p + PlaceOf(t, k)
  }

  /** The type map lists the places. */
  ghost predicate Lists(addresses: seq<int>, t: Datatype, p: int)
    requires WellFormed(t)
  {
    |addresses| > 0 ==> Size(t) > 0 && forall k: nat :: k < |addresses| ==> addresses[k] == p + PlaceOf(t, k)
  }

  lemma {:induction false} MapLists(t: Datatype, p: int, n: nat)
    requires WellFormed(t)
    ensures |TypeMap(t, p, n)| == n * Size(t) && Lists(TypeMap(t, p, n), t, p)
  {
    TypeMapSize(t, p, n);
    forall k: nat | k < n * Size(t) ensures Size(t) > 0 && TypeMap(t, p, n)[k] == p + PlaceOf(t, k) {
      PlaceIs(t, p, n, k);
    }
    if n * Size(t) > 0 {
      PlaceIs(t, p, n, 0);
    }
    hide TypeMap, PlaceOf;
  }

  lemma {:induction false} GatheredIsPacked(mem: seq<Byte>, t: Datatype, p: int, n: nat)
    requires WellFormed(t) && InBounds(|mem|, TypeMap(t, p, n))
    ensures PackedFrom(mem, t, p, n, Gather(mem, TypeMap(t, p, n)))
  {
    MapLists(t, p, n);
    hide TypeMap, PlaceOf;
  }

  lemma {:induction false} LastStays(mem: seq<Byte>, addresses: seq<int>, t: Datatype, p: int, data: seq<Byte>, k: nat)
    requires WellFormed(t) && Lists(addresses, t, p) && InBounds(|mem|, addresses) && |data| == |addresses|
    requires Size(t) > 0 && k < |data| && LastAt(t, |data|, k)
    ensures 0 <= p + PlaceOf(t, k) < |mem| && Scatter(mem, addresses, data)[p + PlaceOf(t, k)] == data[k]
  {
    hide Scatter, PlaceOf;
    forall l | k < l < |data| ensures addresses[l] != addresses[k] {
      assert PlaceOf(t, l) != PlaceOf(t, k);
    }
    ScatterLast(mem, addresses, data, k);
  }

  lemma {:induction false} OthersStay(mem: seq<Byte>, addresses: seq<int>, t: Datatype, p: int, data: seq<Byte>, a: int)
    requires WellFormed(t) && Lists(addresses, t, p) && InBounds(|mem|, addresses) && |data| == |addresses|
    requires 0 <= a < |mem| && !IsPlace(t, p, |data|, a)
    ensures Scatter(mem, addresses, data)[a] == mem[a]
  {
    hide Scatter, PlaceOf;
    ScatterElsewhere(mem, addresses, data, a);
  }

  lemma {:induction false} AllThere(mem: seq<Byte>, addresses: seq<int>, t: Datatype, p: int, data: seq<Byte>)
    requires WellFormed(t) && Lists(addresses, t, p) && InBounds(|mem|, addresses) && |data| == |addresses|
    ensures Size(t) > 0 ==> AreThere(Scatter(mem, addresses, data), t, p, data)
  {
    hide Scatter, PlaceOf, Lists, LastAt, InBounds;
    if Size(t) > 0 {
      forall k: nat | k < |data| && LastAt(t, |data|, k)
        ensures 0 <= p + PlaceOf(t, k) < |mem| && Scatter(mem, addresses, data)[p + PlaceOf(t, k)] == data[k]
      {
        LastStays(mem, addresses, t, p, data, k);
      }
    }
  }

  lemma {:induction false} AllOthersStay(mem: seq<Byte>, addresses: seq<int>, t: Datatype, p: int, data: seq<Byte>)
    requires WellFormed(t) && Lists(addresses, t, p) && InBounds(|mem|, addresses) && |data| == |addresses|
    ensures OthersSame(mem, Scatter(mem, addresses, data), t, p, |data|)
  {
    hide Scatter, PlaceOf, Lists, IsPlace, InBounds;
    forall a | 0 <= a < |mem| && !IsPlace(t, p, |data|, a) ensures Scatter(mem, addresses, data)[a] == mem[a] {
      OthersStay(mem, addresses, t, p, data, a);
    }
  }

  lemma {:induction false} ScatteredIsUnpacked(mem: seq<Byte>, t: Datatype, p: int, n: nat, data: seq<Byte>)
    requires WellFormed(t) && InBounds(|mem|, TypeMap(t, p, n)) && |data| == n * Size(t)
    ensures |TypeMap(t, p, n)| == |data|
    ensures UnpackedTo(mem, Scatter(mem, TypeMap(t, p, n), data), t, p, n, data)
  {
    hide TypeMap, Scatter, Lists, AreThere, OthersSame, InBounds;
    MapLists(t, p, n);
    AllThere(mem, TypeMap(t, p, n), t, p, data);
    AllOthersStay(mem, TypeMap(t, p, n), t, p, data);
  }

  // ---- packing and unpacking -----------------------------------------------------------------------------

  /** The memory of a process, as its controller reads and writes it. */
  class Controller {
    const mem: array<Byte>

    constructor (mem: array<Byte>)
      ensures this.mem == mem
    {
      this.mem := mem;
    }

    method ReadMem(p: int, n: nat) returns (data: seq<Byte>)
      requires InBounds(mem.Length, Range(p, n))
      ensures data == Gather(mem[..], Range(p, n))
    {
      if n == 0 {
        return [];
      }
      assert Range(p, n)[0] == p && Range(p, n)[n - 1] == p + n - 1;
      data := mem[p..p + n];
    }

    method WriteBuffer(p: int, data: seq<Byte>)
      requires InBounds(mem.Length, Range(p, |data|))
      modifies mem
      ensures mem[..] == Scatter(old(mem[..]), Range(p, |data|), data)
    {
      if data == [] {
        return;
      }
      var n := |data|;
      assert Range(p, n)[0] == p && Range(p, n)[n - 1] == p + n - 1;
      for k := 0 to n
        invariant forall a :: 0 <= a < mem.Length ==> mem[a] == if p <= a < p + k then data[a - p] else old(mem[a])
      {
        mem[p + k] := data[k];
      }
      ScatterRange(old(mem[..]), p, data);
      assert mem[..] == old(mem[..])[..p] + data + old(mem[..])[p + n..];
    }

    /** pack2: the bytes of `count` items at `pointer`. */
    method Pack2(t: Datatype, pointer: int, count: nat) returns (data: seq<Byte>)
      requires WellFormed(t) && InBounds(mem.Length, TypeMap(t, pointer, count))
      ensures data == Gather(mem[..], TypeMap(t, pointer, count))
      ensures PackedFrom(mem[..], t, pointer, count, data)
      decreases t, 0
    {
      hide PackedFrom;
      GatheredIsPacked(mem[..], t, pointer, count);
      match t {
        case Buildin(size) =>
          BuildinItems(size, pointer, count);
          data := ReadMem(pointer, count * size);
        case Contiguous(base, c) =>
          ContiguousItems(base, c, pointer, count);
          data := Pack2(base, pointer, count * c);
        case Vector(base, blocks, blockSize, stride) =>
          data := PackVector(base, blocks, blockSize, stride, pointer, count);
        case Indexed(base, sizes, displs) =>
          data := PackIndexed(base, sizes, displs, pointer, count);
      }
    }

    /** Appends one block; `others` is what is still to be packed. */
    method PackBlock(base: Datatype, pointer: int, n: nat, data: seq<Byte>, ghost all: seq<int>, ghost others: seq<int>)
      returns (more: seq<Byte>)
      requires WellFormed(base) && Packing(mem[..], all, TypeMap(base, pointer, n) + others, data)
      ensures Packing(mem[..], all, others, more)
      decreases base, 1
    {
      ghost var block := TypeMap(base, pointer, n);
      BoundsSplit(mem.Length, block, others);
      GatherAdd(mem[..], block, others);
      var bytes := Pack2(base, pointer, n);
      more := data + bytes;
      assert data + (bytes + Gather(mem[..], others)) == more + Gather(mem[..], others);
    }

    method PackVector(base: Datatype, blocks: nat, blockSize: nat, stride: int, start: int, count: nat)
          returns (data: seq<Byte>)
      requires WellFormed(base) && InBounds(mem.Length, TypeMap(Vector(base, blocks, blockSize, stride), start, count))
      ensures data == Gather(mem[..], TypeMap(Vector(base, blocks, blockSize, stride), start, count))
      decreases base, 2
    {
      hide Packing, Gather, InBounds, UnpackSize;
      ghost var t := Vector(base, blocks, blockSize, stride);
      ghost var all := TypeMap(t, start, count);
      var stepIndex := Size(base) * blockSize;
      var pointer := start;
      data := [];
      NothingPacked(mem[..], all);
      for i := 0 to count
        invariant Packing(mem[..], all, TypeMap(t, pointer, count - i), data)
      {
        ghost var next, itemStart := TypeMap(t, pointer + Advance(t), count - i - 1), pointer;
        for j := 0 to blocks
          invariant pointer == itemStart + Times(stride, j)
          invariant Packing(mem[..], all, Strided(base, pointer, blockSize, stride, blocks - j) + next, data)
        {
          ghost var block, others := TypeMap(base, pointer, blockSize),
                Strided(base, pointer + stride, blockSize, stride, blocks - j - 1);
          assert (block + others) + next == block + (others + next);
          data := PackBlock(base, pointer, blockSize, data, all, others + next);
          pointer := pointer + stride;
        }
        assert [] + next == next;
        pointer := pointer - stride;
        pointer := pointer + stepIndex;
      }
      AllPacked(mem[..], all, data);
    }

    method PackIndexed(base: Datatype, sizes: seq<nat>, displs: seq<int>, start: int, count: nat)
          returns (data: seq<Byte>)
      requires WellFormed(Indexed(base, sizes, displs))
               && InBounds(mem.Length, TypeMap(Indexed(base, sizes, displs), start, count))
      ensures data == Gather(mem[..], TypeMap(Indexed(base, sizes, displs), start, count))
      decreases base, 3
    {
      hide Packing, Gather, InBounds, UnpackSize;
      ghost var t := Indexed(base, sizes, displs);
      ghost var all := TypeMap(t, start, count);
      var unpackSize := UnpackSize(Size(base), sizes, displs);
      var pointer := start;
      data := [];
      NothingPacked(mem[..], all);
      for i := 0 to count
        invariant Packing(mem[..], all, TypeMap(t, pointer, count - i), data)
      {
        data := PackBlocks(base, sizes, displs, pointer, data, all, TypeMap(t, pointer + Advance(t), count - i - 1));
        pointer := pointer + unpackSize;
      }
      AllPacked(mem[..], all, data);
    }

    /** The blocks of one item of an indexed type. */
    method PackBlocks(base: Datatype, sizes: seq<nat>, displs: seq<int>, pointer: int, data0: seq<Byte>,
                      ghost all: seq<int>, ghost next: seq<int>)
      returns (data: seq<Byte>)
      requires WellFormed(base) && |sizes| == |displs|
      requires Packing(mem[..], all, Listed(base, pointer, sizes, displs) + next, data0)
      ensures Packing(mem[..], all, next, data)
      decreases base, 2
    {
      hide Packing;
      data := data0;
      assert sizes[0..] == sizes && displs[0..] == displs;
      for j := 0 to |sizes|
        invariant Packing(mem[..], all, Listed(base, pointer, sizes[j..], displs[j..]) + next, data)
      {
        ghost var others := ListedNext(base, pointer, sizes, displs, j, next);
        data := PackBlock(base, pointer + displs[j], sizes[j], data, all, others);
      }
      assert [] + next == next;
    }

    /** unpack: stores `count` items from the buffer, beginning with its byte `index`. */
    method Unpack(t: Datatype, buffer: seq<Byte>, count: nat, pointer: int, index: nat)
      requires WellFormed(t) && InBounds(mem.Length, TypeMap(t, pointer, count))
               && index + |TypeMap(t, pointer, count)| <= |buffer|
      modifies mem
      ensures mem[..] == Unpacked(old(mem[..]), TypeMap(t, pointer, count), buffer, index)
      ensures index + count * Size(t) <= |buffer|
      ensures UnpackedTo(old(mem[..]), mem[..], t, pointer, count, buffer[index..index + count * Size(t)])
      decreases t, 0
    {
      hide Size, InBounds, UnpackedTo, Scatter;
      TypeMapSize(t, pointer, count);
      ScatteredIsUnpacked(mem[..], t, pointer, count, buffer[index..index + count * Size(t)]);
      match t {
        case Buildin(size) =>
          BuildinItems(size, pointer, count);
          WriteBuffer(pointer, buffer[index..index + count * size]);
        case Contiguous(base, c) =>
          ContiguousItems(base, c, pointer, count);
          Unpack(base, buffer, count * c, pointer, index);
        case Vector(base, blocks, blockSize, stride) =>
          UnpackVector(base, blocks, blockSize, stride, buffer, pointer, count, index);
        case Indexed(base, sizes, displs) =>
          UnpackIndexed(base, sizes, displs, buffer, pointer, count, index);
      }
    }

    /** Stores one block; `others` is what is still to be stored. */
    method UnpackBlock(base: Datatype, buffer: seq<Byte>, n: nat, pointer: int, index: nat, ghost mem0: seq<Byte>,
                       ghost all: seq<int>, ghost others: seq<int>, ghost start: nat)
      returns (next: nat)
      requires WellFormed(base) && Unpacking(mem0, mem[..], all, TypeMap(base, pointer, n) + others, buffer, start,
                                             index)
      modifies mem
      ensures next == index + n * Size(base) && Unpacking(mem0, mem[..], all, others, buffer, start, next)
      decreases base, 1
    {
      hide Size, Unpacking, Unpacked, InBounds;
      TypeMapSize(base, pointer, n);
      UnpackingNext(mem0, mem[..], all, TypeMap(base, pointer, n), others, buffer, start, index);
      Unpack(base, buffer, n, pointer, index);
      next := index + n * Size(base);
    }

    method UnpackVector(base: Datatype, blocks: nat, blockSize: nat, stride: int, buffer: seq<Byte>, start: int,
                        count: nat, index0: nat)
      requires WellFormed(base) && InBounds(mem.Length, TypeMap(Vector(base, blocks, blockSize, stride), start, count))
      requires index0 + |TypeMap(Vector(base, blocks, blockSize, stride), start, count)| <= |buffer|
      modifies mem
      ensures mem[..] == Unpacked(old(mem[..]), TypeMap(Vector(base, blocks, blockSize, stride), start, count),
                                  buffer, index0)
      decreases base, 2
    {
      hide Unpacking, InBounds, Unpacked, UnpackSize;
      ghost var t, mem0 := Vector(base, blocks, blockSize, stride), mem[..];
      ghost var all := TypeMap(t, start, count);
      var stepIndex: nat := Size(base) * blockSize;
      var pointer: int, index: nat := start, index0;
      NothingUnpacked(mem0, all, buffer, index0);
      for i := 0 to count
        invariant Unpacking(mem0, mem[..], all, TypeMap(t, pointer, count - i), buffer, index0, index)
      {
        ghost var next, itemStart := TypeMap(t, pointer + Advance(t), count - i - 1), pointer;
        for j := 0 to blocks
          invariant pointer == itemStart + Times(stride, j)
          invariant Unpacking(mem0, mem[..], all, Strided(base, pointer, blockSize, stride, blocks - j) + next,
                              buffer, index0, index)
        {
          ghost var block, others := TypeMap(base, pointer, blockSize),
                Strided(base, pointer + stride, blockSize, stride, blocks - j - 1);
          assert (block + others) + next == block + (others + next);
          index := UnpackBlock(base, buffer, blockSize, pointer, index, mem0, all, others + next, index0);
          pointer := pointer + stride;
        }
        assert [] + next == next;
        pointer := pointer - stride;
        pointer := pointer + stepIndex;
      }
      AllUnpacked(mem0, mem[..], all, buffer, index0, index);
    }

    method UnpackIndexed(base: Datatype, sizes: seq<nat>, displs: seq<int>, buffer: seq<Byte>, start: int, count: nat,
                         index0: nat)
      requires WellFormed(Indexed(base, sizes, displs))
               && InBounds(mem.Length, TypeMap(Indexed(base, sizes, displs), start, count))
      requires index0 + |TypeMap(Indexed(base, sizes, displs), start, count)| <= |buffer|
      modifies mem
      ensures mem[..] == Unpacked(old(mem[..]), TypeMap(Indexed(base, sizes, displs), start, count), buffer, index0)
      decreases base, 3
    {
      hide Unpacking, InBounds, Unpacked, UnpackSize;
      ghost var t, mem0 := Indexed(base, sizes, displs), mem[..];
      ghost var all := TypeMap(t, start, count);
      var unpackSize := UnpackSize(Size(base), sizes, displs);
      var pointer: int, index: nat := start, index0;
      NothingUnpacked(mem0, all, buffer, index0);
      for i := 0 to count
        invariant Unpacking(mem0, mem[..], all, TypeMap(t, pointer, count - i), buffer, index0, index)
      {
        index := UnpackBlocks(base, sizes, displs, buffer, pointer, index, mem0, all,
                              TypeMap(t, pointer + Advance(t), count - i - 1), index0);
        pointer := pointer + unpackSize;
      }
      AllUnpacked(mem0, mem[..], all, buffer, index0, index);
    }

    /** The blocks of one item of an indexed type. */
    method UnpackBlocks(base: Datatype, sizes: seq<nat>, displs: seq<int>, buffer: seq<Byte>, pointer: int, index0: nat,
                        ghost mem0: seq<Byte>, ghost all: seq<int>, ghost next: seq<int>, ghost start: nat)
      returns (index: nat)
      requires WellFormed(base) && |sizes| == |displs|
      requires Unpacking(mem0, mem[..], all, Listed(base, pointer, sizes, displs) + next, buffer, start, index0)
      modifies mem
      ensures Unpacking(mem0, mem[..], all, next, buffer, start, index)
      decreases base, 2
    {
      hide Unpacking;
      index := index0;
      assert sizes[0..] == sizes && displs[0..] == displs;
      for j := 0 to |sizes|
        invariant Unpacking(mem0, mem[..], all, Listed(base, pointer, sizes[j..], displs[j..]) + next, buffer, start,
                            index)
      {
        ghost var others := ListedNext(base, pointer, sizes, displs, j, next);
        index := UnpackBlock(base, buffer, sizes[j], pointer + displs[j], index, mem0, all, others, start);
      }
      assert [] + next == next;
    }
  }

  lemma ListedNext(base: Datatype, p: int, sizes: seq<nat>, displs: seq<int>, j: nat, next: seq<int>)
        returns (others: seq<int>)
    requires WellFormed(base) && |sizes| == |displs| && j < |sizes|
    ensures others == Listed(base, p, sizes[j + 1..], displs[j + 1..]) + next
    ensures Listed(base, p, sizes[j..], displs[j..]) + next == TypeMap(base, p + displs[j], sizes[j]) + others
  {
    others := Listed(base, p, sizes[j + 1..], displs[j + 1..]) + next;
    assert sizes[j..][1..] == sizes[j + 1..] && displs[j..][1..] == displs[j + 1..];
    var block := TypeMap(base, p + displs[j], sizes[j]);
    assert (block + Listed(base, p, sizes[j + 1..], displs[j + 1..])) + next == block + others;
  }

  /** `data` holds the bytes at the addresses of `all` up to `rest`. */
  ghost predicate Packing(mem: seq<Byte>, all: seq<int>, rest: seq<int>, data: seq<Byte>) {
    InBounds(|mem|, all) && InBounds(|mem|, rest) && data + Gather(mem, rest) == Gather(mem, all)
  }

  lemma NothingPacked(mem: seq<Byte>, all: seq<int>)
    requires InBounds(|mem|, all)
    ensures Packing(mem, all, all, [])
  {
    assert [] + Gather(mem, all) == Gather(mem, all);
  }

  lemma AllPacked(mem: seq<Byte>, all: seq<int>, data: seq<Byte>)
    requires Packing(mem, all, [], data)
    ensures InBounds(|mem|, all) && data == Gather(mem, all)
  {
    assert data + [] == data;
  }

  /** The bytes for the addresses of `all` up to `rest` are stored. */
  ghost predicate Unpacking(mem0: seq<Byte>, mem: seq<Byte>, all: seq<int>, rest: seq<int>, buffer: seq<Byte>,
                            start: nat, index: nat) {
    && InBounds(|mem0|, all) && |rest| <= |all| && all[|all| - |rest|..] == rest
    && index == start + |all| - |rest| && start + |all| <= |buffer|
    && InBounds(|mem0|, all[..|all| - |rest|]) && mem == Unpacked(mem0, all[..|all| - |rest|], buffer, start)
  }

  lemma UnpackingNext(mem0: seq<Byte>, mem: seq<Byte>, all: seq<int>, block: seq<int>, others: seq<int>,
                      buffer: seq<Byte>, start: nat, index: nat)
    requires Unpacking(mem0, mem, all, block + others, buffer, start, index)
    ensures |mem| == |mem0| && InBounds(|mem|, block) && index + |block| <= |buffer|
    ensures Unpacking(mem0, Unpacked(mem, block, buffer, index), all, others, buffer, start, index + |block|)
  {
    var k := |all| - |block| - |others|;
    assert all == all[..k] + (block + others) == (all[..k] + block) + others;
    BoundsSplit(|mem0|, all[..k] + block, others);
    BoundsSplit(|mem0|, all[..k], block);
    ScatterAdd(mem0, all[..k], buffer[start..index], block, buffer[index..index + |block|]);
    assert buffer[start..index] + buffer[index..index + |block|] == buffer[start..start + k + |block|];
    assert all[..k + |block|] == all[..k] + block;
    assert all[k + |block|..] == others;
  }

  lemma NothingUnpacked(mem: seq<Byte>, all: seq<int>, buffer: seq<Byte>, start: nat)
    requires InBounds(|mem|, all) && start + |all| <= |buffer|
    ensures Unpacking(mem, mem, all, all, buffer, start, start)
  {
    assert all[..0] == [] && all[0..] == all;
  }

  lemma AllUnpacked(mem0: seq<Byte>, mem: seq<Byte>, all: seq<int>, buffer: seq<Byte>, start: nat, index: nat)
    requires Unpacking(mem0, mem, all, [], buffer, start, index)
    ensures InBounds(|mem0|, all) && start + |all| <= |buffer| && mem == Unpacked(mem0, all, buffer, start)
  {
    assert all[..|all|] == all;
  }

  /** The bytes of the buffer from `index` on, stored at the addresses. */
  ghost function Unpacked(mem: seq<Byte>, addresses: seq<int>, buffer: seq<Byte>, index: nat): (r: seq<Byte>)
    requires InBounds(|mem|, addresses) && index + |addresses| <= |buffer|
    ensures |r| == |mem|
  {
    Scatter(mem, addresses, buffer[index..index + |addresses|])
  }

  lemma BoundsSplit(length: nat, a: seq<int>, b: seq<int>)
    ensures InBounds(length, a + b) <==> InBounds(length, a) && InBounds(length, b)
  {
    if InBounds(length, a + b) {
      forall k | 0 <= k < |a| ensures 0 <= a[k] < length {
        assert (a + b)[k] == a[k];
      }
      forall k | 0 <= k < |b| ensures 0 <= b[k] < length {
        assert (a + b)[|a| + k] == b[k];
      }
    }
  }

  /** What happens to a message: it is unpacked, it is reported as too long, or the items in it cannot be counted, so
      that there is no count to unpack with. */
  datatype Delivery = Delivered(count: nat) | Truncated(count: nat) | NotCounted(why: Count)

  /** A message from one process to another: packed as `n` items of one type, unpacked as however many items of another
      type it holds, if it holds whole ones and no more than the receive asked for. */
  method Deliver(from: Controller, to: Controller, t: Datatype, p: int, n: nat, u: Datatype, q: int, limit: nat)
        returns (r: Delivery)
    requires WellFormed(t) && WellFormed(u) && InBounds(from.mem.Length, TypeMap(t, p, n))
    requires forall m: nat :: Size(u) > 0 && m <= limit && m * Size(u) == n * Size(t) ==>
                InBounds(to.mem.Length, TypeMap(u, q, m))
    modifies to.mem
    ensures r == NotCounted(DividesByZero) <==> Size(u) == 0
    ensures r == NotCounted(NotWhole) <==> Size(u) > 0 && forall m: nat :: m * Size(u) != n * Size(t)
    ensures r.NotCounted? ==> !r.why.Items?
    ensures !r.NotCounted? ==> r.count * Size(u) == n * Size(t) && (r.Truncated? <==> r.count > limit)
    ensures !r.Delivered? ==> to.mem[..] == old(to.mem[..])
    ensures r.Delivered? ==>
              && |TypeMap(u, q, r.count)| == |TypeMap(t, p, n)|
              && to.mem[..] == Scatter(old(to.mem[..]), TypeMap(u, q, r.count),
                                       Gather(old(from.mem[..]), TypeMap(t, p, n)))
              && exists message :: PackedFrom(old(from.mem[..]), t, p, n, message)
                                   && UnpackedTo(old(to.mem[..]), to.mem[..], u, q, r.count, message)
  {
    hide PackedFrom, UnpackedTo, TypeMap, Scatter, Size, WellFormed;
    var message := from.Pack2(t, p, n);
    TypeMapSize(t, p, n);
    var count := GetCount(u, |message|);
    if !count.Items? {
      return NotCounted(count);
    }
    if count.n > limit {
      return Truncated(count.n);
    }
    TypeMapSize(u, q, count.n);
    to.Unpack(u, message, count.n, q, 0);
    assert message[0..0 + |message|] == message;
    r := Delivered(count.n);
  }
}
