/** Vocabulary of the client-memory modules: bytes, permissions, page geometry. */
module MemoryTypes {

  newtype Byte = x: int | 0 <= x < 256

  datatype Option<+T> = None | Some(value: T)

  const PAGE_SIZE: nat := 65536

  /** A page here consists of several pages of the machine. */
  const REAL_PAGE: nat := 4096
  const REAL_PAGES: nat := 16

  /** A permission is two bits: bit 1 (value 2) allows reading, bit 0 (value 1) allows writing. */
  datatype Perm = Perm(read: bool, write: bool) {
    function Code(): (c: nat)
      ensures c < 4
    {
      (if read then 2 else 0) + (if write then 1 else 0)
    }

    /** Bitwise "and" of two permissions. */
    function And(other: Perm): Perm {
      Perm(read && other.read, write && other.write)
    }

    /** The test `perm & mask` of the source, read as a truth value. */
    predicate Meets(mask: Perm) {
      (read && mask.read) || (write && mask.write)
    }
  }

  const NOACCESS := Perm(false, false)
  const UNDEFINED := Perm(false, true)
  const READONLY := Perm(true, false)
  const DEFINED := Perm(true, true)

  const WRITE_MASK := Perm(false, true)

  /** How permissions are stored, fed to the hash and sent. */
  lemma PermCodes()
    ensures NOACCESS.Code() == 0 && UNDEFINED.Code() == 1 && READONLY.Code() == 2 && DEFINED.Code() == 3
  {
  }

  /** The permission array of a page whose bytes all carry `perm`. */
  function UniformBits(perm: Perm): (bits: seq<Perm>)
    ensures |bits| == PAGE_SIZE
    ensures forall j :: 0 <= j < PAGE_SIZE ==> bits[j] == perm
  {
    seq(PAGE_SIZE, _ => perm)
  }

  /** A permission array as bytes. */
  function Codes(bits: seq<Perm>): (r: seq<Byte>)
    ensures |r| == |bits|
    ensures forall j :: 0 <= j < |bits| ==> r[j] == bits[j].Code() as Byte
  {
    seq(|bits|, j requires 0 <= j < |bits| => bits[j].Code() as Byte)
  }

  function PermOfCode(code: nat): Perm
    requires code < 4
  {
    Perm(code >= 2, code % 2 == 1)
  }

  function Offset(a: int): (off: int)
    ensures 0 <= off < PAGE_SIZE
  {
    a % 65536
  }

  /** Start of the page that contains `a`. */
  function Base(a: int): (b: int)
    ensures b <= a < b + PAGE_SIZE
    ensures Offset(b) == 0 && a == b + Offset(a)
  {
    a - a % 65536
  }

  /** A member of a nonempty set. */
  lemma Member<T>(s: set<T>) returns (x: T)
    requires s != {}
    ensures x in s
  {
    x :| x in s;
  }

  lemma BaseUnique(a: int, b: int)
    requires Offset(b) == 0 && b <= a < b + PAGE_SIZE
    ensures Base(a) == b && Offset(a) == a - b
  {
  }
}
