/** What is fed to MD5 for one page. */
module PageDigest {
  import opened MemoryTypes

  ghost predicate Unreadable(bits: seq<Perm>) {
    forall j :: 0 <= j < |bits| ==> !bits[j].read
  }

  ghost predicate FullyReadable(bits: seq<Perm>) {
    forall j :: 0 <= j < |bits| ==> bits[j].read
  }

  /** `c1` and `c2` hold the same value at every readable position. */
  ghost predicate Agree(bits: seq<Perm>, c1: seq<Byte>, c2: seq<Byte>) {
    && |c1| == |bits| == |c2|
    && forall j :: 0 <= j < |bits| && bits[j].read ==> c1[j] == c2[j]
  }

  /** The readable bytes of a page, in order. */
  function Readable(bits: seq<Perm>, content: seq<Byte>): (r: seq<Byte>)
    requires |bits| == |content|
    ensures |r| <= |bits|
  {
    if |bits| == 0 then []
    else
      var n := |bits| - 1;
      Readable(bits[..n], content[..n]) + if bits[n].read then [content[n]] else []
  }

  /** The bytes fed to MD5: the readable bytes, followed by the permissions unless every byte is readable. */
  function Digest(bits: seq<Perm>, content: seq<Byte>): seq<Byte>
    requires |bits| == |content|
  {
    var r := Readable(bits, content);
    if |r| == |bits| then r else r + Codes(bits)
  }

  lemma {:induction false} ReadableLength(bits: seq<Perm>, content: seq<Byte>)
    requires |bits| == |content|
    ensures |Readable(bits, content)| == |bits| <==> FullyReadable(bits)
    ensures |Readable(bits, content)| == 0 <==> Unreadable(bits)
    ensures FullyReadable(bits) ==> Readable(bits, content) == content
  {
    if |bits| > 0 {
      var n := |bits| - 1;
      ReadableLength(bits[..n], content[..n]);
      assert forall j :: 0 <= j < |bits| ==> bits[j] == if j < n then bits[..n][j] else bits[n];
      if FullyReadable(bits) {
        assert content == content[..n] + [content[n]];
      }
    }
  }

  /** The readable bytes are the same exactly when the contents agree. */
  lemma {:induction false} ReadableAgree(bits: seq<Perm>, c1: seq<Byte>, c2: seq<Byte>)
    requires |c1| == |bits| == |c2|
    ensures Readable(bits, c1) == Readable(bits, c2) <==> Agree(bits, c1, c2)
    ensures |Readable(bits, c1)| == |Readable(bits, c2)|
  {
    if |bits| > 0 {
      var n := |bits| - 1;
      ReadableAgree(bits[..n], c1[..n], c2[..n]);
      assert Agree(bits, c1, c2) <==> Agree(bits[..n], c1[..n], c2[..n]) && (bits[n].read ==> c1[n] == c2[n]);
      if !bits[n].read {
        assert Readable(bits, c1) == Readable(bits[..n], c1[..n]) && Readable(bits, c2) == Readable(bits[..n], c2[..n]);
      } else if Readable(bits, c1) == Readable(bits, c2) {
        var r1, r2 := Readable(bits[..n], c1[..n]), Readable(bits[..n], c2[..n]);
        assert r1 == Readable(bits, c1)[..|r1|] && r2 == Readable(bits, c2)[..|r2|];
        assert c1[n] == Readable(bits, c1)[|r1|] && c2[n] == Readable(bits, c2)[|r2|];
      }
    }
  }

  lemma CodesInjective(b1: seq<Perm>, b2: seq<Perm>)
    requires |b1| == |b2| && Codes(b1) == Codes(b2)
    ensures b1 == b2
  {
    forall j | 0 <= j < |b1| ensures b1[j] == b2[j] {
      assert Codes(b1)[j] == Codes(b2)[j];
    }
  }

  /** The digest input identifies a page exactly: two pages that have something readable are fed
      alike if and only if their permissions and readable bytes coincide, or both are readable
      throughout with the same bytes. In the second case DEFINED and READONLY are not told apart. */
  lemma DigestIdentifies(b1: seq<Perm>, c1: seq<Byte>, b2: seq<Perm>, c2: seq<Byte>)
    requires |b1| == |c1| == |b2| == |c2|
    requires !Unreadable(b1) && !Unreadable(b2)
    ensures Digest(b1, c1) == Digest(b2, c2) <==>
            (b1 == b2 && Agree(b1, c1, c2)) || (FullyReadable(b1) && FullyReadable(b2) && c1 == c2)
  {
    ReadableLength(b1, c1);
    ReadableLength(b2, c2);
    ReadableAgree(b1, c1, c2);
    var r1, r2, n := Readable(b1, c1), Readable(b2, c2), |b1|;
    if Digest(b1, c1) == Digest(b2, c2) && !FullyReadable(b1) {
      assert !FullyReadable(b2);
      assert (r1 + Codes(b1))[|r1|..] == Codes(b1) && (r2 + Codes(b2))[|r2|..] == Codes(b2);
      CodesInjective(b1, b2);
      assert r1 == (r1 + Codes(b1))[..|r1|] && r2 == (r2 + Codes(b2))[..|r2|];
    }
  }

  // ---- what is fed, place by place -----------------------------------------------------------------

  ghost predicate Ascending(q: seq<nat>) {
    forall i, j :: 0 <= i < j < |q| ==> q[i] < q[j]
  }

  /** `q` lists the readable places in order. */
  ghost predicate ReadablePlaces(bits: seq<Perm>, q: seq<nat>) {
    Ascending(q) && forall j: nat :: j in q <==> j < |bits| && bits[j].read
  }

  /** The values at the readable places, in order, and then the permissions unless all places are readable. */
  ghost predicate IsFed(bits: seq<Perm>, content: seq<Byte>, q: seq<nat>, fed: seq<Byte>)
    requires |bits| == |content|
  {
    && |fed| == |q| + (if |q| == |bits| then 0 else |bits|)
    && (forall k :: 0 <= k < |q| ==> q[k] < |content| && fed[k] == content[q[k]])
    && (|q| != |bits| ==> forall j :: 0 <= j < |bits| ==> fed[|q| + j] == bits[j].Code() as Byte)
  }

  lemma {:induction false} ReadableIs(bits: seq<Perm>, content: seq<Byte>) returns (q: seq<nat>)
    requires |bits| == |content|
    ensures ReadablePlaces(bits, q) && |Readable(bits, content)| == |q|
    ensures forall k :: 0 <= k < |q| ==> q[k] < |content| && Readable(bits, content)[k] == content[q[k]]
  {
    if |bits| == 0 {
      q := [];
    } else {
      var n := |bits| - 1;
      var p := ReadableIs(bits[..n], content[..n]);
      q := p + if bits[n].read then [n] else [];
      forall j: nat ensures j in q <==> j < |bits| && bits[j].read {
        assert j in q <==> j in p || (bits[n].read && j == n);
      }
    }
  }

  /** A digest input is what the readable places in order say. */
  lemma {:induction false} DigestIs(bits: seq<Perm>, content: seq<Byte>) returns (q: seq<nat>)
    requires |bits| == |content|
    ensures ReadablePlaces(bits, q) && IsFed(bits, content, q, Digest(bits, content))
  {
    q := ReadableIs(bits, content);
  }

  /** There is one list of the places. */
  lemma {:induction false} PlacesUnique(p: seq<nat>, q: seq<nat>)
    requires Ascending(p) && Ascending(q) && forall j: nat :: j in p <==> j in q
    ensures p == q
    decreases |p|
  {
    assert (p != [] ==> p[0] in p) && (q != [] ==> q[0] in q);
    if p != [] && q != [] {
      var x, y := p[|p| - 1], q[|q| - 1];
      assert x in q && y in p;
      var p', q' := p[..|p| - 1], q[..|q| - 1];
      forall j: nat ensures j in p' <==> j in q' {
        assert j in p <==> j in p' || j == x;
        assert j in q <==> j in q' || j == y;
        assert x !in p' && y !in q';
      }
      PlacesUnique(p', q');
      assert p == p' + [x] && q == q' + [y];
    }
  }

  lemma {:induction false} FedIsDigest(bits: seq<Perm>, content: seq<Byte>, q: seq<nat>, fed: seq<Byte>)
    requires |bits| == |content| && ReadablePlaces(bits, q) && IsFed(bits, content, q, fed)
    ensures fed == Digest(bits, content)
  {
    var p := DigestIs(bits, content);
    PlacesUnique(p, q);
    FedUnique(bits, content, q, fed, Digest(bits, content));
  }

  lemma FedUnique(bits: seq<Perm>, content: seq<Byte>, q: seq<nat>, fed: seq<Byte>, other: seq<Byte>)
    requires |bits| == |content| && IsFed(bits, content, q, fed) && IsFed(bits, content, q, other)
    ensures fed == other
  {
    forall k | 0 <= k < |fed| ensures fed[k] == other[k] {
      if k >= |q| {
        var j := k - |q|;
        assert fed[|q| + j] == bits[j].Code() as Byte && other[|q| + j] == bits[j].Code() as Byte;
      }
    }
  }

  /** A page locked throughout and the same page unlocked are fed alike, although their permissions differ. */
  lemma LockedPageDigest(content: seq<Byte>)
    requires |content| == PAGE_SIZE
    ensures UniformBits(READONLY) != UniformBits(DEFINED)
    ensures Digest(UniformBits(READONLY), content) == Digest(UniformBits(DEFINED), content)
  {
    assert UniformBits(READONLY)[0] != UniformBits(DEFINED)[0];
    ReadableLength(UniformBits(READONLY), content);
    ReadableLength(UniformBits(DEFINED), content);
  }
}
