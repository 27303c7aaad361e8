/** What a program can write on a stream: the outputs along all maximal paths of a state space. */
module Outputs {
  import opened MemoryTypes
  import opened StateSpace

  // ---- lexicographic order and truncation ------------------------------------------------------------

  /** The order of strings: by code points, a proper prefix first. */
  predicate Less(a: string, b: string) {
    b != [] && (a == [] || a[0] < b[0] || (a[0] == b[0] && Less(a[1..], b[1..])))
  }

  /** One string comes before another if it is a proper prefix of it, or has the smaller code point where they first
      differ. */
  lemma {:induction false} LessMeans(a: string, b: string)
    ensures Less(a, b) <==> a < b || exists k: nat :: DiffersAt(a, b, k) && a[k] < b[k]
  {
    if a != [] && b != [] {
      if a[0] == b[0] {
        LessMeans(a[1..], b[1..]);
        assert a == [a[0]] + a[1..] && b == [b[0]] + b[1..];
        assert a < b <==> a[1..] < b[1..];
        if k: nat :| DiffersAt(a, b, k) && a[k] < b[k] {
          DiffersLater(a, b, k);
        }
        if k: nat :| DiffersAt(a[1..], b[1..], k) && a[1..][k] < b[1..][k] {
          DiffersLater(a, b, k + 1);
        }
      } else {
        assert DiffersAt(a, b, 0);
      }
    }
  }

  lemma DiffersLater(a: string, b: string, k: nat)
    requires a != [] && b != [] && a[0] == b[0]
    ensures DiffersAt(a, b, k) ==> k > 0
    ensures k > 0 ==> (DiffersAt(a, b, k) <==> DiffersAt(a[1..], b[1..], k - 1))
  {
    if 0 < k < |a| && k < |b| {
      assert a[..k] == [a[0]] + a[1..][..k - 1] && b[..k] == [b[0]] + b[1..][..k - 1];
      assert a[..k][1..] == a[1..][..k - 1] && b[..k][1..] == b[1..][..k - 1];
    }
  }

  ghost predicate DiffersAt(a: string, b: string, k: nat) {
    k < |a| && k < |b| && a[..k] == b[..k] && a[k] != b[k]
  }

  lemma {:induction false} LessTotal(a: string, b: string)
    ensures Less(a, b) || a == b || Less(b, a)
  {
    if a != [] && b != [] && a[0] == b[0] {
      LessTotal(a[1..], b[1..]);
      assert a == [a[0]] + a[1..] && b == [b[0]] + b[1..];
    }
  }

  lemma {:induction false} LessIrreflexive(a: string)
    ensures !Less(a, a)
  {
    if a != [] {
      LessIrreflexive(a[1..]);
    }
  }

  lemma {:induction false} LessTransitive(a: string, b: string, c: string)
    requires Less(a, b) && Less(b, c)
    ensures Less(a, c)
  {
    if a != [] && a[0] == b[0] && b[0] == c[0] {
      LessTransitive(a[1..], b[1..], c[1..]);
    }
  }

  lemma {:induction false} LessPrefixed(p: string, a: string, b: string)
    ensures Less(p + a, p + b) <==> Less(a, b)
  {
    if p == [] {
      assert p + a == a && p + b == b;
    } else {
      LessPrefixed(p[1..], a, b);
      assert (p + a)[1..] == p[1..] + a && (p + b)[1..] == p[1..] + b;
    }
  }

  function Below(s: set<string>, x: string): set<string> {
    set y | y in s && Less(y, x)
  }

  /** The `k` smallest elements of a set. */
  function Smallest(k: nat, s: set<string>): set<string> {
    set x | x in s && |Below(s, x)| < k
  }

  lemma SubsetCard<T>(a: set<T>, b: set<T>)
    requires a <= b
    ensures |a| <= |b|
    ensures |a| == |b| ==> a == b
  {
    assert b == a + (b - a);
    assert |b| == |a| + |b - a|;
  }

  lemma {:induction false} HasLargest(s: set<string>) returns (m: string)
    requires s != {}
    ensures m in s && forall x :: x in s && x != m ==> Less(x, m)
    decreases |s|
  {
    var x :| x in s;
    if s == {x} {
      m := x;
    } else {
      var rest := s - {x};
      assert rest != {};
      var r := HasLargest(rest);
      LessTotal(x, r);
      m := if Less(x, r) then r else x;
      forall y | y in s && y != m ensures Less(y, m) {
        if y != x && m == x && y != r {
          LessTransitive(y, r, x);
        }
      }
    }
  }

  lemma BelowWithout(s: set<string>, m: string, x: string)
    requires m in s && (forall y :: y in s && y != m ==> Less(y, m)) && x in s && x != m
    ensures Below(s - {m}, x) == Below(s, x)
  {
    if Less(m, x) {
      LessTransitive(m, x, m);
      LessIrreflexive(m);
    }
  }

  /** There are as many as there can be. */
  lemma {:induction false} SmallestSize(k: nat, s: set<string>)
    ensures |Smallest(k, s)| == if |s| <= k then |s| else k
    ensures |s| <= k ==> Smallest(k, s) == s
    decreases |s|
  {
    if s != {} {
      var m := HasLargest(s);
      var rest := s - {m};
      SmallestSize(k, rest);
      LessIrreflexive(m);
      assert Below(s, m) == rest;
      forall x | x in rest ensures x in Smallest(k, s) <==> x in Smallest(k, rest) {
        BelowWithout(s, m, x);
      }
      if |s| <= k {
        assert Smallest(k, s) == s;
      } else {
        assert Smallest(k, s) == Smallest(k, rest);
      }
    } else {
      assert Smallest(k, s) == {};
    }
  }

  /** They are below all others. */
  lemma SmallestAreSmallest(k: nat, s: set<string>, x: string, y: string)
    requires x in Smallest(k, s) && y in s && y !in Smallest(k, s)
    ensures Less(x, y)
  {
    LessTotal(x, y);
    if Less(y, x) {
      forall z | z in Below(s, y) ensures z in Below(s, x) {
        LessTransitive(z, y, x);
      }
      SubsetCard(Below(s, y), Below(s, x));
    }
  }

  /** A part of a set that keeps the `k` smallest elements has the same `k` smallest elements. */
  lemma SmallestOfPart(k: nat, part: set<string>, s: set<string>)
    requires Smallest(k, s) <= part <= s
    ensures Smallest(k, part) == Smallest(k, s)
  {
    forall x | x in Smallest(k, s) ensures x in Smallest(k, part) {
      SubsetCard(Below(part, x), Below(s, x));
    }
    forall x | x in Smallest(k, part) ensures x in Smallest(k, s) {
      if |Below(s, x)| >= k {
        EnoughBelow(k, s, x);
        SubsetCard(Smallest(k, Below(s, x)), Below(part, x));
      }
    }
  }

  lemma EnoughBelow(k: nat, s: set<string>, x: string)
    requires |Below(s, x)| >= k
    ensures |Smallest(k, Below(s, x))| == k
    ensures forall y :: y in Smallest(k, Below(s, x)) ==> Less(y, x) && y in Smallest(k, s)
  {
    var b := Below(s, x);
    SmallestSize(k, b);
    if |b| == k {
      assert Smallest(k, b) == b;
    }
    forall y | y in Smallest(k, b) ensures Less(y, x) && y in Smallest(k, s) {
      forall z | z in Below(s, y) ensures z in Below(b, y) {
        LessTransitive(z, y, x);
      }
      assert Below(s, y) == Below(b, y);
    }
  }

  function Prefixed(p: string, s: set<string>): set<string> {
    set v | v in s :: p + v
  }

  lemma {:induction false} PrefixedSize(p: string, s: set<string>)
    ensures |Prefixed(p, s)| == |s|
    decreases |s|
  {
    if s != {} {
      var x :| x in s;
      PrefixedSize(p, s - {x});
      assert Prefixed(p, s) == Prefixed(p, s - {x}) + {p + x};
      forall v | v in s - {x} ensures p + v != p + x {
        PrefixInjective(p, v, x);
      }
    } else {
      assert Prefixed(p, s) == {};
    }
  }

  lemma PrefixInjective(p: string, a: string, b: string)
    ensures p + a == p + b ==> a == b
  {
    assert (p + a)[|p|..] == a && (p + b)[|p|..] == b;
  }

  /** Truncating under a prefix loses nothing that a set around it needs. */
  lemma SmallestUnderPrefix(k: nat, p: string, s: set<string>, all: set<string>, v: string)
    requires v in s && Prefixed(p, s) <= all && p + v in Smallest(k, all)
    ensures v in Smallest(k, s)
  {
    PrefixedSize(p, Below(s, v));
    forall z | z in Prefixed(p, Below(s, v)) ensures z in Below(all, p + v) {
      var y :| y in Below(s, v) && z == p + y;
      LessPrefixed(p, y, v);
      assert z in Prefixed(p, s);
    }
    SubsetCard(Prefixed(p, Below(s, v)), Below(all, p + v));
  }

  // ---- the outputs of a state space without cycles -----------------------------------------------------

  /** What is written on each arc; the empty string for an arc without data on the stream. */
  type Chunks = ArcId -> string

  /** The nodes of `rank` form a part of the state space that no arc leaves and that has no cycle. */
  ghost predicate Region(g: Graph, rank: map<Node, nat>) {
    && (forall n :: n in rank ==> n in g)
    && (forall n, i :: n in rank && 0 <= i < |g[n]| ==> g[n][i] in rank && rank[g[n][i]] < rank[n])
  }

  /** The arcs, by their indices, of a path that ends where no arc leads on. */
  ghost predicate MaximalPath(g: Graph, n: Node, p: seq<nat>)
    decreases |p|
  {
    n in g && if p == [] then |g[n]| == 0 else p[0] < |g[n]| && MaximalPath(g, g[n][p[0]], p[1..])
  }

  /** What is written along a path, before `last`. */
  ghost function Written(g: Graph, chunks: Chunks, last: string, n: Node, p: seq<nat>): string
    requires MaximalPath(g, n, p)
    decreases |p|
  {
    if p == [] then last else chunks(ArcId(n, p[0])) + Written(g, chunks, last, g[n][p[0]], p[1..])
  }

  ghost predicate IsOutput(g: Graph, chunks: Chunks, last: string, n: Node, s: string) {
    exists p :: MaximalPath(g, n, p) && Written(g, chunks, last, n, p) == s
  }

  ghost function Full(g: Graph, chunks: Chunks, last: string, rank: map<Node, nat>, n: Node): set<string>
    requires Region(g, rank) && n in rank
    decreases rank[n], |g[n]| + 1
  {
    if |g[n]| == 0 then {last} else FullUpTo(g, chunks, last, rank, n, |g[n]|)
  }

  ghost function FullUpTo(g: Graph, chunks: Chunks, last: string, rank: map<Node, nat>, n: Node, i: nat): set<string>
    requires Region(g, rank) && n in rank && i <= |g[n]|
    decreases rank[n], i
  {
    if i == 0 then {}
    else FullUpTo(g, chunks, last, rank, n, i - 1)
         + Prefixed(chunks(ArcId(n, i - 1)), Full(g, chunks, last, rank, g[n][i - 1]))
  }

  lemma {:induction false} FullUpToMeans(g: Graph, chunks: Chunks, last: string, rank: map<Node, nat>, n: Node, i: nat,
                                         s: string)
    requires Region(g, rank) && n in rank && i <= |g[n]|
    ensures s in FullUpTo(g, chunks, last, rank, n, i) <==>
      exists j: nat :: j < i && s in Prefixed(chunks(ArcId(n, j)), Full(g, chunks, last, rank, g[n][j]))
  {
    if i > 0 {
      FullUpToMeans(g, chunks, last, rank, n, i - 1, s);
    }
  }

  lemma {:induction false} PathIsFull(g: Graph, chunks: Chunks, last: string, rank: map<Node, nat>, n: Node,
                                      p: seq<nat>)
    requires Region(g, rank) && n in rank && MaximalPath(g, n, p)
    ensures Written(g, chunks, last, n, p) in Full(g, chunks, last, rank, n)
    decreases |p|
  {
    if p != [] {
      var next := g[n][p[0]];
      PathIsFull(g, chunks, last, rank, next, p[1..]);
      var v := Written(g, chunks, last, next, p[1..]);
      assert chunks(ArcId(n, p[0])) + v in Prefixed(chunks(ArcId(n, p[0])), Full(g, chunks, last, rank, next));
      FullUpToMeans(g, chunks, last, rank, n, |g[n]|, chunks(ArcId(n, p[0])) + v);
    }
  }

  lemma {:induction false} FullHasPath(g: Graph, chunks: Chunks, last: string, rank: map<Node, nat>, n: Node, s: string)
    returns (p: seq<nat>)
    requires Region(g, rank) && n in rank && s in Full(g, chunks, last, rank, n)
    ensures MaximalPath(g, n, p) && Written(g, chunks, last, n, p) == s
    decreases rank[n]
  {
    if |g[n]| == 0 {
      p := [];
    } else {
      FullUpToMeans(g, chunks, last, rank, n, |g[n]|, s);
      var j: nat :| j < |g[n]| && s in Prefixed(chunks(ArcId(n, j)), Full(g, chunks, last, rank, g[n][j]));
      var v :| v in Full(g, chunks, last, rank, g[n][j]) && s == chunks(ArcId(n, j)) + v;
      var q := FullHasPath(g, chunks, last, rank, g[n][j], v);
      p := [j] + q;
      assert p[1..] == q;
    }
  }

  /** The outputs of a node are what is written along the maximal paths from it. */
  lemma FullIsOutputs(g: Graph, chunks: Chunks, last: string, rank: map<Node, nat>, n: Node, s: string)
    requires Region(g, rank) && n in rank
    ensures s in Full(g, chunks, last, rank, n) <==> IsOutput(g, chunks, last, n, s)
  {
    if s in Full(g, chunks, last, rank, n) {
      var p := FullHasPath(g, chunks, last, rank, n, s);
    }
    if IsOutput(g, chunks, last, n, s) {
      var p :| MaximalPath(g, n, p) && Written(g, chunks, last, n, p) == s;
      PathIsFull(g, chunks, last, rank, n, p);
    }
  }

  // ---- reduction at every node -----------------------------------------------------------------------

  /** What is done with the outputs collected at a node: keep them all, keep the first ones, or give up when there are
      too many. */
  datatype Reducer = Everything | First(limit: nat) | AtMost(upto: nat)

  function Reduce(op: Reducer, s: set<string>): Option<set<string>> {
    match op
    case Everything => Some(s)
    case First(limit) => Some(if |s| <= limit then s else Smallest(limit, s))
    case AtMost(upto) => if |s| <= upto then Some(s) else None
  }

  /** The value of a node when the values of all nodes are reduced. */
  ghost function Reduced(g: Graph, chunks: Chunks, last: string, op: Reducer, rank: map<Node, nat>,
                         n: Node): Option<set<string>>
    requires Region(g, rank) && n in rank
    decreases rank[n], |g[n]| + 1
  {
    if |g[n]| == 0 then Some({last})
    else
      var all := ReducedUpTo(g, chunks, last, op, rank, n, |g[n]|);
      if all.None? then None else Reduce(op, all.value)
  }

  ghost function ReducedUpTo(g: Graph, chunks: Chunks, last: string, op: Reducer, rank: map<Node, nat>, n: Node,
                             i: nat): Option<set<string>>
    requires Region(g, rank) && n in rank && i <= |g[n]|
    decreases rank[n], i
  {
    if i == 0 then Some({})
    else
      var before := ReducedUpTo(g, chunks, last, op, rank, n, i - 1);
      var next := Reduced(g, chunks, last, op, rank, g[n][i - 1]);
      if before.None? || next.None? then None else Some(before.value + Prefixed(chunks(ArcId(n, i - 1)), next.value))
  }

  /** Keeping everything yields all outputs. */
  lemma {:induction false} ReducedIsFull(g: Graph, chunks: Chunks, last: string, rank: map<Node, nat>, n: Node)
    requires Region(g, rank) && n in rank
    ensures Reduced(g, chunks, last, Everything, rank, n) == Some(Full(g, chunks, last, rank, n))
    decreases rank[n], |g[n]| + 1
  {
    if |g[n]| > 0 {
      ReducedIsFullUpTo(g, chunks, last, rank, n, |g[n]|);
    }
  }

  lemma {:induction false} ReducedIsFullUpTo(g: Graph, chunks: Chunks, last: string, rank: map<Node, nat>, n: Node,
                                             i: nat)
    requires Region(g, rank) && n in rank && i <= |g[n]|
    ensures ReducedUpTo(g, chunks, last, Everything, rank, n, i) == Some(FullUpTo(g, chunks, last, rank, n, i))
    decreases rank[n], i
  {
    if i > 0 {
      ReducedIsFullUpTo(g, chunks, last, rank, n, i - 1);
      ReducedIsFull(g, chunks, last, rank, g[n][i - 1]);
    }
  }

  lemma TruncatedIsSmallest(k: nat, s: set<string>)
    ensures Reduce(First(k), s) == Some(Smallest(k, s))
  {
    SmallestSize(k, s);
  }

  /** Truncating at every node yields exactly the smallest outputs. */
  lemma {:induction false} ReducedIsSmallest(g: Graph, chunks: Chunks, last: string, rank: map<Node, nat>, n: Node,
                                             k: nat)
    requires Region(g, rank) && n in rank && k >= 1
    ensures Reduced(g, chunks, last, First(k), rank, n) == Some(Smallest(k, Full(g, chunks, last, rank, n)))
    decreases rank[n], |g[n]| + 1
  {
    if |g[n]| > 0 {
      var all := FullUpTo(g, chunks, last, rank, n, |g[n]|);
      var part := ReducedIsSmallestUpTo(g, chunks, last, rank, n, k, |g[n]|, all);
      TruncatedIsSmallest(k, part);
      SmallestOfPart(k, part, all);
    } else {
      SmallestSize(k, {last});
    }
  }

  lemma {:induction false} ReducedIsSmallestUpTo(g: Graph, chunks: Chunks, last: string, rank: map<Node, nat>, n: Node,
                                                 k: nat, i: nat, all: set<string>) returns (part: set<string>)
    requires Region(g, rank) && n in rank && i <= |g[n]| && k >= 1 && FullUpTo(g, chunks, last, rank, n, i) <= all
    ensures ReducedUpTo(g, chunks, last, First(k), rank, n, i) == Some(part)
    ensures Smallest(k, all) * FullUpTo(g, chunks, last, rank, n, i) <= part <= FullUpTo(g, chunks, last, rank, n, i)
    decreases rank[n], i
  {
    if i == 0 {
      part := {};
    } else {
      var p, next := chunks(ArcId(n, i - 1)), Full(g, chunks, last, rank, g[n][i - 1]);
      var before := ReducedIsSmallestUpTo(g, chunks, last, rank, n, k, i - 1, all);
      ReducedIsSmallest(g, chunks, last, rank, g[n][i - 1], k);
      part := before + Prefixed(p, Smallest(k, next));
      forall v | v in next && p + v in Smallest(k, all) ensures p + v in part {
        SmallestUnderPrefix(k, p, next, all, v);
      }
    }
  }

  lemma {:induction false} FullUpToSize(g: Graph, chunks: Chunks, last: string, rank: map<Node, nat>, n: Node, i: nat)
    requires Region(g, rank) && n in rank && 0 < i <= |g[n]|
    ensures |FullUpTo(g, chunks, last, rank, n, i - 1)| <= |FullUpTo(g, chunks, last, rank, n, i)|
    ensures |Full(g, chunks, last, rank, g[n][i - 1])| <= |FullUpTo(g, chunks, last, rank, n, i)|
  {
    var p, next := chunks(ArcId(n, i - 1)), Full(g, chunks, last, rank, g[n][i - 1]);
    PrefixedSize(p, next);
    SubsetCard(Prefixed(p, next), FullUpTo(g, chunks, last, rank, n, i));
    SubsetCard(FullUpTo(g, chunks, last, rank, n, i - 1), FullUpTo(g, chunks, last, rank, n, i));
  }

  /** Giving up at a node means that there are too many outputs in all. */
  lemma {:induction false} ReducedIsCounted(g: Graph, chunks: Chunks, last: string, rank: map<Node, nat>, n: Node,
                                            upto: nat)
    requires Region(g, rank) && n in rank && upto >= 1
    ensures Reduced(g, chunks, last, AtMost(upto), rank, n) ==
      if |Full(g, chunks, last, rank, n)| <= upto then Some(Full(g, chunks, last, rank, n)) else None
    decreases rank[n], |g[n]| + 1
  {
    if |g[n]| > 0 {
      ReducedIsCountedUpTo(g, chunks, last, rank, n, upto, |g[n]|);
    }
  }

  lemma {:induction false} ReducedIsCountedUpTo(g: Graph, chunks: Chunks, last: string, rank: map<Node, nat>, n: Node,
                                                upto: nat, i: nat)
    requires Region(g, rank) && n in rank && i <= |g[n]| && upto >= 1
    ensures ReducedUpTo(g, chunks, last, AtMost(upto), rank, n, i).Some? ==>
      ReducedUpTo(g, chunks, last, AtMost(upto), rank, n, i) == Some(FullUpTo(g, chunks, last, rank, n, i))
    ensures ReducedUpTo(g, chunks, last, AtMost(upto), rank, n, i).None?
            ==> |FullUpTo(g, chunks, last, rank, n, i)| > upto
    decreases rank[n], i
  {
    if i > 0 {
      ReducedIsCountedUpTo(g, chunks, last, rank, n, upto, i - 1);
      ReducedIsCounted(g, chunks, last, rank, g[n][i - 1], upto);
      FullUpToSize(g, chunks, last, rank, n, i);
    }
  }

  // ---- the reduction with an explicit stack ------------------------------------------------------------

  /** A cycle that can be reached. */
  ghost predicate ReachableCycle(g: Graph, init: Node, c: seq<ArcId>) {
    && |c| > 0 && (forall a :: a in c ==> IsArc(g, a)) && Reachable(g, init, c[0].node)
    && (forall i :: 0 <= i < |c| - 1 ==> Target(g, c[i]) == c[i + 1].node)
    && Target(g, c[|c| - 1]) == c[0].node
  }

  /** A cycle that can be reached and on which something is written. */
  ghost predicate VisibleCycle(g: Graph, init: Node, visible: ArcId -> bool, c: seq<ArcId>) {
    ReachableCycle(g, init, c) && exists a :: a in c && visible(a)
  }

  /** Something is written on every arc of every cycle that can be reached. */
  ghost predicate CyclesWrite(g: Graph, init: Node, visible: ArcId -> bool) {
    forall c, a :: ReachableCycle(g, init, c) && a in c ==> visible(a)
  }

  /** Every cycle that can be reached has an arc on which nothing is written. */
  ghost predicate CyclesPause(g: Graph, init: Node, visible: ArcId -> bool) {
    forall c :: ReachableCycle(g, init, c) ==> exists a :: a in c && !visible(a)
  }

  datatype Outcome = Cycle | Aborted | Value(outputs: set<string>)

  /** The stack is a path; the arcs of a node up to its position lead to valued nodes or to the next node on the
      stack. */
  ghost predicate PathOk(g: Graph, init: Node, stack: seq<Node>, pos: seq<nat>, visited: map<Node, set<string>>) {
    && |stack| == |pos|
    && (forall k :: 0 <= k < |stack| ==> stack[k] in g && pos[k] <= |g[stack[k]]| && Reachable(g, init, stack[k]))
    && (forall j, k :: 0 <= j < k < |stack| ==> stack[j] != stack[k])
    && (forall k :: 0 <= k < |stack| - 1 ==> pos[k] > 0 && g[stack[k]][pos[k] - 1] == stack[k + 1])
    && (forall k, j: nat :: 0 <= k < |stack| && j < pos[k] ==>
          g[stack[k]][j] in visited || (k + 1 < |stack| && stack[k + 1] == g[stack[k]][j]))
    && (init in visited || (stack != [] && stack[0] == init))
  }

  /** In a part without cycles the values are final, and no node on the stack has one. */
  ghost predicate ValuesOk(g: Graph, chunks: Chunks, last: string, op: Reducer, rank: map<Node, nat>, stack: seq<Node>,
                           visited: map<Node, set<string>>)
    requires Region(g, rank)
  {
    && (forall k :: 0 <= k < |stack| ==> stack[k] in rank)
    && (forall j, k :: 0 <= j < k < |stack| ==> rank[stack[k]] < rank[stack[j]])
    && (forall n :: n in visited ==>
        n in rank && n !in stack && Reduced(g, chunks, last, op, rank, n) == Some(visited[n]))
  }

  lemma StackIsCycle(g: Graph, init: Node, visible: ArcId -> bool, stack: seq<Node>, pos: seq<nat>,
                     visited: map<Node, set<string>>, a: ArcId, i: nat, k: nat)
    requires PathOk(g, init, stack, pos, visited) && i <= k < |stack| && pos[|pos| - 1] < |g[stack[|stack| - 1]]|
    requires a == ArcId(stack[|stack| - 1], pos[|pos| - 1]) && IsArc(g, a) && Target(g, a) == stack[i]
    requires if k == |stack| - 1 then visible(a) else pos[k] > 0 && visible(ArcId(stack[k], pos[k] - 1))
    ensures exists c :: VisibleCycle(g, init, visible, c)
  {
    var c := seq(|stack| - i, j requires 0 <= j < |stack| - i =>
                   if i + j == |stack| - 1 then a else ArcId(stack[i + j],
                                                             if pos[i + j] > 0 then pos[i + j] - 1 else 0));
    assert c[k - i] in c;
    forall b | b in c ensures IsArc(g, b) {
      var j :| 0 <= j < |c| && c[j] == b;
      if i + j < |stack| - 1 {
        assert pos[i + j] > 0;
      }
    }
    forall j | 0 <= j < |c| - 1 ensures Target(g, c[j]) == c[j + 1].node {
      assert c[j] in c;
      assert pos[i + j] > 0 && g[stack[i + j]][pos[i + j] - 1] == stack[i + j + 1];
    }
    assert c[|c| - 1] == a;
    assert VisibleCycle(g, init, visible, c);
  }

  lemma {:induction false} PathNext(g: Graph, init: Node, stack: seq<Node>, pos: seq<nat>,
                                    visited: map<Node, set<string>>, more: map<Node, set<string>>)
    requires Closed(g) && PathOk(g, init, stack, pos, visited) && stack != []
             && pos[|pos| - 1] < |g[stack[|stack| - 1]]|
    requires visited.Keys <= more.Keys
    ensures var child := g[stack[|stack| - 1]][pos[|pos| - 1]];
            child in more ==> PathOk(g, init, stack, pos[|pos| - 1 := pos[|pos| - 1] + 1], more)
    ensures var child := g[stack[|stack| - 1]][pos[|pos| - 1]];
            child !in stack ==> PathOk(g, init, stack + [child], pos[|pos| - 1 := pos[|pos| - 1] + 1] + [0], more)
  {
    hide Reachable;
    var n := |stack| - 1;
    ReachableStep(g, init, stack[n], pos[n]);
  }

  lemma {:induction false} PathPop(g: Graph, init: Node, stack: seq<Node>, pos: seq<nat>,
                                   visited: map<Node, set<string>>, v: set<string>)
    requires PathOk(g, init, stack, pos, visited) && stack != [] && pos[|pos| - 1] == |g[stack[|stack| - 1]]|
    ensures PathOk(g, init, stack[..|stack| - 1], pos[..|pos| - 1], visited[stack[|stack| - 1] := v])
    ensures forall m :: m in g[stack[|stack| - 1]] ==> m in visited
  {
    hide Reachable;
  }

  /** When a node has no value, neither have the nodes below it on the stack. */
  lemma {:induction false} NoneUp(g: Graph, init: Node, chunks: Chunks, last: string, op: Reducer, rank: map<Node, nat>,
                                  stack: seq<Node>, pos: seq<nat>, visited: map<Node, set<string>>, k: nat)
    requires Region(g, rank) && PathOk(g, init, stack, pos, visited)
             && ValuesOk(g, chunks, last, op, rank, stack, visited)
    requires k < |stack| && Reduced(g, chunks, last, op, rank, stack[k]).None?
    ensures Reduced(g, chunks, last, op, rank, stack[0]).None?
  {
    if k > 0 {
      assert pos[k - 1] > 0 && g[stack[k - 1]][pos[k - 1] - 1] == stack[k - 1 + 1];
      NoneAmong(g, chunks, last, op, rank, stack[k - 1], |g[stack[k - 1]]|, pos[k - 1] - 1);
      NoneUp(g, init, chunks, last, op, rank, stack, pos, visited, k - 1);
    }
  }

  lemma {:induction false} NoneAmong(g: Graph, chunks: Chunks, last: string, op: Reducer, rank: map<Node, nat>, n: Node,
                                     i: nat, j: nat)
    requires Region(g, rank) && n in rank && j < i <= |g[n]| && Reduced(g, chunks, last, op, rank, g[n][j]).None?
    ensures ReducedUpTo(g, chunks, last, op, rank, n, i).None?
  {
    if j < i - 1 {
      NoneAmong(g, chunks, last, op, rank, n, i - 1, j);
    }
  }

  ghost predicate TargetsReduced(g: Graph, chunks: Chunks, last: string, op: Reducer, rank: map<Node, nat>, n: Node,
                                 visited: map<Node, set<string>>)
    requires n in g && forall m :: m in g[n] ==> m in visited
  {
    Region(g, rank) && n in rank && forall m :: m in g[n] ==> Reduced(g, chunks, last, op, rank, m) == Some(visited[m])
  }

  /** Values are outputs of maximal paths from their nodes. */
  ghost predicate Sound(g: Graph, chunks: Chunks, last: string, n: Node, values: set<string>) {
    forall s :: s in values ==> IsOutput(g, chunks, last, n, s)
  }

  ghost predicate AllSound(g: Graph, chunks: Chunks, last: string, visited: map<Node, set<string>>) {
    forall n :: n in visited ==> Sound(g, chunks, last, n, visited[n])
  }

  lemma {:induction false} SoundBehind(g: Graph, chunks: Chunks, last: string, n: Node, i: nat, values: set<string>)
    requires n in g && i < |g[n]| && Sound(g, chunks, last, g[n][i], values)
    ensures Sound(g, chunks, last, n, Prefixed(chunks(ArcId(n, i)), values))
  {
    forall s | s in Prefixed(chunks(ArcId(n, i)), values) ensures IsOutput(g, chunks, last, n, s) {
      var v :| v in values && s == chunks(ArcId(n, i)) + v;
      var p :| MaximalPath(g, g[n][i], p) && Written(g, chunks, last, g[n][i], p) == v;
      var longer := [i] + p;
      assert longer[1..] == p && longer[0] == i;
      assert MaximalPath(g, n, longer) && Written(g, chunks, last, n, longer) == s;
    }
  }

  lemma NothingUnsound(g: Graph, chunks: Chunks, last: string)
    ensures AllSound(g, chunks, last, map[])
  {
  }

  lemma AllOfSound(g: Graph, chunks: Chunks, last: string, visited: map<Node, set<string>>, n: Node)
    requires AllSound(g, chunks, last, visited) && n in visited
    ensures forall s :: s in visited[n] ==> IsOutput(g, chunks, last, n, s)
  {
  }

  lemma SoundMore(g: Graph, chunks: Chunks, last: string, visited: map<Node, set<string>>, n: Node, values: set<string>)
    requires AllSound(g, chunks, last, visited)
    ensures Sound(g, chunks, last, n, values) ==> AllSound(g, chunks, last, visited[n := values])
    ensures AllSound(g, chunks, last, visited[n := {}])
  {
  }

  /** The values of the targets of a node's arcs, each behind what is written on the arc. */
  method Gather(g: Graph, chunks: Chunks, visited: map<Node, set<string>>, n: Node, ghost last: string,
                ghost op: Reducer, ghost rank: map<Node, nat>)
    returns (all: set<string>)
    requires n in g && forall m :: m in g[n] ==> m in visited
    ensures TargetsReduced(g, chunks, last, op, rank, n, visited)
            ==> ReducedUpTo(g, chunks, last, op, rank, n, |g[n]|) == Some(all)
    ensures AllSound(g, chunks, last, visited) ==> Sound(g, chunks, last, n, all)
  {
    hide IsOutput;
    all := {};
    for i := 0 to |g[n]|
      invariant TargetsReduced(g, chunks, last, op, rank, n, visited)
                ==> ReducedUpTo(g, chunks, last, op, rank, n, i) == Some(all)
      invariant AllSound(g, chunks, last, visited) ==> Sound(g, chunks, last, n, all)
    {
      if AllSound(g, chunks, last, visited) {
        SoundBehind(g, chunks, last, n, i, visited[g[n][i]]);
      }
      all := all + Prefixed(chunks(ArcId(n, i)), visited[g[n][i]]);
    }
  }

  /** The value of a node on top of the stack, once all its arcs are done. */
  method NodeValue(g: Graph, init: Node, chunks: Chunks, last: string, op: Reducer, stack: seq<Node>, pos: seq<nat>,
                   visited: map<Node, set<string>>, ghost rank: map<Node, nat>)
    returns (value: Option<set<string>>)
    requires PathOk(g, init, stack, pos, visited) && stack != [] && pos[|pos| - 1] == |g[stack[|stack| - 1]]|
    ensures Region(g, rank) && ValuesOk(g, chunks, last, op, rank, stack, visited) ==>
              value == Reduced(g, chunks, last, op, rank, stack[|stack| - 1])
    ensures value.None? ==> op.AtMost?
    ensures AllSound(g, chunks, last, visited) && value.Some? ==>
              Sound(g, chunks, last, stack[|stack| - 1], value.value)
  {
    var node := stack[|stack| - 1];
    PathPop(g, init, stack, pos, visited, {});
    if |g[node]| == 0 {
      EndIsOutput(g, chunks, last, node);
      return Some({last});
    }
    var all := Gather(g, chunks, visited, node, last, op, rank);
    value := Reduce(op, all);
  }

  lemma EndIsOutput(g: Graph, chunks: Chunks, last: string, n: Node)
    requires n in g && g[n] == []
    ensures IsOutput(g, chunks, last, n, last)
  {
    assert MaximalPath(g, n, []) && Written(g, chunks, last, n, []) == last;
  }

  ghost predicate KeepsValues(g: Graph, init: Node, chunks: Chunks, last: string, op: Reducer, rank: map<Node, nat>,
                              stack: seq<Node>, visited: map<Node, set<string>>) {
    Region(g, rank) && init in rank ==> ValuesOk(g, chunks, last, op, rank, stack, visited)
  }

  lemma {:induction false} KeepsValuesPop(g: Graph, init: Node, chunks: Chunks, last: string, op: Reducer,
                                          rank: map<Node, nat>, stack: seq<Node>, visited: map<Node, set<string>>,
                                          value: set<string>)
    requires KeepsValues(g, init, chunks, last, op, rank, stack, visited) && stack != []
    requires forall j, k :: 0 <= j < k < |stack| ==> stack[j] != stack[k]
    requires Region(g, rank) && ValuesOk(g, chunks, last, op, rank, stack, visited) ==>
               Some(value) == Reduced(g, chunks, last, op, rank, stack[|stack| - 1])
    ensures KeepsValues(g, init, chunks, last, op, rank, stack[..|stack| - 1], visited[stack[|stack| - 1] := value])
  {
    hide Reduced;
  }

  lemma {:induction false} KeepsValuesPush(g: Graph, init: Node, chunks: Chunks, last: string, op: Reducer,
                                           rank: map<Node, nat>, stack: seq<Node>, visited: map<Node, set<string>>,
                                           i: nat)
    requires KeepsValues(g, init, chunks, last, op, rank, stack, visited) && stack != []
    requires stack[|stack| - 1] in g && i < |g[stack[|stack| - 1]]| && g[stack[|stack| - 1]][i] !in visited
    ensures KeepsValues(g, init, chunks, last, op, rank, stack + [g[stack[|stack| - 1]][i]], visited)
  {
    hide Reduced;
  }

  lemma NoCycleInRegion(g: Graph, init: Node, chunks: Chunks, last: string, op: Reducer, rank: map<Node, nat>,
                        stack: seq<Node>, visited: map<Node, set<string>>, i: nat)
    requires KeepsValues(g, init, chunks, last, op, rank, stack, visited) && stack != []
    requires stack[|stack| - 1] in g && i < |g[stack[|stack| - 1]]| && g[stack[|stack| - 1]][i] in stack
    ensures !(Region(g, rank) && init in rank)
  {
    var k :| 0 <= k < |stack| && stack[k] == g[stack[|stack| - 1]][i];
    StackDescends(g, init, chunks, last, op, rank, stack, visited, k);
  }

  lemma {:induction false} StackDescends(g: Graph, init: Node, chunks: Chunks, last: string, op: Reducer,
                                         rank: map<Node, nat>, stack: seq<Node>, visited: map<Node, set<string>>,
                                         k: nat)
    requires KeepsValues(g, init, chunks, last, op, rank, stack, visited) && k < |stack|
    ensures Region(g, rank) && init in rank ==>
              stack[k] in rank && stack[|stack| - 1] in rank && rank[stack[|stack| - 1]] <= rank[stack[k]]
  {
    hide Reduced;
  }

  /** Whether one of the arcs that close a cycle with the top of the stack is visible. */
  /** Something is written on the next arc of the top, or on the path from its target to the top. */
  predicate SegmentVisible(g: Graph, visible: ArcId -> bool, stack: seq<Node>, pos: seq<nat>)
    requires stack != [] && |stack| == |pos| && stack[|stack| - 1] in g
             && pos[|pos| - 1] < |g[stack[|stack| - 1]]|
  {
    var top := |stack| - 1;
    visible(ArcId(stack[top], pos[top]))
    || exists k: nat :: k < top && StandsUpTo(stack, g[stack[top]][pos[top]], k) && WrittenOn(visible, stack, pos, k)
  }

  predicate StandsUpTo(stack: seq<Node>, n: Node, k: nat) {
    exists l :: 0 <= l < |stack| && l <= k && stack[l] == n
  }

  method CycleVisible(g: Graph, init: Node, visible: ArcId -> bool, stack: seq<Node>, pos: seq<nat>,
                      ghost visited: map<Node, set<string>>)
    returns (b: bool)
    requires PathOk(g, init, stack, pos, visited) && stack != [] && pos[|pos| - 1] < |g[stack[|stack| - 1]]|
    requires g[stack[|stack| - 1]][pos[|pos| - 1]] in stack
    ensures b ==> exists c :: VisibleCycle(g, init, visible, c)
    ensures b <==> SegmentVisible(g, visible, stack, pos)
  {
    var top := |stack| - 1;
    var arc := ArcId(stack[top], pos[top]);
    PathLinks(g, init, stack, pos, visited);
    hide PathOk, VisibleCycle, SegmentVisible;
    var i := 0;
    while stack[i] != g[stack[top]][pos[top]]
      invariant i <= top && g[stack[top]][pos[top]] in stack[i..]
      invariant forall l :: 0 <= l < i ==> stack[l] != g[stack[top]][pos[top]]
      decreases top - i
    {
      assert stack[i..] == [stack[i]] + stack[i + 1..];
      i := i + 1;
    }
    SegmentIs(g, visible, stack, pos, i);
    if visible(arc) {
      StackIsCycle(g, init, visible, stack, pos, visited, arc, i, top);
      return true;
    }
    for k := i to top
      invariant forall j :: i <= j < k ==> !WrittenOn(visible, stack, pos, j)
    {
      if visible(ArcId(stack[k], pos[k] - 1)) {
        assert WrittenOn(visible, stack, pos, k);
        StackIsCycle(g, init, visible, stack, pos, visited, arc, i, k);
        return true;
      }
    }
    b := false;
  }

  /** Something is written on the arc by which the path leaves its `k`-th node. */
  predicate WrittenOn(visible: ArcId -> bool, stack: seq<Node>, pos: seq<nat>, k: nat) {
    k < |stack| && k < |pos| && pos[k] > 0 && visible(ArcId(stack[k], pos[k] - 1))
  }

  lemma PathLinks(g: Graph, init: Node, stack: seq<Node>, pos: seq<nat>, visited: map<Node, set<string>>)
    requires PathOk(g, init, stack, pos, visited)
    ensures |stack| == |pos| && forall k :: 0 <= k < |stack| ==> stack[k] in g
    ensures forall k :: 0 <= k < |stack| - 1 ==> pos[k] > 0
  {
  }

  lemma {:induction false} SegmentIs(g: Graph, visible: ArcId -> bool, stack: seq<Node>, pos: seq<nat>, i: nat)
    requires |stack| == |pos| && i < |stack| && stack[|stack| - 1] in g && pos[|pos| - 1] < |g[stack[|stack| - 1]]|
    requires stack[i] == g[stack[|stack| - 1]][pos[|pos| - 1]]
    requires forall l :: 0 <= l < i ==> stack[l] != stack[i]
    ensures SegmentVisible(g, visible, stack, pos) <==>
            visible(ArcId(stack[|stack| - 1], pos[|pos| - 1]))
            || exists k :: i <= k < |stack| - 1 && WrittenOn(visible, stack, pos, k)
  {
    forall k: nat | k < |stack| ensures StandsUpTo(stack, stack[i], k) <==> i <= k {
    }
  }

  // ---- what the search finds ---------------------------------------------------------------------------

  /** Whether the search meets a cycle on which something is written, when it goes on from a path and its positions. */
  ghost predicate Finds(g: Graph, visible: ArcId -> bool, stack: seq<Node>, pos: seq<nat>, seen: set<Node>)
    decreases g.Keys - seen - (set n | n in stack), |stack|,
              if stack == [] || stack[|stack| - 1] !in g || |stack| != |pos| then 0
              else |g[stack[|stack| - 1]]| - pos[|pos| - 1]
  {
    if stack == [] || |stack| != |pos| || stack[|stack| - 1] !in g then false
    else
      var top := |stack| - 1;
      var node := stack[top];
      if pos[top] >= |g[node]| then Finds(g, visible, stack[..top], pos[..top], seen + {node})
      else
        var child, next := g[node][pos[top]], pos[top := pos[top] + 1];
        if child in stack then SegmentVisible(g, visible, stack, pos) || Finds(g, visible, stack, next, seen + {child})
        else if child in seen || child !in g then Finds(g, visible, stack, next, seen)
        else
          assert child in g.Keys - seen - (set n | n in stack) && child in stack + [child];
          assert forall n :: n in stack ==> n in stack + [child];
          Finds(g, visible, stack + [child], next + [0], seen)
  }

  /** Every arc of a node that is finished leads to one that was finished before, or closes a cycle and writes nothing;
      so do the arcs behind the path, but for those along it. */
  ghost predicate Finished(g: Graph, visible: ArcId -> bool, stack: seq<Node>, pos: seq<nat>, seen: set<Node>,
                           done: map<Node, nat>, back: set<ArcId>) {
    DoneOk(g, stack, seen, done, back) && BackOk(g, visible, stack, done, back) && PathPassed(g, stack, pos, done, back)
  }

  ghost predicate DoneOk(g: Graph, stack: seq<Node>, seen: set<Node>, done: map<Node, nat>, back: set<ArcId>) {
    && (forall n :: n in done <==> n in seen && n !in stack)
    && (forall n :: n in done ==> n in g && done[n] < |done|)
    && (forall a :: IsArc(g, a) && a.node in done ==> a in back || Earlier(g, done, a))
  }

  ghost predicate BackOk(g: Graph, visible: ArcId -> bool, stack: seq<Node>, done: map<Node, nat>, back: set<ArcId>) {
    forall a :: a in back ==> IsArc(g, a) && !visible(a) && (Target(g, a) in done || Target(g, a) in stack)
  }

  ghost predicate PathPassed(g: Graph, stack: seq<Node>, pos: seq<nat>, done: map<Node, nat>, back: set<ArcId>) {
    forall k, j: nat :: 0 <= k < |stack| && k < |pos| && j < pos[k] && IsArc(g, ArcId(stack[k], j)) ==>
      Passed(g, stack, k, j, done, back)
  }

  ghost predicate Earlier(g: Graph, done: map<Node, nat>, a: ArcId)
    requires IsArc(g, a)
  {
    a.node in done && Target(g, a) in done && done[Target(g, a)] < done[a.node]
  }

  ghost predicate Passed(g: Graph, stack: seq<Node>, k: nat, j: nat, done: map<Node, nat>, back: set<ArcId>)
    requires k < |stack| && IsArc(g, ArcId(stack[k], j))
  {
    var a := ArcId(stack[k], j);
    a in back || Target(g, a) in done || (k + 1 < |stack| && Target(g, a) == stack[k + 1])
  }

  lemma {:induction false} FinishedPop(g: Graph, visible: ArcId -> bool, stack: seq<Node>, pos: seq<nat>,
                                       seen: set<Node>, done: map<Node, nat>, back: set<ArcId>)
    requires Finished(g, visible, stack, pos, seen, done, back) && stack != [] && |stack| == |pos|
    requires forall j, k :: 0 <= j < k < |stack| ==> stack[j] != stack[k]
    requires stack[|stack| - 1] in g && pos[|pos| - 1] == |g[stack[|stack| - 1]]|
    ensures var n := stack[|stack| - 1];
            Finished(g, visible, stack[..|stack| - 1], pos[..|pos| - 1], seen + {n}, done[n := |done|], back)
  {
    var top := |stack| - 1;
    var n, rest, done' := stack[top], stack[..top], done[stack[top] := |done|];
    forall m ensures m in rest <==> m in stack && m != n {
      assert stack == rest + [n];
    }
    PassedTop(g, stack, pos, done, back);
    DonePop(g, stack, n, rest, seen, done, back);
    PassedPop(g, stack, pos, done, back);
    hide DoneOk, PathPassed;
    assert done'.Keys == done.Keys + {n};
  }

  lemma {:induction false} PassedPop(g: Graph, stack: seq<Node>, pos: seq<nat>, done: map<Node, nat>, back: set<ArcId>)
    requires PathPassed(g, stack, pos, done, back) && stack != [] && |stack| == |pos|
    ensures var top := |stack| - 1;
            PathPassed(g, stack[..top], pos[..top], done[stack[top] := |done|], back)
  {
    var top := |stack| - 1;
    forall k, j: nat | 0 <= k < top && j < pos[k] && IsArc(g, ArcId(stack[k], j))
      ensures Passed(g, stack[..top], k, j, done[stack[top] := |done|], back)
    {
      StillPassed(g, stack, k, j, done, back);
    }
  }

  lemma StillPassed(g: Graph, stack: seq<Node>, k: nat, j: nat, done: map<Node, nat>, back: set<ArcId>)
    requires k < |stack| - 1 && IsArc(g, ArcId(stack[k], j)) && Passed(g, stack, k, j, done, back)
    ensures Passed(g, stack[..|stack| - 1], k, j, done[stack[|stack| - 1] := |done|], back)
  {
  }

  lemma {:induction false} PassedTop(g: Graph, stack: seq<Node>, pos: seq<nat>, done: map<Node, nat>, back: set<ArcId>)
    requires PathPassed(g, stack, pos, done, back) && stack != [] && |stack| == |pos|
    requires stack[|stack| - 1] in g && pos[|pos| - 1] == |g[stack[|stack| - 1]]|
    ensures forall a :: IsArc(g, a) && a.node == stack[|stack| - 1] ==> a in back || Target(g, a) in done
  {
    forall a | IsArc(g, a) && a.node == stack[|stack| - 1] ensures a in back || Target(g, a) in done {
      assert a == ArcId(stack[|stack| - 1], a.index) && Passed(g, stack, |stack| - 1, a.index, done, back);
    }
  }

  lemma {:induction false} DonePop(g: Graph, stack: seq<Node>, n: Node, rest: seq<Node>, seen: set<Node>,
                                   done: map<Node, nat>, back: set<ArcId>)
    requires DoneOk(g, stack, seen, done, back) && n in g && n in stack
    requires forall m :: m in rest <==> m in stack && m != n
    requires forall a :: IsArc(g, a) && a.node == n ==> a in back || Target(g, a) in done
    ensures DoneOk(g, rest, seen + {n}, done[n := |done|], back)
  {
    var done' := done[n := |done|];
    assert n !in done && done'.Keys == done.Keys + {n} && |done'| == |done'.Keys| && |done| == |done.Keys|;
    forall a | IsArc(g, a) && a.node in done' ensures a in back || Earlier(g, done', a) {
      if a.node != n {
        assert a in back || Earlier(g, done, a);
      }
    }
  }

  lemma DoneBack(g: Graph, stack: seq<Node>, seen: set<Node>, done: map<Node, nat>, back: set<ArcId>, a: ArcId)
    requires DoneOk(g, stack, seen, done, back) && IsArc(g, a) && Target(g, a) in stack
    ensures DoneOk(g, stack, seen + {Target(g, a)}, done, back + {a})
  {
  }

  lemma {:induction false} DonePush(g: Graph, visible: ArcId -> bool, stack: seq<Node>, more: seq<Node>,
                                    seen: set<Node>, done: map<Node, nat>, back: set<ArcId>, child: Node)
    requires DoneOk(g, stack, seen, done, back) && BackOk(g, visible, stack, done, back)
    requires child !in seen && more == stack + [child]
    ensures DoneOk(g, more, seen, done, back) && BackOk(g, visible, more, done, back)
  {
    hide Earlier;
    assert forall m :: m in more <==> m in stack || m == child;
  }

  lemma {:induction false} FinishedBack(g: Graph, visible: ArcId -> bool, stack: seq<Node>, pos: seq<nat>,
                                        seen: set<Node>, done: map<Node, nat>, back: set<ArcId>)
    requires Finished(g, visible, stack, pos, seen, done, back) && stack != [] && |stack| == |pos|
    requires stack[|stack| - 1] in g && pos[|pos| - 1] < |g[stack[|stack| - 1]]|
    requires var a := ArcId(stack[|stack| - 1], pos[|pos| - 1]); Target(g, a) in stack && !visible(a)
    ensures var a := ArcId(stack[|stack| - 1], pos[|pos| - 1]);
            Finished(g, visible, stack, pos[|pos| - 1 := a.index + 1], seen + {Target(g, a)}, done, back + {a})
  {
    var top := |stack| - 1;
    var a := ArcId(stack[top], pos[top]);
    var next, more := pos[top := pos[top] + 1], back + {a};
    DoneBack(g, stack, seen, done, back, a);
    hide DoneOk, Earlier;
    forall k, j: nat | 0 <= k <= top && j < next[k] && IsArc(g, ArcId(stack[k], j))
      ensures Passed(g, stack, k, j, done, more)
    {
      if j < pos[k] {
        assert Passed(g, stack, k, j, done, back);
      }
    }
  }

  lemma {:induction false} FinishedSkip(g: Graph, visible: ArcId -> bool, stack: seq<Node>, pos: seq<nat>,
                                        seen: set<Node>, done: map<Node, nat>, back: set<ArcId>)
    requires Finished(g, visible, stack, pos, seen, done, back) && stack != [] && |stack| == |pos|
    requires stack[|stack| - 1] in g && pos[|pos| - 1] < |g[stack[|stack| - 1]]|
    requires var a := ArcId(stack[|stack| - 1], pos[|pos| - 1]); Target(g, a) in seen && Target(g, a) !in stack
    ensures Finished(g, visible, stack, pos[|pos| - 1 := pos[|pos| - 1] + 1], seen, done, back)
  {
    var top := |stack| - 1;
    var next := pos[top := pos[top] + 1];
    assert Target(g, ArcId(stack[top], pos[top])) in done;
    hide DoneOk, BackOk;
    forall k, j: nat | 0 <= k <= top && j < next[k] && IsArc(g, ArcId(stack[k], j))
      ensures Passed(g, stack, k, j, done, back)
    {
      if j < pos[k] {
        assert Passed(g, stack, k, j, done, back);
      }
    }
  }

  lemma {:induction false} FinishedPush(g: Graph, visible: ArcId -> bool, stack: seq<Node>, pos: seq<nat>,
                                        seen: set<Node>, done: map<Node, nat>, back: set<ArcId>)
    requires Finished(g, visible, stack, pos, seen, done, back) && stack != [] && |stack| == |pos|
    requires stack[|stack| - 1] in g && pos[|pos| - 1] < |g[stack[|stack| - 1]]|
    requires var a := ArcId(stack[|stack| - 1], pos[|pos| - 1]); Target(g, a) !in seen && Target(g, a) !in stack
    ensures var a := ArcId(stack[|stack| - 1], pos[|pos| - 1]);
            Finished(g, visible, stack + [Target(g, a)], pos[|pos| - 1 := a.index + 1] + [0], seen, done, back)
  {
    var top := |stack| - 1;
    var child := g[stack[top]][pos[top]];
    var more, next := stack + [child], pos[top := pos[top] + 1] + [0];
    DonePush(g, visible, stack, more, seen, done, back, child);
    hide DoneOk, BackOk, Earlier;
    forall k, j: nat | 0 <= k < |more| && j < next[k] && IsArc(g, ArcId(more[k], j))
      ensures Passed(g, more, k, j, done, back)
    {
      assert k <= top && more[k] == stack[k];
      if j < pos[k] {
        assert Passed(g, stack, k, j, done, back);
      }
    }
  }

  /** Where the search is, and that it finds from there what it finds from the start. */
  ghost predicate SearchAt(g: Graph, init: Node, visible: ArcId -> bool, stack: seq<Node>, pos: seq<nat>,
                           seen: set<Node>, done: map<Node, nat>, back: set<ArcId>) {
    && Finished(g, visible, stack, pos, seen, done, back)
    && (Finds(g, visible, [init], [0], {}) <==> Finds(g, visible, stack, pos, seen))
  }

  ghost predicate TopOk(g: Graph, stack: seq<Node>, pos: seq<nat>) {
    && Closed(g) && stack != [] && |stack| == |pos| && stack[|stack| - 1] in g
    && pos[|pos| - 1] <= |g[stack[|stack| - 1]]|
    && (forall j, k :: 0 <= j < k < |stack| ==> stack[j] != stack[k])
  }

  lemma {:induction false} SearchPop(g: Graph, init: Node, visible: ArcId -> bool, stack: seq<Node>, pos: seq<nat>,
                                     seen: set<Node>, done: map<Node, nat>, back: set<ArcId>, seen': set<Node>)
    requires SearchAt(g, init, visible, stack, pos, seen, done, back) && TopOk(g, stack, pos)
    requires pos[|pos| - 1] == |g[stack[|stack| - 1]]| && seen' == seen + {stack[|stack| - 1]}
    ensures SearchAt(g, init, visible, stack[..|stack| - 1], pos[..|pos| - 1], seen',
                     done[stack[|stack| - 1] := |done|], back)
  {
    hide Finished, SegmentVisible;
    FinishedPop(g, visible, stack, pos, seen, done, back);
    FindsMeans(g, visible, stack, pos, seen);
    hide Finds;
  }

  /** The next arc closes a cycle: it is found, or the search goes on. */
  lemma {:induction false} SearchBack(g: Graph, init: Node, visible: ArcId -> bool, stack: seq<Node>, pos: seq<nat>,
                                      seen: set<Node>, done: map<Node, nat>, back: set<ArcId>, seen': set<Node>)
    requires SearchAt(g, init, visible, stack, pos, seen, done, back) && TopOk(g, stack, pos)
    requires pos[|pos| - 1] < |g[stack[|stack| - 1]]|
    requires g[stack[|stack| - 1]][pos[|pos| - 1]] in stack && seen' == seen + {g[stack[|stack| - 1]][pos[|pos| - 1]]}
    ensures SegmentVisible(g, visible, stack, pos) ==> Finds(g, visible, [init], [0], {})
    ensures !SegmentVisible(g, visible, stack, pos) ==>
              SearchAt(g, init, visible, stack, pos[|pos| - 1 := pos[|pos| - 1] + 1], seen', done,
                       back + {ArcId(stack[|stack| - 1], pos[|pos| - 1])})
  {
    hide Finished;
    FindsMeans(g, visible, stack, pos, seen);
    if !SegmentVisible(g, visible, stack, pos) {
      FinishedBack(g, visible, stack, pos, seen, done, back);
    }
    hide Finds, SegmentVisible;
  }

  lemma {:induction false} SearchOn(g: Graph, init: Node, visible: ArcId -> bool, stack: seq<Node>, pos: seq<nat>,
                                    seen: set<Node>, done: map<Node, nat>, back: set<ArcId>)
    requires SearchAt(g, init, visible, stack, pos, seen, done, back) && TopOk(g, stack, pos)
    requires pos[|pos| - 1] < |g[stack[|stack| - 1]]|
    requires g[stack[|stack| - 1]][pos[|pos| - 1]] !in stack
    ensures var child, next := g[stack[|stack| - 1]][pos[|pos| - 1]], pos[|pos| - 1 := pos[|pos| - 1] + 1];
            if child in seen then SearchAt(g, init, visible, stack, next, seen, done, back)
            else SearchAt(g, init, visible, stack + [child], next + [0], seen, done, back)
  {
    hide Finished, SegmentVisible;
    FindsMeans(g, visible, stack, pos, seen);
    if g[stack[|stack| - 1]][pos[|pos| - 1]] in seen {
      FinishedSkip(g, visible, stack, pos, seen, done, back);
    } else {
      FinishedPush(g, visible, stack, pos, seen, done, back);
    }
    hide Finds;
  }

  lemma {:induction false} ReachedIsDone(g: Graph, visible: ArcId -> bool, seen: set<Node>, done: map<Node, nat>,
                                         back: set<ArcId>, p: seq<Node>)
    requires Finished(g, visible, [], [], seen, done, back) && IsPathIn(g, p) && p[0] in done
    ensures p[|p| - 1] in done
    decreases |p|
  {
    if |p| > 1 {
      var q := p[..|p| - 1];
      assert IsPathIn(g, q) by {
        forall k | 0 <= k < |q| - 1 ensures q[k] in g && q[k + 1] in g[q[k]] {
          assert p[k] in g && p[k + 1] in g[p[k]];
        }
      }
      ReachedIsDone(g, visible, seen, done, back, q);
      var n, m := p[|p| - 2], p[|p| - 1];
      assert p[|p| - 2 + 1] in g[p[|p| - 2]];
      var j :| 0 <= j < |g[n]| && g[n][j] == m;
      var a := ArcId(n, j);
      assert IsArc(g, a) && Target(g, a) == m;
      assert a in back || Earlier(g, done, a);
    }
  }

  lemma {:induction false} RanksDescend(g: Graph, visible: ArcId -> bool, seen: set<Node>, done: map<Node, nat>,
                                        back: set<ArcId>, c: seq<ArcId>, k: nat)
    requires Finished(g, visible, [], [], seen, done, back) && k < |c| && c[0].node in done
    requires forall a :: a in c ==> IsArc(g, a) && visible(a)
    requires forall i :: 0 <= i < |c| - 1 ==> Target(g, c[i]) == c[i + 1].node
    ensures c[k].node in done && done[c[k].node] <= done[c[0].node]
    ensures Target(g, c[k]) in done && done[Target(g, c[k])] < done[c[0].node]
  {
    if k > 0 {
      RanksDescend(g, visible, seen, done, back, c, k - 1);
      assert Target(g, c[k - 1]) == c[k - 1 + 1].node;
    }
    assert c[k] in c;
    assert c[k] in back || Earlier(g, done, c[k]);
  }

  lemma {:induction false} AllFinished(g: Graph, init: Node, visible: ArcId -> bool, seen: set<Node>,
                                       done: map<Node, nat>, back: set<ArcId>)
    requires Finished(g, visible, [], [], seen, done, back) && init in seen
    ensures CyclesPause(g, init, visible)
  {
    forall c: seq<ArcId> | ReachableCycle(g, init, c) ensures exists a :: a in c && !visible(a) {
      if forall a :: a in c ==> visible(a) {
        var p :| IsPathIn(g, p) && p[0] == init && p[|p| - 1] == c[0].node;
        ReachedIsDone(g, visible, seen, done, back, p);
        RanksDescend(g, visible, seen, done, back, c, |c| - 1);
        assert false;
      }
    }
  }

  /** The reduction. Without cycles it computes the reduced value of the first node. It reports a cycle only when there
      is one on which something is written, and always when there is one on all of whose arcs something is written;
      `Finds` says what happens to the others. */
  method TreeReduce(g: Graph, init: Node, chunks: Chunks, visible: ArcId -> bool, last: string, op: Reducer,
                    ghost rank: map<Node, nat>)
    returns (r: Outcome)
    requires Closed(g) && init in g
    ensures r.Cycle? ==> exists c :: VisibleCycle(g, init, visible, c)
    ensures r.Value? ==> CyclesPause(g, init, visible)
    ensures r.Aborted? ==> op.AtMost?
    ensures r.Value? ==> forall s :: s in r.outputs ==> IsOutput(g, chunks, last, init, s)
    ensures CyclesWrite(g, init, visible) && !r.Aborted? ==> (r.Cycle? <==> exists c :: ReachableCycle(g, init, c))
    ensures !r.Aborted? ==> (r.Cycle? <==> Finds(g, visible, [init], [0], {}))
    ensures Region(g, rank) && init in rank ==>
              r == match Reduced(g, chunks, last, op, rank, init) case Some(v) => Value(v) case None => Aborted
  {
    hide ReachableCycle, Reachable, Reduced, KeepsValues, PathOk, Finds, SearchAt, CyclesPause, CyclesWrite,
         SegmentVisible, IsOutput, AllSound, Sound;
    var stack, stackSet, stackArcs := [init], {init}, [0];
    var visited: map<Node, set<string>> := map[];
    ghost var done: map<Node, nat> := map[];
    ghost var back: set<ArcId> := {};
    PathStart(g, init);
    assert visited.Keys == {};
    SearchStarts(g, init, visible);
    KeepsValuesStart(g, init, chunks, last, op, rank);
    NothingUnsound(g, chunks, last);
    while stack != []
      invariant forall n :: n in stackSet <==> n in stack
      invariant |stack| == |stackArcs| && forall k :: 0 <= k < |stack| ==> stack[k] in g
      invariant PathOk(g, init, stack, stackArcs, visited)
      invariant KeepsValues(g, init, chunks, last, op, rank, stack, visited) && AllSound(g, chunks, last, visited)
      invariant SearchAt(g, init, visible, stack, stackArcs, visited.Keys, done, back)
      invariant stack != [] ==> stack[0] == init
      decreases g.Keys - visited.Keys - stackSet, |stack|,
                if stack == [] then 0 else |g[stack[|stack| - 1]]| - stackArcs[|stackArcs| - 1]
    {
      PathTop(g, init, stack, stackArcs, visited);
      assert TopOk(g, stack, stackArcs);
      var top := |stack| - 1;
      var node := stack[top];
      var a := stackArcs[top];
      if a == |g[node]| {
        var value := NodeValue(g, init, chunks, last, op, stack, stackArcs, visited, rank);
        if value.None? {
          AbortedMeansNone(g, init, chunks, last, op, rank, stack, stackArcs, visited);
          return Aborted;
        }
        PathPop(g, init, stack, stackArcs, visited, value.value);
        SoundMore(g, chunks, last, visited, node, value.value);
        KeepsValuesMeans(g, init, chunks, last, op, rank, stack, visited);
        KeepsValuesPop(g, init, chunks, last, op, rank, stack, visited, value.value);
        assert visited[node := value.value].Keys == visited.Keys + {node};
        SearchPop(g, init, visible, stack, stackArcs, visited.Keys, done, back, visited.Keys + {node});
        done := done[node := |done|];
        stackSet := stackSet - {node};
        stack, stackArcs := stack[..top], stackArcs[..top];
        visited := visited[node := value.value];
      } else {
        var child := g[node][a];
        if child in stackSet {
          NoCycleInRegion(g, init, chunks, last, op, rank, stack, visited, a);
          var b := CycleVisible(g, init, visible, stack, stackArcs, visited);
          SearchBack(g, init, visible, stack, stackArcs, visited.Keys, done, back, visited.Keys + {child});
          if b {
            WritesOnCycle(g, init, visible);
            return Cycle;
          }
          back := back + {ArcId(node, a)};
          assert visited[child := {}].Keys == visited.Keys + {child};
          PathNext(g, init, stack, stackArcs, visited, visited[child := {}]);
          SoundMore(g, chunks, last, visited, child, {});
          visited := visited[child := {}];
          stackArcs := stackArcs[top := a + 1];
          OutsideRegion(g, init, chunks, last, op, rank, stack, visited);
        } else {
          PathNext(g, init, stack, stackArcs, visited, visited);
          SearchOn(g, init, visible, stack, stackArcs, visited.Keys, done, back);
          stackArcs := stackArcs[top := a + 1];
          if child !in visited {
            KeepsValuesPush(g, init, chunks, last, op, rank, stack, visited, a);
            stack, stackSet, stackArcs := stack + [child], stackSet + {child}, stackArcs + [0];
          }
        }
      }
    }
    assert init in visited by { PathEnd(g, init, stackArcs, visited); }
    ValueAtEnd(g, init, chunks, last, op, rank, visited);
    assert stackArcs == [];
    SearchEnds(g, init, visible, visited.Keys, done, back);
    AllOfSound(g, chunks, last, visited, init);
    r := Value(visited[init]);
  }

  lemma SearchStarts(g: Graph, init: Node, visible: ArcId -> bool)
    ensures SearchAt(g, init, visible, [init], [0], {}, map[], {})
  {
  }

  lemma FindsMeans(g: Graph, visible: ArcId -> bool, stack: seq<Node>, pos: seq<nat>, seen: set<Node>)
    requires stack != [] && |stack| == |pos| && stack[|stack| - 1] in g && pos[|pos| - 1] <= |g[stack[|stack| - 1]]|
    requires Closed(g)
    ensures var top := |stack| - 1;
            var node := stack[top];
            Finds(g, visible, stack, pos, seen) ==
              if pos[top] == |g[node]| then Finds(g, visible, stack[..top], pos[..top], seen + {node})
              else
                var child, next := g[node][pos[top]], pos[top := pos[top] + 1];
                if child in stack
                then SegmentVisible(g, visible, stack, pos) || Finds(g, visible, stack, next, seen + {child})
                else if child in seen then Finds(g, visible, stack, next, seen)
                else Finds(g, visible, stack + [child], next + [0], seen)
  {
  }

  lemma {:induction false} SearchEnds(g: Graph, init: Node, visible: ArcId -> bool, seen: set<Node>,
                                      done: map<Node, nat>, back: set<ArcId>)
    requires SearchAt(g, init, visible, [], [], seen, done, back) && init in seen
    ensures !Finds(g, visible, [init], [0], {}) && CyclesPause(g, init, visible)
    ensures CyclesWrite(g, init, visible) ==> !exists c :: ReachableCycle(g, init, c)
  {
    hide ReachableCycle;
    AllFinished(g, init, visible, seen, done, back);
  }

  lemma WritesOnCycle(g: Graph, init: Node, visible: ArcId -> bool)
    requires exists c :: VisibleCycle(g, init, visible, c)
    ensures exists c :: ReachableCycle(g, init, c)
  {
  }

  /** Two cycles through node 1; something is written on one of them only, on the arc from node 2. */
  function TwoCycles(): Graph {
    map[0 := [1, 2], 1 := [0], 2 := [1]]
  }

  const WRITING := ArcId(2, 0)

  lemma {:induction false} GoesOn(visible: ArcId -> bool, stack: seq<Node>, pos: seq<nat>, seen: set<Node>,
                                  stack': seq<Node>, pos': seq<nat>, seen': set<Node>)
    requires var g, top := TwoCycles(), |stack| - 1;
             && stack != [] && |stack| == |pos| && stack[top] in g && pos[top] <= |g[stack[top]]|
             && (if pos[top] == |g[stack[top]]|
                 then stack' == stack[..top] && pos' == pos[..top] && seen' == seen + {stack[top]}
                 else
                   var child, next := g[stack[top]][pos[top]], pos[top := pos[top] + 1];
                   if child in stack
                   then !SegmentVisible(g, visible, stack, pos) && stack' == stack && pos' == next
                        && seen' == seen + {child}
                   else if child in seen then stack' == stack && pos' == next && seen' == seen
                   else stack' == stack + [child] && pos' == next + [0] && seen' == seen)
    ensures Finds(TwoCycles(), visible, stack, pos, seen) == Finds(TwoCycles(), visible, stack', pos', seen')
  {
    hide SegmentVisible;
    FindsMeans(TwoCycles(), visible, stack, pos, seen);
  }

  lemma {:induction false} FindsNothing()
    ensures !Finds(TwoCycles(), a => a == WRITING, [0], [0], {})
  {
    hide Finds;
    var g, visible := TwoCycles(), (a: ArcId) => a == WRITING;
    GoesOn(visible, [0], [0], {}, [0, 1], [1, 0], {});
    GoesOn(visible, [0, 1], [1, 0], {}, [0, 1], [1, 1], {0});
    GoesOn(visible, [0, 1], [1, 1], {0}, [0], [1], {0, 1});
    GoesOn(visible, [0], [1], {0, 1}, [0, 2], [2, 0], {0, 1});
    GoesOn(visible, [0, 2], [2, 0], {0, 1}, [0, 2], [2, 1], {0, 1});
    GoesOn(visible, [0, 2], [2, 1], {0, 1}, [0], [2], {0, 1, 2});
    GoesOn(visible, [0], [2], {0, 1, 2}, [], [], {0, 1, 2});
    NothingToSearch(g, visible, {0, 1, 2});
  }

  lemma NothingToSearch(g: Graph, visible: ArcId -> bool, seen: set<Node>)
    ensures !Finds(g, visible, [], [], seen)
  {
  }

  /** It happens that a cycle with output is not met: the arc that writes leads to a node that is finished when the arc
      is looked at, and the cycle through the nodes of the path writes nothing. */
  method WritingCycleIsMissed() returns (r: Outcome)
    ensures r.Value? && VisibleCycle(TwoCycles(), 0, a => a == WRITING, [ArcId(0, 1), WRITING, ArcId(1, 0)])
  {
    FindsNothing();
    assert IsPathIn(TwoCycles(), [0]);
    assert Reachable(TwoCycles(), 0, 0);
    var c := [ArcId(0, 1), WRITING, ArcId(1, 0)];
    assert WRITING in c;
    assert ReachableCycle(TwoCycles(), 0, c);
    hide Finds;
    r := TreeReduce(TwoCycles(), 0, a => "x", a => a == WRITING, "", Everything, map[]);
  }

  lemma PathStart(g: Graph, init: Node)
    requires init in g
    ensures PathOk(g, init, [init], [0], map[])
  {
    assert IsPathIn(g, [init]);
    assert Reachable(g, init, init);
  }

  lemma PathTop(g: Graph, init: Node, stack: seq<Node>, pos: seq<nat>, visited: map<Node, set<string>>)
    requires Closed(g) && PathOk(g, init, stack, pos, visited) && stack != []
    ensures |stack| == |pos| && (forall k :: 0 <= k < |stack| ==> stack[k] in g)
            && pos[|pos| - 1] <= |g[stack[|stack| - 1]]|
    ensures forall j, k :: 0 <= j < k < |stack| ==> stack[j] != stack[k]
    ensures pos[|pos| - 1] < |g[stack[|stack| - 1]]| ==> g[stack[|stack| - 1]][pos[|pos| - 1]] in g
  {
  }

  lemma PathEnd(g: Graph, init: Node, pos: seq<nat>, visited: map<Node, set<string>>)
    requires PathOk(g, init, [], pos, visited)
    ensures init in visited
  {
  }

  lemma KeepsValuesStart(g: Graph, init: Node, chunks: Chunks, last: string, op: Reducer, rank: map<Node, nat>)
    ensures KeepsValues(g, init, chunks, last, op, rank, [init], map[])
  {
  }

  lemma OutsideRegion(g: Graph, init: Node, chunks: Chunks, last: string, op: Reducer, rank: map<Node, nat>,
                      stack: seq<Node>, visited: map<Node, set<string>>)
    requires !(Region(g, rank) && init in rank)
    ensures KeepsValues(g, init, chunks, last, op, rank, stack, visited)
  {
  }

  lemma KeepsValuesMeans(g: Graph, init: Node, chunks: Chunks, last: string, op: Reducer, rank: map<Node, nat>,
                         stack: seq<Node>, visited: map<Node, set<string>>)
    requires KeepsValues(g, init, chunks, last, op, rank, stack, visited)
    ensures Region(g, rank) && init in rank ==> ValuesOk(g, chunks, last, op, rank, stack, visited)
  {
  }

  lemma AbortedMeansNone(g: Graph, init: Node, chunks: Chunks, last: string, op: Reducer, rank: map<Node, nat>,
                         stack: seq<Node>, pos: seq<nat>, visited: map<Node, set<string>>)
    requires PathOk(g, init, stack, pos, visited) && KeepsValues(g, init, chunks, last, op, rank, stack, visited)
    requires stack != [] && stack[0] == init
    requires Region(g, rank) && ValuesOk(g, chunks, last, op, rank, stack, visited) ==>
               Reduced(g, chunks, last, op, rank, stack[|stack| - 1]).None?
    ensures Region(g, rank) && init in rank ==> Reduced(g, chunks, last, op, rank, init).None?
  {
    if Region(g, rank) && init in rank {
      NoneUp(g, init, chunks, last, op, rank, stack, pos, visited, |stack| - 1);
    }
  }

  lemma ValueAtEnd(g: Graph, init: Node, chunks: Chunks, last: string, op: Reducer, rank: map<Node, nat>,
                   visited: map<Node, set<string>>)
    requires KeepsValues(g, init, chunks, last, op, rank, [], visited) && init in visited
    ensures Region(g, rank) && init in rank ==> Reduced(g, chunks, last, op, rank, init) == Some(visited[init])
  {
  }

  // ---- the queries -----------------------------------------------------------------------------------

  /** `all` holds the outputs of all maximal paths. */
  ghost predicate AllOutputs(g: Graph, chunks: Chunks, last: string, init: Node, all: set<string>) {
    forall s :: s in all <==> IsOutput(g, chunks, last, init, s)
  }

  lemma FullIsAllOutputs(g: Graph, chunks: Chunks, last: string, rank: map<Node, nat>, n: Node)
    requires Region(g, rank) && n in rank
    ensures AllOutputs(g, chunks, last, n, Full(g, chunks, last, rank, n))
  {
    forall s ensures s in Full(g, chunks, last, rank, n) <==> IsOutput(g, chunks, last, n, s) {
      FullIsOutputs(g, chunks, last, rank, n, s);
    }
  }

  /** All outputs, or the first `limit` of them. */
  method GetAllOutputs(g: Graph, init: Node, chunks: Chunks, visible: ArcId -> bool, limit: Option<nat>, last: string,
                       ghost rank: map<Node, nat>)
    returns (r: Option<set<string>>)
    requires Closed(g) && init in g && (limit.Some? ==> limit.value >= 1)
    ensures r.None? ==> exists c :: VisibleCycle(g, init, visible, c)
    ensures r.Some? ==> CyclesPause(g, init, visible)
    ensures r.Some? ==> forall s :: s in r.value ==> IsOutput(g, chunks, last, init, s)
    ensures CyclesWrite(g, init, visible) ==> (r.None? <==> exists c :: ReachableCycle(g, init, c))
    ensures Region(g, rank) && init in rank ==>
              exists all :: AllOutputs(g, chunks, last, init, all)
                          && r == Some(if limit.None? then all else Smallest(limit.value, all))
  {
    hide VisibleCycle, CyclesPause, CyclesWrite, ReachableCycle, Finds;
    var outcome := TreeReduce(g, init, chunks, visible, last, if limit.None? then Everything else First(limit.value),
                              rank);
    if Region(g, rank) && init in rank {
      ghost var all := Full(g, chunks, last, rank, init);
      FullIsAllOutputs(g, chunks, last, rank, init);
      if limit.None? {
        ReducedIsFull(g, chunks, last, rank, init);
      } else {
        ReducedIsSmallest(g, chunks, last, rank, init, limit.value);
      }
    }
    match outcome {
      case Cycle => r := None;
      case Aborted => r := Some({});
      case Value(outputs) => r := Some(outputs);
    }
  }

  /** The number of outputs when there are at most `upto`. */
  method GetOutputsCount(g: Graph, init: Node, chunks: Chunks, visible: ArcId -> bool, upto: nat,
                         ghost rank: map<Node, nat>)
    returns (r: Option<nat>)
    requires Closed(g) && init in g && upto >= 1
    ensures r.Some? ==> CyclesPause(g, init, visible)
    ensures Region(g, rank) && init in rank ==>
              exists all :: AllOutputs(g, chunks, "", init, all) && r == if |all| <= upto then Some(|all|) else None
  {
    hide VisibleCycle, CyclesPause, CyclesWrite, ReachableCycle, Finds;
    var outcome := TreeReduce(g, init, chunks, visible, "", AtMost(upto), rank);
    if Region(g, rank) && init in rank {
      ghost var all := Full(g, chunks, "", rank, init);
      FullIsAllOutputs(g, chunks, "", rank, init);
      ReducedIsCounted(g, chunks, "", rank, init, upto);
    }
    match outcome {
      case Cycle => r := None;
      case Aborted => r := None;
      case Value(outputs) => r := Some(|outputs|);
    }
  }
}
