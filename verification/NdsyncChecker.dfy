/** The propagation of markings along a state space in topological order. */
module NdsyncChecker {
  import opened MemoryTypes
  import opened Ndsync
  import opened NdsyncCovering
  import opened StateSpace
  import opened Countdown

  // ---- the countdown -----------------------------------------------------------------------------

  /** The part of the state space that is walked: its nodes, the node the walk starts in, and the arcs inside it that
      close no cycle; and the test by which markings are dropped. */
  datatype Plan = Plan(g: Graph, events: map<ArcId, seq<Event>>, forward: set<ArcId>, nodes: set<Node>, start: Node,
                       covers: Covering)

  ghost function Into(t: Plan, n: Node): set<ArcId> {
    set a | a in t.forward && IsArc(t.g, a) && Target(t.g, a) == n
  }

  ghost predicate PlanOk(t: Plan) {
    && t.start in t.nodes && t.nodes <= t.g.Keys
    && (forall a :: a in t.forward ==>
        IsArc(t.g, a) && a.node in t.nodes && Target(t.g, a) in t.nodes && Target(t.g, a) != t.start)
    && Acyclic(t.g, t.forward)
    && (forall n :: n in t.nodes && n != t.start ==> Into(t, n) != {})
    && (forall a :: IsArc(t.g, a) && a.node in t.nodes && a !in t.forward && Counted(t, Target(t.g, a)) ==>
          Connected(t.g, t.forward, Target(t.g, a), a.node))
  }

  /** The nodes that are queued when their count comes down to 0. */
  ghost predicate Counted(t: Plan, n: Node) {
    n in t.nodes && n != t.start
  }

  /** The counts the walk starts with. */
  ghost predicate CountsInjected(t: Plan, indegree: map<Node, int>) {
    && t.g.Keys <= indegree.Keys
    && (forall n :: Counted(t, n) && n in indegree ==> indegree[n] == |Into(t, n)|)
    && (forall a :: IsArc(t.g, a) && a.node in t.nodes && !Counted(t, Target(t.g, a)) ==>
          Target(t.g, a) in indegree && indegree[Target(t.g, a)] <= 0)
  }

  /** The counts after the arcs of `done` have been processed. */
  ghost predicate CountOk(t: Plan, done: set<ArcId>, indegree: map<Node, int>) {
    && t.g.Keys <= indegree.Keys
    && (forall n :: Counted(t, n) && n in indegree ==> 
          if Pending(t, done, n) == {} then indegree[n] <= 0 else indegree[n] == |Pending(t, done, n)|)
    && (forall a :: IsArc(t.g, a) && a.node in t.nodes && !Counted(t, Target(t.g, a)) ==>
          Target(t.g, a) in indegree && indegree[Target(t.g, a)] <= 0)
  }

  /** The arcs a node still waits for. */
  ghost function Pending(t: Plan, done: set<ArcId>, n: Node): set<ArcId> {
    Into(t, n) - done
  }

  ghost predicate Ready(t: Plan, done: set<ArcId>, n: Node) {
    n == t.start || Pending(t, done, n) == {}
  }

  ghost predicate QueueOk(t: Plan, processed: set<Node>, queue: seq<Node>, done: set<ArcId>) {
    && processed <= t.nodes
    && (forall n :: n in queue ==> n in t.nodes && n !in processed)
    && (forall j, k :: 0 <= j < k < |queue| ==> queue[j] != queue[k])
    && (forall n :: n in t.nodes ==> (n in processed || n in queue <==> Ready(t, done, n)))
  }

  /** The arcs that have been processed are those of the processed nodes. */
  ghost predicate DoneOk(t: Plan, processed: set<Node>, done: set<ArcId>) {
    forall a :: a in done <==> IsArc(t.g, a) && a.node in processed
  }

  lemma CountStart(t: Plan, indegree: map<Node, int>)
    requires PlanOk(t) && CountsInjected(t, indegree)
    ensures CountOk(t, {}, indegree)
    ensures QueueOk(t, {}, [t.start], {})
  {
    forall n | Counted(t, n) ensures Pending(t, {}, n) == Into(t, n) != {} {
    }
  }

  lemma PendingAfter(t: Plan, done: set<ArcId>, a: ArcId, n: Node)
    requires IsArc(t.g, a) && a !in done
    ensures a in t.forward && n == Target(t.g, a) ==> a in Pending(t, done, n)
    ensures Pending(t, done + {a}, n) == if a in t.forward && n == Target(t.g, a) then Pending(t, done, n) - {a}
            else Pending(t, done, n)
  {
  }

  /** Counting down for one more arc: the count of its target becomes 0 exactly when this was the last arc the target
      waited for. */
  lemma {:induction false} CountDown(t: Plan, done: set<ArcId>, indegree: map<Node, int>, a: ArcId)
    requires PlanOk(t) && CountOk(t, done, indegree)
    requires IsArc(t.g, a) && a.node in t.nodes && a !in done && Target(t.g, a) in indegree
    requires a !in t.forward && Counted(t, Target(t.g, a)) ==> Pending(t, done, Target(t.g, a)) == {}
    ensures CountOk(t, done + {a}, indegree[Target(t.g, a) := indegree[Target(t.g, a)] - 1])
    ensures indegree[Target(t.g, a)] == 1 <==> a in t.forward && Pending(t, done + {a}, Target(t.g, a)) == {}
    ensures indegree[Target(t.g, a)] > 0 <==> a in t.forward
  {
    hide Pending, Into, Acyclic, Connected;
    var n := Target(t.g, a);
    forall m ensures a in t.forward && m == n ==> a in Pending(t, done, m)
      ensures Pending(t, done + {a}, m) == if a in t.forward && m == n then Pending(t, done, m) - {a}
              else Pending(t, done, m)
    {
      PendingAfter(t, done, a, m);
    }
    if a in t.forward {
      assert |Pending(t, done, n) - {a}| == |Pending(t, done, n)| - 1;
    }
  }

  lemma PredecessorReady(t: Plan, processed: set<Node>, queue: seq<Node>, done: set<ArcId>, a: ArcId)
    requires PlanOk(t) && QueueOk(t, processed, queue, done) && DoneOk(t, processed, done)
    requires a in t.forward && Ready(t, done, Target(t.g, a))
    ensures a.node in processed && Ready(t, done, a.node)
  {
    assert a in Into(t, Target(t.g, a));
    assert a !in Pending(t, done, Target(t.g, a));
    assert a.node in processed;
  }

  /** All nodes from which forward arcs lead to a ready node are ready. */
  lemma {:induction false} AncestorsReady(t: Plan, processed: set<Node>, queue: seq<Node>, done: set<ArcId>,
                                          p: seq<Node>)
    requires PlanOk(t) && QueueOk(t, processed, queue, done) && DoneOk(t, processed, done)
    requires IsPath(t.g, t.forward, p) && p[|p| - 1] in t.nodes && Ready(t, done, p[|p| - 1])
    ensures p[0] in t.nodes && Ready(t, done, p[0])
    decreases |p|
  {
    hide PlanOk, QueueOk, DoneOk, Ready;
    if |p| > 1 {
      PathButLast(t.g, t.forward, p);
      var a :| a in t.forward && IsArc(t.g, a) && a.node == p[|p| - 2] && Target(t.g, a) == p[|p| - 1];
      PredecessorReady(t, processed, queue, done, a);
      assert a.node in t.nodes by {
        assert PlanOk(t);
        PlanSources(t, a);
      }
      AncestorsReady(t, processed, queue, done, p[..|p| - 1]);
    }
  }

  lemma PlanSources(t: Plan, a: ArcId)
    requires PlanOk(t) && a in t.forward
    ensures IsArc(t.g, a) && a.node in t.nodes && Target(t.g, a) in t.nodes && Target(t.g, a) != t.start
  {
  }

  /** When no node is queued, all nodes have been processed. */
  lemma {:induction false} AllProcessed(t: Plan, processed: set<Node>, done: set<ArcId>, rank: map<Node, nat>, n: Node)
    requires PlanOk(t) && QueueOk(t, processed, [], done) && DoneOk(t, processed, done)
    requires Descends(t.g, t.forward, rank) && n in t.nodes && (n in rank || n == t.start)
    ensures n in processed
    decreases if n in rank then Above(rank, n) else {}
  {
    if n != t.start {
      forall a | a in Into(t, n) ensures a in done {
        AboveShrinks(rank, n, a.node);
        AllProcessed(t, processed, done, rank, a.node);
      }
      assert Ready(t, done, n);
    } else {
      assert Ready(t, done, n);
    }
  }

  // ---- what the markings mean ----------------------------------------------------------------------

  /** The events of arc `a` can happen under marking `m`. */
  ghost predicate ArcOk(g: Graph, events: map<ArcId, seq<Event>>, m: Marks, a: ArcId)
    requires IsArc(g, a)
  {
    && a in events
    && (|g[a.node]| > 1 ==> |events[a]| > 0 && WellFormed(m, events[a][0]))
    && RunWellFormed(Before(g, events, m, a), events[a])
  }

  /** At a branching the marks under which the arc cannot be taken are given up first. */
  ghost function Before(g: Graph, events: map<ArcId, seq<Event>>, m: Marks, a: ArcId): Marks
    requires IsArc(g, a) && a in events && (|g[a.node]| > 1 ==> |events[a]| > 0 && WellFormed(m, events[a][0]))
  {
    if |g[a.node]| > 1 && EventMarks(m, events[a][0]) != {} then Cleanup(m, EventMarks(m, events[a][0])) else m
  }

  /** Marking `m` after arc `a`. */
  ghost function Advance(t: Plan, m: Marks, a: ArcId): Marks {
    if IsArc(t.g, a) && ArcOk(t.g, t.events, m, a) then AfterRun(Before(t.g, t.events, m, a), t.events[a]) else m
  }

  ghost predicate ArcsOk(g: Graph, events: map<ArcId, seq<Event>>, m: Marks, n: Node)
    requires n in g
  {
    forall i: nat :: i < |g[n]| ==> ArcOk(g, events, m, ArcId(n, i))
  }

  /** No way out of node `n` under marking `m`: at the end some synchronisation is still awaited, or every arc depends
      on one. */
  ghost predicate Stuck(g: Graph, events: map<ArcId, seq<Event>>, m: Marks, n: Node)
    requires n in g && ArcsOk(g, events, m, n)
  {
    if |g[n]| == 0 then m.terminate != map[]
    else |g[n]| > 1 && forall i: nat :: i < |g[n]| ==> ArcMarks(g, events, m, ArcId(n, i)) != {}
  }

  /** The marks under which an arc of a branching cannot be taken. */
  ghost function ArcMarks(g: Graph, events: map<ArcId, seq<Event>>, m: Marks, a: ArcId): set<Mark>
    requires IsArc(g, a) && ArcOk(g, events, m, a) && |g[a.node]| > 1
  {
    EventMarks(m, events[a][0])
  }

  lemma FirstEvent(g: Graph, events: map<ArcId, seq<Event>>, m: Marks, a: ArcId)
    requires IsArc(g, a) && ArcOk(g, events, m, a) && |g[a.node]| > 1
    ensures a in events && events[a] != [] && WellFormed(m, events[a][0])
    ensures ArcMarks(g, events, m, a) == EventMarks(m, events[a][0])
  {
  }

  /** A way from the start along arcs that close no cycle. */
  ghost predicate Trail(t: Plan, path: seq<ArcId>, n: Node) {
    if path == [] then n == t.start
    else
      var a := path[|path| - 1];
      a in t.forward && IsArc(t.g, a) && Target(t.g, a) == n && Trail(t, path[..|path| - 1], a.node)
  }

  /** The marking after the arcs of a way. */
  ghost function Along(t: Plan, first: Marks, path: seq<ArcId>): Marks {
    if path == [] then first else Advance(t, Along(t, first, path[..|path| - 1]), path[|path| - 1])
  }

  /** Some way leads to `n` with marking `m`. */
  ghost predicate Carried(t: Plan, first: Marks, n: Node, m: Marks) {
    exists path :: Trail(t, path, n) && Along(t, first, path) == m
  }

  ghost predicate SentAlong(t: Plan, final: map<Node, set<Marks>>, a: ArcId, m: Marks) {
    a.node in final && exists x :: x in final[a.node] && Advance(t, x, a) == m
  }

  /** Marking `m` comes to `n` over an arc of `done`, from one of the markings its source was processed with. */
  ghost predicate Arrives(t: Plan, done: set<ArcId>, final: map<Node, set<Marks>>, n: Node, m: Marks) {
    exists a :: a in Into(t, n) && a in done && SentAlong(t, final, a, m)
  }

  /** Marking `x` is `m`, or `m` is dropped because of it. */
  ghost predicate Represents(t: Plan, x: Marks, m: Marks) {
    x == m || t.covers(m, x) == Covers
  }

  /** Different markings have been compared. */
  ghost predicate Tested(t: Plan, ms: set<Marks>) {
    forall x, y :: x in ms && y in ms && x != y ==> t.covers(x, y) == Differs || t.covers(y, x) == Differs
  }

  ghost predicate KeptFor(t: Plan, ms: set<Marks>, m: Marks) {
    exists x :: x in ms && Represents(t, x, m)
  }

  /** The markings every processed node was processed with. */
  ghost predicate FinalOk(t: Plan, first: Marks, processed: set<Node>, final: map<Node, set<Marks>>) {
    && final.Keys == processed <= t.nodes
    && (forall n, a :: n in processed && a in Into(t, n) ==> a.node in processed)
    && (forall n :: n in final ==> final[n] != {})
    && (t.start in final ==> final[t.start] == {first})
    && (forall n, m :: n in final && n != t.start && m in final[n] ==> Arrives(t, t.forward, final, n, m))
    && (forall n, m :: n in final && n != t.start && Arrives(t, t.forward, final, n, m) ==> KeptFor(t, final[n], m))
    && (forall n :: n in final ==> Tested(t, final[n]))
  }

  lemma {:induction false} FinalHasTrail(t: Plan, first: Marks, processed: set<Node>, final: map<Node, set<Marks>>,
                                         rank: map<Node, nat>, n: Node, m: Marks) returns (path: seq<ArcId>)
    requires PlanOk(t) && FinalOk(t, first, processed, final) && n in final && m in final[n]
    requires Descends(t.g, t.forward, rank) && (n in rank || n == t.start)
    ensures Trail(t, path, n) && Along(t, first, path) == m
    decreases if n in rank then Above(rank, n) else {}
  {
    hide Advance, PlanOk, FinalOk;
    if n == t.start {
      assert m == first by { StartIsFinal(t, first, processed, final, m); }
      path := [];
    } else {
      var a, x := FinalCameFrom(t, first, processed, final, n, m);
      AboveShrinks(rank, n, a.node);
      var before := FinalHasTrail(t, first, processed, final, rank, a.node, x);
      path := before + [a];
      assert path[..|path| - 1] == before;
    }
  }

  lemma StartIsFinal(t: Plan, first: Marks, processed: set<Node>, final: map<Node, set<Marks>>, m: Marks)
    requires FinalOk(t, first, processed, final) && t.start in final && m in final[t.start]
    ensures m == first
  {
  }

  lemma {:induction false} FinalCameFrom(t: Plan, first: Marks, processed: set<Node>, final: map<Node, set<Marks>>,
                                         n: Node, m: Marks)
    returns (a: ArcId, x: Marks)
    requires FinalOk(t, first, processed, final) && n in final && m in final[n] && n != t.start
    ensures a in Into(t, n) && a in t.forward && a.node in final && x in final[a.node] && Advance(t, x, a) == m
  {
    hide Advance;
    assert Arrives(t, t.forward, final, n, m);
    a :| a in Into(t, n) && a in t.forward && SentAlong(t, final, a, m);
    x :| x in final[a.node] && Advance(t, x, a) == m;
  }

  /** The markings a node is processed with were carried to it by some way. */
  lemma {:induction false} FinalIsCarried(t: Plan, first: Marks, processed: set<Node>, final: map<Node, set<Marks>>,
                                          n: Node, m: Marks)
    requires PlanOk(t) && FinalOk(t, first, processed, final) && n in final && m in final[n]
    ensures Carried(t, first, n, m)
  {
    hide PlanOk, FinalOk, Trail, Along, Descends, Into;
    var rank := RankOfPlan(t);
    FinalKeys(t, first, processed, final);
    InRank(t, rank, n);
    var path := FinalHasTrail(t, first, processed, final, rank, n, m);
  }

  lemma RankOfPlan(t: Plan) returns (rank: map<Node, nat>)
    requires PlanOk(t)
    ensures Descends(t.g, t.forward, rank)
  {
    rank :| Descends(t.g, t.forward, rank);
  }

  lemma InRank(t: Plan, rank: map<Node, nat>, n: Node)
    requires PlanOk(t) && Descends(t.g, t.forward, rank) && n in t.nodes
    ensures n in rank || n == t.start
  {
    if n != t.start {
      assert Into(t, n) != {};
      var a :| a in Into(t, n);
    }
  }

  // ---- what one node adds ------------------------------------------------------------------------

  ghost predicate Holds(markings: map<Node, seq<Marks>>, n: Node, m: Marks) {
    n in markings && m in markings[n]
  }

  /** What marking `m` sends along the first `i` arcs of a node, to targets that are still counted down. */
  ghost function SentBy(t: Plan, node: Node, indegree: map<Node, int>, m: Marks, i: nat): set<(Node, Marks)>
    requires node in t.g && i <= |t.g[node]| && (forall n :: n in t.g[node] ==> n in indegree)
  {
    if i == 0 then {}
    else
      var n := t.g[node][i - 1];
      SentBy(t, node, indegree, m, i - 1) + if indegree[n] > 0 then {(n, Advance(t, m, ArcId(node, i - 1)))} else {}
  }

  ghost function SentByAll(t: Plan, node: Node, indegree: map<Node, int>, ms: seq<Marks>): set<(Node, Marks)>
    requires node in t.g && (forall n :: n in t.g[node] ==> n in indegree)
  {
    if ms == [] then {}
    else SentByAll(t, node, indegree, ms[..|ms| - 1]) + SentBy(t, node, indegree, ms[|ms| - 1], |t.g[node]|)
  }

  ghost predicate SendsTo(t: Plan, node: Node, indegree: map<Node, int>, m: Marks, i: nat, n: Node, x: Marks)
    requires node in t.g && i <= |t.g[node]| && (forall n :: n in t.g[node] ==> n in indegree)
  {
    exists j: nat :: j < i && t.g[node][j] == n && indegree[n] > 0 && x == Advance(t, m, ArcId(node, j))
  }

  lemma {:induction false} SentByMeans(t: Plan, node: Node, indegree: map<Node, int>, m: Marks, i: nat, n: Node,
                                       x: Marks)
    requires node in t.g && i <= |t.g[node]| && (forall n :: n in t.g[node] ==> n in indegree)
    ensures (n, x) in SentBy(t, node, indegree, m, i) <==> SendsTo(t, node, indegree, m, i, n, x)
  {
    hide Advance;
    if i > 0 {
      SentByMeans(t, node, indegree, m, i - 1, n, x);
    }
  }

  lemma {:induction false} SentByAllMeans(t: Plan, node: Node, indegree: map<Node, int>, ms: seq<Marks>, n: Node,
                                          x: Marks)
    requires node in t.g && (forall n :: n in t.g[node] ==> n in indegree)
    ensures (n, x) in SentByAll(t, node, indegree, ms)
            <==> exists m :: m in ms && SendsTo(t, node, indegree, m, |t.g[node]|, n, x)
  {
    hide Advance, SendsTo;
    if ms != [] {
      var last, rest := ms[|ms| - 1], ms[..|ms| - 1];
      SentByAllMeans(t, node, indegree, rest, n, x);
      SentByMeans(t, node, indegree, last, |t.g[node]|, n, x);
      assert ms == rest + [last];
      assert last in ms;
    }
  }

  /** Each marking was compared with those before it. */
  ghost predicate Apart(t: Plan, ms: seq<Marks>) {
    forall j, k :: 0 <= j < k < |ms| ==> ms[j] != ms[k] && t.covers(ms[k], ms[j]) == Differs
  }

  ghost predicate AllApart(t: Plan, markings: map<Node, seq<Marks>>) {
    forall n :: n in markings ==> Apart(t, markings[n])
  }

  ghost predicate HoldsFor(t: Plan, markings: map<Node, seq<Marks>>, n: Node, m: Marks) {
    exists x :: Holds(markings, n, x) && Represents(t, x, m)
  }

  /** `after` holds what `before` holds, and what is sent unless it is dropped. */
  ghost predicate HoldsMore(t: Plan, before: map<Node, seq<Marks>>, after: map<Node, seq<Marks>>,
                            sent: set<(Node, Marks)>) {
    && (forall n: Node, x :: Holds(after, n, x) ==> Holds(before, n, x) || (n, x) in sent)
    && (forall n: Node, x :: Holds(before, n, x) ==> Holds(after, n, x))
    && (forall n: Node, x :: (n, x) in sent ==> HoldsFor(t, after, n, x))
    && (AllApart(t, before) ==> AllApart(t, after))
  }

  lemma {:induction false} HoldsMoreTwice(t: Plan, m0: map<Node, seq<Marks>>, m1: map<Node, seq<Marks>>,
                                          m2: map<Node, seq<Marks>>, s1: set<(Node, Marks)>, s2: set<(Node, Marks)>)
    requires HoldsMore(t, m0, m1, s1) && HoldsMore(t, m1, m2, s2)
    ensures HoldsMore(t, m0, m2, s1 + s2)
  {
    hide Holds, Represents, AllApart;
    forall n: Node, x | (n, x) in s1 + s2 ensures HoldsFor(t, m2, n, x) {
      if (n, x) in s1 {
        var y :| Holds(m1, n, y) && Represents(t, y, x);
        assert Holds(m2, n, y);
      }
    }
  }

  /** All that the markings of a node depend on when none of its arcs can be taken. */
  ghost function DeadlockMarks(g: Graph, events: map<ArcId, seq<Event>>, m: Marks, n: Node): set<Mark>
    requires n in g && ArcsOk(g, events, m, n)
  {
    if |g[n]| <= 1 then m.terminate.Keys else UnionOfArcs(g, events, m, n, |g[n]|)
  }

  ghost function UnionOfArcs(g: Graph, events: map<ArcId, seq<Event>>, m: Marks, n: Node, i: nat): set<Mark>
    requires n in g && ArcsOk(g, events, m, n) && i <= |g[n]| && |g[n]| > 1
  {
    if i == 0 then {} else UnionOfArcs(g, events, m, n, i - 1) + ArcMarks(g, events, m, ArcId(n, i - 1))
  }

  /** Mark `k` is one that the first event of the arc depends on. */
  ghost predicate BlocksArc(g: Graph, events: map<ArcId, seq<Event>>, m: Marks, a: ArcId, k: Mark)
    requires IsArc(g, a) && ArcOk(g, events, m, a) && |g[a.node]| > 1
  {
    k in EventMarks(m, events[a][0])
  }

  /** At a final node each mark with a wait set blocks, at a branching what the first event of some arc depends on. */
  ghost predicate Blocks(g: Graph, events: map<ArcId, seq<Event>>, m: Marks, n: Node, k: Mark)
    requires n in g && ArcsOk(g, events, m, n)
  {
    if |g[n]| <= 1 then k in m.terminate
    else exists i: nat :: i < |g[n]| && ArcOk(g, events, m, ArcId(n, i)) && BlocksArc(g, events, m, ArcId(n, i), k)
  }

  lemma {:induction false} DeadlockMarksAre(g: Graph, events: map<ArcId, seq<Event>>, m: Marks, n: Node)
    requires n in g && ArcsOk(g, events, m, n)
    ensures forall k :: k in DeadlockMarks(g, events, m, n) <==> Blocks(g, events, m, n, k)
  {
    hide ArcOk;
    if |g[n]| > 1 {
      forall k ensures k in DeadlockMarks(g, events, m, n) <==> Blocks(g, events, m, n, k) {
        UnionHas(g, events, m, n, |g[n]|, k);
      }
    }
  }

  lemma {:induction false} UnionHas(g: Graph, events: map<ArcId, seq<Event>>, m: Marks, n: Node, i: nat, k: Mark)
    requires n in g && ArcsOk(g, events, m, n) && i <= |g[n]| && |g[n]| > 1
    ensures k in UnionOfArcs(g, events, m, n, i) <==>
            exists j: nat :: j < i && ArcOk(g, events, m, ArcId(n, j)) && BlocksArc(g, events, m, ArcId(n, j), k)
  {
    hide ArcOk;
    if i > 0 {
      UnionHas(g, events, m, n, i - 1, k);
      assert ArcOk(g, events, m, ArcId(n, i - 1));
      FirstEvent(g, events, m, ArcId(n, i - 1));
    }
  }

  // ---- one node of the walk ----------------------------------------------------------------------

  ghost function ArcsUpTo(g: Graph, n: Node, i: nat): set<ArcId>
    requires n in g && i <= |g[n]|
  {
    set j: nat | j < i :: ArcId(n, j)
  }

  /** The waiting markings: those that came to unprocessed nodes over processed arcs, unless they were dropped. */
  ghost predicate MarksOk(t: Plan, first: Marks, processed: set<Node>, done: set<ArcId>, final: map<Node, set<Marks>>,
                          markings: map<Node, seq<Marks>>) {
    && (forall n :: n in markings ==> n in t.nodes && n !in processed)
    && (forall x :: t.start !in processed ==> (Holds(markings, t.start, x) <==> x == first))
    && (forall n, x :: Counted(t, n) && n !in processed && Holds(markings, n, x) ==> Arrives(t, done, final, n, x))
    && (forall n, x :: Counted(t, n) && n !in processed && Arrives(t, done, final, n, x) ==>
          HoldsFor(t, markings, n, x))
    && AllApart(t, markings)
  }

  lemma QueuePop(t: Plan, processed: set<Node>, queue: seq<Node>, done: set<ArcId>)
    requires QueueOk(t, processed, queue, done) && queue != []
    ensures QueueOk(t, processed + {queue[|queue| - 1]}, queue[..|queue| - 1], done)
    ensures queue[|queue| - 1] in t.nodes && queue[|queue| - 1] !in processed && Ready(t, done, queue[|queue| - 1])
  {
    var last, rest := queue[|queue| - 1], queue[..|queue| - 1];
    assert queue == rest + [last];
    assert forall n :: n in queue <==> n in rest || n == last;
  }

  lemma {:induction false} QueueStep(t: Plan, processed: set<Node>, queue: seq<Node>, done: set<ArcId>, a: ArcId)
    requires PlanOk(t) && QueueOk(t, processed, queue, done) && IsArc(t.g, a) && a !in done
    ensures QueueOk(t, processed, if a in t.forward && Pending(t, done + {a}, Target(t.g, a)) == {} then queue
                    + [Target(t.g, a)] else queue, done + {a})
  {
    hide Pending, Into, Acyclic, Connected;
    var target := Target(t.g, a);
    forall m ensures a in t.forward && m == target ==> a in Pending(t, done, m)
      ensures Pending(t, done + {a}, m) == if a in t.forward && m == target then Pending(t, done, m) - {a}
              else Pending(t, done, m)
    {
      PendingAfter(t, done, a, m);
    }
    assert forall n :: n in queue + [target] <==> n in queue || n == target;
  }

  /** A cycle arc out of a ready node leads to a node that waits for nothing. */
  lemma CycleArcTarget(t: Plan, processed: set<Node>, queue: seq<Node>, done: set<ArcId>, a: ArcId)
    requires PlanOk(t) && QueueOk(t, processed, queue, done) && DoneOk(t, processed, done)
    requires IsArc(t.g, a) && a.node in t.nodes && a !in t.forward && Counted(t, Target(t.g, a))
             && Ready(t, done, a.node)
    ensures Pending(t, done, Target(t.g, a)) == {}
  {
    assert Connected(t.g, t.forward, Target(t.g, a), a.node);
    var p :| IsPath(t.g, t.forward, p) && p[0] == Target(t.g, a) && p[|p| - 1] == a.node;
    AncestorsReady(t, processed, queue, done, p);
  }

  lemma DoneStep(t: Plan, processed: set<Node>, done: set<ArcId>, n: Node)
    requires DoneOk(t, processed, done) && n in t.g
    ensures DoneOk(t, processed + {n}, done + ArcsUpTo(t.g, n, |t.g[n]|))
  {
    forall a | IsArc(t.g, a) && a.node == n ensures a in ArcsUpTo(t.g, n, |t.g[n]|) {
      assert a == ArcId(n, a.index);
    }
  }

  lemma {:induction false} ReadyHasMarkings(t: Plan, first: Marks, processed: set<Node>, done: set<ArcId>,
                                            final: map<Node, set<Marks>>, markings: map<Node, seq<Marks>>, n: Node)
    requires PlanOk(t) && DoneOk(t, processed, done) && FinalOk(t, first, processed, final)
    requires MarksOk(t, first, processed, done, final, markings)
    requires n in t.nodes && n !in processed && Ready(t, done, n)
    ensures n in markings && markings[n] != []
  {
    hide Advance;
    if n == t.start {
      assert Holds(markings, n, first);
    } else {
      assert Into(t, n) != {};
      var a :| a in Into(t, n);
      assert a !in Pending(t, done, n);
      assert a.node in final && final[a.node] != {};
      var x :| x in final[a.node];
      assert SentAlong(t, final, a, Advance(t, x, a));
      assert Arrives(t, done, final, n, Advance(t, x, a));
      assert HoldsFor(t, markings, n, Advance(t, x, a));
    }
  }

  ghost function AsSet(ms: seq<Marks>): set<Marks> {
    set m | m in ms
  }

  lemma {:induction false} ArrivesSame(t: Plan, d1: set<ArcId>, d2: set<ArcId>, f1: map<Node, set<Marks>>,
                                       f2: map<Node, set<Marks>>, n: Node, x: Marks)
    requires forall a :: a in Into(t, n) ==> (a in d1 <==> a in d2)
    requires forall a :: a in Into(t, n) && a in d1 ==>
        (a.node in f1 <==> a.node in f2) && (a.node in f1 ==> f1[a.node] == f2[a.node])
    ensures Arrives(t, d1, f1, n, x) <==> Arrives(t, d2, f2, n, x)
  {
    hide Advance;
    if Arrives(t, d1, f1, n, x) {
      var a :| a in Into(t, n) && a in d1 && SentAlong(t, f1, a, x);
      assert SentAlong(t, f2, a, x);
    }
    if Arrives(t, d2, f2, n, x) {
      var a :| a in Into(t, n) && a in d2 && SentAlong(t, f2, a, x);
      assert SentAlong(t, f1, a, x);
    }
  }

  /** The markings of a ready node are those that come to it over all its arcs. */
  lemma {:induction false} FinalStep(t: Plan, first: Marks, processed: set<Node>, done: set<ArcId>,
                                     final: map<Node, set<Marks>>, markings: map<Node, seq<Marks>>, n: Node)
    requires PlanOk(t) && DoneOk(t, processed, done) && FinalOk(t, first, processed, final)
    requires MarksOk(t, first, processed, done, final, markings)
    requires n in t.nodes && n !in processed && Ready(t, done, n) && n in markings && markings[n] != []
    ensures FinalOk(t, first, processed + {n}, final[n := AsSet(markings[n])])
  {
    hide PlanOk, Arrives, SentAlong, Into, Pending, KeptFor, HoldsFor, Tested, Apart;
    var final' := final[n := AsSet(markings[n])];
    assert AsSet(markings[n]) != {} by {
      assert markings[n][0] in AsSet(markings[n]);
    }
    assert forall x :: x in final'[n] <==> Holds(markings, n, x);
    ApartIsTested(t, markings[n]);
    assert n == t.start ==> final'[n] == {first};
    NothingIntoStart(t);
    forall a | n != t.start && a in Into(t, n) ensures a in done && a.node in processed && a in t.forward {
      IntoReady(t, done, n, a);
    }
    forall k, x | k in final' && k != t.start
      ensures x in final'[k] ==> Arrives(t, t.forward, final', k, x)
      ensures Arrives(t, t.forward, final', k, x) ==> KeptFor(t, final'[k], x)
    {
      if k == n {
        ArrivesSame(t, done, t.forward, final, final', k, x);
        if HoldsFor(t, markings, n, x) {
          KeptIfHeld(t, markings, n, x);
        }
      } else {
        ArrivesSame(t, t.forward, t.forward, final, final', k, x);
      }
    }
  }

  lemma ApartIsTested(t: Plan, ms: seq<Marks>)
    requires Apart(t, ms)
    ensures Tested(t, AsSet(ms))
  {
    forall x, y | x in AsSet(ms) && y in AsSet(ms) && x != y
      ensures t.covers(x, y) == Differs || t.covers(y, x) == Differs
    {
      var j :| 0 <= j < |ms| && ms[j] == x;
      var k :| 0 <= k < |ms| && ms[k] == y;
    }
  }

  lemma KeptIfHeld(t: Plan, markings: map<Node, seq<Marks>>, n: Node, m: Marks)
    requires HoldsFor(t, markings, n, m) && n in markings
    ensures KeptFor(t, AsSet(markings[n]), m)
  {
    var x :| Holds(markings, n, x) && Represents(t, x, m);
    assert x in AsSet(markings[n]);
  }

  lemma NothingIntoStart(t: Plan)
    requires PlanOk(t)
    ensures Into(t, t.start) == {}
  {
    forall a | a in Into(t, t.start) ensures false {
      PlanSources(t, a);
    }
  }

  lemma IntoReady(t: Plan, done: set<ArcId>, n: Node, a: ArcId)
    requires Ready(t, done, n) && n != t.start && a in Into(t, n)
    ensures a in done && a in t.forward
  {
    assert a !in Pending(t, done, n);
  }

  /** Taking the markings of a ready node out of the table. */
  lemma {:induction false} TakenOut(t: Plan, first: Marks, processed: set<Node>, done: set<ArcId>,
                                    final: map<Node, set<Marks>>, markings: map<Node, seq<Marks>>, n: Node)
    requires DoneOk(t, processed, done) && final.Keys == processed
    requires MarksOk(t, first, processed, done, final, markings)
    requires n in t.nodes && n !in processed && n in markings
    ensures MarksOk(t, first, processed + {n}, done, final[n := AsSet(markings[n])], markings - {n})
  {
    hide Arrives, Into;
    var final' := final[n := AsSet(markings[n])];
    forall k, x | Counted(t, k) && k !in processed + {n}
      ensures Holds(markings - {n}, k, x) ==> Arrives(t, done, final', k, x)
      ensures Arrives(t, done, final', k, x) ==> HoldsFor(t, markings - {n}, k, x)
    {
      ArrivesSame(t, done, done, final, final', k, x);
      if Arrives(t, done, final', k, x) {
        var y :| Holds(markings, k, y) && Represents(t, y, x);
        assert Holds(markings - {n}, k, y);
      }
    }
    forall x ensures Holds(markings - {n}, t.start, x) <==> n != t.start && Holds(markings, t.start, x) {
    }
  }

  /** What a node sends comes over its arcs. */
  lemma {:induction false} SentArrives(t: Plan, done: set<ArcId>, final: map<Node, set<Marks>>,
                                       indegree: map<Node, int>, ms: seq<Marks>, n: Node, k: Node, x: Marks)
    requires n in t.g && n in final && final[n] == AsSet(ms) && (forall m :: m in t.g[n] ==> m in indegree)
    requires forall i: nat :: i < |t.g[n]| ==> (indegree[t.g[n][i]] > 0 <==> ArcId(n, i) in t.forward)
    ensures Arrives(t, done + ArcsUpTo(t.g, n, |t.g[n]|), final, k, x) <==>
      Arrives(t, done, final, k, x) || Arrives(t, ArcsUpTo(t.g, n, |t.g[n]|), final, k, x)
    ensures Arrives(t, ArcsUpTo(t.g, n, |t.g[n]|), final, k, x) <==> (k, x) in SentByAll(t, n, indegree, ms)
  {
    hide Advance;
    SentByAllMeans(t, n, indegree, ms, k, x);
    if (k, x) in SentByAll(t, n, indegree, ms) {
      var m :| m in ms && SendsTo(t, n, indegree, m, |t.g[n]|, k, x);
      var i: nat :| i < |t.g[n]| && t.g[n][i] == k && indegree[k] > 0 && x == Advance(t, m, ArcId(n, i));
      assert ArcId(n, i) in Into(t, k);
      assert SentAlong(t, final, ArcId(n, i), x);
    }
    if Arrives(t, ArcsUpTo(t.g, n, |t.g[n]|), final, k, x) {
      var a :| a in Into(t, k) && a in ArcsUpTo(t.g, n, |t.g[n]|) && SentAlong(t, final, a, x);
      var m :| m in final[n] && Advance(t, m, a) == x;
      assert SendsTo(t, n, indegree, m, |t.g[n]|, k, x);
    }
  }

  lemma {:induction false} MarksSent(t: Plan, first: Marks, processed: set<Node>, done: set<ArcId>,
                                     final: map<Node, set<Marks>>, before: map<Node, seq<Marks>>,
                                     after: map<Node, seq<Marks>>, indegree: map<Node, int>, ms: seq<Marks>, n: Node)
    requires MarksOk(t, first, processed, done, final, before) && n in t.g && n in final && final[n] == AsSet(ms)
    requires t.start in processed
    requires forall m :: m in t.g[n] ==> m in indegree
    requires forall i: nat :: i < |t.g[n]| ==> (indegree[t.g[n][i]] > 0 <==> ArcId(n, i) in t.forward)
    requires forall i: nat :: i < |t.g[n]| && ArcId(n, i) in t.forward ==>
        Counted(t, t.g[n][i]) && t.g[n][i] !in processed
    requires HoldsMore(t, before, after, SentByAll(t, n, indegree, ms))
    requires forall k :: k in after ==> k in before || (k in t.g[n] && indegree[k] > 0)
    ensures MarksOk(t, first, processed, done + ArcsUpTo(t.g, n, |t.g[n]|), final, after)
  {
    hide Arrives, SentByAll, ArcsUpTo;
    var more := done + ArcsUpTo(t.g, n, |t.g[n]|);
    forall k, x | Counted(t, k) && k !in processed
      ensures Holds(after, k, x) ==> Arrives(t, more, final, k, x)
      ensures Arrives(t, more, final, k, x) ==> HoldsFor(t, after, k, x)
    {
      SentArrives(t, done, final, indegree, ms, n, k, x);
      if Arrives(t, done, final, k, x) {
        var y :| Holds(before, k, y) && Represents(t, y, x);
        assert Holds(after, k, y);
      }
    }
    forall k | k in after ensures k in t.nodes && k !in processed {
      if k !in before {
        var i :| 0 <= i < |t.g[n]| && t.g[n][i] == k;
        assert ArcId(n, i) in t.forward;
      }
    }
  }

  // ---- what the walk keeps -----------------------------------------------------------------------

  /** Every node comes after the sources of the arcs into it. */
  ghost predicate OrderOk(t: Plan, order: seq<Node>, processed: set<Node>) {
    && (forall n :: n in processed <==> n in order)
    && (forall j, k :: 0 <= j < k < |order| ==> order[j] != order[k])
    && (forall k, a :: 0 <= k < |order| && a in Into(t, order[k]) ==> a.node in order[..k])
  }

  ghost predicate WalkOk(t: Plan, first: Marks, order: seq<Node>, processed: set<Node>, done: set<ArcId>,
                         final: map<Node, set<Marks>>, markings: map<Node, seq<Marks>>, queue: seq<Node>,
                         indegree: map<Node, int>) {
    && CountOk(t, done, indegree) && QueueOk(t, processed, queue, done) && DoneOk(t, processed, done)
    && FinalOk(t, first, processed, final) && MarksOk(t, first, processed, done, final, markings)
    && OrderOk(t, order, processed)
    && (t.start in processed || queue == [t.start])
  }

  /** The same, with node `n` off the queue and its markings out of the table. */
  ghost predicate TakenOk(t: Plan, first: Marks, order: seq<Node>, processed: set<Node>, done: set<ArcId>,
                          final: map<Node, set<Marks>>, markings: map<Node, seq<Marks>>, queue: seq<Node>,
                          indegree: map<Node, int>, n: Node, ms: seq<Marks>) {
    && n in processed && n in t.g && n in final && final[n] == AsSet(ms)
    && CountOk(t, done, indegree) && QueueOk(t, processed, queue, done) && DoneOk(t, processed - {n}, done)
    && FinalOk(t, first, processed, final) && MarksOk(t, first, processed, done, final, markings)
    && OrderOk(t, order, processed)
    && t.start in processed
    && (forall i: nat :: i < |t.g[n]| ==> OutOk(t, processed, done, indegree, ArcId(n, i)))
  }

  /** The targets of the arcs out of a node that is being processed. */
  ghost predicate OutOk(t: Plan, processed: set<Node>, done: set<ArcId>, indegree: map<Node, int>, a: ArcId) {
    && IsArc(t.g, a) && a !in done && Target(t.g, a) in indegree
    && (indegree[Target(t.g, a)] > 0 <==> a in t.forward)
    && (a in t.forward ==> Counted(t, Target(t.g, a)) && Target(t.g, a) !in processed)
    && (a !in t.forward && Counted(t, Target(t.g, a)) ==> Pending(t, done, Target(t.g, a)) == {})
  }

  lemma {:induction false} OutArcs(t: Plan, processed: set<Node>, queue: seq<Node>, done: set<ArcId>,
                                   indegree: map<Node, int>, a: ArcId)
    requires PlanOk(t) && CountOk(t, done, indegree) && QueueOk(t, processed, queue, done) && DoneOk(t, processed, done)
    requires IsArc(t.g, a) && a.node in t.nodes && a.node !in processed && Ready(t, done, a.node)
    ensures OutOk(t, processed + {a.node}, done, indegree, a)
  {
    hide Acyclic, Connected, Into;
    if a in t.forward {
      PendingAfter(t, done, a, Target(t.g, a));
      assert Target(t.g, a) != a.node;
    } else if Counted(t, Target(t.g, a)) {
      CycleArcTarget(t, processed, queue, done, a);
    }
    CountDown(t, done, indegree, a);
  }

  lemma {:induction false} Taken(t: Plan, first: Marks, order: seq<Node>, processed: set<Node>, done: set<ArcId>,
                                 final: map<Node, set<Marks>>, markings: map<Node, seq<Marks>>, queue: seq<Node>,
                                 indegree: map<Node, int>)
    requires PlanOk(t) && WalkOk(t, first, order, processed, done, final, markings, queue, indegree) && queue != []
    ensures var n := queue[|queue| - 1];
            && n in markings
            && TakenOk(t, first, order + [n], processed + {n}, done, final[n := AsSet(markings[n])], markings - {n},
                       queue[..|queue| - 1], indegree, n, markings[n])
  {
    hide PlanOk, CountOk, QueueOk, FinalOk, MarksOk, OrderOk, OutOk;
    var n := queue[|queue| - 1];
    QueuePop(t, processed, queue, done);
    ReadyHasMarkings(t, first, processed, done, final, markings, n);
    FinalStep(t, first, processed, done, final, markings, n);
    FinalKeys(t, first, processed, final);
    TakenOut(t, first, processed, done, final, markings, n);
    OrderStep(t, order, processed, done, n);
    assert processed + {n} - {n} == processed;
    NodesInGraph(t, n);
    forall i: nat | i < |t.g[n]| ensures OutOk(t, processed + {n}, done, indegree, ArcId(n, i)) {
      OutArcs(t, processed, queue, done, indegree, ArcId(n, i));
    }
  }

  lemma FinalKeys(t: Plan, first: Marks, processed: set<Node>, final: map<Node, set<Marks>>)
    requires FinalOk(t, first, processed, final)
    ensures final.Keys == processed <= t.nodes
  {
  }

  lemma NodesInGraph(t: Plan, n: Node)
    requires PlanOk(t) && n in t.nodes
    ensures n in t.g
  {
  }

  lemma {:induction false} OrderStep(t: Plan, order: seq<Node>, processed: set<Node>, done: set<ArcId>, n: Node)
    requires PlanOk(t) && OrderOk(t, order, processed) && DoneOk(t, processed, done) && n !in processed
             && Ready(t, done, n)
    ensures OrderOk(t, order + [n], processed + {n})
  {
    hide PlanOk, Pending, Into;
    var longer := order + [n];
    forall k, a | 0 <= k < |longer| && a in Into(t, longer[k]) ensures a.node in longer[..k] {
      assert longer[..|order|] == order;
      if k < |order| {
        assert longer[..k] == order[..k];
      } else {
        NothingIntoStart(t);
        IntoReady(t, done, n, a);
      }
    }
  }

  lemma {:induction false} Sent(t: Plan, first: Marks, order: seq<Node>, processed: set<Node>, done: set<ArcId>,
                                final: map<Node, set<Marks>>, markings: map<Node, seq<Marks>>, queue: seq<Node>,
                                indegree: map<Node, int>, n: Node, ms: seq<Marks>, markings': map<Node, seq<Marks>>,
                                queue': seq<Node>, indegree': map<Node, int>)
    requires PlanOk(t) && TakenOk(t, first, order, processed, done, final, markings, queue, indegree, n, ms)
    requires forall m :: m in t.g[n] ==> m in indegree
    requires HoldsMore(t, markings, markings', SentByAll(t, n, indegree, ms))
    requires forall k :: k in markings' ==> k in markings || (k in t.g[n] && indegree[k] > 0)
    requires CountOk(t, done + ArcsUpTo(t.g, n, |t.g[n]|), indegree')
    requires QueueOk(t, processed, queue', done + ArcsUpTo(t.g, n, |t.g[n]|))
    ensures WalkOk(t, first, order, processed, done + ArcsUpTo(t.g, n, |t.g[n]|), final, markings', queue', indegree')
  {
    hide PlanOk, CountOk, QueueOk, FinalOk, MarksOk, OrderOk, ArcsUpTo, SentByAll, HoldsMore, Pending;
    assert processed - {n} + {n} == processed;
    DoneStep(t, processed - {n}, done, n);
    forall i: nat | i < |t.g[n]|
      ensures indegree[t.g[n][i]] > 0 <==> ArcId(n, i) in t.forward
      ensures ArcId(n, i) in t.forward ==> Counted(t, t.g[n][i]) && t.g[n][i] !in processed
    {
      assert OutOk(t, processed, done, indegree, ArcId(n, i));
    }
    MarksSent(t, first, processed, done, final, markings, markings', indegree, ms, n);
  }

  lemma {:induction false} NothingSent(t: Plan, node: Node, indegree: map<Node, int>, ms: seq<Marks>)
    requires node in t.g && t.g[node] == []
    ensures SentByAll(t, node, indegree, ms) == {}
  {
    if ms != [] {
      NothingSent(t, node, indegree, ms[..|ms| - 1]);
    }
  }

  ghost function InitialMarks(processCount: nat): (m: Marks)
    ensures |m.process| == processCount && Inv(m)
  {
    Marks(seq(processCount, _ => {}), map[], map[], map[], map[], [])
  }

  /** Along every way that closes no cycle the events can happen under the marking that the way leads to. */
  ghost predicate EventsOk(t: Plan, first: Marks) {
    t.nodes <= t.g.Keys && forall n, m :: n in t.nodes && Carried(t, first, n, m) ==> ArcsOk(t.g, t.events, m, n)
  }

  ghost predicate Deadlock(t: Plan, first: Marks, n: Node, m: Marks) {
    n in t.nodes && n in t.g && Carried(t, first, n, m) && ArcsOk(t.g, t.events, m, n) && Stuck(t.g, t.events, m, n)
  }

  ghost predicate NoneStuck(t: Plan, processed: set<Node>, final: map<Node, set<Marks>>) {
    forall n, m :: n in processed && n in final && m in final[n]
          ==> n in t.g && ArcsOk(t.g, t.events, m, n) && !Stuck(t.g, t.events, m, n)
  }

  lemma {:induction false} WalkStarts(t: Plan, processCount: nat, indegree: map<Node, int>)
    requires PlanOk(t) && CountsInjected(t, indegree)
    ensures WalkOk(t, InitialMarks(processCount), [], {}, {}, map[], map[t.start := [InitialMarks(processCount)]],
                   [t.start], indegree)
  {
    hide PlanOk, CountOk, QueueOk, CountsInjected, Into;
    CountStart(t, indegree);
    forall n, x | Counted(t, n) ensures !Arrives(t, {}, map[], n, x) {
    }
  }

  /** The events can happen under every marking a node is processed with. */
  lemma {:induction false} FinalEventsOk(t: Plan, first: Marks, processed: set<Node>, final: map<Node, set<Marks>>,
                                         n: Node, m: Marks)
    requires PlanOk(t) && EventsOk(t, first) && FinalOk(t, first, processed, final) && n in final && m in final[n]
    ensures n in t.nodes && n in t.g && ArcsOk(t.g, t.events, m, n) && Carried(t, first, n, m)
  {
    hide PlanOk, Carried, ArcsOk;
    FinalIsCarried(t, first, processed, final, n, m);
  }

  // ---- what is compared ----------------------------------------------------------------------------

  ghost function CoveringTest(pid: Mark -> nat): Covering {
    (m, x) => Answered(m, x, pid)
  }

  /** The markings that ways carry to a node are ones that come about, and are about one state of the program. */
  ghost predicate StatesOk(t: Plan, first: Marks, pid: Mark -> nat) {
    && (forall n, m :: Carried(t, first, n, m) ==> MarkingOk(m, pid))
    && (forall n, m, x :: Carried(t, first, n, m) && Carried(t, first, n, x) ==> SameState(m, x, pid))
  }

  ghost predicate AllCarried(t: Plan, first: Marks, markings: map<Node, seq<Marks>>) {
    forall n: Node, x :: Holds(markings, n, x) ==> Carried(t, first, n, x)
  }

  /** Two markings come to a node and cannot be compared. */
  ghost predicate BreaksSomewhere(t: Plan, first: Marks) {
    exists n, m, x :: Carried(t, first, n, m) && Carried(t, first, n, x) && t.covers(m, x).Broken()
  }

  /** Comparing `m` with the markings of a list one after the other fails. */
  ghost predicate BreaksAmong(t: Plan, m: Marks, ms: seq<Marks>) {
    exists k :: 0 <= k < |ms| && t.covers(m, ms[k]).Broken() && forall j :: 0 <= j < k ==> t.covers(m, ms[j]) == Differs
  }

  lemma {:induction false} StillCarried(t: Plan, first: Marks, before: map<Node, seq<Marks>>,
                                        after: map<Node, seq<Marks>>, n: Node, m: Marks)
    requires AllCarried(t, first, before) && HoldsMore(t, before, after, {(n, m)}) && Carried(t, first, n, m)
    ensures AllCarried(t, first, after)
  {
    hide Carried, AllApart, Holds, HoldsFor;
    forall k: Node, x | Holds(after, k, x) ensures Carried(t, first, k, x) {
      assert Holds(before, k, x) || (k, x) in {(n, m)};
    }
  }

  // ---- markings that are dropped -------------------------------------------------------------------

  /** The same plan, started in node `n`. */
  ghost function From(t: Plan, n: Node): Plan {
    t.(start := n)
  }

  /** The way `path` takes marking `m` from the start of the plan to a deadlock. */
  ghost predicate Leads(t: Plan, m: Marks, path: seq<ArcId>, k: Node) {
    Trail(t, path, k) && Deadlock(t, m, k, Along(t, m, path))
  }

  /** Every way that leads from `m` to a deadlock leads from `x` to one. */
  ghost predicate SameFuture(t: Plan, n: Node, m: Marks, x: Marks) {
    forall path, k :: Leads(From(t, n), m, path, k) ==> Leads(From(t, n), x, path, k)
  }

  /** No deadlock is lost with a marking that is dropped. */
  ghost predicate LosesNothing(t: Plan, first: Marks) {
    forall n, m, x :: Carried(t, first, n, m) && Carried(t, first, n, x) && t.covers(m, x) == Covers ==>
      SameFuture(t, n, m, x)
  }

  /** A way that begins with arc `a`. */
  lemma {:induction false} TrailFront(t: Plan, m: Marks, a: ArcId, rest: seq<ArcId>, k: Node)
    requires Trail(t, [a] + rest, k)
    ensures a.node == t.start && a in t.forward && IsArc(t.g, a)
    ensures Trail(From(t, Target(t.g, a)), rest, k)
    ensures Along(t, m, [a] + rest) == Along(From(t, Target(t.g, a)), Advance(t, m, a), rest)
  {
    hide ArcOk, AfterRun, Before;
    var path := [a] + rest;
    if rest == [] {
      assert path[..|path| - 1] == [];
    } else {
      assert path[..|path| - 1] == [a] + rest[..|rest| - 1] && path[|path| - 1] == rest[|rest| - 1];
      TrailFront(t, m, a, rest[..|rest| - 1], rest[|rest| - 1].node);
    }
  }

  lemma {:induction false} LeadsOn(t: Plan, m: Marks, a: ArcId, rest: seq<ArcId>, k: Node)
    requires Leads(t, m, [a] + rest, k)
    ensures a.node == t.start && a in t.forward && IsArc(t.g, a)
    ensures Leads(From(t, Target(t.g, a)), Advance(t, m, a), rest, k)
  {
    hide Trail, Along, Advance, ArcsOk, Stuck;
    TrailFront(t, m, a, rest, k);
    assert Carried(From(t, Target(t.g, a)), Advance(t, m, a), k, Along(t, m, [a] + rest));
  }

  /** A deadlock that some way leads to is found, in a marking that stands for the one the way leads to. */
  lemma {:induction false} DeadlockIsFinal(t: Plan, first: Marks, processed: set<Node>, final: map<Node, set<Marks>>,
                                           n: Node, x: Marks, path: seq<ArcId>, k: Node)
    returns (y: Marks)
    requires PlanOk(t) && FinalOk(t, first, processed, final) && processed == t.nodes && LosesNothing(t, first)
    requires n in final && x in final[n] && Leads(From(t, n), x, path, k)
    ensures k in final && y in final[k] && k in t.g && ArcsOk(t.g, t.events, y, k) && Stuck(t.g, t.events, y, k)
    decreases |path|
  {
    hide PlanOk, FinalOk, Advance, ArcsOk, Stuck, LosesNothing, Arrives, Carried, Into, Leads, Represents;
    FinalKeys(t, first, processed, final);
    if path == [] {
      LeadsNowhere(From(t, n), x, k);
      y := x;
    } else {
      var a, rest := path[0], path[1..];
      assert path == [a] + rest;
      LeadsOn(From(t, n), x, a, rest, k);
      PlanSources(t, a);
      var n1, x1 := Target(t.g, a), Advance(t, x, a);
      SameAdvance(t, n, x, a);
      FinalArrives(t, final, a, x);
      FinalIsCarried(t, first, processed, final, n, x);
      CarriedOn(t, first, n, x, a);
      var x2 := KeptInFinal(t, first, processed, final, n1, x1);
      FinalIsCarried(t, first, processed, final, n1, x2);
      StandsFor(t, first, n1, x1, x2, rest, k);
      y := DeadlockIsFinal(t, first, processed, final, n1, x2, rest, k);
    }
  }

  lemma LeadsNowhere(t: Plan, m: Marks, k: Node)
    requires Leads(t, m, [], k)
    ensures k == t.start && k in t.g && ArcsOk(t.g, t.events, m, k) && Stuck(t.g, t.events, m, k)
  {
  }

  lemma SameAdvance(t: Plan, n: Node, m: Marks, a: ArcId)
    ensures Advance(From(t, n), m, a) == Advance(t, m, a)
    ensures forall k :: From(From(t, n), k) == From(t, k)
  {
  }

  lemma KeptInFinal(t: Plan, first: Marks, processed: set<Node>, final: map<Node, set<Marks>>, n: Node, m: Marks)
    returns (x: Marks)
    requires FinalOk(t, first, processed, final) && n in final && n != t.start && Arrives(t, t.forward, final, n, m)
    ensures x in final[n] && Represents(t, x, m)
  {
    assert KeptFor(t, final[n], m);
    x :| x in final[n] && Represents(t, x, m);
  }

  lemma {:induction false} FinalArrives(t: Plan, final: map<Node, set<Marks>>, a: ArcId, x: Marks)
    requires a in t.forward && IsArc(t.g, a) && a.node in final && x in final[a.node]
    ensures Arrives(t, t.forward, final, Target(t.g, a), Advance(t, x, a))
  {
    hide Advance;
    assert a in Into(t, Target(t.g, a));
    assert SentAlong(t, final, a, Advance(t, x, a));
  }

  lemma {:induction false} StandsFor(t: Plan, first: Marks, n: Node, m: Marks, x: Marks, path: seq<ArcId>, k: Node)
    requires LosesNothing(t, first) && Carried(t, first, n, m) && Carried(t, first, n, x) && Represents(t, x, m)
    requires Leads(From(t, n), m, path, k)
    ensures Leads(From(t, n), x, path, k)
  {
    hide Leads, Carried;
    if x != m {
      assert SameFuture(t, n, m, x);
    }
  }

  lemma {:induction false} WalkEnds(t: Plan, first: Marks, order: seq<Node>, processed: set<Node>, done: set<ArcId>,
                                    final: map<Node, set<Marks>>, markings: map<Node, seq<Marks>>,
                                    indegree: map<Node, int>)
    requires PlanOk(t) && EventsOk(t, first)
    requires WalkOk(t, first, order, processed, done, final, markings, [], indegree) && NoneStuck(t, processed, final)
    ensures processed == t.nodes && markings == map[] && OrderOk(t, order, t.nodes)
    ensures FinalOk(t, first, t.nodes, final)
    ensures LosesNothing(t, first) ==> forall n, m :: !Deadlock(t, first, n, m)
  {
    hide CountOk, ArcsOk, Stuck, Carried, OrderOk, LosesNothing;
    forall n | n in t.nodes ensures n in processed {
      var rank :| Descends(t.g, t.forward, rank);
      InRank(t, rank, n);
      AllProcessed(t, processed, done, rank, n);
    }
    assert processed == t.nodes;
    assert markings.Keys == {};
    if LosesNothing(t, first) {
      forall n, m ensures !Deadlock(t, first, n, m) {
        if Deadlock(t, first, n, m) {
          NoneIsLost(t, first, processed, final, n, m);
        }
      }
    }
  }

  lemma {:induction false} NoneIsLost(t: Plan, first: Marks, processed: set<Node>, final: map<Node, set<Marks>>,
                                      n: Node, m: Marks)
    requires PlanOk(t) && FinalOk(t, first, processed, final) && processed == t.nodes && LosesNothing(t, first)
    requires Deadlock(t, first, n, m)
    ensures !NoneStuck(t, processed, final)
  {
    hide PlanOk, ArcsOk, Stuck, LosesNothing, Trail, Along;
    assert From(t, t.start) == t;
    var path :| Trail(t, path, n) && Along(t, first, path) == m;
    assert Leads(From(t, t.start), first, path, n);
    assert t.start in final && first in final[t.start] by { StartInFinal(t, first, processed, final); }
    var y := DeadlockIsFinal(t, first, processed, final, t.start, first, path, n);
  }

  lemma StartInFinal(t: Plan, first: Marks, processed: set<Node>, final: map<Node, set<Marks>>)
    requires PlanOk(t) && FinalOk(t, first, processed, final) && processed == t.nodes
    ensures t.start in final && first in final[t.start]
  {
  }

  // ---- the walk on any graph ---------------------------------------------------------------------

  ghost predicate Planned(t: Plan, indegree: map<Node, int>) {
    PlanOk(t) && CountsInjected(t, indegree)
  }

  /** All ways through a graph, those that close cycles included. */
  ghost function AllWays(g: Graph, events: map<ArcId, seq<Event>>, start: Node, covers: Covering): Plan {
    Plan(g, events, set n, i | n in g && 0 <= i < |g[n]| :: ArcId(n, i), g.Keys, start, covers)
  }

  /** The nodes processed so far, in order and as a set, the arcs out of them, and the markings they were processed
      with. */
  datatype Walk = Walk(order: seq<Node>, processed: set<Node>, done: set<ArcId>, final: map<Node, set<Marks>>)

  /** On any graph: waiting markings were carried along some way, and every queued node has some. */
  ghost predicate Loose(t: Plan, first: Marks, markings: map<Node, seq<Marks>>, c: Counts) {
    && (forall n, m :: Holds(markings, n, m) ==> n in t.g && Carried(t, first, n, m))
    && (forall n :: n in c.queue ==> n in t.g && n in markings && markings[n] != [])
    && (c.queue == [t.start] || QueueSettled(c))
  }

  ghost predicate Keeps(t: Plan, first: Marks, planned: bool, w: Walk, markings: map<Node, seq<Marks>>, c: Counts) {
    && StateSpace.Closed(t.g) && EventsOk(t, first)
    && if planned then
         && PlanOk(t) && NoneStuck(t, w.processed, w.final)
         && WalkOk(t, first, w.order, w.processed, w.done, w.final, markings, c.queue, c.indegree)
       else t == AllWays(t.g, t.events, t.start, t.covers) && Loose(t, first, markings, c)
  }

  lemma {:induction false} KeepsStart(t: Plan, processCount: nat, c: Counts, planned: bool)
    requires planned == Planned(t, c.indegree) && (planned || t == AllWays(t.g, t.events, t.start, t.covers))
    requires StateSpace.Closed(t.g) && EventsOk(t, InitialMarks(processCount)) && c.queue == [t.start]
             && CountsIn(t.g, c)
    ensures Keeps(t, InitialMarks(processCount), planned, Walk([], {}, {}, map[]),
                  map[t.start := [InitialMarks(processCount)]], c)
  {
    hide PlanOk, CountsInjected, EventsOk, WalkOk, AllWays;
    if planned {
      WalkStarts(t, processCount, c.indegree);
      NothingStuck(t);
    } else {
      assert Trail(t, [], t.start) && Along(t, InitialMarks(processCount), []) == InitialMarks(processCount);
    }
  }

  lemma {:induction false} KeepsHead(t: Plan, first: Marks, planned: bool, w: Walk, markings: map<Node, seq<Marks>>,
                                     c: Counts)
    requires Keeps(t, first, planned, w, markings, c) && c.queue != []
    ensures var n := c.queue[|c.queue| - 1];
            && n in t.g && n in t.nodes && n in markings
            && forall m :: m in markings[n] ==> ArcsOk(t.g, t.events, m, n) && Carried(t, first, n, m)
  {
    hide PlanOk, CountOk, QueueOk, FinalOk, MarksOk, OrderOk, DoneOk, OutOk, ArcsOk, Carried, NoneStuck;
    var n := c.queue[|c.queue| - 1];
    if planned {
      Taken(t, first, w.order, w.processed, w.done, w.final, markings, c.queue, c.indegree);
      var final := w.final[n := AsSet(markings[n])];
      QueueHead(t, w.processed, c.queue, w.done);
      forall m | m in markings[n] ensures n in t.g && ArcsOk(t.g, t.events, m, n) && Carried(t, first, n, m) {
        FinalEventsOk(t, first, w.processed + {n}, final, n, m);
      }
    } else {
      assert n in c.queue;
      forall m | m in markings[n] ensures ArcsOk(t.g, t.events, m, n) && Carried(t, first, n, m) {
        assert Holds(markings, n, m);
      }
    }
  }

  /** Counting down along the first `i` arcs of a node that is being processed. */
  lemma {:induction false} LoweredOk(t: Plan, processed: set<Node>, done: set<ArcId>, n: Node, i: nat, c: Counts)
    requires PlanOk(t) && StateSpace.Closed(t.g) && CountsIn(t.g, c) && n in t.nodes && n in t.g && i <= |t.g[n]|
    requires CountOk(t, done, c.indegree) && QueueOk(t, processed, c.queue, done)
    requires forall j: nat :: j < |t.g[n]| ==> OutOk(t, processed, done, c.indegree, ArcId(n, j))
    ensures var r := LowerUpTo(t.g, n, i, c);
            CountOk(t, done + ArcsUpTo(t.g, n, i), r.indegree)
                  && QueueOk(t, processed, r.queue, done + ArcsUpTo(t.g, n, i))
    decreases i
  {
    hide PlanOk, CountOk, QueueOk, Pending, ToDo, CountsIn, OutOk;
    if i == 0 {
      assert done + ArcsUpTo(t.g, n, 0) == done;
    } else {
      LoweredOk(t, processed, done, n, i - 1, c);
      var before := LowerUpTo(t.g, n, i - 1, c);
      var a, d := ArcId(n, i - 1), done + ArcsUpTo(t.g, n, i - 1);
      assert OutOk(t, processed, done, c.indegree, a);
      OutMeans(t, processed, done, c.indegree, a);
      assert d + {a} == done + ArcsUpTo(t.g, n, i);
      assert t.g[n][i - 1] in t.g[n];
      PendingShrinks(t, done, d, Target(t.g, a));
      CountDown(t, d, before.indegree, a);
      QueueStep(t, processed, before.queue, d, a);
    }
  }

  /** A processed node on the way of a plan. */
  lemma {:induction false} PlannedNode(t: Plan, first: Marks, w: Walk, markings: map<Node, seq<Marks>>, c: Counts,
                                       markings': map<Node, seq<Marks>>)
    requires Keeps(t, first, true, w, markings, c) && CountsIn(t.g, c) && c.queue != []
    requires var n := c.queue[|c.queue| - 1]; n in markings && n in t.g && SentOn(t, n, markings, c.indegree, markings')
    ensures var n := c.queue[|c.queue| - 1];
            Keeps(t, first, true, Walk(w.order + [n], w.processed + {n}, w.done + ArcsUpTo(t.g, n, |t.g[n]|),
                                       w.final[n := AsSet(markings[n])]),
                  markings', AfterNode(t.g, c))
  {
    hide PlanOk, CountOk, QueueOk, FinalOk, MarksOk, OrderOk, DoneOk, OutOk, ArcsOk, ArcsUpTo, SentByAll, HoldsMore,
         NoneStuck, LowerUpTo, Stuck;
    var n := c.queue[|c.queue| - 1];
    var ms := markings[n];
    Taken(t, first, w.order, w.processed, w.done, w.final, markings, c.queue, c.indegree);
    QueueHead(t, w.processed, c.queue, w.done);
    var processed, final := w.processed + {n}, w.final[n := AsSet(ms)];
    var after := AfterNode(t.g, c);
    assert CountsIn(t.g, Rest(c)) by { RestIn(t.g, c); }
    LoweredOk(t, processed, w.done, n, |t.g[n]|, Rest(c));
    Sent(t, first, w.order + [n], processed, w.done, final, markings - {n}, c.queue[..|c.queue| - 1], c.indegree, n, ms,
         markings', after.queue, after.indegree);
    assert processed - {n} == w.processed;
    StillNoneStuck(t, processed, w.final, n, ms);
  }

  /** Node `n` was processed: its markings are off the table, none of them is stuck, and what they send has arrived. */
  ghost predicate SentOn(t: Plan, n: Node, markings: map<Node, seq<Marks>>, indegree: map<Node, int>,
                         markings': map<Node, seq<Marks>>)
    requires n in markings && n in t.g
  {
    && (forall k :: k in t.g[n] ==> k in indegree)
    && (forall m :: m in markings[n] ==> ArcsOk(t.g, t.events, m, n) && !Stuck(t.g, t.events, m, n))
    && HoldsMore(t, markings - {n}, markings', SentByAll(t, n, indegree, markings[n]))
    && (forall k :: k in markings' ==> k in markings - {n} || (k in t.g[n] && indegree[k] > 0))
  }

  /** A marking goes one arc further. */
  lemma {:induction false} CarriedOn(t: Plan, first: Marks, n: Node, m: Marks, a: ArcId)
    requires Carried(t, first, n, m) && a in t.forward && IsArc(t.g, a) && a.node == n
    ensures Carried(t, first, Target(t.g, a), Advance(t, m, a))
  {
    hide Advance;
    var path :| Trail(t, path, n) && Along(t, first, path) == m;
    assert (path + [a])[..|path|] == path;
    assert Trail(t, path + [a], Target(t.g, a)) && Along(t, first, path + [a]) == Advance(t, m, a);
  }

  /** A processed node on any graph. */
  lemma {:induction false} LooseNode(t: Plan, first: Marks, w: Walk, markings: map<Node, seq<Marks>>, c: Counts,
                                     markings': map<Node, seq<Marks>>)
    requires Keeps(t, first, false, w, markings, c) && CountsIn(t.g, c) && c.queue != []
    requires var n := c.queue[|c.queue| - 1]; n in markings && n in t.g && SentOn(t, n, markings, c.indegree, markings')
    ensures Loose(t, first, markings', AfterNode(t.g, c))
  {
    hide EventsOk, Carried, Holds, AllWays, SentOn, QueueSettled, CountsIn, AfterNode;
    var n := c.queue[|c.queue| - 1];
    AfterSettled(t.g, c, t.start);
    forall k, x | Holds(markings', k, x) ensures k in t.g && Carried(t, first, k, x) {
      LooseHolds(t, first, markings, c, n, markings', k, x);
    }
    forall k | k in AfterNode(t.g, c).queue ensures k in t.g && k in markings' && markings'[k] != [] {
      QueuedAfter(t.g, c, t.start, k);
      LooseQueued(t, markings, c, n, markings', k);
    }
  }

  lemma {:induction false} AfterSettled(g: Graph, c: Counts, start: Node)
    requires StateSpace.Closed(g) && CountsIn(g, c) && c.queue != [] && (c.queue == [start] || QueueSettled(c))
    ensures QueueSettled(AfterNode(g, c))
  {
    hide LowerUpTo;
    RestIn(g, c);
    assert c.queue == Rest(c).queue + [c.queue[|c.queue| - 1]];
    assert QueueSettled(Rest(c));
    LowerSettled(g, c.queue[|c.queue| - 1], |g[c.queue[|c.queue| - 1]]|, Rest(c));
  }

  /** A node in the queue was there before, or is the target of an arc. */
  lemma {:induction false} QueuedAfter(g: Graph, c: Counts, start: Node, k: Node)
    requires StateSpace.Closed(g) && CountsIn(g, c) && c.queue != [] && (c.queue == [start] || QueueSettled(c))
    requires k in AfterNode(g, c).queue
    ensures var n := c.queue[|c.queue| - 1];
            && n in g && k in g && k in c.indegree
            && ((k in c.queue && k != n) || (k in g[n] && c.indegree[k] > 0))
  {
    hide LowerUpTo;
    var n := c.queue[|c.queue| - 1];
    RestIn(g, c);
    assert c.queue == Rest(c).queue + [n];
    LowerMeans(g, n, |g[n]|, Rest(c), k);
  }

  lemma {:induction false} LooseHolds(t: Plan, first: Marks, markings: map<Node, seq<Marks>>, c: Counts, n: Node,
                                      markings': map<Node, seq<Marks>>, k: Node, x: Marks)
    requires t == AllWays(t.g, t.events, t.start, t.covers) && Loose(t, first, markings, c) && StateSpace.Closed(t.g)
             && n in markings && n in t.g
    requires SentOn(t, n, markings, c.indegree, markings') && Holds(markings', k, x)
    ensures k in t.g && Carried(t, first, k, x)
  {
    hide Advance, ArcsOk, Stuck, Carried, SentByAll, QueueSettled;
    if Holds(markings - {n}, k, x) {
      assert Holds(markings, k, x);
    } else {
      SentByAllMeans(t, n, c.indegree, markings[n], k, x);
      var m :| m in markings[n] && SendsTo(t, n, c.indegree, m, |t.g[n]|, k, x);
      var i: nat :| i < |t.g[n]| && t.g[n][i] == k && x == Advance(t, m, ArcId(n, i));
      assert Holds(markings, n, m);
      assert ArcId(n, i) in t.forward;
      CarriedOn(t, first, n, m, ArcId(n, i));
    }
  }

  lemma {:induction false} LooseQueued(t: Plan, markings: map<Node, seq<Marks>>, c: Counts, n: Node,
                                       markings': map<Node, seq<Marks>>, k: Node)
    requires n in markings && n in t.g && markings[n] != [] && SentOn(t, n, markings, c.indegree, markings')
             && k in t.g && k in c.indegree
    requires (k in markings - {n} && markings[k] != []) || (k in t.g[n] && c.indegree[k] > 0)
    ensures k in markings' && markings'[k] != []
  {
    hide Advance, ArcsOk, Stuck, SentByAll;
    if k in markings - {n} && markings[k] != [] {
      assert Holds(markings - {n}, k, markings[k][0]);
      assert Holds(markings', k, markings[k][0]);
    } else {
      var m := markings[n][0];
      var i :| 0 <= i < |t.g[n]| && t.g[n][i] == k;
      var x := Advance(t, m, ArcId(n, i));
      assert SendsTo(t, n, c.indegree, m, |t.g[n]|, k, x);
      SentByAllMeans(t, n, c.indegree, markings[n], k, x);
      var y :| Holds(markings', k, y) && Represents(t, y, x);
    }
  }

  lemma {:induction false} KeepsNode(t: Plan, first: Marks, planned: bool, w: Walk, markings: map<Node, seq<Marks>>,
                                     c: Counts, markings': map<Node, seq<Marks>>, c': Counts)
    requires Keeps(t, first, planned, w, markings, c) && CountsIn(t.g, c) && c.queue != [] && c' == AfterNode(t.g, c)
    requires var n := c.queue[|c.queue| - 1]; n in markings && n in t.g && SentOn(t, n, markings, c.indegree, markings')
    ensures var n := c.queue[|c.queue| - 1];
            Keeps(t, first, planned, Walk(w.order + [n], w.processed + {n}, w.done + ArcsUpTo(t.g, n, |t.g[n]|),
                                          w.final[n := AsSet(markings[n])]),
                  markings', c')
  {
    hide PlanOk, WalkOk, EventsOk, Loose, NoneStuck, SentOn, AfterNode, AllWays;
    if planned {
      PlannedNode(t, first, w, markings, c, markings');
    } else {
      LooseNode(t, first, w, markings, c, markings');
    }
  }

  lemma {:induction false} KeepsEnd(t: Plan, first: Marks, planned: bool, w: Walk, markings: map<Node, seq<Marks>>,
                                    c: Counts)
    requires Keeps(t, first, planned, w, markings, c) && c.queue == []
    ensures planned ==> markings == map[] && OrderOk(t, w.order, t.nodes) && FinalOk(t, first, t.nodes, w.final)
    ensures planned && LosesNothing(t, first) ==> forall n, m :: !Deadlock(t, first, n, m)
  {
    hide PlanOk, WalkOk, EventsOk, Loose, NoneStuck, Deadlock, OrderOk, LosesNothing, FinalOk;
    if planned {
      WalkEnds(t, first, w.order, w.processed, w.done, w.final, markings, c.indegree);
    }
  }

  /** Waiting markings were carried to their nodes. */
  lemma {:induction false} KeepsCarried(t: Plan, first: Marks, planned: bool, w: Walk, markings: map<Node, seq<Marks>>,
                                        c: Counts)
    requires Keeps(t, first, planned, w, markings, c)
    ensures AllCarried(t, first, markings)
  {
    hide Carried, CountOk, QueueOk, DoneOk, OrderOk, EventsOk, NoneStuck, AllWays, PlanOk, Arrives;
    forall n, x | Holds(markings, n, x) ensures Carried(t, first, n, x) {
      if planned {
        if n == t.start {
          assert x == first;
          StartIsCarried(t, first);
        } else {
          assert Counted(t, n);
          ArrivalIsCarried(t, first, w.processed, w.done, w.final, n, x);
        }
      }
    }
  }

  lemma StartIsCarried(t: Plan, first: Marks)
    ensures Carried(t, first, t.start, first)
  {
    assert Trail(t, [], t.start) && Along(t, first, []) == first;
  }

  lemma {:induction false} ArrivalIsCarried(t: Plan, first: Marks, processed: set<Node>, done: set<ArcId>,
                                            final: map<Node, set<Marks>>, n: Node, x: Marks)
    requires PlanOk(t) && FinalOk(t, first, processed, final) && Arrives(t, done, final, n, x)
    ensures Carried(t, first, n, x)
  {
    hide PlanOk, FinalOk, Advance, Carried;
    var a :| a in Into(t, n) && a in done && SentAlong(t, final, a, x);
    var m :| m in final[a.node] && Advance(t, m, a) == x;
    FinalIsCarried(t, first, processed, final, a.node, m);
    CarriedOn(t, first, a.node, m, a);
  }

  /** What is sent along an arc of the node at the end of the queue goes along one that the plan has. */
  lemma {:induction false} KeepsForward(t: Plan, first: Marks, planned: bool, w: Walk, markings: map<Node, seq<Marks>>,
                                        c: Counts)
    requires Keeps(t, first, planned, w, markings, c) && CountsIn(t.g, c) && c.queue != []
    ensures var n := c.queue[|c.queue| - 1]; n in t.g && SendsForward(t, n, c.indegree)
  {
    hide PlanOk, CountOk, QueueOk, FinalOk, MarksOk, OrderOk, DoneOk, EventsOk, NoneStuck, Loose;
    var n := c.queue[|c.queue| - 1];
    KeepsHead(t, first, planned, w, markings, c);
    if planned {
      Taken(t, first, w.order, w.processed, w.done, w.final, markings, c.queue, c.indegree);
      forall i: nat | i < |t.g[n]| && t.g[n][i] in c.indegree && c.indegree[t.g[n][i]] > 0
        ensures ArcId(n, i) in t.forward
      {
        assert OutOk(t, w.processed + {n}, w.done, c.indegree, ArcId(n, i));
      }
    }
  }

  ghost predicate SendsForward(t: Plan, n: Node, indegree: map<Node, int>)
    requires n in t.g
  {
    forall i: nat :: i < |t.g[n]| && t.g[n][i] in indegree && indegree[t.g[n][i]] > 0 ==> ArcId(n, i) in t.forward
  }

  /** At a node without arcs a marking is stuck exactly if something is still awaited. */
  lemma StuckAtEnd(g: Graph, events: map<ArcId, seq<Event>>, m: Marks, n: Node)
    requires n in g && |g[n]| == 0 && ArcsOk(g, events, m, n)
    ensures Stuck(g, events, m, n) <==> m.terminate.Keys != {}
    ensures DeadlockMarks(g, events, m, n) == m.terminate.Keys
  {
    assert m.terminate != map[] <==> m.terminate.Keys != {};
  }

  lemma {:induction false} OneAdded(t: Plan, before: map<Node, seq<Marks>>, node: Node, ms: seq<Marks>, marking: Marks)
    requires if node in before then before[node] == ms else ms == []
    requires marking !in ms && forall j :: 0 <= j < |ms| ==> t.covers(marking, ms[j]) == Differs
    ensures HoldsMore(t, before, before[node := ms + [marking]], {(node, marking)})
    ensures Holds(before[node := ms + [marking]], node, marking) && !HoldsFor(t, before, node, marking)
  {
    var after := before[node := ms + [marking]];
    forall n, m ensures Holds(after, n, m) <==> Holds(before, n, m) || (n == node && m == marking) {
      assert m in ms + [marking] <==> m in ms || m == marking;
    }
    assert Represents(t, marking, marking);
    assert HoldsFor(t, after, node, marking);
    if AllApart(t, before) {
      forall n | n in after ensures Apart(t, after[n]) {
        assert node in before ==> Apart(t, before[node]);
        assert n != node ==> Apart(t, before[n]);
      }
    }
  }

  lemma DroppedHolds(t: Plan, markings: map<Node, seq<Marks>>, node: Node, x: Marks, m: Marks)
    requires node in markings && x in markings[node] && Represents(t, x, m)
    ensures HoldsMore(t, markings, markings, {(node, m)}) && HoldsFor(t, markings, node, m)
    ensures markings.Keys == markings.Keys + {node}
  {
    assert Holds(markings, node, x);
  }

  lemma TestIs(t: Plan, m: Marks, x: Marks, pid: Mark -> nat)
    requires t.covers == CoveringTest(pid)
    ensures t.covers(m, x) == Answered(m, x, pid)
  {
  }

  lemma HeldCarried(t: Plan, first: Marks, markings: map<Node, seq<Marks>>, n: Node)
    requires AllCarried(t, first, markings) && n in markings
    ensures forall x :: x in markings[n] ==> Carried(t, first, n, x)
  {
    forall x | x in markings[n] ensures Carried(t, first, n, x) {
      assert Holds(markings, n, x);
    }
  }

  lemma CanCompare(t: Plan, first: Marks, n: Node, m: Marks, x: Marks, pid: Mark -> nat)
    requires StatesOk(t, first, pid) && Carried(t, first, n, m) && Carried(t, first, n, x)
    ensures MarkingOk(m, pid) && MarkingOk(x, pid) && SameState(m, x, pid)
  {
  }

  lemma NoneAdded(t: Plan, markings: map<Node, seq<Marks>>)
    ensures HoldsMore(t, markings, markings, {})
  {
  }

  /** How the walk of a state space ends. */
  datatype Outcome = NoDeadlock | DeadlockFound(marks: set<Mark>) | Broken

  class NdsyncChecker {
    const g: Graph
    const events: map<ArcId, seq<Event>>
    const pid: Mark -> nat
    var markings: map<Node, seq<Marks>>
    var queue: seq<Node>
    var indegree: map<Node, int>

    constructor (g: Graph, events: map<ArcId, seq<Event>>, pid: Mark -> nat, indegree: map<Node, int>)
      ensures this.g == g && this.events == events && this.pid == pid && this.indegree == indegree
      ensures markings == map[] && queue == []
    {
      this.g, this.events, this.pid, this.indegree := g, events, pid, indegree;
      markings, queue := map[], [];
    }

    /** The walk is about ways that carry markings which this checker can compare. */
    ghost predicate Compares(t: Plan, first: Marks)
      reads this
    {
      t.g == g && t.events == events && t.covers == CoveringTest(pid) && StatesOk(t, first, pid)
      && AllCarried(t, first, markings)
    }

    /** Adds a marking to a node, unless it is there or one that is there covers it. It fails exactly when one that is
        there cannot be compared with it, and none before covers it. */
    method AddMarking(ghost t: Plan, ghost first: Marks, node: Node, marking: Marks) returns (broken: bool)
      requires Compares(t, first) && Carried(t, first, node, marking)
      modifies `markings
      ensures broken <==> node in old(markings) && marking !in old(markings)[node]
                          && BreaksAmong(t, marking, old(markings)[node])
      ensures broken ==> markings == old(markings) && BreaksSomewhere(t, first)
      ensures !broken ==> HoldsMore(t, old(markings), markings, {(node, marking)})
                          && markings.Keys == old(markings).Keys + {node}
      ensures !broken ==> (Holds(markings, node, marking) <==>
                             Holds(old(markings), node, marking) || !HoldsFor(t, old(markings), node, marking))
      ensures Compares(t, first)
    {
      hide StatesOk, Carried, AllCarried, HoldsMore, HoldsFor, CoveringTest, BreaksSomewhere, BreaksAmong;
      ghost var before := markings;
      broken := false;
      if node !in markings {
        OneAdded(t, before, node, [], marking);
        assert [] + [marking] == [marking];
        markings := markings[node := [marking]];
        StillCarried(t, first, before, markings, node, marking);
      } else if marking !in markings[node] {
        var ms := markings[node];
        HeldCarried(t, first, markings, node);
        var covered;
        ghost var x;
        broken, covered, x := CompareAll(t, first, node, marking, ms);
        if broken {
          return;
        }
        if covered {
          DroppedHolds(t, before, node, x, marking);
          return;
        }
        OneAdded(t, before, node, ms, marking);
        markings := markings[node := ms + [marking]];
        StillCarried(t, first, before, markings, node, marking);
      } else {
        DroppedHolds(t, before, node, marking, marking);
      }
    }

    /** Compares a marking with the ones that are there, until one covers it or comparing fails. */
    method CompareAll(ghost t: Plan, ghost first: Marks, node: Node, marking: Marks, ms: seq<Marks>)
      returns (broken: bool, covered: bool, ghost x: Marks)
      requires t.covers == CoveringTest(pid) && StatesOk(t, first, pid) && Carried(t, first, node, marking)
      requires forall y :: y in ms ==> Carried(t, first, node, y)
      ensures broken <==> BreaksAmong(t, marking, ms)
      ensures broken ==> BreaksSomewhere(t, first)
      ensures covered ==> !broken && x in ms && Represents(t, x, marking)
      ensures !broken && !covered ==> forall j :: 0 <= j < |ms| ==> t.covers(marking, ms[j]) == Differs
    {
      hide MarkingOk, SameState, StatesOk, Carried, Answered, CoveringTest;
      for k := 0 to |ms|
        invariant forall j :: 0 <= j < k ==> t.covers(marking, ms[j]) == Differs
      {
        CanCompare(t, first, node, marking, ms[k], pid);
        TestIs(t, marking, ms[k], pid);
        var answer := IsCoveredBy(marking, ms[k], pid);
        if answer != Differs {
          return answer.Broken(), answer.Covers?, ms[k];
        }
      }
      broken, covered, x := false, false, marking;
    }

    /** The marking after one arc: what the arc cannot have waited for is given up, then its events happen. */
    method Follow(ghost t: Plan, marking: Marks, a: ArcId, giveUp: set<Mark>) returns (r: Marks)
      requires t.g == g && t.events == events && IsArc(g, a) && ArcOk(g, events, marking, a)
      requires giveUp == if |g[a.node]| > 1 then ArcMarks(g, events, marking, a) else {}
      ensures r == Advance(t, marking, a)
    {
      var m := new Marking.Copy(marking);
      if giveUp != {} {
        m.RemoveMarksAndCleanup(giveUp);
      }
      assert m.Value() == Before(g, events, marking, a);
      var es := events[a];
      for k := 0 to |es|
        invariant RunWellFormed(m.Value(), es[k..]) && AfterRun(m.Value(), es[k..]) == Advance(t, marking, a)
      {
        assert es[k..][1..] == es[k + 1..];
        m.ProcessEvent(es[k]);
      }
      r := m.Value();
    }

    /** The marks under which each of the arcs of a branching cannot be taken. */
    method BranchMarks(marking: Marks, node: Node) returns (marks: seq<set<Mark>>)
      requires node in g && |g[node]| > 1 && ArcsOk(g, events, marking, node)
      ensures |marks| == |g[node]|
      ensures forall i: nat :: i < |g[node]| ==> marks[i] == ArcMarks(g, events, marking, ArcId(node, i))
    {
      hide ArcOk, ArcMarks, WellFormed, RunWellFormed, EventMarks;
      marks := [];
      for i := 0 to |g[node]|
        invariant |marks| == i
        invariant forall j: nat :: j < i ==> marks[j] == ArcMarks(g, events, marking, ArcId(node, j))
      {
        FirstEvent(g, events, marking, ArcId(node, i));
        var m := new Marking.Copy(marking);
        var em := m.GetEventMarks(events[ArcId(node, i)][0]);
        marks := marks + [em];
      }
    }

    /** The markings of a node are sent along its arcs; or one of them has no way out, or comparing fails. */
    method Propagate(ghost t: Plan, ghost first: Marks, node: Node, ms: seq<Marks>)
          returns (outcome: Outcome, ghost stuck: Marks)
      requires Compares(t, first) && node in g && |g[node]| > 0 && SendsForward(t, node, indegree)
      requires forall n :: n in g[node] ==> n in indegree
      requires forall m :: m in ms ==> ArcsOk(g, events, m, node) && Carried(t, first, node, m)
      modifies `markings
      ensures outcome.DeadlockFound? ==>
          stuck in ms && Stuck(g, events, stuck, node) && outcome.marks == DeadlockMarks(g, events, stuck, node)
      ensures outcome.Broken? ==> BreaksSomewhere(t, first)
      ensures outcome.NoDeadlock? ==> forall m :: m in ms ==> !Stuck(g, events, m, node)
      ensures outcome.NoDeadlock? ==> HoldsMore(t, old(markings), markings, SentByAll(t, node, indegree, ms))
      ensures outcome.NoDeadlock? ==>
          forall n :: n in markings ==> n in old(markings) || (n in g[node] && indegree[n] > 0)
    {
      hide Stuck, Advance, ArcMarks, DeadlockMarks, RunWellFormed, WellFormed, Before, HoldsMore, SentBy, StatesOk,
           Carried, AllCarried, SendsForward;
      ghost var m0 := markings;
      NoneAdded(t, markings);
      stuck := first;
      for k := 0 to |ms|
        invariant Compares(t, first)
        invariant forall j :: 0 <= j < k ==> !Stuck(g, events, ms[j], node)
        invariant HoldsMore(t, m0, markings, SentByAll(t, node, indegree, ms[..k]))
        invariant forall n :: n in markings ==> n in m0 || (n in g[node] && indegree[n] > 0)
      {
        assert ms[..k + 1][..k] == ms[..k];
        var eventMarks: seq<set<Mark>> := [];
        if |g[node]| > 1 {
          eventMarks := BranchMarks(ms[k], node);
          if forall em :: em in eventMarks ==> em != {} {
            StuckAtBranch(g, events, ms[k], node, eventMarks);
            outcome, stuck := DeadlockFound(Union(eventMarks)), ms[k];
            return;
          }
        }
        NotStuck(g, events, ms[k], node, eventMarks);
        ghost var m1 := markings;
        var broken := SendAlongArcs(t, first, node, ms[k], eventMarks);
        if broken {
          outcome := Broken;
          return;
        }
        HoldsMoreTwice(t, m0, m1, markings, SentByAll(t, node, indegree, ms[..k]),
                       SentBy(t, node, indegree, ms[k], |g[node]|));
      }
      assert ms[..|ms|] == ms;
      outcome := NoDeadlock;
    }

    /** One marking is sent along all arcs of a node. */
    method SendAlongArcs(ghost t: Plan, ghost first: Marks, node: Node, marking: Marks, eventMarks: seq<set<Mark>>)
        returns (broken: bool)
      requires Compares(t, first) && node in g && SendsForward(t, node, indegree)
      requires forall n :: n in g[node] ==> n in indegree
      requires ArcsOk(g, events, marking, node) && Carried(t, first, node, marking)
      requires |g[node]| > 1 ==> |eventMarks| == |g[node]|
      requires |g[node]| > 1 ==> forall i: nat :: i < |g[node]| ==>
          eventMarks[i] == ArcMarks(g, events, marking, ArcId(node, i))
      modifies `markings
      ensures Compares(t, first)
      ensures broken ==> BreaksSomewhere(t, first)
      ensures !broken ==> HoldsMore(t, old(markings), markings, SentBy(t, node, indegree, marking, |g[node]|))
      ensures !broken ==> forall n :: n in markings ==> n in old(markings) || (n in g[node] && indegree[n] > 0)
    {
      hide Advance, ArcOk, ArcMarks, RunWellFormed, WellFormed, Before, HoldsMore, StatesOk, Carried, AllCarried,
           BreaksAmong, BreaksSomewhere, HoldsFor;
      ghost var m0 := markings;
      NoneAdded(t, markings);
      for i := 0 to |g[node]|
        invariant Compares(t, first)
        invariant HoldsMore(t, m0, markings, SentBy(t, node, indegree, marking, i))
        invariant forall n :: n in markings ==> n in m0 || (n in g[node] && indegree[n] > 0)
      {
        var target := g[node][i];
        assert ArcOk(g, events, marking, ArcId(node, i));
        var m := Follow(t, marking, ArcId(node, i), if |g[node]| > 1 then eventMarks[i] else {});
        if indegree[target] > 0 {
          ghost var m1 := markings;
          CarriedOn(t, first, node, marking, ArcId(node, i));
          broken := AddMarking(t, first, target, m);
          if broken {
            return;
          }
          HoldsMoreTwice(t, m0, m1, markings, SentBy(t, node, indegree, marking, i), {(target, m)});
        } else {
          assert SentBy(t, node, indegree, marking, i + 1) == SentBy(t, node, indegree, marking, i);
        }
      }
      broken := false;
    }

    /** The targets of the arcs of a node are counted down, and queued when their count comes to 0. */
    method CountDownArcs(node: Node)
      requires StateSpace.Closed(g) && node in g && CountsIn(g, AsCounts())
      modifies `indegree, `queue
      ensures AsCounts() == LowerUpTo(g, node, |g[node]|, old(AsCounts()))
    {
      hide LowerUpTo;
      ghost var c := AsCounts();
      assert LowerUpTo(g, node, 0, c) == c by { LowerNothing(g, node, c); }
      for i := 0 to |g[node]|
        invariant AsCounts() == LowerUpTo(g, node, i, c)
      {
        LowerStep(g, node, i + 1, c);
        var n := g[node][i];
        indegree := indegree[n := indegree[n] - 1];
        if indegree[n] == 0 {
          queue := queue + [n];
        }
      }
    }

    /** Processes a node with all markings that came to it: every marking is sent along every arc whose target is still
        counted down, then the targets are counted down. It raises a deadlock only if one of the markings has no way
        out, and without a deadlock none is stuck, unless two markings cannot be compared. */
    method ProcessNode(ghost t: Plan, ghost first: Marks, node: Node, ms: seq<Marks>)
          returns (outcome: Outcome, ghost stuck: Marks)
      requires Compares(t, first) && StateSpace.Closed(g) && node in g && SendsForward(t, node, indegree)
      requires CountsIn(g, AsCounts())
      requires forall m :: m in ms ==> ArcsOk(g, events, m, node) && Carried(t, first, node, m)
      modifies this
      ensures outcome.DeadlockFound? ==>
          stuck in ms && Stuck(g, events, stuck, node) && outcome.marks == DeadlockMarks(g, events, stuck, node)
      ensures outcome.Broken? ==> BreaksSomewhere(t, first)
      ensures outcome.NoDeadlock? ==> forall m :: m in ms ==> !Stuck(g, events, m, node)
      ensures forall n :: n in g[node] ==> n in old(indegree)
      ensures outcome.NoDeadlock? ==> AsCounts() == LowerUpTo(g, node, |g[node]|, old(AsCounts()))
      ensures outcome.NoDeadlock? ==> HoldsMore(t, old(markings), markings, SentByAll(t, node, old(indegree), ms))
      ensures outcome.NoDeadlock? ==> forall n :: n in markings ==>
          n in old(markings) || (n in g[node] && old(indegree)[n] > 0)
    {
      hide ArcsOk, ArcMarks, WellFormed, RunWellFormed, Stuck, DeadlockMarks, StatesOk, Carried, AllCarried,
           SendsForward, HoldsMore, BreaksSomewhere;
      ghost var markings0, queue0, indegree0 := markings, queue, indegree;
      forall n | n in g[node] ensures n in indegree {
        var i :| 0 <= i < |g[node]| && g[node][i] == n;
      }
      if |g[node]| == 0 {
        for k := 0 to |ms|
          invariant markings == markings0 && queue == queue0 && indegree == indegree0
          invariant forall j :: 0 <= j < k ==> !Stuck(g, events, ms[j], node)
        {
          var marks := ms[k].terminate.Keys;
          StuckAtEnd(g, events, ms[k], node);
          if marks != {} {
            outcome, stuck := DeadlockFound(marks), ms[k];
            return;
          }
        }
        NothingSent(t, node, indegree, ms);
        NoneAdded(t, markings);
        return NoDeadlock, first;
      }
      outcome, stuck := Propagate(t, first, node, ms);
      if outcome.NoDeadlock? {
        CountDownArcs(node);
      }
    }

    function AsCounts(): Counts
      reads this
    {
      Counts(indegree, queue)
    }

    /** The walk, on any graph: as long as nothing is raised the nodes are processed in the order of the countdown; a
        deadlock that is raised is that of some way through the state space; and it breaks only where some ways carry
        markings to a node that cannot be compared. When the walk follows a plan, without a deadlock every node was
        processed once, after all sources of the arcs into it, with markings that stand for all that arrived; and if
        nothing is lost with the markings that are dropped, no way leads to a marking with no way out. */
    method Run(ghost t: Plan, init: Node, processCount: nat)
      returns (outcome: Outcome, ghost order: seq<Node>, ghost node: Node, ghost stuck: Marks)
      requires t.g == g && t.events == events && t.covers == CoveringTest(pid)
      requires StateSpace.Closed(g) && CountsIn(g, Counts(indegree, [t.start]))
      requires Planned(t, indegree) || t == AllWays(g, events, t.start, t.covers)
      requires init in g && |g[init]| > 0 && ArcId(init, 0) in events
      requires t.start == if events[ArcId(init, 0)] == [] then g[init][0] else init
      requires EventsOk(t, InitialMarks(processCount)) && StatesOk(t, InitialMarks(processCount), pid)
      requires markings == map[]
      modifies this
      ensures outcome.NoDeadlock? ==> order == CountdownOrder(g, Counts(old(indegree), [t.start]))
      ensures outcome.DeadlockFound? ==>
          Deadlock(t, InitialMarks(processCount), node, stuck)
          && outcome.marks == DeadlockMarks(g, events, stuck, node)
      ensures outcome.Broken? ==> BreaksSomewhere(t, InitialMarks(processCount))
      ensures Planned(t, old(indegree)) && LosesNothing(t, InitialMarks(processCount)) && !outcome.Broken? ==>
          (outcome.NoDeadlock? <==> forall n, m :: !Deadlock(t, InitialMarks(processCount), n, m))
      ensures Planned(t, old(indegree)) && outcome.NoDeadlock? ==>
          markings == map[] && OrderOk(t, order, t.nodes)
          && exists final :: FinalOk(t, InitialMarks(processCount), t.nodes, final)
    {
      hide Keeps, Planned, AllWays, PlanOk, CountsInjected, OrderOk, ArcsOk, Carried, Stuck, EventsOk, CountdownOrder,
           LowerUpTo, CountsIn, WalkOk, Loose, NoneStuck, HoldsMore, SentByAll, ToDo, AfterNode, DeadlockMarks,
           LosesNothing, StatesOk, AllCarried, SendsForward, FinalOk, BreaksSomewhere;
      ghost var first, planned := InitialMarks(processCount), Planned(t, indegree);
      var initialNode := init;
      if events[ArcId(init, 0)] == [] {
        initialNode := g[init][0];
      }
      var m := new Marking(processCount);
      markings := map[initialNode := [m.Value()]];
      queue := [initialNode];
      ghost var w := Walk([], {}, {}, map[]);
      ghost var all := CountdownOrder(g, AsCounts());
      KeepsStart(t, processCount, AsCounts(), planned);
      while queue != []
        invariant CountsIn(g, AsCounts()) && w.order + CountdownOrder(g, AsCounts()) == all
        invariant Keeps(t, first, planned, w, markings, AsCounts())
        decreases ToDo(g, AsCounts())
      {
        ghost var c, markings0, w0 := AsCounts(), markings, w;
        NextInOrder(g, c);
        KeepsHead(t, first, planned, w, markings, c);
        KeepsForward(t, first, planned, w, markings, c);
        KeepsCarried(t, first, planned, w, markings, c);
        var n := queue[|queue| - 1];
        var ms := markings[n];
        FewerCarried(t, first, markings, n);
        queue, markings := queue[..|queue| - 1], markings - {n};
        assert AsCounts() == Rest(c) && CountsIn(g, Rest(c)) by { RestIn(g, c); }
        outcome, stuck := ProcessNode(t, first, n, ms);
        if !outcome.NoDeadlock? {
          node, order := n, w.order;
          assert outcome.DeadlockFound? ==> Deadlock(t, first, node, stuck);
          return;
        }
        w := Walk(w.order + [n], w.processed + {n}, w.done + ArcsUpTo(g, n, |g[n]|), w.final[n := AsSet(ms)]);
        KeepsNode(t, first, planned, w0, markings0, c, markings, AsCounts());
        assert AsCounts() == AfterNode(g, c);
      }
      EmptyOrder(g, AsCounts());
      order := w.order;
      KeepsEnd(t, first, planned, w, markings, AsCounts());
      outcome, node, stuck := NoDeadlock, init, first;
    }
  }

  lemma FewerCarried(t: Plan, first: Marks, markings: map<Node, seq<Marks>>, n: Node)
    requires AllCarried(t, first, markings)
    ensures AllCarried(t, first, markings - {n})
  {
    forall k, x | Holds(markings - {n}, k, x) ensures Carried(t, first, k, x) {
      assert Holds(markings, k, x);
    }
  }

  lemma NothingStuck(t: Plan)
    ensures NoneStuck(t, {}, map[])
  {
  }

  lemma QueueHead(t: Plan, processed: set<Node>, queue: seq<Node>, done: set<ArcId>)
    requires QueueOk(t, processed, queue, done) && queue != []
    ensures queue[|queue| - 1] in t.nodes && queue[|queue| - 1] !in processed
  {
  }

  lemma {:induction false} StillNoneStuck(t: Plan, processed: set<Node>, final: map<Node, set<Marks>>, n: Node,
                                          ms: seq<Marks>)
    requires NoneStuck(t, processed - {n}, final) && n in processed && n in t.g
    requires forall m :: m in ms ==> ArcsOk(t.g, t.events, m, n) && !Stuck(t.g, t.events, m, n)
    ensures NoneStuck(t, processed, final[n := AsSet(ms)])
  {
    hide ArcsOk, Stuck;
  }

  lemma PendingShrinks(t: Plan, done: set<ArcId>, more: set<ArcId>, n: Node)
    requires done <= more
    ensures Pending(t, done, n) == {} ==> Pending(t, more, n) == {}
  {
  }

  lemma OutMeans(t: Plan, processed: set<Node>, done: set<ArcId>, indegree: map<Node, int>, a: ArcId)
    requires OutOk(t, processed, done, indegree, a)
    ensures IsArc(t.g, a) && Target(t.g, a) in indegree && a !in done
    ensures a in t.forward ==> Counted(t, Target(t.g, a)) && Target(t.g, a) !in processed
    ensures a !in t.forward && Counted(t, Target(t.g, a)) ==> Pending(t, done, Target(t.g, a)) == {}
  {
  }

  function Union(ss: seq<set<Mark>>): set<Mark> {
    if ss == [] then {} else Union(ss[..|ss| - 1]) + ss[|ss| - 1]
  }

  lemma StuckAtBranch(g: Graph, events: map<ArcId, seq<Event>>, m: Marks, n: Node, eventMarks: seq<set<Mark>>)
    requires n in g && |g[n]| > 1 && ArcsOk(g, events, m, n) && |eventMarks| == |g[n]|
    requires forall i: nat :: i < |g[n]| ==> eventMarks[i] == ArcMarks(g, events, m, ArcId(n, i))
    requires forall em :: em in eventMarks ==> em != {}
    ensures Stuck(g, events, m, n) && Union(eventMarks) == DeadlockMarks(g, events, m, n)
  {
    UnionIsUnionOfArcs(g, events, m, n, eventMarks, |g[n]|);
    assert eventMarks[..|g[n]|] == eventMarks;
    forall i: nat | i < |g[n]| ensures ArcMarks(g, events, m, ArcId(n, i)) != {} {
      assert eventMarks[i] in eventMarks;
    }
  }

  lemma {:induction false} UnionIsUnionOfArcs(g: Graph, events: map<ArcId, seq<Event>>, m: Marks, n: Node,
                                              eventMarks: seq<set<Mark>>, i: nat)
    requires n in g && |g[n]| > 1 && ArcsOk(g, events, m, n) && |eventMarks| == |g[n]| && i <= |g[n]|
    requires forall i: nat :: i < |g[n]| ==> eventMarks[i] == ArcMarks(g, events, m, ArcId(n, i))
    ensures Union(eventMarks[..i]) == UnionOfArcs(g, events, m, n, i)
  {
    hide ArcOk, ArcMarks;
    if i > 0 {
      UnionIsUnionOfArcs(g, events, m, n, eventMarks, i - 1);
      assert eventMarks[..i][..i - 1] == eventMarks[..i - 1];
    }
  }

  lemma NotStuck(g: Graph, events: map<ArcId, seq<Event>>, m: Marks, n: Node, eventMarks: seq<set<Mark>>)
    requires n in g && |g[n]| > 0 && ArcsOk(g, events, m, n)
    requires |g[n]| > 1 ==> |eventMarks| == |g[n]| && exists em :: em in eventMarks && em == {}
    requires |g[n]| > 1 ==> forall i: nat :: i < |g[n]| ==> eventMarks[i] == ArcMarks(g, events, m, ArcId(n, i))
    ensures !Stuck(g, events, m, n)
  {
    if |g[n]| > 1 {
      var i :| 0 <= i < |eventMarks| && eventMarks[i] == {};
      assert ArcMarks(g, events, m, ArcId(n, i)) == {};
    }
  }

  // ---- search and walk together --------------------------------------------------------------------

  /** The walk starts in the first node, or in its only successor when no arc leads back to it. */
  ghost predicate StartOk(g: Graph, init: Node, start: Node)
    requires init in g
  {
    start == init
    || (g[init] == [start] && forall a :: IsArc(g, a) && Reachable(g, init, a.node) && a.node != init ==>
        Target(g, a) != start)
  }

  ghost function PlanOf(g: Graph, events: map<ArcId, seq<Event>>, init: Node, start: Node, trace: seq<Report>): Plan
    requires Searched(g, init, trace)
  {
    var skipped := if start == init then {} else {init};
    Plan(g, events, (set a | a in ForwardArcs(trace) && a.node !in skipped), Met(g, init, trace) - skipped, start,
         (m, x) => Differs)
  }

  lemma ForwardOfPlan(g: Graph, events: map<ArcId, seq<Event>>, init: Node, start: Node, trace: seq<Report>, a: ArcId)
    requires Searched(g, init, trace) && StartOk(g, init, start) && a in PlanOf(g, events, init, start, trace).forward
    ensures var t := PlanOf(g, events, init, start, trace);
            IsArc(g, a) && a.node in t.nodes && Target(g, a) in t.nodes && Target(g, a) != start
  {
    ForwardIsReported(trace, a);
    ReachableIsMet(g, init, trace, a.node);
    NoForwardArcToFirst(g, init, trace, a);
    ReachableStep(g, init, a.node, a.index);
    ReachableIsMet(g, init, trace, Target(g, a));
  }

  lemma IntoOfPlan(g: Graph, events: map<ArcId, seq<Event>>, init: Node, start: Node, trace: seq<Report>, n: Node)
    requires Searched(g, init, trace) && StartOk(g, init, start)
    requires Counted(PlanOf(g, events, init, start, trace), n)
    ensures Into(PlanOf(g, events, init, start, trace), n) == ForwardInto(g, trace, n) != {}
  {
    var t := PlanOf(g, events, init, start, trace);
    MetByForwardArc(g, init, trace, n);
    var b :| b in ForwardArcs(trace) && IsArc(g, b) && Target(g, b) == n;
    assert b in ForwardInto(g, trace, n);
    forall a | a in ForwardInto(g, trace, n) ensures a in Into(t, n) {
      if a.node == init && start != init {
        OnlySuccessor(g, init, start, a);
        assert false;
      }
    }
  }

  lemma OnlySuccessor(g: Graph, init: Node, start: Node, a: ArcId)
    requires init in g && StartOk(g, init, start) && start != init && IsArc(g, a) && a.node == init
    ensures Target(g, a) == start
  {
  }

  /** A path of forward arcs that does not start in the first node does not meet it. */
  lemma PathInPlan(g: Graph, events: map<ArcId, seq<Event>>, init: Node, start: Node, trace: seq<Report>, p: seq<Node>)
    requires Searched(g, init, trace) && p != [] && IsPath(g, ForwardArcs(trace), p) && (start == init || p[0] != init)
    ensures IsPath(g, PlanOf(g, events, init, start, trace).forward, p)
  {
    var t := PlanOf(g, events, init, start, trace);
    forall k | 0 <= k < |p| ensures start == init || p[k] != init {
      if k > 0 {
        assert Step(g, ForwardArcs(trace), p[k - 1], p[k - 1 + 1]);
        var a :| a in ForwardArcs(trace) && IsArc(g, a) && a.node == p[k - 1] && Target(g, a) == p[k];
        NoForwardArcToFirst(g, init, trace, a);
      }
    }
    forall k | 0 <= k < |p| - 1 ensures Step(g, t.forward, p[k], p[k + 1]) {
      assert Step(g, ForwardArcs(trace), p[k], p[k + 1]);
      var a :| a in ForwardArcs(trace) && IsArc(g, a) && a.node == p[k] && Target(g, a) == p[k + 1];
      assert a in t.forward;
    }
  }

  lemma CycleOfPlan(g: Graph, events: map<ArcId, seq<Event>>, init: Node, start: Node, trace: seq<Report>, a: ArcId)
    requires Searched(g, init, trace) && StartOk(g, init, start)
    requires var t := PlanOf(g, events, init, start, trace);
             IsArc(g, a) && a.node in t.nodes && a !in t.forward && Counted(t, Target(g, a))
    ensures Connected(g, PlanOf(g, events, init, start, trace).forward, Target(g, a), a.node)
  {
    MetExactlyReachable(g, init, trace);
    ReportedArcs(trace);
    assert a in ArcsOf(trace);
    var r :| r in trace && Arc(r) == a;
    assert r.isCycle;
    var k :| 0 <= k < |trace| && trace[k] == r;
    var p :| IsPath(g, ForwardArcs(trace), p) && p[0] == Target(g, a) && p[|p| - 1] == a.node;
    PathInPlan(g, events, init, start, trace, p);
  }

  lemma StartIsMet(g: Graph, init: Node, start: Node, trace: seq<Report>)
    requires Searched(g, init, trace) && StartOk(g, init, start)
    ensures start in Met(g, init, trace)
  {
    assert IsPathIn(g, [init]);
    if start != init {
      ReachableStep(g, init, init, 0);
    }
    ReachableIsMet(g, init, trace, start);
  }

  lemma PlanFields(g: Graph, events: map<ArcId, seq<Event>>, init: Node, start: Node, trace: seq<Report>)
    requires Searched(g, init, trace) && StartOk(g, init, start)
    ensures var t := PlanOf(g, events, init, start, trace);
            t.g == g && t.events == events && t.start == start && start in t.nodes && t.nodes <= g.Keys
                  && Acyclic(g, t.forward)
  {
    MetExactlyReachable(g, init, trace);
    StartIsMet(g, init, start, trace);
    var rank :| Descends(g, ForwardArcs(trace), rank);
    assert Descends(g, PlanOf(g, events, init, start, trace).forward, rank);
  }

  lemma {:induction false} PlanIsOk(g: Graph, events: map<ArcId, seq<Event>>, init: Node, start: Node,
                                    trace: seq<Report>)
    requires Searched(g, init, trace) && StartOk(g, init, start)
    ensures PlanOk(PlanOf(g, events, init, start, trace))
  {
    hide PlanOf, Searched, StartOk, Connected, Acyclic, Into;
    var t := PlanOf(g, events, init, start, trace);
    PlanFields(g, events, init, start, trace);
    forall a | a in t.forward ensures IsArc(g, a) && a.node in t.nodes && Target(g, a) in t.nodes
          && Target(g, a) != start {
      ForwardOfPlan(g, events, init, start, trace, a);
    }
    forall n | n in t.nodes && n != start ensures Into(t, n) != {} {
      IntoOfPlan(g, events, init, start, trace, n);
    }
    forall a | IsArc(g, a) && a.node in t.nodes && a !in t.forward && Counted(t, Target(g, a))
      ensures Connected(g, t.forward, Target(g, a), a.node)
    {
      CycleOfPlan(g, events, init, start, trace, a);
    }
  }

  lemma {:induction false} PlanCounts(g: Graph, events: map<ArcId, seq<Event>>, init: Node, start: Node,
                                      trace: seq<Report>, indegree: map<Node, int>)
    requires Searched(g, init, trace) && StartOk(g, init, start) && CountsOk(g, trace, indegree)
    ensures CountsInjected(PlanOf(g, events, init, start, trace), indegree)
  {
    var t := PlanOf(g, events, init, start, trace);
    hide Searched, ForwardArcs, Met, ForwardInto, Into;
    forall n | Counted(t, n) && n in indegree ensures indegree[n] == |Into(t, n)| {
      IntoOfPlan(g, events, init, start, trace, n);
    }
    forall a | IsArc(g, a) && a.node in t.nodes && !Counted(t, Target(g, a)) ensures Target(g, a) in indegree
          && indegree[Target(g, a)] <= 0 {
      UncountedTarget(g, events, init, start, trace, a);
      NothingIntoFirst(g, init, trace);
    }
  }

  lemma NothingIntoFirst(g: Graph, init: Node, trace: seq<Report>)
    requires Searched(g, init, trace)
    ensures ForwardInto(g, trace, init) == {} && init in g
  {
    forall a | a in ForwardInto(g, trace, init) ensures false {
      NoForwardArcToFirst(g, init, trace, a);
    }
  }

  /** The only targets that are not counted down are the first node and a start without further arcs into it. */
  lemma UncountedTarget(g: Graph, events: map<ArcId, seq<Event>>, init: Node, start: Node, trace: seq<Report>, a: ArcId)
    requires Searched(g, init, trace) && StartOk(g, init, start)
    requires var t := PlanOf(g, events, init, start, trace);
             IsArc(g, a) && a.node in t.nodes && !Counted(t, Target(g, a))
    ensures Target(g, a) == init
  {
    MetExactlyReachable(g, init, trace);
    ReachableStep(g, init, a.node, a.index);
  }

  function StartNode(g: Graph, events: map<ArcId, seq<Event>>, init: Node): Node
    requires init in g && |g[init]| > 0 && ArcId(init, 0) in events
  {
    if events[ArcId(init, 0)] == [] then g[init][0] else init
  }

  /** The ways that the walk follows: those that close no cycle, unless it comes back to its start. */
  ghost function WaysOf(g: Graph, events: map<ArcId, seq<Event>>, covers: Covering, init: Node, start: Node,
                        trace: seq<Report>): (t: Plan)
    requires Searched(g, init, trace) && init in g
    ensures t.g == g && t.events == events && t.covers == covers && t.start == start
  {
    if StartOk(g, init, start) then PlanOf(g, events, init, start, trace).(covers := covers)
    else AllWays(g, events, start, covers)
  }

  lemma PlanStays(t: Plan, indegree: map<Node, int>, covers: Covering)
    requires PlanOk(t) && CountsInjected(t, indegree)
    ensures Planned(t.(covers := covers), indegree)
  {
    var u := t.(covers := covers);
    forall n: Node ensures Into(u, n) == Into(t, n) && Counted(u, n) == Counted(t, n) {
    }
  }

  /** A reported deadlock is one: some way leads to a marking with no way out, and exactly what blocks it is reported.
      The marking has no mark that waits for nothing; at the end of the program, with all sends and operations settled,
      the reported marks contain a circle of synchronisations that wait for each other. */
  ghost predicate Real(t: Plan, first: Marks, deadlock: set<Mark>) {
    exists n, m :: Deadlock(t, first, n, m) && deadlock == DeadlockMarks(t.g, t.events, m, n) && Inv(m)
                   && (forall k :: k in deadlock <==> Blocks(t.g, t.events, m, n, k))
                   && (AtEnd(t.g, n, m) ==> HasCircle(m) && deadlock == m.terminate.Keys)
  }

  ghost predicate AtEnd(g: Graph, n: Node, m: Marks) {
    n in g && g[n] == [] && m.ssend == map[] && m.collectives == []
  }

  /** Synchronisations of a marking wait for each other in a circle. */
  ghost predicate HasCircle(m: Marks) {
    exists p :: IsCycle(m.terminate, p)
  }

  /** What the walk finds out along a plan. Without a deadlock all nodes can be put in an order in which every node
      comes after all sources of the arcs into it, and every node was processed with markings that stand for all that
      ways carry to it. If nothing is lost with the markings that are dropped, and the walk does not break, there is a
      deadlock exactly when some way that closes no cycle leads to a marking with no way out. */
  ghost predicate Verdict(t: Plan, first: Marks, outcome: Outcome) {
    && (LosesNothing(t, first) && !outcome.Broken? ==>
          (outcome.NoDeadlock? <==> forall n, m :: !Deadlock(t, first, n, m)))
    && (outcome.NoDeadlock? ==> exists order :: OrderOk(t, order, t.nodes))
    && (outcome.NoDeadlock? ==> exists final :: FinalOk(t, first, t.nodes, final))
  }

  /** The whole check of a state space: the search counts the arcs, then the walk counts them down. It breaks only if
      two markings come to a node that cannot be compared. Deadlocks that it reports are real; unless it breaks, an arc
      leads back to a start behind the first node, or a deadlock is lost with a marking that is dropped, it reports one
      whenever there is one. */
  method NdsyncCheck(g: Graph, events: map<ArcId, seq<Event>>, pid: Mark -> nat, init: Node, processCount: nat)
        returns (outcome: Outcome)
    requires StateSpace.Closed(g) && init in g && |g[init]| > 0 && ArcId(init, 0) in events
    requires forall trace :: Searched(g, init, trace) ==>
               var t := WaysOf(g, events, CoveringTest(pid), init, StartNode(g, events, init), trace);
               EventsOk(t, InitialMarks(processCount)) && StatesOk(t, InitialMarks(processCount), pid)
    ensures exists trace :: Searched(g, init, trace)
              && var t := WaysOf(g, events, CoveringTest(pid), init, StartNode(g, events, init), trace);
                 && (outcome.DeadlockFound? ==> Real(t, InitialMarks(processCount), outcome.marks))
                 && (outcome.Broken? ==> BreaksSomewhere(t, InitialMarks(processCount)))
                 && (StartOk(g, init, StartNode(g, events, init)) ==> Verdict(t, InitialMarks(processCount), outcome))
  {
    hide Searched, PlanOf, StartOk, CountsOk, Deadlock, DeadlockMarks, PlanOk, CountsInjected, EventsOk, OrderOk,
         AllWays, Inv, AtEnd, HasCircle, CountdownOrder, Planned, LosesNothing, StatesOk, BreaksSomewhere, FinalOk;
    ghost var start := StartNode(g, events, init);
    var indegree := InjectDfsIndegree(g, init);
    ghost var trace :| Searched(g, init, trace) && CountsOk(g, trace, indegree);
    ghost var t := WaysOf(g, events, CoveringTest(pid), init, start, trace);
    assert CountsIn(g, Counts(indegree, [start])) by { StartCounts(g, events, init, trace, indegree); }
    if StartOk(g, init, start) {
      PlanIsOk(g, events, init, start, trace);
      PlanCounts(g, events, init, start, trace, indegree);
      PlanStays(PlanOf(g, events, init, start, trace), indegree, CoveringTest(pid));
    }
    var checker := new NdsyncChecker(g, events, pid, indegree);
    ghost var order, node, stuck;
    outcome, order, node, stuck := checker.Run(t, init, processCount);
    if outcome.DeadlockFound? {
      DeadlockIsReal(t, processCount, node, stuck);
    }
    assert Searched(g, init, trace)
           && (outcome.DeadlockFound? ==> Real(t, InitialMarks(processCount), outcome.marks))
           && (outcome.Broken? ==> BreaksSomewhere(t, InitialMarks(processCount)))
           && (StartOk(g, init, start) ==> Verdict(t, InitialMarks(processCount), outcome));
  }

  lemma StartCounts(g: Graph, events: map<ArcId, seq<Event>>, init: Node, trace: seq<Report>, indegree: map<Node, int>)
    requires StateSpace.Closed(g) && init in g && |g[init]| > 0 && ArcId(init, 0) in events
             && CountsOk(g, trace, indegree)
    ensures CountsIn(g, Counts(indegree, [StartNode(g, events, init)]))
  {
  }

  // ---- the invariant along the ways ------------------------------------------------------------------

  lemma GiveUpKeepsInv(m: Marks, marks: set<Mark>)
    requires Inv(m)
    ensures Inv(Cleanup(m, marks))
  {
    CleanupInv(m, marks);
  }

  lemma {:induction false} InvAdvance(t: Plan, m: Marks, a: ArcId)
    requires Inv(m)
    ensures Inv(Advance(t, m, a))
  {
    hide Inv, RunWellFormed, WellFormed, EventMarks, AfterRun, Cleanup;
    if IsArc(t.g, a) && ArcOk(t.g, t.events, m, a) {
      if |t.g[a.node]| > 1 {
        GiveUpKeepsInv(m, EventMarks(m, t.events[a][0]));
      }
      RunInv(Before(t.g, t.events, m, a), t.events[a]);
    }
  }

  /** The removals at branchings and the events of a way keep the invariant: no mark has an empty wait set, and every
      mark that occurs stands for a pending send, an open operation or a matched synchronisation. */
  lemma {:induction false} InvAlong(t: Plan, first: Marks, path: seq<ArcId>)
    requires Inv(first)
    ensures Inv(Along(t, first, path))
  {
    hide Inv, Advance;
    if path != [] {
      InvAlong(t, first, path[..|path| - 1]);
      InvAdvance(t, Along(t, first, path[..|path| - 1]), path[|path| - 1]);
    }
  }

  lemma CarriedInv(t: Plan, processCount: nat, n: Node, m: Marks)
    requires Carried(t, InitialMarks(processCount), n, m)
    ensures Inv(m)
  {
    var path :| Trail(t, path, n) && Along(t, InitialMarks(processCount), path) == m;
    InvAlong(t, InitialMarks(processCount), path);
  }

  lemma AtFinal(g: Graph, events: map<ArcId, seq<Event>>, n: Node, m: Marks)
    requires n in g && ArcsOk(g, events, m, n) && Stuck(g, events, m, n)
    ensures AtEnd(g, n, m) ==> m.terminate != map[] && DeadlockMarks(g, events, m, n) == m.terminate.Keys
  {
    if AtEnd(g, n, m) {
      assert |g[n]| == 0;
    }
  }

  /** When the walk stops: at the end of the program, with all sends and operations settled, exactly if synchronisations
      wait for each other in a circle; at a branching, exactly if every arc has an event that something blocks. */
  lemma {:induction false} StuckMeans(g: Graph, events: map<ArcId, seq<Event>>, m: Marks, n: Node)
    requires Inv(m) && n in g && ArcsOk(g, events, m, n)
    ensures AtEnd(g, n, m) ==> (Stuck(g, events, m, n) <==> HasCircle(m))
    ensures |g[n]| > 1 ==>
              (Stuck(g, events, m, n) <==> forall i: nat :: i < |g[n]| ==> IsBlocked(g, events, m, ArcId(n, i)))
  {
    if AtEnd(g, n, m) {
      FinalDeadlock(m);
      if p :| IsCycle(m.terminate, p) {
        assert p[0] in m.terminate;
      }
    }
    if |g[n]| > 1 {
      forall i: nat | i < |g[n]|
        ensures ArcMarks(g, events, m, ArcId(n, i)) != {} <==> IsBlocked(g, events, m, ArcId(n, i))
      {
        if k :| k in ArcMarks(g, events, m, ArcId(n, i)) {
          assert BlocksArc(g, events, m, ArcId(n, i), k);
        }
      }
    }
  }

  ghost predicate IsBlocked(g: Graph, events: map<ArcId, seq<Event>>, m: Marks, a: ArcId)
    requires IsArc(g, a) && ArcOk(g, events, m, a) && |g[a.node]| > 1
  {
    exists k :: BlocksArc(g, events, m, a, k)
  }

  /** A deadlock is never raised without reason: at the end of the program it shows a circle of synchronisations. */
  lemma {:induction false} DeadlockIsReal(t: Plan, processCount: nat, n: Node, m: Marks)
    requires Deadlock(t, InitialMarks(processCount), n, m)
    ensures Inv(m) && (AtEnd(t.g, n, m) ==> HasCircle(m) && DeadlockMarks(t.g, t.events, m, n) == m.terminate.Keys)
    ensures Real(t, InitialMarks(processCount), DeadlockMarks(t.g, t.events, m, n))
  {
    hide Inv, Carried, Blocks, DeadlockMarks, ArcsOk, Stuck;
    CarriedInv(t, processCount, n, m);
    DeadlockMarksAre(t.g, t.events, m, n);
    AtFinal(t.g, t.events, n, m);
    if AtEnd(t.g, n, m) {
      FinalDeadlock(m);
    }
  }

  // ---- a start that is met again ---------------------------------------------------------------------

  lemma {:induction false} SecondIsAbove(g: Graph, init: Node, start: Node, trace: seq<Report>, rank: map<Node, nat>,
                                         n: Node)
    requires Searched(g, init, trace) && Descends(g, ForwardArcs(trace), rank) && g[init] == [start]
    requires n in Met(g, init, trace) && n != init && n != start && n in rank
    ensures start in rank && rank[n] < rank[start]
    decreases Above(rank, n)
  {
    MetByForwardArc(g, init, trace, n);
    var a :| a in ForwardArcs(trace) && IsArc(g, a) && Target(g, a) == n;
    ForwardIsReported(trace, a);
    ReachableIsMet(g, init, trace, a.node);
    if a.node != start {
      AboveShrinks(rank, n, a.node);
      SecondIsAbove(g, init, start, trace, rank, a.node);
    }
  }

  /** When the walk starts in the only successor of the first node, the count of its start is 1: the first arc that
      returns to the start brings the count to 0, and the start is queued a second time. */
  lemma StartCountsOne(g: Graph, init: Node, start: Node, trace: seq<Report>, indegree: map<Node, int>)
    requires Searched(g, init, trace) && CountsOk(g, trace, indegree) && g[init] == [start] && start != init
    ensures start in indegree && indegree[start] == 1
  {
    StartIsForward(g, init, start, trace);
    forall a | a in ForwardInto(g, trace, start) ensures a == ArcId(init, 0) {
      var rank :| Descends(g, ForwardArcs(trace), rank);
      ForwardIsReported(trace, a);
      ReachableIsMet(g, init, trace, a.node);
      if a.node != init && a.node != start {
        SecondIsAbove(g, init, start, trace, rank, a.node);
      }
    }
    assert ForwardInto(g, trace, start) == {ArcId(init, 0)};
  }

  lemma StartIsForward(g: Graph, init: Node, start: Node, trace: seq<Report>)
    requires Searched(g, init, trace) && g[init] == [start] && start != init
    ensures ArcId(init, 0) in ForwardInto(g, trace, start) && start in g
  {
    assert IsPathIn(g, [init]);
    assert Reachable(g, init, init);
    var a := ArcId(init, 0);
    assert IsArc(g, a) && Target(g, a) == start;
    ReportedArcs(trace);
    if a !in ForwardArcs(trace) {
      var r :| r in trace && Arc(r) == a;
      var k :| 0 <= k < |trace| && trace[k] == r;
      var p :| IsPath(g, ForwardArcs(trace), p) && p[0] == start && p[|p| - 1] == init;
      PathButLast(g, ForwardArcs(trace), p);
      var b :| b in ForwardArcs(trace) && IsArc(g, b) && b.node == p[|p| - 2] && Target(g, b) == init;
      NoForwardArcToFirst(g, init, trace, b);
    }
  }

  /** The countdown of a plan processes every node once, after all sources of the arcs into it. */
  lemma {:induction false} OrderOfPlan(t: Plan, order: seq<Node>, processed: set<Node>, done: set<ArcId>, c: Counts)
    requires PlanOk(t) && StateSpace.Closed(t.g) && CountsIn(t.g, c)
    requires CountOk(t, done, c.indegree) && QueueOk(t, processed, c.queue, done) && DoneOk(t, processed, done)
             && OrderOk(t, order, processed)
    ensures OrderOk(t, order + CountdownOrder(t.g, c), t.nodes)
    decreases ToDo(t.g, c)
  {
    hide PlanOk, CountOk, QueueOk, DoneOk, OrderOk, LowerUpTo, ToDo, CountsIn, OutOk;
    if c.queue == [] {
      EmptyOrder(t.g, c);
      assert order + [] == order;
      PlanDone(t, processed, c.queue, done);
    } else {
      var n := c.queue[|c.queue| - 1];
      NextInOrder(t.g, c);
      QueuePop(t, processed, c.queue, done);
      NodesInGraph(t, n);
      OrderStep(t, order, processed, done, n);
      forall i: nat | i < |t.g[n]| ensures OutOk(t, processed + {n}, done, c.indegree, ArcId(n, i)) {
        OutArcs(t, processed, c.queue, done, c.indegree, ArcId(n, i));
      }
      LoweredOk(t, processed + {n}, done, n, |t.g[n]|, Rest(c));
      DoneStep(t, processed, done, n);
      OrderOfPlan(t, order + [n], processed + {n}, done + ArcsUpTo(t.g, n, |t.g[n]|), AfterNode(t.g, c));
      assert order + ([n] + CountdownOrder(t.g, AfterNode(t.g, c))) == order + [n]
            + CountdownOrder(t.g, AfterNode(t.g, c));
    }
  }

  lemma PlanDone(t: Plan, processed: set<Node>, queue: seq<Node>, done: set<ArcId>)
    requires PlanOk(t) && QueueOk(t, processed, queue, done) && DoneOk(t, processed, done) && queue == []
    ensures processed == t.nodes
  {
    forall n | n in t.nodes ensures n in processed {
      var rank := RankOfPlan(t);
      InRank(t, rank, n);
      AllProcessed(t, processed, done, rank, n);
    }
  }

  /** When the walk starts in the only successor of the first node: every node is processed once, and after all sources
      of the unflagged arcs into it, if and only if no arc leads back to the start. */
  lemma {:induction false} OnceAndAfter(g: Graph, events: map<ArcId, seq<Event>>, init: Node, start: Node,
                                        trace: seq<Report>, indegree: map<Node, int>)
    requires StateSpace.Closed(g) && Searched(g, init, trace) && CountsOk(g, trace, indegree) && g[init] == [start]
             && start != init
    ensures CountsIn(g, Counts(indegree, [start]))
    ensures var t := PlanOf(g, events, init, start, trace);
            OrderOk(t, CountdownOrder(g, Counts(indegree, [start])), t.nodes) <==> StartOk(g, init, start)
  {
    assert init in g;
    hide Searched, PlanOf, CountsOk, OrderOk, CountdownOrder, CountsIn, Reachable;
    SuccessorCounts(g, init, start, trace, indegree);
    if StartOk(g, init, start) {
      OrderWithoutReturn(g, events, init, start, trace, indegree);
    } else {
      var a :| IsArc(g, a) && Reachable(g, init, a.node) && a.node != init && Target(g, a) == start;
      NoOrderWithReturn(g, events, init, start, trace, indegree, a);
    }
  }

  lemma {:induction false} OrderWithoutReturn(g: Graph, events: map<ArcId, seq<Event>>, init: Node, start: Node,
                                              trace: seq<Report>, indegree: map<Node, int>)
    requires StateSpace.Closed(g) && Searched(g, init, trace) && CountsOk(g, trace, indegree) && g[init] == [start]
    requires CountsIn(g, Counts(indegree, [start])) && StartOk(g, init, start)
    ensures var t := PlanOf(g, events, init, start, trace);
            OrderOk(t, CountdownOrder(g, Counts(indegree, [start])), t.nodes)
  {
    hide Searched, PlanOf, CountsOk, OrderOk, PlanOk, CountsInjected, CountdownOrder, CountsIn, StartOk;
    var t, c := PlanOf(g, events, init, start, trace), Counts(indegree, [start]);
    PlanFields(g, events, init, start, trace);
    PlanIsOk(g, events, init, start, trace);
    PlanCounts(g, events, init, start, trace, indegree);
    CountStart(t, indegree);
    NothingOrdered(t);
    OrderOfPlan(t, [], {}, {}, c);
    assert [] + CountdownOrder(g, c) == CountdownOrder(g, c);
  }

  lemma {:induction false} NoOrderWithReturn(g: Graph, events: map<ArcId, seq<Event>>, init: Node, start: Node,
                                             trace: seq<Report>, indegree: map<Node, int>, a: ArcId)
    requires StateSpace.Closed(g) && Searched(g, init, trace) && CountsOk(g, trace, indegree) && g[init] == [start]
             && start != init && CountsIn(g, Counts(indegree, [start]))
    requires IsArc(g, a) && Reachable(g, init, a.node) && a.node != init && Target(g, a) == start
    ensures var t := PlanOf(g, events, init, start, trace);
            !OrderOk(t, CountdownOrder(g, Counts(indegree, [start])), t.nodes)
  {
    hide Searched, PlanOf, CountsOk, OrderOk, CountdownOrder, CountsIn, Reachable;
    var t, order := PlanOf(g, events, init, start, trace), CountdownOrder(g, Counts(indegree, [start]));
    SourceInPlan(g, events, init, start, trace, a);
    if OrderOk(t, order, t.nodes) {
      OrderOnce(t, order, t.nodes, a.node);
      var k :| 0 <= k < |order| && order[k] == a.node;
      StartComesTwice(g, init, start, trace, indegree, k);
    }
  }

  /** A start behind the first node is processed twice as soon as a node with an arc back to it is processed. */
  lemma StartComesTwice(g: Graph, init: Node, start: Node, trace: seq<Report>, indegree: map<Node, int>, k: nat)
    requires StateSpace.Closed(g) && Searched(g, init, trace) && CountsOk(g, trace, indegree) && g[init] == [start]
             && start != init
    requires CountsIn(g, Counts(indegree, [start])) && k < |CountdownOrder(g, Counts(indegree, [start]))|
    requires var n := CountdownOrder(g, Counts(indegree, [start]))[k]; n in g && start in g[n]
    ensures var order := CountdownOrder(g, Counts(indegree, [start]));
            order[0] == start && exists j :: 0 < j < |order| && order[j] == start
  {
    var c := Counts(indegree, [start]);
    var order := CountdownOrder(g, c);
    StartCountsOne(g, init, start, trace, indegree);
    ComesLater(g, c, start, k);
    var j :| 0 <= j < |order[1..]| && order[1..][j] == start;
    assert order[j + 1] == start;
  }

  lemma SuccessorCounts(g: Graph, init: Node, start: Node, trace: seq<Report>, indegree: map<Node, int>)
    requires StateSpace.Closed(g) && init in g && CountsOk(g, trace, indegree) && g[init] == [start]
    ensures CountsIn(g, Counts(indegree, [start]))
  {
    assert g[init][0] == start;
  }

  lemma NothingOrdered(t: Plan)
    ensures DoneOk(t, {}, {}) && OrderOk(t, [], {})
  {
  }

  lemma SourceInPlan(g: Graph, events: map<ArcId, seq<Event>>, init: Node, start: Node, trace: seq<Report>, a: ArcId)
    requires Searched(g, init, trace) && start != init && Reachable(g, init, a.node) && a.node != init
    ensures a.node in PlanOf(g, events, init, start, trace).nodes && PlanOf(g, events, init, start, trace).g == g
  {
    ReachableIsMet(g, init, trace, a.node);
  }

  lemma OrderOnce(t: Plan, order: seq<Node>, nodes: set<Node>, n: Node)
    requires OrderOk(t, order, nodes) && n in nodes
    ensures n in order && forall j, k :: 0 <= j < k < |order| ==> order[j] != order[k]
  {
  }

  // ---- an instance -------------------------------------------------------------------------------------

  /** A first node, its successor 1, and an arc from 4 back to 1; node 2 leads to 3, which 1 leads to as well. */
  function Returning(): Graph {
    map[0 := [1], 1 := [2, 3, 4], 2 := [3], 3 := [], 4 := [1]]
  }

  lemma {:induction false} StaysIn(g: Graph, arcs: set<ArcId>, s: set<Node>, p: seq<Node>)
    requires IsPath(g, arcs, p) && p[0] in s
    requires forall a :: a in arcs && IsArc(g, a) && a.node in s ==> Target(g, a) in s
    ensures p[|p| - 1] in s
  {
    if |p| > 1 {
      PathButLast(g, arcs, p);
      StaysIn(g, arcs, s, p[..|p| - 1]);
      var a :| a in arcs && IsArc(g, a) && a.node == p[|p| - 2] && Target(g, a) == p[|p| - 1];
    }
  }

  /** An arc to a part of the graph that unflagged arcs do not leave is not flagged. */
  lemma {:induction false} UnflaggedInto(g: Graph, init: Node, trace: seq<Report>, a: ArcId, s: set<Node>)
    requires Searched(g, init, trace) && IsArc(g, a) && Reachable(g, init, a.node) && Target(g, a) in s && a.node !in s
    requires forall b :: b in ForwardArcs(trace) && IsArc(g, b) && b.node in s ==> Target(g, b) in s
    ensures a in ForwardArcs(trace)
  {
    ReportedArcs(trace);
    MetExactlyReachable(g, init, trace);
    assert a in ArcsOf(trace);
    var r :| r in trace && Arc(r) == a;
    var k :| 0 <= k < |trace| && trace[k] == r;
    CycleFlagIsExact(g, init, trace, k);
    if r.isCycle {
      var p :| IsPath(g, ForwardArcs(trace), p) && p[0] == Target(g, a) && p[|p| - 1] == a.node;
      StaysIn(g, ForwardArcs(trace), s, p);
    }
  }

  lemma ReturningReached(n: Node)
    requires n in Returning()
    ensures Reachable(Returning(), 0, n)
  {
    var g := Returning();
    assert IsPathIn(g, [0]);
    ReachableStep(g, 0, 0, 0);
    ReachableStep(g, 0, 1, 0);
    ReachableStep(g, 0, 1, 1);
    ReachableStep(g, 0, 1, 2);
  }

  /** Its unflagged arcs are all but the one that returns. */
  lemma {:induction false} ReturningForward(trace: seq<Report>, a: ArcId)
    requires Searched(Returning(), 0, trace) && IsArc(Returning(), a)
    ensures a in ForwardArcs(trace) <==> a != ArcId(4, 0)
  {
    hide Searched, ForwardArcs, ForwardInto, Reachable;
    var g := Returning();
    ReturningReached(a.node);
    NoReturn(trace);
    if a.node == 0 {
      FirstArcIsForward(trace);
    } else if a.node == 1 && a.index == 2 {
      UnflaggedInto(g, 0, trace, a, {4});
    } else if a.node == 1 && a.index == 0 {
      UnflaggedInto(g, 0, trace, a, {2, 3});
    } else if a.node != 4 {
      UnflaggedInto(g, 0, trace, a, {3});
    }
  }

  lemma FirstArcIsForward(trace: seq<Report>)
    requires Searched(Returning(), 0, trace)
    ensures ArcId(0, 0) in ForwardArcs(trace)
  {
    StartIsForward(Returning(), 0, 1, trace);
  }

  lemma NoReturn(trace: seq<Report>)
    requires Searched(Returning(), 0, trace)
    ensures ArcId(4, 0) !in ForwardArcs(trace)
  {
    var g := Returning();
    var indegree := map n | n in g :: |ForwardInto(g, trace, n)|;
    StartCountsOne(g, 0, 1, trace, indegree);
    StartIsForward(g, 0, 1, trace);
    if ArcId(4, 0) in ForwardArcs(trace) {
      assert {ArcId(0, 0), ArcId(4, 0)} <= ForwardInto(g, trace, 1);
      SubsetSize({ArcId(0, 0), ArcId(4, 0)}, ForwardInto(g, trace, 1));
    }
  }

  lemma SubsetSize(a: set<ArcId>, b: set<ArcId>)
    requires a <= b
    ensures |a| <= |b|
  {
    assert b == a + (b - a);
    assert |b| == |a| + |b - a|;
  }

  lemma ReturningArcs(a: ArcId)
    ensures IsArc(Returning(), a) <==> a in {ArcId(0, 0), ArcId(1, 0), ArcId(1, 1), ArcId(1, 2), ArcId(2, 0),
                                             ArcId(4, 0)}
  {
    if IsArc(Returning(), a) {
      assert a == ArcId(a.node, a.index);
    }
  }

  function ArcsInto(n: Node): set<ArcId> {
    if n == 1 then {ArcId(0, 0)}
    else if n == 2 then {ArcId(1, 0)}
    else if n == 3 then {ArcId(1, 1), ArcId(2, 0)}
    else if n == 4 then {ArcId(1, 2)}
    else {}
  }

  lemma {:induction false} ReturningInto(trace: seq<Report>, n: Node)
    requires Searched(Returning(), 0, trace)
    ensures ForwardInto(Returning(), trace, n) == ArcsInto(n)
  {
    hide Searched, ForwardInto, ArcsInto;
    forall a ensures a in ForwardInto(Returning(), trace, n) <==> a in ArcsInto(n) {
      InReturning(trace, n, a);
    }
  }

  lemma {:induction false} InReturning(trace: seq<Report>, n: Node, a: ArcId)
    requires Searched(Returning(), 0, trace)
    ensures a in ForwardInto(Returning(), trace, n) <==> a in ArcsInto(n)
  {
    hide Searched;
    ReturningArcs(a);
    if IsArc(Returning(), a) {
      ReturningForward(trace, a);
    }
  }

  lemma {:induction false} ReturningCounts(trace: seq<Report>, indegree: map<Node, int>)
    requires Searched(Returning(), 0, trace) && CountsOk(Returning(), trace, indegree)
    ensures indegree == map[0 := 0, 1 := 1, 2 := 1, 3 := 2, 4 := 1]
  {
    hide Searched, ForwardInto;
    forall n: Node ensures ForwardInto(Returning(), trace, n) == ArcsInto(n) {
      ReturningInto(trace, n);
    }
  }

  /** The start is processed twice, and the second time lets node 3 be processed before node 2, which leads to it: the
      markings that 2 sends to 3 are never looked at. */
  lemma {:induction false} ReturnOvertakes(events: map<ArcId, seq<Event>>, trace: seq<Report>, indegree: map<Node, int>)
    requires Searched(Returning(), 0, trace) && CountsOk(Returning(), trace, indegree)
    requires ArcId(0, 0) in events && events[ArcId(0, 0)] == []
    ensures StateSpace.Closed(Returning()) && CountsIn(Returning(), Counts(indegree, [1]))
            && 0 in Returning() && |Returning()[0]| > 0 && StartNode(Returning(), events, 0) == 1
            && !StartOk(Returning(), 0, 1)
    ensures CountdownOrder(Returning(), Counts(indegree, [1])) == [1, 4, 1, 3, 2]
  {
    ReturningCounts(trace, indegree);
    ReturningStart(events);
    hide Searched, CountsOk, StartOk, Returning, StartNode;
    ReturningOrder();
  }

  lemma {:induction false} ReturningStart(events: map<ArcId, seq<Event>>)
    requires ArcId(0, 0) in events && events[ArcId(0, 0)] == []
    ensures 0 in Returning() && |Returning()[0]| > 0 && StartNode(Returning(), events, 0) == 1
    ensures !StartOk(Returning(), 0, 1)
  {
    ReturningReached(4);
    assert Target(Returning(), ArcId(4, 0)) == 1;
  }

  /** The five turns of the walk. */
  function Turn(k: nat): Counts {
    if k == 0 then Counts(map[0 := 0, 1 := 1, 2 := 1, 3 := 2, 4 := 1], [1])
    else if k == 1 then Counts(map[0 := 0, 1 := 1, 2 := 0, 3 := 1, 4 := 0], [2, 4])
    else if k == 2 then Counts(map[0 := 0, 1 := 0, 2 := 0, 3 := 1, 4 := 0], [2, 1])
    else if k == 3 then Counts(map[0 := 0, 1 := 0, 2 := -1, 3 := 0, 4 := -1], [2, 3])
    else if k == 4 then Counts(map[0 := 0, 1 := 0, 2 := -1, 3 := 0, 4 := -1], [2])
    else Counts(map[0 := 0, 1 := 0, 2 := -1, 3 := -1, 4 := -1], [])
  }

  lemma {:induction false} TurnsAreCounts(k: nat)
    ensures StateSpace.Closed(Returning()) && CountsIn(Returning(), Turn(k))
  {
    if k == 0 || k == 2 {
      assert Turn(k).queue[|Turn(k).queue| - 1] == 1;
    }
  }

  /** The start has arcs to 2, 3 and 4. */
  lemma {:induction false} StartLowers(k: nat)
    requires k == 0 || k == 2
    ensures Turn(k).queue != []
    ensures var c := Rest(Turn(k));
            2 in c.indegree && 3 in Lower(2, c).indegree && 4 in Lower(3, Lower(2, c)).indegree
            && Lower(4, Lower(3, Lower(2, c))) == Turn(k + 1)
  {
    var c := Rest(Turn(k));
    assert c.queue == if k == 0 then [] else [2];
    var c1 := Lower(2, c);
    assert c1 == Counts(if k == 0 then map[0 := 0, 1 := 1, 2 := 0, 3 := 2, 4 := 1]
                        else map[0 := 0, 1 := 0, 2 := -1, 3 := 1, 4 := 0], [2]);
    var c2 := Lower(3, c1);
    assert c2 == if k == 0 then Counts(map[0 := 0, 1 := 1, 2 := 0, 3 := 1, 4 := 1], [2])
                 else Counts(map[0 := 0, 1 := 0, 2 := -1, 3 := 0, 4 := 0], [2, 3]);
  }

  lemma {:induction false} NextTurnOfStart(k: nat)
    requires k == 0 || k == 2
    ensures StateSpace.Closed(Returning()) && CountsIn(Returning(), Turn(k)) && Turn(k).queue != []
    ensures AfterNode(Returning(), Turn(k)) == Turn(k + 1)
  {
    TurnsAreCounts(k);
    StartLowers(k);
    hide ToDo, Lower;
    LowerThree(Returning(), 1, Rest(Turn(k)));
    hide LowerUpTo, CountsIn, StateSpace.Closed;
  }

  lemma {:induction false} NextTurn(k: nat)
    requires k < 5
    ensures StateSpace.Closed(Returning()) && CountsIn(Returning(), Turn(k)) && Turn(k).queue != []
    ensures AfterNode(Returning(), Turn(k)) == Turn(k + 1)
  {
    hide ToDo;
    TurnsAreCounts(k);
    if k == 0 || k == 2 {
      NextTurnOfStart(k);
    } else if k == 1 {
      LowerOne(Returning(), 4, Rest(Turn(k)));
    } else if k == 4 {
      LowerOne(Returning(), 2, Rest(Turn(k)));
    }
  }

  lemma {:induction false} ReturningOrder()
    ensures StateSpace.Closed(Returning()) && CountsIn(Returning(), Turn(0))
            && CountdownOrder(Returning(), Turn(0)) == [1, 4, 1, 3, 2]
  {
    hide ToDo, AfterNode, CountdownOrder;
    OrderFrom(4);
    OrderFrom(3);
    OrderFrom(2);
    OrderFrom(1);
    OrderFrom(0);
    TurnsAreCounts(5);
    EmptyOrder(Returning(), Turn(5));
  }

  lemma {:induction false} OrderFrom(k: nat)
    requires k < 5
    ensures StateSpace.Closed(Returning()) && CountsIn(Returning(), Turn(k)) && CountsIn(Returning(), Turn(k + 1))
            && Turn(k).queue != []
    ensures CountdownOrder(Returning(), Turn(k)) == [Turn(k).queue[|Turn(k).queue| - 1]]
            + CountdownOrder(Returning(), Turn(k + 1))
  {
    hide ToDo, AfterNode, CountdownOrder;
    NextTurn(k);
    NextInOrder(Returning(), Turn(k));
  }

  lemma LowerOne(g: Graph, n: Node, c: Counts)
    requires StateSpace.Closed(g) && n in g && |g[n]| == 1 && CountsIn(g, c)
    ensures g[n][0] in g && LowerUpTo(g, n, 1, c) == Lower(g[n][0], c)
  {
    assert LowerUpTo(g, n, 0, c) == c;
  }

  lemma LowerThree(g: Graph, n: Node, c: Counts)
    requires StateSpace.Closed(g) && n in g && |g[n]| == 3 && CountsIn(g, c)
    ensures g[n][0] in g && g[n][1] in g && g[n][2] in g
    ensures LowerUpTo(g, n, 3, c) == Lower(g[n][2], Lower(g[n][1], Lower(g[n][0], c)))
  {
    assert LowerUpTo(g, n, 0, c) == c;
    assert LowerUpTo(g, n, 1, c) == Lower(g[n][0], c);
    assert LowerUpTo(g, n, 2, c) == Lower(g[n][1], Lower(g[n][0], c));
  }
}
