/** The state space as a graph, and the depth-first search that tells apart the arcs that close cycles. */
module StateSpace {

  type Node = nat

  /** For every node the targets of its arcs, in order. */
  type Graph = map<Node, seq<Node>>

  datatype ArcId = ArcId(node: Node, index: nat)

  datatype Report = Report(node: Node, index: nat, visited: bool, isCycle: bool)

  ghost predicate Closed(g: Graph) {
    forall n, i :: n in g && 0 <= i < |g[n]| ==> g[n][i] in g
  }

  ghost predicate IsArc(g: Graph, a: ArcId) {
    a.node in g && a.index < |g[a.node]|
  }

  ghost function Target(g: Graph, a: ArcId): Node
    requires IsArc(g, a)
  {
    g[a.node][a.index]
  }

  /** A path along arcs of `arcs`. */
  ghost predicate IsPath(g: Graph, arcs: set<ArcId>, p: seq<Node>) {
    && |p| > 0
    && forall k :: 0 <= k < |p| - 1 ==> Step(g, arcs, p[k], p[k + 1])
  }

  ghost predicate Step(g: Graph, arcs: set<ArcId>, from: Node, to: Node) {
    exists a :: a in arcs && IsArc(g, a) && a.node == from && Target(g, a) == to
  }

  ghost predicate Connected(g: Graph, arcs: set<ArcId>, from: Node, to: Node) {
    exists p :: IsPath(g, arcs, p) && p[0] == from && p[|p| - 1] == to
  }

  ghost predicate Reachable(g: Graph, from: Node, to: Node) {
    exists p :: IsPathIn(g, p) && p[0] == from && p[|p| - 1] == to
  }

  ghost predicate IsPathIn(g: Graph, p: seq<Node>) {
    |p| > 0 && forall k :: 0 <= k < |p| - 1 ==> p[k] in g && p[k + 1] in g[p[k]]
  }

  lemma PathGrows(g: Graph, arcs: set<ArcId>, more: set<ArcId>, p: seq<Node>)
    requires IsPath(g, arcs, p) && arcs <= more
    ensures IsPath(g, more, p)
  {
    forall k | 0 <= k < |p| - 1 ensures Step(g, more, p[k], p[k + 1]) {
      assert Step(g, arcs, p[k], p[k + 1]);
    }
  }

  lemma ConnectedGrows(g: Graph, arcs: set<ArcId>, more: set<ArcId>, from: Node, to: Node)
    requires Connected(g, arcs, from, to) && arcs <= more
    ensures Connected(g, more, from, to)
  {
    var p :| IsPath(g, arcs, p) && p[0] == from && p[|p| - 1] == to;
    PathGrows(g, arcs, more, p);
  }

  lemma PathButLast(g: Graph, arcs: set<ArcId>, p: seq<Node>)
    requires IsPath(g, arcs, p) && |p| > 1
    ensures IsPath(g, arcs, p[..|p| - 1])
    ensures Step(g, arcs, p[|p| - 2], p[|p| - 1])
  {
    var q := p[..|p| - 1];
    forall k | 0 <= k < |q| - 1 ensures Step(g, arcs, q[k], q[k + 1]) {
      assert Step(g, arcs, p[k], p[k + 1]);
    }
    assert Step(g, arcs, p[|p| - 2], p[|p| - 2 + 1]);
  }

  lemma ReachableStep(g: Graph, from: Node, n: Node, i: nat)
    requires Reachable(g, from, n) && n in g && i < |g[n]|
    ensures Reachable(g, from, g[n][i])
  {
    var p :| IsPathIn(g, p) && p[0] == from && p[|p| - 1] == n;
    var q := p + [g[n][i]];
    assert IsPathIn(g, q) by {
      forall k | 0 <= k < |q| - 1 ensures q[k] in g && q[k + 1] in g[q[k]] {
        assert q[k] == p[k];
      }
    }
  }

  lemma {:induction false} ReachableInClosed(g: Graph, p: seq<Node>, s: set<Node>)
    requires IsPathIn(g, p) && p[0] in s
    requires forall n, i :: n in s && n in g && 0 <= i < |g[n]| ==> g[n][i] in s
    ensures p[|p| - 1] in s
  {
    if |p| > 1 {
      var i :| 0 <= i < |g[p[0]]| && g[p[0]][i] == p[1];
      ReachableInClosed(g, p[1..], s);
    }
  }

  // ---- what the search reports ---------------------------------------------------------------

  ghost function Arc(r: Report): ArcId {
    ArcId(r.node, r.index)
  }

  ghost function ArcsOf(trace: seq<Report>): set<ArcId> {
    if trace == [] then {} else ArcsOf(trace[..|trace| - 1]) + {Arc(trace[|trace| - 1])}
  }

  /** The arcs that were reported as not closing a cycle. */
  ghost function ForwardArcs(trace: seq<Report>): set<ArcId> {
    if trace == [] then {}
    else ForwardArcs(trace[..|trace| - 1]) + if trace[|trace| - 1].isCycle then {} else {Arc(trace[|trace| - 1])}
  }

  /** The nodes the search has met after reporting `trace`. */
  ghost function Met(g: Graph, init: Node, trace: seq<Report>): set<Node>
    requires forall r :: r in trace ==> IsArc(g, Arc(r))
  {
    if trace == [] then {init} else Met(g, init, trace[..|trace| - 1]) + {Target(g, Arc(trace[|trace| - 1]))}
  }

  lemma Appended(trace: seq<Report>, r: Report)
    ensures (trace + [r])[..|trace|] == trace
    ensures ArcsOf(trace + [r]) == ArcsOf(trace) + {Arc(r)}
    ensures ForwardArcs(trace + [r]) == ForwardArcs(trace) + if r.isCycle then {} else {Arc(r)}
  {
    assert (trace + [r])[..|trace|] == trace;
  }

  lemma {:induction false} ReportedArcs(trace: seq<Report>)
    ensures forall r :: r in trace ==> Arc(r) in ArcsOf(trace)
    ensures forall r :: r in trace && !r.isCycle ==> Arc(r) in ForwardArcs(trace)
    ensures forall a :: a in ArcsOf(trace) ==> exists r :: r in trace && Arc(r) == a
    ensures forall a :: a in ForwardArcs(trace) ==> exists r :: r in trace && !r.isCycle && Arc(r) == a
  {
    if trace != [] {
      ReportedArcs(trace[..|trace| - 1]);
    }
  }

  ghost predicate NoRepeats(trace: seq<Report>) {
    forall j, k :: 0 <= j < k < |trace| ==> Arc(trace[j]) != Arc(trace[k])
  }

  // ---- the search keeps ------------------------------------------------------------------------

  /** The stack is a path of forward arcs through distinct nodes; `pos` holds the arc each node has come to. */
  ghost predicate StackOk(g: Graph, stack: seq<Node>, pos: seq<int>, visited: set<Node>, forward: set<ArcId>) {
    && |stack| == |pos| && visited <= g.Keys
    && (forall k :: 0 <= k < |stack| ==> stack[k] in visited && -1 <= pos[k] < |g[stack[k]]|)
    && (forall j, k :: 0 <= j < k < |stack| ==> stack[j] != stack[k])
    && (forall k :: 0 <= k < |stack| - 1 ==> pos[k] >= 0 && g[stack[k]][pos[k]] == stack[k + 1]
                                             && ArcId(stack[k], pos[k]) in forward)
  }

  /** The reported arcs are all arcs of the finished nodes and the arcs of the nodes on the stack up to their
      positions. */
  ghost predicate ReportedOk(g: Graph, stack: seq<Node>, pos: seq<int>, visited: set<Node>, reported: set<ArcId>) {
    && |stack| == |pos|
    && (forall a :: a in reported ==> IsArc(g, a) && a.node in visited && Target(g, a) in visited)
    && (forall n, i: nat :: n in visited && n !in stack && n in g && i < |g[n]| ==> ArcId(n, i) in reported)
    && (forall k, i: nat :: 0 <= k < |stack| ==> (ArcId(stack[k], i) in reported <==> i <= pos[k]))
  }

  /** Finished nodes are ranked: a forward arc of a finished node leads to a finished node of smaller rank, and one of a
      node on the stack leads to a finished node or is the arc to the next node on the stack. */
  ghost predicate RankOk(g: Graph, stack: seq<Node>, pos: seq<int>, visited: set<Node>, forward: set<ArcId>,
                         rank: map<Node, nat>) {
    && |stack| == |pos|
    && (forall n :: n in rank <==> n in visited && n !in stack)
    && (forall n :: n in rank ==> rank[n] < |rank|)
    && (forall a :: a in forward ==> IsArc(g, a) && a.node in visited)
    && (forall a :: a in forward && a.node in rank ==> Target(g, a) in rank && rank[Target(g, a)] < rank[a.node])
    && (forall a, k :: a in forward && 0 <= k < |stack| && a.node == stack[k] ==>
          Target(g, a) in rank || (a.index == pos[k] && k + 1 < |stack|))
  }

  /** An arc that was reported as closing a cycle does so: forward arcs lead from its target to its source. */
  ghost predicate CyclesOk(g: Graph, trace: seq<Report>, forward: set<ArcId>) {
    forall k :: 0 <= k < |trace| && trace[k].isCycle ==>
      IsArc(g, Arc(trace[k])) && Connected(g, forward, Target(g, Arc(trace[k])), trace[k].node)
  }

  /** The flag `visited` of a report tells whether the target had been met before. */
  ghost predicate FlagsOk(g: Graph, init: Node, trace: seq<Report>)
    requires forall r :: r in trace ==> IsArc(g, Arc(r))
  {
    forall k :: 0 <= k < |trace| ==> (trace[k].visited <==> Target(g, Arc(trace[k])) in Met(g, init, trace[..k]))
  }

  lemma RankPop(g: Graph, stack: seq<Node>, pos: seq<int>, visited: set<Node>, forward: set<ArcId>,
                rank: map<Node, nat>)
    requires StackOk(g, stack, pos, visited, forward) && RankOk(g, stack, pos, visited, forward, rank) && stack != []
    ensures StackOk(g, stack[..|stack| - 1], pos[..|pos| - 1], visited, forward)
    ensures RankOk(g, stack[..|stack| - 1], pos[..|pos| - 1], visited, forward, rank[stack[|stack| - 1] := |rank|])
  {
    var top := stack[|stack| - 1];
    var rest, rest' := stack[..|stack| - 1], pos[..|pos| - 1];
    var rank' := rank[top := |rank|];
    assert top !in rank;
    assert |rank'| == |rank| + 1 by {
      assert rank'.Keys == rank.Keys + {top};
    }
    forall a | a in forward && a.node in rank' ensures Target(g, a) in rank' && rank'[Target(g, a)] < rank'[a.node] {
      if a.node == top {
        assert a.node == stack[|stack| - 1];
      }
    }
  }

  lemma ReportedPop(g: Graph, stack: seq<Node>, pos: seq<int>, visited: set<Node>, forward: set<ArcId>,
                    reported: set<ArcId>)
    requires StackOk(g, stack, pos, visited, forward) && ReportedOk(g, stack, pos, visited, reported) && stack != []
    requires pos[|pos| - 1] + 1 == |g[stack[|stack| - 1]]|
    ensures ReportedOk(g, stack[..|stack| - 1], pos[..|pos| - 1], visited, reported)
  {
    var top := stack[|stack| - 1];
    forall n, i: nat | n in visited && n !in stack[..|stack| - 1] && n in g && i < |g[n]|
          ensures ArcId(n, i) in reported {
      if n == top {
        assert ArcId(stack[|stack| - 1], i) in reported <==> i <= pos[|stack| - 1];
      } else {
        assert n !in stack;
      }
    }
  }

  /** Reporting the next arc of the top node, whose target has been met. */
  lemma RankNext(g: Graph, stack: seq<Node>, pos: seq<int>, visited: set<Node>, forward: set<ArcId>,
                 rank: map<Node, nat>, a: ArcId, isCycle: bool)
    requires StackOk(g, stack, pos, visited, forward) && RankOk(g, stack, pos, visited, forward, rank) && stack != []
    requires a == ArcId(stack[|stack| - 1], pos[|pos| - 1] + 1) && IsArc(g, a)
    requires Target(g, a) in visited && (isCycle <==> Target(g, a) in stack)
    ensures StackOk(g, stack, pos[|pos| - 1 := a.index], visited, forward + if isCycle then {} else {a})
    ensures RankOk(g, stack, pos[|pos| - 1 := a.index], visited, forward + if isCycle then {} else {a}, rank)
  {
  }

  lemma ReportedNext(g: Graph, stack: seq<Node>, pos: seq<int>, visited: set<Node>, forward: set<ArcId>,
                     reported: set<ArcId>, a: ArcId)
    requires StackOk(g, stack, pos, visited, forward) && ReportedOk(g, stack, pos, visited, reported) && stack != []
    requires a == ArcId(stack[|stack| - 1], pos[|pos| - 1] + 1) && IsArc(g, a) && Target(g, a) in visited
    ensures a !in reported
    ensures ReportedOk(g, stack, pos[|pos| - 1 := a.index], visited, reported + {a})
  {
  }

  /** Reporting the next arc of the top node, whose target is new and goes on the stack. */
  lemma RankPush(g: Graph, stack: seq<Node>, pos: seq<int>, visited: set<Node>, forward: set<ArcId>,
                 rank: map<Node, nat>, a: ArcId)
    requires StackOk(g, stack, pos, visited, forward) && RankOk(g, stack, pos, visited, forward, rank) && stack != []
    requires a == ArcId(stack[|stack| - 1], pos[|pos| - 1] + 1) && IsArc(g, a)
    requires Target(g, a) !in visited && Target(g, a) in g
    ensures StackOk(g, stack + [Target(g, a)], pos[|pos| - 1 := a.index] + [-1], visited + {Target(g, a)},
                    forward + {a})
    ensures RankOk(g, stack + [Target(g, a)], pos[|pos| - 1 := a.index] + [-1], visited + {Target(g, a)},
                   forward + {a}, rank)
  {
  }

  lemma ReportedPush(g: Graph, stack: seq<Node>, pos: seq<int>, visited: set<Node>, forward: set<ArcId>,
                     reported: set<ArcId>, a: ArcId)
    requires StackOk(g, stack, pos, visited, forward) && ReportedOk(g, stack, pos, visited, reported) && stack != []
    requires a == ArcId(stack[|stack| - 1], pos[|pos| - 1] + 1) && IsArc(g, a) && Target(g, a) !in visited
    ensures a !in reported
    ensures ReportedOk(g, stack + [Target(g, a)], pos[|pos| - 1 := a.index] + [-1], visited + {Target(g, a)},
                       reported + {a})
  {
  }

  /** A reported cycle closes: the stack from the target up is a path of forward arcs to the source. */
  lemma StackPath(g: Graph, stack: seq<Node>, pos: seq<int>, visited: set<Node>, forward: set<ArcId>, to: Node)
    requires StackOk(g, stack, pos, visited, forward) && to in stack
    ensures Connected(g, forward, to, stack[|stack| - 1])
  {
    var k :| 0 <= k < |stack| && stack[k] == to;
    var p := stack[k..];
    assert IsPath(g, forward, p) by {
      forall j | 0 <= j < |p| - 1 ensures Step(g, forward, p[j], p[j + 1]) {
        var a := ArcId(stack[k + j], pos[k + j]);
        assert a in forward && Target(g, a) == stack[k + j + 1];
      }
    }
  }

  lemma CyclesNext(g: Graph, trace: seq<Report>, forward: set<ArcId>, more: set<ArcId>, r: Report)
    requires CyclesOk(g, trace, forward) && forward <= more
    requires r.isCycle ==> IsArc(g, Arc(r)) && Connected(g, more, Target(g, Arc(r)), r.node)
    ensures CyclesOk(g, trace + [r], more)
  {
    var all := trace + [r];
    forall k | 0 <= k < |all| && all[k].isCycle
      ensures IsArc(g, Arc(all[k])) && Connected(g, more, Target(g, Arc(all[k])), all[k].node)
    {
      if k < |trace| {
        ConnectedGrows(g, forward, more, Target(g, Arc(trace[k])), trace[k].node);
      }
    }
  }

  lemma FlagsNext(g: Graph, init: Node, trace: seq<Report>, r: Report)
    requires forall x :: x in trace ==> IsArc(g, Arc(x))
    requires IsArc(g, Arc(r)) && FlagsOk(g, init, trace)
    requires r.visited <==> Target(g, Arc(r)) in Met(g, init, trace)
    ensures FlagsOk(g, init, trace + [r])
    ensures Met(g, init, trace + [r]) == Met(g, init, trace) + {Target(g, Arc(r))}
  {
    var all := trace + [r];
    assert all[..|trace|] == trace;
    forall k | 0 <= k < |all| ensures all[k].visited <==> Target(g, Arc(all[k])) in Met(g, init, all[..k]) {
      if k < |trace| {
        assert all[..k] == trace[..k];
      }
    }
  }

  lemma NoRepeatsNext(trace: seq<Report>, r: Report)
    requires NoRepeats(trace) && Arc(r) !in ArcsOf(trace)
    ensures NoRepeats(trace + [r])
  {
    ReportedArcs(trace);
  }

  // ---- the search ------------------------------------------------------------------------------

  /** The forward arcs have no cycle. */
  ghost predicate Acyclic(g: Graph, arcs: set<ArcId>) {
    exists rank :: Descends(g, arcs, rank)
  }

  ghost predicate Descends(g: Graph, arcs: set<ArcId>, rank: map<Node, nat>) {
    forall a :: a in arcs ==> IsArc(g, a) && a.node in rank && Target(g, a) in rank && rank[Target(g, a)] < rank[a.node]
  }

  /** What the search keeps. */
  ghost predicate SearchOk(g: Graph, init: Node, stack: seq<Node>, pos: seq<int>, visited: set<Node>,
                           trace: seq<Report>, rank: map<Node, nat>) {
    && StackOk(g, stack, pos, visited, ForwardArcs(trace))
    && ReportedOk(g, stack, pos, visited, ArcsOf(trace))
    && RankOk(g, stack, pos, visited, ForwardArcs(trace), rank)
    && CyclesOk(g, trace, ForwardArcs(trace))
    && NoRepeats(trace) && (forall r :: r in trace ==> IsArc(g, Arc(r)) && (r.isCycle ==> r.visited))
    && FlagsOk(g, init, trace) && visited == Met(g, init, trace) && init in visited
    && (forall n :: n in visited ==> Reachable(g, init, n))
  }

  lemma {:induction false} PopKeeps(g: Graph, init: Node, stack: seq<Node>, pos: seq<int>, visited: set<Node>,
                                    trace: seq<Report>, rank: map<Node, nat>)
    requires SearchOk(g, init, stack, pos, visited, trace, rank) && stack != []
    requires pos[|pos| - 1] + 1 == |g[stack[|stack| - 1]]|
    ensures SearchOk(g, init, stack[..|stack| - 1], pos[..|pos| - 1], visited, trace,
                     rank[stack[|stack| - 1] := |rank|])
  {
    hide StackOk, ReportedOk, RankOk, CyclesOk, FlagsOk, NoRepeats, Met, Reachable;
    RankPop(g, stack, pos, visited, ForwardArcs(trace), rank);
    ReportedPop(g, stack, pos, visited, ForwardArcs(trace), ArcsOf(trace));
  }

  /** The report of arc `pos + 1` of the top node. */
  ghost predicate Reports(g: Graph, stack: seq<Node>, pos: seq<int>, visited: set<Node>, r: Report) {
    && |stack| == |pos| > 0 && r.node == stack[|stack| - 1] && r.index == pos[|pos| - 1] + 1
    && IsArc(g, Arc(r)) && Target(g, Arc(r)) in g
    && (r.visited <==> Target(g, Arc(r)) in visited)
    && (r.isCycle <==> r.visited && Target(g, Arc(r)) in stack)
  }

  lemma {:induction false} NextKeeps(g: Graph, init: Node, stack: seq<Node>, pos: seq<int>, visited: set<Node>,
                                     trace: seq<Report>, rank: map<Node, nat>, r: Report)
    requires SearchOk(g, init, stack, pos, visited, trace, rank) && Reports(g, stack, pos, visited, r) && r.visited
    ensures SearchOk(g, init, stack, pos[|pos| - 1 := r.index], visited, trace + [r], rank)
  {
    hide StackOk, ReportedOk, RankOk, CyclesOk, FlagsOk, NoRepeats, Met, Connected, Reachable, ForwardArcs, ArcsOf;
    var a, forward := Arc(r), ForwardArcs(trace);
    Appended(trace, r);
    FlagsNext(g, init, trace, r);
    RankNext(g, stack, pos, visited, forward, rank, a, r.isCycle);
    ReportedNext(g, stack, pos, visited, forward, ArcsOf(trace), a);
    NoRepeatsNext(trace, r);
    if r.isCycle {
      StackPath(g, stack, pos, visited, forward, Target(g, a));
      ConnectedGrows(g, forward, ForwardArcs(trace + [r]), Target(g, a), r.node);
    }
    CyclesNext(g, trace, forward, ForwardArcs(trace + [r]), r);
    assert visited + {Target(g, a)} == visited;
  }

  lemma {:induction false} PushKeeps(g: Graph, init: Node, stack: seq<Node>, pos: seq<int>, visited: set<Node>,
                                     trace: seq<Report>, rank: map<Node, nat>, r: Report)
    requires SearchOk(g, init, stack, pos, visited, trace, rank) && Reports(g, stack, pos, visited, r) && !r.visited
    ensures SearchOk(g, init, stack + [Target(g, Arc(r))], pos[|pos| - 1 := r.index] + [-1],
                     visited + {Target(g, Arc(r))}, trace + [r], rank)
  {
    hide ReportedOk, RankOk, CyclesOk, FlagsOk, NoRepeats, Met, Connected, Reachable, ForwardArcs, ArcsOf;
    var a, forward := Arc(r), ForwardArcs(trace);
    Appended(trace, r);
    FlagsNext(g, init, trace, r);
    RankPush(g, stack, pos, visited, forward, rank, a);
    ReportedPush(g, stack, pos, visited, forward, ArcsOf(trace), a);
    NoRepeatsNext(trace, r);
    CyclesNext(g, trace, forward, ForwardArcs(trace + [r]), r);
    ReachableStep(g, init, r.node, r.index);
  }

  /** What the reports of a finished search amount to. */
  ghost predicate Searched(g: Graph, init: Node, trace: seq<Report>) {
    && Closed(g) && init in g && NoRepeats(trace)
    && (forall a :: a in ArcsOf(trace) <==> IsArc(g, a) && Reachable(g, init, a.node))
    && (forall r :: r in trace ==> IsArc(g, Arc(r)) && (r.isCycle ==> r.visited))
    && FlagsOk(g, init, trace)
    && CyclesOk(g, trace, ForwardArcs(trace))
    && Acyclic(g, ForwardArcs(trace))
  }

  method DepthFirstSearch(g: Graph, init: Node) returns (trace: seq<Report>)
    requires Closed(g) && init in g
    ensures Searched(g, init, trace)
  {
    hide SearchOk, Searched, FlagsOk, CyclesOk, NoRepeats, Acyclic, Reachable, ArcsOf, ForwardArcs;
    var stack, arcs, stackSet, visited := [init], [-1], {init}, {init};
    ghost var rank: map<Node, nat> := map[];
    trace := [];
    SearchStarts(g, init);
    while stack != []
      invariant forall n :: n in stackSet <==> n in stack
      invariant StackOk(g, stack, arcs, visited, ForwardArcs(trace))
      invariant SearchOk(g, init, stack, arcs, visited, trace, rank)
      decreases g.Keys - visited, |stack|, if stack == [] then 0 else |g[stack[|stack| - 1]]| - arcs[|arcs| - 1]
    {
      var s := stack[|stack| - 1];
      var c := arcs[|arcs| - 1] + 1;
      if |g[s]| == c {
        PopKeeps(g, init, stack, arcs, visited, trace, rank);
        rank := rank[s := |rank|];
        stackSet := stackSet - {s};
        stack, arcs := stack[..|stack| - 1], arcs[..|arcs| - 1];
      } else {
        var node := g[s][c];
        var v := node in visited;
        var isCycle := v && node in stackSet;
        var r := Report(s, c, v, isCycle);
        if v {
          NextKeeps(g, init, stack, arcs, visited, trace, rank, r);
        } else {
          PushKeeps(g, init, stack, arcs, visited, trace, rank, r);
        }
        arcs := arcs[|arcs| - 1 := c];
        trace := trace + [r];
        if !v {
          visited := visited + {node};
          stack, stackSet, arcs := stack + [node], stackSet + {node}, arcs + [-1];
        }
      }
      SearchHasStack(g, init, stack, arcs, visited, trace, rank);
    }
    SearchEnds(g, init, stack, arcs, visited, trace, rank);
  }

  lemma SearchEnds(g: Graph, init: Node, stack: seq<Node>, pos: seq<int>, visited: set<Node>, trace: seq<Report>,
                   rank: map<Node, nat>)
    requires Closed(g) && init in g
    requires SearchOk(g, init, stack, pos, visited, trace, rank) && stack == []
    ensures Searched(g, init, trace)
  {
    SearchDone(g, init, visited, ArcsOf(trace));
    assert Descends(g, ForwardArcs(trace), rank);
  }

  lemma SearchStarts(g: Graph, init: Node)
    requires init in g
    ensures SearchOk(g, init, [init], [-1], {init}, [], map[])
  {
    assert IsPathIn(g, [init]);
  }

  lemma SearchHasStack(g: Graph, init: Node, stack: seq<Node>, pos: seq<int>, visited: set<Node>, trace: seq<Report>,
                       rank: map<Node, nat>)
    requires SearchOk(g, init, stack, pos, visited, trace, rank)
    ensures StackOk(g, stack, pos, visited, ForwardArcs(trace))
  {
  }

  lemma SearchDone(g: Graph, init: Node, visited: set<Node>, reported: set<ArcId>)
    requires ReportedOk(g, [], [], visited, reported) && init in visited && visited <= g.Keys
    requires forall n :: n in visited ==> Reachable(g, init, n)
    ensures forall a :: a in reported <==> IsArc(g, a) && Reachable(g, init, a.node)
  {
    forall a | IsArc(g, a) && Reachable(g, init, a.node) ensures a in reported {
      var p :| IsPathIn(g, p) && p[0] == init && p[|p| - 1] == a.node;
      forall n, i | n in visited && n in g && 0 <= i < |g[n]| ensures g[n][i] in visited {
        assert Target(g, ArcId(n, i)) in visited;
      }
      ReachableInClosed(g, p, visited);
    }
  }

  lemma {:induction false} PathDescends(g: Graph, arcs: set<ArcId>, rank: map<Node, nat>, p: seq<Node>)
    requires Descends(g, arcs, rank) && IsPath(g, arcs, p) && p[0] in rank
    ensures p[|p| - 1] in rank && rank[p[|p| - 1]] <= rank[p[0]]
  {
    if |p| > 1 {
      assert Step(g, arcs, p[0], p[1]);
      var q := p[1..];
      forall k | 0 <= k < |q| - 1 ensures Step(g, arcs, q[k], q[k + 1]) {
        assert Step(g, arcs, p[k + 1], p[k + 2]);
      }
      PathDescends(g, arcs, rank, q);
    }
  }

  /** An arc is flagged as a cycle exactly when the unflagged arcs lead back from its target to its source. */
  lemma CycleFlagIsExact(g: Graph, init: Node, trace: seq<Report>, k: nat)
    requires Searched(g, init, trace) && k < |trace|
    ensures trace[k].isCycle <==> Connected(g, ForwardArcs(trace), Target(g, Arc(trace[k])), trace[k].node)
  {
    var a, forward := Arc(trace[k]), ForwardArcs(trace);
    if !trace[k].isCycle && Connected(g, forward, Target(g, a), a.node) {
      ReportedArcs(trace);
      var rank :| Descends(g, forward, rank);
      var p :| IsPath(g, forward, p) && p[0] == Target(g, a) && p[|p| - 1] == a.node;
      PathDescends(g, forward, rank, p);
    }
  }

  /** Every node that the search meets, except the first, has an unflagged arc into it. */
  lemma {:induction false} MetByForwardArc(g: Graph, init: Node, trace: seq<Report>, n: Node)
    requires forall r :: r in trace ==> IsArc(g, Arc(r)) && (r.isCycle ==> r.visited)
    requires FlagsOk(g, init, trace) && n in Met(g, init, trace) && n != init
    ensures exists a :: a in ForwardArcs(trace) && IsArc(g, a) && Target(g, a) == n
  {
    var before, r := trace[..|trace| - 1], trace[|trace| - 1];
    assert trace == before + [r];
    Appended(before, r);
    if n in Met(g, init, before) {
      assert FlagsOk(g, init, before) by {
        forall k | 0 <= k < |before| ensures before[k].visited
              <==> Target(g, Arc(before[k])) in Met(g, init, before[..k]) {
          assert before[..k] == trace[..k];
        }
      }
      MetByForwardArc(g, init, before, n);
    } else {
      assert Arc(r) in ForwardArcs(trace);
    }
  }

  lemma {:induction false} MetTargets(g: Graph, init: Node, trace: seq<Report>)
    requires forall r :: r in trace ==> IsArc(g, Arc(r))
    ensures forall n :: n in Met(g, init, trace) <==>
        n == init || exists a :: a in ArcsOf(trace) && IsArc(g, a) && Target(g, a) == n
  {
    if trace != [] {
      MetTargets(g, init, trace[..|trace| - 1]);
    }
    ReportedArcs(trace);
  }

  /** Nodes above `n`: the measure of inductions against the arcs. */
  ghost function Above(rank: map<Node, nat>, n: Node): set<Node>
    requires n in rank
  {
    set m | m in rank && rank[m] > rank[n]
  }

  lemma AboveShrinks(rank: map<Node, nat>, n: Node, up: Node)
    requires n in rank && up in rank && rank[up] > rank[n]
    ensures Above(rank, up) < Above(rank, n)
  {
    assert up in Above(rank, n) && up !in Above(rank, up);
  }

  lemma {:induction false} MetIsReachable(g: Graph, init: Node, trace: seq<Report>)
    requires init in g && Closed(g) && forall r :: r in trace ==> IsArc(g, Arc(r)) && Reachable(g, init, r.node)
    ensures forall n :: n in Met(g, init, trace) ==> n in g && Reachable(g, init, n)
  {
    if trace == [] {
      assert IsPathIn(g, [init]);
    } else {
      var r := trace[|trace| - 1];
      MetIsReachable(g, init, trace[..|trace| - 1]);
      ReachableStep(g, init, r.node, r.index);
    }
  }

  lemma {:induction false} ReachableIsMet(g: Graph, init: Node, trace: seq<Report>, n: Node)
    requires Searched(g, init, trace) && Reachable(g, init, n)
    ensures n in Met(g, init, trace)
  {
    MetTargets(g, init, trace);
    var p :| IsPathIn(g, p) && p[0] == init && p[|p| - 1] == n;
    if |p| > 1 {
      var q := p[..|p| - 1];
      var from := p[|p| - 2];
      assert IsPathIn(g, q);
      assert Reachable(g, init, from);
      assert p[|p| - 2 + 1] in g[from];
      var i :| 0 <= i < |g[from]| && g[from][i] == n;
      assert ArcId(from, i) in ArcsOf(trace);
    }
  }

  /** The nodes the search meets are the reachable ones. */
  lemma MetExactlyReachable(g: Graph, init: Node, trace: seq<Report>)
    requires Searched(g, init, trace)
    ensures forall n :: n in Met(g, init, trace) <==> Reachable(g, init, n)
    ensures Met(g, init, trace) <= g.Keys
  {
    ReportedArcs(trace);
    MetIsReachable(g, init, trace);
    forall n | Reachable(g, init, n) ensures n in Met(g, init, trace) {
      ReachableIsMet(g, init, trace, n);
    }
  }

  lemma ForwardIsReported(trace: seq<Report>, a: ArcId)
    ensures a in ForwardArcs(trace) ==> a in ArcsOf(trace)
  {
    ReportedArcs(trace);
  }

  /** The first node ranks above all others. */
  lemma {:induction false} FirstIsAbove(g: Graph, init: Node, trace: seq<Report>, rank: map<Node, nat>, n: Node)
    requires Searched(g, init, trace) && Descends(g, ForwardArcs(trace), rank) && n in Met(g, init, trace)
             && n != init && n in rank
    ensures init in rank && rank[n] < rank[init]
    decreases Above(rank, n)
  {
    MetByForwardArc(g, init, trace, n);
    var a :| a in ForwardArcs(trace) && IsArc(g, a) && Target(g, a) == n;
    ForwardIsReported(trace, a);
    ReachableIsMet(g, init, trace, a.node);
    if a.node != init {
      AboveShrinks(rank, n, a.node);
      FirstIsAbove(g, init, trace, rank, a.node);
    }
  }

  lemma NoForwardArcToFirst(g: Graph, init: Node, trace: seq<Report>, a: ArcId)
    requires Searched(g, init, trace) && a in ForwardArcs(trace) && IsArc(g, a)
    ensures Target(g, a) != init
  {
    var rank :| Descends(g, ForwardArcs(trace), rank);
    ForwardIsReported(trace, a);
    ReachableIsMet(g, init, trace, a.node);
    if Target(g, a) == init {
      FirstIsAbove(g, init, trace, rank, a.node);
    }
  }

  ghost function ForwardInto(g: Graph, trace: seq<Report>, n: Node): set<ArcId> {
    set a | a in ForwardArcs(trace) && IsArc(g, a) && Target(g, a) == n
  }

  ghost predicate CountsOk(g: Graph, trace: seq<Report>, indegree: map<Node, int>) {
    indegree.Keys == g.Keys && forall n :: n in g ==> indegree[n] == |ForwardInto(g, trace, n)|
  }

  /** Counts for every node the reported arcs into it that close no cycle. */
  method InjectDfsIndegree(g: Graph, init: Node) returns (indegree: map<Node, int>)
    requires Closed(g) && init in g
    ensures exists trace :: Searched(g, init, trace) && CountsOk(g, trace, indegree)
  {
    hide Searched, CountsOk;
    var reports := DepthFirstSearch(g, init);
    indegree := map n | n in g :: 0;
    NothingCounted(g, indegree);
    for k := 0 to |reports|
      invariant indegree.Keys == g.Keys
      invariant CountsOk(g, reports[..k], indegree)
    {
      var r := reports[k];
      assert reports[..k + 1] == reports[..k] + [r];
      SearchedReport(g, init, reports, k);
      CountReport(g, reports[..k], r, indegree);
      if !r.isCycle {
        var target := g[r.node][r.index];
        indegree := indegree[target := indegree[target] + 1];
      }
    }
    assert reports[..|reports|] == reports;
  }

  lemma NothingCounted(g: Graph, indegree: map<Node, int>)
    requires indegree.Keys == g.Keys && forall n :: n in g ==> indegree[n] == 0
    ensures CountsOk(g, [], indegree)
  {
    forall n ensures ForwardInto(g, [], n) == {} {
    }
  }

  lemma SearchedReport(g: Graph, init: Node, trace: seq<Report>, k: nat)
    requires Searched(g, init, trace) && k < |trace|
    ensures IsArc(g, Arc(trace[k])) && Target(g, Arc(trace[k])) in g && Arc(trace[k]) !in ArcsOf(trace[..k])
  {
    assert trace[k] in trace;
    ReportedArcs(trace[..k]);
  }

  lemma {:induction false} CountReport(g: Graph, trace: seq<Report>, r: Report, indegree: map<Node, int>)
    requires IsArc(g, Arc(r)) && Arc(r) !in ArcsOf(trace) && CountsOk(g, trace, indegree) && Target(g, Arc(r)) in g
    ensures CountsOk(g, trace + [r],
                     if r.isCycle then indegree else indegree[Target(g, Arc(r)) := indegree[Target(g, Arc(r))] + 1])
  {
    hide ForwardInto;
    forall n ensures |ForwardInto(g, trace + [r], n)| ==
                     |ForwardInto(g, trace, n)| + if !r.isCycle && n == Target(g, Arc(r)) then 1 else 0
    {
      IntoReport(g, trace, r, n);
    }
  }

  lemma {:induction false} IntoReport(g: Graph, trace: seq<Report>, r: Report, n: Node)
    requires IsArc(g, Arc(r)) && Arc(r) !in ArcsOf(trace)
    ensures |ForwardInto(g, trace + [r], n)| == |ForwardInto(g, trace, n)| + if !r.isCycle && n == Target(g, Arc(r))
            then 1 else 0
  {
    hide ForwardArcs, ArcsOf;
    Appended(trace, r);
    ForwardIsReported(trace, Arc(r));
    if !r.isCycle && n == Target(g, Arc(r)) {
      assert ForwardInto(g, trace + [r], n) == ForwardInto(g, trace, n) + {Arc(r)};
    } else {
      assert ForwardInto(g, trace + [r], n) == ForwardInto(g, trace, n);
    }
  }
}
