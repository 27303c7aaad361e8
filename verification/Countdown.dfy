/** The queue of the walk along a state space, with the markings left out: the counts of the targets of a processed
    node come down, and a node is queued when its count comes to 0. */
module Countdown {
  import opened StateSpace

  datatype Counts = Counts(indegree: map<Node, int>, queue: seq<Node>)

  ghost predicate CountsIn(g: Graph, c: Counts) {
    g.Keys <= c.indegree.Keys && forall n :: n in c.queue ==> n in g
  }

  ghost function Positive(g: Graph, indegree: map<Node, int>): set<Node> {
    set n | n in g && n in indegree && indegree[n] > 0
  }

  /** How much there is still to do. */
  ghost function ToDo(g: Graph, c: Counts): nat {
    |Positive(g, c.indegree)| + |c.queue|
  }

  /** One arc into `n` is counted down. */
  function Lower(n: Node, c: Counts): Counts
    requires n in c.indegree
  {
    Counts(c.indegree[n := c.indegree[n] - 1], if c.indegree[n] == 1 then c.queue + [n] else c.queue)
  }

  lemma LowerToDo(g: Graph, n: Node, c: Counts)
    requires n in g && n in c.indegree
    ensures ToDo(g, Lower(n, c)) <= ToDo(g, c)
  {
    var before, after := Positive(g, c.indegree), Positive(g, Lower(n, c).indegree);
    if c.indegree[n] == 1 {
      assert after == before - {n} && n in before;
    } else {
      assert after == before;
    }
  }

  /** The counts and the queue after the first `i` arcs of a node. */
  ghost function LowerUpTo(g: Graph, node: Node, i: nat, c: Counts): (r: Counts)
    requires Closed(g) && node in g && i <= |g[node]| && CountsIn(g, c)
    ensures CountsIn(g, r) && r.indegree.Keys == c.indegree.Keys && ToDo(g, r) <= ToDo(g, c)
  {
    if i == 0 then c
    else
      var before := LowerUpTo(g, node, i - 1, c);
      assert g[node][i - 1] in g[node];
      LowerToDo(g, g[node][i - 1], before);
      Lower(g[node][i - 1], before)
  }

  /** The counts and the queue without the node that is taken from its end. */
  function Rest(c: Counts): Counts
    requires c.queue != []
  {
    Counts(c.indegree, c.queue[..|c.queue| - 1])
  }

  ghost function AfterNode(g: Graph, c: Counts): (r: Counts)
    requires Closed(g) && CountsIn(g, c) && c.queue != []
    ensures CountsIn(g, r) && ToDo(g, r) < ToDo(g, c)
  {
    var node := c.queue[|c.queue| - 1];
    LowerUpTo(g, node, |g[node]|, Rest(c))
  }

  /** The order in which the nodes are processed, on any graph. */
  ghost function CountdownOrder(g: Graph, c: Counts): seq<Node>
    requires Closed(g) && CountsIn(g, c)
    decreases ToDo(g, c)
  {
    if c.queue == [] then [] else [c.queue[|c.queue| - 1]] + CountdownOrder(g, AfterNode(g, c))
  }

  lemma LowerNothing(g: Graph, node: Node, c: Counts)
    requires Closed(g) && node in g && CountsIn(g, c)
    ensures LowerUpTo(g, node, 0, c) == c
  {
  }

  /** The last of the first `i` arcs. */
  lemma LowerStep(g: Graph, node: Node, i: nat, c: Counts)
    requires Closed(g) && node in g && 0 < i <= |g[node]| && CountsIn(g, c)
    ensures var before := LowerUpTo(g, node, i - 1, c);
            && g[node][i - 1] in before.indegree
            && LowerUpTo(g, node, i, c) == Lower(g[node][i - 1], before)
    ensures g[node][..i] == g[node][..i - 1] + [g[node][i - 1]]
  {
    assert g[node][i - 1] in g[node];
  }

  /** What `i` arcs do to the count and the queueing of node `s`. */
  lemma {:induction false} LowerMeans(g: Graph, node: Node, i: nat, c: Counts, s: Node)
    requires Closed(g) && node in g && i <= |g[node]| && CountsIn(g, c) && s in c.indegree
    ensures var r := LowerUpTo(g, node, i, c);
            && r.indegree[s] <= c.indegree[s]
            && (s in c.queue ==> s in r.queue)
            && (s !in g[node][..i] ==> r.indegree[s] == c.indegree[s] && (s in r.queue ==> s in c.queue))
            && (s in g[node][..i] && c.indegree[s] == 1 ==> r.indegree[s] <= 0 && s in r.queue)
            && (s in r.queue && s !in c.queue ==> s in g[node] && c.indegree[s] > 0)
  {
    if i > 0 {
      hide LowerUpTo, CountsIn, Closed;
      LowerMeans(g, node, i - 1, c, s);
      LowerStep(g, node, i, c);
      var n, before, r := g[node][i - 1], LowerUpTo(g, node, i - 1, c), LowerUpTo(g, node, i, c);
      assert r.queue == before.queue || r.queue == before.queue + [n];
      assert s in g[node][..i] <==> s == n || s in g[node][..i - 1];
      assert s in g[node][..i] ==> s in g[node];
    } else {
      assert LowerUpTo(g, node, 0, c) == c;
    }
  }

  /** Nodes in the queue wait for nothing, and are queued once. */
  ghost predicate QueueSettled(c: Counts) {
    && (forall n :: n in c.queue && n in c.indegree ==> c.indegree[n] <= 0)
    && (forall j, k :: 0 <= j < k < |c.queue| ==> c.queue[j] != c.queue[k])
  }

  lemma OneLowerSettled(n: Node, c: Counts)
    requires n in c.indegree && QueueSettled(c)
    ensures QueueSettled(Lower(n, c))
  {
  }

  lemma {:induction false} LowerSettled(g: Graph, node: Node, i: nat, c: Counts)
    requires Closed(g) && node in g && i <= |g[node]| && CountsIn(g, c) && QueueSettled(c)
    ensures QueueSettled(LowerUpTo(g, node, i, c))
  {
    if i > 0 {
      hide LowerUpTo, CountsIn, Closed, QueueSettled, Lower;
      LowerSettled(g, node, i - 1, c);
      LowerStep(g, node, i, c);
      OneLowerSettled(g[node][i - 1], LowerUpTo(g, node, i - 1, c));
    } else {
      assert LowerUpTo(g, node, 0, c) == c;
    }
  }

  lemma {:induction false} QueueInOrder(g: Graph, c: Counts, s: Node)
    requires Closed(g) && CountsIn(g, c) && s in c.queue
    ensures s in CountdownOrder(g, c)
    decreases ToDo(g, c)
  {
    var node := c.queue[|c.queue| - 1];
    if s != node {
      assert c.queue == Rest(c).queue + [node];
      LowerMeans(g, node, |g[node]|, Rest(c), s);
      QueueInOrder(g, AfterNode(g, c), s);
    }
  }

  /** A node whose count is 1 is queued, and processed later, as soon as one node with an arc to it is processed. */
  lemma {:induction false} ComesLater(g: Graph, c: Counts, s: Node, k: nat)
    requires Closed(g) && CountsIn(g, c) && s in c.indegree && c.indegree[s] == 1
    requires k < |CountdownOrder(g, c)| && s in g && CountdownOrder(g, c)[k] in g && s in g[CountdownOrder(g, c)[k]]
    ensures s in CountdownOrder(g, c)[1..]
    decreases ToDo(g, c)
  {
    var node := c.queue[|c.queue| - 1];
    var after := AfterNode(g, c);
    assert CountdownOrder(g, c)[1..] == CountdownOrder(g, after);
    LowerMeans(g, node, |g[node]|, Rest(c), s);
    assert g[node][..|g[node]|] == g[node];
    if s in g[node] {
      QueueInOrder(g, after, s);
    } else {
      assert CountdownOrder(g, c)[k] == CountdownOrder(g, after)[k - 1];
      ComesLater(g, after, s, k - 1);
      assert forall n :: n in CountdownOrder(g, after)[1..] ==> n in CountdownOrder(g, after);
    }
  }

  lemma RestIn(g: Graph, c: Counts)
    requires CountsIn(g, c) && c.queue != []
    ensures CountsIn(g, Rest(c)) && c.queue[|c.queue| - 1] in g
  {
  }

  lemma NextInOrder(g: Graph, c: Counts)
    requires Closed(g) && CountsIn(g, c) && c.queue != []
    ensures var n := c.queue[|c.queue| - 1];
            && CountdownOrder(g, c) == [n] + CountdownOrder(g, AfterNode(g, c)) && ToDo(g, AfterNode(g, c)) < ToDo(g, c)
            && CountsIn(g, Rest(c)) && AfterNode(g, c) == LowerUpTo(g, n, |g[n]|, Rest(c))
  {
  }

  lemma EmptyOrder(g: Graph, c: Counts)
    requires Closed(g) && CountsIn(g, c) && c.queue == []
    ensures CountdownOrder(g, c) == []
  {
  }
}
