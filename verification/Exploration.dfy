/** The exploration of a state space by several workers: queues of planned actions, hand-off to sleeping workers, and
    recognition of states that have been seen. */
module Exploration {
  import opened MemoryTypes

  /** A global state between two nodes. */
  type GState = nat

  /** A planned action; without action the execution just goes on. */
  datatype Task = Task(node: GState, gstate: GState, action: Option<nat>)

  /** A task in execution, with the number of times its processes still return control. */
  datatype Running = Running(task: Task, left: nat)

  datatype Arc = Arc(task: Task, target: GState)

  /** The program under analysis: its state after start, what can be done in each state, where that leads and how long
      it takes. */
  datatype Program = Program(initial: GState, actions: GState -> nat, run: Task -> GState, time: Task -> nat,
                             hash: GState -> nat)

  ghost predicate InjectiveHash(p: Program) {
    forall a, b :: p.hash(a) == p.hash(b) ==> a == b
  }

  /** What is planned in a node: in the initial one to go on, in every other one each action. */
  ghost predicate IsPlanned(p: Program, t: Task) {
    && t.gstate == t.node
    && if t.node == p.initial then t.action == None else t.action.Some? && t.action.value < p.actions(t.node)
  }

  ghost predicate IsChain(p: Program, c: seq<GState>) {
    && |c| > 0 && c[0] == p.initial
    && forall k :: 0 <= k < |c| - 1 ==> Follows(p, c[k], c[k + 1])
  }

  ghost predicate Follows(p: Program, g: GState, h: GState) {
    exists t :: IsPlanned(p, t) && t.node == g && p.run(t) == h
  }

  ghost predicate Reachable(p: Program, g: GState) {
    exists c :: IsChain(p, c) && c[|c| - 1] == g
  }

  /** A finite set that the program does not leave. */
  ghost predicate ClosedUnder(p: Program, space: set<GState>) {
    p.initial in space && forall t :: IsPlanned(p, t) && t.node in space ==> p.run(t) in space
  }

  lemma ReachableNext(p: Program, t: Task)
    requires IsPlanned(p, t) && Reachable(p, t.node)
    ensures Reachable(p, p.run(t))
  {
    var c :| IsChain(p, c) && c[|c| - 1] == t.node;
    var d := c + [p.run(t)];
    assert Follows(p, t.node, p.run(t));
    assert IsChain(p, d) by {
      forall k | 0 <= k < |d| - 1 ensures Follows(p, d[k], d[k + 1]) {
        if k < |c| - 1 {
          assert Follows(p, c[k], c[k + 1]);
        }
      }
    }
  }

  lemma {:induction false} ReachableStays(p: Program, space: set<GState>, c: seq<GState>)
    requires ClosedUnder(p, space) && IsChain(p, c)
    ensures c[|c| - 1] in space
    decreases |c|
  {
    if |c| > 1 {
      var b := c[..|c| - 1];
      forall k | 0 <= k < |b| - 1 ensures Follows(p, b[k], b[k + 1]) {
        assert Follows(p, c[k], c[k + 1]);
      }
      ReachableStays(p, space, b);
      assert Follows(p, c[|c| - 2], c[|c| - 2 + 1]);
      var t :| IsPlanned(p, t) && t.node == c[|c| - 2] && p.run(t) == c[|c| - 1];
    }
  }

  // ---- tasks -------------------------------------------------------------------------------------

  /** What is visible of a worker. */
  datatype View = View(queue: seq<Task>, context: Option<Running>)

  function ViewTasks(v: View): multiset<Task> {
    multiset(v.queue) + if v.context.Some? then multiset{v.context.value.task} else multiset{}
  }

  function Tasks(vs: seq<View>): multiset<Task> {
    if vs == [] then multiset{} else Tasks(vs[..|vs| - 1]) + ViewTasks(vs[|vs| - 1])
  }

  function Queued(vs: seq<View>): nat {
    if vs == [] then 0 else Queued(vs[..|vs| - 1]) + |vs[|vs| - 1].queue|
  }

  lemma {:induction false} TasksUpdate(vs: seq<View>, i: nat, v: View, t: Task)
    requires i < |vs|
    ensures Tasks(vs[i := v])[t] + ViewTasks(vs[i])[t] == Tasks(vs)[t] + ViewTasks(v)[t]
  {
    hide ViewTasks;
    var n := |vs| - 1;
    if i < n {
      assert vs[i := v][..n] == vs[..n][i := v];
      TasksUpdate(vs[..n], i, v, t);
    } else {
      assert vs[i := v][..n] == vs[..n];
    }
  }

  lemma {:induction false} QueuedUpdate(vs: seq<View>, i: nat, v: View)
    requires i < |vs|
    ensures Queued(vs[i := v]) + |vs[i].queue| == Queued(vs) + |v.queue|
  {
    var n := |vs| - 1;
    if i < n {
      assert vs[i := v][..n] == vs[..n][i := v];
      QueuedUpdate(vs[..n], i, v);
    } else {
      assert vs[i := v][..n] == vs[..n];
    }
  }

  lemma {:induction false} TaskSomewhere(vs: seq<View>, t: Task)
    ensures Tasks(vs)[t] > 0 ==> exists i :: 0 <= i < |vs| && t in ViewTasks(vs[i])
  {
    if vs != [] {
      TaskSomewhere(vs[..|vs| - 1], t);
      if Tasks(vs[..|vs| - 1])[t] > 0 {
        var i :| 0 <= i < |vs| - 1 && t in ViewTasks(vs[..|vs| - 1][i]);
        assert t in ViewTasks(vs[i]);
      } else if Tasks(vs)[t] > 0 {
        assert t in ViewTasks(vs[|vs| - 1]);
      }
    }
  }

  function Done(arcs: seq<Arc>): multiset<Task> {
    if arcs == [] then multiset{} else Done(arcs[..|arcs| - 1]) + multiset{arcs[|arcs| - 1].task}
  }

  /** Nothing is lost and nothing is done twice: what is planned in a node waits in one queue, or runs in one worker, or
      has become one arc. */
  ghost predicate Conserved(p: Program, vs: seq<View>, nodes: set<GState>, arcs: seq<Arc>) {
    forall t: Task :: (Tasks(vs) + Done(arcs))[t] == if t.node in nodes && IsPlanned(p, t) then 1 else 0
  }

  ghost predicate ArcsOk(p: Program, nodes: set<GState>, arcs: seq<Arc>) {
    forall a :: a in arcs ==> a.target == p.run(a.task) && a.target in nodes
  }

  ghost predicate NodesOk(p: Program, nodes: set<GState>, table: map<nat, GState>) {
    && p.initial in nodes
    && (forall g :: g in nodes ==> Reachable(p, g))
    && (forall h :: h in table ==> table[h] in nodes && p.hash(table[h]) == h)
    && (forall g :: g in nodes ==> p.hash(g) in table)
  }

  /** No worker outside `serving` sleeps on tasks. */
  ghost predicate NoneSleepsOnTasks(vs: seq<View>, serving: set<nat>) {
    forall i: nat :: i < |vs| && i !in serving && vs[i].context.None? ==> vs[i].queue == []
  }

  ghost predicate ExplorationOk(p: Program, vs: seq<View>, nodes: set<GState>, table: map<nat, GState>,
                                arcs: seq<Arc>) {
    Conserved(p, vs, nodes, arcs) && ArcsOk(p, nodes, arcs) && NodesOk(p, nodes, table)
  }

  /** Moving a task from a queue to a worker. */
  lemma MoveKeeps(p: Program, vs: seq<View>, nodes: set<GState>, table: map<nat, GState>, arcs: seq<Arc>,
                  vs': seq<View>)
    requires ExplorationOk(p, vs, nodes, table, arcs) && Tasks(vs') == Tasks(vs)
    ensures ExplorationOk(p, vs', nodes, table, arcs)
  {
  }

  /** The tasks planned in a node, in order. */
  function Plan(p: Program, g: GState, n: nat): seq<Task> {
    if n == 0 then [] else Plan(p, g, n - 1) + [Task(g, g, Some(n - 1))]
  }

  lemma {:induction false} PlanCounts(p: Program, g: GState, n: nat, t: Task)
    ensures multiset(Plan(p, g, n))[t] == if t.node == g && t.gstate == g && t.action.Some? && t.action.value < n
            then 1 else 0
  {
    if n > 0 {
      PlanCounts(p, g, n - 1, t);
    }
  }

  /** A running task is one that is planned in a known node. */
  lemma RunningIsPlanned(p: Program, vs: seq<View>, nodes: set<GState>, arcs: seq<Arc>, i: nat)
    requires Conserved(p, vs, nodes, arcs) && i < |vs| && vs[i].context.Some?
    ensures IsPlanned(p, vs[i].context.value.task) && vs[i].context.value.task.node in nodes
  {
    var t := vs[i].context.value.task;
    TasksUpdate(vs, i, View([], None), t);
    assert Tasks(vs)[t] > 0;
    assert (Tasks(vs) + Done(arcs))[t] > 0;
  }

  lemma DoneNext(arcs: seq<Arc>, a: Arc)
    ensures Done(arcs + [a]) == Done(arcs) + multiset{a.task}
  {
    assert (arcs + [a])[..|arcs|] == arcs;
  }

  /** A finished task becomes an arc. */
  lemma FinishConserves(p: Program, vs: seq<View>, nodes: set<GState>, arcs: seq<Arc>, i: nat, g: GState)
    requires Conserved(p, vs, nodes, arcs) && i < |vs| && vs[i].context.Some?
    ensures Conserved(p, vs[i := View(vs[i].queue, None)], nodes, arcs + [Arc(vs[i].context.value.task, g)])
  {
    var done := vs[i].context.value.task;
    DoneNext(arcs, Arc(done, g));
    forall t: Task ensures (Tasks(vs[i := View(vs[i].queue, None)]) + Done(arcs + [Arc(done, g)]))[t] == (Tasks(vs)
          + Done(arcs))[t] {
      TasksUpdate(vs, i, View(vs[i].queue, None), t);
    }
  }

  lemma {:induction false} PlanAdds(p: Program, vs: seq<View>, i: nat, g: GState, t: Task)
    requires i < |vs|
    ensures Tasks(vs[i := View(vs[i].queue + Plan(p, g, p.actions(g)), vs[i].context)])[t] ==
            Tasks(vs)[t] + multiset(Plan(p, g, p.actions(g)))[t]
  {
    hide Tasks, Plan;
    var more := Plan(p, g, p.actions(g));
    var v := View(vs[i].queue + more, vs[i].context);
    TasksUpdate(vs, i, v, t);
    assert multiset(vs[i].queue + more) == multiset(vs[i].queue) + multiset(more);
  }

  /** A new node brings its plan. */
  lemma {:induction false} PlanConserves(p: Program, vs: seq<View>, nodes: set<GState>, arcs: seq<Arc>, i: nat,
                                         g: GState)
    requires Conserved(p, vs, nodes, arcs) && i < |vs| && g !in nodes && g != p.initial
    ensures Conserved(p, vs[i := View(vs[i].queue + Plan(p, g, p.actions(g)), vs[i].context)], nodes + {g}, arcs)
  {
    hide Tasks, Plan, Done;
    var v := View(vs[i].queue + Plan(p, g, p.actions(g)), vs[i].context);
    forall t: Task ensures (Tasks(vs[i := v]) + Done(arcs))[t] == if t.node in nodes + {g} && IsPlanned(p, t) then 1
          else 0 {
      PlanAdds(p, vs, i, g, t);
      PlanCounts(p, g, p.actions(g), t);
      assert (Tasks(vs) + Done(arcs))[t] == if t.node in nodes && IsPlanned(p, t) then 1 else 0;
    }
  }

  // ---- tasks that take no time ---------------------------------------------------------------------

  /** No planned action of a reachable state is finished at once. */
  ghost predicate TakesTime(p: Program) {
    forall t :: IsPlanned(p, t) && Reachable(p, t.node) ==> p.time(t) > 0
  }

  /** A line of tasks: the first waits in the queue, each other one is planned in a new state that the one before it,
      which takes no time, leads to. */
  ghost predicate IsLine(p: Program, nodes: set<GState>, queue: seq<Task>, c: seq<Task>) {
    && |c| > 0 && c[0] in queue
    && forall k :: 0 <= k < |c| - 1 ==> LeadsOn(p, nodes, c[k], c[k + 1])
  }

  ghost predicate LeadsOn(p: Program, nodes: set<GState>, t: Task, next: Task) {
    p.time(t) == 0 && p.run(t) !in nodes && next in Plan(p, p.run(t), p.actions(p.run(t)))
  }

  /** Neither the tasks of the queue nor those that they bring take any time. */
  ghost predicate AllIdle(p: Program, nodes: set<GState>, queue: seq<Task>) {
    forall c :: IsLine(p, nodes, queue, c) ==> p.time(c[|c| - 1]) == 0
  }

  ghost predicate Due(p: Program, nodes: set<GState>, queue: seq<Task>, t: Task) {
    exists c :: IsLine(p, nodes, queue, c) && c[|c| - 1] == t
  }

  /** A worker alone has finished the tasks of `finished`, which took no time; `queue` is what is left. */
  ghost predicate Idled(p: Program, nodes0: set<GState>, queue0: seq<Task>, finished: set<Task>, nodes: set<GState>,
                        queue: seq<Task>) {
    && (forall t :: t in finished ==> p.time(t) == 0 && p.run(t) in nodes)
    && (forall t :: t in queue ==> Due(p, nodes0, queue0, t))
    && (forall t :: t in queue0 ==> t in finished || t in queue)
    && (forall t, u :: t in finished && LeadsOn(p, nodes0, t, u) ==> u in finished || u in queue)
    && nodes0 <= nodes
    && (forall g :: g in nodes && g !in nodes0 ==> forall u :: u in Plan(p, g, p.actions(g)) ==>
        u in finished || u in queue)
  }

  lemma IdledStart(p: Program, nodes: set<GState>, queue: seq<Task>)
    ensures Idled(p, nodes, queue, {}, nodes, queue)
  {
    forall t | t in queue ensures Due(p, nodes, queue, t) {
      assert IsLine(p, nodes, queue, [t]);
    }
  }

  lemma {:induction false} DueOn(p: Program, nodes: set<GState>, queue: seq<Task>, t: Task, u: Task)
    requires Due(p, nodes, queue, t) && LeadsOn(p, nodes, t, u)
    ensures Due(p, nodes, queue, u)
  {
    hide LeadsOn;
    var c :| IsLine(p, nodes, queue, c) && c[|c| - 1] == t;
    var d := c + [u];
    forall k | 0 <= k < |d| - 1 ensures LeadsOn(p, nodes, d[k], d[k + 1]) {
      if k < |c| - 1 {
        assert LeadsOn(p, nodes, c[k], c[k + 1]);
      }
    }
    assert IsLine(p, nodes, queue, d);
  }

  lemma {:induction false} IdledNext(p: Program, nodes0: set<GState>, queue0: seq<Task>, finished: set<Task>,
                                     nodes: set<GState>, queue: seq<Task>, t: Task, rest: seq<Task>)
    requires Idled(p, nodes0, queue0, finished, nodes, queue) && p.time(t) == 0
             && (forall u :: u in queue <==> u == t || u in rest)
    ensures Idled(p, nodes0, queue0, finished + {t}, nodes + {p.run(t)},
                  rest + if p.run(t) in nodes then [] else Plan(p, p.run(t), p.actions(p.run(t))))
  {
    hide Due, Plan;
    var g := p.run(t);
    var more := if g in nodes then [] else Plan(p, g, p.actions(g));
    var after := rest + more;
    forall u | u in after ensures Due(p, nodes0, queue0, u) {
      if u !in rest {
        assert Due(p, nodes0, queue0, t);
        assert LeadsOn(p, nodes0, t, u);
        DueOn(p, nodes0, queue0, t, u);
      }
    }
    forall u | LeadsOn(p, nodes0, t, u) ensures u in finished + {t} || u in after {
      if g in nodes {
        assert g !in nodes0;
      }
    }
  }

  /** What a worker alone does in a round whose task takes no time. */
  ghost predicate SoloStep(p: Program, dfs: bool, nodes: set<GState>, queue: seq<Task>, t: Task, nodes': set<GState>,
                           queue': seq<Task>) {
    exists rest :: queue == (if dfs then rest + [t] else [t] + rest) && p.time(t) == 0 && nodes' == nodes + {p.run(t)}
                   && queue' == rest + if p.run(t) in nodes then [] else Plan(p, p.run(t), p.actions(p.run(t)))
  }

  lemma {:induction false} IdledStep(p: Program, dfs: bool, nodes0: set<GState>, queue0: seq<Task>, finished: set<Task>,
                                     nodes: set<GState>, queue: seq<Task>, t: Task, nodes': set<GState>,
                                     queue': seq<Task>)
    requires Idled(p, nodes0, queue0, finished, nodes, queue) && SoloStep(p, dfs, nodes, queue, t, nodes', queue')
    ensures Idled(p, nodes0, queue0, finished + {t}, nodes', queue')
  {
    hide Idled, Plan;
    var rest :| queue == (if dfs then rest + [t] else [t] + rest) && p.time(t) == 0 && nodes' == nodes + {p.run(t)}
                && queue' == rest + if p.run(t) in nodes then [] else Plan(p, p.run(t), p.actions(p.run(t)));
    IdledNext(p, nodes0, queue0, finished, nodes, queue, t, rest);
  }

  /** A task that takes time shows that not all are idle. */
  lemma IdledBusy(p: Program, nodes0: set<GState>, queue0: seq<Task>, finished: set<Task>, nodes: set<GState>,
                  queue: seq<Task>, t: Task)
    requires Idled(p, nodes0, queue0, finished, nodes, queue) && t in queue && p.time(t) > 0
    ensures !AllIdle(p, nodes0, queue0)
  {
    assert Due(p, nodes0, queue0, t);
  }

  lemma {:induction false} IdledLine(p: Program, nodes0: set<GState>, queue0: seq<Task>, finished: set<Task>,
                                     nodes: set<GState>, c: seq<Task>)
    requires Idled(p, nodes0, queue0, finished, nodes, []) && IsLine(p, nodes0, queue0, c)
    ensures c[|c| - 1] in finished
    decreases |c|
  {
    hide LeadsOn;
    if |c| > 1 {
      var d := c[..|c| - 1];
      forall k | 0 <= k < |d| - 1 ensures LeadsOn(p, nodes0, d[k], d[k + 1]) {
        assert LeadsOn(p, nodes0, c[k], c[k + 1]);
      }
      IdledLine(p, nodes0, queue0, finished, nodes, d);
      assert LeadsOn(p, nodes0, c[|c| - 2], c[|c| - 2 + 1]);
    }
  }

  lemma IdledEnd(p: Program, nodes0: set<GState>, queue0: seq<Task>, finished: set<Task>, nodes: set<GState>)
    requires Idled(p, nodes0, queue0, finished, nodes, [])
    ensures AllIdle(p, nodes0, queue0)
  {
    forall c | IsLine(p, nodes0, queue0, c) ensures p.time(c[|c| - 1]) == 0 {
      IdledLine(p, nodes0, queue0, finished, nodes, c);
    }
  }

  // ---- the order in which a worker alone takes tasks ---------------------------------------------------

  function Put(dfs: bool, rest: seq<Task>, t: Task): seq<Task> {
    if dfs then rest + [t] else [t] + rest
  }

  /** The task that the search order takes, and what it leaves. */
  function Next(dfs: bool, queue: seq<Task>): Task
    requires queue != []
  {
    if dfs then queue[|queue| - 1] else queue[0]
  }

  function Others(dfs: bool, queue: seq<Task>): seq<Task> {
    if queue == [] then [] else if dfs then queue[..|queue| - 1] else queue[1..]
  }

  ghost function Known(p: Program, arcs: seq<Arc>): set<GState> {
    {p.initial} + set a | a in arcs :: a.target
  }

  /** What is planned and has not been taken when the arcs have been made. */
  ghost function Waiting(p: Program, dfs: bool, arcs: seq<Arc>): seq<Task> {
    if arcs == [] then [Task(p.initial, p.initial, None)]
    else
      var before, g := arcs[..|arcs| - 1], arcs[|arcs| - 1].target;
      Others(dfs, Waiting(p, dfs, before)) + if g in Known(p, before) then [] else Plan(p, g, p.actions(g))
  }

  /** Each arc is that of the task whose turn it was. */
  ghost predicate InOrder(p: Program, dfs: bool, arcs: seq<Arc>) {
    arcs == []
    || (var before, last := arcs[..|arcs| - 1], arcs[|arcs| - 1];
        && InOrder(p, dfs, before) && Waiting(p, dfs, before) != []
        && last.task == Next(dfs, Waiting(p, dfs, before)) && last.target == p.run(last.task))
  }

  /** All tasks have been taken, and the last one took no time. */
  ghost predicate EndsAtOnce(p: Program, dfs: bool, arcs: seq<Arc>) {
    arcs != [] && Waiting(p, dfs, arcs) == [] && p.time(arcs[|arcs| - 1].task) == 0
  }

  /** What holds of a worker alone. */
  ghost predicate SoloOk(p: Program, dfs: bool, nodes: set<GState>, arcs: seq<Arc>, v: View) {
    && InOrder(p, dfs, arcs) && nodes == Known(p, arcs)
    && Waiting(p, dfs, arcs) == (if v.context.Some? then Put(dfs, v.queue, v.context.value.task) else v.queue)
    && (v.context.Some? ==> p.time(v.context.value.task) > 0)
  }

  lemma OthersOfPut(dfs: bool, rest: seq<Task>, t: Task)
    ensures Others(dfs, Put(dfs, rest, t)) == rest && Next(dfs, Put(dfs, rest, t)) == t && Put(dfs, rest, t) != []
  {
  }

  /** The task whose turn it was is finished. */
  lemma {:induction false} OrderGoesOn(p: Program, dfs: bool, nodes: set<GState>, arcs: seq<Arc>, rest: seq<Task>,
                                       t: Task)
    requires InOrder(p, dfs, arcs) && nodes == Known(p, arcs) && Waiting(p, dfs, arcs) == Put(dfs, rest, t)
    ensures var g := p.run(t);
            && SoloOk(p, dfs, nodes + {g}, arcs + [Arc(t, g)],
                      View(rest + if g in nodes then [] else Plan(p, g, p.actions(g)), None))
            && (EndsAtOnce(p, dfs, arcs + [Arc(t, g)])
                <==> p.time(t) == 0 && rest + (if g in nodes then [] else Plan(p, g, p.actions(g))) == [])
  {
    hide Plan, Others, Next, Put;
    var g := p.run(t);
    var after := arcs + [Arc(t, g)];
    assert after[..|after| - 1] == arcs && after[|after| - 1] == Arc(t, g);
    OthersOfPut(dfs, rest, t);
    assert Known(p, after) == Known(p, arcs) + {g};
  }

  /** The order is determined by the program: of two lists in order one begins with the other one, and when nothing
      waits any more they are the same. */
  lemma {:induction false} OrderIsUnique(p: Program, dfs: bool, a: seq<Arc>, b: seq<Arc>)
    requires InOrder(p, dfs, a) && InOrder(p, dfs, b) && |a| <= |b|
    ensures a == b[..|a|]
    ensures Waiting(p, dfs, a) == [] ==> a == b
    decreases |b|
  {
    hide Waiting;
    if |a| < |b| {
      var before := b[..|b| - 1];
      OrderIsUnique(p, dfs, a, before);
      assert b[..|a|] == before[..|a|];
    } else if |a| > 0 {
      var n := |a| - 1;
      OrderIsUnique(p, dfs, a[..n], b[..n]);
      assert a[..n] == b[..n] && a[n] == b[n];
      assert a == a[..n] + [a[n]] && b == b[..n] + [b[n]];
    } else {
      assert a == b == [];
    }
  }

  // ---- workers -----------------------------------------------------------------------------------

  class Worker {
    var queue: seq<Task>
    var gcontext: Option<Running>

    constructor ()
      ensures queue == [] && gcontext == None
    {
      queue, gcontext := [], None;
    }

    function AsView(): View
      reads this
    {
      View(queue, gcontext)
    }
  }

  ghost function ViewsOf(ws: seq<Worker>): (vs: seq<View>)
    reads ws
    ensures |vs| == |ws| && forall i :: 0 <= i < |ws| ==> vs[i] == ws[i].AsView()
  {
    if ws == [] then [] else ViewsOf(ws[..|ws| - 1]) + [ws[|ws| - 1].AsView()]
  }

  /** Whether some worker went on to take a task from an empty queue. */
  class Log {
    ghost var fell: bool

    constructor ()
      ensures !fell
    {
      fell := false;
    }
  }

  class Generator {
    const program: Program
    const dfs: bool
    const workers: seq<Worker>
    var nodes: set<GState>
    var nodesByHash: map<nat, GState>
    var arcs: seq<Arc>
    const log: Log

    ghost predicate Distinct() {
      forall i, j :: 0 <= i < j < |workers| ==> workers[i] != workers[j]
    }

    ghost function Views(): (vs: seq<View>)
      reads workers
      ensures |vs| == |workers| && forall i :: 0 <= i < |workers| ==> vs[i] == workers[i].AsView()
    {
      ViewsOf(workers)
    }

    ghost predicate Valid()
      reads this, workers
    {
      Distinct() && InjectiveHash(program) && ExplorationOk(program, Views(), nodes, nodesByHash, arcs)
    }

    /** A state that has been seen is found by its hash; a new one becomes a node. */
    method AddNode(g: GState) returns (isNew: bool)
      requires NodesOk(program, nodes, nodesByHash) && InjectiveHash(program) && Reachable(program, g)
      modifies `nodes, `nodesByHash
      ensures isNew <==> g !in old(nodes)
      ensures nodes == old(nodes) + {g} && NodesOk(program, nodes, nodesByHash)
    {
      if program.hash(g) in nodesByHash {
        isNew := false;
        assert nodesByHash[program.hash(g)] == g;
        assert nodes == nodes + {g};
      } else {
        nodes := nodes + {g};
        nodesByHash := nodesByHash[program.hash(g) := g];
        isNew := true;
      }
    }

    /** Plans every action of a new node. */
    method SlowExpand(w: Worker, g: GState)
      modifies w`queue
      ensures w.queue == old(w.queue) + Plan(program, g, program.actions(g))
    {
      var n := program.actions(g);
      for i := 0 to n
        invariant w.queue == old(w.queue) + Plan(program, g, i)
      {
        w.queue := w.queue + [Task(g, g, Some(i))];
      }
    }

    /** When only worker `i` changed, only its view did. */
    twostate lemma {:induction false} OnlyOneChanged(i: nat)
      requires Distinct() && i < |workers|
      requires forall j :: 0 <= j < |workers| && j != i ==> workers[j].AsView() == old(workers[j].AsView())
      ensures Views() == old(Views())[i := workers[i].AsView()]
    {
      hide ViewsOf;
    }

    /** A finished task becomes an arc, its result a node unless that state has been seen, whose actions are planned. */
    method MakeNode(i: nat)
      requires Valid() && i < |workers| && workers[i].gcontext.Some?
      modifies workers[i], `nodes, `nodesByHash, `arcs
      ensures Valid()
      ensures Views() == old(Views())[i := workers[i].AsView()]
      ensures var t := old(workers[i].gcontext.value.task);
              var g := program.run(t);
              && workers[i].gcontext.None? && nodes == old(nodes) + {g} && arcs == old(arcs) + [Arc(t, g)]
              && workers[i].queue == old(workers[i].queue) + if g in old(nodes) then []
                    else Plan(program, g, program.actions(g))
    {
      hide ExplorationOk, NodesOk, ViewsOf, Plan, Reachable;
      ghost var vs, nodes0, table0, arcs0 := Views(), nodes, nodesByHash, arcs;
      var w := workers[i];
      var t := w.gcontext.value.task;
      var g := program.run(t);
      ResultReachable(program, vs, nodes, nodesByHash, arcs, i);
      w.gcontext := None;
      var isNew := AddNode(g);
      arcs := arcs + [Arc(t, g)];
      if isNew {
        SlowExpand(w, g);
      }
      OnlyOneChanged(i);
      assert w.queue == vs[i].queue + if g in nodes0 then [] else Plan(program, g, program.actions(g));
      FinishKeeps(program, vs, nodes0, table0, arcs0, i, nodesByHash);
    }

    /** Gives control to the task of a worker: it goes on running, or it is finished. */
    method ContinueInExecution(i: nat) returns (running: bool)
      requires Valid() && i < |workers| && workers[i].gcontext.Some?
      modifies workers[i], `nodes, `nodesByHash, `arcs
      ensures Valid()
      ensures Views() == old(Views())[i := workers[i].AsView()]
      ensures Continued(old(workers[i].gcontext.value), old(workers[i].queue), old(nodes), old(arcs),
                        workers[i].AsView(), nodes, arcs)
      ensures running <==> workers[i].gcontext.Some?
    {
      hide ExplorationOk, ViewsOf, Plan;
      ghost var vs := Views();
      var w := workers[i];
      var c := w.gcontext.value;
      if c.left > 0 {
        w.gcontext := Some(Running(c.task, c.left - 1));
        OnlyOneChanged(i);
        SameTasks(vs, i, Views()[i]);
        MoveKeeps(program, vs, nodes, nodesByHash, arcs, Views());
        running := true;
      } else {
        MakeNode(i);
        running := false;
      }
    }

    /** What one turn of control does. */
    ghost predicate Continued(c: Running, queue0: seq<Task>, nodes0: set<GState>, arcs0: seq<Arc>, v: View,
                              nodes1: set<GState>, arcs1: seq<Arc>) {
      var g := program.run(c.task);
      if c.left > 0 then v == View(queue0, Some(Running(c.task, c.left - 1))) && nodes1 == nodes0 && arcs1 == arcs0
      else
        && v == View(queue0 + if g in nodes0 then [] else Plan(program, g, program.actions(g)), None)
        && nodes1 == nodes0 + {g} && arcs1 == arcs0 + [Arc(c.task, g)]
    }

    /** Task `t` has left its queue and is about to be executed. */
    ghost predicate InHand(t: Task)
      reads this, workers
    {
      && Distinct() && InjectiveHash(program)
      && exists i: nat :: i < |workers| && workers[i].gcontext.None? && OkWith(i, t)
    }

    /** Everything is in order once worker `i` executes `t`. */
    ghost predicate OkWith(i: nat, t: Task)
      requires i < |workers|
      reads this, workers
    {
      ExplorationOk(program, Views()[i := View(workers[i].queue, Some(Running(t, program.time(t))))], nodes,
                    nodesByHash, arcs)
    }

    /** A worker starts to execute a task. */
    method StartGContext(i: nat, t: Task) returns (running: bool)
      requires InHand(t) && i < |workers| && workers[i].gcontext.None?
      modifies workers[i], `nodes, `nodesByHash, `arcs
      ensures Valid()
      ensures Views() == old(Views())[i := workers[i].AsView()]
      ensures Continued(Running(t, program.time(t)), old(workers[i].queue), old(nodes), old(arcs),
                        workers[i].AsView(), nodes, arcs)
      ensures old(nodes) <= nodes && (nodes == old(nodes) ==> workers[i].queue == old(workers[i].queue))
                    && old(arcs) <= arcs
      ensures running <==> workers[i].gcontext.Some?
      ensures running <==> program.time(t) > 0
      ensures TakesTime(program) ==> running
    {
      hide ExplorationOk, ViewsOf, Plan, TakesTime;
      TaskInHand(t);
      ghost var vs := Views();
      ghost var k: nat :| k < |workers| && workers[k].gcontext.None? && OkWith(k, t);
      HandMoves(program, vs, nodes, nodesByHash, arcs, Running(t, program.time(t)), k, i);
      workers[i].gcontext := Some(Running(t, program.time(t)));
      OnlyOneChanged(i);
      label Started:
      running := ContinueInExecution(i);
      assert Views() == old@Started(Views())[i := workers[i].AsView()];
    }

    lemma {:induction false} TaskInHand(t: Task)
      requires InHand(t)
      ensures TakesTime(program) ==> program.time(t) > 0
    {
      hide ViewsOf, Tasks, Done, Reachable;
      var k: nat :| k < |workers| && workers[k].gcontext.None? && OkWith(k, t);
      var r := Running(t, program.time(t));
      var vs := Views()[k := View(workers[k].queue, Some(r))];
      RunningIsPlanned(program, vs, nodes, arcs, k);
    }

    /** Another worker that neither executes nor has anything to execute. */
    method SleepingNeighboursOf(i: nat) returns (r: Option<nat>)
      requires i < |workers|
      ensures r.Some? ==> r.value < |workers| && r.value != i && workers[r.value].AsView() == View([], None)
      ensures r.None? ==> forall j :: 0 <= j < |workers| && j != i ==> workers[j].AsView() != View([], None)
    {
      var n := |workers|;
      for k := 1 to n
        invariant forall j :: 0 <= j < n && (i < j < i + k || i < j + n < i + k) ==>
            workers[j].AsView() != View([], None)
      {
        // (k + i) % n
        var j := if k + i < n then k + i else k + i - n;
        if workers[j].queue == [] && workers[j].gcontext.None? {
          return Some(j);
        }
      }
      r := None;
    }

    /** Takes a task from the end of the queue that the search order says. */
    method Pop(i: nat) returns (t: Task)
      requires Valid() && i < |workers| && workers[i].gcontext.None? && workers[i].queue != []
      modifies workers[i]
      ensures InHand(t) && Views() == old(Views())[i := workers[i].AsView()] && workers[i].gcontext.None?
      ensures old(workers[i].queue) == Put(dfs, workers[i].queue, t)
    {
      hide ExplorationOk, ViewsOf;
      ghost var vs := Views();
      var w := workers[i];
      if dfs {
        t, w.queue := w.queue[|w.queue| - 1], w.queue[..|w.queue| - 1];
      } else {
        t, w.queue := w.queue[0], w.queue[1..];
      }
      assert vs[i].queue == if dfs then w.queue + [t] else [t] + w.queue;
      OnlyOneChanged(i);
      PoppedIsInHand(program, vs, nodes, nodesByHash, arcs, i, w.queue, Running(t, program.time(t)));
      assert Views()[i := View(w.queue, Some(Running(t, program.time(t))))]
          == vs[i := View(w.queue, Some(Running(t, program.time(t))))];
      assert OkWith(i, t);
    }

    /** A worker alone takes tasks in their order. */
    ghost predicate Solo()
      reads this, workers
    {
      |workers| == 1 ==> SoloOk(program, dfs, nodes, arcs, workers[0].AsView())
    }

    /** A round of a worker alone: the task whose turn it is gets control once. */
    ghost predicate SoloRound(nodes0: set<GState>, queue0: seq<Task>, arcs0: seq<Arc>, t: Task, v: View,
                              nodes1: set<GState>, arcs1: seq<Arc>) {
      exists rest :: queue0 == Put(dfs, rest, t)
                     && Continued(Running(t, program.time(t)), rest, nodes0, arcs0, v, nodes1, arcs1)
    }

    lemma {:induction false} SoloGoesOn(nodes0: set<GState>, queue0: seq<Task>, arcs0: seq<Arc>, t: Task, v: View,
                                        nodes1: set<GState>, arcs1: seq<Arc>)
      requires SoloOk(program, dfs, nodes0, arcs0, View(queue0, None))
      requires SoloRound(nodes0, queue0, arcs0, t, v, nodes1, arcs1)
      ensures SoloOk(program, dfs, nodes1, arcs1, v)
      ensures EndsAtOnce(program, dfs, arcs1) <==> v == View([], None)
    {
      hide Waiting, Known, InOrder, Plan, Put;
      var rest :| queue0 == Put(dfs, rest, t)
                  && Continued(Running(t, program.time(t)), rest, nodes0, arcs0, v, nodes1, arcs1);
      if program.time(t) == 0 {
        OrderGoesOn(program, dfs, nodes0, arcs0, rest, t);
      } else {
        OthersOfPut(dfs, rest, t);
      }
    }

    /** A running task gets control. */
    lemma {:induction false} SoloRuns(c: Running, queue0: seq<Task>, nodes0: set<GState>, arcs0: seq<Arc>, v: View,
                                      nodes1: set<GState>, arcs1: seq<Arc>)
      requires SoloOk(program, dfs, nodes0, arcs0, View(queue0, Some(c)))
      requires Continued(c, queue0, nodes0, arcs0, v, nodes1, arcs1)
      ensures SoloOk(program, dfs, nodes1, arcs1, v) && !EndsAtOnce(program, dfs, arcs1)
    {
      hide Waiting, Known, InOrder, Plan, Put;
      OthersOfPut(dfs, queue0, c.task);
      if c.left == 0 {
        OrderGoesOn(program, dfs, nodes0, arcs0, queue0, c.task);
      }
    }

    lemma StaysInSpace(space: set<GState>)
      requires Valid() && ClosedUnder(program, space)
      ensures nodes <= space
    {
      NodesInSpace(program, Views(), nodes, nodesByHash, arcs, space);
    }

    /** Takes a task from the queue of the worker that is being served. */
    method PopServing(i: nat, ghost serving: set<nat>, ghost vs0: seq<View>) returns (t: Task)
      requires Valid() && i < |workers| && Serving(Views(), i, serving) && workers[i].queue != []
               && Kept(vs0, Views(), serving - {i})
      modifies workers[i]
      ensures InHand(t) && Serving(Views(), i, serving) && Kept(vs0, Views(), serving - {i})
      ensures Queued(Views()) < old(Queued(Views()))
      ensures old(workers[i].queue) == Put(dfs, workers[i].queue, t)
    {
      hide ExplorationOk, ViewsOf, Plan, Tasks, Queued, Serving, Kept, NoneSleepsOnTasks, InHand, Valid, Views;
      ghost var vs := Views();
      ServingMeans(vs, i, serving);
      t := Pop(i);
      QueuedUpdate(vs, i, Views()[i]);
      ServingPopped(vs, i, serving, Views()[i]);
      KeptPopped(vs0, vs, serving, i, Views()[i]);
    }

    /** Takes tasks from the queue and hands them to sleeping workers; the last task, or the first one for which no
        worker sleeps, is left for this worker. */
    method TakeOrHandOff(i: nat, ghost serving: set<nat>, ghost space: set<GState>) returns (t: Task, raised: bool)
      requires Valid() && i < |workers| && Serving(Views(), i, serving) && ClosedUnder(program, space)
               && workers[i].queue != []
      modifies workers, `nodes, `nodesByHash, `arcs, log
      decreases space - nodes, Queued(Views()), 0
      ensures InHand(t) && Serving(Views(), i, serving) && Kept(old(Views()), Views(), serving - {i})
      ensures old(nodes) <= nodes && (nodes == old(nodes) ==> Queued(Views()) < old(Queued(Views())))
                    && old(arcs) <= arcs
      ensures log.fell == (old(log.fell) || raised)
      ensures TakesTime(program) || |workers| == 1 ==> !raised
      ensures |workers| == 1 ==> nodes == old(nodes) && arcs == old(arcs)
                                 && old(workers[i].queue) == Put(dfs, workers[i].queue, t)
    {
      hide ExplorationOk, ViewsOf, Plan, ClosedUnder, Tasks, Queued, Serving, Kept, NoneSleepsOnTasks, InHand,
           Continued, Valid, Views, TakesTime;
      ghost var vs0, nodes0, queued0 := Views(), nodes, Queued(Views());
      KeptAll(vs0, serving - {i});
      raised := false;
      while true
        invariant Valid() && Serving(Views(), i, serving) && workers[i].queue != [] && Kept(vs0, Views(), serving - {i})
        invariant nodes0 <= nodes && (nodes == nodes0 ==> Queued(Views()) <= queued0) && old(arcs) <= arcs
        invariant TakesTime(program) || |workers| == 1 ==> !raised
        invariant log.fell == (old(log.fell) || raised)
        invariant |workers| == 1 ==> nodes == nodes0 && arcs == old(arcs) && workers[i].queue == old(workers[i].queue)
        decreases space - nodes, Queued(Views())
      {
        t := PopServing(i, serving, vs0);
        if workers[i].queue == [] {
          return;
        }
        var n := SleepingNeighboursOf(i);
        if n.None? {
          return;
        }
        var failed := HandOver(i, n.value, t, serving, space, vs0);
        raised := raised || failed;
      }
    }

    /** Lets a sleeping worker execute a task, and serve what that plans. */
    method HandOver(i: nat, n: nat, t: Task, ghost serving: set<nat>, ghost space: set<GState>, ghost vs0: seq<View>)
          returns (raised: bool)
      requires InHand(t) && i < |workers| && Serving(Views(), i, serving) && ClosedUnder(program, space)
               && workers[i].queue != []
      requires n < |workers| && n != i && workers[n].AsView() == View([], None) && Kept(vs0, Views(), serving - {i})
      modifies workers, `nodes, `nodesByHash, `arcs, log
      decreases space - nodes, Queued(Views()), 3
      ensures Valid() && Serving(Views(), i, serving) && workers[i].queue != [] && Kept(vs0, Views(), serving - {i})
      ensures old(nodes) <= nodes <= space && (nodes == old(nodes) ==> Queued(Views()) <= old(Queued(Views())))
                    && old(arcs) <= arcs
      ensures log.fell == (old(log.fell) || raised)
      ensures TakesTime(program) ==> !raised
    {
      hide ExplorationOk, ViewsOf, Plan, ClosedUnder, Tasks, Queued, Serving, Kept, NoneSleepsOnTasks, InHand,
           Continued, Valid, Views, TakesTime;
      raised := false;
      ghost var vs1 := Views();
      ServingMeans(vs1, i, serving);
      var running := StartGContext(n, t);
      ghost var vs2 := Views();
      QueuedUpdate(vs1, n, vs2[n]);
      SleeperNotServing(vs1, i, serving, n);
      StaysInSpace(space);
      if running {
        ServingStarted(vs1, i, serving, n, vs2[n]);
        KeptStarted(vs0, vs1, serving, i, n, vs2[n]);
      } else {
        ServingBoth(vs1, i, serving, n, vs2[n]);
        KeptStarted(vs0, vs1, serving, i, n, vs2[n]);
        raised := StartNextInQueue(n, serving + {n}, space);
        assert serving + {n} - {n} == serving;
        ServingAgain(vs2, Views(), i, serving, n);
        KeptBoth(vs0, vs2, Views(), serving, i);
        StaysInSpace(space);
      }
    }

    lemma SoloMeans()
      ensures |workers| == 1 ==> (Solo() <==> SoloOk(program, dfs, nodes, arcs, workers[0].AsView()))
    {
    }

    /** What a worker alone has done since its queue was `queue0`; `solo` tells that it took tasks in their order. */
    ghost predicate Alone(nodes0: set<GState>, queue0: seq<Task>, finished: set<Task>, solo: bool, raised: bool,
                          nodes1: set<GState>, arcs1: seq<Arc>, v: View) {
      && Idled(program, nodes0, queue0, finished, nodes1, v.queue)
      && (raised <==> queue0 != [] && v.queue == [])
      && (solo ==> SoloOk(program, dfs, nodes1, arcs1, v) && (raised ==> EndsAtOnce(program, dfs, arcs1)))
    }

    lemma {:induction false} AloneStart(nodes0: set<GState>, queue0: seq<Task>, solo: bool, arcs0: seq<Arc>)
      requires solo ==> SoloOk(program, dfs, nodes0, arcs0, View(queue0, None))
      ensures Alone(nodes0, queue0, {}, solo, false, nodes0, arcs0, View(queue0, None))
    {
      hide Idled, SoloOk;
      IdledStart(program, nodes0, queue0);
    }

    lemma {:induction false} AloneRound(nodes0: set<GState>, queue0: seq<Task>, finished: set<Task>, solo: bool,
                                        raised: bool, nodes1: set<GState>, queue1: seq<Task>, arcs1: seq<Arc>, t: Task,
                                        v: View, nodes2: set<GState>, arcs2: seq<Arc>)
      requires Alone(nodes0, queue0, finished, solo, raised, nodes1, arcs1, View(queue1, None))
      requires queue0 != [] && queue1 != [] && SoloRound(nodes1, queue1, arcs1, t, v, nodes2, arcs2)
      ensures !raised
      ensures v.context.None? ==>
                Alone(nodes0, queue0, finished + {t}, solo, v.queue == [], nodes2, arcs2, v)
      ensures v.context.Some? ==>
                && !AllIdle(program, nodes0, queue0)
                && (solo ==> SoloOk(program, dfs, nodes2, arcs2, v) && !EndsAtOnce(program, dfs, arcs2))
    {
      hide Idled, SoloOk, SoloRound, EndsAtOnce, AllIdle, SoloStep;
      if solo {
        SoloGoesOn(nodes1, queue1, arcs1, t, v, nodes2, arcs2);
      }
      if v.context.Some? {
        RoundIsBusy(nodes1, queue1, arcs1, t, v, nodes2, arcs2);
        IdledBusy(program, nodes0, queue0, finished, nodes1, queue1, t);
      } else {
        RoundIsStep(nodes1, queue1, arcs1, t, v, nodes2, arcs2);
        IdledStep(program, dfs, nodes0, queue0, finished, nodes1, queue1, t, nodes2, v.queue);
        assert v == View(v.queue, None);
      }
    }

    lemma {:induction false} AloneEnd(nodes0: set<GState>, queue0: seq<Task>, finished: set<Task>, solo: bool,
                                      raised: bool, nodes1: set<GState>, arcs1: seq<Arc>)
      requires Alone(nodes0, queue0, finished, solo, raised, nodes1, arcs1, View([], None)) && queue0 != []
      ensures raised && AllIdle(program, nodes0, queue0)
      ensures solo ==> SoloOk(program, dfs, nodes1, arcs1, View([], None)) && EndsAtOnce(program, dfs, arcs1)
    {
      hide Idled, SoloOk, EndsAtOnce, AllIdle;
      IdledEnd(program, nodes0, queue0, finished, nodes1);
    }

    /** A worker goes on with its queue until one of its tasks keeps running or nothing is left. The program tests for
        an empty queue only before the first round: `raised` tells that it would go on to take a task from an empty
        queue, here or in a worker that tasks are handed to. A worker alone does so exactly if all that it can get
        takes no time, which is so exactly if the last task of all is one. */
    method StartNextInQueue(i: nat, ghost serving: set<nat>, ghost space: set<GState>) returns (raised: bool)
      requires Valid() && i < |workers| && Serving(Views(), i, serving) && ClosedUnder(program, space)
      modifies workers, `nodes, `nodesByHash, `arcs, log
      decreases space - nodes, Queued(Views()), 2
      ensures Valid() && NoneSleepsOnTasks(Views(), serving - {i}) && Kept(old(Views()), Views(), serving - {i})
      ensures old(nodes) <= nodes <= space && old(arcs) <= arcs
      ensures nodes == old(nodes) ==> Queued(Views()) <= old(Queued(Views()))
      ensures old(workers[i].queue) != [] && workers[i].gcontext.None? ==> raised
      ensures log.fell == (old(log.fell) || raised)
      ensures TakesTime(program) ==> !raised
      ensures |workers| == 1 ==> (raised <==>
          old(workers[i].queue) != [] && AllIdle(program, old(nodes), old(workers[i].queue)))
      ensures old(workers[i].queue) == [] ==> !raised && arcs == old(arcs)
      ensures |workers| == 1 && old(Solo()) ==>
                Solo() && (old(workers[i].queue) != [] ==> (raised <==> EndsAtOnce(program, dfs, arcs)))
    {
      hide ExplorationOk, ViewsOf, Plan, ClosedUnder, Tasks, Queued, Serving, Kept, NoneSleepsOnTasks, InHand,
           Continued, Valid, Views, TakesTime, AllIdle, SoloOk, SoloRound, EndsAtOnce, Alone, Distinct, Solo;
      StaysInSpace(space);
      raised := false;
      ghost var vs0, queue0, nodes0, arcs0, queued0 := Views(), workers[i].queue, nodes, arcs, Queued(Views());
      ghost var finished: set<Task>, solo := {}, |workers| == 1 && Solo();
      KeptAll(vs0, serving - {i});
      ServingMeans(vs0, i, serving);
      assert workers[i].AsView() == View(queue0, None) && (|workers| == 1 ==> i == 0);
      SoloMeans();
      AloneStart(nodes0, queue0, solo, arcs0);
      if workers[i].queue == [] {
        NothingQueued(Views(), i, serving);
        return;
      }
      while workers[i].queue != []
        invariant Valid() && Serving(Views(), i, serving) && Kept(vs0, Views(), serving - {i})
        invariant nodes0 <= nodes <= space && (nodes == nodes0 ==> Queued(Views()) <= queued0) && arcs0 <= arcs
        invariant workers[i].AsView() == View(workers[i].queue, None)
        invariant workers[i].queue == [] ==> raised
        invariant TakesTime(program) ==> !raised
        invariant log.fell == (old(log.fell) || raised)
        invariant |workers| == 1 ==> Alone(nodes0, queue0, finished, solo, raised, nodes, arcs, workers[i].AsView())
        decreases space - nodes, Queued(Views())
      {
        ghost var vs, queue1, nodes1, arcs1, raised1 := Views(), workers[i].queue, nodes, arcs, raised;
        var running, failed, t := ServeOne(i, serving, space);
        raised := raised || failed;
        KeptBoth(vs0, vs, Views(), serving, i);
        if |workers| == 1 {
          AloneRound(nodes0, queue0, finished, solo, raised1, nodes1, queue1, arcs1, t, workers[i].AsView(), nodes,
                     arcs);
        }
        if running {
          SoloMeans();
          return;
        }
        finished := finished + {t};
        raised := raised || workers[i].queue == [];
      }
      NothingQueued(Views(), i, serving);
      SoloMeans();
      if |workers| == 1 {
        AloneEnd(nodes0, queue0, finished, solo, raised, nodes, arcs);
      }
    }

    /** One round of it: a task is taken and started. */
    method ServeOne(i: nat, ghost serving: set<nat>, ghost space: set<GState>)
          returns (running: bool, raised: bool, t: Task)
      requires Valid() && i < |workers| && Serving(Views(), i, serving) && ClosedUnder(program, space)
               && workers[i].queue != []
      modifies workers, `nodes, `nodesByHash, `arcs, log
      decreases space - nodes, Queued(Views()), 1
      ensures Valid() && Kept(old(Views()), Views(), serving - {i}) && old(nodes) <= nodes <= space && old(arcs) <= arcs
      ensures running <==> workers[i].gcontext.Some?
      ensures if running then NoneSleepsOnTasks(Views(), serving - {i}) else Serving(Views(), i, serving)
      ensures nodes == old(nodes) ==> Queued(Views()) < old(Queued(Views()))
      ensures TakesTime(program) ==> running
      ensures log.fell == (old(log.fell) || raised || workers[i].AsView() == View([], None))
      ensures TakesTime(program) || |workers| == 1 ==> !raised
      ensures |workers| == 1 ==> SoloRound(old(nodes), old(workers[i].queue), old(arcs), t, workers[i].AsView(), nodes,
                                           arcs)
    {
      hide ExplorationOk, ViewsOf, Plan, ClosedUnder, Tasks, Queued, Serving, Kept, NoneSleepsOnTasks, InHand,
           Continued, Valid, Views, TakesTime, Put;
      ghost var vs0, queue0, nodes0 := Views(), workers[i].queue, nodes;
      t, raised := TakeOrHandOff(i, serving, space);
      ghost var vs1, rest, nodes1, arcs1 := Views(), workers[i].queue, nodes, arcs;
      ServingMeans(vs1, i, serving);
      running := StartGContext(i, t);
      QueuedUpdate(vs1, i, Views()[i]);
      KeptPopped(vs0, vs1, serving, i, Views()[i]);
      StaysInSpace(space);
      if running {
        ServingDone(vs1, i, serving, Views()[i]);
      } else {
        ServingPopped(vs1, i, serving, Views()[i]);
      }
      if |workers| == 1 {
        assert queue0 == Put(dfs, rest, t)
               && Continued(Running(t, program.time(t)), rest, nodes1, arcs1, workers[i].AsView(), nodes, arcs);
      }
      log.fell := log.fell || (!running && workers[i].queue == []);
    }

    lemma ContinuedMeans(c: Running, queue0: seq<Task>, nodes0: set<GState>, arcs0: seq<Arc>, v: View,
                         nodes1: set<GState>, arcs1: seq<Arc>)
      requires Continued(c, queue0, nodes0, arcs0, v, nodes1, arcs1)
      ensures nodes0 <= nodes1 && arcs0 <= arcs1
      ensures v.context.Some? ==> c.left > 0 && v == View(queue0, Some(Running(c.task, c.left - 1))) && nodes1 == nodes0
      ensures v.context.None? ==> |arcs0| < |arcs1|
    {
    }

    /** A worker gets control; when its task is finished, it serves its queue. */
    method Turn(i: nat, ghost space: set<GState>) returns (raised: bool)
      requires Valid() && NoneSleepsOnTasks(Views(), {}) && ClosedUnder(program, space) && i < |workers|
               && workers[i].gcontext.Some?
      modifies workers, `nodes, `nodesByHash, `arcs, log
      ensures Valid() && NoneSleepsOnTasks(Views(), {}) && old(nodes) <= nodes <= space
      ensures nodes == old(nodes) ==>
                Tasks(Views()) < old(Tasks(Views()))
                || (Tasks(Views()) == old(Tasks(Views())) && TurnsLeft(Views()) < old(TurnsLeft(Views())))
      ensures log.fell == (old(log.fell) || raised)
      ensures TakesTime(program) ==> !raised
      ensures |workers| == 1 && old(Solo()) ==> Solo() && (raised <==> EndsAtOnce(program, dfs, arcs))
    {
      hide ExplorationOk, ViewsOf, Plan, ClosedUnder, Tasks, Queued, TurnsLeft, Serving, Kept, NoneSleepsOnTasks,
           InHand, Valid, Views, SoloOk, EndsAtOnce, TakesTime, Continued;
      ghost var vs, nodes0, table0, arcs0 := Views(), nodes, nodesByHash, arcs;
      ValidMeans();
      assert ExplorationOk(program, vs, nodes0, table0, arcs0);
      var running := ContinueInExecution(i);
      if |workers| == 1 && old(Solo()) {
        SoloRuns(vs[i].context.value, vs[i].queue, nodes0, arcs0, workers[i].AsView(), nodes, arcs);
      }
      ContinuedMeans(vs[i].context.value, vs[i].queue, nodes0, arcs0, workers[i].AsView(), nodes, arcs);
      TurnsUpdate(vs, i, Views()[i]);
      StaysInSpace(space);
      raised := false;
      if running {
        SameTasks(vs, i, Views()[i]);
        RunsOn(vs, i, Views()[i]);
      } else {
        ServingFirst(vs, i, Views()[i]);
        raised := StartNextInQueue(i, {i}, space);
        assert {i} - {i} == {};
        ValidMeans();
        FewerTasks(program, vs, nodes0, table0, arcs0, Views(), nodes, nodesByHash, arcs);
      }
    }

    /** While some worker executes a task, one that does gets control; when its task is finished, it serves its
        queue. */
    method MainCycle(ghost space: set<GState>) returns (raised: bool)
      requires Valid() && NoneSleepsOnTasks(Views(), {}) && ClosedUnder(program, space)
      modifies workers, `nodes, `nodesByHash, `arcs, log
      ensures Valid() && Explored(program, nodes, arcs)
      ensures forall i :: 0 <= i < |workers| ==> workers[i].AsView() == View([], None)
      ensures log.fell == (old(log.fell) || raised)
      ensures TakesTime(program) ==> !raised
      ensures |workers| == 1 && old(Solo()) ==>
                Solo() && (raised || old(EndsAtOnce(program, dfs, arcs)) <==> EndsAtOnce(program, dfs, arcs))
    {
      hide ExplorationOk, ViewsOf, Plan, ClosedUnder, Tasks, Queued, Serving, Kept, InHand, Valid, Views, Explored,
           TakesTime, SoloOk, EndsAtOnce;
      StaysInSpace(space);
      raised := false;
      while exists i: nat :: i < |workers| && workers[i].gcontext.Some?
        invariant Valid() && NoneSleepsOnTasks(Views(), {}) && nodes <= space
        invariant TakesTime(program) ==> !raised
        invariant log.fell == (old(log.fell) || raised)
        invariant |workers| == 1 && old(Solo()) ==>
                    Solo() && (raised || old(EndsAtOnce(program, dfs, arcs)) <==> EndsAtOnce(program, dfs, arcs))
        decreases space - nodes, Tasks(Views()), TurnsLeft(Views())
      {
        var i: nat :| i < |workers| && workers[i].gcontext.Some?;
        if |workers| == 1 && old(Solo()) {
          RunningIsNotLast(workers[i].AsView());
        }
        var failed := Turn(i, space);
        raised := raised || failed;
      }
      AllExplored(Views());
    }

    lemma {:induction false} RunningIsNotLast(v: View)
      requires SoloOk(program, dfs, nodes, arcs, v) && v.context.Some?
      ensures !EndsAtOnce(program, dfs, arcs)
    {
      hide InOrder, Known, Waiting, Put;
      OthersOfPut(dfs, v.queue, v.context.value.task);
    }

    constructor (program: Program, dfs: bool, workers: seq<Worker>)
      ensures this.program == program && this.dfs == dfs && this.workers == workers
      ensures nodes == {} && nodesByHash == map[] && arcs == []
      ensures fresh(log) && !log.fell
    {
      this.program, this.dfs, this.workers := program, dfs, workers;
      nodes, nodesByHash, arcs := {}, map[], [];
      log := new Log();
    }

    /** The first worker makes the initial node and starts; then the workers run until none of them executes anything.
        The program does so unless it raises; it never raises when every planned action takes time. A worker alone makes
        the arcs in the order of its search, and raises exactly when the last task of all takes no time: at once when
        nothing that the start brings takes time. */
    method Run(ghost space: set<GState>) returns (raised: bool)
      requires workers != [] && Distinct() && InjectiveHash(program) && ClosedUnder(program, space)
      requires nodes == {} && nodesByHash == map[] && arcs == []
      requires forall i :: 0 <= i < |workers| ==> workers[i].AsView() == View([], None)
      modifies this, workers, log
      ensures Explored(program, nodes, arcs)
      ensures forall i :: 0 <= i < |workers| ==> workers[i].AsView() == View([], None)
      ensures log.fell == (old(log.fell) || raised)
      ensures TakesTime(program) ==> !raised
      ensures |workers| == 1 && AllIdle(program, {program.initial}, [Task(program.initial, program.initial, None)])
              ==> raised
      ensures |workers| == 1 ==>
                && arcs != [] && InOrder(program, dfs, arcs) && Waiting(program, dfs, arcs) == []
                && (raised <==> program.time(arcs[|arcs| - 1].task) == 0)
    {
      hide ExplorationOk, ViewsOf, Plan, ClosedUnder, Tasks, Explored, TakesTime, AllIdle, SoloOk, EndsAtOnce, Waiting;
      ghost var vs := Views();
      var g := program.initial;
      nodes, nodesByHash := {g}, map[program.hash(g) := g];
      workers[0].queue := [Task(g, g, None)];
      OnlyOneChanged(0);
      StartIsOk(program, vs, Views());
      if |workers| == 1 {
        SoloStarts(program, dfs);
      }
      raised := StartNextInQueue(0, {0}, space);
      assert {0} - {0} == {};
      var failed := MainCycle(space);
      raised := raised || failed;
      if |workers| == 1 {
        SoloEnds(program, dfs, nodes, arcs);
      }
    }

    lemma {:induction false} RoundIsStep(nodes0: set<GState>, queue0: seq<Task>, arcs0: seq<Arc>, t: Task, v: View,
                                         nodes1: set<GState>, arcs1: seq<Arc>)
      requires SoloRound(nodes0, queue0, arcs0, t, v, nodes1, arcs1) && v.context.None?
      ensures SoloStep(program, dfs, nodes0, queue0, t, nodes1, v.queue)
    {
      hide Plan;
    }

    lemma {:induction false} RoundIsBusy(nodes0: set<GState>, queue0: seq<Task>, arcs0: seq<Arc>, t: Task, v: View,
                                         nodes1: set<GState>, arcs1: seq<Arc>)
      requires SoloRound(nodes0, queue0, arcs0, t, v, nodes1, arcs1) && v.context.Some?
      ensures t in queue0 && program.time(t) > 0
    {
      hide Plan;
    }

    lemma ValidMeans()
      requires Valid()
      ensures ExplorationOk(program, Views(), nodes, nodesByHash, arcs)
    {
    }

    lemma AllExplored(vs: seq<View>)
      requires Valid() && vs == Views() && NoneSleepsOnTasks(vs, {})
               && (forall i: nat :: i < |vs| ==> vs[i].context.None?)
      ensures Explored(program, nodes, arcs)
      ensures forall i: nat :: i < |vs| ==> vs[i] == View([], None)
    {
      NothingLeft(program, vs, nodes, nodesByHash, arcs);
    }
  }

  /** The nodes are the reachable states, and there is one arc for every action planned in one of them, to its
      result. */
  ghost predicate Explored(p: Program, nodes: set<GState>, arcs: seq<Arc>) {
    && (forall g :: g in nodes <==> Reachable(p, g))
    && (forall t :: Done(arcs)[t] == if Reachable(p, t.node) && IsPlanned(p, t) then 1 else 0)
    && (forall a :: a in arcs ==> a.target == p.run(a.task))
  }

  lemma SoloStarts(p: Program, dfs: bool)
    ensures SoloOk(p, dfs, {p.initial}, [], View([Task(p.initial, p.initial, None)], None))
  {
    assert Known(p, []) == {p.initial};
  }

  lemma SoloEnds(p: Program, dfs: bool, nodes: set<GState>, arcs: seq<Arc>)
    requires SoloOk(p, dfs, nodes, arcs, View([], None))
    ensures arcs != [] && InOrder(p, dfs, arcs) && Waiting(p, dfs, arcs) == []
    ensures EndsAtOnce(p, dfs, arcs) <==> p.time(arcs[|arcs| - 1].task) == 0
  {
  }

  lemma {:induction false} StartIsOk(p: Program, vs: seq<View>, vs': seq<View>)
    requires vs != [] && vs' == vs[0 := View([Task(p.initial, p.initial, None)], None)]
    requires forall i :: 0 <= i < |vs| ==> vs[i] == View([], None)
    ensures ExplorationOk(p, vs', {p.initial}, map[p.hash(p.initial) := p.initial], [])
    ensures Serving(vs', 0, {0})
  {
    hide Tasks;
    assert IsChain(p, [p.initial]);
    forall t: Task ensures Tasks(vs')[t] == if t == Task(p.initial, p.initial, None) then 1 else 0 {
      TaskSomewhere(vs, t);
      TasksUpdate(vs, 0, vs'[0], t);
      assert Tasks(vs)[t] == 0;
      assert vs'[0].queue == [Task(p.initial, p.initial, None)];
    }
    assert Done([]) == multiset{};
  }

  lemma NothingLeft(p: Program, vs: seq<View>, nodes: set<GState>, table: map<nat, GState>, arcs: seq<Arc>)
    requires ExplorationOk(p, vs, nodes, table, arcs) && forall i: nat :: i < |vs| ==> vs[i] == View([], None)
    ensures Explored(p, nodes, arcs)
  {
    forall t ensures Tasks(vs)[t] == 0 {
      TaskSomewhere(vs, t);
    }
    assert forall t :: (Tasks(vs) + Done(arcs))[t] == Done(arcs)[t];
    assert ClosedUnder(p, nodes) by {
      forall t | IsPlanned(p, t) && t.node in nodes ensures p.run(t) in nodes {
        assert Done(arcs)[t] == 1;
        DoneIsArc(arcs, t);
      }
    }
    forall g | Reachable(p, g) ensures g in nodes {
      var c :| IsChain(p, c) && c[|c| - 1] == g;
      ReachableStays(p, nodes, c);
    }
  }

  lemma {:induction false} DoneIsArc(arcs: seq<Arc>, t: Task)
    requires Done(arcs)[t] > 0
    ensures exists a :: a in arcs && a.task == t
  {
    var last := arcs[|arcs| - 1];
    if last.task == t {
      assert last in arcs;
    } else {
      DoneIsArc(arcs[..|arcs| - 1], t);
    }
  }

  /** How often the running tasks still return control. */
  function TurnsLeft(vs: seq<View>): nat {
    if vs == [] then 0
    else TurnsLeft(vs[..|vs| - 1]) + if vs[|vs| - 1].context.Some? then vs[|vs| - 1].context.value.left else 0
  }

  lemma {:induction false} TurnsUpdate(vs: seq<View>, i: nat, v: View)
    requires i < |vs|
    ensures TurnsLeft(vs[i := v]) + (if vs[i].context.Some? then vs[i].context.value.left else 0) ==
            TurnsLeft(vs) + if v.context.Some? then v.context.value.left else 0
  {
    var n := |vs| - 1;
    if i < n {
      assert vs[i := v][..n] == vs[..n][i := v];
      TurnsUpdate(vs[..n], i, v);
    } else {
      assert vs[i := v][..n] == vs[..n];
    }
  }

  lemma RunsOn(vs: seq<View>, i: nat, v: View)
    requires NoneSleepsOnTasks(vs, {}) && i < |vs| && v.context.Some?
    ensures NoneSleepsOnTasks(vs[i := v], {})
  {
  }

  lemma ServingFirst(vs: seq<View>, i: nat, v: View)
    requires NoneSleepsOnTasks(vs, {}) && i < |vs| && v.context.None?
    ensures Serving(vs[i := v], i, {i})
  {
  }

  lemma {:induction false} DoneGrows(arcs: seq<Arc>, more: seq<Arc>)
    requires arcs <= more
    ensures Done(arcs) <= Done(more)
    ensures |arcs| < |more| ==> Done(arcs) < Done(more)
    decreases |more|
  {
    if |arcs| < |more| {
      DoneGrows(arcs, more[..|more| - 1]);
    } else {
      assert arcs == more;
    }
  }

  /** As long as no node is added, finishing a task leaves fewer tasks. */
  lemma FewerTasks(p: Program, vs: seq<View>, nodes: set<GState>, table: map<nat, GState>, arcs: seq<Arc>,
                   vs': seq<View>, nodes': set<GState>, table': map<nat, GState>, arcs': seq<Arc>)
    requires ExplorationOk(p, vs, nodes, table, arcs) && ExplorationOk(p, vs', nodes', table', arcs')
    requires arcs <= arcs' && |arcs| < |arcs'|
    ensures nodes == nodes' ==> Tasks(vs') < Tasks(vs)
  {
    DoneGrows(arcs, arcs');
    if nodes == nodes' {
      forall t: Task ensures Tasks(vs')[t] + Done(arcs')[t] == Tasks(vs)[t] + Done(arcs)[t] {
        assert (Tasks(vs') + Done(arcs'))[t] == (Tasks(vs) + Done(arcs))[t];
      }
      var t: Task :| Done(arcs)[t] < Done(arcs')[t];
      assert Tasks(vs')[t] < Tasks(vs)[t];
    }
  }

  /** Worker `i` is about to take tasks from its queue; the workers in `serving` other than `i` are waiting until it is
      done. */
  ghost predicate Serving(vs: seq<View>, i: nat, serving: set<nat>) {
    && i < |vs| && i in serving && vs[i].context.None?
    && (forall j :: j in serving && j != i ==> j < |vs| && vs[j].context.None? && vs[j].queue != [])
    && NoneSleepsOnTasks(vs, serving)
  }

  ghost predicate Kept(vs: seq<View>, vs': seq<View>, serving: set<nat>) {
    |vs| == |vs'| && forall j :: j in serving && j < |vs| ==> vs'[j] == vs[j]
  }

  lemma KeptAll(vs: seq<View>, serving: set<nat>)
    ensures Kept(vs, vs, serving)
  {
  }

  lemma KeptPopped(vs0: seq<View>, vs: seq<View>, serving: set<nat>, i: nat, v: View)
    requires Kept(vs0, vs, serving - {i}) && i < |vs|
    ensures Kept(vs0, vs[i := v], serving - {i})
  {
  }

  lemma KeptStarted(vs0: seq<View>, vs: seq<View>, serving: set<nat>, i: nat, n: nat, v: View)
    requires Kept(vs0, vs, serving - {i}) && n < |vs| && n !in serving
    ensures Kept(vs0, vs[n := v], serving - {i})
  {
  }

  lemma KeptBoth(vs0: seq<View>, vs1: seq<View>, vs2: seq<View>, serving: set<nat>, i: nat)
    requires Kept(vs0, vs1, serving - {i}) && (Kept(vs1, vs2, serving - {i}) || Kept(vs1, vs2, serving))
    ensures Kept(vs0, vs2, serving - {i})
  {
  }

  lemma ServingMeans(vs: seq<View>, i: nat, serving: set<nat>)
    requires Serving(vs, i, serving)
    ensures i < |vs| && i in serving && vs[i].context.None? && NoneSleepsOnTasks(vs, serving)
  {
  }

  lemma ServingPopped(vs: seq<View>, i: nat, serving: set<nat>, v: View)
    requires Serving(vs, i, serving) && v.context.None?
    ensures Serving(vs[i := v], i, serving)
  {
  }

  lemma SleeperNotServing(vs: seq<View>, i: nat, serving: set<nat>, n: nat)
    requires Serving(vs, i, serving) && n < |vs| && n != i && vs[n] == View([], None)
    ensures n !in serving
  {
  }

  lemma ServingStarted(vs: seq<View>, i: nat, serving: set<nat>, n: nat, v: View)
    requires Serving(vs, i, serving) && n < |vs| && n !in serving && v.context.Some?
    ensures Serving(vs[n := v], i, serving)
  {
  }

  lemma ServingBoth(vs: seq<View>, i: nat, serving: set<nat>, n: nat, v: View)
    requires Serving(vs, i, serving) && vs[i].queue != [] && n < |vs| && n !in serving && v.context.None?
    ensures Serving(vs[n := v], n, serving + {n})
  {
  }

  lemma ServingAgain(vs: seq<View>, vs': seq<View>, i: nat, serving: set<nat>, n: nat)
    requires Serving(vs, n, serving + {n}) && n !in serving && i in serving && i < |vs|
    requires NoneSleepsOnTasks(vs', serving) && Kept(vs, vs', serving)
    ensures Serving(vs', i, serving) && vs'[i].queue != []
  {
  }

  lemma {:induction false} NothingQueued(vs: seq<View>, i: nat, serving: set<nat>)
    requires Serving(vs, i, serving) && vs[i].queue == []
    ensures NoneSleepsOnTasks(vs, serving - {i})
  {
    hide NoneSleepsOnTasks;
    ServingDone(vs, i, serving, vs[i]);
    assert vs[i := vs[i]] == vs;
  }

  lemma ServingDone(vs: seq<View>, i: nat, serving: set<nat>, v: View)
    requires Serving(vs, i, serving) && (v.context.None? ==> v.queue == [])
    ensures NoneSleepsOnTasks(vs[i := v], serving - {i})
  {
  }

  lemma NodesInSpace(p: Program, vs: seq<View>, nodes: set<GState>, table: map<nat, GState>, arcs: seq<Arc>,
                     space: set<GState>)
    requires ExplorationOk(p, vs, nodes, table, arcs) && ClosedUnder(p, space)
    ensures nodes <= space
  {
    forall g | g in nodes ensures g in space {
      var c :| IsChain(p, c) && c[|c| - 1] == g;
      ReachableStays(p, space, c);
    }
  }

  lemma PoppedIsInHand(p: Program, vs: seq<View>, nodes: set<GState>, table: map<nat, GState>, arcs: seq<Arc>, i: nat,
                       rest: seq<Task>, r: Running)
    requires ExplorationOk(p, vs, nodes, table, arcs) && i < |vs| && vs[i].context.None?
    requires multiset(vs[i].queue) == multiset(rest) + multiset{r.task}
    ensures ExplorationOk(p, vs[i := View(rest, Some(r))], nodes, table, arcs)
  {
    forall t: Task ensures Tasks(vs[i := View(rest, Some(r))])[t] == Tasks(vs)[t] {
      TasksUpdate(vs, i, View(rest, Some(r)), t);
    }
  }

  lemma HandMoves(p: Program, vs: seq<View>, nodes: set<GState>, table: map<nat, GState>, arcs: seq<Arc>, r: Running,
                  k: nat, i: nat)
    requires k < |vs| && i < |vs| && vs[i].context.None?
    requires ExplorationOk(p, vs[k := View(vs[k].queue, Some(r))], nodes, table, arcs)
    requires vs[k].context.None?
    ensures ExplorationOk(p, vs[i := View(vs[i].queue, Some(r))], nodes, table, arcs)
  {
    var a, b := vs[k := View(vs[k].queue, Some(r))], vs[i := View(vs[i].queue, Some(r))];
    forall t: Task ensures Tasks(a)[t] == Tasks(b)[t] {
      TasksUpdate(vs, k, View(vs[k].queue, Some(r)), t);
      TasksUpdate(vs, i, View(vs[i].queue, Some(r)), t);
    }
  }

  lemma SameTasks(vs: seq<View>, i: nat, v: View)
    requires i < |vs| && ViewTasks(v) == ViewTasks(vs[i])
    ensures Tasks(vs[i := v]) == Tasks(vs)
  {
    forall t: Task ensures Tasks(vs[i := v])[t] == Tasks(vs)[t] {
      TasksUpdate(vs, i, v, t);
    }
  }

  lemma ResultReachable(p: Program, vs: seq<View>, nodes: set<GState>, table: map<nat, GState>, arcs: seq<Arc>, i: nat)
    requires ExplorationOk(p, vs, nodes, table, arcs) && i < |vs| && vs[i].context.Some?
    ensures Reachable(p, p.run(vs[i].context.value.task)) && NodesOk(p, nodes, table)
  {
    RunningIsPlanned(p, vs, nodes, arcs, i);
    ReachableNext(p, vs[i].context.value.task);
  }

  lemma {:induction false} FinishKeeps(p: Program, vs: seq<View>, nodes: set<GState>, table: map<nat, GState>,
                                       arcs: seq<Arc>, i: nat, table': map<nat, GState>)
    requires ExplorationOk(p, vs, nodes, table, arcs) && i < |vs| && vs[i].context.Some?
    requires var g := p.run(vs[i].context.value.task); NodesOk(p, nodes + {g}, table')
    ensures var t := vs[i].context.value.task;
            var g := p.run(t);
            ExplorationOk(p, vs[i := View(vs[i].queue + if g in nodes then [] else Plan(p, g, p.actions(g)), None)],
                          nodes + {g}, table',
                          arcs + [Arc(t, g)])
  {
    hide Conserved, NodesOk;
    var t := vs[i].context.value.task;
    var g := p.run(t);
    var vs1 := vs[i := View(vs[i].queue, None)];
    FinishConserves(p, vs, nodes, arcs, i, g);
    if g in nodes {
      assert nodes + {g} == nodes;
      assert vs[i].queue + [] == vs[i].queue;
    } else {
      InitialIsNode(p, nodes, table);
      PlanConserves(p, vs1, nodes, arcs + [Arc(t, g)], i, g);
      var v := View(vs[i].queue + Plan(p, g, p.actions(g)), None);
      assert vs1[i := v] == vs[i := v];
    }
  }

  lemma InitialIsNode(p: Program, nodes: set<GState>, table: map<nat, GState>)
    requires NodesOk(p, nodes, table)
    ensures p.initial in nodes
  {
  }

  /** A program that runs from state 0 to state 1, where two matches can be made in both orders without more running
      in between; both orders lead to state 4, from where the program runs to its end. */
  function TwoMatches(): Program {
    Program(0, g => if g == 1 then 2 else if 2 <= g <= 4 then 1 else 0,
            (t: Task) =>
                 if t.node == 0 then 1
                 else if t.node == 1 then (if t.action == Some(0) then 2 else 3)
                 else if t.node == 4 then 5 else 4,
            (t: Task) => if t.node == 0 || t.node == 4 then 1 else 0, g => g)
  }

  /** The arcs in the order in which a worker alone makes them. */
  function Made(dfs: bool): seq<Arc> {
    var start, end := Arc(Task(0, 0, None), 1), Arc(Only(4), 5);
    var a, b, c, d := Arc(First(), 2), Arc(Second(), 3), Arc(Only(2), 4), Arc(Only(3), 4);
    if dfs then [start, b, d, end, a, c] else [start, a, b, c, d, end]
  }

  lemma {:induction false} TaskIsNext(p: Program, dfs: bool, nodes: set<GState>, arcs: seq<Arc>, queue: seq<Task>,
                                      rest: seq<Task>, t: Task)
    requires SoloOk(p, dfs, nodes, arcs, View(queue, None)) && queue == Put(dfs, rest, t)
    ensures var g := p.run(t);
            SoloOk(p, dfs, nodes + {g}, arcs + [Arc(t, g)],
                   View(rest + if g in nodes then [] else Plan(p, g, p.actions(g)), None))
  {
    hide Plan, Waiting, Put, Known, InOrder;
    OrderGoesOn(p, dfs, nodes, arcs, rest, t);
  }

  /** After the first `k` arcs the tasks of `queue` wait, and the nodes are `nodes`. */
  ghost predicate MadeOk(dfs: bool, k: nat, nodes: set<GState>, queue: seq<Task>)
    requires k <= 6
  {
    SoloOk(TwoMatches(), dfs, nodes, Made(dfs)[..k], View(queue, None))
  }

  lemma {:induction false} MadeMore(dfs: bool, k: nat, nodes: set<GState>, queue: seq<Task>, rest: seq<Task>,
                                    more: seq<Task>)
    requires k < 6 && MadeOk(dfs, k, nodes, queue) && queue == Put(dfs, rest, Made(dfs)[k].task)
    requires var p, g := TwoMatches(), Made(dfs)[k].target;
             more == if g in nodes then [] else Plan(p, g, p.actions(g))
    ensures MadeOk(dfs, k + 1, nodes + {Made(dfs)[k].target}, rest + more)
  {
    hide SoloOk, Plan, Waiting, Put, Known, InOrder;
    var p := TwoMatches();
    assert Made(dfs)[..k + 1] == Made(dfs)[..k] + [Made(dfs)[k]];
    assert p.run(Made(dfs)[k].task) == Made(dfs)[k].target;
    TaskIsNext(p, dfs, nodes, Made(dfs)[..k], queue, rest, Made(dfs)[k].task);
  }

  function First(): Task { Task(1, 1, Some(0)) }

  function Second(): Task { Task(1, 1, Some(1)) }

  function Only(g: GState): Task { Task(g, g, Some(0)) }

  lemma PlansOfMatches()
    ensures var p := TwoMatches();
            && Plan(p, 1, p.actions(1)) == [First(), Second()]
            && Plan(p, 2, p.actions(2)) == [Only(2)] && Plan(p, 3, p.actions(3)) == [Only(3)]
            && Plan(p, 4, p.actions(4)) == [Only(4)] && Plan(p, 5, p.actions(5)) == []
  {
    var p := TwoMatches();
    assert Plan(p, 1, 1) == [First()];
  }

  lemma {:induction false} MadeStart(dfs: bool)
    ensures MadeOk(dfs, 1, {0, 1}, [First(), Second()])
  {
    SoloStarts(TwoMatches(), dfs);
    PlansOfMatches();
    hide Plan, SoloOk;
    assert Made(dfs)[..0] == [];
    MadeMore(dfs, 0, {0}, [Task(0, 0, None)], [], [First(), Second()]);
    assert {0} + {1} == {0, 1} && [] + [First(), Second()] == [First(), Second()];
  }

  lemma {:induction false} MadeInDepth()
    ensures MadeOk(true, 4, {0, 1, 3, 4, 5}, [First()])
  {
    MadeStart(true);
    PlansOfMatches();
    hide Plan, MadeOk;
    MadeMore(true, 1, {0, 1}, [First(), Second()], [First()], [Only(3)]);
    assert {0, 1} + {3} == {0, 1, 3} && [First()] + [Only(3)] == [First(), Only(3)];
    MadeMore(true, 2, {0, 1, 3}, [First(), Only(3)], [First()], [Only(4)]);
    assert {0, 1, 3} + {4} == {0, 1, 3, 4} && [First()] + [Only(4)] == [First(), Only(4)];
    MadeMore(true, 3, {0, 1, 3, 4}, [First(), Only(4)], [First()], []);
    assert {0, 1, 3, 4} + {5} == {0, 1, 3, 4, 5} && [First()] + [] == [First()];
  }

  lemma {:induction false} MadeInBreadth()
    ensures MadeOk(false, 4, {0, 1, 2, 3, 4}, [Only(3), Only(4)])
  {
    MadeStart(false);
    PlansOfMatches();
    hide Plan, MadeOk;
    MadeMore(false, 1, {0, 1}, [First(), Second()], [Second()], [Only(2)]);
    assert {0, 1} + {2} == {0, 1, 2} && [Second()] + [Only(2)] == [Second(), Only(2)];
    MadeMore(false, 2, {0, 1, 2}, [Second(), Only(2)], [Only(2)], [Only(3)]);
    assert {0, 1, 2} + {3} == {0, 1, 2, 3} && [Only(2)] + [Only(3)] == [Only(2), Only(3)];
    MadeMore(false, 3, {0, 1, 2, 3}, [Only(2), Only(3)], [Only(3)], [Only(4)]);
    assert {0, 1, 2, 3} + {4} == {0, 1, 2, 3, 4} && [Only(3)] + [Only(4)] == [Only(3), Only(4)];
  }

  lemma {:induction false} MadeAll(dfs: bool)
    ensures MadeOk(dfs, 6, {0, 1, 2, 3, 4, 5}, [])
  {
    PlansOfMatches();
    hide Plan, MadeOk;
    var none: seq<Task> := [];
    assert none + none == none;
    if dfs {
      MadeInDepth();
      MadeMore(true, 4, {0, 1, 3, 4, 5}, [First()], [], [Only(2)]);
      assert {0, 1, 3, 4, 5} + {2} == {0, 1, 2, 3, 4, 5} && [] + [Only(2)] == [Only(2)];
      MadeMore(true, 5, {0, 1, 2, 3, 4, 5}, [Only(2)], [], []);
      assert {0, 1, 2, 3, 4, 5} + {4} == {0, 1, 2, 3, 4, 5};
    } else {
      MadeInBreadth();
      MadeMore(false, 4, {0, 1, 2, 3, 4}, [Only(3), Only(4)], [Only(4)], []);
      assert {0, 1, 2, 3, 4} + {4} == {0, 1, 2, 3, 4} && [Only(4)] + [] == [Only(4)];
      MadeMore(false, 5, {0, 1, 2, 3, 4}, [Only(4)], [], []);
      assert {0, 1, 2, 3, 4} + {5} == {0, 1, 2, 3, 4, 5};
    }
  }

  lemma {:induction false} MadeInOrder(dfs: bool)
    ensures InOrder(TwoMatches(), dfs, Made(dfs)) && Waiting(TwoMatches(), dfs, Made(dfs)) == []
  {
    hide InOrder, Waiting;
    MadeAll(dfs);
    assert Made(dfs)[..6] == Made(dfs);
    assert SoloOk(TwoMatches(), dfs, {0, 1, 2, 3, 4, 5}, Made(dfs), View([], None));
    SoloEnds(TwoMatches(), dfs, {0, 1, 2, 3, 4, 5}, Made(dfs));
  }

  /** It happens: searching depth first, a worker alone finishes the second order of the matches last, without running
      and in a state that has been seen, and takes a task from the empty queue; searching breadth first it does not. */
  method DepthFirstRaises(dfs: bool) returns (raised: bool)
    ensures raised <==> dfs
  {
    hide InOrder, Waiting, ClosedUnder, InjectiveHash, Explored, AllIdle, TakesTime;
    var p := TwoMatches();
    var w := new Worker();
    var generator := new Generator(p, dfs, [w]);
    MatchesStay();
    raised := generator.Run({0, 1, 2, 3, 4, 5});
    MadeIs(dfs, generator.arcs);
  }

  lemma {:induction false} MadeIs(dfs: bool, arcs: seq<Arc>)
    requires InOrder(TwoMatches(), dfs, arcs) && Waiting(TwoMatches(), dfs, arcs) == []
    ensures arcs == Made(dfs)
  {
    MadeInOrder(dfs);
    hide InOrder, Waiting, TwoMatches, Made;
    if |Made(dfs)| <= |arcs| {
      OrderIsUnique(TwoMatches(), dfs, Made(dfs), arcs);
    } else {
      OrderIsUnique(TwoMatches(), dfs, arcs, Made(dfs));
    }
  }

  lemma MatchesStay()
    ensures ClosedUnder(TwoMatches(), {0, 1, 2, 3, 4, 5}) && InjectiveHash(TwoMatches())
  {
  }
}
