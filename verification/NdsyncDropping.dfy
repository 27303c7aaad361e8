/** Markings that are dropped from the walk: when nothing is lost with them, and when the walk goes wrong. */
module NdsyncDropping {
  import opened MemoryTypes
  import opened Ndsync
  import opened NdsyncRenaming
  import opened NdsyncCovering
  import opened NdsyncChecker
  import opened StateSpace

  // ---- the future of a marking ---------------------------------------------------------------------

  lemma {:induction false} RenamedArc(f: Naming, g: Naming, t: Plan, s: Marks, u: Marks, a: ArcId)
    requires Renamed(f, g, s, u) && IsArc(t.g, a) && (a in t.events ==> KeepsAllNames(f, t.events[a]))
    ensures ArcOk(t.g, t.events, s, a) <==> ArcOk(t.g, t.events, u, a)
    ensures Renamed(f, g, Advance(t, s, a), Advance(t, u, a))
  {
    hide Renamed, WellFormed, EventMarks, Cleanup, RunWellFormed, AfterRun;
    if a in t.events {
      var branching := |t.g[a.node]| > 1;
      if branching && |t.events[a]| > 0 {
        RenamedEventMarks(f, g, s, u, t.events[a][0]);
        if WellFormed(s, t.events[a][0]) {
          RenamedCleanup(f, g, s, u, EventMarks(s, t.events[a][0]));
        }
      }
      if !branching || (|t.events[a]| > 0 && WellFormed(s, t.events[a][0])) {
        RenamedRun(f, g, Before(t.g, t.events, s, a), Before(t.g, t.events, u, a), t.events[a]);
      }
    }
  }

  /** The marks that come with the events ahead keep their names. */
  ghost predicate KeptAhead(f: Naming, t: Plan) {
    forall path, a :: IsArc(t.g, a) && a in t.events && Trail(t, path, a.node) ==> KeepsAllNames(f, t.events[a])
  }

  lemma {:induction false} RenamedAlong(f: Naming, g: Naming, t: Plan, s: Marks, u: Marks, path: seq<ArcId>, n: Node)
    requires Renamed(f, g, s, u) && KeptAhead(f, t) && Trail(t, path, n)
    ensures Renamed(f, g, Along(t, s, path), Along(t, u, path))
  {
    hide Renamed, Advance, ArcOk, KeepsAllNames;
    if path != [] {
      var before, a := path[..|path| - 1], path[|path| - 1];
      RenamedAlong(f, g, t, s, u, before, a.node);
      RenamedArc(f, g, t, Along(t, s, before), Along(t, u, before), a);
    }
  }

  lemma {:induction false} RenamedArcMarks(f: Naming, g: Naming, t: Plan, s: Marks, u: Marks, n: Node, i: nat)
    requires Renamed(f, g, s, u) && n in t.g && |t.g[n]| > 1 && i <= |t.g[n]|
    requires ArcsOk(t.g, t.events, s, n) && ArcsOk(t.g, t.events, u, n)
    requires forall a :: IsArc(t.g, a) && a.node == n && a in t.events ==> KeepsAllNames(f, t.events[a])
    ensures UnionOfArcs(t.g, t.events, u, n, i) == Image(f, UnionOfArcs(t.g, t.events, s, n, i))
    ensures forall j: nat :: j < i ==> (ArcMarks(t.g, t.events, u, ArcId(n, j)) == {} <==>
                                        ArcMarks(t.g, t.events, s, ArcId(n, j)) == {})
  {
    hide Renamed, ArcOk, EventMarks, WellFormed, Image, KeepsNames;
    assert Inverse(f, g) by { assert Renamed(f, g, s, u); RenamedInverse(f, g, s, u); }
    if i == 0 {
      ImageNone(f);
    } else {
      var a := ArcId(n, i - 1);
      RenamedArcMarks(f, g, t, s, u, n, i - 1);
      FirstEvent(t.g, t.events, s, a);
      FirstEvent(t.g, t.events, u, a);
      RenamedEventMarks(f, g, s, u, t.events[a][0]);
      ImageOps(f, g, UnionOfArcs(t.g, t.events, s, n, i - 1), ArcMarks(t.g, t.events, s, a));
    }
  }

  /** A renamed marking is stuck where the marking is, and by the renamed marks. */
  lemma {:induction false} RenamedStuck(f: Naming, g: Naming, t: Plan, s: Marks, u: Marks, n: Node)
    requires Renamed(f, g, s, u) && n in t.g && ArcsOk(t.g, t.events, s, n)
    requires forall a :: IsArc(t.g, a) && a.node == n && a in t.events ==> KeepsAllNames(f, t.events[a])
    ensures ArcsOk(t.g, t.events, u, n)
    ensures Stuck(t.g, t.events, s, n) <==> Stuck(t.g, t.events, u, n)
    ensures DeadlockMarks(t.g, t.events, u, n) == Image(f, DeadlockMarks(t.g, t.events, s, n))
  {
    hide Renamed, ArcOk, ArcMarks, Image, KeepsAllNames, Inverse;
    RenamedInverse(f, g, s, u);
    forall i: nat | i < |t.g[n]| ensures ArcOk(t.g, t.events, u, ArcId(n, i)) {
      RenamedArc(f, g, t, s, u, ArcId(n, i));
    }
    TableKeys(f, g, s.terminate);
    if |t.g[n]| > 1 {
      RenamedArcMarks(f, g, t, s, u, n, |t.g[n]|);
    }
  }

  /** Nothing is lost when one of two such markings is dropped: from the node on, every way that leads to a deadlock
      from the one leads to a deadlock from the other, blocked by the renamed marks. */
  lemma {:induction false} SameDeadlocks(f: Naming, g: Naming, t: Plan, s: Marks, u: Marks, path: seq<ArcId>, n: Node)
    requires Renamed(f, g, s, u) && KeptAhead(f, t) && Trail(t, path, n) && n in t.g && n in t.nodes
    ensures Deadlock(t, s, n, Along(t, s, path)) <==> Deadlock(t, u, n, Along(t, u, path))
    ensures Deadlock(t, s, n, Along(t, s, path)) ==>
              DeadlockMarks(t.g, t.events, Along(t, u, path), n)
              == Image(f, DeadlockMarks(t.g, t.events, Along(t, s, path), n))
  {
    hide Renamed, ArcsOk, Stuck, KeepsAllNames, DeadlockMarks;
    var x, y := Along(t, s, path), Along(t, u, path);
    RenamedAlong(f, g, t, s, u, path, n);
    RenamedArcs(f, g, t, x, y, n);
    if ArcsOk(t.g, t.events, x, n) {
      RenamedStuck(f, g, t, x, y, n);
    }
    assert Carried(t, s, n, x) && Carried(t, u, n, y);
  }

  lemma {:induction false} RenamedArcs(f: Naming, g: Naming, t: Plan, s: Marks, u: Marks, n: Node)
    requires Renamed(f, g, s, u) && n in t.g
    requires forall a :: IsArc(t.g, a) && a.node == n && a in t.events ==> KeepsAllNames(f, t.events[a])
    ensures ArcsOk(t.g, t.events, s, n) <==> ArcsOk(t.g, t.events, u, n)
  {
    hide Renamed, ArcOk, KeepsAllNames;
    forall i: nat | i < |t.g[n]|
      ensures ArcOk(t.g, t.events, s, ArcId(n, i)) <==> ArcOk(t.g, t.events, u, ArcId(n, i))
    {
      RenamedArc(f, g, t, s, u, ArcId(n, i));
    }
  }

  /** The marks that come with the events ahead are none of those that the mapping is about. */
  ghost predicate NewAhead(mapping: Mapping, t: Plan) {
    forall path, a, i, id :: IsArc(t.g, a) && a in t.events && Trail(t, path, a.node) && 0 <= i < |t.events[a]|
                             && t.events[a][i].Call? && id in t.events[a][i].newRequests ==>
      Mark(t.events[a][i].uid, id) !in mapping.Keys && Mark(t.events[a][i].uid, id) !in mapping.Values
  }

  /** Dropping a marking loses no deadlock when the mapping agrees with the rest as well. */
  lemma {:induction false} CoveredLosesNothing(mapping: Mapping, t: Plan, s: Marks, u: Marks, pid: Mark -> nat,
                                               path: seq<ArcId>, n: Node)
    requires Inv(s) && Comparable(s, u, pid) && Candidate(mapping, s, u, pid) && Accepts(mapping, s, u)
    requires RestAgrees(mapping, s, u) && NewAhead(mapping, t)
    requires Trail(t, path, n) && n in t.g && n in t.nodes
    ensures Deadlock(t, s, n, Along(t, s, path)) <==> Deadlock(t, u, n, Along(t, u, path))
  {
    hide Inv, Comparable, Candidate, Accepts, Renamed, Deadlock, RestAgrees;
    var f, g := Extension(mapping) by { assert RestAgrees(mapping, s, u); RestIsOneToOne(mapping, s, u); }
    RestGivesRenaming(mapping, s, u, pid, f, g);
    forall before, a | IsArc(t.g, a) && a in t.events && Trail(t, before, a.node)
      ensures KeepsAllNames(f, t.events[a])
    {
    }
    SameDeadlocks(f, g, t, s, u, path, n);
  }

  /** The mapping is one that the test accepts, it agrees with the rest, and the events ahead bring new marks. */
  ghost predicate FullyAgrees(mapping: Mapping, t: Plan, m: Marks, x: Marks, pid: Mark -> nat) {
    Candidate(mapping, m, x, pid) && Accepts(mapping, m, x) && RestAgrees(mapping, m, x) && NewAhead(mapping, t)
  }

  lemma CoveredIsComparable(m: Marks, x: Marks, pid: Mark -> nat)
    requires MarkingOk(m, pid) && MarkingOk(x, pid) && SameState(m, x, pid) && Answered(m, x, pid) == Covers
    ensures Comparable(m, x, pid)
  {
  }

  /** When all that the test accepts agrees with the rest as well, the walk loses nothing. */
  lemma {:induction false} CoveringLosesNothing(t: Plan, first: Marks, pid: Mark -> nat)
    requires t.nodes <= t.g.Keys && t.covers == CoveringTest(pid) && StatesOk(t, first, pid)
    requires forall n, m, x :: Carried(t, first, n, m) && Carried(t, first, n, x) && t.covers(m, x) == Covers ==>
               exists mapping :: FullyAgrees(mapping, From(t, n), m, x, pid)
    ensures LosesNothing(t, first)
  {
    hide MarkingOk, SameState, Comparable, Candidate, Accepts, RestAgrees, NewAhead, Trail, Along, Deadlock, Answered,
         Carried, StatesOk;
    forall n, m, x | Carried(t, first, n, m) && Carried(t, first, n, x) && t.covers(m, x) == Covers
      ensures SameFuture(t, n, m, x)
    {
      CanCompare(t, first, n, m, x, pid);
      CoveredIsComparable(m, x, pid);
      var mapping :| FullyAgrees(mapping, From(t, n), m, x, pid);
      forall path, k | Leads(From(t, n), m, path, k) ensures Leads(From(t, n), x, path, k) {
        assert k in t.nodes by { DeadlockInNodes(From(t, n), m, k, Along(From(t, n), m, path)); }
        assert Inv(m) by { OkIsInv(m, pid); }
        CoveredLosesNothing(mapping, From(t, n), m, x, pid, path, k);
      }
    }
  }

  lemma OkIsInv(m: Marks, pid: Mark -> nat)
    requires MarkingOk(m, pid)
    ensures Inv(m)
  {
  }

  lemma DeadlockInNodes(t: Plan, first: Marks, n: Node, m: Marks)
    requires Deadlock(t, first, n, m)
    ensures n in t.nodes
  {
  }

  // ---- the markings that come about ------------------------------------------------------------------

  /** On every way, calls are the first of their processes, with new marks. */
  ghost predicate WaysCallNew(t: Plan, first: Marks, pid: Mark -> nat) {
    forall n, m, a :: Carried(t, first, n, m) && IsArc(t.g, a) && a.node == n && ArcOk(t.g, t.events, m, a) ==>
      RunCallsNew(Before(t.g, t.events, m, a), t.events[a], pid)
  }

  lemma {:induction false} FirstIsOk(processCount: nat, pid: Mark -> nat)
    ensures MarkingOk(InitialMarks(processCount), pid)
  {
    NoCalls();
  }

  /** Then every marking that some way carries to a node is one that comes about. */
  lemma {:induction false} MarkingsAreOk(t: Plan, processCount: nat, pid: Mark -> nat, path: seq<ArcId>, n: Node)
    requires WaysCallNew(t, InitialMarks(processCount), pid) && Trail(t, path, n)
    ensures MarkingOk(Along(t, InitialMarks(processCount), path), pid)
    decreases |path|
  {
    hide MarkingOk, ArcOk, RunCallsNew, Before, RunWellFormed, AfterRun, Cleanup;
    var first := InitialMarks(processCount);
    FirstIsOk(processCount, pid);
    if path != [] {
      var a, before := path[|path| - 1], path[..|path| - 1];
      var m := Along(t, first, before);
      MarkingsAreOk(t, processCount, pid, before, a.node);
      assert Carried(t, first, a.node, m);
      AdvanceIsOk(t, m, a, pid);
    }
  }

  lemma {:induction false} AdvanceIsOk(t: Plan, m: Marks, a: ArcId, pid: Mark -> nat)
    requires MarkingOk(m, pid) && IsArc(t.g, a)
    requires ArcOk(t.g, t.events, m, a) ==> RunCallsNew(Before(t.g, t.events, m, a), t.events[a], pid)
    ensures MarkingOk(Advance(t, m, a), pid)
  {
    hide MarkingOk, RunCallsNew, Cleanup, EventMarks, WellFormed, RunWellFormed, AfterRun;
    if ArcOk(t.g, t.events, m, a) {
      if |t.g[a.node]| > 1 {
        CleanupOk(m, EventMarks(m, t.events[a][0]), pid);
      }
      RunKeepsOk(Before(t.g, t.events, m, a), t.events[a], pid);
    }
  }

  // ---- a deadlock that is dropped ----------------------------------------------------------------------

  /** The events of a list lead from one marking to another one. */
  ghost predicate Reaches(s: Marks, events: seq<Event>, t: Marks) {
    RunWellFormed(s, events) && AfterRun(s, events) == t
  }

  lemma {:induction false} ReachesMore(s: Marks, events: seq<Event>, m: Marks, e: Event, t: Marks)
    requires Reaches(s, events, m) && WellFormed(m, e) && Processed(m, e) == t
    ensures Reaches(s, events + [e], t)
    decreases |events|
  {
    hide WellFormed, Processed;
    var more := events + [e];
    if events == [] {
      assert more[1..] == [] && RunWellFormed(t, []) && AfterRun(t, []) == t;
    } else {
      assert more[1..] == events[1..] + [e];
      ReachesMore(Processed(s, events[0]), events[1..], m, e, t);
    }
  }

  /** A receive or an eager send is posted. */
  lemma PostsPlain(s: Marks, uid: nat, p: nat, id: RequestId)
    requires p < |s.process| && id !in s.active && id !in s.finished
    requires RequestType(id) == RECEIVE || RequestType(id) == SEND_EAGER
    ensures var e := Call(uid, p, [id], 0, 0, 0);
            && WellFormed(s, e)
            && Processed(s, e) == s.(active := s.active[id := s.process[p]],
                                     finished := if RequestType(id) == SEND_EAGER then s.finished[id := s.process[p]]
                                                 else s.finished)
  {
    assert [id][..0] == [];
    assert AllPosted(s, uid, p, [], 0, 0, 0) == s;
  }

  lemma PostsStandard(s: Marks, uid: nat, p: nat, id: RequestId)
    requires p < |s.process| && id !in s.active && id !in s.finished && RequestType(id) == SEND_STD
    ensures var e := Call(uid, p, [id], 0, 0, 0);
            && WellFormed(s, e)
            && Processed(s, e) == s.(active := s.active[id := s.process[p]], finished := s.finished[id := s.process[p]],
                                     ssend := s.ssend[id := Mark(uid, id)])
  {
    assert [id][..0] == [];
    assert AllPosted(s, uid, p, [], 0, 0, 0) == s;
  }

  lemma GoesOn(s: Marks, p: nat, id: RequestId)
    requires p < |s.process| && id in s.finished
    ensures WellFormed(s, Continue(p, [id])) && Processed(s, Continue(p, [id])) == Continued(s, p, id)
  {
    assert [id][..0] == [];
    assert AllContinued(s, p, []) == s;
  }

  const PENDING := Mark(1, 26)

  /** The marking of four processes in which standard send 26 of process 1 is pending. */
  function WithPending(p0: set<Mark>, p3: set<Mark>, active: map<RequestId, set<Mark>>,
                       finished: map<RequestId, set<Mark>>): Marks {
    Marks([p0, {PENDING}, {}, p3], active, finished, map[26 := PENDING], map[], [])
  }

  /** Process 1 posts a standard send, then an eager send to process 0, to which process 2 sends as well; process 0
      posts a receive from anybody. */
  function Opening(): seq<Event> {
    [Call(1, 1, [26], 0, 0, 0), Continue(1, [26]), Call(2, 1, [27], 0, 0, 0), Continue(1, [27]),
     Call(3, 2, [32], 0, 0, 0), Continue(2, [32]), Call(4, 0, [20], 0, 0, 0)]
  }

  /** Process 0 receives message `a`, sends to process 3, which receives it, and then receives message `b`. */
  function Receiving(a: RequestId, b: RequestId): seq<Event> {
    [Match(a, 20), Continue(0, [20]), Call(5, 0, [22], 0, 0, 0), Continue(0, [22]), Call(6, 3, [35], 0, 0, 0),
     Match(22, 35), Continue(3, [35]), Call(7, 0, [20], 0, 0, 0), Match(b, 20), Continue(0, [20])]
  }

  function Opened(): Marks {
    WithPending({}, {}, map[26 := {}, 27 := {PENDING}, 32 := {}, 20 := {}], map[])
  }

  ghost predicate Steps(s: Marks, e: Event, t: Marks) {
    WellFormed(s, e) && Processed(s, e) == t
  }

  function Depends(p0: set<Mark>, p3: set<Mark>, p: nat): set<Mark> {
    if p == 0 then p0 else if p == 1 then {PENDING} else if p == 2 then {} else p3
  }

  lemma PostStep(p0: set<Mark>, p3: set<Mark>, active: map<RequestId, set<Mark>>, finished: map<RequestId, set<Mark>>,
                 uid: nat, p: nat, id: RequestId)
    requires p < 4 && id !in active && id !in finished && RequestType(id) in {RECEIVE, SEND_EAGER}
    ensures var d := Depends(p0, p3, p);
            Steps(WithPending(p0, p3, active, finished), Call(uid, p, [id], 0, 0, 0),
                  WithPending(p0, p3, active[id := d],
                              if RequestType(id) == SEND_EAGER then finished[id := d] else finished))
  {
    PostsPlain(WithPending(p0, p3, active, finished), uid, p, id);
  }

  /** Processes 0 and 3 take over the marks of the finished request; the others depend on them already. */
  lemma ContinueStep(p0: set<Mark>, p3: set<Mark>, active: map<RequestId, set<Mark>>,
                     finished: map<RequestId, set<Mark>>, p: nat, id: RequestId)
    requires p < 4 && id in finished && RequestType(id) != SEND_STD
    requires p == 1 || p == 2 ==> finished[id] <= Depends(p0, p3, p)
    ensures Steps(WithPending(p0, p3, active, finished), Continue(p, [id]),
                  WithPending(if p == 0 then p0 + finished[id] else p0, if p == 3 then p3 + finished[id] else p3,
                              active, finished - {id}))
  {
    var s := WithPending(p0, p3, active, finished);
    GoesOn(s, p, id);
    var none: set<Mark> := {};
    assert s.process[p] + (finished[id] + {}) == Depends(p0, p3, p) + finished[id];
    assert p == 1 ==> {PENDING} + finished[id] == {PENDING};
    assert p == 2 ==> none + finished[id] == none;
  }

  lemma MatchStep(p0: set<Mark>, p3: set<Mark>, active: map<RequestId, set<Mark>>, finished: map<RequestId, set<Mark>>,
                  a: RequestId, b: RequestId)
    requires a in active && b in active && a != b && RequestType(a) == SEND_EAGER && RequestType(b) == RECEIVE
    ensures Steps(WithPending(p0, p3, active, finished), Match(a, b),
                  WithPending(p0, p3, active - {a, b}, finished[b := active[a] + active[b]]))
  {
  }

  lemma {:induction false} OneMoreStep(s: Marks, events: seq<Event>, k: nat, m: Marks, t: Marks)
    requires k < |events| && Reaches(s, events[..k], m) && Steps(m, events[k], t)
    ensures Reaches(s, events[..k + 1], t)
  {
    hide WellFormed, Processed;
    ReachesMore(s, events[..k], m, events[k], t);
    assert events[..k + 1] == events[..k] + [events[k]];
  }

  lemma NoStep(s: Marks, events: seq<Event>)
    ensures Reaches(s, events[..0], s)
  {
  }

  /** A process posts an eager send and continues it. */
  lemma {:induction false} SendsOn(s: Marks, events: seq<Event>, k: nat, p0: set<Mark>, p3: set<Mark>,
                                   active: map<RequestId, set<Mark>>, uid: nat, p: nat, id: RequestId)
    requires k + 1 < |events| && events[k] == Call(uid, p, [id], 0, 0, 0) && events[k + 1] == Continue(p, [id])
    requires Reaches(s, events[..k], WithPending(p0, p3, active, map[]))
    requires p < 4 && id !in active && RequestType(id) == SEND_EAGER
    ensures Reaches(s, events[..k + 2], WithPending(p0, p3, active[id := Depends(p0, p3, p)], map[]))
  {
    hide WellFormed, Processed, Reaches, Steps, WithPending;
    var d, empty: map<RequestId, set<Mark>> := Depends(p0, p3, p), map[];
    var sent: map<RequestId, set<Mark>> := map[id := d];
    PostStep(p0, p3, active, empty, uid, p, id);
    assert empty[id := d] == sent;
    OneMoreStep(s, events, k, WithPending(p0, p3, active, empty), WithPending(p0, p3, active[id := d], sent));
    ContinueStep(p0, p3, active[id := d], sent, p, id);
    assert sent - {id} == empty;
    assert p == 0 ==> p0 + d == p0;
    assert p == 3 ==> p3 + d == p3;
    OneMoreStep(s, events, k + 1, WithPending(p0, p3, active[id := d], sent),
                WithPending(p0, p3, active[id := d], empty));
  }

  /** A process posts a receive. */
  lemma {:induction false} PostsOn(s: Marks, events: seq<Event>, k: nat, p0: set<Mark>, p3: set<Mark>,
                                   active: map<RequestId, set<Mark>>, uid: nat, p: nat, id: RequestId)
    requires k < |events| && events[k] == Call(uid, p, [id], 0, 0, 0)
    requires Reaches(s, events[..k], WithPending(p0, p3, active, map[]))
    requires p < 4 && id !in active && RequestType(id) == RECEIVE
    ensures Reaches(s, events[..k + 1], WithPending(p0, p3, active[id := Depends(p0, p3, p)], map[]))
  {
    hide WellFormed, Processed, Reaches, Steps, WithPending;
    PostStep(p0, p3, active, map[], uid, p, id);
    OneMoreStep(s, events, k, WithPending(p0, p3, active, map[]),
                WithPending(p0, p3, active[id := Depends(p0, p3, p)], map[]));
  }

  /** Send `a` meets receive `b`, whose process goes on. */
  lemma {:induction false} ReceivesOn(s: Marks, events: seq<Event>, k: nat, p0: set<Mark>, p3: set<Mark>,
                                      active: map<RequestId, set<Mark>>, p: nat, a: RequestId, b: RequestId)
    requires k + 1 < |events| && events[k] == Match(a, b) && events[k + 1] == Continue(p, [b])
    requires Reaches(s, events[..k], WithPending(p0, p3, active, map[]))
    requires p == 0 || p == 3
    requires a in active && b in active && a != b && RequestType(a) == SEND_EAGER && RequestType(b) == RECEIVE
    ensures var got := active[a] + active[b];
            Reaches(s, events[..k + 2], WithPending(if p == 0 then p0 + got else p0, if p == 3 then p3 + got else p3,
                                                    active - {a, b}, map[]))
  {
    hide WellFormed, Processed, Reaches, Steps, WithPending;
    var got, empty: map<RequestId, set<Mark>> := active[a] + active[b], map[];
    var received: map<RequestId, set<Mark>> := map[b := got];
    MatchStep(p0, p3, active, empty, a, b);
    assert empty[b := got] == received;
    OneMoreStep(s, events, k, WithPending(p0, p3, active, empty), WithPending(p0, p3, active - {a, b}, received));
    ContinueStep(p0, p3, active - {a, b}, received, p, b);
    assert received - {b} == empty;
    OneMoreStep(s, events, k + 1, WithPending(p0, p3, active - {a, b}, received),
                WithPending(if p == 0 then p0 + got else p0, if p == 3 then p3 + got else p3, active - {a, b}, empty));
  }

  lemma {:induction false} StandardSendReaches()
    ensures Reaches(InitialMarks(4), Opening()[..2], WithPending({}, {}, map[26 := {}], map[]))
  {
    var s0 := InitialMarks(4);
    var none: set<Mark> := {};
    assert s0.process == [none, none, none, none];
    var s1 := Marks([none, none, none, none], map[26 := {}], map[26 := {}], map[26 := PENDING], map[], []);
    var s2 := WithPending({}, {}, map[26 := {}], map[]);
    PostsStandard(s0, 1, 1, 26);
    GoesOn(s1, 1, 26);
    assert none + (none + {PENDING}) == {PENDING};
    assert Continued(s1, 1, 26) == s2;
    hide WellFormed, Processed;
    assert Reaches(s0, Opening()[..0], s0);
    OneMoreStep(s0, Opening(), 0, s0, s1);
    OneMoreStep(s0, Opening(), 1, s1, s2);
  }

  lemma {:induction false} OpeningReaches()
    ensures Reaches(InitialMarks(4), Opening(), Opened())
  {
    StandardSendReaches();
    hide WellFormed, Processed, Reaches, Steps, WithPending;
    var s, es := InitialMarks(4), Opening();
    var a2: map<RequestId, set<Mark>> := map[26 := {}];
    var a4, a6 := a2[27 := {PENDING}], a2[27 := {PENDING}][32 := {}];
    SendsOn(s, es, 2, {}, {}, a2, 2, 1, 27);
    SendsOn(s, es, 4, {}, {}, a4, 3, 2, 32);
    PostsOn(s, es, 6, {}, {}, a6, 4, 0, 20);
    assert es[..7] == es;
    assert a6[20 := {}] == map[26 := {}, 27 := {PENDING}, 32 := {}, 20 := {}];
  }

  /** What message 27 or 32 depends on. */
  function CarriedBy(message: RequestId): set<Mark> {
    if message == 27 then {PENDING} else {}
  }

  /** Send 26 and message `b` wait for their matches. */
  function Posted(b: RequestId): map<RequestId, set<Mark>> {
    map[26 := {}, b := CarriedBy(b)]
  }

  ghost predicate Order(a: RequestId, b: RequestId) {
    (a == 27 && b == 32) || (a == 32 && b == 27)
  }

  lemma {:induction false} FirstReceive(a: RequestId, b: RequestId)
    requires Order(a, b)
    ensures Reaches(Opened(), Receiving(a, b)[..2], WithPending(CarriedBy(a), {}, Posted(b), map[]))
  {
    var s, es, none: set<Mark> := Opened(), Receiving(a, b), {};
    NoStep(s, es);
    hide WellFormed, Processed, Reaches, Steps, WithPending;
    var a0: map<RequestId, set<Mark>> := map[26 := {}, 27 := {PENDING}, 32 := {}, 20 := {}];
    ReceivesOn(s, es, 0, {}, {}, a0, 0, a, 20);
    assert a0 - {a, 20} == Posted(b);
    assert a0[a] + a0[20] == CarriedBy(a) && none + CarriedBy(a) == CarriedBy(a);
  }

  lemma {:induction false} PassingOn(a: RequestId, b: RequestId)
    requires Order(a, b)
    ensures Reaches(Opened(), Receiving(a, b)[..7], WithPending(CarriedBy(a), CarriedBy(a), Posted(b), map[]))
  {
    FirstReceive(a, b);
    hide WellFormed, Processed, Reaches, Steps, WithPending, Opened;
    var s, es, x, none: set<Mark> := Opened(), Receiving(a, b), CarriedBy(a), {};
    var a4 := Posted(b)[22 := x];
    SendsOn(s, es, 2, x, {}, Posted(b), 5, 0, 22);
    PostsOn(s, es, 4, x, {}, a4, 6, 3, 35);
    ReceivesOn(s, es, 5, x, {}, a4[35 := {}], 3, 22, 35);
    assert a4[35 := {}] - {22, 35} == Posted(b);
    assert x + none == x && none + x == x;
  }

  lemma BothReceived(a: RequestId, b: RequestId)
    requires Order(a, b)
    ensures b in Posted(b) && Posted(b)[20 := CarriedBy(a)] - {b, 20} == map[26 := {}]
    ensures CarriedBy(a) + (Posted(b)[20 := CarriedBy(a)][b] + CarriedBy(a)) == {PENDING}
  {
  }

  lemma {:induction false} LastReceive(a: RequestId, b: RequestId)
    requires Order(a, b)
    ensures var active := Posted(b)[20 := CarriedBy(a)];
            && b in active
            && Reaches(Opened(), Receiving(a, b)[..10],
                       WithPending(CarriedBy(a) + (active[b] + active[20]), CarriedBy(a), active - {b, 20}, map[]))
  {
    PassingOn(a, b);
    hide WellFormed, Processed, Reaches, Steps, WithPending, Opened;
    var s, es, x := Opened(), Receiving(a, b), CarriedBy(a);
    PostsOn(s, es, 7, x, x, Posted(b), 7, 0, 20);
    ReceivesOn(s, es, 8, x, x, Posted(b)[20 := x], 0, b, 20);
  }

  /** Process 3 depends on what the first message depends on. */
  lemma {:induction false} ReceivingReaches(a: RequestId, b: RequestId)
    requires Order(a, b)
    ensures Reaches(Opened(), Receiving(a, b), WithPending({PENDING}, CarriedBy(a), map[26 := {}], map[]))
  {
    LastReceive(a, b);
    BothReceived(a, b);
    assert Receiving(a, b)[..10] == Receiving(a, b);
    hide *;
  }

  lemma {:induction false} ReachesFurther(s: Marks, es: seq<Event>, m: Marks, more: seq<Event>, t: Marks)
    requires Reaches(s, es, m) && Reaches(m, more, t)
    ensures Reaches(s, es + more, t)
    decreases |es|
  {
    hide WellFormed, Processed;
    if es == [] {
      assert es + more == more;
    } else {
      assert (es + more)[1..] == es[1..] + more;
      ReachesFurther(Processed(s, es[0]), es[1..], m, more, t);
    }
  }

  /** Process 0 receives the two messages in one order or the other one; then process 3 makes one call or another. */
  function TwoOrders(): Graph {
    map[0 := [1, 1], 1 := [2, 3], 2 := [], 3 := []]
  }

  function OrderEvents(): map<ArcId, seq<Event>> {
    map[ArcId(0, 0) := Opening() + Receiving(27, 32), ArcId(0, 1) := Opening() + Receiving(32, 27),
        ArcId(1, 0) := [Call(8, 3, [], 0, 0, 0)], ArcId(1, 1) := [Call(8, 3, [], 0, 0, 0)]]
  }

  /** What the two orders lead to: they differ in what process 3 depends on. */
  function AfterOrder(p3: set<Mark>): Marks {
    WithPending({PENDING}, p3, map[26 := {}], map[])
  }

  /** An arc whose first event depends on nothing. */
  lemma {:induction false} ArcReaches(t: Plan, m: Marks, a: ArcId, after: Marks)
    requires IsArc(t.g, a) && a in t.events && Reaches(m, t.events[a], after)
    requires t.events[a] != [] && WellFormed(m, t.events[a][0]) && EventMarks(m, t.events[a][0]) == {}
    ensures ArcOk(t.g, t.events, m, a) && Advance(t, m, a) == after
  {
    hide WellFormed, Processed, EventMarks;
    assert Before(t.g, t.events, m, a) == m;
  }

  lemma {:induction false} OneArc(t: Plan, m: Marks, a: ArcId, after: Marks)
    requires a in t.forward && IsArc(t.g, a) && a.node == t.start && Advance(t, m, a) == after
    ensures Carried(t, m, Target(t.g, a), after)
  {
    hide Advance;
    assert [a][..0] == [];
    assert Trail(t, [], t.start) && Trail(t, [a], Target(t.g, a));
    assert Along(t, m, [a]) == Advance(t, Along(t, m, []), a) && Along(t, m, []) == m;
  }

  lemma {:induction false} OrderReaches(a: RequestId, b: RequestId)
    requires Order(a, b)
    ensures Reaches(InitialMarks(4), Opening() + Receiving(a, b), AfterOrder(CarriedBy(a)))
  {
    OpeningReaches();
    ReceivingReaches(a, b);
    hide Reaches, Opening, Receiving;
    ReachesFurther(InitialMarks(4), Opening(), Opened(), Receiving(a, b), AfterOrder(CarriedBy(a)));
  }

  lemma OpensFreely()
    ensures Opening() != [] && WellFormed(InitialMarks(4), Opening()[0])
            && EventMarks(InitialMarks(4), Opening()[0]) == {}
  {
  }

  lemma {:induction false} OrderIsCarried(t: Plan, a: RequestId, b: RequestId)
    requires Order(a, b) && t == AllWays(TwoOrders(), OrderEvents(), 0, t.covers)
    ensures Carried(t, InitialMarks(4), 1, AfterOrder(CarriedBy(a)))
  {
    var arc := ArcId(0, if a == 27 then 0 else 1);
    assert IsArc(t.g, arc) && Target(t.g, arc) == 1 && arc in t.forward;
    assert arc in t.events && t.events[arc] == Opening() + Receiving(a, b);
    OrderReaches(a, b);
    OpensFreely();
    hide Reaches, Opening, Receiving, AllWays, AfterOrder, InitialMarks, TwoOrders, OrderEvents, Trail, WellFormed,
         EventMarks, Carried, ArcOk, Advance;
    assert (Opening() + Receiving(a, b))[0] == Opening()[0];
    ArcReaches(t, InitialMarks(4), arc, AfterOrder(CarriedBy(a)));
    OneArc(t, InitialMarks(4), arc, AfterOrder(CarriedBy(a)));
  }

  lemma {:induction false} AfterOrderIsOk(p3: set<Mark>, pid: Mark -> nat)
    requires p3 <= {PENDING}
    ensures MarkingOk(AfterOrder(p3), pid)
  {
    var s := AfterOrder(p3);
    assert RequestType(26) == SEND_STD;
    assert s.ssend[26] == PENDING;
    assert Known(s, PENDING);
    NoCalls();
  }

  lemma {:induction false} OrdersAreAccepted(p3: set<Mark>, other: set<Mark>, pid: Mark -> nat)
    requires p3 <= {PENDING} && other <= {PENDING}
    ensures SameState(AfterOrder(p3), AfterOrder(other), pid)
    ensures Answered(AfterOrder(p3), AfterOrder(other), pid) == Covers
  {
    hide IsPartner;
    var s, u, mapping := AfterOrder(p3), AfterOrder(other), map[PENDING := PENDING];
    NoCalls();
    assert SendMarks(s) == {PENDING} by { assert s.ssend[26] in SendMarks(s); }
    assert Pairs(mapping, s, u, pid);
    assert Matches(s.terminate.Keys, u.terminate.Keys, mapping, mapping);
    assert Candidate(mapping, s, u, pid) && Accepts(mapping, s, u);
  }

  lemma {:induction false} CallsAfterOrder(p3: set<Mark>)
    ensures var m := AfterOrder(p3);
            ArcsOk(TwoOrders(), OrderEvents(), m, 1) && (Stuck(TwoOrders(), OrderEvents(), m, 1) <==> p3 != {})
  {
    var m, g, events := AfterOrder(p3), TwoOrders(), OrderEvents();
    forall i: nat | i < 2 ensures ArcOk(g, events, m, ArcId(1, i)) && ArcMarks(g, events, m, ArcId(1, i)) == p3 {
      var e := Call(8, 3, [], 0, 0, 0);
      assert events[ArcId(1, i)] == [e] && EventMarks(m, e) == p3;
      var before := Before(g, events, m, ArcId(1, i));
      assert WellFormed(before, e);
      assert RunWellFormed(before, [e]);
    }
    assert ArcMarks(g, events, m, ArcId(1, 0)) == p3;
  }

  lemma StuckAtOnce(t: Plan, m: Marks)
    requires t.start in t.nodes && t.start in t.g && ArcsOk(t.g, t.events, m, t.start)
    ensures Leads(t, m, [], t.start) <==> Stuck(t.g, t.events, m, t.start)
  {
    assert Trail(t, [], t.start) && Along(t, m, []) == m;
  }

  /** A deadlock is lost: the orders in which process 0 receives two messages lead to two markings of one state, the
      test accepts the first one as covered by the second one, and only the first one is stuck, since process 3 waits
      for the pending send. What the processes depend on is not compared. */
  lemma {:induction false} StuckIsDropped(pid: Mark -> nat)
    ensures var t, first := AllWays(TwoOrders(), OrderEvents(), 0, CoveringTest(pid)), InitialMarks(4);
            var stuck, other := AfterOrder({PENDING}), AfterOrder({});
            && Reaches(first, Opening() + Receiving(27, 32), stuck) && Carried(t, first, 1, stuck)
            && Reaches(first, Opening() + Receiving(32, 27), other) && Carried(t, first, 1, other)
            && MarkingOk(stuck, pid) && MarkingOk(other, pid) && SameState(stuck, other, pid)
            && t.covers(stuck, other) == Covers
            && Deadlock(t, first, 1, stuck) && !Deadlock(t, first, 1, other)
            && !LosesNothing(t, first)
  {
    hide MarkingOk, SameState, Answered, ArcsOk, Stuck, Carried, Reaches, AfterOrder, InitialMarks, OrderEvents;
    var t, first := AllWays(TwoOrders(), OrderEvents(), 0, CoveringTest(pid)), InitialMarks(4);
    var stuck, other := AfterOrder({PENDING}), AfterOrder({});
    OrderReaches(27, 32);
    OrderReaches(32, 27);
    OrderIsCarried(t, 27, 32);
    OrderIsCarried(t, 32, 27);
    AfterOrderIsOk({PENDING}, pid);
    AfterOrderIsOk({}, pid);
    OrdersAreAccepted({PENDING}, {}, pid);
    CallsAfterOrder({PENDING});
    CallsAfterOrder({});
    StuckAtOnce(From(t, 1), stuck);
    StuckAtOnce(From(t, 1), other);
    assert !SameFuture(t, 1, stuck, other);
  }

  // ---- a walk that breaks ------------------------------------------------------------------------------

  /** Two ways that part after node 1 and meet in node 4. */
  function Diamond(): Graph {
    map[0 := [1], 1 := [2, 3], 2 := [4], 3 := [4], 4 := []]
  }

  /** Process 1 posts a standard send and goes on; then both processes make a call, in one order or the other one. */
  function DiamondEvents(): map<ArcId, seq<Event>> {
    map[ArcId(0, 0) := [Call(1, 1, [16], 0, 0, 0), Continue(1, [16])],
        ArcId(1, 0) := [Call(2, 1, [], 0, 0, 0)], ArcId(1, 1) := [Call(3, 0, [], 0, 0, 0)],
        ArcId(2, 0) := [Call(4, 0, [], 0, 0, 0)], ArcId(3, 0) := [Call(5, 1, [], 0, 0, 0)]]
  }

  const SENT := Mark(1, 16)

  /** The send is pending, and process 1 depends on it. */
  function SendPending(): Marks {
    Marks([{}, {SENT}], map[16 := {}], map[], map[16 := SENT], map[], [])
  }

  /** The send has been given up. */
  function SendGivenUp(): Marks {
    Marks([{}, {}], map[16 := {}], map[], map[], map[], [])
  }

  /** The markings of a node of the diamond. */
  ghost predicate OnDiamond(n: Node, m: Marks) {
    match n
    case 0 => m == InitialMarks(2)
    case 1 => m == SendPending()
    case 2 => m == SendGivenUp()
    case 3 => m == SendPending()
    case 4 => m == SendPending() || m == SendGivenUp()
    case _ => false
  }

  ghost predicate IsDiamond(t: Plan) {
    t.g == Diamond() && t.events == DiamondEvents() && t.start == 0
  }

  lemma {:induction false} SendIsPosted(t: Plan)
    requires IsDiamond(t)
    ensures ArcOk(t.g, t.events, InitialMarks(2), ArcId(0, 0))
    ensures Advance(t, InitialMarks(2), ArcId(0, 0)) == SendPending()
  {
    var s0, a, none: set<Mark> := InitialMarks(2), ArcId(0, 0), {};
    var s1 := Marks([none, none], map[16 := {}], map[16 := {}], map[16 := SENT], map[], []);
    var es := t.events[a];
    assert s0.process == [none, none];
    PostsStandard(s0, 1, 1, 16);
    GoesOn(s1, 1, 16);
    assert none + (none + {SENT}) == {SENT};
    assert Continued(s1, 1, 16) == SendPending();
    assert EventMarks(s0, es[0]) == none;
    hide WellFormed, Processed, EventMarks;
    NoStep(s0, es);
    OneMoreStep(s0, es, 0, s0, s1);
    OneMoreStep(s0, es, 1, s1, SendPending());
    assert es[..2] == es;
    ArcReaches(t, s0, a, SendPending());
  }

  /** A call without requests: at a branching the send is given up when the caller depends on it. */
  lemma {:induction false} CallOnDiamond(t: Plan, m: Marks, a: ArcId, uid: nat, p: nat)
    requires IsArc(t.g, a) && a in t.events && t.events[a] == [Call(uid, p, [], 0, 0, 0)] && p < |m.process|
    ensures ArcOk(t.g, t.events, m, a)
    ensures Advance(t, m, a)
            == if |t.g[a.node]| > 1 && m.process[p] != {} then Cleanup(m, m.process[p]) else m
  {
    var e := Call(uid, p, [], 0, 0, 0);
    assert EventMarks(m, e) == m.process[p];
    var before := Before(t.g, t.events, m, a);
    assert WellFormed(before, e) && Processed(before, e) == before;
    assert [e][1..] == [];
    assert RunWellFormed(before, []) && AfterRun(before, []) == before;
  }

  lemma SendIsGivenUp()
    ensures Cleanup(SendPending(), {SENT}) == SendGivenUp()
  {
    var s, none: set<Mark> := SendPending(), {};
    assert Closure(s.terminate, {SENT}) == {SENT};
    var e := Erase(s, {SENT});
    assert none - {SENT} == none && {SENT} - {SENT} == none;
    assert e.process == [none, none] && e.active == map[16 := none] && e.collectives == [];
    assert e.finished == map[] && e.ssend == map[] && e.terminate == map[];
  }

  /** The events on an arc of the diamond. */
  lemma {:induction false} DiamondArc(t: Plan, m: Marks, a: ArcId)
    requires IsDiamond(t) && IsArc(t.g, a) && OnDiamond(a.node, m)
    ensures ArcOk(t.g, t.events, m, a) && OnDiamond(Target(t.g, a), Advance(t, m, a))
    ensures a == ArcId(2, 0) ==> Advance(t, m, a) == SendGivenUp()
    ensures a == ArcId(3, 0) ==> Advance(t, m, a) == SendPending()
  {
    hide ArcOk, Advance, Cleanup;
    if a.node == 0 {
      SendIsPosted(t);
    } else {
      SendIsGivenUp();
      var uid := if a.node == 1 then 2 + a.index else a.node + 2;
      var p := if a == ArcId(1, 0) || a == ArcId(3, 0) then 1 else 0;
      assert t.events[a] == [Call(uid, p, [], 0, 0, 0)];
      CallOnDiamond(t, m, a, uid, p);
    }
  }

  lemma {:induction false} DiamondCarries(t: Plan, path: seq<ArcId>, n: Node)
    requires IsDiamond(t) && Trail(t, path, n)
    ensures OnDiamond(n, Along(t, InitialMarks(2), path))
    decreases |path|
  {
    hide Advance, OnDiamond, ArcOk;
    if path == [] {
      assert OnDiamond(0, InitialMarks(2)) by { FirstOnDiamond(); }
    } else {
      var a, before := path[|path| - 1], path[..|path| - 1];
      DiamondCarries(t, before, a.node);
      DiamondArc(t, Along(t, InitialMarks(2), before), a);
    }
  }

  lemma FirstOnDiamond()
    ensures OnDiamond(0, InitialMarks(2))
  {
  }

  lemma {:induction false} CarriedOnDiamond(t: Plan, n: Node, m: Marks)
    requires IsDiamond(t) && Carried(t, InitialMarks(2), n, m)
    ensures OnDiamond(n, m)
  {
    hide Along, OnDiamond, Trail;
    var path :| Trail(t, path, n) && Along(t, InitialMarks(2), path) == m;
    DiamondCarries(t, path, n);
  }

  lemma {:induction false} DiamondMarkingOk(n: Node, m: Marks, pid: Mark -> nat)
    requires OnDiamond(n, m)
    ensures MarkingOk(m, pid)
  {
    if n == 0 {
      FirstIsOk(2, pid);
    } else {
      NoCalls();
      assert RequestType(16) == SEND_STD;
      if m == SendPending() {
        assert m.ssend[16] == SENT;
        assert Known(m, SENT);
      }
    }
  }

  lemma {:induction false} DiamondSameState(n: Node, m: Marks, x: Marks, pid: Mark -> nat)
    requires OnDiamond(n, m) && OnDiamond(n, x)
    ensures SameState(m, x, pid)
  {
  }

  lemma {:induction false} DiamondIsOk(t: Plan, pid: Mark -> nat)
    requires IsDiamond(t) && t.nodes <= t.g.Keys
    ensures EventsOk(t, InitialMarks(2)) && StatesOk(t, InitialMarks(2), pid)
  {
    hide Carried, OnDiamond, MarkingOk, SameState, ArcOk, Advance;
    var first := InitialMarks(2);
    forall n, m | Carried(t, first, n, m) ensures MarkingOk(m, pid) && (n in t.nodes ==> ArcsOk(t.g, t.events, m, n)) {
      CarriedOnDiamond(t, n, m);
      DiamondMarkingOk(n, m, pid);
      if n in t.nodes {
        forall i: nat | i < |t.g[n]| ensures ArcOk(t.g, t.events, m, ArcId(n, i)) {
          DiamondArc(t, m, ArcId(n, i));
        }
      }
    }
    forall n, m, x | Carried(t, first, n, m) && Carried(t, first, n, x) ensures SameState(m, x, pid) {
      CarriedOnDiamond(t, n, m);
      CarriedOnDiamond(t, n, x);
      DiamondSameState(n, m, x, pid);
    }
  }

  /** As many marks have wait sets, but only one of the markings has a pending send. */
  lemma DiamondFails(pid: Mark -> nat)
    ensures SendPending() != SendGivenUp()
    ensures Answered(SendPending(), SendGivenUp(), pid) == AssertionFails
    ensures Answered(SendGivenUp(), SendPending(), pid) == AssertionFails
  {
    assert SendPending().ssend.Keys == {16} && |SendPending().ssend| == |SendPending().ssend.Keys|;
  }

  /** There is always a way on. */
  lemma {:induction false} NoneStuckOnDiamond(t: Plan, n: Node, m: Marks)
    requires IsDiamond(t)
    ensures !Deadlock(t, InitialMarks(2), n, m)
  {
    hide Carried, ArcOk, Advance;
    if Deadlock(t, InitialMarks(2), n, m) {
      CarriedOnDiamond(t, n, m);
      if n == 1 {
        var a := ArcId(1, 1);
        assert ArcOk(t.g, t.events, m, a);
        FirstEvent(t.g, t.events, m, a);
      }
    }
  }

  lemma {:induction false} DiamondReachable(n: Node)
    requires n < 5
    ensures Reachable(Diamond(), 0, n)
  {
    hide Reachable;
    var g := Diamond();
    assert Reachable(g, 0, 0) by { ReachesItself(g, 0); }
    ReachableStep(g, 0, 0, 0);
    ReachableStep(g, 0, 1, 0);
    ReachableStep(g, 0, 1, 1);
    ReachableStep(g, 0, 2, 0);
  }

  lemma ReachesItself(g: Graph, n: Node)
    ensures Reachable(g, n, n)
  {
    assert IsPathIn(g, [n]);
  }

  /** No arc of the diamond closes a cycle. */
  lemma {:induction false} DiamondForward(trace: seq<Report>, a: ArcId)
    requires Searched(Diamond(), 0, trace) && IsArc(Diamond(), a)
    ensures a in ForwardArcs(trace)
  {
    hide Searched, Reachable, ForwardArcs;
    DiamondReachable(a.node);
    UnflaggedInto(Diamond(), 0, trace, a, if a.node == 0 then {1, 2, 3, 4} else if a.node == 1 then {2, 3, 4} else {4});
  }

  /** The plan of the diamond has all nodes and all arcs. */
  ghost predicate WholeDiamond(t: Plan) {
    && IsDiamond(t) && PlanOk(t) && t.nodes == t.g.Keys
    && forall a :: IsArc(t.g, a) ==> a in t.forward
  }

  lemma {:induction false} DiamondPlan(trace: seq<Report>, pid: Mark -> nat)
    requires Searched(Diamond(), 0, trace)
    ensures StartNode(Diamond(), DiamondEvents(), 0) == 0 && StartOk(Diamond(), 0, 0)
    ensures WholeDiamond(WaysOf(Diamond(), DiamondEvents(), CoveringTest(pid), 0, 0, trace))
  {
    hide PlanOk, Searched, Reachable;
    var t := WaysOf(Diamond(), DiamondEvents(), CoveringTest(pid), 0, 0, trace);
    var u := PlanOf(Diamond(), DiamondEvents(), 0, 0, trace);
    PlanIsOk(Diamond(), DiamondEvents(), 0, 0, trace);
    assert t == u.(covers := CoveringTest(pid));
    OkWithTest(u, CoveringTest(pid));
    MetExactlyReachable(Diamond(), 0, trace);
    forall n | n < 5 ensures n in t.nodes {
      DiamondReachable(n);
    }
    assert t.nodes == t.g.Keys;
    forall a | IsArc(t.g, a) ensures a in t.forward {
      DiamondForward(trace, a);
    }
  }

  lemma OkWithTest(t: Plan, covers: Covering)
    requires PlanOk(t)
    ensures PlanOk(t.(covers := covers))
  {
    var u := t.(covers := covers);
    forall n: Node ensures Into(u, n) == Into(t, n) && Counted(u, n) == Counted(t, n) {
    }
  }

  /** What a node before the last one was processed with comes to the last one, and stays there. */
  lemma {:induction false} ComesToLast(t: Plan, final: map<Node, set<Marks>>, a: ArcId, m: Marks, pid: Mark -> nat)
    requires WholeDiamond(t) && t.covers == CoveringTest(pid) && FinalOk(t, InitialMarks(2), t.nodes, final)
    requires (a == ArcId(2, 0) && m == SendGivenUp()) || (a == ArcId(3, 0) && m == SendPending())
    ensures 4 in final && m in final[4]
  {
    hide PlanOk, FinalOk, Advance, ArcOk, Carried, SendPending, SendGivenUp, InitialMarks;
    var first, n := InitialMarks(2), a.node;
    FinalKeys(t, first, t.nodes, final);
    var x := SomeFinal(t, first, t.nodes, final, n);
    FinalIsCarried(t, first, t.nodes, final, n, x);
    CarriedOnDiamond(t, n, x);
    DiamondArc(t, x, a);
    FinalArrives(t, final, a, x);
    var y := KeptInFinal(t, first, t.nodes, final, 4, m);
    FinalIsCarried(t, first, t.nodes, final, 4, y);
    CarriedOnDiamond(t, 4, y);
    DiamondFails(pid);
  }

  lemma SomeFinal(t: Plan, first: Marks, processed: set<Node>, final: map<Node, set<Marks>>, n: Node)
    returns (x: Marks)
    requires FinalOk(t, first, processed, final) && n in final
    ensures x in final[n]
  {
    x :| x in final[n];
  }

  lemma {:induction false} NotBothInLast(t: Plan, final: map<Node, set<Marks>>, pid: Mark -> nat)
    requires WholeDiamond(t) && t.covers == CoveringTest(pid)
    ensures !FinalOk(t, InitialMarks(2), t.nodes, final)
  {
    hide FinalOk, SendPending, SendGivenUp, InitialMarks, PlanOk, Answered;
    if FinalOk(t, InitialMarks(2), t.nodes, final) {
      ComesToLast(t, final, ArcId(2, 0), SendGivenUp(), pid);
      ComesToLast(t, final, ArcId(3, 0), SendPending(), pid);
      DiamondFails(pid);
      FinalIsTested(t, InitialMarks(2), t.nodes, final, 4);
      assert false;
    }
  }

  lemma FinalIsTested(t: Plan, first: Marks, processed: set<Node>, final: map<Node, set<Marks>>, n: Node)
    requires FinalOk(t, first, processed, final) && n in final
    ensures Tested(t, final[n])
  {
  }

  /** The check of the diamond breaks: a branching gives the send up, an arc alone does not, and where both ways meet
      the markings have different numbers of pending sends. */
  method DiamondBreaks(pid: Mark -> nat) returns (outcome: Outcome)
    ensures outcome.Broken?
  {
    hide Searched, EventsOk, StatesOk, WholeDiamond, Verdict, Real, BreaksSomewhere, FinalOk, OrderOk, LosesNothing,
         WaysOf, StartOk;
    forall trace | Searched(Diamond(), 0, trace)
      ensures var t := WaysOf(Diamond(), DiamondEvents(), CoveringTest(pid), 0,
                              StartNode(Diamond(), DiamondEvents(), 0), trace);
              EventsOk(t, InitialMarks(2)) && StatesOk(t, InitialMarks(2), pid)
    {
      DiamondPlan(trace, pid);
      DiamondOfPlan(WaysOf(Diamond(), DiamondEvents(), CoveringTest(pid), 0, 0, trace), pid);
    }
    outcome := NdsyncCheck(Diamond(), DiamondEvents(), pid, 0, 2);
    ghost var trace :| Searched(Diamond(), 0, trace)
      && var t := WaysOf(Diamond(), DiamondEvents(), CoveringTest(pid), 0,
                         StartNode(Diamond(), DiamondEvents(), 0), trace);
         && (outcome.DeadlockFound? ==> Real(t, InitialMarks(2), outcome.marks))
         && (outcome.Broken? ==> BreaksSomewhere(t, InitialMarks(2)))
         && (StartOk(Diamond(), 0, StartNode(Diamond(), DiamondEvents(), 0)) ==> Verdict(t, InitialMarks(2), outcome));
    DiamondPlan(trace, pid);
    DiamondHasNoVerdict(WaysOf(Diamond(), DiamondEvents(), CoveringTest(pid), 0, 0, trace), pid, outcome);
  }

  lemma DiamondOfPlan(t: Plan, pid: Mark -> nat)
    requires WholeDiamond(t)
    ensures EventsOk(t, InitialMarks(2)) && StatesOk(t, InitialMarks(2), pid)
  {
    DiamondIsOk(t, pid);
  }

  lemma {:induction false} DiamondHasNoVerdict(t: Plan, pid: Mark -> nat, outcome: Outcome)
    requires WholeDiamond(t) && t.covers == CoveringTest(pid) && Verdict(t, InitialMarks(2), outcome)
    requires outcome.DeadlockFound? ==> Real(t, InitialMarks(2), outcome.marks)
    ensures outcome.Broken?
  {
    hide FinalOk, OrderOk, LosesNothing, Deadlock, PlanOk;
    match outcome {
      case Broken =>
      case NoDeadlock =>
        var final :| FinalOk(t, InitialMarks(2), t.nodes, final);
        NotBothInLast(t, final, pid);
        assert false;
      case DeadlockFound(marks) =>
        var n, m :| Deadlock(t, InitialMarks(2), n, m);
        NoneStuckOnDiamond(t, n, m);
        assert false;
    }
  }
}
