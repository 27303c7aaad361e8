/** Deadlock analysis under non-deterministic synchronisation: which processes and requests depend on the
    assumption that certain standard sends, or collective calls, wait for their partners. */
module Ndsync {
  import Requests

  type RequestId = nat

  const RECEIVE: nat := 0
  const SEND_STD: nat := 1
  const SEND_EAGER: nat := 2
  const SEND_RENDEZVOUS: nat := 3
  const COLLECTIVE: nat := 4

  function RequestType(id: RequestId): nat {
    id % Requests.TYPES_COUNT
  }

  /** The assumption that the request posted by an event synchronises. */
  datatype Mark = Mark(event: nat, request: RequestId)

  datatype CollectiveOperation = CollectiveOperation(commId: nat, ccId: nat, size: nat, marks: map<Mark, set<Mark>>)

  datatype Event =
    | Call(uid: nat, pid: nat, newRequests: seq<RequestId>, commId: nat, ccId: nat, size: nat)
    | Match(source: RequestId, target: RequestId)
    | Continue(pid: nat, requests: seq<RequestId>)

  /** The value of a marking. */
  datatype Marks = Marks(
    process: seq<set<Mark>>,
    active: map<RequestId, set<Mark>>,
    finished: map<RequestId, set<Mark>>,
    ssend: map<RequestId, Mark>,
    terminate: map<Mark, set<Mark>>,
    collectives: seq<CollectiveOperation>)

  // ---- erasing marks -------------------------------------------------------------------------

  function Minus<K>(m: map<K, set<Mark>>, r: set<Mark>): map<K, set<Mark>> {
    map k | k in m :: m[k] - r
  }

  function EraseCollective(c: CollectiveOperation, r: set<Mark>): CollectiveOperation {
    c.(marks := Minus(c.marks, r))
  }

  /** The same processes and the same requests on both sides. */
  ghost predicate SameRequests(s: Marks, t: Marks) {
    |t.process| == |s.process| && t.active.Keys == s.active.Keys && t.finished.Keys == s.finished.Keys
  }

  /** Every mark of `r` is gone from every set, and so are the entries that belong to these marks. */
  function Erase(s: Marks, r: set<Mark>): (t: Marks)
    ensures SameRequests(s, t)
  {
    Marks(seq(|s.process|, i requires 0 <= i < |s.process| => s.process[i] - r),
          Minus(s.active, r),
          Minus(s.finished, r),
          map id | id in s.ssend && s.ssend[id] !in r :: s.ssend[id],
          map m | m in s.terminate && m !in r :: s.terminate[m] - r,
          seq(|s.collectives|, i requires 0 <= i < |s.collectives| => EraseCollective(s.collectives[i], r)))
  }

  lemma MinusNothing<K>(m: map<K, set<Mark>>)
    ensures Minus(m, {}) == m
  {
    forall k | k in m ensures Minus(m, {})[k] == m[k] {
      assert m[k] - {} == m[k];
    }
  }

  lemma EraseNothing(s: Marks)
    ensures Erase(s, {}) == s
  {
    var e := Erase(s, {});
    forall i | 0 <= i < |s.process| ensures e.process[i] == s.process[i] {
      assert s.process[i] - {} == s.process[i];
    }
    assert e.process == s.process;
    MinusNothing(s.active);
    MinusNothing(s.finished);
    assert e.ssend == s.ssend;
    forall m | m in s.terminate ensures e.terminate[m] == s.terminate[m] {
      assert s.terminate[m] - {} == s.terminate[m];
    }
    assert e.terminate == s.terminate;
    forall i | 0 <= i < |s.collectives| ensures e.collectives[i] == s.collectives[i] {
      MinusNothing(s.collectives[i].marks);
    }
    assert e.collectives == s.collectives;
  }

  lemma MinusTwice<K>(m: map<K, set<Mark>>, a: set<Mark>, b: set<Mark>)
    ensures Minus(Minus(m, a), b) == Minus(m, a + b)
  {
    forall k | k in m ensures Minus(Minus(m, a), b)[k] == Minus(m, a + b)[k] {
      assert m[k] - a - b == m[k] - (a + b);
    }
  }

  lemma EraseTwice(s: Marks, a: set<Mark>, b: set<Mark>)
    ensures Erase(Erase(s, a), b) == Erase(s, a + b)
  {
    var e, f := Erase(Erase(s, a), b), Erase(s, a + b);
    forall i | 0 <= i < |s.process| ensures e.process[i] == f.process[i] {
      assert s.process[i] - a - b == s.process[i] - (a + b);
    }
    assert e.process == f.process;
    MinusTwice(s.active, a, b);
    MinusTwice(s.finished, a, b);
    assert e.ssend == f.ssend;
    forall m | m in f.terminate ensures e.terminate[m] == f.terminate[m] {
      assert s.terminate[m] - a - b == s.terminate[m] - (a + b);
    }
    assert e.terminate == f.terminate;
    forall i | 0 <= i < |s.collectives| ensures e.collectives[i] == f.collectives[i] {
      MinusTwice(s.collectives[i].marks, a, b);
    }
    assert e.collectives == f.collectives;
  }

  // ---- the set that a removal takes along -------------------------------------------------------

  /** A mark whose whole wait set is in `r` is itself in `r`. */
  ghost predicate Closed(t: map<Mark, set<Mark>>, r: set<Mark>) {
    forall m :: m in t && t[m] <= r ==> m in r
  }

  /** `r` is the least closed set that contains `marks`. */
  ghost predicate LeastClosed(t: map<Mark, set<Mark>>, marks: set<Mark>, r: set<Mark>) {
    && marks <= r && Closed(t, r)
    && forall s: set<Mark> :: marks <= s && Closed(t, s) ==> r <= s
  }

  ghost function Closure(t: map<Mark, set<Mark>>, marks: set<Mark>): (r: set<Mark>)
    decreases t.Keys - marks
  {
    if m :| m in t && m !in marks && t[m] <= marks then Closure(t, marks + {m}) else marks
  }

  lemma {:induction false} ClosureIsLeast(t: map<Mark, set<Mark>>, marks: set<Mark>)
    ensures LeastClosed(t, marks, Closure(t, marks))
    decreases t.Keys - marks
  {
    if m :| m in t && m !in marks && t[m] <= marks {
      forall m' | m' in t && m' !in marks && t[m'] <= marks ensures LeastClosed(t, marks, Closure(t, marks + {m'})) {
        ClosureIsLeast(t, marks + {m'});
        forall s: set<Mark> | marks <= s && Closed(t, s) ensures Closure(t, marks + {m'}) <= s {
          assert t[m'] <= s;
          assert marks + {m'} <= s;
        }
      }
    }
  }

  lemma LeastIsUnique(t: map<Mark, set<Mark>>, marks: set<Mark>, r: set<Mark>)
    requires LeastClosed(t, marks, r)
    ensures r == Closure(t, marks)
  {
    ClosureIsLeast(t, marks);
  }

  /** Removing marks one group after the other takes along what removing them together takes along. */
  lemma ClosureInSteps(t: map<Mark, set<Mark>>, done: set<Mark>, more: set<Mark>)
    ensures var r := Closure(t, done);
            var t' := map m | m in t && m !in r :: t[m] - r;
            r + Closure(t', more) == Closure(t, done + more)
  {
    var r := Closure(t, done);
    var t' := map m | m in t && m !in r :: t[m] - r;
    var q := Closure(t', more);
    ClosureIsLeast(t, done);
    ClosureIsLeast(t', more);
    assert Closed(t, r + q) by {
      forall m | m in t && t[m] <= r + q ensures m in r + q {
        if m !in r {
          assert t'[m] <= q;
        }
      }
    }
    forall s: set<Mark> | done + more <= s && Closed(t, s) ensures r + q <= s {
      assert r <= s;
      assert Closed(t', s) by {
        forall m | m in t' && t'[m] <= s ensures m in s {
          assert t[m] <= s;
        }
      }
      assert q <= s;
    }
    LeastIsUnique(t, done + more, r + q);
  }

  /** A marking after `marks` and all that hangs on them alone were removed. */
  ghost function Cleanup(s: Marks, marks: set<Mark>): (t: Marks)
    ensures SameRequests(s, t)
  {
    Erase(s, Closure(s.terminate, marks))
  }

  /** No mark waits for nothing. */
  ghost predicate AllWait(s: Marks) {
    forall m :: m in s.terminate ==> s.terminate[m] != {}
  }

  lemma CleanupAllWait(s: Marks, marks: set<Mark>)
    ensures AllWait(Cleanup(s, marks))
  {
    ClosureIsLeast(s.terminate, marks);
    var r := Closure(s.terminate, marks);
    forall m | m in Cleanup(s, marks).terminate ensures Cleanup(s, marks).terminate[m] != {} {
      var waits := s.terminate[m];
      assert waits - r == {} ==> waits <= r;
    }
  }

  /** Removing a few marks, cleaning up, and removing some more is the same as removing all of them at once. */
  lemma CleanupInSteps(s: Marks, done: set<Mark>, more: set<Mark>)
    ensures Cleanup(Cleanup(s, done), more) == Cleanup(s, done + more)
  {
    var r := Closure(s.terminate, done);
    ClosureInSteps(s.terminate, done, more);
    assert Erase(s, r).terminate == map m | m in s.terminate && m !in r :: s.terminate[m] - r;
    EraseTwice(s, r, Closure(Erase(s, r).terminate, more));
  }

  // ---- what every event keeps ------------------------------------------------------------------

  /** The marks that stand for something: an unfinished send, a mark with a wait set, or a call of an open collective
      operation. */
  ghost predicate Known(s: Marks, m: Mark) {
    || m in s.terminate
    || (exists id :: id in s.ssend && s.ssend[id] == m)
    || (exists c :: c in s.collectives && m in c.marks)
  }

  /** Every mark that occurs stands for something or is in `x`. A matched send is remembered only until the program
      learns that it finished, and has a wait set as long. */
  ghost predicate InvExcept(s: Marks, x: set<Mark>) {
    && (forall i, m :: 0 <= i < |s.process| && m in s.process[i] ==> Known(s, m) || m in x)
    && TableKnownExcept(s, s.active, x) && TableKnownExcept(s, s.finished, x) && TableKnownExcept(s, s.terminate, x)
    && (forall c :: c in s.collectives ==> TableKnownExcept(s, c.marks, x))
    && (forall id :: id in s.ssend ==>
          RequestType(id) == SEND_STD && (id in s.active
                                          || (id in s.finished && (s.ssend[id] in s.terminate || s.ssend[id] in x))))
  }

  ghost predicate TableKnownExcept<K(!new)>(s: Marks, table: map<K, set<Mark>>, x: set<Mark>) {
    forall k, m :: k in table && m in table[k] ==> Known(s, m) || m in x
  }

  /** The invariant of a marking. */
  ghost predicate Inv(s: Marks) {
    AllWait(s) && InvExcept(s, {})
  }

  lemma KnownAfterErase(s: Marks, r: set<Mark>, m: Mark)
    requires Known(s, m) && m !in r
    ensures Known(Erase(s, r), m)
  {
    var e := Erase(s, r);
    if id :| id in s.ssend && s.ssend[id] == m {
      assert e.ssend[id] == m;
    } else if c :| c in s.collectives && m in c.marks {
      var i :| 0 <= i < |s.collectives| && s.collectives[i] == c;
      assert e.collectives[i] in e.collectives && m in e.collectives[i].marks;
    }
  }

  /** Cleaning up establishes the invariant once the removed marks are the only ones that stand for nothing. */
  lemma CleanupInv(s: Marks, marks: set<Mark>)
    requires InvExcept(s, marks)
    ensures Inv(Cleanup(s, marks))
  {
    var r := Closure(s.terminate, marks);
    var e := Erase(s, r);
    CleanupAllWait(s, marks);
    ClosureIsLeast(s.terminate, marks);
    forall m | Known(s, m) && m !in r ensures Known(e, m) {
      KnownAfterErase(s, r, m);
    }
    assert TableKnownExcept(e, e.active, {}) && TableKnownExcept(e, e.finished, {})
          && TableKnownExcept(e, e.terminate, {});
    forall c | c in e.collectives ensures TableKnownExcept(e, c.marks, {}) {
      var i :| 0 <= i < |e.collectives| && e.collectives[i] == c;
      assert s.collectives[i] in s.collectives;
    }
  }

  // ---- the meaning of events -----------------------------------------------------------------

  /** The synchronisation of `mark` depends on `marks`. */
  ghost function Matched(s: Marks, mark: Mark, marks: set<Mark>): Marks {
    if marks != {} then s.(terminate := s.terminate[mark := marks]) else Cleanup(s, {mark})
  }

  function FindCollective(cs: seq<CollectiveOperation>, commId: nat, ccId: nat): (i: nat)
    ensures i <= |cs|
    ensures i < |cs| ==> cs[i].commId == commId && cs[i].ccId == ccId
    ensures forall j :: 0 <= j < i ==> !(cs[j].commId == commId && cs[j].ccId == ccId)
  {
    if |cs| == 0 then 0
    else if cs[0].commId == commId && cs[0].ccId == ccId then 0
    else 1 + FindCollective(cs[1..], commId, ccId)
  }

  function UnionOf(m: map<Mark, set<Mark>>): set<Mark> {
    set k, x | k in m && x in m[k] :: x
  }

  /** All calls of a collective operation were made: each of them waits for what any of them waits for. */
  ghost function CollectiveDone(s: Marks, c: CollectiveOperation): (t: Marks)
    ensures SameRequests(s, t)
  {
    var all := UnionOf(c.marks);
    if all != {} then s.(terminate := s.terminate + map m | m in c.marks :: all) else Cleanup(s, c.marks.Keys)
  }

  /** The operation that a call joins, with the call added. */
  ghost function Joined(s: Marks, mark: Mark, marks: set<Mark>, commId: nat, ccId: nat,
                        size: nat): CollectiveOperation {
    var i := FindCollective(s.collectives, commId, ccId);
    if i < |s.collectives| then s.collectives[i].(marks := s.collectives[i].marks[mark := marks])
    else CollectiveOperation(commId, ccId, size, map[mark := marks])
  }

  ghost function CollectivePosted(s: Marks, uid: nat, pid: nat, id: RequestId, commId: nat, ccId: nat,
                                  size: nat): (r: Marks)
    requires pid < |s.process|
    ensures |r.process| == |s.process| && r.active.Keys == s.active.Keys && r.finished.Keys == s.finished.Keys + {id}
  {
    var mark, marks := Mark(uid, id), s.process[pid];
    var i := FindCollective(s.collectives, commId, ccId);
    var c := Joined(s, mark, marks, commId, ccId, size);
    var t := s.(finished := s.finished[id := marks + {mark}]);
    assert t.finished.Keys == s.finished.Keys + {id};
    if |c.marks| == c.size then
      CollectiveDone(t.(collectives := if i < |s.collectives| then s.collectives[..i] + s.collectives[i + 1..]
                                       else s.collectives), c)
    else
      t.(collectives := if i < |s.collectives| then s.collectives[i := c] else s.collectives + [c])
  }

  ghost function RequestPosted(s: Marks, uid: nat, pid: nat, id: RequestId, commId: nat, ccId: nat,
                               size: nat): (r: Marks)
    requires pid < |s.process|
    ensures |r.process| == |s.process|
    ensures r.active.Keys <= s.active.Keys + {id} && r.finished.Keys <= s.finished.Keys + {id}
  {
    var t, marks := RequestType(id), s.process[pid];
    if t == COLLECTIVE then CollectivePosted(s, uid, pid, id, commId, ccId, size)
    else
      s.(active := s.active[id := marks],
         finished := if t == SEND_EAGER || t == SEND_STD then s.finished[id := marks] else s.finished,
         ssend := if t == SEND_STD then s.ssend[id := Mark(uid, id)] else s.ssend)
  }

  lemma JoinedKnown(s: Marks, mark: Mark, pid: nat, commId: nat, ccId: nat, size: nat)
    requires Inv(s) && pid < |s.process|
    ensures var c := Joined(s, mark, s.process[pid], commId, ccId, size);
            TableKnownExcept(s, c.marks, {}) && forall m :: m in UnionOf(c.marks) ==> Known(s, m)
  {
    var i := FindCollective(s.collectives, commId, ccId);
    if i < |s.collectives| {
      assert s.collectives[i] in s.collectives;
    }
  }

  lemma TableStill<K(!new)>(s: Marks, u: Marks, table: map<K, set<Mark>>, x: set<Mark>)
    requires TableKnownExcept(s, table, {}) && forall m :: Known(s, m) ==> Known(u, m) || m in x
    ensures TableKnownExcept(u, table, x)
  {
  }

  lemma FinishedStill(s: Marks, u: Marks, pid: nat, id: RequestId, mark: Mark, x: set<Mark>)
    requires InvExcept(s, {}) && pid < |s.process| && mark in x
    requires forall m :: Known(s, m) ==> Known(u, m) || m in x
    ensures TableKnownExcept(u, s.finished[id := s.process[pid] + {mark}], x)
  {
  }

  /** The step that takes operation `i` out of the list of open ones. */
  lemma {:induction false} OperationClosed(s: Marks, u: Marks, i: nat, c: CollectiveOperation, pid: nat, id: RequestId,
                                           mark: Mark)
    requires Inv(s) && pid < |s.process| && i <= |s.collectives| && id !in s.finished && id !in s.active
             && mark in c.marks
    requires i < |s.collectives| ==> s.collectives[i].marks.Keys <= c.marks.Keys
    requires u == s.(finished := s.finished[id := s.process[pid] + {mark}],
                     collectives := if i < |s.collectives| then s.collectives[..i] + s.collectives[i + 1..]
                                    else s.collectives)
    ensures AllWait(u) && InvExcept(u, c.marks.Keys)
    ensures forall m :: Known(s, m) ==> Known(u, m) || m in c.marks
  {
    hide Known, TableKnownExcept;
    forall m | Known(s, m) ensures Known(u, m) || m in c.marks {
      KnownWithoutOperation(s, u, i, c, m);
    }
    var x := c.marks.Keys;
    TableStill(s, u, s.active, x);
    TableStill(s, u, s.terminate, x);
    FinishedStill(s, u, pid, id, mark, x);
    forall d | d in u.collectives ensures TableKnownExcept(u, d.marks, x) {
      assert d in s.collectives;
      TableStill(s, u, d.marks, x);
    }
  }

  /** The step that enters or updates operation `i` in the list of open ones. */
  lemma OperationOpen(s: Marks, u: Marks, i: nat, c: CollectiveOperation, pid: nat, id: RequestId, mark: Mark)
    requires Inv(s) && pid < |s.process| && i <= |s.collectives| && id !in s.finished && id !in s.active
             && mark in c.marks
    requires i < |s.collectives| ==> s.collectives[i].marks.Keys <= c.marks.Keys
    requires TableKnownExcept(s, c.marks, {})
    requires u == s.(finished := s.finished[id := s.process[pid] + {mark}],
                     collectives := if i < |s.collectives| then s.collectives[i := c] else s.collectives + [c])
    ensures Inv(u)
  {
    assert u.collectives[i] == c;
    forall m | Known(s, m) || m == mark ensures Known(u, m) {
      if m != mark {
        KnownWithOperation(s, u, i, c, m);
      }
    }
    assert forall d :: d in u.collectives ==> d == c || d in s.collectives;
  }

  lemma {:induction false} CollectivePostedInv(s: Marks, uid: nat, pid: nat, id: RequestId, commId: nat, ccId: nat,
                                               size: nat)
    requires Inv(s) && pid < |s.process| && id !in s.active && id !in s.finished
    ensures Inv(CollectivePosted(s, uid, pid, id, commId, ccId, size))
  {
    hide Inv, InvExcept, TableKnownExcept, Known, AllWait, CollectiveDone;
    var mark, marks := Mark(uid, id), s.process[pid];
    var i := FindCollective(s.collectives, commId, ccId);
    var c := Joined(s, mark, marks, commId, ccId, size);
    var t := s.(finished := s.finished[id := marks + {mark}]);
    JoinedKnown(s, mark, pid, commId, ccId, size);
    if |c.marks| == c.size {
      var u := t.(collectives := if i < |s.collectives| then s.collectives[..i] + s.collectives[i + 1..]
                  else s.collectives);
      OperationClosed(s, u, i, c, pid, id, mark);
      CollectiveDoneInv(u, c);
    } else {
      var u := t.(collectives := if i < |s.collectives| then s.collectives[i := c] else s.collectives + [c]);
      OperationOpen(s, u, i, c, pid, id, mark);
    }
  }

  lemma KnownWithoutOperation(s: Marks, u: Marks, i: nat, c: CollectiveOperation, m: Mark)
    requires Known(s, m) && i <= |s.collectives| && u.ssend == s.ssend && u.terminate == s.terminate
    requires u.collectives == if i < |s.collectives| then s.collectives[..i] + s.collectives[i + 1..] else s.collectives
    requires i < |s.collectives| ==> s.collectives[i].marks.Keys <= c.marks.Keys
    ensures Known(u, m) || m in c.marks
  {
    if d :| d in s.collectives && m in d.marks {
      var j :| 0 <= j < |s.collectives| && s.collectives[j] == d;
      if j != i {
        assert u.collectives[if j < i || i == |s.collectives| then j else j - 1] == d;
      }
    }
  }

  lemma KnownWithOperation(s: Marks, u: Marks, i: nat, c: CollectiveOperation, m: Mark)
    requires Known(s, m) && i <= |s.collectives| && u.ssend == s.ssend && u.terminate == s.terminate
    requires u.collectives == if i < |s.collectives| then s.collectives[i := c] else s.collectives + [c]
    requires i < |s.collectives| ==> s.collectives[i].marks.Keys <= c.marks.Keys
    ensures Known(u, m)
  {
    if d :| d in s.collectives && m in d.marks {
      var j :| 0 <= j < |s.collectives| && s.collectives[j] == d;
      assert m in u.collectives[j].marks && u.collectives[j] in u.collectives;
    }
  }

  lemma CollectiveDoneInv(u: Marks, c: CollectiveOperation)
    requires AllWait(u) && InvExcept(u, c.marks.Keys)
    requires forall m :: m in UnionOf(c.marks) ==> Known(u, m) || m in c.marks
    ensures Inv(CollectiveDone(u, c))
  {
    var all := UnionOf(c.marks);
    var w := CollectiveDone(u, c);
    if all != {} {
      assert forall m :: Known(u, m) || m in c.marks ==> Known(w, m);
      assert forall m :: m in w.terminate ==> w.terminate[m] == (if m in c.marks then all else u.terminate[m]);
    } else {
      CleanupInv(u, c.marks.Keys);
    }
  }

  lemma RequestPostedInv(s: Marks, uid: nat, pid: nat, id: RequestId, commId: nat, ccId: nat, size: nat)
    requires Inv(s) && pid < |s.process| && id !in s.active && id !in s.finished
    ensures Inv(RequestPosted(s, uid, pid, id, commId, ccId, size))
  {
    if RequestType(id) == COLLECTIVE {
      CollectivePostedInv(s, uid, pid, id, commId, ccId, size);
    } else {
      var t := RequestPosted(s, uid, pid, id, commId, ccId, size);
      assert id !in s.ssend;
      forall m | Known(s, m) ensures Known(t, m) {
        if k :| k in s.ssend && s.ssend[k] == m {
          assert t.ssend[k] == m;
        }
      }
    }
  }

  ghost function MatchDone(s: Marks, source: RequestId, target: RequestId): Marks
    requires source in s.active && target in s.active
  {
    var waits := s.active[target];
    var new' := s.active[source] + waits;
    var t := s.(active := s.active - {source, target}, finished := s.finished[target := new']);
    var type' := RequestType(source);
    if type' == SEND_RENDEZVOUS then
      t.(finished := t.finished[source := new'])
    else if type' == SEND_STD then
      if source in t.finished then
        var u := t.(finished := t.finished[source := t.finished[source] + new']);
        if source in s.ssend then Matched(u, s.ssend[source], waits) else u
      else
        var u := t.(ssend := t.ssend - {source});
        if source in s.ssend then Matched(u, s.ssend[source], waits) else u
    else t
  }

  /** The process learns that one of its requests finished. */
  ghost function Continued(s: Marks, pid: nat, id: RequestId): Marks
    requires pid < |s.process| && id in s.finished
  {
    var own := if RequestType(id) == SEND_STD && id in s.ssend then {s.ssend[id]} else {};
    var t := s.(finished := s.finished - {id},
                process := s.process[pid := s.process[pid] + (s.finished[id] + own)]);
    if RequestType(id) == SEND_STD && id !in s.active then t.(ssend := t.ssend - {id}) else t
  }

  lemma KnownWithTerminate(s: Marks, mark: Mark, marks: set<Mark>, m: Mark)
    ensures Known(s, m) || m == mark ==> Known(s.(terminate := s.terminate[mark := marks]), m)
  {
    var t := s.(terminate := s.terminate[mark := marks]);
    if id :| id in s.ssend && s.ssend[id] == m {
      assert t.ssend[id] == m;
    } else if c :| c in s.collectives && m in c.marks {
      assert c in t.collectives;
    }
  }

  lemma {:induction false} MatchedInv(s: Marks, mark: Mark, marks: set<Mark>)
    requires AllWait(s) && InvExcept(s, {mark})
    requires forall m :: m in marks ==> Known(s, m) || m == mark
    ensures Inv(Matched(s, mark, marks))
  {
    hide Known, Cleanup;
    if marks != {} {
      var t := Matched(s, mark, marks);
      forall m ensures Known(s, m) || m == mark ==> Known(t, m) {
        KnownWithTerminate(s, mark, marks, m);
      }
      assert AllWait(t);
      assert TableKnownExcept(t, t.terminate, {});
    } else {
      CleanupInv(s, {mark});
    }
  }

  /** A match of anything but a standard send whose mark is still there. */
  lemma PlainMatchInv(s: Marks, source: RequestId, target: RequestId)
    requires Inv(s) && source in s.active && target in s.active && source != target && RequestType(target) == RECEIVE
    requires source !in s.ssend
    ensures Inv(MatchDone(s, source, target))
  {
    var t := MatchDone(s, source, target);
    assert target !in s.ssend;
    assert t.ssend == s.ssend && t.terminate == s.terminate && t.collectives == s.collectives;
    assert forall m :: Known(s, m) ==> Known(t, m);
    assert forall m :: m in s.active[source] + s.active[target] ==> Known(s, m);
  }

  lemma {:induction false} MatchDoneInv(s: Marks, source: RequestId, target: RequestId)
    requires Inv(s) && source in s.active && target in s.active && source != target && RequestType(target) == RECEIVE
    ensures Inv(MatchDone(s, source, target))
  {
    hide UnionOf;
    if source !in s.ssend {
      PlainMatchInv(s, source, target);
    } else {
      var waits := s.active[target];
      var new' := s.active[source] + waits;
      var t := s.(active := s.active - {source, target}, finished := s.finished[target := new']);
      assert target !in s.ssend && source != target;
      var mark := s.ssend[source];
      var u := if source in t.finished then t.(finished := t.finished[source := t.finished[source] + new'])
               else t.(ssend := t.ssend - {source});
      SendMatchedExcept(s, u, source, target, mark);
      MatchedInv(u, mark, waits);
    }
  }

  lemma SendMatchedExcept(s: Marks, u: Marks, source: RequestId, target: RequestId, mark: Mark)
    requires Inv(s) && source in s.active && target in s.active && source != target && target !in s.ssend
    requires source in s.ssend && mark == s.ssend[source]
    requires u.process == s.process && u.terminate == s.terminate && u.collectives == s.collectives
    requires u.active == s.active - {source, target}
    requires u.ssend == if source in s.finished then s.ssend else s.ssend - {source}
    requires u.finished.Keys == s.finished.Keys + {target}
    requires forall k, m :: k in u.finished && m in u.finished[k] ==>
               (k in s.finished && m in s.finished[k]) || m in s.active[source] || m in s.active[target]
    ensures AllWait(u) && InvExcept(u, {mark})
    ensures forall m :: m in s.active[target] ==> Known(u, m) || m == mark
  {
    KnownWithoutSend(s, u, mark);
  }

  lemma KnownWithoutSend(s: Marks, u: Marks, mark: Mark)
    requires u.terminate == s.terminate && u.collectives == s.collectives
    requires forall id :: id in s.ssend && s.ssend[id] != mark ==> id in u.ssend && u.ssend[id] == s.ssend[id]
    ensures forall m :: Known(s, m) ==> Known(u, m) || m == mark
  {
  }

  lemma ContinuedInv(s: Marks, pid: nat, id: RequestId)
    requires Inv(s) && pid < |s.process| && id in s.finished
    ensures Inv(Continued(s, pid, id))
  {
    var t := Continued(s, pid, id);
    ContinuedKnown(s, t, pid, id);
    assert forall i, m :: 0 <= i < |t.process| && m in t.process[i] ==> Known(s, m);
  }

  lemma ContinuedKnown(s: Marks, t: Marks, pid: nat, id: RequestId)
    requires Inv(s) && pid < |s.process| && id in s.finished && t == Continued(s, pid, id)
    ensures forall m :: Known(s, m) ==> Known(t, m)
  {
    if id in s.ssend {
      KnownWithoutSend(s, t, s.ssend[id]);
      assert id in s.active ==> id in t.ssend && t.ssend[id] == s.ssend[id];
    } else {
      assert t.ssend == s.ssend;
      forall m | Known(s, m) ensures Known(t, m) {
        if k :| k in s.ssend && s.ssend[k] == m {
          assert t.ssend[k] == m;
        }
      }
    }
  }

  // ---- whole runs --------------------------------------------------------------------------

  /** What the event stream guarantees about an event: ids of new requests are unused, matched requests are active,
      finished requests are known to be finished. */
  ghost predicate WellFormed(s: Marks, e: Event) {
    match e
    case Call(uid, pid, ids, commId, ccId, size) =>
      pid < |s.process| && (forall i :: 0 <= i < |ids| ==> ids[i] !in s.active && ids[i] !in s.finished)
      && (forall i, j :: 0 <= i < j < |ids| ==> ids[i] != ids[j])
    case Match(source, target) =>
      source in s.active && target in s.active && source != target && RequestType(target) == RECEIVE
      && (RequestType(source) == SEND_STD && source in s.finished ==> source in s.ssend)
    case Continue(pid, ids) =>
      pid < |s.process| && (forall i :: 0 <= i < |ids| ==> ids[i] in s.finished)
      && (forall i, j :: 0 <= i < j < |ids| ==> ids[i] != ids[j])
  }

  ghost function Processed(s: Marks, e: Event): Marks
    requires WellFormed(s, e)
  {
    match e
    case Call(uid, pid, ids, commId, ccId, size) => AllPosted(s, uid, pid, ids, commId, ccId, size)
    case Match(source, target) => MatchDone(s, source, target)
    case Continue(pid, ids) => AllContinued(s, pid, ids)
  }

  ghost function AllPosted(s: Marks, uid: nat, pid: nat, ids: seq<RequestId>, commId: nat, ccId: nat,
                           size: nat): (t: Marks)
    requires pid < |s.process|
    ensures |t.process| == |s.process|
    ensures t.active.Keys <= s.active.Keys + (set id | id in ids)
            && t.finished.Keys <= s.finished.Keys + (set id | id in ids)
  {
    if |ids| == 0 then s
    else
      assert ids == ids[..|ids| - 1] + [ids[|ids| - 1]];
      var t := AllPosted(s, uid, pid, ids[..|ids| - 1], commId, ccId, size);
      RequestPosted(t, uid, pid, ids[|ids| - 1], commId, ccId, size)
  }

  ghost function AllContinued(s: Marks, pid: nat, ids: seq<RequestId>): (t: Marks)
    requires pid < |s.process| && (forall i :: 0 <= i < |ids| ==> ids[i] in s.finished)
    requires forall i, j :: 0 <= i < j < |ids| ==> ids[i] != ids[j]
    ensures |t.process| == |s.process| && t.finished.Keys == s.finished.Keys - (set id | id in ids)
  {
    if |ids| == 0 then s
    else Continued(AllContinued(s, pid, ids[..|ids| - 1]), pid, ids[|ids| - 1])
  }

  /** Requests that were not posted by the event are as unused after it as they were before. */
  lemma {:induction false} AllPostedInv(s: Marks, uid: nat, pid: nat, ids: seq<RequestId>, commId: nat, ccId: nat,
                                        size: nat)
    requires Inv(s) && pid < |s.process|
    requires forall i :: 0 <= i < |ids| ==> ids[i] !in s.active && ids[i] !in s.finished
    requires forall i, j :: 0 <= i < j < |ids| ==> ids[i] != ids[j]
    ensures Inv(AllPosted(s, uid, pid, ids, commId, ccId, size))
  {
    hide Inv, Known, RequestPosted;
    if |ids| > 0 {
      var n := |ids| - 1;
      AllPostedInv(s, uid, pid, ids[..n], commId, ccId, size);
      var t := AllPosted(s, uid, pid, ids[..n], commId, ccId, size);
      assert ids[n] !in ids[..n];
      RequestPostedInv(t, uid, pid, ids[n], commId, ccId, size);
    }
  }

  lemma {:induction false} AllContinuedInv(s: Marks, pid: nat, ids: seq<RequestId>)
    requires Inv(s) && pid < |s.process| && (forall i :: 0 <= i < |ids| ==> ids[i] in s.finished)
    requires forall i, j :: 0 <= i < j < |ids| ==> ids[i] != ids[j]
    ensures Inv(AllContinued(s, pid, ids))
  {
    if |ids| > 0 {
      AllContinuedInv(s, pid, ids[..|ids| - 1]);
      ContinuedInv(AllContinued(s, pid, ids[..|ids| - 1]), pid, ids[|ids| - 1]);
    }
  }

  /** Every event keeps the invariant. */
  lemma {:induction false} ProcessedInv(s: Marks, e: Event)
    requires Inv(s) && WellFormed(s, e)
    ensures Inv(Processed(s, e))
  {
    hide Inv;
    match e {
      case Call(uid, pid, ids, commId, ccId, size) => AllPostedInv(s, uid, pid, ids, commId, ccId, size);
      case Match(source, target) => MatchDoneInv(s, source, target);
      case Continue(pid, ids) => AllContinuedInv(s, pid, ids);
    }
  }

  /** The invariant holds after every event of a run. */
  lemma {:induction false} RunInv(s: Marks, events: seq<Event>)
    requires Inv(s) && RunWellFormed(s, events)
    ensures Inv(AfterRun(s, events))
    decreases |events|
  {
    if |events| > 0 {
      ProcessedInv(s, events[0]);
      RunInv(Processed(s, events[0]), events[1..]);
    }
  }

  ghost predicate RunWellFormed(s: Marks, events: seq<Event>)
    decreases |events|
  {
    |events| == 0 || (WellFormed(s, events[0]) && RunWellFormed(Processed(s, events[0]), events[1..]))
  }

  ghost function AfterRun(s: Marks, events: seq<Event>): Marks
    requires RunWellFormed(s, events)
    decreases |events|
  {
    if |events| == 0 then s else AfterRun(Processed(s, events[0]), events[1..])
  }

  // ---- deadlocks at the end of a run --------------------------------------------------------------

  /** Each mark of the walk waits for the next one. */
  ghost predicate IsWalk(t: map<Mark, set<Mark>>, p: seq<Mark>) {
    forall i :: 0 <= i < |p| - 1 ==> p[i] in t && p[i + 1] in t[p[i]]
  }

  ghost predicate IsCycle(t: map<Mark, set<Mark>>, p: seq<Mark>) {
    |p| >= 2 && p[0] == p[|p| - 1] && IsWalk(t, p)
  }

  ghost predicate Waiting(t: map<Mark, set<Mark>>) {
    forall m :: m in t ==> t[m] != {} && t[m] <= t.Keys
  }

  lemma {:induction false} LongWalk(t: map<Mark, set<Mark>>, start: Mark, n: nat) returns (p: seq<Mark>)
    requires Waiting(t) && start in t
    ensures |p| == n + 1 && IsWalk(t, p) && forall i :: 0 <= i < |p| ==> p[i] in t
  {
    if n == 0 {
      p := [start];
    } else {
      var q := LongWalk(t, start, n - 1);
      var next :| next in t[q[n - 1]];
      p := q + [next];
    }
  }

  /** A list longer than the set it is drawn from repeats a member. */
  lemma {:induction false} Repetition(p: seq<Mark>, s: set<Mark>) returns (i: nat, j: nat)
    requires |p| > |s| && forall k :: 0 <= k < |p| ==> p[k] in s
    ensures i < j < |p| && p[i] == p[j]
  {
    var n := |p| - 1;
    if k :| 0 <= k < n && p[k] == p[n] {
      return k, n;
    }
    i, j := Repetition(p[..n], s - {p[n]});
  }

  lemma CycleExists(t: map<Mark, set<Mark>>)
    requires Waiting(t) && |t| > 0
    ensures exists p :: IsCycle(t, p)
  {
    var start :| start in t;
    var p := LongWalk(t, start, |t.Keys|);
    var i, j := Repetition(p, t.Keys);
    var c := p[i..j + 1];
    forall k | 0 <= k < |c| - 1 ensures c[k] in t && c[k + 1] in t[c[k]] {
      assert c[k] == p[i + k] && c[k + 1] == p[i + k + 1];
    }
    assert IsCycle(t, c);
  }

  /** At a node without successors, once every send and every collective operation is settled: the marks that processes
      still depend on are among those with a wait set, and if there are any, some of them wait for each other in a
      circle. */
  lemma FinalDeadlock(s: Marks)
    requires Inv(s) && s.ssend == map[] && s.collectives == []
    ensures forall i, m :: 0 <= i < |s.process| && m in s.process[i] ==> m in s.terminate
    ensures s.terminate != map[] <==> exists p :: IsCycle(s.terminate, p)
  {
    assert forall m :: Known(s, m) ==> m in s.terminate;
    if s.terminate != map[] {
      assert |s.terminate| > 0;
      CycleExists(s.terminate);
    }
  }

  // ---- the object --------------------------------------------------------------------------------

  class Marking {
    var processMarks: seq<set<Mark>>
    var activeMarks: map<RequestId, set<Mark>>
    var finishedMarks: map<RequestId, set<Mark>>
    var ssendMarks: map<RequestId, Mark>
    var terminateMarks: map<Mark, set<Mark>>
    var collectives: seq<CollectiveOperation>

    function Value(): Marks
      reads this
    {
      Marks(processMarks, activeMarks, finishedMarks, ssendMarks, terminateMarks, collectives)
    }

    constructor (processCount: nat)
      ensures Inv(Value()) && |processMarks| == processCount && Value().process == seq(processCount, _ => {})
      ensures activeMarks == map[] && finishedMarks == map[] && ssendMarks == map[] && terminateMarks == map[]
              && collectives == []
    {
      processMarks := seq(processCount, _ => {});
      activeMarks, finishedMarks, ssendMarks, terminateMarks, collectives := map[], map[], map[], map[], [];
    }

    /** A copy of a marking. */
    constructor Copy(s: Marks)
      ensures Value() == s
    {
      processMarks, activeMarks, finishedMarks, ssendMarks := s.process, s.active, s.finished, s.ssend;
      terminateMarks, collectives := s.terminate, s.collectives;
    }

    method RemoveMarks(marks: set<Mark>)
      modifies this
      ensures Value() == Erase(old(Value()), marks)
    {
      if marks == {} {
        EraseNothing(Value());
        return;
      }
      processMarks := seq(|processMarks|, i requires 0 <= i < |processMarks| reads this => processMarks[i] - marks);
      activeMarks := Minus(activeMarks, marks);
      finishedMarks := Minus(finishedMarks, marks);
      terminateMarks := map m | m in terminateMarks && m !in marks :: terminateMarks[m] - marks;
      collectives := seq(|collectives|,
                         i requires 0 <= i < |collectives| reads this => EraseCollective(collectives[i], marks));
      ssendMarks := map id | id in ssendMarks && ssendMarks[id] !in marks :: ssendMarks[id];
    }

    /** Removes marks, and every mark that then waits for nothing, in whatever order the table lists them. */
    method RemoveMarksAndCleanup(marks: set<Mark>)
      modifies this
      ensures Value() == Cleanup(old(Value()), marks)
      ensures AllWait(Value())
    {
      ghost var s := Value();
      ghost var r := marks;
      ghost var all := Closure(s.terminate, marks);
      ClosureIsLeast(s.terminate, marks);
      RemoveMarks(marks);
      while true
        invariant Value() == Erase(s, r) && marks <= r <= all
        decreases terminateMarks.Keys
      {
        if m :| m in terminateMarks && terminateMarks[m] == {} {
          EmptyWait(s, r, all, m);
          EraseTwice(s, r, {m});
          RemoveMarks({m});
          r := r + {m};
        } else {
          NoEmptyWait(s, r, all);
          CleanupAllWait(s, marks);
          return;
        }
      }
    }

    lemma EmptyWait(s: Marks, r: set<Mark>, all: set<Mark>, m: Mark)
      requires r <= all && Closed(s.terminate, all)
      requires m in Erase(s, r).terminate && Erase(s, r).terminate[m] == {}
      ensures m in all
    {
      var waits := s.terminate[m];
      assert waits <= r + (waits - r);
    }

    lemma NoEmptyWait(s: Marks, r: set<Mark>, all: set<Mark>)
      requires r <= all && forall m :: m in Erase(s, r).terminate ==> Erase(s, r).terminate[m] != {}
      requires forall q: set<Mark> :: r <= q && Closed(s.terminate, q) ==> all <= q
      ensures r == all
    {
      assert Closed(s.terminate, r) by {
        var e := Erase(s, r).terminate;
        forall m | m in s.terminate ensures s.terminate[m] <= r ==> m in r {
          var waits := s.terminate[m];
          assert waits <= r ==> waits - r == {};
          assert m !in r ==> m in e && e[m] == waits - r;
        }
      }
    }

    /** The assumptions under which `event` can happen. */
    method GetEventMarks(event: Event) returns (marks: set<Mark>)
      requires WellFormed(Value(), event)
      ensures marks == EventMarks(Value(), event)
    {
      match event {
        case Match(source, target) =>
          marks := activeMarks[source] + activeMarks[target];
        case Continue(pid, requests) =>
          marks := processMarks[pid];
          for k := 0 to |requests|
            invariant marks == processMarks[pid] + RequestsMarks(Value(), requests[..k])
          {
            assert requests[..k + 1][..k] == requests[..k];
            var id := requests[k];
            if RequestType(id) == SEND_STD && id in ssendMarks {
              marks := marks + {ssendMarks[id]};
            }
            marks := marks + finishedMarks[id];
          }
          assert requests[..|requests|] == requests;
        case Call(uid, pid, newRequests, commId, ccId, size) =>
          marks := processMarks[pid];
      }
    }

    method MatchMark(mark: Mark, marks: set<Mark>)
      modifies this
      ensures Value() == Matched(old(Value()), mark, marks)
    {
      if marks != {} {
        terminateMarks := terminateMarks[mark := marks];
      } else {
        RemoveMarksAndCleanup({mark});
      }
    }

    /** The last call of a collective operation was made; its marks are settled in the order of the table. */
    method FinishCollective(c: CollectiveOperation)
      requires c.marks.Keys != {}
      modifies this
      ensures Value() == CollectiveDone(old(Value()), c)
    {
      hide Matched, PartlyDone;
      ghost var s := Value();
      var all := UnionOf(c.marks);
      var rest := c.marks.Keys;
      ghost var done: set<Mark> := {};
      NothingDone(s, all);
      while rest != {}
        invariant rest + done == c.marks.Keys && rest !! done
        invariant Value() == PartlyDone(s, done, all)
        decreases rest
      {
        var mark :| mark in rest;
        OneMoreDone(s, done, all, mark);
        MatchMark(mark, all);
        rest := rest - {mark};
        done := done + {mark};
      }
      EverythingDone(s, c);
      assert done == c.marks.Keys;
    }

    method AddCollective(uid: nat, pid: nat, id: RequestId, commId: nat, ccId: nat, size: nat)
      requires pid < |processMarks|
      modifies this
      ensures Value() == CollectivePosted(old(Value()), uid, pid, id, commId, ccId, size)
    {
      hide CollectiveDone;
      var mark := Mark(uid, id);
      var marks := processMarks[pid];
      finishedMarks := finishedMarks[id := marks + {mark}];
      var index := FindCollective(collectives, commId, ccId);
      var c;
      if index < |collectives| {
        c := collectives[index].(marks := collectives[index].marks[mark := marks]);
        collectives := collectives[index := c];
      } else {
        c := CollectiveOperation(commId, ccId, size, map[mark := marks]);
        collectives := collectives + [c];
      }
      if |c.marks| == c.size {
        collectives := collectives[..index] + collectives[index + 1..];
        assert collectives == if index < |old(collectives)| then old(collectives)[..index]
              + old(collectives)[index + 1..] else old(collectives);
        assert mark in c.marks.Keys;
        FinishCollective(c);
      }
    }

    method ProcessNewRequest(uid: nat, pid: nat, id: RequestId, commId: nat, ccId: nat, size: nat)
      requires pid < |processMarks|
      modifies this
      ensures Value() == RequestPosted(old(Value()), uid, pid, id, commId, ccId, size)
    {
      hide CollectivePosted;
      var t := RequestType(id);
      if t == COLLECTIVE {
        AddCollective(uid, pid, id, commId, ccId, size);
        return;
      }
      activeMarks := activeMarks[id := processMarks[pid]];
      if t == SEND_EAGER {
        finishedMarks := finishedMarks[id := processMarks[pid]];
      }
      if t == SEND_STD {
        finishedMarks := finishedMarks[id := processMarks[pid]];
        ssendMarks := ssendMarks[id := Mark(uid, id)];
      }
    }

    method ProcessMatch(source: RequestId, target: RequestId)
      requires WellFormed(Value(), Match(source, target))
      modifies this
      ensures Value() == MatchDone(old(Value()), source, target)
    {
      hide Matched;
      var sourceMarks, targetMarks := activeMarks[source], activeMarks[target];
      activeMarks := activeMarks - {source, target};
      var both := sourceMarks + targetMarks;
      finishedMarks := finishedMarks[target := both];
      var t := RequestType(source);
      if t == SEND_RENDEZVOUS {
        finishedMarks := finishedMarks[source := both];
      } else if t == SEND_STD {
        if source in finishedMarks {
          finishedMarks := finishedMarks[source := finishedMarks[source] + both];
          MatchMark(ssendMarks[source], targetMarks);
        } else if source in ssendMarks {
          var mark := ssendMarks[source];
          ssendMarks := ssendMarks - {source};
          MatchMark(mark, targetMarks);
        } else {
          assert ssendMarks - {source} == ssendMarks;
        }
      }
    }

    method ContinueRequest(pid: nat, id: RequestId)
      requires pid < |processMarks| && id in finishedMarks
      modifies this
      ensures Value() == Continued(old(Value()), pid, id)
    {
      var marks := finishedMarks[id];
      finishedMarks := finishedMarks - {id};
      if RequestType(id) == SEND_STD && id in ssendMarks {
        marks := marks + {ssendMarks[id]};
        if id !in activeMarks {
          ssendMarks := ssendMarks - {id};
        }
      } else {
        assert marks + {} == marks;
        assert id !in ssendMarks ==> ssendMarks - {id} == ssendMarks;
      }
      processMarks := processMarks[pid := processMarks[pid] + marks];
    }

    /** One event of a run. */
    method ProcessEvent(event: Event)
      requires WellFormed(Value(), event)
      modifies this
      ensures Value() == Processed(old(Value()), event)
    {
      hide RequestPosted, MatchDone, Continued;
      ghost var s := Value();
      match event {
        case Call(uid, pid, ids, commId, ccId, size) =>
          for k := 0 to |ids|
            invariant Value() == AllPosted(s, uid, pid, ids[..k], commId, ccId, size)
          {
            assert ids[..k + 1][..k] == ids[..k];
            ProcessNewRequest(uid, pid, ids[k], commId, ccId, size);
          }
          assert ids[..|ids|] == ids;
        case Match(source, target) =>
          ProcessMatch(source, target);
        case Continue(pid, ids) =>
          for k := 0 to |ids|
            invariant Value() == AllContinued(s, pid, ids[..k])
          {
            assert ids[..k + 1][..k] == ids[..k];
            ContinueRequest(pid, ids[k]);
          }
          assert ids[..|ids|] == ids;
      }
    }
  }

  /** A collective operation of which only the marks in `done` are settled. */
  ghost function PartlyDone(s: Marks, done: set<Mark>, all: set<Mark>): Marks {
    if done == {} then s
    else if all != {} then s.(terminate := s.terminate + map m | m in done :: all)
    else Cleanup(s, done)
  }

  lemma NothingDone(s: Marks, all: set<Mark>)
    ensures PartlyDone(s, {}, all) == s
  {
  }

  lemma OneMoreWaits(terminate: map<Mark, set<Mark>>, done: set<Mark>, all: set<Mark>, mark: Mark)
    ensures (terminate + map m | m in done :: all)[mark := all] == terminate + map m | m in done + {mark} :: all
    ensures done == {} ==> terminate + (map m | m in done :: all) == terminate
  {
  }

  lemma {:induction false} OneMoreDone(s: Marks, done: set<Mark>, all: set<Mark>, mark: Mark)
    ensures Matched(PartlyDone(s, done, all), mark, all) == PartlyDone(s, done + {mark}, all)
  {
    hide Cleanup;
    if all != {} {
      OneMoreWaits(s.terminate, done, all, mark);
    } else if done != {} {
      CleanupInSteps(s, done, {mark});
    } else {
      assert done + {mark} == {mark};
    }
  }

  lemma EverythingDone(s: Marks, c: CollectiveOperation)
    requires c.marks.Keys != {}
    ensures PartlyDone(s, c.marks.Keys, UnionOf(c.marks)) == CollectiveDone(s, c)
  {
    var all := UnionOf(c.marks);
    assert (map m | m in c.marks.Keys :: all) == map m | m in c.marks :: all;
  }

  ghost function EventMarks(s: Marks, e: Event): set<Mark>
    requires WellFormed(s, e)
  {
    match e
    case Match(source, target) => s.active[source] + s.active[target]
    case Continue(pid, ids) => s.process[pid] + RequestsMarks(s, ids)
    case Call(uid, pid, ids, commId, ccId, size) => s.process[pid]
  }

  ghost function RequestsMarks(s: Marks, ids: seq<RequestId>): set<Mark>
    requires forall i :: 0 <= i < |ids| ==> ids[i] in s.finished
  {
    if |ids| == 0 then {}
    else
      var id := ids[|ids| - 1];
      RequestsMarks(s, ids[..|ids| - 1]) + s.finished[id]
      + if RequestType(id) == SEND_STD && id in s.ssend then {s.ssend[id]} else {}
  }
}
