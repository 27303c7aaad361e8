/** What depends on which synchronisation: how the events of a run carry marks from place to place. */
module NdsyncDependencies {
  import opened MemoryTypes
  import opened Ndsync
  import opened NdsyncCovering
  import opened NdsyncChecker
  import opened StateSpace

  // ---- places and steps ------------------------------------------------------------------------------

  /** Where marks are kept: with a process, a request that is not matched or finished, a synchronisation that waits, or
      a call of an open operation. */
  datatype Place =
    | OfProcess(pid: nat)
    | OfActive(id: RequestId)
    | OfFinished(id: RequestId)
    | OfWaiting(mark: Mark)
    | OfCall(commId: nat, ccId: nat, mark: Mark)

  /** What depends on mark `m`. */
  ghost predicate At(s: Marks, y: Place, m: Mark) {
    match y
    case OfProcess(p) => p < |s.process| && m in s.process[p]
    case OfActive(id) => id in s.active && m in s.active[id]
    case OfFinished(id) => id in s.finished && m in s.finished[id]
    case OfWaiting(k) => k in s.terminate && m in s.terminate[k]
    case OfCall(commId, ccId, k) => exists c :: c in s.collectives && IsCallOf(c, commId, ccId, k) && m in c.marks[k]
  }

  ghost predicate IsCallOf(c: CollectiveOperation, commId: nat, ccId: nat, k: Mark) {
    c.commId == commId && c.ccId == ccId && k in c.marks
  }

  /** The parts of events, and the removals at branchings. */
  datatype Step =
    | Post(uid: nat, pid: nat, id: RequestId, commId: nat, ccId: nat, size: nat)
    | Meet(source: RequestId, target: RequestId)
    | Learn(pid: nat, id: RequestId)
    | GiveUp(marks: set<Mark>)

  ghost predicate StepOk(s: Marks, st: Step) {
    match st
    case Post(uid, p, id, commId, ccId, size) => p < |s.process| && id !in s.active && id !in s.finished
    case Meet(a, b) => WellFormed(s, Match(a, b))
    case Learn(p, id) => p < |s.process| && id in s.finished
    case GiveUp(marks) => true
  }

  ghost function Stepped(s: Marks, st: Step): Marks
    requires StepOk(s, st)
  {
    match st
    case Post(uid, p, id, commId, ccId, size) => RequestPosted(s, uid, p, id, commId, ccId, size)
    case Meet(a, b) => MatchDone(s, a, b)
    case Learn(p, id) => Continued(s, p, id)
    case GiveUp(marks) => Cleanup(s, marks)
  }

  // ---- how a step moves marks --------------------------------------------------------------------------

  /** Mark `k` is a call of the open operation, or the new call itself. */
  ghost predicate Calls(s: Marks, st: Step, k: Mark)
    requires st.Post?
  {
    k == Mark(st.uid, st.id) || exists c :: c in s.collectives && IsCallOf(c, st.commId, st.ccId, k)
  }

  ghost predicate IsOpen(s: Marks, commId: nat, ccId: nat, c: CollectiveOperation) {
    c in s.collectives && c.commId == commId && c.ccId == ccId
  }

  /** With this call all calls of the operation have been made. */
  ghost predicate IsLast(s: Marks, st: Step)
    requires st.Post?
  {
    && RequestType(st.id) == COLLECTIVE
    && (forall c :: IsOpen(s, st.commId, st.ccId, c) ==> |c.marks.Keys + {Mark(st.uid, st.id)}| == c.size)
    && ((forall c :: !IsOpen(s, st.commId, st.ccId, c)) ==> st.size == 1)
  }

  /** A standard send that may still wait, and its mark. */
  ghost predicate MayWait(s: Marks, id: RequestId, m: Mark) {
    RequestType(id) == SEND_STD && id in s.ssend && s.ssend[id] == m
  }

  /** What is kept in `y` stays there. */
  ghost predicate Stays(s: Marks, st: Step, y: Place) {
    match st
    case Post(uid, p, id, commId, ccId, size) =>
      RequestType(id) == COLLECTIVE ==>
        && !(y.OfCall? && y.commId == commId && y.ccId == ccId && (y.mark == Mark(uid, id) || IsLast(s, st)))
        && !(y.OfWaiting? && IsLast(s, st) && Calls(s, st, y.mark))
    case Meet(a, b) =>
      && y != OfActive(a) && y != OfActive(b) && y != OfFinished(b)
      && (RequestType(a) == SEND_RENDEZVOUS ==> y != OfFinished(a))
      && !(y.OfWaiting? && MayWait(s, a, y.mark))
    case Learn(p, id) => y != OfFinished(id)
    case GiveUp(marks) => true
  }

  /** What is kept in `x` comes to `y`. */
  ghost predicate Moves(s: Marks, st: Step, x: Place, y: Place) {
    match st
    case Post(uid, p, id, commId, ccId, size) =>
      if RequestType(id) == COLLECTIVE then
        || (x == OfProcess(p) && y == OfFinished(id))
        || (x == OfProcess(p) && !IsLast(s, st) && y == OfCall(commId, ccId, Mark(uid, id)))
        || (IsLast(s, st) && y.OfWaiting? && Calls(s, st, y.mark) && WasCalled(st, x))
      else
        x == OfProcess(p)
        && (y == OfActive(id) || (y == OfFinished(id) && RequestType(id) in {SEND_EAGER, SEND_STD}))
    case Meet(a, b) =>
      || ((x == OfActive(a) || x == OfActive(b))
          && (y == OfFinished(b)
              || (y == OfFinished(a) && (RequestType(a) == SEND_RENDEZVOUS
                                         || (RequestType(a) == SEND_STD && a in s.finished)))))
      || (x == OfActive(b) && y.OfWaiting? && MayWait(s, a, y.mark))
    case Learn(p, id) => x == OfFinished(id) && y == OfProcess(p)
    case GiveUp(marks) => false
  }

  /** A call that the last call completes, or the process of the last call. */
  ghost predicate WasCalled(st: Step, x: Place)
    requires st.Post?
  {
    || x == OfProcess(st.pid)
    || (x.OfCall? && x.commId == st.commId && x.ccId == st.ccId && x.mark != Mark(st.uid, st.id))
  }

  /** Mark `m` appears in `y`. */
  ghost predicate Brings(s: Marks, st: Step, m: Mark, y: Place) {
    match st
    case Post(uid, p, id, commId, ccId, size) =>
      RequestType(id) == COLLECTIVE && m == Mark(uid, id) && y == OfFinished(id)
    case Meet(a, b) => false
    case Learn(p, id) => MayWait(s, id, m) && y == OfProcess(p)
    case GiveUp(marks) => false
  }

  /** The synchronisations that turn out not to wait. */
  ghost predicate Released(s: Marks, st: Step, m: Mark) {
    match st
    case Post(uid, p, id, commId, ccId, size) =>
      IsLast(s, st) && Calls(s, st, m) && forall x, k :: WasCalled(st, x) ==> !At(s, x, k)
    case Meet(a, b) => MayWait(s, a, m) && forall k :: !At(s, OfActive(b), k)
    case Learn(p, id) => false
    case GiveUp(marks) => m in marks
  }

  /** Mark `m` is removed: it is released, or waits only for marks that are removed. */
  ghost predicate Removed(s: Marks, st: Step, m: Mark) {
    forall r: set<Mark> :: (forall k :: Released(s, st, k) ==> k in r) && Ndsync.Closed(s.terminate, r) ==> m in r
  }

  // ---- one step ----------------------------------------------------------------------------------------

  ghost predicate Comes(s: Marks, st: Step, y: Place, m: Mark) {
    Brings(s, st, m, y) || (Stays(s, st, y) && At(s, y, m)) || exists x :: Moves(s, st, x, y) && At(s, x, m)
  }

  lemma {:induction false} RemovedIs(s: Marks, st: Step, marks: set<Mark>)
    requires forall k :: Released(s, st, k) <==> k in marks
    ensures forall m :: Removed(s, st, m) <==> m in Closure(s.terminate, marks)
  {
    hide Released;
    ClosureIsLeast(s.terminate, marks);
    forall m ensures Removed(s, st, m) <==> m in Closure(s.terminate, marks) {
      if Removed(s, st, m) {
        assert m in Closure(s.terminate, marks);
      }
    }
  }

  lemma {:induction false} ErasedAt(s: Marks, r: set<Mark>, y: Place, m: Mark)
    ensures At(Erase(s, r), y, m) <==> At(s, y, m) && m !in r && (y.OfWaiting? ==> y.mark !in r)
  {
    var e := Erase(s, r);
    if y.OfCall? {
      if At(e, y, m) {
        var c :| c in e.collectives && IsCallOf(c, y.commId, y.ccId, y.mark) && m in c.marks[y.mark];
        var i :| 0 <= i < |e.collectives| && e.collectives[i] == c;
        assert s.collectives[i] in s.collectives && IsCallOf(s.collectives[i], y.commId, y.ccId, y.mark);
      }
      if At(s, y, m) && m !in r {
        var c :| c in s.collectives && IsCallOf(c, y.commId, y.ccId, y.mark) && m in c.marks[y.mark];
        var i :| 0 <= i < |s.collectives| && s.collectives[i] == c;
        assert e.collectives[i] in e.collectives && IsCallOf(e.collectives[i], y.commId, y.ccId, y.mark);
      }
    }
  }

  /** After a step exactly those depend on a mark to whom the step brings it, keeps it or moves it, unless the mark is
      removed. */
  ghost predicate Follows(s: Marks, st: Step, y: Place, m: Mark)
    requires StepOk(s, st)
  {
    At(Stepped(s, st), y, m)
    <==> Comes(s, st, y, m) && !Removed(s, st, m) && (y.OfWaiting? ==> !Removed(s, st, y.mark))
  }

  lemma {:induction false} NothingRemoved(s: Marks, st: Step)
    requires AllWait(s) && forall k :: !Released(s, st, k)
    ensures forall m :: !Removed(s, st, m)
  {
    hide Released;
    var none: set<Mark> := {};
    assert Ndsync.Closed(s.terminate, none);
  }

  lemma {:induction false} PlainPostFollows(s: Marks, st: Step, y: Place, m: Mark)
    requires AllWait(s) && StepOk(s, st) && st.Post? && RequestType(st.id) != COLLECTIVE
    ensures Follows(s, st, y, m)
  {
    NothingRemoved(s, st);
    var x := OfProcess(st.pid);
    assert Moves(s, st, x, y) && At(s, x, m) ==> Comes(s, st, y, m);
    hide Removed, Released;
  }

  lemma {:induction false} LearnFollows(s: Marks, st: Step, y: Place, m: Mark)
    requires AllWait(s) && StepOk(s, st) && st.Learn?
    ensures Follows(s, st, y, m)
  {
    NothingRemoved(s, st);
    var x := OfFinished(st.id);
    assert Moves(s, st, x, y) && At(s, x, m) ==> Comes(s, st, y, m);
    hide Removed, Released;
  }

  lemma {:induction false} GiveUpFollows(s: Marks, st: Step, y: Place, m: Mark)
    requires StepOk(s, st) && st.GiveUp?
    ensures Follows(s, st, y, m)
  {
    RemovedIs(s, st, st.marks);
    ErasedAt(s, Closure(s.terminate, st.marks), y, m);
    hide Removed, Released, Erase;
  }

  /** The marking after a match, before it is known whether the source waits. */
  ghost function Met(s: Marks, a: RequestId, b: RequestId): Marks
    requires WellFormed(s, Match(a, b))
  {
    var both := s.active[a] + s.active[b];
    var type' := RequestType(a);
    var finished := s.finished[b := both];
    s.(active := s.active - {a, b},
       finished := if type' == SEND_RENDEZVOUS then finished[a := both]
                   else if type' == SEND_STD && a in s.finished then finished[a := s.finished[a] + both] else finished,
       ssend := if type' == SEND_STD && a !in s.finished then s.ssend - {a} else s.ssend)
  }

  lemma {:induction false} MeetFollows(s: Marks, st: Step, y: Place, m: Mark)
    requires AllWait(s) && StepOk(s, st) && st.Meet?
    ensures Follows(s, st, y, m)
  {
    if RequestType(st.source) == SEND_STD && st.source in s.ssend && s.active[st.target] == {} {
      FreedMeetFollows(s, st, y, m);
    } else {
      WaitingMeetFollows(s, st, y, m);
    }
  }

  lemma {:induction false} MetAt(s: Marks, st: Step, y: Place, m: Mark)
    requires StepOk(s, st) && st.Meet? && !y.OfWaiting?
    ensures At(Met(s, st.source, st.target), y, m) <==> Comes(s, st, y, m)
  {
    var xa, xb := OfActive(st.source), OfActive(st.target);
    assert Moves(s, st, xa, y) && At(s, xa, m) ==> Comes(s, st, y, m);
    assert Moves(s, st, xb, y) && At(s, xb, m) ==> Comes(s, st, y, m);
  }

  lemma {:induction false} WaitingAfterMeet(s: Marks, st: Step, k: Mark, m: Mark)
    requires StepOk(s, st) && st.Meet?
    ensures Comes(s, st, OfWaiting(k), m) <==>
            if MayWait(s, st.source, k) then m in s.active[st.target] else k in s.terminate && m in s.terminate[k]
  {
    var y, x := OfWaiting(k), OfActive(st.target);
    assert Moves(s, st, x, y) <==> MayWait(s, st.source, k);
    assert Moves(s, st, x, y) && At(s, x, m) ==> Comes(s, st, y, m);
  }

  lemma {:induction false} MeetComes(s: Marks, st: Step, y: Place, m: Mark)
    requires StepOk(s, st) && st.Meet?
    ensures var t := Met(s, st.source, st.target);
            if y.OfWaiting? && MayWait(s, st.source, y.mark) then Comes(s, st, y, m) <==> m in s.active[st.target]
            else At(t, y, m) <==> Comes(s, st, y, m)
  {
    if y.OfWaiting? {
      WaitingAfterMeet(s, st, y.mark, m);
    } else {
      MetAt(s, st, y, m);
    }
  }

  lemma {:induction false} FreedMeetFollows(s: Marks, st: Step, y: Place, m: Mark)
    requires AllWait(s) && StepOk(s, st) && st.Meet?
    requires RequestType(st.source) == SEND_STD && st.source in s.ssend && s.active[st.target] == {}
    ensures Follows(s, st, y, m)
  {
    var t, mark := Met(s, st.source, st.target), s.ssend[st.source];
    assert Stepped(s, st) == Cleanup(t, {mark}) && t.terminate == s.terminate;
    MeetComes(s, st, y, m);
    assert forall k :: !At(s, OfActive(st.target), k);
    RemovedIs(s, st, {mark});
    hide Comes, Met, Stepped;
    ErasedAt(t, Closure(t.terminate, {mark}), y, m);
    ClosureIsLeast(s.terminate, {mark});
    hide Removed, Released, Erase, Closure, At;
  }

  lemma {:induction false} WaitingMeetFollows(s: Marks, st: Step, y: Place, m: Mark)
    requires AllWait(s) && StepOk(s, st) && st.Meet?
    requires !(RequestType(st.source) == SEND_STD && st.source in s.ssend && s.active[st.target] == {})
    ensures Follows(s, st, y, m)
  {
    var a, b := st.source, st.target;
    var t := Met(s, a, b);
    var mayWait := RequestType(a) == SEND_STD && a in s.ssend;
    assert Stepped(s, st) == if mayWait then t.(terminate := t.terminate[s.ssend[a] := s.active[b]]) else t;
    assert t.terminate == s.terminate;
    MeetComes(s, st, y, m);
    if mayWait {
      var k :| k in s.active[b];
      assert At(s, OfActive(b), k);
    }
    NothingRemoved(s, st);
    hide Removed, Released, Comes, Met, Stepped;
  }

  // ---- a call of a collective operation --------------------------------------------------------------

  ghost predicate IsCall(s: Marks, st: Step) {
    UniqueOps(s.collectives) && StepOk(s, st) && st.Post? && RequestType(st.id) == COLLECTIVE
  }

  /** The operation with the new call. */
  ghost function Entered(s: Marks, st: Step): CollectiveOperation
    requires IsCall(s, st)
  {
    Joined(s, Mark(st.uid, st.id), s.process[st.pid], st.commId, st.ccId, st.size)
  }

  lemma {:induction false} TheOpenOne(s: Marks, st: Step, c: CollectiveOperation)
    requires IsCall(s, st)
    ensures var i := FindCollective(s.collectives, st.commId, st.ccId);
            IsOpen(s, st.commId, st.ccId, c) <==> i < |s.collectives| && c == s.collectives[i]
  {
    var i := FindCollective(s.collectives, st.commId, st.ccId);
    if IsOpen(s, st.commId, st.ccId, c) {
      var j :| 0 <= j < |s.collectives| && s.collectives[j] == c;
      assert i < |s.collectives| && SameKey(s.collectives[i], s.collectives[j]);
    }
  }

  lemma {:induction false} EnteredIs(s: Marks, st: Step)
    requires IsCall(s, st)
    ensures var c := Entered(s, st);
            && c.commId == st.commId && c.ccId == st.ccId
            && (|c.marks| == c.size <==> IsLast(s, st))
            && (forall k :: k in c.marks <==> Calls(s, st, k))
  {
    EnteredSize(s, st);
    EnteredCalls(s, st);
    hide IsLast, Calls;
  }

  lemma {:induction false} LastIs(s: Marks, st: Step)
    requires IsCall(s, st)
    ensures var i := FindCollective(s.collectives, st.commId, st.ccId);
            IsLast(s, st) <==>
              if i < |s.collectives|
              then |s.collectives[i].marks.Keys + {Mark(st.uid, st.id)}| == s.collectives[i].size else st.size == 1
  {
    var i := FindCollective(s.collectives, st.commId, st.ccId);
    forall d ensures IsOpen(s, st.commId, st.ccId, d) <==> i < |s.collectives| && d == s.collectives[i] {
      TheOpenOne(s, st, d);
    }
    hide IsOpen;
  }

  lemma {:induction false} EnteredSize(s: Marks, st: Step)
    requires IsCall(s, st)
    ensures |Entered(s, st).marks| == Entered(s, st).size <==> IsLast(s, st)
  {
    var i := FindCollective(s.collectives, st.commId, st.ccId);
    var c, mark := Entered(s, st), Mark(st.uid, st.id);
    LastIs(s, st);
    hide IsLast;
    assert |c.marks| == |c.marks.Keys|;
    if i < |s.collectives| {
      assert c.marks.Keys == s.collectives[i].marks.Keys + {mark};
    } else {
      assert c.marks.Keys == {mark};
    }
  }

  lemma {:induction false} EnteredCalls(s: Marks, st: Step)
    requires IsCall(s, st)
    ensures forall k :: k in Entered(s, st).marks <==> Calls(s, st, k)
  {
    var i := FindCollective(s.collectives, st.commId, st.ccId);
    var c, mark := Entered(s, st), Mark(st.uid, st.id);
    forall k ensures k in c.marks <==> Calls(s, st, k) {
      if Calls(s, st, k) && k != mark {
        var d :| d in s.collectives && IsCallOf(d, st.commId, st.ccId, k);
        TheOpenOne(s, st, d);
      }
      if k in c.marks && k != mark {
        assert IsCallOf(s.collectives[i], st.commId, st.ccId, k);
      }
    }
  }

  lemma {:induction false} EnteredHas(s: Marks, st: Step, k: Mark, m: Mark)
    requires IsCall(s, st) && Calls(s, st, k)
    ensures k in Entered(s, st).marks
    ensures m in Entered(s, st).marks[k] <==>
            if k == Mark(st.uid, st.id) then m in s.process[st.pid] else At(s, OfCall(st.commId, st.ccId, k), m)
  {
    EnteredIs(s, st);
    var i := FindCollective(s.collectives, st.commId, st.ccId);
    if k != Mark(st.uid, st.id) {
      var d :| d in s.collectives && IsCallOf(d, st.commId, st.ccId, k);
      TheOpenOne(s, st, d);
      if At(s, OfCall(st.commId, st.ccId, k), m) {
        var e :| e in s.collectives && IsCallOf(e, st.commId, st.ccId, k) && m in e.marks[k];
        TheOpenOne(s, st, e);
      }
    }
  }

  /** The marking with the new call entered, or the operation taken off the list. */
  ghost function Listed(s: Marks, st: Step): Marks
    requires IsCall(s, st)
  {
    var mark := Mark(st.uid, st.id);
    s.(finished := s.finished[st.id := s.process[st.pid] + {mark}],
       collectives := OpsAfter(s.collectives, FindCollective(s.collectives, st.commId, st.ccId), Entered(s, st),
                               IsLast(s, st)))
  }

  lemma {:induction false} SteppedCall(s: Marks, st: Step)
    requires IsCall(s, st)
    ensures Stepped(s, st) == if IsLast(s, st) then CollectiveDone(Listed(s, st), Entered(s, st)) else Listed(s, st)
  {
    EnteredIs(s, st);
    hide CollectiveDone, IsLast, Calls;
  }

  lemma {:induction false} ListedOps(s: Marks, st: Step)
    requires IsCall(s, st)
    ensures UniqueOps(Listed(s, st).collectives)
    ensures forall d :: d in Listed(s, st).collectives <==>
              if d.commId == st.commId && d.ccId == st.ccId then !IsLast(s, st) && d == Entered(s, st)
              else d in s.collectives
  {
    var i := FindCollective(s.collectives, st.commId, st.ccId);
    EnteredIs(s, st);
    forall d ensures IsOpen(s, st.commId, st.ccId, d) <==> i < |s.collectives| && d == s.collectives[i] {
      TheOpenOne(s, st, d);
    }
    if i < |s.collectives| {
      if IsLast(s, st) {
        LessOne(s.collectives, i);
      } else {
        OneReplaced(s.collectives, i, Entered(s, st));
      }
    } else if !IsLast(s, st) {
      OneMoreOp(s.collectives, Entered(s, st));
    }
    forall d ensures d in Listed(s, st).collectives <==>
        if d.commId == st.commId && d.ccId == st.ccId then !IsLast(s, st) && d == Entered(s, st)
        else d in s.collectives {
      assert IsOpen(s, st.commId, st.ccId, d) <==> d in s.collectives && d.commId == st.commId && d.ccId == st.ccId;
    }
  }

  lemma {:induction false} ListedAt(s: Marks, st: Step, y: Place, m: Mark)
    requires IsCall(s, st) && !y.OfWaiting?
    ensures At(Listed(s, st), y, m) <==> Comes(s, st, y, m)
  {
    var t, mark, x := Listed(s, st), Mark(st.uid, st.id), OfProcess(st.pid);
    ListedOps(s, st);
    EnteredIs(s, st);
    assert At(s, x, m) <==> m in s.process[st.pid];
    assert Moves(s, st, x, y) && At(s, x, m) ==> Comes(s, st, y, m);
    if y.OfCall? {
      hide Entered, IsLast, OpsAfter, Calls;
      if y.commId == st.commId && y.ccId == st.ccId {
        if At(t, y, m) {
          var d :| d in t.collectives && IsCallOf(d, y.commId, y.ccId, y.mark) && m in d.marks[y.mark];
          assert d == Entered(s, st);
          EnteredHas(s, st, y.mark, m);
        }
        if Comes(s, st, y, m) {
          assert !IsLast(s, st);
          assert Entered(s, st) in t.collectives;
          CalledBefore(s, st, y, m);
          EnteredHas(s, st, y.mark, m);
          assert IsCallOf(Entered(s, st), y.commId, y.ccId, y.mark);
        }
      } else {
        assert forall d :: IsCallOf(d, y.commId, y.ccId, y.mark) ==> (d in t.collectives <==> d in s.collectives);
      }
    }
  }

  lemma CalledBefore(s: Marks, st: Step, y: Place, m: Mark)
    requires IsCall(s, st) && y.OfCall? && y.commId == st.commId && y.ccId == st.ccId && Comes(s, st, y, m)
    ensures Calls(s, st, y.mark)
    ensures if y.mark == Mark(st.uid, st.id) then m in s.process[st.pid] else At(s, y, m)
  {
  }

  lemma {:induction false} OpenCallFollows(s: Marks, st: Step, y: Place, m: Mark)
    requires AllWait(s) && IsCall(s, st) && !IsLast(s, st)
    ensures Follows(s, st, y, m)
  {
    NothingRemoved(s, st);
    SteppedCall(s, st);
    if y.OfWaiting? {
      OpenCallWaits(s, st, y, m);
    } else {
      ListedAt(s, st, y, m);
    }
    hide Removed, Released, Listed, Comes, At;
  }

  lemma {:induction false} OpenCallWaits(s: Marks, st: Step, y: Place, m: Mark)
    requires IsCall(s, st) && !IsLast(s, st) && y.OfWaiting?
    ensures At(Listed(s, st), y, m) <==> Comes(s, st, y, m)
  {
    hide Entered, IsLast, Calls, WasCalled;
    assert Comes(s, st, y, m) <==> At(s, y, m);
    assert At(Listed(s, st), y, m) <==> At(s, y, m);
  }

  lemma {:induction false} AllCalls(s: Marks, st: Step, m: Mark)
    requires IsCall(s, st)
    ensures m in UnionOf(Entered(s, st).marks) <==> exists x :: WasCalled(st, x) && At(s, x, m)
  {
    var c, mark := Entered(s, st), Mark(st.uid, st.id);
    EnteredIs(s, st);
    hide Entered, IsLast;
    if m in UnionOf(c.marks) {
      var k :| k in c.marks && m in c.marks[k];
      EnteredHas(s, st, k, m);
      var x := if k == mark then OfProcess(st.pid) else OfCall(st.commId, st.ccId, k);
      assert WasCalled(st, x) && At(s, x, m);
    }
    if exists x :: WasCalled(st, x) && At(s, x, m) {
      var x :| WasCalled(st, x) && At(s, x, m);
      var k := if x.OfProcess? then mark else x.mark;
      assert x.OfCall? ==> exists d :: d in s.collectives && IsCallOf(d, st.commId, st.ccId, k);
      assert Calls(s, st, k);
      EnteredHas(s, st, k, m);
      assert m in c.marks[k];
    }
  }

  lemma {:induction false} WaitingAfterCall(s: Marks, st: Step, k: Mark, m: Mark)
    requires IsCall(s, st) && IsLast(s, st)
    ensures Comes(s, st, OfWaiting(k), m) <==>
            if Calls(s, st, k) then m in UnionOf(Entered(s, st).marks) else k in s.terminate && m in s.terminate[k]
  {
    var y := OfWaiting(k);
    AllCalls(s, st, m);
    assert Stays(s, st, y) <==> !Calls(s, st, k);
    forall x ensures Moves(s, st, x, y) <==> Calls(s, st, k) && WasCalled(st, x) {
    }
    hide Entered, IsLast, Calls, UnionOf, Stays, Moves, WasCalled;
    if m in UnionOf(Entered(s, st).marks) && Calls(s, st, k) {
      var x :| WasCalled(st, x) && At(s, x, m);
      assert Moves(s, st, x, y);
    }
  }

  lemma {:induction false} CallComes(s: Marks, st: Step, y: Place, m: Mark)
    requires IsCall(s, st) && IsLast(s, st)
    ensures Listed(s, st).terminate == s.terminate
    ensures if y.OfWaiting? && Calls(s, st, y.mark) then Comes(s, st, y, m) <==> m in UnionOf(Entered(s, st).marks)
            else At(Listed(s, st), y, m) <==> Comes(s, st, y, m)
  {
    if y.OfWaiting? {
      WaitingAfterCall(s, st, y.mark, m);
    } else {
      ListedAt(s, st, y, m);
    }
  }

  lemma {:induction false} LastCallFollows(s: Marks, st: Step, y: Place, m: Mark)
    requires AllWait(s) && IsCall(s, st) && IsLast(s, st)
    ensures Follows(s, st, y, m)
  {
    hide Entered, Listed, IsLast, Comes, Calls, Stepped, UnionOf, WasCalled, At, Follows, CollectiveDone;
    var c, t := Entered(s, st), Listed(s, st);
    SteppedCall(s, st);
    EnteredIs(s, st);
    CallComes(s, st, y, m);
    forall k ensures k in UnionOf(c.marks) <==> exists x :: WasCalled(st, x) && At(s, x, k) {
      AllCalls(s, st, k);
    }
    if UnionOf(c.marks) != {} {
      WaitingCallFollows(s, st, y, m, c, t);
    } else {
      FreedCallFollows(s, st, y, m, c, t);
    }
  }

  lemma {:induction false} WaitingCallFollows(s: Marks, st: Step, y: Place, m: Mark, c: CollectiveOperation, t: Marks)
    requires AllWait(s) && IsCall(s, st) && t.terminate == s.terminate
    requires Stepped(s, st) == CollectiveDone(t, c) && UnionOf(c.marks) != {}
    requires forall k :: k in c.marks <==> Calls(s, st, k)
    requires if y.OfWaiting? && Calls(s, st, y.mark) then Comes(s, st, y, m) <==> m in UnionOf(c.marks)
             else At(t, y, m) <==> Comes(s, st, y, m)
    requires forall k :: k in UnionOf(c.marks) <==> exists x :: WasCalled(st, x) && At(s, x, k)
    ensures Follows(s, st, y, m)
  {
    var k :| k in UnionOf(c.marks);
    var x :| WasCalled(st, x) && At(s, x, k);
    NothingRemoved(s, st);
    DoneAt(t, c, y, m);
    hide Removed, Released, Comes, Calls, UnionOf, Stepped, IsCall, CollectiveDone, At, WasCalled;
  }

  lemma {:induction false} DoneAt(t: Marks, c: CollectiveOperation, y: Place, m: Mark)
    requires UnionOf(c.marks) != {}
    ensures At(CollectiveDone(t, c), y, m) <==>
            if y.OfWaiting? && y.mark in c.marks then m in UnionOf(c.marks) else At(t, y, m)
  {
    hide UnionOf, Cleanup;
  }

  lemma {:induction false} FreedCallFollows(s: Marks, st: Step, y: Place, m: Mark, c: CollectiveOperation, t: Marks)
    requires AllWait(s) && IsCall(s, st) && IsLast(s, st) && t.terminate == s.terminate
    requires Stepped(s, st) == CollectiveDone(t, c) && UnionOf(c.marks) == {}
    requires forall k :: k in c.marks <==> Calls(s, st, k)
    requires if y.OfWaiting? && Calls(s, st, y.mark) then Comes(s, st, y, m) <==> m in UnionOf(c.marks)
             else At(t, y, m) <==> Comes(s, st, y, m)
    requires forall k :: k in UnionOf(c.marks) <==> exists x :: WasCalled(st, x) && At(s, x, k)
    ensures Follows(s, st, y, m)
  {
    forall x, k | WasCalled(st, x) ensures !At(s, x, k) {
      assert k !in UnionOf(c.marks);
    }
    forall k ensures Released(s, st, k) <==> k in c.marks.Keys {
    }
    hide Released, WasCalled, IsLast, Stepped, UnionOf, Calls, Comes;
    RemovedIs(s, st, c.marks.Keys);
    ErasedAt(t, Closure(t.terminate, c.marks.Keys), y, m);
    ClosureIsLeast(s.terminate, c.marks.Keys);
    hide Removed, Erase, Closure, At, IsCall;
  }

  // ---- every step --------------------------------------------------------------------------------------

  /** After a step exactly those depend on a mark to whom the step brings it, keeps it or moves it, unless the mark is
      removed; and a synchronisation that is removed waits for nothing any more. */
  lemma {:induction false} StepFollows(s: Marks, st: Step, y: Place, m: Mark)
    requires AllWait(s) && UniqueOps(s.collectives) && StepOk(s, st)
    ensures Follows(s, st, y, m)
  {
    hide Follows, AllWait;
    match st {
      case Post(uid, p, id, commId, ccId, size) =>
        if RequestType(id) != COLLECTIVE {
          PlainPostFollows(s, st, y, m);
        } else if IsLast(s, st) {
          LastCallFollows(s, st, y, m);
        } else {
          OpenCallFollows(s, st, y, m);
        }
      case Meet(a, b) => MeetFollows(s, st, y, m);
      case Learn(p, id) => LearnFollows(s, st, y, m);
      case GiveUp(marks) => GiveUpFollows(s, st, y, m);
    }
  }

  // ---- what else a step changes ------------------------------------------------------------------------

  /** Which requests wait and which are finished, which sends may wait, what waits, and who has called what. */
  ghost predicate Shape(s: Marks, st: Step, t: Marks) {
    && |t.process| == |s.process| && t.active.Keys == ActiveAfter(s, st) && t.finished.Keys == FinishedAfter(s, st)
    && (forall id, k :: HasSend(t, id, k) <==> SendAfter(s, st, id, k))
    && (forall k :: k in t.terminate <==> WaitsAfter(s, st, k))
    && (forall commId, ccId, k :: HasCall(t, commId, ccId, k) <==> CallAfter(s, st, commId, ccId, k))
  }

  ghost predicate HasSend(s: Marks, id: RequestId, k: Mark) {
    id in s.ssend && s.ssend[id] == k
  }

  ghost predicate HasCall(s: Marks, commId: nat, ccId: nat, k: Mark) {
    exists c :: c in s.collectives && IsCallOf(c, commId, ccId, k)
  }

  ghost function ActiveAfter(s: Marks, st: Step): set<RequestId> {
    match st
    case Post(uid, p, id, commId, ccId, size) =>
      if RequestType(id) == COLLECTIVE then s.active.Keys else s.active.Keys + {id}
    case Meet(a, b) => s.active.Keys - {a, b}
    case Learn(p, id) => s.active.Keys
    case GiveUp(marks) => s.active.Keys
  }

  ghost function FinishedAfter(s: Marks, st: Step): set<RequestId> {
    match st
    case Post(uid, p, id, commId, ccId, size) =>
      if RequestType(id) in {COLLECTIVE, SEND_EAGER, SEND_STD} then s.finished.Keys + {id} else s.finished.Keys
    case Meet(a, b) => s.finished.Keys + if RequestType(a) == SEND_RENDEZVOUS then {a, b} else {b}
    case Learn(p, id) => s.finished.Keys - {id}
    case GiveUp(marks) => s.finished.Keys
  }

  /** A standard send may wait from its posting until its mark is removed, or it is both matched and known to be
      finished. */
  ghost predicate SendAfter(s: Marks, st: Step, id: RequestId, k: Mark) {
    && !Removed(s, st, k)
    && (if st.Post? && st.id == id && RequestType(id) == SEND_STD then k == Mark(st.uid, id)
        else
          && HasSend(s, id, k)
          && !(RequestType(id) == SEND_STD && ((st.Meet? && st.source == id && id !in s.finished)
                                               || (st.Learn? && st.id == id && id !in s.active))))
  }

  ghost predicate WaitsAfter(s: Marks, st: Step, k: Mark) {
    !Removed(s, st, k)
    && (k in s.terminate || (st.Meet? && MayWait(s, st.source, k)) || (st.Post? && IsLast(s, st) && Calls(s, st, k)))
  }

  ghost predicate CallAfter(s: Marks, st: Step, commId: nat, ccId: nat, k: Mark) {
    if st.Post? && RequestType(st.id) == COLLECTIVE && st.commId == commId && st.ccId == ccId
    then !IsLast(s, st) && Calls(s, st, k)
    else HasCall(s, commId, ccId, k)
  }

  lemma {:induction false} ErasedShape(s: Marks, r: set<Mark>)
    ensures var e := Erase(s, r);
            && |e.process| == |s.process| && e.active.Keys == s.active.Keys && e.finished.Keys == s.finished.Keys
            && (forall id, k :: HasSend(e, id, k) <==> HasSend(s, id, k) && k !in r)
            && (forall k :: k in e.terminate <==> k in s.terminate && k !in r)
            && (forall commId, ccId, k :: HasCall(e, commId, ccId, k) <==> HasCall(s, commId, ccId, k))
  {
    var e := Erase(s, r);
    forall commId, ccId, k ensures HasCall(e, commId, ccId, k) <==> HasCall(s, commId, ccId, k) {
      if c :| c in e.collectives && IsCallOf(c, commId, ccId, k) {
        var i :| 0 <= i < |e.collectives| && e.collectives[i] == c;
        assert s.collectives[i] in s.collectives && IsCallOf(s.collectives[i], commId, ccId, k);
      }
      if c :| c in s.collectives && IsCallOf(c, commId, ccId, k) {
        var i :| 0 <= i < |s.collectives| && s.collectives[i] == c;
        assert e.collectives[i] in e.collectives && IsCallOf(e.collectives[i], commId, ccId, k);
      }
    }
  }

  lemma {:induction false} PlainShape(s: Marks, st: Step)
    requires AllWait(s) && StepOk(s, st)
    requires (st.Post? && RequestType(st.id) != COLLECTIVE) || st.Learn?
    ensures Shape(s, st, Stepped(s, st))
  {
    NothingRemoved(s, st);
    hide Removed, Released;
  }

  lemma {:induction false} GiveUpShape(s: Marks, st: Step)
    requires StepOk(s, st) && st.GiveUp?
    ensures Shape(s, st, Stepped(s, st))
  {
    RemovedIs(s, st, st.marks);
    ErasedShape(s, Closure(s.terminate, st.marks));
    hide Removed, Released, Erase, Closure;
  }

  lemma {:induction false} MeetShape(s: Marks, st: Step)
    requires AllWait(s) && StepOk(s, st) && st.Meet?
    ensures Shape(s, st, Stepped(s, st))
  {
    if RequestType(st.source) == SEND_STD && st.source in s.ssend && s.active[st.target] == {} {
      FreedMeetShape(s, st);
    } else {
      WaitingMeetShape(s, st);
    }
  }

  /** The marking before the removal of `r` has the shape, but for what is removed. */
  ghost predicate ShapeBut(s: Marks, st: Step, t: Marks, r: set<Mark>) {
    && |t.process| == |s.process| && t.active.Keys == ActiveAfter(s, st) && t.finished.Keys == FinishedAfter(s, st)
    && (forall id, k :: HasSend(t, id, k) && k !in r <==> SendAfter(s, st, id, k))
    && (forall k :: k in t.terminate && k !in r <==> WaitsAfter(s, st, k))
    && (forall commId, ccId, k :: HasCall(t, commId, ccId, k) <==> CallAfter(s, st, commId, ccId, k))
  }

  lemma {:induction false} FreedShape(s: Marks, st: Step, t: Marks, r: set<Mark>)
    requires ShapeBut(s, st, t, r)
    ensures Shape(s, st, Erase(t, r))
  {
    ErasedShape(t, r);
    hide Erase, SendAfter, WaitsAfter, CallAfter, ActiveAfter, FinishedAfter, HasSend, HasCall;
  }

  lemma {:induction false} MetShape(s: Marks, st: Step)
    requires StepOk(s, st) && st.Meet?
    ensures var t := Met(s, st.source, st.target);
            && |t.process| == |s.process| && t.active.Keys == ActiveAfter(s, st)
            && t.finished.Keys == FinishedAfter(s, st) && t.terminate == s.terminate
            && (forall id, k :: HasSend(t, id, k) && !Removed(s, st, k) <==> SendAfter(s, st, id, k))
            && (forall commId, ccId, k :: HasCall(t, commId, ccId, k) <==> CallAfter(s, st, commId, ccId, k))
  {
    hide Removed;
  }

  lemma {:induction false} FreedMeetShape(s: Marks, st: Step)
    requires AllWait(s) && StepOk(s, st) && st.Meet?
    requires RequestType(st.source) == SEND_STD && st.source in s.ssend && s.active[st.target] == {}
    ensures Shape(s, st, Stepped(s, st))
  {
    var t, mark := Met(s, st.source, st.target), s.ssend[st.source];
    assert Stepped(s, st) == Cleanup(t, {mark}) && t.terminate == s.terminate;
    assert forall k :: !At(s, OfActive(st.target), k);
    RemovedIs(s, st, {mark});
    MetShape(s, st);
    ClosureIsLeast(s.terminate, {mark});
    hide Removed, Released, Stepped, At, Closure, SendAfter, CallAfter, ActiveAfter, FinishedAfter, HasSend, HasCall,
         Met, Erase, Shape;
    FreedShape(s, st, t, Closure(t.terminate, {mark}));
  }

  lemma SameCalled(s: Marks, t: Marks)
    requires s.collectives == t.collectives
    ensures forall commId, ccId, k :: HasCall(t, commId, ccId, k) <==> HasCall(s, commId, ccId, k)
  {
  }

  lemma {:induction false} WaitingMeetShape(s: Marks, st: Step)
    requires AllWait(s) && StepOk(s, st) && st.Meet?
    requires !(RequestType(st.source) == SEND_STD && st.source in s.ssend && s.active[st.target] == {})
    ensures Shape(s, st, Stepped(s, st))
  {
    var a, b := st.source, st.target;
    var t := Met(s, a, b);
    var mayWait := RequestType(a) == SEND_STD && a in s.ssend;
    if mayWait {
      var k :| k in s.active[b];
      assert At(s, OfActive(b), k);
    }
    NothingRemoved(s, st);
    assert Stepped(s, st) == if mayWait then t.(terminate := t.terminate[s.ssend[a] := s.active[b]]) else t;
    hide Removed, Released, At, Stepped, HasCall;
    SameCalled(s, Stepped(s, st));
  }

  lemma {:induction false} ListedShape(s: Marks, st: Step)
    requires IsCall(s, st)
    ensures var t := Listed(s, st);
            && |t.process| == |s.process| && t.active.Keys == ActiveAfter(s, st)
            && t.finished.Keys == FinishedAfter(s, st) && t.ssend == s.ssend && t.terminate == s.terminate
            && (forall commId, ccId, k :: HasCall(t, commId, ccId, k) <==> CallAfter(s, st, commId, ccId, k))
  {
    var t := Listed(s, st);
    forall commId, ccId, k ensures HasCall(t, commId, ccId, k) <==> CallAfter(s, st, commId, ccId, k) {
      ListedCalls(s, st, commId, ccId, k);
    }
  }

  lemma {:induction false} ListedCalls(s: Marks, st: Step, commId: nat, ccId: nat, k: Mark)
    requires IsCall(s, st)
    ensures HasCall(Listed(s, st), commId, ccId, k) <==> CallAfter(s, st, commId, ccId, k)
  {
    ListedOps(s, st);
    EnteredIs(s, st);
    hide IsLast, Calls, Entered, Listed;
    if commId == st.commId && ccId == st.ccId && !IsLast(s, st) {
      assert Entered(s, st) in Listed(s, st).collectives;
      assert IsCallOf(Entered(s, st), commId, ccId, k) <==> Calls(s, st, k);
    }
  }

  lemma {:induction false} CallShape(s: Marks, st: Step)
    requires AllWait(s) && IsCall(s, st)
    ensures Shape(s, st, Stepped(s, st))
  {
    hide IsLast, Entered, Listed, UnionOf, CollectiveDone, AllWait, Shape, Stepped;
    SteppedCall(s, st);
    if !IsLast(s, st) {
      OpenCallShape(s, st);
    } else if UnionOf(Entered(s, st).marks) == {} {
      FreedCallShape(s, st, Entered(s, st), Listed(s, st));
    } else {
      WaitingCallShape(s, st, Entered(s, st), Listed(s, st));
    }
  }

  lemma {:induction false} OpenCallShape(s: Marks, st: Step)
    requires AllWait(s) && IsCall(s, st) && !IsLast(s, st)
    ensures Shape(s, st, Listed(s, st))
  {
    hide Calls, IsLast, Entered, Listed, Removed, SendAfter, WaitsAfter, CallAfter, ActiveAfter, FinishedAfter, HasCall,
         IsCall, AllWait;
    ListedShape(s, st);
    SendsAtCall(s, st);
    NothingReleased(s, st);
  }

  lemma NothingReleased(s: Marks, st: Step)
    requires AllWait(s) && IsCall(s, st) && !IsLast(s, st)
    ensures forall m :: !Removed(s, st, m)
  {
    NothingRemoved(s, st);
  }

  lemma {:induction false} SendsAtCall(s: Marks, st: Step)
    requires IsCall(s, st)
    ensures forall id, k :: HasSend(s, id, k) && !Removed(s, st, k) <==> SendAfter(s, st, id, k)
    ensures forall k :: WaitsAfter(s, st, k) <==>
              !Removed(s, st, k) && (k in s.terminate || (IsLast(s, st) && Calls(s, st, k)))
  {
    hide Removed, IsLast, Calls;
  }

  lemma FreedDone(t: Marks, c: CollectiveOperation)
    requires UnionOf(c.marks) == {}
    ensures CollectiveDone(t, c) == Erase(t, Closure(t.terminate, c.marks.Keys))
  {
  }

  lemma {:induction false} FreedCallShape(s: Marks, st: Step, c: CollectiveOperation, t: Marks)
    requires AllWait(s) && IsCall(s, st) && IsLast(s, st) && c == Entered(s, st) && t == Listed(s, st)
    requires Stepped(s, st) == CollectiveDone(t, c) && UnionOf(c.marks) == {}
    ensures Shape(s, st, Stepped(s, st))
  {
    hide *;
    ListedShape(s, st);
    FreedDone(t, c);
    FreedShapeBut(s, st, t, c.marks.Keys);
    FreedShape(s, st, t, Closure(t.terminate, c.marks.Keys));
  }

  lemma {:induction false} FreedShapeBut(s: Marks, st: Step, t: Marks, calls: set<Mark>)
    requires AllWait(s) && IsCall(s, st) && IsLast(s, st) && t == Listed(s, st)
    requires calls == Entered(s, st).marks.Keys && UnionOf(Entered(s, st).marks) == {}
    ensures ShapeBut(s, st, t, Closure(t.terminate, calls))
  {
    hide Calls, IsLast, UnionOf, Entered, Listed, Removed, SendAfter, WaitsAfter, Closure, CallAfter, ActiveAfter,
         FinishedAfter, HasCall, IsCall, AllWait, LeastClosed;
    ListedShape(s, st);
    EnteredIs(s, st);
    FreedCalls(s, st);
    SendsAtCall(s, st);
    InClosure(s.terminate, calls);
  }

  lemma InClosure(t: map<Mark, set<Mark>>, marks: set<Mark>)
    ensures marks <= Closure(t, marks)
  {
    ClosureIsLeast(t, marks);
  }

  lemma {:induction false} FreedCalls(s: Marks, st: Step)
    requires IsCall(s, st) && IsLast(s, st) && UnionOf(Entered(s, st).marks) == {}
    ensures forall m :: Removed(s, st, m) <==> m in Closure(s.terminate, Entered(s, st).marks.Keys)
  {
    var c := Entered(s, st);
    EnteredIs(s, st);
    forall k ensures Released(s, st, k) <==> k in c.marks.Keys {
      forall x, m | WasCalled(st, x) ensures !At(s, x, m) {
        AllCalls(s, st, m);
      }
    }
    RemovedIs(s, st, c.marks.Keys);
  }

  lemma {:induction false} WaitingCallShape(s: Marks, st: Step, c: CollectiveOperation, t: Marks)
    requires AllWait(s) && IsCall(s, st) && IsLast(s, st) && c == Entered(s, st) && t == Listed(s, st)
    requires Stepped(s, st) == CollectiveDone(t, c) && UnionOf(c.marks) != {}
    ensures Shape(s, st, Stepped(s, st))
  {
    hide Calls, IsLast, UnionOf, Entered, Listed, Removed, SendAfter, WaitsAfter, CallAfter, ActiveAfter, FinishedAfter,
         HasCall, AllWait, Stepped, CollectiveDone, HasSend;
    ListedShape(s, st);
    EnteredIs(s, st);
    SendsAtCall(s, st);
    WaitingCalls(s, st);
    WaitingDone(t, c);
    SameSend(s, t);
    SameSend(t, CollectiveDone(t, c));
    SameCalled(t, CollectiveDone(t, c));
  }

  lemma SameSend(s: Marks, t: Marks)
    requires s.ssend == t.ssend
    ensures forall id, k :: HasSend(t, id, k) <==> HasSend(s, id, k)
  {
  }

  lemma WaitingDone(t: Marks, c: CollectiveOperation)
    requires UnionOf(c.marks) != {}
    ensures var u := CollectiveDone(t, c);
            && u == t.(terminate := u.terminate) && forall k :: k in u.terminate <==> k in t.terminate || k in c.marks
  {
  }

  lemma {:induction false} WaitingCalls(s: Marks, st: Step)
    requires AllWait(s) && IsCall(s, st) && UnionOf(Entered(s, st).marks) != {}
    ensures forall m :: !Removed(s, st, m)
  {
    var k :| k in UnionOf(Entered(s, st).marks);
    AllCalls(s, st, k);
    var x :| WasCalled(st, x) && At(s, x, k);
    NothingRemoved(s, st);
  }

  lemma {:induction false} StepShape(s: Marks, st: Step)
    requires AllWait(s) && UniqueOps(s.collectives) && StepOk(s, st)
    ensures Shape(s, st, Stepped(s, st))
  {
    hide Shape, AllWait;
    match st {
      case Post(uid, p, id, commId, ccId, size) =>
        if RequestType(id) != COLLECTIVE {
          PlainShape(s, st);
        } else {
          CallShape(s, st);
        }
      case Meet(a, b) => MeetShape(s, st);
      case Learn(p, id) => PlainShape(s, st);
      case GiveUp(marks) => GiveUpShape(s, st);
    }
  }

  // ---- the marks of an event ---------------------------------------------------------------------------

  /** Places whose marks an event depends on: those of the requests that meet, or those of the process and of the
      requests that it learns are finished. */
  ghost predicate Involves(e: Event, x: Place) {
    match e
    case Call(uid, p, ids, commId, ccId, size) => x == OfProcess(p)
    case Match(a, b) => x == OfActive(a) || x == OfActive(b)
    case Continue(p, ids) => x == OfProcess(p) || (x.OfFinished? && x.id in ids)
  }

  /** An event depends on what is kept in the places that it involves, and on the standard sends that it learns are
      finished, as far as they may wait. */
  lemma {:induction false} EventDepends(s: Marks, e: Event, k: Mark)
    requires WellFormed(s, e)
    ensures k in EventMarks(s, e) <==>
            || (exists x :: Involves(e, x) && At(s, x, k))
            || (e.Continue? && exists id :: id in e.requests && MayWait(s, id, k))
  {
    match e {
      case Call(uid, p, ids, commId, ccId, size) =>
        assert Involves(e, OfProcess(p));
      case Match(a, b) =>
        assert Involves(e, OfActive(a)) && Involves(e, OfActive(b));
      case Continue(p, ids) =>
        RequestsDepend(s, ids, k);
        assert Involves(e, OfProcess(p));
        if id :| id in ids && At(s, OfFinished(id), k) {
          assert Involves(e, OfFinished(id));
        }
    }
  }

  lemma {:induction false} RequestsDepend(s: Marks, ids: seq<RequestId>, k: Mark)
    requires forall i :: 0 <= i < |ids| ==> ids[i] in s.finished
    ensures k in RequestsMarks(s, ids) <==> exists id :: id in ids && (At(s, OfFinished(id), k) || MayWait(s, id, k))
  {
    if ids != [] {
      var n := |ids| - 1;
      var id := ids[n];
      RequestsDepend(s, ids[..n], k);
      assert ids == ids[..n] + [id];
      assert k in RequestsMarks(s, ids) <==>
             k in RequestsMarks(s, ids[..n]) || At(s, OfFinished(id), k) || MayWait(s, id, k);
      assert id in ids;
    }
  }

  // ---- runs ----------------------------------------------------------------------------------------------

  ghost function AfterSteps(s: Marks, steps: seq<Step>): Marks {
    if steps == [] then s
    else
      var t := AfterSteps(s, steps[..|steps| - 1]);
      if StepOk(t, steps[|steps| - 1]) then Stepped(t, steps[|steps| - 1]) else t
  }

  ghost predicate StepsOk(s: Marks, steps: seq<Step>) {
    steps == []
    || (StepsOk(s, steps[..|steps| - 1]) && StepOk(AfterSteps(s, steps[..|steps| - 1]), steps[|steps| - 1]))
  }

  /** What holds of a marking that comes about. */
  ghost predicate Settled(s: Marks) {
    Inv(s) && UniqueOps(s.collectives)
  }

  lemma {:induction false} StepSettled(s: Marks, st: Step)
    requires Settled(s) && StepOk(s, st)
    ensures Settled(Stepped(s, st))
  {
    hide Inv, InvExcept, UniqueOps;
    match st {
      case Post(uid, p, id, commId, ccId, size) =>
        RequestPostedInv(s, uid, p, id, commId, ccId, size);
        if RequestType(id) == COLLECTIVE {
          CallUnique(s, st);
        }
      case Meet(a, b) =>
        MatchDoneInv(s, a, b);
        MeetUnique(s, a, b);
      case Learn(p, id) => ContinuedInv(s, p, id);
      case GiveUp(marks) =>
        GiveUpKeepsInv(s, marks);
        ErasedUnique(s, Closure(s.terminate, marks));
    }
  }

  lemma ErasedUnique(s: Marks, r: set<Mark>)
    requires UniqueOps(s.collectives)
    ensures UniqueOps(Erase(s, r).collectives)
  {
    ErasedKeys(s.collectives, Erase(s, r).collectives, r);
  }

  lemma {:induction false} CallUnique(s: Marks, st: Step)
    requires IsCall(s, st)
    ensures UniqueOps(Stepped(s, st).collectives)
  {
    hide Entered, Listed, IsLast, UnionOf, UniqueOps;
    SteppedCall(s, st);
    ListedOps(s, st);
    ErasedUnique(Listed(s, st), Closure(Listed(s, st).terminate, Entered(s, st).marks.Keys));
  }

  lemma {:induction false} MeetUnique(s: Marks, a: RequestId, b: RequestId)
    requires UniqueOps(s.collectives) && WellFormed(s, Match(a, b))
    ensures UniqueOps(MatchDone(s, a, b).collectives)
  {
    hide UniqueOps;
    if RequestType(a) == SEND_STD && a in s.ssend && s.active[b] == {} {
      ErasedUnique(Met(s, a, b), Closure(s.terminate, {s.ssend[a]}));
      assert MatchDone(s, a, b) == Cleanup(Met(s, a, b), {s.ssend[a]});
    }
  }

  lemma {:induction false} StepsSettled(s: Marks, steps: seq<Step>)
    requires Settled(s) && StepsOk(s, steps)
    ensures Settled(AfterSteps(s, steps))
  {
    hide Settled, StepOk, Stepped;
    if steps != [] {
      StepsSettled(s, steps[..|steps| - 1]);
      StepSettled(AfterSteps(s, steps[..|steps| - 1]), steps[|steps| - 1]);
    }
  }

  /** A step takes the mark from one place to another one, or leaves it where it is. */
  ghost predicate Carries(s: Marks, st: Step, x: Place, y: Place) {
    Moves(s, st, x, y) || (x == y && Stays(s, st, y))
  }

  /** Mark `m` appears in the first place of `path`, with one of the last steps; each further step carries it to the
      next place; and it is removed on the way neither itself nor as what a removed synchronisation waits for. */
  ghost predicate Chain(s: Marks, steps: seq<Step>, path: seq<Place>, m: Mark) {
    steps != [] && path != []
    && var st, y, before := steps[|steps| - 1], path[|path| - 1], AfterSteps(s, steps[..|steps| - 1]);
       && !Removed(before, st, m) && (y.OfWaiting? ==> !Removed(before, st, y.mark))
       && if |path| == 1 then Brings(before, st, m, y)
          else Carries(before, st, path[|path| - 2], y) && Chain(s, steps[..|steps| - 1], path[..|path| - 1], m)
  }

  ghost predicate ChainTo(s: Marks, steps: seq<Step>, y: Place, m: Mark) {
    exists path :: path != [] && path[|path| - 1] == y && Chain(s, steps, path, m)
  }

  ghost predicate NoMarks(s: Marks) {
    forall y, m :: !At(s, y, m)
  }

  /** In a run that begins without marks, a place depends on a mark exactly if a chain of steps brings it there. */
  lemma {:induction false} RunFollows(s: Marks, steps: seq<Step>, y: Place, m: Mark)
    requires Settled(s) && NoMarks(s) && StepsOk(s, steps)
    ensures At(AfterSteps(s, steps), y, m) <==> ChainTo(s, steps, y, m)
    decreases |steps|
  {
    hide Settled, StepOk, Stepped, At, Removed, Comes, Chain;
    if steps == [] {
      assert !At(s, y, m);
      NoChain(s, y, m);
    } else {
      var rest, st := steps[..|steps| - 1], steps[|steps| - 1];
      var before := AfterSteps(s, rest);
      assert steps == rest + [st];
      StepsSettled(s, rest);
      StepSettles(before, st, y, m);
      forall x ensures At(before, x, m) <==> ChainTo(s, rest, x, m) {
        RunFollows(s, rest, x, m);
      }
      if At(AfterSteps(s, steps), y, m) {
        ChainGrows(s, rest, st, before, y, m);
      }
      if ChainTo(s, steps, y, m) {
        var path :| path != [] && path[|path| - 1] == y && Chain(s, steps, path, m);
        ChainShrinks(s, rest, st, before, path, m);
      }
    }
  }

  lemma NoChain(s: Marks, y: Place, m: Mark)
    ensures !ChainTo(s, [], y, m)
  {
  }

  lemma {:induction false} StepSettles(s: Marks, st: Step, y: Place, m: Mark)
    requires Settled(s) && StepOk(s, st)
    ensures Follows(s, st, y, m)
  {
    hide Follows, StepOk;
    StepFollows(s, st, y, m);
  }

  /** Chains tell where the mark is after the steps but the last one. */
  ghost predicate ChainsTell(s: Marks, rest: seq<Step>, before: Marks, m: Mark) {
    before == AfterSteps(s, rest) && forall x :: At(before, x, m) <==> ChainTo(s, rest, x, m)
  }

  ghost predicate Lasts(before: Marks, st: Step, y: Place, m: Mark) {
    !Removed(before, st, m) && (y.OfWaiting? ==> !Removed(before, st, y.mark))
  }

  lemma {:induction false} ChainGrows(s: Marks, rest: seq<Step>, st: Step, before: Marks, y: Place, m: Mark)
    requires ChainsTell(s, rest, before, m) && Comes(before, st, y, m) && Lasts(before, st, y, m)
    ensures ChainTo(s, rest + [st], y, m)
  {
    hide At, Removed, Brings, Moves, Stays, AfterSteps;
    var steps := rest + [st];
    assert steps[..|steps| - 1] == rest && steps[|steps| - 1] == st;
    if Brings(before, st, m, y) {
      var one := [y];
      assert one[|one| - 1] == y && Chain(s, steps, one, m);
    } else {
      var x := CameFrom(before, st, y, m);
      var path :| path != [] && path[|path| - 1] == x && Chain(s, rest, path, m);
      LongerChain(s, rest, st, before, path, y, m);
    }
  }

  lemma {:induction false} CameFrom(before: Marks, st: Step, y: Place, m: Mark) returns (x: Place)
    requires Comes(before, st, y, m) && !Brings(before, st, m, y)
    ensures Carries(before, st, x, y) && At(before, x, m)
  {
    hide At, Brings, Moves, Stays;
    if Stays(before, st, y) && At(before, y, m) {
      x := y;
    } else {
      x :| Moves(before, st, x, y) && At(before, x, m);
    }
  }

  lemma {:induction false} LongerChain(s: Marks, rest: seq<Step>, st: Step, before: Marks, path: seq<Place>, y: Place,
                                       m: Mark)
    requires before == AfterSteps(s, rest) && path != [] && Chain(s, rest, path, m)
    requires Carries(before, st, path[|path| - 1], y) && Lasts(before, st, y, m)
    ensures ChainTo(s, rest + [st], y, m)
  {
    hide Removed, Brings, Carries, AfterSteps;
    var steps, more := rest + [st], path + [y];
    assert steps[..|steps| - 1] == rest && steps[|steps| - 1] == st;
    assert more[..|more| - 1] == path && more[|more| - 1] == y && more[|more| - 2] == path[|path| - 1];
    assert Chain(s, steps, more, m);
  }

  lemma {:induction false} ChainShrinks(s: Marks, rest: seq<Step>, st: Step, before: Marks, path: seq<Place>, m: Mark)
    requires ChainsTell(s, rest, before, m) && path != [] && Chain(s, rest + [st], path, m)
    ensures Comes(before, st, path[|path| - 1], m) && Lasts(before, st, path[|path| - 1], m)
  {
    hide At, Removed, Brings, Moves, Stays, AfterSteps;
    var steps := rest + [st];
    assert steps[..|steps| - 1] == rest && steps[|steps| - 1] == st;
    if |path| > 1 {
      var x, front := path[|path| - 2], path[..|path| - 1];
      assert front != [] && front[|front| - 1] == x && Chain(s, rest, front, m);
      assert ChainTo(s, rest, x, m);
    }
  }

  // ---- the steps of events and of ways -------------------------------------------------------------------

  ghost function StepsOf(e: Event): seq<Step> {
    match e
    case Call(uid, p, ids, commId, ccId, size) =>
      seq(|ids|, i requires 0 <= i < |ids| => Post(uid, p, ids[i], commId, ccId, size))
    case Match(a, b) => [Meet(a, b)]
    case Continue(p, ids) => seq(|ids|, i requires 0 <= i < |ids| => Learn(p, ids[i]))
  }

  ghost function StepsOfRun(events: seq<Event>): seq<Step> {
    if events == [] then [] else StepsOf(events[0]) + StepsOfRun(events[1..])
  }

  lemma {:induction false} StepsMore(s: Marks, steps: seq<Step>, more: seq<Step>)
    ensures AfterSteps(s, steps + more) == AfterSteps(AfterSteps(s, steps), more)
    ensures StepsOk(s, steps) && StepsOk(AfterSteps(s, steps), more) ==> StepsOk(s, steps + more)
    decreases |more|
  {
    hide StepOk, Stepped;
    if more == [] {
      assert steps + more == steps;
    } else {
      var n := |more| - 1;
      assert (steps + more)[..|steps + more| - 1] == steps + more[..n];
      StepsMore(s, steps, more[..n]);
    }
  }

  lemma {:induction false} PostSteps(s: Marks, uid: nat, p: nat, ids: seq<RequestId>, commId: nat, ccId: nat, size: nat)
    requires WellFormed(s, Call(uid, p, ids, commId, ccId, size))
    ensures var steps := StepsOf(Call(uid, p, ids, commId, ccId, size));
            StepsOk(s, steps) && AfterSteps(s, steps) == AllPosted(s, uid, p, ids, commId, ccId, size)
    decreases |ids|
  {
    hide RequestPosted;
    if ids != [] {
      var n := |ids| - 1;
      PostSteps(s, uid, p, ids[..n], commId, ccId, size);
      var steps := StepsOf(Call(uid, p, ids, commId, ccId, size));
      assert steps[..n] == StepsOf(Call(uid, p, ids[..n], commId, ccId, size));
      assert ids[n] !in ids[..n];
      assert StepOk(AfterSteps(s, steps[..n]), steps[n]);
    }
  }

  lemma {:induction false} LearnSteps(s: Marks, p: nat, ids: seq<RequestId>)
    requires WellFormed(s, Continue(p, ids))
    ensures var steps := StepsOf(Continue(p, ids));
            StepsOk(s, steps) && AfterSteps(s, steps) == AllContinued(s, p, ids)
    decreases |ids|
  {
    hide Continued;
    if ids != [] {
      var n := |ids| - 1;
      LearnSteps(s, p, ids[..n]);
      var steps := StepsOf(Continue(p, ids));
      assert steps[..n] == StepsOf(Continue(p, ids[..n]));
      assert ids[n] !in ids[..n];
      assert StepOk(AfterSteps(s, steps[..n]), steps[n]);
    }
  }

  lemma {:induction false} EventSteps(s: Marks, e: Event)
    requires WellFormed(s, e)
    ensures StepsOk(s, StepsOf(e)) && AfterSteps(s, StepsOf(e)) == Processed(s, e)
  {
    match e {
      case Call(uid, p, ids, commId, ccId, size) => PostSteps(s, uid, p, ids, commId, ccId, size);
      case Match(a, b) =>
        var steps := StepsOf(e);
        assert steps[..0] == [] && StepsOk(s, steps[..0]) && AfterSteps(s, steps[..0]) == s;
      case Continue(p, ids) => LearnSteps(s, p, ids);
    }
  }

  lemma {:induction false} RunSteps(s: Marks, events: seq<Event>)
    requires RunWellFormed(s, events)
    ensures StepsOk(s, StepsOfRun(events)) && AfterSteps(s, StepsOfRun(events)) == AfterRun(s, events)
    decreases |events|
  {
    hide WellFormed, Processed, StepsOf;
    if events != [] {
      EventSteps(s, events[0]);
      RunSteps(Processed(s, events[0]), events[1..]);
      StepsMore(s, StepsOf(events[0]), StepsOfRun(events[1..]));
    }
  }

  lemma {:induction false} FirstIsSettled(processCount: nat)
    ensures Settled(InitialMarks(processCount)) && NoMarks(InitialMarks(processCount))
  {
  }

  /** Whom a run makes depend on which synchronisations: a process, and every other place, depends on a mark exactly if
      a chain of steps leads there from the call or the continuation that brings the mark, and the mark is not removed
      on the way. */
  lemma {:induction false} RunDependencies(processCount: nat, events: seq<Event>, y: Place, m: Mark)
    requires RunWellFormed(InitialMarks(processCount), events)
    ensures At(AfterRun(InitialMarks(processCount), events), y, m)
            <==> ChainTo(InitialMarks(processCount), StepsOfRun(events), y, m)
  {
    hide Settled, NoMarks, StepOk, At, ChainTo, AfterRun, AfterSteps;
    RunSteps(InitialMarks(processCount), events);
    FirstIsSettled(processCount);
    RunFollows(InitialMarks(processCount), StepsOfRun(events), y, m);
  }

  /** The steps of a way through the state space: at branchings marks are given up first. */
  ghost function StepsAlong(t: Plan, first: Marks, path: seq<ArcId>): seq<Step> {
    if path == [] then []
    else
      var a, m := path[|path| - 1], Along(t, first, path[..|path| - 1]);
      StepsAlong(t, first, path[..|path| - 1])
      + if IsArc(t.g, a) && ArcOk(t.g, t.events, m, a) then StepsOfArc(t, m, a) else []
  }

  ghost function StepsOfArc(t: Plan, m: Marks, a: ArcId): seq<Step>
    requires IsArc(t.g, a) && ArcOk(t.g, t.events, m, a)
  {
    (if |t.g[a.node]| > 1 && EventMarks(m, t.events[a][0]) != {} then [GiveUp(EventMarks(m, t.events[a][0]))] else [])
    + StepsOfRun(t.events[a])
  }

  lemma {:induction false} ArcSteps(t: Plan, m: Marks, a: ArcId)
    requires IsArc(t.g, a) && ArcOk(t.g, t.events, m, a)
    ensures StepsOk(m, StepsOfArc(t, m, a)) && AfterSteps(m, StepsOfArc(t, m, a)) == Advance(t, m, a)
  {
    var before, run := Before(t.g, t.events, m, a), StepsOfRun(t.events[a]);
    RunSteps(before, t.events[a]);
    if |t.g[a.node]| > 1 && EventMarks(m, t.events[a][0]) != {} {
      var give := [GiveUp(EventMarks(m, t.events[a][0]))];
      assert give[..0] == [] && StepsOk(m, give[..0]) && AfterSteps(m, give[..0]) == m;
      assert StepsOk(m, give) && AfterSteps(m, give) == before;
      hide StepOk, Stepped, AfterRun, RunWellFormed, WellFormed, EventMarks, Before;
      StepsMore(m, give, run);
    } else {
      assert StepsOfArc(t, m, a) == run;
    }
  }

  lemma {:induction false} WaySteps(t: Plan, first: Marks, path: seq<ArcId>)
    ensures StepsOk(first, StepsAlong(t, first, path))
    ensures AfterSteps(first, StepsAlong(t, first, path)) == Along(t, first, path)
    decreases |path|
  {
    hide StepOk, Stepped, ArcOk, StepsOfArc;
    if path != [] {
      var before, a := path[..|path| - 1], path[|path| - 1];
      WaySteps(t, first, before);
      var m := Along(t, first, before);
      if IsArc(t.g, a) && ArcOk(t.g, t.events, m, a) {
        ArcSteps(t, m, a);
        StepsMore(first, StepsAlong(t, first, before), StepsOfArc(t, m, a));
      } else {
        NoAdvance(t, m, a);
        assert StepsAlong(t, first, path) == StepsAlong(t, first, before);
      }
    }
  }

  lemma NoAdvance(t: Plan, m: Marks, a: ArcId)
    requires !(IsArc(t.g, a) && ArcOk(t.g, t.events, m, a))
    ensures Advance(t, m, a) == m
  {
  }

  /** The same for every way that the walk follows. */
  lemma {:induction false} WayDependencies(t: Plan, processCount: nat, path: seq<ArcId>, y: Place, m: Mark)
    ensures At(Along(t, InitialMarks(processCount), path), y, m)
            <==> ChainTo(InitialMarks(processCount), StepsAlong(t, InitialMarks(processCount), path), y, m)
  {
    hide Settled, NoMarks, StepOk, At, ChainTo, Along, AfterSteps;
    WaySteps(t, InitialMarks(processCount), path);
    FirstIsSettled(processCount);
    RunFollows(InitialMarks(processCount), StepsAlong(t, InitialMarks(processCount), path), y, m);
  }
}
