/** Collective operations: which calls meet in one operation, how long it lives, and who may complete when. */
module Collectives {
  import opened MemoryTypes

  datatype Kind =
    | Barrier | Allgather | Allgatherv | Allreduce | Scan | ReduceScatter | CommSplit
    | Gather | Gatherv | Reduce
    | Bcast | Scatter | Scatterv
    | CommDup | CommCreate

  /** Nobody completes before everybody has entered. */
  predicate IsToAll(kind: Kind) {
    kind == Barrier || kind == Allgather || kind == Allgatherv || kind == Allreduce || kind == Scan
          || kind == ReduceScatter || kind == CommSplit
  }

  predicate IsToRoot(kind: Kind) {
    kind == Gather || kind == Gatherv || kind == Reduce
  }

  predicate IsFromRoot(kind: Kind) {
    kind == Bcast || kind == Scatter || kind == Scatterv
  }

  predicate HasRoot(kind: Kind) {
    IsToRoot(kind) || IsFromRoot(kind)
  }

  /** The `ccId`-th collective call of process `pid` on communicator `comm`. */
  datatype Call = Call(pid: nat, comm: nat, ccId: nat)

  datatype Key = Key(comm: nat, ccId: nat)

  /** What all calls of an operation agree on. */
  datatype Agreement = Agreement(kind: Kind, blocking: bool, rootPid: Option<nat>)

  /** The fields of an operation. `rootBuffer` tells whether the root has left its buffer. */
  datatype Operation = Operation(key: Key, agreement: Agreement, remainingEnter: int, remainingComplete: int,
                                 rootBuffer: bool)

  type Counters = map<(nat, nat), nat>

  function Count(counters: Counters, pid: nat, comm: nat): nat {
    if (pid, comm) in counters then counters[(pid, comm)] else 0
  }

  function Members(group: seq<nat>): set<nat> {
    set p | p in group
  }

  lemma {:induction false} MembersSize(group: seq<nat>)
    requires forall j, k :: 0 <= j < k < |group| ==> group[j] != group[k]
    ensures |Members(group)| == |group|
  {
    if group != [] {
      MembersSize(group[1..]);
      assert Members(group) == Members(group[1..]) + {group[0]};
      assert group[0] !in group[1..];
    } else {
      assert Members(group) == {};
    }
  }

  /** The members that have called the operation. */
  ghost function Entered(group: seq<nat>, counters: Counters, key: Key): set<nat> {
    set p | p in group && Count(counters, p, key.comm) > key.ccId
  }

  /** The members that have called the operation and are done with it. */
  ghost function Completed(group: seq<nat>, counters: Counters, open: set<Call>, key: Key): set<nat> {
    set p | p in group && Count(counters, p, key.comm) > key.ccId && Call(p, key.comm, key.ccId) !in open
  }

  /** When a member may complete. */
  ghost predicate MayComplete(a: Agreement, group: seq<nat>, entered: set<nat>, pid: nat) {
    && (IsToAll(a.kind) ==> entered == Members(group))
    && (IsToRoot(a.kind) && a.rootPid == Some(pid) ==> entered == Members(group))
    && (IsFromRoot(a.kind) ==> a.rootPid.Some? && a.rootPid.value in entered)
  }

  ghost predicate GroupsOk(groups: map<nat, seq<nat>>) {
    forall c, j, k :: c in groups && 0 <= j < k < |groups[c]| ==> groups[c][j] != groups[c][k]
  }

  /** The counters of an operation are right, and it is not over. */
  ghost predicate OperationOk(groups: map<nat, seq<nat>>, counters: Counters, open: set<Call>,
                              history: map<Key, Agreement>, op: Operation) {
    && op.key.comm in groups
    && op.remainingEnter == |groups[op.key.comm]| - |Entered(groups[op.key.comm], counters, op.key)|
    && op.remainingComplete == |groups[op.key.comm]| - |Completed(groups[op.key.comm], counters, open, op.key)|
    && op.remainingComplete > 0
    && (op.rootBuffer <==> IsFromRoot(op.agreement.kind) && op.agreement.rootPid.Some?
                           && op.agreement.rootPid.value in Entered(groups[op.key.comm], counters, op.key))
    && (op.agreement.rootPid.Some? <==> HasRoot(op.agreement.kind))
    && op.key in history && history[op.key] == op.agreement
  }

  ghost predicate Listed(ops: seq<Operation>, key: Key) {
    exists i :: 0 <= i < |ops| && ops[i].key == key
  }

  /** What every call and every completion keeps. `open` are the calls that are not completed, `ready` those of them
      that may. */
  ghost predicate CollectivesOk(groups: map<nat, seq<nat>>, counters: Counters, ops: seq<Operation>, open: set<Call>,
                                ready: set<Call>, history: map<Key, Agreement>) {
    && GroupsOk(groups) && ready <= open
    && (forall i, j :: 0 <= i < j < |ops| ==> ops[i].key != ops[j].key)
    && (forall i :: 0 <= i < |ops| ==> OperationOk(groups, counters, open, history, ops[i]))
    && CallsOk(groups, counters, ops, open) && ReadyOk(groups, counters, open, ready, history)
    && HistoryOk(groups, counters, history)
  }

  /** Every remembered operation has been entered. */
  ghost predicate HistoryOk(groups: map<nat, seq<nat>>, counters: Counters, history: map<Key, Agreement>) {
    forall key: Key :: key in history ==> key.comm in groups && Entered(groups[key.comm], counters, key) != {}
  }

  lemma EnteredAfter(group: seq<nat>, counters: Counters, pid: nat, key: Key, other: Key)
    requires pid in group && Count(counters, pid, key.comm) == key.ccId
    ensures Entered(group, counters[(pid, key.comm) := key.ccId + 1], other) ==
            Entered(group, counters, other) + if other == key then {pid} else {}
    ensures pid !in Entered(group, counters, key)
  {
  }

  lemma CompletedAfter(group: seq<nat>, counters: Counters, open: set<Call>, pid: nat, key: Key, other: Key)
    requires pid in group && Count(counters, pid, key.comm) == key.ccId
    ensures Completed(group, counters[(pid, key.comm) := key.ccId + 1], open + {Call(pid, key.comm, key.ccId)},
                      other) ==
            Completed(group, counters, open, other)
  {
  }

  /** The operation after a member has entered. */
  function AfterEnter(op: Operation, pid: nat): Operation {
    op.(remainingEnter := op.remainingEnter - 1,
        rootBuffer := op.rootBuffer || (IsFromRoot(op.agreement.kind) && op.agreement.rootPid == Some(pid)))
  }

  lemma {:induction false} OperationEntered(groups: map<nat, seq<nat>>, counters: Counters, open: set<Call>,
                                            history: map<Key, Agreement>, op: Operation, pid: nat, key: Key)
    requires GroupsOk(groups) && OperationOk(groups, counters, open, history, op) && key.comm in groups
             && pid in groups[key.comm]
    requires Count(counters, pid, key.comm) == key.ccId
    ensures OperationOk(groups, counters[(pid, key.comm) := key.ccId + 1], open + {Call(pid, key.comm, key.ccId)},
                        history,
                        if op.key == key then AfterEnter(op, pid) else op)
    ensures op.key == key ==> op.remainingEnter > 0
  {
    hide Entered, Completed;
    SetsAfterEnter(groups, counters, open, pid, key, op.key);
    if op.key == key {
      var group := groups[key.comm];
      EnteredAfter(group, counters, pid, key, key);
      MembersSize(group);
      EnteredAreMembers(group, counters, key);
      SmallerCard(Entered(group, counters, key), Members(group), pid);
    }
  }

  lemma SmallerCard(a: set<nat>, b: set<nat>, x: nat)
    requires a <= b && x in b && x !in a
    ensures |a| < |b|
  {
    assert b == a + (b - a);
    assert x in b - a;
  }

  /** A counter of another communicator does not matter. */
  lemma OtherComm(group: seq<nat>, counters: Counters, open: set<Call>, pid: nat, key: Key, other: Key)
    requires other.comm != key.comm
    ensures Entered(group, counters[(pid, key.comm) := key.ccId + 1], other) == Entered(group, counters, other)
    ensures Completed(group, counters[(pid, key.comm) := key.ccId + 1], open + {Call(pid, key.comm, key.ccId)},
                      other) ==
            Completed(group, counters, open, other)
  {
  }

  lemma SetsAfterEnter(groups: map<nat, seq<nat>>, counters: Counters, open: set<Call>, pid: nat, key: Key, other: Key)
    requires key.comm in groups && pid in groups[key.comm] && other.comm in groups
             && Count(counters, pid, key.comm) == key.ccId
    ensures Entered(groups[other.comm], counters[(pid, key.comm) := key.ccId + 1], other) ==
            Entered(groups[other.comm], counters, other) + if other == key then {pid} else {}
    ensures Completed(groups[other.comm], counters[(pid, key.comm) := key.ccId + 1],
                      open + {Call(pid, key.comm, key.ccId)}, other) ==
            Completed(groups[other.comm], counters, open, other)
  {
    if other.comm == key.comm {
      EnteredAfter(groups[key.comm], counters, pid, key, other);
      CompletedAfter(groups[key.comm], counters, open, pid, key, other);
    } else {
      OtherComm(groups[other.comm], counters, open, pid, key, other);
    }
  }

  /** May-complete stays true when more members enter. */
  lemma MayCompleteStays(a: Agreement, group: seq<nat>, entered: set<nat>, more: set<nat>, pid: nat)
    requires MayComplete(a, group, entered, pid) && entered <= more <= Members(group)
    ensures MayComplete(a, group, more, pid)
  {
  }

  lemma ListedAfter(ops: seq<Operation>, i: nat, op: Operation, key: Key)
    requires i < |ops| && op.key == ops[i].key
    ensures Listed(ops[i := op], key) <==> Listed(ops, key)
  {
    var n := ops[i := op];
    if Listed(ops, key) {
      var k :| 0 <= k < |ops| && ops[k].key == key;
      assert n[k].key == key;
    }
    if Listed(n, key) {
      var k :| 0 <= k < |n| && n[k].key == key;
      assert ops[k].key == key;
    }
  }

  lemma ListedNext(ops: seq<Operation>, op: Operation, key: Key)
    ensures Listed(ops + [op], key) <==> Listed(ops, key) || op.key == key
  {
    var n := ops + [op];
    if Listed(ops, key) {
      var k :| 0 <= k < |ops| && ops[k].key == key;
      assert n[k].key == key;
    }
    if op.key == key {
      assert n[|ops|].key == key;
    }
  }

  /** What holds of a set of operations whatever their list: calls, and completions. */
  ghost predicate CallsOk(groups: map<nat, seq<nat>>, counters: Counters, ops: seq<Operation>, open: set<Call>) {
    && (forall c :: c in open ==> c.comm in groups && c.pid in groups[c.comm] && Count(counters, c.pid, c.comm) > c.ccId
                                  && Listed(ops, Key(c.comm, c.ccId)))
    && (forall key: Key :: key.comm in groups && Entered(groups[key.comm], counters, key) != {} && !Listed(ops, key) ==>
          Completed(groups[key.comm], counters, open, key) == Members(groups[key.comm]))
  }

  ghost predicate ReadyOk(groups: map<nat, seq<nat>>, counters: Counters, open: set<Call>, ready: set<Call>,
                          history: map<Key, Agreement>) {
    forall c: Call ::
      (c.comm in groups && c.pid in groups[c.comm] && Count(counters, c.pid, c.comm) > c.ccId
       && (c in open ==> c in ready)) ==>
      ReadyCall(groups, counters, history, c)
  }

  ghost predicate ReadyCall(groups: map<nat, seq<nat>>, counters: Counters, history: map<Key, Agreement>, c: Call)
    requires c.comm in groups
  {
    && Key(c.comm, c.ccId) in history
    && MayComplete(history[Key(c.comm, c.ccId)], groups[c.comm],
                   Entered(groups[c.comm], counters, Key(c.comm, c.ccId)), c.pid)
  }

  /** Nobody has entered an operation that is not listed, when some member is still to call it. */
  lemma FirstCaller(groups: map<nat, seq<nat>>, counters: Counters, ops: seq<Operation>, open: set<Call>, pid: nat,
                    key: Key)
    requires CallsOk(groups, counters, ops, open) && key.comm in groups && pid in groups[key.comm]
    requires Count(counters, pid, key.comm) == key.ccId && !Listed(ops, key)
    ensures Entered(groups[key.comm], counters, key) == {} && Completed(groups[key.comm], counters, open, key) == {}
  {
    assert pid in Members(groups[key.comm]);
    assert pid !in Completed(groups[key.comm], counters, open, key);
    assert Completed(groups[key.comm], counters, open, key) <= Entered(groups[key.comm], counters, key);
  }

  lemma {:induction false} CallsEntered(groups: map<nat, seq<nat>>, counters: Counters, ops: seq<Operation>,
                                        open: set<Call>, ops': seq<Operation>, pid: nat, key: Key)
    requires CallsOk(groups, counters, ops, open) && key.comm in groups && pid in groups[key.comm]
             && Count(counters, pid, key.comm) == key.ccId
    requires forall other :: Listed(ops', other) <==> Listed(ops, other) || other == key
    ensures CallsOk(groups, counters[(pid, key.comm) := key.ccId + 1], ops', open + {Call(pid, key.comm, key.ccId)})
  {
    hide Listed, Entered, Completed;
    var counters', open' := counters[(pid, key.comm) := key.ccId + 1], open + {Call(pid, key.comm, key.ccId)};
    forall other: Key | other.comm in groups && Entered(groups[other.comm], counters', other) != {}
          && !Listed(ops', other)
      ensures Completed(groups[other.comm], counters', open', other) == Members(groups[other.comm])
    {
      SetsAfterEnter(groups, counters, open, pid, key, other);
    }
  }

  lemma {:induction false} ReadyEntered(groups: map<nat, seq<nat>>, counters: Counters, open: set<Call>,
                                        ready: set<Call>, history: map<Key, Agreement>, history': map<Key, Agreement>,
                                        pid: nat, key: Key)
    requires ReadyOk(groups, counters, open, ready, history) && key.comm in groups && pid in groups[key.comm]
    requires Count(counters, pid, key.comm) == key.ccId && ready <= open
    requires forall c: Call :: c in open ==> Count(counters, c.pid, c.comm) > c.ccId
    requires history.Keys <= history'.Keys && forall k :: k in history ==> history'[k] == history[k]
    ensures ReadyOk(groups, counters[(pid, key.comm) := key.ccId + 1], open + {Call(pid, key.comm, key.ccId)}, ready,
                    history')
  {
    hide Entered, MayComplete;
    var counters', open' := counters[(pid, key.comm) := key.ccId + 1], open + {Call(pid, key.comm, key.ccId)};
    forall c: Call | c.comm in groups && c.pid in groups[c.comm] && Count(counters', c.pid, c.comm) > c.ccId
          && (c in open' ==> c in ready)
      ensures ReadyCall(groups, counters', history', c)
    {
      assert c != Call(pid, key.comm, key.ccId);
      assert Count(counters, c.pid, c.comm) > c.ccId;
      assert ReadyCall(groups, counters, history, c);
      SetsAfterEnter(groups, counters, open, pid, key, Key(c.comm, c.ccId));
      EnteredAreMembers(groups[c.comm], counters', Key(c.comm, c.ccId));
      MayCompleteStays(history[Key(c.comm, c.ccId)], groups[c.comm],
                       Entered(groups[c.comm], counters, Key(c.comm, c.ccId)),
                       Entered(groups[c.comm], counters', Key(c.comm, c.ccId)), c.pid);
    }
  }

  lemma EnteredAreMembers(group: seq<nat>, counters: Counters, key: Key)
    ensures Entered(group, counters, key) <= Members(group)
  {
  }

  /** A member joins a listed operation. */
  lemma {:induction false} EnterListed(groups: map<nat, seq<nat>>, counters: Counters, ops: seq<Operation>,
                                       open: set<Call>, ready: set<Call>, history: map<Key, Agreement>, i: nat,
                                       pid: nat)
    requires CollectivesOk(groups, counters, ops, open, ready, history) && i < |ops|
    requires pid in groups[ops[i].key.comm] && Count(counters, pid, ops[i].key.comm) == ops[i].key.ccId
    ensures ops[i].remainingEnter > 0
    ensures var key := ops[i].key;
            CollectivesOk(groups, counters[(pid, key.comm) := key.ccId + 1], ops[i := AfterEnter(ops[i], pid)],
                          open + {Call(pid, key.comm, key.ccId)}, ready, history)
  {
    hide CallsOk, ReadyOk, OperationOk, HistoryOk;
    var key := ops[i].key;
    assert key.comm in groups by { OperationMeans(groups, counters, open, history, ops[i]); }
    forall k | 0 <= k < |ops|
      ensures OperationOk(groups, counters[(pid, key.comm) := key.ccId + 1], open + {Call(pid, key.comm, key.ccId)},
                          history,
                          if ops[k].key == key then AfterEnter(ops[k], pid) else ops[k])
      ensures k == i ==> ops[k].remainingEnter > 0
    {
      OperationEntered(groups, counters, open, history, ops[k], pid, key);
    }
    forall other ensures Listed(ops[i := AfterEnter(ops[i], pid)], other) <==> Listed(ops, other) || other == key {
      ListedAfter(ops, i, AfterEnter(ops[i], pid), other);
      assert other == key ==> Listed(ops, other);
    }
    CallsEntered(groups, counters, ops, open, ops[i := AfterEnter(ops[i], pid)], pid, key);
    OpenAreCounted(groups, counters, ops, open);
    ReadyEntered(groups, counters, open, ready, history, history, pid, key);
    HistoryEntered(groups, counters, history, history, pid, key);
  }

  lemma OperationMeans(groups: map<nat, seq<nat>>, counters: Counters, open: set<Call>, history: map<Key, Agreement>,
                       op: Operation)
    requires OperationOk(groups, counters, open, history, op)
    ensures op.key.comm in groups && op.key in history
  {
  }

  lemma OpenAreCounted(groups: map<nat, seq<nat>>, counters: Counters, ops: seq<Operation>, open: set<Call>)
    requires CallsOk(groups, counters, ops, open)
    ensures forall c: Call :: c in open ==> Count(counters, c.pid, c.comm) > c.ccId
  {
  }

  lemma {:induction false} HistoryEntered(groups: map<nat, seq<nat>>, counters: Counters, history: map<Key, Agreement>,
                                          history': map<Key, Agreement>, pid: nat, key: Key)
    requires HistoryOk(groups, counters, history) && key.comm in groups && pid in groups[key.comm]
    requires Count(counters, pid, key.comm) == key.ccId && history'.Keys <= history.Keys + {key}
    ensures HistoryOk(groups, counters[(pid, key.comm) := key.ccId + 1], history')
  {
    hide Entered;
    forall other: Key | other in history'
      ensures other.comm in groups && Entered(groups[other.comm], counters[(pid, key.comm) := key.ccId + 1],
                                              other) != {}
    {
      SetsAfterEnter(groups, counters, {}, pid, key, other);
    }
  }

  /** A new operation, before anybody has entered it. */
  function NewOperation(key: Key, a: Agreement, size: nat): Operation {
    Operation(key, a, size, size, false)
  }

  lemma {:induction false} NewIsOk(groups: map<nat, seq<nat>>, counters: Counters, open: set<Call>,
                                   history: map<Key, Agreement>, pid: nat, key: Key, a: Agreement)
    requires GroupsOk(groups) && key.comm in groups && pid in groups[key.comm]
             && Count(counters, pid, key.comm) == key.ccId
    requires Entered(groups[key.comm], counters, key) == {} && Completed(groups[key.comm], counters, open, key) == {}
    requires key in history && history[key] == a && (a.rootPid.Some? <==> HasRoot(a.kind))
    ensures OperationOk(groups, counters[(pid, key.comm) := key.ccId + 1], open + {Call(pid, key.comm, key.ccId)},
                        history,
                        AfterEnter(NewOperation(key, a, |groups[key.comm]|), pid))
  {
    hide Entered, Completed;
    SetsAfterEnter(groups, counters, open, pid, key, key);
    MembersSize(groups[key.comm]);
  }

  lemma HistoryLonger(groups: map<nat, seq<nat>>, counters: Counters, open: set<Call>, history: map<Key, Agreement>,
                      op: Operation, key: Key, a: Agreement)
    requires OperationOk(groups, counters, open, history, op) && key !in history
    ensures OperationOk(groups, counters, open, history[key := a], op)
  {
  }

  /** The first caller makes the operation. */
  lemma {:induction false} EnterNew(groups: map<nat, seq<nat>>, counters: Counters, ops: seq<Operation>,
                                    open: set<Call>, ready: set<Call>, history: map<Key, Agreement>, pid: nat, key: Key,
                                    a: Agreement)
    requires CollectivesOk(groups, counters, ops, open, ready, history) && !Listed(ops, key)
    requires key.comm in groups && pid in groups[key.comm] && Count(counters, pid, key.comm) == key.ccId
    requires a.rootPid.Some? <==> HasRoot(a.kind)
    ensures key !in history && |groups[key.comm]| > 0
    ensures CollectivesOk(groups, counters[(pid, key.comm) := key.ccId + 1],
                          ops + [AfterEnter(NewOperation(key, a, |groups[key.comm]|), pid)],
                                open + {Call(pid, key.comm, key.ccId)},
                          ready, history[key := a])
  {
    FirstCaller(groups, counters, ops, open, pid, key);
    hide CallsOk, ReadyOk, OperationOk, Entered, Completed, Listed;
    assert key !in history;
    var history' := history[key := a];
    var op := AfterEnter(NewOperation(key, a, |groups[key.comm]|), pid);
    NewIsOk(groups, counters, open, history', pid, key, a);
    forall k | 0 <= k < |ops|
      ensures ops[k].key != key
      ensures OperationOk(groups, counters[(pid, key.comm) := key.ccId + 1], open + {Call(pid, key.comm, key.ccId)},
                          history', ops[k])
    {
      IsListed(ops, k);
      HistoryLonger(groups, counters, open, history, ops[k], key, a);
      OperationEntered(groups, counters, open, history', ops[k], pid, key);
    }
    forall other ensures Listed(ops + [op], other) <==> Listed(ops, other) || other == key {
      ListedNext(ops, op, other);
    }
    CallsEntered(groups, counters, ops, open, ops + [op], pid, key);
    OpenAreCounted(groups, counters, ops, open);
    ReadyEntered(groups, counters, open, ready, history, history', pid, key);
    HistoryEntered(groups, counters, history, history', pid, key);
  }

  lemma IsListed(ops: seq<Operation>, k: nat)
    requires k < |ops|
    ensures Listed(ops, ops[k].key)
  {
  }

  // ---- completion ----------------------------------------------------------------------------------------

  /** The test that a request of process `pid` passes before it is finished. */
  predicate CanBeCompleted(op: Operation, pid: nat) {
    match op.agreement.kind
    case Barrier => op.remainingEnter == 0
    case Gatherv => op.agreement.rootPid != Some(pid) || op.remainingEnter == 0
    case Gather => op.agreement.rootPid != Some(pid) || op.remainingEnter == 0
    case Allgather => op.remainingEnter == 0
    case Allgatherv => op.remainingEnter == 0
    case Scatterv => op.rootBuffer
    case Scatter => op.rootBuffer
    case Bcast => op.rootBuffer
    case Reduce => op.agreement.rootPid != Some(pid) || op.remainingEnter == 0
    case Allreduce => op.remainingEnter == 0
    case ReduceScatter => op.remainingEnter == 0
    case Scan => op.remainingEnter == 0
    case CommSplit => op.remainingEnter == 0
    case CommDup => true
    case CommCreate => true
  }

  /** The test is exact: it is passed exactly when the rule of the operation allows completion. */
  lemma CanBeCompletedIsExact(groups: map<nat, seq<nat>>, counters: Counters, open: set<Call>,
                              history: map<Key, Agreement>, op: Operation, pid: nat)
    requires GroupsOk(groups) && OperationOk(groups, counters, open, history, op)
    ensures CanBeCompleted(op, pid) <==> MayComplete(op.agreement, groups[op.key.comm],
                                                     Entered(groups[op.key.comm], counters, op.key), pid)
  {
    var group := groups[op.key.comm];
    MembersSize(group);
    EnteredAreMembers(group, counters, op.key);
    SameCard(Entered(group, counters, op.key), Members(group));
  }

  lemma SameCard(a: set<nat>, b: set<nat>)
    requires a <= b
    ensures |a| == |b| <==> a == b
  {
    assert b == a + (b - a);
  }

  lemma {:induction false} FinishKeeps(groups: map<nat, seq<nat>>, counters: Counters, ops: seq<Operation>,
                                       open: set<Call>, ready: set<Call>, history: map<Key, Agreement>, i: nat, c: Call)
    requires CollectivesOk(groups, counters, ops, open, ready, history) && c in open && i < |ops|
             && ops[i].key == Key(c.comm, c.ccId)
    requires CanBeCompleted(ops[i], c.pid)
    ensures CollectivesOk(groups, counters, ops, open, ready + {c}, history)
  {
    hide CallsOk, MayComplete, Entered, Completed, CanBeCompleted;
    CanBeCompletedIsExact(groups, counters, open, history, ops[i], c.pid);
    assert ReadyOk(groups, counters, open, ready + {c}, history) by {
      forall d: Call | d.comm in groups && d.pid in groups[d.comm] && Count(counters, d.pid, d.comm) > d.ccId
            && (d in open ==> d in ready + {c})
        ensures ReadyCall(groups, counters, history, d)
      {
      }
    }
  }

  lemma CompletedGrows(group: seq<nat>, counters: Counters, open: set<Call>, c: Call, other: Key)
    requires c in open && c.pid in group && Count(counters, c.pid, c.comm) > c.ccId
    ensures Completed(group, counters, open - {c}, other) ==
            Completed(group, counters, open, other) + if other == Key(c.comm, c.ccId) then {c.pid} else {}
    ensures c.pid !in Completed(group, counters, open, Key(c.comm, c.ccId))
  {
  }

  lemma CompletedOther(group: seq<nat>, counters: Counters, open: set<Call>, c: Call, other: Key)
    requires other != Key(c.comm, c.ccId)
    ensures Completed(group, counters, open - {c}, other) == Completed(group, counters, open, other)
  {
  }

  /** The list after a completion: the operation is removed when it was the last one. */
  function AfterComplete(ops: seq<Operation>, i: nat): seq<Operation>
    requires i < |ops|
  {
    if ops[i].remainingComplete == 1 then ops[..i] + ops[i + 1..]
    else ops[i := ops[i].(remainingComplete := ops[i].remainingComplete - 1)]
  }

  lemma ListedComplete(ops: seq<Operation>, i: nat, key: Key)
    requires i < |ops| && forall j, k :: 0 <= j < k < |ops| ==> ops[j].key != ops[k].key
    ensures Listed(AfterComplete(ops, i), key) <==>
        Listed(ops, key) && (key == ops[i].key ==> ops[i].remainingComplete != 1)
  {
    var n := AfterComplete(ops, i);
    if Listed(ops, key) && (key == ops[i].key ==> ops[i].remainingComplete != 1) {
      var k :| 0 <= k < |ops| && ops[k].key == key;
      var j := if ops[i].remainingComplete == 1 && k > i then k - 1 else k;
      assert n[j].key == key;
    }
    if Listed(n, key) {
      var j :| 0 <= j < |n| && n[j].key == key;
      var k := if ops[i].remainingComplete == 1 && j >= i then j + 1 else j;
      assert ops[k].key == key;
    }
  }

  lemma {:induction false} OperationCompleted(groups: map<nat, seq<nat>>, counters: Counters, open: set<Call>,
                                              history: map<Key, Agreement>, op: Operation, c: Call)
    requires OperationOk(groups, counters, open, history, op) && c in open && c.comm in groups
             && c.pid in groups[c.comm]
    requires Count(counters, c.pid, c.comm) > c.ccId
    ensures op.key != Key(c.comm, c.ccId) ==> OperationOk(groups, counters, open - {c}, history, op)
    ensures op.key == Key(c.comm, c.ccId) && op.remainingComplete > 1 ==>
              OperationOk(groups, counters, open - {c}, history, op.(remainingComplete := op.remainingComplete - 1))
    ensures op.key == Key(c.comm, c.ccId) && op.remainingComplete == 1 ==>
              |Completed(groups[c.comm], counters, open - {c}, op.key)| == |groups[c.comm]|
  {
    hide Entered, Completed;
    if op.key == Key(c.comm, c.ccId) {
      CompletedGrows(groups[c.comm], counters, open, c, op.key);
    } else {
      CompletedOther(groups[op.key.comm], counters, open, c, op.key);
    }
  }

  lemma {:induction false} CallsCompleted(groups: map<nat, seq<nat>>, counters: Counters, ops: seq<Operation>,
                                          open: set<Call>, history: map<Key, Agreement>, i: nat, c: Call)
    requires GroupsOk(groups) && CallsOk(groups, counters, ops, open) && c in open && i < |ops|
             && ops[i].key == Key(c.comm, c.ccId)
    requires forall j, k :: 0 <= j < k < |ops| ==> ops[j].key != ops[k].key
    requires OperationOk(groups, counters, open, history, ops[i])
    ensures CallsOk(groups, counters, AfterComplete(ops, i), open - {c})
  {
    hide Listed, Entered, Completed, AfterComplete, OperationOk;
    var group := groups[c.comm];
    OperationCompleted(groups, counters, open, history, ops[i], c);
    MembersSize(group);
    SameCompleted(group, counters, open - {c}, ops[i].key);
    forall d | d in open - {c} ensures Listed(AfterComplete(ops, i), Key(d.comm, d.ccId)) {
      ListedComplete(ops, i, Key(d.comm, d.ccId));
      if Key(d.comm, d.ccId) == ops[i].key {
        NotLast(group, counters, open - {c}, d);
      }
    }
    forall other: Key | other.comm in groups && Entered(groups[other.comm], counters, other) != {}
          && !Listed(AfterComplete(ops, i), other)
      ensures Completed(groups[other.comm], counters, open - {c}, other) == Members(groups[other.comm])
    {
      ListedComplete(ops, i, other);
      IsListed(ops, i);
      if other != ops[i].key {
        CompletedOther(groups[other.comm], counters, open, c, other);
      }
    }
  }

  lemma SameCompleted(group: seq<nat>, counters: Counters, open: set<Call>, key: Key)
    ensures |Completed(group, counters, open, key)| == |Members(group)|
            ==> Completed(group, counters, open, key) == Members(group)
  {
    assert Completed(group, counters, open, key) <= Members(group);
    SameCard(Completed(group, counters, open, key), Members(group));
  }

  /** As long as a call is open, not all members have completed. */
  lemma NotLast(group: seq<nat>, counters: Counters, open: set<Call>, d: Call)
    requires d in open && d.pid in group
    ensures Completed(group, counters, open, Key(d.comm, d.ccId)) != Members(group)
  {
    assert d.pid in Members(group);
  }

  lemma {:induction false} CompleteKeeps(groups: map<nat, seq<nat>>, counters: Counters, ops: seq<Operation>,
                                         open: set<Call>, ready: set<Call>, history: map<Key, Agreement>, i: nat,
                                         c: Call)
    requires CollectivesOk(groups, counters, ops, open, ready, history) && c in ready && i < |ops|
             && ops[i].key == Key(c.comm, c.ccId)
    ensures CollectivesOk(groups, counters, AfterComplete(ops, i), open - {c}, ready - {c}, history)
  {
    hide OperationOk, ReadyCall, Listed, Entered, Completed, HistoryOk;
    CallsCompleted(groups, counters, ops, open, history, i, c);
    var n := AfterComplete(ops, i);
    forall k | 0 <= k < |n| ensures OperationOk(groups, counters, open - {c}, history, n[k]) {
      var j := if ops[i].remainingComplete == 1 && k >= i then k + 1 else k;
      OperationCompleted(groups, counters, open, history, ops[j], c);
      PositiveRemaining(groups, counters, open, history, ops[i]);
    }
    assert ReadyOk(groups, counters, open - {c}, ready - {c}, history);
  }

  lemma PositiveRemaining(groups: map<nat, seq<nat>>, counters: Counters, open: set<Call>, history: map<Key, Agreement>,
                          op: Operation)
    requires OperationOk(groups, counters, open, history, op)
    ensures op.remainingComplete > 0
  {
  }

  /** An operation that somebody has entered is listed exactly as long as some member has not completed it. */
  lemma ListedUntilCompleted(groups: map<nat, seq<nat>>, counters: Counters, ops: seq<Operation>, open: set<Call>,
                             ready: set<Call>, history: map<Key, Agreement>, key: Key)
    requires CollectivesOk(groups, counters, ops, open, ready, history) && key.comm in groups
             && Entered(groups[key.comm], counters, key) != {}
    ensures Listed(ops, key) <==> Completed(groups[key.comm], counters, open, key) != Members(groups[key.comm])
  {
    MembersSize(groups[key.comm]);
    if Listed(ops, key) {
      var i :| 0 <= i < |ops| && ops[i].key == key;
      assert OperationOk(groups, counters, open, history, ops[i]);
    }
  }

  /** Whoever has completed an operation was allowed to. */
  lemma CompletedWereAllowed(groups: map<nat, seq<nat>>, counters: Counters, ops: seq<Operation>, open: set<Call>,
                             ready: set<Call>, history: map<Key, Agreement>, key: Key, pid: nat)
    requires CollectivesOk(groups, counters, ops, open, ready, history) && key.comm in groups
    requires pid in Completed(groups[key.comm], counters, open, key)
    ensures key in history && MayComplete(history[key], groups[key.comm], Entered(groups[key.comm], counters, key), pid)
  {
    assert ReadyCall(groups, counters, history, Call(pid, key.comm, key.ccId));
  }

  // ---- the objects ---------------------------------------------------------------------------------------

  datatype Outcome = Joined | CollectiveMixing | BlockingMixing | RootMismatch

  class CollectiveOperation {
    const key: Key
    const kind: Kind
    const blocking: bool
    var rootPid: Option<nat>
    var remainingEnter: int
    var remainingComplete: int
    var rootBuffer: bool

    constructor (key: Key, kind: Kind, blocking: bool, size: nat)
      ensures AsValue() == Operation(key, Agreement(kind, blocking, None), size, size, false)
      ensures this.key == key && this.kind == kind && this.blocking == blocking
    {
      this.key, this.kind, this.blocking := key, kind, blocking;
      rootPid, remainingEnter, remainingComplete, rootBuffer := None, size, size, false;
    }

    function AsValue(): Operation
      reads this
    {
      Operation(key, Agreement(kind, blocking, rootPid), remainingEnter, remainingComplete, rootBuffer)
    }

    method CheckCompatibility(kind: Kind, blocking: bool) returns (r: Outcome)
      ensures r == if this.kind != kind then CollectiveMixing else if this.blocking != blocking then BlockingMixing
              else Joined
    {
      if this.kind != kind {
        return CollectiveMixing;
      }
      if this.blocking != blocking {
        return BlockingMixing;
      }
      r := Joined;
    }

    /** A member enters. The first one to name a root decides on it. */
    method Enter(pid: nat, root: Option<nat>) returns (r: Outcome)
      requires root.Some? <==> HasRoot(kind)
      modifies this
      ensures r == if old(rootPid).Some? && HasRoot(kind) && old(rootPid) != root then RootMismatch else Joined
      ensures r == Joined ==>
                AsValue() == AfterEnter(old(AsValue()).(agreement := Agreement(kind, blocking,
                      if HasRoot(kind) then root else old(rootPid))), pid)
    {
      remainingEnter := remainingEnter - 1;
      if root.Some? {
        if rootPid.None? {
          rootPid := root;
        } else if rootPid != root {
          return RootMismatch;
        }
      }
      if IsFromRoot(kind) && rootPid == Some(pid) {
        rootBuffer := true;
      }
      r := Joined;
    }

    method CompleteOne()
      modifies this
      ensures AsValue() == old(AsValue()).(remainingComplete := old(remainingComplete) - 1)
    {
      remainingComplete := remainingComplete - 1;
    }
  }

  ghost function ValuesOf(ops: seq<CollectiveOperation>): (vs: seq<Operation>)
    reads ops
    ensures |vs| == |ops| && forall i :: 0 <= i < |ops| ==> vs[i] == ops[i].AsValue()
  {
    if ops == [] then [] else ValuesOf(ops[..|ops| - 1]) + [ops[|ops| - 1].AsValue()]
  }

  class GlobalState {
    const groups: map<nat, seq<nat>>
    var operations: seq<CollectiveOperation>
    var counters: Counters
    /** Calls whose requests are pending, and calls whose requests are finished but not closed. */
    var active: set<Call>
    var finished: set<Call>
    ghost var history: map<Key, Agreement>

    ghost predicate Distinct()
      reads this
    {
      forall i, j :: 0 <= i < j < |operations| ==> operations[i] != operations[j]
    }

    ghost predicate Valid()
      reads this, operations
    {
      Distinct() && active !! finished && CollectivesOk(groups, counters, ValuesOf(operations), active + finished,
                                                        finished, history)
    }

    constructor (groups: map<nat, seq<nat>>)
      requires GroupsOk(groups)
      ensures Valid() && this.groups == groups && counters == map[] && operations == [] && active == {}
              && finished == {} && history == map[]
    {
      this.groups := groups;
      operations, counters, active, finished, history := [], map[], {}, {}, map[];
    }

    /** get_operation_by_cc_id. */
    method GetOperation(key: Key) returns (i: nat)
      ensures i <= |operations| && (i < |operations| ==> operations[i].key == key)
      ensures i == |operations| <==> !Listed(ValuesOf(operations), key)
    {
      i := 0;
      while i < |operations|
        invariant i <= |operations| && forall k :: 0 <= k < i ==> operations[k].key != key
      {
        if operations[i].key == key {
          IsListed(ValuesOf(operations), i);
          return;
        }
        i := i + 1;
      }
    }

    /** The call of a collective operation. It meets the calls of the other members with the same number; it fails
        exactly when they agreed on something else. */
    method CallCollective(pid: nat, comm: nat, kind: Kind, blocking: bool, root: Option<nat>) returns (r: Outcome)
      requires Valid() && comm in groups && pid in groups[comm] && (root.Some? <==> HasRoot(kind))
      modifies this, operations
      ensures var key := Key(comm, Count(old(counters), pid, comm));
              var a := Agreement(kind, blocking, root);
              && (r == Joined <==> (key in old(history) ==> old(history)[key] == a))
              && (r == CollectiveMixing <==> key in old(history) && old(history)[key].kind != kind)
              && (r == BlockingMixing <==>
                  key in old(history) && old(history)[key].kind == kind && old(history)[key].blocking != blocking)
              && (r == Joined ==>
                    && Valid() && history == old(history)[key := a]
                          && counters == old(counters)[(pid, comm) := key.ccId + 1]
                    && active == old(active) + {Call(pid, comm, key.ccId)} && finished == old(finished))
    {
      hide CollectivesOk, ValuesOf, Listed, AfterEnter;
      var key := Key(comm, Count(counters, pid, comm));
      var i := GetOperation(key);
      if i < |operations| {
        ListedInHistory(groups, counters, ValuesOf(operations), active + finished, finished, history, i);
        r := operations[i].CheckCompatibility(kind, blocking);
        if r == Joined {
          r := Join(i, pid, root);
        }
      } else {
        EnterNew(groups, counters, ValuesOf(operations), active + finished, finished, history, pid, key,
                 Agreement(kind, blocking, root));
        Begin(key, pid, Agreement(kind, blocking, root));
        r := Joined;
      }
    }

    /** A member joins operation `i`. */
    method Join(i: nat, pid: nat, root: Option<nat>) returns (r: Outcome)
      requires Valid() && i < |operations| && operations[i].key.comm in groups && pid in groups[operations[i].key.comm]
      requires Count(counters, pid, operations[i].key.comm) == operations[i].key.ccId
      requires (root.Some? <==> HasRoot(operations[i].kind))
                     && (operations[i].rootPid.Some? <==> HasRoot(operations[i].kind))
      modifies this, operations[i]
      ensures r == if old(operations[i].rootPid) == root then Joined else RootMismatch
      ensures r == Joined ==>
          Valid() && history == old(history)
          && Entering(pid, old(operations[i].key), old(counters), old(active), old(finished))
    {
      hide CollectivesOk, ValuesOf, AfterEnter;
      ghost var vs := ValuesOf(operations);
      var key := operations[i].key;
      EnterListed(groups, counters, vs, active + finished, finished, history, i, pid);
      r := operations[i].Enter(pid, root);
      if r == Joined {
        assert ValuesOf(operations) == vs[i := AfterEnter(vs[i], pid)];
        Register(pid, key, vs);
      }
    }

    /** The first caller makes the operation. */
    method Begin(key: Key, pid: nat, a: Agreement)
      requires Valid() && key.comm in groups && pid in groups[key.comm] && Count(counters, pid, key.comm) == key.ccId
      requires !Listed(ValuesOf(operations), key) && (a.rootPid.Some? <==> HasRoot(a.kind))
      modifies this
      ensures Valid() && history == old(history)[key := a]
              && Entering(pid, key, old(counters), old(active), old(finished))
    {
      hide CollectivesOk, ValuesOf, Listed, AfterEnter;
      ghost var vs := ValuesOf(operations);
      EnterNew(groups, counters, vs, active + finished, finished, history, pid, key, a);
      OpenIsOld(groups, counters, vs, active + finished, finished, history, Call(pid, key.comm, key.ccId));
      var op := new CollectiveOperation(key, a.kind, a.blocking, |groups[key.comm]|);
      var _ := op.Enter(pid, a.rootPid);
      operations := operations + [op];
      history := history[key := a];
      assert ValuesOf(operations) == vs + [AfterEnter(NewOperation(key, a, |groups[key.comm]|), pid)];
      counters := counters[(pid, key.comm) := key.ccId + 1];
      active := active + {Call(pid, key.comm, key.ccId)};
      assert active + finished == old(active + finished) + {Call(pid, key.comm, key.ccId)};
    }

    /** Counts the call and lists its request. */
    method Register(pid: nat, key: Key, ghost vs: seq<Operation>)
      requires Distinct() && active !! finished && CollectivesOk(groups, counters, vs, active + finished, finished,
                                                                 history)
      requires Count(counters, pid, key.comm) == key.ccId
      requires CollectivesOk(groups, counters[(pid, key.comm) := key.ccId + 1], ValuesOf(operations),
                             active + finished + {Call(pid, key.comm, key.ccId)}, finished, history)
      modifies `counters, `active
      ensures Valid() && Entering(pid, key, old(counters), old(active), old(finished))
    {
      hide CollectivesOk, ValuesOf;
      OpenIsOld(groups, counters, vs, active + finished, finished, history, Call(pid, key.comm, key.ccId));
      counters := counters[(pid, key.comm) := key.ccId + 1];
      active := active + {Call(pid, key.comm, key.ccId)};
      assert active + finished == old(active + finished) + {Call(pid, key.comm, key.ccId)};
    }

    /** The counters and requests after a call. */
    ghost predicate Entering(pid: nat, key: Key, counters0: Counters, active0: set<Call>, finished0: set<Call>)
      reads this
    {
      && counters == counters0[(pid, key.comm) := key.ccId + 1]
      && active == active0 + {Call(pid, key.comm, key.ccId)} && finished == finished0
    }

    /** The request of a call is finished when its operation can be completed by the process. */
    method FinishRequest(c: Call) returns (done: bool)
      requires Valid() && c in active
      modifies this
      ensures Valid() && operations == old(operations) && counters == old(counters) && history == old(history)
      ensures var key := Key(c.comm, c.ccId);
              && key in history && c.comm in groups
              && (done <==> MayComplete(history[key], groups[c.comm], Entered(groups[c.comm], counters, key), c.pid))
      ensures if done then active == old(active) - {c} && finished == old(finished) + {c}
              else active == old(active) && finished == old(finished)
    {
      hide CollectivesOk, ValuesOf, Listed, CanBeCompleted, MayComplete, Entered;
      ghost var vs := ValuesOf(operations);
      OpenIsListed(groups, counters, vs, active + finished, finished, history, c);
      var i := GetOperation(Key(c.comm, c.ccId));
      ListedInHistory(groups, counters, vs, active + finished, finished, history, i);
      ExactTest(groups, counters, vs, active + finished, finished, history, i, c.pid);
      done := CanBeCompleted(operations[i].AsValue(), c.pid);
      if done {
        FinishKeeps(groups, counters, vs, active + finished, finished, history, i, c);
        active, finished := active - {c}, finished + {c};
        assert active + finished == old(active + finished);
      }
    }

    /** A finished request is closed: its process completes the operation, which is removed by the last one. */
    method CloseRequest(c: Call)
      requires Valid() && c in finished
      modifies this, operations
      ensures Valid() && counters == old(counters) && history == old(history) && active == old(active)
              && finished == old(finished) - {c}
    {
      hide CollectivesOk, ValuesOf, Listed;
      ghost var vs := ValuesOf(operations);
      OpenIsListed(groups, counters, vs, active + finished, finished, history, c);
      var i := GetOperation(Key(c.comm, c.ccId));
      CompleteKeeps(groups, counters, vs, active + finished, finished, history, i, c);
      RemainingIsPositive(groups, counters, vs, active + finished, finished, history, i);
      operations[i].CompleteOne();
      if operations[i].remainingComplete == 0 {
        operations := operations[..i] + operations[i + 1..];
      }
      assert ValuesOf(operations) == AfterComplete(vs, i);
      finished := finished - {c};
      assert active + finished == old(active + finished) - {c};
    }
  }

  /** What a call is compared with when it meets a listed operation: somebody has entered the operation, and its kind,
      blocking mode and root are those on which the first caller agreed. */
  lemma ListedInHistory(groups: map<nat, seq<nat>>, counters: Counters, ops: seq<Operation>, open: set<Call>,
                        ready: set<Call>, history: map<Key, Agreement>, i: nat)
    requires CollectivesOk(groups, counters, ops, open, ready, history) && i < |ops|
    ensures ops[i].key in history && history[ops[i].key] == ops[i].agreement
    ensures ops[i].agreement.rootPid.Some? <==> HasRoot(ops[i].agreement.kind)
    ensures ops[i].key.comm in groups && Entered(groups[ops[i].key.comm], counters, ops[i].key) != {}
  {
    assert OperationOk(groups, counters, open, history, ops[i]);
  }

  lemma OpenIsOld(groups: map<nat, seq<nat>>, counters: Counters, ops: seq<Operation>, open: set<Call>,
                  ready: set<Call>, history: map<Key, Agreement>, c: Call)
    requires CollectivesOk(groups, counters, ops, open, ready, history) && Count(counters, c.pid, c.comm) == c.ccId
    ensures c !in open
  {
  }

  lemma OpenIsListed(groups: map<nat, seq<nat>>, counters: Counters, ops: seq<Operation>, open: set<Call>,
                     ready: set<Call>, history: map<Key, Agreement>, c: Call)
    requires CollectivesOk(groups, counters, ops, open, ready, history) && c in open
    ensures c.comm in groups && Listed(ops, Key(c.comm, c.ccId))
  {
  }

  lemma ExactTest(groups: map<nat, seq<nat>>, counters: Counters, ops: seq<Operation>, open: set<Call>,
                  ready: set<Call>, history: map<Key, Agreement>, i: nat, pid: nat)
    requires CollectivesOk(groups, counters, ops, open, ready, history) && i < |ops|
    ensures ops[i].key.comm in groups
    ensures CanBeCompleted(ops[i], pid) <==>
            MayComplete(ops[i].agreement, groups[ops[i].key.comm],
                        Entered(groups[ops[i].key.comm], counters, ops[i].key), pid)
  {
    assert OperationOk(groups, counters, open, history, ops[i]);
    CanBeCompletedIsExact(groups, counters, open, history, ops[i], pid);
  }

  lemma RemainingIsPositive(groups: map<nat, seq<nat>>, counters: Counters, ops: seq<Operation>, open: set<Call>,
                            ready: set<Call>, history: map<Key, Agreement>, i: nat)
    requires CollectivesOk(groups, counters, ops, open, ready, history) && i < |ops|
    ensures ops[i].remainingComplete > 0
  {
    PositiveRemaining(groups, counters, open, history, ops[i]);
  }
}
