/** Reference counts of message buffers, over all global states that are alive. */
module Buffers {
  import opened MemoryTypes
  import opened Requests
  import opened Matching

  /** A message buffer: its reference count, and the number of controllers that still have to receive it. */
  datatype VgBuffer = VgBuffer(refCount: int, remaining: nat)

  /** The part of a global state that holds buffers: the requests, and the buffers of the collective operations. */
  datatype GlobalState = GlobalState(processes: seq<Process>, operations: seq<seq<nat>>)

  // ---- who holds what --------------------------------------------------------------------------------

  function Sum(ms: seq<multiset<nat>>): multiset<nat> {
    if ms == [] then multiset{} else Sum(ms[..|ms| - 1]) + ms[|ms| - 1]
  }

  lemma {:induction false} SumUpdate(ms: seq<multiset<nat>>, i: nat, m: multiset<nat>)
    requires i < |ms|
    ensures Sum(ms[i := m]) + ms[i] == Sum(ms) + m
  {
    var n := |ms| - 1;
    if i < n {
      assert ms[i := m][..n] == ms[..n][i := m];
      SumUpdate(ms[..n], i, m);
      var a, b := Sum(ms[..n][i := m]), Sum(ms[..n]);
      assert a + ms[n] + ms[i] == (a + ms[i]) + ms[n] == (b + m) + ms[n] == (b + ms[n]) + m;
      assert ms[i := m][n] == ms[n];
    } else {
      assert ms[i := m][..n] == ms[..n];
      assert Sum(ms[i := m]) == Sum(ms[..n]) + m;
    }
  }

  lemma SumNext(ms: seq<multiset<nat>>, m: multiset<nat>)
    ensures Sum(ms + [m]) == Sum(ms) + m
  {
    assert (ms + [m])[..|ms|] == ms;
  }

  lemma {:induction false} SumRemove(ms: seq<multiset<nat>>, i: nat)
    requires i < |ms|
    ensures Sum(ms) == Sum(ms[..i] + ms[i + 1..]) + ms[i]
  {
    var n := |ms| - 1;
    if i < n {
      SumRemove(ms[..n], i);
      var rest := ms[..n][..i] + ms[..n][i + 1..];
      assert ms[..i] + ms[i + 1..] == rest + [ms[n]];
      SumNext(rest, ms[n]);
      var a := Sum(rest);
      assert a + ms[i] + ms[n] == a + ms[n] + ms[i];
    } else {
      assert ms[..i] + ms[i + 1..] == ms[..n];
    }
  }

  function OfRequest(r: Request): multiset<nat> {
    if r.Collective? || r.buffer.None? then multiset{} else multiset{r.buffer.value}
  }

  function OfRequests(rs: seq<Request>): multiset<nat> {
    Sum(seq(|rs|, i requires 0 <= i < |rs| => OfRequest(rs[i])))
  }

  function OfEntries(es: seq<Entry>): multiset<nat> {
    Sum(seq(|es|, i requires 0 <= i < |es| => OfRequest(es[i].request)))
  }

  function OfProcess(m: Process): multiset<nat> {
    OfEntries(m.active) + OfRequests(m.finished)
  }

  function OfProcesses(ps: seq<Process>): multiset<nat> {
    Sum(seq(|ps|, i requires 0 <= i < |ps| => OfProcess(ps[i])))
  }

  function OfOperation(op: seq<nat>): multiset<nat> {
    multiset(op)
  }

  function OfOperations(ops: seq<seq<nat>>): multiset<nat> {
    Sum(seq(|ops|, i requires 0 <= i < |ops| => OfOperation(ops[i])))
  }

  function OfState(g: GlobalState): multiset<nat> {
    OfProcesses(g.processes) + OfOperations(g.operations)
  }

  function OfAll(live: seq<GlobalState>): multiset<nat> {
    Sum(seq(|live|, i requires 0 <= i < |live| => OfState(live[i])))
  }

  lemma RequestsNext(rs: seq<Request>, r: Request)
    ensures OfRequests(rs + [r]) == OfRequests(rs) + OfRequest(r)
  {
    var ms := seq(|rs|, i requires 0 <= i < |rs| => OfRequest(rs[i]));
    var more := rs + [r];
    assert seq(|more|, i requires 0 <= i < |more| => OfRequest(more[i])) == ms + [OfRequest(r)];
    SumNext(ms, OfRequest(r));
  }

  lemma EntriesNext(es: seq<Entry>, e: Entry)
    ensures OfEntries(es + [e]) == OfEntries(es) + OfRequest(e.request)
  {
    var ms := seq(|es|, i requires 0 <= i < |es| => OfRequest(es[i].request));
    var more := es + [e];
    assert seq(|more|, i requires 0 <= i < |more| => OfRequest(more[i].request)) == ms + [OfRequest(e.request)];
    SumNext(ms, OfRequest(e.request));
  }

  lemma ProcessesUpdate(ps: seq<Process>, p: nat, m: Process)
    requires p < |ps|
    ensures OfProcesses(ps[p := m]) + OfProcess(ps[p]) == OfProcesses(ps) + OfProcess(m)
  {
    var ms := seq(|ps|, i requires 0 <= i < |ps| => OfProcess(ps[i]));
    var other := ps[p := m];
    assert seq(|other|, i requires 0 <= i < |other| => OfProcess(other[i])) == ms[p := OfProcess(m)];
    SumUpdate(ms, p, OfProcess(m));
  }

  lemma OperationsUpdate(ops: seq<seq<nat>>, k: nat, op: seq<nat>)
    requires k < |ops|
    ensures OfOperations(ops[k := op]) + multiset(ops[k]) == OfOperations(ops) + multiset(op)
  {
    var ms := seq(|ops|, i requires 0 <= i < |ops| => OfOperation(ops[i]));
    var other := ops[k := op];
    assert seq(|other|, i requires 0 <= i < |other| => OfOperation(other[i])) == ms[k := OfOperation(op)];
    SumUpdate(ms, k, OfOperation(op));
  }

  lemma OperationsRemove(ops: seq<seq<nat>>, k: nat)
    requires k < |ops|
    ensures OfOperations(ops) == OfOperations(ops[..k] + ops[k + 1..]) + multiset(ops[k])
  {
    var ms := seq(|ops|, i requires 0 <= i < |ops| => OfOperation(ops[i]));
    var other := ops[..k] + ops[k + 1..];
    assert seq(|other|, i requires 0 <= i < |other| => OfOperation(other[i])) == ms[..k] + ms[k + 1..];
    SumRemove(ms, k);
  }

  lemma AllUpdate(live: seq<GlobalState>, i: nat, g: GlobalState)
    requires i < |live|
    ensures OfAll(live[i := g]) + OfState(live[i]) == OfAll(live) + OfState(g)
  {
    var ms := seq(|live|, i requires 0 <= i < |live| => OfState(live[i]));
    var other := live[i := g];
    assert seq(|other|, i requires 0 <= i < |other| => OfState(other[i])) == ms[i := OfState(g)];
    SumUpdate(ms, i, OfState(g));
  }

  lemma AllNext(live: seq<GlobalState>, g: GlobalState)
    ensures OfAll(live + [g]) == OfAll(live) + OfState(g)
  {
    var ms := seq(|live|, i requires 0 <= i < |live| => OfState(live[i]));
    var more := live + [g];
    assert seq(|more|, i requires 0 <= i < |more| => OfState(more[i])) == ms + [OfState(g)];
    SumNext(ms, OfState(g));
  }

  lemma AllRemove(live: seq<GlobalState>, i: nat)
    requires i < |live|
    ensures OfAll(live) == OfAll(live[..i] + live[i + 1..]) + OfState(live[i])
  {
    var ms := seq(|live|, i requires 0 <= i < |live| => OfState(live[i]));
    var other := live[..i] + live[i + 1..];
    assert seq(|other|, i requires 0 <= i < |other| => OfState(other[i])) == ms[..i] + ms[i + 1..];
    SumRemove(ms, i);
  }

  /** Taking a request out of the list takes its buffer out of what is held. */
  lemma {:induction false} EntriesWithout(es: seq<Entry>, e: Entry)
    requires Ordered(es) && e in es
    ensures OfEntries(es) == OfEntries(Without(es, {e})) + OfRequest(e.request)
  {
    var i :| 0 <= i < |es| && es[i] == e;
    WithoutIs(es, i);
    var ms := seq(|es|, k requires 0 <= k < |es| => OfRequest(es[k].request));
    var other := es[..i] + es[i + 1..];
    assert seq(|other|, k requires 0 <= k < |other| => OfRequest(other[k].request)) == ms[..i] + ms[i + 1..];
    SumRemove(ms, i);
  }

  lemma {:induction false} WithoutIs(es: seq<Entry>, i: nat)
    requires Ordered(es) && i < |es|
    ensures Without(es, {es[i]}) == es[..i] + es[i + 1..]
  {
    if i == 0 {
      WithoutAbsent(es[1..], es[0]);
    } else {
      WithoutIs(es[1..], i - 1);
      assert es[..i] + es[i + 1..] == [es[0]] + (es[1..][..i - 1] + es[1..][i..]);
    }
  }

  lemma {:induction false} WithoutAbsent(es: seq<Entry>, e: Entry)
    requires e !in es
    ensures Without(es, {e}) == es
  {
    if es != [] {
      WithoutAbsent(es[1..], e);
    }
  }

  lemma PostHolds(m: Process, serial: nat, r: Request)
    ensures OfProcess(Post(m, serial, r)) ==
            OfProcess(m) + OfRequest(r) + if r.Send? && r.sendType != Rendezvous then OfRequest(r) else multiset{}
  {
    EntriesNext(m.active, Entry(serial, r));
    RequestsNext(m.finished, r);
    assert m.finished + [] == m.finished;
    var e, f, x := OfEntries(m.active), OfRequests(m.finished), OfRequest(r);
    assert (e + x) + (f + x) == (e + f) + x + x;
    assert (e + x) + f == (e + f) + x;
  }

  lemma {:induction false} ReceiveHolds(m: Process, r: Entry, rank: nat, tag: nat, buffer: nat)
    requires Ordered(m.active) && r in m.active && r.request.Receive? && r.request.buffer == None
    ensures OfProcess(ReceiveDone(m, r, rank, tag, Some(buffer))) == OfProcess(m) + multiset{buffer}
  {
    hide OfEntries, OfRequests, Without;
    EntriesWithout(m.active, r);
    RequestsNext(m.finished, FinishedReceive(r.request, rank, tag, Some(buffer)));
  }

  lemma {:induction false} SendHolds(m: Process, s: Entry, buffer: nat)
    requires Ordered(m.active) && s in m.active && s.request.Send? && s.request.buffer == Some(buffer)
    ensures OfProcess(m) == OfProcess(SendDone(m, s)) + if s.request.sendType == Rendezvous then multiset{}
            else multiset{buffer}
  {
    hide OfEntries, OfRequests, Without;
    EntriesWithout(m.active, s);
    RequestsNext(m.finished, s.request);
    assert m.finished + [] == m.finished;
    var e, f, x := OfEntries(Without(m.active, {s})), OfRequests(m.finished), multiset{buffer};
    assert (e + x) + f == (e + f) + x == e + (f + x);
  }

  // ---- the counts --------------------------------------------------------------------------------------

  /** The count of a buffer is the number of its holders, and one more while a controller still has to receive it; the
      buffers without references are those listed as unused. */
  ghost predicate Conserved(buffers: map<nat, VgBuffer>, unused: set<nat>, held: multiset<nat>) {
    && (forall id :: id in buffers ==> buffers[id].refCount == held[id] + if buffers[id].remaining > 0 then 1 else 0)
    && (forall id :: id in held ==> id in buffers)
    && (forall id :: id in unused <==> id in buffers && buffers[id].refCount == 0)
  }

  function WithBuffer(r: Request, id: nat): Request
    requires r.Send?
  {
    Send(r.id, r.sendType, r.comm, r.target, r.tag, Some(id))
  }

  function WithoutMessage(r: Request): Request {
    match r
    case Send(id, sendType, comm, target, tag, _) => Send(id, sendType, comm, target, tag, None)
    case Receive(id, comm, source, pattern, _, sourceRank, sourceTag) => Receive(id, comm, source, pattern, None,
          sourceRank, sourceTag)
    case Collective(_, _, _) => r
  }

  /** One request is the other with a message of its own. */
  ghost predicate OnlyMessageDiffers(a: Request, b: Request) {
    match a
    case Send(id, sendType, comm, target, tag, _) =>
      b.Send? && b.id == id && b.sendType == sendType && b.comm == comm && b.target == target && b.tag == tag
    case Receive(id, comm, source, pattern, _, rank, tag) =>
      b.Receive? && b.id == id && b.comm == comm && b.source == source && b.pattern == pattern
      && b.sourceRank == rank && b.sourceTag == tag
    case Collective(_, _, _) => a == b
  }

  /** No buffer that is held has a count of 0. */
  lemma HeldIsUsed(buffers: map<nat, VgBuffer>, unused: set<nat>, held: multiset<nat>, id: nat)
    requires Conserved(buffers, unused, held) && id in held
    ensures id in buffers && buffers[id].refCount > 0 && id !in unused
  {
  }

  // ---- all buffers of a global state, one after the other ---------------------------------------------

  function BuffersOf(r: Request): (ids: seq<nat>)
    ensures multiset(ids) == OfRequest(r)
  {
    if r.Collective? || r.buffer.None? then [] else [r.buffer.value]
  }

  function OfEach(es: seq<Entry>): (ids: seq<nat>) {
    if es == [] then [] else OfEach(es[..|es| - 1]) + BuffersOf(es[|es| - 1].request)
  }

  function OfEachFinished(rs: seq<Request>): (ids: seq<nat>) {
    if rs == [] then [] else OfEachFinished(rs[..|rs| - 1]) + BuffersOf(rs[|rs| - 1])
  }

  function OfEachProcess(ps: seq<Process>): (ids: seq<nat>) {
    if ps == [] then []
    else OfEachProcess(ps[..|ps| - 1]) + (OfEach(ps[|ps| - 1].active) + OfEachFinished(ps[|ps| - 1].finished))
  }

  function OfEachOperation(ops: seq<seq<nat>>): (ids: seq<nat>) {
    if ops == [] then [] else OfEachOperation(ops[..|ops| - 1]) + ops[|ops| - 1]
  }

  function AllBuffers(g: GlobalState): (ids: seq<nat>) {
    OfEachProcess(g.processes) + OfEachOperation(g.operations)
  }

  lemma {:induction false} OfEachIs(es: seq<Entry>)
    ensures multiset(OfEach(es)) == OfEntries(es)
  {
    if es != [] {
      var n := |es| - 1;
      OfEachIs(es[..n]);
      EntriesNext(es[..n], es[n]);
      assert es == es[..n] + [es[n]];
      var a, b := OfEach(es[..n]), BuffersOf(es[n].request);
      assert multiset(a + b) == multiset(a) + multiset(b);
    }
  }

  lemma {:induction false} OfEachFinishedIs(rs: seq<Request>)
    ensures multiset(OfEachFinished(rs)) == OfRequests(rs)
  {
    if rs != [] {
      var n := |rs| - 1;
      OfEachFinishedIs(rs[..n]);
      RequestsNext(rs[..n], rs[n]);
      assert rs == rs[..n] + [rs[n]];
      var a, b := OfEachFinished(rs[..n]), BuffersOf(rs[n]);
      assert multiset(a + b) == multiset(a) + multiset(b);
    }
  }

  lemma ProcessesNext(ps: seq<Process>, m: Process)
    ensures OfProcesses(ps + [m]) == OfProcesses(ps) + OfProcess(m)
  {
    var ms := seq(|ps|, i requires 0 <= i < |ps| => OfProcess(ps[i]));
    var more := ps + [m];
    assert seq(|more|, i requires 0 <= i < |more| => OfProcess(more[i])) == ms + [OfProcess(m)];
    SumNext(ms, OfProcess(m));
  }

  lemma OperationsNext(ops: seq<seq<nat>>, op: seq<nat>)
    ensures OfOperations(ops + [op]) == OfOperations(ops) + multiset(op)
  {
    var ms := seq(|ops|, i requires 0 <= i < |ops| => OfOperation(ops[i]));
    var more := ops + [op];
    assert seq(|more|, i requires 0 <= i < |more| => OfOperation(more[i])) == ms + [OfOperation(op)];
    SumNext(ms, OfOperation(op));
  }

  lemma OfNoProcess()
    ensures OfProcesses([]) == multiset{}
  {
    assert Sum([]) == multiset{};
  }

  lemma OfEachOneIs(m: Process)
    ensures multiset(OfEach(m.active) + OfEachFinished(m.finished)) == OfProcess(m)
  {
    OfEachIs(m.active);
    OfEachFinishedIs(m.finished);
  }

  lemma {:induction false} OfEachProcessIs(ps: seq<Process>)
    ensures multiset(OfEachProcess(ps)) == OfProcesses(ps)
  {
    hide OfProcesses, OfProcess, OfEach, OfEachFinished;
    if ps == [] {
      OfNoProcess();
    } else {
      var n := |ps| - 1;
      var before, own := OfEachProcess(ps[..n]), OfEach(ps[n].active) + OfEachFinished(ps[n].finished);
      OfEachProcessIs(ps[..n]);
      OfEachOneIs(ps[n]);
      ProcessesNext(ps[..n], ps[n]);
      assert ps == ps[..n] + [ps[n]];
      assert OfEachProcess(ps) == before + own;
      assert multiset(before + own) == multiset(before) + multiset(own);
    }
  }

  lemma {:induction false} OfEachOperationIs(ops: seq<seq<nat>>)
    ensures multiset(OfEachOperation(ops)) == OfOperations(ops)
  {
    if ops != [] {
      var n := |ops| - 1;
      OfEachOperationIs(ops[..n]);
      OperationsNext(ops[..n], ops[n]);
      assert ops == ops[..n] + [ops[n]];
    }
  }

  lemma AllBuffersAre(g: GlobalState)
    ensures multiset(AllBuffers(g)) == OfState(g)
  {
    OfEachProcessIs(g.processes);
    OfEachOperationIs(g.operations);
  }

  // ---- the lists of the processes ----------------------------------------------------------------------

  /** A pending send has its message, a pending receive has none yet. */
  predicate PendingOk(r: Request) {
    match r
    case Send(_, _, _, _, _, buffer) => buffer.Some?
    case Receive(_, _, _, _, buffer, _, _) => buffer.None?
    case Collective(_, _, _) => true
  }

  /** The pending requests of a process, all posted before number `posted`, are in the order of their posting. */
  ghost predicate ListsOk(m: Process, posted: nat) {
    Ordered(m.active) && forall e :: e in m.active ==> e.serial < posted && PendingOk(e.request)
  }

  ghost predicate StatesOk(live: seq<GlobalState>, posted: nat) {
    forall i, p :: 0 <= i < |live| && 0 <= p < |live[i].processes| ==> ListsOk(live[i].processes[p], posted)
  }

  lemma StatesUpdate(live: seq<GlobalState>, i: nat, p: nat, m: Process, before: nat, posted: nat)
    requires StatesOk(live, before) && before <= posted && i < |live| && p < |live[i].processes| && ListsOk(m, posted)
    ensures StatesOk(live[i := WithProcess(live[i], p, m)], posted)
  {
    var after := live[i := WithProcess(live[i], p, m)];
    forall j, k | 0 <= j < |after| && 0 <= k < |after[j].processes| ensures ListsOk(after[j].processes[k], posted) {
      if j != i || k != p {
        assert after[j].processes[k] == live[j].processes[k];
      }
    }
  }

  lemma ListsOfState(live: seq<GlobalState>, i: nat, p: nat, posted: nat)
    requires StatesOk(live, posted) && i < |live| && p < |live[i].processes|
    ensures ListsOk(live[i].processes[p], posted)
  {
  }

  lemma SameLists(m: Process, n: Process, posted: nat)
    requires ListsOk(m, posted) && n.active == m.active
    ensures ListsOk(n, posted)
  {
  }

  lemma ReceiveListsOk(m: Process, r: Entry, rank: nat, tag: nat, buffer: Option<nat>, posted: nat)
    requires ListsOk(m, posted) && r.request.Receive?
    ensures ListsOk(ReceiveDone(m, r, rank, tag, buffer), posted)
  {
    WithoutListsOk(m, r, ReceiveDone(m, r, rank, tag, buffer).finished, posted);
  }

  lemma SendListsOk(m: Process, s: Entry, posted: nat)
    requires ListsOk(m, posted) && s.request.Send?
    ensures ListsOk(SendDone(m, s), posted)
  {
    WithoutListsOk(m, s, SendDone(m, s).finished, posted);
  }

  lemma StatesMore(live: seq<GlobalState>, g: GlobalState, posted: nat)
    requires StatesOk(live, posted) && forall p :: 0 <= p < |g.processes| ==> ListsOk(g.processes[p], posted)
    ensures StatesOk(live + [g], posted)
  {
  }

  lemma StatesFewer(live: seq<GlobalState>, i: nat, posted: nat)
    requires StatesOk(live, posted) && i < |live|
    ensures StatesOk(live[..i] + live[i + 1..], posted)
  {
  }

  function EmptyState(n: nat): (g: GlobalState)
    ensures |g.processes| == n && forall p :: 0 <= p < n ==> g.processes[p] == Process([], [])
  {
    GlobalState(seq(n, _ => Process([], [])), [])
  }

  lemma {:induction false} EmptyHoldsNothing(n: nat)
    ensures OfState(EmptyState(n)) == multiset{}
  {
    if n == 0 {
      assert EmptyState(0).processes == [];
    } else {
      EmptyHoldsNothing(n - 1);
      assert EmptyState(n).processes == EmptyState(n - 1).processes + [Process([], [])];
      ProcessesNext(EmptyState(n - 1).processes, Process([], []));
    }
  }

  lemma SameSum(a: multiset<nat>, b: multiset<nat>, c: multiset<nat>)
    requires a + c == b + c
    ensures a == b
  {
    assert a == (a + c) - c && b == (b + c) - c;
  }

  /** What is held once a send with message `id` is posted. */
  lemma {:induction false} SentHolds(live: seq<GlobalState>, i: nat, p: nat, serial: nat, request: Request, id: nat)
    requires i < |live| && p < |live[i].processes| && request.Send?
    ensures PendingOk(WithBuffer(request, id))
    ensures OfAll(live[i := WithProcess(live[i], p, Post(live[i].processes[p], serial, WithBuffer(request, id)))]) ==
            if request.sendType == Rendezvous then OfAll(live) + multiset{id}
            else OfAll(live) + multiset{id} + multiset{id}
  {
    hide OfAll, OfProcess, Post;
    var m, sent, held := live[i].processes[p], WithBuffer(request, id), OfAll(live);
    PostHolds(m, serial, sent);
    ProcessHolds(live, i, p, Post(m, serial, sent));
    AddedTo(OfAll(live[i := WithProcess(live[i], p, Post(m, serial, sent))]), held, OfProcess(m),
            OfProcess(Post(m, serial, sent)),
            OfRequest(sent) + if request.sendType != Rendezvous then OfRequest(sent) else multiset{});
    assert held + (multiset{id} + multiset{id}) == held + multiset{id} + multiset{id};
    assert multiset{id} + multiset{} == multiset{id};
  }

  lemma StatesSame(live: seq<GlobalState>, i: nat, g: GlobalState, posted: nat)
    requires StatesOk(live, posted) && i < |live| && g.processes == live[i].processes
    ensures StatesOk(live[i := g], posted)
  {
  }

  lemma PostListsOk(m: Process, posted: nat, r: Request)
    requires ListsOk(m, posted) && PendingOk(r)
    ensures ListsOk(Post(m, posted, r), posted + 1)
  {
    assert forall e :: e in Post(m, posted, r).active <==> e in m.active || e == Entry(posted, r);
  }

  lemma WithoutListsOk(m: Process, e: Entry, finished: seq<Request>, posted: nat)
    requires ListsOk(m, posted)
    ensures ListsOk(Process(Without(m.active, {e}), finished), posted)
  {
    WithoutOrdered(m.active, {e});
    forall f ensures f in Without(m.active, {e}) <==> f in m.active && f !in {e} {
      WithoutMeans(m.active, {e}, f);
    }
  }

  /** When the last controller receives a buffer, the reference of its maker is dropped. */
  lemma {:induction false} ReceivedOnce(buffers: map<nat, VgBuffer>, unused: set<nat>, held: multiset<nat>, id: nat)
    requires Conserved(buffers, unused, held) && id in buffers && buffers[id].remaining > 0
    ensures var b := buffers[id];
            if b.remaining == 1 then
              && b.refCount > 0
              && Conserved(buffers[id := VgBuffer(b.refCount - 1, 0)],
                           if b.refCount - 1 < 1 then unused + {id} else unused, held)
            else Conserved(buffers[id := b.(remaining := b.remaining - 1)], unused, held)
  {
    var b := buffers[id];
    assert b.refCount == held[id] + 1;
    assert id !in unused;
  }

  /** What the steps of a run are about: the global states that are alive, how many controllers have still to receive
      each buffer, the buffers that are in use, and how many requests have been posted. */
  datatype Book = Book(live: seq<GlobalState>, waits: map<nat, nat>, used: set<nat>, posted: nat)

  ghost predicate IsRunOf(steps: seq<RunStep>, books: seq<Book>) {
    |books| == |steps| + 1 && forall k :: 0 <= k < |steps| ==> Done(steps[k], books[k], books[k + 1])
  }

  /** What a step does where it applies; elsewhere nothing. */
  ghost predicate Done(step: RunStep, a: Book, b: Book) {
    if !Applies(step, a) then b == a
    else
      match step
      case Starts(n) => OnlyLive(a, b, a.live + [EmptyState(n)])
      case Sends(i, p, request) => exists id :: PostsWith(a, b, i, p, request, id)
      case Receives(i, p, request) => b.waits == a.waits && Posts(a, b, i, p, WithoutMessage(request))
      case PostsNull(i, p, request) => OnlyProcess(a, b, i, p,
            Process(a.live[i].processes[p].active, a.live[i].processes[p].finished + [WithoutMessage(request)]))
      case Calls(i, p, request) => b.waits == a.waits && Posts(a, b, i, p, request)
      case Matches(i, p, r, q, s) => OnlyLive(a, b, a.live[i := GlobalState(
            Matched(a.live[i].processes, p, r, q, s), a.live[i].operations)])
      case Completes(i, p, e) => OnlyProcess(a, b, i, p, CollectiveDone(a.live[i].processes[p], e))
      case Closes(i, p, k) => OnlyProcess(a, b, i, p,
            Process(a.live[i].processes[p].active,
                    a.live[i].processes[p].finished[..k] + a.live[i].processes[p].finished[k + 1..]))
      case Forks(i) => OnlyLive(a, b, a.live + [a.live[i]])
      case Drops(i) => OnlyLive(a, b, a.live[..i] + a.live[i + 1..])
      case Opens(i) => OnlyLive(a, b, WithOperations(a.live, i, a.live[i].operations + [[]]))
      case Enters(i, k, n) => exists id :: EntersWith(a, b, i, k, n, id)
      case Finishes(i, k) => OnlyLive(a, b, WithOperations(a.live, i, a.live[i].operations[..k]
                                                                    + a.live[i].operations[k + 1..]))
      case Writes(id) => b.live == a.live && b.posted == a.posted && b.waits == a.waits[id := a.waits[id] - 1]
      case Frees =>
        b == a.(waits := map id | id in a.waits && id in a.used :: a.waits[id])
  }

  ghost predicate Applies(step: RunStep, a: Book) {
    match step
    case Starts(n) => true
    case Sends(i, p, request) => HasProcess(a, i, p) && request.Send?
    case Receives(i, p, request) => HasProcess(a, i, p) && request.Receive?
    case PostsNull(i, p, request) => HasProcess(a, i, p) && !request.Collective?
    case Calls(i, p, request) => HasProcess(a, i, p) && request.Collective?
    case Matches(i, p, r, q, s) =>
      && HasProcess(a, i, p) && r in a.live[i].processes[p].active && r.request.Receive?
      && HasProcess(a, i, q) && s in a.live[i].processes[q].active && s.request.Send?
    case Completes(i, p, e) => HasProcess(a, i, p) && e in a.live[i].processes[p].active && e.request.Collective?
    case Closes(i, p, k) => HasProcess(a, i, p) && k < |a.live[i].processes[p].finished|
    case Forks(i) => i < |a.live|
    case Drops(i) => i < |a.live|
    case Opens(i) => i < |a.live|
    case Enters(i, k, n) => i < |a.live| && k < |a.live[i].operations| && n > 0
    case Finishes(i, k) => i < |a.live| && k < |a.live[i].operations|
    case Writes(id) => id in a.waits && a.waits[id] > 0
    case Frees => true
  }

  ghost predicate HasProcess(a: Book, i: nat, p: nat) {
    i < |a.live| && p < |a.live[i].processes|
  }

  ghost predicate OnlyLive(a: Book, b: Book, live: seq<GlobalState>) {
    b.live == live && b.waits == a.waits && b.posted == a.posted
  }

  ghost predicate OnlyProcess(a: Book, b: Book, i: nat, p: nat, m: Process)
    requires HasProcess(a, i, p)
  {
    OnlyLive(a, b, a.live[i := WithProcess(a.live[i], p, m)])
  }

  /** The request gets the next number and joins the pending ones of its process. */
  ghost predicate Posts(a: Book, b: Book, i: nat, p: nat, request: Request)
    requires HasProcess(a, i, p)
  {
    b.posted == a.posted + 1
    && b.live == a.live[i := WithProcess(a.live[i], p, Post(a.live[i].processes[p], a.posted, request))]
  }

  /** A send is posted with a new message, which one controller has to receive. */
  ghost predicate PostsWith(a: Book, b: Book, i: nat, p: nat, request: Request, id: nat)
    requires HasProcess(a, i, p) && request.Send?
  {
    id !in a.waits && b.waits == a.waits[id := 1] && Posts(a, b, i, p, WithBuffer(request, id))
  }

  /** Somebody enters operation `k` with a new buffer for `n` controllers. */
  ghost predicate EntersWith(a: Book, b: Book, i: nat, k: nat, n: nat, id: nat)
    requires i < |a.live| && k < |a.live[i].operations|
  {
    && id !in a.waits && b.waits == a.waits[id := n] && b.posted == a.posted
    && b.live == WithOperations(a.live, i, a.live[i].operations[k := a.live[i].operations[k] + [id]])
  }

  function WithOperations(live: seq<GlobalState>, i: nat, operations: seq<seq<nat>>): seq<GlobalState>
    requires i < |live|
  {
    live[i := GlobalState(live[i].processes, operations)]
  }

  class BufferManager {
    var buffers: map<nat, VgBuffer>
    var unused: set<nat>
    var bufferIdCounter: nat
    /** The global states that are alive. */
    var live: seq<GlobalState>
    /** The number of requests that have been posted. */
    var posted: nat

    constructor ()
      ensures Valid() && live == [] && buffers == map[]
    {
      buffers, unused, bufferIdCounter, live, posted := map[], {}, 0, [], 0;
    }

    ghost predicate Fresh()
      reads this
    {
      forall id :: id in buffers ==> id < bufferIdCounter
    }

    ghost predicate Valid()
      reads this
    {
      Fresh() && Conserved(buffers, unused, OfAll(live)) && StatesOk(live, posted)
    }

    /** For each buffer, how many controllers have still to receive it. */
    ghost function Waits(): map<nat, nat>
      reads this`buffers
    {
      map id | id in buffers :: buffers[id].remaining
    }

    method IncRef(id: nat, ghost held: multiset<nat>)
      requires Fresh() && Conserved(buffers, unused, held) && id in buffers && buffers[id].refCount > 0
      modifies `buffers
      ensures Fresh() && Conserved(buffers, unused, held + multiset{id})
      ensures buffers.Keys == old(buffers).Keys && forall k :: k in buffers && k != id ==> buffers[k] == old(buffers)[k]
      ensures Waits() == old(Waits()) && buffers[id] == old(buffers)[id].(refCount := old(buffers)[id].refCount + 1)
    {
      buffers := buffers[id := buffers[id].(refCount := buffers[id].refCount + 1)];
    }

    method DecRef(id: nat, ghost held: multiset<nat>)
      requires Fresh() && Conserved(buffers, unused, held) && id in held
      modifies `buffers, `unused
      ensures Fresh() && Conserved(buffers, unused, held - multiset{id})
      ensures Waits() == old(Waits())
    {
      buffers := buffers[id := buffers[id].(refCount := buffers[id].refCount - 1)];
      if buffers[id].refCount < 1 {
        unused := unused + {id};
      }
    }

    /** A new buffer for `n` controllers; besides the reference of its maker it has one until all of them have received
        it. */
    method NewBuffer(n: nat, ghost held: multiset<nat>) returns (id: nat)
      requires n > 0 && Fresh() && Conserved(buffers, unused, held)
      modifies `buffers, `bufferIdCounter
      ensures Fresh() && Conserved(buffers, unused, held + multiset{id}) && id !in old(buffers)
      ensures id in buffers && buffers[id] == VgBuffer(2, n) && Waits() == old(Waits())[id := n]
    {
      id := bufferIdCounter;
      assert id !in held;
      bufferIdCounter := bufferIdCounter + 1;
      buffers := buffers[id := VgBuffer(2, n)];
    }

    /** One controller has received the buffer. */
    method WriteData(id: nat)
      requires Valid() && id in buffers && buffers[id].remaining > 0
      modifies `buffers, `unused
      ensures Valid() && Waits() == old(Waits())[id := old(buffers)[id].remaining - 1]
      ensures buffers.Keys == old(buffers).Keys && buffers[id].remaining == old(buffers)[id].remaining - 1
      ensures forall k :: k in buffers && k != id ==> buffers[k] == old(buffers)[k]
    {
      hide OfAll, Conserved;
      ReceivedOnce(buffers, unused, OfAll(live), id);
      var b := buffers[id];
      if b.remaining == 1 {
        buffers := buffers[id := VgBuffer(b.refCount - 1, 0)];
        if buffers[id].refCount < 1 {
          unused := unused + {id};
        }
      } else {
        buffers := buffers[id := b.(remaining := b.remaining - 1)];
      }
    }

    /** Frees the buffers without references. */
    method Cleanup()
      requires Valid()
      modifies `buffers, `unused
      ensures Valid() && unused == {}
      ensures forall id :: id in buffers <==> id in old(buffers) && old(buffers)[id].refCount > 0
      ensures forall id :: id in buffers ==> buffers[id] == old(buffers)[id]
    {
      hide OfAll;
      buffers := map id | id in buffers && id !in unused :: buffers[id];
      unused := {};
    }

    /** A send is posted with a new message; other sends than rendezvous ones are finished at once, and hold it
        twice. */
    method PostSend(i: nat, p: nat, request: Request) returns (id: nat)
      requires Valid() && i < |live| && p < |live[i].processes| && request.Send?
      modifies this
      ensures Valid() && id !in old(buffers) && Waits() == old(Waits())[id := 1] && posted == old(posted) + 1
      ensures live == old(live)[i := WithProcess(old(live)[i], p,
                                                 Post(old(live)[i].processes[p], old(posted), WithBuffer(request, id)))]
      ensures OnlyMessageDiffers(WithBuffer(request, id), request) && WithBuffer(request, id).buffer == Some(id)
    {
      hide OfAll, OfProcess, Conserved, StatesOk, ListsOk, Post, Waits;
      assert ListsOk(live[i].processes[p], posted) by { ListsOfState(live, i, p, posted); }
      ghost var held := OfAll(live);
      id := NewBuffer(1, held);
      if request.sendType != Rendezvous {
        NewIsUsed(buffers, unused, held + multiset{id}, id);
        IncRef(id, held + multiset{id});
      }
      var m := live[i].processes[p];
      var sent := WithBuffer(request, id);
      SentHolds(live, i, p, posted, request, id);
      PostListsOk(m, posted, sent);
      StatesUpdate(live, i, p, Post(m, posted, sent), posted, posted + 1);
      live, posted := live[i := WithProcess(live[i], p, Post(m, posted, sent))], posted + 1;
    }

    /** A receive is posted. */
    method PostReceive(i: nat, p: nat, request: Request)
      requires Valid() && i < |live| && p < |live[i].processes| && request.Receive?
      modifies `live, `posted
      ensures Valid() && posted == old(posted) + 1
      ensures live == old(live)[i := WithProcess(old(live)[i], p,
                                                 Post(old(live)[i].processes[p], old(posted), WithoutMessage(request)))]
      ensures OnlyMessageDiffers(WithoutMessage(request), request) && OfRequest(WithoutMessage(request)) == multiset{}
    {
      PostWithoutMessage(i, p, WithoutMessage(request));
    }

    /** A request of a collective call is posted. */
    method PostCollective(i: nat, p: nat, request: Request)
      requires Valid() && i < |live| && p < |live[i].processes| && request.Collective?
      modifies `live, `posted
      ensures Valid() && posted == old(posted) + 1
      ensures live == old(live)[i := WithProcess(old(live)[i], p,
                                                 Post(old(live)[i].processes[p], old(posted), request))]
    {
      PostWithoutMessage(i, p, request);
    }

    method PostWithoutMessage(i: nat, p: nat, request: Request)
      requires Valid() && i < |live| && p < |live[i].processes| && !request.Send? && PendingOk(request)
      modifies `live, `posted
      ensures Valid() && posted == old(posted) + 1
      ensures live == old(live)[i := WithProcess(old(live)[i], p,
                                                 Post(old(live)[i].processes[p], old(posted), request))]
    {
      hide OfAll, OfProcess, Conserved, StatesOk, ListsOk, Post;
      ghost var held := OfAll(live);
      var m := live[i].processes[p];
      var n := Post(m, posted, request);
      assert ListsOk(m, posted) by { ListsOfState(live, i, p, posted); }
      PostHolds(m, posted, request);
      ProcessHolds(live, i, p, n);
      AddedTo(OfAll(live[i := WithProcess(live[i], p, n)]), held, OfProcess(m), OfProcess(n), multiset{});
      assert OfAll(live[i := WithProcess(live[i], p, n)]) == held;
      PostListsOk(m, posted, request);
      StatesUpdate(live, i, p, n, posted, posted + 1);
      live, posted := live[i := WithProcess(live[i], p, n)], posted + 1;
    }

    /** A send to nobody or a receive from nobody is finished at once, without a message. */
    method PostNull(i: nat, p: nat, request: Request)
      requires Valid() && i < |live| && p < |live[i].processes| && !request.Collective?
      modifies `live
      ensures Valid()
      ensures var m := old(live)[i].processes[p];
              live == old(live)[i := WithProcess(old(live)[i], p,
                                                 Process(m.active, m.finished + [WithoutMessage(request)]))]
      ensures OnlyMessageDiffers(WithoutMessage(request), request) && OfRequest(WithoutMessage(request)) == multiset{}
    {
      hide OfAll, OfEntries, OfRequests, Conserved, StatesOk, ListsOk;
      ghost var held := OfAll(live);
      var m := live[i].processes[p];
      var n := Process(m.active, m.finished + [WithoutMessage(request)]);
      RequestsNext(m.finished, WithoutMessage(request));
      ProcessHolds(live, i, p, n);
      AddedTo(OfAll(live[i := WithProcess(live[i], p, n)]), held, OfProcess(m), OfProcess(n), multiset{});
      assert OfAll(live[i := WithProcess(live[i], p, n)]) == held;
      assert ListsOk(m, posted) by { ListsOfState(live, i, p, posted); }
      assert ListsOk(n, posted) by { SameLists(m, n, posted); }
      StatesUpdate(live, i, p, n, posted, posted);
      live := live[i := WithProcess(live[i], p, n)];
    }

    /** A collective request that can be completed is finished. */
    method FinishCollective(i: nat, p: nat, e: Entry)
      requires Valid() && i < |live| && p < |live[i].processes| && e in live[i].processes[p].active
               && e.request.Collective?
      modifies `live
      ensures Valid()
      ensures live == old(live)[i := WithProcess(old(live)[i], p, CollectiveDone(old(live)[i].processes[p], e))]
    {
      hide OfAll, OfEntries, OfRequests, Conserved, StatesOk, Without;
      ghost var held := OfAll(live);
      var m := live[i].processes[p];
      var n := CollectiveDone(m, e);
      assert ListsOk(m, posted) by { ListsOfState(live, i, p, posted); }
      EntriesWithout(m.active, e);
      RequestsNext(m.finished, e.request);
      ProcessHolds(live, i, p, n);
      AddedTo(OfAll(live[i := WithProcess(live[i], p, n)]), held, OfProcess(m), OfProcess(n), multiset{});
      assert OfAll(live[i := WithProcess(live[i], p, n)]) == held;
      WithoutListsOk(m, e, n.finished, posted);
      StatesUpdate(live, i, p, n, posted, posted);
      live := live[i := WithProcess(live[i], p, n)];
    }

    /** The receive of a match takes the message over. */
    method FinishReceive(i: nat, p: nat, r: Entry, rank: nat, tag: nat, b: nat)
      requires Valid() && i < |live| && p < |live[i].processes|
      requires r in live[i].processes[p].active && r.request.Receive? && b in OfAll(live)
      modifies this
      ensures Valid() && Waits() == old(Waits()) && posted == old(posted)
      ensures live == old(live)[i := WithProcess(old(live)[i], p,
                                                 ReceiveDone(old(live)[i].processes[p], r, rank, tag, Some(b)))]
    {
      hide OfAll, OfProcess, Conserved, StatesOk, ReceiveDone;
      assert ListsOk(live[i].processes[p], posted) by { ListsOfState(live, i, p, posted); }
      ghost var held := OfAll(live);
      HeldIsUsed(buffers, unused, held, b);
      IncRef(b, held);
      var m := live[i].processes[p];
      var received := ReceiveDone(m, r, rank, tag, Some(b));
      ReceiveHolds(m, r, rank, tag, b);
      ProcessHolds(live, i, p, received);
      AddedTo(OfAll(live[i := WithProcess(live[i], p, received)]), held, OfProcess(m), OfProcess(received),
              multiset{b});
      ReceiveListsOk(m, r, rank, tag, Some(b), posted);
      StatesUpdate(live, i, p, received, posted, posted);
      live := live[i := WithProcess(live[i], p, received)];
    }

    /** The send of a match lets go of the message, unless it is a rendezvous one, which is finished only now. */
    method FinishSend(i: nat, q: nat, s: Entry)
      requires Valid() && i < |live| && q < |live[i].processes| && s in live[i].processes[q].active && s.request.Send?
      modifies this
      ensures Valid() && Waits() == old(Waits()) && posted == old(posted)
      ensures live == old(live)[i := WithProcess(old(live)[i], q, SendDone(old(live)[i].processes[q], s))]
    {
      hide OfAll, Conserved, StatesOk, SendDone, Ordered;
      assert ListsOk(live[i].processes[q], posted) by { ListsOfState(live, i, q, posted); }
      var b := s.request.buffer.value;
      ghost var held := OfAll(live);
      ghost var after := SendLetsGo(live, i, q, s, b);
      if s.request.sendType != Rendezvous {
        DecRef(b, held);
      }
      SendListsOk(live[i].processes[q], s, posted);
      StatesUpdate(live, i, q, SendDone(live[i].processes[q], s), posted, posted);
      live := live[i := WithProcess(live[i], q, SendDone(live[i].processes[q], s))];
      assert OfAll(live) == after;
    }

    /** A match: first the receive, then the send; in between the message is held as well. */
    method ApplyMatching(i: nat, p: nat, r: Entry, q: nat, s: Entry)
      requires Valid() && i < |live| && p < |live[i].processes| && q < |live[i].processes|
      requires r in live[i].processes[p].active && r.request.Receive?
               && s in live[i].processes[q].active && s.request.Send?
      modifies this
      ensures Valid() && Waits() == old(Waits()) && posted == old(posted)
      ensures live == old(live)[i := GlobalState(Matched(old(live)[i].processes, p, r, q, s), old(live)[i].operations)]
    {
      hide OfAll, Conserved, StatesOk, ReceiveDone, SendDone, Matched, Without;
      assert ListsOk(live[i].processes[p], posted) by { ListsOfState(live, i, p, posted); }
      assert ListsOk(live[i].processes[q], posted) by { ListsOfState(live, i, q, posted); }
      var b := s.request.buffer.value;
      PendingIsHeld(live, i, q, s, b);
      ghost var ps := live[i].processes;
      FinishReceive(i, p, r, RankOf(s.request.comm, q), s.request.tag, b);
      StillPending(ps[p], r, RankOf(s.request.comm, q), s.request.tag, Some(b), s);
      assert s in live[i].processes[q].active;
      FinishSend(i, q, s);
      MatchedIs(ps, p, r, q, s);
    }

    method IncAll(ids: seq<nat>, ghost held: multiset<nat>)
      requires Fresh() && Conserved(buffers, unused, held) && multiset(ids) <= held
      modifies `buffers
      ensures Fresh() && Conserved(buffers, unused, held + multiset(ids)) && Waits() == old(Waits())
    {
      hide Conserved;
      assert held + multiset(ids[..0]) == held;
      for k := 0 to |ids|
        invariant Fresh() && Conserved(buffers, unused, held + multiset(ids[..k])) && Waits() == old(Waits())
      {
        assert ids[..k + 1] == ids[..k] + [ids[k]];
        assert ids[k] in multiset(ids);
        HeldIsUsed(buffers, unused, held + multiset(ids[..k]), ids[k]);
        IncRef(ids[k], held + multiset(ids[..k]));
        assert held + multiset(ids[..k]) + multiset{ids[k]} == held + multiset(ids[..k + 1]);
      }
      assert ids[..|ids|] == ids;
    }

    method DecAll(ids: seq<nat>, ghost held: multiset<nat>)
      requires Fresh() && Conserved(buffers, unused, held) && multiset(ids) <= held
      modifies `buffers, `unused
      ensures Fresh() && Conserved(buffers, unused, held - multiset(ids)) && Waits() == old(Waits())
    {
      hide Conserved;
      assert held - multiset(ids[..0]) == held;
      for k := 0 to |ids|
        invariant Fresh() && Conserved(buffers, unused, held - multiset(ids[..k])) && Waits() == old(Waits())
      {
        StillHeld(ids, k, held);
        DecRef(ids[k], held - multiset(ids[..k]));
      }
      assert ids[..|ids|] == ids;
    }

    /** A first global state of `n` processes, without requests. */
    method NewState(n: nat)
      requires Valid()
      modifies `live
      ensures Valid() && live == old(live) + [EmptyState(n)]
    {
      hide OfAll, Conserved, StatesOk;
      AllNext(live, EmptyState(n));
      EmptyHoldsNothing(n);
      assert OfAll(live) + multiset{} == OfAll(live);
      StatesMore(live, EmptyState(n), posted);
      live := live + [EmptyState(n)];
    }

    /** A copy of a global state holds what the original holds once more. */
    method Copy(i: nat)
      requires Valid() && i < |live|
      modifies this
      ensures Valid() && live == old(live) + [old(live)[i]] && Waits() == old(Waits()) && posted == old(posted)
    {
      hide OfAll, Conserved, StatesOk, AllBuffers;
      ghost var held := OfAll(live);
      AllBuffersAre(live[i]);
      AllRemove(live, i);
      IncAll(AllBuffers(live[i]), held);
      AllNext(live, live[i]);
      forall p | 0 <= p < |live[i].processes| ensures ListsOk(live[i].processes[p], posted) {
        ListsOfState(live, i, p, posted);
      }
      StatesMore(live, live[i], posted);
      live := live + [live[i]];
    }

    /** A global state that is disposed of lets go of all it holds. */
    method Dispose(i: nat)
      requires Valid() && i < |live|
      modifies this
      ensures Valid() && live == old(live)[..i] + old(live)[i + 1..] && Waits() == old(Waits()) && posted == old(posted)
    {
      hide OfAll, Conserved, StatesOk, AllBuffers;
      ghost var held := OfAll(live);
      AllBuffersAre(live[i]);
      AllRemove(live, i);
      DecAll(AllBuffers(live[i]), held);
      assert held - OfState(live[i]) == OfAll(live[..i] + live[i + 1..]);
      StatesFewer(live, i, posted);
      live := live[..i] + live[i + 1..];
    }

    /** A finished request is closed. */
    method RemoveFinishedRequest(i: nat, p: nat, k: nat)
      requires Valid() && i < |live| && p < |live[i].processes| && k < |live[i].processes[p].finished|
      modifies this
      ensures Valid() && Waits() == old(Waits()) && posted == old(posted)
      ensures var m := old(live)[i].processes[p];
              live == old(live)[i := WithProcess(old(live)[i], p,
                                                 Process(m.active, m.finished[..k] + m.finished[k + 1..]))]
    {
      hide OfAll, OfProcess, Conserved, StatesOk, ListsOk;
      ghost var held := OfAll(live);
      var m := live[i].processes[p];
      var n := Process(m.active, m.finished[..k] + m.finished[k + 1..]);
      ProcessHolds(live, i, p, n);
      FinishedRemoved(m, k);
      AddedTo(held, OfAll(live[i := WithProcess(live[i], p, n)]), OfProcess(n), OfProcess(m), OfRequest(m.finished[k]));
      DecAll(BuffersOf(m.finished[k]), held);
      assert held - OfRequest(m.finished[k]) == OfAll(live[i := WithProcess(live[i], p, n)]);
      assert ListsOk(m, posted) by { ListsOfState(live, i, p, posted); }
      assert ListsOk(n, posted) by { SameLists(m, n, posted); }
      StatesUpdate(live, i, p, n, posted, posted);
      live := live[i := WithProcess(live[i], p, n)];
    }

    /** A collective operation is begun; nobody has entered it yet. */
    method OpenOperation(i: nat)
      requires Valid() && i < |live|
      modifies `live
      ensures Valid() && live == old(live)[i := GlobalState(old(live)[i].processes, old(live)[i].operations + [[]])]
    {
      hide OfAll, OfOperations, Conserved, StatesOk;
      var g := GlobalState(live[i].processes, live[i].operations + [[]]);
      OperationsNext(live[i].operations, []);
      assert OfState(g) == OfState(live[i]);
      AllUpdate(live, i, g);
      SameSum(OfAll(live[i := g]), OfAll(live), OfState(g));
      StatesSame(live, i, g, posted);
      live := live[i := g];
    }

    /** A member of a communicator enters operation `k` with a buffer for `n` controllers. */
    method EnterOperation(i: nat, k: nat, n: nat) returns (id: nat)
      requires Valid() && i < |live| && k < |live[i].operations| && n > 0
      modifies this
      ensures Valid() && id !in old(buffers) && Waits() == old(Waits())[id := n] && posted == old(posted)
      ensures live == old(live)[i := GlobalState(old(live)[i].processes,
                                                 old(live)[i].operations[k := old(live)[i].operations[k] + [id]])]
    {
      hide OfAll, OfOperations, Conserved, StatesOk;
      ghost var held := OfAll(live);
      id := NewBuffer(n, held);
      var op := live[i].operations[k];
      var g := GlobalState(live[i].processes, live[i].operations[k := op + [id]]);
      OperationHolds(live, i, k, op + [id]);
      AddedTo(OfAll(live[i := g]), held, multiset(op), multiset(op + [id]), multiset{id});
      StatesSame(live, i, g, posted);
      live := live[i := g];
    }

    /** Operation `k` is finished: it leaves the list, and lets go of its buffers. */
    method FinishOperation(i: nat, k: nat)
      requires Valid() && i < |live| && k < |live[i].operations|
      modifies this
      ensures Valid() && Waits() == old(Waits()) && posted == old(posted)
      ensures live == old(live)[i := GlobalState(old(live)[i].processes,
                                                 old(live)[i].operations[..k] + old(live)[i].operations[k + 1..])]
    {
      hide OfAll, OfOperations, Conserved, StatesOk;
      ghost var held := OfAll(live);
      var op := live[i].operations[k];
      var g := GlobalState(live[i].processes, live[i].operations[..k] + live[i].operations[k + 1..]);
      OperationGone(live, i, k);
      DecAll(op, held);
      assert held - multiset(op) == OfAll(live[i := g]);
      StatesSame(live, i, g, posted);
      live := live[i := g];
    }

    ghost function AsBook(): Book
      reads this
    {
      Book(live, Waits(), (set id | id in buffers && buffers[id].refCount > 0), posted)
    }

    /** One step of a run; a step that does not apply does nothing. */
    method Do(step: RunStep)
      requires Valid()
      modifies this
      ensures Valid() && Done(step, old(AsBook()), AsBook())
    {
      hide Valid, Done, AsBook;
      match step {
        case Sends(_, _, _) => PostStep(step);
        case Receives(_, _, _) => PostStep(step);
        case PostsNull(_, _, _) => PostStep(step);
        case Calls(_, _, _) => PostStep(step);
        case Matches(_, _, _, _, _) => SettleStep(step);
        case Completes(_, _, _) => SettleStep(step);
        case Closes(_, _, _) => SettleStep(step);
        case _ => KeepStep(step);
      }
    }

    /** A step that posts a request. */
    method PostStep(step: RunStep)
      requires Valid() && (step.Sends? || step.Receives? || step.PostsNull? || step.Calls?)
      modifies this
      ensures Valid() && Done(step, old(AsBook()), AsBook())
    {
      hide Valid, Post, WithProcess, WithBuffer, WithoutMessage;
      match step {
        case Sends(i, p, request) =>
          if IsProcess(i, p) && request.Send? {
            ghost var before := AsBook();
            var id := PostSend(i, p, request);
            assert PostsWith(before, AsBook(), i, p, request, id);
          }
        case Receives(i, p, request) =>
          if IsProcess(i, p) && request.Receive? {
            PostReceive(i, p, request);
          }
        case PostsNull(i, p, request) =>
          if IsProcess(i, p) && !request.Collective? {
            PostNull(i, p, request);
          }
        case Calls(i, p, request) =>
          if IsProcess(i, p) && request.Collective? {
            PostCollective(i, p, request);
          }
      }
    }

    /** A step that matches, completes or closes requests. */
    method SettleStep(step: RunStep)
      requires Valid() && (step.Matches? || step.Completes? || step.Closes?)
      modifies this
      ensures Valid() && Done(step, old(AsBook()), AsBook())
    {
      hide Valid, Matched, CollectiveDone, WithProcess;
      match step {
        case Matches(i, p, r, q, s) =>
          if IsPending(i, p, r) && r.request.Receive? && IsPending(i, q, s) && s.request.Send? {
            ApplyMatching(i, p, r, q, s);
          }
        case Completes(i, p, e) =>
          if IsPending(i, p, e) && e.request.Collective? {
            FinishCollective(i, p, e);
          }
        case Closes(i, p, k) =>
          if IsProcess(i, p) && k < |live[i].processes[p].finished| {
            RemoveFinishedRequest(i, p, k);
          }
      }
    }

    /** A step that begins, copies or drops a global state, is about a collective operation, or about the buffers
        themselves. */
    method KeepStep(step: RunStep)
      requires Valid() && !step.Sends? && !step.Receives? && !step.PostsNull? && !step.Calls?
      requires !step.Matches? && !step.Completes? && !step.Closes?
      modifies this
      ensures Valid() && Done(step, old(AsBook()), AsBook())
    {
      hide Valid;
      match step {
        case Starts(n) => NewState(n);
        case Forks(i) =>
          if i < |live| {
            Copy(i);
          }
        case Drops(i) =>
          if i < |live| {
            Dispose(i);
          }
        case Opens(i) =>
          if i < |live| {
            OpenOperation(i);
          }
        case Enters(i, k, n) =>
          if i < |live| && k < |live[i].operations| && n > 0 {
            ghost var before := AsBook();
            var id := EnterOperation(i, k, n);
            assert EntersWith(before, AsBook(), i, k, n, id);
          }
        case Finishes(i, k) =>
          if i < |live| && k < |live[i].operations| {
            FinishOperation(i, k);
          }
        case Writes(id) =>
          if id in buffers && buffers[id].remaining > 0 {
            WriteData(id);
          }
        case Frees => Cleanup();
      }
    }

    predicate IsProcess(i: nat, p: nat)
      reads this
    {
      i < |live| && p < |live[i].processes|
    }

    predicate IsPending(i: nat, p: nat, e: Entry)
      reads this
    {
      IsProcess(i, p) && e in live[i].processes[p].active
    }

    /** Over every run the counts are exact; and when in the end all global states are disposed of and all controllers
        receive the buffers that they still wait for, every buffer is freed. */
    method Run(steps: seq<RunStep>) returns (ghost books: seq<Book>)
      requires Valid()
      modifies this
      ensures Valid() && live == [] && buffers == map[]
      ensures IsRunOf(steps, books) && books[0] == old(AsBook())
    {
      hide Valid, AsBook, Done;
      books := [AsBook()];
      for k := 0 to |steps|
        invariant Valid() && IsRunOf(steps[..k], books) && books[0] == old(AsBook()) && books[k] == AsBook()
      {
        Do(steps[k]);
        books := books + [AsBook()];
      }
      while live != []
        invariant Valid()
        decreases |live|
      {
        Dispose(|live| - 1);
      }
      DeliverAll();
      AllUnused();
      Cleanup();
    }

    /** Every controller receives the buffers that it still waits for. */
    method DeliverAll()
      requires Valid()
      modifies `buffers, `unused
      ensures Valid() && buffers.Keys == old(buffers).Keys && forall id :: id in buffers ==> buffers[id].remaining == 0
    {
      hide Valid;
      var ids := buffers.Keys;
      while ids != {}
        invariant Valid() && buffers.Keys == old(buffers).Keys && ids <= buffers.Keys
        invariant forall id :: id in buffers && id !in ids ==> buffers[id].remaining == 0
        decreases |ids|
      {
        ghost var some := Member(ids);
        var id :| id in ids;
        while buffers[id].remaining > 0
          invariant Valid() && buffers.Keys == old(buffers).Keys
          invariant forall k :: k in buffers && k !in ids ==> buffers[k].remaining == 0
          decreases buffers[id].remaining
        {
          WriteData(id);
        }
        ids := ids - {id};
      }
    }

    lemma AllUnused()
      requires Valid() && live == [] && forall id :: id in buffers ==> buffers[id].remaining == 0
      ensures forall id :: id in buffers ==> buffers[id].refCount == 0
    {
      NothingInUse();
    }

    /** The final check: once every global state is disposed of and every buffer has been received, nothing is in
        use. */
    lemma NothingInUse()
      requires Valid() && live == [] && forall id :: id in buffers ==> buffers[id].remaining == 0
      ensures unused == buffers.Keys
    {
      assert OfAll(live) == multiset{};
    }
  }

  /** The steps of a run, on global state `i` where they concern one: a first state is made, requests are posted,
      matched, completed and closed, operations are opened, entered and finished, states are copied and disposed of,
      buffers are received and freed. */
  datatype RunStep =
    | Starts(n: nat)
    | Sends(i: nat, p: nat, request: Request)
    | Receives(i: nat, p: nat, request: Request)
    | PostsNull(i: nat, p: nat, request: Request)
    | Calls(i: nat, p: nat, request: Request)
    | Matches(i: nat, p: nat, r: Entry, q: nat, s: Entry)
    | Completes(i: nat, p: nat, e: Entry)
    | Closes(i: nat, p: nat, k: nat)
    | Forks(i: nat)
    | Drops(i: nat)
    | Opens(i: nat)
    | Enters(i: nat, k: nat, n: nat)
    | Finishes(i: nat, k: nat)
    | Writes(id: nat)
    | Frees

  lemma StillHeld(ids: seq<nat>, k: nat, held: multiset<nat>)
    requires k < |ids| && multiset(ids) <= held
    ensures ids[k] in held - multiset(ids[..k])
    ensures held - multiset(ids[..k]) - multiset{ids[k]} == held - multiset(ids[..k + 1])
  {
    assert ids[..k + 1] == ids[..k] + [ids[k]];
    assert ids == ids[..k + 1] + ids[k + 1..];
    assert multiset(ids)[ids[k]] >= multiset(ids[..k])[ids[k]] + 1;
  }

  lemma FinishedRemoved(m: Process, k: nat)
    requires k < |m.finished|
    ensures OfProcess(m) == OfProcess(Process(m.active, m.finished[..k] + m.finished[k + 1..]))
            + OfRequest(m.finished[k])
  {
    var rs := m.finished;
    var ms := seq(|rs|, j requires 0 <= j < |rs| => OfRequest(rs[j]));
    var other := rs[..k] + rs[k + 1..];
    assert seq(|other|, j requires 0 <= j < |other| => OfRequest(other[j])) == ms[..k] + ms[k + 1..];
    SumRemove(ms, k);
    var e, f, x := OfEntries(m.active), OfRequests(other), OfRequest(rs[k]);
    assert e + (f + x) == (e + f) + x;
  }

  lemma OperationHolds(live: seq<GlobalState>, i: nat, k: nat, op: seq<nat>)
    requires i < |live| && k < |live[i].operations|
    ensures OfAll(live[i := GlobalState(live[i].processes, live[i].operations[k := op])])
            + multiset(live[i].operations[k]) ==
            OfAll(live) + multiset(op)
  {
    var g := live[i];
    var h := GlobalState(g.processes, g.operations[k := op]);
    AllUpdate(live, i, h);
    OperationsUpdate(g.operations, k, op);
    var a, b := OfAll(live[i := h]), OfAll(live);
    forall t: nat ensures (a + multiset(g.operations[k]))[t] == (b + multiset(op))[t] {
      assert (a + OfState(g))[t] == (b + OfState(h))[t];
      assert (OfOperations(h.operations) + multiset(g.operations[k]))[t] == (OfOperations(g.operations)
            + multiset(op))[t];
    }
  }

  lemma OperationGone(live: seq<GlobalState>, i: nat, k: nat)
    requires i < |live| && k < |live[i].operations|
    ensures OfAll(live) == OfAll(live[i := GlobalState(live[i].processes,
                                                       live[i].operations[..k] + live[i].operations[k + 1..])])
                           + multiset(live[i].operations[k])
  {
    var g := live[i];
    var h := GlobalState(g.processes, g.operations[..k] + g.operations[k + 1..]);
    AllUpdate(live, i, h);
    OperationsRemove(g.operations, k);
    var a, b := OfAll(live[i := h]), OfAll(live);
    forall t: nat ensures b[t] == (a + multiset(g.operations[k]))[t] {
      assert (a + OfState(g))[t] == (b + OfState(h))[t];
      assert OfOperations(g.operations)[t] == (OfOperations(h.operations) + multiset(g.operations[k]))[t];
    }
  }

  lemma {:induction false} SendLetsGo(live: seq<GlobalState>, i: nat, q: nat, s: Entry, b: nat)
        returns (after: multiset<nat>)
    requires i < |live| && q < |live[i].processes| && Ordered(live[i].processes[q].active)
    requires s in live[i].processes[q].active && s.request.Send? && s.request.buffer == Some(b)
    ensures b in OfAll(live) && after == OfAll(live[i := WithProcess(live[i], q, SendDone(live[i].processes[q], s))])
    ensures if s.request.sendType == Rendezvous then OfAll(live) == after else OfAll(live) - multiset{b} == after
  {
    hide OfAll, OfProcess, SendDone, Ordered;
    var held, m := OfAll(live), live[i].processes[q];
    var done := SendDone(m, s);
    after := OfAll(live[i := WithProcess(live[i], q, done)]);
    SendHolds(m, s, b);
    ProcessHolds(live, i, q, done);
    PendingIsHeld(live, i, q, s, b);
    var gone := if s.request.sendType == Rendezvous then multiset{} else multiset{b};
    AddedTo(held, after, OfProcess(done), OfProcess(m), gone);
    TakenFrom(held, after, gone);
  }

  function WithProcess(g: GlobalState, p: nat, m: Process): GlobalState
    requires p < |g.processes|
  {
    GlobalState(g.processes[p := m], g.operations)
  }

  lemma NewIsUsed(buffers: map<nat, VgBuffer>, unused: set<nat>, held: multiset<nat>, id: nat)
    requires Conserved(buffers, unused, held) && id in held
    ensures id in buffers && buffers[id].refCount > 0
  {
  }

  /** Replacing the lists of one process. */
  lemma ProcessHolds(live: seq<GlobalState>, i: nat, p: nat, m: Process)
    requires i < |live| && p < |live[i].processes|
    ensures OfAll(live[i := WithProcess(live[i], p, m)]) + OfProcess(live[i].processes[p]) == OfAll(live) + OfProcess(m)
  {
    var g := live[i];
    AllUpdate(live, i, WithProcess(g, p, m));
    ProcessesUpdate(g.processes, p, m);
    var a, b := OfAll(live[i := WithProcess(g, p, m)]), OfAll(live);
    forall t: nat ensures (a + OfProcess(g.processes[p]))[t] == (b + OfProcess(m))[t] {
      assert (a + OfState(g))[t] == (b + OfState(WithProcess(g, p, m)))[t];
      assert (OfProcesses(g.processes[p := m]) + OfProcess(g.processes[p]))[t] == (OfProcesses(g.processes)
            + OfProcess(m))[t];
    }
  }

  lemma AddedTo(a: multiset<nat>, b: multiset<nat>, x: multiset<nat>, y: multiset<nat>, d: multiset<nat>)
    requires a + x == b + y && y == x + d
    ensures a == b + d
  {
    forall t: nat ensures a[t] == (b + d)[t] {
      assert (a + x)[t] == (b + y)[t] && y[t] == (x + d)[t];
    }
  }

  lemma TakenFrom(a: multiset<nat>, b: multiset<nat>, d: multiset<nat>)
    requires a == b + d
    ensures a - d == b
    ensures d == multiset{} ==> a == b
  {
  }

  lemma InSum(ms: seq<multiset<nat>>, i: nat, x: nat)
    requires i < |ms| && x in ms[i]
    ensures x in Sum(ms)
  {
    SumRemove(ms, i);
  }

  lemma EntryIsHeld(es: seq<Entry>, e: Entry, b: nat)
    requires e in es && b in OfRequest(e.request)
    ensures b in OfEntries(es)
  {
    var k :| 0 <= k < |es| && es[k] == e;
    InSum(seq(|es|, i requires 0 <= i < |es| => OfRequest(es[i].request)), k, b);
  }

  lemma ProcessIsHeld(ps: seq<Process>, q: nat, b: nat)
    requires q < |ps| && b in OfProcess(ps[q])
    ensures b in OfProcesses(ps)
  {
    InSum(seq(|ps|, i requires 0 <= i < |ps| => OfProcess(ps[i])), q, b);
  }

  lemma StateIsHeld(live: seq<GlobalState>, i: nat, b: nat)
    requires i < |live| && b in OfState(live[i])
    ensures b in OfAll(live)
  {
    InSum(seq(|live|, i requires 0 <= i < |live| => OfState(live[i])), i, b);
  }

  /** The message of a pending send is held. */
  lemma {:induction false} PendingIsHeld(live: seq<GlobalState>, i: nat, q: nat, s: Entry, b: nat)
    requires i < |live| && q < |live[i].processes| && s in live[i].processes[q].active
             && OfRequest(s.request) == multiset{b}
    ensures b in OfAll(live)
  {
    hide OfAll, OfProcesses, OfEntries;
    EntryIsHeld(live[i].processes[q].active, s, b);
    ProcessIsHeld(live[i].processes, q, b);
    StateIsHeld(live, i, b);
  }

  lemma {:induction false} StillPending(m: Process, r: Entry, rank: nat, tag: nat, buffer: Option<nat>, s: Entry)
    requires r.request.Receive? && s.request.Send? && Ordered(m.active)
    ensures s in ReceiveDone(m, r, rank, tag, buffer).active <==> s in m.active
    ensures Ordered(ReceiveDone(m, r, rank, tag, buffer).active)
  {
    WithoutMeans(m.active, {r}, s);
    WithoutOrdered(m.active, {r});
  }

  lemma MatchedIs(ps: seq<Process>, p: nat, r: Entry, q: nat, s: Entry)
    requires p < |ps| && q < |ps| && r.request.Receive? && s.request.Send?
    ensures var ps1 := ps[p := ReceiveDone(ps[p], r, RankOf(s.request.comm, q), s.request.tag, s.request.buffer)];
            Matched(ps, p, r, q, s) == ps1[q := SendDone(ps1[q], s)]
  {
  }

  /** Were the send handled first, the count of the message would come down to 0 exactly when nothing but the pending
      send holds it: not a finished copy, and no controller that still has to receive it. */
  lemma SendFirstFrees(buffers: map<nat, VgBuffer>, unused: set<nat>, held: multiset<nat>, b: nat)
    requires Conserved(buffers, unused, held) && b in held
    ensures buffers[b].refCount - 1 == 0 <==> held[b] == 1 && buffers[b].remaining == 0
  {
  }
}
