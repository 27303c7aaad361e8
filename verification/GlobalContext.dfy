/** The search for matches, and the fast expansion of a global state: all steps that leave no choice. */
module GlobalContext {
  import opened MemoryTypes
  import opened Requests
  import opened Matching

  /** A match: receive of process `target`, message of process `source`. */
  datatype Pair = Pair(source: nat, send: Entry, target: nat, receive: Entry)

  /** Processes that requests name exist; requests without partner are never pending. */
  ghost predicate PidsOk(ps: seq<Process>) {
    forall p, e :: 0 <= p < |ps| && e in ps[p].active ==> PidOk(|ps|, e.request)
  }

  ghost predicate PidOk(n: nat, r: Request) {
    match r
    case Receive(_, comm, source, _, _, _, _) =>
      source == AnySource || (source.FromRank? && PidOf(comm, source.rank).Some? && PidOf(comm, source.rank).value < n)
    case Send(_, _, comm, target, _, _) => PidOf(comm, target).Some? && PidOf(comm, target).value < n
    case Collective(_, _, _) => true
  }

  ghost predicate ProcessesOk(ps: seq<Process>) {
    AllOrdered(ps) && PidsOk(ps)
  }

  class State {
    const pid: nat
    var activeRequests: seq<Entry>
    var finishedRequests: seq<Request>

    constructor (pid: nat, active: seq<Entry>, finished: seq<Request>)
      ensures this.pid == pid && activeRequests == active && finishedRequests == finished
    {
      this.pid, activeRequests, finishedRequests := pid, active, finished;
    }

    function AsProcess(): Process
      reads this
    {
      Process(activeRequests, finishedRequests)
    }

    method FinishReceiveRequest(r: Entry, rank: nat, tag: nat, buffer: Option<nat>)
      requires r.request.Receive?
      modifies this
      ensures AsProcess() == ReceiveDone(old(AsProcess()), r, rank, tag, buffer)
    {
      activeRequests := Without(activeRequests, {r});
      finishedRequests := finishedRequests + [FinishedReceive(r.request, rank, tag, buffer)];
    }

    method FinishSendRequest(s: Entry)
      requires s.request.Send?
      modifies this
      ensures AsProcess() == SendDone(old(AsProcess()), s)
    {
      activeRequests := Without(activeRequests, {s});
      if s.request.sendType == Rendezvous {
        finishedRequests := finishedRequests + [s.request];
      }
    }

    method FinishCollectiveRequest(e: Entry)
      modifies this
      ensures AsProcess() == CollectiveDone(old(AsProcess()), e)
    {
      activeRequests := Without(activeRequests, {e});
      finishedRequests := finishedRequests + [e.request];
    }
  }

  ghost function ProcessesOf(states: seq<State>): (ps: seq<Process>)
    reads states
    ensures |ps| == |states| && forall p :: 0 <= p < |states| ==> ps[p] == states[p].AsProcess()
  {
    if states == [] then [] else ProcessesOf(states[..|states| - 1]) + [states[|states| - 1].AsProcess()]
  }

  lemma NotCertain(ps: seq<Process>, p: nat, i: nat, j: nat)
    requires p < |ps| && Ordered(ps[p].active) && j < i < |ps[p].active|
    requires Suppressed(ps[p].active[i].request, ps[p].active[j].request)
    ensures !Unsuppressed(ps, p, ps[p].active[i])
  {
    assert ps[p].active[j] in ps[p].active;
  }

  lemma IsUnsuppressed(ps: seq<Process>, p: nat, i: nat)
    requires p < |ps| && Ordered(ps[p].active) && i < |ps[p].active|
    requires forall j :: 0 <= j < i ==> !Suppressed(ps[p].active[i].request, ps[p].active[j].request)
    ensures Unsuppressed(ps, p, ps[p].active[i])
  {
    forall e | e in ps[p].active && e.serial < ps[p].active[i].serial
          ensures !Suppressed(ps[p].active[i].request, e.request) {
      var j :| 0 <= j < |ps[p].active| && ps[p].active[j] == e;
    }
  }

  class GlobalContext {
    const states: seq<State>

    ghost predicate Distinct() {
      forall p, q :: 0 <= p < q < |states| ==> states[p] != states[q]
    }

    ghost function Processes(): (ps: seq<Process>)
      reads states
      ensures |ps| == |states| && forall p :: 0 <= p < |states| ==> ps[p] == states[p].AsProcess()
    {
      ProcessesOf(states)
    }

    /** Whether an earlier receive stands in the way of the `i`-th request. */
    method IsSuppressed(p: nat, i: nat) returns (b: bool)
      requires p < |states| && i < |states[p].activeRequests| && ProcessesOk(Processes())
      ensures b <==> !Unsuppressed(Processes(), p, states[p].activeRequests[i])
    {
      var es := states[p].activeRequests;
      for j := 0 to i
        invariant forall k :: 0 <= k < j ==> !Suppressed(es[i].request, es[k].request)
      {
        if Suppressed(es[i].request, es[j].request) {
          NotCertain(Processes(), p, i, j);
          return true;
        }
      }
      IsUnsuppressed(Processes(), p, i);
      b := false;
    }

    /** The first message of process `q` that a receive of process `p` asks for. */
    method FindMessage(p: nat, r: Entry, q: nat) returns (s: Option<Entry>)
      requires p < |states| && q < |states| && ProcessesOk(Processes())
      ensures s.Some? ==> FirstMessage(Processes(), p, r, q, s.value)
      ensures s.None? ==> forall e :: e in states[q].activeRequests ==> !Accepts(r.request, e.request, q, p)
    {
      var es := states[q].activeRequests;
      for k := 0 to |es|
        invariant forall j :: 0 <= j < k ==> !Accepts(r.request, es[j].request, q, p)
      {
        if Accepts(r.request, es[k].request, q, p) {
          return Some(es[k]);
        }
      }
      s := None;
    }

    /** The deterministic match of a process, if it has one. */
    method FindDeterministicMatchOf(p: nat) returns (m: Option<Pair>)
      requires p < |states| && ProcessesOk(Processes())
      ensures m.Some? ==> m.value.target == p && Deterministic(Processes(), p, m.value.receive, m.value.source,
                                                               m.value.send)
      ensures m.None? ==> forall r, q, s :: !Certain(Processes(), p, r, q, s)
    {
      hide Accepts, Suppressed, ProcessesOf;
      ghost var ps := Processes();
      var es := states[p].activeRequests;
      for i := 0 to |es|
        invariant forall j, q, s :: 0 <= j < i ==> !Certain(ps, p, es[j], q, s)
      {
        var r := es[i];
        if r.request.Receive? && r.request.source != AnySource {
          var suppressed := IsSuppressed(p, i);
          if !suppressed {
            assert PidOk(|ps|, r.request);
            var q := PidOf(r.request.comm, r.request.source.rank).value;
            var s := FindMessage(p, r, q);
            if s.Some? {
              FirstIsDeterministic(ps, p, i, q, s.value);
              return Some(Pair(q, s.value, p, r));
            }
          }
        }
      }
      m := None;
      forall r, q, s ensures !Certain(ps, p, r, q, s) {
        if r in es {
          var j :| 0 <= j < |es| && es[j] == r;
        }
      }
    }

    method FindDeterministicMatch() returns (m: Option<Pair>)
      requires ProcessesOk(Processes())
      ensures m.Some? ==> Deterministic(Processes(), m.value.target, m.value.receive, m.value.source, m.value.send)
      ensures m.Some? ==>
                m.value.receive.request.Receive? && m.value.receive.request.source.FromRank?
                && Meets(m.value.receive.request, m.value.send.request, m.value.source, m.value.target)
      ensures m.None? ==> Settled(Processes()) && NoneMeets(Processes())
    {
      CertainMeets(Processes());
      hide Certain, ProcessesOk, ProcessesOf, Meets, NoneMeets;
      for p := 0 to |states|
        invariant forall k: nat, r, q, s :: k < p ==> !Certain(Processes(), k, r, q, s)
      {
        m := FindDeterministicMatchOf(p);
        if m.Some? {
          return;
        }
      }
      m := None;
      OutsideNotCertain(Processes());
    }

    /** One message of each process for every unsuppressed receive from any source. */
    method FindNondeterministicMatchesOf(p: nat) returns (ms: set<Pair>)
      requires p < |states| && ProcessesOk(Processes())
      ensures forall m :: m in ms <==> m.target == p && Possible(Processes(), p, m.receive, m.source, m.send)
      ensures forall m :: m in ms ==> Meets(m.receive.request, m.send.request, m.source, p)
    {
      hide Accepts, Suppressed, ProcessesOf, FirstMessage, Unsuppressed, Meets;
      ghost var ps := Processes();
      var es := states[p].activeRequests;
      ms := {};
      for i := 0 to |es|
        invariant forall m :: m in ms <==>
            m.target == p && m.receive in es[..i] && Possible(ps, p, m.receive, m.source, m.send)
      {
        assert es[..i + 1] == es[..i] + [es[i]];
        var r := es[i];
        if r.request.Receive? && r.request.source == AnySource {
          var suppressed := IsSuppressed(p, i);
          if !suppressed {
            var found := FindMessages(p, r);
            ms := ms + found;
          }
        }
      }
      assert es[..|es|] == es;
      forall m | m in ms ensures Meets(m.receive.request, m.send.request, m.source, p) {
        PossibleMeets(ps, p, m.receive);
      }
    }

    method FindMessages(p: nat, r: Entry) returns (ms: set<Pair>)
      requires p < |states| && ProcessesOk(Processes())
      ensures forall m :: m in ms <==>
          m.target == p && m.receive == r && m.source < |states| && FirstMessage(Processes(), p, r, m.source, m.send)
    {
      hide Accepts, ProcessesOf, FirstMessage;
      ms := {};
      for q := 0 to |states|
        invariant forall m :: m in ms <==>
            m.target == p && m.receive == r && m.source < q && FirstMessage(Processes(), p, r, m.source, m.send)
      {
        var s := FindMessage(p, r, q);
        if s.Some? {
          OneFirstMessage(Processes(), p, r, q, s.value);
          ms := ms + {Pair(q, s.value, p, r)};
        } else {
          NoFirstMessage(Processes(), p, r, q);
        }
      }
    }

    /** The receive takes over the message before the send gives it up. */
    method ApplyMatching(m: Pair)
      requires Distinct() && m.source < |states| && m.target < |states| && m.receive.request.Receive?
               && m.send.request.Send?
      modifies states
      ensures Processes() == Matched(old(Processes()), m.target, m.receive, m.source, m.send)
    {
      hide Without, ProcessesOf, ReceiveDone, SendDone;
      ghost var ps := Processes();
      states[m.target].FinishReceiveRequest(m.receive, RankOf(m.send.request.comm, m.source), m.send.request.tag,
                                            m.send.request.buffer);
      ghost var ps1 := Processes();
      assert ps1 == ps[m.target := ps1[m.target]];
      states[m.source].FinishSendRequest(m.send);
      assert Processes() == ps1[m.source := Processes()[m.source]];
    }

    /** Finishes the first collective request that can be. */
    method CheckCollectiveRequests(completable: (nat, Request) -> bool)
          returns (done: bool, ghost p: nat, ghost e: Entry)
      requires Distinct()
      modifies states
      ensures done ==>
          Completes(old(Processes()), completable, p, e)
          && Processes() == old(Processes())[p := CollectiveDone(old(Processes())[p], e)]
      ensures !done ==> Processes() == old(Processes()) && forall q, f :: !Completes(Processes(), completable, q, f)
    {
      hide ProcessesOf, CollectiveDone;
      ghost var ps := Processes();
      for k := 0 to |states|
        invariant Processes() == ps
        invariant forall q: nat, f :: q < k ==> !Completes(ps, completable, q, f)
      {
        var es := states[k].activeRequests;
        for i := 0 to |es|
          invariant Processes() == ps && es == ps[k].active
          invariant forall j :: 0 <= j < i ==> !Completes(ps, completable, k, es[j])
        {
          if es[i].request.Collective? && completable(k, es[i].request) {
            states[k].FinishCollectiveRequest(es[i]);
            assert Processes() == ps[k := Processes()[k]];
            return true, k, es[i];
          }
        }
        forall f ensures !Completes(ps, completable, k, f) {
          if f in es {
            var j :| 0 <= j < |es| && es[j] == f;
          }
        }
      }
      done, p, e := false, 0, Entry(0, Collective(0, Comm(0, []), 0));
    }

    /** The loop of the fast expansion: it applies deterministic matches and finishes collective requests until neither
        is left. Every round takes at least one request out of the lists. */
    method MatchAndComplete(completable: (nat, Request) -> bool) returns (ghost chain: seq<seq<Process>>)
      requires Distinct() && ProcessesOk(Processes())
      modifies states
      ensures ProcessesOk(Processes()) && Settled(Processes())
      ensures forall p, e :: !Completes(Processes(), completable, p, e)
      ensures IsChain(completable, chain) && chain[0] == old(Processes()) && chain[|chain| - 1] == Processes()
    {
      hide ProcessesOf, ProcessesOk, Matched, CollectiveDone, Completes, Deterministic, Settled, PendingCount;
      chain := [Processes()];
      while true
        invariant ProcessesOk(Processes())
        invariant IsChain(completable, chain) && chain[0] == old(Processes()) && chain[|chain| - 1] == Processes()
        decreases PendingCount(Processes())
      {
        ghost var ps := Processes();
        var m := FindDeterministicMatch();
        if m.Some? {
          MatchOk(ps, m.value);
          ApplyMatching(m.value);
          ChainNext(completable, chain, Processes());
          chain := chain + [Processes()];
          continue;
        }
        var done;
        ghost var p, e;
        done, p, e := CheckCollectiveRequests(completable);
        if done {
          CompletionOk(ps, completable, p, e);
          ChainNext(completable, chain, Processes());
          chain := chain + [Processes()];
          continue;
        }
        return;
      }
    }
  }

  lemma OutsideNotCertain(ps: seq<Process>)
    requires forall k: nat, r, q, s :: k < |ps| ==> !Certain(ps, k, r, q, s)
    ensures Settled(ps)
  {
  }

  lemma OneFirstMessage(ps: seq<Process>, p: nat, r: Entry, q: nat, s: Entry)
    requires p < |ps| && q < |ps| && Ordered(ps[q].active) && FirstMessage(ps, p, r, q, s)
    ensures forall e :: FirstMessage(ps, p, r, q, e) <==> e == s
  {
    forall e | FirstMessage(ps, p, r, q, e) ensures e == s {
      var i :| 0 <= i < |ps[q].active| && ps[q].active[i] == e;
      var j :| 0 <= j < |ps[q].active| && ps[q].active[j] == s;
      assert e.serial == s.serial;
    }
  }

  lemma NoFirstMessage(ps: seq<Process>, p: nat, r: Entry, q: nat)
    requires p < |ps| && q < |ps| && forall e :: e in ps[q].active ==> !Accepts(r.request, e.request, q, p)
    ensures forall e :: !FirstMessage(ps, p, r, q, e)
  {
  }

  /** Request `e` of process `p` is collective, and its operation can be completed. */
  ghost predicate Completes(ps: seq<Process>, completable: (nat, Request) -> bool, p: nat, e: Entry) {
    p < |ps| && e in ps[p].active && e.request.Collective? && completable(p, e.request)
  }

  /** One round of the fast expansion. */
  ghost predicate Round(completable: (nat, Request) -> bool, ps: seq<Process>, ps': seq<Process>) {
    || (exists p, r, q, s :: Deterministic(ps, p, r, q, s) && ps' == Matched(ps, p, r, q, s))
    || (exists p: nat, e :: Completes(ps, completable, p, e) && ps' == ps[p := CollectiveDone(ps[p], e)])
  }

  ghost predicate IsChain(completable: (nat, Request) -> bool, chain: seq<seq<Process>>) {
    |chain| > 0 && forall i :: 0 <= i < |chain| - 1 ==> Round(completable, chain[i], chain[i + 1])
  }

  lemma ChainNext(completable: (nat, Request) -> bool, chain: seq<seq<Process>>, ps: seq<Process>)
    requires IsChain(completable, chain) && Round(completable, chain[|chain| - 1], ps)
    ensures IsChain(completable, chain + [ps])
  {
    var c := chain + [ps];
    forall i | 0 <= i < |c| - 1 ensures Round(completable, c[i], c[i + 1]) {
      if i < |chain| - 1 {
        assert Round(completable, chain[i], chain[i + 1]);
      }
    }
  }

  /** The number of pending requests. */
  ghost function PendingCount(ps: seq<Process>): nat {
    if ps == [] then 0 else PendingCount(ps[..|ps| - 1]) + |ps[|ps| - 1].active|
  }

  lemma {:induction false} PendingCountLess(ps: seq<Process>, ps': seq<Process>, p: nat)
    requires |ps| == |ps'| && p < |ps| && forall x :: 0 <= x < |ps| ==> |ps'[x].active| <= |ps[x].active|
    ensures PendingCount(ps') <= PendingCount(ps)
    ensures |ps'[p].active| < |ps[p].active| ==> PendingCount(ps') < PendingCount(ps)
    decreases |ps|
  {
    var n := |ps| - 1;
    if n > 0 {
      PendingCountLess(ps[..n], ps'[..n], if p < n then p else 0);
    }
  }

  lemma {:induction false} MatchOk(ps: seq<Process>, m: Pair)
    requires ProcessesOk(ps) && Deterministic(ps, m.target, m.receive, m.source, m.send)
    ensures m.source < |ps| && m.target < |ps| && m.receive.request.Receive? && m.send.request.Send?
    ensures ProcessesOk(Matched(ps, m.target, m.receive, m.source, m.send))
    ensures PendingCount(Matched(ps, m.target, m.receive, m.source, m.send)) < PendingCount(ps)
  {
    CertainMeans(ps, m.target, m.receive, m.source, m.send);
    hide Matched, PendingCount, Accepts, Suppressed;
    var ps' := Matched(ps, m.target, m.receive, m.source, m.send);
    MatchedLength(ps, m.target, m.receive, m.source, m.send);
    forall x: nat | x < |ps|
      ensures Ordered(ps'[x].active) && |ps'[x].active| <= |ps[x].active|
      ensures x == m.target ==> |ps'[x].active| < |ps[x].active|
      ensures forall e :: e in ps'[x].active ==> e in ps[x].active
    {
      var gone := Gone(m.target, m.receive, m.source, m.send, x);
      MatchedAt(ps, m.target, m.receive, m.source, m.send, x);
      WithoutOrdered(ps[x].active, gone);
      WithoutSize(ps[x].active, gone);
      forall e ensures e in Without(ps[x].active, gone) ==> e in ps[x].active {
        WithoutMeans(ps[x].active, gone, e);
      }
    }
    PendingCountLess(ps, ps', m.target);
  }

  lemma {:induction false} CompletionOk(ps: seq<Process>, completable: (nat, Request) -> bool, p: nat, e: Entry)
    requires ProcessesOk(ps) && Completes(ps, completable, p, e)
    ensures ProcessesOk(ps[p := CollectiveDone(ps[p], e)])
    ensures PendingCount(ps[p := CollectiveDone(ps[p], e)]) < PendingCount(ps)
  {
    hide Without, PendingCount;
    var ps' := ps[p := CollectiveDone(ps[p], e)];
    WithoutOrdered(ps[p].active, {e});
    WithoutSize(ps[p].active, {e});
    forall f ensures f in Without(ps[p].active, {e}) ==> f in ps[p].active {
      WithoutMeans(ps[p].active, {e}, f);
    }
    PendingCountLess(ps, ps', p);
  }

  lemma FirstIsDeterministic(ps: seq<Process>, p: nat, i: nat, q: nat, s: Entry)
    requires p < |ps| && Ordered(ps[p].active) && i < |ps[p].active| && Certain(ps, p, ps[p].active[i], q, s)
    requires forall j, q', s' :: 0 <= j < i ==> !Certain(ps, p, ps[p].active[j], q', s')
    ensures Deterministic(ps, p, ps[p].active[i], q, s)
  {
    forall e, q', s' | Certain(ps, p, e, q', s') ensures ps[p].active[i].serial <= e.serial {
      var j :| 0 <= j < |ps[p].active| && ps[p].active[j] == e;
    }
  }
}
