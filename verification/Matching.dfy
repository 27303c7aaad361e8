/** The matching of sends and receives. */
module Matching {
  import opened MemoryTypes
  import opened Requests

  /** The lists of a process. */
  datatype Process = Process(active: seq<Entry>, finished: seq<Request>)

  /** Requests are listed in the order of their posting. */
  ghost predicate Ordered(es: seq<Entry>) {
    forall j, k :: 0 <= j < k < |es| ==> es[j].serial < es[k].serial
  }

  ghost predicate AllOrdered(ps: seq<Process>) {
    forall p :: 0 <= p < |ps| ==> Ordered(ps[p].active)
  }

  ghost predicate IsReceive(ps: seq<Process>, p: nat, r: Entry) {
    p < |ps| && r in ps[p].active && r.request.Receive?
  }

  /** No earlier receive of the process stands in the way. */
  ghost predicate Unsuppressed(ps: seq<Process>, p: nat, r: Entry)
    requires p < |ps|
  {
    forall e :: e in ps[p].active && e.serial < r.serial ==> !Suppressed(r.request, e.request)
  }

  /** The earliest message of process `q` that receive `r` of process `p` asks for. */
  ghost predicate FirstMessage(ps: seq<Process>, p: nat, r: Entry, q: nat, s: Entry)
    requires p < |ps| && q < |ps|
  {
    && s in ps[q].active && Accepts(r.request, s.request, q, p)
    && forall e :: e in ps[q].active && e.serial < s.serial ==> !Accepts(r.request, e.request, q, p)
  }

  /** A match that leaves no choice: the receive names its source. */
  ghost predicate Certain(ps: seq<Process>, p: nat, r: Entry, q: nat, s: Entry) {
    && IsReceive(ps, p, r) && q < |ps|
    && r.request.source.FromRank? && PidOf(r.request.comm, r.request.source.rank) == Some(q)
    && Unsuppressed(ps, p, r) && FirstMessage(ps, p, r, q, s)
  }

  /** The certain match of the earliest receive that has one. */
  ghost predicate Deterministic(ps: seq<Process>, p: nat, r: Entry, q: nat, s: Entry) {
    && Certain(ps, p, r, q, s)
    && forall e, q', s' :: Certain(ps, p, e, q', s') ==> r.serial <= e.serial
  }

  /** A match of a receive from any source, when no certain match is left. */
  ghost predicate Possible(ps: seq<Process>, p: nat, r: Entry, q: nat, s: Entry) {
    && IsReceive(ps, p, r) && q < |ps| && r.request.source == AnySource
    && Unsuppressed(ps, p, r) && FirstMessage(ps, p, r, q, s)
  }

  ghost predicate Settled(ps: seq<Process>) {
    forall p: nat, r, q, s :: !Certain(ps, p, r, q, s)
  }

  /** What two processes have to do with each other when a match is certain, and what there is when none is. */
  lemma {:induction false} CertainMeets(ps: seq<Process>)
    ensures forall p, r, q, s :: Certain(ps, p, r, q, s) ==>
              r.request.Receive? && r.request.source.FromRank? && Meets(r.request, s.request, q, p)
    ensures Settled(ps) ==> NoneMeets(ps)
  {
    forall p, r, q, s | Certain(ps, p, r, q, s)
      ensures r.request.Receive? && r.request.source.FromRank? && Meets(r.request, s.request, q, p)
    {
      AcceptsMeans(r.request, s.request, q, p);
    }
    if Settled(ps) {
      forall p: nat, r, q: nat, s | IsReceive(ps, p, r) && q < |ps| && r.request.source.FromRank?
                                    && Unsuppressed(ps, p, r) && s in ps[q].active
        ensures !Meets(r.request, s.request, q, p)
      {
        if Meets(r.request, s.request, q, p) {
          AcceptsMeans(r.request, s.request, q, p);
          var first := EarliestMessage(ps, p, r, q, s);
          assert Certain(ps, p, r, q, first);
        }
      }
    }
  }

  /** No receive that names its source and that nothing stands in the way of meets a message. */
  ghost predicate NoneMeets(ps: seq<Process>) {
    forall p: nat, r, q: nat, s ::
      IsReceive(ps, p, r) && q < |ps| && r.request.source.FromRank? && Unsuppressed(ps, p, r) && s in ps[q].active
      ==> !Meets(r.request, s.request, q, p)
  }

  /** The possible matches of a receive from any source: one from every process that has a message that meets it. */
  lemma {:induction false} PossibleMeets(ps: seq<Process>, p: nat, r: Entry)
    requires IsReceive(ps, p, r) && r.request.source == AnySource && Unsuppressed(ps, p, r)
    ensures forall q, s :: Possible(ps, p, r, q, s) ==> Meets(r.request, s.request, q, p)
    ensures forall q: nat, s :: q < |ps| && s in ps[q].active && Meets(r.request, s.request, q, p) ==>
              exists first :: Possible(ps, p, r, q, first)
  {
    forall q, s | Possible(ps, p, r, q, s) ensures Meets(r.request, s.request, q, p) {
      AcceptsMeans(r.request, s.request, q, p);
    }
    forall q: nat, s | q < |ps| && s in ps[q].active && Meets(r.request, s.request, q, p)
      ensures exists first :: Possible(ps, p, r, q, first)
    {
      AcceptsMeans(r.request, s.request, q, p);
      var first := EarliestMessage(ps, p, r, q, s);
      assert Possible(ps, p, r, q, first);
    }
  }

  // ---- non-overtaking --------------------------------------------------------------------------------

  /** Some earlier receive of the process asks for the message, too. */
  ghost predicate Overtakes(ps: seq<Process>, p: nat, r: Entry, q: nat, s: Entry)
    requires p < |ps|
  {
    exists e :: e in ps[p].active && e.serial < r.serial && Accepts(e.request, s.request, q, p)
  }

  /** The pattern under which a match overtakes. */
  ghost predicate OvertakingPattern(ps: seq<Process>, p: nat, r: Entry, s: Entry)
    requires p < |ps|
  {
    r.request.Receive? && r.request.pattern == AnyTag && s.request.Send?
    && exists e :: e in ps[p].active && e.serial < r.serial && e.request.Receive? && e.request.source == AnySource
                   && e.request.pattern == OnlyTag(s.request.tag) && e.request.comm.id == s.request.comm.id
  }

  /** A process uses one communicator under an id. */
  ghost predicate CommsOk(ps: seq<Process>, p: nat)
    requires p < |ps|
  {
    forall e, f :: e in ps[p].active && f in ps[p].active && e.request.comm.id == f.request.comm.id
          ==> e.request.comm == f.request.comm
  }

  ghost predicate SourceOk(r: Request) {
    r.Receive? && (r.source == AnySource || (r.source.FromRank? && r.source.rank < |r.comm.group|))
  }

  /** A receive stands in the way of another one on its communicator exactly if it takes every message that the other
      takes. */
  lemma {:induction false} SuppressedMeans(r: Request, e: Request)
    requires SourceOk(r) && SourceOk(e) && r.comm == e.comm && NoneTwice(r.comm.group)
    ensures Suppressed(r, e) <==> forall s, from, to :: Meets(r, s, from, to) ==> Meets(e, s, from, to)
  {
    if !Suppressed(r, e) {
      var tag := if r.pattern.OnlyTag? then r.pattern.tag else if e.pattern.OnlyTag? then e.pattern.tag + 1 else 0;
      var from := if r.source.FromRank? then r.comm.group[r.source.rank]
                  else if e.source.FromRank? then e.comm.group[e.source.rank] + 1 else 0;
      var s := Send(0, Standard, Comm(r.comm.id, [0]), 0, tag, None);
      assert Meets(r, s, from, 0) && !Meets(e, s, from, 0);
    }
  }

  /** What suppresses a receive asks for every message that it asks for. */
  lemma SuppressorAccepts(r: Request, e: Request, s: Request, from: nat, to: nat)
    requires Suppressed(r, e) && Accepts(r, s, from, to) && (r.comm.id == e.comm.id ==> r.comm == e.comm)
    ensures Accepts(e, s, from, to)
  {
  }

  /** The earliest receive of the process that asks for message `s`. */
  lemma {:induction false} EarliestAsking(ps: seq<Process>, p: nat, r: Entry, q: nat, s: Entry) returns (e: Entry)
    requires p < |ps| && r in ps[p].active && Accepts(r.request, s.request, q, p)
    ensures e in ps[p].active && e.serial <= r.serial && Accepts(e.request, s.request, q, p)
    ensures forall f :: f in ps[p].active && f.serial < e.serial ==> !Accepts(f.request, s.request, q, p)
    decreases r.serial
  {
    if f :| f in ps[p].active && f.serial < r.serial && Accepts(f.request, s.request, q, p) {
      e := EarliestAsking(ps, p, f, q, s);
    } else {
      e := r;
    }
  }

  lemma {:induction false} EarliestMessage(ps: seq<Process>, p: nat, r: Entry, q: nat, s: Entry) returns (f: Entry)
    requires p < |ps| && q < |ps| && s in ps[q].active && Accepts(r.request, s.request, q, p)
    ensures FirstMessage(ps, p, r, q, f)
    decreases s.serial
  {
    if e :| e in ps[q].active && e.serial < s.serial && Accepts(r.request, e.request, q, p) {
      f := EarliestMessage(ps, p, r, q, e);
    } else {
      f := s;
    }
  }

  /** The earliest receive that asks for a pending message is from any source, or has a certain match. */
  lemma EarliestIsCertain(ps: seq<Process>, p: nat, q: nat, s: Entry, e: Entry) returns (f: Entry)
    requires p < |ps| && q < |ps| && s in ps[q].active && CommsOk(ps, p)
    requires e in ps[p].active && Accepts(e.request, s.request, q, p)
    requires forall f :: f in ps[p].active && f.serial < e.serial ==> !Accepts(f.request, s.request, q, p)
    ensures e.request.source == AnySource || Certain(ps, p, e, q, f)
  {
    f := EarliestMessage(ps, p, e, q, s);
    forall d | d in ps[p].active && d.serial < e.serial ensures !Suppressed(e.request, d.request) {
      if Suppressed(e.request, d.request) {
        SuppressorAccepts(e.request, d.request, s.request, q, p);
      }
    }
  }

  /** Non-overtaking: a deterministic match passes over an earlier receive for the message exactly when the receive is
      for any tag and an earlier one is from any source with just the tag of the message. */
  lemma DeterministicOvertakes(ps: seq<Process>, p: nat, r: Entry, q: nat, s: Entry)
    requires Deterministic(ps, p, r, q, s) && CommsOk(ps, p)
    ensures Overtakes(ps, p, r, q, s) <==> OvertakingPattern(ps, p, r, s)
  {
    if Overtakes(ps, p, r, q, s) {
      var x :| x in ps[p].active && x.serial < r.serial && Accepts(x.request, s.request, q, p);
      var e := EarliestAsking(ps, p, x, q, s);
      var f := EarliestIsCertain(ps, p, q, s, e);
      assert e.request.source == AnySource;
      assert !Suppressed(r.request, e.request);
    }
    if OvertakingPattern(ps, p, r, s) {
      var e :| e in ps[p].active && e.serial < r.serial && e.request.Receive? && e.request.source == AnySource
               && e.request.pattern == OnlyTag(s.request.tag) && e.request.comm.id == s.request.comm.id;
      assert Accepts(e.request, s.request, q, p);
    }
  }

  /** The same holds for a match from any source, once no certain match is left. */
  lemma PossibleOvertakes(ps: seq<Process>, p: nat, r: Entry, q: nat, s: Entry)
    requires Possible(ps, p, r, q, s) && Settled(ps) && CommsOk(ps, p)
    ensures Overtakes(ps, p, r, q, s) <==> OvertakingPattern(ps, p, r, s)
  {
    if Overtakes(ps, p, r, q, s) {
      var x :| x in ps[p].active && x.serial < r.serial && Accepts(x.request, s.request, q, p);
      var e := EarliestAsking(ps, p, x, q, s);
      var f := EarliestIsCertain(ps, p, q, s, e);
      assert e.request.source == AnySource;
      assert !Suppressed(r.request, e.request);
    }
    if OvertakingPattern(ps, p, r, s) {
      var e :| e in ps[p].active && e.serial < r.serial && e.request.Receive? && e.request.source == AnySource
               && e.request.pattern == OnlyTag(s.request.tag) && e.request.comm.id == s.request.comm.id;
      assert Accepts(e.request, s.request, q, p);
    }
  }

  /** It happens: process 1 waits for a message with tag 7 from anybody, then for any message from process 0; a message
      with tag 7 from process 0 goes to the second receive. */
  lemma OvertakingHappens() returns (ps: seq<Process>, r: Entry, s: Entry)
    ensures Deterministic(ps, 1, r, 0, s) && CommsOk(ps, 1) && Overtakes(ps, 1, r, 0, s)
  {
    var world := Comm(0, [0, 1]);
    var first := Entry(0, Receive(15, world, AnySource, OnlyTag(7), None, 0, 0));
    r := Entry(1, Receive(25, world, FromRank(0), AnyTag, None, 0, 0));
    s := Entry(2, Send(11, Standard, world, 1, 7, None));
    ps := [Process([s], []), Process([first, r], [])];
    assert Certain(ps, 1, r, 0, s);
    assert first in ps[1].active && Accepts(first.request, s.request, 0, 1);
  }

  // ---- applying a match --------------------------------------------------------------------------------

  function Without(es: seq<Entry>, gone: set<Entry>): seq<Entry> {
    if es == [] then [] else (if es[0] in gone then [] else [es[0]]) + Without(es[1..], gone)
  }

  lemma {:induction false} WithoutMeans(es: seq<Entry>, gone: set<Entry>, e: Entry)
    ensures e in Without(es, gone) <==> e in es && e !in gone
  {
    if es != [] {
      WithoutMeans(es[1..], gone, e);
      assert es == [es[0]] + es[1..];
    }
  }

  lemma {:induction false} WithoutTwice(es: seq<Entry>, a: set<Entry>, b: set<Entry>)
    ensures Without(Without(es, a), b) == Without(es, a + b)
  {
    if es != [] {
      WithoutTwice(es[1..], a, b);
      var rest := Without(es[1..], a);
      if es[0] in a {
        assert Without(es, a) == rest;
        assert Without(es, a + b) == Without(es[1..], a + b);
      } else {
        assert Without(es, a) == [es[0]] + rest;
        assert Without(es, a)[0] == es[0] && Without(es, a)[1..] == rest;
      }
    }
  }

  lemma {:induction false} WithoutOrdered(es: seq<Entry>, gone: set<Entry>)
    requires Ordered(es)
    ensures Ordered(Without(es, gone))
  {
    if es != [] {
      WithoutOrdered(es[1..], gone);
      var rest := Without(es[1..], gone);
      forall k | 0 <= k < |rest| ensures es[0].serial < rest[k].serial {
        WithoutMeans(es[1..], gone, rest[k]);
        assert rest[k] in es[1..];
      }
    }
  }

  lemma {:induction false} WithoutSize(es: seq<Entry>, gone: set<Entry>)
    ensures |Without(es, gone)| <= |es|
    ensures (exists e :: e in es && e in gone) ==> |Without(es, gone)| < |es|
  {
    if es != [] {
      WithoutSize(es[1..], gone);
      assert es == [es[0]] + es[1..];
    }
  }

  /** The rank of a process in a communicator. */
  function RankOf(comm: Comm, pid: nat): (r: nat)
    ensures pid in comm.group ==> r < |comm.group| && comm.group[r] == pid && pid !in comm.group[..r]
  {
    FirstIndex(comm.group, pid)
  }

  function FirstIndex(s: seq<nat>, x: nat): (r: nat)
    ensures x in s ==> r < |s| && s[r] == x && x !in s[..r]
  {
    if s == [] || s[0] == x then 0
    else
      assert s == [s[0]] + s[1..];
      var r := FirstIndex(s[1..], x);
      assert x in s ==> s[..r + 1] == [s[0]] + s[1..][..r];
      r + 1
  }

  /** A matched receive: it takes over the message, and knows its sender and tag. */
  function FinishedReceive(r: Request, rank: nat, tag: nat, buffer: Option<nat>): Request
    requires r.Receive?
  {
    r.(buffer := buffer, sourceRank := rank, sourceTag := tag)
  }

  function ReceiveDone(m: Process, r: Entry, rank: nat, tag: nat, buffer: Option<nat>): Process
    requires r.request.Receive?
  {
    Process(Without(m.active, {r}), m.finished + [FinishedReceive(r.request, rank, tag, buffer)])
  }

  /** A matched send is finished; other sends than rendezvous ones are among the finished requests since they were
      posted. */
  function SendDone(m: Process, s: Entry): Process
    requires s.request.Send?
  {
    Process(Without(m.active, {s}), m.finished + if s.request.sendType == Rendezvous then [s.request] else [])
  }

  /** A matched receive is not pending any more, the other requests stay in order, and exactly one request is finished
      more: the receive, which keeps its id and pattern and knows the message, its tag and the rank of its sender. */
  lemma ReceiveFinished(m: Process, r: Entry, rank: nat, tag: nat, buffer: Option<nat>)
    requires Ordered(m.active) && r.request.Receive?
    ensures var n := ReceiveDone(m, r, rank, tag, buffer);
            && Ordered(n.active) && (forall e :: e in n.active <==> e in m.active && e != r)
            && |n.finished| == |m.finished| + 1 && m.finished <= n.finished
            && var f := n.finished[|m.finished|];
               f.Receive? && f.id == r.request.id && SamePattern(f, r.request) && f.buffer == buffer
                     && f.sourceRank == rank && f.sourceTag == tag
  {
    WithoutOrdered(m.active, {r});
    forall e ensures e in Without(m.active, {r}) <==> e in m.active && e !in {r} {
      WithoutMeans(m.active, {r}, e);
    }
  }

  /** From its posting in `m` to its match in `n`, whatever happens in between, a send is finished exactly once: a
      rendezvous send when it is matched, every other send when it is posted. After the match it is not pending, and
      the others stay in order. */
  lemma SendFinishedOnce(m: Process, serial: nat, r: Request, n: Process)
    requires r.Send? && Ordered(n.active)
    ensures var s := Entry(serial, r);
            && multiset(Post(m, serial, r).finished) + multiset(SendDone(n, s).finished) ==
               multiset(m.finished) + multiset(n.finished) + multiset{r}
            && Ordered(SendDone(n, s).active) && forall e :: e in SendDone(n, s).active <==> e in n.active && e != s
  {
    var s := Entry(serial, r);
    WithoutOrdered(n.active, {s});
    forall e ensures e in Without(n.active, {s}) <==> e in n.active && e !in {s} {
      WithoutMeans(n.active, {s}, e);
    }
    assert m.finished + [] == m.finished && n.finished + [] == n.finished;
  }

  /** First the receive, then the send. */
  function Matched(ps: seq<Process>, p: nat, r: Entry, q: nat, s: Entry): seq<Process>
    requires p < |ps| && q < |ps| && r.request.Receive? && s.request.Send?
  {
    var ps1 := ps[p := ReceiveDone(ps[p], r, RankOf(s.request.comm, q), s.request.tag, s.request.buffer)];
    ps1[q := SendDone(ps1[q], s)]
  }

  ghost predicate NoneTwice(group: seq<nat>) {
    forall i, j :: 0 <= i < j < |group| ==> group[i] != group[j]
  }

  /** What a receive knows of its match: message and tag of the send, and a rank that is the sender's. When no process
      is twice in the communicator and the receive named its source, it is the rank that it named. */
  lemma {:induction false} MatchRecords(ps: seq<Process>, p: nat, r: Entry, q: nat, s: Entry)
    requires p < |ps| && q < |ps| && Meets(r.request, s.request, q, p) && r.request.comm == s.request.comm
    requires q in s.request.comm.group
    ensures |Matched(ps, p, r, q, s)[p].finished| > |ps[p].finished|
    ensures var f := Matched(ps, p, r, q, s)[p].finished[|ps[p].finished|];
            && f.Receive? && f.id == r.request.id && f.buffer == s.request.buffer && f.sourceTag == s.request.tag
            && f.sourceRank < |s.request.comm.group| && s.request.comm.group[f.sourceRank] == q
            && (r.request.source.FromRank? && NoneTwice(s.request.comm.group) ==>
                  f.sourceRank == r.request.source.rank)
  {
  }

  function Gone(p: nat, r: Entry, q: nat, s: Entry, x: nat): set<Entry> {
    (if x == p then {r} else {}) + if x == q then {s} else {}
  }

  function Added(p: nat, r: Entry, q: nat, s: Entry, x: nat): multiset<Request>
    requires r.request.Receive? && s.request.Send?
  {
    (if x == p then multiset{FinishedReceive(r.request, RankOf(s.request.comm, q), s.request.tag, s.request.buffer)}
          else multiset{})
    + if x == q && s.request.sendType == Rendezvous then multiset{s.request} else multiset{}
  }

  lemma WithoutNothing(es: seq<Entry>)
    ensures Without(es, {}) == es
  {
  }

  lemma MatchedAt(ps: seq<Process>, p: nat, r: Entry, q: nat, s: Entry, x: nat)
    requires p < |ps| && q < |ps| && x < |ps| && r.request.Receive? && s.request.Send?
    ensures Matched(ps, p, r, q, s)[x].active == Without(ps[x].active, Gone(p, r, q, s, x))
    ensures multiset(Matched(ps, p, r, q, s)[x].finished) == multiset(ps[x].finished) + Added(p, r, q, s, x)
  {
    WithoutNothing(ps[x].active);
    WithoutTwice(ps[x].active, {r}, {s});
    assert Gone(p, r, q, s, x) == if x == p && x == q then {r} + {s} else if x == p then {r} else if x == q then {s}
          else {};
  }

  /** The same requests are pending, in the same order, and the same ones are finished, in whatever order. */
  ghost predicate SameButOrder(a: seq<Process>, b: seq<Process>) {
    |a| == |b| && forall x :: 0 <= x < |a| ==>
        a[x].active == b[x].active && multiset(a[x].finished) == multiset(b[x].finished)
  }

  lemma {:induction false} MatchesCommute(ps: seq<Process>, p: nat, r: Entry, q: nat, s: Entry, p': nat, r': Entry,
                                          q': nat, s': Entry)
    requires p < |ps| && q < |ps| && r.request.Receive? && s.request.Send?
    requires p' < |ps| && q' < |ps| && r'.request.Receive? && s'.request.Send?
    ensures SameButOrder(Matched(Matched(ps, p, r, q, s), p', r', q', s'),
                         Matched(Matched(ps, p', r', q', s'), p, r, q, s))
  {
    hide Matched, Without;
    var a, b := Matched(ps, p, r, q, s), Matched(ps, p', r', q', s');
    assert |a| == |ps| && |b| == |ps| by { MatchedLength(ps, p, r, q, s); MatchedLength(ps, p', r', q', s'); }
    MatchedLength(a, p', r', q', s');
    MatchedLength(b, p, r, q, s);
    forall x: nat | x < |ps|
      ensures Matched(a, p', r', q', s')[x].active == Matched(b, p, r, q, s)[x].active
      ensures multiset(Matched(a, p', r', q', s')[x].finished) == multiset(Matched(b, p, r, q, s)[x].finished)
    {
      MatchedAt(ps, p, r, q, s, x);
      MatchedAt(ps, p', r', q', s', x);
      MatchedAt(a, p', r', q', s', x);
      MatchedAt(b, p, r, q, s, x);
      WithoutTwice(ps[x].active, Gone(p, r, q, s, x), Gone(p', r', q', s', x));
      WithoutTwice(ps[x].active, Gone(p', r', q', s', x), Gone(p, r, q, s, x));
      assert Gone(p, r, q, s, x) + Gone(p', r', q', s', x) == Gone(p', r', q', s', x) + Gone(p, r, q, s, x);
    }
  }

  lemma MatchedLength(ps: seq<Process>, p: nat, r: Entry, q: nat, s: Entry)
    requires p < |ps| && q < |ps| && r.request.Receive? && s.request.Send?
    ensures |Matched(ps, p, r, q, s)| == |ps|
  {
  }

  /** The pending requests of `ps'` at `x` are those of `ps`, but for some that receives of other processes and sends to
      other processes than `p` do not concern. */
  ghost predicate OnlyOthersGone(ps: seq<Process>, ps': seq<Process>, p: nat) {
    && |ps'| == |ps|
    && (forall x, e :: 0 <= x < |ps| && e in ps'[x].active ==> e in ps[x].active)
    && (forall x, e :: 0 <= x < |ps| && e in ps[x].active && e !in ps'[x].active ==>
          (x == p ==> !e.request.Receive?) && (e.request.Send? ==> PidOf(e.request.comm, e.request.target) != Some(p)))
  }

  lemma {:induction false} OthersMatchLeaves(ps: seq<Process>, p: nat, r: Entry, q: nat, s: Entry, p': nat)
    requires Certain(ps, p, r, q, s) && p' < |ps| && p' != p
    ensures OnlyOthersGone(ps, Matched(ps, p, r, q, s), p')
  {
    hide Matched;
    MatchedLength(ps, p, r, q, s);
    forall x: nat, e | x < |ps| ensures e in Matched(ps, p, r, q, s)[x].active
          <==> e in ps[x].active && e !in Gone(p, r, q, s, x) {
      MatchedAt(ps, p, r, q, s, x);
      WithoutMeans(ps[x].active, Gone(p, r, q, s, x), e);
    }
  }

  lemma CertainStays(ps: seq<Process>, ps': seq<Process>, p: nat, r: Entry, q: nat, s: Entry)
    requires OnlyOthersGone(ps, ps', p)
    ensures Certain(ps, p, r, q, s) ==> Certain(ps', p, r, q, s)
    ensures Certain(ps', p, r, q, s) ==> Certain(ps, p, r, q, s)
  {
    if Certain(ps', p, r, q, s) {
      forall e | e in ps[q].active && e.serial < s.serial ensures !Accepts(r.request, e.request, q, p) {
        assert e in ps'[q].active || (e.request.Send? ==> PidOf(e.request.comm, e.request.target) != Some(p));
      }
    }
  }

  /** Deterministic matches of different receivers commute: each stays the deterministic match of its receiver, and the
      two orders lead to the same requests, up to the order of the finished ones. */
  lemma {:induction false} DeterministicCommute(ps: seq<Process>, p: nat, r: Entry, q: nat, s: Entry, p': nat,
                                                r': Entry, q': nat, s': Entry)
    requires Deterministic(ps, p, r, q, s) && Deterministic(ps, p', r', q', s') && p != p'
    ensures Deterministic(Matched(ps, p, r, q, s), p', r', q', s')
    ensures Deterministic(Matched(ps, p', r', q', s'), p, r, q, s)
    ensures SameButOrder(Matched(Matched(ps, p, r, q, s), p', r', q', s'),
                         Matched(Matched(ps, p', r', q', s'), p, r, q, s))
  {
    hide Matched, Certain, OnlyOthersGone;
    CertainMeans(ps, p, r, q, s);
    CertainMeans(ps, p', r', q', s');
    OthersMatchLeaves(ps, p, r, q, s, p');
    OthersMatchLeaves(ps, p', r', q', s', p);
    forall e, k, f ensures Certain(Matched(ps, p, r, q, s), p', e, k, f) <==> Certain(ps, p', e, k, f) {
      CertainStays(ps, Matched(ps, p, r, q, s), p', e, k, f);
    }
    forall e, k, f ensures Certain(Matched(ps, p', r', q', s'), p, e, k, f) <==> Certain(ps, p, e, k, f) {
      CertainStays(ps, Matched(ps, p', r', q', s'), p, e, k, f);
    }
    MatchesCommute(ps, p, r, q, s, p', r', q', s');
  }

  lemma CertainMeans(ps: seq<Process>, p: nat, r: Entry, q: nat, s: Entry)
    requires Certain(ps, p, r, q, s)
    ensures p < |ps| && q < |ps| && r.request.Receive? && s.request.Send?
    ensures r in ps[p].active && s in ps[q].active
  {
  }

  ghost predicate SortedById(fs: seq<Request>) {
    forall j, k :: 0 <= j < k < |fs| ==> fs[j].id < fs[k].id
  }

  /** Sorting the finished requests by their ids, which are unique, leaves one order. */
  lemma {:induction false} SortedIsUnique(a: seq<Request>, b: seq<Request>)
    requires SortedById(a) && SortedById(b) && multiset(a) == multiset(b)
    ensures a == b
  {
    assert |multiset(a)| == |a| && |multiset(b)| == |b|;
    if a != [] {
      SameFirst(a, b);
      WithoutFirst(a);
      WithoutFirst(b);
      SortedIsUnique(a[1..], b[1..]);
    }
  }

  lemma SameFirst(a: seq<Request>, b: seq<Request>)
    requires SortedById(a) && SortedById(b) && multiset(a) == multiset(b) && a != [] && b != []
    ensures a[0] == b[0]
  {
    assert a[0] in multiset(b) && b[0] in multiset(a);
    var j, k :| 0 <= j < |b| && b[j] == a[0] && 0 <= k < |a| && a[k] == b[0];
    assert b[0].id <= b[j].id && a[0].id <= a[k].id;
  }

  lemma WithoutFirst(a: seq<Request>)
    requires a != []
    ensures multiset(a[1..]) == multiset(a) - multiset{a[0]}
  {
    assert a == [a[0]] + a[1..];
  }

  // ---- whole runs ----------------------------------------------------------------------------------------

  datatype Step =
    | Posted(pid: nat, request: Request)
    | PostedNull(pid: nat, request: Request)
    | Match(receiver: nat, receive: Entry, sender: nat, send: Entry)
    | Completed(pid: nat, entry: Entry)
    | Closed(pid: nat, request: Request)

  function Post(m: Process, serial: nat, request: Request): Process {
    Process(m.active + [Entry(serial, request)],
            m.finished + if request.Send? && request.sendType != Rendezvous then [request] else [])
  }

  function CollectiveDone(m: Process, e: Entry): Process {
    Process(Without(m.active, {e}), m.finished + [e.request])
  }

  /** A completed collective request is not pending any more, and is finished once more than before. */
  lemma CollectiveFinished(m: Process, e: Entry)
    requires Ordered(m.active)
    ensures var n := CollectiveDone(m, e);
            && Ordered(n.active) && (forall f :: f in n.active <==> f in m.active && f != e)
            && |n.finished| == |m.finished| + 1 && m.finished <= n.finished && n.finished[|m.finished|] == e.request
  {
    WithoutOrdered(m.active, {e});
    forall f ensures f in Without(m.active, {e}) <==> f in m.active && f !in {e} {
      WithoutMeans(m.active, {e}, f);
    }
  }

  /** One step of the processes; the step number `n` is the serial number of what is posted. Without choice,
      deterministic matches come first. */
  ghost predicate Next(ps: seq<Process>, n: nat, step: Step, ps': seq<Process>) {
    match step
    case Posted(p, request) => p < |ps| && ps' == ps[p := Post(ps[p], n, request)]
    case PostedNull(p, request) => p < |ps| && ps' == ps[p := Process(ps[p].active, ps[p].finished + [request])]
    case Match(p, r, q, s) =>
      && (Deterministic(ps, p, r, q, s) || (Settled(ps) && Possible(ps, p, r, q, s)))
      && ps' == Matched(ps, p, r, q, s)
    case Completed(p, e) => p < |ps| && e in ps[p].active && e.request.Collective?
          && ps' == ps[p := CollectiveDone(ps[p], e)]
    case Closed(p, request) =>
      && p < |ps| && request in ps[p].finished && |ps'| == |ps|
            && ps' == ps[p := Process(ps[p].active, ps'[p].finished)]
      && multiset(ps[p].finished) == multiset(ps'[p].finished) + multiset{request}
  }

  ghost predicate IsRun(states: seq<seq<Process>>, steps: seq<Step>) {
    && |states| == |steps| + 1
    && (forall p :: 0 <= p < |states[0]| ==> states[0][p] == Process([], []))
    && (forall i :: 0 <= i < |steps| ==> Next(states[i], i, steps[i], states[i + 1]))
  }

  /** The pending requests are in the order of posting, and each has been posted. */
  ghost predicate PostedInOrder(ps: seq<Process>, n: nat, steps: seq<Step>)
    requires n <= |steps|
  {
    forall x: nat :: x < |ps| ==> Ordered(ps[x].active) && forall e :: e in ps[x].active ==>
        e.serial < n && steps[e.serial] == Posted(x, e.request)
  }

  lemma {:induction false} StepKeepsOrder(ps: seq<Process>, n: nat, steps: seq<Step>, ps': seq<Process>)
    requires n < |steps| && PostedInOrder(ps, n, steps) && Next(ps, n, steps[n], ps')
    ensures PostedInOrder(ps', n + 1, steps)
  {
    hide Without, Matched;
    match steps[n] {
      case Match(p, r, q, s) =>
        MatchedLength(ps, p, r, q, s);
        forall x: nat | x < |ps'|
          ensures Ordered(ps'[x].active)
          ensures forall e :: e in ps'[x].active ==> e.serial < n + 1 && steps[e.serial] == Posted(x, e.request)
        {
          MatchedAt(ps, p, r, q, s, x);
          WithoutOrdered(ps[x].active, Gone(p, r, q, s, x));
          forall e | e in ps'[x].active ensures e.serial < n + 1 && steps[e.serial] == Posted(x, e.request) {
            WithoutMeans(ps[x].active, Gone(p, r, q, s, x), e);
          }
        }
      case Completed(p, e) =>
        WithoutOrdered(ps[p].active, {e});
        forall f ensures f in Without(ps[p].active, {e}) ==> f in ps[p].active {
          WithoutMeans(ps[p].active, {e}, f);
        }
      case Posted(p, request) =>
        assert forall e :: e in ps'[p].active <==> e in ps[p].active || e == Entry(n, request);
      case _ =>
    }
  }

  lemma {:induction false} RunKeepsOrder(states: seq<seq<Process>>, steps: seq<Step>, n: nat)
    requires IsRun(states, steps) && n <= |steps|
    ensures PostedInOrder(states[n], n, steps)
  {
    if n > 0 {
      RunKeepsOrder(states, steps, n - 1);
      assert Next(states[n - 1], n - 1, steps[n - 1], states[n - 1 + 1]);
      StepKeepsOrder(states[n - 1], n - 1, steps, states[n]);
    }
  }

  /** The step takes a request out of the list of a process. */
  ghost predicate Takes(step: Step, p: nat, e: Entry) {
    match step
    case Match(receiver, r, sender, s) => (receiver == p && r == e) || (sender == p && s == e)
    case Completed(pid, f) => pid == p && f == e
    case _ => false
  }

  lemma {:induction false} StepKeepsOrTakes(ps: seq<Process>, n: nat, step: Step, ps': seq<Process>, x: nat, e: Entry)
    requires Next(ps, n, step, ps') && x < |ps| && e in ps[x].active && !Takes(step, x, e)
    ensures |ps'| == |ps| && e in ps'[x].active
  {
    hide Without, Matched;
    match step {
      case Match(p, r, q, s) =>
        MatchedLength(ps, p, r, q, s);
        MatchedAt(ps, p, r, q, s, x);
        WithoutMeans(ps[x].active, Gone(p, r, q, s, x), e);
      case Completed(p, f) =>
        WithoutMeans(ps[p].active, {f}, e);
      case _ =>
    }
  }

  /** A posted request is pending until a step takes it. */
  lemma {:induction false} PendingUntilTaken(states: seq<seq<Process>>, steps: seq<Step>, a: nat, p: nat, x: Request,
                                             n: nat)
    requires IsRun(states, steps) && a < n <= |steps| && steps[a] == Posted(p, x)
    requires forall i :: a < i < n ==> !Takes(steps[i], p, Entry(a, x))
    ensures p < |states[n]| && Entry(a, x) in states[n][p].active
    decreases n
  {
    assert Next(states[n - 1], n - 1, steps[n - 1], states[n - 1 + 1]);
    if a < n - 1 {
      PendingUntilTaken(states, steps, a, p, x, n - 1);
      StepKeepsOrTakes(states[n - 1], n - 1, steps[n - 1], states[n], p, Entry(a, x));
    } else {
      assert states[n][p].active[|states[n][p].active| - 1] == Entry(a, x);
    }
  }

  ghost predicate SameEnvelope(a: Request, b: Request) {
    a.Send? && b.Send? && a.comm == b.comm && a.target == b.target && a.tag == b.tag
  }

  ghost predicate SamePattern(a: Request, b: Request) {
    a.Receive? && b.Receive? && a.comm == b.comm && a.source == b.source && a.pattern == b.pattern
  }

  /** Messages of one process with the same envelope are received in the order in which they were sent (section 3.5 of
      MPI-3.1). */
  lemma SendsMatchInOrder(states: seq<seq<Process>>, steps: seq<Step>, q: nat, a: nat, x: Request, b: nat, y: Request,
                          j: nat)
    requires IsRun(states, steps) && a < b < j < |steps| && steps[a] == Posted(q, x) && steps[b] == Posted(q, y)
             && SameEnvelope(x, y)
    requires steps[j].Match? && steps[j].sender == q && steps[j].send == Entry(b, y)
    ensures exists i :: a < i < j && Takes(steps[i], q, Entry(a, x))
  {
    assert Next(states[j], j, steps[j], states[j + 1]);
    var r, p := steps[j].receive.request, steps[j].receiver;
    assert Accepts(r, x, q, p) <==> Accepts(r, y, q, p);
    if forall i :: a < i < j ==> !Takes(steps[i], q, Entry(a, x)) {
      PendingUntilTaken(states, steps, a, q, x, j);
    }
  }

  /** Receives of one process with the same pattern are matched in the order in which they were posted. */
  lemma ReceivesMatchInOrder(states: seq<seq<Process>>, steps: seq<Step>, p: nat, a: nat, x: Request, b: nat,
                             y: Request, j: nat)
    requires IsRun(states, steps) && a < b < j < |steps| && steps[a] == Posted(p, x) && steps[b] == Posted(p, y)
             && SamePattern(x, y)
    requires steps[j].Match? && steps[j].receiver == p && steps[j].receive == Entry(b, y)
    ensures exists i :: a < i < j && Takes(steps[i], p, Entry(a, x))
  {
    assert Next(states[j], j, steps[j], states[j + 1]);
    assert Suppressed(y, x);
    if forall i :: a < i < j ==> !Takes(steps[i], p, Entry(a, x)) {
      PendingUntilTaken(states, steps, a, p, x, j);
    }
  }

  // ---- request ids over whole runs -----------------------------------------------------------------------

  /** The ids among which a new one is chosen that is not in use. */
  ghost function UsedIds(m: Process): set<nat> {
    (set e | e in m.active :: e.request.id) + set f | f in m.finished :: f.id
  }

  /** The requests of a run have ids that were not in use when they were posted. */
  ghost predicate NewIds(states: seq<seq<Process>>, steps: seq<Step>)
    requires IsRun(states, steps)
  {
    forall i :: 0 <= i < |steps| ==> NewId(states[i], steps[i])
  }

  ghost predicate NewId(ps: seq<Process>, step: Step) {
    step.Posted? || step.PostedNull? ==> step.pid < |ps| && step.request.id !in UsedIds(ps[step.pid])
  }

  ghost predicate UniqueIds(fs: multiset<Request>) {
    && (forall r, s :: r in fs && s in fs && r.id == s.id ==> r == s)
    && (forall r :: fs[r] <= 1)
  }

  /** An id stands for one request; only a send that is finished before it is matched is in both lists. */
  ghost predicate IdsOk(m: Process) {
    && UniqueIds(multiset(m.finished))
    && (forall e, f :: e in m.active && f in m.active && e.request.id == f.request.id ==> e == f)
    && (forall e, f :: e in m.active && f in m.finished && e.request.id == f.id ==>
        e.request == f && f.Send? && f.sendType != Rendezvous)
  }

  lemma OneMoreId(fs: seq<Request>, r: Request)
    requires UniqueIds(multiset(fs)) && forall f :: f in fs ==> f.id != r.id
    ensures UniqueIds(multiset(fs + [r]))
  {
    assert multiset(fs + [r]) == multiset(fs) + multiset{r};
    assert forall f :: f in multiset(fs) <==> f in fs;
  }

  lemma IdIsNew(m: Process, id: nat)
    requires id !in UsedIds(m)
    ensures forall e :: e in m.active ==> e.request.id != id
    ensures forall f :: f in m.finished ==> f.id != id
  {
    forall e | e in m.active ensures e.request.id != id {
      assert e.request.id in UsedIds(m);
    }
    forall f | f in m.finished ensures f.id != id {
      assert f.id in UsedIds(m);
    }
  }

  lemma {:induction false} PostIds(m: Process, serial: nat, r: Request)
    requires IdsOk(m) && r.id !in UsedIds(m)
    ensures IdsOk(Post(m, serial, r))
  {
    hide UniqueIds, UsedIds;
    var n := Post(m, serial, r);
    IdIsNew(m, r.id);
    assert forall e :: e in n.active <==> e in m.active || e == Entry(serial, r);
    assert m.finished + [] == m.finished;
    OneMoreId(m.finished, r);
  }

  lemma {:induction false} NullIds(m: Process, r: Request)
    requires IdsOk(m) && r.id !in UsedIds(m)
    ensures IdsOk(Process(m.active, m.finished + [r]))
  {
    hide UniqueIds, UsedIds;
    IdIsNew(m, r.id);
    OneMoreId(m.finished, r);
  }

  /** A request goes from the pending to the finished ones. */
  lemma {:induction false} MoveIds(m: Process, e: Entry, r: Request)
    requires IdsOk(m) && e in m.active && r.id == e.request.id && !(e.request.Send? && e.request.sendType != Rendezvous)
    ensures IdsOk(Process(Without(m.active, {e}), m.finished + [r]))
  {
    hide UniqueIds, Without;
    forall f ensures f in Without(m.active, {e}) <==> f in m.active && f != e {
      WithoutMeans(m.active, {e}, f);
    }
    OneMoreId(m.finished, r);
  }

  lemma DropIds(m: Process, e: Entry)
    requires IdsOk(m)
    ensures IdsOk(Process(Without(m.active, {e}), m.finished))
  {
    forall f ensures f in Without(m.active, {e}) <==> f in m.active && f !in {e} {
      WithoutMeans(m.active, {e}, f);
    }
  }

  lemma SendIds(m: Process, s: Entry)
    requires IdsOk(m) && s in m.active && s.request.Send?
    ensures IdsOk(SendDone(m, s))
  {
    if s.request.sendType == Rendezvous {
      MoveIds(m, s, s.request);
    } else {
      DropIds(m, s);
      assert m.finished + [] == m.finished;
    }
  }

  lemma {:induction false} MatchIds(ps: seq<Process>, p: nat, r: Entry, q: nat, s: Entry)
    requires p < |ps| && q < |ps| && r in ps[p].active && r.request.Receive? && s in ps[q].active && s.request.Send?
    requires AllIdsOk(ps)
    ensures AllIdsOk(Matched(ps, p, r, q, s))
  {
    hide IdsOk, Without, SendDone;
    var ps1 := ps[p := ReceiveDone(ps[p], r, RankOf(s.request.comm, q), s.request.tag, s.request.buffer)];
    MoveIds(ps[p], r, FinishedReceive(r.request, RankOf(s.request.comm, q), s.request.tag, s.request.buffer));
    WithoutMeans(ps[p].active, {r}, s);
    assert s in ps1[q].active && AllIdsOk(ps1);
    SendIds(ps1[q], s);
    assert Matched(ps, p, r, q, s) == ps1[q := SendDone(ps1[q], s)];
  }

  ghost predicate AllIdsOk(ps: seq<Process>) {
    forall x :: 0 <= x < |ps| ==> IdsOk(ps[x])
  }

  lemma CloseIds(m: Process, r: Request, finished: seq<Request>)
    requires IdsOk(m) && multiset(m.finished) == multiset(finished) + multiset{r}
    ensures IdsOk(Process(m.active, finished))
  {
    forall f | f in finished ensures f in m.finished {
      assert f in multiset(finished);
      assert f in multiset(m.finished);
    }
    FewerIds(multiset(m.finished), multiset(finished), r);
  }

  lemma FewerIds(fs: multiset<Request>, less: multiset<Request>, r: Request)
    requires UniqueIds(fs) && fs == less + multiset{r}
    ensures UniqueIds(less)
  {
    forall f: Request ensures less[f] <= fs[f] {
    }
    forall f | f in less ensures f in fs {
    }
  }

  lemma {:induction false} StepKeepsIds(ps: seq<Process>, n: nat, step: Step, ps': seq<Process>)
    requires Next(ps, n, step, ps') && NewId(ps, step) && AllIdsOk(ps)
    ensures AllIdsOk(ps')
  {
    hide IdsOk, Without, Matched, UsedIds, Deterministic, Settled, Possible, Post;
    match step {
      case Posted(p, request) => PostIds(ps[p], n, request);
      case PostedNull(p, request) => NullIds(ps[p], request);
      case Match(p, r, q, s) =>
        assert p < |ps| && q < |ps| && r in ps[p].active && r.request.Receive? && s in ps[q].active
              && s.request.Send? by {
          MatchIsPending(ps, p, r, q, s);
        }
        MatchIds(ps, p, r, q, s);
      case Completed(p, e) => MoveIds(ps[p], e, e.request);
      case Closed(p, request) => CloseIds(ps[p], request, ps'[p].finished);
    }
  }

  lemma MatchIsPending(ps: seq<Process>, p: nat, r: Entry, q: nat, s: Entry)
    requires Deterministic(ps, p, r, q, s) || Possible(ps, p, r, q, s)
    ensures p < |ps| && q < |ps| && r in ps[p].active && r.request.Receive? && s in ps[q].active && s.request.Send?
  {
  }

  /** Over every run whose requests get ids that are not in use, the ids of the finished requests of a process are
      distinct. */
  lemma {:induction false} IdsStayUnique(states: seq<seq<Process>>, steps: seq<Step>, n: nat)
    requires IsRun(states, steps) && NewIds(states, steps) && n <= |steps|
    ensures AllIdsOk(states[n])
  {
    if n > 0 {
      IdsStayUnique(states, steps, n - 1);
      assert Next(states[n - 1], n - 1, steps[n - 1], states[n - 1 + 1]);
      assert NewId(states[n - 1], steps[n - 1]);
      StepKeepsIds(states[n - 1], n - 1, steps[n - 1], states[n]);
    }
  }

  ghost predicate IdsAscend(fs: seq<Request>) {
    forall j, k :: 0 <= j < k < |fs| ==> fs[j].id <= fs[k].id
  }

  lemma CountsTwice(fs: seq<Request>, j: nat, k: nat)
    requires j < k < |fs| && fs[j] == fs[k]
    ensures multiset(fs)[fs[j]] >= 2
  {
    assert fs == fs[..k] + [fs[k]] + fs[k + 1..];
    assert fs[j] in fs[..k];
  }

  lemma UniqueAscends(fs: seq<Request>)
    requires UniqueIds(multiset(fs)) && IdsAscend(fs)
    ensures SortedById(fs)
  {
    forall j, k | 0 <= j < k < |fs| ensures fs[j].id < fs[k].id {
      assert fs[j] in multiset(fs) && fs[k] in multiset(fs);
      if fs[j] == fs[k] {
        CountsTwice(fs, j, k);
      }
    }
  }

  /** The same requests are pending, and the finished ones are the same once they are sorted by id. */
  ghost predicate SameOnceSorted(a: seq<Process>, b: seq<Process>) {
    && |a| == |b| && (forall x :: 0 <= x < |a| ==> a[x].active == b[x].active)
    && (forall x, fa, fb :: 0 <= x < |a| && IsSorted(fa, a[x].finished) && IsSorted(fb, b[x].finished) ==> fa == fb)
  }

  ghost predicate IsSorted(sorted: seq<Request>, fs: seq<Request>) {
    IdsAscend(sorted) && multiset(sorted) == multiset(fs)
  }

  lemma {:induction false} OrderIsErasedIn(one: seq<Process>, other: seq<Process>)
    requires SameButOrder(one, other) && AllIdsOk(one)
    ensures SameOnceSorted(one, other)
  {
    hide IdsOk, UniqueIds, IdsAscend, SortedById;
    forall x, fa, fb | 0 <= x < |one| && IsSorted(fa, one[x].finished) && IsSorted(fb, other[x].finished)
          ensures fa == fb {
      assert UniqueIds(multiset(fa)) by { FinishedUnique(one[x]); }
      UniqueAscends(fa);
      UniqueAscends(fb);
      SortedIsUnique(fa, fb);
    }
  }

  /** In every state of such a run, deterministic matches of different receivers may be applied in either order: the
      pending requests are the same, and so are the finished ones once each process sorts them by id, as it does for
      its hash. */
  lemma {:induction false} OrderIsErased(states: seq<seq<Process>>, steps: seq<Step>, n: nat, p: nat, r: Entry, q: nat,
                                         s: Entry, p': nat, r': Entry, q': nat, s': Entry)
    requires IsRun(states, steps) && NewIds(states, steps) && n <= |steps| && p != p'
    requires Deterministic(states[n], p, r, q, s) && Deterministic(states[n], p', r', q', s')
    ensures Deterministic(Matched(states[n], p, r, q, s), p', r', q', s')
            && Deterministic(Matched(states[n], p', r', q', s'), p, r, q, s)
    ensures SameOnceSorted(Matched(Matched(states[n], p, r, q, s), p', r', q', s'),
                           Matched(Matched(states[n], p', r', q', s'), p, r, q, s))
  {
    IdsStayUnique(states, steps, n);
    MatchIsPending(states[n], p, r, q, s);
    MatchIsPending(states[n], p', r', q', s');
    DeterministicCommute(states[n], p, r, q, s, p', r', q', s');
    hide Matched, Deterministic;
    var first := Matched(states[n], p, r, q, s);
    MatchIds(states[n], p, r, q, s);
    MatchIds(first, p', r', q', s');
    OrderIsErasedIn(Matched(first, p', r', q', s'), Matched(Matched(states[n], p', r', q', s'), p, r, q, s));
  }

  lemma FinishedUnique(m: Process)
    requires IdsOk(m)
    ensures UniqueIds(multiset(m.finished))
  {
  }
}
