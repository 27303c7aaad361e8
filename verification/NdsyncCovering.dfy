/** The test by which a marking is dropped because another one covers it, and what it takes for the test to be right. */
module NdsyncCovering {
  import opened MemoryTypes
  import opened Ndsync
  import opened NdsyncRenaming

  // ---- the order of open operations ----------------------------------------------------------------

  predicate SameKey(c: CollectiveOperation, d: CollectiveOperation) {
    c.commId == d.commId && c.ccId == d.ccId
  }

  ghost predicate UniqueOps(cs: seq<CollectiveOperation>) {
    forall i, j :: 0 <= i < j < |cs| ==> !SameKey(cs[i], cs[j])
  }

  ghost predicate SameOps(a: seq<CollectiveOperation>, b: seq<CollectiveOperation>) {
    UniqueOps(a) && UniqueOps(b) && forall c :: c in a <==> c in b
  }

  /** The same marking, but for the order of its open operations. */
  ghost predicate Alike(s: Marks, u: Marks) {
    u == s.(collectives := u.collectives) && SameOps(s.collectives, u.collectives)
  }

  lemma EraseInOrder(a: seq<CollectiveOperation>, b: seq<CollectiveOperation>, r: set<Mark>, c: CollectiveOperation)
    requires |a| == |b| && (forall i :: 0 <= i < |a| ==> b[i] == EraseCollective(a[i], r))
    ensures c in b <==> exists d :: d in a && c == EraseCollective(d, r)
  {
    if c in b {
      var i :| 0 <= i < |b| && b[i] == c;
      assert a[i] in a;
    }
    if d :| d in a && c == EraseCollective(d, r) {
      var i :| 0 <= i < |a| && a[i] == d;
      assert b[i] == c;
    }
  }

  lemma {:induction false} AlikeErase(s: Marks, u: Marks, r: set<Mark>)
    requires Alike(s, u)
    ensures Alike(Erase(s, r), Erase(u, r))
  {
    hide EraseCollective;
    var a, b := Erase(s, r).collectives, Erase(u, r).collectives;
    assert UniqueOps(a) && UniqueOps(b) by {
      ErasedKeys(s.collectives, a, r);
      ErasedKeys(u.collectives, b, r);
    }
    forall c ensures c in a <==> c in b {
      EraseInOrder(s.collectives, a, r, c);
      EraseInOrder(u.collectives, b, r, c);
    }
  }

  lemma ErasedKeys(a: seq<CollectiveOperation>, b: seq<CollectiveOperation>, r: set<Mark>)
    requires |a| == |b| && (forall i :: 0 <= i < |a| ==> b[i] == EraseCollective(a[i], r))
    requires UniqueOps(a)
    ensures UniqueOps(b)
  {
    forall i, j | 0 <= i < j < |b| ensures !SameKey(b[i], b[j]) {
      assert !SameKey(a[i], a[j]);
    }
  }

  lemma AlikeCleanup(s: Marks, u: Marks, marks: set<Mark>)
    requires Alike(s, u)
    ensures Alike(Cleanup(s, marks), Cleanup(u, marks))
  {
    AlikeErase(s, u, Closure(s.terminate, marks));
  }

  lemma {:induction false} AlikeMatched(s: Marks, u: Marks, mark: Mark, marks: set<Mark>)
    requires Alike(s, u)
    ensures Alike(Matched(s, mark, marks), Matched(u, mark, marks))
  {
    hide Cleanup, SameOps;
    AlikeCleanup(s, u, {mark});
  }

  lemma {:induction false} AlikeDone(s: Marks, u: Marks, c: CollectiveOperation)
    requires Alike(s, u)
    ensures Alike(CollectiveDone(s, c), CollectiveDone(u, c))
  {
    hide Cleanup, SameOps;
    AlikeCleanup(s, u, c.marks.Keys);
  }

  lemma FoundAlike(a: seq<CollectiveOperation>, b: seq<CollectiveOperation>, commId: nat, ccId: nat)
    requires SameOps(a, b)
    ensures var i, j := FindCollective(a, commId, ccId), FindCollective(b, commId, ccId);
            && (i < |a| <==> j < |b|)
            && (i < |a| ==> a[i] == b[j])
  {
    var i, j := FindCollective(a, commId, ccId), FindCollective(b, commId, ccId);
    if i < |a| {
      assert a[i] in b;
      var k :| 0 <= k < |b| && b[k] == a[i];
      assert j <= k;
      assert SameKey(b[j], b[k]);
    }
    if j < |b| {
      assert b[j] in a;
      var k :| 0 <= k < |a| && a[k] == b[j];
      assert i <= k;
    }
  }

  lemma LessOne(a: seq<CollectiveOperation>, i: nat)
    requires UniqueOps(a) && i < |a|
    ensures var b := a[..i] + a[i + 1..];
            && UniqueOps(b)
            && forall c :: c in b <==> c in a && !SameKey(c, a[i])
  {
    var b := a[..i] + a[i + 1..];
    forall c ensures c in b <==> c in a && !SameKey(c, a[i]) {
      if c in b {
        var k :| 0 <= k < |b| && b[k] == c;
        assert c == a[if k < i then k else k + 1];
      }
      if c in a && !SameKey(c, a[i]) {
        var k :| 0 <= k < |a| && a[k] == c;
        assert c == b[if k < i then k else k - 1];
      }
    }
  }

  lemma OneReplaced(a: seq<CollectiveOperation>, i: nat, c: CollectiveOperation)
    requires UniqueOps(a) && i < |a| && SameKey(a[i], c)
    ensures UniqueOps(a[i := c])
    ensures forall d :: d in a[i := c] <==> d == c || (d in a && !SameKey(d, c))
  {
    var b := a[i := c];
    forall d ensures d in b <==> d == c || (d in a && !SameKey(d, c)) {
      if d in b {
        var k :| 0 <= k < |b| && b[k] == d;
        assert k != i ==> d == a[k];
      }
      if d in a && !SameKey(d, c) {
        var k :| 0 <= k < |a| && a[k] == d;
        assert b[k] == d;
      }
      assert b[i] == c;
    }
  }

  lemma OneMoreOp(a: seq<CollectiveOperation>, c: CollectiveOperation)
    requires UniqueOps(a) && forall i :: 0 <= i < |a| ==> !SameKey(a[i], c)
    ensures UniqueOps(a + [c]) && forall d :: d in a + [c] <==> d in a || d == c
  {
  }

  /** The list of open operations after a call: operation `c` was joined and is complete, or stays open. */
  function OpsAfter(cs: seq<CollectiveOperation>, i: nat, c: CollectiveOperation, done: bool): seq<CollectiveOperation>
    requires i <= |cs|
  {
    if done then if i < |cs| then cs[..i] + cs[i + 1..] else cs
    else if i < |cs| then cs[i := c] else cs + [c]
  }

  lemma {:induction false} OpsAfterAlike(a: seq<CollectiveOperation>, b: seq<CollectiveOperation>,
                                         c: CollectiveOperation, done: bool)
    requires SameOps(a, b)
    ensures SameOps(OpsAfter(a, FindCollective(a, c.commId, c.ccId), c, done),
                    OpsAfter(b, FindCollective(b, c.commId, c.ccId), c, done))
  {
    hide UniqueOps;
    FoundAlike(a, b, c.commId, c.ccId);
    var i, j := FindCollective(a, c.commId, c.ccId), FindCollective(b, c.commId, c.ccId);
    if i < |a| {
      if done {
        LessOne(a, i);
        LessOne(b, j);
      } else {
        OneReplaced(a, i, c);
        OneReplaced(b, j, c);
        var more, other := a[i := c], b[j := c];
        forall d ensures d in more <==> d in other {
          assert d in a <==> d in b;
        }
      }
    } else if !done {
      OneMoreOp(a, c);
      OneMoreOp(b, c);
    }
  }

  lemma {:induction false} AlikeCollective(s: Marks, u: Marks, uid: nat, pid: nat, id: RequestId, commId: nat,
                                           ccId: nat, size: nat)
    requires Alike(s, u) && pid < |s.process|
    ensures Alike(CollectivePosted(s, uid, pid, id, commId, ccId, size),
                  CollectivePosted(u, uid, pid, id, commId, ccId, size))
  {
    hide SameOps, CollectiveDone;
    var mark, marks := Mark(uid, id), s.process[pid];
    var c := Joined(s, mark, marks, commId, ccId, size);
    FoundAlike(s.collectives, u.collectives, commId, ccId);
    assert c == Joined(u, mark, marks, commId, ccId, size) && c.commId == commId && c.ccId == ccId;
    var done := |c.marks| == c.size;
    OpsAfterAlike(s.collectives, u.collectives, c, done);
    var s1 := s.(finished := s.finished[id := marks + {mark}],
                 collectives := OpsAfter(s.collectives, FindCollective(s.collectives, commId, ccId), c, done));
    var u1 := u.(finished := u.finished[id := marks + {mark}],
                 collectives := OpsAfter(u.collectives, FindCollective(u.collectives, commId, ccId), c, done));
    assert Alike(s1, u1);
    AlikeDone(s1, u1, c);
  }

  lemma {:induction false} AlikeAllPosted(s: Marks, u: Marks, uid: nat, pid: nat, ids: seq<RequestId>, commId: nat,
                                          ccId: nat, size: nat)
    requires Alike(s, u) && pid < |s.process|
    ensures Alike(AllPosted(s, uid, pid, ids, commId, ccId, size), AllPosted(u, uid, pid, ids, commId, ccId, size))
  {
    hide SameOps, CollectivePosted;
    if |ids| > 0 {
      var n := |ids| - 1;
      AlikeAllPosted(s, u, uid, pid, ids[..n], commId, ccId, size);
      var s1, u1 := AllPosted(s, uid, pid, ids[..n], commId, ccId, size),
                    AllPosted(u, uid, pid, ids[..n], commId, ccId, size);
      AlikeCollective(s1, u1, uid, pid, ids[n], commId, ccId, size);
    }
  }

  lemma {:induction false} AlikeMatchDone(s: Marks, u: Marks, source: RequestId, target: RequestId)
    requires Alike(s, u) && source in s.active && target in s.active
    ensures Alike(MatchDone(s, source, target), MatchDone(u, source, target))
  {
    hide SameOps, Matched;
    var both := s.active[source] + s.active[target];
    var s1 := s.(active := s.active - {source, target}, finished := s.finished[target := both]);
    var u1 := u.(active := u.active - {source, target}, finished := u.finished[target := both]);
    if RequestType(source) == SEND_STD && source in s.ssend {
      if source in s1.finished {
        AlikeMatched(s1.(finished := s1.finished[source := s1.finished[source] + both]),
                     u1.(finished := u1.finished[source := u1.finished[source] + both]), s.ssend[source],
                     s.active[target]);
      } else {
        AlikeMatched(s1.(ssend := s1.ssend - {source}), u1.(ssend := u1.ssend - {source}), s.ssend[source],
                     s.active[target]);
      }
    }
  }

  lemma {:induction false} AlikeAllContinued(s: Marks, u: Marks, pid: nat, ids: seq<RequestId>)
    requires Alike(s, u) && pid < |s.process| && (forall i :: 0 <= i < |ids| ==> ids[i] in s.finished)
    requires forall i, j :: 0 <= i < j < |ids| ==> ids[i] != ids[j]
    ensures Alike(AllContinued(s, pid, ids), AllContinued(u, pid, ids))
  {
    hide SameOps;
    if |ids| > 0 {
      AlikeAllContinued(s, u, pid, ids[..|ids| - 1]);
    }
  }

  lemma {:induction false} AlikeProcessed(s: Marks, u: Marks, e: Event)
    requires Alike(s, u)
    ensures WellFormed(s, e) <==> WellFormed(u, e)
    ensures WellFormed(s, e) ==> Alike(Processed(s, e), Processed(u, e))
  {
    hide SameOps, AllPosted, MatchDone, AllContinued;
    if WellFormed(s, e) {
      match e {
        case Call(uid, pid, ids, commId, ccId, size) => AlikeAllPosted(s, u, uid, pid, ids, commId, ccId, size);
        case Match(source, target) => AlikeMatchDone(s, u, source, target);
        case Continue(pid, ids) => AlikeAllContinued(s, u, pid, ids);
      }
    }
  }

  lemma {:induction false} AlikeRequests(s: Marks, u: Marks, ids: seq<RequestId>)
    requires Alike(s, u) && forall i :: 0 <= i < |ids| ==> ids[i] in s.finished
    ensures RequestsMarks(s, ids) == RequestsMarks(u, ids)
  {
    hide SameOps;
    if |ids| > 0 {
      AlikeRequests(s, u, ids[..|ids| - 1]);
    }
  }

  lemma {:induction false} AlikeEventMarks(s: Marks, u: Marks, e: Event)
    requires Alike(s, u) && WellFormed(s, e)
    ensures WellFormed(u, e) && EventMarks(s, e) == EventMarks(u, e)
  {
    hide SameOps;
    match e {
      case Match(source, target) =>
      case Continue(pid, ids) => AlikeRequests(s, u, ids);
      case Call(_, _, _, _, _, _) =>
    }
  }

  // ---- the same marking under other names ----------------------------------------------------------

  /** The markings are the same up to the names of marks and the order of open operations. */
  ghost predicate Renamed(f: Naming, g: Naming, s: Marks, u: Marks) {
    Inverse(f, g) && Alike(Renaming(f, g, s), u)
  }

  ghost predicate KeepsAllNames(f: Naming, events: seq<Event>) {
    forall i :: 0 <= i < |events| ==> KeepsNames(f, events[i])
  }

  lemma {:induction false} RenamedRun(f: Naming, g: Naming, s: Marks, u: Marks, events: seq<Event>)
    requires Renamed(f, g, s, u) && KeepsAllNames(f, events)
    ensures RunWellFormed(s, events) <==> RunWellFormed(u, events)
    ensures RunWellFormed(s, events) ==> Renamed(f, g, AfterRun(s, events), AfterRun(u, events))
    decreases |events|
  {
    hide Renaming, Alike, Processed, WellFormed, Inverse, KeepsNames;
    if |events| > 0 {
      var e := events[0];
      RenamingProcessed(f, g, s, e);
      AlikeProcessed(Renaming(f, g, s), u, e);
      if WellFormed(s, e) {
        assert KeepsAllNames(f, events[1..]);
        RenamedRun(f, g, Processed(s, e), Processed(u, e), events[1..]);
      }
    }
  }

  lemma {:induction false} RenamedEventMarks(f: Naming, g: Naming, s: Marks, u: Marks, e: Event)
    requires Renamed(f, g, s, u) && KeepsNames(f, e)
    ensures WellFormed(s, e) <==> WellFormed(u, e)
    ensures WellFormed(s, e) ==> EventMarks(u, e) == Image(f, EventMarks(s, e))
    ensures WellFormed(s, e) ==> (EventMarks(u, e) == {} <==> EventMarks(s, e) == {})
  {
    hide Renaming, Alike, WellFormed, EventMarks, Processed, Image;
    RenamingProcessed(f, g, s, e);
    AlikeProcessed(Renaming(f, g, s), u, e);
    if WellFormed(s, e) {
      RenamingEventMarks(f, g, s, e);
      AlikeEventMarks(Renaming(f, g, s), u, e);
      ImageOps(f, g, EventMarks(s, e), {});
    }
  }

  lemma {:induction false} RenamedCleanup(f: Naming, g: Naming, s: Marks, u: Marks, marks: set<Mark>)
    requires Renamed(f, g, s, u)
    ensures Renamed(f, g, Cleanup(s, marks), Cleanup(u, Image(f, marks)))
  {
    hide Renaming, Alike, Cleanup, Image;
    RenamingCleanup(f, g, s, marks);
    AlikeCleanup(Renaming(f, g, s), u, Image(f, marks));
  }

  lemma RenamedInverse(f: Naming, g: Naming, s: Marks, u: Marks)
    requires Renamed(f, g, s, u)
    ensures Inverse(f, g) && u.terminate == Table(f, g, s.terminate)
  {
  }

  lemma TableKeys(f: Naming, g: Naming, t: map<Mark, set<Mark>>)
    requires Inverse(f, g)
    ensures Table(f, g, t).Keys == Image(f, t.Keys) && (Table(f, g, t) == map[] <==> t == map[])
  {
    ImageOps(f, g, t.Keys, {});
  }

  // ---- the test that drops a marking -----------------------------------------------------------------

  type Mapping = map<Mark, Mark>

  ghost function SendMarks(s: Marks): set<Mark> {
    set id | id in s.ssend :: s.ssend[id]
  }

  ghost function CallMarks(cs: seq<CollectiveOperation>): set<Mark> {
    set c, m | c in cs && m in c.marks :: m
  }

  ghost function Pids(marks: set<Mark>, pid: Mark -> nat): set<nat> {
    set m | m in marks :: pid(m)
  }

  /** No process has called an operation twice. */
  ghost predicate OnePerProcess(c: CollectiveOperation, pid: Mark -> nat) {
    forall m, k :: m in c.marks && k in c.marks && pid(m) == pid(k) ==> m == k
  }

  /** The calls of one operation, by the same processes in both markings. */
  ghost predicate SameCalls(c: CollectiveOperation, d: CollectiveOperation, pid: Mark -> nat) {
    && SameKey(c, d) && c.size == d.size && OnePerProcess(c, pid) && OnePerProcess(d, pid)
    && Pids(c.marks.Keys, pid) == Pids(d.marks.Keys, pid)
  }

  ghost predicate SendsNamed(s: Marks) {
    forall id :: id in s.ssend ==> s.ssend[id].request == id && RequestType(id) == SEND_STD
  }

  /** Every call is one of one open operation, and nothing waits for it yet; `pid` is the process of a mark. */
  ghost predicate CallsApart(s: Marks, pid: Mark -> nat) {
    && UniqueOps(s.collectives)
    && (forall m :: m in CallMarks(s.collectives) ==> RequestType(m.request) == COLLECTIVE && m !in s.terminate)
    && (forall c, d, m :: c in s.collectives && d in s.collectives && m in c.marks && m in d.marks ==> c == d)
    && (forall c :: c in s.collectives ==> OnePerProcess(c, pid))
  }

  /** What holds of every marking that comes about. */
  ghost predicate MarkingOk(s: Marks, pid: Mark -> nat) {
    Inv(s) && SendsNamed(s) && CallsApart(s, pid)
  }

  /** What two markings of one state of the program have in common: processes, requests, and who has called the
      operations that are open in both. */
  ghost predicate SameState(s: Marks, u: Marks, pid: Mark -> nat) {
    && |s.process| == |u.process| && s.active.Keys == u.active.Keys && s.finished.Keys == u.finished.Keys
    && (forall c, d :: c in s.collectives && d in u.collectives && SameKey(c, d) ==>
          c.size == d.size && Pids(c.marks.Keys, pid) == Pids(d.marks.Keys, pid))
  }

  predicate HasPartner(c: CollectiveOperation, ds: seq<CollectiveOperation>) {
    exists d :: d in ds && SameKey(c, d)
  }

  /** Every open operation of `s` is open in `u`. */
  ghost predicate Partnered(s: Marks, u: Marks) {
    forall c :: c in s.collectives ==> HasPartner(c, u.collectives)
  }

  /** The same sends are pending. */
  ghost predicate SameSends(s: Marks, u: Marks, pid: Mark -> nat) {
    && SendsNamed(s) && CallsApart(s, pid) && CallsApart(u, pid) && SameState(s, u, pid)
    && s.ssend.Keys == u.ssend.Keys
  }

  /** Nothing keeps the markings from being compared. */
  ghost predicate Comparable(s: Marks, u: Marks, pid: Mark -> nat) {
    SameSends(s, u, pid) && Partnered(s, u)
  }

  /** What a mapping makes of a set of marks. */
  function Applied(mapping: Mapping, r: set<Mark>): set<Mark> {
    set m | m in r && m in mapping :: mapping[m]
  }

  predicate DictsAgree(mapping: Mapping, d1: map<RequestId, set<Mark>>, d2: map<RequestId, set<Mark>>)
  {
    forall k | k in d1 :: k in d2 && Applied(mapping, d1[k]) == d2[k]
  }

  /** `mapping` goes on as `base` does, and maps `from` one-to-one into `to`. */
  ghost predicate Matches(from: set<Mark>, to: set<Mark>, base: Mapping, mapping: Mapping) {
    && mapping.Keys == base.Keys + from
    && (forall m :: m in base && m !in from ==> mapping[m] == base[m])
    && (forall m :: m in from ==> mapping[m] in to)
    && (forall m, k :: m in from && k in from && mapping[m] == mapping[k] ==> m == k)
  }

  lemma MatchesOneMore(from: set<Mark>, to: set<Mark>, base: Mapping, v: Mark, y: Mark, mapping: Mapping)
    requires v !in from && y in to
    ensures Matches(from, to - {y}, base[v := y], mapping)
            <==> Matches(from + {v}, to, base, mapping) && mapping[v] == y
  {
    if Matches(from, to - {y}, base[v := y], mapping) {
      assert mapping.Keys == base.Keys + (from + {v});
      assert mapping[v] == y;
      assert forall m :: m in from ==> mapping[m] != y;
    }
    if Matches(from + {v}, to, base, mapping) && mapping[v] == y {
      assert mapping.Keys == base[v := y].Keys + from;
      forall m | m in from ensures mapping[m] in to - {y} {
        assert m in from + {v} && v in from + {v};
      }
    }
  }

  function Items(items: seq<Mark>): set<Mark> {
    set m | m in items
  }

  ghost predicate Unrepeated(items: seq<Mark>) {
    forall j, k :: 0 <= j < k < |items| ==> items[j] != items[k]
  }

  lemma RestHas(items: seq<Mark>, i: nat)
    requires Unrepeated(items) && i < |items|
    ensures var rest := items[..i] + items[i + 1..]; Unrepeated(rest) && Items(rest) == Items(items) - {items[i]}
  {
    var rest := items[..i] + items[i + 1..];
    forall m | m in items && m != items[i] ensures m in rest {
      var k :| 0 <= k < |items| && items[k] == m;
      assert rest[if k < i then k else k - 1] == m;
    }
  }

  /** build_equivalence: every way to map the first list one-to-one to the second. */
  method BuildEquivalence(items1: seq<Mark>, items2: seq<Mark>, mapping: Mapping) returns (results: seq<Mapping>)
    requires Unrepeated(items1) && Unrepeated(items2)
    ensures forall m :: m in results <==> |items1| == |items2| && Matches(Items(items1), Items(items2), mapping, m)
    decreases |items1|
  {
    if |items1| != |items2| {
      return [];
    }
    if |items1| == 0 {
      NoItems(Items(items2), mapping);
      return [mapping];
    }
    var n := |items1| - 1;
    results := [];
    for i := 0 to |items2|
      invariant forall m :: m in results <==>
                  Matches(Items(items1), Items(items2), mapping, m) && m[items1[n]] in items2[..i]
    {
      RestHas(items1, n);
      RestHas(items2, i);
      assert items1[..n] + items1[n + 1..] == items1[..n] && Items(items1[..n]) + {items1[n]} == Items(items1);
      var more := BuildEquivalence(items1[..n], items2[..i] + items2[i + 1..], mapping[items1[n] := items2[i]]);
      forall m: Mapping
        ensures m in more <==> Matches(Items(items1), Items(items2), mapping, m) && m[items1[n]] == items2[i]
      {
        MatchesOneMore(Items(items1[..n]), Items(items2), mapping, items1[n], items2[i], m);
      }
      assert items2[..i + 1] == items2[..i] + [items2[i]];
      results := results + more;
    }
    assert items2[..|items2|] == items2;
  }

  lemma NoItems(to: set<Mark>, mapping: Mapping)
    ensures forall m :: m in [mapping] <==> Matches({}, to, mapping, m)
  {
    forall m | Matches({}, to, mapping, m) ensures m == mapping {
      assert m.Keys == mapping.Keys;
    }
  }

  ghost function KnownMarks(s: Marks): set<Mark> {
    SendMarks(s) + CallMarks(s.collectives) + s.terminate.Keys
  }

  /** The mapping that pairs the marks of pending sends by request, and those of open calls by process. */
  ghost predicate Pairs(mapping: Mapping, s: Marks, u: Marks, pid: Mark -> nat) {
    && mapping.Keys == SendMarks(s) + CallMarks(s.collectives)
    && (forall id :: id in s.ssend ==> id in u.ssend && mapping[s.ssend[id]] == u.ssend[id])
    && (forall c, m :: c in s.collectives && m in c.marks ==> IsPartner(u, pid, c, m, mapping[m]))
  }

  /** Mark `k` is the call of the same operation by the same process. */
  ghost predicate IsPartner(u: Marks, pid: Mark -> nat, c: CollectiveOperation, m: Mark, k: Mark) {
    exists d :: d in u.collectives && SameKey(c, d) && k in d.marks && pid(k) == pid(m)
  }

  /** A mapping that is tried: it pairs sends and calls, and maps the marks with wait sets to each other. */
  ghost predicate Candidate(mapping: Mapping, s: Marks, u: Marks, pid: Mark -> nat) {
    |s.terminate| == |u.terminate|
    && exists base :: Pairs(base, s, u, pid) && Matches(s.terminate.Keys, u.terminate.Keys, base, mapping)
  }

  /** What is compared: the requests and the wait sets. */
  predicate Accepts(mapping: Mapping, s: Marks, u: Marks) {
    && DictsAgree(mapping, s.active, u.active) && DictsAgree(mapping, s.finished, u.finished)
    && forall m :: m in s.terminate ==>
         m in mapping && mapping[m] in u.terminate && Applied(mapping, s.terminate[m]) == u.terminate[mapping[m]]
  }

  ghost predicate OneToOne(mapping: Mapping) {
    forall m, k :: m in mapping && k in mapping && mapping[m] == mapping[k] ==> m == k
  }

  /** What is not compared: the marks of the processes and of the open operations, the pending sends that wait, that
      different marks are mapped to different ones, and that no further operation is open. */
  ghost predicate RestAgrees(mapping: Mapping, s: Marks, u: Marks) {
    && OneToOne(mapping)
    && (forall i :: 0 <= i < |s.process| && i < |u.process| ==> Applied(mapping, s.process[i]) == u.process[i])
    && (forall id :: id in s.ssend && id in u.ssend && s.ssend[id] in mapping ==>
          mapping[s.ssend[id]] == u.ssend[id])
    && (forall c, d :: c in s.collectives && d in u.collectives && SameKey(c, d) ==> CallsAgree(mapping, c, d))
    && (forall d :: d in u.collectives ==> HasPartner(d, s.collectives))
  }

  ghost predicate CallsAgree(mapping: Mapping, c: CollectiveOperation, d: CollectiveOperation) {
    forall m :: m in c.marks ==>
      m in mapping && mapping[m] in d.marks && Applied(mapping, c.marks[m]) == d.marks[mapping[m]]
  }

  // ---- a mapping and a renaming --------------------------------------------------------------------

  ghost predicate Extends(f: Naming, mapping: Mapping) {
    forall m :: m in mapping ==> f(m) == mapping[m]
  }

  function Swap(y: Mark, z: Mark, m: Mark): Mark {
    if m == y then z else if m == z then y else m
  }

  /** A one-to-one mapping is part of a renaming of all marks that leaves other marks alone. */
  lemma {:induction false} Extension(mapping: Mapping) returns (f: Naming, g: Naming)
    requires OneToOne(mapping)
    ensures Inverse(f, g) && Extends(f, mapping)
    ensures forall m :: m !in mapping.Keys && m !in mapping.Values ==> f(m) == m
    decreases |mapping|
  {
    hide Swap, Extends;
    if x :| x in mapping {
      var rest := mapping - {x};
      assert |rest.Keys| == |mapping.Keys - {x}|;
      assert OneToOne(rest) by { OneLess(mapping, x); }
      var f0, g0 := Extension(rest);
      f, g := m => Swap(mapping[x], f0(x), f0(m)), m => g0(Swap(mapping[x], f0(x), m));
      Swapped(f0, g0, f, g, mapping[x], f0(x));
      ExtendsMore(mapping, x, f0, g0, f);
    } else {
      f, g := m => m, m => m;
      assert Extends(f, mapping) by { NothingExtended(f, mapping); }
    }
  }

  lemma NothingExtended(f: Naming, mapping: Mapping)
    requires mapping == map[]
    ensures Extends(f, mapping)
  {
  }

  lemma OneLess(mapping: Mapping, x: Mark)
    requires OneToOne(mapping) && x in mapping
    ensures OneToOne(mapping - {x})
  {
    var rest := mapping - {x};
    forall m, k | m in rest && k in rest && rest[m] == rest[k] ensures m == k {
      assert mapping[m] == mapping[k];
    }
  }

  lemma Swapped(f0: Naming, g0: Naming, f: Naming, g: Naming, y: Mark, z: Mark)
    requires Inverse(f0, g0)
    requires (forall m :: f(m) == Swap(y, z, f0(m))) && forall m :: g(m) == g0(Swap(y, z, m))
    ensures Inverse(f, g)
  {
    forall m ensures g(f(m)) == m && f(g(m)) == m {
      assert g(f(m)) == g0(Swap(y, z, Swap(y, z, f0(m))));
      assert f(g(m)) == Swap(y, z, f0(g0(Swap(y, z, m))));
    }
  }

  lemma ExtendsMore(mapping: Mapping, x: Mark, f0: Naming, g0: Naming, f: Naming)
    requires OneToOne(mapping) && x in mapping && Inverse(f0, g0) && Extends(f0, mapping - {x})
    requires forall m :: f(m) == Swap(mapping[x], f0(x), f0(m))
    requires forall m :: m !in (mapping - {x}).Keys && m !in (mapping - {x}).Values ==> f0(m) == m
    ensures Extends(f, mapping)
    ensures forall m :: m !in mapping.Keys && m !in mapping.Values ==> f(m) == m
  {
    var rest := mapping - {x};
    forall m | m in mapping ensures f(m) == mapping[m] {
      if m != x {
        assert rest[m] == mapping[m] && f0(m) == mapping[m];
        assert g0(f0(m)) != g0(f0(x));
        assert mapping[m] != mapping[x];
      }
    }
    forall m | m !in mapping.Keys && m !in mapping.Values ensures f(m) == m {
      assert m !in rest.Values;
      assert f0(m) == m;
      assert g0(f0(m)) != g0(f0(x));
      assert mapping[x] in mapping.Values;
    }
  }

  lemma AppliedIsImage(f: Naming, mapping: Mapping, r: set<Mark>)
    requires Extends(f, mapping) && r <= mapping.Keys
    ensures Applied(mapping, r) == Image(f, r)
  {
  }

  lemma KnownMark(s: Marks, m: Mark)
    requires Known(s, m)
    ensures m in KnownMarks(s)
  {
  }

  /** Every mark in a set is known, so that no look-up in the mapping fails. */
  lemma {:induction false} NoLookupFails(s: Marks, mapping: Mapping)
    requires Inv(s) && mapping.Keys == KnownMarks(s)
    ensures forall i :: 0 <= i < |s.process| ==> s.process[i] <= mapping.Keys
    ensures forall id :: id in s.active ==> s.active[id] <= mapping.Keys
    ensures forall id :: id in s.finished ==> s.finished[id] <= mapping.Keys
    ensures forall m :: m in s.terminate ==> s.terminate[m] <= mapping.Keys
    ensures forall c, m :: c in s.collectives && m in c.marks ==> c.marks[m] <= mapping.Keys
  {
    hide Known, KnownMarks;
    forall m | Known(s, m) ensures m in mapping.Keys {
      KnownMark(s, m);
    }
    forall c, m | c in s.collectives && m in c.marks ensures c.marks[m] <= mapping.Keys {
      assert TableKnownExcept(s, c.marks, {});
    }
  }

  lemma CallsDoNotWait(s: Marks, u: Marks, pid: Mark -> nat)
    requires Comparable(s, u, pid)
    ensures forall m :: m in CallMarks(s.collectives) ==> m !in s.terminate
    ensures forall c, m :: c in s.collectives && m in c.marks ==> m in CallMarks(s.collectives)
  {
  }

  lemma {:induction false} CandidateKeys(mapping: Mapping, s: Marks, u: Marks, pid: Mark -> nat)
    requires Comparable(s, u, pid) && Candidate(mapping, s, u, pid)
    ensures mapping.Keys == KnownMarks(s)
    ensures forall m :: m in s.terminate ==> m in mapping && mapping[m] in u.terminate
    ensures forall c, m :: c in s.collectives && m in c.marks ==> IsPartner(u, pid, c, m, mapping[m])
  {
    hide IsPartner, CallMarks, SendMarks;
    CallsDoNotWait(s, u, pid);
    hide Comparable;
    var base :| Pairs(base, s, u, pid) && Matches(s.terminate.Keys, u.terminate.Keys, base, mapping);
    forall c, m | c in s.collectives && m in c.marks ensures IsPartner(u, pid, c, m, mapping[m]) {
      assert m in base && mapping[m] == base[m];
    }
  }

  lemma SameTable(f: Naming, g: Naming, t: map<Mark, set<Mark>>, v: map<Mark, set<Mark>>)
    requires Inverse(f, g) && |t| == |v| && forall m :: m in t ==> f(m) in v && v[f(m)] == Image(f, t[m])
    ensures Table(f, g, t) == v
  {
    ImageSize(f, g, t.Keys);
    assert Image(f, t.Keys) <= v.Keys;
    SameSize(Image(f, t.Keys), v.Keys);
    forall m | m in v ensures Table(f, g, t)[m] == v[m] {
      TableHas(f, g, t, m);
      assert f(g(m)) == m;
    }
  }

  lemma SameSize(a: set<Mark>, b: set<Mark>)
    requires a <= b && |a| == |b|
    ensures a == b
  {
    assert |b - a| == |b| - |a|;
    assert b - a == {};
  }

  lemma SameNumberOfCalls(c: CollectiveOperation, d: CollectiveOperation, pid: Mark -> nat)
    requires SameCalls(c, d, pid)
    ensures |c.marks| == |d.marks|
  {
    PidsAreMany(c.marks.Keys, pid);
    PidsAreMany(d.marks.Keys, pid);
  }

  lemma {:induction false} PidsAreMany(marks: set<Mark>, pid: Mark -> nat)
    requires forall m, k :: m in marks && k in marks && pid(m) == pid(k) ==> m == k
    ensures |Pids(marks, pid)| == |marks|
  {
    if x :| x in marks {
      PidsAreMany(marks - {x}, pid);
      assert Pids(marks, pid) == Pids(marks - {x}, pid) + {pid(x)};
      assert pid(x) !in Pids(marks - {x}, pid);
    } else {
      assert marks == {};
      assert Pids(marks, pid) == {};
    }
  }

  /** When an accepted mapping agrees with the rest, the one marking is a renaming of the other. */
  lemma {:induction false} RestGivesRenaming(mapping: Mapping, s: Marks, u: Marks, pid: Mark -> nat, f: Naming,
                                             g: Naming)
    requires Inv(s) && Comparable(s, u, pid) && Candidate(mapping, s, u, pid) && Accepts(mapping, s, u)
    requires RestAgrees(mapping, s, u) && Inverse(f, g) && Extends(f, mapping)
    ensures Renamed(f, g, s, u)
  {
    var r := Renaming(f, g, s);
    CandidateKeys(mapping, s, u, pid);
    NoLookupFails(s, mapping);
    RestOfFields(mapping, s, u, pid, f, g);
    OpsGiveRenaming(mapping, s, u, pid, f, g);
    hide Comparable, Candidate, Accepts, RestAgrees, SameOps, Inv;
    assert u == r.(collectives := u.collectives);
  }

  lemma {:induction false} RestOfFields(mapping: Mapping, s: Marks, u: Marks, pid: Mark -> nat, f: Naming, g: Naming)
    requires Inv(s) && Comparable(s, u, pid) && |s.terminate| == |u.terminate| && Accepts(mapping, s, u)
    requires RestAgrees(mapping, s, u) && Inverse(f, g) && Extends(f, mapping) && mapping.Keys == KnownMarks(s)
    ensures var r := Renaming(f, g, s);
            r.process == u.process && r.active == u.active && r.finished == u.finished && r.ssend == u.ssend
            && r.terminate == u.terminate
  {
    NoLookupFails(s, mapping);
    ComparableKeys(s, u, pid);
    RestHolds(mapping, s, u);
    assert DictsAgree(mapping, s.active, u.active) && DictsAgree(mapping, s.finished, u.finished);
    WaitsAgree(mapping, s, u, f);
    hide Comparable, Accepts, RestAgrees, Inv, KnownMarks, DictsAgree, OneToOne, Extends, Applied, Image, Table,
         Inverse;
    ProcessesAgree(mapping, s.process, u.process, f);
    ValuesAgree(mapping, s.active, u.active, f);
    ValuesAgree(mapping, s.finished, u.finished, f);
    SendsAgree(mapping, s, u, f);
    SameTable(f, g, s.terminate, u.terminate);
    RenamingFields(f, g, s);
  }

  lemma RenamingFields(f: Naming, g: Naming, s: Marks)
    requires Inverse(f, g)
    ensures var r := Renaming(f, g, s);
            r.process == ProcessRenamed(f, s.process) && r.active == Values(f, s.active)
            && r.finished == Values(f, s.finished) && r.ssend == SendsRenamed(f, s.ssend)
            && r.terminate == Table(f, g, s.terminate) && r.collectives == OpsRenamed(f, g, s.collectives)
  {
  }

  lemma ComparableKeys(s: Marks, u: Marks, pid: Mark -> nat)
    requires Comparable(s, u, pid)
    ensures |s.process| == |u.process| && s.active.Keys == u.active.Keys && s.finished.Keys == u.finished.Keys
            && s.ssend.Keys == u.ssend.Keys
  {
  }

  lemma RestHolds(mapping: Mapping, s: Marks, u: Marks)
    requires RestAgrees(mapping, s, u) && |s.process| == |u.process| && s.ssend.Keys == u.ssend.Keys
    requires mapping.Keys == KnownMarks(s)
    ensures OneToOne(mapping) && (forall i :: 0 <= i < |s.process| ==> Applied(mapping, s.process[i]) == u.process[i])
    ensures forall id :: id in s.ssend ==> s.ssend[id] in mapping && mapping[s.ssend[id]] == u.ssend[id]
  {
    forall id | id in s.ssend ensures s.ssend[id] in mapping {
      assert s.ssend[id] in SendMarks(s);
    }
  }

  lemma ProcessesAgree(mapping: Mapping, p: seq<set<Mark>>, q: seq<set<Mark>>, f: Naming)
    requires |p| == |q| && Extends(f, mapping)
    requires forall i :: 0 <= i < |p| ==> p[i] <= mapping.Keys && Applied(mapping, p[i]) == q[i]
    ensures ProcessRenamed(f, p) == q
  {
    forall i | 0 <= i < |p| ensures ProcessRenamed(f, p)[i] == q[i] {
      AppliedIsImage(f, mapping, p[i]);
    }
  }

  lemma ValuesAgree(mapping: Mapping, d1: map<RequestId, set<Mark>>, d2: map<RequestId, set<Mark>>, f: Naming)
    requires d1.Keys == d2.Keys && DictsAgree(mapping, d1, d2) && Extends(f, mapping)
    requires forall k :: k in d1 ==> d1[k] <= mapping.Keys
    ensures Values(f, d1) == d2
  {
    forall k | k in d1 ensures Values(f, d1)[k] == d2[k] {
      AppliedIsImage(f, mapping, d1[k]);
    }
  }

  lemma SendsAgree(mapping: Mapping, s: Marks, u: Marks, f: Naming)
    requires s.ssend.Keys == u.ssend.Keys && Extends(f, mapping)
    requires forall id :: id in s.ssend ==> s.ssend[id] in mapping && mapping[s.ssend[id]] == u.ssend[id]
    ensures SendsRenamed(f, s.ssend) == u.ssend
  {
  }

  lemma WaitsAgree(mapping: Mapping, s: Marks, u: Marks, f: Naming)
    requires Accepts(mapping, s, u) && Extends(f, mapping)
    requires forall m :: m in s.terminate ==> s.terminate[m] <= mapping.Keys
    ensures forall m :: m in s.terminate ==> f(m) in u.terminate && u.terminate[f(m)] == Image(f, s.terminate[m])
  {
    forall m | m in s.terminate
      ensures f(m) in u.terminate && u.terminate[f(m)] == Image(f, s.terminate[m])
    {
      AppliedIsImage(f, mapping, s.terminate[m]);
    }
  }

  lemma {:induction false} OpsGiveRenaming(mapping: Mapping, s: Marks, u: Marks, pid: Mark -> nat, f: Naming,
                                           g: Naming)
    requires Inv(s) && Comparable(s, u, pid) && mapping.Keys == KnownMarks(s)
    requires RestAgrees(mapping, s, u) && Inverse(f, g) && Extends(f, mapping)
    ensures SameOps(OpsRenamed(f, g, s.collectives), u.collectives)
  {
    hide CallsAgree, SameCalls, Inverse, OneToOne, Extends, UniqueOps, Inv, KnownMarks, Comparable, HasPartner;
    ComparableOps(s, u, pid);
    assert forall c, m :: c in s.collectives && m in c.marks ==> c.marks[m] <= mapping.Keys by {
      NoLookupFails(s, mapping);
    }
    forall c, d | c in s.collectives && d in u.collectives && SameCalls(c, d, pid) ensures OpRenamed(f, g, c) == d {
      SameCallsKey(c, d, pid);
      OpGivesRenaming(mapping, c, d, pid, f, g);
    }
    var r := OpsRenamed(f, g, s.collectives);
    RenamedKeys(s.collectives, r);
    forall e ensures e in r <==> e in u.collectives {
      RenamedHas(f, g, s.collectives, e);
      if e in r {
        var c :| c in s.collectives && OpRenamed(f, g, c) == e;
        var d := CallsThere(s, u, pid, c);
      }
      if e in u.collectives {
        var c := CallsHere(mapping, s, u, pid, e);
      }
    }
  }

  lemma ComparableOps(s: Marks, u: Marks, pid: Mark -> nat)
    requires Comparable(s, u, pid)
    ensures UniqueOps(s.collectives) && UniqueOps(u.collectives)
  {
  }

  lemma {:induction false} CallsThere(s: Marks, u: Marks, pid: Mark -> nat, c: CollectiveOperation)
    returns (d: CollectiveOperation)
    requires Comparable(s, u, pid) && c in s.collectives
    ensures d in u.collectives && SameCalls(c, d, pid)
  {
    hide OnePerProcess, Pids, CallMarks, SameKey;
    assert HasPartner(c, u.collectives);
    d :| d in u.collectives && SameKey(c, d);
  }

  lemma {:induction false} CallsHere(mapping: Mapping, s: Marks, u: Marks, pid: Mark -> nat, d: CollectiveOperation)
    returns (c: CollectiveOperation)
    requires Comparable(s, u, pid) && RestAgrees(mapping, s, u) && d in u.collectives
    ensures c in s.collectives && SameCalls(c, d, pid)
  {
    hide OnePerProcess, Pids, CallMarks, CallsAgree, Applied, Partnered;
    assert HasPartner(d, s.collectives);
    c :| c in s.collectives && SameKey(d, c);
  }

  lemma RenamedKeys(a: seq<CollectiveOperation>, b: seq<CollectiveOperation>)
    requires |a| == |b| && UniqueOps(a) && forall i :: 0 <= i < |a| ==> SameKey(a[i], b[i])
    ensures UniqueOps(b)
  {
    forall i, j | 0 <= i < j < |b| ensures !SameKey(b[i], b[j]) {
      assert !SameKey(a[i], a[j]);
    }
  }

  lemma RenamedHas(f: Naming, g: Naming, cs: seq<CollectiveOperation>, e: CollectiveOperation)
    requires Inverse(f, g)
    ensures e in OpsRenamed(f, g, cs) <==> exists c :: c in cs && OpRenamed(f, g, c) == e
  {
    var r := OpsRenamed(f, g, cs);
    if e in r {
      var i :| 0 <= i < |r| && r[i] == e;
      assert cs[i] in cs;
    }
    if c :| c in cs && OpRenamed(f, g, c) == e {
      var i :| 0 <= i < |cs| && cs[i] == c;
      assert r[i] == e;
    }
  }

  lemma SameCallsKey(c: CollectiveOperation, d: CollectiveOperation, pid: Mark -> nat)
    requires SameCalls(c, d, pid)
    ensures SameKey(c, d) && c.size == d.size
  {
  }

  lemma {:induction false} OpGivesRenaming(mapping: Mapping, c: CollectiveOperation, d: CollectiveOperation,
                                           pid: Mark -> nat, f: Naming, g: Naming)
    requires SameCalls(c, d, pid) && CallsAgree(mapping, c, d) && Inverse(f, g) && Extends(f, mapping)
    requires forall m :: m in c.marks ==> c.marks[m] <= mapping.Keys
    ensures OpRenamed(f, g, c) == d
  {
    hide Inverse, Image, Applied;
    SameNumberOfCalls(c, d, pid);
    forall m | m in c.marks ensures f(m) in d.marks && d.marks[f(m)] == Image(f, c.marks[m]) {
      AppliedIsImage(f, mapping, c.marks[m]);
    }
    SameTable(f, g, c.marks, d.marks);
  }

  /** When a renaming goes on as an accepted mapping does, the mapping agrees with the rest. */
  lemma {:induction false} RenamingGivesRest(mapping: Mapping, s: Marks, u: Marks, pid: Mark -> nat, f: Naming,
                                             g: Naming)
    requires Inv(s) && Comparable(s, u, pid) && Candidate(mapping, s, u, pid)
    requires Extends(f, mapping) && Renamed(f, g, s, u)
    ensures RestAgrees(mapping, s, u)
  {
    CandidateKeys(mapping, s, u, pid);
    NoLookupFails(s, mapping);
    RenamedFields(f, g, s, u);
    hide Candidate, Inv, Applied, Image, CallsAgree, SameCalls, Comparable, Renamed, IsPartner;
    assert OneToOne(mapping) by { RenamingIsOneToOne(mapping, f, g); }
    forall i | 0 <= i < |s.process| ensures Applied(mapping, s.process[i]) == u.process[i] {
      AppliedIsImage(f, mapping, s.process[i]);
    }
    forall d | d in u.collectives ensures HasPartner(d, s.collectives) {
      RenamedOpHas(f, g, s, u, d);
    }
    forall c, d | c in s.collectives && d in u.collectives && SameKey(c, d) ensures CallsAgree(mapping, c, d) {
      RenamedOpIs(f, g, s, u, c, d);
      CallsAreKnown(s, c);
      RenamedCallsAgree(mapping, c, f, g);
    }
  }

  lemma RenamedFields(f: Naming, g: Naming, s: Marks, u: Marks)
    requires Renamed(f, g, s, u)
    ensures Inverse(f, g) && |u.process| == |s.process|
    ensures forall i :: 0 <= i < |s.process| ==> u.process[i] == Image(f, s.process[i])
    ensures forall id :: id in s.ssend ==> id in u.ssend && u.ssend[id] == f(s.ssend[id])
  {
  }

  lemma RenamingIsOneToOne(mapping: Mapping, f: Naming, g: Naming)
    requires Inverse(f, g) && Extends(f, mapping)
    ensures OneToOne(mapping)
  {
    forall m, k | m in mapping && k in mapping && mapping[m] == mapping[k] ensures m == k {
      assert g(f(m)) == g(f(k));
    }
  }

  lemma CallsAreKnown(s: Marks, c: CollectiveOperation)
    requires c in s.collectives
    ensures c.marks.Keys <= KnownMarks(s)
  {
    assert c.marks.Keys <= CallMarks(s.collectives);
  }

  lemma RenamedOpHas(f: Naming, g: Naming, s: Marks, u: Marks, d: CollectiveOperation)
    requires Renamed(f, g, s, u) && d in u.collectives
    ensures HasPartner(d, s.collectives)
  {
    var r := OpsRenamed(f, g, s.collectives);
    assert d in r;
    var i :| 0 <= i < |r| && r[i] == d;
    assert s.collectives[i] in s.collectives && SameKey(d, s.collectives[i]);
  }

  lemma RenamedOpIs(f: Naming, g: Naming, s: Marks, u: Marks, c: CollectiveOperation, d: CollectiveOperation)
    requires Renamed(f, g, s, u) && c in s.collectives && d in u.collectives && SameKey(c, d)
    ensures d == OpRenamed(f, g, c)
  {
    var i :| 0 <= i < |s.collectives| && s.collectives[i] == c;
    assert OpsRenamed(f, g, s.collectives)[i] == OpRenamed(f, g, c);
    assert OpRenamed(f, g, c) in u.collectives;
  }

  lemma RenamedCallsAgree(mapping: Mapping, c: CollectiveOperation, f: Naming, g: Naming)
    requires Inverse(f, g) && Extends(f, mapping) && c.marks.Keys <= mapping.Keys
    requires forall m :: m in c.marks ==> c.marks[m] <= mapping.Keys
    ensures CallsAgree(mapping, c, OpRenamed(f, g, c))
  {
    forall m | m in c.marks ensures f(m) in OpRenamed(f, g, c).marks && Applied(mapping, c.marks[m])
                                                                         == OpRenamed(f, g, c).marks[f(m)] {
      TableHas(f, g, c.marks, f(m));
      AppliedIsImage(f, mapping, c.marks[m]);
    }
  }

  /** What it takes for the test to be right about a mapping that it accepts: exactly then is the dropped marking a
      renaming of the one that stays when the mapping also agrees with what is not compared. */
  lemma {:induction false} AcceptedIsRenaming(mapping: Mapping, s: Marks, u: Marks, pid: Mark -> nat)
    requires Inv(s) && Comparable(s, u, pid) && Candidate(mapping, s, u, pid) && Accepts(mapping, s, u)
    ensures RestAgrees(mapping, s, u) <==> exists f, g :: Extends(f, mapping) && Renamed(f, g, s, u)
  {
    hide Inv, Comparable, Candidate, Accepts, Renamed, Extends;
    if RestAgrees(mapping, s, u) {
      var f, g := Extension(mapping);
      RestGivesRenaming(mapping, s, u, pid, f, g);
    }
    if f, g :| Extends(f, mapping) && Renamed(f, g, s, u) {
      RenamingGivesRest(mapping, s, u, pid, f, g);
    }
  }

  lemma RestIsOneToOne(mapping: Mapping, s: Marks, u: Marks)
    requires RestAgrees(mapping, s, u)
    ensures OneToOne(mapping)
  {
  }

  // ---- is_covered_by ---------------------------------------------------------------------------------

  /** Lists a set of marks in some order. */
  method ListOf(marks: set<Mark>) returns (items: seq<Mark>)
    ensures Unrepeated(items) && Items(items) == marks && |items| == |marks|
  {
    items := [];
    var rest := marks;
    while rest != {}
      invariant Unrepeated(items) && Items(items) == marks - rest && rest <= marks && |items| + |rest| == |marks|
      decreases rest
    {
      var m :| m in rest;
      assert m !in Items(items) && Items(items + [m]) == Items(items) + {m};
      items, rest := items + [m], rest - {m};
    }
  }

  /** Sorted by process, the calls of an operation in one marking are paired with those in the other. */
  method PairCalls(c: CollectiveOperation, d: CollectiveOperation, pid: Mark -> nat) returns (own: Mapping)
    requires SameCalls(c, d, pid)
    ensures own.Keys == c.marks.Keys && forall m :: m in own ==> own[m] in d.marks && pid(own[m]) == pid(m)
  {
    own := map[];
    var calls := c.marks.Keys;
    while calls != {}
      invariant calls <= c.marks.Keys && own.Keys == c.marks.Keys - calls
      invariant forall m :: m in own ==> own[m] in d.marks && pid(own[m]) == pid(m)
      decreases calls
    {
      var m :| m in calls;
      assert pid(m) in Pids(d.marks.Keys, pid) by {
        assert pid(m) in Pids(c.marks.Keys, pid);
      }
      var k :| k in d.marks && pid(k) == pid(m);
      own, calls := own[m := k], calls - {m};
    }
  }

  lemma {:induction false} PartnerFound(s: Marks, u: Marks, pid: Mark -> nat, c: CollectiveOperation)
    requires SameSends(s, u, pid) && c in s.collectives
    ensures var j := FindCollective(u.collectives, c.commId, c.ccId);
            if j < |u.collectives| then HasPartner(c, u.collectives) && SameCalls(c, u.collectives[j], pid)
            else !HasPartner(c, u.collectives)
  {
    hide OnePerProcess, Pids, CallMarks;
    var j := FindCollective(u.collectives, c.commId, c.ccId);
    if j < |u.collectives| {
      assert u.collectives[j] in u.collectives && SameKey(c, u.collectives[j]);
    } else {
      forall d | d in u.collectives ensures !SameKey(c, d) {
        var k :| 0 <= k < |u.collectives| && u.collectives[k] == d;
      }
    }
  }

  /** What the mapping says of the first `k` open operations. */
  ghost predicate PairsUpTo(mapping: Mapping, s: Marks, u: Marks, pid: Mark -> nat, k: nat)
    requires k <= |s.collectives|
  {
    && mapping.Keys == SendMarks(s) + CallMarks(s.collectives[..k])
    && (forall id :: id in s.ssend ==> id in u.ssend && mapping[s.ssend[id]] == u.ssend[id])
    && (forall c, m :: c in s.collectives[..k] && m in c.marks ==> IsPartner(u, pid, c, m, mapping[m]))
  }

  lemma KindsDiffer(s: Marks, u: Marks, pid: Mark -> nat, c: CollectiveOperation)
    requires SameSends(s, u, pid) && c in s.collectives
    ensures forall id :: id in s.ssend ==> s.ssend[id] !in c.marks && s.ssend[id] in SendMarks(s)
    ensures forall d, m :: d in s.collectives && m in c.marks && m in d.marks ==> c == d
  {
    forall id | id in s.ssend ensures s.ssend[id] !in c.marks && s.ssend[id] in SendMarks(s) {
      assert s.ssend[id] in c.marks ==> s.ssend[id] in CallMarks(s.collectives);
    }
  }

  lemma {:induction false} PairedMore(s: Marks, u: Marks, pid: Mark -> nat, k: nat, mapping: Mapping, own: Mapping,
                                      d: CollectiveOperation)
    requires SameSends(s, u, pid) && k < |s.collectives| && PairsUpTo(mapping, s, u, pid, k)
    requires d in u.collectives && SameKey(s.collectives[k], d) && own.Keys == s.collectives[k].marks.Keys
    requires forall m :: m in own ==> own[m] in d.marks && pid(own[m]) == pid(m)
    ensures PairsUpTo(mapping + own, s, u, pid, k + 1)
  {
    hide SameSends, CallMarks, SendMarks, IsPartner;
    var c, more := s.collectives[k], mapping + own;
    KindsDiffer(s, u, pid, c);
    CallsMore(s.collectives, k);
    forall m | m in own ensures IsPartner(u, pid, c, m, own[m]) {
      OwnPartner(u, pid, c, d, m, own[m]);
    }
    forall id | id in s.ssend ensures id in u.ssend && more[s.ssend[id]] == u.ssend[id] {
      assert s.ssend[id] !in own;
    }
    forall e, m | e in s.collectives[..k + 1] && m in e.marks ensures IsPartner(u, pid, e, m, more[m]) {
      if m in own {
        assert e == c && more[m] == own[m];
      } else {
        assert e in s.collectives[..k] && more[m] == mapping[m];
      }
    }
  }

  lemma OwnPartner(u: Marks, pid: Mark -> nat, c: CollectiveOperation, d: CollectiveOperation, m: Mark, k: Mark)
    requires d in u.collectives && SameKey(c, d) && k in d.marks && pid(k) == pid(m)
    ensures IsPartner(u, pid, c, m, k)
  {
  }

  lemma CallsMore(cs: seq<CollectiveOperation>, k: nat)
    requires k < |cs|
    ensures CallMarks(cs[..k + 1]) == CallMarks(cs[..k]) + cs[k].marks.Keys
    ensures forall c :: c in cs[..k + 1] <==> c in cs[..k] || c == cs[k]
    ensures forall c, m :: c in cs[..k] && m in c.marks ==> m in CallMarks(cs[..k])
  {
    assert cs[..k + 1] == cs[..k] + [cs[k]];
  }

  /** Every pending send of `s` is pending in `u`. */
  method PairSends(s: Marks, u: Marks) returns (mapping: Option<Mapping>)
    requires SendsNamed(s)
    ensures mapping.None? <==> !(s.ssend.Keys <= u.ssend.Keys)
    ensures mapping.Some? ==> mapping.value.Keys == SendMarks(s)
                              && forall id :: id in s.ssend ==> mapping.value[s.ssend[id]] == u.ssend[id]
  {
    var pairs: Mapping := map[];
    var ids := s.ssend.Keys;
    while ids != {}
      invariant ids <= s.ssend.Keys
      invariant pairs.Keys == set id | id in s.ssend && id !in ids :: s.ssend[id]
      invariant forall id :: id in s.ssend && id !in ids ==> id in u.ssend && pairs[s.ssend[id]] == u.ssend[id]
      decreases ids
    {
      ghost var some := Member(ids);
      var id :| id in ids;
      if id !in u.ssend {
        return None;
      }
      pairs, ids := pairs[s.ssend[id] := u.ssend[id]], ids - {id};
    }
    mapping := Some(pairs);
  }

  /** The mapping of what needs no search: pending sends by request, calls of open operations by process. The look-ups
      for it fail when a send or an operation is not there. */
  method PairUp(s: Marks, u: Marks, pid: Mark -> nat) returns (mapping: Option<Mapping>)
    requires SendsNamed(s) && CallsApart(s, pid) && CallsApart(u, pid) && SameState(s, u, pid)
    requires |s.ssend| == |u.ssend|
    ensures mapping.None? <==> s.ssend.Keys != u.ssend.Keys || !Partnered(s, u)
    ensures mapping.Some? ==> Comparable(s, u, pid) && Pairs(mapping.value, s, u, pid)
  {
    hide SameCalls, IsPartner, CallMarks, CallsApart, SameState, OnePerProcess, HasPartner, PairsUpTo;
    mapping := PairSends(s, u);
    if mapping.None? {
      return;
    }
    SameSizeIds(s.ssend.Keys, u.ssend.Keys);
    assert SameSends(s, u, pid);
    hide SameSends;
    var pairs := mapping.value;
    PairedNone(pairs, s, u, pid);
    for k := 0 to |s.collectives|
      invariant forall i :: 0 <= i < k ==> HasPartner(s.collectives[i], u.collectives)
      invariant PairsUpTo(pairs, s, u, pid, k)
    {
      var c := s.collectives[k];
      PartnerFound(s, u, pid, c);
      var j := FindCollective(u.collectives, c.commId, c.ccId);
      if j == |u.collectives| {
        return None;
      }
      var own := PairCalls(c, u.collectives[j], pid);
      SameCallsKey(c, u.collectives[j], pid);
      PairedMore(s, u, pid, k, pairs, own, u.collectives[j]);
      pairs := pairs + own;
    }
    PairedAll(pairs, s, u, pid);
    mapping := Some(pairs);
  }

  lemma PairedNone(pairs: Mapping, s: Marks, u: Marks, pid: Mark -> nat)
    requires pairs.Keys == SendMarks(s)
    requires forall id :: id in s.ssend ==> id in u.ssend && pairs[s.ssend[id]] == u.ssend[id]
    ensures PairsUpTo(pairs, s, u, pid, 0)
  {
    NoCalls();
  }

  lemma PairedAll(pairs: Mapping, s: Marks, u: Marks, pid: Mark -> nat)
    requires PairsUpTo(pairs, s, u, pid, |s.collectives|)
    ensures Pairs(pairs, s, u, pid)
  {
    assert s.collectives[..|s.collectives|] == s.collectives;
  }

  lemma SameSizeIds(a: set<RequestId>, b: set<RequestId>)
    requires a <= b && |a| == |b|
    ensures a == b
  {
    assert |b - a| == |b| - |a|;
    assert b - a == {};
  }

  lemma NoCalls()
    ensures CallMarks([]) == {}
  {
  }

  lemma {:induction false} OnePartner(s: Marks, u: Marks, pid: Mark -> nat, c: CollectiveOperation, m: Mark, j: Mark,
                                      k: Mark)
    requires Comparable(s, u, pid) && c in s.collectives && IsPartner(u, pid, c, m, j) && IsPartner(u, pid, c, m, k)
    ensures j == k
  {
    PartnerFound(s, u, pid, c);
    ComparableOps(s, u, pid);
    hide Comparable, SameSends;
    var d := u.collectives[FindCollective(u.collectives, c.commId, c.ccId)];
    SameCallsKey(c, d, pid);
    var d1 :| d1 in u.collectives && SameKey(c, d1) && j in d1.marks && pid(j) == pid(m);
    var d2 :| d2 in u.collectives && SameKey(c, d2) && k in d2.marks && pid(k) == pid(m);
    OneOfKey(u.collectives, d, d1);
    OneOfKey(u.collectives, d, d2);
  }

  lemma OneOfKey(cs: seq<CollectiveOperation>, c: CollectiveOperation, d: CollectiveOperation)
    requires UniqueOps(cs) && c in cs && d in cs && SameKey(c, d)
    ensures c == d
  {
    var i :| 0 <= i < |cs| && cs[i] == c;
    var j :| 0 <= j < |cs| && cs[j] == d;
  }

  lemma {:induction false} PairsUnique(base: Mapping, other: Mapping, s: Marks, u: Marks, pid: Mark -> nat)
    requires Comparable(s, u, pid) && Pairs(base, s, u, pid) && Pairs(other, s, u, pid)
    ensures base == other
  {
    hide Comparable, IsPartner;
    forall m | m in base ensures base[m] == other[m] {
      if m in SendMarks(s) {
        var id :| id in s.ssend && s.ssend[id] == m;
      } else {
        var c :| c in s.collectives && m in c.marks;
        OnePartner(s, u, pid, c, m, base[m], other[m]);
      }
    }
  }

  /** Whether a marking is dropped because of another one; or comparing them fails, in an assertion or a look-up. */
  datatype Answer = Covers | Differs | AssertionFails | LookupFails {
    predicate Broken() {
      AssertionFails? || LookupFails?
    }
  }

  type Covering = (Marks, Marks) -> Answer

  /** What the test says of marking `s` that comes to a node where `u` is. */
  ghost function Answered(s: Marks, u: Marks, pid: Mark -> nat): Answer {
    if |s.terminate| != |u.terminate| then Differs
    else if |s.ssend| != |u.ssend| then AssertionFails
    else if s.ssend.Keys != u.ssend.Keys || !Partnered(s, u) then LookupFails
    else if exists mapping :: Candidate(mapping, s, u, pid) && Accepts(mapping, s, u) then Covers
    else Differs
  }

  ghost function NamingOf(s: Marks, f: Naming): Mapping {
    map m | m in KnownMarks(s) :: f(m)
  }

  /** The test knows a marking under other names: it is covered by every one that differs only in the names of its marks
      and in the order of its operations, if the calls of open operations are still of the same processes. */
  lemma {:induction false} RenamedIsCovered(f: Naming, g: Naming, s: Marks, u: Marks, pid: Mark -> nat)
    requires Inv(s) && Renamed(f, g, s, u)
    requires forall m :: m in CallMarks(s.collectives) ==> pid(f(m)) == pid(m)
    ensures Answered(s, u, pid) == Covers
  {
    hide Inv, Renamed, Candidate, Accepts, Partnered, KnownMarks;
    var mapping := NamingOf(s, f);
    RenamedSizes(f, g, s, u);
    RenamedPartnered(f, g, s, u);
    RenamedCandidate(f, g, s, u, pid);
    RenamedAccepted(f, g, s, u);
    assert Candidate(mapping, s, u, pid) && Accepts(mapping, s, u);
  }

  lemma {:induction false} RenamedSizes(f: Naming, g: Naming, s: Marks, u: Marks)
    requires Renamed(f, g, s, u)
    ensures |s.terminate| == |u.terminate| && |s.ssend| == |u.ssend| && s.ssend.Keys == u.ssend.Keys
  {
    ImageSize(f, g, s.terminate.Keys);
    assert u.terminate == Table(f, g, s.terminate) && u.ssend == SendsRenamed(f, s.ssend);
    assert u.terminate.Keys == Image(f, s.terminate.Keys) && u.ssend.Keys == s.ssend.Keys;
    assert |s.terminate| == |s.terminate.Keys| && |u.terminate| == |u.terminate.Keys|;
    assert |s.ssend| == |s.ssend.Keys| && |u.ssend| == |u.ssend.Keys|;
  }

  lemma RenamedOpIn(f: Naming, g: Naming, s: Marks, u: Marks, c: CollectiveOperation)
    requires Renamed(f, g, s, u) && c in s.collectives
    ensures OpRenamed(f, g, c) in u.collectives && SameKey(c, OpRenamed(f, g, c))
  {
    var i :| 0 <= i < |s.collectives| && s.collectives[i] == c;
    assert OpsRenamed(f, g, s.collectives)[i] == OpRenamed(f, g, c);
  }

  lemma {:induction false} RenamedPartnered(f: Naming, g: Naming, s: Marks, u: Marks)
    requires Renamed(f, g, s, u)
    ensures Partnered(s, u)
  {
    hide Renamed, OpRenamed;
    forall c | c in s.collectives ensures HasPartner(c, u.collectives) {
      RenamedOpIn(f, g, s, u, c);
    }
  }

  lemma {:induction false} RenamedCandidate(f: Naming, g: Naming, s: Marks, u: Marks, pid: Mark -> nat)
    requires Renamed(f, g, s, u)
    requires forall m :: m in CallMarks(s.collectives) ==> pid(f(m)) == pid(m)
    ensures Candidate(NamingOf(s, f), s, u, pid)
  {
    RenamedSizes(f, g, s, u);
    RenamedPairs(f, g, s, u, pid);
    RenamedMatches(f, g, s, u);
    hide Renamed, Pairs, Matches, PairedBy, NamingOf;
  }

  ghost function PairedBy(s: Marks, f: Naming): Mapping {
    map m | m in SendMarks(s) + CallMarks(s.collectives) :: f(m)
  }

  lemma {:induction false} RenamedPairs(f: Naming, g: Naming, s: Marks, u: Marks, pid: Mark -> nat)
    requires Renamed(f, g, s, u)
    requires forall m :: m in CallMarks(s.collectives) ==> pid(f(m)) == pid(m)
    ensures Pairs(PairedBy(s, f), s, u, pid)
  {
    RenamedFields(f, g, s, u);
    hide Renamed, Inverse, OpRenamed;
    var base := PairedBy(s, f);
    forall c, m | c in s.collectives && m in c.marks ensures IsPartner(u, pid, c, m, base[m]) {
      RenamedOpIn(f, g, s, u, c);
      RenamedCall(f, g, c, m);
      assert m in CallMarks(s.collectives);
    }
  }

  lemma RenamedCall(f: Naming, g: Naming, c: CollectiveOperation, m: Mark)
    requires Inverse(f, g) && m in c.marks
    ensures f(m) in OpRenamed(f, g, c).marks
  {
    TableHas(f, g, c.marks, f(m));
  }

  lemma {:induction false} RenamedMatches(f: Naming, g: Naming, s: Marks, u: Marks)
    requires Renamed(f, g, s, u)
    ensures Matches(s.terminate.Keys, u.terminate.Keys, PairedBy(s, f), NamingOf(s, f))
  {
    RenamedTable(f, g, s, u);
    var mapping := NamingOf(s, f);
    hide Renamed, SendMarks, CallMarks;
    forall m, k | m in mapping && k in mapping && mapping[m] == mapping[k] ensures m == k {
      assert g(f(m)) == g(f(k));
    }
  }

  lemma {:induction false} RenamedTable(f: Naming, g: Naming, s: Marks, u: Marks)
    requires Renamed(f, g, s, u)
    ensures Inverse(f, g)
    ensures forall m :: m in s.terminate ==> f(m) in u.terminate && u.terminate[f(m)] == Image(f, s.terminate[m])
  {
    forall m | m in s.terminate ensures f(m) in u.terminate && u.terminate[f(m)] == Image(f, s.terminate[m]) {
      TableHas(f, g, s.terminate, f(m));
    }
  }

  lemma {:induction false} RenamedAccepted(f: Naming, g: Naming, s: Marks, u: Marks)
    requires Inv(s) && Renamed(f, g, s, u)
    ensures Accepts(NamingOf(s, f), s, u)
  {
    var mapping := NamingOf(s, f);
    NoLookupFails(s, mapping);
    RenamedTable(f, g, s, u);
    RenamedRequests(f, g, s, u);
    hide Inv, Renamed, KnownMarks, Applied, Image;
    forall k | k in s.active ensures Applied(mapping, s.active[k]) == u.active[k] {
      AppliedIsImage(f, mapping, s.active[k]);
    }
    forall k | k in s.finished ensures Applied(mapping, s.finished[k]) == u.finished[k] {
      AppliedIsImage(f, mapping, s.finished[k]);
    }
    forall m | m in s.terminate ensures m in mapping && mapping[m] in u.terminate
                                        && Applied(mapping, s.terminate[m]) == u.terminate[mapping[m]] {
      AppliedIsImage(f, mapping, s.terminate[m]);
      KnownMark(s, m);
    }
  }

  lemma RenamedRequests(f: Naming, g: Naming, s: Marks, u: Marks)
    requires Renamed(f, g, s, u)
    ensures forall k :: k in s.active ==> k in u.active && u.active[k] == Image(f, s.active[k])
    ensures forall k :: k in s.finished ==> k in u.finished && u.finished[k] == Image(f, s.finished[k])
  {
  }

  /** is_covered_by. It fails exactly when as many marks have wait sets, and other sends are pending or an open
      operation is not open there. Otherwise it is covered when some way to map the marks with wait sets makes requests
      and wait sets agree. */
  method IsCoveredBy(s: Marks, u: Marks, pid: Mark -> nat) returns (answer: Answer)
    requires MarkingOk(s, pid) && MarkingOk(u, pid) && SameState(s, u, pid)
    ensures answer == Answered(s, u, pid)
    ensures answer.Broken() <==>
              |s.terminate| == |u.terminate| && (s.ssend.Keys != u.ssend.Keys || !Partnered(s, u))
    ensures answer.AssertionFails? <==> |s.terminate| == |u.terminate| && |s.ssend| != |u.ssend|
    ensures answer.Covers? <==>
              |s.ssend| == |u.ssend| && s.ssend.Keys == u.ssend.Keys && Partnered(s, u)
              && exists mapping :: Candidate(mapping, s, u, pid) && Accepts(mapping, s, u)
  {
    hide Comparable, Accepts, Pairs, Matches, SendsNamed, CallsApart, SameState, Partnered, Inv;
    if |s.terminate| != |u.terminate| {
      assert forall mapping :: !Candidate(mapping, s, u, pid);
      return Differs;
    }
    if |s.ssend| != |u.ssend| {
      return AssertionFails;
    }
    var base := PairUp(s, u, pid);
    if base.None? {
      return LookupFails;
    }
    var items1 := ListOf(s.terminate.Keys);
    var items2 := ListOf(u.terminate.Keys);
    var results := BuildEquivalence(items1, items2, base.value);
    for k := 0 to |results|
      invariant forall j :: 0 <= j < k ==> !Accepts(results[j], s, u)
    {
      if Accepts(results[k], s, u) {
        assert results[k] in results;
        assert Candidate(results[k], s, u, pid);
        return Covers;
      }
    }
    forall mapping | Candidate(mapping, s, u, pid) ensures !Accepts(mapping, s, u) {
      var other :| Pairs(other, s, u, pid) && Matches(s.terminate.Keys, u.terminate.Keys, other, mapping);
      PairsUnique(base.value, other, s, u, pid);
      assert mapping in results;
    }
    answer := Differs;
  }

  // ---- what holds of every marking -------------------------------------------------------------------

  /** A call is the first of its process for the operation, with a new mark; an event brings at most one. */
  ghost predicate CallsNew(s: Marks, e: Event, pid: Mark -> nat) {
    e.Call? ==>
      && (forall i, j :: 0 <= i < j < |e.newRequests| ==>
            RequestType(e.newRequests[i]) != COLLECTIVE || RequestType(e.newRequests[j]) != COLLECTIVE)
      && (forall id :: id in e.newRequests && RequestType(id) == COLLECTIVE ==>
            CallIsNew(s, Mark(e.uid, id), e.commId, e.ccId, pid))
  }

  ghost predicate CallIsNew(s: Marks, mark: Mark, commId: nat, ccId: nat, pid: Mark -> nat) {
    && mark !in s.terminate && mark !in CallMarks(s.collectives)
    && (forall c, k :: c in s.collectives && c.commId == commId && c.ccId == ccId && k in c.marks ==>
          pid(k) != pid(mark))
  }

  /** The same calls of the same operations, whatever they wait for. */
  ghost predicate SameCallers(a: seq<CollectiveOperation>, b: seq<CollectiveOperation>) {
    |a| == |b| && forall i :: 0 <= i < |a| ==> SameKey(a[i], b[i]) && a[i].marks.Keys == b[i].marks.Keys
  }

  lemma CallerOf(a: seq<CollectiveOperation>, b: seq<CollectiveOperation>, c: CollectiveOperation) returns (i: nat)
    requires SameCallers(a, b) && c in b
    ensures i < |a| && b[i] == c && a[i] in a && a[i].marks.Keys == c.marks.Keys
  {
    i :| 0 <= i < |b| && b[i] == c;
  }

  lemma {:induction false} CallsStayApart(s: Marks, t: Marks, more: set<Mark>, pid: Mark -> nat)
    requires CallsApart(s, pid) && SameCallers(s.collectives, t.collectives)
    requires t.terminate.Keys <= s.terminate.Keys + more && more !! CallMarks(s.collectives)
    ensures CallsApart(t, pid)
  {
    var a, b := s.collectives, t.collectives;
    hide SameCallers;
    assert UniqueOps(b) by { CallersUnique(a, b); }
    forall m | m in CallMarks(b) ensures RequestType(m.request) == COLLECTIVE && m !in t.terminate {
      var c :| c in b && m in c.marks;
      var i := CallerOf(a, b, c);
      assert m in a[i].marks && m in CallMarks(a);
    }
    forall c, d, m | c in b && d in b && m in c.marks && m in d.marks ensures c == d {
      var i := CallerOf(a, b, c);
      var j := CallerOf(a, b, d);
      assert m in a[i].marks && m in a[j].marks;
      SameIndex(a, i, j);
    }
    forall c | c in b ensures OnePerProcess(c, pid) {
      var i := CallerOf(a, b, c);
      assert OnePerProcess(a[i], pid);
    }
  }

  lemma CallersUnique(a: seq<CollectiveOperation>, b: seq<CollectiveOperation>)
    requires UniqueOps(a) && SameCallers(a, b)
    ensures UniqueOps(b)
  {
    forall i, j | 0 <= i < j < |b| ensures !SameKey(b[i], b[j]) {
      assert !SameKey(a[i], a[j]);
    }
  }

  lemma SameIndex(cs: seq<CollectiveOperation>, i: nat, j: nat)
    requires UniqueOps(cs) && i < |cs| && j < |cs| && cs[i] == cs[j]
    ensures i == j
  {
  }

  lemma CallersErased(s: Marks, r: set<Mark>)
    ensures SameCallers(s.collectives, Erase(s, r).collectives) && Erase(s, r).terminate.Keys <= s.terminate.Keys
    ensures SendsNamed(s) ==> SendsNamed(Erase(s, r))
  {
  }

  lemma {:induction false} CleanupStaysApart(s: Marks, marks: set<Mark>, pid: Mark -> nat)
    requires CallsApart(s, pid) && SendsNamed(s)
    ensures CallsApart(Cleanup(s, marks), pid) && SendsNamed(Cleanup(s, marks))
  {
    hide CallsApart, SendsNamed, Erase;
    var r := Closure(s.terminate, marks);
    CallersErased(s, r);
    CallsStayApart(s, Erase(s, r), {}, pid);
  }

  lemma {:induction false} MatchedStaysApart(s: Marks, mark: Mark, marks: set<Mark>, pid: Mark -> nat)
    requires CallsApart(s, pid) && SendsNamed(s) && RequestType(mark.request) == SEND_STD
    ensures CallsApart(Matched(s, mark, marks), pid) && SendsNamed(Matched(s, mark, marks))
  {
    hide Cleanup;
    if marks != {} {
      CallsStayApart(s, Matched(s, mark, marks), {mark}, pid);
    } else {
      CleanupStaysApart(s, {mark}, pid);
    }
  }

  lemma {:induction false} DoneStaysApart(s: Marks, c: CollectiveOperation, pid: Mark -> nat)
    requires CallsApart(s, pid) && SendsNamed(s) && c.marks.Keys !! CallMarks(s.collectives)
    ensures CallsApart(CollectiveDone(s, c), pid) && SendsNamed(CollectiveDone(s, c))
  {
    hide Cleanup;
    if UnionOf(c.marks) != {} {
      CallsStayApart(s, CollectiveDone(s, c), c.marks.Keys, pid);
    } else {
      CleanupStaysApart(s, c.marks.Keys, pid);
    }
  }

  /** An operation that is complete leaves the list. */
  lemma {:induction false} LessStaysApart(s: Marks, i: nat, pid: Mark -> nat)
    requires CallsApart(s, pid) && i < |s.collectives|
    ensures var rest := s.collectives[..i] + s.collectives[i + 1..];
            CallsApart(s.(collectives := rest), pid) && s.collectives[i].marks.Keys !! CallMarks(rest)
            && CallMarks(rest) <= CallMarks(s.collectives)
  {
    var c, rest := s.collectives[i], s.collectives[..i] + s.collectives[i + 1..];
    LessOne(s.collectives, i);
    hide OnePerProcess, SameKey, UniqueOps;
    assert forall d :: d in rest ==> d in s.collectives && d != c by { KeyOfItself(c); }
  }

  lemma KeyOfItself(c: CollectiveOperation)
    ensures SameKey(c, c)
  {
  }

  /** An operation gets a further call. */
  lemma {:induction false} MoreStaysApart(s: Marks, i: nat, c: CollectiveOperation, mark: Mark, pid: Mark -> nat)
    requires CallsApart(s, pid) && i < |s.collectives| && SameKey(s.collectives[i], c)
    requires c.marks.Keys == s.collectives[i].marks.Keys + {mark} && RequestType(mark.request) == COLLECTIVE
    requires CallIsNew(s, mark, c.commId, c.ccId, pid)
    ensures CallsApart(s.(collectives := s.collectives[i := c]), pid)
  {
    var old', more := s.collectives[i], s.collectives[i := c];
    OneReplaced(s.collectives, i, c);
    assert OnePerProcess(c, pid) by { OneMoreCall(old', c, mark, pid); }
    hide OnePerProcess, UniqueOps;
    forall m | m in CallMarks(more) ensures m in CallMarks(s.collectives) || m == mark {
    }
    forall d, e, m | d in more && e in more && m in d.marks && m in e.marks ensures d == e {
      assert m == mark ==> d == c && e == c;
    }
  }

  lemma OneMoreCall(c: CollectiveOperation, d: CollectiveOperation, mark: Mark, pid: Mark -> nat)
    requires OnePerProcess(c, pid) && d.marks.Keys == c.marks.Keys + {mark}
    requires forall k :: k in c.marks ==> pid(k) != pid(mark)
    ensures OnePerProcess(d, pid)
  {
    forall m, k | m in d.marks && k in d.marks && pid(m) == pid(k) ensures m == k {
      assert m in c.marks || m == mark;
      assert k in c.marks || k == mark;
    }
  }

  /** A new operation is opened. */
  lemma {:induction false} NewStaysApart(s: Marks, c: CollectiveOperation, mark: Mark, pid: Mark -> nat)
    requires CallsApart(s, pid) && c.marks.Keys == {mark} && RequestType(mark.request) == COLLECTIVE
    requires CallIsNew(s, mark, c.commId, c.ccId, pid)
    requires forall i :: 0 <= i < |s.collectives| ==> !SameKey(s.collectives[i], c)
    ensures CallsApart(s.(collectives := s.collectives + [c]), pid)
  {
    OneMoreOp(s.collectives, c);
    hide UniqueOps;
    var more := s.collectives + [c];
    forall d, e, m | d in more && e in more && m in d.marks && m in e.marks ensures d == e {
      assert m == mark ==> d == c && e == c;
    }
  }

  lemma ApartDepends(s: Marks, t: Marks, mark: Mark, commId: nat, ccId: nat, pid: Mark -> nat)
    requires t.collectives == s.collectives && t.terminate == s.terminate && t.ssend == s.ssend
    ensures CallsApart(t, pid) == CallsApart(s, pid) && SendsNamed(t) == SendsNamed(s)
    ensures CallIsNew(t, mark, commId, ccId, pid) == CallIsNew(s, mark, commId, ccId, pid)
  {
  }

  lemma {:induction false} CompleteStaysApart(s: Marks, i: nat, c: CollectiveOperation, mark: Mark, pid: Mark -> nat)
    requires CallsApart(s, pid) && SendsNamed(s) && i <= |s.collectives|
    requires c.marks.Keys == (if i < |s.collectives| then s.collectives[i].marks.Keys else {}) + {mark}
    requires mark !in CallMarks(s.collectives)
    ensures var cs := s.collectives;
            var less := s.(collectives := if i < |cs| then cs[..i] + cs[i + 1..] else cs);
            CallsApart(less, pid) && SendsNamed(less) && c.marks.Keys !! CallMarks(less.collectives)
  {
    hide CallsApart, CallMarks;
    if i < |s.collectives| {
      LessStaysApart(s, i, pid);
    } else {
      assert s.(collectives := s.collectives) == s;
    }
  }

  lemma JoinedIs(s: Marks, mark: Mark, marks: set<Mark>, commId: nat, ccId: nat, size: nat)
    ensures var i, c := FindCollective(s.collectives, commId, ccId), Joined(s, mark, marks, commId, ccId, size);
            && c.commId == commId && c.ccId == ccId
            && c.marks.Keys == (if i < |s.collectives| then s.collectives[i].marks.Keys else {}) + {mark}
            && (i < |s.collectives| ==> SameKey(s.collectives[i], c))
            && (i == |s.collectives| ==> forall j :: 0 <= j < |s.collectives| ==> !SameKey(s.collectives[j], c))
  {
  }

  lemma {:induction false} CallStaysApart(s: Marks, uid: nat, p: nat, id: RequestId, commId: nat, ccId: nat, size: nat,
                                          pid: Mark -> nat)
    requires CallsApart(s, pid) && SendsNamed(s) && p < |s.process| && RequestType(id) == COLLECTIVE
    requires CallIsNew(s, Mark(uid, id), commId, ccId, pid)
    ensures CallsApart(CollectivePosted(s, uid, p, id, commId, ccId, size), pid)
            && SendsNamed(CollectivePosted(s, uid, p, id, commId, ccId, size))
  {
    hide CallsApart, SendsNamed, CollectiveDone, CallIsNew, Joined, SameKey;
    var mark, marks, cs := Mark(uid, id), s.process[p], s.collectives;
    var i, c := FindCollective(cs, commId, ccId), Joined(s, mark, marks, commId, ccId, size);
    var t := s.(finished := s.finished[id := marks + {mark}]);
    JoinedIs(s, mark, marks, commId, ccId, size);
    ApartDepends(s, t, mark, commId, ccId, pid);
    if |c.marks| == c.size {
      assert mark !in CallMarks(cs) by { NewMeans(t, mark, commId, ccId, pid); }
      CompleteStaysApart(t, i, c, mark, pid);
      DoneStaysApart(t.(collectives := if i < |cs| then cs[..i] + cs[i + 1..] else cs), c, pid);
    } else {
      if i < |cs| {
        MoreStaysApart(t, i, c, mark, pid);
      } else {
        NewStaysApart(t, c, mark, pid);
      }
      SendsDepend(t, CollectivePosted(s, uid, p, id, commId, ccId, size));
    }
  }

  lemma NewMeans(s: Marks, mark: Mark, commId: nat, ccId: nat, pid: Mark -> nat)
    requires CallIsNew(s, mark, commId, ccId, pid)
    ensures mark !in CallMarks(s.collectives)
  {
  }

  lemma SendsDepend(s: Marks, t: Marks)
    requires SendsNamed(s) && t.ssend == s.ssend
    ensures SendsNamed(t)
  {
  }

  lemma {:induction false} PostStaysApart(s: Marks, uid: nat, p: nat, id: RequestId, commId: nat, ccId: nat, size: nat,
                                          pid: Mark -> nat)
    requires CallsApart(s, pid) && SendsNamed(s) && p < |s.process|
    requires RequestType(id) == COLLECTIVE ==> CallIsNew(s, Mark(uid, id), commId, ccId, pid)
    ensures var t := RequestPosted(s, uid, p, id, commId, ccId, size);
            && CallsApart(t, pid) && SendsNamed(t)
            && (RequestType(id) != COLLECTIVE ==> t.collectives == s.collectives && t.terminate == s.terminate)
  {
    hide CallsApart, CallIsNew, CollectivePosted;
    if RequestType(id) == COLLECTIVE {
      CallStaysApart(s, uid, p, id, commId, ccId, size, pid);
    } else {
      var t := RequestPosted(s, uid, p, id, commId, ccId, size);
      ApartDepends(s, t.(ssend := s.ssend), Mark(uid, id), commId, ccId, pid);
      ApartIgnoresSends(t.(ssend := s.ssend), t, pid);
    }
  }

  lemma ApartIgnoresSends(s: Marks, t: Marks, pid: Mark -> nat)
    requires CallsApart(s, pid) && t.collectives == s.collectives && t.terminate == s.terminate
    ensures CallsApart(t, pid)
  {
  }

  lemma {:induction false} AllPostsStayApart(s: Marks, uid: nat, p: nat, ids: seq<RequestId>, commId: nat, ccId: nat,
                                             size: nat, pid: Mark -> nat)
    requires CallsApart(s, pid) && SendsNamed(s) && p < |s.process|
    requires forall i, j :: 0 <= i < j < |ids| ==>
               RequestType(ids[i]) != COLLECTIVE || RequestType(ids[j]) != COLLECTIVE
    requires forall id :: id in ids && RequestType(id) == COLLECTIVE ==>
               CallIsNew(s, Mark(uid, id), commId, ccId, pid)
    ensures var t := AllPosted(s, uid, p, ids, commId, ccId, size);
            && CallsApart(t, pid) && SendsNamed(t)
            && ((forall id :: id in ids ==> RequestType(id) != COLLECTIVE) ==>
                  t.collectives == s.collectives && t.terminate == s.terminate)
  {
    hide CallsApart, SendsNamed, CallIsNew, RequestPosted;
    if |ids| > 0 {
      var n := |ids| - 1;
      var before, id := ids[..n], ids[n];
      assert ids == before + [id];
      AllPostsStayApart(s, uid, p, before, commId, ccId, size, pid);
      var t := AllPosted(s, uid, p, before, commId, ccId, size);
      if RequestType(id) == COLLECTIVE {
        forall k | k in before ensures RequestType(k) != COLLECTIVE {
          var i :| 0 <= i < n && before[i] == k;
          assert ids[i] == k && ids[n] == id;
        }
        assert CallIsNew(t, Mark(uid, id), commId, ccId, pid) by {
          NewDepends(s, t, Mark(uid, id), commId, ccId, pid);
        }
      }
      PostStaysApart(t, uid, p, id, commId, ccId, size, pid);
    }
  }

  lemma NewDepends(s: Marks, t: Marks, mark: Mark, commId: nat, ccId: nat, pid: Mark -> nat)
    requires CallIsNew(s, mark, commId, ccId, pid) && t.collectives == s.collectives && t.terminate == s.terminate
    ensures CallIsNew(t, mark, commId, ccId, pid)
  {
  }

  lemma {:induction false} MatchStaysApart(s: Marks, source: RequestId, target: RequestId, pid: Mark -> nat)
    requires CallsApart(s, pid) && SendsNamed(s) && source in s.active && target in s.active
    ensures CallsApart(MatchDone(s, source, target), pid) && SendsNamed(MatchDone(s, source, target))
  {
    hide CallsApart, Matched;
    var waits := s.active[target];
    var both := s.active[source] + waits;
    var t := s.(active := s.active - {source, target}, finished := s.finished[target := both]);
    if RequestType(source) == SEND_STD {
      var u := if source in t.finished then t.(finished := t.finished[source := t.finished[source] + both])
               else t.(ssend := t.ssend - {source});
      ApartIgnoresSends(s, u, pid);
      if source in s.ssend {
        MatchedStaysApart(u, s.ssend[source], waits, pid);
      }
    } else {
      ApartIgnoresSends(s, MatchDone(s, source, target), pid);
    }
  }

  lemma {:induction false} ContinuesStayApart(s: Marks, p: nat, ids: seq<RequestId>, pid: Mark -> nat)
    requires CallsApart(s, pid) && SendsNamed(s) && p < |s.process|
    requires (forall i :: 0 <= i < |ids| ==> ids[i] in s.finished)
             && forall i, j :: 0 <= i < j < |ids| ==> ids[i] != ids[j]
    ensures CallsApart(AllContinued(s, p, ids), pid) && SendsNamed(AllContinued(s, p, ids))
  {
    hide CallsApart;
    if |ids| > 0 {
      ContinuesStayApart(s, p, ids[..|ids| - 1], pid);
      var t := AllContinued(s, p, ids[..|ids| - 1]);
      ApartIgnoresSends(t, Continued(t, p, ids[|ids| - 1]), pid);
    }
  }

  /** Every event whose call is new keeps what holds of every marking. */
  lemma {:induction false} ProcessedOk(s: Marks, e: Event, pid: Mark -> nat)
    requires MarkingOk(s, pid) && WellFormed(s, e) && CallsNew(s, e, pid)
    ensures MarkingOk(Processed(s, e), pid)
  {
    hide Inv, CallsApart, SendsNamed, AllPosted, MatchDone, AllContinued, CallIsNew;
    ProcessedInv(s, e);
    match e {
      case Call(uid, p, ids, commId, ccId, size) => AllPostsStayApart(s, uid, p, ids, commId, ccId, size, pid);
      case Match(source, target) => MatchStaysApart(s, source, target, pid);
      case Continue(p, ids) => ContinuesStayApart(s, p, ids, pid);
    }
  }

  lemma {:induction false} CleanupOk(s: Marks, marks: set<Mark>, pid: Mark -> nat)
    requires MarkingOk(s, pid)
    ensures MarkingOk(Cleanup(s, marks), pid)
  {
    hide Inv, CallsApart, SendsNamed, Cleanup;
    CleanupStaysApart(s, marks, pid);
    CleanupInvariant(s, marks);
  }

  lemma CleanupInvariant(s: Marks, marks: set<Mark>)
    requires Inv(s)
    ensures Inv(Cleanup(s, marks))
  {
    CleanupInv(s, marks);
  }

  ghost predicate RunCallsNew(s: Marks, events: seq<Event>, pid: Mark -> nat)
    decreases |events|
  {
    |events| == 0
    || (CallsNew(s, events[0], pid)
        && (WellFormed(s, events[0]) ==> RunCallsNew(Processed(s, events[0]), events[1..], pid)))
  }

  lemma {:induction false} RunKeepsOk(s: Marks, events: seq<Event>, pid: Mark -> nat)
    requires MarkingOk(s, pid) && RunWellFormed(s, events) && RunCallsNew(s, events, pid)
    ensures MarkingOk(AfterRun(s, events), pid)
    decreases |events|
  {
    hide MarkingOk, CallsNew, WellFormed, Processed;
    if |events| > 0 {
      ProcessedOk(s, events[0], pid);
      RunKeepsOk(Processed(s, events[0]), events[1..], pid);
    }
  }
}
