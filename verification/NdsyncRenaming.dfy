/** Markings that differ in the names of their marks only have the same future. */
module NdsyncRenaming {
  import opened Ndsync

  // ---- renaming ----------------------------------------------------------------------------------

  type Naming = Mark -> Mark

  ghost predicate Inverse(f: Naming, g: Naming) {
    (forall m :: g(f(m)) == m) && (forall m :: f(g(m)) == m)
  }

  function Image(f: Naming, r: set<Mark>): set<Mark> {
    set m | m in r :: f(m)
  }

  lemma ImageHas(f: Naming, g: Naming, r: set<Mark>, m: Mark)
    requires Inverse(f, g)
    ensures m in Image(f, r) <==> g(m) in r
    ensures f(m) in Image(f, r) <==> m in r
  {
    if g(m) in r {
      assert f(g(m)) in Image(f, r);
    }
    if f(m) in Image(f, r) {
      var k :| k in r && f(k) == f(m);
      assert g(f(k)) == k;
    }
  }

  lemma ImageOps(f: Naming, g: Naming, a: set<Mark>, b: set<Mark>)
    requires Inverse(f, g)
    ensures Image(f, a + b) == Image(f, a) + Image(f, b)
    ensures Image(f, a - b) == Image(f, a) - Image(f, b)
    ensures Image(f, a) <= Image(f, b) <==> a <= b
    ensures Image(f, a) == {} <==> a == {}
  {
    forall m ensures m in Image(f, a) <==> g(m) in a {
      ImageHas(f, g, a, m);
    }
    forall m ensures m in Image(f, b) <==> g(m) in b {
      ImageHas(f, g, b, m);
    }
    forall m ensures m in Image(f, a - b) <==> g(m) in a - b {
      ImageHas(f, g, a - b, m);
    }
    if Image(f, a) <= Image(f, b) {
      forall m | m in a ensures m in b {
        assert f(m) in Image(f, a);
        assert g(f(m)) in b;
      }
    }
    if m :| m in a {
      assert f(m) in Image(f, a);
    }
  }

  lemma ImageOne(f: Naming, m: Mark)
    ensures Image(f, {m}) == {f(m)}
  {
    assert f(m) in Image(f, {m});
  }

  lemma ImageNone(f: Naming)
    ensures Image(f, {}) == {}
  {
  }

  lemma {:induction false} ImageSize(f: Naming, g: Naming, r: set<Mark>)
    requires Inverse(f, g)
    ensures |Image(f, r)| == |r|
  {
    if m :| m in r {
      ImageSize(f, g, r - {m});
      ImageOps(f, g, r, {m});
      ImageOne(f, m);
      ImageHas(f, g, r, m);
      assert Image(f, r) == Image(f, r - {m}) + {f(m)};
    } else {
      assert r == {};
      ImageNone(f);
    }
  }

  lemma ImageBack(f: Naming, g: Naming, r: set<Mark>)
    requires Inverse(f, g)
    ensures Image(g, Image(f, r)) == r
  {
    forall m ensures m in Image(g, Image(f, r)) <==> m in r {
      ImageHas(g, f, Image(f, r), m);
      ImageHas(f, g, r, m);
    }
  }

  /** A table of sets of marks. */
  function Values<K>(f: Naming, t: map<K, set<Mark>>): map<K, set<Mark>> {
    map k | k in t :: Image(f, t[k])
  }

  /** A table of sets of marks whose keys are marks. */
  ghost function Table(f: Naming, g: Naming, t: map<Mark, set<Mark>>): map<Mark, set<Mark>>
    requires Inverse(f, g)
  {
    map m | m in Image(f, t.Keys) :: Image(f, t[g(m)])
  }

  lemma TableHas(f: Naming, g: Naming, t: map<Mark, set<Mark>>, m: Mark)
    requires Inverse(f, g)
    ensures m in Table(f, g, t) <==> g(m) in t
    ensures m in Table(f, g, t) ==> Table(f, g, t)[m] == Image(f, t[g(m)])
  {
    ImageHas(f, g, t.Keys, m);
  }

  ghost function OpRenamed(f: Naming, g: Naming, c: CollectiveOperation): CollectiveOperation
    requires Inverse(f, g)
  {
    c.(marks := Table(f, g, c.marks))
  }

  ghost function OpsRenamed(f: Naming, g: Naming, cs: seq<CollectiveOperation>): (r: seq<CollectiveOperation>)
    requires Inverse(f, g)
    ensures |r| == |cs| && forall i :: 0 <= i < |cs| ==> r[i] == OpRenamed(f, g, cs[i])
  {
    seq(|cs|, i requires 0 <= i < |cs| => OpRenamed(f, g, cs[i]))
  }

  ghost function ProcessRenamed(f: Naming, process: seq<set<Mark>>): (r: seq<set<Mark>>)
    ensures |r| == |process| && forall i :: 0 <= i < |process| ==> r[i] == Image(f, process[i])
  {
    seq(|process|, i requires 0 <= i < |process| => Image(f, process[i]))
  }

  ghost function SendsRenamed(f: Naming, ssend: map<RequestId, Mark>): map<RequestId, Mark> {
    map id | id in ssend :: f(ssend[id])
  }

  /** A marking with other names for its marks. */
  ghost function Renaming(f: Naming, g: Naming, s: Marks): Marks
    requires Inverse(f, g)
  {
    Marks(ProcessRenamed(f, s.process), Values(f, s.active), Values(f, s.finished), SendsRenamed(f, s.ssend),
          Table(f, g, s.terminate), OpsRenamed(f, g, s.collectives))
  }

  // ---- renaming and the removal of marks ------------------------------------------------------------

  lemma ValuesMinus<K>(f: Naming, g: Naming, t: map<K, set<Mark>>, r: set<Mark>)
    requires Inverse(f, g)
    ensures Values(f, Minus(t, r)) == Minus(Values(f, t), Image(f, r))
  {
    forall k | k in t ensures Image(f, t[k] - r) == Image(f, t[k]) - Image(f, r) {
      ImageOps(f, g, t[k], r);
    }
  }

  lemma TableMinus(f: Naming, g: Naming, t: map<Mark, set<Mark>>, r: set<Mark>)
    requires Inverse(f, g)
    ensures Table(f, g, Minus(t, r)) == Minus(Table(f, g, t), Image(f, r))
  {
    assert Minus(t, r).Keys == t.Keys;
    forall m | m in Table(f, g, t) ensures Image(f, t[g(m)] - r) == Image(f, t[g(m)]) - Image(f, r) {
      TableHas(f, g, t, m);
      ImageOps(f, g, t[g(m)], r);
    }
  }

  /** The table of wait sets without the marks of `r`. */
  ghost function Waits(t: map<Mark, set<Mark>>, r: set<Mark>): map<Mark, set<Mark>> {
    map m | m in t && m !in r :: t[m] - r
  }

  lemma TableWaits(f: Naming, g: Naming, t: map<Mark, set<Mark>>, r: set<Mark>)
    requires Inverse(f, g)
    ensures Table(f, g, Waits(t, r)) == Waits(Table(f, g, t), Image(f, r))
  {
    forall m ensures m in Table(f, g, Waits(t, r)) <==> m in Waits(Table(f, g, t), Image(f, r)) {
      TableHas(f, g, Waits(t, r), m);
      TableHas(f, g, t, m);
      ImageHas(f, g, r, m);
    }
    forall m | m in Waits(Table(f, g, t), Image(f, r))
      ensures Table(f, g, Waits(t, r))[m] == Waits(Table(f, g, t), Image(f, r))[m]
    {
      TableHas(f, g, Waits(t, r), m);
      TableHas(f, g, t, m);
      ImageOps(f, g, t[g(m)], r);
    }
  }

  lemma RenamingErase(f: Naming, g: Naming, s: Marks, r: set<Mark>)
    requires Inverse(f, g)
    ensures Renaming(f, g, Erase(s, r)) == Erase(Renaming(f, g, s), Image(f, r))
  {
    var a, b := Renaming(f, g, Erase(s, r)), Erase(Renaming(f, g, s), Image(f, r));
    forall i | 0 <= i < |s.process| ensures a.process[i] == b.process[i] {
      ImageOps(f, g, s.process[i], r);
    }
    assert a.process == b.process;
    ValuesMinus(f, g, s.active, r);
    ValuesMinus(f, g, s.finished, r);
    forall id | id in s.ssend ensures f(s.ssend[id]) in Image(f, r) <==> s.ssend[id] in r {
      ImageHas(f, g, r, s.ssend[id]);
    }
    assert a.ssend == b.ssend;
    TableWaits(f, g, s.terminate, r);
    forall i | 0 <= i < |s.collectives| ensures a.collectives[i] == b.collectives[i] {
      TableMinus(f, g, s.collectives[i].marks, r);
    }
    assert a.collectives == b.collectives;
  }

  lemma ClosedBack(f: Naming, g: Naming, t: map<Mark, set<Mark>>, r: set<Mark>)
    requires Inverse(f, g) && Closed(Table(f, g, t), r)
    ensures Closed(t, Image(g, r))
  {
    forall m | m in t && t[m] <= Image(g, r) ensures m in Image(g, r) {
      TableHas(f, g, t, f(m));
      ImageOps(f, g, t[m], Image(g, r));
      ImageBack(g, f, r);
      ImageHas(g, f, r, m);
    }
  }

  lemma ClosedRenamed(f: Naming, g: Naming, t: map<Mark, set<Mark>>, r: set<Mark>)
    requires Inverse(f, g) && Closed(t, r)
    ensures Closed(Table(f, g, t), Image(f, r))
  {
    forall m | m in Table(f, g, t) && Table(f, g, t)[m] <= Image(f, r) ensures m in Image(f, r) {
      TableHas(f, g, t, m);
      ImageOps(f, g, t[g(m)], r);
      ImageHas(f, g, r, m);
    }
  }

  lemma RenamingClosure(f: Naming, g: Naming, t: map<Mark, set<Mark>>, marks: set<Mark>)
    requires Inverse(f, g)
    ensures Image(f, Closure(t, marks)) == Closure(Table(f, g, t), Image(f, marks))
  {
    var r := Closure(t, marks);
    ClosureIsLeast(t, marks);
    ImageOps(f, g, marks, r);
    ClosedRenamed(f, g, t, r);
    forall x: set<Mark> | Image(f, marks) <= x && Closed(Table(f, g, t), x) ensures Image(f, r) <= x {
      ClosedBack(f, g, t, x);
      ImageOps(g, f, Image(f, marks), x);
      ImageBack(f, g, marks);
      assert r <= Image(g, x);
      ImageOps(f, g, r, Image(g, x));
      ImageBack(g, f, x);
    }
    LeastIsUnique(Table(f, g, t), Image(f, marks), Image(f, r));
  }

  lemma RenamingCleanup(f: Naming, g: Naming, s: Marks, marks: set<Mark>)
    requires Inverse(f, g)
    ensures Renaming(f, g, Cleanup(s, marks)) == Cleanup(Renaming(f, g, s), Image(f, marks))
  {
    RenamingErase(f, g, s, Closure(s.terminate, marks));
    RenamingClosure(f, g, s.terminate, marks);
  }

  // ---- renaming and events --------------------------------------------------------------------------

  lemma TableSet(f: Naming, g: Naming, t: map<Mark, set<Mark>>, k: Mark, v: set<Mark>)
    requires Inverse(f, g)
    ensures Table(f, g, t[k := v]) == Table(f, g, t)[f(k) := Image(f, v)]
  {
    var a, b := Table(f, g, t[k := v]), Table(f, g, t)[f(k) := Image(f, v)];
    forall m ensures m in a <==> m in b {
      TableHas(f, g, t[k := v], m);
      TableHas(f, g, t, m);
    }
    forall m | m in a ensures a[m] == b[m] {
      TableHas(f, g, t[k := v], m);
      TableHas(f, g, t, m);
    }
  }

  lemma RenamingMatched(f: Naming, g: Naming, s: Marks, mark: Mark, marks: set<Mark>)
    requires Inverse(f, g)
    ensures Renaming(f, g, Matched(s, mark, marks)) == Matched(Renaming(f, g, s), f(mark), Image(f, marks))
  {
    ImageOps(f, g, marks, {});
    if marks != {} {
      TableSet(f, g, s.terminate, mark, marks);
    } else {
      RenamingCleanup(f, g, s, {mark});
      ImageOne(f, mark);
    }
  }

  lemma RenamingUnion(f: Naming, g: Naming, t: map<Mark, set<Mark>>)
    requires Inverse(f, g)
    ensures Image(f, UnionOf(t)) == UnionOf(Table(f, g, t))
  {
    forall x ensures x in Image(f, UnionOf(t)) <==> x in UnionOf(Table(f, g, t)) {
      ImageHas(f, g, UnionOf(t), x);
      if g(x) in UnionOf(t) {
        var k :| k in t && g(x) in t[k];
        TableHas(f, g, t, f(k));
        ImageHas(f, g, t[k], x);
        assert x in Table(f, g, t)[f(k)];
      }
      if x in UnionOf(Table(f, g, t)) {
        var k :| k in Table(f, g, t) && x in Table(f, g, t)[k];
        TableHas(f, g, t, k);
        ImageHas(f, g, t[g(k)], x);
      }
    }
  }

  /** Every key of `marks` waits for `all`. */
  ghost function AllWaitFor(terminate: map<Mark, set<Mark>>, marks: set<Mark>, all: set<Mark>): map<Mark, set<Mark>> {
    terminate + map m | m in marks :: all
  }

  lemma TableAllWait(f: Naming, g: Naming, t: map<Mark, set<Mark>>, marks: set<Mark>, all: set<Mark>)
    requires Inverse(f, g)
    ensures Table(f, g, AllWaitFor(t, marks, all)) == AllWaitFor(Table(f, g, t), Image(f, marks), Image(f, all))
  {
    var a, b := Table(f, g, AllWaitFor(t, marks, all)), AllWaitFor(Table(f, g, t), Image(f, marks), Image(f, all));
    forall m ensures m in a <==> m in b {
      TableHas(f, g, AllWaitFor(t, marks, all), m);
      TableHas(f, g, t, m);
      ImageHas(f, g, marks, m);
    }
    forall m | m in a ensures a[m] == b[m] {
      TableHas(f, g, AllWaitFor(t, marks, all), m);
      TableHas(f, g, t, m);
      ImageHas(f, g, marks, m);
    }
  }

  lemma RenamingDone(f: Naming, g: Naming, s: Marks, c: CollectiveOperation)
    requires Inverse(f, g)
    ensures Renaming(f, g, CollectiveDone(s, c)) == CollectiveDone(Renaming(f, g, s), OpRenamed(f, g, c))
  {
    var all := UnionOf(c.marks);
    RenamingUnion(f, g, c.marks);
    ImageOps(f, g, all, {});
    assert OpRenamed(f, g, c).marks.Keys == Image(f, c.marks.Keys);
    if all != {} {
      TableAllWait(f, g, s.terminate, c.marks.Keys, all);
      assert AllWaitFor(s.terminate, c.marks.Keys, all) == s.terminate + map m | m in c.marks :: all;
      var t, more := Table(f, g, s.terminate), OpRenamed(f, g, c).marks;
      assert AllWaitFor(t, more.Keys, UnionOf(more)) == t + map m | m in more :: UnionOf(more);
    } else {
      RenamingCleanup(f, g, s, c.marks.Keys);
    }
  }

  lemma OpsFound(f: Naming, g: Naming, cs: seq<CollectiveOperation>, commId: nat, ccId: nat)
    requires Inverse(f, g)
    ensures FindCollective(OpsRenamed(f, g, cs), commId, ccId) == FindCollective(cs, commId, ccId)
  {
    var i, j := FindCollective(cs, commId, ccId), FindCollective(OpsRenamed(f, g, cs), commId, ccId);
    if i < |cs| {
      assert OpsRenamed(f, g, cs)[i].commId == commId && OpsRenamed(f, g, cs)[i].ccId == ccId;
    }
    if j < |cs| {
      assert cs[j].commId == commId && cs[j].ccId == ccId;
    }
  }

  lemma {:induction false} RenamingJoined(f: Naming, g: Naming, s: Marks, mark: Mark, marks: set<Mark>, commId: nat,
                                          ccId: nat, size: nat)
    requires Inverse(f, g)
    ensures OpRenamed(f, g, Joined(s, mark, marks, commId, ccId, size))
            == Joined(Renaming(f, g, s), f(mark), Image(f, marks), commId, ccId, size)
  {
    hide Table;
    OpsFound(f, g, s.collectives, commId, ccId);
    var i := FindCollective(s.collectives, commId, ccId);
    if i < |s.collectives| {
      TableSet(f, g, s.collectives[i].marks, mark, marks);
    } else {
      TableSet(f, g, map[], mark, marks);
      TableEmpty(f, g);
      assert map[][mark := marks] == map[mark := marks];
      assert map[][f(mark) := Image(f, marks)] == map[f(mark) := Image(f, marks)];
    }
  }

  lemma TableEmpty(f: Naming, g: Naming)
    requires Inverse(f, g)
    ensures Table(f, g, map[]) == map[]
  {
  }

  lemma TableSize(f: Naming, g: Naming, t: map<Mark, set<Mark>>)
    requires Inverse(f, g)
    ensures |Table(f, g, t)| == |t|
  {
    ImageSize(f, g, t.Keys);
    assert Table(f, g, t).Keys == Image(f, t.Keys);
    assert |t| == |t.Keys| && |Table(f, g, t)| == |Table(f, g, t).Keys|;
  }

  lemma ValuesSet<K>(f: Naming, t: map<K, set<Mark>>, k: K, v: set<Mark>)
    ensures Values(f, t[k := v]) == Values(f, t)[k := Image(f, v)]
  {
  }

  lemma ValuesDrop<K>(f: Naming, t: map<K, set<Mark>>, ks: set<K>)
    ensures Values(f, t - ks) == Values(f, t) - ks
  {
  }

  lemma {:induction false} RenamingCollective(f: Naming, g: Naming, s: Marks, uid: nat, pid: nat, id: RequestId,
                                              commId: nat, ccId: nat, size: nat)
    requires Inverse(f, g) && pid < |s.process| && f(Mark(uid, id)) == Mark(uid, id)
    ensures Renaming(f, g, CollectivePosted(s, uid, pid, id, commId, ccId, size))
            == CollectivePosted(Renaming(f, g, s), uid, pid, id, commId, ccId, size)
  {
    hide Table, Values, SendsRenamed, ProcessRenamed, OpsRenamed, OpRenamed, Joined, CollectiveDone, Inverse;
    var mark, marks := Mark(uid, id), s.process[pid];
    var i, c := FindCollective(s.collectives, commId, ccId), Joined(s, mark, marks, commId, ccId, size);
    OpsFound(f, g, s.collectives, commId, ccId);
    RenamingJoined(f, g, s, mark, marks, commId, ccId, size);
    OpSize(f, g, c);
    MarkAdded(f, g, s.finished, id, marks, mark);
    OpsWithout(f, g, s.collectives, i);
    OpsWith(f, g, s.collectives, i, c);
    var t := s.(finished := s.finished[id := marks + {mark}]);
    RenamingDone(f, g, t.(collectives := if i < |s.collectives| then s.collectives[..i] + s.collectives[i + 1..]
                                         else s.collectives), c);
  }

  lemma OpSize(f: Naming, g: Naming, c: CollectiveOperation)
    requires Inverse(f, g)
    ensures |OpRenamed(f, g, c).marks| == |c.marks| && OpRenamed(f, g, c).size == c.size
  {
    TableSize(f, g, c.marks);
  }

  lemma MarkAdded<K>(f: Naming, g: Naming, t: map<K, set<Mark>>, k: K, marks: set<Mark>, mark: Mark)
    requires Inverse(f, g) && f(mark) == mark
    ensures Values(f, t[k := marks + {mark}]) == Values(f, t)[k := Image(f, marks) + {mark}]
  {
    ImageOps(f, g, marks, {mark});
    ImageOne(f, mark);
    ValuesSet(f, t, k, marks + {mark});
  }

  lemma OpsWithout(f: Naming, g: Naming, cs: seq<CollectiveOperation>, i: nat)
    requires Inverse(f, g) && i <= |cs|
    ensures var r := OpsRenamed(f, g, cs);
            i < |cs| ==> OpsRenamed(f, g, cs[..i] + cs[i + 1..]) == r[..i] + r[i + 1..]
  {
  }

  lemma OpsWith(f: Naming, g: Naming, cs: seq<CollectiveOperation>, i: nat, c: CollectiveOperation)
    requires Inverse(f, g) && i <= |cs|
    ensures var r := OpsRenamed(f, g, cs);
            && (i < |cs| ==> OpsRenamed(f, g, cs[i := c]) == r[i := OpRenamed(f, g, c)])
            && OpsRenamed(f, g, cs + [c]) == r + [OpRenamed(f, g, c)]
  {
  }

  lemma {:induction false} RenamingPosted(f: Naming, g: Naming, s: Marks, uid: nat, pid: nat, id: RequestId,
                                          commId: nat, ccId: nat, size: nat)
    requires Inverse(f, g) && pid < |s.process| && f(Mark(uid, id)) == Mark(uid, id)
    ensures Renaming(f, g, RequestPosted(s, uid, pid, id, commId, ccId, size))
            == RequestPosted(Renaming(f, g, s), uid, pid, id, commId, ccId, size)
  {
    hide Table, Values, CollectivePosted;
    RenamingCollective(f, g, s, uid, pid, id, commId, ccId, size);
    ValuesSet(f, s.active, id, s.process[pid]);
    ValuesSet(f, s.finished, id, s.process[pid]);
    assert SendsRenamed(f, s.ssend[id := Mark(uid, id)]) == SendsRenamed(f, s.ssend)[id := Mark(uid, id)];
  }

  lemma {:induction false} RenamingAllPosted(f: Naming, g: Naming, s: Marks, uid: nat, pid: nat, ids: seq<RequestId>,
                                             commId: nat, ccId: nat, size: nat)
    requires Inverse(f, g) && pid < |s.process| && forall id :: id in ids ==> f(Mark(uid, id)) == Mark(uid, id)
    ensures Renaming(f, g, AllPosted(s, uid, pid, ids, commId, ccId, size))
            == AllPosted(Renaming(f, g, s), uid, pid, ids, commId, ccId, size)
  {
    hide Renaming, RequestPosted, Inverse;
    assert |Renaming(f, g, s).process| == |s.process| by { RenamingShape(f, g, s); }
    if |ids| > 0 {
      var n := |ids| - 1;
      RenamingAllPosted(f, g, s, uid, pid, ids[..n], commId, ccId, size);
      RenamingPosted(f, g, AllPosted(s, uid, pid, ids[..n], commId, ccId, size), uid, pid, ids[n], commId, ccId, size);
    }
  }

  lemma RenamingShape(f: Naming, g: Naming, s: Marks)
    requires Inverse(f, g)
    ensures var r := Renaming(f, g, s);
            |r.process| == |s.process| && r.active.Keys == s.active.Keys && r.finished.Keys == s.finished.Keys
            && r.ssend.Keys == s.ssend.Keys
  {
  }

  lemma {:induction false} RenamingMatchDone(f: Naming, g: Naming, s: Marks, source: RequestId, target: RequestId)
    requires Inverse(f, g) && source in s.active && target in s.active
    ensures Renaming(f, g, MatchDone(s, source, target)) == MatchDone(Renaming(f, g, s), source, target)
  {
    hide Table, Values, Matched;
    RenamingMatchFields(f, g, s, source, target);
    var r := Renaming(f, g, s);
    var waits := s.active[target];
    var both := s.active[source] + waits;
    var t := s.(active := s.active - {source, target}, finished := s.finished[target := both]);
    ValuesAt(f, t.finished, source);
    if RequestType(source) == SEND_STD {
      if source in t.finished {
        var u := t.(finished := t.finished[source := t.finished[source] + both]);
        ValuesSet(f, t.finished, source, t.finished[source] + both);
        ImageOps(f, g, t.finished[source], both);
        if source in s.ssend {
          RenamingMatched(f, g, u, s.ssend[source], waits);
        }
      } else {
        var u := t.(ssend := t.ssend - {source});
        assert SendsRenamed(f, t.ssend - {source}) == SendsRenamed(f, t.ssend) - {source};
        if source in s.ssend {
          RenamingMatched(f, g, u, s.ssend[source], waits);
        }
      }
    } else {
      ValuesSet(f, t.finished, source, both);
    }
  }

  lemma ValuesAt<K>(f: Naming, t: map<K, set<Mark>>, k: K)
    ensures Values(f, t).Keys == t.Keys && (k in t ==> Values(f, t)[k] == Image(f, t[k]))
  {
  }

  lemma RenamingMatchFields(f: Naming, g: Naming, s: Marks, source: RequestId, target: RequestId)
    requires Inverse(f, g) && source in s.active && target in s.active
    ensures var both := s.active[source] + s.active[target];
            && Values(f, s.active - {source, target}) == Values(f, s.active) - {source, target}
            && Values(f, s.active)[source] + Values(f, s.active)[target] == Image(f, both)
            && Values(f, s.active)[target] == Image(f, s.active[target])
            && Values(f, s.finished[target := both]) == Values(f, s.finished)[target := Image(f, both)]
  {
    ValuesDrop(f, s.active, {source, target});
    ImageOps(f, g, s.active[source], s.active[target]);
    ValuesSet(f, s.finished, target, s.active[source] + s.active[target]);
  }

  lemma {:induction false} RenamingContinued(f: Naming, g: Naming, s: Marks, pid: nat, id: RequestId)
    requires Inverse(f, g) && pid < |s.process| && id in s.finished
    ensures Renaming(f, g, Continued(s, pid, id)) == Continued(Renaming(f, g, s), pid, id)
  {
    hide Table, Image;
    var own := if RequestType(id) == SEND_STD && id in s.ssend then {s.ssend[id]} else {};
    ImageOps(f, g, s.finished[id], own);
    ImageOps(f, g, s.process[pid], s.finished[id] + own);
    ImageNone(f);
    if id in s.ssend {
      ImageOne(f, s.ssend[id]);
    }
    ValuesDrop(f, s.finished, {id});
    assert SendsRenamed(f, s.ssend - {id}) == SendsRenamed(f, s.ssend) - {id};
    var process := s.process[pid := s.process[pid] + (s.finished[id] + own)];
    assert ProcessRenamed(f, process)
        == ProcessRenamed(f, s.process)[pid := Image(f, s.process[pid] + (s.finished[id] + own))];
  }

  lemma {:induction false} RenamingAllContinued(f: Naming, g: Naming, s: Marks, pid: nat, ids: seq<RequestId>)
    requires Inverse(f, g) && pid < |s.process| && (forall i :: 0 <= i < |ids| ==> ids[i] in s.finished)
    requires forall i, j :: 0 <= i < j < |ids| ==> ids[i] != ids[j]
    ensures Renaming(f, g, s).finished.Keys == s.finished.Keys && |Renaming(f, g, s).process| == |s.process|
    ensures Renaming(f, g, AllContinued(s, pid, ids)) == AllContinued(Renaming(f, g, s), pid, ids)
  {
    hide Renaming, Continued, Inverse;
    RenamingShape(f, g, s);
    if |ids| > 0 {
      var n := |ids| - 1;
      RenamingAllContinued(f, g, s, pid, ids[..n]);
      RenamingContinued(f, g, AllContinued(s, pid, ids[..n]), pid, ids[n]);
    }
  }

  /** The marks that an event brings keep their names. */
  ghost predicate KeepsNames(f: Naming, e: Event) {
    e.Call? ==> forall id :: id in e.newRequests ==> f(Mark(e.uid, id)) == Mark(e.uid, id)
  }

  lemma {:induction false} RenamingProcessed(f: Naming, g: Naming, s: Marks, e: Event)
    requires Inverse(f, g) && KeepsNames(f, e)
    ensures WellFormed(Renaming(f, g, s), e) <==> WellFormed(s, e)
    ensures WellFormed(s, e) ==> Renaming(f, g, Processed(s, e)) == Processed(Renaming(f, g, s), e)
  {
    hide Renaming, AllPosted, MatchDone, AllContinued, Inverse;
    RenamingShape(f, g, s);
    if WellFormed(s, e) {
      match e {
        case Call(uid, pid, ids, commId, ccId, size) => RenamingAllPosted(f, g, s, uid, pid, ids, commId, ccId, size);
        case Match(source, target) => RenamingMatchDone(f, g, s, source, target);
        case Continue(pid, ids) => RenamingAllContinued(f, g, s, pid, ids);
      }
    }
  }

  lemma {:induction false} RenamingRequests(f: Naming, g: Naming, s: Marks, ids: seq<RequestId>)
    requires Inverse(f, g) && forall i :: 0 <= i < |ids| ==> ids[i] in s.finished
    ensures Renaming(f, g, s).finished.Keys == s.finished.Keys
    ensures RequestsMarks(Renaming(f, g, s), ids) == Image(f, RequestsMarks(s, ids))
  {
    hide Image, Table;
    ImageNone(f);
    if |ids| > 0 {
      var n := |ids| - 1;
      var before, id := RequestsMarks(s, ids[..n]), ids[n];
      RenamingRequests(f, g, s, ids[..n]);
      ImageOps(f, g, before, s.finished[id]);
      if RequestType(id) == SEND_STD && id in s.ssend {
        ImageOne(f, s.ssend[id]);
        ImageOps(f, g, before + s.finished[id], {s.ssend[id]});
      } else {
        ImageOps(f, g, before + s.finished[id], {});
      }
    }
  }

  lemma {:induction false} RenamingEventMarks(f: Naming, g: Naming, s: Marks, e: Event)
    requires Inverse(f, g) && WellFormed(s, e)
    ensures WellFormed(Renaming(f, g, s), e)
    ensures EventMarks(Renaming(f, g, s), e) == Image(f, EventMarks(s, e))
  {
    RenamingShape(f, g, s);
    hide Image, Table;
    match e {
      case Match(source, target) => ImageOps(f, g, s.active[source], s.active[target]);
      case Continue(pid, ids) =>
        RenamingRequests(f, g, s, ids);
        ImageOps(f, g, s.process[pid], RequestsMarks(s, ids));
      case Call(_, _, _, _, _, _) =>
    }
  }
}
