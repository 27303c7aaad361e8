/** The look-up of the mark of a standard send that is matched while its process still waits for it: it never fails. */
module NdsyncLookups {
  import opened Ndsync
  import opened StateSpace
  import opened NdsyncChecker

  // ---- marks in sets -----------------------------------------------------------------------------------

  ghost predicate InTable<K(!new)>(t: map<K, set<Mark>>, m: Mark) {
    exists k :: k in t && m in t[k]
  }

  /** Something depends on mark `m`. */
  ghost predicate InSets(s: Marks, m: Mark) {
    || (exists i :: 0 <= i < |s.process| && m in s.process[i])
    || InTable(s.active, m) || InTable(s.finished, m) || InTable(s.terminate, m)
    || (exists c :: c in s.collectives && InTable(c.marks, m))
  }

  /** The sets of `u` have no other marks than those of `s` and of `extra`. */
  ghost predicate Within(s: Marks, u: Marks, extra: set<Mark>) {
    forall m :: InSets(u, m) ==> InSets(s, m) || m in extra
  }

  /** What is known of the marks of standard sends. Nothing depends on the mark of a send that its process has not
      learnt of, and a pending send among the finished requests has a mark, unless its id is in `x`. */
  ghost predicate SendsOk(s: Marks, x: set<RequestId>) {
    && (forall id :: id in s.ssend ==> s.ssend[id].request == id && RequestType(id) == SEND_STD)
    && (forall id :: id in s.active && id in s.finished && RequestType(id) == SEND_STD && id !in x ==> id in s.ssend)
    && (forall id :: id in s.ssend && id in s.finished ==> !InSets(s, s.ssend[id]))
    && (forall id :: id in s.ssend && id in s.active ==> s.ssend[id] !in s.terminate)
    && (forall c, m :: c in s.collectives && m in c.marks ==> RequestType(m.request) == COLLECTIVE)
  }

  lemma SendsKept(s: Marks, u: Marks, x: set<RequestId>, y: set<RequestId>, extra: set<Mark>)
    requires SendsOk(s, x) && Within(s, u, extra)
    requires forall id :: id in u.ssend ==> id in s.ssend && u.ssend[id] == s.ssend[id]
    requires forall id :: id in u.ssend && id in u.finished ==> id in s.finished && u.ssend[id] !in extra
    requires forall id :: id in u.ssend && id in u.active ==> u.ssend[id] !in u.terminate
    requires forall id :: id in u.active && id in u.finished && RequestType(id) == SEND_STD && id !in y ==>
        id in u.ssend
    requires forall c, m :: c in u.collectives && m in c.marks ==> RequestType(m.request) == COLLECTIVE
    ensures SendsOk(u, y)
  {
  }

  // ---- removals -----------------------------------------------------------------------------------------

  lemma ErasedWithin(s: Marks, r: set<Mark>)
    ensures Within(s, Erase(s, r), {})
  {
    var e := Erase(s, r);
    forall m | InSets(e, m) ensures InSets(s, m) {
      if c :| c in e.collectives && InTable(c.marks, m) {
        var i :| 0 <= i < |e.collectives| && e.collectives[i] == c;
        assert s.collectives[i] in s.collectives;
        var k :| k in c.marks && m in c.marks[k];
        assert k in s.collectives[i].marks && m in s.collectives[i].marks[k];
      } else if InTable(e.active, m) {
        var k :| k in e.active && m in e.active[k];
        assert k in s.active && m in s.active[k];
      } else if InTable(e.finished, m) {
        var k :| k in e.finished && m in e.finished[k];
        assert k in s.finished && m in s.finished[k];
      } else if InTable(e.terminate, m) {
        var k :| k in e.terminate && m in e.terminate[k];
        assert k in s.terminate && m in s.terminate[k];
      }
    }
  }

  lemma ClosureInside(t: map<Mark, set<Mark>>, marks: set<Mark>)
    ensures Closure(t, marks) <= marks + t.Keys
  {
    ClosureIsLeast(t, marks);
    assert Ndsync.Closed(t, marks + t.Keys);
  }

  /** Cleaning up does not take along the marks of pending sends that are not removed themselves. */
  lemma CleanupSends(s: Marks, marks: set<Mark>, x: set<RequestId>, y: set<RequestId>)
    requires SendsOk(s, x) && x <= y
    requires forall id :: id in s.ssend && id in s.active && id in s.finished && id !in y ==> s.ssend[id] !in marks
    ensures SendsOk(Cleanup(s, marks), y)
  {
    var r := Closure(s.terminate, marks);
    ClosureInside(s.terminate, marks);
    ErasedWithin(s, r);
    var e := Erase(s, r);
    forall c, m | c in e.collectives && m in c.marks ensures RequestType(m.request) == COLLECTIVE {
      var i :| 0 <= i < |e.collectives| && e.collectives[i] == c;
      assert s.collectives[i] in s.collectives && m in s.collectives[i].marks;
    }
    SendsKept(s, e, x, y, {});
  }

  // ---- events --------------------------------------------------------------------------------------------

  lemma {:induction false} MatchedSends(u: Marks, source: RequestId, mark: Mark, waits: set<Mark>)
    requires SendsOk(u, {}) && source !in u.active && mark.request == source && RequestType(source) == SEND_STD
    requires forall m :: m in waits ==> InSets(u, m)
    ensures SendsOk(Matched(u, mark, waits), {})
  {
    var t := Matched(u, mark, waits);
    if waits == {} {
      CleanupSends(u, {mark}, {}, {});
    } else {
      forall m | InSets(t, m) ensures InSets(u, m) {
        if InTable(t.terminate, m) {
          var k :| k in t.terminate && m in t.terminate[k];
          if k != mark {
            assert k in u.terminate && m in u.terminate[k];
          }
        }
      }
      SendsKept(u, t, {}, {}, {});
    }
  }

  /** The tables after a match, before the mark of a standard send is looked at. */
  lemma {:induction false} BothMatched(s: Marks, u: Marks, source: RequestId, target: RequestId)
    requires SendsOk(s, {}) && source in s.active && target in s.active && source != target
             && RequestType(target) == RECEIVE
    requires u.process == s.process && u.terminate == s.terminate && u.collectives == s.collectives
             && u.active == s.active - {source, target}
    requires u.ssend == s.ssend || u.ssend == s.ssend - {source}
    requires u.finished.Keys <= s.finished.Keys + {source, target}
    requires source in s.ssend && source in u.ssend ==> source in s.finished
    requires forall k, m :: k in u.finished && m in u.finished[k] ==>
               (k in s.finished && m in s.finished[k]) || m in s.active[source] || m in s.active[target]
    ensures SendsOk(u, {}) && forall m :: m in s.active[source] + s.active[target] ==> InSets(s, m)
    ensures Within(s, u, {})
  {
    forall m | InSets(u, m) ensures InSets(s, m) {
      if InTable(u.active, m) {
        var k :| k in u.active && m in u.active[k];
        assert k in s.active && m in s.active[k];
      }
      if InTable(u.finished, m) {
        var k :| k in u.finished && m in u.finished[k];
        assert InTable(s.finished, m) || InTable(s.active, m);
      }
    }
    SendsKept(s, u, {}, {}, {});
  }

  lemma {:induction false} MatchSends(s: Marks, source: RequestId, target: RequestId)
    requires SendsOk(s, {}) && source in s.active && target in s.active && source != target
             && RequestType(target) == RECEIVE
    ensures SendsOk(MatchDone(s, source, target), {})
  {
    var waits := s.active[target];
    var new' := s.active[source] + waits;
    var t := s.(active := s.active - {source, target}, finished := s.finished[target := new']);
    if RequestType(source) == SEND_RENDEZVOUS {
      BothMatched(s, t.(finished := t.finished[source := new']), source, target);
    } else if RequestType(source) == SEND_STD {
      var u := if source in t.finished then t.(finished := t.finished[source := t.finished[source] + new'])
               else t.(ssend := t.ssend - {source});
      BothMatched(s, u, source, target);
      if source in s.ssend {
        if waits != {} {
          StandardMatched(s, u, source, target);
        } else {
          MatchedSends(u, source, s.ssend[source], waits);
        }
      }
    } else {
      BothMatched(s, t, source, target);
    }
  }

  /** The wait set of a matched standard send holds marks that something depended on before. */
  lemma {:induction false} StandardMatched(s: Marks, u: Marks, source: RequestId, target: RequestId)
    requires SendsOk(s, {}) && SendsOk(u, {}) && Within(s, u, {}) && source in s.ssend && source !in u.active
             && target in s.active
    requires s.active[target] != {} && forall id :: id in u.ssend ==> id in s.ssend && u.ssend[id] == s.ssend[id]
    requires forall id :: id in u.ssend && id in u.finished ==> id in s.finished
    ensures SendsOk(Matched(u, s.ssend[source], s.active[target]), {})
  {
    var mark, waits := s.ssend[source], s.active[target];
    var t := Matched(u, mark, waits);
    forall m | InSets(t, m) ensures InSets(s, m) {
      if InTable(t.terminate, m) {
        var k :| k in t.terminate && m in t.terminate[k];
        if k == mark {
          assert InTable(s.active, m);
        } else {
          assert k in u.terminate && m in u.terminate[k];
          assert InTable(u.terminate, m);
        }
      }
    }
    forall id | id in t.ssend && id in t.active ensures t.ssend[id] !in t.terminate {
      assert u.ssend[id] !in u.terminate;
    }
  }

  lemma {:induction false} ContinueSends(s: Marks, pid: nat, id: RequestId, x: set<RequestId>)
    requires SendsOk(s, x) && pid < |s.process| && id in s.finished
    ensures SendsOk(Continued(s, pid, id), x - {id})
  {
    var t := Continued(s, pid, id);
    var own := if RequestType(id) == SEND_STD && id in s.ssend then {s.ssend[id]} else {};
    forall m | InSets(t, m) ensures InSets(s, m) || m in own {
      if InTable(t.finished, m) {
        var k :| k in t.finished && m in t.finished[k];
        assert k in s.finished && m in s.finished[k];
      }
      if i :| 0 <= i < |t.process| && m in t.process[i] {
        if m !in s.process[i] && m !in own {
          assert m in s.finished[id];
          assert InTable(s.finished, m);
        }
      }
    }
    SendsKept(s, t, x, x - {id}, own);
  }

  lemma {:induction false} AllContinueSends(s: Marks, pid: nat, ids: seq<RequestId>, x: set<RequestId>)
    requires SendsOk(s, x) && pid < |s.process| && (forall i :: 0 <= i < |ids| ==> ids[i] in s.finished)
    requires forall i, j :: 0 <= i < j < |ids| ==> ids[i] != ids[j]
    ensures SendsOk(AllContinued(s, pid, ids), x - IdsOf(ids))
  {
    hide SendsOk, Continued;
    if |ids| == 0 {
      assert x - IdsOf(ids) == x;
    } else {
      var n := |ids| - 1;
      var before := ids[..n];
      AllContinueSends(s, pid, before, x);
      ContinueSends(AllContinued(s, pid, before), pid, ids[n], x - IdsOf(before));
      assert ids == before + [ids[n]];
      assert x - IdsOf(ids) == x - IdsOf(before) - {ids[n]};
    }
  }

  /** Nothing has to do with mark `m` yet. */
  ghost predicate IsNew(s: Marks, m: Mark) {
    !InSets(s, m) && m !in s.terminate
  }

  /** From `s` to `u` one request was posted: it may have brought a mark, of a collective call, to the sets. */
  ghost predicate PostedOne(s: Marks, u: Marks, mark: Mark) {
    && Within(s, u, if RequestType(mark.request) == COLLECTIVE then {mark} else {})
    && (forall m :: m in u.terminate ==> m in s.terminate || RequestType(m.request) == COLLECTIVE)
    && u.ssend.Keys <= s.ssend.Keys + {mark.request}
  }

  lemma {:induction false} CollectiveTables(s: Marks, u: Marks, i: nat, c: CollectiveOperation, mark: Mark, pid: nat)
    requires SendsOk(s, {}) && pid < |s.process| && RequestType(mark.request) == COLLECTIVE && i <= |s.collectives|
    requires forall k :: k in c.marks ==> (k == mark && c.marks[k] == s.process[pid])
                                          || (i < |s.collectives| && k in s.collectives[i].marks
                                              && c.marks[k] == s.collectives[i].marks[k])
    requires u == s.(finished := s.finished[mark.request := s.process[pid] + {mark}], collectives := u.collectives)
    requires forall d :: d in u.collectives ==> d == c || d in s.collectives
    ensures SendsOk(u, {}) && Within(s, u, {mark}) && (forall m :: m in UnionOf(c.marks) ==> InSets(s, m))
    ensures forall m :: m in c.marks ==> RequestType(m.request) == COLLECTIVE
  {
    forall k, m | k in c.marks && m in c.marks[k] ensures InSets(s, m) {
      if !(k == mark && c.marks[k] == s.process[pid]) {
        assert s.collectives[i] in s.collectives && InTable(s.collectives[i].marks, m);
      }
    }
    forall m | InSets(u, m) ensures InSets(s, m) || m == mark {
      if InTable(u.finished, m) {
        var k :| k in u.finished && m in u.finished[k];
        if k != mark.request {
          assert k in s.finished && m in s.finished[k];
        }
      }
    }
    forall d, m | d in u.collectives && m in d.marks ensures RequestType(m.request) == COLLECTIVE {
      if d !in s.collectives && m != mark {
        assert s.collectives[i] in s.collectives && m in s.collectives[i].marks;
      }
    }
    forall m | m in c.marks ensures RequestType(m.request) == COLLECTIVE {
      if m != mark {
        assert s.collectives[i] in s.collectives && m in s.collectives[i].marks;
      }
    }
    SendsKept(s, u, {}, {}, {mark});
  }

  lemma {:induction false} CollectiveDoneSends(s: Marks, u: Marks, c: CollectiveOperation, mark: Mark)
    requires SendsOk(u, {}) && Within(s, u, {mark}) && (forall m :: m in UnionOf(c.marks) ==> InSets(s, m))
    requires RequestType(mark.request) == COLLECTIVE && u.terminate == s.terminate && u.ssend == s.ssend
    requires forall m :: m in c.marks ==> RequestType(m.request) == COLLECTIVE
    requires forall id :: id in u.ssend && id in u.finished ==> !InSets(s, u.ssend[id])
    ensures SendsOk(CollectiveDone(u, c), {}) && PostedOne(s, CollectiveDone(u, c), mark)
  {
    var all := UnionOf(c.marks);
    var t := CollectiveDone(u, c);
    if all == {} {
      CleanupSends(u, c.marks.Keys, {}, {});
      ErasedWithin(u, Closure(u.terminate, c.marks.Keys));
    } else {
      forall m | InSets(t, m) ensures InSets(u, m) || m in all {
        if InTable(t.terminate, m) {
          var k :| k in t.terminate && m in t.terminate[k];
          if k !in c.marks {
            assert k in u.terminate && m in u.terminate[k];
          }
        }
      }
      SendsKept(u, t, {}, {}, all);
    }
  }

  lemma {:induction false} JoinedEntries(s: Marks, mark: Mark, pid: nat, commId: nat, ccId: nat, size: nat)
    requires pid < |s.process|
    ensures var i := FindCollective(s.collectives, commId, ccId);
            var c := Joined(s, mark, s.process[pid], commId, ccId, size);
            forall k :: k in c.marks ==> (k == mark && c.marks[k] == s.process[pid])
                                         || (i < |s.collectives| && k in s.collectives[i].marks
                                             && c.marks[k] == s.collectives[i].marks[k])
  {
  }

  lemma {:induction false} CollectiveSends(s: Marks, uid: nat, pid: nat, id: RequestId, commId: nat, ccId: nat,
                                           size: nat)
    requires SendsOk(s, {}) && pid < |s.process| && RequestType(id) == COLLECTIVE && id !in s.finished
    ensures var t := CollectivePosted(s, uid, pid, id, commId, ccId, size);
            SendsOk(t, {}) && PostedOne(s, t, Mark(uid, id))
  {
    hide InSets, InTable, UnionOf, Joined, CollectiveDone, SendsOk, PostedOne, Within;
    var mark, marks := Mark(uid, id), s.process[pid];
    var i := FindCollective(s.collectives, commId, ccId);
    var c := Joined(s, mark, marks, commId, ccId, size);
    var t := s.(finished := s.finished[id := marks + {mark}]);
    JoinedEntries(s, mark, pid, commId, ccId, size);
    if |c.marks| == c.size {
      var u := t.(collectives := if i < |s.collectives| then s.collectives[..i] + s.collectives[i + 1..]
                  else s.collectives);
      assert forall d :: d in u.collectives ==> d in s.collectives;
      LastCallSends(s, u, i, c, mark, pid);
    } else {
      var u := t.(collectives := if i < |s.collectives| then s.collectives[i := c] else s.collectives + [c]);
      assert forall d :: d in u.collectives ==> d == c || d in s.collectives;
      CollectiveTables(s, u, i, c, mark, pid);
      JustPosted(s, u, mark);
    }
  }

  lemma {:induction false} LastCallSends(s: Marks, u: Marks, i: nat, c: CollectiveOperation, mark: Mark, pid: nat)
    requires SendsOk(s, {}) && pid < |s.process| && RequestType(mark.request) == COLLECTIVE && i <= |s.collectives|
    requires forall k :: k in c.marks ==> (k == mark && c.marks[k] == s.process[pid])
                                          || (i < |s.collectives| && k in s.collectives[i].marks
                                              && c.marks[k] == s.collectives[i].marks[k])
    requires u == s.(finished := s.finished[mark.request := s.process[pid] + {mark}], collectives := u.collectives)
    requires forall d :: d in u.collectives ==> d in s.collectives
    ensures SendsOk(CollectiveDone(u, c), {}) && PostedOne(s, CollectiveDone(u, c), mark)
  {
    hide InSets, InTable, UnionOf, CollectiveDone, SendsOk, PostedOne, Within;
    CollectiveTables(s, u, i, c, mark, pid);
    StandardUnchanged(s, u, mark);
    CollectiveDoneSends(s, u, c, mark);
  }

  lemma StandardUnchanged(s: Marks, u: Marks, mark: Mark)
    requires SendsOk(s, {}) && u.ssend == s.ssend && RequestType(mark.request) == COLLECTIVE
             && u.finished.Keys == s.finished.Keys + {mark.request}
    ensures forall id :: id in u.ssend && id in u.finished ==> !InSets(s, u.ssend[id])
  {
  }

  lemma JustPosted(s: Marks, u: Marks, mark: Mark)
    requires Within(s, u, {mark}) && RequestType(mark.request) == COLLECTIVE && u.terminate == s.terminate
             && u.ssend == s.ssend
    ensures PostedOne(s, u, mark)
  {
  }

  lemma {:induction false} PlainSends(s: Marks, uid: nat, pid: nat, id: RequestId)
    requires SendsOk(s, {}) && pid < |s.process| && RequestType(id) != COLLECTIVE && id !in s.active
             && id !in s.finished && id !in s.ssend
    requires RequestType(id) == SEND_STD ==> IsNew(s, Mark(uid, id))
    ensures var t := RequestPosted(s, uid, pid, id, 0, 0, 0);
            SendsOk(t, {}) && PostedOne(s, t, Mark(uid, id))
  {
    var t := RequestPosted(s, uid, pid, id, 0, 0, 0);
    forall m | InSets(t, m) ensures InSets(s, m) {
      if InTable(t.active, m) {
        var k :| k in t.active && m in t.active[k];
        assert k != id ==> k in s.active && m in s.active[k];
      }
      if InTable(t.finished, m) {
        var k :| k in t.finished && m in t.finished[k];
        assert k != id ==> k in s.finished && m in s.finished[k];
      }
    }
    forall k | k in t.ssend && k in t.finished ensures !InSets(t, t.ssend[k]) {
    }
  }

  lemma PlainIsPosted(s: Marks, uid: nat, pid: nat, id: RequestId, commId: nat, ccId: nat, size: nat)
    requires pid < |s.process| && RequestType(id) != COLLECTIVE
    ensures RequestPosted(s, uid, pid, id, commId, ccId, size) == RequestPosted(s, uid, pid, id, 0, 0, 0)
  {
  }

  lemma {:induction false} PostSends(s: Marks, uid: nat, pid: nat, id: RequestId, commId: nat, ccId: nat, size: nat)
    requires SendsOk(s, {}) && pid < |s.process| && id !in s.active && id !in s.finished && id !in s.ssend
    requires RequestType(id) == SEND_STD ==> IsNew(s, Mark(uid, id))
    ensures var t := RequestPosted(s, uid, pid, id, commId, ccId, size);
            SendsOk(t, {}) && PostedOne(s, t, Mark(uid, id))
  {
    hide SendsOk, PostedOne, IsNew;
    if RequestType(id) == COLLECTIVE {
      CollectiveSends(s, uid, pid, id, commId, ccId, size);
    } else {
      PlainIsPosted(s, uid, pid, id, commId, ccId, size);
      PlainSends(s, uid, pid, id);
    }
  }

  lemma StaysNew(s: Marks, u: Marks, mark: Mark, other: Mark)
    requires PostedOne(s, u, mark) && IsNew(s, other) && other != mark && RequestType(other.request) == SEND_STD
    ensures IsNew(u, other)
  {
  }

  ghost predicate Unused(s: Marks, ids: seq<RequestId>) {
    && (forall i :: 0 <= i < |ids| ==> ids[i] !in s.active && ids[i] !in s.finished && ids[i] !in s.ssend)
    && (forall i, j :: 0 <= i < j < |ids| ==> ids[i] != ids[j])
  }

  ghost predicate AllNew(s: Marks, uid: nat, ids: seq<RequestId>) {
    forall i :: 0 <= i < |ids| && RequestType(ids[i]) == SEND_STD ==> IsNew(s, Mark(uid, ids[i]))
  }

  /** Marks of standard sends that are not among `ids` are as new as before. */
  ghost predicate OthersNew(s: Marks, t: Marks, ids: seq<RequestId>) {
    forall other: Mark :: other.request !in ids && RequestType(other.request) == SEND_STD && IsNew(s, other)
          ==> IsNew(t, other)
  }

  lemma OthersNewOn(s: Marks, t: Marks, u: Marks, before: seq<RequestId>, mark: Mark)
    requires OthersNew(s, t, before) && PostedOne(t, u, mark)
    ensures OthersNew(s, u, before + [mark.request])
  {
    forall other: Mark | other.request !in before + [mark.request] && RequestType(other.request) == SEND_STD
          && IsNew(s, other)
      ensures IsNew(u, other)
    {
      assert mark.request in before + [mark.request];
      StaysNew(t, u, mark, other);
    }
  }

  ghost function IdsOf(ids: seq<RequestId>): set<RequestId> {
    set id | id in ids
  }

  lemma UnusedOn(s: Marks, t: Marks, uid: nat, ids: seq<RequestId>, before: seq<RequestId>, id: RequestId)
    requires ids == before + [id] && Unused(s, ids) && AllNew(s, uid, ids) && OthersNew(s, t, before)
    requires t.active.Keys <= s.active.Keys + IdsOf(before) && t.finished.Keys <= s.finished.Keys + IdsOf(before)
    requires t.ssend.Keys <= s.ssend.Keys + IdsOf(before)
    ensures id !in t.active && id !in t.finished && id !in t.ssend
            && (RequestType(id) == SEND_STD ==> IsNew(t, Mark(uid, id)))
  {
    assert ids[|before|] == id;
    forall k | 0 <= k < |before| ensures before[k] != id {
      assert ids[k] == before[k];
    }
    assert Mark(uid, id).request == id;
  }

  /** All requests of an event are posted. */
  lemma {:induction false} AllPostSends(s: Marks, uid: nat, pid: nat, ids: seq<RequestId>, commId: nat, ccId: nat,
                                        size: nat)
    requires SendsOk(s, {}) && pid < |s.process| && Unused(s, ids) && AllNew(s, uid, ids)
    ensures var t := AllPosted(s, uid, pid, ids, commId, ccId, size);
            SendsOk(t, {}) && OthersNew(s, t, ids) && t.ssend.Keys <= s.ssend.Keys + IdsOf(ids)
    decreases |ids|
  {
    if |ids| > 0 {
      var n := |ids| - 1;
      var before, id := ids[..n], ids[n];
      assert ids == before + [id];
      assert Unused(s, before) && AllNew(s, uid, before);
      hide SendsOk, IsNew, RequestPosted, PostedOne, Unused, AllNew, OthersNew;
      AllPostSends(s, uid, pid, before, commId, ccId, size);
      var t := AllPosted(s, uid, pid, before, commId, ccId, size);
      UnusedOn(s, t, uid, ids, before, id);
      PostSends(t, uid, pid, id, commId, ccId, size);
      var u := RequestPosted(t, uid, pid, id, commId, ccId, size);
      PostedMeans(t, u, Mark(uid, id));
      OthersNewOn(s, t, u, before, Mark(uid, id));
    }
  }

  lemma PostedMeans(s: Marks, u: Marks, mark: Mark)
    requires PostedOne(s, u, mark)
    ensures u.ssend.Keys <= s.ssend.Keys + {mark.request}
  {
  }

  // ---- whole ways ----------------------------------------------------------------------------------------

  /** What the events themselves bring: ids of new requests are not in use, matched requests are active, finished
      requests are known to be finished, and no event happens twice. */
  ghost predicate EventOk(s: Marks, e: Event) {
    match e
    case Call(uid, pid, ids, _, _, _) =>
      && pid < |s.process| && (forall i :: 0 <= i < |ids| ==> ids[i] !in s.active && ids[i] !in s.finished)
      && (forall i, j :: 0 <= i < j < |ids| ==> ids[i] != ids[j])
      && (forall i :: 0 <= i < |ids| && RequestType(ids[i]) == SEND_STD ==> IsNew(s, Mark(uid, ids[i])))
    case Match(source, target) => source in s.active && target in s.active && source != target
          && RequestType(target) == RECEIVE
    case Continue(pid, ids) =>
      && pid < |s.process| && (forall i :: 0 <= i < |ids| ==> ids[i] in s.finished)
      && (forall i, j :: 0 <= i < j < |ids| ==> ids[i] != ids[j])
  }

  /** The ids for which an event itself makes up for a removed mark. */
  ghost function Excused(e: Event): set<RequestId> {
    match e
    case Continue(_, ids) => IdsOf(ids)
    case _ => {}
  }

  /** The look-up succeeds, and the event keeps what is known. */
  lemma {:induction false} EventSends(s: Marks, e: Event)
    requires Inv(s) && SendsOk(s, Excused(e)) && EventOk(s, e)
    ensures WellFormed(s, e) && SendsOk(Processed(s, e), {})
  {
    match e {
      case Call(uid, pid, ids, commId, ccId, size) =>
        assert Unused(s, ids) && AllNew(s, uid, ids);
        AllPostSends(s, uid, pid, ids, commId, ccId, size);
      case Match(source, target) =>
        MatchSends(s, source, target);
      case Continue(pid, ids) =>
        AllContinueSends(s, pid, ids, Excused(e));
        assert Excused(e) - IdsOf(ids) == {};
    }
  }

  lemma SendsExcused(s: Marks, x: set<RequestId>)
    requires SendsOk(s, {})
    ensures SendsOk(s, x)
  {
  }

  ghost predicate RunOk(s: Marks, events: seq<Event>)
    decreases |events|
  {
    |events| == 0 || (EventOk(s, events[0]) && (WellFormed(s, events[0])
                                                ==> RunOk(Processed(s, events[0]), events[1..])))
  }

  lemma {:induction false} RunSends(s: Marks, events: seq<Event>)
    requires Inv(s) && SendsOk(s, if events == [] then {} else Excused(events[0])) && RunOk(s, events)
    ensures RunWellFormed(s, events) && SendsOk(AfterRun(s, events), {})
    decreases |events|
  {
    hide Inv, SendsOk, EventOk, WellFormed, Processed;
    if events != [] {
      EventSends(s, events[0]);
      ProcessedInv(s, events[0]);
      var t := Processed(s, events[0]);
      SendsExcused(t, if events[1..] == [] then {} else Excused(events[1..][0]));
      RunSends(t, events[1..]);
    }
  }

  // ---- along the ways of a walk --------------------------------------------------------------------------

  /** The events of arc `a` bring what they should under marking `m`. */
  ghost predicate ArcEventsOk(g: Graph, events: map<ArcId, seq<Event>>, m: Marks, a: ArcId)
    requires IsArc(g, a)
  {
    && a in events
    && (|g[a.node]| > 1 ==> |events[a]| > 0 && EventOk(m, events[a][0]))
    && ((|g[a.node]| > 1 ==> WellFormed(m, events[a][0])) ==> RunOk(Before(g, events, m, a), events[a]))
  }

  lemma {:induction false} AwaitedInSets(s: Marks, ids: seq<RequestId>, m: Mark)
    requires forall i :: 0 <= i < |ids| ==> ids[i] in s.finished
    requires m in RequestsMarks(s, ids)
    ensures InSets(s, m) || exists id :: id in ids && id in s.ssend && s.ssend[id] == m
    decreases |ids|
  {
    if |ids| > 0 {
      var n := |ids| - 1;
      var before, id := ids[..n], ids[n];
      assert ids == before + [id];
      if m in RequestsMarks(s, before) {
        AwaitedInSets(s, before, m);
      } else if m in s.finished[id] {
        assert InTable(s.finished, m);
      } else {
        assert id in ids && id in s.ssend && s.ssend[id] == m;
      }
    }
  }

  lemma {:induction false} MarksOfEvent(m: Marks, e: Event, x: Mark)
    requires WellFormed(m, e) && x in EventMarks(m, e)
    ensures InSets(m, x) || exists id :: id in Excused(e) && id in m.ssend && m.ssend[id] == x
  {
    match e {
      case Match(source, target) => assert InTable(m.active, x);
      case Call(_, pid, _, _, _, _) => assert x in m.process[pid];
      case Continue(pid, ids) =>
        if x !in m.process[pid] {
          AwaitedInSets(m, ids, x);
        }
    }
  }

  /** Giving up the marks of an event takes along the marks of pending sends only if the event makes up for it. */
  lemma {:induction false} GiveUpSends(m: Marks, e: Event)
    requires SendsOk(m, {}) && WellFormed(m, e)
    ensures SendsOk(Cleanup(m, EventMarks(m, e)), Excused(e))
  {
    forall id | id in m.ssend && id in m.active && id in m.finished && id !in Excused(e)
          ensures m.ssend[id] !in EventMarks(m, e) {
      if m.ssend[id] in EventMarks(m, e) {
        MarksOfEvent(m, e, m.ssend[id]);
      }
    }
    CleanupSends(m, EventMarks(m, e), {}, Excused(e));
  }

  lemma {:induction false} ArcSends(t: Plan, m: Marks, a: ArcId)
    requires Inv(m) && SendsOk(m, {}) && IsArc(t.g, a) && ArcEventsOk(t.g, t.events, m, a)
    ensures ArcOk(t.g, t.events, m, a) && SendsOk(Advance(t, m, a), {})
  {
    hide Inv, SendsOk, EventOk, WellFormed, EventMarks, Cleanup, RunOk, RunWellFormed, AfterRun;
    var es := t.events[a];
    if |t.g[a.node]| > 1 {
      SendsExcused(m, Excused(es[0]));
      EventSends(m, es[0]);
      GiveUpSends(m, es[0]);
      GiveUpKeepsInv(m, EventMarks(m, es[0]));
    }
    var b := Before(t.g, t.events, m, a);
    assert Inv(b);
    SendsExcused(m, if es == [] then {} else Excused(es[0]));
    RunSends(b, es);
  }

  ghost predicate WaysOk(t: Plan, first: Marks) {
    forall n, m :: n in t.nodes && Carried(t, first, n, m) ==>
      n in t.g && forall i: nat :: i < |t.g[n]| ==> ArcEventsOk(t.g, t.events, m, ArcId(n, i))
  }

  lemma {:induction false} AlongSends(t: Plan, processCount: nat, path: seq<ArcId>, n: Node)
    requires WaysOk(t, InitialMarks(processCount)) && Trail(t, path, n)
    requires forall a :: a in t.forward ==> IsArc(t.g, a) && a.node in t.nodes
    ensures SendsOk(Along(t, InitialMarks(processCount), path), {})
    decreases |path|
  {
    hide Inv, SendsOk, Advance, ArcEventsOk;
    var first := InitialMarks(processCount);
    NothingSent(processCount);
    if path != [] {
      var a, before := path[|path| - 1], path[..|path| - 1];
      AlongSends(t, processCount, before, a.node);
      var m := Along(t, first, before);
      InvAlong(t, first, before);
      assert Carried(t, first, a.node, m);
      assert ArcEventsOk(t.g, t.events, m, ArcId(a.node, a.index));
      assert ArcId(a.node, a.index) == a;
      ArcSends(t, m, a);
    }
  }

  lemma NothingSent(processCount: nat)
    ensures SendsOk(InitialMarks(processCount), {}) && Inv(InitialMarks(processCount))
  {
  }

  /** When the events along all ways bring what they should, and none happens twice on a way, the look-up of the mark
      of a matched standard send never fails: this is the assumption under which the walk is proved correct. */
  lemma {:induction false} LookupsSucceed(t: Plan, processCount: nat)
    requires WaysOk(t, InitialMarks(processCount)) && t.nodes <= t.g.Keys
    requires forall a :: a in t.forward ==> IsArc(t.g, a) && a.node in t.nodes
    ensures EventsOk(t, InitialMarks(processCount))
  {
    hide Inv, SendsOk, ArcEventsOk, ArcOk, Trail, Along;
    var first := InitialMarks(processCount);
    forall n, m | n in t.nodes && Carried(t, first, n, m) ensures ArcsOk(t.g, t.events, m, n) {
      var path :| Trail(t, path, n) && Along(t, first, path) == m;
      AlongSends(t, processCount, path, n);
      NothingSent(processCount);
      InvAlong(t, first, path);
      forall i: nat | i < |t.g[n]| ensures ArcOk(t.g, t.events, m, ArcId(n, i)) {
        assert ArcEventsOk(t.g, t.events, m, ArcId(n, i));
        ArcSends(t, m, ArcId(n, i));
      }
    }
  }
}
