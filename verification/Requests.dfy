/** Point-to-point and collective requests. */
module Requests {
  import opened MemoryTypes
  import Arithmetic

  datatype Comm = Comm(id: nat, group: seq<nat>)

  datatype SendType = Standard | Eager | Rendezvous

  /** The source of a receive: every process of the communicator, none, or the one with a rank. */
  datatype Source = AnySource | NoSource | FromRank(rank: nat)

  datatype Tag = AnyTag | OnlyTag(tag: nat)

  /** A request. The last fields of a receive are set when it is matched: the message, its sender's rank and its tag. */
  datatype Request =
    | Send(id: nat, sendType: SendType, comm: Comm, target: nat, tag: nat, buffer: Option<nat>)
    | Receive(id: nat, comm: Comm, source: Source, pattern: Tag, buffer: Option<nat>, sourceRank: nat, sourceTag: nat)
    | Collective(id: nat, comm: Comm, ccId: nat)

  /** A request in the list of a process, with the number of its posting. */
  datatype Entry = Entry(serial: nat, request: Request)

  /** The process that the sender or receiver names. */
  function PidOf(comm: Comm, rank: nat): Option<nat> {
    if rank < |comm.group| then Some(comm.group[rank]) else None
  }

  /** Message `s`, sent by process `from` to process `to`, is one that receive `r` asks for. */
  predicate Accepts(r: Request, s: Request, from: nat, to: nat) {
    && r.Receive? && s.Send? && s.comm.id == r.comm.id
    && PidOf(s.comm, s.target) == Some(to)
    && (r.pattern == AnyTag || r.pattern == OnlyTag(s.tag))
    && (r.source == AnySource || (r.source.FromRank? && PidOf(r.comm, r.source.rank) == Some(from)))
  }

  /** The message goes to the member of the communicator that receives, and comes from the member that the receive
      names, if it names one. */
  ghost predicate Meets(r: Request, s: Request, from: nat, to: nat) {
    && r.Receive? && s.Send? && r.comm.id == s.comm.id
    && s.target < |s.comm.group| && s.comm.group[s.target] == to
    && (match r.source
        case AnySource => true
        case NoSource => false
        case FromRank(rank) => rank < |r.comm.group| && r.comm.group[rank] == from)
    && (r.pattern.OnlyTag? ==> r.pattern.tag == s.tag)
  }

  lemma AcceptsMeans(r: Request, s: Request, from: nat, to: nat)
    ensures Accepts(r, s, from, to) <==> Meets(r, s, from, to)
  {
  }

  /** An earlier receive `e` stands in the way of receive `r`. */
  predicate Suppressed(r: Request, e: Request) {
    && r.Receive? && e.Receive?
    && (r.source == e.source || e.source == AnySource)
    && (r.pattern == e.pattern || e.pattern == AnyTag)
    && r.comm.id == e.comm.id
  }

  // ---- request ids -------------------------------------------------------------------------------------

  const TYPES_COUNT: nat := 5

  /** Ids of process `pid` for requests of type `t`: the type and the process can be read off again. */
  predicate IsIdOf(id: nat, processCount: nat, pid: nat, t: nat)
    requires processCount > 0
  {
    id % TYPES_COUNT == t && (id / TYPES_COUNT) % processCount == pid
  }

  /** The first id for the process and the type that is not in use. */
  method NewRequestId(used: set<nat>, processCount: nat, pid: nat, t: nat) returns (id: nat)
    requires pid < processCount && t < TYPES_COUNT
    ensures id !in used && IsIdOf(id, processCount, pid, t) && id >= TYPES_COUNT * processCount
  {
    var c := TYPES_COUNT * processCount;
    var i := c + TYPES_COUNT * pid + t;
    ghost var round, checked := 1, {};
    while i in used
      invariant round >= 1 && i == TYPES_COUNT * (round * processCount + pid) + t && i >= c
      invariant checked <= used && forall x :: x in checked ==> x < i
      decreases used - checked
    {
      checked := checked + {i};
      assert (round + 1) * processCount == round * processCount + processCount;
      round := round + 1;
      i := i + c;
    }
    IdParts(round, processCount, pid, t);
    id := i;
  }

  lemma IdParts(round: nat, processCount: nat, pid: nat, t: nat)
    requires pid < processCount && t < TYPES_COUNT
    ensures IsIdOf(TYPES_COUNT * (round * processCount + pid) + t, processCount, pid, t)
  {
    var x := round * processCount + pid;
    assert (TYPES_COUNT * x + t) / TYPES_COUNT == x && (TYPES_COUNT * x + t) % TYPES_COUNT == t;
    Arithmetic.MultipleMod(round, processCount);
    RestOf(round, processCount, pid);
  }

  lemma RestOf(q: nat, k: nat, r: nat)
    requires r < k
    ensures (q * k + r) % k == r
  {
    var x := q * k + r;
    var d := x / k;
    assert x == d * k + x % k;
    assert (q - d) * k == q * k - d * k;
    Arithmetic.SmallMultiple(q - d, k);
  }

}
