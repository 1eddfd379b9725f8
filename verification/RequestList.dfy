/** The linked request list of src/ioman.c, as the stores made under gEndSemaId see it.

    The nodes are malloc'ed cells linked by address.  Next to what the program stores
    stands what the correctness statements speak about: every accepted request in
    order (its index is its identity), the nodes in list order with the identities
    they carry, and the identities popped by the worker and removed by
    ioRemoveRequests. */
module RequestList {
  import opened Options

  type Addr = nat

  datatype Request = Request(kind: int, data: int)
  datatype Node = Node(req: Request, next: Option<Addr>)

  datatype Queue = Queue(
    nodes: map<Addr, Node>,
    reqList: Option<Addr>,
    reqEnd: Option<Addr>,
    accepted: seq<Request>,
    chain: seq<Addr>,
    pending: seq<nat>,
    popped: seq<nat>,
    removed: set<nat>)

  const EMPTY := Queue(map[], None, None, [], [], [], [], {})

  // ---------------------------------------------------------------------------
  // The stores
  // ---------------------------------------------------------------------------

  /** ioPutRequest, lines 219-229: a new node with arbitrary contents is linked. */
  function Publish(q: Queue, r: Request, a: Addr, junk: Node): Queue {
    var linked := match q.reqEnd
      case Some(e) => if e in q.nodes then q.nodes[e := q.nodes[e].(next := Some(a))] else q.nodes
      case None => q.nodes;
    q.(nodes := linked[a := junk],
       reqList := if q.reqEnd.None? then Some(a) else q.reqList,
       reqEnd := Some(a),
       accepted := q.accepted + [r],
       chain := q.chain + [a],
       pending := q.pending + [|q.accepted|])
  }

  /** ioPutRequest, lines 231-233: the linked node gets its contents. */
  function Fill(q: Queue, r: Request, a: Addr): Queue { q.(nodes := q.nodes[a := Node(r, None)]) }

  /** ioWorkerThread, lines 139-140. */
  function Pop(q: Queue, a: Addr): Queue
    requires a in q.nodes && q.chain != [] && q.pending != []
  {
    q.(reqList := q.nodes[a].next, nodes := q.nodes - {a},
       chain := q.chain[1..], pending := q.pending[1..], popped := q.popped + [q.pending[0]])
  }

  /** ioWorkerThread, lines 142-143. */
  function FixEnd(q: Queue): Queue { q.(reqEnd := if q.reqList.None? then None else q.reqEnd) }

  /** The position of an address in the list. */
  function IndexOf(chain: seq<Addr>, a: Addr): (i: nat)
    ensures i <= |chain|
    ensures i < |chain| ==> chain[i] == a
    ensures forall j :: 0 <= j < i ==> chain[j] != a
  {
    if chain == [] then 0 else if chain[0] == a then 0 else 1 + IndexOf(chain[1..], a)
  }

  function Without<A>(xs: seq<A>, i: nat): seq<A> { if i < |xs| then xs[..i] + xs[i + 1..] else xs }

  /** ioRemoveRequests, lines 254-266: the node at the cursor is unlinked and freed. */
  function Unlink(q: Queue, cur: Addr, last: Option<Addr>): Queue
    requires cur in q.nodes
  {
    var next := q.nodes[cur].next;
    var linked := if last.Some? && last.value in q.nodes
                  then q.nodes[last.value := q.nodes[last.value].(next := next)] else q.nodes;
    var i := IndexOf(q.chain, cur);
    q.(nodes := linked - {cur},
       reqList := if q.reqList == Some(cur) then next else q.reqList,
       reqEnd := if q.reqEnd == Some(cur) then last else q.reqEnd,
       chain := Without(q.chain, i),
       pending := Without(q.pending, i),
       removed := q.removed + (if i < |q.pending| then {q.pending[i]} else {}))
  }

  // ---------------------------------------------------------------------------
  // What the list means
  // ---------------------------------------------------------------------------

  function At(chain: seq<Addr>, i: nat): Option<Addr> { if i < |chain| then Some(chain[i]) else None }

  function Last(chain: seq<Addr>): Option<Addr> { if chain == [] then None else Some(chain[|chain| - 1]) }

  ghost predicate Distinct(chain: seq<Addr>) {
    forall i, j :: 0 <= i < j < |chain| ==> chain[i] != chain[j]
  }

  /** The nodes of the chain are allocated, different, and linked in its order; the
      link of an unfilled last node is not known. */
  ghost predicate Linked(nodes: map<Addr, Node>, chain: seq<Addr>, raw: Option<Addr>) {
    && Distinct(chain)
    && (forall i :: 0 <= i < |chain| ==> chain[i] in nodes)
    && (forall i, j :: 0 <= i && j == i + 1 < |chain| ==> nodes[chain[i]].next == Some(chain[j]))
    && (chain != [] && raw.None? ==> nodes[chain[|chain| - 1]].next == None)
    && (raw.Some? ==> Last(chain) == raw)
  }

  /** Every filled node carries the request of its identity. */
  ghost predicate Carries(q: Queue, raw: Option<Addr>) {
    && |q.pending| == |q.chain|
    && (forall i :: 0 <= i < |q.pending| ==> q.pending[i] < |q.accepted|)
    && (forall i :: 0 <= i < |q.chain| && raw != Some(q.chain[i]) ==>
          q.chain[i] in q.nodes && q.nodes[q.chain[i]].req == q.accepted[q.pending[i]])
  }

  /** The identities below n that were not removed, in order. */
  function Kept(n: nat, removed: set<nat>): seq<nat> {
    if n == 0 then [] else Kept(n - 1, removed) + (if n - 1 in removed then [] else [n - 1])
  }

  /** The list refines a FIFO queue: popped and pending identities together are the
      accepted ones that were not removed, in the order of acceptance. */
  ghost predicate Fifo(q: Queue) {
    && q.popped + q.pending == Kept(|q.accepted|, q.removed)
    && (forall id :: id in q.removed ==> id < |q.accepted|)
  }

  /** The list is sound and holds every allocated node (nothing leaks).  `raw` is the
      published but unfilled node; while `fixing`, the worker has popped a
      node and not yet repaired gReqEnd. */
  ghost predicate ListOk(q: Queue, raw: Option<Addr>, fixing: bool) {
    && Linked(q.nodes, q.chain, raw)
    && q.reqList == At(q.chain, 0)
    && (q.reqEnd == Last(q.chain) || (fixing && q.chain == []))
    && |q.nodes| == |q.chain|
    && Carries(q, raw)
    && Fifo(q)
  }

  // ---------------------------------------------------------------------------
  // Each store keeps it
  // ---------------------------------------------------------------------------

  lemma PublishKeeps(q: Queue, r: Request, a: Addr, junk: Node)
    requires ListOk(q, None, false) && a !in q.nodes
    ensures q.reqEnd.Some? ==> q.reqEnd.value in q.nodes
    ensures ListOk(Publish(q, r, a, junk), Some(a), false)
  {
    var q' := Publish(q, r, a, junk);
    assert q'.popped + q'.pending == (q.popped + q.pending) + [|q.accepted|];
  }

  lemma FillKeeps(q: Queue, r: Request, a: Addr)
    requires ListOk(q, Some(a), false)
    requires q.accepted[q.pending[|q.pending| - 1]] == r
    ensures a in q.nodes
    ensures ListOk(Fill(q, r, a), None, false)
  {
  }

  lemma PopKeeps(q: Queue, a: Addr)
    requires ListOk(q, None, false) && At(q.chain, 0) == Some(a)
    ensures a in q.nodes && q.pending != []
    ensures ListOk(Pop(q, a), None, true)
  {
    var q' := Pop(q, a);
    assert q'.nodes.Keys == q.nodes.Keys - {a};
    assert q'.popped + q'.pending == q.popped + q.pending;
  }

  lemma FixEndKeeps(q: Queue)
    requires ListOk(q, None, true)
    ensures ListOk(FixEnd(q), None, false)
  {
  }

  lemma {:induction false} KeptIsBelow(n: nat, removed: set<nat>)
    ensures forall i :: 0 <= i < |Kept(n, removed)| ==> Kept(n, removed)[i] < n && Kept(n, removed)[i] !in removed
    ensures forall i, j :: 0 <= i < j < |Kept(n, removed)| ==> Kept(n, removed)[i] < Kept(n, removed)[j]
  {
    if n > 0 { KeptIsBelow(n - 1, removed); }
  }

  lemma {:induction false} KeptWithout(n: nat, removed: set<nat>, k: nat)
    requires k < |Kept(n, removed)|
    ensures Kept(n, removed + {Kept(n, removed)[k]}) == Without(Kept(n, removed), k)
  {
    var before := Kept(n - 1, removed);
    var tail: seq<nat> := if n - 1 in removed then [] else [n - 1];
    assert Kept(n, removed) == before + tail;
    KeptIsBelow(n - 1, removed);
    if k < |before| {
      KeptWithout(n - 1, removed, k);
      assert Without(before + tail, k) == Without(before, k) + tail;
    } else {
      KeptSame(n - 1, removed, n - 1);
      assert Without(before + tail, k) == before;
    }
  }

  lemma {:induction false} KeptSame(n: nat, removed: set<nat>, id: nat)
    requires id >= n
    ensures Kept(n, removed + {id}) == Kept(n, removed)
  {
    if n > 0 { KeptSame(n - 1, removed, id); }
  }

  lemma WithoutAt(xs: seq<nat>, i: nat)
    requires i < |xs|
    ensures |Without(xs, i)| == |xs| - 1
    ensures forall j :: 0 <= j < |xs| - 1 ==> Without(xs, i)[j] == (if j < i then xs[j] else xs[j + 1])
  {
  }

  /** The link past node k, and its removal from the heap. */
  function Bypass(nodes: map<Addr, Node>, chain: seq<Addr>, k: nat): map<Addr, Node>
    requires k < |chain| && chain[k] in nodes && (k > 0 ==> chain[k - 1] in nodes)
  {
    (if k == 0 then nodes
     else nodes[chain[k - 1] := nodes[chain[k - 1]].(next := nodes[chain[k]].next)]) - {chain[k]}
  }

  lemma WithoutDistinct(chain: seq<Addr>, k: nat)
    requires Distinct(chain) && k < |chain|
    ensures Distinct(Without(chain, k))
    ensures forall i :: 0 <= i < |chain| - 1 ==> Without(chain, k)[i] != chain[k]
  {
    WithoutAt(chain, k);
  }

  /** Only the link of the node before the k-th changes. */
  lemma BypassKeeps(nodes: map<Addr, Node>, chain: seq<Addr>, k: nat)
    requires Linked(nodes, chain, None) && k < |chain|
    ensures var nodes' := Bypass(nodes, chain, k);
      forall i :: 0 <= i < |chain| && i != k ==>
        && chain[i] in nodes' && nodes'[chain[i]].req == nodes[chain[i]].req
        && nodes'[chain[i]].next == nodes[chain[if i + 1 == k then k else i]].next
  {
  }

  lemma BypassLinks(nodes: map<Addr, Node>, chain: seq<Addr>, k: nat)
    requires Linked(nodes, chain, None) && k < |chain|
    ensures Linked(Bypass(nodes, chain, k), Without(chain, k), None)
    ensures forall i :: 0 <= i < |chain| && i != k ==>
      chain[i] in Bypass(nodes, chain, k) && Bypass(nodes, chain, k)[chain[i]].req == nodes[chain[i]].req
  {
    BypassKeeps(nodes, chain, k);
    WithoutDistinct(chain, k);
    hide Bypass, Distinct;
    var nodes', chain' := Bypass(nodes, chain, k), Without(chain, k);
    forall i, j | 0 <= i && j == i + 1 < |chain'|
      ensures chain'[i] in nodes' && nodes'[chain'[i]].next == Some(chain'[j])
    {
      assert chain'[i] == chain[if i < k then i else i + 1];
      assert chain'[j] == chain[if j < k then j else j + 1];
    }
  }

  lemma BypassSize(nodes: map<Addr, Node>, chain: seq<Addr>, k: nat)
    requires k < |chain| && chain[k] in nodes && (k > 0 ==> chain[k - 1] in nodes)
    ensures |Bypass(nodes, chain, k)| == |nodes| - 1
  {
    assert Bypass(nodes, chain, k).Keys == nodes.Keys - {chain[k]};
    assert |nodes.Keys - {chain[k]}| == |nodes.Keys| - 1;
  }

  lemma UnlinkIsBypass(q: Queue, k: nat, last: Option<Addr>)
    requires Linked(q.nodes, q.chain, None) && k < |q.chain|
    requires last == if k == 0 then None else Some(q.chain[k - 1])
    ensures IndexOf(q.chain, q.chain[k]) == k
    ensures Unlink(q, q.chain[k], last).nodes == Bypass(q.nodes, q.chain, k)
    ensures q.reqList == At(q.chain, 0) ==> Unlink(q, q.chain[k], last).reqList == At(Without(q.chain, k), 0)
    ensures q.reqEnd == Last(q.chain) ==> Unlink(q, q.chain[k], last).reqEnd == Last(Without(q.chain, k))
  {
    WithoutAt(q.chain, k);
  }

  lemma UnlinkFifo(q: Queue, k: nat)
    requires Fifo(q) && k < |q.pending|
    requires forall i :: 0 <= i < |q.pending| ==> q.pending[i] < |q.accepted|
    ensures q.popped + Without(q.pending, k) == Kept(|q.accepted|, q.removed + {q.pending[k]})
  {
    var all := Kept(|q.accepted|, q.removed);
    assert all[|q.popped| + k] == q.pending[k];
    KeptWithout(|q.accepted|, q.removed, |q.popped| + k);
    assert q.popped + Without(q.pending, k) == Without(all, |q.popped| + k);
  }

  lemma UnlinkCarries(q: Queue, k: nat)
    requires Linked(q.nodes, q.chain, None) && Carries(q, None) && k < |q.chain|
    ensures Carries(q.(nodes := Bypass(q.nodes, q.chain, k), chain := Without(q.chain, k),
                       pending := Without(q.pending, k)), None)
  {
    BypassLinks(q.nodes, q.chain, k);
    WithoutAt(q.chain, k);
    WithoutAt(q.pending, k);
  }

  lemma UnlinkKeeps(q: Queue, k: nat, last: Option<Addr>)
    requires ListOk(q, None, false) && k < |q.chain|
    requires last == if k == 0 then None else Some(q.chain[k - 1])
    ensures q.chain[k] in q.nodes
    ensures last.Some? ==> last.value in q.nodes
    ensures IndexOf(q.chain, q.chain[k]) == k
    ensures ListOk(Unlink(q, q.chain[k], last), None, false)
  {
    UnlinkIsBypass(q, k, last);
    BypassLinks(q.nodes, q.chain, k);
    BypassSize(q.nodes, q.chain, k);
    UnlinkCarries(q, k);
    UnlinkFifo(q, k);
  }
}
