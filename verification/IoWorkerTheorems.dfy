/** The main results about src/ioman.c: over every interleaving the list is a FIFO
    queue, no memory is misused, nothing accepted is stranded, and removal is complete. */
module IoWorkerTheorems {
  import opened Options
  import opened RequestList
  import opened IoWorker
  import opened IoWorkerInvariant

  lemma StepKeeps(s: State, l: Label)
    requires Inv(s)
    ensures Apply(s, l) != Fault
    ensures Apply(s, l).Next? ==> Inv(Apply(s, l).s)
  {
    if Apply(s, l) != Stuck {
      match l
      case WorkerGo => WorkerKeeps(s);
      case HandlerPuts(r) => PutStartsKeep(s, W, r);
      case PutGo(c, mem) => PutKeeps(s, c, mem);
      case ThreadGo(t) => ThreadKeeps(s, t);
      case ThreadStarts(t, act) =>
        match act
        case StartPut(r) => PutStartsKeep(s, T(t), r);
        case _ => MoveKeeps(s, t, Apply(s, l).s.threads[t], s.blocked);
    }
  }

  lemma {:induction false} RunKeeps(s: State, ls: seq<Label>)
    requires Inv(s)
    ensures Run(s, ls) != Fault
    ensures Run(s, ls).Next? ==> Inv(Run(s, ls).s)
    decreases |ls|
  {
    if ls != [] {
      StepKeeps(s, ls[0]);
      if Apply(s, ls[0]).Next? { RunKeeps(Apply(s, ls[0]).s, ls[1..]); }
    }
  }

  /** The nodes met when following next from p, at most n of them. */
  function Walk(nodes: map<Addr, Node>, p: Option<Addr>, n: nat): seq<Addr>
    decreases n
  {
    if n == 0 || p.None? || p.value !in nodes then [] else [p.value] + Walk(nodes, nodes[p.value].next, n - 1)
  }

  lemma {:induction false} WalkIsChain(nodes: map<Addr, Node>, chain: seq<Addr>, k: nat, n: nat)
    requires Linked(nodes, chain, None) && k <= |chain| && n >= |chain| - k
    ensures Walk(nodes, At(chain, k), n) == chain[k..]
    decreases |chain| - k
  {
    if k < |chain| {
      WalkIsChain(nodes, chain, k + 1, n - 1);
      assert nodes[chain[k]].next == At(chain, k + 1) by {
        if k + 1 < |chain| { assert nodes[chain[k]].next == Some(chain[k + 1]); }
      }
    }
  }

  /** Memory safety and FIFO order over every interleaving: no step touches freed memory;
      requests are taken in the order of acceptance, each at most once, and whatever is
      neither taken nor removed is still in the list. */
  lemma Refinement(tids: set<Tid>, ls: seq<Label>)
    ensures Run(Init(tids), ls) != Fault
    ensures Run(Init(tids), ls).Next? ==>
      var s := Run(Init(tids), ls).s;
      var ids := s.q.popped + s.q.pending;
      && ids == Kept(|s.q.accepted|, s.q.removed)
      && (forall i, j :: 0 <= i < j < |ids| ==> ids[i] < ids[j])
      && (forall i :: 0 <= i < |ids| ==> ids[i] < |s.q.accepted| && s.q.accepted[ids[i]].kind in s.handlers)
  {
    InitInv(tids);
    RunKeeps(Init(tids), ls);
    if Run(Init(tids), ls).Next? {
      var s := Run(Init(tids), ls).s;
      KeptIsBelow(|s.q.accepted|, s.q.removed);
    }
  }

  /** Whenever gEndSemaId is free, the pending requests are what following the links
      from gReqList finds, and gReqEnd is the last of them, or both are NULL. */
  lemma ListIsSound(tids: set<Tid>, ls: seq<Label>, n: nat)
    requires Run(Init(tids), ls).Next?
    requires var s := Run(Init(tids), ls).s; s.end.None? && n >= |s.q.pending|
    ensures var s := Run(Init(tids), ls).s;
      var found := Walk(s.q.nodes, s.q.reqList, n);
      && s.q.reqEnd == Last(found)
      && (s.q.reqList.None? <==> s.q.reqEnd.None?)
      && (forall i :: 0 <= i < |found| ==> found[i] in s.q.nodes)
      && Selects(seq(|found|, i requires 0 <= i < |found| && found[i] in s.q.nodes => s.q.nodes[found[i]].req),
                 s.q.accepted, s.q.pending)
  {
    hide Inv, Run, Walk, Selects;
    InitInv(tids);
    RunKeeps(Init(tids), ls);
    ListInState(Run(Init(tids), ls).s, n);
  }

  lemma ListInState(s: State, n: nat)
    requires Inv(s) && s.end.None? && n >= |s.q.pending|
    ensures var found := Walk(s.q.nodes, s.q.reqList, n);
      && s.q.reqEnd == Last(found)
      && (s.q.reqList.None? <==> s.q.reqEnd.None?)
      && (forall i :: 0 <= i < |found| ==> found[i] in s.q.nodes)
      && Selects(seq(|found|, i requires 0 <= i < |found| && found[i] in s.q.nodes => s.q.nodes[found[i]].req),
                 s.q.accepted, s.q.pending)
  {
    hide Walk;
    assert InEnd(s, W) ==> s.end == Some(W);
    WalkIsChain(s.q.nodes, s.q.chain, 0, n);
    assert s.q.chain[0..] == s.q.chain;
  }

  /** The request being dispatched and handled is the oldest pending one, and stays the
      head of the list until the worker pops it. */
  lemma HandledIsHead(tids: set<Tid>, ls: seq<Label>)
    requires Run(Init(tids), ls).Next?
    ensures var s := Run(Init(tids), ls).s;
      s.worker.Dispatch? || s.worker.Handling? || s.worker.TakeEndW? || s.worker.PopW? ==>
        s.q.reqList == Some(s.worker.a) && s.q.chain != [] && s.q.chain[0] == s.worker.a
        && s.q.pending != [] && s.q.pending[0] < |s.q.accepted|
  {
    InitInv(tids);
    RunKeeps(Init(tids), ls);
  }

  /** Between its drain loops the worker owes nothing: if a request is pending then a
      wake-up is counted, or a producer has yet to make its WakeupThread call. */
  lemma NothingStranded(tids: set<Tid>, ls: seq<Label>)
    requires Run(Init(tids), ls).Next?
    ensures var s := Run(Init(tids), ls).s;
      s.q.pending != [] ==>
        || s.wakeups > 0
        || (exists t :: WillWake(s, t))
        || !(s.worker.ReleaseProc? || s.worker.Sleep? || s.worker.Asleep?)
  {
    InitInv(tids);
    RunKeeps(Init(tids), ls);
  }

  // ---------------------------------------------------------------------------
  // The worker drains the queue
  // ---------------------------------------------------------------------------

  function Rank(pc: WorkerPc): nat {
    match pc
    case FixEndW => 14
    case ReleaseEndW => 13
    case ReleaseProc => 12
    case Sleep => 11
    case TakeProc => 10
    case Test => 9
    case Fetch => 8
    case Dispatch(_) => 7
    case Handling(_) => 6
    case TakeEndW(_) => 5
    case PopW(_) => 4
    case Asleep => 0
  }

  /** No client is inside ioman: no call of ioPutRequest and no semaphore held. */
  ghost predicate ClientsAway(s: State) {
    s.puts == map[] && (s.proc.None? || s.proc == Some(W)) && (s.end.None? || s.end == Some(W))
  }

  lemma WorkerCanStep(s: State)
    requires Inv(s) && ClientsAway(s) && s.q.chain != []
    ensures WorkerStep(s).Next?
  {
    assert forall t :: !WillWake(s, t);
    if s.end == Some(W) { assert InEnd(s, W); }
    if s.proc == Some(W) { assert InProc(s, W); }
    WorkerKeeps(s);
  }

  lemma WorkerStepFalls(s: State)
    requires s.q.chain != [] && s.q.reqList.Some? && WorkerStep(s).Next?
    requires s.worker.Sleep? ==> s.wakeups > 0
    ensures var s' := WorkerStep(s).s;
      |s'.q.chain| < |s.q.chain| || (s'.q.chain == s.q.chain && Rank(s'.worker) < Rank(s.worker))
  {
    match s.worker
    case PopW(a) => assert |s.q.chain[1..]| == |s.q.chain| - 1;
    case _ =>
  }

  lemma PopLogs(q: Queue, a: Addr)
    requires a in q.nodes && q.chain != [] && q.pending != []
    ensures Pop(q, a).accepted == q.accepted && Pop(q, a).removed == q.removed
  {
  }

  lemma WorkerStepIsItsOwn(s: State)
    requires ClientsAway(s) && WorkerStep(s).Next?
    ensures var s' := WorkerStep(s).s;
      ClientsAway(s') && s'.q.accepted == s.q.accepted && s'.q.removed == s.q.removed
  {
    hide Pop;
    match s.worker
    case PopW(a) => PopLogs(s.q, a);
    case _ =>
  }

  lemma WorkerProgresses(s: State)
    requires Inv(s) && ClientsAway(s) && s.q.chain != []
    ensures WorkerStep(s).Next? && Inv(WorkerStep(s).s)
    ensures var s' := WorkerStep(s).s;
      ClientsAway(s') && s'.q.accepted == s.q.accepted && s'.q.removed == s.q.removed &&
      (|s'.q.chain| < |s.q.chain| || (s'.q.chain == s.q.chain && Rank(s'.worker) < Rank(s.worker)))
  {
    WorkerCanStep(s);
    assert forall t :: !WillWake(s, t);
    WorkerStepFalls(s);
    WorkerStepIsItsOwn(s);
    WorkerKeeps(s);
  }

  /** Whatever was accepted is taken: once the clients have left, the worker alone, from
      wherever it stands, runs until the list is empty. */
  lemma {:induction false} WorkerDrains(s: State) returns (ls: seq<Label>)
    requires Inv(s) && ClientsAway(s)
    ensures forall i :: 0 <= i < |ls| ==> ls[i] == WorkerGo
    ensures Run(s, ls).Next?
    ensures var s' := Run(s, ls).s;
      s'.q.chain == [] && s'.q.popped == Kept(|s.q.accepted|, s.q.removed) && s'.q.reqList.None?
      && s'.q.accepted == s.q.accepted && s'.q.removed == s.q.removed
    decreases |s.q.chain|, Rank(s.worker)
  {
    if s.q.chain == [] {
      ls := [];
      assert s.q.pending == [];
      assert s.q.popped + s.q.pending == s.q.popped;
    } else {
      WorkerProgresses(s);
      var rest := WorkerDrains(WorkerStep(s).s);
      ls := [WorkerGo] + rest;
      assert ls[1..] == rest;
    }
  }

  /** When gReqList is NULL no handler is executing and nothing is pending: every accepted
      request was taken or removed, and handled unless an unfilled node was read. */
  lemma EmptyIsIdle(s: State)
    requires Inv(s) && s.q.reqList.None?
    ensures !s.worker.Handling? && s.q.pending == []
    ensures s.q.popped == Kept(|s.q.accepted|, s.q.removed)
    ensures Ran(s) ==> Selects(s.ran, s.q.accepted, Kept(|s.q.accepted|, s.q.removed))
  {
    assert s.q.popped + Current(s) == s.q.popped == s.q.popped + s.q.pending;
  }

  // ---------------------------------------------------------------------------
  // ioRemoveRequests
  // ---------------------------------------------------------------------------

  /** Each turn of the loop either removes the k-th pending request, which is of the
      given type, and counts it, or removes nothing; and the loop ends only when no
      pending request of the type is left. */
  lemma RemoveCounts(s: State, t: Tid) returns (k: nat)
    requires Inv(s) && t in s.threads && s.threads[t].RmLoop?
    ensures ThreadStep(s, t).Next?
    ensures var pc, s' := s.threads[t], ThreadStep(s, t).s;
      var pc' := s'.threads[t];
      if s'.q == s.q then
        pc'.RmReleaseEnd? ==> pc'.count == pc.count && FreeOf(s'.q, pc.kind, |s'.q.pending|)
      else
        && k < |s.q.pending| && s.q.pending[k] < |s.q.accepted|
        && s.q.accepted[s.q.pending[k]].kind == pc.kind
        && s'.q.pending == Without(s.q.pending, k) && s'.q.popped == s.q.popped
        && s'.q.removed == s.q.removed + {s.q.pending[k]}
        && pc'.RmLoop? && pc'.count == pc.count + 1
  {
    RemoveKeeps(s, t);
    assert InEnd(s, T(t));
    var pc := s.threads[t];
    k :| CursorAt(s.q, pc.kind, pc.cur, pc.last, k);
    if k < |s.q.chain| {
      assert Raw(s) == None;
      UnlinkIsBypass(s.q, k, pc.last);
    }
  }
}
