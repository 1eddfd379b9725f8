/** What the handlers of src/ioman.c are called with.  The list theorems hold whatever the
    worker reads; that it reads the accepted requests is a property of the interleaving,
    because ioPutRequest publishes a node before filling it in. */
module IoWorkerDispatch {
  import opened Options
  import opened RequestList
  import opened IoWorker
  import opened IoWorkerInvariant
  import opened IoWorkerTheorems

  /** While a request is being handled it is pending. */
  lemma HeadPending(s: State)
    requires Inv(s)
    ensures |s.q.pending| == |s.q.chain|
    ensures s.worker.Handling? || s.worker.TakeEndW? || s.worker.PopW? ==> s.q.pending != []
  {
  }

  lemma RanSame(s: State, s': State)
    requires Ran(s) && s'.ran == s.ran && s.q.accepted <= s'.q.accepted
    requires s'.q.popped + Current(s') == s.q.popped + Current(s)
    ensures Ran(s')
  {
  }

  /** What the stores do to the record of requests. */
  lemma PublishAppends(q: Queue, r: Request, a: Addr, junk: Node)
    ensures var q' := Publish(q, r, a, junk);
      q'.accepted == q.accepted + [r] && q'.popped == q.popped && q'.pending == q.pending + [|q.accepted|]
  {
  }

  lemma FillAppendsNothing(q: Queue, r: Request, a: Addr)
    ensures var q' := RequestList.Fill(q, r, a);
      q'.accepted == q.accepted && q'.popped == q.popped && q'.pending == q.pending
  {
  }

  lemma UnlinkAppendsNothing(q: Queue, a: Addr, last: Option<Addr>)
    requires a in q.nodes
    ensures Unlink(q, a, last).accepted == q.accepted && Unlink(q, a, last).popped == q.popped
  {
  }

  lemma PopMoves(q: Queue, a: Addr)
    requires a in q.nodes && q.chain != [] && q.pending != []
    ensures var q' := Pop(q, a); q'.accepted == q.accepted && q'.popped == q.popped + [q.pending[0]]
  {
  }

  lemma RanPut(s: State, c: Caller, mem: Malloc)
    requires Inv(s) && Ran(s) && c in s.puts && PutStep(s, c, mem).Next?
    ensures Ran(PutStep(s, c, mem).s)
  {
    HeadPending(s);
    hide Inv, Ran, Publish, RequestList.Fill;
    match s.puts[c] {
      case Link(r) => PublishAppends(s.q, r, mem.a, mem.junk);
      case Fill(r, a) => FillAppendsNothing(s.q, r, a);
      case _ =>
    }
    RanSame(s, PutStep(s, c, mem).s);
  }

  lemma WorkerRecords(s: State)
    requires WorkerStep(s).Next? && !s.worker.Dispatch? && !s.worker.PopW?
    ensures var s' := WorkerStep(s).s;
      && s'.ran == s.ran && s'.q.accepted == s.q.accepted && s'.q.popped == s.q.popped && s'.q.pending == s.q.pending
      && Current(s') == Current(s)
  {
    hide Pop;
  }

  /** The worker's other steps keep it; calling a handler keeps it exactly when the node
      carries the accepted request. */
  lemma RanWorker(s: State)
    requires Inv(s) && Ran(s) && WorkerStep(s).Next?
    ensures Ran(WorkerStep(s).s) <==> DispatchesRight(s, WorkerGo)
  {
    var s' := WorkerStep(s).s;
    if s.worker.Dispatch? {
      RanDispatch(s);
    } else {
      if s.worker.PopW? { RanPop(s); } else { WorkerRecords(s); }
      hide Inv, Ran, WorkerStep, Current;
      RanSame(s, s');
    }
  }

  lemma RanPop(s: State)
    requires Inv(s) && s.worker.PopW? && WorkerStep(s).Next?
    ensures var s' := WorkerStep(s).s;
      && s'.ran == s.ran && s'.q.accepted == s.q.accepted
      && s'.q.popped + Current(s') == s.q.popped + Current(s)
  {
    HeadPending(s);
    hide Inv, Pop;
    PopMoves(s.q, s.worker.a);
    var s' := WorkerStep(s).s;
    assert s'.q.popped + Current(s') == s'.q.popped;
  }

  lemma RanDispatch(s: State)
    requires Inv(s) && Ran(s) && s.worker.Dispatch? && WorkerStep(s).Next?
    ensures Ran(WorkerStep(s).s) <==> DispatchesRight(s, WorkerGo)
  {
    var s' := WorkerStep(s).s;
    assert s.q.popped + Current(s) == s.q.popped;
    var ids := s'.q.popped + Current(s');
    assert ids == s.q.popped + [s.q.pending[0]];
    assert ids[|s.q.popped|] == s.q.pending[0];
    if s'.worker.Handling? { assert s'.ran[|s.q.popped|] == s.q.nodes[s.worker.a].req; }
  }

  /** A thread in the removal loop holds gProcSemaId, so nothing is being handled. */
  lemma RemovalIsAlone(s: State, t: Tid)
    requires Inv(s) && t in s.threads && s.threads[t].RmLoop?
    ensures !s.worker.Handling? && !s.worker.TakeEndW? && !s.worker.PopW?
  {
    assert InProc(s, T(t));
    assert InProc(s, W) ==> s.proc == Some(W);
  }

  lemma ThreadRecords(s: State, t: Tid)
    requires t in s.threads && ThreadStep(s, t).Next?
    ensures var s' := ThreadStep(s, t).s;
      && s'.ran == s.ran && s'.q.accepted == s.q.accepted && s'.q.popped == s.q.popped && s'.worker == s.worker
      && (!s.threads[t].RmLoop? ==> s'.q == s.q)
  {
    hide Unlink;
    if s.threads[t].RmLoop? && s.threads[t].cur.Some? {
      UnlinkAppendsNothing(s.q, s.threads[t].cur.value, s.threads[t].last);
    }
  }

  lemma RanThread(s: State, t: Tid)
    requires Inv(s) && Ran(s) && t in s.threads && ThreadStep(s, t).Next?
    ensures Ran(ThreadStep(s, t).s)
  {
    if s.threads[t].RmLoop? { RemovalIsAlone(s, t); }
    ThreadRecords(s, t);
    hide Inv, Ran, ThreadStep;
    RanSame(s, ThreadStep(s, t).s);
  }

  lemma RanStep(s: State, l: Label)
    requires Inv(s) && Ran(s) && Apply(s, l).Next?
    ensures Ran(Apply(s, l).s) <==> DispatchesRight(s, l)
  {
    hide Inv, Ran, WorkerStep, PutStep, ThreadStep;
    match l
    case WorkerGo => RanWorker(s);
    case PutGo(c, mem) => RanPut(s, c, mem);
    case ThreadGo(t) => RanThread(s, t);
    case HandlerPuts(_) | ThreadStarts(_, _) => RanSame(s, Apply(s, l).s);
  }

  /** At every moment of the interleaving, handlers were called with exactly the popped
      requests and the current one. */
  ghost predicate RanAlong(s: State, ls: seq<Label>)
    decreases |ls|
  {
    Ran(s) && (ls != [] && Apply(s, ls[0]).Next? ==> RanAlong(Apply(s, ls[0]).s, ls[1..]))
  }

  /** Over every interleaving: handlers are called with the accepted requests in order, at
      every moment, if and only if every node dispatched carries its accepted request. */
  lemma {:induction false} RanIff(s: State, ls: seq<Label>)
    requires Inv(s) && Ran(s) && Run(s, ls).Next?
    ensures RanAlong(s, ls) <==> DispatchesRightly(s, ls)
    decreases |ls|
  {
    hide Inv, Ran, DispatchesRight, Apply;
    if ls != [] {
      var s1 := Apply(s, ls[0]).s;
      RanStep(s, ls[0]);
      StepKeeps(s, ls[0]);
      if Ran(s1) { RanIff(s1, ls[1..]); }
    }
  }

  lemma {:induction false} RanAtEnd(s: State, ls: seq<Label>)
    requires RanAlong(s, ls) && Run(s, ls).Next?
    ensures Ran(Run(s, ls).s)
    decreases |ls|
  {
    if ls != [] { RanAtEnd(Apply(s, ls[0]).s, ls[1..]); }
  }

  /** From the initial state: what was handled is what was accepted, in order. */
  lemma HandledIsAccepted(tids: set<Tid>, ls: seq<Label>)
    requires Run(Init(tids), ls).Next? && DispatchesRightly(Init(tids), ls)
    ensures var s := Run(Init(tids), ls).s; Selects(s.ran, s.q.accepted, s.q.popped + Current(s))
  {
    InitInv(tids);
    RanIff(Init(tids), ls);
    RanAtEnd(Init(tids), ls);
  }

  /** Only an unfilled node can carry anything else. */
  lemma FilledIsRight(s: State, l: Label)
    requires Inv(s) && !ReadsRaw(s, l)
    ensures DispatchesRight(s, l)
  {
    if l.WorkerGo? && s.worker.Dispatch? { assert s.q.chain[0] == s.worker.a; }
  }

  lemma {:induction false} OrderlyDispatchesRightly(s: State, ls: seq<Label>)
    requires Inv(s) && Orderly(s, ls)
    ensures DispatchesRightly(s, ls)
    decreases |ls|
  {
    hide Inv, DispatchesRight, ReadsRaw, Apply;
    if ls != [] {
      FilledIsRight(s, ls[0]);
      StepKeeps(s, ls[0]);
      if Apply(s, ls[0]).Next? { OrderlyDispatchesRightly(Apply(s, ls[0]).s, ls[1..]); }
    }
  }

  /** Exactly when reading the head is right, from any state the system can be in: the
      node is filled in, or what malloc returned happens to agree.  Otherwise a handler
      gets the wrong request, or none is called and the request is dropped. */
  lemma DispatchIsRightIff(s: State)
    requires Inv(s) && Ran(s) && s.worker.Dispatch? && WorkerStep(s).Next?
    ensures Ran(WorkerStep(s).s) <==>
      (!ReadsRaw(s, WorkerGo) || s.q.nodes[s.worker.a].req == s.q.accepted[s.q.pending[0]])
  {
    RanDispatch(s);
    if !ReadsRaw(s, WorkerGo) { FilledIsRight(s, WorkerGo); }
  }

  // ---------------------------------------------------------------------------
  // Which puts are at risk
  // ---------------------------------------------------------------------------

  /** The head of the list is not filled in yet. */
  predicate RawIsHead(s: State) { s.q.chain != [] && Raw(s) == Some(s.q.chain[0]) }

  /** A node is linked as the head, unfilled, exactly when the list was empty. */
  lemma RawIsHeadIff(s: State, c: Caller, mem: Malloc)
    requires Inv(s) && c in s.puts && s.puts[c].Link? && PutStep(s, c, mem).Next?
    ensures RawIsHead(PutStep(s, c, mem).s) <==> s.q.reqList.None?
  {
    assert InEnd(s, c);
    var s' := PutStep(s, c, mem).s;
    assert Raw(s') == Some(mem.a) && s'.q.chain == s.q.chain + [mem.a];
    if s.q.chain != [] { assert s.q.chain[0] in s.q.nodes; }
  }

  /** The request r with this identity is not at the head of the list unfilled. */
  predicate Covered(s: State, id: nat, r: Request) {
    && id < |s.q.accepted| && s.q.accepted[id] == r
    && (RawIsHead(s) && s.q.pending != [] ==> s.q.pending[0] != id)
  }

  lemma CoveredPut(s: State, c: Caller, mem: Malloc, id: nat, r: Request)
    requires Inv(s) && Covered(s, id, r) && c in s.puts && PutStep(s, c, mem).Next?
    ensures Covered(PutStep(s, c, mem).s, id, r)
  {
    var s' := PutStep(s, c, mem).s;
    if s.puts[c].Link? {
      RawIsHeadIff(s, c, mem);
      PublishAppends(s.q, s.puts[c].r, mem.a, mem.junk);
      if s.q.reqList.None? { HeadPending(s); }
      hide Inv, Publish;
    } else if s.puts[c].Fill? {
      assert InEnd(s, c);
      hide Inv;
    } else {
      assert s'.q == s.q;
      assert Raw(s').Some? ==> Raw(s') == Raw(s);
      hide Inv;
    }
  }

  lemma CoveredSame(s: State, s': State, id: nat, r: Request)
    requires Covered(s, id, r) && s'.q.accepted == s.q.accepted
    requires Raw(s').None? || (Raw(s') == Raw(s) && s'.q.chain == s.q.chain && s'.q.pending == s.q.pending)
    ensures Covered(s', id, r)
  {
  }

  /** The worker and ioRemoveRequests publish nothing, and touch the list only while they
      hold gEndSemaId. */
  lemma WorkerRaw(s: State)
    requires W !in s.puts && WorkerStep(s).Next?
    ensures var s' := WorkerStep(s).s;
      && s'.q.accepted == s.q.accepted && (Raw(s').None? || Raw(s') == Raw(s))
      && (!s.worker.PopW? && !s.worker.FixEndW? ==> s'.q == s.q)
      && (s.end == Some(W) ==> Raw(s').None?)
  {
  }

  lemma ThreadRaw(s: State, t: Tid)
    requires t in s.threads && T(t) !in s.puts && ThreadStep(s, t).Next?
    ensures var s' := ThreadStep(s, t).s;
      && (Raw(s').None? || Raw(s') == Raw(s))
      && (s.end == Some(T(t)) ==> Raw(s').None?)
  {
    hide Unlink;
  }

  lemma WorkerIsOut(s: State)
    requires Inv(s) && WorkerStep(s).Next?
    ensures W !in s.puts && (s.worker.PopW? || s.worker.FixEndW? ==> s.end == Some(W))
  {
    assert InEnd(s, W) ==> s.end == Some(W);
  }

  lemma ThreadIsOut(s: State, t: Tid)
    requires Inv(s) && t in s.threads && ThreadStep(s, t).Next?
    ensures T(t) !in s.puts && (s.threads[t].RmLoop? ==> s.end == Some(T(t)))
  {
    assert InEnd(s, T(t)) ==> s.end == Some(T(t));
  }

  lemma CoveredWorker(s: State, id: nat, r: Request)
    requires Inv(s) && Covered(s, id, r) && WorkerStep(s).Next?
    ensures Covered(WorkerStep(s).s, id, r)
  {
    WorkerIsOut(s);
    hide Inv, WorkerStep, Covered, Raw;
    WorkerRaw(s);
    CoveredSame(s, WorkerStep(s).s, id, r);
  }

  lemma CoveredThread(s: State, t: Tid, id: nat, r: Request)
    requires Inv(s) && Covered(s, id, r) && t in s.threads && ThreadStep(s, t).Next?
    ensures Covered(ThreadStep(s, t).s, id, r)
  {
    ThreadIsOut(s, t);
    hide Inv, ThreadStep, Covered, Raw;
    ThreadRecords(s, t);
    ThreadRaw(s, t);
    CoveredSame(s, ThreadStep(s, t).s, id, r);
  }

  lemma CoveredStep(s: State, l: Label, id: nat, r: Request)
    requires Inv(s) && Covered(s, id, r) && Apply(s, l).Next?
    ensures Covered(Apply(s, l).s, id, r)
  {
    hide Inv, Covered, WorkerStep, PutStep, ThreadStep;
    match l
    case WorkerGo => CoveredWorker(s, id, r);
    case PutGo(c, mem) => CoveredPut(s, c, mem, id, r);
    case ThreadGo(t) => CoveredThread(s, t, id, r);
    case HandlerPuts(_) | ThreadStarts(_, _) => CoveredSame(s, Apply(s, l).s, id, r);
  }

  lemma {:induction false} CoveredRun(s: State, ls: seq<Label>, id: nat, r: Request)
    requires Inv(s) && Covered(s, id, r) && Run(s, ls).Next?
    ensures Inv(Run(s, ls).s) && Covered(Run(s, ls).s, id, r)
    decreases |ls|
  {
    hide Inv, Covered, Apply;
    if ls != [] {
      CoveredStep(s, ls[0], id, r);
      StepKeeps(s, ls[0]);
      CoveredRun(Apply(s, ls[0]).s, ls[1..], id, r);
    }
  }

  /** A request put into a list that is not empty is never dispatched unfilled: whenever
      its turn comes, in any interleaving, its node carries it. */
  lemma PutBehindIsDispatchedRight(s: State, c: Caller, mem: Malloc, ls: seq<Label>)
    requires Inv(s) && c in s.puts && s.puts[c].Link? && s.q.reqList.Some? && PutStep(s, c, mem).Next?
    requires Run(PutStep(s, c, mem).s, ls).Next?
    ensures var s' := Run(PutStep(s, c, mem).s, ls).s; var id := |s.q.accepted|;
      s'.worker.Dispatch? && s'.q.pending != [] && s'.q.pending[0] == id ==>
        s'.worker.a in s'.q.nodes && s'.q.nodes[s'.worker.a].req == s.puts[c].r
  {
    var s1, id, r := PutStep(s, c, mem).s, |s.q.accepted|, s.puts[c].r;
    StepKeeps(s, PutGo(c, mem));
    RawIsHeadIff(s, c, mem);
    PublishAppends(s.q, r, mem.a, mem.junk);
    CoveredRun(s1, ls, id, r);
    DispatchOfCovered(Run(s1, ls).s, id, r);
  }

  lemma DispatchOfCovered(s: State, id: nat, r: Request)
    requires Inv(s) && Covered(s, id, r)
    ensures s.worker.Dispatch? && s.q.pending != [] && s.q.pending[0] == id ==>
      s.worker.a in s.q.nodes && s.q.nodes[s.worker.a].req == r
  {
    HeadPending(s);
    if s.worker.Dispatch? && s.q.pending != [] && s.q.pending[0] == id {
      assert s.q.chain[0] == s.worker.a;
      FilledIsRight(s, WorkerGo);
    }
  }

  lemma {:induction false} WorkerAloneIsOrderly(s: State, ls: seq<Label>)
    requires ClientsAway(s) && forall i :: 0 <= i < |ls| ==> ls[i] == WorkerGo
    ensures Orderly(s, ls)
    decreases |ls|
  {
    hide WorkerStep;
    if ls != [] && WorkerStep(s).Next? {
      WorkerStepIsItsOwn(s);
      WorkerAloneIsOrderly(WorkerStep(s).s, ls[1..]);
    }
  }

  /** Whatever was accepted does get handled: once the clients have left, the worker alone
      calls the handlers with all that is still pending, in order. */
  lemma WorkerHandlesAll(s: State) returns (ls: seq<Label>)
    requires Inv(s) && Ran(s) && ClientsAway(s)
    ensures forall i :: 0 <= i < |ls| ==> ls[i] == WorkerGo
    ensures Run(s, ls).Next? && Run(s, ls).s.q.reqList.None?
    ensures Selects(Run(s, ls).s.ran, s.q.accepted, Kept(|s.q.accepted|, s.q.removed))
  {
    hide Inv, Ran, ClientsAway, Orderly, DispatchesRightly;
    ls := WorkerDrains(s);
    WorkerAloneIsOrderly(s, ls);
    OrderlyDispatchesRightly(s, ls);
    RanIff(s, ls);
    RanAtEnd(s, ls);
    RunKeeps(s, ls);
    EmptyIsIdle(Run(s, ls).s);
  }

  // ---------------------------------------------------------------------------
  // A run that goes wrong
  // ---------------------------------------------------------------------------

  lemma {:induction false} RunThen(s: State, ls: seq<Label>, l: Label)
    requires Run(s, ls).Next?
    ensures Run(s, ls + [l]) == Apply(Run(s, ls).s, l)
    decreases |ls|
  {
    if ls == [] {
      assert ([l])[1..] == [];
    } else {
      RunThen(Apply(s, ls[0]).s, ls[1..], l);
      assert (ls + [l])[1..] == ls[1..] + [l];
    }
  }

  lemma Extend(s0: State, ls: seq<Label>, s: State, l: Label, s': State) returns (ls': seq<Label>)
    requires Run(s0, ls) == Next(s) && Apply(s, l) == Next(s')
    ensures ls' == ls + [l] && Run(s0, ls') == Next(s')
  {
    RunThen(s0, ls, l);
    ls' := ls + [l];
  }

  /** A whole call of ioPutRequest up to the linking of its node, into an empty list. */
  lemma PutLinks(s: State, r: Request, a: Addr, junk: Node) returns (ls: seq<Label>)
    requires s.threads == map[0 := Idle] && s.puts == map[] && s.end.None? && !s.blocked
    requires r.kind in s.handlers && a !in s.q.nodes && s.q.reqEnd.None?
    ensures Run(s, ls) == Next(s.(q := Publish(s.q, r, a, junk), end := Some(T(0)), puts := map[T(0) := Fill(r, a)]))
  {
    var mem := Malloc(a, junk);
    var s1 := s.(puts := map[T(0) := CheckFlag(r)]);
    var s2 := s.(puts := map[T(0) := CheckHandler(r)]);
    var s3 := s.(puts := map[T(0) := TakeEnd(r)]);
    var s4 := s.(puts := map[T(0) := Link(r)], end := Some(T(0)));
    ls := Extend(s, [], s, ThreadStarts(0, StartPut(r)), s1);
    ls := Extend(s, ls, s1, PutGo(T(0), mem), s2);
    ls := Extend(s, ls, s2, PutGo(T(0), mem), s3);
    ls := Extend(s, ls, s3, PutGo(T(0), mem), s4);
    ls := Extend(s, ls, s4, PutGo(T(0), mem),
      s.(q := Publish(s.q, r, a, junk), end := Some(T(0)), puts := map[T(0) := Fill(r, a)]));
  }

  lemma PutFinishes(s: State, r: Request, a: Addr) returns (ls: seq<Label>)
    requires s.puts == map[T(0) := Fill(r, a)] && a in s.q.nodes && !s.worker.Asleep?
    ensures Run(s, ls) ==
      Next(s.(q := RequestList.Fill(s.q, r, a), end := None, wakeups := s.wakeups + 1, puts := map[]))
  {
    var mem := Malloc(a, Node(r, None));
    var q := RequestList.Fill(s.q, r, a);
    var s1 := s.(q := q, puts := map[T(0) := ReleaseEnd]);
    var s2 := s.(q := q, end := None, puts := map[T(0) := Wakeup]);
    ls := Extend(s, [], s, PutGo(T(0), mem), s1);
    ls := Extend(s, ls, s1, PutGo(T(0), mem), s2);
    ls := Extend(s, ls, s2, PutGo(T(0), mem), s.(q := q, end := None, wakeups := s.wakeups + 1, puts := map[]));
  }

  lemma WorkerWakes(s: State) returns (ls: seq<Label>)
    requires s.worker.Sleep? && s.wakeups == 1 && s.proc.None?
    ensures Run(s, ls) == Next(s.(wakeups := 0, proc := Some(W), worker := Test))
  {
    var s1 := s.(wakeups := 0, worker := TakeProc);
    ls := Extend(s, [], s, WorkerGo, s1);
    ls := Extend(s, ls, s1, WorkerGo, s1.(proc := Some(W), worker := Test));
  }

  lemma WorkerPops(s: State, a: Addr) returns (ls: seq<Label>)
    requires s.worker == TakeEndW(a) && s.end.None? && s.puts == map[]
    requires a in s.q.nodes && s.q.chain != [] && s.q.pending != []
    ensures Run(s, ls) == Next(s.(q := FixEnd(Pop(s.q, a)), worker := Test))
  {
    var s2 := s.(worker := PopW(a), end := Some(W));
    var s3 := s2.(worker := FixEndW, q := Pop(s.q, a));
    var s4 := s2.(worker := ReleaseEndW, q := FixEnd(Pop(s.q, a)));
    ls := Extend(s, [], s, WorkerGo, s2);
    ls := Extend(s, ls, s2, WorkerGo, s3);
    ls := Extend(s, ls, s3, WorkerGo, s4);
    ls := Extend(s, ls, s4, WorkerGo, s4.(end := None, worker := Test));
  }

  /** The worker looks at the head and finds no handler for what it reads. */
  lemma WorkerSkipsHead(s: State, a: Addr) returns (ls: seq<Label>)
    requires s.worker.Test? && s.q.reqList == Some(a) && a in s.q.nodes && s.q.nodes[a].req.kind !in s.handlers
    ensures Run(s, ls) == Next(s.(worker := TakeEndW(a)))
  {
    var s1 := s.(worker := Fetch);
    var s2 := s.(worker := Dispatch(a));
    ls := Extend(s, [], s, WorkerGo, s1);
    ls := Extend(s, ls, s1, WorkerGo, s2);
    ls := Extend(s, ls, s2, WorkerGo, s.(worker := TakeEndW(a)));
  }

  lemma WorkerReadsHead(s: State, a: Addr) returns (ls: seq<Label>)
    requires s.worker.Test? && s.q.reqList == Some(a) && a in s.q.nodes && s.q.nodes[a].req.kind in s.handlers
    ensures Run(s, ls) == Next(s.(worker := Handling(a), ran := s.ran + [s.q.nodes[a].req]))
  {
    var s1 := s.(worker := Fetch);
    var s2 := s.(worker := Dispatch(a));
    ls := Extend(s, [], s, WorkerGo, s1);
    ls := Extend(s, ls, s1, WorkerGo, s2);
    ls := Extend(s, ls, s2, WorkerGo, s.(worker := Handling(a), ran := s.ran + [s.q.nodes[a].req]));
  }

  lemma {:induction false} RunConcat(s: State, ls: seq<Label>, ms: seq<Label>)
    requires Run(s, ls).Next?
    ensures Run(s, ls + ms) == Run(Run(s, ls).s, ms)
    decreases |ls|
  {
    if ls == [] {
      assert ls + ms == ms;
    } else {
      RunConcat(Apply(s, ls[0]).s, ls[1..], ms);
      assert (ls + ms)[1..] == ls[1..] + ms;
    }
  }

  /** The worker wakes, handles the one pending request and tests the list again. */
  lemma WorkerHandlesOne(s: State, r: Request, a: Addr) returns (ls: seq<Label>)
    requires s.worker.Sleep? && s.wakeups == 1 && s.proc.None? && s.end.None? && s.puts == map[]
    requires s.q.nodes == map[a := Node(r, None)] && s.q.reqList == Some(a) && r.kind in s.handlers
    requires s.q.chain == [a] && |s.q.pending| == 1
    ensures Run(s, ls) ==
      Next(s.(q := FixEnd(Pop(s.q, a)), ran := s.ran + [r], proc := Some(W), wakeups := 0, worker := Test))
  {
    var l1 := WorkerWakes(s);
    var l2 := WorkerReadsHead(Run(s, l1).s, a);
    RunConcat(s, l1, l2);
    var s2 := Run(s, l1 + l2).s;
    l2 := Extend(s, l1 + l2, s2, WorkerGo, s2.(worker := TakeEndW(a)));
    var l3 := WorkerPops(s2.(worker := TakeEndW(a)), a);
    RunConcat(s, l2, l3);
    ls := l2 + l3;
  }

  /** One request was handled; the worker tests the list again while a client publishes
      another one. */
  lemma SecondIsPublished(r: Request, junk: Request) returns (ls: seq<Label>)
    requires r.kind == IO_CUSTOM_SIMPLEACTION
    ensures Run(Init({0}), ls).Next?
    ensures var s := Run(Init({0}), ls).s;
      && s.worker.Test? && s.ran == [r] && s.handlers == {IO_CUSTOM_SIMPLEACTION}
      && s.end == Some(T(0)) && s.puts == map[T(0) := Fill(r, 0)]
      && s.q == Queue(map[0 := Node(junk, None)], Some(0), Some(0), [r, r], [0], [1], [0], {})
  {
    hide Run, Inv;
    var s0 := Init({0});
    assert s0.threads == map[0 := Idle];
    var node := Node(junk, None);
    var l1 := PutLinks(s0, r, 0, node);
    var s1 := Run(s0, l1).s;
    var l2 := PutFinishes(s1, r, 0);
    var s2 := Run(s1, l2).s;
    var l3 := WorkerHandlesOne(s2, r, 0);
    var s3 := Run(s2, l3).s;
    assert s3.q == Queue(map[], None, None, [r], [], [], [0], {});
    var l4 := PutLinks(s3, r, 0, node);
    RunConcat(s0, l1, l2);
    RunConcat(s0, l1 + l2, l3);
    RunConcat(s0, l1 + l2 + l3, l4);
    ls := l1 + l2 + l3 + l4;
  }

  /** ioPutRequest publishes its node before filling it in.  When the list is empty and
      the worker is in its drain loop, an interleaving exists in which the worker calls
      a handler with whatever malloc returned instead of the accepted request. */
  lemma UnfilledNodeIsHandled(r: Request, junk: Request) returns (ls: seq<Label>)
    requires r.kind == junk.kind == IO_CUSTOM_SIMPLEACTION
    ensures Run(Init({0}), ls).Next?
    ensures var s := Run(Init({0}), ls).s; s.q.accepted == [r, r] && s.ran == [r, junk]
    ensures r != junk ==> !Orderly(Init({0}), ls)
  {
    hide Run, Orderly, Inv;
    var l1 := SecondIsPublished(r, junk);
    var s1 := Run(Init({0}), l1).s;
    var l2 := WorkerReadsHead(s1, 0);
    RunConcat(Init({0}), l1, l2);
    ls := l1 + l2;
    assert Run(Init({0}), ls).s.ran == [r] + [junk];
    if r != junk { NotOrderly(ls, r, junk); }
  }

  /** When what malloc returned has a type without handler, the accepted request is taken
      off the list without any handler being called. */
  lemma UnfilledNodeIsDropped(r: Request, junk: Request) returns (ls: seq<Label>)
    requires r.kind == IO_CUSTOM_SIMPLEACTION != junk.kind
    ensures Run(Init({0}), ls).Next?
    ensures var s := Run(Init({0}), ls).s;
      s.q.accepted == [r, r] && s.q.popped == [0, 1] && s.q.reqList.None? && s.puts == map[] && s.ran == [r]
  {
    hide Run, Inv;
    var l1 := SecondIsPublished(r, junk);
    var s1 := Run(Init({0}), l1).s;
    var l2 := WorkerSkipsHead(s1, 0);
    var s2 := Run(s1, l2).s;
    var l3 := PutFinishes(s2, r, 0);
    var s3 := Run(s2, l3).s;
    var l4 := WorkerPops(s3, 0);
    RunConcat(Init({0}), l1, l2);
    RunConcat(Init({0}), l1 + l2, l3);
    RunConcat(Init({0}), l1 + l2 + l3, l4);
    ls := l1 + l2 + l3 + l4;
  }

  /** A run that handled something else than was accepted read an unfilled node. */
  lemma NotOrderly(ls: seq<Label>, r: Request, junk: Request)
    requires Run(Init({0}), ls).Next? && r != junk
    requires var s := Run(Init({0}), ls).s; s.q.accepted == [r, r] && s.ran == [r, junk]
    ensures !Orderly(Init({0}), ls)
  {
    hide Run, Orderly, Init, DispatchesRightly;
    assert Run(Init({0}), ls).s.ran[1] == junk;
    InitInv({0});
    Refinement({0}, ls);
    if Orderly(Init({0}), ls) {
      OrderlyDispatchesRightly(Init({0}), ls);
      HandledIsAccepted({0}, ls);
    }
  }
}
