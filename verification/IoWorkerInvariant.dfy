/** What every step of the I/O worker system keeps. */
module IoWorkerInvariant {
  import opened Options
  import opened RequestList
  import opened IoWorker

  /** Between WaitSema(gEndSemaId) and SignalSema(gEndSemaId). */
  predicate InEnd(s: State, c: Caller) {
    || (c in s.puts && (s.puts[c].Link? || s.puts[c].Fill? || s.puts[c].ReleaseEnd?))
    || (c.W? && (s.worker.PopW? || s.worker.FixEndW? || s.worker.ReleaseEndW?))
    || (c.T? && c.tid in s.threads && (s.threads[c.tid].RmLoop? || s.threads[c.tid].RmReleaseEnd?))
  }

  /** Between WaitSema(gProcSemaId) and SignalSema(gProcSemaId). */
  predicate InProc(s: State, c: Caller) {
    || (c.W? && !s.worker.Sleep? && !s.worker.Asleep? && !s.worker.TakeProc?)
    || (c.T? && c.tid in s.threads &&
        (s.threads[c.tid].RegReleaseProc? || s.threads[c.tid].RmTakeEnd? || s.threads[c.tid].RmLoop?
         || s.threads[c.tid].RmReleaseEnd? || s.threads[c.tid].RmReleaseProc?))
  }

  /** Each semaphore is held exactly by the one thread between its wait and signal; a
      caller is inside one function only, and the worker puts only from a handler. */
  ghost predicate Exclusion(s: State) {
    && (forall c :: InEnd(s, c) ==> s.end == Some(c))
    && (forall c :: InProc(s, c) ==> s.proc == Some(c))
    && (s.end.Some? ==> InEnd(s, s.end.value))
    && (s.proc.Some? ==> InProc(s, s.proc.value))
    && (forall c :: c in s.puts ==>
          (c.W? ==> s.worker.Handling?) && (c.T? ==> c.tid in s.threads && s.threads[c.tid].Idle?))
  }

  /** Accepted requests, and requests past the handler check, have a handler. */
  ghost predicate Handled(s: State) {
    && (forall i :: 0 <= i < |s.q.accepted| ==> s.q.accepted[i].kind in s.handlers)
    && (forall c :: c in s.puts ==>
          (s.puts[c].TakeEnd? || s.puts[c].Link? || s.puts[c].Fill?) ==> s.puts[c].r.kind in s.handlers)
  }

  /** The list is well formed, and the unfilled node belongs to the last request. */
  ghost predicate List(s: State) {
    && ListOk(s.q, Raw(s), s.worker.FixEndW?)
    && (Raw(s).Some? ==> s.q.accepted[s.q.pending[|s.q.pending| - 1]] == s.puts[s.end.value].r)
  }

  /** `reqs` are the accepted requests with these identities, in this order. */
  ghost predicate Selects(reqs: seq<Request>, accepted: seq<Request>, ids: seq<nat>) {
    |reqs| == |ids| && forall i :: 0 <= i < |ids| ==> ids[i] < |accepted| && reqs[i] == accepted[ids[i]]
  }

  /** The request whose handler was called and whose node is not popped yet. */
  function Current(s: State): seq<nat> {
    if (s.worker.Handling? || s.worker.TakeEndW? || s.worker.PopW?) && s.q.pending != [] then [s.q.pending[0]] else []
  }

  /** Handlers were called with exactly the popped requests and the current one. This is
      not part of the invariant: reading an unfilled node breaks it. */
  ghost predicate Ran(s: State) { Selects(s.ran, s.q.accepted, s.q.popped + Current(s)) }

  /** The request being handled is the head of the list and stays it until popped. */
  ghost predicate HeadStays(s: State) {
    && (s.worker.Fetch? ==> s.q.chain != [])
    && ((s.worker.Dispatch? || s.worker.Handling? || s.worker.TakeEndW? || s.worker.PopW?) ==>
          At(s.q.chain, 0) == Some(s.worker.a))
  }

  /** A client that has linked its node and has not yet called WakeupThread. */
  predicate WillWake(s: State, t: Tid) {
    T(t) in s.puts && (s.puts[T(t)].Fill? || s.puts[T(t)].ReleaseEnd? || s.puts[T(t)].Wakeup?)
  }

  /** No accepted request is stranded: unless the worker is in its drain loop, a
      wake-up is counted or still to come. */
  ghost predicate NotStranded(s: State) {
    && (s.worker.Asleep? ==> s.wakeups == 0)
    && (s.q.chain != [] && (s.worker.ReleaseProc? || s.worker.Sleep? || s.worker.Asleep?) ==>
          s.wakeups > 0 || exists t :: WillWake(s, t))
  }

  ghost predicate FreeOf(q: Queue, kind: int, k: nat) {
    && k <= |q.pending|
    && forall i :: 0 <= i < k ==> q.pending[i] < |q.accepted| && q.accepted[q.pending[i]].kind != kind
  }

  /** The cursor of ioRemoveRequests: `last` is the node before `cur`, and everything
      before `cur` is of another kind. */
  ghost predicate CursorAt(q: Queue, kind: int, cur: Option<Addr>, last: Option<Addr>, k: nat) {
    && k <= |q.chain|
    && cur == At(q.chain, k)
    && last == (if k == 0 then None else At(q.chain, k - 1))
    && FreeOf(q, kind, k)
  }

  ghost predicate Cursor(s: State) {
    s.end.Some? && s.end.value.T? && s.end.value.tid in s.threads ==>
      var pc := s.threads[s.end.value.tid];
      && (pc.RmLoop? ==> exists k :: CursorAt(s.q, pc.kind, pc.cur, pc.last, k))
      && (pc.RmReleaseEnd? ==> FreeOf(s.q, pc.kind, |s.q.pending|))
  }

  ghost predicate Inv(s: State) {
    Exclusion(s) && Handled(s) && List(s) && HeadStays(s) && NotStranded(s) && Cursor(s)
  }

  lemma InitInv(tids: set<Tid>)
    ensures Inv(Init(tids)) && Ran(Init(tids))
  {
  }

  // ---------------------------------------------------------------------------
  // ioPutRequest
  // ---------------------------------------------------------------------------

  lemma PutCheckFlagKeeps(s: State, c: Caller, mem: Malloc)
    requires Inv(s) && c in s.puts && PutStep(s, c, mem).Next? && s.puts[c].CheckFlag?
    ensures Inv(PutStep(s, c, mem).s)
  {
    var s' := PutStep(s, c, mem).s;
    assert Raw(s') == Raw(s);
    assert forall t :: WillWake(s, t) ==> WillWake(s', t);
  }

  lemma PutCheckHandlerKeeps(s: State, c: Caller, mem: Malloc)
    requires Inv(s) && c in s.puts && PutStep(s, c, mem).Next? && s.puts[c].CheckHandler?
    ensures Inv(PutStep(s, c, mem).s)
  {
    var s' := PutStep(s, c, mem).s;
    assert Raw(s') == Raw(s);
    assert forall t :: WillWake(s, t) ==> WillWake(s', t);
  }

  lemma PutTakeEndKeeps(s: State, c: Caller, mem: Malloc)
    requires Inv(s) && c in s.puts && PutStep(s, c, mem).Next? && s.puts[c].TakeEnd?
    ensures Inv(PutStep(s, c, mem).s)
  {
    var s' := PutStep(s, c, mem).s;
    assert Raw(s') == Raw(s);
    assert forall t :: WillWake(s, t) ==> WillWake(s', t);
  }

  lemma PutReleaseEndKeeps(s: State, c: Caller, mem: Malloc)
    requires Inv(s) && c in s.puts && PutStep(s, c, mem).Next? && s.puts[c].ReleaseEnd?
    ensures Inv(PutStep(s, c, mem).s)
  {
    var s' := PutStep(s, c, mem).s;
    assert InEnd(s, c);
    assert Raw(s') == Raw(s);
    assert forall t :: WillWake(s, t) ==> WillWake(s', t);
  }

  lemma PutWakeupKeepsExclusion(s: State, c: Caller, mem: Malloc)
    requires Exclusion(s) && c in s.puts && s.puts[c].Wakeup?
    ensures PutStep(s, c, mem).Next? && Exclusion(PutStep(s, c, mem).s)
  {
    var s' := PutStep(s, c, mem).s;
    assert forall d :: InEnd(s', d) ==> InEnd(s, d);
    assert forall d :: InProc(s', d) ==> InProc(s, d);
    assert forall d :: InEnd(s, d) ==> InEnd(s', d);
    assert forall d :: InProc(s, d) ==> InProc(s', d);
  }

  lemma PutWakeupKeeps(s: State, c: Caller, mem: Malloc)
    requires Inv(s) && c in s.puts && s.puts[c].Wakeup?
    ensures PutStep(s, c, mem).Next? && Inv(PutStep(s, c, mem).s)
  {
    PutWakeupKeepsExclusion(s, c, mem);
    WakeupSame(s, c, mem);
    var s' := PutStep(s, c, mem).s;
    hide Exclusion, ListOk, CursorAt, FreeOf, Wake, Raw;
    if c.T? { assert WillWake(s, c.tid); }
    assert forall t :: WillWake(s, t) && T(t) != c ==> WillWake(s', t);
  }

  /** WakeupThread changes nothing but how the worker waits. */
  lemma WakeupSame(s: State, c: Caller, mem: Malloc)
    requires Exclusion(s) && c in s.puts && s.puts[c].Wakeup?
    ensures var s' := PutStep(s, c, mem).s;
      && s' == s.(puts := s.puts - {c}, worker := s'.worker, wakeups := s'.wakeups)
      && (s'.worker == s.worker || (s.worker.Asleep? && s'.worker.TakeProc?))
      && (c.T? && s.worker.Asleep? ==> s'.worker.TakeProc?)
      && (c.T? && !s.worker.Asleep? ==> s'.wakeups > 0)
      && (c.W? ==> s'.worker == s.worker && s'.wakeups == s.wakeups && s.worker.Handling?)
      && s'.wakeups >= s.wakeups && (s'.worker.Asleep? ==> s'.wakeups == s.wakeups)
      && Raw(s') == Raw(s)
  {
  }

  lemma LinkKeepsExclusion(s: State, c: Caller, r: Request, a: Addr, q: Queue)
    requires Exclusion(s) && c in s.puts && s.puts[c].Link?
    ensures Exclusion(s.(q := q, puts := s.puts[c := Fill(r, a)]))
  {
    var s' := s.(q := q, puts := s.puts[c := Fill(r, a)]);
    assert forall d :: InEnd(s', d) == InEnd(s, d);
    assert forall d :: InProc(s', d) == InProc(s, d);
  }

  /** The parts of the invariant that do not look into the list. */
  lemma LinkKeepsRest(s: State, c: Caller, a: Addr, q: Queue)
    requires Inv(s) && c in s.puts && s.puts[c].Link? && s.end == Some(c)
    requires q.accepted == s.q.accepted + [s.puts[c].r] && q.chain == s.q.chain + [a]
    ensures var s' := s.(q := q, puts := s.puts[c := Fill(s.puts[c].r, a)]);
      Handled(s') && HeadStays(s') && NotStranded(s') && Cursor(s')
  {
    hide ListOk, CursorAt, FreeOf, InEnd, InProc, Raw;
    var s' := s.(q := q, puts := s.puts[c := Fill(s.puts[c].r, a)]);
    if c.T? { assert WillWake(s', c.tid); }
  }

  lemma PutLinkKeeps(s: State, c: Caller, mem: Malloc)
    requires Inv(s) && c in s.puts && s.puts[c].Link?
    ensures PutStep(s, c, mem) != Fault
    ensures PutStep(s, c, mem).Next? ==> Inv(PutStep(s, c, mem).s)
  {
    assert InEnd(s, c);
    assert InEnd(s, W) ==> s.end == Some(W);
    assert Raw(s) == None && !s.worker.FixEndW?;
    assert s.q.reqEnd.Some? ==> s.q.reqEnd.value in s.q.nodes;
    if mem.a !in s.q.nodes {
      var s' := PutStep(s, c, mem).s;
      PublishKeeps(s.q, s.puts[c].r, mem.a, mem.junk);
      PublishShape(s.q, s.puts[c].r, mem.a, mem.junk);
      LinkKeepsExclusion(s, c, s.puts[c].r, mem.a, s'.q);
      LinkKeepsRest(s, c, mem.a, s'.q);
      assert Raw(s') == Some(mem.a);
      hide Exclusion, Handled, HeadStays, NotStranded, Cursor, ListOk, Publish;
    }
  }

  lemma PublishShape(q: Queue, r: Request, a: Addr, junk: Node)
    ensures var q' := Publish(q, r, a, junk);
      && q'.accepted == q.accepted + [r] && q'.chain == q.chain + [a] && q'.pending == q.pending + [|q.accepted|]
  {
  }

  lemma PutFillKeeps(s: State, c: Caller, mem: Malloc)
    requires Inv(s) && c in s.puts && s.puts[c].Fill?
    ensures PutStep(s, c, mem).Next? && Inv(PutStep(s, c, mem).s)
  {
    assert InEnd(s, c);
    assert Raw(s) == Some(s.puts[c].a);
    FillKeeps(s.q, s.puts[c].r, s.puts[c].a);
    var s' := PutStep(s, c, mem).s;
    assert Raw(s') == None;
    assert forall t :: WillWake(s, t) ==> WillWake(s', t);
  }

  // ---------------------------------------------------------------------------
  // ioWorkerThread
  // ---------------------------------------------------------------------------

  lemma WorkerSleepKeepsExclusion(s: State)
    requires Exclusion(s) && s.worker.Sleep?
    ensures WorkerStep(s).Next? && Exclusion(WorkerStep(s).s)
  {
    var s' := WorkerStep(s).s;
    assert forall c :: InEnd(s', c) == InEnd(s, c);
    assert forall c :: InProc(s', c) == InProc(s, c);
  }

  lemma WorkerSleepKeeps(s: State)
    requires Inv(s) && s.worker.Sleep?
    ensures WorkerStep(s).Next? && Inv(WorkerStep(s).s)
  {
    WorkerSleepKeepsExclusion(s);
    var s' := WorkerStep(s).s;
    assert Raw(s') == Raw(s);
    assert forall t :: WillWake(s, t) == WillWake(s', t);
  }

  lemma WorkerTakeProcKeeps(s: State)
    requires Inv(s) && s.worker.TakeProc? && WorkerStep(s).Next?
    ensures Inv(WorkerStep(s).s)
  {
    var s' := WorkerStep(s).s;
    assert Raw(s') == Raw(s);
  }

  lemma WorkerReleaseProcKeeps(s: State)
    requires Inv(s) && s.worker.ReleaseProc?
    ensures WorkerStep(s).Next? && Inv(WorkerStep(s).s)
  {
    var s' := WorkerStep(s).s;
    assert InProc(s, W);
    assert Raw(s') == Raw(s);
    assert forall t :: WillWake(s, t) ==> WillWake(s', t);
  }

  lemma WorkerReadsKeep(s: State)
    requires Inv(s) && (s.worker.Test? || s.worker.Fetch?)
    ensures WorkerStep(s).Next? && Inv(WorkerStep(s).s)
  {
    var s' := WorkerStep(s).s;
    assert InProc(s, W);
    assert Raw(s') == Raw(s);
  }

  lemma WorkerDispatchKeeps(s: State)
    requires Inv(s) && s.worker.Dispatch?
    ensures WorkerStep(s).Next? && Inv(WorkerStep(s).s)
  {
    assert InProc(s, W);
    assert s.q.chain[0] in s.q.nodes;
    var s' := WorkerStep(s).s;
    assert Raw(s') == Raw(s);
  }

  lemma WorkerReturnsKeep(s: State)
    requires Inv(s) && (s.worker.Handling? || s.worker.TakeEndW?) && WorkerStep(s).Next?
    ensures Inv(WorkerStep(s).s)
  {
    assert InProc(s, W);
    var s' := WorkerStep(s).s;
    assert Raw(s') == Raw(s);
  }

  lemma WorkerPopKeeps(s: State)
    requires Inv(s) && s.worker.PopW?
    ensures WorkerStep(s).Next? && Inv(WorkerStep(s).s)
  {
    assert InEnd(s, W) && InProc(s, W);
    assert Raw(s) == None;
    PopKeeps(s.q, s.worker.a);
    var s' := WorkerStep(s).s;
    assert Raw(s') == None;
  }

  lemma WorkerFixKeeps(s: State)
    requires Inv(s) && (s.worker.FixEndW? || s.worker.ReleaseEndW?)
    ensures WorkerStep(s).Next? && Inv(WorkerStep(s).s)
  {
    assert InEnd(s, W) && InProc(s, W);
    assert Raw(s) == None;
    if s.worker.FixEndW? { FixEndKeeps(s.q); }
    var s' := WorkerStep(s).s;
    assert Raw(s') == None;
  }

  // ---------------------------------------------------------------------------
  // ioRegisterHandler, ioRemoveRequests, ioBlockOps
  // ---------------------------------------------------------------------------

  predicate Outside(pc: ThreadPc) {
    pc.Idle? || pc.RegTakeProc? || pc.RmTakeProc? || pc.BlockTest? || pc.BlockSet? || pc.BlockPoll?
    || pc.UnblockTest? || pc.UnblockClear?
  }

  lemma MoveKeepsExclusion(s: State, t: Tid, pc: ThreadPc, flag: bool)
    requires Exclusion(s) && t in s.threads && T(t) !in s.puts && Outside(s.threads[t]) && Outside(pc)
    ensures Exclusion(s.(threads := s.threads[t := pc], blocked := flag))
  {
    var s' := s.(threads := s.threads[t := pc], blocked := flag);
    assert forall c :: InEnd(s', c) ==> InEnd(s, c);
    assert forall c :: InProc(s', c) ==> InProc(s, c);
  }

  /** A client that holds no semaphore moves on, and possibly sets or clears the
      blocking flag. */
  lemma MoveKeeps(s: State, t: Tid, pc: ThreadPc, flag: bool)
    requires Inv(s) && t in s.threads && T(t) !in s.puts && Outside(s.threads[t]) && Outside(pc)
    ensures Inv(s.(threads := s.threads[t := pc], blocked := flag))
  {
    var s' := s.(threads := s.threads[t := pc], blocked := flag);
    MoveKeepsExclusion(s, t, pc, flag);
    assert Raw(s') == Raw(s);
    if s.end.Some? && s.end.value == T(t) { assert InEnd(s, T(t)); }
    assert Cursor(s');
    assert forall u :: WillWake(s, u) == WillWake(s', u);
  }

  /** A client takes gProcSemaId, possibly registering a handler. */
  lemma TakeProcKeeps(s: State, t: Tid, pc: ThreadPc, handlers: set<int>)
    requires Inv(s) && t in s.threads && T(t) !in s.puts && Outside(s.threads[t]) && s.proc.None?
    requires pc.RegReleaseProc? || pc.RmTakeEnd?
    requires s.handlers <= handlers
    ensures Inv(s.(threads := s.threads[t := pc], proc := Some(T(t)), handlers := handlers))
  {
    var s' := s.(threads := s.threads[t := pc], proc := Some(T(t)), handlers := handlers);
    assert Raw(s') == Raw(s);
    assert forall u :: WillWake(s, u) ==> WillWake(s', u);
  }

  lemma ReleaseProcKeeps(s: State, t: Tid)
    requires Inv(s) && t in s.threads && (s.threads[t].RegReleaseProc? || s.threads[t].RmReleaseProc?)
    ensures Inv(s.(threads := s.threads[t := Idle], proc := None))
  {
    var s' := s.(threads := s.threads[t := Idle], proc := None);
    assert InProc(s, T(t));
    assert Raw(s') == Raw(s);
    assert forall u :: WillWake(s, u) ==> WillWake(s', u);
  }

  lemma ThreadEndKeeps(s: State, t: Tid)
    requires Inv(s) && t in s.threads && ThreadStep(s, t).Next?
    requires s.threads[t].RmTakeEnd? || s.threads[t].RmReleaseEnd?
    ensures Inv(ThreadStep(s, t).s)
  {
    var s' := ThreadStep(s, t).s;
    assert T(t) !in s.puts;
    assert InProc(s, T(t));
    assert Raw(s') == Raw(s);
    if s.threads[t].RmTakeEnd? {
      assert CursorAt(s'.q, s.threads[t].kind, s.q.reqList, None, 0);
    } else {
      assert InEnd(s, T(t));
    }
    assert forall u :: WillWake(s, u) ==> WillWake(s', u);
  }

  lemma RemoveAdvances(s: State, t: Tid, k: nat)
    requires Inv(s) && t in s.threads && s.threads[t].RmLoop?
    requires var pc := s.threads[t]; CursorAt(s.q, pc.kind, pc.cur, pc.last, k)
    requires k < |s.q.chain| && s.q.accepted[s.q.pending[k]].kind != s.threads[t].kind
    ensures ThreadStep(s, t).Next? && Inv(ThreadStep(s, t).s)
  {
    assert InEnd(s, T(t)) && InProc(s, T(t));
    var pc := s.threads[t];
    assert s.q.chain[k] in s.q.nodes;
    assert s.q.nodes[s.q.chain[k]].next == At(s.q.chain, k + 1) by {
      if k + 1 < |s.q.chain| { assert s.q.nodes[s.q.chain[k]].next == Some(s.q.chain[k + 1]); }
    }
    var s' := ThreadStep(s, t).s;
    assert Raw(s') == Raw(s);
    assert CursorAt(s'.q, pc.kind, s'.threads[t].cur, s'.threads[t].last, k + 1);
    assert forall u :: WillWake(s, u) ==> WillWake(s', u);
  }

  /** The loop invariant of ioRemoveRequests after an unlinking. */
  lemma UnlinkCursor(q: Queue, kind: int, last: Option<Addr>, k: nat)
    requires ListOk(q, None, false) && k < |q.chain| && CursorAt(q, kind, Some(q.chain[k]), last, k)
    ensures q.chain[k] in q.nodes && (last.Some? ==> last.value in q.nodes)
    ensures ListOk(Unlink(q, q.chain[k], last), None, false)
    ensures CursorAt(Unlink(q, q.chain[k], last), kind, q.nodes[q.chain[k]].next, last, k)
  {
    UnlinkKeeps(q, k, last);
    NextIs(q, k);
    hide ListOk, Unlink;
    WithoutAt(q.chain, k);
    WithoutAt(q.pending, k);
  }

  lemma NextIs(q: Queue, k: nat)
    requires ListOk(q, None, false) && k < |q.chain|
    ensures q.chain[k] in q.nodes && q.nodes[q.chain[k]].next == At(q.chain, k + 1)
  {
    if k + 1 < |q.chain| { assert q.nodes[q.chain[k]].next == Some(q.chain[k + 1]); }
  }

  lemma RemoveStepKeepsExclusion(s: State, t: Tid, pc: ThreadPc, q: Queue)
    requires Exclusion(s) && t in s.threads && s.threads[t].RmLoop? && pc.RmLoop?
    ensures Exclusion(s.(q := q, threads := s.threads[t := pc]))
  {
    var s' := s.(q := q, threads := s.threads[t := pc]);
    assert forall c :: InEnd(s', c) == InEnd(s, c);
    assert forall c :: InProc(s', c) == InProc(s, c);
  }

  lemma RemoveReplaces(s: State, t: Tid, pc: ThreadPc, q: Queue, k: nat)
    requires Inv(s) && t in s.threads && s.threads[t].RmLoop? && pc.RmLoop?
    requires ListOk(q, None, false) && CursorAt(q, pc.kind, pc.cur, pc.last, k)
    requires q.accepted == s.q.accepted && (q.chain != [] ==> s.q.chain != [])
    ensures Inv(s.(q := q, threads := s.threads[t := pc]))
  {
    assert InEnd(s, T(t)) && InProc(s, T(t));
    assert InProc(s, W) ==> s.proc == Some(W);
    var s' := s.(q := q, threads := s.threads[t := pc]);
    RemoveStepKeepsExclusion(s, t, pc, q);
    assert Raw(s') == Raw(s) == None;
    assert forall u :: WillWake(s, u) == WillWake(s', u);
  }

  lemma RemoveUnlinks(s: State, t: Tid, k: nat)
    requires Inv(s) && t in s.threads && s.threads[t].RmLoop?
    requires var pc := s.threads[t]; CursorAt(s.q, pc.kind, pc.cur, pc.last, k)
    requires k < |s.q.chain| && s.q.accepted[s.q.pending[k]].kind == s.threads[t].kind
    ensures ThreadStep(s, t).Next? && Inv(ThreadStep(s, t).s)
  {
    assert InEnd(s, T(t));
    assert Raw(s) == None;
    assert InEnd(s, W) ==> s.end == Some(W);
    var pc := s.threads[t];
    UnlinkCursor(s.q, pc.kind, pc.last, k);
    var s' := ThreadStep(s, t).s;
    RemoveReplaces(s, t, s'.threads[t], s'.q, k);
  }

  lemma RemoveEnds(s: State, t: Tid, k: nat)
    requires Inv(s) && t in s.threads && s.threads[t].RmLoop?
    requires var pc := s.threads[t]; CursorAt(s.q, pc.kind, pc.cur, pc.last, k)
    requires k == |s.q.chain|
    ensures ThreadStep(s, t).Next? && Inv(ThreadStep(s, t).s)
  {
    assert InEnd(s, T(t)) && InProc(s, T(t));
    var s' := ThreadStep(s, t).s;
    assert Raw(s') == Raw(s);
    assert forall u :: WillWake(s, u) ==> WillWake(s', u);
  }

  lemma RemoveKeeps(s: State, t: Tid)
    requires Inv(s) && t in s.threads && s.threads[t].RmLoop?
    ensures ThreadStep(s, t).Next? && Inv(ThreadStep(s, t).s)
  {
    assert InEnd(s, T(t));
    var pc := s.threads[t];
    var k: nat :| CursorAt(s.q, pc.kind, pc.cur, pc.last, k);
    if k == |s.q.chain| {
      RemoveEnds(s, t, k);
    } else if s.q.accepted[s.q.pending[k]].kind == pc.kind {
      RemoveUnlinks(s, t, k);
    } else {
      RemoveAdvances(s, t, k);
    }
  }

  // ---------------------------------------------------------------------------
  // All steps
  // ---------------------------------------------------------------------------

  lemma PutStartsKeep(s: State, c: Caller, r: Request)
    requires Inv(s) && c !in s.puts
    requires c.W? ==> s.worker.Handling?
    requires c.T? ==> c.tid in s.threads && s.threads[c.tid].Idle?
    ensures Inv(s.(puts := s.puts[c := CheckFlag(r)]))
  {
    var s' := s.(puts := s.puts[c := CheckFlag(r)]);
    assert Raw(s') == Raw(s) by { if s.end == Some(c) { assert InEnd(s, c); } }
    assert forall u :: WillWake(s, u) ==> WillWake(s', u);
  }

  lemma PutKeeps(s: State, c: Caller, mem: Malloc)
    requires Inv(s) && c in s.puts
    ensures PutStep(s, c, mem) != Fault
    ensures PutStep(s, c, mem).Next? ==> Inv(PutStep(s, c, mem).s)
  {
    if PutStep(s, c, mem) != Stuck {
      match s.puts[c]
      case CheckFlag(_) => PutCheckFlagKeeps(s, c, mem);
      case CheckHandler(_) => PutCheckHandlerKeeps(s, c, mem);
      case TakeEnd(_) => PutTakeEndKeeps(s, c, mem);
      case Link(_) => PutLinkKeeps(s, c, mem);
      case Fill(_, _) => PutFillKeeps(s, c, mem);
      case ReleaseEnd => PutReleaseEndKeeps(s, c, mem);
      case Wakeup => PutWakeupKeeps(s, c, mem);
    }
  }

  lemma WorkerKeeps(s: State)
    requires Inv(s)
    ensures WorkerStep(s) != Fault
    ensures WorkerStep(s).Next? ==> Inv(WorkerStep(s).s)
  {
    if WorkerStep(s) != Stuck {
      match s.worker
      case Sleep => WorkerSleepKeeps(s);
      case Asleep =>
      case TakeProc => WorkerTakeProcKeeps(s);
      case Test | Fetch => WorkerReadsKeep(s);
      case Dispatch(_) => WorkerDispatchKeeps(s);
      case Handling(_) | TakeEndW(_) => WorkerReturnsKeep(s);
      case PopW(_) => WorkerPopKeeps(s);
      case FixEndW | ReleaseEndW => WorkerFixKeeps(s);
      case ReleaseProc => WorkerReleaseProcKeeps(s);
    }
  }

  lemma ThreadKeeps(s: State, t: Tid)
    requires Inv(s) && t in s.threads
    ensures ThreadStep(s, t) != Fault
    ensures ThreadStep(s, t).Next? ==> Inv(ThreadStep(s, t).s)
  {
    if ThreadStep(s, t) != Stuck {
      var pc := s.threads[t];
      var out := ThreadStep(s, t);
      assert T(t) in s.puts ==> pc.Idle?;
      match pc
      case RegTakeProc(kind) =>
        TakeProcKeeps(s, t, RegReleaseProc, s.handlers + {kind});
      case RmTakeProc(kind) =>
        TakeProcKeeps(s, t, RmTakeEnd(kind), s.handlers);
      case RegReleaseProc | RmReleaseProc(_) => ReleaseProcKeeps(s, t);
      case RmTakeEnd(_) | RmReleaseEnd(_, _) => ThreadEndKeeps(s, t);
      case RmLoop(_, _, _, _) => RemoveKeeps(s, t);
      case Idle =>
      case BlockTest | BlockSet | BlockPoll | UnblockTest | UnblockClear =>
        MoveKeeps(s, t, out.s.threads[t], out.s.blocked);
    }
  }
}
