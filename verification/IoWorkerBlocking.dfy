/** Blocking of src/ioman.c: what ioBlockOps(1) has achieved when it returns. */
module IoWorkerBlocking {
  import opened Options
  import opened RequestList
  import opened IoWorker
  import opened IoWorkerDispatch
  import opened IoWorkerInvariant
  import opened IoWorkerTheorems

  /** The flag is set and no call of ioPutRequest is between its check of the flag and
      the linking of its node. */
  ghost predicate Draining(s: State) {
    s.blocked && forall c :: c in s.puts ==> !s.puts[c].CheckHandler? && !s.puts[c].TakeEnd? && !s.puts[c].Link?
  }

  ghost predicate StaysBlocked(s: State, ls: seq<Label>)
    decreases |ls|
  {
    s.blocked && (ls != [] && Apply(s, ls[0]).Next? ==> StaysBlocked(Apply(s, ls[0]).s, ls[1..]))
  }

  /** The queue did not grow, and if it was empty the worker popped nothing. */
  ghost predicate NoGrowth(q: Queue, q': Queue) {
    && q'.accepted == q.accepted
    && |q'.chain| <= |q.chain|
    && (q.chain == [] ==> q'.popped == q.popped)
  }

  lemma DrainingPut(s: State, c: Caller, mem: Malloc)
    requires Draining(s) && c in s.puts && PutStep(s, c, mem).Next?
    ensures var s' := PutStep(s, c, mem).s; (s'.blocked ==> Draining(s')) && NoGrowth(s.q, s'.q)
  {
  }

  lemma DrainingWorker(s: State)
    requires Draining(s) && WorkerStep(s).Next?
    ensures var s' := WorkerStep(s).s; Draining(s') && NoGrowth(s.q, s'.q)
  {
  }

  lemma DrainingThread(s: State, t: Tid)
    requires Draining(s) && t in s.threads && ThreadStep(s, t).Next?
    ensures var s' := ThreadStep(s, t).s; (s'.blocked ==> Draining(s')) && NoGrowth(s.q, s'.q)
  {
  }

  lemma DrainingStep(s: State, l: Label)
    requires Draining(s) && Apply(s, l).Next? && Apply(s, l).s.blocked
    ensures Draining(Apply(s, l).s) && NoGrowth(s.q, Apply(s, l).s.q)
  {
    match l
    case WorkerGo => DrainingWorker(s);
    case PutGo(c, mem) => DrainingPut(s, c, mem);
    case ThreadGo(t) => DrainingThread(s, t);
    case HandlerPuts(_) =>
    case ThreadStarts(_, _) =>
  }

  lemma {:induction false} DrainingRun(s: State, ls: seq<Label>)
    requires Draining(s) && StaysBlocked(s, ls) && Run(s, ls).Next?
    ensures Draining(Run(s, ls).s) && NoGrowth(s.q, Run(s, ls).s.q)
    decreases |ls|
  {
    if ls != [] {
      DrainingStep(s, ls[0]);
      DrainingRun(Apply(s, ls[0]).s, ls[1..]);
    }
  }

  lemma QuietStep(s: State, l: Label)
    requires Inv(s) && Draining(s) && s.q.chain == [] && Apply(s, l).Next? && Apply(s, l).s.blocked
    ensures var s' := Apply(s, l).s; s'.q.chain == [] && s'.ran == s.ran && s'.q.accepted == s.q.accepted
  {
    DrainingStep(s, l);
    assert !s.worker.Dispatch?;
  }

  /** After ioBlockOps(1) has seen gReqList NULL with no producer past the flag check,
      nothing is accepted, pending or handled until the flag is cleared. */
  lemma {:induction false} BlockedIsQuiet(s: State, ls: seq<Label>)
    requires Inv(s) && Draining(s) && s.q.reqList.None?
    requires StaysBlocked(s, ls) && Run(s, ls).Next?
    ensures var s' := Run(s, ls).s;
      s'.q.reqList.None? && !s'.worker.Handling? && s'.q.accepted == s.q.accepted && s'.ran == s.ran
    decreases |ls|
  {
    EmptyIsIdle(s);
    if ls != [] {
      ListNull(s);
      QuietStep(s, ls[0]);
      DrainingStep(s, ls[0]);
      StepKeeps(s, ls[0]);
      ListNull(Apply(s, ls[0]).s);
      hide Inv, Draining, Apply;
      BlockedIsQuiet(Apply(s, ls[0]).s, ls[1..]);
    }
  }

  lemma ListNull(s: State)
    requires Inv(s)
    ensures s.q.reqList.None? <==> s.q.chain == []
  {
  }

  // ---------------------------------------------------------------------------
  // Producers past the flag check
  // ---------------------------------------------------------------------------

  /** This call of ioPutRequest has passed both checks, or will pass the second. */
  predicate Passed(s: State, c: Caller) {
    c in s.puts &&
    (s.puts[c].TakeEnd? || s.puts[c].Link? || (s.puts[c].CheckHandler? && s.puts[c].r.kind in s.handlers))
  }

  /** The flag stays set and no handler is registered. */
  ghost predicate Steady(s: State, ls: seq<Label>)
    decreases |ls|
  {
    s.blocked &&
    (ls != [] && Apply(s, ls[0]).Next? ==>
       Apply(s, ls[0]).s.handlers == s.handlers && Steady(Apply(s, ls[0]).s, ls[1..]))
  }

  lemma {:induction false} SteadyIsBlocked(s: State, ls: seq<Label>)
    requires Steady(s, ls)
    ensures StaysBlocked(s, ls)
    decreases |ls|
  {
    hide Apply;
    if ls != [] && Apply(s, ls[0]).Next? { SteadyIsBlocked(Apply(s, ls[0]).s, ls[1..]); }
  }

  /** malloc can always return something. */
  lemma {:induction false} AddressAbove(used: set<Addr>) returns (a: Addr)
    ensures forall b :: b in used ==> b < a
  {
    if used == {} {
      a := 0;
    } else {
      var b :| b in used;
      var rest := AddressAbove(used - {b});
      a := if b < rest then rest else b + 1;
      assert forall c :: c in used ==> c == b || c in used - {b};
    }
  }

  /** The turns the loop of ioRemoveRequests still has to make. */
  function TurnsLeft(q: Queue, cur: Option<Addr>): nat {
    if cur.None? then 0 else |q.chain| - IndexOf(q.chain, cur.value)
  }

  /** The steps until gEndSemaId is released. */
  function StepsToRelease(s: State): nat {
    if s.end.None? then 0
    else
      var c := s.end.value;
      if c in s.puts && (s.puts[c].Link? || s.puts[c].Fill? || s.puts[c].ReleaseEnd?) then
        (if s.puts[c].Link? then 3 else if s.puts[c].Fill? then 2 else 1)
      else if c.W? then (if s.worker.PopW? then 3 else if s.worker.FixEndW? then 2 else 1)
      else if c.tid in s.threads && s.threads[c.tid].RmLoop? then 2 + TurnsLeft(s.q, s.threads[c.tid].cur)
      else 1
  }

  /** One step of the thread that holds gEndSemaId. */
  ghost predicate Releasing(s: State, l: Label) {
    && Apply(s, l).Next?
    && var s' := Apply(s, l).s;
    && s'.blocked == s.blocked && s'.handlers == s.handlers && |s'.q.accepted| >= |s.q.accepted|
    && (forall c :: c in s.puts && s.end != Some(c) ==> c in s'.puts && s'.puts[c] == s.puts[c])
    && StepsToRelease(s') < StepsToRelease(s)
  }

  lemma ProducerReleases(s: State, c: Caller) returns (l: Label)
    requires Inv(s) && s.end == Some(c) && c in s.puts
    requires s.puts[c].Link? || s.puts[c].Fill? || s.puts[c].ReleaseEnd?
    ensures Releasing(s, l)
  {
    hide Inv, TurnsLeft, StepsToRelease;
    var a := AddressAbove(s.q.nodes.Keys);
    assert a !in s.q.nodes;
    l := PutGo(c, Malloc(a, Node(Request(0, 0), None)));
    PutKeeps(s, c, l.mem);
    ProducerNearer(s, c);
    ProducerNearer(PutStep(s, c, l.mem).s, c);
  }

  lemma ProducerNearer(s: State, c: Caller)
    ensures s.end == Some(c) && c in s.puts ==>
      && (s.puts[c].Link? ==> StepsToRelease(s) == 3)
      && (s.puts[c].Fill? ==> StepsToRelease(s) == 2)
      && (s.puts[c].ReleaseEnd? ==> StepsToRelease(s) == 1)
    ensures s.end.None? ==> StepsToRelease(s) == 0
  {
  }

  lemma WorkerReleases(s: State)
    requires Inv(s) && s.end == Some(W) && (s.worker.PopW? || s.worker.FixEndW? || s.worker.ReleaseEndW?)
    ensures Releasing(s, WorkerGo)
  {
    WorkerKeeps(s);
    assert W !in s.puts;
    hide Inv, Pop, TurnsLeft, StepsToRelease;
    if s.worker.PopW? { PopLogs(s.q, s.worker.a); }
    WorkerNearer(s);
    WorkerNearer(WorkerStep(s).s);
  }

  lemma WorkerNearer(s: State)
    ensures s.end == Some(W) && W !in s.puts ==>
      && (s.worker.PopW? ==> StepsToRelease(s) == 3)
      && (s.worker.FixEndW? ==> StepsToRelease(s) == 2)
      && (s.worker.ReleaseEndW? ==> StepsToRelease(s) == 1)
    ensures s.end.None? ==> StepsToRelease(s) == 0
  {
  }

  lemma IndexOfAt(chain: seq<Addr>, k: nat)
    requires Distinct(chain) && k < |chain|
    ensures IndexOf(chain, chain[k]) == k
  {
  }

  lemma RemoverReleases(s: State, t: Tid)
    requires Inv(s) && s.end == Some(T(t)) && t in s.threads && T(t) !in s.puts
    requires s.threads[t].RmLoop? || s.threads[t].RmReleaseEnd?
    ensures Releasing(s, ThreadGo(t))
  {
    if s.threads[t].RmLoop? {
      TurnReleases(s, t);
    } else {
      hide Inv;
    }
  }

  lemma TurnReleases(s: State, t: Tid)
    requires Inv(s) && s.end == Some(T(t)) && t in s.threads && T(t) !in s.puts && s.threads[t].RmLoop?
    ensures Releasing(s, ThreadGo(t))
  {
    RemoveKeeps(s, t);
    TurnsFall(s, t);
    TurnShape(s, t);
    hide Inv, ThreadStep, TurnsLeft;
  }

  lemma TurnShape(s: State, t: Tid)
    requires t in s.threads && s.threads[t].RmLoop? && ThreadStep(s, t).Next?
    ensures var s' := ThreadStep(s, t).s;
      && t in s'.threads && (s'.threads[t].RmLoop? || s'.threads[t].RmReleaseEnd?)
      && s' == s.(q := s'.q, threads := s'.threads) && s'.q.accepted == s.q.accepted
  {
    hide Unlink;
    if s.threads[t].cur.Some? { UnlinkAccepts(s.q, s.threads[t].cur.value, s.threads[t].last); }
  }

  lemma UnlinkAccepts(q: Queue, a: Addr, last: Option<Addr>)
    requires a in q.nodes
    ensures Unlink(q, a, last).accepted == q.accepted
  {
  }

  lemma TurnsFall(s: State, t: Tid)
    requires Inv(s) && t in s.threads && s.threads[t].RmLoop? && ThreadStep(s, t).Next?
    ensures var s' := ThreadStep(s, t).s;
      && t in s'.threads
      && (s.threads[t].cur.None? ==> s'.threads[t].RmReleaseEnd?)
      && (s'.threads[t].RmLoop? && s.threads[t].cur.Some? ==>
            TurnsLeft(s'.q, s'.threads[t].cur) < TurnsLeft(s.q, s.threads[t].cur))
  {
    var pc := s.threads[t];
    var k := CursorIs(s, t);
    hide Inv, Unlink, TurnsLeft, ListOk, FreeOf;
    if k < |s.q.chain| {
      ChainTurns(s.q, k, pc.last);
    }
  }

  lemma CursorIs(s: State, t: Tid) returns (k: nat)
    requires Inv(s) && t in s.threads && s.threads[t].RmLoop?
    ensures ListOk(s.q, None, false)
    ensures CursorAt(s.q, s.threads[t].kind, s.threads[t].cur, s.threads[t].last, k)
  {
    assert InEnd(s, T(t));
    assert Raw(s) == None;
    assert s.worker.FixEndW? ==> InEnd(s, W);
    k :| CursorAt(s.q, s.threads[t].kind, s.threads[t].cur, s.threads[t].last, k);
  }

  /** Stepping over the k-th node, or unlinking it, leaves one turn less. */
  lemma ChainTurns(q: Queue, k: nat, last: Option<Addr>)
    requires ListOk(q, None, false) && k < |q.chain| && last == if k == 0 then None else At(q.chain, k - 1)
    ensures q.chain[k] in q.nodes
    ensures var next := q.nodes[q.chain[k]].next;
      && TurnsLeft(q, next) < TurnsLeft(q, Some(q.chain[k]))
      && TurnsLeft(Unlink(q, q.chain[k], last), next) < TurnsLeft(q, Some(q.chain[k]))
  {
    IndexOfAt(q.chain, k);
    UnlinkIsBypass(q, k, last);
    WithoutAt(q.chain, k);
    if k + 1 < |q.chain| {
      assert q.nodes[q.chain[k]].next == Some(q.chain[k + 1]);
      IndexOfAt(q.chain, k + 1);
      WithoutDistinct(q.chain, k);
      IndexOfAt(Without(q.chain, k), k);
    }
  }

  /** Whoever holds gEndSemaId can go on, and is one step nearer to releasing it. */
  lemma HolderReleases(s: State) returns (l: Label)
    requires Inv(s) && s.end.Some?
    ensures Releasing(s, l)
  {
    var c := s.end.value;
    assert InEnd(s, c);
    if c in s.puts && (s.puts[c].Link? || s.puts[c].Fill? || s.puts[c].ReleaseEnd?) {
      l := ProducerReleases(s, c);
    } else if c.W? {
      WorkerReleases(s);
      l := WorkerGo;
    } else {
      RemoverReleases(s, c.tid);
      l := ThreadGo(c.tid);
    }
  }

  /** How far the call is from linking its node. */
  function StepsToLink(pc: PutPc): nat { if pc.CheckHandler? then 2 else if pc.TakeEnd? then 1 else 0 }

  /** One step towards the linking of c's node that leaves c past its checks. */
  lemma PassedSteps(s: State, c: Caller) returns (l: Label)
    requires Inv(s) && s.blocked && Passed(s, c) && !s.puts[c].Link?
    ensures Apply(s, l).Next?
    ensures var s' := Apply(s, l).s;
      && s'.blocked && s'.handlers == s.handlers && |s'.q.accepted| >= |s.q.accepted|
      && Passed(s', c) && s'.puts[c].r == s.puts[c].r
      && (StepsToLink(s'.puts[c]) < StepsToLink(s.puts[c])
          || (s'.puts[c] == s.puts[c] && StepsToRelease(s') < StepsToRelease(s)))
  {
    if s.puts[c].TakeEnd? && s.end.Some? {
      assert InEnd(s, s.end.value);
      l := HolderReleases(s);
    } else {
      l := PutGo(c, Malloc(0, Node(s.puts[c].r, None)));
    }
  }

  lemma LinkStep(s: State, c: Caller) returns (l: Label)
    requires Inv(s) && c in s.puts && s.puts[c].Link?
    ensures Apply(s, l).Next?
    ensures var s' := Apply(s, l).s;
      s'.blocked == s.blocked && s'.handlers == s.handlers && s'.q.accepted == s.q.accepted + [s.puts[c].r]
  {
    var a := AddressAbove(s.q.nodes.Keys);
    assert a !in s.q.nodes;
    l := PutGo(c, Malloc(a, Node(s.puts[c].r, None)));
    PutKeeps(s, c, l.mem);
    hide Inv;
  }

  /** A producer past the flag check gets its request accepted even though the flag is
      set, whoever holds the semaphores and whatever is in the list. */
  lemma {:induction false} PassedProducerLinks(s: State, c: Caller) returns (ls: seq<Label>)
    requires Inv(s) && s.blocked && Passed(s, c)
    ensures Steady(s, ls) && Run(s, ls).Next?
    ensures var s' := Run(s, ls).s;
      |s'.q.accepted| > |s.q.accepted| && s'.q.accepted[|s'.q.accepted| - 1] == s.puts[c].r
    decreases StepsToLink(s.puts[c]), StepsToRelease(s)
  {
    hide Inv, StepsToRelease, StepsToLink, Apply, Run, Steady;
    if s.puts[c].Link? {
      ls := LinkRun(s, c);
    } else {
      hide Passed;
      var l := PassedSteps(s, c);
      StepKeeps(s, l);
      var rest := PassedProducerLinks(Apply(s, l).s, c);
      RunFirst(s, l, rest);
      ls := [l] + rest;
    }
  }

  lemma LinkRun(s: State, c: Caller) returns (ls: seq<Label>)
    requires Inv(s) && s.blocked && c in s.puts && s.puts[c].Link?
    ensures Steady(s, ls) && Run(s, ls).Next?
    ensures Run(s, ls).s.q.accepted == s.q.accepted + [s.puts[c].r]
  {
    hide Inv, Apply;
    var l := LinkStep(s, c);
    RunFirst(s, l, []);
    assert Steady(Apply(s, l).s, []);
    ls := [l] + [];
  }

  lemma RunFirst(s: State, l: Label, rest: seq<Label>)
    requires Apply(s, l).Next?
    ensures Run(s, [l] + rest) == Run(Apply(s, l).s, rest)
    ensures s.blocked && Apply(s, l).s.handlers == s.handlers ==>
      (Steady(s, [l] + rest) <==> Steady(Apply(s, l).s, rest))
  {
    hide Apply;
    assert ([l] + rest)[1..] == rest;
  }

  /** Nothing at all is accepted until the flag is cleared. */
  ghost predicate Quiet(s: State) {
    forall ls :: StaysBlocked(s, ls) && Run(s, ls).Next? ==> Run(s, ls).s.q.accepted == s.q.accepted
  }

  /** Nothing is accepted until the flag is cleared or a handler registered. */
  ghost predicate QuietWhileSteady(s: State) {
    forall ls :: Steady(s, ls) && Run(s, ls).Next? ==> Run(s, ls).s.q.accepted == s.q.accepted
  }

  lemma NonePassedStep(s: State, l: Label)
    requires s.blocked && (forall c :: !Passed(s, c)) && Apply(s, l).Next?
    requires Apply(s, l).s.blocked && Apply(s, l).s.handlers == s.handlers
    ensures var s' := Apply(s, l).s; (forall c :: !Passed(s', c)) && s'.q.accepted == s.q.accepted
  {
    match l
    case PutGo(c, mem) =>
      assert !Passed(s, c);
      NonePassedPut(s, c, mem);
    case WorkerGo => NonePassedWorker(s);
    case ThreadGo(t) => NonePassedThread(s, t);
    case HandlerPuts(_) => NonePassedStart(s, W, l);
    case ThreadStarts(t, _) => NonePassedStart(s, T(t), l);
  }

  lemma NonePassedPut(s: State, c: Caller, mem: Malloc)
    requires s.blocked && (forall d :: !Passed(s, d)) && c in s.puts && PutStep(s, c, mem).Next?
    ensures var s' := PutStep(s, c, mem).s; (forall d :: !Passed(s', d)) && s'.q.accepted == s.q.accepted
  {
    var s' := PutStep(s, c, mem).s;
    assert !Passed(s, c);
    assert forall d :: Passed(s', d) ==> Passed(s, d);
  }

  lemma NonePassedWorker(s: State)
    requires (forall d :: !Passed(s, d)) && WorkerStep(s).Next?
    ensures var s' := WorkerStep(s).s; (forall d :: !Passed(s', d)) && s'.q.accepted == s.q.accepted
  {
    var s' := WorkerStep(s).s;
    assert forall d :: Passed(s', d) ==> Passed(s, d);
  }

  lemma NonePassedThread(s: State, t: Tid)
    requires (forall d :: !Passed(s, d)) && t in s.threads && ThreadStep(s, t).Next?
    requires ThreadStep(s, t).s.handlers == s.handlers
    ensures var s' := ThreadStep(s, t).s; (forall d :: !Passed(s', d)) && s'.q.accepted == s.q.accepted
  {
    var s' := ThreadStep(s, t).s;
    assert forall d :: Passed(s', d) ==> Passed(s, d);
  }

  lemma NonePassedStart(s: State, c: Caller, l: Label)
    requires (forall d :: !Passed(s, d)) && Apply(s, l).Next?
    requires (l.HandlerPuts? && c == W) || (l.ThreadStarts? && c == T(l.tid))
    ensures var s' := Apply(s, l).s; (forall d :: !Passed(s', d)) && s'.q.accepted == s.q.accepted
  {
    var s' := Apply(s, l).s;
    assert forall d :: Passed(s', d) ==> Passed(s, d);
  }

  lemma {:induction false} NonePassedRun(s: State, ls: seq<Label>)
    requires s.blocked && (forall c :: !Passed(s, c)) && Steady(s, ls) && Run(s, ls).Next?
    ensures Run(s, ls).s.q.accepted == s.q.accepted
    decreases |ls|
  {
    hide Apply, Passed;
    if ls != [] {
      NonePassedStep(s, ls[0]);
      NonePassedRun(Apply(s, ls[0]).s, ls[1..]);
    }
  }

  /** Exactly when a set flag means quiescence, in any state of the system, whoever holds
      the semaphores: no producer is past the flag check.  A call past the flag check with
      an unknown type counts only once its type gets a handler. */
  lemma QuietIff(s: State)
    requires Inv(s) && s.blocked
    ensures QuietWhileSteady(s) <==> forall c :: !Passed(s, c)
    ensures (forall c :: c in s.puts && s.puts[c].CheckHandler? ==> s.puts[c].r.kind in s.handlers) ==>
      (Quiet(s) <==> Draining(s))
  {
    if forall c :: !Passed(s, c) {
      forall ls | Steady(s, ls) && Run(s, ls).Next? ensures Run(s, ls).s.q.accepted == s.q.accepted {
        NonePassedRun(s, ls);
      }
      assert forall c :: c in s.puts ==> !Passed(s, c);
    } else {
      var c :| Passed(s, c);
      NotQuiet(s, c);
    }
    if Draining(s) {
      forall ls | StaysBlocked(s, ls) && Run(s, ls).Next? ensures Run(s, ls).s.q.accepted == s.q.accepted {
        DrainingRun(s, ls);
      }
    }
  }

  /** Such a state: one client is past the flag check when another sets the flag, finds the
      list empty and returns from ioBlockOps. */
  lemma BlockedIsNotQuiet(r: Request) returns (ls: seq<Label>)
    requires r.kind == IO_CUSTOM_SIMPLEACTION
    ensures Run(Init({0, 1}), ls).Next?
    ensures var s := Run(Init({0, 1}), ls).s;
      && s.blocked && s.q.reqList.None? && s.threads == map[0 := Idle, 1 := Idle]
      && Passed(s, T(0)) && !QuietWhileSteady(s) && !Quiet(s)
  {
    ls := BlockedRun(r);
    var s := BlockedAfter(r);
    InitInv({0, 1});
    hide Inv, Run, Init, Quiet, QuietWhileSteady;
    RunKeeps(Init({0, 1}), ls);
    NotQuiet(s, T(0));
  }

  function BlockedAfter(r: Request): State {
    Init({0, 1}).(threads := map[0 := Idle, 1 := Idle], blocked := true, puts := map[T(0) := CheckHandler(r)])
  }

  /** A client calls ioPutRequest and gets past the flag check. */
  lemma PutPasses(s: State, r: Request) returns (ls: seq<Label>)
    requires s.threads == map[0 := Idle, 1 := Idle] && s.puts == map[] && !s.blocked
    ensures Run(s, ls) == Next(s.(puts := map[T(0) := CheckHandler(r)]))
  {
    var mem := Malloc(0, Node(r, None));
    var s1 := s.(puts := map[T(0) := CheckFlag(r)]);
    ls := Extend(s, [], s, ThreadStarts(0, StartPut(r)), s1);
    ls := Extend(s, ls, s1, PutGo(T(0), mem), s.(puts := map[T(0) := CheckHandler(r)]));
  }

  /** A whole call of ioBlockOps(1) that finds the list empty at once. */
  lemma BlockReturns(s: State) returns (ls: seq<Label>)
    requires s.threads == map[0 := Idle, 1 := Idle] && T(1) !in s.puts && !s.blocked && s.q.reqList.None?
    ensures Run(s, ls) == Next(s.(blocked := true))
  {
    var s1 := s.(threads := map[0 := Idle, 1 := BlockTest]);
    var s2 := s.(threads := map[0 := Idle, 1 := BlockSet]);
    var s3 := s.(threads := map[0 := Idle, 1 := BlockPoll], blocked := true);
    ls := Extend(s, [], s, ThreadStarts(1, StartBlock), s1);
    ls := Extend(s, ls, s1, ThreadGo(1), s2);
    ls := Extend(s, ls, s2, ThreadGo(1), s3);
    ls := Extend(s, ls, s3, ThreadGo(1), s.(blocked := true));
  }

  lemma BlockedRun(r: Request) returns (ls: seq<Label>)
    ensures Run(Init({0, 1}), ls) == Next(BlockedAfter(r))
  {
    var s := Init({0, 1});
    assert s.threads == map[0 := Idle, 1 := Idle];
    hide Run;
    var ls1 := PutPasses(s, r);
    var ls2 := BlockReturns(Run(s, ls1).s);
    RunConcat(s, ls1, ls2);
    ls := ls1 + ls2;
  }

  lemma NotQuiet(s: State, c: Caller)
    requires Inv(s) && s.blocked && Passed(s, c)
    ensures !QuietWhileSteady(s) && !Quiet(s)
  {
    hide Inv, Passed;
    var ls := PassedProducerLinks(s, c);
    SteadyIsBlocked(s, ls);
  }
}
