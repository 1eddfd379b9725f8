/** A whole call of ioRemoveRequests of src/ioman.c, with all other threads running. */
module IoWorkerRemoval {
  import opened Options
  import opened RequestList
  import opened IoWorker
  import opened IoWorkerInvariant
  import opened IoWorkerTheorems

  /** Thread t is in the loop of ioRemoveRequests, or about to release gEndSemaId. */
  predicate Removing(s: State, t: Tid) {
    t in s.threads && (s.threads[t].RmLoop? || s.threads[t].RmReleaseEnd?)
  }

  ghost predicate StaysRemoving(s: State, ls: seq<Label>, t: Tid)
    decreases |ls|
  {
    Removing(s, t) && (ls != [] && Apply(s, ls[0]).Next? ==> StaysRemoving(Apply(s, ls[0]).s, ls[1..], t))
  }

  /** Since queue q0 the call has removed as many requests of the type as it counted, and
      nothing else has happened to the record. */
  ghost predicate Tally(q0: Queue, q: Queue, kind: int, count: nat) {
    && q.accepted == q0.accepted && q.popped == q0.popped
    && q0.removed <= q.removed && |q.removed - q0.removed| == count
    && (forall id :: id in q.removed - q0.removed ==>
          id in q0.pending && id < |q.accepted| && q.accepted[id].kind == kind)
    && (forall id :: id in q.pending ==> id in q0.pending)
  }

  /** No other thread is between taking and giving gEndSemaId. */
  lemma HoldsAlone(s: State, t: Tid)
    requires Inv(s) && Removing(s, t)
    ensures forall c :: InEnd(s, c) ==> c == T(t)
    ensures T(t) !in s.puts
  {
    assert InEnd(s, T(t));
  }

  lemma WorkerKeepsQueue(s: State)
    requires !InEnd(s, W) && WorkerStep(s).Next?
    ensures var s' := WorkerStep(s).s; s'.q == s.q && s'.threads == s.threads
  {
    hide Pop, FixEnd;
  }

  lemma PutKeepsQueue(s: State, c: Caller, mem: Malloc)
    requires c in s.puts && !InEnd(s, c) && PutStep(s, c, mem).Next?
    ensures var s' := PutStep(s, c, mem).s; s'.q == s.q && s'.threads == s.threads
  {
    hide Publish, RequestList.Fill;
  }

  lemma ThreadKeepsQueue(s: State, u: Tid)
    requires u in s.threads && !InEnd(s, T(u)) && ThreadStep(s, u).Next?
    ensures var s' := ThreadStep(s, u).s; s'.q == s.q && s'.threads == s.threads[u := s'.threads[u]]
  {
    hide Unlink;
  }

  /** While the call holds gEndSemaId no other thread touches the queue. */
  lemma OthersKeepQueue(s: State, l: Label, t: Tid)
    requires Inv(s) && Removing(s, t) && Apply(s, l).Next? && l != ThreadGo(t)
    ensures var s' := Apply(s, l).s; s'.q == s.q && t in s'.threads && s'.threads[t] == s.threads[t]
  {
    HoldsAlone(s, t);
    hide Inv, InEnd, WorkerStep, PutStep, ThreadStep;
    match l
    case WorkerGo => WorkerKeepsQueue(s);
    case PutGo(c, mem) => PutKeepsQueue(s, c, mem);
    case ThreadGo(u) => ThreadKeepsQueue(s, u);
    case HandlerPuts(_) | ThreadStarts(_, _) =>
  }

  lemma TallyTurn(q0: Queue, s: State, t: Tid)
    requires Inv(s) && Removing(s, t) && ThreadStep(s, t).Next? && Removing(ThreadStep(s, t).s, t)
    requires Tally(q0, s.q, s.threads[t].kind, s.threads[t].count)
    ensures var s' := ThreadStep(s, t).s;
      s'.threads[t].kind == s.threads[t].kind && Tally(q0, s'.q, s.threads[t].kind, s'.threads[t].count)
  {
    var s' := ThreadStep(s, t).s;
    var pc := s.threads[t];
    var k := RemoveCounts(s, t);
    TurnRecords(s, t);
    if s'.q != s.q {
      PendingIsNotRemoved(s, k);
      hide Inv, ThreadStep, Tally, Removing;
      TallyNext(q0, s.q, s'.q, pc.kind, pc.count, k);
    }
  }

  lemma TallyNext(q0: Queue, q: Queue, q': Queue, kind: int, count: nat, k: nat)
    requires Tally(q0, q, kind, count) && k < |q.pending| && q.pending[k] !in q.removed
    requires q.pending[k] < |q.accepted| && q.accepted[q.pending[k]].kind == kind
    requires q'.accepted == q.accepted && q'.popped == q.popped
    requires q'.removed == q.removed + {q.pending[k]} && q'.pending == Without(q.pending, k)
    ensures Tally(q0, q', kind, count + 1)
  {
    assert q'.removed - q0.removed == (q.removed - q0.removed) + {q.pending[k]};
    forall i | i in q'.pending ensures i in q.pending { WithoutAt(q.pending, k); }
  }

  lemma TurnRecords(s: State, t: Tid)
    requires t in s.threads && s.threads[t].RmLoop? && ThreadStep(s, t).Next? && Removing(ThreadStep(s, t).s, t)
    ensures var s' := ThreadStep(s, t).s;
      s'.threads[t].kind == s.threads[t].kind && s'.q.accepted == s.q.accepted
      && (s'.q == s.q ==> s'.threads[t].count == s.threads[t].count)
  {
  }

  lemma PendingIsNotRemoved(s: State, k: nat)
    requires Inv(s) && k < |s.q.pending|
    ensures s.q.pending[k] !in s.q.removed
  {
    KeptIsBelow(|s.q.accepted|, s.q.removed);
    assert (s.q.popped + s.q.pending)[|s.q.popped| + k] == s.q.pending[k];
  }

  lemma {:induction false} TallyRun(q0: Queue, s: State, ls: seq<Label>, t: Tid, kind: int)
    requires Inv(s) && StaysRemoving(s, ls, t) && Run(s, ls).Next?
    requires s.threads[t].kind == kind && Tally(q0, s.q, kind, s.threads[t].count)
    ensures Removing(Run(s, ls).s, t) && Inv(Run(s, ls).s)
    ensures var s' := Run(s, ls).s; s'.threads[t].kind == kind && Tally(q0, s'.q, kind, s'.threads[t].count)
    decreases |ls|
  {
    if ls != [] {
      var s1 := Apply(s, ls[0]).s;
      StepKeeps(s, ls[0]);
      if ls[0] == ThreadGo(t) { TallyTurn(q0, s, t); } else { OthersKeepQueue(s, ls[0], t); }
      hide Inv, Tally, Apply;
      TallyRun(q0, s1, ls[1..], t, kind);
    }
  }

  lemma {:induction false} KeptHas(n: nat, removed: set<nat>, id: nat)
    requires id < n && id !in removed
    ensures id in Kept(n, removed)
  {
    if id < n - 1 { KeptHas(n - 1, removed, id); }
  }

  /** The call of ioRemoveRequests from taking gEndSemaId to releasing it, in every
      interleaving: the number returned is the number of requests removed, these are
      exactly the pending ones of the type, and every other one is still pending. */
  lemma RemoveIsExact(s: State, ls: seq<Label>, t: Tid, kind: int)
    requires Inv(s) && t in s.threads && s.threads[t] == RmLoop(kind, s.q.reqList, None, 0)
    requires StaysRemoving(s, ls, t) && Run(s, ls).Next?
    requires var s' := Run(s, ls).s; t in s'.threads && s'.threads[t].RmReleaseEnd?
    ensures var s' := Run(s, ls).s;
      && s'.q.accepted == s.q.accepted && s'.q.popped == s.q.popped && s.q.removed <= s'.q.removed
      && s'.threads[t].count == |s'.q.removed - s.q.removed|
      && (forall id :: id in s.q.pending ==> id < |s.q.accepted|)
      && (forall id :: id in s'.q.removed - s.q.removed <==> id in s.q.pending && s.q.accepted[id].kind == kind)
      && (forall id :: id in s'.q.pending <==> id in s.q.pending && s.q.accepted[id].kind != kind)
  {
    hide Run, Inv, StaysRemoving;
    var s' := Run(s, ls).s;
    assert s.q.removed - s.q.removed == {};
    TallyRun(s.q, s, ls, t, kind);
    NoneLeft(s', t);
    forall id | id in s.q.pending ensures id < |s.q.accepted| && (id in s'.q.pending || id in s'.q.removed) {
      StillSomewhere(s, s', id);
    }
    forall id | id in s.q.removed ensures id !in s.q.pending { NotBoth(s, id); }
    TallyIsExact(s.q, s'.q, kind, s'.threads[t].count);
  }

  lemma TallyIsExact(q0: Queue, q: Queue, kind: int, count: nat)
    requires Tally(q0, q, kind, count)
    requires forall id :: id in q0.pending ==> id < |q0.accepted| && (id in q.pending || id in q.removed)
    requires forall id :: id in q.pending ==> id < |q.accepted| && q.accepted[id].kind != kind
    requires forall id :: id in q0.removed ==> id !in q0.pending
    ensures forall id :: id in q.removed - q0.removed <==> id in q0.pending && q0.accepted[id].kind == kind
    ensures forall id :: id in q.pending <==> id in q0.pending && q0.accepted[id].kind != kind
  {
  }

  lemma NoneLeft(s: State, t: Tid)
    requires Inv(s) && t in s.threads && s.threads[t].RmReleaseEnd?
    ensures forall id :: id in s.q.pending ==> id < |s.q.accepted| && s.q.accepted[id].kind != s.threads[t].kind
  {
    assert InEnd(s, T(t));
  }

  lemma NotBoth(s: State, id: nat)
    requires Inv(s) && id in s.q.removed
    ensures id !in s.q.pending
  {
    if id in s.q.pending {
      var k :| 0 <= k < |s.q.pending| && s.q.pending[k] == id;
      PendingIsNotRemoved(s, k);
    }
  }

  /** A request that was pending is pending or removed as long as nothing is popped. */
  lemma StillSomewhere(s: State, s': State, id: nat)
    requires Inv(s) && Inv(s') && id in s.q.pending
    requires s'.q.accepted == s.q.accepted && s'.q.popped == s.q.popped
    ensures id < |s.q.accepted| && (id in s'.q.pending || id in s'.q.removed)
  {
    var k :| 0 <= k < |s.q.pending| && s.q.pending[k] == id;
    KeptIsBelow(|s.q.accepted|, s.q.removed);
    var ids := s.q.popped + s.q.pending;
    assert ids[|s.q.popped| + k] == id;
    assert forall i :: 0 <= i < |s.q.popped| ==> ids[i] == s.q.popped[i];
    assert id !in s.q.popped;
    if id !in s'.q.removed {
      KeptHas(|s'.q.accepted|, s'.q.removed, id);
      assert id in s'.q.popped + s'.q.pending;
    }
  }
}
