/** src/ioman.c as an interleaved step system: one worker thread and any number of
    client threads share the request list under two semaphores.

    Every semaphore wait or signal, every unlocked read of a shared variable, every
    wake-up and each of the two store groups of ioPutRequest is one step; an
    interleaving is a sequence of labels. */
module IoWorker {
  import opened Options
  import opened RequestList

  type Tid = nat

  const IO_CUSTOM_SIMPLEACTION := 1
  const MAX_IO_HANDLERS := 64

  /** Who executes: the worker thread or a client thread. */
  datatype Caller = W | T(tid: Tid)

  /** Where a call of ioPutRequest stands. */
  datatype PutPc =
    | CheckFlag(r: Request)
    | CheckHandler(r: Request)
    | TakeEnd(r: Request)
    | Link(r: Request)
    | Fill(r: Request, a: Addr)
    | ReleaseEnd
    | Wakeup

  /** Where the worker stands in ioWorkerThread; Handling is inside a handler. */
  datatype WorkerPc =
    | Sleep
    | Asleep
    | TakeProc
    | Test
    | Fetch
    | Dispatch(a: Addr)
    | Handling(a: Addr)
    | TakeEndW(a: Addr)
    | PopW(a: Addr)
    | FixEndW
    | ReleaseEndW
    | ReleaseProc

  /** Where a client stands in ioRegisterHandler, ioRemoveRequests or ioBlockOps. */
  datatype ThreadPc =
    | Idle
    | RegTakeProc(kind: int)
    | RegReleaseProc
    | RmTakeProc(kind: int)
    | RmTakeEnd(kind: int)
    | RmLoop(kind: int, cur: Option<Addr>, last: Option<Addr>, count: nat)
    | RmReleaseEnd(kind: int, count: nat)
    | RmReleaseProc(count: nat)
    | BlockTest
    | BlockSet
    | BlockPoll
    | UnblockTest
    | UnblockClear

  /** `puts` holds the calls of ioPutRequest in progress, at most one per caller;
      `ran` the requests handlers were called with. */
  datatype State = State(
    q: Queue,
    ran: seq<Request>,
    blocked: bool,
    handlers: set<int>,
    proc: Option<Caller>,
    end: Option<Caller>,
    wakeups: nat,
    worker: WorkerPc,
    puts: map<Caller, PutPc>,
    threads: map<Tid, ThreadPc>)

  /** A step can be impossible now (Stuck), dereference memory that is not allocated
      (Fault), or lead to a next state. */
  datatype Outcome = Stuck | Fault | Next(s: State)

  /** What malloc returns: an address that is not in use, with arbitrary contents. */
  datatype Malloc = Malloc(a: Addr, junk: Node)

  /** What an idle client does next. */
  datatype Action =
    | StartPut(r: Request)
    | StartRegister(kind: int)
    | StartRemove(kind: int)
    | StartBlock
    | StartUnblock

  /** The worker or a client takes its next step; a running handler calls
      ioPutRequest; an idle client calls a function. */
  datatype Label =
    | WorkerGo
    | HandlerPuts(r: Request)
    | PutGo(c: Caller, mem: Malloc)
    | ThreadGo(tid: Tid)
    | ThreadStarts(tid: Tid, act: Action)

  function Init(tids: set<Tid>): State {
    State(EMPTY, [], false, {IO_CUSTOM_SIMPLEACTION}, None, None, 0, Sleep, map[], map t | t in tids :: Idle)
  }

  /** WakeupThread: a sleeping worker starts to run, otherwise the wake-up is
      counted; the worker cannot wake itself. */
  function Wake(s: State, c: Caller): State {
    if c.W? then s
    else if s.worker.Asleep? then s.(worker := TakeProc)
    else s.(wakeups := s.wakeups + 1)
  }

  /** One step of ioPutRequest. */
  function PutStep(s: State, c: Caller, mem: Malloc): Outcome
    requires c in s.puts
  {
    match s.puts[c]
    case CheckFlag(r) =>
      Next(s.(puts := if s.blocked then s.puts - {c} else s.puts[c := CheckHandler(r)]))
    case CheckHandler(r) =>
      Next(s.(puts := if r.kind in s.handlers then s.puts[c := TakeEnd(r)] else s.puts - {c}))
    case TakeEnd(r) =>
      if s.end.Some? then Stuck else Next(s.(end := Some(c), puts := s.puts[c := Link(r)]))
    case Link(r) =>
      if mem.a in s.q.nodes then Stuck
      else if s.q.reqEnd.Some? && s.q.reqEnd.value !in s.q.nodes then Fault
      else Next(s.(q := Publish(s.q, r, mem.a, mem.junk), puts := s.puts[c := Fill(r, mem.a)]))
    case Fill(r, a) =>
      if a !in s.q.nodes then Fault
      else Next(s.(q := RequestList.Fill(s.q, r, a), puts := s.puts[c := ReleaseEnd]))
    case ReleaseEnd => Next(s.(end := None, puts := s.puts[c := Wakeup]))
    case Wakeup => Next(Wake(s, c).(puts := s.puts - {c}))
  }

  /** One step of ioWorkerThread; from Handling, the handler returns. */
  function WorkerStep(s: State): Outcome {
    match s.worker
    case Sleep =>
      if s.wakeups > 0 then Next(s.(wakeups := s.wakeups - 1, worker := TakeProc)) else Next(s.(worker := Asleep))
    case Asleep => Stuck
    case TakeProc => if s.proc.Some? then Stuck else Next(s.(proc := Some(W), worker := Test))
    case Test => Next(s.(worker := if s.q.reqList.Some? then Fetch else ReleaseProc))
    case Fetch => if s.q.reqList.None? then Fault else Next(s.(worker := Dispatch(s.q.reqList.value)))
    case Dispatch(a) =>
      if a !in s.q.nodes then Fault
      else if s.q.nodes[a].req.kind in s.handlers then
        Next(s.(worker := Handling(a), ran := s.ran + [s.q.nodes[a].req]))
      else Next(s.(worker := TakeEndW(a)))
    case Handling(a) => if W in s.puts then Stuck else Next(s.(worker := TakeEndW(a)))
    case TakeEndW(a) => if s.end.Some? then Stuck else Next(s.(end := Some(W), worker := PopW(a)))
    case PopW(a) =>
      if a !in s.q.nodes || s.q.chain == [] || s.q.pending == [] then Fault
      else Next(s.(q := Pop(s.q, a), worker := FixEndW))
    case FixEndW => Next(s.(q := FixEnd(s.q), worker := ReleaseEndW))
    case ReleaseEndW => Next(s.(end := None, worker := Test))
    case ReleaseProc => Next(s.(proc := None, worker := Sleep))
  }

  /** One iteration of the loop of ioRemoveRequests. */
  function RemoveStep(s: State, t: Tid, kind: int, cur: Option<Addr>, last: Option<Addr>, count: nat): Outcome {
    if cur.None? then Next(s.(threads := s.threads[t := RmReleaseEnd(kind, count)]))
    else if cur.value !in s.q.nodes then Fault
    else
      var next := s.q.nodes[cur.value].next;
      if s.q.nodes[cur.value].req.kind != kind then
        Next(s.(threads := s.threads[t := RmLoop(kind, next, cur, count)]))
      else if last.Some? && last.value !in s.q.nodes then Fault
      else Next(s.(q := Unlink(s.q, cur.value, last), threads := s.threads[t := RmLoop(kind, next, last, count + 1)]))
  }

  /** One step of a client inside ioRegisterHandler, ioRemoveRequests or ioBlockOps. */
  function ThreadStep(s: State, t: Tid): Outcome
    requires t in s.threads
  {
    match s.threads[t]
    case Idle => Stuck
    case RegTakeProc(kind) =>
      if s.proc.Some? || kind in s.handlers || |s.handlers| >= MAX_IO_HANDLERS then Stuck
      else Next(s.(proc := Some(T(t)), handlers := s.handlers + {kind}, threads := s.threads[t := RegReleaseProc]))
    case RegReleaseProc => Next(s.(proc := None, threads := s.threads[t := Idle]))
    case RmTakeProc(kind) =>
      if s.proc.Some? then Stuck else Next(s.(proc := Some(T(t)), threads := s.threads[t := RmTakeEnd(kind)]))
    case RmTakeEnd(kind) =>
      if s.end.Some? then Stuck
      else Next(s.(end := Some(T(t)), threads := s.threads[t := RmLoop(kind, s.q.reqList, None, 0)]))
    case RmLoop(kind, cur, last, count) => RemoveStep(s, t, kind, cur, last, count)
    case RmReleaseEnd(_, count) => Next(s.(end := None, threads := s.threads[t := RmReleaseProc(count)]))
    case RmReleaseProc(_) => Next(s.(proc := None, threads := s.threads[t := Idle]))
    case BlockTest => Next(s.(threads := s.threads[t := if s.blocked then Idle else BlockSet]))
    case BlockSet => Next(s.(blocked := true, threads := s.threads[t := BlockPoll]))
    case BlockPoll => Next(s.(threads := s.threads[t := if s.q.reqList.Some? then BlockPoll else Idle]))
    case UnblockTest => Next(s.(threads := s.threads[t := if s.blocked then UnblockClear else Idle]))
    case UnblockClear => Next(s.(blocked := false, threads := s.threads[t := Idle]))
  }

  function StartStep(s: State, t: Tid, act: Action): State {
    match act
    case StartPut(r) => s.(puts := s.puts[T(t) := CheckFlag(r)])
    case StartRegister(kind) => s.(threads := s.threads[t := RegTakeProc(kind)])
    case StartRemove(kind) => s.(threads := s.threads[t := RmTakeProc(kind)])
    case StartBlock => s.(threads := s.threads[t := BlockTest])
    case StartUnblock => s.(threads := s.threads[t := UnblockTest])
  }

  function Apply(s: State, l: Label): Outcome {
    match l
    case WorkerGo => WorkerStep(s)
    case HandlerPuts(r) =>
      if s.worker.Handling? && W !in s.puts then Next(s.(puts := s.puts[W := CheckFlag(r)])) else Stuck
    case PutGo(c, mem) => if c in s.puts then PutStep(s, c, mem) else Stuck
    case ThreadGo(t) => if t in s.threads then ThreadStep(s, t) else Stuck
    case ThreadStarts(t, act) =>
      if t in s.threads && s.threads[t].Idle? && T(t) !in s.puts then Next(StartStep(s, t, act)) else Stuck
  }

  function Run(s: State, ls: seq<Label>): Outcome
    decreases |ls|
  {
    if ls == [] then Next(s)
    else match Apply(s, ls[0])
      case Next(s1) => Run(s1, ls[1..])
      case o => o
  }

  /** The node published but not yet filled in, if there is one. */
  function Raw(s: State): Option<Addr> {
    if s.end.Some? && s.end.value in s.puts && s.puts[s.end.value].Fill? then Some(s.puts[s.end.value].a) else None
  }

  /** The worker is about to read type and data of a node that is not filled in. */
  predicate ReadsRaw(s: State, l: Label) {
    l.WorkerGo? && s.worker.Dispatch? && Raw(s) == Some(s.worker.a)
  }

  /** The worker reads the accepted request when it reads type and data of the head. */
  predicate DispatchesRight(s: State, l: Label) {
    l.WorkerGo? && s.worker.Dispatch? ==>
      && s.worker.a in s.q.nodes && s.q.pending != [] && s.q.pending[0] < |s.q.accepted|
      && s.q.nodes[s.worker.a].req == s.q.accepted[s.q.pending[0]]
  }

  /** Every node dispatched during the interleaving carries its accepted request. */
  predicate DispatchesRightly(s: State, ls: seq<Label>)
    decreases |ls|
  {
    ls != [] ==>
      DispatchesRight(s, ls[0]) && (Apply(s, ls[0]).Next? ==> DispatchesRightly(Apply(s, ls[0]).s, ls[1..]))
  }

  /** No step of the interleaving reads an unfilled node. */
  predicate Orderly(s: State, ls: seq<Label>)
    decreases |ls|
  {
    ls != [] ==>
      !ReadsRaw(s, ls[0]) && (Apply(s, ls[0]).Next? ==> Orderly(Apply(s, ls[0]).s, ls[1..]))
  }
}
