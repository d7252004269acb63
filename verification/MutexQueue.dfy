/** The bounded queue between the threads that send events and the one that
    dispatches them, as interleaved steps: each step is what a thread does between
    two points where another thread can run. */
module MutexQueue {
  import opened Optional

  /** Where a thread stands. A sender calls `Push` again and again; a dispatcher runs
      `doLoop`: `Front`, `Pop`, then the listeners, which may call `Push` themselves:
      `during` is the event they are called for. `Asleep` is inside
      `pthread_cond_wait`, `Awake` is woken up and about to take the mutex again. */
  datatype Point<+T> =
    | Sending
    | PushEntry(item: T, during: Option<T>)
    | PushTest(item: T, during: Option<T>)
    | PushAsleep(item: T, during: Option<T>)
    | PushAwake(item: T, during: Option<T>)
    | PushInsert(item: T, during: Option<T>)
    | PushSignal(during: Option<T>)
    | PushLeave(during: Option<T>)
    | FrontEntry
    | FrontTest
    | FrontAsleep
    | FrontAwake
    | FrontRead
    | FrontLeave(item: T)
    | PopEntry(item: T)
    | PopTest(item: T)
    | PopRemove(item: T)
    | PopLeave(item: T)
    | Dispatch(item: T)
    | ReadEmpty
    | PopFalse

  /** Between taking and releasing the mutex. `Pop` returns false without releasing it. */
  predicate Critical<T>(p: Point<T>) {
    || p.PushTest? || p.PushInsert? || p.PushSignal? || p.PushLeave?
    || p.FrontTest? || p.FrontRead? || p.FrontLeave?
    || p.PopTest? || p.PopRemove? || p.PopLeave? || p.ReadEmpty? || p.PopFalse?
  }

  predicate Pushing<T>(p: Point<T>) {
    p.PushEntry? || p.PushTest? || p.PushAsleep? || p.PushAwake? || p.PushInsert? || p.PushSignal? || p.PushLeave?
  }

  /** An event is with its listeners. */
  predicate Handles<T>(p: Point<T>) {
    p.Dispatch? || (Pushing(p) && p.during.Some?)
  }

  function Handled<T>(p: Point<T>): T
    requires Handles(p)
  {
    if p.Dispatch? then p.item else p.during.value
  }

  /** Where `Push` was called from. */
  function Caller<T>(during: Option<T>): Point<T> {
    if during.Some? then Dispatch(during.value) else Sending
  }

  predicate Dispatches<T>(p: Point<T>) {
    || Handles(p) || p.FrontEntry? || p.FrontTest? || p.FrontAsleep? || p.FrontAwake? || p.FrontRead? || p.FrontLeave?
    || p.PopEntry? || p.PopTest? || p.PopRemove? || p.PopLeave? || p.ReadEmpty? || p.PopFalse?
  }

  /** The points no dispatcher should ever come to. */
  predicate Failed<T>(p: Point<T>) {
    p.ReadEmpty? || p.PopFalse?
  }

  /** The threads by number, the mutex, the queue, and what was pushed, popped and
      dispatched since the start. */
  datatype State<+T> = State(
    threads: map<nat, Point<T>>, owner: Option<nat>, queue: seq<T>,
    pushed: seq<T>, popped: seq<T>, dispatched: seq<T>)

  /** The threads, the bound of the queue, whether listeners send events, and whether
      `pthread_cond_wait` may return without a signal in `Push` and in `Front`. */
  datatype Config = Config(
    senders: set<nat>, dispatchers: set<nat>, bound: nat, listenersSend: bool, wakesPush: bool, wakesFront: bool)

  datatype Move<+T> = Send(thread: nat, item: T) | Step(thread: nat, waiter: nat) | Spurious(thread: nat)

  function Init<T>(cfg: Config): State<T> {
    State(map t | t in cfg.senders + cfg.dispatchers :: if t in cfg.dispatchers then FrontEntry else Sending,
          None, [], [], [], [])
  }

  // ---------- steps ----------

  function Goto<T>(s: State<T>, t: nat, p: Point<T>): State<T> {
    s.(threads := s.threads[t := p])
  }

  /** `pthread_mutex_lock`: possible when nobody holds the mutex. */
  function Lock<T>(s: State<T>, t: nat, p: Point<T>): Option<State<T>> {
    if s.owner.None? then Some(Goto(s, t, p).(owner := Some(t))) else None
  }

  /** `pthread_mutex_unlock`, also as part of `pthread_cond_wait`. */
  function Unlock<T>(s: State<T>, t: nat, p: Point<T>): State<T> {
    Goto(s, t, p).(owner := None)
  }

  predicate Asleep<T>(s: State<T>, t: nat) {
    t in s.threads && s.threads[t].FrontAsleep?
  }

  ghost predicate SomeAsleep<T>(s: State<T>) {
    exists t :: Asleep(s, t)
  }

  /** `pthread_cond_signal(&m_condEmpty)`: one waiting thread, if there is one. */
  ghost function Signal<T>(s: State<T>, t: nat, waiter: nat): Option<State<T>>
    requires t in s.threads && s.threads[t].PushSignal?
  {
    if Asleep(s, waiter) then Some(Goto(Goto(s, waiter, FrontAwake), t, PushLeave(s.threads[t].during)))
    else if SomeAsleep(s) then None
    else Some(Goto(s, t, PushLeave(s.threads[t].during)))
  }

  ghost function PushStep<T>(cfg: Config, s: State<T>, t: nat, waiter: nat): Option<State<T>>
    requires t in s.threads
  {
    match s.threads[t]
    case PushEntry(x, e) => Lock(s, t, PushTest(x, e))
    case PushTest(x, e) =>
      Some(if |s.queue| == cfg.bound then Unlock(s, t, PushAsleep(x, e)) else Goto(s, t, PushInsert(x, e)))
    case PushAwake(x, e) => Lock(s, t, PushTest(x, e))
    case PushInsert(x, e) => Some(Goto(s, t, PushSignal(e)).(queue := s.queue + [x], pushed := s.pushed + [x]))
    case PushSignal(_) => Signal(s, t, waiter)
    case PushLeave(e) => Some(Unlock(s, t, Caller(e)))
    case _ => None
  }

  function LoopStep<T>(s: State<T>, t: nat): Option<State<T>>
    requires t in s.threads
  {
    match s.threads[t]
    case FrontEntry => Lock(s, t, FrontTest)
    case FrontTest => Some(if s.queue == [] then Unlock(s, t, FrontAsleep) else Goto(s, t, FrontRead))
    case FrontAwake => Lock(s, t, FrontRead)
    case FrontRead => Some(Goto(s, t, if s.queue == [] then ReadEmpty else FrontLeave(s.queue[0])))
    case FrontLeave(x) => Some(Unlock(s, t, PopEntry(x)))
    case PopEntry(x) => Lock(s, t, PopTest(x))
    case PopTest(x) => Some(Goto(s, t, if s.queue == [] then PopFalse else PopRemove(x)))
    case PopRemove(x) =>
      if s.queue == [] then None
      else Some(Goto(s, t, PopLeave(x)).(queue := s.queue[1..], popped := s.popped + [s.queue[0]]))
    case PopLeave(x) => Some(Unlock(s, t, Dispatch(x)))
    case Dispatch(x) => Some(Goto(s, t, FrontEntry).(dispatched := s.dispatched + [x]))
    case _ => None
  }

  /** The state after a move, if it is possible. Nothing ever signals `m_condFull`. */
  ghost function Next<T>(cfg: Config, s: State<T>, m: Move<T>): Option<State<T>> {
    if m.thread !in s.threads then None
    else
      var p := s.threads[m.thread];
      match m
      case Send(t, x) =>
        if p.Sending? then Some(Goto(s, t, PushEntry(x, None)))
        else if p.Dispatch? && cfg.listenersSend then Some(Goto(s, t, PushEntry(x, Some(p.item))))
        else None
      case Step(t, waiter) => if Pushing(p) then PushStep(cfg, s, t, waiter) else LoopStep(s, t)
      case Spurious(t) =>
        if p.PushAsleep? && cfg.wakesPush then Some(Goto(s, t, PushAwake(p.item, p.during)))
        else if p.FrontAsleep? && cfg.wakesFront then Some(Goto(s, t, FrontAwake))
        else None
  }

  ghost function Run<T>(cfg: Config, moves: seq<Move<T>>): Option<State<T>> {
    if moves == [] then Some(Init(cfg))
    else
      var before := Run(cfg, moves[..|moves| - 1]);
      if before.None? then None else Next(cfg, before.value, moves[|moves| - 1])
  }

  ghost predicate Reachable<T(!new)>(cfg: Config, s: State<T>) {
    exists moves :: Run(cfg, moves) == Some(s)
  }

  // ---------- what one dispatcher guarantees ----------

  predicate MutexHeld<T>(s: State<T>) {
    && (forall t :: t in s.threads ==> (Critical(s.threads[t]) <==> s.owner == Some(t)))
    && (s.owner.Some? ==> s.owner.value in s.threads)
  }

  predicate OneDispatcher<T>(s: State<T>, d: nat) {
    forall t :: t in s.threads && Dispatches(s.threads[t]) ==> t == d
  }

  predicate SenderFits<T>(p: Point<T>, queue: seq<T>, bound: nat) {
    && (p.PushInsert? ==> |queue| < bound)
    && (p.PushSignal? ==> queue != [])
  }

  predicate SendersFit<T>(s: State<T>, bound: nat) {
    forall t :: t in s.threads ==> SenderFits(s.threads[t], s.queue, bound)
  }

  /** What the dispatcher knows about the queue at each point. */
  predicate DispatcherFits<T(==)>(p: Point<T>, s: State<T>) {
    && !Failed(p)
    && (p.FrontAwake? || p.FrontRead? ==> s.queue != [])
    && (p.FrontLeave? || p.PopEntry? || p.PopTest? || p.PopRemove? ==> s.queue != [] && s.queue[0] == p.item)
    && s.popped == s.dispatched + (if p.PopLeave? then [p.item] else if Handles(p) then [Handled(p)] else [])
    && (p.FrontAsleep? && s.queue != [] ==> SignalComing(s))
  }

  /** Some sender is about to signal `m_condEmpty`. */
  predicate SignalComing<T>(s: State<T>) {
    s.owner.Some? && s.owner.value in s.threads && s.threads[s.owner.value].PushSignal?
  }

  /** Nothing is lost, doubled or reordered, and the dispatcher is where the queue
      lets it be. */
  predicate InOrder<T(==)>(cfg: Config, s: State<T>, d: nat) {
    && s.pushed == s.popped + s.queue && |s.queue| <= cfg.bound
    && s.dispatched <= s.popped && |s.popped| <= |s.dispatched| + 1
    && (d in s.threads && Dispatches(s.threads[d]) ==> DispatcherFits(s.threads[d], s))
  }

  predicate Safe<T(==)>(cfg: Config, s: State<T>, d: nat) {
    MutexHeld(s) && OneDispatcher(s, d) && SendersFit(s, cfg.bound) && InOrder(cfg, s, d)
  }

  // Each kind of step keeps the mutex and the roles in order.

  lemma GotoKeepsMutex<T>(s: State<T>, t: nat, p: Point<T>, n: State<T>)
    requires MutexHeld(s) && t in s.threads && (Critical(p) <==> Critical(s.threads[t]))
    requires n.threads == s.threads[t := p] && n.owner == s.owner
    ensures MutexHeld(n)
  {
  }

  lemma LockKeepsMutex<T>(s: State<T>, t: nat, p: Point<T>)
    requires MutexHeld(s) && t in s.threads && Critical(p) && Lock(s, t, p).Some?
    ensures MutexHeld(Lock(s, t, p).value)
  {
  }

  lemma UnlockKeepsMutex<T>(s: State<T>, t: nat, p: Point<T>)
    requires MutexHeld(s) && t in s.threads && Critical(s.threads[t]) && !Critical(p)
    ensures MutexHeld(Unlock(s, t, p))
  {
  }

  lemma LoopKeepsMutex<T>(s: State<T>, t: nat)
    requires MutexHeld(s) && t in s.threads && LoopStep(s, t).Some?
    ensures MutexHeld(LoopStep(s, t).value)
  {
    hide MutexHeld;
    var p, n := s.threads[t], LoopStep(s, t).value;
    var q := n.threads[t];
    if p.FrontEntry? || p.FrontAwake? || p.PopEntry? {
      LockKeepsMutex(s, t, q);
    } else if q.FrontAsleep? || q.PopEntry? || q.Dispatch? {
      UnlockKeepsMutex(s, t, q);
    } else {
      GotoKeepsMutex(s, t, q, n);
    }
  }

  lemma PushKeepsMutex<T>(cfg: Config, s: State<T>, t: nat, waiter: nat)
    requires MutexHeld(s) && t in s.threads && PushStep(cfg, s, t, waiter).Some?
    ensures MutexHeld(PushStep(cfg, s, t, waiter).value)
  {
    hide MutexHeld;
    var p, n := s.threads[t], PushStep(cfg, s, t, waiter).value;
    var q := n.threads[t];
    if p.PushEntry? || p.PushAwake? {
      LockKeepsMutex(s, t, q);
    } else if q.PushAsleep? || p.PushLeave? {
      UnlockKeepsMutex(s, t, q);
    } else if p.PushSignal? && Asleep(s, waiter) {
      GotoKeepsMutex(s, waiter, FrontAwake, Goto(s, waiter, FrontAwake));
      GotoKeepsMutex(Goto(s, waiter, FrontAwake), t, q, n);
    } else {
      GotoKeepsMutex(s, t, q, n);
    }
  }

  lemma MutexKept<T>(cfg: Config, s: State<T>, m: Move<T>)
    requires MutexHeld(s) && Next(cfg, s, m).Some?
    ensures MutexHeld(Next(cfg, s, m).value)
  {
    hide MutexHeld, LoopStep, PushStep;
    var t := m.thread;
    if m.Step? && Pushing(s.threads[t]) {
      PushKeepsMutex(cfg, s, t, m.waiter);
    } else if m.Step? {
      LoopKeepsMutex(s, t);
    } else {
      GotoKeepsMutex(s, t, Next(cfg, s, m).value.threads[t], Next(cfg, s, m).value);
    }
  }

  lemma OwnerIs<T>(s: State<T>, t: nat)
    requires MutexHeld(s) && t in s.threads
    ensures Critical(s.threads[t]) <==> s.owner == Some(t)
  {
  }

  /** One thread's point changes, neither its role nor, unless it may, whose listeners send. */
  predicate Changes<T(==)>(cfg: Config, s: State<T>, t: nat, n: State<T>)
    requires t in s.threads
  {
    && t in n.threads && n.threads == s.threads[t := n.threads[t]]
    && (Dispatches(n.threads[t]) <==> Dispatches(s.threads[t]))
    && (Pushing(n.threads[t]) && n.threads[t].during.Some? ==>
          cfg.listenersSend || (Pushing(s.threads[t]) && s.threads[t].during.Some?))
  }

  lemma LoopChanges<T>(cfg: Config, s: State<T>, t: nat)
    requires t in s.threads && LoopStep(s, t).Some?
    ensures Changes(cfg, s, t, LoopStep(s, t).value)
  {
  }

  lemma PushChanges<T>(cfg: Config, s: State<T>, t: nat, waiter: nat)
    requires t in s.threads && PushStep(cfg, s, t, waiter).Some?
    ensures var n := PushStep(cfg, s, t, waiter).value;
            if s.threads[t].PushSignal? && Asleep(s, waiter) then Changes(cfg, Goto(s, waiter, FrontAwake), t, n)
            else Changes(cfg, s, t, n)
  {
    hide Signal;
    if s.threads[t].PushSignal? {
      SignalChanges(cfg, s, t, waiter);
    }
  }

  lemma SignalChanges<T>(cfg: Config, s: State<T>, t: nat, waiter: nat)
    requires t in s.threads && s.threads[t].PushSignal? && Signal(s, t, waiter).Some?
    ensures var n := Signal(s, t, waiter).value;
            Changes(cfg, if Asleep(s, waiter) then Goto(s, waiter, FrontAwake) else s, t, n)
  {
  }

  /** A move changes the point of its own thread and, when it signals, that of the
      thread it wakes up. */
  lemma OneMoves<T>(cfg: Config, s: State<T>, m: Move<T>)
    requires Next(cfg, s, m).Some?
    ensures var t, n := m.thread, Next(cfg, s, m).value;
            && t in s.threads
            && (Changes(cfg, s, t, n) || (m.Step? && Asleep(s, m.waiter) && s.threads[t].PushSignal? &&
                                          Changes(cfg, Goto(s, m.waiter, FrontAwake), t, n)))
  {
    hide LoopStep, PushStep, Changes;
    var t := m.thread;
    if m.Step? && Pushing(s.threads[t]) {
      PushChanges(cfg, s, t, m.waiter);
    } else if m.Step? {
      LoopChanges(cfg, s, t);
    } else {
      OtherChanges(cfg, s, m);
    }
  }

  lemma OtherChanges<T>(cfg: Config, s: State<T>, m: Move<T>)
    requires Next(cfg, s, m).Some? && !m.Step?
    ensures m.thread in s.threads && Changes(cfg, s, m.thread, Next(cfg, s, m).value)
  {
    hide LoopStep, PushStep;
  }

  lemma RolesKept<T>(cfg: Config, s: State<T>, m: Move<T>, d: nat)
    requires OneDispatcher(s, d) && Next(cfg, s, m).Some?
    ensures OneDispatcher(Next(cfg, s, m).value, d)
  {
    hide OneDispatcher;
    var t := m.thread;
    var n := Next(cfg, s, m).value;
    if m.Step? && s.threads[t].PushSignal? && Asleep(s, m.waiter) {
      GotoKeepsRole(s, m.waiter, FrontAwake, Goto(s, m.waiter, FrontAwake), d);
      GotoKeepsRole(Goto(s, m.waiter, FrontAwake), t, n.threads[t], n, d);
    } else {
      GotoKeepsRole(s, t, n.threads[t], n, d);
    }
  }

  lemma GotoKeepsRole<T>(s: State<T>, t: nat, p: Point<T>, n: State<T>, d: nat)
    requires OneDispatcher(s, d) && t in s.threads && (Dispatches(p) ==> Dispatches(s.threads[t]))
    requires n.threads == s.threads[t := p]
    ensures OneDispatcher(n, d)
  {
  }

  // The senders.

  lemma FitGoto<T>(s: State<T>, t: nat, p: Point<T>, n: State<T>, bound: nat)
    requires SendersFit(s, bound) && SenderFits(p, s.queue, bound)
    requires n.threads == s.threads[t := p] && n.queue == s.queue
    ensures SendersFit(n, bound)
  {
  }

  /** Whoever holds the mutex may change the queue. */
  lemma FitAlone<T>(s: State<T>, t: nat, p: Point<T>, n: State<T>, bound: nat)
    requires MutexHeld(s) && SendersFit(s, bound) && s.owner == Some(t) && SenderFits(p, n.queue, bound)
    requires n.threads == s.threads[t := p]
    ensures SendersFit(n, bound)
  {
  }

  lemma SendersKept<T>(cfg: Config, s: State<T>, m: Move<T>)
    requires MutexHeld(s) && SendersFit(s, cfg.bound) && |s.queue| <= cfg.bound && Next(cfg, s, m).Some?
    ensures SendersFit(Next(cfg, s, m).value, cfg.bound)
  {
    hide MutexHeld, SendersFit;
    var t := m.thread;
    var n := Next(cfg, s, m).value;
    OwnerIs(s, t);
    if Critical(s.threads[t]) && n.threads == s.threads[t := n.threads[t]] {
      FitAlone(s, t, n.threads[t], n, cfg.bound);
    } else if m.Step? && s.threads[t].PushSignal? {
      FitGoto(s, m.waiter, FrontAwake, Goto(s, m.waiter, FrontAwake), cfg.bound);
      FitGoto(Goto(s, m.waiter, FrontAwake), t, n.threads[t], n, cfg.bound);
    } else {
      FitGoto(s, t, n.threads[t], n, cfg.bound);
    }
  }

  // The dispatcher.

  /** A step of another thread leaves the dispatcher's knowledge intact. */
  lemma Undisturbed<T>(cfg: Config, s: State<T>, n: State<T>, d: nat)
    requires InOrder(cfg, s, d) && |n.queue| <= cfg.bound
    requires n.popped == s.popped && n.dispatched == s.dispatched && n.pushed == n.popped + n.queue
    requires s.queue <= n.queue
    requires d in n.threads && Dispatches(n.threads[d]) ==> d in s.threads && n.threads[d] == s.threads[d]
    requires SignalComing(s) || s.queue != n.queue ==> SignalComing(n)
    ensures InOrder(cfg, n, d)
  {
  }

  lemma SendKeepsOrder<T>(cfg: Config, s: State<T>, m: Move<T>, d: nat)
    requires Safe(cfg, s, d) && Next(cfg, s, m).Some? && !Dispatches(s.threads[m.thread])
    requires !(m.Step? && s.threads[m.thread].PushSignal?)
    ensures InOrder(cfg, Next(cfg, s, m).value, d)
  {
    hide MutexHeld, OneDispatcher, SendersFit, InOrder;
    var t := m.thread;
    var n := Next(cfg, s, m).value;
    OwnerIs(s, t);
    Ledger(cfg, s, d);
    assert SenderFits(s.threads[t], s.queue, cfg.bound) by {
      FitsAt(s, t, cfg.bound);
    }
    assert SignalComing(s) ==> SignalComing(n);
    Undisturbed(cfg, s, n, d);
  }

  lemma FitsAt<T>(s: State<T>, t: nat, bound: nat)
    requires SendersFit(s, bound) && t in s.threads
    ensures SenderFits(s.threads[t], s.queue, bound)
  {
  }

  lemma Ledger<T>(cfg: Config, s: State<T>, d: nat)
    requires InOrder(cfg, s, d)
    ensures s.pushed == s.popped + s.queue && |s.queue| <= cfg.bound
  {
  }

  lemma SignalKeepsOrder<T>(cfg: Config, s: State<T>, m: Move<T>, d: nat)
    requires Safe(cfg, s, d) && Next(cfg, s, m).Some? && m.Step? && s.threads[m.thread].PushSignal?
    ensures InOrder(cfg, Next(cfg, s, m).value, d)
  {
    hide MutexHeld, SendersFit;
    FitsAt(s, m.thread, cfg.bound);
    if d in s.threads && s.threads[d].FrontAsleep? {
      assert Asleep(s, d);
    }
  }

  /** A listener's own `Push`. */
  lemma OwnPushKeepsOrder<T>(cfg: Config, s: State<T>, m: Move<T>)
    requires InOrder(cfg, s, m.thread) && Next(cfg, s, m).Some? && Dispatches(s.threads[m.thread])
    requires m.Step? ==> Pushing(s.threads[m.thread]) && !s.threads[m.thread].PushSignal?
    requires SendersFit(s, cfg.bound) && !cfg.wakesFront
    ensures InOrder(cfg, Next(cfg, s, m).value, m.thread)
  {
    FitsAt(s, m.thread, cfg.bound);
  }

  lemma LoopKeepsOrder<T>(cfg: Config, s: State<T>, d: nat)
    requires InOrder(cfg, s, d) && d in s.threads && Dispatches(s.threads[d]) && LoopStep(s, d).Some?
    ensures InOrder(cfg, LoopStep(s, d).value, d)
  {
    hide InOrder, LoopStep;
    var p := s.threads[d];
    if p.FrontEntry? || p.FrontTest? || p.FrontAwake? || p.FrontRead? {
      FrontKeepsOrder(cfg, s, d);
    } else if p.PopRemove? {
      RemoveKeepsOrder(cfg, s, d);
    } else {
      PopKeepsOrder(cfg, s, d);
    }
  }

  lemma FrontKeepsOrder<T>(cfg: Config, s: State<T>, d: nat)
    requires InOrder(cfg, s, d) && d in s.threads && LoopStep(s, d).Some?
    requires s.threads[d].FrontEntry? || s.threads[d].FrontTest? || s.threads[d].FrontAwake? || s.threads[d].FrontRead?
    ensures InOrder(cfg, LoopStep(s, d).value, d)
  {
  }

  lemma PopKeepsOrder<T>(cfg: Config, s: State<T>, d: nat)
    requires InOrder(cfg, s, d) && d in s.threads && LoopStep(s, d).Some?
    requires !s.threads[d].FrontEntry? && !s.threads[d].FrontTest? && !s.threads[d].FrontAwake?
    requires !s.threads[d].FrontRead? && !s.threads[d].PopRemove?
    ensures InOrder(cfg, LoopStep(s, d).value, d)
  {
  }

  lemma RemoveKeepsOrder<T>(cfg: Config, s: State<T>, d: nat)
    requires InOrder(cfg, s, d) && d in s.threads && s.threads[d].PopRemove? && LoopStep(s, d).Some?
    ensures InOrder(cfg, LoopStep(s, d).value, d)
  {
  }

  lemma StepSafe<T>(cfg: Config, s: State<T>, m: Move<T>, d: nat)
    requires Safe(cfg, s, d) && !cfg.wakesFront && Next(cfg, s, m).Some?
    ensures Safe(cfg, Next(cfg, s, m).value, d)
  {
    MutexKept(cfg, s, m);
    RolesKept(cfg, s, m, d);
    SendersKept(cfg, s, m);
    if m.Step? && s.threads[m.thread].PushSignal? {
      SignalKeepsOrder(cfg, s, m, d);
    } else if !Dispatches(s.threads[m.thread]) {
      SendKeepsOrder(cfg, s, m, d);
    } else if m.Step? && !Pushing(s.threads[m.thread]) {
      LoopKeepsOrder(cfg, s, m.thread);
    } else {
      OwnPushKeepsOrder(cfg, s, m);
    }
  }

  lemma {:induction false} AlwaysSafe<T>(cfg: Config, moves: seq<Move<T>>, d: nat)
    requires cfg.dispatchers <= {d} && !cfg.wakesFront && Run(cfg, moves).Some?
    ensures Safe(cfg, Run(cfg, moves).value, d)
  {
    if moves != [] {
      hide Safe, Next;
      var before := moves[..|moves| - 1];
      AlwaysSafe(cfg, before, d);
      StepSafe(cfg, Run(cfg, before).value, moves[|moves| - 1], d);
    }
  }

  /** With one dispatcher and no wakeup of it without a signal, in every state that
      any interleaving can reach: events leave the queue in the order they entered it
      and none is lost, the bound holds, `Front` never reads an empty queue, `Pop`
      never finds one and removes what `Front` returned, and a sleeping dispatcher
      with work to do has a signal coming. */
  lemma OneDispatcherIsSafe<T>(cfg: Config, moves: seq<Move<T>>, d: nat)
    requires cfg.dispatchers <= {d} && !cfg.wakesFront && Run(cfg, moves).Some?
    ensures var s := Run(cfg, moves).value;
            && s.pushed == s.popped + s.queue && |s.queue| <= cfg.bound
            && s.dispatched <= s.popped && |s.popped| <= |s.dispatched| + 1
            && (forall t :: t in s.threads ==> !Failed(s.threads[t]))
            && (forall t :: t in s.threads && s.threads[t].PopRemove? ==>
                  s.queue != [] && s.queue[0] == s.threads[t].item)
            && (Asleep(s, d) && s.queue != [] ==> SignalComing(s))
  {
    AlwaysSafe(cfg, moves, d);
    hide MutexHeld, SendersFit, Run;
  }

  // ---------- when no dispatcher can fail ----------

  ghost predicate NeverFails<T(!new)>(cfg: Config) {
    forall s: State<T> :: Reachable(cfg, s) ==> NoneFailed(s)
  }

  predicate NoneFailed<T>(s: State<T>) {
    forall t :: t in s.threads ==> !Failed(s.threads[t])
  }

  lemma Advance<T(!new)>(cfg: Config, s: State<T>, m: Move<T>)
    requires Reachable(cfg, s) && Next(cfg, s, m).Some?
    ensures Reachable(cfg, Next(cfg, s, m).value)
  {
    var moves :| Run(cfg, moves) == Some(s);
    hide Next;
    assert (moves + [m])[..|moves + [m]| - 1] == moves;
    assert (moves + [m])[|moves + [m]| - 1] == m;
    assert Run(cfg, moves + [m]) == Next(cfg, s, m);
  }

  lemma InitReachable<T(!new)>(cfg: Config)
    ensures Reachable<T>(cfg, Init(cfg))
  {
    assert Run<T>(cfg, []) == Some(Init(cfg));
  }

  lemma FallsAsleep<T(!new)>(cfg: Config, s: State<T>, d: nat)
    requires Reachable(cfg, s) && d in s.threads && s.threads[d].FrontEntry? && s.owner.None? && s.queue == []
    ensures Reachable(cfg, Goto(s, d, FrontAsleep))
  {
    hide Reachable;
    var s1 := Goto(s, d, FrontTest).(owner := Some(d));
    Advance(cfg, s, Step(d, d));
    Advance(cfg, s1, Step(d, d));
    assert s.threads[d := FrontTest][d := FrontAsleep] == s.threads[d := FrontAsleep];
  }

  lemma ReadsEmpty<T(!new)>(cfg: Config, s: State<T>, d: nat)
    requires Reachable(cfg, s) && d in s.threads && s.threads[d].FrontAwake? && s.owner.None? && s.queue == []
    ensures !NeverFails<T>(cfg)
  {
    hide Reachable;
    var s1 := Goto(s, d, FrontRead).(owner := Some(d));
    Advance(cfg, s, Step(d, d));
    Advance(cfg, s1, Step(d, d));
    var n := Next(cfg, s1, Step(d, d)).value;
    assert d in n.threads && Failed(n.threads[d]);
    assert !NoneFailed(n);
  }

  lemma Moves<T(!new)>(cfg: Config, s: State<T>, m: Move<T>, n: State<T>)
    requires Reachable(cfg, s) && Next(cfg, s, m).Some?
    requires Next(cfg, s, m).value.threads == n.threads
    requires Next(cfg, s, m).value == n.(threads := Next(cfg, s, m).value.threads)
    ensures Reachable(cfg, n)
  {
    hide Reachable;
    Advance(cfg, s, m);
  }

  /** The thread is about to send, as a sender or in a listener of an event. */
  predicate MaySend<T(==)>(cfg: Config, s: State<T>, p: nat, during: Option<T>) {
    p in s.threads && s.threads[p] == Caller(during) && (during.Some? ==> cfg.listenersSend)
  }

  /** `Push` by `p`, up to the insertion. */
  lemma Inserts<T(!new)>(cfg: Config, s: State<T>, p: nat, e: Option<T>, x: T)
    requires Reachable(cfg, s) && s.owner.None? && |s.queue| < cfg.bound && MaySend(cfg, s, p, e)
    ensures Reachable(cfg, Goto(s, p, PushSignal(e)).(owner := Some(p), queue := s.queue + [x], pushed := s.pushed + [x]))
  {
    hide Reachable;
    var s1 := Goto(s, p, PushEntry(x, e));
    var s2 := Goto(s, p, PushTest(x, e)).(owner := Some(p));
    var s3 := Goto(s, p, PushInsert(x, e)).(owner := Some(p));
    var s4 := Goto(s, p, PushSignal(e)).(owner := Some(p), queue := s.queue + [x], pushed := s.pushed + [x]);
    Moves(cfg, s, Send(p, x), s1);
    Moves(cfg, s1, Step(p, p), s2);
    Moves(cfg, s2, Step(p, p), s3);
    Moves(cfg, s3, Step(p, p), s4);
  }

  /** The rest of `Push`: the signal wakes `w`. */
  lemma Wakes<T(!new)>(cfg: Config, s: State<T>, p: nat, w: nat)
    requires Reachable(cfg, s) && p in s.threads && s.threads[p] == PushSignal(None) && Asleep(s, w)
    ensures Reachable(cfg, Unlock(Goto(s, w, FrontAwake), p, Sending))
  {
    hide Reachable;
    var s1 := Goto(Goto(s, w, FrontAwake), p, PushLeave(None));
    Moves(cfg, s, Step(p, w), s1);
    Moves(cfg, s1, Step(p, w), Unlock(Goto(s, w, FrontAwake), p, Sending));
  }

  lemma FrontStarts<T(!new)>(cfg: Config, s: State<T>, d: nat)
    requires Reachable(cfg, s) && s.owner.None? && s.queue != [] && d in s.threads && s.threads[d].FrontEntry?
    ensures Reachable(cfg, Goto(s, d, FrontRead).(owner := Some(d)))
  {
    hide Reachable;
    Moves(cfg, s, Step(d, d), Goto(s, d, FrontTest).(owner := Some(d)));
    Moves(cfg, Goto(s, d, FrontTest).(owner := Some(d)), Step(d, d), Goto(s, d, FrontRead).(owner := Some(d)));
  }

  lemma FrontEnds<T(!new)>(cfg: Config, s: State<T>, d: nat)
    requires Reachable(cfg, s) && s.queue != [] && d in s.threads && s.threads[d].FrontRead?
    ensures Reachable(cfg, Unlock(s, d, PopEntry(s.queue[0])))
  {
    hide Reachable;
    Moves(cfg, s, Step(d, d), Goto(s, d, FrontLeave(s.queue[0])));
    Moves(cfg, Goto(s, d, FrontLeave(s.queue[0])), Step(d, d), Unlock(s, d, PopEntry(s.queue[0])));
  }

  /** `Front` by a dispatcher that finds the queue filled. */
  lemma Fronts<T(!new)>(cfg: Config, s: State<T>, d: nat)
    requires Reachable(cfg, s) && s.owner.None? && s.queue != [] && d in s.threads && s.threads[d].FrontEntry?
    ensures Reachable(cfg, Goto(s, d, PopEntry(s.queue[0])))
  {
    hide Reachable, Next;
    FrontStarts(cfg, s, d);
    FrontEnds(cfg, Goto(s, d, FrontRead).(owner := Some(d)), d);
    assert s.threads[d := FrontRead][d := PopEntry(s.queue[0])] == s.threads[d := PopEntry(s.queue[0])];
  }

  lemma PopStarts<T(!new)>(cfg: Config, s: State<T>, d: nat)
    requires Reachable(cfg, s) && s.owner.None? && s.queue != [] && d in s.threads && s.threads[d].PopEntry?
    ensures Reachable(cfg, Goto(s, d, PopRemove(s.threads[d].item)).(owner := Some(d)))
  {
    hide Reachable;
    var x := s.threads[d].item;
    Moves(cfg, s, Step(d, d), Goto(s, d, PopTest(x)).(owner := Some(d)));
    Moves(cfg, Goto(s, d, PopTest(x)).(owner := Some(d)), Step(d, d), Goto(s, d, PopRemove(x)).(owner := Some(d)));
  }

  lemma PopEnds<T(!new)>(cfg: Config, s: State<T>, d: nat)
    requires Reachable(cfg, s) && s.queue != [] && d in s.threads && s.threads[d].PopRemove?
    ensures Reachable(cfg, Unlock(s, d, Dispatch(s.threads[d].item)).(
                             queue := s.queue[1..], popped := s.popped + [s.queue[0]]))
  {
    hide Reachable;
    var x := s.threads[d].item;
    var s1 := Goto(s, d, PopLeave(x)).(queue := s.queue[1..], popped := s.popped + [s.queue[0]]);
    Moves(cfg, s, Step(d, d), s1);
    Moves(cfg, s1, Step(d, d),
          Unlock(s, d, Dispatch(x)).(queue := s.queue[1..], popped := s.popped + [s.queue[0]]));
  }

  lemma Pops<T(!new)>(cfg: Config, s: State<T>, d: nat)
    requires Reachable(cfg, s) && s.owner.None? && s.queue != [] && d in s.threads && s.threads[d].PopEntry?
    ensures Reachable(cfg, Goto(s, d, Dispatch(s.threads[d].item)).(
                             queue := s.queue[1..], popped := s.popped + [s.queue[0]]))
  {
    hide Reachable, Next;
    var x := s.threads[d].item;
    PopStarts(cfg, s, d);
    PopEnds(cfg, Goto(s, d, PopRemove(x)).(owner := Some(d)), d);
    assert s.threads[d := PopRemove(x)][d := Dispatch(x)] == s.threads[d := Dispatch(x)];
  }

  /** A dispatcher woken without a signal reads the empty queue. */
  lemma SpuriousWakeupFails<T(!new)>(cfg: Config, d: nat)
    requires cfg.wakesFront && d in cfg.dispatchers
    ensures !NeverFails<T>(cfg)
  {
    hide Reachable;
    var s: State<T> := Init(cfg);
    InitReachable<T>(cfg);
    FallsAsleep(cfg, s, d);
    var s1 := Goto(s, d, FrontAsleep);
    var s2 := Goto(s, d, FrontAwake);
    Moves(cfg, s1, Spurious(d), s2);
    ReadsEmpty(cfg, s2, d);
  }

  /** With two dispatchers, one can take the event the other was woken up for. */
  lemma TwoDispatchersFail<T(!new)>(cfg: Config, d: nat, e: nat, p: nat, x: T)
    requires d in cfg.dispatchers && e in cfg.dispatchers && d != e
    requires p in cfg.senders && p !in cfg.dispatchers && cfg.bound > 0
    ensures !NeverFails<T>(cfg)
  {
    hide Reachable;
    var s: State<T> := Init(cfg);
    InitReachable<T>(cfg);
    FallsAsleep(cfg, s, d);
    var s1 := Goto(s, d, FrontAsleep);
    Inserts(cfg, s1, p, None, x);
    assert s1.queue + [x] == [x] && s1.pushed + [x] == [x];
    var s2 := Goto(s1, p, PushSignal(None)).(owner := Some(p), queue := [x], pushed := [x]);
    Wakes(cfg, s2, p, d);
    var s3 := Unlock(Goto(s2, d, FrontAwake), p, Sending);
    Fronts(cfg, s3, e);
    var s4 := Goto(s3, e, PopEntry(x));
    Pops(cfg, s4, e);
    assert s4.queue[1..] == [] && s4.popped + [x] == [x];
    var s5 := Goto(s4, e, Dispatch(x)).(queue := [], popped := [x]);
    ReadsEmpty(cfg, s5, d);
  }

  /** Without anybody who can push, nothing happens: every dispatcher goes to sleep, or
      is woken without a signal and finds nothing. */
  predicate Quiet<T>(cfg: Config, s: State<T>) {
    s.queue == [] && forall t :: t in s.threads ==> QuietAt(cfg, s.threads[t])
  }

  predicate QuietAt<T>(cfg: Config, p: Point<T>) {
    || p.FrontEntry? || p.FrontTest? || p.FrontAsleep?
    || (cfg.wakesFront && (p.FrontAwake? || p.FrontRead? || p.ReadEmpty?))
    || (cfg.bound == 0 && (p.Sending? ||
        ((p.PushEntry? || p.PushTest? || p.PushAsleep? || p.PushAwake?) && p.during.None?)))
  }

  lemma {:induction false} StaysQuiet<T>(cfg: Config, moves: seq<Move<T>>)
    requires (cfg.senders <= cfg.dispatchers || cfg.bound == 0) && Run(cfg, moves).Some?
    ensures Quiet(cfg, Run(cfg, moves).value)
  {
    if moves != [] {
      hide Next;
      StaysQuiet(cfg, moves[..|moves| - 1]);
      QuietStep(cfg, Run(cfg, moves[..|moves| - 1]).value, moves[|moves| - 1]);
    }
  }

  lemma QuietStep<T>(cfg: Config, s: State<T>, m: Move<T>)
    requires Quiet(cfg, s) && Next(cfg, s, m).Some?
    ensures Quiet(cfg, Next(cfg, s, m).value)
  {
  }

  /** Without dispatchers there is none that could fail. */
  lemma {:induction false} NoneDispatch<T>(cfg: Config, moves: seq<Move<T>>, d: nat)
    requires cfg.dispatchers == {} && Run(cfg, moves).Some?
    ensures OneDispatcher(Run(cfg, moves).value, d)
  {
    if moves != [] {
      hide Next, OneDispatcher;
      NoneDispatch(cfg, moves[..|moves| - 1], d);
      RolesKept(cfg, Run(cfg, moves[..|moves| - 1]).value, moves[|moves| - 1], d);
    }
  }

  /** Whether the configuration rules out every failure. */
  predicate Sound(cfg: Config) {
    || cfg.dispatchers == {}
    || (!cfg.wakesFront && (|cfg.dispatchers| == 1 || cfg.senders <= cfg.dispatchers || cfg.bound == 0))
  }

  lemma SoundRun<T>(cfg: Config, moves: seq<Move<T>>)
    requires Sound(cfg) && Run(cfg, moves).Some?
    ensures NoneFailed(Run(cfg, moves).value)
  {
    hide Run;
    if cfg.dispatchers == {} {
      NoneDispatch(cfg, moves, 0);
      NoneDispatch(cfg, moves, 1);
    } else if |cfg.dispatchers| == 1 {
      var d :| d in cfg.dispatchers;
      assert |cfg.dispatchers - {d}| == 0;
      assert cfg.dispatchers <= {d};
      OneDispatcherIsSafe(cfg, moves, d);
    } else {
      StaysQuiet(cfg, moves);
    }
  }

  /** Exactly when no interleaving makes `Front` read an empty queue or `Pop` find one:
      one dispatcher that is woken by signals only, or nobody who could push. */
  lemma NeverFailsIff<T(!new)>(cfg: Config, x: T)
    ensures NeverFails<T>(cfg) <==> Sound(cfg)
  {
    if Sound(cfg) {
      forall s: State<T> | Reachable(cfg, s) ensures NoneFailed(s) {
        var moves :| Run(cfg, moves) == Some(s);
        SoundRun(cfg, moves);
      }
    } else {
      var d :| d in cfg.dispatchers;
      if cfg.wakesFront {
        SpuriousWakeupFails<T>(cfg, d);
      } else {
        var p :| p in cfg.senders && p !in cfg.dispatchers;
        assert cfg.dispatchers != {d};
        var e :| e in cfg.dispatchers && e != d;
        TwoDispatchersFail(cfg, d, e, p, x);
      }
    }
  }
}
