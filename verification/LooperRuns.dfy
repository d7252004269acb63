/** The looper among other threads: the steps of the queue, of the dispatch loop and
    of the threads that register and unregister listeners, in any interleaving. */
module LooperRuns {
  import opened Optional
  import opened MutexQueue
  import opened EventLooper

  /** The loop over the listeners for one event: the next index and the size it read. */
  datatype Scan = Scan(next: nat, size: nat)

  /** `entered` are the calls that found `m_InLoop` false and have yet to change the
      list, `made` those that have done so, `log` the calls of `onEvent`, and `threw`
      says that the loop met an index behind the end of the list. */
  datatype Looper = Looper(
    queue: State<Event>, list: seq<Listener>, inLoop: bool, entered: seq<Call>, made: seq<Call>,
    scan: Option<Scan>, log: seq<Delivery>, threw: bool)

  datatype Action =
    | Queue(move: Move<Event>)
    | Enter(call: Call)
    | Change(k: nat)
    | Begin
    | Look
    | Visit
    | Finish

  function Start(cfg: Config): Looper {
    Looper(Init(cfg), [], false, [], [], None, [], false)
  }

  /** An event is with its listeners. */
  predicate Dispatching(q: State<Event>, d: nat) {
    d in q.threads && Handles(q.threads[d])
  }

  /** The loop is between two calls of listeners, or in one that is not sending. */
  predicate InTurn(s: Looper, d: nat) {
    s.inLoop && !s.threw && d in s.queue.threads && s.queue.threads[d].Dispatch?
  }

  /** The state after an action, if it is possible; `d` is the thread of the loop. The
      test of `m_InLoop` and the change of the list are two steps, since no lock is
      held between them; a call changes the list under the list's own lock, which the
      loop does not take. Once the loop has called a listener, that may send events. */
  ghost function Act(cfg: Config, d: nat, s: Looper, a: Action): Option<Looper> {
    match a
    case Queue(m) =>
      if m.thread == d && (!s.inLoop || s.threw || (InTurn(s, d) && !(m.Send? && HasCalled(s)))) then None
      else
        var q := Next(cfg, s.queue, m);
        if q.None? then None else Some(s.(queue := q.value))
    case Enter(c) => Some(if s.inLoop || !Legal(c) then s else s.(entered := s.entered + [c]))
    case Change(k) =>
      if k >= |s.entered| then None
      else
        var c := s.entered[k];
        Some(s.(list := Apply(s.list, c), made := s.made + [c], entered := s.entered[..k] + s.entered[k + 1..]))
    case Begin => if s.inLoop then None else Some(s.(inLoop := true))
    case Look =>
      if InTurn(s, d) && s.scan.None? then Some(s.(scan := Some(Scan(0, |s.list|)))) else None
    case Visit =>
      if !InTurn(s, d) || s.scan.None? || s.scan.value.next >= s.scan.value.size then None
      else if s.scan.value.next < |s.list| then Some(Visited(s, s.scan.value, s.queue.threads[d].item))
      else Some(s.(threw := true))
    case Finish =>
      if InTurn(s, d) && s.scan.Some? && s.scan.value.next == s.scan.value.size
      then Some(s.(queue := LoopStep(s.queue, d).value, scan := None)) else None
  }

  predicate HasCalled(s: Looper) {
    s.scan.Some? && s.scan.value.next > 0
  }

  /** Between two calls the loop's thread sends exactly when listeners may and the first
      of them has been called. */
  lemma ListenersSend(cfg: Config, d: nat, s: Looper, e: Event)
    requires InTurn(s, d)
    ensures Act(cfg, d, s, Queue(Send(d, e))).Some? <==>
            cfg.listenersSend && s.scan.Some? && s.scan.value.next >= 1
  {
  }

  /** One turn of the loop over the listeners. */
  function Visited(s: Looper, scan: Scan, e: Event): Looper
    requires scan.next < |s.list|
  {
    s.(log := s.log + Deliveries([s.list[scan.next]], e), scan := Some(Scan(scan.next + 1, scan.size)))
  }

  ghost function RunFrom(cfg: Config, d: nat, s: Looper, actions: seq<Action>): Option<Looper>
    decreases actions
  {
    if actions == [] then Some(s)
    else
      var n := Act(cfg, d, s, actions[0]);
      if n.None? then None else RunFrom(cfg, d, n.value, actions[1..])
  }

  // ---------- what every run keeps ----------

  /** The thread of the loop waits for `Begin`. */
  predicate Waiting(s: Looper, d: nat) {
    && s.log == [] && s.scan.None? && s.queue.dispatched == [] && !s.threw
    && (d in s.queue.threads && Dispatches(s.queue.threads[d]) ==> s.queue.threads[d].FrontEntry?)
  }

  predicate Sane(cfg: Config, d: nat, s: Looper) {
    Safe(cfg, s.queue, d) && s.list == After(s.made) && (!s.inLoop ==> Waiting(s, d))
  }

  lemma QueueKeepsWaiting(cfg: Config, d: nat, q: State<Event>, m: Move<Event>)
    requires m.thread != d && OneDispatcher(q, d) && Next(cfg, q, m).Some?
    ensures Next(cfg, q, m).value.dispatched == q.dispatched
    ensures d in q.threads && !q.threads[d].FrontAsleep? ==>
              d in Next(cfg, q, m).value.threads && Next(cfg, q, m).value.threads[d] == q.threads[d]
    ensures d !in q.threads ==> d !in Next(cfg, q, m).value.threads
  {
  }

  lemma ActKeepsSane(cfg: Config, d: nat, s: Looper, a: Action)
    requires Sane(cfg, d, s) && !cfg.wakesFront && Act(cfg, d, s, a).Some?
    ensures Sane(cfg, d, Act(cfg, d, s, a).value)
  {
    hide Safe, Next, LoopStep, After, OneDispatcher;
    match a {
      case Queue(m) =>
        StepSafe(cfg, s.queue, m, d);
        if !s.inLoop {
          SafeRoles(cfg, s.queue, d);
          QueueKeepsWaiting(cfg, d, s.queue, m);
        }
      case Change(k) =>
        AfterNext(s.made, s.entered[k]);
      case Finish =>
        FinishIsStep(cfg, s.queue, d);
        StepSafe(cfg, s.queue, Step(d, d), d);
      case _ =>
    }
  }

  lemma SafeRoles(cfg: Config, q: State<Event>, d: nat)
    requires Safe(cfg, q, d)
    ensures OneDispatcher(q, d)
  {
  }

  lemma AfterNext(calls: seq<Call>, c: Call)
    ensures After(calls + [c]) == Apply(After(calls), c)
  {
    assert (calls + [c])[..|calls|] == calls;
  }

  lemma FinishIsStep(cfg: Config, q: State<Event>, d: nat)
    requires d in q.threads && q.threads[d].Dispatch?
    ensures Next(cfg, q, Step(d, d)) == LoopStep(q, d) && LoopStep(q, d).Some?
    ensures LoopStep(q, d).value.dispatched == q.dispatched + [q.threads[d].item]
  {
  }

  // ---------- the list while the loop runs ----------

  /** Of the calls that got past the test of `m_InLoop`, each registration asks for a
      listener that is there and each removal for one that is not. */
  ghost predicate Harmless(s: Looper) {
    forall c :: c in s.entered && Legal(c) ==> (Registered(s.list, TripleOf(ListenerOf(c))) <==> c.Register?)
  }

  lemma {:induction false} WithoutIs(list: seq<Listener>, k: Triple)
    ensures |Without(list, k)| == if Registered(list, k) then |list| - 1 else |list|
    ensures !Registered(list, k) ==> Without(list, k) == list
  {
    if list != [] && TripleOf(list[0]) != k {
      WithoutIs(list[1..], k);
      assert [list[0]] + list[1..] == list;
    }
  }

  /** A call that changes nothing. */
  lemma IdleCall(list: seq<Listener>, c: Call)
    ensures Apply(list, c) == list <==> (Legal(c) ==> (Registered(list, TripleOf(ListenerOf(c))) <==> c.Register?))
  {
    hide Without, Registered;
    if Legal(c) {
      WithoutIs(list, TripleOf(ListenerOf(c)));
    }
  }

  /** What the event being dispatched has delivered so far. */
  function Partial(s: Looper, d: nat): seq<Delivery> {
    if s.scan.Some? && Dispatching(s.queue, d) && s.scan.value.next <= |s.list|
    then Deliveries(s.list[..s.scan.value.next], Handled(s.queue.threads[d])) else []
  }

  predicate LogFits(s: Looper, d: nat) {
    && !s.threw && (s.scan.Some? ==> Dispatching(s.queue, d) && s.scan.value.next <= s.scan.value.size == |s.list|)
    && s.log == Log(s.list, s.queue.dispatched) + Partial(s, d)
  }

  ghost predicate Looping(cfg: Config, d: nat, s: Looper) {
    Sane(cfg, d, s) && s.inLoop && Harmless(s) && LogFits(s, d)
  }

  lemma ActKeepsList(cfg: Config, d: nat, s: Looper, a: Action)
    requires s.inLoop && Harmless(s) && Act(cfg, d, s, a).Some?
    ensures var n := Act(cfg, d, s, a).value; n.inLoop && n.list == s.list && Harmless(n)
  {
    hide Next, LoopStep, Apply, Visited, Registered;
    if a.Visit? && s.scan.value.next < |s.list| {
      VisitedKeeps(s, s.scan.value, s.queue.threads[d].item);
    } else if a.Change? {
      IdleCall(s.list, s.entered[a.k]);
    }
  }

  lemma VisitedKeeps(s: Looper, scan: Scan, e: Event)
    requires scan.next < |s.list|
    ensures var n := Visited(s, scan, e);
            n.list == s.list && n.queue == s.queue && n.inLoop == s.inLoop && n.entered == s.entered
            && n.threw == s.threw
  {
  }

  /** The queue's other steps neither start nor finish a dispatch in progress. */
  lemma QueueKeepsLog(cfg: Config, d: nat, s: Looper, m: Move<Event>)
    requires Sane(cfg, d, s) && s.inLoop && LogFits(s, d) && Act(cfg, d, s, Queue(m)).Some?
    ensures LogFits(Act(cfg, d, s, Queue(m)).value, d)
  {
    hide Safe, Next, LoopStep, OneDispatcher, After, Log, Deliveries;
    SafeRoles(cfg, s.queue, d);
    if m.thread == d {
      OwnStep(cfg, d, s.queue, m);
    } else {
      QueueKeepsWaiting(cfg, d, s.queue, m);
    }
  }

  lemma OwnStep(cfg: Config, d: nat, q: State<Event>, m: Move<Event>)
    requires m.thread == d && Next(cfg, q, m).Some?
    requires d in q.threads && q.threads[d].Dispatch? ==> m.Send?
    ensures var n := Next(cfg, q, m).value;
            && n.dispatched == q.dispatched
            && (Dispatching(q, d) ==> Dispatching(n, d) && Handled(n.threads[d]) == Handled(q.threads[d]))
  {
  }

  lemma VisitKeepsLog(s: Looper, d: nat)
    requires LogFits(s, d) && s.scan.Some? && s.scan.value.next < s.scan.value.size
    requires s.queue.threads[d].Dispatch?
    ensures LogFits(Visited(s, s.scan.value, s.queue.threads[d].item), d)
  {
    hide Log, Deliveries;
    var k, e := s.scan.value.next, s.queue.threads[d].item;
    assert s.list[..k + 1] == s.list[..k] + [s.list[k]];
    DeliveriesJoin(s.list[..k], [s.list[k]], e);
  }

  lemma FinishKeepsLog(cfg: Config, s: Looper, d: nat)
    requires LogFits(s, d) && s.scan.Some? && s.scan.value.next == s.scan.value.size
    requires s.queue.threads[d].Dispatch?
    ensures LogFits(s.(queue := LoopStep(s.queue, d).value, scan := None), d)
  {
    hide Log, Deliveries, LoopStep, Next;
    var e := s.queue.threads[d].item;
    FinishIsStep(cfg, s.queue, d);
    assert s.list[..|s.list|] == s.list;
    LogJoin(s.list, s.queue.dispatched, [e]);
    LogOne(s.list, e);
  }

  lemma LogOne(list: seq<Listener>, e: Event)
    ensures Log(list, [e]) == Deliveries(list, e)
  {
    assert Log(list, [e][1..]) == [];
  }

  lemma ActKeepsLog(cfg: Config, d: nat, s: Looper, a: Action)
    requires Sane(cfg, d, s) && s.inLoop && Harmless(s) && LogFits(s, d) && Act(cfg, d, s, a).Some?
    ensures LogFits(Act(cfg, d, s, a).value, d)
  {
    hide Safe, Next, LoopStep, After, Apply, Visited, Log, Deliveries;
    match a {
      case Queue(m) => QueueKeepsLog(cfg, d, s, m);
      case Change(_) => ActKeepsList(cfg, d, s, a);
      case Look => LookKeepsLog(s, d);
      case Visit => VisitKeepsLog(s, d);
      case Finish => FinishKeepsLog(cfg, s, d);
      case _ =>
    }
  }

  lemma LookKeepsLog(s: Looper, d: nat)
    requires LogFits(s, d) && s.scan.None? && Dispatching(s.queue, d)
    ensures LogFits(s.(scan := Some(Scan(0, |s.list|))), d)
  {
    hide Log;
    assert s.list[..0] == [];
  }

  lemma {:induction false} LoopingRun(cfg: Config, d: nat, s: Looper, actions: seq<Action>)
    requires Looping(cfg, d, s) && !cfg.wakesFront && RunFrom(cfg, d, s, actions).Some?
    ensures var n := RunFrom(cfg, d, s, actions).value;
            Looping(cfg, d, n) && n.list == s.list
    decreases actions
  {
    hide Act, Sane, Harmless, LogFits;
    if actions != [] {
      ActKeepsSane(cfg, d, s, actions[0]);
      ActKeepsList(cfg, d, s, actions[0]);
      ActKeepsLog(cfg, d, s, actions[0]);
      LoopingRun(cfg, d, Act(cfg, d, s, actions[0]).value, actions[1..]);
    }
  }

  lemma {:induction false} SaneRun(cfg: Config, d: nat, s: Looper, actions: seq<Action>)
    requires Sane(cfg, d, s) && !cfg.wakesFront && RunFrom(cfg, d, s, actions).Some?
    ensures Sane(cfg, d, RunFrom(cfg, d, s, actions).value)
    decreases actions
  {
    hide Act, Sane;
    if actions != [] {
      ActKeepsSane(cfg, d, s, actions[0]);
      SaneRun(cfg, d, Act(cfg, d, s, actions[0]).value, actions[1..]);
    }
  }

  lemma StartSane(cfg: Config, d: nat)
    requires cfg.dispatchers <= {d} && !cfg.wakesFront
    ensures Sane(cfg, d, Start(cfg))
  {
    assert Run<Event>(cfg, []) == Some(Init(cfg));
    AlwaysSafe<Event>(cfg, [], d);
  }

  lemma BeginLoops(cfg: Config, d: nat, s: Looper)
    requires Sane(cfg, d, s) && !s.inLoop && Harmless(s)
    ensures Looping(cfg, d, s.(inLoop := true))
  {
    hide Safe;
    assert Log(s.list, []) == [];
  }

  lemma {:induction false} RegisteredPrefix(list: seq<Listener>, n: nat, k: Triple)
    requires n <= |list| && Registered(list[..n], k)
    ensures Registered(list, k)
  {
    if TripleOf(list[0]) != k {
      assert list[..n][1..] == list[1..][..n - 1];
      RegisteredPrefix(list[1..], n - 1, k);
    }
  }

  lemma {:induction false} DistinctPrefix(list: seq<Listener>, n: nat)
    requires n <= |list| && Distinct(list)
    ensures Distinct(list[..n])
  {
    if n > 0 {
      assert list[..n][1..] == list[1..][..n - 1];
      DistinctPrefix(list[1..], n - 1);
      if Registered(list[..n][1..], TripleOf(list[0])) {
        RegisteredPrefix(list[1..], n - 1, TripleOf(list[0]));
      }
    }
  }

  lemma PartialOnce(s: Looper, d: nat, handler: int)
    requires Distinct(s.list)
    ensures Calls(Partial(s, d), handler) <= 1
  {
    hide Distinct, Registered, Deliveries;
    if s.scan.Some? && Dispatching(s.queue, d) && s.scan.value.next <= |s.list| {
      DistinctPrefix(s.list, s.scan.value.next);
      OncePerEvent(s.list[..s.scan.value.next], Handled(s.queue.threads[d]), handler);
    }
  }

  /** The deliveries of the event the loop is busy with: those to the listeners it has
      passed; none between two events. */
  ghost predicate InProgress(s: Looper, d: nat, part: seq<Delivery>) {
    match s.scan
    case None => part == []
    case Some(scan) =>
      && d in s.queue.threads && Handles(s.queue.threads[d]) && scan.next <= |s.list|
      && Delivered(s.list[..scan.next], Handled(s.queue.threads[d]), part)
  }

  lemma PartialIs(cfg: Config, s: Looper, d: nat)
    requires Looping(cfg, d, s)
    ensures InProgress(s, d, Partial(s, d))
  {
    hide Sane, Harmless, Delivered, Deliveries, Log;
    if s.scan.Some? {
      DeliveriesAre(s.list[..s.scan.value.next], Handled(s.queue.threads[d]));
    }
  }

  lemma LoopingShape(cfg: Config, d: nat, s: Looper)
    requires Looping(cfg, d, s)
    ensures s.list == After(s.made) && s.log == Log(s.list, s.queue.dispatched) + Partial(s, d)
    ensures s.queue.dispatched <= s.queue.pushed && !s.threw
  {
    hide MutexHeld, SendersFit, OneDispatcher, Log, After, Partial;
    assert s.queue.dispatched <= s.queue.popped <= s.queue.popped + s.queue.queue == s.queue.pushed;
  }

  /** The state in which the loop begins. */
  ghost predicate Begins(cfg: Config, d: nat, before: seq<Action>, s: Looper) {
    var r := RunFrom(cfg, d, Start(cfg), before);
    r.Some? && !r.value.inLoop && s == r.value.(inLoop := true)
  }

  /** In every interleaving, once the loop has begun with no unfinished call left that
      would change the list: the list stays what the calls made before have left, with
      no listener twice; the log is what the dispatched events deliver to it in the
      order they were pushed, plus what the current event has delivered so far; each
      event's part has its type and message and follows the order of the list; and
      each handler was called once for each of them it is registered for. The loop
      does not throw. */
  lemma EveryRunDelivers(cfg: Config, d: nat, before: seq<Action>, s: Looper, after: seq<Action>, handler: int)
    requires cfg.dispatchers <= {d} && !cfg.wakesFront
    requires Begins(cfg, d, before, s) && Harmless(s) && RunFrom(cfg, d, s, after).Some?
    ensures var n := RunFrom(cfg, d, s, after).value;
            && n.list == After(s.made) && Distinct(n.list)
            && n.log == Log(n.list, n.queue.dispatched) + Partial(n, d)
            && n.queue.dispatched <= n.queue.pushed && !n.threw
            && Calls(n.log, handler) == Heard(n.list, n.queue.dispatched, handler) + Calls(Partial(n, d), handler)
            && Calls(Partial(n, d), handler) <= 1
            && Logged(n.list, n.queue.dispatched, Log(n.list, n.queue.dispatched))
            && InProgress(n, d, Partial(n, d))
  {
    hide *;
    var b := RunFrom(cfg, d, Start(cfg), before);
    assert b.Some? && !b.value.inLoop && s == b.value.(inLoop := true) by {
      BeginsIs(cfg, d, before, s);
    }
    StartSane(cfg, d);
    SaneRun(cfg, d, Start(cfg), before);
    HarmlessIs(b.value, s);
    BeginLoops(cfg, d, b.value);
    LoopingRun(cfg, d, s, after);
    var n := RunFrom(cfg, d, s, after).value;
    LoopingShape(cfg, d, s);
    LoopingShape(cfg, d, n);
    RegistrationsAre(n.made, Triple(0, "", 0));
    EachHandlerOnce(n.list, n.queue.dispatched, handler);
    CallsJoin(Log(n.list, n.queue.dispatched), Partial(n, d), handler);
    PartialOnce(n, d, handler);
    PartialIs(cfg, n, d);
  }

  lemma BeginsIs(cfg: Config, d: nat, before: seq<Action>, s: Looper)
    requires Begins(cfg, d, before, s)
    ensures var r := RunFrom(cfg, d, Start(cfg), before);
            r.Some? && !r.value.inLoop && s == r.value.(inLoop := true)
  {
  }

  lemma HarmlessIs(s: Looper, n: Looper)
    requires Harmless(n) && n.list == s.list && n.entered == s.entered
    ensures Harmless(s)
  {
  }

  /** Every run in which the loop has begun is of that form. */
  lemma {:induction false} LoopHasBegun(cfg: Config, d: nat, s: Looper, actions: seq<Action>)
    requires !s.inLoop && RunFrom(cfg, d, s, actions).Some? && RunFrom(cfg, d, s, actions).value.inLoop
    ensures exists k :: 0 <= k < |actions| && actions[k] == Begin && BeginsAt(cfg, d, s, actions, k)
    decreases actions
  {
    hide Act;
    assert actions != [];
    if actions[0] == Begin {
      assert BeginsAt(cfg, d, s, actions, 0) by {
        BeginIs(cfg, d, s);
        assert actions[..0] == [];
      }
    } else {
      assert RunFrom(cfg, d, s, actions) ==
             if Act(cfg, d, s, actions[0]).None? then None
             else RunFrom(cfg, d, Act(cfg, d, s, actions[0]).value, actions[1..]);
      var n := Act(cfg, d, s, actions[0]).value;
      OnlyBegin(cfg, d, s, actions[0]);
      LoopHasBegun(cfg, d, n, actions[1..]);
      var k :| 0 <= k < |actions[1..]| && actions[1..][k] == Begin && BeginsAt(cfg, d, n, actions[1..], k);
      assert actions[..k + 1][0] == actions[0] && actions[..k + 1][1..] == actions[1..][..k];
      assert actions[k + 2..] == actions[1..][k + 1..];
      assert BeginsAt(cfg, d, s, actions, k + 1);
    }
  }

  ghost predicate BeginsAt(cfg: Config, d: nat, s: Looper, actions: seq<Action>, k: nat)
    requires k < |actions|
  {
    var r := RunFrom(cfg, d, s, actions[..k]);
    && r.Some? && !r.value.inLoop
    && RunFrom(cfg, d, s, actions) == RunFrom(cfg, d, r.value.(inLoop := true), actions[k + 1..])
  }

  lemma BeginIs(cfg: Config, d: nat, s: Looper)
    requires !s.inLoop
    ensures Act(cfg, d, s, Begin) == Some(s.(inLoop := true))
  {
  }

  lemma OnlyBegin(cfg: Config, d: nat, s: Looper, a: Action)
    requires !s.inLoop && a != Begin && Act(cfg, d, s, a).Some?
    ensures !Act(cfg, d, s, a).value.inLoop
  {
  }

  lemma RunOne(cfg: Config, d: nat, s: Looper, a: Action)
    ensures RunFrom(cfg, d, s, [a]) == Act(cfg, d, s, a)
  {
    hide Act;
    assert [a][1..] == [];
    assert forall n :: RunFrom(cfg, d, n, []) == Some(n);
  }

  /** The list is frozen from there on exactly when every unfinished call is harmless:
      such a call takes no notice of the loop. */
  lemma FrozenIff(cfg: Config, d: nat, before: seq<Action>, s: Looper)
    requires cfg.dispatchers <= {d} && !cfg.wakesFront && Begins(cfg, d, before, s)
    ensures (forall after :: RunFrom(cfg, d, s, after).Some? ==> RunFrom(cfg, d, s, after).value.list == s.list)
            <==> Harmless(s)
  {
    if Harmless(s) {
      forall after | RunFrom(cfg, d, s, after).Some? ensures RunFrom(cfg, d, s, after).value.list == s.list {
        hide *;
        var b := RunFrom(cfg, d, Start(cfg), before);
        BeginsIs(cfg, d, before, s);
        StartSane(cfg, d);
        SaneRun(cfg, d, Start(cfg), before);
        HarmlessIs(b.value, s);
        BeginLoops(cfg, d, b.value);
        LoopingRun(cfg, d, s, after);
      }
    } else {
      var c :| c in s.entered && Legal(c) && !(Registered(s.list, TripleOf(ListenerOf(c))) <==> c.Register?);
      var k :| 0 <= k < |s.entered| && s.entered[k] == c;
      IdleCall(s.list, c);
      RunOne(cfg, d, s, Change(k));
      assert Act(cfg, d, s, Change(k)).value.list == Apply(s.list, c);
    }
  }

  /** A registration that overlaps the begin of the loop: it found `m_InLoop` false and
      changes the list while the loop goes over it. */
  lemma OverlapExample(cfg: Config, d: nat, c: Call)
    requires Legal(c) && c.Register?
    ensures var s := Start(cfg).(entered := [c], inLoop := true);
            Begins(cfg, d, [Enter(c)], s) && !Harmless(s)
  {
    var s := Start(cfg).(entered := [c], inLoop := true);
    RunOne(cfg, d, Start(cfg), Enter(c));
    assert [] + [c] == [c];
    assert Act(cfg, d, Start(cfg), Enter(c)) == Some(Start(cfg).(entered := [c]));
    assert c in s.entered && !Registered(s.list, TripleOf(ListenerOf(c)));
  }

  // ---------- a removal under the loop ----------

  ghost predicate Comes(cfg: Config, d: nat, n: Looper) {
    exists actions :: RunFrom(cfg, d, Start(cfg), actions) == Some(n)
  }

  lemma {:induction false} RunLast(cfg: Config, d: nat, s: Looper, actions: seq<Action>, a: Action)
    requires RunFrom(cfg, d, s, actions).Some?
    ensures RunFrom(cfg, d, s, actions + [a]) == Act(cfg, d, RunFrom(cfg, d, s, actions).value, a)
    decreases actions
  {
    hide Act;
    if actions == [] {
      assert actions + [a] == [a];
      RunOne(cfg, d, s, a);
    } else {
      assert (actions + [a])[1..] == actions[1..] + [a];
      RunLast(cfg, d, Act(cfg, d, s, actions[0]).value, actions[1..], a);
    }
  }

  lemma Goes(cfg: Config, d: nat, s: Looper, a: Action, n: Looper)
    requires Comes(cfg, d, s) && Act(cfg, d, s, a) == Some(n)
    ensures Comes(cfg, d, n)
  {
    hide Act;
    var actions :| RunFrom(cfg, d, Start(cfg), actions) == Some(s);
    RunLast(cfg, d, Start(cfg), actions, a);
  }

  /** A move of the queue while the loop has no event. */
  lemma Steps(cfg: Config, d: nat, s: Looper, m: Move<Event>, q: State<Event>)
    requires Comes(cfg, d, s) && s.inLoop && !s.threw && !InTurn(s, d) && Next(cfg, s.queue, m).Some?
    requires Next(cfg, s.queue, m).value.threads == q.threads
    requires Next(cfg, s.queue, m).value == q.(threads := Next(cfg, s.queue, m).value.threads)
    ensures Comes(cfg, d, s.(queue := q))
  {
    hide Comes, Next;
    Goes(cfg, d, s, Queue(m), s.(queue := q));
  }

  /** The loop runs and no thread has moved yet. */
  predicate Ready(cfg: Config, d: nat, p: nat, s: Looper) {
    && s.inLoop && !s.threw && s.scan.None? && s.queue == Init(cfg)
    && d in cfg.dispatchers && p in cfg.senders && p !in cfg.dispatchers && cfg.bound > 0
  }

  /** `p` with the mutex, about to signal its first event. */
  function Signalling(s: Looper, p: nat, e: Event): State<Event> {
    Goto(s.queue, p, PushSignal(None)).(owner := Some(p), queue := [e], pushed := [e])
  }

  lemma InsertsFirst(cfg: Config, d: nat, p: nat, s: Looper, e: Event)
    requires Ready(cfg, d, p, s) && Comes(cfg, d, s)
    ensures Comes(cfg, d, s.(queue := Signalling(s, p, e)))
  {
    hide Comes;
    var q := s.queue;
    var q1 := Goto(q, p, PushEntry(e, None));
    var q2 := Goto(q, p, PushTest(e, None)).(owner := Some(p));
    var q3 := Goto(q, p, PushInsert(e, None)).(owner := Some(p));
    Steps(cfg, d, s, Send(p, e), q1);
    Steps(cfg, d, s.(queue := q1), Step(p, p), q2);
    Steps(cfg, d, s.(queue := q2), Step(p, p), q3);
    assert q3.queue + [e] == [e] && q3.pushed + [e] == [e];
    Steps(cfg, d, s.(queue := q3), Step(p, p), Signalling(s, p, e));
  }

  lemma SendsFirst(cfg: Config, d: nat, p: nat, s: Looper, e: Event)
    requires Ready(cfg, d, p, s) && Comes(cfg, d, s)
    ensures Comes(cfg, d, s.(queue := s.queue.(queue := [e], pushed := [e])))
  {
    hide Comes;
    InsertsFirst(cfg, d, p, s, e);
    var q4 := Signalling(s, p, e);
    assert !SomeAsleep(q4) && !Asleep(q4, p);
    Steps(cfg, d, s.(queue := q4), Step(p, p), Goto(q4, p, PushLeave(None)));
    Steps(cfg, d, s.(queue := Goto(q4, p, PushLeave(None))), Step(p, p), s.queue.(queue := [e], pushed := [e]));
  }

  lemma FrontsFirst(cfg: Config, d: nat, p: nat, s: Looper, e: Event)
    requires Ready(cfg, d, p, s) && Comes(cfg, d, s.(queue := s.queue.(queue := [e], pushed := [e])))
    ensures Comes(cfg, d, s.(queue := Goto(s.queue, d, PopEntry(e)).(queue := [e], pushed := [e])))
  {
    hide Comes;
    var q := s.queue.(queue := [e], pushed := [e]);
    var q1 := Goto(q, d, FrontTest).(owner := Some(d));
    var q2 := Goto(q, d, FrontRead).(owner := Some(d));
    var q3 := Goto(q, d, FrontLeave(e)).(owner := Some(d));
    Steps(cfg, d, s.(queue := q), Step(d, d), q1);
    Steps(cfg, d, s.(queue := q1), Step(d, d), q2);
    Steps(cfg, d, s.(queue := q2), Step(d, d), q3);
    Steps(cfg, d, s.(queue := q3), Step(d, d), Goto(q, d, PopEntry(e)));
  }

  /** `d` with the mutex, about to remove the first event. */
  function Removing(s: Looper, d: nat, e: Event): State<Event> {
    Goto(s.queue, d, PopRemove(e)).(owner := Some(d), queue := [e], pushed := [e])
  }

  lemma PopStartsFirst(cfg: Config, d: nat, p: nat, s: Looper, e: Event)
    requires Ready(cfg, d, p, s)
    requires Comes(cfg, d, s.(queue := Goto(s.queue, d, PopEntry(e)).(queue := [e], pushed := [e])))
    ensures Comes(cfg, d, s.(queue := Removing(s, d, e)))
  {
    hide Comes;
    var q := s.queue.(queue := [e], pushed := [e]);
    var q1 := Goto(q, d, PopTest(e)).(owner := Some(d));
    Steps(cfg, d, s.(queue := Goto(q, d, PopEntry(e))), Step(d, d), q1);
    Steps(cfg, d, s.(queue := q1), Step(d, d), Removing(s, d, e));
  }

  /** `d` with the mutex and the first event in its hands. */
  function Leaving(s: Looper, d: nat, e: Event): State<Event> {
    Goto(s.queue, d, PopLeave(e)).(owner := Some(d), pushed := [e], popped := [e])
  }

  lemma Replaced(threads: map<nat, Point<Event>>, d: nat, a: Point<Event>, b: Point<Event>)
    ensures threads[d := a][d := b] == threads[d := b]
  {
  }

  lemma RemoveMoves(cfg: Config, d: nat, p: nat, s: Looper, e: Event)
    requires Ready(cfg, d, p, s)
    ensures Next(cfg, Removing(s, d, e), Step(d, d)) == Some(Leaving(s, d, e))
  {
    var q := Removing(s, d, e);
    assert q.queue[1..] == [] && q.popped + [e] == [e];
    Replaced(s.queue.threads, d, PopRemove(e), PopLeave(e));
  }

  lemma LeaveMoves(cfg: Config, d: nat, p: nat, s: Looper, e: Event)
    requires Ready(cfg, d, p, s)
    ensures Next(cfg, Leaving(s, d, e), Step(d, d)) ==
            Some(Goto(s.queue, d, Dispatch(e)).(pushed := [e], popped := [e]))
  {
    Replaced(s.queue.threads, d, PopLeave(e), Dispatch(e));
  }

  lemma PopsFirst(cfg: Config, d: nat, p: nat, s: Looper, e: Event)
    requires Ready(cfg, d, p, s)
    requires Comes(cfg, d, s.(queue := Goto(s.queue, d, PopEntry(e)).(queue := [e], pushed := [e])))
    ensures Comes(cfg, d, s.(queue := Goto(s.queue, d, Dispatch(e)).(pushed := [e], popped := [e])))
  {
    hide Comes, Next;
    PopStartsFirst(cfg, d, p, s, e);
    RemoveMoves(cfg, d, p, s, e);
    Steps(cfg, d, s.(queue := Removing(s, d, e)), Step(d, d), Leaving(s, d, e));
    LeaveMoves(cfg, d, p, s, e);
    Steps(cfg, d, s.(queue := Leaving(s, d, e)), Step(d, d),
          Goto(s.queue, d, Dispatch(e)).(pushed := [e], popped := [e]));
  }

  /** A registration, then a removal of the same listener that overlaps the begin of
      the loop. */
  lemma OverlapComes(cfg: Config, d: nat, added: Call, removed: Call)
    requires Legal(added) && added.Register? && Legal(removed) && removed.Unregister?
    ensures Comes(cfg, d, Start(cfg).(list := [ListenerOf(added)], inLoop := true, entered := [removed], made := [added]))
  {
    hide Comes;
    var s := Start(cfg);
    assert RunFrom(cfg, d, s, []) == Some(s);
    assert Comes(cfg, d, s) by {
      StartComes(cfg, d);
    }
    assert [] + [added] == [added] && [] + [removed] == [removed];
    var s1 := s.(entered := [added]);
    var s2 := s.(list := [ListenerOf(added)], made := [added]);
    var s3 := s2.(entered := [removed]);
    Goes(cfg, d, s, Enter(added), s1);
    assert Apply([], added) == [ListenerOf(added)];
    assert s1.entered[..0] + s1.entered[1..] == [];
    Goes(cfg, d, s1, Change(0), s2);
    Goes(cfg, d, s2, Enter(removed), s3);
    Goes(cfg, d, s3, Begin, s3.(inLoop := true));
  }

  lemma StartComes(cfg: Config, d: nat)
    ensures Comes(cfg, d, Start(cfg))
  {
    assert RunFrom(cfg, d, Start(cfg), []) == Some(Start(cfg));
  }

  /** The loop has read the size of the list, the removal makes it shorter, and the
      next index is behind its end. */
  lemma RemovalThrows(cfg: Config, d: nat, p: nat, added: Call, removed: Call, e: Event) returns (n: Looper)
    requires d in cfg.dispatchers && p in cfg.senders && p !in cfg.dispatchers && cfg.bound > 0
    requires Legal(added) && added.Register? && Legal(removed) && removed.Unregister?
    requires TripleOf(ListenerOf(added)) == TripleOf(ListenerOf(removed))
    ensures Comes(cfg, d, n) && n.threw
  {
    hide Comes;
    var s := Start(cfg).(list := [ListenerOf(added)], inLoop := true, entered := [removed], made := [added]);
    OverlapComes(cfg, d, added, removed);
    SendsFirst(cfg, d, p, s, e);
    FrontsFirst(cfg, d, p, s, e);
    PopsFirst(cfg, d, p, s, e);
    var s1 := s.(queue := Goto(s.queue, d, Dispatch(e)).(pushed := [e], popped := [e]));
    var s2 := s1.(scan := Some(Scan(0, 1)));
    Goes(cfg, d, s1, Look, s2);
    var s3 := Act(cfg, d, s2, Change(0)).value;
    assert s3.list == [];
    Goes(cfg, d, s2, Change(0), s3);
    n := s3.(threw := true);
    Goes(cfg, d, s3, Visit, n);
  }
}
