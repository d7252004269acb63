/** What becomes of the threads that send to a full queue. */
module FullQueue {
  import opened Optional
  import opened MutexQueue

  /** The sender waits on `m_condFull`. */
  predicate SenderAsleep<T>(s: State<T>, t: nat) {
    t in s.threads && s.threads[t].PushAsleep?
  }

  /** A sender that waits for room waits on in every continuation, unless it is woken
      without a signal: `Pop` does not signal `m_condFull`. */
  lemma {:induction false} FullSleepersStay<T>(cfg: Config, moves: seq<Move<T>>, more: seq<Move<T>>, t: nat)
    requires !cfg.wakesPush && Run(cfg, moves).Some? && Run(cfg, moves + more).Some?
    requires SenderAsleep(Run(cfg, moves).value, t)
    ensures var s := Run(cfg, moves + more).value;
            t in s.threads && s.threads[t] == Run(cfg, moves).value.threads[t]
  {
    if more == [] {
      assert moves + more == moves;
    } else {
      var earlier := moves + more[..|more| - 1];
      assert (moves + more)[..|moves + more| - 1] == earlier;
      var m := more[|more| - 1];
      assert (moves + more)[|moves + more| - 1] == m;
      hide Next;
      FullSleepersStay(cfg, moves, more[..|more| - 1], t);
      SleeperStays(cfg, Run(cfg, earlier).value, m, t);
    }
  }

  lemma SleeperStays<T>(cfg: Config, s: State<T>, m: Move<T>, t: nat)
    requires !cfg.wakesPush && Next(cfg, s, m).Some? && SenderAsleep(s, t)
    ensures var n := Next(cfg, s, m).value; t in n.threads && n.threads[t] == s.threads[t]
  {
  }

  // ---------- when a sender waits ----------

  /** One event sent while no dispatcher waits for one. */
  lemma Sends<T(!new)>(cfg: Config, s: State<T>, p: nat, e: Option<T>, x: T)
    requires Reachable(cfg, s) && s.owner.None? && |s.queue| < cfg.bound && MaySend(cfg, s, p, e) && !SomeAsleep(s)
    ensures Reachable(cfg, s.(queue := s.queue + [x], pushed := s.pushed + [x]))
  {
    hide Reachable;
    Inserts(cfg, s, p, e, x);
    var s1 := Goto(s, p, PushSignal(e)).(owner := Some(p), queue := s.queue + [x], pushed := s.pushed + [x]);
    var s2 := Goto(s1, p, PushLeave(e));
    assert forall t :: Asleep(s1, t) ==> Asleep(s, t);
    Moves(cfg, s1, Step(p, p), s2);
    Moves(cfg, s2, Step(p, p), s.(queue := s1.queue, pushed := s1.pushed));
  }

  /** The thread sleeps in a `Push` called from there, and the queue is full. */
  predicate SleepsIn<T(==)>(cfg: Config, s: State<T>, t: nat, during: Option<T>) {
    t in s.threads && s.threads[t].PushAsleep? && s.threads[t].during == during && |s.queue| == cfg.bound
  }

  /** Sending until there is no room left, and once more. */
  lemma {:induction false} FillsUp<T(!new)>(cfg: Config, s: State<T>, p: nat, e: Option<T>, x: T)
    requires Reachable(cfg, s) && s.owner.None? && |s.queue| <= cfg.bound && MaySend(cfg, s, p, e) && !SomeAsleep(s)
    ensures exists n: State<T> :: Reachable(cfg, n) && SleepsIn(cfg, n, p, e)
    decreases cfg.bound - |s.queue|
  {
    hide Reachable, SleepsIn;
    if |s.queue| < cfg.bound {
      Sends(cfg, s, p, e, x);
      var n := s.(queue := s.queue + [x], pushed := s.pushed + [x]);
      assert forall t :: Asleep(n, t) ==> Asleep(s, t);
      FillsUp(cfg, n, p, e, x);
    } else {
      FallsAsleep(cfg, s, p, e, x);
    }
  }

  lemma FallsAsleep<T(!new)>(cfg: Config, s: State<T>, p: nat, e: Option<T>, x: T)
    requires Reachable(cfg, s) && s.owner.None? && |s.queue| == cfg.bound && MaySend(cfg, s, p, e)
    ensures exists n: State<T> :: Reachable(cfg, n) && SleepsIn(cfg, n, p, e)
  {
    hide Reachable;
    var s1 := Goto(s, p, PushEntry(x, e));
    var s2 := Goto(s, p, PushTest(x, e)).(owner := Some(p));
    var s3 := Goto(s, p, PushAsleep(x, e));
    Moves(cfg, s, Send(p, x), s1);
    Moves(cfg, s1, Step(p, p), s2);
    Moves(cfg, s2, Step(p, p), s3);
    assert SleepsIn(cfg, s3, p, e);
  }

  predicate AllDispatch<T>(s: State<T>) {
    forall t :: t in s.threads ==> Dispatches(s.threads[t])
  }

  lemma {:induction false} NobodySends<T>(cfg: Config, moves: seq<Move<T>>)
    requires cfg.senders <= cfg.dispatchers && Run(cfg, moves).Some?
    ensures AllDispatch(Run(cfg, moves).value)
  {
    if moves != [] {
      hide Next;
      NobodySends(cfg, moves[..|moves| - 1]);
      DispatchersStay(cfg, Run(cfg, moves[..|moves| - 1]).value, moves[|moves| - 1]);
    }
  }

  lemma DispatchersStay<T>(cfg: Config, s: State<T>, m: Move<T>)
    requires AllDispatch(s) && Next(cfg, s, m).Some?
    ensures AllDispatch(Next(cfg, s, m).value)
  {
    OneMoves(cfg, s, m);
    hide Next, Dispatches;
    assert Dispatches<T>(FrontAwake) by {
      AwakeDispatches<T>();
    }
  }

  lemma AwakeDispatches<T>()
    ensures Dispatches<T>(FrontAwake) && !Pushing<T>(FrontAwake)
  {
  }

  /** Some run puts a sender to sleep exactly when there is a thread that only sends:
      whatever the bound, the queue can fill up. */
  lemma SenderSleepsIff<T(!new)>(cfg: Config, x: T)
    ensures (exists s: State<T>, t :: Reachable(cfg, s) && SenderAsleep(s, t)) <==>
            !(cfg.senders <= cfg.dispatchers)
  {
    if cfg.senders <= cfg.dispatchers {
      forall s: State<T>, t | Reachable(cfg, s) ensures !SenderAsleep(s, t) {
        var moves :| Run(cfg, moves) == Some(s);
        NobodySends(cfg, moves);
        StaysQuiet(cfg, moves);
      }
    } else {
      hide Reachable;
      var p :| p in cfg.senders && p !in cfg.dispatchers;
      InitReachable<T>(cfg);
      FillsUp(cfg, Init(cfg), p, None, x);
      var n: State<T> :| Reachable(cfg, n) && SleepsIn(cfg, n, p, None);
      assert SenderAsleep(n, p);
    }
  }

  // ---------- when it waits for ever ----------

  /** The run leaves the sender asleep, and so does everything that can follow. */
  ghost predicate StuckAfter<T(!new)>(cfg: Config, moves: seq<Move<T>>, t: nat) {
    && Run(cfg, moves).Some?
    && forall more :: Run(cfg, moves + more).Some? ==> SenderAsleep(Run(cfg, moves + more).value, t)
  }

  /** Some run leaves a sender asleep for ever exactly when there is a thread that only
      sends and `Push` is woken by signals only. */
  lemma StuckIff<T(!new)>(cfg: Config, x: T)
    ensures (exists moves: seq<Move<T>>, t :: StuckAfter(cfg, moves, t)) <==>
            !(cfg.senders <= cfg.dispatchers) && !cfg.wakesPush
  {
    SenderSleepsIff(cfg, x);
    if !(cfg.senders <= cfg.dispatchers) && !cfg.wakesPush {
      var s: State<T>, t :| Reachable(cfg, s) && SenderAsleep(s, t);
      var moves :| Run(cfg, moves) == Some(s);
      forall more | Run(cfg, moves + more).Some? ensures SenderAsleep(Run(cfg, moves + more).value, t) {
        FullSleepersStay(cfg, moves, more, t);
      }
      assert StuckAfter(cfg, moves, t);
    } else {
      forall moves: seq<Move<T>>, t ensures !StuckAfter(cfg, moves, t) {
        if StuckAfter(cfg, moves, t) {
          assert moves + [] == moves;
          assert Reachable(cfg, Run(cfg, moves).value);
          WokenUp(cfg, moves, t);
        }
      }
    }
  }

  lemma WokenUp<T(!new)>(cfg: Config, moves: seq<Move<T>>, t: nat)
    requires cfg.wakesPush && Run(cfg, moves).Some? && SenderAsleep(Run(cfg, moves).value, t)
    ensures !StuckAfter(cfg, moves, t)
  {
    var more := moves + [Spurious(t)];
    assert more[..|more| - 1] == moves && more[|more| - 1] == Spurious(t);
    assert Run(cfg, more) == Next(cfg, Run(cfg, moves).value, Spurious(t));
    assert !SenderAsleep(Run(cfg, more).value, t);
  }

  // ---------- when the dispatcher itself waits ----------

  /** The thread is inside a `Push` that a listener called. */
  predicate ListenerPushes<T>(s: State<T>, t: nat) {
    t in s.threads && Pushing(s.threads[t]) && s.threads[t].during.Some?
  }

  /** There is a dispatcher, an event can reach it, and its listeners may send. */
  predicate CanSendBack(cfg: Config) {
    cfg.listenersSend && cfg.dispatchers != {} && cfg.bound > 0 && !(cfg.senders <= cfg.dispatchers)
  }

  ghost predicate NoListenerPushes<T>(s: State<T>) {
    forall t :: !ListenerPushes(s, t)
  }

  lemma {:induction false} SilentListeners<T>(cfg: Config, moves: seq<Move<T>>)
    requires !cfg.listenersSend && Run(cfg, moves).Some?
    ensures NoListenerPushes(Run(cfg, moves).value)
  {
    if moves != [] {
      hide Next, NoListenerPushes;
      SilentListeners(cfg, moves[..|moves| - 1]);
      SilentStep(cfg, Run(cfg, moves[..|moves| - 1]).value, moves[|moves| - 1]);
    } else {
      assert Run(cfg, moves) == Some(Init(cfg));
    }
  }

  lemma SilentStep<T>(cfg: Config, s: State<T>, m: Move<T>)
    requires !cfg.listenersSend && NoListenerPushes(s) && Next(cfg, s, m).Some?
    ensures NoListenerPushes(Next(cfg, s, m).value)
  {
    hide Next, Dispatches, Pushing;
    OneMoves(cfg, s, m);
    AwakeDispatches<T>();
    var n := Next(cfg, s, m).value;
    assert !ListenerPushes(s, m.thread);
    forall t ensures !ListenerPushes(n, t) {
      assert !ListenerPushes(s, t);
    }
  }

  /** What it takes for a listener to send. */
  lemma ListenersPushOnly<T>(cfg: Config, moves: seq<Move<T>>, t: nat)
    requires Run(cfg, moves).Some? && ListenerPushes(Run(cfg, moves).value, t)
    ensures CanSendBack(cfg)
  {
    hide Run;
    if !cfg.listenersSend {
      SilentListeners(cfg, moves);
      assert false;
    }
    if cfg.dispatchers == {} {
      NoneDispatch(cfg, moves, t);
      NoneDispatch(cfg, moves, t + 1);
    }
    if cfg.senders <= cfg.dispatchers || cfg.bound == 0 {
      StaysQuiet(cfg, moves);
    }
  }

  /** The first event, sent, taken from the queue and with its listeners. */
  lemma FirstEvent<T(!new)>(cfg: Config, d: nat, p: nat, x: T)
    requires d in cfg.dispatchers && p in cfg.senders && p !in cfg.dispatchers && cfg.bound > 0
    ensures Reachable(cfg, Goto(Init<T>(cfg), d, Dispatch(x)).(pushed := [x], popped := [x]))
  {
    hide Reachable, Next;
    var s: State<T> := Init(cfg);
    InitReachable<T>(cfg);
    Sends(cfg, s, p, None, x);
    assert s.queue + [x] == [x] && s.pushed + [x] == [x];
    var s1 := s.(queue := [x], pushed := [x]);
    Fronts(cfg, s1, d);
    var s2 := Goto(s1, d, PopEntry(x));
    Pops(cfg, s2, d);
    assert s2.queue[1..] == [] && s2.popped + [x] == [x];
    assert s2.threads[d := Dispatch(x)] == s.threads[d := Dispatch(x)];
  }

  /** The dispatcher's listeners fill the queue up. */
  lemma ListenerSleeps<T(!new)>(cfg: Config, x: T) returns (d: nat, n: State<T>)
    requires CanSendBack(cfg)
    ensures d in cfg.dispatchers && Reachable(cfg, n) && SleepsIn(cfg, n, d, Some(x))
  {
    hide Reachable, SleepsIn, Next;
    d :| d in cfg.dispatchers;
    var p :| p in cfg.senders && p !in cfg.dispatchers;
    FirstEvent(cfg, d, p, x);
    var s := Goto(Init<T>(cfg), d, Dispatch(x)).(pushed := [x], popped := [x]);
    assert MaySend(cfg, s, d, Some(x)) && !SomeAsleep(s);
    FillsUp(cfg, s, d, Some(x), x);
    n :| Reachable(cfg, n) && SleepsIn(cfg, n, d, Some(x));
  }

  /** Some run leaves a dispatcher asleep for ever in a listener's `Push` exactly when
      its listeners may send and are reached, and `Push` is woken by signals only. */
  lemma ListenerStuckIff<T(!new)>(cfg: Config, x: T)
    ensures (exists moves: seq<Move<T>>, t ::
               StuckAfter(cfg, moves, t) && ListenerPushes(Run(cfg, moves).value, t)) <==>
            CanSendBack(cfg) && !cfg.wakesPush
  {
    forall moves: seq<Move<T>>, t | StuckAfter(cfg, moves, t) && ListenerPushes(Run(cfg, moves).value, t)
      ensures CanSendBack(cfg) && !cfg.wakesPush
    {
      ListenersPushOnly(cfg, moves, t);
      assert moves + [] == moves;
      if cfg.wakesPush {
        WokenUp(cfg, moves, t);
      }
    }
    if CanSendBack(cfg) && !cfg.wakesPush {
      var d, s := ListenerSleeps(cfg, x);
      var moves :| Run(cfg, moves) == Some(s);
      StaysStuck(cfg, moves, d);
      assert StuckAfter(cfg, moves, d) && ListenerPushes(Run(cfg, moves).value, d);
    }
  }

  lemma StaysStuck<T(!new)>(cfg: Config, moves: seq<Move<T>>, t: nat)
    requires !cfg.wakesPush && Run(cfg, moves).Some? && SenderAsleep(Run(cfg, moves).value, t)
    ensures StuckAfter(cfg, moves, t)
  {
    forall more | Run(cfg, moves + more).Some? ensures SenderAsleep(Run(cfg, moves + more).value, t) {
      FullSleepersStay(cfg, moves, more, t);
    }
  }

  // ---------- a queue nobody empties ----------

  /** The only dispatcher waits for room: nobody else takes events out. */
  predicate Jammed<T>(cfg: Config, s: State<T>, d: nat) {
    && ListenerPushes(s, d) && |s.queue| == cfg.bound
    && (s.threads[d].PushTest? || s.threads[d].PushAsleep? || s.threads[d].PushAwake?)
  }

  predicate Kept<T>(cfg: Config, s: State<T>, d: nat) {
    MutexHeld(s) && OneDispatcher(s, d) && SendersFit(s, cfg.bound) && |s.queue| <= cfg.bound
  }

  lemma KeptStep<T>(cfg: Config, s: State<T>, m: Move<T>, d: nat)
    requires Kept(cfg, s, d) && Next(cfg, s, m).Some?
    ensures Kept(cfg, Next(cfg, s, m).value, d)
  {
    MutexKept(cfg, s, m);
    RolesKept(cfg, s, m, d);
    SendersKept(cfg, s, m);
    hide MutexHeld, OneDispatcher, SendersFit;
    FitsAt(s, m.thread, cfg.bound);
  }

  lemma {:induction false} AlwaysKept<T>(cfg: Config, moves: seq<Move<T>>, d: nat)
    requires cfg.dispatchers <= {d} && Run(cfg, moves).Some?
    ensures Kept(cfg, Run(cfg, moves).value, d)
  {
    if moves != [] {
      hide Kept, Next;
      AlwaysKept(cfg, moves[..|moves| - 1], d);
      KeptStep(cfg, Run(cfg, moves[..|moves| - 1]).value, moves[|moves| - 1], d);
    }
  }

  /** Whoever moves, and whoever is woken up for whatever reason. */
  lemma JamStays<T>(cfg: Config, s: State<T>, m: Move<T>, d: nat)
    requires Kept(cfg, s, d) && Jammed(cfg, s, d) && Next(cfg, s, m).Some?
    ensures Jammed(cfg, Next(cfg, s, m).value, d) && Next(cfg, s, m).value.popped == s.popped
  {
    hide MutexHeld, OneDispatcher, SendersFit;
    FitsAt(s, m.thread, cfg.bound);
    if Dispatches(s.threads[m.thread]) {
      OnlyOne(s, m.thread, d);
    }
  }

  lemma OnlyOne<T>(s: State<T>, t: nat, d: nat)
    requires OneDispatcher(s, d) && t in s.threads && Dispatches(s.threads[t])
    ensures t == d
  {
  }

  /** The dispatcher is in a listener's `Push` and never comes out, and no event is ever
      popped again. */
  ghost predicate DeadAfter<T(!new)>(cfg: Config, moves: seq<Move<T>>, d: nat) {
    && Run(cfg, moves).Some?
    && forall more :: Run(cfg, moves + more).Some? ==>
         && ListenerPushes(Run(cfg, moves + more).value, d)
         && Run(cfg, moves + more).value.popped == Run(cfg, moves).value.popped
  }

  lemma {:induction false} JamLasts<T>(cfg: Config, moves: seq<Move<T>>, more: seq<Move<T>>, d: nat)
    requires cfg.dispatchers <= {d} && Run(cfg, moves).Some? && Jammed(cfg, Run(cfg, moves).value, d)
    requires Run(cfg, moves + more).Some?
    ensures Jammed(cfg, Run(cfg, moves + more).value, d)
    ensures Run(cfg, moves + more).value.popped == Run(cfg, moves).value.popped
  {
    hide Jammed, Next;
    if more == [] {
      assert moves + more == moves;
    } else {
      var earlier := moves + more[..|more| - 1];
      assert (moves + more)[..|moves + more| - 1] == earlier;
      var m := more[|more| - 1];
      assert (moves + more)[|moves + more| - 1] == m;
      JamLasts(cfg, moves, more[..|more| - 1], d);
      AlwaysKept(cfg, earlier, d);
      JamStays(cfg, Run(cfg, earlier).value, m, d);
    }
  }

  /** Some run ends all dispatching for ever exactly when listeners may send and are
      reached: with one dispatcher, no wakeup of `Push` helps, not even one that a
      signal from `Pop` would give. */
  lemma DispatcherDiesIff<T(!new)>(cfg: Config, d: nat, x: T)
    requires cfg.dispatchers == {d}
    ensures (exists moves: seq<Move<T>> :: DeadAfter(cfg, moves, d)) <==> CanSendBack(cfg)
  {
    forall moves: seq<Move<T>> | DeadAfter(cfg, moves, d) ensures CanSendBack(cfg) {
      assert moves + [] == moves;
      ListenersPushOnly(cfg, moves, d);
    }
    if CanSendBack(cfg) {
      var e, s := ListenerSleeps(cfg, x);
      assert e == d;
      var moves :| Run(cfg, moves) == Some(s);
      forall more | Run(cfg, moves + more).Some?
        ensures ListenerPushes(Run(cfg, moves + more).value, d)
        ensures Run(cfg, moves + more).value.popped == Run(cfg, moves).value.popped
      {
        JamLasts(cfg, moves, more, d);
      }
      assert DeadAfter(cfg, moves, d);
    }
  }
}
