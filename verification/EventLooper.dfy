/** The event looper: who listens to whom, and which handlers an event reaches. */
module EventLooper {
  import opened Optional

  /** An event target; the listeners are told apart by their targets' numbers. */
  datatype Target = Target(id: int, name: string)

  datatype Listener = Listener(sender: Target, eventType: string, handler: Target)

  datatype Event = Event(senderId: int, eventType: string, message: string)

  /** A call of a handler's `onEvent`. */
  datatype Delivery = Delivery(handler: Target, eventType: string, message: string)

  /** A call of `RegisterListener` or `UnregisterListener`; a target may be null. */
  datatype Call =
    | Register(sender: Option<Target>, eventType: string, handler: Option<Target>)
    | Unregister(sender: Option<Target>, eventType: string, handler: Option<Target>)

  /** What tells a listener from all others. */
  datatype Triple = Triple(sender: int, eventType: string, handler: int)

  function TripleOf(l: Listener): Triple {
    Triple(l.sender.id, l.eventType, l.handler.id)
  }

  predicate Legal(c: Call) {
    c.sender.Some? && c.handler.Some? && c.eventType != ""
  }

  function ListenerOf(c: Call): Listener
    requires Legal(c)
  {
    Listener(c.sender.value, c.eventType, c.handler.value)
  }

  predicate Registered(list: seq<Listener>, k: Triple) {
    list != [] && (TripleOf(list[0]) == k || Registered(list[1..], k))
  }

  /** No two listeners with the same sender, type and handler. */
  predicate Distinct(list: seq<Listener>) {
    list != [] ==> !Registered(list[1..], TripleOf(list[0])) && Distinct(list[1..])
  }

  /** The list without the first listener of that triple. */
  function Without(list: seq<Listener>, k: Triple): seq<Listener> {
    if list == [] then []
    else if TripleOf(list[0]) == k then list[1..]
    else [list[0]] + Without(list[1..], k)
  }

  /** The list after a call made before the loop runs. */
  function Apply(list: seq<Listener>, c: Call): seq<Listener> {
    if !Legal(c) then list
    else
      var k := TripleOf(ListenerOf(c));
      if c.Unregister? then Without(list, k)
      else if Registered(list, k) then list
      else list + [ListenerOf(c)]
  }

  /** The list after some calls. */
  function After(calls: seq<Call>): seq<Listener> {
    if calls == [] then [] else Apply(After(calls[..|calls| - 1]), calls[|calls| - 1])
  }

  /** The last legal call about a triple was a registration. */
  predicate LastRegistered(calls: seq<Call>, k: Triple) {
    calls != [] &&
    var c := calls[|calls| - 1];
    if Legal(c) && TripleOf(ListenerOf(c)) == k then c.Register?
    else LastRegistered(calls[..|calls| - 1], k)
  }

  lemma {:induction false} RegisteredAppend(list: seq<Listener>, l: Listener, k: Triple)
    ensures Registered(list + [l], k) <==> Registered(list, k) || TripleOf(l) == k
  {
    if list != [] {
      assert (list + [l])[1..] == list[1..] + [l];
      RegisteredAppend(list[1..], l, k);
    }
  }

  lemma {:induction false} DistinctAppend(list: seq<Listener>, l: Listener)
    requires Distinct(list) && !Registered(list, TripleOf(l))
    ensures Distinct(list + [l])
  {
    if list != [] {
      assert (list + [l])[1..] == list[1..] + [l];
      DistinctAppend(list[1..], l);
      RegisteredAppend(list[1..], l, TripleOf(list[0]));
    }
  }

  lemma {:induction false} WithoutDistinct(list: seq<Listener>, k: Triple, other: Triple)
    requires Distinct(list)
    ensures Distinct(Without(list, k))
    ensures Registered(Without(list, k), other) <==> Registered(list, other) && other != k
  {
    if list != [] {
      WithoutDistinct(list[1..], k, other);
      WithoutDistinct(list[1..], k, TripleOf(list[0]));
      var rest := Without(list[1..], k);
      assert ([list[0]] + rest)[1..] == rest;
    }
  }

  lemma WithoutStep(list: seq<Listener>, i: nat, k: Triple)
    requires i < |list|
    ensures TripleOf(list[i]) == k ==> Without(list[i..], k) == list[i + 1..] && Registered(list[i..], k)
    ensures TripleOf(list[i]) != k ==>
              && list[..i] + Without(list[i..], k) == list[..i + 1] + Without(list[i + 1..], k)
              && (Registered(list[i..], k) <==> Registered(list[i + 1..], k))
  {
    assert list[i..][1..] == list[i + 1..];
  }

  lemma WithoutEnds(list: seq<Listener>, k: Triple)
    ensures Without(list, k) == list[..0] + Without(list[0..], k)
    ensures Registered(list, k) <==> Registered(list[0..], k)
    ensures list[..|list|] + Without(list[|list|..], k) == list && !Registered(list[|list|..], k)
  {
    assert list[0..] == list;
  }

  /** After any calls, no triple is listed twice, and those listed are exactly the ones
      whose last call was a registration. */
  lemma {:induction false} RegistrationsAre(calls: seq<Call>, k: Triple)
    ensures Distinct(After(calls))
    ensures Registered(After(calls), k) <==> LastRegistered(calls, k)
  {
    if calls != [] {
      var before, c := calls[..|calls| - 1], calls[|calls| - 1];
      RegistrationsAre(before, k);
      if Legal(c) {
        var l := ListenerOf(c);
        WithoutDistinct(After(before), TripleOf(l), k);
        RegisteredAppend(After(before), l, k);
        if !Registered(After(before), TripleOf(l)) {
          DistinctAppend(After(before), l);
        }
      }
    }
  }

  // ---------- the order of the list ----------

  /** The listener of this sender, type and handler. */
  predicate IsFor(l: Listener, k: Triple) {
    l.sender.id == k.sender && l.eventType == k.eventType && l.handler.id == k.handler
  }

  lemma {:induction false} RegisteredIff(list: seq<Listener>, k: Triple)
    ensures Registered(list, k) <==> exists i :: 0 <= i < |list| && IsFor(list[i], k)
  {
    if list != [] {
      RegisteredIff(list[1..], k);
      assert forall i :: 1 <= i < |list| ==> list[i] == list[1..][i - 1];
    }
  }

  /** Each listener was put there by the call at `since`, and no later call removed it. */
  predicate AddedAt(calls: seq<Call>, l: Listener, since: nat) {
    && since < |calls| && calls[since] == Register(Some(l.sender), l.eventType, Some(l.handler)) && l.eventType != ""
    && forall i :: since < i < |calls| && calls[i].Unregister? && Legal(calls[i]) ==> !IsFor(ListenerOf(calls[i]), TripleOf(l))
  }

  /** The listeners stand in the order of the calls that added them. */
  predicate InOrder(calls: seq<Call>, list: seq<Listener>, since: seq<nat>) {
    && |since| == |list|
    && (forall i :: 0 <= i < |list| ==> AddedAt(calls, list[i], since[i]))
    && (forall i, j :: 0 <= i < j < |list| ==> since[i] < since[j])
  }

  lemma {:induction false} WithoutAt(list: seq<Listener>, k: Triple) returns (i: nat)
    requires Distinct(list) && Registered(list, k)
    ensures i < |list| && Without(list, k) == list[..i] + list[i + 1..]
    ensures forall j :: 0 <= j < |list| && j != i ==> !IsFor(list[j], k)
  {
    if TripleOf(list[0]) == k {
      i := 0;
      RegisteredIff(list[1..], k);
      assert forall j :: 1 <= j < |list| ==> list[j] == list[1..][j - 1];
    } else {
      i := WithoutAt(list[1..], k);
      i := i + 1;
      assert forall j :: 1 <= j < |list| ==> list[j] == list[1..][j - 1];
      assert [list[0]] + (list[1..][..i - 1] + list[1..][i..]) == list[..i] + list[i + 1..];
    }
  }

  lemma {:induction false} WithoutAbsent(list: seq<Listener>, k: Triple)
    requires !Registered(list, k)
    ensures Without(list, k) == list
    ensures forall i :: 0 <= i < |list| ==> !IsFor(list[i], k)
  {
    RegisteredIff(list, k);
    if list != [] {
      WithoutAbsent(list[1..], k);
    }
  }

  /** Calls that leave a listener in its place. */
  lemma StillAdded(calls: seq<Call>, c: Call, l: Listener, since: nat)
    requires AddedAt(calls, l, since)
    requires c.Unregister? && Legal(c) ==> !IsFor(ListenerOf(c), TripleOf(l))
    ensures AddedAt(calls + [c], l, since)
  {
  }

  lemma AddedLast(calls: seq<Call>, list: seq<Listener>, since: seq<nat>, c: Call)
    requires InOrder(calls, list, since) && Legal(c) && c.Register?
    ensures InOrder(calls + [c], list + [ListenerOf(c)], since + [|calls|])
  {
    hide AddedAt;
    var more, next := list + [ListenerOf(c)], since + [|calls|];
    forall i | 0 <= i < |more| ensures AddedAt(calls + [c], more[i], next[i]) && next[i] <= |calls| {
      if i < |list| {
        StillAdded(calls, c, list[i], since[i]);
        AddedBefore(calls, list[i], since[i]);
      } else {
        AddedNow(calls, c);
      }
    }
    assert forall i :: 0 <= i < |list| ==> next[i] == since[i] < |calls| by {
      forall i | 0 <= i < |list| ensures next[i] == since[i] < |calls| {
        AddedBefore(calls, list[i], since[i]);
      }
    }
  }

  lemma AddedBefore(calls: seq<Call>, l: Listener, since: nat)
    requires AddedAt(calls, l, since)
    ensures since < |calls|
  {
  }

  lemma AddedNow(calls: seq<Call>, c: Call)
    requires Legal(c) && c.Register?
    ensures AddedAt(calls + [c], ListenerOf(c), |calls|)
  {
  }

  lemma RemovedAt(calls: seq<Call>, list: seq<Listener>, since: seq<nat>, c: Call, i: nat)
    requires InOrder(calls, list, since) && Legal(c) && i < |list|
    requires forall j :: 0 <= j < |list| && j != i ==> !IsFor(ListenerOf(c), TripleOf(list[j]))
    ensures InOrder(calls + [c], list[..i] + list[i + 1..], since[..i] + since[i + 1..])
  {
    hide AddedAt, IsFor;
    var less, next := list[..i] + list[i + 1..], since[..i] + since[i + 1..];
    forall j | 0 <= j < |less| ensures AddedAt(calls + [c], less[j], next[j]) {
      var k := if j < i then j else j + 1;
      assert less[j] == list[k] && next[j] == since[k];
      StillAdded(calls, c, list[k], since[k]);
    }
  }

  lemma KeptAll(calls: seq<Call>, list: seq<Listener>, since: seq<nat>, c: Call)
    requires InOrder(calls, list, since)
    requires c.Unregister? && Legal(c) ==> forall j :: 0 <= j < |list| ==> !IsFor(ListenerOf(c), TripleOf(list[j]))
    ensures InOrder(calls + [c], list, since)
  {
    hide AddedAt, IsFor;
    forall j | 0 <= j < |list| ensures AddedAt(calls + [c], list[j], since[j]) {
      StillAdded(calls, c, list[j], since[j]);
    }
  }

  /** After any calls the list holds the listeners in the order in which they were added. */
  lemma {:induction false} ListInOrder(calls: seq<Call>) returns (since: seq<nat>)
    ensures InOrder(calls, After(calls), since)
  {
    hide InOrder, AddedAt, Registered, Without, Distinct;
    if calls == [] {
      since := [];
      NothingAdded();
    } else {
      var before, c := calls[..|calls| - 1], calls[|calls| - 1];
      assert calls == before + [c];
      var list := After(before);
      since := ListInOrder(before);
      if Legal(c) {
        var k := TripleOf(ListenerOf(c));
        RegistrationsAre(before, k);
        if c.Register? && !Registered(list, k) {
          AddedLast(before, list, since, c);
          since := since + [|before|];
        } else if c.Unregister? && Registered(list, k) {
          var i := WithoutAt(list, k);
          SinceFits(before, list, since);
          RemovedAt(before, list, since, c, i);
          since := since[..i] + since[i + 1..];
        } else {
          if c.Unregister? {
            WithoutAbsent(list, k);
          }
          KeptAll(before, list, since, c);
        }
      } else {
        KeptAll(before, list, since, c);
      }
    }
  }

  lemma SinceFits(calls: seq<Call>, list: seq<Listener>, since: seq<nat>)
    requires InOrder(calls, list, since)
    ensures |since| == |list|
  {
  }

  lemma NothingAdded()
    ensures InOrder([], [], [])
  {
  }

  // ---------- deliveries ----------

  predicate Hears(l: Listener, e: Event) {
    l.sender.id == e.senderId && l.eventType == e.eventType
  }

  /** What an event is delivered to: its listeners in the order of the list. */
  function Deliveries(list: seq<Listener>, e: Event): seq<Delivery> {
    if list == [] then []
    else
      (if Hears(list[0], e) then [Delivery(list[0].handler, e.eventType, e.message)] else []) + Deliveries(list[1..], e)
  }

  /** The part of a log that belongs to one event: `at` are the positions in the list of
      the listeners it went to, all those with the event's sender and type, in order. */
  predicate DeliversTo(list: seq<Listener>, e: Event, part: seq<Delivery>, at: seq<nat>) {
    && |at| == |part|
    && (forall k :: 0 <= k < |at| ==>
          && at[k] < |list| && list[at[k]].sender.id == e.senderId && list[at[k]].eventType == e.eventType
          && part[k].handler == list[at[k]].handler
          && part[k].eventType == e.eventType && part[k].message == e.message)
    && (forall k, l :: 0 <= k < l < |at| ==> at[k] < at[l])
    && (forall i: nat :: i < |list| && list[i].sender.id == e.senderId && list[i].eventType == e.eventType ==> i in at)
  }

  ghost predicate Delivered(list: seq<Listener>, e: Event, part: seq<Delivery>) {
    exists at :: DeliversTo(list, e, part, at)
  }

  lemma DeliversNone(e: Event)
    ensures Delivered([], e, [])
  {
    assert DeliversTo([], e, [], []);
  }

  lemma DeliversHit(list: seq<Listener>, l: Listener, e: Event, part: seq<Delivery>, at: seq<nat>)
    requires DeliversTo(list, e, part, at) && l.sender.id == e.senderId && l.eventType == e.eventType
    ensures DeliversTo(list + [l], e, part + [Delivery(l.handler, e.eventType, e.message)], at + [|list|])
  {
    var more, next := list + [l], at + [|list|];
    forall i: nat | i < |more| && more[i].sender.id == e.senderId && more[i].eventType == e.eventType
      ensures i in next
    {
      if i < |list| {
        assert list[i] == more[i] && i in at;
      } else {
        assert next[|at|] == i;
      }
    }
  }

  lemma DeliversMiss(list: seq<Listener>, l: Listener, e: Event, part: seq<Delivery>, at: seq<nat>)
    requires DeliversTo(list, e, part, at) && !(l.sender.id == e.senderId && l.eventType == e.eventType)
    ensures DeliversTo(list + [l], e, part, at)
  {
    var more := list + [l];
    forall i: nat | i < |more| && more[i].sender.id == e.senderId && more[i].eventType == e.eventType
      ensures i in at
    {
      assert i < |list| && list[i] == more[i];
    }
  }

  lemma DeliversNext(list: seq<Listener>, l: Listener, e: Event, part: seq<Delivery>)
    requires Delivered(list, e, part)
    ensures l.sender.id == e.senderId && l.eventType == e.eventType ==>
              Delivered(list + [l], e, part + [Delivery(l.handler, e.eventType, e.message)])
    ensures !(l.sender.id == e.senderId && l.eventType == e.eventType) ==> Delivered(list + [l], e, part)
  {
    hide DeliversTo;
    var at :| DeliversTo(list, e, part, at);
    if l.sender.id == e.senderId && l.eventType == e.eventType {
      DeliversHit(list, l, e, part, at);
    } else {
      DeliversMiss(list, l, e, part, at);
    }
  }

  lemma DeliveriesOne(l: Listener, e: Event)
    ensures Deliveries([l], e) ==
            if l.sender.id == e.senderId && l.eventType == e.eventType
            then [Delivery(l.handler, e.eventType, e.message)] else []
  {
    assert Deliveries([l][1..], e) == [];
  }

  /** A dispatch calls each listener of the event's sender and type, in the order of the
      list, and hands each the event's type and message. */
  lemma {:induction false} DeliveriesAre(list: seq<Listener>, e: Event)
    ensures Delivered(list, e, Deliveries(list, e))
    decreases |list|
  {
    hide Delivered, DeliversTo;
    if list == [] {
      DeliversNone(e);
    } else {
      var n := |list| - 1;
      assert list == list[..n] + [list[n]];
      DeliveriesJoin(list[..n], [list[n]], e);
      DeliveriesAre(list[..n], e);
      DeliversNext(list[..n], list[n], e, Deliveries(list[..n], e));
      DeliveriesOne(list[n], e);
      assert Deliveries(list[..n], e) + [] == Deliveries(list[..n], e);
    }
  }

  lemma {:induction false} DeliveriesJoin(a: seq<Listener>, b: seq<Listener>, e: Event)
    ensures Deliveries(a + b, e) == Deliveries(a, e) + Deliveries(b, e)
  {
    if a == [] {
      assert a + b == b;
    } else {
      assert (a + b)[1..] == a[1..] + b;
      DeliveriesJoin(a[1..], b, e);
    }
  }

  /** The parts of a log behind one another. */
  function Flat(parts: seq<seq<Delivery>>): seq<Delivery> {
    if parts == [] then [] else parts[0] + Flat(parts[1..])
  }

  /** The log splits into consecutive parts, one for each event. */
  predicate PartsOf(list: seq<Listener>, events: seq<Event>, log: seq<Delivery>, parts: seq<seq<Delivery>>,
                    at: seq<seq<nat>>) {
    && |parts| == |at| == |events| && log == Flat(parts)
    && forall i :: 0 <= i < |events| ==> DeliversTo(list, events[i], parts[i], at[i])
  }

  ghost predicate Logged(list: seq<Listener>, events: seq<Event>, log: seq<Delivery>) {
    exists parts, at :: PartsOf(list, events, log, parts, at)
  }

  lemma {:induction false} LogIs(list: seq<Listener>, events: seq<Event>)
    ensures Logged(list, events, Log(list, events))
  {
    hide Deliveries, DeliversTo;
    if events == [] {
      assert PartsOf(list, [], [], [], []);
    } else {
      LogIs(list, events[1..]);
      DeliveriesAre(list, events[0]);
      var parts, at :| PartsOf(list, events[1..], Log(list, events[1..]), parts, at);
      var first :| DeliversTo(list, events[0], Deliveries(list, events[0]), first);
      var all := [Deliveries(list, events[0])] + parts;
      assert all[1..] == parts;
      assert PartsOf(list, events, Log(list, events), all, [first] + at);
    }
  }

  /** The deliveries of several events, one after the other. */
  function Log(list: seq<Listener>, events: seq<Event>): seq<Delivery> {
    if events == [] then [] else Deliveries(list, events[0]) + Log(list, events[1..])
  }

  function Calls(log: seq<Delivery>, handler: int): nat {
    if log == [] then 0 else (if log[0].handler.id == handler then 1 else 0) + Calls(log[1..], handler)
  }

  /** How many of the events the handler is registered for. */
  function Heard(list: seq<Listener>, events: seq<Event>, handler: int): nat {
    if events == [] then 0
    else
      (if Registered(list, Triple(events[0].senderId, events[0].eventType, handler)) then 1 else 0) +
      Heard(list, events[1..], handler)
  }

  lemma {:induction false} CallsJoin(a: seq<Delivery>, b: seq<Delivery>, handler: int)
    ensures Calls(a + b, handler) == Calls(a, handler) + Calls(b, handler)
  {
    if a == [] {
      assert a + b == b;
    } else {
      assert (a + b)[1..] == a[1..] + b;
      CallsJoin(a[1..], b, handler);
    }
  }

  lemma {:induction false} OncePerEvent(list: seq<Listener>, e: Event, handler: int)
    requires Distinct(list)
    ensures Calls(Deliveries(list, e), handler) ==
            if Registered(list, Triple(e.senderId, e.eventType, handler)) then 1 else 0
  {
    if list != [] {
      OncePerEvent(list[1..], e, handler);
      var head := if Hears(list[0], e) then [Delivery(list[0].handler, e.eventType, e.message)] else [];
      CallsJoin(head, Deliveries(list[1..], e), handler);
    }
  }

  lemma {:induction false} CallsOfLog(list: seq<Listener>, events: seq<Event>, handler: int)
    requires Distinct(list)
    ensures Calls(Log(list, events), handler) == Heard(list, events, handler)
  {
    if events != [] {
      OncePerEvent(list, events[0], handler);
      CallsOfLog(list, events[1..], handler);
      CallsJoin(Deliveries(list, events[0]), Log(list, events[1..]), handler);
    }
  }

  /** Each handler is called exactly once for each event it is registered for, with the
      type and the message of that event, in the order of the events and of the list. */
  lemma EachHandlerOnce(list: seq<Listener>, events: seq<Event>, handler: int)
    requires Distinct(list)
    ensures Calls(Log(list, events), handler) == Heard(list, events, handler)
    ensures Logged(list, events, Log(list, events))
  {
    hide *;
    CallsOfLog(list, events, handler);
    LogIs(list, events);
  }

  lemma {:induction false} LogJoin(list: seq<Listener>, a: seq<Event>, b: seq<Event>)
    ensures Log(list, a + b) == Log(list, a) + Log(list, b)
  {
    if a == [] {
      assert a + b == b;
    } else {
      assert (a + b)[1..] == a[1..] + b;
      LogJoin(list, a[1..], b);
    }
  }

  lemma LogStep(list: seq<Listener>, events: seq<Event>, i: nat)
    requires i <= |events|
    ensures i < |events| ==> Log(list, events[i..]) == Deliveries(list, events[i]) + Log(list, events[i + 1..])
    ensures i == |events| ==> Log(list, events[i..]) == []
  {
    hide Deliveries;
    if i < |events| {
      assert events[i..][1..] == events[i + 1..];
    }
  }

  // ---------- the looper ----------

  class EventLooper {
    var listenersList: seq<Listener>
    var inLoop: bool
    /** The calls of `onEvent` made so far, and what each handler does in return. */
    var delivered: seq<Delivery>
    const reaction: Delivery -> seq<Call>

    constructor (reaction: Delivery -> seq<Call>)
      ensures listenersList == [] && !inLoop && delivered == []
    {
      this.reaction := reaction;
      listenersList, inLoop, delivered := [], false, [];
    }

    /** `findListener`: the first listener of the triple. */
    method FindListener(sender: Target, eventType: string, handler: Target) returns (found: bool)
      ensures found <==> Registered(listenersList, Triple(sender.id, eventType, handler.id))
    {
      ghost var k := Triple(sender.id, eventType, handler.id);
      var i := 0;
      assert listenersList[0..] == listenersList;
      while i < |listenersList|
        invariant i <= |listenersList|
        invariant Registered(listenersList, k) <==> Registered(listenersList[i..], k)
      {
        var l := listenersList[i];
        if l.sender.id == sender.id && eventType == l.eventType && l.handler.id == handler.id {
          return true;
        }
        i := i + 1;
      }
      return false;
    }

    /** `removeListener`. */
    method RemoveListener(sender: Target, eventType: string, handler: Target) returns (removed: bool)
      modifies this`listenersList
      ensures var k := Triple(sender.id, eventType, handler.id);
              && listenersList == Without(old(listenersList), k)
              && removed == Registered(old(listenersList), k)
    {
      hide Without, Registered;
      ghost var k := Triple(sender.id, eventType, handler.id);
      ghost var list := listenersList;
      WithoutEnds(list, k);
      var i := 0;
      while i < |listenersList|
        invariant i <= |list| && listenersList == list
        invariant Without(list, k) == list[..i] + Without(list[i..], k)
        invariant Registered(list, k) <==> Registered(list[i..], k)
      {
        var l := listenersList[i];
        WithoutStep(list, i, k);
        if l.sender.id == sender.id && eventType == l.eventType && l.handler.id == handler.id {
          listenersList := listenersList[..i] + listenersList[i + 1..];
          return true;
        }
        i := i + 1;
      }
      return false;
    }

    /** `RegisterListener`: true when the listener is there afterwards, whether it was
        new or not; refused for illegal parameters and while the loop runs. */
    method RegisterListener(sender: Option<Target>, eventType: string, handler: Option<Target>) returns (ok: bool)
      modifies this`listenersList
      ensures ok <==> !old(inLoop) && Legal(Register(sender, eventType, handler))
      ensures listenersList ==
              if old(inLoop) then old(listenersList) else Apply(old(listenersList), Register(sender, eventType, handler))
    {
      if inLoop || sender.None? || handler.None? || |eventType| == 0 {
        return false;
      }
      var found := FindListener(sender.value, eventType, handler.value);
      if !found {
        listenersList := listenersList + [Listener(sender.value, eventType, handler.value)];
      }
      return true;
    }

    /** `UnregisterListener`: true when a listener was removed. */
    method UnregisterListener(sender: Option<Target>, eventType: string, handler: Option<Target>) returns (ok: bool)
      modifies this`listenersList
      ensures var c := Unregister(sender, eventType, handler);
              && (ok <==> !old(inLoop) && Legal(c) && Registered(old(listenersList), TripleOf(ListenerOf(c))))
              && listenersList == if old(inLoop) then old(listenersList) else Apply(old(listenersList), c)
    {
      if inLoop || sender.None? || handler.None? || |eventType| == 0 {
        return false;
      }
      ok := RemoveListener(sender.value, eventType, handler.value);
    }

    /** A handler's `onEvent`: it may try to change the listeners. */
    method OnEvent(d: Delivery)
      requires inLoop
      modifies this`delivered, this`listenersList
      ensures delivered == old(delivered) + [d] && listenersList == old(listenersList)
    {
      delivered := delivered + [d];
      var calls := reaction(d);
      for i := 0 to |calls|
        invariant listenersList == old(listenersList) && delivered == old(delivered) + [d]
      {
        var c := calls[i];
        if c.Register? {
          var _ := RegisterListener(c.sender, c.eventType, c.handler);
        } else {
          var _ := UnregisterListener(c.sender, c.eventType, c.handler);
        }
      }
    }

    /** One round of `doLoop`. */
    method DispatchEvent(e: Event)
      requires inLoop
      modifies this`delivered, this`listenersList
      ensures delivered == old(delivered) + Deliveries(listenersList, e) && listenersList == old(listenersList)
      ensures Delivered(listenersList, e, delivered[|old(delivered)|..])
    {
      hide Delivered;
      ghost var list := listenersList;
      DeliveriesAre(list, e);
      assert list[0..] == list;
      var size := |listenersList|;
      for i := 0 to size
        invariant listenersList == list && size == |list|
        invariant delivered + Deliveries(list[i..], e) == old(delivered) + Deliveries(list, e)
      {
        var l := listenersList[i];
        assert list[i..][1..] == list[i + 1..];
        if l.sender.id == e.senderId && l.eventType == e.eventType {
          var d := Delivery(l.handler, e.eventType, e.message);
          assert delivered + ([d] + Deliveries(list[i + 1..], e)) == delivered + [d] + Deliveries(list[i + 1..], e);
          OnEvent(d);
        }
      }
    }

    /** `doLoop`, as far as the given events, in the order the queue yields them. */
    method DoLoop(events: seq<Event>)
      modifies this
      ensures inLoop && listenersList == old(listenersList)
      ensures delivered == old(delivered) + Log(listenersList, events)
      ensures Logged(listenersList, events, delivered[|old(delivered)|..])
    {
      hide *;
      LogIs(listenersList, events);
      inLoop := true;
      ghost var list := listenersList;
      assert events[0..] == events;
      for i := 0 to |events|
        invariant inLoop && listenersList == list
        invariant delivered + Log(list, events[i..]) == old(delivered) + Log(list, events)
      {
        LogStep(list, events, i);
        assert delivered + (Deliveries(list, events[i]) + Log(list, events[i + 1..])) ==
               delivered + Deliveries(list, events[i]) + Log(list, events[i + 1..]);
        DispatchEvent(events[i]);
      }
      LogStep(list, events, |events|);
    }
  }
}
