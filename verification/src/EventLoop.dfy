/** The loop around the scheduler: how long it may sleep, which timeouts fire, which callback
    runs next, and what every run keeps. */
module EventLoop {
  import opened IdLists
  import opened EventLists
  import opened CommonTimeouts
  import opened EventState
  import opened EventBase

  /** What a timeout that goes off means for the flags: the event waits for nothing any more, is
      active, and reports the timeout. */
  ghost predicate TimedOut(e: Ev, f: Ev) {
    f == e.(inserted := false, later := false, timeout := false, active := true, byTimeout := true)
  }

  ghost predicate ExpiredIf(e: Ev, f: Ev, due: bool) {
    if due then TimedOut(e, f) else f == e
  }

  /** A timeout goes off: the event leaves every list and becomes active. */
  method Fire(b: Base, x: Id)
    requires b.Valid() && x in b.evs && b.evs[x].timeout
    modifies b`evs, b`queues, b`laterQ, b`heap, b`commons, b`count, b`countActive
    ensures b.Valid() && b.evs == old(b.evs)[x := Fired(old(b.evs)[x])] && TimedOut(old(b.evs)[x], b.evs[x])
    ensures b.queues == QueuesWith(QueuesWithout(old(b.queues), old(b.evs)[x], x), b.evs[x], x)
    ensures |b.queues| == |old(b.queues)| && |b.commons| == |old(b.commons)|
    ensures b.evs[x].common.None? ==> b.commons == old(b.commons)
  {
    Weaker(b.View(), b.evs[x].serves);
    b.NotBoth(x);
    ghost var m, a := b.evs, Deleted(b.evs[x]);
    b.Remove(x);
    assert b.evs[x] == a;
    b.Active(x, true);
    Over(m, x, a, Activated(a, true));
    if b.evs[x].serves.Some? {
      b.ProxyForm(x);
      Closed(b.View(), b.evs[x].serves.value);
    }
  }

  lemma Weaker(s: State, k: Option<nat>)
    requires Agree(s, None)
    ensures Agree(s, k)
  {
    Parts(s, None);
  }

  // ----- timeouts in the heap -----

  predicate DueInHeap(e: Ev, now: int) {
    e.timeout && e.common.None? && e.due <= now
  }

  predicate DueInCommon(e: Ev, c: nat, now: int) {
    e.timeout && e.common == Some(c) && e.due <= now
  }

  /** Some of the events that are due have fired; nothing else has changed. */
  ghost predicate Partly(m: Evs, evs: Evs, due: Ev -> bool) {
    && evs.Keys == m.Keys
    && forall x :: x in m ==> evs[x] == m[x] || (due(m[x]) && evs[x] == Fired(m[x]))
  }

  lemma PartlyMore(m: Evs, evs: Evs, due: Ev -> bool, x: Id)
    requires Partly(m, evs, due) && x in evs && due(evs[x]) && !due(Fired(m[x]))
    ensures Partly(m, evs[x := Fired(evs[x])], due)
  {
  }

  /** Exactly the events that were due have fired. */
  ghost predicate Expired(m: Evs, evs: Evs, due: Ev -> bool) {
    && evs.Keys == m.Keys
    && forall x :: x in m ==> evs[x] == if due(m[x]) then Fired(m[x]) else m[x]
  }

  /** timeout_process: exactly the events of the heap that are due fire. */
  method TimeoutProcess(b: Base, now: int)
    requires b.Valid()
    modifies b`evs, b`queues, b`laterQ, b`heap, b`commons, b`count, b`countActive
    ensures b.Valid() && |b.queues| == |old(b.queues)| && b.commons == old(b.commons)
    ensures Expired(old(b.evs), b.evs, e => DueInHeap(e, now))
    ensures forall x :: x in b.evs ==>
      && x in old(b.evs) && var e := old(b.evs)[x];
      && ExpiredIf(e, b.evs[x], e.timeout && e.common.None? && e.due <= now)
  {
    ghost var m, due := b.evs, (e: Ev) => DueInHeap(e, now);
    b.HeapMembers();
    while b.heap.p != [] && b.evs[b.heap.p[0]].due <= now
      invariant b.Valid() && |b.queues| == |old(b.queues)| && b.commons == old(b.commons)
      invariant Partly(m, b.evs, due) && b.HeapListed()
      decreases |InHeap(b.evs)|
    {
      var x := b.heap.p[0];
      HeapShrinks(b.evs, x, Fired(b.evs[x]));
      PartlyMore(m, b.evs, due, x);
      Fire(b, x);
      b.HeapMembers();
    }
    NoneDue(b, now);
  }

  lemma NoneDue(b: Base, now: int)
    requires b.Valid() && (b.heap.p == [] || (b.heap.p[0] in b.evs && b.evs[b.heap.p[0]].due > now))
    ensures forall x :: x in b.evs ==> !DueInHeap(b.evs[x], now)
  {
    Parts(b.View(), None);
    forall x | x in b.evs && b.evs[x].timeout && b.evs[x].common.None?
      ensures b.evs[x].due > now
    {
      HeapTop(b.evs, b.heap, x);
    }
  }

  lemma HeapShrinks(evs: Evs, x: Id, e: Ev)
    requires x in InHeap(evs) && !e.timeout
    ensures |InHeap(evs[x := e])| < |InHeap(evs)|
  {
    assert InHeap(evs[x := e]) == InHeap(evs) - {x};
  }

  // ----- timeouts in a common queue -----

  /** Exactly the due events of queue c have fired; only the proxy may have changed besides. */
  ghost predicate ExpiredBut(m: Evs, evs: Evs, due: Ev -> bool, p: Id) {
    && evs.Keys == m.Keys
    && forall x :: x in m && x != p ==> evs[x] == if due(m[x]) then Fired(m[x]) else m[x]
  }

  /** common_timeout_callback: exactly the due events of the queue fire, and the proxy is
      rescheduled for the first of the others, so the callback is no longer owed. */
  method CommonCallback(b: Base, now: int)
    requires b.Valid() && b.owed.Some? && b.owed.value < |b.commons|
    modifies b
    ensures b.Valid() && b.owed.None? && |b.queues| == |old(b.queues)| && |b.commons| == |old(b.commons)|
    ensures b.virtualCount == old(b.virtualCount)
    ensures
      && var c := old(b.owed).value;
      && ExpiredBut(old(b.evs), b.evs, e => DueInCommon(e, c, now), b.commons[c].proxy)
      && QueueExpired(old(b.evs), b.evs, c, now)
  {
    var c := b.owed.value;
    ghost var m, due := b.evs, (e: Ev) => DueInCommon(e, c, now);
    ExpireCommon(b, c, now);
    SomeProxy(b, c);
    if b.commons[c].events != [] {
      Weaker(b.View(), Some(c));
      b.HeadForm(c);
      b.Schedule(c);
    }
    Paid(b.View(), c);
    b.owed := None;
    SomeProxy(b, c);
    QueueMeans(m, b.evs, c, now, b.commons[c].proxy);
  }

  /** Of the ordinary events, those in queue c that are due by now have timed out, and no other. */
  ghost predicate QueueExpired(m: Evs, evs: Evs, c: nat, now: int) {
    && evs.Keys == m.Keys
    && forall x :: x in m && m[x].serves.None? ==>
         ExpiredIf(m[x], evs[x], m[x].timeout && m[x].common == Some(c) && m[x].due <= now)
  }

  lemma QueueMeans(m: Evs, evs: Evs, c: nat, now: int, p: Id)
    requires ExpiredBut(m, evs, e => DueInCommon(e, c, now), p) && p in m && m[p].serves.Some?
    ensures QueueExpired(m, evs, c, now)
  {
  }

  lemma SomeProxy(b: Base, c: nat)
    requires b.Valid() && c < |b.commons|
    ensures b.commons[c].proxy in b.evs && b.evs[b.commons[c].proxy].serves == Some(c)
  {
    Parts(b.View(), None);
    assert ProxyAt(b.evs, b.commons[c].proxy, c);
  }

  /** The loop of common_timeout_callback. */
  method ExpireCommon(b: Base, c: nat, now: int)
    requires b.Valid() && c < |b.commons|
    modifies b`evs, b`queues, b`laterQ, b`heap, b`commons, b`count, b`countActive
    ensures b.Valid() && |b.queues| == |old(b.queues)| && |b.commons| == |old(b.commons)|
    ensures Expired(old(b.evs), b.evs, e => DueInCommon(e, c, now))
  {
    ghost var m, due := b.evs, (e: Ev) => DueInCommon(e, c, now);
    CommonMembers(b, c);
    while b.commons[c].events != [] && b.evs[b.commons[c].events[0]].due <= now
      invariant b.Valid() && |b.queues| == |old(b.queues)| && |b.commons| == |old(b.commons)|
      invariant Partly(m, b.evs, due) && HeadWaits(b, c)
      decreases |InCommon(b.evs, c)|
    {
      var x := b.commons[c].events[0];
      CommonShrinks(b.evs, x, Fired(b.evs[x]), c);
      PartlyMore(m, b.evs, due, x);
      Fire(b, x);
      CommonMembers(b, c);
    }
    NoneDueInCommon(b, c, now);
  }

  ghost predicate HeadWaits(b: Base, c: nat)
    reads b
  {
    c < |b.commons| && (b.commons[c].events != [] ==> b.commons[c].events[0] in InCommon(b.evs, c))
  }

  lemma CommonMembers(b: Base, c: nat)
    requires b.Valid() && c < |b.commons|
    ensures HeadWaits(b, c)
  {
    Parts(b.View(), None);
    assert CommonOk(b.evs, b.commons[c].events, c);
    if b.commons[c].events != [] {
      assert b.commons[c].events[0] in b.commons[c].events;
    }
  }

  lemma CommonShrinks(evs: Evs, x: Id, e: Ev, c: nat)
    requires x in InCommon(evs, c) && !e.timeout
    ensures |InCommon(evs[x := e], c)| < |InCommon(evs, c)|
  {
    assert InCommon(evs[x := e], c) == InCommon(evs, c) - {x};
  }

  lemma NoneDueInCommon(b: Base, c: nat, now: int)
    requires b.Valid() && HeadWaits(b, c) && (b.commons[c].events == [] || b.evs[b.commons[c].events[0]].due > now)
    ensures forall x :: x in b.evs ==> !DueInCommon(b.evs[x], c, now)
  {
    Parts(b.View(), None);
    assert CommonOk(b.evs, b.commons[c].events, c);
    forall x | x in b.evs && b.evs[x].timeout && b.evs[x].common == Some(c)
      ensures b.evs[x].due > now
    {
      assert x in InCommon(b.evs, c);
      QueueHead(b.evs, b.commons[c].events, x);
    }
  }

  // ----- how long to sleep -----

  ghost predicate SomethingActive(evs: Evs) {
    exists x :: x in evs && (evs[x].active || evs[x].later)
  }

  ghost predicate SomethingDue(evs: Evs, now: int) {
    exists x :: x in evs && evs[x].timeout && evs[x].due <= now
  }

  /** timeout_next with the test around it in event_base_loop: how long dispatch may block, or
      None for as long as it takes. The loop never sleeps past a deadline, neither of an event
      in the heap nor of one in a common-timeout queue; it polls only if it has something to do,
      and waits for I/O alone only if there is no deadline. */
  method WaitTime(b: Base, now: int, nonblock: bool) returns (wait: Option<nat>)
    requires b.Valid() && b.owed.None?
    ensures InTime(b.evs, now, wait)
    ensures wait == Some(0) <==> nonblock || SomethingActive(b.evs) || SomethingDue(b.evs, now)
    ensures wait.None? <==> !nonblock && !SomethingActive(b.evs) && forall x :: x in b.evs ==> !b.evs[x].timeout
    ensures wait.Some? && wait.value > 0 ==> exists x :: x in b.evs && b.evs[x].timeout && b.evs[x].due == now + wait.value
  {
    CountsMean(b);
    if b.countActive == 0 && !nonblock {
      Parts(b.View(), None);
      forall x | x in b.evs && b.evs[x].timeout
        ensures b.heap.p != [] && b.heap.p[0] in b.evs && b.evs[b.heap.p[0]].due <= b.evs[x].due
      {
        assert FlagOk(b.evs[x], |b.queues|, |b.commons|);
        NothingBeforeTop(b.evs, b.heap, b.commons, x);
      }
      if b.heap.p == [] {
        wait := None;
      } else {
        b.HeapMembers();
        var due := b.evs[b.heap.p[0]].due;
        assert b.evs[b.heap.p[0]].timeout;
        wait := Some(if due <= now then 0 else due - now);
      }
    } else {
      wait := Some(0);
    }
  }

  /** The wait is over before every deadline. */
  ghost predicate InTime(evs: Evs, now: int, wait: Option<nat>) {
    forall x :: x in evs && evs[x].timeout ==> wait.Some? && (wait.value == 0 || now + wait.value <= evs[x].due)
  }

  /** An event added by another thread while the loop sleeps: unless the loop is woken, the wait
      it chose is still short enough for every deadline there is now. */
  method AddWhileAsleep(b: Base, now: int, x: Id, tv: Option<Timeout>, absolute: bool, later: int, io: int, room: bool)
    returns (wait: Option<nat>, r: int, notify: bool)
    requires b.Valid() && b.owed.None? && x in b.evs && b.evs[x].serves.None? && b.evs[x].isEvent
    requires tv.Some? && tv.value.common.Some? ==> tv.value.common.value < |b.commons|
    modifies b`evs, b`queues, b`heap, b`commons, b`count, b`countActive
    ensures b.Valid() && InTime(old(b.evs), now, wait)
    ensures !notify ==> InTime(b.evs, now, wait)
  {
    wait := WaitTime(b, now, false);
    ghost var m := b.evs;
    r, notify := b.Add(x, tv, absolute, later, io, room);
    if !notify {
      forall y | y in b.evs && b.evs[y].timeout
        ensures wait.Some? && (wait.value == 0 || now + wait.value <= b.evs[y].due)
      {
        var z :| z in m && m[z].timeout && m[z].due <= b.evs[y].due;
      }
    }
  }

  lemma CountsMean(b: Base)
    requires b.Valid()
    ensures b.count == 0 <==> forall x, f :: x in b.evs && !b.evs[x].internal ==> !Has(b.evs[x], f)
    ensures b.countActive == 0 <==> forall x :: x in b.evs ==> !b.evs[x].active && !b.evs[x].later
    ensures b.count >= 0 && b.countActive >= 0
    ensures b.countActive == TotalLength(b.queues) + |b.laterQ|
  {
    Parts(b.View(), None);
    CountExact(b.evs, b.count, b.countActive);
    ActiveCountExact(b.evs, b.queues, b.laterQ, |b.commons|, b.count, b.countActive);
  }

  /** The loop exits for want of events exactly when no user event is added, active or waiting
      for a timeout, nothing is active, and there are no virtual events. */
  method NothingLeft(b: Base) returns (r: bool)
    requires b.Valid()
    ensures r <==>
      && b.virtualCount == 0
      && (forall x, f :: x in b.evs && !b.evs[x].internal ==> !Has(b.evs[x], f))
      && (forall x :: x in b.evs ==> !b.evs[x].active && !b.evs[x].later)
  {
    CountsMean(b);
    var have := b.virtualCount > 0 || b.count > 0;
    r := !have && b.countActive == 0;
  }

  // ----- the active queues -----

  /** The callback event_process_active turns to: the oldest one of the most urgent priority
      that has any. */
  method NextActive(b: Base) returns (r: Option<Id>)
    requires b.Valid()
    ensures r.None? <==> forall x :: x in b.evs ==> !b.evs[x].active
    ensures r.Some? ==>
      && r.value in b.evs && b.evs[r.value].active
      && b.evs[r.value].pri < |b.queues| && [r.value] <= b.queues[b.evs[r.value].pri]
      && forall x :: x in b.evs && b.evs[x].active ==> b.evs[r.value].pri <= b.evs[x].pri
  {
    QueuesMean(b);
    var i := 0;
    while i < |b.queues|
      invariant 0 <= i <= |b.queues|
      invariant forall p :: 0 <= p < i ==> b.queues[p] == []
    {
      if b.queues[i] != [] {
        var x := b.queues[i][0];
        assert x in b.queues[i];
        assert x in b.evs && b.evs[x].active;
        return Some(x);
      }
      i := i + 1;
    }
    r := None;
  }

  lemma QueuesMean(b: Base)
    requires b.Valid()
    ensures forall x :: x in b.evs && b.evs[x].active ==> b.evs[x].pri < |b.queues| && x in b.queues[b.evs[x].pri]
    ensures forall p, x :: 0 <= p < |b.queues| && x in b.queues[p] ==> x in b.evs && b.evs[x].active && b.evs[x].pri == p
  {
    Parts(b.View(), None);
    forall x | x in b.evs && b.evs[x].active
      ensures b.evs[x].pri < |b.queues| && x in b.queues[b.evs[x].pri]
    {
      assert FlagOk(b.evs[x], |b.queues|, |b.commons|);
      assert x in ActiveAt(b.evs, b.evs[x].pri);
    }
    forall p, x | 0 <= p < |b.queues| && x in b.queues[p]
      ensures x in b.evs && b.evs[x].active && b.evs[x].pri == p
    {
      assert x in ActiveAt(b.evs, p);
    }
  }

  /** What starting its callback makes of an active event: a persistent one only leaves its
      queue, any other one is deleted. */
  function Begun(e: Ev): Ev {
    if e.isEvent && !e.persist && !e.finalizing then Deleted(e) else e.(active := false)
  }

  /** event_process_active_single_queue up to the callback. The callback of a proxy is owed
      until it has run. */
  method Begin(b: Base, x: Id)
    requires b.Valid() && b.owed.None? && x in b.evs && b.evs[x].active
    modifies b
    ensures b.Valid() && |b.queues| == |old(b.queues)| && |b.commons| == |old(b.commons)|
    ensures b.evs == old(b.evs)[x := Begun(old(b.evs)[x])] && b.owed == b.evs[x].serves
    ensures
      && var e := old(b.evs)[x];
      && (e.isEvent && !e.persist && !e.finalizing ==>
            Idle(b.evs[x]) && b.evs[x] == e.(inserted := false, active := false, later := false, timeout := false))
      && (!e.isEvent || e.persist || e.finalizing ==> b.evs[x] == e.(active := false))
    ensures b.queues == QueuesWithout(old(b.queues), old(b.evs)[x], x)
    ensures b.virtualCount == old(b.virtualCount)
  {
    Weaker(b.View(), b.evs[x].serves);
    if b.evs[x].isEvent && !b.evs[x].persist && !b.evs[x].finalizing {
      b.Remove(x);
    } else {
      b.RemoveActive(x);
    }
    if b.evs[x].serves.Some? {
      Owe(b.View(), b.evs[x].serves.value);
      b.owed := b.evs[x].serves;
    }
  }

  /** When a persistent event with a timeout runs next: one interval after the deadline it ran
      for, or after now if it ran for another reason or that moment has passed. */
  function NextRun(e: Ev, now: int): (due: int)
    ensures e.interval >= 0 ==> due >= now
    ensures e.byTimeout && e.due + e.interval >= now ==> due == e.due + e.interval
    ensures !e.byTimeout || e.due + e.interval < now ==> due == now + e.interval
  {
    var runAt := (if e.byTimeout then e.due else now) + e.interval;
    if runAt < now then now + e.interval else runAt
  }

  /** event_persist_closure before the callback: the event is pending again. */
  method Persist(b: Base, x: Id, now: int, io: int, room: bool) returns (r: int)
    requires b.Valid() && x in b.evs && b.evs[x].persist && b.evs[x].isEvent && b.evs[x].serves.None?
    modifies b`evs, b`queues, b`heap, b`commons, b`count, b`countActive
    ensures b.Valid() && OthersKept(old(b.evs), b.evs, x) && |b.queues| == |old(b.queues)| && |b.commons| == |old(b.commons)|
    ensures
      && var e := old(b.evs)[x];
      && (e.interval == 0 || r == -1 ==> b.evs == old(b.evs))
      && (e.interval != 0 && r == 0 ==> b.evs[x].timeout && b.evs[x].due == NextRun(e, now) && b.evs[x].common == e.common)
      && (e.interval != 0 && r == 0 && !e.byTimeout ==> b.evs[x].due == now + e.interval)
      && (e.interval != 0 && r == 0 ==> b.evs[x] == AddedEvent(e, Some(Timeout(NextRun(e, now), e.common)), true, now))
      && r == (if e.interval != 0 && (e.finalizing || (!e.timeout && !room) || (Registers(e) && io == -1)) then -1 else 0)
  {
    if b.evs[x].interval == 0 {
      return 0;
    }
    b.NotBoth(x);
    var notify;
    r, notify := b.Add(x, Some(Timeout(NextRun(b.evs[x], now), b.evs[x].common)), true, now, io, room);
  }

  /** The events of the later queue with one priority, in order. */
  ghost function OfPriority(evs: Evs, s: seq<Id>, p: nat): seq<Id> {
    if s == [] then []
    else (if s[0] in evs && evs[s[0]].pri == p then [s[0]] else []) + OfPriority(evs, s[1..], p)
  }

  lemma {:induction false} OfPriorityConcat(evs: Evs, s: seq<Id>, t: seq<Id>, p: nat)
    ensures OfPriority(evs, s + t, p) == OfPriority(evs, s, p) + OfPriority(evs, t, p)
  {
    if s == [] {
      assert s + t == t;
    } else {
      assert (s + t)[1..] == s[1..] + t;
      OfPriorityConcat(evs, s[1..], t, p);
    }
  }

  function Promoted(e: Ev): Ev {
    if e.later then e.(later := false, active := true) else e
  }

  /** event_queue_make_later_events_active: each callback of the later queue joins the queue of
      its priority, behind what was there and in the order in which it was put off. */
  method MakeLaterActive(b: Base)
    requires b.Valid()
    modifies b`evs, b`queues, b`laterQ
    ensures b.Valid() && b.laterQ == [] && |b.queues| == |old(b.queues)|
    ensures b.evs.Keys == old(b.evs).Keys && forall x :: x in b.evs ==> b.evs[x] == Promoted(old(b.evs)[x])
    ensures forall x :: x in b.evs ==>
      && var e := old(b.evs)[x];
      && b.evs[x] == e.(later := false, active := e.active || e.later)
    ensures forall p :: 0 <= p < |b.queues| ==> b.queues[p] == old(b.queues)[p] + OfPriority(old(b.evs), old(b.laterQ), p)
  {
    ghost var m, q, l := b.evs, b.queues, b.laterQ;
    while b.laterQ != []
      invariant b.Valid() && |b.queues| == |q|
      invariant b.evs.Keys == m.Keys && forall x :: x in m ==> b.evs[x] == m[x] || b.evs[x] == Promoted(m[x])
      invariant forall p :: 0 <= p < |q| ==> q[p] + OfPriority(m, l, p) == b.queues[p] + OfPriority(m, b.laterQ, p)
      decreases |b.laterQ|
    {
      Promote(b, m, q, l);
    }
    NoneLater(b);
  }

  method Promote(b: Base, ghost m: Evs, ghost q: seq<seq<Id>>, ghost l: seq<Id>)
    requires b.Valid() && |b.queues| == |q| && b.laterQ != []
    requires b.evs.Keys == m.Keys && forall x :: x in m ==> b.evs[x] == m[x] || b.evs[x] == Promoted(m[x])
    requires forall p :: 0 <= p < |q| ==> q[p] + OfPriority(m, l, p) == b.queues[p] + OfPriority(m, b.laterQ, p)
    modifies b`evs, b`queues, b`laterQ
    ensures b.Valid() && |b.queues| == |q| && b.laterQ == old(b.laterQ)[1..]
    ensures b.evs.Keys == m.Keys && forall x :: x in m ==> b.evs[x] == m[x] || b.evs[x] == Promoted(m[x])
    ensures forall p :: 0 <= p < |q| ==> q[p] + OfPriority(m, l, p) == b.queues[p] + OfPriority(m, b.laterQ, p)
  {
    var x := b.laterQ[0];
    PromoteKeeps(b.View(), x);
    var e := b.evs[x].(later := false, active := true);
    forall p | 0 <= p < |q|
      ensures b.queues[p] + OfPriority(m, b.laterQ, p) ==
              b.queues[e.pri := b.queues[e.pri] + [x]][p] + OfPriority(m, b.laterQ[1..], p)
    {
      Regroup(b.queues[p], x, OfPriority(m, b.laterQ[1..], p));
    }
    b.queues, b.laterQ, b.evs := b.queues[e.pri := b.queues[e.pri] + [x]], b.laterQ[1..], b.evs[x := e];
  }

  lemma Regroup(a: seq<Id>, x: Id, r: seq<Id>)
    ensures a + ([x] + r) == (a + [x]) + r && a + ([] + r) == a + r
  {
    assert [] + r == r;
  }

  lemma NoneLater(b: Base)
    requires b.Valid() && b.laterQ == []
    ensures forall x :: x in b.evs ==> !b.evs[x].later
  {
    Parts(b.View(), None);
    assert With(b.evs, FLater) == {};
    forall x | x in b.evs
      ensures !b.evs[x].later
    {
      assert x !in With(b.evs, FLater);
    }
  }

  // ----- every run -----

  /** What can happen to a base: calls of the interface, from callbacks and from other threads
      between two steps of the loop, and the steps of the loop itself. */
  datatype Step =
    | DoAssign(x: Id, e: Ev)
    | DoInitCommonTimeout(x: Id, seconds: int, micros: nat)
    | DoPrioritySet(x: Id, pri: int)
    | DoAdd(x: Id, tv: Option<Timeout>, absolute: bool, now: int, io: int, room: bool)
    | DoDel(x: Id, evenIfFinalizing: bool, io: int)
    | DoCancel(x: Id, evenIfFinalizing: bool, io: int)
    | DoActive(x: Id, byTimeout: bool)
    | DoActiveLater(x: Id, byTimeout: bool)
    | DoFinalize(x: Id, io: int)
    | DoRemoveTimer(x: Id)
    | DoVirtual(n: nat)
    | DoMakeLaterActive
    | DoTimeoutProcess(now: int)
    | DoBegin
    | DoPersist(x: Id, now: int, io: int, room: bool)
    | DoCommonCallback(now: int)

  /** Whether a step is one its caller may take: on events of the base that are not proxies,
      and assigning only events that are idle; the loop runs one callback at a time. */
  predicate Allowed(b: Base, st: Step)
    reads b
  {
    match st
    case DoAssign(x, e) =>
      && Idle(e) && !e.finalizing && e.serves.None? && e.common.None? && e.pri < |b.queues|
      && (x in b.evs ==> Idle(b.evs[x]) && b.evs[x].serves.None?)
    case DoInitCommonTimeout(x, _, _) => x !in b.evs
    case DoAdd(x, tv, _, _, _, _) =>
      && x in b.evs && b.evs[x].serves.None? && b.evs[x].isEvent
      && (tv.Some? && tv.value.common.Some? ==> tv.value.common.value < |b.commons|)
    case DoPersist(x, _, _, _) => x in b.evs && b.evs[x].serves.None? && b.evs[x].isEvent && b.evs[x].persist
    case DoPrioritySet(x, _) => x in b.evs && b.evs[x].serves.None?
    case DoDel(x, _, _) => x in b.evs && b.evs[x].serves.None?
    case DoCancel(x, _, _) => x in b.evs && b.evs[x].serves.None?
    case DoActive(x, _) => x in b.evs && b.evs[x].serves.None?
    case DoActiveLater(x, _) => x in b.evs && b.evs[x].serves.None?
    case DoFinalize(x, _) => x in b.evs && b.evs[x].serves.None?
    case DoRemoveTimer(x) => x in b.evs && b.evs[x].serves.None?
    case DoBegin => b.owed.None?
    case DoCommonCallback(_) => b.owed.Some? && b.owed.value < |b.commons|
    case _ => true
  }

  /** No event is registered, or becomes one that can be, that was not before. */
  ghost predicate OnlyDrops(m: Evs, m': Evs) {
    && m.Keys <= m'.Keys
    && forall y :: y in m' && (m'[y].io || m'[y].inserted) ==>
         y in m && (m'[y].io ==> m[y].io) && (m'[y].inserted ==> m[y].inserted)
  }

  /** A change to one event that registers nothing. */
  lemma OneDrops(m: Evs, x: Id, e: Ev)
    requires x in m && (e.io ==> m[x].io) && (e.inserted ==> m[x].inserted)
    ensures OnlyDrops(m, m[x := e])
  {
  }

  /** What event_del leaves of an event. */
  ghost function Removed(e: Ev): Ev {
    e.(inserted := false, active := false, later := false, timeout := false)
  }

  /** Whether the callback will be told of a timeout: results of pending activations add up. */
  ghost predicate Reports(e: Ev, byTimeout: bool) {
    byTimeout || ((e.active || e.later) && e.byTimeout)
  }

  /** What a step does to the events, flag by flag; `pris` is the number of priorities and `owed`
      the queue whose callback is to run. */
  ghost predicate Effect(m: Evs, m': Evs, pris: nat, owed: Option<nat>, st: Step) {
    match st
    case DoAssign(x, e) => m' == m[x := e]
    case DoAdd(x, tv, absolute, now, io, room) =>
      && x in m && x in m'
      && if AddFails(m[x], tv.Some?, io, room) then m' == m else Added(m[x], m'[x], tv, absolute, now)
    case DoPersist(x, now, io, room) =>
      && x in m && x in m'
      && if m[x].interval == 0 || AddFails(m[x], true, io, room) then m' == m
         else Added(m[x], m'[x], Some(Timeout(NextRun(m[x], now), m[x].common)), true, now)
    case DoPrioritySet(x, pri) =>
      x in m && m' == if !m[x].active && 0 <= pri < pris then m[x := m[x].(pri := pri)] else m
    case DoDel(x, even, _) => x in m && m' == if m[x].finalizing && !even then m else m[x := Removed(m[x])]
    case DoCancel(x, even, _) => x in m && m' == if m[x].finalizing && !even then m else m[x := Removed(m[x])]
    case DoActive(x, byTimeout) =>
      x in m && m' == if m[x].finalizing then m else m[x := m[x].(active := true, later := false, byTimeout := Reports(m[x], byTimeout))]
    case DoActiveLater(x, byTimeout) =>
      x in m && m' == m[x := m[x].(later := m[x].later || !m[x].active, byTimeout := Reports(m[x], byTimeout))]
    case DoFinalize(x, _) =>
      x in m && m' == if m[x].finalizing then m else m[x := Removed(m[x]).(active := true, byTimeout := false, finalizing := true)]
    case DoRemoveTimer(x) => x in m && m' == if m[x].timeout then m[x := m[x].(timeout := false, interval := 0)] else m
    case DoBegin => if AnyActive(m) then exists x :: Began(m, m', x) else m' == m
    case DoVirtual(_) => m' == m
    case DoInitCommonTimeout(_, _, _) => forall x :: x in m ==> x in m' && m'[x] == m[x]
    case DoMakeLaterActive =>
      m'.Keys == m.Keys && forall x :: x in m ==> m'[x] == m[x].(later := false, active := m[x].active || m[x].later)
    case DoTimeoutProcess(now) =>
      m'.Keys == m.Keys && forall x :: x in m ==> ExpiredIf(m[x], m'[x], m[x].timeout && m[x].common.None? && m[x].due <= now)
    case DoCommonCallback(now) => owed.Some? && QueueExpired(m, m', owed.value, now)
  }

  /** event_add fails: the event is being finalized, the heap cannot grow, or the map refuses. */
  predicate AddFails(e: Ev, timed: bool, io: int, room: bool) {
    e.finalizing || (timed && !e.timeout && !room) || (e.io && !e.inserted && !e.active && !e.later && io == -1)
  }

  ghost predicate AnyActive(m: Evs) {
    exists x :: x in m && m[x].active
  }

  /** The callback of x, an active event of the best priority there is, has begun. */
  ghost predicate Began(m: Evs, m': Evs, x: Id) {
    && x in m && m[x].active && (forall y :: y in m && m[y].active ==> m[x].pri <= m[y].pri)
    && m' == m[x := if m[x].isEvent && !m[x].persist && !m[x].finalizing then Removed(m[x]) else m[x].(active := false)]
  }

  method Do(b: Base, st: Step)
    requires b.Valid() && Allowed(b, st)
    modifies b
    ensures b.Valid() && Effect(old(b.evs), b.evs, old(|b.queues|), old(b.owed), st)
    ensures !st.DoAssign? && !st.DoAdd? && !st.DoPersist? ==> OnlyDrops(old(b.evs), b.evs)
  {
    if st.DoAssign? || st.DoAdd? || st.DoPersist? {
      DoArm(b, st);
    } else if st.DoInitCommonTimeout? || st.DoVirtual? || st.DoMakeLaterActive? || st.DoTimeoutProcess? || st.DoCommonCallback? {
      DoToMany(b, st);
    } else {
      ghost var m := b.evs;
      ghost var x;
      if st.DoActive? || st.DoActiveLater? || st.DoFinalize? || st.DoBegin? {
        x := DoActivate(b, st);
      } else {
        x := DoToOne(b, st);
      }
      if x.Some? {
        OneDrops(m, x.value, b.evs[x.value]);
      }
    }
  }

  /** The steps that may register an event or make it one that can be. */
  method DoArm(b: Base, st: Step)
    requires b.Valid() && Allowed(b, st) && (st.DoAssign? || st.DoAdd? || st.DoPersist?)
    modifies b
    ensures b.Valid() && Effect(old(b.evs), b.evs, old(|b.queues|), old(b.owed), st)
  {
    match st {
      case DoAssign(x, e) => b.Assign(x, e);
      case DoAdd(x, tv, absolute, now, io, room) => var _, _ := b.Add(x, tv, absolute, now, io, room);
      case DoPersist(x, now, io, room) =>
        AddMeans(b.evs[x], Some(Timeout(NextRun(b.evs[x], now), b.evs[x].common)), true, now);
        var _ := Persist(b, x, now, io, room);
    }
  }

  /** The steps that change any number of events. */
  method DoToMany(b: Base, st: Step)
    requires b.Valid() && Allowed(b, st)
    requires st.DoInitCommonTimeout? || st.DoVirtual? || st.DoMakeLaterActive? || st.DoTimeoutProcess? || st.DoCommonCallback?
    modifies b
    ensures b.Valid() && Effect(old(b.evs), b.evs, old(|b.queues|), old(b.owed), st) && OnlyDrops(old(b.evs), b.evs)
  {
    match st {
      case DoInitCommonTimeout(x, seconds, micros) => var _ := b.InitCommonTimeout(x, seconds, micros);
      case DoVirtual(n) => b.virtualCount := n;
      case DoMakeLaterActive => MakeLaterActive(b);
      case DoTimeoutProcess(now) => TimeoutProcess(b, now);
      case DoCommonCallback(now) =>
        ghost var c := b.owed.value;
        PlainProxy(b, c);
        CommonCallback(b, now);
        PlainProxy(b, c);
    }
  }

  /** The event y was changed, if any, and it was not registered by that. */
  ghost predicate OneChanged(m: Evs, m': Evs, y: Option<Id>) {
    && (y.None? ==> m' == m)
    && (y.Some? ==>
          && y.value in m && y.value in m' && m' == m[y.value := m'[y.value]]
          && (m'[y.value].io ==> m[y.value].io) && (m'[y.value].inserted ==> m[y.value].inserted))
  }

  /** The steps that change one event. */
  method DoToOne(b: Base, st: Step) returns (ghost x: Option<Id>)
    requires b.Valid() && Allowed(b, st) && (st.DoPrioritySet? || st.DoDel? || st.DoCancel? || st.DoRemoveTimer?)
    modifies b
    ensures b.Valid() && Effect(old(b.evs), b.evs, old(|b.queues|), old(b.owed), st) && OneChanged(old(b.evs), b.evs, x)
  {
    x := Some(st.x);
    match st {
      case DoPrioritySet(y, pri) => var _ := b.PrioritySet(y, pri);
      case DoDel(y, even, io) => var _ := b.Del(y, even, io);
      case DoCancel(y, even, io) => var _ := b.Cancel(y, even, io);
      case DoRemoveTimer(y) => b.RemoveTimer(y);
    }
  }

  /** The steps that make an event active or begin its callback. */
  method DoActivate(b: Base, st: Step) returns (ghost x: Option<Id>)
    requires b.Valid() && Allowed(b, st) && (st.DoActive? || st.DoActiveLater? || st.DoFinalize? || st.DoBegin?)
    modifies b
    ensures b.Valid() && Effect(old(b.evs), b.evs, old(|b.queues|), old(b.owed), st) && OneChanged(old(b.evs), b.evs, x)
  {
    x := if st.DoBegin? then None else Some(st.x);
    match st {
      case DoActive(y, byTimeout) => b.Active(y, byTimeout);
      case DoActiveLater(y, byTimeout) => b.ActiveLater(y, byTimeout);
      case DoFinalize(y, io) => b.Finalize(y, io);
      case DoBegin => x := BeginNext(b);
    }
  }

  method BeginNext(b: Base) returns (x: Option<Id>)
    requires b.Valid() && b.owed.None?
    modifies b
    ensures b.Valid() && (x.None? ==> b.evs == old(b.evs) && forall y :: y in b.evs ==> !b.evs[y].active)
    ensures x.Some? ==> Began(old(b.evs), b.evs, x.value)
  {
    x := NextActive(b);
    if x.Some? {
      Begin(b, x.value);
    }
  }

  lemma PlainProxy(b: Base, c: nat)
    requires b.Valid() && c < |b.commons|
    ensures b.commons[c].proxy in b.evs && Plain(b.evs[b.commons[c].proxy])
  {
    Parts(b.View(), None);
    assert ProxyAt(b.evs, b.commons[c].proxy, c);
  }

  /** Every run of allowed steps from a new base keeps flags, lists and counters in agreement
      and every common-timeout queue covered; so whenever the loop is about to sleep, its wait
      respects every deadline. Steps that are not allowed are left out of the run. */
  method Run(priorities: nat, steps: seq<Step>, now: int) returns (b: Base, wait: Option<nat>)
    requires priorities > 0
    ensures fresh(b) && b.Valid()
    ensures QueuesOk(b.evs, b.queues) && LaterOk(b.evs, b.laterQ) && FlagsOk(b.evs, |b.queues|, |b.commons|)
    ensures TimersOk(b.evs, b.heap, b.commons) && Counts(b.evs, b.count, b.countActive)
    ensures b.owed.None? ==> forall x :: x in b.evs && b.evs[x].timeout ==>
      wait.Some? && (wait.value == 0 || now + wait.value <= b.evs[x].due)
    ensures b.owed.None? ==> (wait == Some(0) <==> SomethingActive(b.evs) || SomethingDue(b.evs, now))
    ensures b.countActive == TotalLength(b.queues) + |b.laterQ|
  {
    b := new Base(priorities);
    for i := 0 to |steps|
      invariant fresh(b) && b.Valid()
    {
      if Allowed(b, steps[i]) {
        Do(b, steps[i]);
      }
    }
    CountsMean(b);
    Parts(b.View(), None);
    wait := None;
    if b.owed.None? {
      wait := WaitTime(b, now, false);
    }
  }
}
