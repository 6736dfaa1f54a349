/** A whole scheduler state, and the primitive changes that keep it consistent. */
module EventState {
  import opened IdLists
  import opened MinHeap
  import opened EventLists
  import opened CommonTimeouts

  datatype State = State(
    evs: Evs, queues: seq<seq<Id>>, laterQ: seq<Id>, heap: Heap, commons: seq<Common>,
    count: int, countActive: int, owed: Option<nat>)

  datatype Aspect = ActiveQueues | LaterQueue | Timers | Flags | Counters | Guarded

  ghost predicate Holds(s: State, k: Option<nat>, a: Aspect) {
    match a
    case ActiveQueues => QueuesOk(s.evs, s.queues)
    case LaterQueue => LaterOk(s.evs, s.laterQ)
    case Timers => TimersOk(s.evs, s.heap, s.commons)
    case Flags => FlagsOk(s.evs, |s.queues|, |s.commons|)
    case Counters => Counts(s.evs, s.count, s.countActive)
    case Guarded => Guard(s.evs, s.commons, s.owed, k)
  }

  /** Lists and counters agree with the flags, and every common-timeout queue except possibly
      queue k is guarded. */
  ghost predicate Agree(s: State, k: Option<nat>) {
    forall a: Aspect :: Holds(s, k, a)
  }

  lemma Parts(s: State, k: Option<nat>)
    requires Agree(s, k)
    ensures QueuesOk(s.evs, s.queues) && LaterOk(s.evs, s.laterQ) && TimersOk(s.evs, s.heap, s.commons)
    ensures FlagsOk(s.evs, |s.queues|, |s.commons|) && Counts(s.evs, s.count, s.countActive)
    ensures Guard(s.evs, s.commons, s.owed, k)
  {
    assert Holds(s, k, ActiveQueues) && Holds(s, k, LaterQueue) && Holds(s, k, Timers) && Holds(s, k, Flags);
    assert Holds(s, k, Counters) && Holds(s, k, Guarded);
  }

  lemma InsertedKeeps(s: State, x: Id, on: bool)
    requires x in s.evs && Agree(s, s.evs[x].serves) && s.evs[x].inserted != on
    requires on ==> s.evs[x].isEvent && !s.evs[x].finalizing && s.evs[x].serves.None?
    ensures
      && var e := s.evs[x].(inserted := on);
      && Agree(s.(evs := s.evs[x := e], count := if on then s.count + Weight(e) else s.count - Weight(e)), s.evs[x].serves)
  {
    Parts(s, s.evs[x].serves);
    var e := s.evs[x].(inserted := on);
    QueuesFrame(s.evs, x, e, s.queues);
    LaterFrame(s.evs, x, e, s.laterQ);
    TimersFrame(s.evs, x, e, s.heap, s.commons);
    FlagsFrame(s.evs, x, e, |s.queues|, |s.commons|);
    GuardKept(s.evs, x, e, s.commons, s.owed);
    CountsSet(s.evs, x, FInserted, on, s.count, s.countActive);
  }

  /** Changes that concern no list: the result, the finalizing flag, the deadline of an event
      that is not on a timer list, the priority of one that is not active. */
  lemma NoteKeeps(s: State, x: Id, e: Ev)
    requires x in s.evs && Agree(s, s.evs[x].serves) && FlagOk(e, |s.queues|, |s.commons|) && e.internal == s.evs[x].internal
    requires e.serves == s.evs[x].serves && (e.serves.Some? && Plain(s.evs[x]) ==> Plain(e))
    requires forall f :: Has(e, f) == Has(s.evs[x], f)
    requires e.active ==> e.pri == s.evs[x].pri
    requires e.timeout ==> e.due == s.evs[x].due && e.common == s.evs[x].common
    ensures Agree(s.(evs := s.evs[x := e]), e.serves)
  {
    Parts(s, s.evs[x].serves);
    assert Has(e, FActive) == Has(s.evs[x], FActive) && Has(e, FLater) == Has(s.evs[x], FLater);
    assert Has(e, FTimeout) == Has(s.evs[x], FTimeout);
    QueuesFrame(s.evs, x, e, s.queues);
    LaterFrame(s.evs, x, e, s.laterQ);
    TimersFrame(s.evs, x, e, s.heap, s.commons);
    FlagsFrame(s.evs, x, e, |s.queues|, |s.commons|);
    GuardKept(s.evs, x, e, s.commons, s.owed);
    CountsFrame(s.evs, x, e, s.count, s.countActive);
  }

  /** Becoming active or not concerns the active queues and the counters only. */
  lemma ActiveElsewhere(s: State, x: Id, e: Ev)
    requires x in s.evs && Agree(s, s.evs[x].serves) && e == s.evs[x].(active := e.active) && !(e.active && e.later)
    ensures LaterOk(s.evs[x := e], s.laterQ) && TimersOk(s.evs[x := e], s.heap, s.commons)
    ensures FlagsOk(s.evs[x := e], |s.queues|, |s.commons|) && Guard(s.evs[x := e], s.commons, s.owed, e.serves)
  {
    Parts(s, s.evs[x].serves);
    LaterFrame(s.evs, x, e, s.laterQ);
    TimersFrame(s.evs, x, e, s.heap, s.commons);
    FlagsFrame(s.evs, x, e, |s.queues|, |s.commons|);
    GuardKept(s.evs, x, e, s.commons, s.owed);
  }

  lemma ActiveCounts(s: State, x: Id, on: bool)
    requires x in s.evs && Agree(s, s.evs[x].serves) && s.evs[x].active != on
    ensures QueuesOk(s.evs, s.queues) && s.evs[x].pri < |s.queues|
    ensures
      && var e, d := s.evs[x].(active := on), if on then 1 else -1;
      && Counts(s.evs[x := e], s.count + d * Weight(e), s.countActive + d)
  {
    Parts(s, s.evs[x].serves);
    assert FlagOk(s.evs[x], |s.queues|, |s.commons|);
    CountsSet(s.evs, x, FActive, on, s.count, s.countActive);
  }

  lemma InsertActiveKeeps(s: State, x: Id)
    requires x in s.evs && Agree(s, s.evs[x].serves) && !s.evs[x].active && !s.evs[x].later
    ensures s.evs[x].pri < |s.queues|
    ensures
      && var e := s.evs[x].(active := true);
      && Agree(s.(evs := s.evs[x := e], queues := s.queues[e.pri := s.queues[e.pri] + [x]],
                  count := s.count + Weight(e), countActive := s.countActive + 1), s.evs[x].serves)
  {
    ActiveElsewhere(s, x, s.evs[x].(active := true));
    ActiveCounts(s, x, true);
    QueuesInsert(s.evs, x, s.queues);
  }

  lemma RemoveActiveKeeps(s: State, x: Id)
    requires x in s.evs && Agree(s, s.evs[x].serves) && s.evs[x].active
    ensures s.evs[x].pri < |s.queues|
    ensures
      && var e := s.evs[x].(active := false);
      && Agree(s.(evs := s.evs[x := e], queues := s.queues[e.pri := Drop(s.queues[e.pri], x)],
                  count := s.count - Weight(e), countActive := s.countActive - 1), s.evs[x].serves)
  {
    ActiveElsewhere(s, x, s.evs[x].(active := false));
    ActiveCounts(s, x, false);
    QueuesRemove(s.evs, x, s.queues);
  }

  lemma InsertLaterKeeps(s: State, x: Id)
    requires x in s.evs && Agree(s, None) && s.evs[x].serves.None? && !s.evs[x].active && !s.evs[x].later
    ensures
      && var e := s.evs[x].(later := true);
      && Agree(s.(evs := s.evs[x := e], laterQ := s.laterQ + [x],
                  count := s.count + Weight(e), countActive := s.countActive + 1), None)
  {
    Parts(s, None);
    var e := s.evs[x].(later := true);
    QueuesFrame(s.evs, x, e, s.queues);
    TimersFrame(s.evs, x, e, s.heap, s.commons);
    FlagsFrame(s.evs, x, e, |s.queues|, |s.commons|);
    GuardKept(s.evs, x, e, s.commons, s.owed);
    CountsSet(s.evs, x, FLater, true, s.count, s.countActive);
    LaterInsert(s.evs, x, s.laterQ);
  }

  lemma RemoveLaterKeeps(s: State, x: Id)
    requires x in s.evs && Agree(s, s.evs[x].serves) && s.evs[x].later
    ensures
      && var e := s.evs[x].(later := false);
      && Agree(s.(evs := s.evs[x := e], laterQ := Drop(s.laterQ, x),
                  count := s.count - Weight(e), countActive := s.countActive - 1), s.evs[x].serves)
  {
    Parts(s, s.evs[x].serves);
    var e := s.evs[x].(later := false);
    QueuesFrame(s.evs, x, e, s.queues);
    TimersFrame(s.evs, x, e, s.heap, s.commons);
    FlagsFrame(s.evs, x, e, |s.queues|, |s.commons|);
    GuardKept(s.evs, x, e, s.commons, s.owed);
    CountsSet(s.evs, x, FLater, false, s.count, s.countActive);
    LaterRemove(s.evs, x, s.laterQ);
  }

  lemma LaterHead(s: State)
    requires Agree(s, None) && s.laterQ != []
    ensures s.laterQ[0] in s.evs && s.evs[s.laterQ[0]].later && s.evs[s.laterQ[0]].serves.None?
  {
    Parts(s, None);
    var x := s.laterQ[0];
    assert x in With(s.evs, FLater);
    assert s.evs[x].serves.Some? ==> ProxyAt(s.evs, x, s.evs[x].serves.value);
  }

  /** Moving the first event of the later queue to its active queue leaves the counters right. */
  lemma PromoteKeeps(s: State, x: Id)
    requires Agree(s, None) && s.laterQ != [] && x == s.laterQ[0]
    ensures x in s.evs && s.evs[x].later && s.evs[x].pri < |s.queues|
    ensures
      && var e := s.evs[x].(later := false, active := true);
      && Agree(s.(evs := s.evs[x := e], queues := s.queues[e.pri := s.queues[e.pri] + [x]], laterQ := s.laterQ[1..]), None)
  {
    LaterHead(s);
    RemoveLaterKeeps(s, x);
    var e := s.evs[x].(later := false);
    var s' := s.(evs := s.evs[x := e], laterQ := Drop(s.laterQ, x), count := s.count - Weight(e), countActive := s.countActive - 1);
    assert !e.active by {
      Parts(s, None);
      assert FlagOk(s.evs[x], |s.queues|, |s.commons|);
    }
    InsertActiveKeeps(s', x);
    Over(s.evs, x, e, e.(active := true));
    assert Drop(s.laterQ, x) == s.laterQ[1..];
  }

  /** Once queue k is covered there is no exception left. */
  lemma Closed(s: State, k: nat)
    requires Agree(s, Some(k)) && (k < |s.commons| ==> Covered(s.evs, s.commons[k], s.owed == Some(k)))
    ensures Agree(s, None)
  {
    Parts(s, Some(k));
  }

  /** Two changes to one event are one change. */
  lemma Over(evs: Evs, x: Id, a: Ev, b: Ev)
    ensures evs[x := a][x := b] == evs[x := b]
  {
  }

  lemma RemoveTimeoutKeeps(s: State, x: Id, heap: Heap, commons: seq<Common>)
    requires x in s.evs && Agree(s, s.evs[x].serves) && s.evs[x].timeout && |commons| == |s.commons|
    requires TimersOk(s.evs[x := s.evs[x].(timeout := false)], heap, commons)
    requires Guard(s.evs[x := s.evs[x].(timeout := false)], commons, s.owed, s.evs[x].serves)
    ensures
      && var e := s.evs[x].(timeout := false);
      && Agree(s.(evs := s.evs[x := e], heap := heap, commons := commons, count := s.count - Weight(e)), s.evs[x].serves)
  {
    Parts(s, s.evs[x].serves);
    var e := s.evs[x].(timeout := false);
    QueuesFrame(s.evs, x, e, s.queues);
    LaterFrame(s.evs, x, e, s.laterQ);
    FlagsFrame(s.evs, x, e, |s.queues|, |s.commons|);
    CountsSet(s.evs, x, FTimeout, false, s.count, s.countActive);
  }

  lemma InsertTimeoutKeeps(s: State, x: Id, heap: Heap, commons: seq<Common>, k: Option<nat>)
    requires x in s.evs && Agree(s, s.evs[x].serves) && !s.evs[x].timeout && s.evs[x].isEvent && !s.evs[x].finalizing
    requires (s.evs[x].common.Some? ==> s.evs[x].common.value < |s.commons|) && |commons| == |s.commons|
    requires TimersOk(s.evs[x := s.evs[x].(timeout := true)], heap, commons)
    requires Guard(s.evs[x := s.evs[x].(timeout := true)], commons, s.owed, k)
    ensures
      && var e := s.evs[x].(timeout := true);
      && Agree(s.(evs := s.evs[x := e], heap := heap, commons := commons, count := s.count + Weight(e)), k)
  {
    Parts(s, s.evs[x].serves);
    var e := s.evs[x].(timeout := true);
    QueuesFrame(s.evs, x, e, s.queues);
    LaterFrame(s.evs, x, e, s.laterQ);
    FlagsFrame(s.evs, x, e, |s.queues|, |s.commons|);
    CountsSet(s.evs, x, FTimeout, true, s.count, s.countActive);
  }

  // ----- the callback of a common-timeout queue: started, and later paid off -----

  lemma Owe(s: State, c: nat)
    requires Agree(s, Some(c)) && s.owed.None?
    ensures Agree(s.(owed := Some(c)), None)
  {
    Parts(s, Some(c));
  }

  lemma Paid(s: State, c: nat)
    requires Agree(s, None) && s.owed == Some(c) && (c < |s.commons| ==> Covered(s.evs, s.commons[c], false))
    ensures Agree(s.(owed := None), None)
  {
    Parts(s, None);
  }

  // ----- new events and new queues -----

  predicate Idle(e: Ev) {
    !e.inserted && !e.active && !e.later && !e.timeout
  }

  lemma AssignLists(s: State, x: Id, e: Ev)
    requires QueuesOk(s.evs, s.queues) && LaterOk(s.evs, s.laterQ) && Counts(s.evs, s.count, s.countActive)
    requires Idle(e) && (x in s.evs ==> Idle(s.evs[x]))
    ensures QueuesOk(s.evs[x := e], s.queues) && LaterOk(s.evs[x := e], s.laterQ) && Counts(s.evs[x := e], s.count, s.countActive)
  {
    forall f
      ensures With(s.evs[x := e], f) == With(s.evs, f) && UserWith(s.evs[x := e], f) == UserWith(s.evs, f)
    {
    }
    forall p | 0 <= p < |s.queues|
      ensures ActiveAt(s.evs[x := e], p) == ActiveAt(s.evs, p)
    {
    }
  }

  lemma AssignTimers(s: State, x: Id, e: Ev)
    requires TimersOk(s.evs, s.heap, s.commons) && Idle(e) && (x in s.evs ==> Idle(s.evs[x]))
    ensures TimersOk(s.evs[x := e], s.heap, s.commons)
  {
    var evs' := s.evs[x := e];
    assert InHeap(evs') == InHeap(s.evs);
    assert x !in s.heap.pos;
    assert forall y :: y in s.heap.pos ==> Times(evs')[y] == Times(s.evs)[y];
    forall c | 0 <= c < |s.commons|
      ensures CommonOk(evs', s.commons[c].events, c)
    {
      assert CommonOk(s.evs, s.commons[c].events, c);
      assert InCommon(evs', c) == InCommon(s.evs, c);
      assert x !in InCommon(s.evs, c);
      SortedSame(s.evs, evs', s.commons[c].events);
    }
  }

  lemma AssignGuard(s: State, x: Id, e: Ev)
    requires Guard(s.evs, s.commons, s.owed, None) && CommonsOk(s.evs, s.commons) && Idle(e) && e.serves.None?
    requires x in s.evs ==> Idle(s.evs[x]) && s.evs[x].serves.None?
    ensures Guard(s.evs[x := e], s.commons, s.owed, None)
  {
    forall c | 0 <= c < |s.commons|
      ensures ProxyAt(s.evs[x := e], s.commons[c].proxy, c) && Covered(s.evs[x := e], s.commons[c], s.owed == Some(c))
    {
      assert ProxyAt(s.evs, s.commons[c].proxy, c) && Covered(s.evs, s.commons[c], s.owed == Some(c));
      assert CommonOk(s.evs, s.commons[c].events, c);
      assert x !in InCommon(s.evs, c);
    }
  }

  /** event_assign on an event that is on no list. */
  lemma AssignKeeps(s: State, x: Id, e: Ev)
    requires Agree(s, None) && Idle(e) && e.serves.None? && e.common.None? && e.pri < |s.queues|
    requires x in s.evs ==> Idle(s.evs[x]) && s.evs[x].serves.None?
    ensures Agree(s.(evs := s.evs[x := e]), None)
  {
    Parts(s, None);
    AssignLists(s, x, e);
    AssignTimers(s, x, e);
    AssignGuard(s, x, e);
    FlagsFrame(s.evs, x, e, |s.queues|, |s.commons|);
  }

  /** A new common-timeout queue with its proxy. */
  lemma NewCommonKeeps(s: State, p: Id, e: Ev, d: (int, int))
    requires Agree(s, None) && p !in s.evs && Idle(e) && Plain(e) && e.serves == Some(|s.commons|) && e.pri < |s.queues|
    ensures Agree(s.(evs := s.evs[p := e], commons := s.commons + [Common([], p, d)]), None)
  {
    Parts(s, None);
    AssignLists(s, p, e);
    AssignTimers(s, p, e);
    NewCommonTimers(s, s.evs[p := e], p, d);
    NewCommonGuard(s, p, e, d);
    FlagsFrame(s.evs, p, e, |s.queues|, |s.commons|);
  }

  lemma NewCommonTimers(s: State, evs: Evs, p: Id, d: (int, int))
    requires TimersOk(evs, s.heap, s.commons) && FlagsOk(s.evs, |s.queues|, |s.commons|)
    requires forall x :: x in evs && x !in s.evs ==> !evs[x].timeout
    requires forall x :: x in evs && x in s.evs ==> evs[x] == s.evs[x]
    ensures TimersOk(evs, s.heap, s.commons + [Common([], p, d)])
  {
    assert InCommon(evs, |s.commons|) == {} by {
      forall x | x in evs && x in s.evs
        ensures !(evs[x].timeout && evs[x].common == Some(|s.commons|))
      {
        assert FlagOk(s.evs[x], |s.queues|, |s.commons|);
      }
    }
  }

  lemma NewCommonGuard(s: State, p: Id, e: Ev, d: (int, int))
    requires Guard(s.evs, s.commons, s.owed, None) && CommonsOk(s.evs, s.commons)
    requires p !in s.evs && Plain(e) && e.serves == Some(|s.commons|)
    ensures Guard(s.evs[p := e], s.commons + [Common([], p, d)], s.owed, None)
  {
    forall c | 0 <= c < |s.commons|
      ensures ProxyAt(s.evs[p := e], s.commons[c].proxy, c) && Covered(s.evs[p := e], s.commons[c], s.owed == Some(c))
    {
      assert ProxyAt(s.evs, s.commons[c].proxy, c) && Covered(s.evs, s.commons[c], s.owed == Some(c));
      assert CommonOk(s.evs, s.commons[c].events, c);
    }
  }
}
