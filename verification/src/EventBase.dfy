/** The scheduler: adding, deleting, activating and timing out events, with priority queues,
    a later queue, a timer heap and common-timeout queues that stand in the heap through one
    proxy event each. */
module EventBase {
  import opened IdLists
  import opened MinHeap
  import opened EventLists
  import opened CommonTimeouts
  import opened EventState

  function TimesOf(evs: Evs): (t: map<Id, int>)
    ensures t == Times(evs)
  {
    map x | x in evs :: evs[x].due
  }

  /** What event_del leaves of an event. */
  function Deleted(e: Ev): Ev {
    e.(timeout := false, active := false, later := false, inserted := false)
  }

  /** What a timeout that fires makes of an event. */
  function Fired(e: Ev): Ev {
    Deleted(e).(active := true, byTimeout := true)
  }

  /** What a new timeout makes of an event: the deadline is set, and an activation that was due
      to the old timeout is withdrawn. */
  function Timed(e: Ev, due: int, common: Option<nat>): Ev {
    Unscheduled(e).(timeout := true, due := due, common := common)
  }

  function Unscheduled(e: Ev): Ev {
    e.(timeout := false, active := e.active && !e.byTimeout)
  }

  /** What event_active makes of an event: it joins its active queue unless it is being
      finalized; results of pending activations add up. */
  function Activated(e: Ev, byTimeout: bool): Ev {
    if e.finalizing then e else Resulted(e, byTimeout).(active := true, later := false)
  }

  function ActivatedLater(e: Ev, byTimeout: bool): Ev {
    if e.active || e.later then Resulted(e, byTimeout) else Resulted(e, byTimeout).(later := true)
  }

  function Resulted(e: Ev, byTimeout: bool): Ev {
    e.(byTimeout := byTimeout || ((e.active || e.later) && e.byTimeout))
  }

  /** A timeout as callers give it: a time, and the common-timeout queue its magic bits name. */
  datatype Timeout = Timeout(time: int, common: Option<nat>)

  /** Whether event_add has to register the descriptor or signal. */
  predicate Registers(e: Ev) {
    e.io && !e.inserted && !e.active && !e.later
  }

  function Registered(e: Ev): Ev {
    if Registers(e) then e.(inserted := true) else e
  }

  function Remembering(e: Ev, time: int, absolute: bool): Ev {
    if e.persist && !absolute then e.(interval := time) else e
  }

  /** What a successful event_add makes of an event. */
  function AddedEvent(e: Ev, tv: Option<Timeout>, absolute: bool, now: int): Ev {
    if tv.None? then Registered(e)
    else
      var time := tv.value.time;
      Timed(Remembering(Registered(e), time, absolute), if absolute then time else now + time, tv.value.common)
  }

  /** What adding means for the flags: an event with a descriptor that is not registered, active
      or put off is registered; a timeout is set, is remembered by a persistent event, and
      withdraws an activation that an earlier timeout made. */
  ghost predicate Added(e: Ev, f: Ev, tv: Option<Timeout>, absolute: bool, now: int) {
    && f.inserted == (e.inserted || (e.io && !e.active && !e.later))
    && (tv.None? ==> f == e.(inserted := f.inserted))
    && (tv.Some? ==>
          && f.timeout && f.common == tv.value.common
          && f.due == (if absolute then tv.value.time else now + tv.value.time)
          && f.active == (e.active && !e.byTimeout)
          && f.interval == (if e.persist && !absolute then tv.value.time else e.interval)
          && f == e.(inserted := f.inserted, timeout := f.timeout, common := f.common, due := f.due,
                     active := f.active, interval := f.interval))
  }

  lemma AddMeans(e: Ev, tv: Option<Timeout>, absolute: bool, now: int)
    ensures Added(e, AddedEvent(e, tv, absolute, now), tv, absolute, now)
  {
  }

  /** Ordinary events other than x are as they were, and proxies still are proxies. */
  ghost predicate OthersKept(evs: Evs, evs': Evs, x: Id) {
    && evs'.Keys == evs.Keys && x in evs
    && forall y :: y in evs && y != x ==>
         evs'[y].serves == evs[y].serves && (evs[y].serves.None? ==> evs'[y] == evs[y])
  }

  const MAX_COMMON_TIMEOUTS: nat := 256

  /** The microseconds without the marks of a common timeout, if they carry those of one of
      the n queues: 5 in the top four bits and the index of the queue in the next eight. */
  function Unmarked(micros: nat, n: nat): nat {
    if micros / 0x1000_0000 % 16 == 5 && micros / 0x10_0000 % 256 < n then micros % 0x10_0000 else micros
  }

  /** A duration with more than a million microseconds loses such marks and is carried into the
      seconds. */
  function Carried(seconds: int, micros: nat, n: nat): (int, int) {
    if micros > 1000000 then
      var u := Unmarked(micros, n);
      (seconds + u / 1000000, u % 1000000)
    else (seconds, micros)
  }

  /** What carrying means for 32 bits of microseconds, cut in 4, 8 and 20: a million or less is
      left alone, the marks of one of the n queues do not count, anything else keeps the length of
      the duration, and the microseconds are then less than a second. */
  lemma CarriedMeans(seconds: int, top: nat, i: nat, u: nat, n: nat)
    requires top < 16 && i < 256 && u < 0x10_0000
    ensures
      && var micros := top * 0x1000_0000 + i * 0x10_0000 + u;
      && var (s, m) := Carried(seconds, micros, n);
      && (micros <= 1000000 ==> s == seconds && m == micros)
      && (micros > 1000000 ==> 0 <= m < 1000000)
      && (top == 5 && i < n ==> s * 1000000 + m == seconds * 1000000 + u)
      && (top != 5 || i >= n ==> s * 1000000 + m == seconds * 1000000 + micros)
  {
    var micros := top * 0x1000_0000 + i * 0x10_0000 + u;
    assert micros / 0x10_0000 == top * 256 + i && micros % 0x10_0000 == u;
    assert micros / 0x1000_0000 == top;
    assert (top * 256 + i) % 256 == i;
  }

  ghost predicate NoQueue(commons: seq<Common>, d: (int, int)) {
    forall i :: 0 <= i < |commons| ==> commons[i].duration != d
  }

  /** Some event is due at t or before. */
  ghost predicate DueBy(evs: Evs, t: int) {
    exists z :: z in evs && evs[z].timeout && evs[z].due <= t
  }

  /** No deadline is before all the old ones. */
  ghost predicate NotEarlier(before: Evs, evs: Evs) {
    forall y :: y in evs && evs[y].timeout ==> DueBy(before, evs[y].due)
  }

  /** Giving x a deadline that some other event does not exceed. */
  lemma LaterThan(m: Evs, x: Id, e: Ev, z: Id)
    requires z in m && z != x && m[z].timeout && m[z].due <= e.due
    ensures NotEarlier(m, m[x := e])
  {
  }

  /** Giving x a place in a queue and the proxy p a deadline, neither before one in the heap. */
  lemma BothLaterThan(m: Evs, x: Id, e: Ev, p: Id, f: Ev, z: Id)
    requires x in m && z in m[x := e] && m[x := e][z].common.None? && e.common.Some? && z != p
    requires m[x := e][z].timeout && m[x := e][z].due <= e.due && m[x := e][z].due <= f.due
    ensures NotEarlier(m, m[x := e][p := f])
  {
    assert z in m && m[z] == m[x := e][z];
  }

  lemma OnlyOne(m: Evs, x: Id, e: Ev)
    requires x in m
    ensures OthersKept(m, m[x := e], x)
  {
  }

  /** An event and a proxy changed. */
  lemma OnlyProxy(m: Evs, x: Id, e: Ev, p: Id, f: Ev)
    requires x in m && p in m && p != x && m[p].serves == f.serves && f.serves.Some?
    ensures OthersKept(m, m[x := e][p := f], x)
  {
  }

  /** A change before that leaves the timeout of x alone makes no difference. */
  lemma SameDeadlines(m: Evs, x: Id, e: Ev, m': Evs)
    requires x in m && e.timeout == m[x].timeout && e.due == m[x].due && OthersKept(m[x := e], m', x)
    ensures OthersKept(m, m', x)
    ensures NotEarlier(m[x := e], m') ==> NotEarlier(m, m')
  {
    if NotEarlier(m[x := e], m') {
      StillNotEarlier(m, x, e, m');
    }
  }

  lemma StillNotEarlier(m: Evs, x: Id, e: Ev, m': Evs)
    requires x in m && e.timeout == m[x].timeout && e.due == m[x].due && NotEarlier(m[x := e], m')
    ensures NotEarlier(m, m')
  {
    forall y | y in m' && m'[y].timeout
      ensures DueBy(m, m'[y].due)
    {
      var z :| z in m[x := e] && m[x := e][z].timeout && m[x := e][z].due <= m'[y].due;
      assert z in m && m[z].timeout && m[z].due <= m'[y].due;
    }
  }

  lemma NotEarlierSelf(m: Evs)
    ensures NotEarlier(m, m)
  {
  }

  /** The active queues without and with an event, in order. */
  function QueuesWithout(queues: seq<seq<Id>>, e: Ev, x: Id): seq<seq<Id>> {
    if e.active && e.pri < |queues| then queues[e.pri := Drop(queues[e.pri], x)] else queues
  }

  function QueuesWith(queues: seq<seq<Id>>, e: Ev, x: Id): seq<seq<Id>> {
    if e.pri < |queues| then queues[e.pri := queues[e.pri] + [x]] else queues
  }

  class Base {
    var evs: Evs
    var queues: seq<seq<Id>>
    var laterQ: seq<Id>
    var heap: Heap
    var commons: seq<Common>
    var count: int
    var countActive: int
    var virtualCount: nat
    /** The common-timeout queue whose callback has been started and has yet to take the lock. */
    var owed: Option<nat>

    ghost function View(): State
      reads this
    {
      State(evs, queues, laterQ, heap, commons, count, countActive, owed)
    }

    /** Lists and counters agree with the flags, and every common-timeout queue except
        possibly k is covered. */
    ghost predicate Ok(k: Option<nat>)
      reads this
    {
      Agree(View(), k)
    }

    ghost predicate Valid()
      reads this
    {
      Ok(None)
    }

    // ----- the queue primitives -----

    /** event_queue_insert_inserted and event_queue_remove_inserted */
    method SetInserted(x: Id, on: bool)
      requires x in evs && Ok(evs[x].serves) && evs[x].inserted != on
      requires on ==> evs[x].isEvent && !evs[x].finalizing && evs[x].serves.None?
      modifies this`evs, this`count
      ensures evs == old(evs)[x := old(evs)[x].(inserted := on)] && Ok(evs[x].serves)
    {
      var e := evs[x].(inserted := on);
      InsertedKeeps(View(), x, on);
      count := if on then count + Weight(e) else count - Weight(e);
      evs := evs[x := e];
    }

    /** Changes that concern no list. */
    method Note(x: Id, e: Ev)
      requires x in evs && Ok(evs[x].serves) && FlagOk(e, |queues|, |commons|)
      requires e.internal == evs[x].internal && e.serves == evs[x].serves && (e.serves.Some? && Plain(evs[x]) ==> Plain(e))
      requires forall f :: Has(e, f) == Has(evs[x], f)
      requires e.active ==> e.pri == evs[x].pri
      requires e.timeout ==> e.due == evs[x].due && e.common == evs[x].common
      modifies this`evs
      ensures evs == old(evs)[x := e] && Ok(e.serves)
    {
      assert Has(e, FTimeout) == Has(evs[x], FTimeout);
      NoteKeeps(View(), x, e);
      evs := evs[x := e];
    }

    /** event_queue_insert_active: at the tail of the queue of its priority. */
    method InsertActive(x: Id)
      requires x in evs && Ok(evs[x].serves) && !evs[x].active && !evs[x].later
      modifies this`evs, this`queues, this`count, this`countActive
      ensures evs == old(evs)[x := old(evs)[x].(active := true)] && Ok(evs[x].serves)
      ensures queues == QueuesWith(old(queues), evs[x], x) && evs[x].pri < |queues| == |old(queues)|
    {
      var e := evs[x].(active := true);
      InsertActiveKeeps(View(), x);
      count, countActive := count + Weight(e), countActive + 1;
      queues := queues[e.pri := queues[e.pri] + [x]];
      evs := evs[x := e];
    }

    /** event_queue_remove_active */
    method RemoveActive(x: Id)
      requires x in evs && Ok(evs[x].serves) && evs[x].active
      modifies this`evs, this`queues, this`count, this`countActive
      ensures evs == old(evs)[x := old(evs)[x].(active := false)] && Ok(evs[x].serves)
      ensures queues == QueuesWithout(old(queues), old(evs)[x], x) && |queues| == |old(queues)|
    {
      var e := evs[x].(active := false);
      RemoveActiveKeeps(View(), x);
      evs, queues := evs[x := e], queues[e.pri := Drop(queues[e.pri], x)];
      count, countActive := count - Weight(e), countActive - 1;
    }

    /** event_queue_insert_active_later */
    method InsertLater(x: Id)
      requires x in evs && Ok(None) && evs[x].serves.None? && !evs[x].active && !evs[x].later
      modifies this`evs, this`laterQ, this`count, this`countActive
      ensures evs == old(evs)[x := old(evs)[x].(later := true)] && Ok(None)
      ensures laterQ == old(laterQ) + [x]
    {
      var e := evs[x].(later := true);
      InsertLaterKeeps(View(), x);
      count, countActive := count + Weight(e), countActive + 1;
      laterQ := laterQ + [x];
      evs := evs[x := e];
    }

    /** event_queue_remove_active_later */
    method RemoveLater(x: Id)
      requires x in evs && Ok(evs[x].serves) && evs[x].later
      modifies this`evs, this`laterQ, this`count, this`countActive
      ensures evs == old(evs)[x := old(evs)[x].(later := false)] && Ok(evs[x].serves) && laterQ == Drop(old(laterQ), x)
    {
      var e := evs[x].(later := false);
      RemoveLaterKeeps(View(), x);
      count, countActive := count - Weight(e), countActive - 1;
      laterQ := Drop(laterQ, x);
      evs := evs[x := e];
    }

    /** event_queue_remove_timeout: from the heap or from its common-timeout queue. */
    method RemoveTimeout(x: Id)
      requires x in evs && Ok(evs[x].serves) && evs[x].timeout
      modifies this`evs, this`heap, this`commons, this`count
      ensures evs == old(evs)[x := old(evs)[x].(timeout := false)] && Ok(evs[x].serves)
      ensures |commons| == |old(commons)| && (evs[x].common.None? ==> commons == old(commons))
    {
      var e := evs[x].(timeout := false);
      var heap', commons' := TimersOff(x, e);
      RemoveTimeoutKeeps(View(), x, heap', commons');
      heap, commons := heap', commons';
      evs, count := evs[x := e], count - Weight(e);
    }

    /** The timer lists once x is off them. */
    method TimersOff(x: Id, e: Ev) returns (heap': Heap, commons': seq<Common>)
      requires x in evs && Ok(e.serves) && evs[x].timeout && e == evs[x].(timeout := false)
      ensures TimersOk(evs[x := e], heap', commons') && |commons'| == |commons| && (e.common.None? ==> commons' == commons)
      ensures Guard(evs[x := e], commons', owed, e.serves)
    {
      Parts(View(), e.serves);
      assert FlagOk(evs[x], |queues|, |commons|);
      CommonsRemove(evs, x, commons);
      GuardWithout(evs, x, commons, owed);
      if e.common.Some? {
        var c := e.common.value;
        HeapFrame(evs, x, e, heap);
        heap', commons' := heap, commons[c := commons[c].(events := Drop(commons[c].events, x))];
      } else {
        heap' := Erase(heap, TimesOf(evs), x);
        commons' := commons;
        HeapChanged(evs, x, e, heap');
      }
    }

    /** event_queue_insert_timeout: into the heap, or in order into its common-timeout queue,
        which stays covered unless the event is now its first. */
    method InsertTimeout(x: Id)
      requires x in evs && Ok(evs[x].serves) && !evs[x].timeout && evs[x].isEvent && !evs[x].finalizing
      requires evs[x].common.Some? ==> evs[x].common.value < |commons| && evs[x].serves.None?
      modifies this`evs, this`heap, this`commons, this`count
      ensures evs == old(evs)[x := old(evs)[x].(timeout := true)]
      ensures |commons| == |old(commons)| && (evs[x].common.None? ==> commons == old(commons))
      ensures Ok(if evs[x].common.Some? then evs[x].common else evs[x].serves)
      ensures evs[x].common.Some? && !([x] <= commons[evs[x].common.value].events) ==> Valid()
    {
      var e := evs[x].(timeout := true);
      var heap', commons' := TimersOn(x, e);
      InsertTimeoutKeeps(View(), x, heap', commons', if e.common.Some? then e.common else e.serves);
      if e.common.Some? && !([x] <= commons'[e.common.value].events) {
        InsertTimeoutKeeps(View(), x, heap', commons', None);
      }
      heap, commons := heap', commons';
      evs, count := evs[x := e], count + Weight(e);
    }

    /** The timer lists once x is on them. */
    method TimersOn(x: Id, e: Ev) returns (heap': Heap, commons': seq<Common>)
      requires x in evs && Ok(e.serves) && !evs[x].timeout && e == evs[x].(timeout := true)
      requires e.common.Some? ==> e.common.value < |commons| && e.serves.None?
      ensures TimersOk(evs[x := e], heap', commons') && |commons'| == |commons| && (e.common.None? ==> commons' == commons)
      ensures Guard(evs[x := e], commons', owed, if e.common.Some? then e.common else e.serves)
      ensures e.common.Some? && !([x] <= commons'[e.common.value].events) ==> Guard(evs[x := e], commons', owed, None)
    {
      Parts(View(), e.serves);
      CommonsInsert(evs, x, commons);
      GuardWith(evs, x, commons, owed);
      if e.common.Some? {
        var c := e.common.value;
        HeapFrame(evs, x, e, heap);
        heap', commons' := heap, commons[c := commons[c].(events := InsertInOrder(evs[x := e], commons[c].events, x))];
      } else {
        heap' := Push(heap, TimesOf(evs), x);
        commons' := commons;
        HeapChanged(evs, x, e, heap');
      }
    }

    // ----- operations -----

    method ClearTimeout(x: Id)
      requires x in evs && Ok(evs[x].serves)
      modifies this`evs, this`heap, this`commons, this`count
      ensures evs == old(evs)[x := old(evs)[x].(timeout := false)] && Ok(evs[x].serves)
      ensures |commons| == |old(commons)| && (evs[x].common.None? ==> commons == old(commons))
    {
      if evs[x].timeout {
        RemoveTimeout(x);
      }
    }

    method ClearActive(x: Id)
      requires x in evs && Ok(evs[x].serves)
      modifies this`evs, this`queues, this`laterQ, this`count, this`countActive
      ensures evs == old(evs)[x := old(evs)[x].(active := false, later := false)] && Ok(evs[x].serves)
      ensures queues == QueuesWithout(old(queues), old(evs)[x], x) && |queues| == |old(queues)|
    {
      NotBoth(x);
      if evs[x].active {
        RemoveActive(x);
      } else if evs[x].later {
        RemoveLater(x);
      }
    }

    method ClearInserted(x: Id)
      requires x in evs && Ok(evs[x].serves)
      modifies this`evs, this`count
      ensures evs == old(evs)[x := old(evs)[x].(inserted := false)] && Ok(evs[x].serves)
    {
      if evs[x].inserted {
        SetInserted(x, false);
      }
    }

    /** The part of event_del_nolock_ behind its guard. */
    method Remove(x: Id)
      requires x in evs && Ok(evs[x].serves)
      modifies this`evs, this`queues, this`laterQ, this`heap, this`commons, this`count, this`countActive
      ensures evs == old(evs)[x := Deleted(old(evs)[x])] && Ok(evs[x].serves)
      ensures queues == QueuesWithout(old(queues), old(evs)[x], x) && |queues| == |old(queues)|
      ensures |commons| == |old(commons)| && (evs[x].common.None? ==> commons == old(commons))
    {
      ghost var m, e := evs, evs[x];
      ghost var a := e.(timeout := false);
      ghost var b := a.(active := false, later := false);
      ClearTimeout(x);
      assert evs[x] == a;
      ClearActive(x);
      Over(m, x, a, b);
      assert evs == m[x := b] && evs[x] == b;
      ClearInserted(x);
      Over(m, x, b, Deleted(e));
    }

    lemma NotBoth(x: Id)
      requires x in evs && Ok(evs[x].serves)
      ensures FlagOk(evs[x], |queues|, |commons|)
    {
      Parts(View(), evs[x].serves);
    }

    /** Rescheduling withdraws an activation that was due to the old timeout. */
    method Withdraw(x: Id)
      requires x in evs && Ok(evs[x].serves) && !evs[x].timeout
      modifies this`evs, this`queues, this`count, this`countActive
      ensures evs == old(evs)[x := Unscheduled(old(evs)[x])] && Ok(evs[x].serves)
      ensures |queues| == |old(queues)|
    {
      if evs[x].active && evs[x].byTimeout {
        RemoveActive(x);
      }
    }

    /** The part of event_add_nolock_ that sets a timeout. */
    method SetTimeout(x: Id, due: int, common: Option<nat>)
      requires x in evs && Ok(evs[x].serves) && evs[x].isEvent && !evs[x].finalizing
      requires common.Some? ==> common.value < |commons| && evs[x].serves.None?
      modifies this`evs, this`queues, this`heap, this`commons, this`count, this`countActive
      ensures evs == old(evs)[x := Timed(old(evs)[x], due, common)]
      ensures |queues| == |old(queues)| && |commons| == |old(commons)|
      ensures old(evs)[x].common.None? && common.None? ==> commons == old(commons)
      ensures Ok(if common.Some? then common else evs[x].serves)
      ensures common.Some? && !([x] <= commons[common.value].events) ==> Valid()
    {
      ghost var m, a := evs, Unscheduled(evs[x]);
      Unschedule(x);
      assert evs[x] == a;
      Reschedule(x, due, common);
      Over(m, x, a, a.(timeout := true, due := due, common := common));
    }

    method Unschedule(x: Id)
      requires x in evs && Ok(evs[x].serves)
      modifies this`evs, this`queues, this`heap, this`commons, this`count, this`countActive
      ensures evs == old(evs)[x := Unscheduled(old(evs)[x])] && Ok(evs[x].serves)
      ensures |queues| == |old(queues)| && |commons| == |old(commons)|
      ensures evs[x].common.None? ==> commons == old(commons)
    {
      ghost var m, a, b := evs, evs[x].(timeout := false), Unscheduled(evs[x]);
      ClearTimeout(x);
      assert evs[x] == a;
      Withdraw(x);
      Over(m, x, a, b);
      assert evs == m[x := b];
    }

    method Reschedule(x: Id, due: int, common: Option<nat>)
      requires x in evs && Ok(evs[x].serves) && evs[x].isEvent && !evs[x].finalizing && !evs[x].timeout
      requires common.Some? ==> common.value < |commons| && evs[x].serves.None?
      modifies this`evs, this`heap, this`commons, this`count
      ensures evs == old(evs)[x := old(evs)[x].(timeout := true, due := due, common := common)]
      ensures |commons| == |old(commons)| && (common.None? ==> commons == old(commons))
      ensures Ok(if common.Some? then common else evs[x].serves)
      ensures common.Some? && !([x] <= commons[common.value].events) ==> Valid()
    {
      ghost var m, a := evs, evs[x].(due := due, common := common);
      SetDeadline(x, due, common);
      assert evs[x] == a;
      InsertTimeout(x);
      Over(m, x, a, a.(timeout := true));
    }

    method SetDeadline(x: Id, due: int, common: Option<nat>)
      requires x in evs && Ok(evs[x].serves) && !evs[x].timeout && (common.Some? ==> evs[x].serves.None? && common.value < |commons|)
      modifies this`evs
      ensures evs == old(evs)[x := old(evs)[x].(due := due, common := common)] && Ok(evs[x].serves)
    {
      NotBoth(x);
      Note(x, evs[x].(due := due, common := common));
    }

    lemma ProxyForm(x: Id)
      requires x in evs && Ok(evs[x].serves) && evs[x].serves.Some?
      ensures evs[x].serves.value < |commons| && commons[evs[x].serves.value].proxy == x && ProxyAt(evs, x, evs[x].serves.value)
    {
      Parts(View(), evs[x].serves);
    }

    /** common_timeout_schedule: the proxy takes the deadline of the first event of the queue,
        which covers the queue whatever became of it before. */
    method Schedule(c: nat)
      requires c < |commons| && Ok(Some(c)) && commons[c].events != []
      modifies this`evs, this`queues, this`heap, this`commons, this`count, this`countActive
      ensures Valid() && commons == old(commons) && |queues| == |old(queues)|
      ensures commons[c].proxy in old(evs) && commons[c].events[0] in old(evs)
      ensures evs == old(evs)[commons[c].proxy := Timed(old(evs)[commons[c].proxy], old(evs)[commons[c].events[0]].due, None)]
    {
      var p, h := commons[c].proxy, commons[c].events[0];
      HeadForm(c);
      SetTimeout(p, evs[h].due, None);
      Closed(View(), c);
    }

    lemma HeadForm(c: nat)
      requires c < |commons| && Ok(Some(c)) && commons[c].events != []
      ensures ProxyAt(evs, commons[c].proxy, c) && commons[c].events[0] in evs && commons[c].events[0] != commons[c].proxy
    {
      Parts(View(), Some(c));
      assert CommonOk(evs, commons[c].events, c);
      assert commons[c].events[0] in InCommon(evs, c);
    }

    // ----- the interface -----

    /** event_base_new_with_config, event_base_priority_init */
    constructor (priorities: nat)
      requires priorities > 0
      ensures Valid() && evs == map[] && |queues| == priorities && commons == []
    {
      evs, queues, laterQ := map[], seq(priorities, i => []), [];
      heap, commons := Heap([], map[]), [];
      count, countActive, virtualCount, owed := 0, 0, 0, None;
      new;
      EmptyAgrees(View());
    }

    /** event_assign for an event, event_callback_init_ and event_deferred_cb_init_ for a bare
        callback. The caller owns the event and has not added it. */
    method Assign(x: Id, e: Ev)
      requires Valid() && Idle(e) && !e.finalizing && e.serves.None? && e.common.None? && e.pri < |queues|
      requires x in evs ==> Idle(evs[x]) && evs[x].serves.None?
      modifies this`evs
      ensures Valid() && evs == old(evs)[x := e]
    {
      AssignKeeps(View(), x, e);
      evs := evs[x := e];
    }

    /** event_base_init_common_timeout: the queue for a duration of seconds and microseconds, a
        new one if there is none; fails once there are 256. */
    method InitCommonTimeout(p: Id, seconds: int, micros: nat) returns (r: Option<nat>)
      requires Valid() && p !in evs
      modifies this`evs, this`commons
      ensures Valid() && old(commons) <= commons
      ensures r.None? <==> NoQueue(old(commons), Carried(seconds, micros, |old(commons)|)) && |old(commons)| == MAX_COMMON_TIMEOUTS
      ensures r.Some? ==>
        && r.value < |commons| && commons[r.value].duration == Carried(seconds, micros, |old(commons)|)
        && NoQueue(commons[..r.value], Carried(seconds, micros, |old(commons)|))
      ensures NoQueue(old(commons), Carried(seconds, micros, |old(commons)|)) && r.Some? ==>
        && |commons| == |old(commons)| + 1
        && evs.Keys == old(evs).Keys + {p} && Plain(evs[p]) && forall x :: x in old(evs) ==> evs[x] == old(evs)[x]
      ensures !NoQueue(old(commons), Carried(seconds, micros, |old(commons)|)) || r.None? ==> commons == old(commons) && evs == old(evs)
    {
      var d := Carried(seconds, micros, |commons|);
      for i := 0 to |commons|
        invariant NoQueue(commons[..i], d)
      {
        if commons[i].duration == d {
          return Some(i);
        }
      }
      assert commons[..|commons|] == commons;
      if |commons| == MAX_COMMON_TIMEOUTS {
        return None;
      }
      r := Some(|commons|);
      NewCommon(p, d);
      assert commons[..|old(commons)|] == old(commons);
    }

    /** A queue for one more duration. */
    method NewCommon(p: Id, d: (int, int))
      requires Valid() && p !in evs
      modifies this`evs, this`commons
      ensures Valid() && commons == old(commons) + [Common([], p, d)]
      ensures evs.Keys == old(evs).Keys + {p} && Plain(evs[p]) && forall x :: x in old(evs) ==> evs[x] == old(evs)[x]
    {
      var e := Ev(true, true, 0, false, false, false, false, false, false, false, false, 0, None, 0, Some(|commons|));
      QueuesExist();
      NewCommonKeeps(View(), p, e, d);
      evs, commons := evs[p := e], commons + [Common([], p, d)];
    }

    /** event_priority_set */
    method PrioritySet(x: Id, pri: int) returns (r: int)
      requires Valid() && x in evs && evs[x].serves.None?
      modifies this`evs
      ensures Valid()
      ensures r == if !old(evs)[x].active && 0 <= pri < |queues| then 0 else -1
      ensures evs == if r == 0 then old(evs)[x := old(evs)[x].(pri := pri)] else old(evs)
    {
      if evs[x].active || pri < 0 || pri >= |queues| {
        return -1;
      }
      NotBoth(x);
      Note(x, evs[x].(pri := pri));
      return 0;
    }

    /** event_del_nolock_; `io` is what the evmap layer answers when asked to drop the event. */
    method Del(x: Id, evenIfFinalizing: bool, io: int) returns (r: int)
      requires Valid() && x in evs && evs[x].serves.None?
      modifies this`evs, this`queues, this`laterQ, this`heap, this`commons, this`count, this`countActive
      ensures Valid() && |queues| == |old(queues)| && |commons| == |old(commons)|
      ensures
        && var e := old(evs)[x];
        && if e.finalizing && !evenIfFinalizing then r == 0 && evs == old(evs) && queues == old(queues)
           else
             && r == (if e.inserted && io != 1 then io else 0) && evs == old(evs)[x := Deleted(e)]
             && Idle(evs[x]) && evs[x] == e.(inserted := false, active := false, later := false, timeout := false)
             && queues == QueuesWithout(old(queues), e, x)
    {
      if !evenIfFinalizing && evs[x].finalizing {
        return 0;
      }
      r := if evs[x].inserted && io != 1 then io else 0;
      Remove(x);
    }

    /** event_callback_cancel_nolock_ */
    method Cancel(x: Id, evenIfFinalizing: bool, io: int) returns (r: int)
      requires Valid() && x in evs && evs[x].serves.None?
      modifies this`evs, this`queues, this`laterQ, this`heap, this`commons, this`count, this`countActive
      ensures Valid() && |queues| == |old(queues)| && |commons| == |old(commons)|
      ensures evs == if old(evs)[x].finalizing && !evenIfFinalizing then old(evs) else old(evs)[x := Deleted(old(evs)[x])]
      ensures !old(evs)[x].finalizing || evenIfFinalizing ==> Idle(evs[x])
    {
      if evs[x].finalizing && !evenIfFinalizing {
        return 0;
      }
      if evs[x].isEvent {
        r := Del(x, evenIfFinalizing, io);
      } else {
        NotBoth(x);
        ClearActive(x);
        r := 0;
      }
    }

    /** event_callback_activate_nolock_: true exactly when nobody had activated the callback. */
    method CallbackActivate(x: Id) returns (r: bool)
      requires x in evs && Ok(evs[x].serves)
      modifies this`evs, this`queues, this`laterQ, this`count, this`countActive
      ensures
        && var e := old(evs)[x];
        && r == (!e.finalizing && !e.active && !e.later)
        && evs == old(evs)[x := if e.finalizing then e else e.(active := true, later := false)]
        && queues == if e.finalizing || e.active then old(queues) else QueuesWith(old(queues), e, x)
      ensures Ok(evs[x].serves) && |queues| == |old(queues)|
    {
      if evs[x].finalizing || evs[x].active {
        NotBoth(x);
        return false;
      }
      ghost var m, e := evs, evs[x];
      r := !evs[x].later;
      if evs[x].later {
        RemoveLater(x);
      }
      ghost var a := e.(later := false);
      assert evs == m[x := a] && evs[x] == a;
      InsertActive(x);
      Over(m, x, a, a.(active := true));
    }

    /** Results of pending activations add up; an old result is forgotten. */
    method NoteResult(x: Id, byTimeout: bool)
      requires x in evs && Ok(evs[x].serves)
      modifies this`evs
      ensures evs == old(evs)[x := Resulted(old(evs)[x], byTimeout)] && Ok(evs[x].serves)
    {
      NotBoth(x);
      Note(x, Resulted(evs[x], byTimeout));
    }

    /** event_active_nolock_ */
    method Active(x: Id, byTimeout: bool)
      requires x in evs && Ok(evs[x].serves)
      modifies this`evs, this`queues, this`laterQ, this`count, this`countActive
      ensures evs == old(evs)[x := Activated(old(evs)[x], byTimeout)]
      ensures
        && var e := old(evs)[x];
        && (e.finalizing ==> evs[x] == e)
        && (!e.finalizing ==>
              && evs[x].active && !evs[x].later
              && evs[x].byTimeout == (byTimeout || ((e.active || e.later) && e.byTimeout))
              && evs[x] == e.(active := true, later := false, byTimeout := evs[x].byTimeout))
        && queues == if e.finalizing || e.active then old(queues) else QueuesWith(old(queues), e, x)
      ensures Ok(evs[x].serves) && |queues| == |old(queues)|
    {
      if evs[x].finalizing {
        return;
      }
      NotBoth(x);
      ghost var m, a := evs, Resulted(evs[x], byTimeout);
      NoteResult(x, byTimeout);
      assert evs[x] == a;
      if !evs[x].active {
        var r := CallbackActivate(x);
        Over(m, x, a, a.(active := true, later := false));
        assert evs == m[x := a.(active := true, later := false)];
      }
    }

    /** event_active_later_nolock_, event_callback_activate_later_nolock_ */
    method ActiveLater(x: Id, byTimeout: bool)
      requires Valid() && x in evs && evs[x].serves.None?
      modifies this`evs, this`laterQ, this`count, this`countActive
      ensures Valid() && evs == old(evs)[x := ActivatedLater(old(evs)[x], byTimeout)]
      ensures
        && var e := old(evs)[x];
        && evs[x].later == (e.later || !e.active)
        && evs[x].byTimeout == (byTimeout || ((e.active || e.later) && e.byTimeout))
        && evs[x] == e.(later := evs[x].later, byTimeout := evs[x].byTimeout)
    {
      ghost var m, a := evs, Resulted(evs[x], byTimeout);
      NoteResult(x, byTimeout);
      assert evs[x] == a;
      if !evs[x].active && !evs[x].later {
        InsertLater(x);
        Over(m, x, a, a.(later := true));
        assert evs == m[x := a.(later := true)];
      }
    }

    /** event_finalize_nolock_ and event_callback_finalize_nolock_: whatever the event was
        waiting for is dropped, and its finalizer is activated, once. */
    method Finalize(x: Id, io: int)
      requires Valid() && x in evs && evs[x].serves.None?
      modifies this`evs, this`queues, this`laterQ, this`heap, this`commons, this`count, this`countActive
      ensures Valid() && |queues| == |old(queues)| && |commons| == |old(commons)|
      ensures
        && var e := old(evs)[x];
        && evs == old(evs)[x := if e.finalizing then e else Deleted(e).(active := true, byTimeout := false, finalizing := true)]
    {
      if evs[x].finalizing {
        return;
      }
      ghost var m, a := evs, Deleted(evs[x]);
      var r := Cancel(x, false, io);
      assert evs[x] == a;
      Active(x, false);
      ghost var b := a.(active := true, byTimeout := false);
      Over(m, x, a, b);
      assert evs == m[x := b] && evs[x] == b;
      NotBoth(x);
      Note(x, evs[x].(finalizing := true));
      Over(m, x, b, b.(finalizing := true));
    }

    /** event_remove_timer_nolock_ */
    method RemoveTimer(x: Id)
      requires Valid() && x in evs && evs[x].serves.None?
      modifies this`evs, this`heap, this`commons, this`count
      ensures Valid() && |commons| == |old(commons)|
      ensures evs == old(evs)[x := if old(evs)[x].timeout then old(evs)[x].(timeout := false, interval := 0) else old(evs)[x]]
    {
      if evs[x].timeout {
        ghost var m, a := evs, evs[x].(timeout := false);
        RemoveTimeout(x);
        assert evs[x] == a;
        NotBoth(x);
        Note(x, evs[x].(interval := 0));
        Over(m, x, a, a.(interval := 0));
      }
    }

    /** The first event of the heap is t, or is already late. */
    ghost predicate TopIsOrLate(t: Id, now: int)
      reads this
    {
      heap.p != [] && heap.p[0] in evs && (heap.p[0] == t || evs[heap.p[0]].due < now)
    }

    /** A new timeout of x calls for waking the loop: x, or the proxy of the queue that x is now
        first in, is the first event of the heap, or that one is already late. */
    ghost predicate Wakes(x: Id, common: Option<nat>, now: int)
      reads this
    {
      if common.None? then TopIsOrLate(x, now)
      else
        && common.value < |commons| && [x] <= commons[common.value].events
        && TopIsOrLate(commons[common.value].proxy, now)
    }

    /** Whether the loop is to be woken after t got a timeout in the heap: when it is the
        first one there, or the first one is already late. */
    method TopWakes(t: Id, now: int) returns (wakes: bool, ghost top: Id)
      requires Valid() && t in InHeap(evs)
      ensures top in InHeap(evs) && evs[top].due <= evs[t].due
      ensures wakes <==> top == t || evs[top].due < now
      ensures wakes <==> TopIsOrLate(t, now)
      ensures [top] <= heap.p
    {
      Parts(View(), None);
      HeapTop(evs, heap, t);
      wakes := heap.p[0] == t || evs[heap.p[0]].due < now;
      top := heap.p[0];
    }

    /** The first event of a queue, for one that is not. */
    lemma HeadIsEarlier(c: nat, x: Id)
      requires Valid() && c < |commons| && x in InCommon(evs, c) && !([x] <= commons[c].events)
      ensures commons[c].events != []
      ensures
        && var h := commons[c].events[0];
        && h != x && h in evs && evs[h].timeout && evs[h].due <= evs[x].due
    {
      Parts(View(), None);
      assert CommonOk(evs, commons[c].events, c);
      QueueHead(evs, commons[c].events, x);
      assert commons[c].events[0] in InCommon(evs, c);
    }

    /** Sets a timeout; a proxy is rescheduled when its queue has a new first event. Unless the
        loop is woken, no deadline is now before all those it knew of. */
    method Arm(x: Id, due: int, common: Option<nat>, now: int) returns (notify: bool)
      requires Valid() && x in evs && evs[x].serves.None? && evs[x].isEvent && !evs[x].finalizing
      requires common.Some? ==> common.value < |commons|
      modifies this`evs, this`queues, this`heap, this`commons, this`count, this`countActive
      ensures Valid() && |queues| == |old(queues)| && |commons| == |old(commons)|
      ensures OthersKept(old(evs), evs, x) && evs[x] == Timed(old(evs)[x], due, common)
      ensures notify <==> Wakes(x, common, now)
      ensures !notify ==> NotEarlier(old(evs), evs)
    {
      if common.None? {
        notify := ArmInHeap(x, due, now);
      } else {
        notify := ArmInQueue(x, due, common.value, now);
      }
    }

    method ArmInHeap(x: Id, due: int, now: int) returns (notify: bool)
      requires Valid() && x in evs && evs[x].serves.None? && evs[x].isEvent && !evs[x].finalizing
      modifies this`evs, this`queues, this`heap, this`commons, this`count, this`countActive
      ensures Valid() && |queues| == |old(queues)| && |commons| == |old(commons)|
      ensures evs == old(evs)[x := Timed(old(evs)[x], due, None)]
      ensures notify <==> Wakes(x, None, now)
      ensures !notify ==> NotEarlier(old(evs), evs)
    {
      ghost var m, e := evs, Timed(evs[x], due, None);
      SetTimeout(x, due, None);
      ghost var top;
      notify, top := TopWakes(x, now);
      if !notify {
        LaterThan(m, x, e, top);
      }
    }

    method ArmInQueue(x: Id, due: int, c: nat, now: int) returns (notify: bool)
      requires Valid() && x in evs && evs[x].serves.None? && evs[x].isEvent && !evs[x].finalizing && c < |commons|
      modifies this`evs, this`queues, this`heap, this`commons, this`count, this`countActive
      ensures Valid() && |queues| == |old(queues)| && |commons| == |old(commons)|
      ensures OthersKept(old(evs), evs, x) && evs[x] == Timed(old(evs)[x], due, Some(c))
      ensures notify <==> Wakes(x, Some(c), now)
      ensures !notify ==> NotEarlier(old(evs), evs)
    {
      ghost var m, e := evs, Timed(evs[x], due, Some(c));
      SetTimeout(x, due, Some(c));
      assert evs[x] == e;
      if [x] <= commons[c].events {
        assert commons[c].events[0] == x;
        notify := WakeForHead(c, now, m, x, e);
      } else {
        notify := false;
        OnlyOne(m, x, e);
        HeadIsEarlier(c, x);
        LaterThan(m, x, e, commons[c].events[0]);
      }
    }

    method WakeForHead(c: nat, now: int, ghost m: Evs, x: Id, ghost e: Ev) returns (notify: bool)
      requires c < |commons| && Ok(Some(c)) && commons[c].events != [] && commons[c].events[0] == x
      requires x in m && evs == m[x := e] && e.common.Some? && e.serves.None?
      modifies this`evs, this`queues, this`heap, this`commons, this`count, this`countActive
      ensures Valid() && commons == old(commons) && |queues| == |old(queues)|
      ensures OthersKept(m, evs, x) && evs[x] == e
      ensures notify <==> TopIsOrLate(commons[c].proxy, now)
      ensures !notify ==> NotEarlier(m, evs)
    {
      ghost var p, top, f;
      notify, p, top, f := ScheduleHead(c, now);
      OnlyProxy(m, x, e, p, f);
      if !notify {
        BothLaterThan(m, x, e, p, f, top);
      }
    }

    /** Schedules the proxy for the first event of the queue and says whether to wake the loop;
        the proxy p becomes f, and `top` is first in the heap. */
    method ScheduleHead(c: nat, now: int) returns (notify: bool, ghost p: Id, ghost top: Id, ghost f: Ev)
      requires c < |commons| && Ok(Some(c)) && commons[c].events != []
      modifies this`evs, this`queues, this`heap, this`commons, this`count, this`countActive
      ensures Valid() && commons == old(commons) && |queues| == |old(queues)|
      ensures notify <==> TopIsOrLate(commons[c].proxy, now)
      ensures
        && var h := commons[c].events[0];
        && h in old(evs) && h != p && p in old(evs) && f.serves.Some? && f.serves == old(evs)[p].serves && f.due == old(evs)[h].due
        && evs == old(evs)[p := f]
        && (!notify ==> top in old(evs) && top != p && old(evs)[top].timeout && old(evs)[top].common.None? && old(evs)[top].due <= f.due)
    {
      p := commons[c].proxy;
      HeadForm(c);
      Schedule(c);
      f := evs[p];
      notify, top := TopWakes(commons[c].proxy, now);
    }

    method Register(x: Id)
      requires Valid() && x in evs && evs[x].serves.None? && evs[x].isEvent && !evs[x].finalizing
      modifies this`evs, this`count
      ensures Valid() && evs == old(evs)[x := Registered(old(evs)[x])]
    {
      if Registers(evs[x]) {
        SetInserted(x, true);
      }
    }

    /** A persistent event remembers its timeout. */
    method Remember(x: Id, time: int, absolute: bool)
      requires Valid() && x in evs && evs[x].serves.None?
      modifies this`evs
      ensures Valid() && evs == old(evs)[x := Remembering(old(evs)[x], time, absolute)]
    {
      if evs[x].persist && !absolute {
        NotBoth(x);
        Note(x, evs[x].(interval := time));
      }
    }

    /** event_add_nolock_. `now` is the clock, `io` what the evmap layer answers when asked to
        register the event, `room` whether the heap could be enlarged. A failure changes nothing.
        An event with a descriptor that is not registered, active or put off is registered; a
        timeout is set, replaces the one there was and withdraws its activation. */
    method Add(x: Id, tv: Option<Timeout>, absolute: bool, now: int, io: int, room: bool) returns (r: int, notify: bool)
      requires Valid() && x in evs && evs[x].serves.None? && evs[x].isEvent
      requires tv.Some? && tv.value.common.Some? ==> tv.value.common.value < |commons|
      modifies this`evs, this`queues, this`heap, this`commons, this`count, this`countActive
      ensures Valid() && |queues| == |old(queues)| && |commons| == |old(commons)|
      ensures
        && var e := old(evs)[x];
        && var asks := e.io && !e.inserted && !e.active && !e.later;
        && (r == -1 || r == 0)
        && (r == -1 <==> e.finalizing || (tv.Some? && !e.timeout && !room) || (asks && io == -1))
        && (r == -1 ==> evs == old(evs) && !notify)
        && (r == 0 ==> (notify <==> (asks && io == 1) || (tv.Some? && Wakes(x, tv.value.common, now))))
        && (r == 0 ==> x in evs && Added(e, evs[x], tv, absolute, now))
      ensures OthersKept(old(evs), evs, x)
      ensures r == 0 ==> evs[x] == AddedEvent(old(evs)[x], tv, absolute, now)
      ensures !notify ==> NotEarlier(old(evs), evs)
    {
      AddMeans(evs[x], tv, absolute, now);
      if evs[x].finalizing || (tv.Some? && !evs[x].timeout && !room) || (Registers(evs[x]) && io == -1) {
        NotEarlierSelf(evs);
        return -1, false;
      }
      var asked := Registers(evs[x]) && io == 1;
      var wake := Enter(x, tv, absolute, now);
      return 0, asked || wake;
    }

    /** The part of event_add_nolock_ behind its failures. */
    method Enter(x: Id, tv: Option<Timeout>, absolute: bool, now: int) returns (wake: bool)
      requires Valid() && x in evs && evs[x].serves.None? && evs[x].isEvent && !evs[x].finalizing
      requires tv.Some? && tv.value.common.Some? ==> tv.value.common.value < |commons|
      modifies this`evs, this`queues, this`heap, this`commons, this`count, this`countActive
      ensures Valid() && |queues| == |old(queues)| && |commons| == |old(commons)|
      ensures OthersKept(old(evs), evs, x) && evs[x] == AddedEvent(old(evs)[x], tv, absolute, now)
      ensures wake <==> tv.Some? && Wakes(x, tv.value.common, now)
      ensures !wake ==> NotEarlier(old(evs), evs)
    {
      ghost var m, e := evs, Registered(evs[x]);
      Register(x);
      if tv.Some? {
        wake := StartTimer(x, tv.value, absolute, now);
      } else {
        wake := false;
        NotEarlierSelf(evs);
      }
      SameDeadlines(m, x, e, evs);
    }

    method StartTimer(x: Id, tv: Timeout, absolute: bool, now: int) returns (notify: bool)
      requires Valid() && x in evs && evs[x].serves.None? && evs[x].isEvent && !evs[x].finalizing
      requires tv.common.Some? ==> tv.common.value < |commons|
      modifies this`evs, this`queues, this`heap, this`commons, this`count, this`countActive
      ensures Valid() && |queues| == |old(queues)| && |commons| == |old(commons)|
      ensures OthersKept(old(evs), evs, x)
      ensures evs[x] == Timed(Remembering(old(evs)[x], tv.time, absolute), if absolute then tv.time else now + tv.time, tv.common)
      ensures notify <==> Wakes(x, tv.common, now)
      ensures !notify ==> NotEarlier(old(evs), evs)
    {
      ghost var m, e := evs, Remembering(evs[x], tv.time, absolute);
      Remember(x, tv.time, absolute);
      notify := Arm(x, if absolute then tv.time else now + tv.time, tv.common, now);
      SameDeadlines(m, x, e, evs);
    }

    /** The heap lists events that are waiting in it. */
    ghost predicate HeapListed()
      reads this
    {
      forall i :: 0 <= i < |heap.p| ==> heap.p[i] in InHeap(evs)
    }

    lemma HeapMembers()
      requires Valid()
      ensures HeapListed()
    {
      Parts(View(), None);
      forall i | 0 <= i < |heap.p|
        ensures heap.p[i] in InHeap(evs)
      {
        assert heap.p[i] in heap.pos;
      }
    }

    lemma QueuesExist()
      requires Valid()
      ensures |queues| > 0
    {
      Parts(View(), None);
    }
  }

  lemma EmptyAgrees(s: State)
    requires s.evs == map[] && s.laterQ == [] && s.heap == Heap([], map[]) && s.commons == []
    requires s.count == 0 && s.countActive == 0 && s.queues != [] && forall p :: 0 <= p < |s.queues| ==> s.queues[p] == []
    ensures Agree(s, None)
  {
  }
}
