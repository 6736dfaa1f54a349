/** Events with their flags, and the lists and counters that have to agree with the flags. */
module EventLists {
  import opened IdLists
  import opened Machine
  import opened MinHeap

  /** An event or a bare callback (`isEvent` is EVLIST_INIT). The flags are EVLIST_INSERTED,
      _ACTIVE, _ACTIVE_LATER, _TIMEOUT and _FINALIZING; `byTimeout` is the EV_TIMEOUT bit of
      the result, `due` the deadline, `common` the index of the common-timeout queue that the
      magic bits of the deadline name, `interval` the timeout of a persistent event, and
      `serves` the common-timeout queue whose callback this event runs. */
  datatype Ev = Ev(
    internal: bool, isEvent: bool, pri: nat, io: bool, persist: bool,
    inserted: bool, active: bool, later: bool, timeout: bool, finalizing: bool,
    byTimeout: bool, due: int, common: Option<nat>, interval: int, serves: Option<nat>)

  type Evs = map<Id, Ev>

  /** A queue of events with one common timeout, and the event that stands for it in the heap. */
  datatype Common = Common(events: seq<Id>, proxy: Id, duration: (int, int))

  datatype Flag = FInserted | FActive | FLater | FTimeout

  predicate Has(e: Ev, f: Flag) {
    match f
    case FInserted => e.inserted
    case FActive => e.active
    case FLater => e.later
    case FTimeout => e.timeout
  }

  /** The events that carry a flag. */
  ghost function With(evs: Evs, f: Flag): set<Id> {
    set x | x in evs && Has(evs[x], f)
  }

  /** Those of them that are not internal. */
  ghost function UserWith(evs: Evs, f: Flag): set<Id> {
    set x | x in evs && Has(evs[x], f) && !evs[x].internal
  }

  ghost function ActiveAt(evs: Evs, p: nat): set<Id> {
    set x | x in evs && evs[x].active && evs[x].pri == p
  }

  ghost function InHeap(evs: Evs): set<Id> {
    set x | x in evs && evs[x].timeout && evs[x].common.None?
  }

  ghost function InCommon(evs: Evs, c: nat): set<Id> {
    set x | x in evs && evs[x].timeout && evs[x].common == Some(c)
  }

  // ----- setting and clearing one flag -----

  function Set(e: Ev, f: Flag, on: bool): Ev {
    match f
    case FInserted => e.(inserted := on)
    case FActive => e.(active := on)
    case FLater => e.(later := on)
    case FTimeout => e.(timeout := on)
  }

  /** What replacing one event does to the set of a flag. */
  lemma WithReplaced(evs: Evs, x: Id, e: Ev, g: Flag)
    requires x in evs && e.internal == evs[x].internal
    ensures With(evs[x := e], g) == if Has(e, g) then With(evs, g) + {x} else With(evs, g) - {x}
    ensures UserWith(evs[x := e], g) == if Has(e, g) && !e.internal then UserWith(evs, g) + {x} else UserWith(evs, g) - {x}
    ensures (x in With(evs, g) <==> Has(evs[x], g)) && (x in UserWith(evs, g) <==> Has(evs[x], g) && !e.internal)
  {
  }

  lemma WithSizes(evs: Evs, x: Id, e: Ev, g: Flag)
    requires x in evs && e.internal == evs[x].internal
    ensures |With(evs[x := e], g)| == |With(evs, g)| + One(Has(e, g)) - One(Has(evs[x], g))
    ensures |UserWith(evs[x := e], g)| == |UserWith(evs, g)| + (if e.internal then 0 else One(Has(e, g)) - One(Has(evs[x], g)))
  {
    WithReplaced(evs, x, e, g);
  }

  /** event_count counts the flags of user events, event_count_active the active ones of all. */
  ghost predicate Counts(evs: Evs, count: int, countActive: int) {
    && count == |UserWith(evs, FInserted)| + |UserWith(evs, FActive)| + |UserWith(evs, FLater)| + |UserWith(evs, FTimeout)|
    && countActive == |With(evs, FActive)| + |With(evs, FLater)|
  }

  /** INCR_EVENT_COUNT and DECR_EVENT_COUNT add one unless the event is internal. */
  function Weight(e: Ev): int {
    if e.internal then 0 else 1
  }

  function ActiveWeight(f: Flag): int {
    if f == FActive || f == FLater then 1 else 0
  }

  /** Changing one flag changes the counters by the weights of that flag and event. */
  lemma CountsSet(evs: Evs, x: Id, f: Flag, on: bool, count: int, countActive: int)
    requires x in evs && Has(evs[x], f) != on && Counts(evs, count, countActive)
    ensures
      && var d := if on then 1 else -1;
      && Counts(evs[x := Set(evs[x], f, on)], count + d * Weight(evs[x]), countActive + d * ActiveWeight(f))
  {
    FlagSizes(evs, x, f, on, FInserted);
    FlagSizes(evs, x, f, on, FActive);
    FlagSizes(evs, x, f, on, FLater);
    FlagSizes(evs, x, f, on, FTimeout);
    var d := if on then 1 else -1;
    assert d * Weight(evs[x]) == (if evs[x].internal then 0 else d) && d * ActiveWeight(f) == if ActiveWeight(f) == 0 then 0 else d;
  }

  /** The number of events that carry a flag changes by one if it is the one that is set or
      cleared, and not otherwise. */
  lemma FlagSizes(evs: Evs, x: Id, f: Flag, on: bool, g: Flag)
    requires x in evs && Has(evs[x], f) != on
    ensures
      && var evs', d := evs[x := Set(evs[x], f, on)], if on then 1 else -1;
      && |With(evs', g)| == |With(evs, g)| + (if g == f then d else 0)
      && |UserWith(evs', g)| == |UserWith(evs, g)| + (if g == f && !evs[x].internal then d else 0)
  {
    WithSizes(evs, x, Set(evs[x], f, on), g);
  }

  lemma CountsFrame(evs: Evs, x: Id, e: Ev, count: int, countActive: int)
    requires x in evs && e.internal == evs[x].internal && Counts(evs, count, countActive)
    requires forall f :: Has(e, f) == Has(evs[x], f)
    ensures Counts(evs[x := e], count, countActive)
  {
    CountsReplaced(evs, x, e);
  }

  lemma CountsReplaced(evs: Evs, x: Id, e: Ev)
    requires x in evs && e.internal == evs[x].internal
    ensures forall g :: |With(evs[x := e], g)| == |With(evs, g)| + One(Has(e, g)) - One(Has(evs[x], g))
    ensures forall g :: |UserWith(evs[x := e], g)| == |UserWith(evs, g)| + (if e.internal then 0 else One(Has(e, g)) - One(Has(evs[x], g)))
  {
    forall g
      ensures |With(evs[x := e], g)| == |With(evs, g)| + One(Has(e, g)) - One(Has(evs[x], g))
      ensures |UserWith(evs[x := e], g)| == |UserWith(evs, g)| + (if e.internal then 0 else One(Has(e, g)) - One(Has(evs[x], g)))
    {
      WithSizes(evs, x, e, g);
    }
  }

  // ----- the lists agree with the flags -----

  /** Each priority's queue holds the active events of that priority. */
  ghost predicate QueuesOk(evs: Evs, queues: seq<seq<Id>>) {
    forall p :: 0 <= p < |queues| ==> Lists(queues[p], ActiveAt(evs, p))
  }

  ghost predicate LaterOk(evs: Evs, laterQ: seq<Id>) {
    Lists(laterQ, With(evs, FLater))
  }

  ghost function Times(evs: Evs): map<Id, int> {
    map x | x in evs :: evs[x].due
  }

  /** The list is ordered by deadline. */
  ghost predicate Sorted(evs: Evs, s: seq<Id>)
    requires forall x :: x in s ==> x in evs
  {
    forall i, j :: 0 <= i < j < |s| ==> evs[s[i]].due <= evs[s[j]].due
  }

  ghost predicate CommonOk(evs: Evs, s: seq<Id>, c: nat) {
    Lists(s, InCommon(evs, c)) && Sorted(evs, s)
  }

  /** The heap and the common-timeout queues share out the events with a timeout. */
  ghost predicate TimersOk(evs: Evs, heap: Heap, commons: seq<Common>) {
    && HeapOk(heap, Times(evs)) && heap.pos.Keys == InHeap(evs)
    && CommonsOk(evs, commons)
  }

  /** Flags that exclude each other. */
  ghost predicate FlagOk(e: Ev, nQueues: nat, nCommons: nat) {
    && !(e.active && e.later)
    && e.pri < nQueues
    && (e.common.Some? ==> e.common.value < nCommons)
    && (e.finalizing || !e.isEvent ==> !e.timeout && !e.inserted)
  }

  ghost predicate FlagsOk(evs: Evs, nQueues: nat, nCommons: nat) {
    nQueues > 0 && forall x :: x in evs ==> FlagOk(evs[x], nQueues, nCommons)
  }

  lemma FlagsFrame(evs: Evs, x: Id, e: Ev, nQueues: nat, nCommons: nat)
    requires FlagsOk(evs, nQueues, nCommons) && FlagOk(e, nQueues, nCommons)
    ensures FlagsOk(evs[x := e], nQueues, nCommons)
  {
  }

  lemma QueuesFrame(evs: Evs, x: Id, e: Ev, queues: seq<seq<Id>>)
    requires x in evs && QueuesOk(evs, queues) && e.active == evs[x].active && (e.active ==> e.pri == evs[x].pri)
    ensures QueuesOk(evs[x := e], queues)
  {
    forall p | 0 <= p < |queues|
      ensures Lists(queues[p], ActiveAt(evs[x := e], p))
    {
      assert ActiveAt(evs[x := e], p) == ActiveAt(evs, p);
    }
  }

  lemma LaterFrame(evs: Evs, x: Id, e: Ev, laterQ: seq<Id>)
    requires x in evs && LaterOk(evs, laterQ) && e.later == evs[x].later
    ensures LaterOk(evs[x := e], laterQ)
  {
    assert With(evs[x := e], FLater) == With(evs, FLater);
  }

  lemma CommonFrame(evs: Evs, x: Id, e: Ev, s: seq<Id>, c: nat)
    requires x in evs && CommonOk(evs, s, c)
    requires !(evs[x].timeout && evs[x].common == Some(c)) && !(e.timeout && e.common == Some(c))
    ensures CommonOk(evs[x := e], s, c)
  {
    assert InCommon(evs[x := e], c) == InCommon(evs, c);
    assert forall i :: 0 <= i < |s| ==> s[i] in InCommon(evs, c);
  }

  /** The heap does not notice a change to an event outside of it. */
  lemma HeapFrame(evs: Evs, x: Id, e: Ev, heap: Heap)
    requires x in evs && HeapOk(heap, Times(evs)) && heap.pos.Keys == InHeap(evs)
    requires !(evs[x].timeout && evs[x].common.None?) && !(e.timeout && e.common.None?)
    ensures HeapOk(heap, Times(evs[x := e])) && heap.pos.Keys == InHeap(evs[x := e])
  {
    assert InHeap(evs[x := e]) == InHeap(evs);
    assert x !in heap.pos;
    assert forall y :: y in heap.pos ==> Times(evs[x := e])[y] == Times(evs)[y];
  }

  /** Changes that touch neither the timeout flag nor a pending deadline. */
  lemma TimersFrame(evs: Evs, x: Id, e: Ev, heap: Heap, commons: seq<Common>)
    requires x in evs && TimersOk(evs, heap, commons)
    requires e.timeout == evs[x].timeout && (e.timeout ==> e.due == evs[x].due && e.common == evs[x].common)
    ensures TimersOk(evs[x := e], heap, commons)
  {
    var evs' := evs[x := e];
    assert InHeap(evs') == InHeap(evs);
    assert forall y :: y in heap.pos ==> Times(evs')[y] == Times(evs)[y];
    forall c | 0 <= c < |commons|
      ensures CommonOk(evs', commons[c].events, c)
    {
      CommonKept(evs, x, e, commons[c].events, c);
    }
  }

  lemma CommonKept(evs: Evs, x: Id, e: Ev, s: seq<Id>, c: nat)
    requires x in evs && CommonOk(evs, s, c)
    requires e.timeout == evs[x].timeout && (e.timeout ==> e.due == evs[x].due && e.common == evs[x].common)
    ensures CommonOk(evs[x := e], s, c)
  {
    assert InCommon(evs[x := e], c) == InCommon(evs, c);
    assert forall i :: 0 <= i < |s| ==> s[i] in InCommon(evs, c);
  }

  /** insert_common_timeout_inorder: behind the last event that is not due later. */
  function InsertInOrder(evs: Evs, s: seq<Id>, x: Id): seq<Id>
    requires x in evs && forall y :: y in s ==> y in evs
  {
    if s == [] then [x]
    else if evs[x].due >= evs[s[|s| - 1]].due then s + [x]
    else InsertInOrder(evs, s[..|s| - 1], x) + [s[|s| - 1]]
  }

  lemma {:induction false} InsertMembers(evs: Evs, s: seq<Id>, x: Id)
    requires x in evs && (forall y :: y in s ==> y in evs)
    ensures forall y :: y in InsertInOrder(evs, s, x) <==> y in s || y == x
    ensures InsertInOrder(evs, s, x)[0] == x || (s != [] && InsertInOrder(evs, s, x)[0] == s[0])
  {
    if s != [] && evs[x].due < evs[s[|s| - 1]].due {
      InsertMembers(evs, s[..|s| - 1], x);
      assert s == s[..|s| - 1] + [s[|s| - 1]];
    }
  }

  lemma {:induction false} InsertDistinct(evs: Evs, s: seq<Id>, x: Id)
    requires x in evs && (forall y :: y in s ==> y in evs)
    requires x !in s && Distinct(s)
    ensures Distinct(InsertInOrder(evs, s, x))
  {
    if s != [] && evs[x].due < evs[s[|s| - 1]].due {
      var t, l := s[..|s| - 1], s[|s| - 1];
      InsertDistinct(evs, t, x);
      InsertMembers(evs, t, x);
      assert l !in InsertInOrder(evs, t, x);
    }
  }

  lemma {:induction false} InsertSorted(evs: Evs, s: seq<Id>, x: Id)
    requires x in evs && (forall y :: y in s ==> y in evs) && Sorted(evs, s)
    ensures (forall y :: y in InsertInOrder(evs, s, x) ==> y in evs) && Sorted(evs, InsertInOrder(evs, s, x))
  {
    InsertMembers(evs, s, x);
    if s != [] && evs[x].due < evs[s[|s| - 1]].due {
      var t, l := s[..|s| - 1], s[|s| - 1];
      InsertSorted(evs, t, x);
      InsertMembers(evs, t, x);
      assert forall y :: y in t ==> evs[y].due <= evs[l].due;
      SortedSnoc(evs, InsertInOrder(evs, t, x), l);
    } else {
      assert forall y :: y in s ==> s != [] && evs[y].due <= evs[s[|s| - 1]].due;
      SortedSnoc(evs, s, x);
    }
  }

  /** The new event goes behind those that are due no later, also at the same time, and before
      those that are due later. */
  lemma {:induction false} InsertPlace(evs: Evs, s: seq<Id>, x: Id) returns (i: nat)
    requires x in evs && (forall y :: y in s ==> y in evs) && Sorted(evs, s)
    ensures i <= |s| && InsertInOrder(evs, s, x) == s[..i] + [x] + s[i..]
    ensures forall j :: 0 <= j < |s| ==> s[j] in evs && (evs[s[j]].due <= evs[x].due <==> j < i)
  {
    if s != [] && evs[x].due < evs[s[|s| - 1]].due {
      i := InsertPlace(evs, s[..|s| - 1], x);
      PlaceBefore(evs, s, x, i);
    } else {
      i := |s|;
      if s != [] {
        LastIsLatest(evs, s);
      }
    }
  }

  lemma PlaceBefore(evs: Evs, s: seq<Id>, x: Id, i: nat)
    requires x in evs && (forall y :: y in s ==> y in evs) && s != [] && evs[x].due < evs[s[|s| - 1]].due
    requires
      && var t := s[..|s| - 1];
      && i <= |t| && InsertInOrder(evs, t, x) == t[..i] + [x] + t[i..]
      && forall j :: 0 <= j < |t| ==> t[j] in evs && (evs[t[j]].due <= evs[x].due <==> j < i)
    ensures InsertInOrder(evs, s, x) == s[..i] + [x] + s[i..]
    ensures forall j :: 0 <= j < |s| ==> s[j] in evs && (evs[s[j]].due <= evs[x].due <==> j < i)
  {
    var t, l := s[..|s| - 1], s[|s| - 1];
    assert t[..i] == s[..i] && t[i..] + [l] == s[i..];
    forall j | 0 <= j < |s|
      ensures s[j] in evs && (evs[s[j]].due <= evs[x].due <==> j < i)
    {
      if j < |t| {
        assert t[j] == s[j];
      }
    }
  }

  lemma LastIsLatest(evs: Evs, s: seq<Id>)
    requires (forall y :: y in s ==> y in evs) && Sorted(evs, s) && s != []
    ensures forall j :: 0 <= j < |s| ==> s[j] in evs && evs[s[j]].due <= evs[s[|s| - 1]].due
  {
  }

  /** An event that is due no earlier than the others goes last. */
  lemma SortedSnoc(evs: Evs, s: seq<Id>, x: Id)
    requires x in evs && (forall y :: y in s ==> y in evs && evs[y].due <= evs[x].due) && Sorted(evs, s)
    ensures (forall y :: y in s + [x] ==> y in evs) && Sorted(evs, s + [x])
  {
    assert forall i :: 0 <= i < |s| ==> s[i] in s;
  }

  lemma {:induction false} DropSorted(evs: Evs, s: seq<Id>, x: Id)
    requires (forall y :: y in s ==> y in evs) && Sorted(evs, s)
    ensures (forall y :: y in Drop(s, x) ==> y in s) && Sorted(evs, Drop(s, x))
    ensures Drop(s, x) != [] ==> evs[s[0]].due <= evs[Drop(s, x)[0]].due
  {
    if s != [] && s[0] != x {
      DropSorted(evs, s[1..], x);
    }
  }

  // ----- the lists after an event moved -----

  lemma LaterInsert(evs: Evs, x: Id, laterQ: seq<Id>)
    requires x in evs && !evs[x].later && LaterOk(evs, laterQ)
    ensures LaterOk(evs[x := evs[x].(later := true)], laterQ + [x])
  {
    assert With(evs[x := evs[x].(later := true)], FLater) == With(evs, FLater) + {x};
    SnocLists(laterQ, With(evs, FLater), x);
  }

  lemma LaterRemove(evs: Evs, x: Id, laterQ: seq<Id>)
    requires x in evs && evs[x].later && LaterOk(evs, laterQ)
    ensures LaterOk(evs[x := evs[x].(later := false)], Drop(laterQ, x))
  {
    assert With(evs[x := evs[x].(later := false)], FLater) == With(evs, FLater) - {x};
    DropLists(laterQ, With(evs, FLater), x);
  }

  lemma QueuesInsert(evs: Evs, x: Id, queues: seq<seq<Id>>)
    requires x in evs && !evs[x].active && evs[x].pri < |queues| && QueuesOk(evs, queues)
    ensures QueuesOk(evs[x := evs[x].(active := true)], queues[evs[x].pri := queues[evs[x].pri] + [x]])
  {
    var evs', p := evs[x := evs[x].(active := true)], evs[x].pri;
    assert ActiveAt(evs', p) == ActiveAt(evs, p) + {x};
    SnocLists(queues[p], ActiveAt(evs, p), x);
    forall q | 0 <= q < |queues| && q != p
      ensures ActiveAt(evs', q) == ActiveAt(evs, q)
    {
    }
  }

  lemma QueuesRemove(evs: Evs, x: Id, queues: seq<seq<Id>>)
    requires x in evs && evs[x].active && evs[x].pri < |queues| && QueuesOk(evs, queues)
    ensures QueuesOk(evs[x := evs[x].(active := false)], queues[evs[x].pri := Drop(queues[evs[x].pri], x)])
  {
    var evs', p := evs[x := evs[x].(active := false)], evs[x].pri;
    assert ActiveAt(evs', p) == ActiveAt(evs, p) - {x};
    DropLists(queues[p], ActiveAt(evs, p), x);
    forall q | 0 <= q < |queues| && q != p
      ensures ActiveAt(evs', q) == ActiveAt(evs, q)
    {
    }
  }

  /** A heap with the right members is right when only a timeout flag changed. */
  lemma HeapChanged(evs: Evs, x: Id, e: Ev, heap: Heap)
    requires x in evs && HeapOk(heap, Times(evs)) && e.due == evs[x].due && e.common.None? && evs[x].common.None?
    requires heap.pos.Keys == if e.timeout then InHeap(evs) + {x} else InHeap(evs) - {x}
    ensures HeapOk(heap, Times(evs[x := e])) && heap.pos.Keys == InHeap(evs[x := e])
  {
    assert Times(evs[x := e]) == Times(evs);
    assert InHeap(evs[x := e]) == if e.timeout then InHeap(evs) + {x} else InHeap(evs) - {x};
  }

  ghost predicate CommonsOk(evs: Evs, commons: seq<Common>) {
    forall c :: 0 <= c < |commons| ==> CommonOk(evs, commons[c].events, c)
  }

  function CommonsWithout(evs: Evs, commons: seq<Common>, x: Id): seq<Common>
    requires x in evs && (evs[x].common.Some? ==> evs[x].common.value < |commons|)
  {
    if evs[x].common.None? then commons
    else
      var c := evs[x].common.value;
      commons[c := commons[c].(events := Drop(commons[c].events, x))]
  }

  ghost function CommonsWith(evs: Evs, commons: seq<Common>, x: Id): seq<Common>
    requires x in evs && (evs[x].common.Some? ==> evs[x].common.value < |commons|)
    requires forall c, y :: 0 <= c < |commons| && y in commons[c].events ==> y in evs
  {
    if evs[x].common.None? then commons
    else
      var c := evs[x].common.value;
      commons[c := commons[c].(events := InsertInOrder(evs, commons[c].events, x))]
  }

  lemma CommonsRemove(evs: Evs, x: Id, commons: seq<Common>)
    requires x in evs && evs[x].timeout && CommonsOk(evs, commons)
    requires evs[x].common.Some? ==> evs[x].common.value < |commons|
    ensures CommonsOk(evs[x := evs[x].(timeout := false)], CommonsWithout(evs, commons, x))
  {
    var e := evs[x].(timeout := false);
    forall d | 0 <= d < |commons| && evs[x].common != Some(d)
      ensures CommonOk(evs[x := e], commons[d].events, d)
    {
      CommonFrame(evs, x, e, commons[d].events, d);
    }
    if evs[x].common.Some? {
      CommonRemove(evs, x, commons[evs[x].common.value].events, evs[x].common.value);
    }
  }

  lemma CommonRemove(evs: Evs, x: Id, s: seq<Id>, c: nat)
    requires x in evs && evs[x].timeout && evs[x].common == Some(c) && CommonOk(evs, s, c)
    ensures CommonOk(evs[x := evs[x].(timeout := false)], Drop(s, x), c)
  {
    var evs' := evs[x := evs[x].(timeout := false)];
    assert InCommon(evs', c) == InCommon(evs, c) - {x};
    DropLists(s, InCommon(evs, c), x);
    DropSorted(evs, s, x);
    SortedSame(evs, evs', Drop(s, x));
  }

  /** Sortedness looks at deadlines only. */
  lemma SortedSame(evs: Evs, evs': Evs, s: seq<Id>)
    requires forall y :: y in s ==> y in evs && y in evs' && evs[y].due == evs'[y].due
    requires Sorted(evs, s)
    ensures Sorted(evs', s)
  {
    assert forall i :: 0 <= i < |s| ==> s[i] in s;
  }

  lemma CommonsInsert(evs: Evs, x: Id, commons: seq<Common>)
    requires x in evs && !evs[x].timeout && CommonsOk(evs, commons)
    requires evs[x].common.Some? ==> evs[x].common.value < |commons|
    ensures
      && var evs' := evs[x := evs[x].(timeout := true)];
      && (forall c, y :: 0 <= c < |commons| && y in commons[c].events ==> y in evs')
      && CommonsOk(evs', CommonsWith(evs', commons, x))
  {
    var e := evs[x].(timeout := true);
    var evs' := evs[x := e];
    forall c, y | 0 <= c < |commons| && y in commons[c].events
      ensures y in evs'
    {
      assert CommonOk(evs, commons[c].events, c);
    }
    forall d | 0 <= d < |commons| && evs[x].common != Some(d)
      ensures CommonOk(evs', commons[d].events, d)
    {
      CommonFrame(evs, x, e, commons[d].events, d);
    }
    if evs[x].common.Some? {
      CommonInsert(evs, x, commons[evs[x].common.value].events, evs[x].common.value);
    }
  }

  lemma CommonInsert(evs: Evs, x: Id, s: seq<Id>, c: nat)
    requires x in evs && !evs[x].timeout && evs[x].common == Some(c) && CommonOk(evs, s, c)
    ensures
      && var evs' := evs[x := evs[x].(timeout := true)];
      && (forall y :: y in s ==> y in evs')
      && CommonOk(evs', InsertInOrder(evs', s, x), c)
  {
    var evs' := evs[x := evs[x].(timeout := true)];
    assert InCommon(evs', c) == InCommon(evs, c) + {x};
    SortedSame(evs, evs', s);
    InsertMembers(evs', s, x);
    InsertDistinct(evs', s, x);
    InsertSorted(evs', s, x);
  }

  // ----- the counters mean what the loop takes them for -----

  ghost function TotalLength(queues: seq<seq<Id>>): nat {
    if queues == [] then 0 else TotalLength(queues[..|queues| - 1]) + |queues[|queues| - 1]|
  }

  ghost function ActiveBelow(evs: Evs, n: nat): set<Id> {
    set x | x in evs && evs[x].active && evs[x].pri < n
  }

  lemma {:induction false} TotalIsActive(evs: Evs, queues: seq<seq<Id>>)
    requires QueuesOk(evs, queues)
    ensures TotalLength(queues) == |ActiveBelow(evs, |queues|)|
  {
    var n := |queues|;
    if n == 0 {
      assert ActiveBelow(evs, 0) == {};
    } else {
      assert QueuesOk(evs, queues[..n - 1]);
      TotalIsActive(evs, queues[..n - 1]);
      ListsLength(queues[n - 1], ActiveAt(evs, n - 1));
      assert ActiveBelow(evs, n) == ActiveBelow(evs, n - 1) + ActiveAt(evs, n - 1);
    }
  }

  /** event_count_active is the number of entries in all active queues and the later queue. */
  lemma ActiveCountExact(evs: Evs, queues: seq<seq<Id>>, laterQ: seq<Id>, nCommons: nat, count: int, countActive: int)
    requires QueuesOk(evs, queues) && LaterOk(evs, laterQ) && Counts(evs, count, countActive)
    requires FlagsOk(evs, |queues|, nCommons)
    ensures countActive == TotalLength(queues) + |laterQ|
  {
    TotalIsActive(evs, queues);
    assert ActiveBelow(evs, |queues|) == With(evs, FActive);
    ListsLength(laterQ, With(evs, FLater));
  }

  /** event_count is zero exactly when no user event carries any of the four flags. */
  lemma CountExact(evs: Evs, count: int, countActive: int)
    requires Counts(evs, count, countActive)
    ensures count == 0 <==> forall x, f :: x in evs && !evs[x].internal ==> !Has(evs[x], f)
    ensures countActive == 0 <==> forall x :: x in evs ==> !evs[x].active && !evs[x].later
  {
    forall x, f | x in evs && !evs[x].internal
      ensures x in UserWith(evs, f) <==> Has(evs[x], f)
    {
    }
    forall f | forall x :: x in evs && !evs[x].internal ==> !Has(evs[x], f)
      ensures UserWith(evs, f) == {}
    {
    }
    forall x | x in evs
      ensures x in With(evs, FActive) <==> evs[x].active
      ensures x in With(evs, FLater) <==> evs[x].later
    {
    }
    if forall x :: x in evs ==> !evs[x].active && !evs[x].later {
      assert With(evs, FActive) == With(evs, FLater) == {};
    }
  }
}
