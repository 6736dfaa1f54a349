/** Queues of events with one common timeout. Only a proxy event of each queue is in the timer
    heap; the events of the queue are safe as long as the proxy covers them. */
module CommonTimeouts {
  import opened IdLists
  import opened MinHeap
  import opened EventLists

  /** The event that common_timeout_list keeps for queue c: internal, a bare timer, and the
      only event whose callback serves that queue. */
  ghost predicate ProxyAt(evs: Evs, p: Id, c: nat) {
    p in evs && evs[p].serves == Some(c) && Plain(evs[p])
  }

  predicate Plain(e: Ev) {
    && e.internal && e.isEvent && !e.io && !e.persist
    && !e.later && !e.finalizing && !e.inserted && e.common.None?
  }

  /** Somebody will look at the queue before its first event is late: the proxy is active, or
      its callback has been started and has yet to run, or it is in the heap soon enough. */
  ghost predicate Covered(evs: Evs, cm: Common, owed: bool) {
    || cm.events == []
    || owed
    || (cm.proxy in evs && evs[cm.proxy].active)
    || (cm.proxy in evs && evs[cm.proxy].timeout && cm.events[0] in evs && evs[cm.proxy].due <= evs[cm.events[0]].due)
  }

  ghost predicate Proxies(evs: Evs, commons: seq<Common>) {
    && (forall c :: 0 <= c < |commons| ==> ProxyAt(evs, commons[c].proxy, c))
    && (forall x :: x in evs && evs[x].serves.Some? ==>
          evs[x].serves.value < |commons| && commons[evs[x].serves.value].proxy == x)
  }

  /** Every queue is covered, except possibly queue k. */
  ghost predicate CoveredBut(evs: Evs, commons: seq<Common>, owed: Option<nat>, k: Option<nat>) {
    forall c :: 0 <= c < |commons| && k != Some(c) ==> Covered(evs, commons[c], owed == Some(c))
  }

  lemma ProxiesKept(evs: Evs, x: Id, e: Ev, commons: seq<Common>, commons': seq<Common>)
    requires Proxies(evs, commons) && x in evs && e.serves == evs[x].serves
    requires e.serves.Some? ==> ProxyAt(evs[x := e], x, e.serves.value)
    requires |commons'| == |commons| && forall c :: 0 <= c < |commons| ==> commons'[c].proxy == commons[c].proxy
    ensures Proxies(evs[x := e], commons')
  {
    var evs' := evs[x := e];
    forall c | 0 <= c < |commons'|
      ensures ProxyAt(evs', commons'[c].proxy, c)
    {
      assert ProxyAt(evs, commons[c].proxy, c);
    }
    forall y | y in evs' && evs'[y].serves.Some?
      ensures evs'[y].serves.value < |commons'| && commons'[evs'[y].serves.value].proxy == y
    {
      assert y in evs && evs[y].serves == evs'[y].serves;
    }
  }

  /** A change to an ordinary event that leaves its deadline alone, or that is on no common
      queue, uncovers nothing. */
  lemma CoveredKept(evs: Evs, x: Id, e: Ev, cm: Common, owed: bool)
    requires Covered(evs, cm, owed) && x in evs
    requires cm.proxy != x
    requires e.due == evs[x].due || x !in cm.events
    ensures Covered(evs[x := e], cm, owed)
  {
    assert cm.events != [] ==> cm.events[0] in cm.events;
  }

  lemma CoverKept(evs: Evs, x: Id, e: Ev, commons: seq<Common>, owed: Option<nat>, k: Option<nat>)
    requires CoveredBut(evs, commons, owed, k) && Proxies(evs, commons) && CommonsOk(evs, commons) && x in evs
    requires evs[x].serves.None? || evs[x].serves == k
    requires e.due == evs[x].due || !evs[x].timeout
    ensures CoveredBut(evs[x := e], commons, owed, k)
  {
    forall c | 0 <= c < |commons| && k != Some(c)
      ensures Covered(evs[x := e], commons[c], owed == Some(c))
    {
      assert ProxyAt(evs, commons[c].proxy, c);
      assert CommonOk(evs, commons[c].events, c);
      assert x in commons[c].events ==> x in InCommon(evs, c);
      CoveredKept(evs, x, e, commons[c], owed == Some(c));
    }
  }

  /** Taking an event off its queue moves the first deadline of the queue only later. */
  lemma CoverWithout(evs: Evs, x: Id, commons: seq<Common>, owed: Option<nat>, k: Option<nat>)
    requires CoveredBut(evs, commons, owed, k) && CommonsOk(evs, commons) && x in evs
    requires evs[x].common.Some? ==> evs[x].common.value < |commons|
    ensures CoveredBut(evs, CommonsWithout(evs, commons, x), owed, k)
  {
    if evs[x].common.Some? {
      var c := evs[x].common.value;
      assert CommonOk(evs, commons[c].events, c);
      DropSorted(evs, commons[c].events, x);
      if k != Some(c) {
        assert Covered(evs, commons[c], owed == Some(c));
        HeadDropped(evs, commons[c].events, x);
      }
    }
  }

  lemma HeadDropped(evs: Evs, s: seq<Id>, x: Id)
    requires (forall y :: y in s ==> y in evs) && Sorted(evs, s)
    ensures Drop(s, x) != [] ==> s != [] && Drop(s, x)[0] in evs && evs[s[0]].due <= evs[Drop(s, x)[0]].due
  {
    DropSorted(evs, s, x);
    if Drop(s, x) != [] {
      assert Drop(s, x)[0] in Drop(s, x);
    }
  }

  /** Putting an event into its queue uncovers the queue only if the event is now its first. */
  lemma CoverWith(evs: Evs, x: Id, commons: seq<Common>, owed: Option<nat>)
    requires CoveredBut(evs, commons, owed, None) && x in evs
    requires evs[x].common.Some? ==> evs[x].common.value < |commons|
    requires forall c, y :: 0 <= c < |commons| && y in commons[c].events ==> y in evs
    ensures CoveredBut(evs, CommonsWith(evs, commons, x), owed, evs[x].common)
    ensures
      && var commons' := CommonsWith(evs, commons, x);
      && (evs[x].common.Some? && !([x] <= commons'[evs[x].common.value].events) ==> CoveredBut(evs, commons', owed, None))
  {
    if evs[x].common.Some? {
      var c := evs[x].common.value;
      assert Covered(evs, commons[c], owed == Some(c));
      InsertMembers(evs, commons[c].events, x);
    }
  }

  ghost predicate Guard(evs: Evs, commons: seq<Common>, owed: Option<nat>, k: Option<nat>) {
    Proxies(evs, commons) && CoveredBut(evs, commons, owed, k)
  }

  /** A change to an event guards what was guarded before, apart from the queue it serves. */
  lemma GuardKept(evs: Evs, x: Id, e: Ev, commons: seq<Common>, owed: Option<nat>)
    requires x in evs && Guard(evs, commons, owed, evs[x].serves) && CommonsOk(evs, commons)
    requires e.serves == evs[x].serves && (e.serves.Some? && Plain(evs[x]) ==> Plain(e))
    requires e.due == evs[x].due || !evs[x].timeout
    ensures Guard(evs[x := e], commons, owed, e.serves)
  {
    if e.serves.Some? {
      assert ProxyAt(evs, x, e.serves.value);
    }
    ProxiesKept(evs, x, e, commons, commons);
    CoverKept(evs, x, e, commons, owed, e.serves);
  }

  lemma GuardWithout(evs: Evs, x: Id, commons: seq<Common>, owed: Option<nat>)
    requires x in evs && Guard(evs, commons, owed, evs[x].serves) && CommonsOk(evs, commons)
    requires evs[x].common.Some? ==> evs[x].common.value < |commons|
    ensures Guard(evs[x := evs[x].(timeout := false)], CommonsWithout(evs, commons, x), owed, evs[x].serves)
  {
    var e := evs[x].(timeout := false);
    GuardKept(evs, x, e, commons, owed);
    CoverWithout(evs, x, commons, owed, e.serves);
    ProxiesKept(evs, x, e, commons, CommonsWithout(evs, commons, x));
    CoverSame(evs, x, e, CommonsWithout(evs, commons, x), owed, e.serves);
  }

  /** Cover looks only at deadlines, and at the proxies' flags. */
  lemma CoverSame(evs: Evs, x: Id, e: Ev, commons: seq<Common>, owed: Option<nat>, k: Option<nat>)
    requires CoveredBut(evs, commons, owed, k) && x in evs && e.due == evs[x].due
    requires forall c :: 0 <= c < |commons| && k != Some(c) ==> commons[c].proxy != x
    ensures CoveredBut(evs[x := e], commons, owed, k)
  {
  }

  lemma GuardWith(evs: Evs, x: Id, commons: seq<Common>, owed: Option<nat>)
    requires x in evs && Guard(evs, commons, owed, evs[x].serves) && CommonsOk(evs, commons)
    requires !evs[x].timeout && (evs[x].common.Some? ==> evs[x].common.value < |commons| && evs[x].serves.None?)
    ensures
      && var evs' := evs[x := evs[x].(timeout := true)];
      && (forall c, y :: 0 <= c < |commons| && y in commons[c].events ==> y in evs')
      && var commons' := CommonsWith(evs', commons, x);
      && Guard(evs', commons', owed, if evs[x].common.Some? then evs[x].common else evs[x].serves)
      && (evs[x].common.Some? && !([x] <= commons'[evs[x].common.value].events) ==> Guard(evs', commons', owed, None))
  {
    var e := evs[x].(timeout := true);
    GuardKept(evs, x, e, commons, owed);
    CommonsInsert(evs, x, commons);
    if e.common.Some? {
      CoverWith(evs[x := e], x, commons, owed);
      ProxiesKept(evs, x, e, commons, CommonsWith(evs[x := e], commons, x));
    }
  }

  /** While nothing is active and no callback is owed, no event with a timeout is due before
      the least deadline of the heap. */
  lemma NothingBeforeTop(evs: Evs, heap: Heap, commons: seq<Common>, x: Id)
    requires TimersOk(evs, heap, commons) && Proxies(evs, commons) && CoveredBut(evs, commons, None, None)
    requires x in evs && evs[x].timeout && (evs[x].common.Some? ==> evs[x].common.value < |commons|)
    requires forall y :: y in evs ==> !evs[y].active
    ensures heap.p != [] && heap.p[0] in evs && evs[heap.p[0]].due <= evs[x].due
  {
    if evs[x].common.None? {
      assert x in InHeap(evs);
      HeapTop(evs, heap, x);
    } else {
      var c := evs[x].common.value;
      assert CommonOk(evs, commons[c].events, c) && ProxyAt(evs, commons[c].proxy, c);
      assert x in InCommon(evs, c);
      QueueHead(evs, commons[c].events, x);
      assert Covered(evs, commons[c], false);
      assert commons[c].proxy in InHeap(evs);
      HeapTop(evs, heap, commons[c].proxy);
    }
  }

  lemma QueueHead(evs: Evs, s: seq<Id>, x: Id)
    requires (forall y :: y in s ==> y in evs) && Sorted(evs, s) && x in s
    ensures s != [] && evs[s[0]].due <= evs[x].due
  {
  }

  lemma HeapTop(evs: Evs, heap: Heap, x: Id)
    requires HeapOk(heap, Times(evs)) && heap.pos.Keys == InHeap(evs) && x in InHeap(evs)
    ensures heap.p != [] && heap.p[0] in InHeap(evs) && evs[heap.p[0]].due <= evs[x].due
  {
    assert x in heap.pos;
    TopIsLeast(heap, Times(evs), heap.pos[x]);
    assert heap.p[0] in heap.pos;
  }
}
