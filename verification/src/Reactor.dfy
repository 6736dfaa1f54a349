/** The event base on top of the event map: adding an event registers its descriptor with the
    backend, deleting it, however that comes about, takes it back. Over every run the flags of
    the base, the lists of the map and the interest of the kernel say the same. */
module Reactor {
  import opened IdLists
  import opened EpollTable
  import opened EventLists
  import opened EventBase
  import opened EventState
  import opened CommonTimeouts
  import CL = Changelist
  import EL = EventLoop

  type Descriptors = map<Id, CL.Event>

  ghost predicate NoRepeats(l: seq<CL.Event>) {
    forall i, j :: 0 <= i < j < |l| ==> l[i] != l[j]
  }

  /** Events are listed under their own name and have a descriptor. */
  ghost predicate Named(what: Descriptors) {
    forall x :: x in what ==> what[x].id == x && what[x].fd >= 0
  }

  /** e is what an event of the set waits for, on fd. */
  ghost predicate Wants(ins: set<Id>, what: Descriptors, fd: nat, e: CL.Event) {
    e.id in ins && e.id in what && what[e.id] == e && e.fd == fd
  }

  /** The list of fd holds each event of the set that waits on it, once, and nothing else. */
  ghost predicate Exact(ins: set<Id>, what: Descriptors, l: seq<CL.Event>, fd: nat) {
    NoRepeats(l) && forall e :: e in l <==> Wants(ins, what, fd, e)
  }

  /** The map lists exactly the events of the set. */
  ghost predicate Listing(ins: set<Id>, what: Descriptors, m: CL.EventMap)
    reads m
  {
    && Named(what) && (forall x :: x in ins ==> x in what)
    && forall fd: nat :: Exact(ins, what, m.EventsOn(fd), fd)
  }

  lemma {:induction false} WithoutMembers(l: seq<CL.Event>, ev: CL.Event)
    requires NoRepeats(l)
    ensures NoRepeats(CL.Without(l, ev)) && forall e :: e in CL.Without(l, ev) <==> e in l && e != ev
  {
    if l != [] {
      assert l == [l[0]] + l[1..];
      assert l[0] !in l[1..];
      WithoutMembers(l[1..], ev);
    }
  }

  lemma ExactAdd(ins: set<Id>, what: Descriptors, l: seq<CL.Event>, fd: nat, x: Id)
    requires Named(what) && x in what && x !in ins && Exact(ins, what, l, fd)
    ensures Exact(ins + {x}, what, if what[x].fd == fd then [what[x]] + l else l, fd)
  {
    assert forall e :: Wants(ins + {x}, what, fd, e) <==> Wants(ins, what, fd, e) || (e == what[x] && e.fd == fd);
    assert !Wants(ins, what, fd, what[x]);
  }

  lemma ExactDel(ins: set<Id>, what: Descriptors, l: seq<CL.Event>, fd: nat, x: Id)
    requires Named(what) && x in what && x in ins && Exact(ins, what, l, fd)
    ensures Exact(ins - {x}, what, if what[x].fd == fd then CL.Without(l, what[x]) else l, fd)
    ensures what[x].fd == fd ==> what[x] in l
  {
    assert forall e :: Wants(ins - {x}, what, fd, e) <==> Wants(ins, what, fd, e) && e != what[x];
    WithoutMembers(l, what[x]);
    assert what[x].fd == fd ==> Wants(ins, what, fd, what[x]);
  }

  /** evmap_io_add_ for one more event. */
  method Register(m: CL.EventMap, ghost ins: set<Id>, what: Descriptors, x: Id) returns (io: int)
    requires m.Valid() && Listing(ins, what, m) && x in what && x !in ins
    modifies m`io, m`changes, m`kernel
    ensures m.Valid() && Listing(if io == -1 then ins else ins + {x}, what, m)
    ensures io == -1 <==> CL.Overflows(old(m.EventsOn(what[x].fd)), what[x])
  {
    io := m.IoAdd(what[x]);
    if io != -1 {
      forall fd: nat
        ensures Exact(ins + {x}, what, m.EventsOn(fd), fd)
      {
        ExactAdd(ins, what, old(m.EventsOn(fd)), fd, x);
      }
    } else {
      forall fd: nat
        ensures Exact(ins, what, m.EventsOn(fd), fd)
      {
        assert Exact(ins, what, old(m.EventsOn(fd)), fd);
      }
    }
  }

  /** evmap_io_del_ for the events that are gone, in any order. */
  method Unregister(m: CL.EventMap, ghost ins: set<Id>, what: Descriptors, gone: set<Id>)
    requires m.Valid() && Listing(ins, what, m) && gone <= ins
    modifies m`io, m`changes, m`kernel
    ensures m.Valid() && Listing(ins - gone, what, m)
  {
    var left := gone;
    ghost var now := ins;
    while left != {}
      invariant left <= gone && now == ins - (gone - left)
      invariant m.Valid() && Listing(now, what, m)
      decreases |left|
    {
      var x :| x in left;
      UnregisterOne(m, now, what, x);
      left, now := left - {x}, now - {x};
    }
    assert now == ins - gone;
  }

  method UnregisterOne(m: CL.EventMap, ghost ins: set<Id>, what: Descriptors, x: Id)
    requires m.Valid() && Listing(ins, what, m) && x in ins
    modifies m`io, m`changes, m`kernel
    ensures m.Valid() && Listing(ins - {x}, what, m)
  {
    ghost var on: nat := what[x].fd;
    ExactDel(ins, what, m.EventsOn(on), on, x);
    var _ := m.IoDel(what[x]);
    forall fd: nat
      ensures Exact(ins - {x}, what, m.EventsOn(fd), fd)
    {
      ExactDel(ins, what, old(m.EventsOn(fd)), fd, x);
    }
  }

  // ----- the steps -----

  ghost function Inserted(evs: Evs): set<Id> {
    With(evs, FInserted)
  }

  /** The flags, the lists and the kernel agree: the map lists the events that carry the inserted
      flag, and every event that can be registered has a descriptor. */
  ghost predicate Wired(b: Base, m: CL.EventMap, what: Descriptors)
    reads b, m
  {
    && b.Valid() && m.Valid() && Listing(Inserted(b.evs), what, m)
    && forall x :: x in b.evs && b.evs[x].io ==> x in what
  }

  lemma PlainProxies(b: Base)
    requires b.Valid()
    ensures forall y :: y in b.evs && b.evs[y].serves.Some? ==> Plain(b.evs[y])
  {
    Parts(b.View(), None);
    forall y | y in b.evs && b.evs[y].serves.Some?
      ensures Plain(b.evs[y])
    {
      assert ProxyAt(b.evs, b.commons[b.evs[y].serves.value].proxy, b.evs[y].serves.value);
    }
  }

  /** Only x may have been registered, and no event became one that can be. */
  ghost predicate Gained(evs: Evs, evs': Evs, x: Id, registered: bool) {
    && evs'.Keys == evs.Keys && (forall y :: y in evs ==> evs'[y].io == evs[y].io)
    && Inserted(evs') == if registered then Inserted(evs) + {x} else Inserted(evs)
  }

  lemma AddGains(evs: Evs, evs': Evs, x: Id, registered: bool)
    requires OthersKept(evs, evs', x)
    requires forall y :: y in evs && evs[y].serves.Some? ==> Plain(evs[y])
    requires forall y :: y in evs' && evs'[y].serves.Some? ==> Plain(evs'[y])
    requires evs'[x].io == evs[x].io && evs'[x].inserted == (evs[x].inserted || registered)
    ensures Gained(evs, evs', x, registered)
  {
  }

  lemma AddedFlags(e: Ev, tv: Option<Timeout>, absolute: bool, now: int)
    ensures
      && var f := AddedEvent(e, tv, absolute, now);
      && f.io == e.io && f.inserted == (e.inserted || Registers(e))
  {
  }

  /** event_add with the answer `io` of the map. */
  method AddWith(b: Base, x: Id, tv: Option<Timeout>, absolute: bool, now: int, io: int, room: bool) returns (r: int)
    requires b.Valid() && x in b.evs && b.evs[x].serves.None? && b.evs[x].isEvent
    requires tv.Some? && tv.value.common.Some? ==> tv.value.common.value < |b.commons|
    modifies b
    ensures b.Valid()
    ensures
      && var e := old(b.evs)[x];
      && r == (if Refused(e, tv.Some?, room) || (Registers(e) && io == -1) then -1 else 0)
      && Gained(old(b.evs), b.evs, x, r == 0 && Registers(e))
      && EL.Effect(old(b.evs), b.evs, old(|b.queues|), old(b.owed), EL.DoAdd(x, tv, absolute, now, io, room))
  {
    ghost var evs := b.evs;
    PlainProxies(b);
    var notify;
    r, notify := b.Add(x, tv, absolute, now, io, room);
    PlainProxies(b);
    AddedFlags(evs[x], tv, absolute, now);
    if r == 0 {
      AddGains(evs, b.evs, x, Registers(evs[x]));
    }
  }

  /** event_persist_closure with the answer `io` of the map. */
  method PersistWith(b: Base, x: Id, now: int, io: int, room: bool) returns (r: int)
    requires b.Valid() && x in b.evs && b.evs[x].persist && b.evs[x].isEvent && b.evs[x].serves.None?
    modifies b
    ensures b.Valid()
    ensures
      && var e := old(b.evs)[x];
      && r == (if e.interval != 0 && (Refused(e, true, room) || (Registers(e) && io == -1)) then -1 else 0)
      && Gained(old(b.evs), b.evs, x, e.interval != 0 && r == 0 && Registers(e))
      && EL.Effect(old(b.evs), b.evs, old(|b.queues|), old(b.owed), EL.DoPersist(x, now, io, room))
  {
    ghost var evs := b.evs;
    PlainProxies(b);
    r := EL.Persist(b, x, now, io, room);
    PlainProxies(b);
    ghost var e := evs[x];
    AddedFlags(e, Some(Timeout(EL.NextRun(e, now), e.common)), true, now);
    AddMeans(e, Some(Timeout(EL.NextRun(e, now), e.common)), true, now);
    if e.interval != 0 && r == 0 {
      AddGains(evs, b.evs, x, Registers(e));
    }
  }

  /** event_add fails before it asks the map. */
  predicate Refused(e: Ev, timed: bool, room: bool) {
    e.finalizing || (timed && !e.timeout && !room)
  }

  /** event_add: it succeeds unless it is refused or the map's counters would overflow. */
  method AddStep(b: Base, m: CL.EventMap, what: Descriptors, x: Id, tv: Option<Timeout>, absolute: bool, now: int, room: bool)
    returns (r: int)
    requires Wired(b, m, what) && x in b.evs && b.evs[x].serves.None? && b.evs[x].isEvent
    requires tv.Some? && tv.value.common.Some? ==> tv.value.common.value < |b.commons|
    modifies b, m`io, m`changes, m`kernel
    ensures Wired(b, m, what)
    ensures
      && var e := old(b.evs)[x];
      && (r == -1 <==> Refused(e, tv.Some?, room) || (Registers(e) && x in what && CL.Overflows(old(m.EventsOn(what[x].fd)), what[x])))
      && (r == -1 ==> b.evs == old(b.evs))
      && (r != -1 ==> r == 0 && x in b.evs && Added(e, b.evs[x], tv, absolute, now))
  {
    var io := 0;
    if Registers(b.evs[x]) && !Refused(b.evs[x], tv.Some?, room) {
      io := Register(m, Inserted(b.evs), what, x);
    }
    r := AddWith(b, x, tv, absolute, now, io, room);
  }

  method PersistStep(b: Base, m: CL.EventMap, what: Descriptors, x: Id, now: int, room: bool) returns (io: int)
    requires Wired(b, m, what) && x in b.evs && b.evs[x].persist && b.evs[x].isEvent && b.evs[x].serves.None?
    modifies b, m`io, m`changes, m`kernel
    ensures Wired(b, m, what)
    ensures EL.Effect(old(b.evs), b.evs, old(|b.queues|), old(b.owed), EL.DoPersist(x, now, io, room))
    ensures io == -1 ==> x in what && CL.Overflows(old(m.EventsOn(what[x].fd)), what[x])
  {
    io := 0;
    if b.evs[x].interval != 0 && Registers(b.evs[x]) && !Refused(b.evs[x], true, room) {
      io := Register(m, Inserted(b.evs), what, x);
    }
    var _ := PersistWith(b, x, now, io, room);
  }

  /** event_assign: an event that is not registered gets a new descriptor. */
  method AssignStep(b: Base, m: CL.EventMap, what: Descriptors, x: Id, e: Ev, fd: nat, wants: Bits)
    returns (what': Descriptors)
    requires Wired(b, m, what)
    requires Idle(e) && !e.finalizing && e.serves.None? && e.common.None? && e.pri < |b.queues|
    requires x in b.evs ==> Idle(b.evs[x]) && b.evs[x].serves.None?
    modifies b
    ensures Wired(b, m, what') && what' == what[x := CL.Event(x, fd, wants)] && b.evs == old(b.evs)[x := e]
  {
    what' := what[x := CL.Event(x, fd, wants)];
    ghost var ins := Inserted(b.evs);
    b.Assign(x, e);
    assert Inserted(b.evs) == ins;
    forall g: nat
      ensures Exact(ins, what', m.EventsOn(g), g)
    {
      NewDescriptor(ins, what, what', m.EventsOn(g), g, x);
    }
  }

  lemma NewDescriptor(ins: set<Id>, what: Descriptors, what': Descriptors, l: seq<CL.Event>, fd: nat, x: Id)
    requires x !in ins && x in what' && what' == what[x := what'[x]] && Exact(ins, what, l, fd)
    ensures Exact(ins, what', l, fd)
  {
    assert forall e :: Wants(ins, what', fd, e) <==> Wants(ins, what, fd, e);
  }

  /** Any other step: the events whose flag it clears are taken off the map. */
  method OtherStep(b: Base, m: CL.EventMap, what: Descriptors, st: EL.Step)
    requires Wired(b, m, what) && EL.Allowed(b, st) && !st.DoAssign? && !st.DoAdd? && !st.DoPersist?
    modifies b, m`io, m`changes, m`kernel
    ensures Wired(b, m, what) && EL.Effect(old(b.evs), b.evs, old(|b.queues|), old(b.owed), st)
  {
    var before := b.evs;
    EL.Do(b, st);
    var gone := set x | x in before && before[x].inserted && !b.evs[x].inserted;
    assert gone <= Inserted(before) && Inserted(b.evs) == Inserted(before) - gone;
    Unregister(m, Inserted(before), what, gone);
  }

  /** A step of the base, with the descriptor that an assignment gives, or a dispatch. */
  datatype Step = BaseStep(st: EL.Step, fd: nat, wants: Bits) | DispatchStep

  /** The step, with what the map answers when it asks. */
  function Answered(st: EL.Step, io: int): EL.Step {
    match st
    case DoAdd(x, tv, absolute, now, _, room) => EL.DoAdd(x, tv, absolute, now, io, room)
    case DoPersist(x, now, _, room) => EL.DoPersist(x, now, io, room)
    case _ => st
  }

  /** A step that asks the map, and its answer. */
  method ArmStep(b: Base, m: CL.EventMap, what: Descriptors, st: EL.Step) returns (io: int)
    requires Wired(b, m, what) && EL.Allowed(b, st) && (st.DoAdd? || st.DoPersist?)
    modifies b, m`io, m`changes, m`kernel
    ensures Wired(b, m, what) && EL.Effect(old(b.evs), b.evs, old(|b.queues|), old(b.owed), Answered(st, io))
  {
    match st {
      case DoAdd(x, tv, absolute, now, _, room) => io := AddStep(b, m, what, x, tv, absolute, now, room);
      case DoPersist(x, now, _, room) => io := PersistStep(b, m, what, x, now, room);
    }
  }

  method Take(b: Base, m: CL.EventMap, what: Descriptors, step: Step) returns (what': Descriptors)
    requires Wired(b, m, what) && (step.BaseStep? ==> EL.Allowed(b, step.st))
    modifies b, m`io, m`changes, m`kernel
    ensures Wired(b, m, what') && (step.DispatchStep? ==> m.changes == [] && b.evs == old(b.evs))
    ensures step.BaseStep? ==>
      exists io :: EL.Effect(old(b.evs), b.evs, old(|b.queues|), old(b.owed), Answered(step.st, io))
  {
    what' := what;
    if step.DispatchStep? {
      var _ := m.Dispatch();
      return;
    }
    var io := 0;
    if step.st.DoAssign? {
      what' := AssignStep(b, m, what, step.st.x, step.st.e, step.fd, step.wants);
    } else if step.st.DoAdd? || step.st.DoPersist? {
      io := ArmStep(b, m, what, step.st);
    } else {
      OtherStep(b, m, what, step.st);
    }
    assert EL.Effect(old(b.evs), b.evs, old(|b.queues|), old(b.owed), Answered(step.st, io));
  }

  // ----- every run -----

  datatype Kind = Reading | Writing | Closing

  predicate HasKind(b: Bits, k: Kind) {
    match k
    case Reading => b.read
    case Writing => b.write
    case Closing => b.closed
  }

  /** Event x carries the inserted flag and waits for something of this kind on fd. */
  ghost predicate WaitsFor(evs: Evs, what: Descriptors, x: Id, fd: nat, k: Kind) {
    x in evs && evs[x].inserted && x in what && what[x].fd == fd && HasKind(what[x].wants, k)
  }

  lemma {:induction false} WantedByKind(l: seq<CL.Event>, k: Kind)
    ensures HasKind(CL.WantedBy(l), k) <==> exists e :: e in l && HasKind(e.wants, k)
  {
    if l != [] {
      WantedByKind(l[1..], k);
      assert l == [l[0]] + l[1..];
      assert HasKind(CL.WantedBy(l), k) <==> HasKind(l[0].wants, k) || HasKind(CL.WantedBy(l[1..]), k);
    }
  }

  /** With nothing queued the kernel watches an fd for exactly what inserted events wait for. */
  lemma KernelAgrees(b: Base, m: CL.EventMap, what: Descriptors, fd: nat, k: Kind)
    requires Wired(b, m, what) && m.changes == []
    ensures HasKind(CL.Interest(m.kernel, fd), k) <==> exists x :: WaitsFor(b.evs, what, x, fd, k)
  {
    CL.Settled(m, fd);
    var l := m.EventsOn(fd);
    WantedByKind(l, k);
    assert Exact(Inserted(b.evs), what, l, fd);
    if HasKind(CL.WantedBy(l), k) {
      var e :| e in l && HasKind(e.wants, k);
      assert Wants(Inserted(b.evs), what, fd, e);
      assert WaitsFor(b.evs, what, e.id, fd, k);
    }
    if x :| WaitsFor(b.evs, what, x, fd, k) {
      assert Wants(Inserted(b.evs), what, fd, what[x]);
    }
  }

  /** Every run of allowed steps on a new base and a new map, queueing changes or not, keeps flags
      and lists in agreement; and whenever nothing is queued, in particular after a dispatch, the
      kernel watches every fd for exactly what the inserted events wait for. */
  method Run(priorities: nat, queued: bool, steps: seq<Step>) returns (b: Base, m: CL.EventMap, what: Descriptors)
    requires priorities > 0
    ensures Wired(b, m, what)
    ensures !queued || (steps != [] && steps[|steps| - 1].DispatchStep?) ==>
              forall fd: nat, k: Kind ::
                HasKind(CL.Interest(m.kernel, fd), k) <==> exists x :: WaitsFor(b.evs, what, x, fd, k)
  {
    b := new Base(priorities);
    m := new CL.EventMap(queued);
    what := map[];
    for i := 0 to |steps|
      invariant fresh(b) && fresh(m) && Wired(b, m, what) && m.queued == queued
      invariant i > 0 && steps[i - 1].DispatchStep? ==> m.changes == []
    {
      if steps[i].DispatchStep? || EL.Allowed(b, steps[i].st) {
        what := Take(b, m, what, steps[i]);
      }
    }
    if m.changes == [] {
      forall fd: nat, k: Kind
        ensures HasKind(CL.Interest(m.kernel, fd), k) <==> exists x :: WaitsFor(b.evs, what, x, fd, k)
      {
        KernelAgrees(b, m, what, fd, k);
      }
    }
  }
}
