/** The per-fd event map, the changelist that coalesces its changes between dispatches, and
    the epoll backend that applies them. The kernel is a map from fds to interest sets. */
module Changelist {
  import opened EpollTable
  import opened Machine

  const MAX_COUNT: nat := 0xffff

  /** An event that waits on an fd; `id` tells events with equal fields apart. */
  datatype Event = Event(id: nat, fd: int, wants: Bits)

  /** What the map keeps per fd: the events, how many want each kind, and the index plus one
      of the fd's entry in the changelist. */
  datatype Ctx = Ctx(nread: nat, nwrite: nat, nclose: nat, events: seq<Event>, idxPlus1: nat)

  const NEW_CTX := Ctx(0, 0, 0, [], 0)

  /** A queued change: the events registered before, and what to do with each kind. */
  datatype Change = Change(fd: nat, had: Bits, read: Delta, write: Delta, close: Delta)

  function Union(a: Bits, b: Bits): Bits {
    Bits(a.read || b.read, a.write || b.write, a.closed || b.closed)
  }

  function Minus(a: Bits, b: Bits): Bits {
    Bits(a.read && !b.read, a.write && !b.write, a.closed && !b.closed)
  }

  /** The kinds some event in the list wants. */
  ghost function WantedBy(events: seq<Event>): Bits {
    if events == [] then NO_BITS else Union(events[0].wants, WantedBy(events[1..]))
  }

  ghost function CountRead(events: seq<Event>): nat {
    if events == [] then 0 else One(events[0].wants.read) + CountRead(events[1..])
  }

  ghost function CountWrite(events: seq<Event>): nat {
    if events == [] then 0 else One(events[0].wants.write) + CountWrite(events[1..])
  }

  ghost function CountClose(events: seq<Event>): nat {
    if events == [] then 0 else One(events[0].wants.closed) + CountClose(events[1..])
  }

  /** LIST_REMOVE */
  function Without(events: seq<Event>, ev: Event): seq<Event> {
    if events == [] then []
    else if events[0] == ev then events[1..]
    else [events[0]] + Without(events[1..], ev)
  }

  /** The counters agree with the list of events. */
  ghost predicate Counted(x: Ctx) {
    && x.nread == CountRead(x.events) <= MAX_COUNT
    && x.nwrite == CountWrite(x.events) <= MAX_COUNT
    && x.nclose == CountClose(x.events) <= MAX_COUNT
  }

  /** The kinds whose counter is not zero. */
  function Kinds(x: Ctx): Bits {
    Bits(x.nread > 0, x.nwrite > 0, x.nclose > 0)
  }

  /** The counters name exactly the kinds that some event wants. */
  lemma {:induction false} CountsAreWants(events: seq<Event>)
    ensures WantedBy(events) == Bits(CountRead(events) > 0, CountWrite(events) > 0, CountClose(events) > 0)
  {
    if events != [] {
      CountsAreWants(events[1..]);
    }
  }

  lemma {:induction false} CountsWithout(events: seq<Event>, ev: Event)
    requires ev in events
    ensures CountRead(events) == CountRead(Without(events, ev)) + One(ev.wants.read)
    ensures CountWrite(events) == CountWrite(Without(events, ev)) + One(ev.wants.write)
    ensures CountClose(events) == CountClose(Without(events, ev)) + One(ev.wants.closed)
  {
    if events[0] != ev {
      CountsWithout(events[1..], ev);
      assert ([events[0]] + Without(events[1..], ev))[1..] == Without(events[1..], ev);
    }
  }

  // ----- the kernel -----

  type Kernel = map<nat, Bits>

  /** The interest set of an fd; an unregistered fd has none. */
  function Interest(k: Kernel, fd: nat): Bits {
    if fd in k then k[fd] else NO_BITS
  }

  /** epoll_ctl: fails on adding a registered fd and on changing an unregistered one. */
  function Ctl(k: Kernel, op: CtlOp, fd: nat, events: Bits): (r: (Kernel, bool))
    ensures r.1 <==> (op.CtlAdd? <==> fd !in k)
    ensures !r.1 ==> r.0 == k
    ensures r.1 ==> r.0 - {fd} == k - {fd} && (fd in r.0 <==> !op.CtlDel?) && (fd in r.0 ==> r.0[fd] == events)
  {
    match op
    case CtlAdd => if fd in k then (k, false) else (k[fd := events], true)
    case CtlMod => if fd in k then (k[fd := events], true) else (k, false)
    case CtlDel => if fd in k then (k - {fd}, true) else (k, false)
  }

  /** The kernel once an fd's interest set is `b`. */
  ghost function Registered(k: Kernel, fd: nat, b: Bits): Kernel {
    if b == NO_BITS then k - {fd} else k[fd := b]
  }

  ghost function Target(ch: Change): Bits {
    Wanted(ch.had, ch.read, ch.write, ch.close)
  }

  predicate IsChange(ch: Change) {
    ch.read != Keep || ch.write != Keep || ch.close != Keep
  }

  /** The row the table holds for a change. */
  function RowFor(ch: Change): (row: Row)
    ensures row == ClosedForm(ch.had, ch.read, ch.write, ch.close)
  {
    TableIsClosedForm(ch.had, ch.read, ch.write, ch.close);
    DecodeRow(TableRow(Index(ch.had, ch.read, ch.write, ch.close)))
  }

  /** epoll_apply_one_change: the table's call, and one retry when the guess about the
      registration was wrong. `first` tells whether the first call already succeeded. */
  method ApplyOne(k: Kernel, ch: Change) returns (r: Kernel, ok: bool, first: bool)
    ensures ok
    ensures IsChange(ch) ==> r == Registered(k, ch.fd, Target(ch))
    ensures !IsChange(ch) ==> r == k && first
    ensures (ch.fd in k <==> ch.had != NO_BITS) && DeletesOnlyHad(ch) ==> first
  {
    var row := RowFor(ch);
    if row == Nothing {
      return k, true, true;
    }
    var (k1, done) := Ctl(k, row.op, ch.fd, row.events);
    if done {
      return k1, true, true;
    }
    first := false;
    match row.op {
      case CtlMod =>
        var (k2, again) := Ctl(k, CtlAdd, ch.fd, row.events);
        r, ok := k2, again;
      case CtlAdd =>
        var (k2, again) := Ctl(k, CtlMod, ch.fd, row.events);
        r, ok := k2, again;
      case CtlDel =>
        r, ok := k, true;
        assert k - {ch.fd} == k;
    }
  }

  /** A delete only names kinds that were registered. */
  predicate DeletesOnlyHad(ch: Change) {
    && (ch.read == Del ==> ch.had.read)
    && (ch.write == Del ==> ch.had.write)
    && (ch.close == Del ==> ch.had.closed)
  }

  /** A new entry: nothing to do yet. */
  function NewChange(fd: nat, had: Bits): Change {
    Change(fd, had, Keep, Keep, Keep)
  }

  /** An add replaces whatever was queued for its kinds. */
  function WithAdd(ch: Change, b: Bits): Change {
    ch.(read := if b.read then Add else ch.read,
        write := if b.write then Add else ch.write,
        close := if b.closed then Add else ch.close)
  }

  /** A delete of a kind that was not registered only takes back a queued add. */
  function WithDel(ch: Change, b: Bits): Change {
    ch.(read := if b.read then (if ch.had.read then Del else Keep) else ch.read,
        write := if b.write then (if ch.had.write then Del else Keep) else ch.write,
        close := if b.closed then (if ch.had.closed then Del else Keep) else ch.close)
  }

  /** The whole state is consistent at one fd: its counters agree with its events, and the
      kernel's interest, corrected by the queued change if there is one, is what they want. */
  ghost predicate FdOk(io: map<nat, Ctx>, changes: seq<Change>, k: Kernel, fd: nat)
    requires fd in io
  {
    var x := io[fd];
    && Counted(x)
    && (forall i :: 0 <= i < |x.events| ==> x.events[i].fd == fd)
    && x.idxPlus1 <= |changes|
    && if x.idxPlus1 == 0 then Interest(k, fd) == Kinds(x)
       else
         var ch := changes[x.idxPlus1 - 1];
         ch.fd == fd && DeletesOnlyHad(ch) && Interest(k, fd) == ch.had && Target(ch) == Kinds(x)
  }

  /** Every entry of the changelist is the one its fd points back at. */
  ghost predicate Linked(io: map<nat, Ctx>, changes: seq<Change>) {
    forall i :: 0 <= i < |changes| ==> changes[i].fd in io && io[changes[i].fd].idxPlus1 == i + 1
  }

  /** The kernel only holds fds the map knows, with a nonempty interest. */
  ghost predicate Tidy(io: map<nat, Ctx>, k: Kernel) {
    forall fd :: fd in k ==> fd in io && k[fd] != NO_BITS
  }

  ghost predicate AllOk(io: map<nat, Ctx>, changes: seq<Change>, k: Kernel) {
    && (forall fd :: fd in io ==> FdOk(io, changes, k, fd))
    && Linked(io, changes)
    && Tidy(io, k)
  }

  /** Entries and indices are in bijection, so no fd has two entries. */
  lemma LinkedDistinct(io: map<nat, Ctx>, changes: seq<Change>, i: nat, j: nat)
    requires Linked(io, changes) && i < |changes| && j < |changes| && changes[i].fd == changes[j].fd
    ensures i == j
  {
  }

  /** What FdOk depends on. */
  lemma FdOkFrame(io: map<nat, Ctx>, changes: seq<Change>, k: Kernel, io': map<nat, Ctx>, changes': seq<Change>, k': Kernel, g: nat)
    requires g in io && FdOk(io, changes, k, g) && g in io' && io'[g] == io[g]
    requires |changes| <= |changes'| && Interest(k, g) == Interest(k', g)
    requires io[g].idxPlus1 > 0 ==> changes'[io[g].idxPlus1 - 1] == changes[io[g].idxPlus1 - 1]
    ensures FdOk(io', changes', k', g)
  {
  }

  /** x can stand for fd once ch is its queued change. */
  ghost predicate Fits(k: Kernel, fd: nat, x: Ctx, ch: Change) {
    && Counted(x) && (forall i :: 0 <= i < |x.events| ==> x.events[i].fd == fd)
    && ch.fd == fd && DeletesOnlyHad(ch) && Interest(k, fd) == ch.had && Target(ch) == Kinds(x)
  }

  /** Queueing the first change of an fd keeps the state consistent. */
  lemma QueueNew(io: map<nat, Ctx>, changes: seq<Change>, k: Kernel, fd: nat, x: Ctx, ch: Change)
    requires AllOk(io, changes, k) && fd in io && io[fd].idxPlus1 == 0
    requires Fits(k, fd, x, ch) && x.idxPlus1 == |changes| + 1
    ensures AllOk(io[fd := x], changes + [ch], k)
  {
    var io', changes' := io[fd := x], changes + [ch];
    forall g | g in io'
      ensures FdOk(io', changes', k, g)
    {
      if g != fd {
        FdOkFrame(io, changes, k, io', changes', k, g);
      }
    }
  }

  /** Changing the queued change of an fd keeps the state consistent. */
  lemma QueueAgain(io: map<nat, Ctx>, changes: seq<Change>, k: Kernel, fd: nat, x: Ctx, ch: Change)
    requires AllOk(io, changes, k) && fd in io && 0 < io[fd].idxPlus1
    requires Fits(k, fd, x, ch) && x.idxPlus1 == io[fd].idxPlus1
    ensures x.idxPlus1 <= |changes| && AllOk(io[fd := x], changes[x.idxPlus1 - 1 := ch], k)
  {
    assert FdOk(io, changes, k, fd);
    var io', changes' := io[fd := x], changes[x.idxPlus1 - 1 := ch];
    forall g | g in io'
      ensures FdOk(io', changes', k, g)
    {
      if g != fd {
        assert FdOk(io, changes, k, g);
        FdOkFrame(io, changes, k, io', changes', k, g);
      }
    }
  }

  /** Applying a change at once and putting the context in place keeps the state consistent. */
  lemma ApplyKeeps(io: map<nat, Ctx>, k: Kernel, fd: nat, x: Ctx)
    requires AllOk(io, [], k) && fd in io
    requires Counted(x) && (forall i :: 0 <= i < |x.events| ==> x.events[i].fd == fd) && x.idxPlus1 == 0
    ensures AllOk(io[fd := x], [], Registered(k, fd, Kinds(x)))
  {
    var io', k' := io[fd := x], Registered(k, fd, Kinds(x));
    forall g | g in io'
      ensures FdOk(io', [], k', g)
    {
      if g != fd {
        FdOkFrame(io, [], k, io', [], k', g);
      }
    }
  }

  /** A context whose kinds stay the same can be replaced under either backend. */
  lemma ContextKeeps(io: map<nat, Ctx>, changes: seq<Change>, k: Kernel, fd: nat, x: Ctx)
    requires AllOk(io, changes, k) && fd in io
    requires Counted(x) && (forall i :: 0 <= i < |x.events| ==> x.events[i].fd == fd)
    requires x.idxPlus1 == io[fd].idxPlus1 && Kinds(x) == Kinds(io[fd])
    ensures AllOk(io[fd := x], changes, k)
  {
    var io' := io[fd := x];
    assert FdOk(io, changes, k, fd);
    forall g | g in io'
      ensures FdOk(io', changes, k, g)
    {
      if g != fd {
        FdOkFrame(io, changes, k, io', changes, k, g);
      }
    }
  }

  lemma NewContextKeeps(io: map<nat, Ctx>, changes: seq<Change>, k: Kernel, fd: nat)
    requires AllOk(io, changes, k) && fd !in io
    ensures AllOk(io[fd := NEW_CTX], changes, k)
  {
    var io' := io[fd := NEW_CTX];
    forall g | g in io'
      ensures FdOk(io', changes, k, g)
    {
      if g != fd {
        FdOkFrame(io, changes, k, io', changes, k, g);
      }
    }
  }

  lemma AddTarget(ch: Change, b: Bits)
    ensures Target(WithAdd(ch, b)) == Union(Target(ch), b)
    ensures DeletesOnlyHad(ch) ==> DeletesOnlyHad(WithAdd(ch, b))
  {
  }

  lemma DelTarget(ch: Change, b: Bits)
    ensures Target(WithDel(ch, b)) == Minus(Target(ch), b)
    ensures DeletesOnlyHad(ch) ==> DeletesOnlyHad(WithDel(ch, b))
  {
  }

  /** Applies the changes in order. */
  method ApplyAll(k: Kernel, changes: seq<Change>) returns (r: Kernel, ok: bool, first: bool)
    requires forall i, j :: 0 <= i < j < |changes| ==> changes[i].fd != changes[j].fd
    requires forall i :: 0 <= i < |changes| ==> Interest(k, changes[i].fd) == changes[i].had && DeletesOnlyHad(changes[i])
    requires forall fd :: fd in k ==> k[fd] != NO_BITS
    ensures ok && first
    ensures forall i :: 0 <= i < |changes| ==> Interest(r, changes[i].fd) == Target(changes[i])
    ensures forall fd: nat :: !Listed(changes, fd) ==> Interest(r, fd) == Interest(k, fd)
    ensures forall fd :: fd in r ==> r[fd] != NO_BITS && (fd in k || Listed(changes, fd))
  {
    r, ok, first := k, true, true;
    for n := 0 to |changes|
      invariant ok && first
      invariant forall i :: 0 <= i < n ==> Interest(r, changes[i].fd) == Target(changes[i])
      invariant forall i :: n <= i < |changes| ==> Interest(r, changes[i].fd) == changes[i].had
      invariant forall fd: nat :: !Listed(changes, fd) ==> Interest(r, fd) == Interest(k, fd)
      invariant forall fd :: fd in r ==> r[fd] != NO_BITS && (fd in k || Listed(changes, fd))
    {
      var ch := changes[n];
      var done, once;
      ghost var before := r;
      r, done, once := ApplyOne(r, ch);
      assert Interest(r, ch.fd) == Target(ch);
      assert forall fd: nat :: fd != ch.fd ==> Interest(r, fd) == Interest(before, fd);
      if !done {
        ok := false;
      }
      first := first && once;
    }
  }

  /** A state right after a dispatch: nothing is queued. */
  ghost predicate Flushed(io: map<nat, Ctx>) {
    forall fd :: fd in io ==> io[fd].idxPlus1 == 0
  }

  /** With nothing queued, the kernel's interest is what the events want. */
  lemma FlushedMeans(io: map<nat, Ctx>, changes: seq<Change>, k: Kernel, fd: nat)
    requires AllOk(io, changes, k) && (fd in io ==> io[fd].idxPlus1 == 0)
    ensures Interest(k, fd) == WantedBy(if fd in io then io[fd].events else [])
  {
    if fd in io {
      assert FdOk(io, changes, k, fd);
      CountsAreWants(io[fd].events);
    }
  }

  /** The counters of x agree with its events, which all wait on fd. */
  ghost predicate Sound(fd: nat, x: Ctx) {
    Counted(x) && forall i :: 0 <= i < |x.events| ==> x.events[i].fd == fd
  }

  /** The change that epoll_nochangelist_del makes. */
  function PlainDel(fd: nat, had: Bits, b: Bits): Change {
    Change(fd, had, if b.read then Del else Keep, if b.write then Del else Keep, if b.closed then Del else Keep)
  }

  lemma PlainTargets(fd: nat, had: Bits, b: Bits)
    ensures Target(WithAdd(NewChange(fd, had), b)) == Union(had, b)
    ensures Target(PlainDel(fd, had, b)) == Minus(had, b)
    ensures b != NO_BITS ==> IsChange(WithAdd(NewChange(fd, had), b)) && IsChange(PlainDel(fd, had, b))
  {
  }

  function EntryIndex(io: map<nat, Ctx>, changes: seq<Change>, fd: nat): nat
    requires fd in io && io[fd].idxPlus1 <= |changes|
  {
    if io[fd].idxPlus1 == 0 then |changes| else io[fd].idxPlus1 - 1
  }

  /** The changelist after one more change of fd. */
  function Queued(io: map<nat, Ctx>, changes: seq<Change>, fd: nat, had: Bits, adding: bool, b: Bits): seq<Change>
    requires fd in io && io[fd].idxPlus1 <= |changes|
  {
    var n := io[fd].idxPlus1;
    if n == 0 then changes + [Noted(NewChange(fd, had), adding, b)]
    else changes[n - 1 := Noted(changes[n - 1], adding, b)]
  }

  function Noted(ch: Change, adding: bool, b: Bits): Change {
    if adding then WithAdd(ch, b) else WithDel(ch, b)
  }

  /** A change noted in a fitting entry fits the changed context. */
  lemma NotedFits(k: Kernel, fd: nat, had: Bits, ch: Change, adding: bool, b: Bits, x: Ctx, n: nat)
    requires ch.fd == fd && DeletesOnlyHad(ch) && Interest(k, fd) == ch.had && Target(ch) == had
    requires Sound(fd, x) && Kinds(x) == if adding then Union(had, b) else Minus(had, b)
    ensures Fits(k, fd, x.(idxPlus1 := n), Noted(ch, adding, b))
  {
    AddTarget(ch, b);
    DelTarget(ch, b);
  }

  /** Queueing a change and storing the matching context keeps the state consistent. */
  lemma QueueKeeps(io: map<nat, Ctx>, changes: seq<Change>, k: Kernel, fd: nat, had: Bits, adding: bool, b: Bits, x: Ctx)
    requires AllOk(io, changes, k) && fd in io && had == Kinds(io[fd])
    requires Sound(fd, x) && Kinds(x) == if adding then Union(had, b) else Minus(had, b)
    ensures io[fd].idxPlus1 <= |changes|
    ensures AllOk(io[fd := x.(idxPlus1 := EntryIndex(io, changes, fd) + 1)], Queued(io, changes, fd, had, adding, b), k)
  {
    assert FdOk(io, changes, k, fd);
    var n := io[fd].idxPlus1;
    if n == 0 {
      var ch := NewChange(fd, had);
      NotedFits(k, fd, had, ch, adding, b, x, |changes| + 1);
      QueueNew(io, changes, k, fd, x.(idxPlus1 := |changes| + 1), Noted(ch, adding, b));
    } else {
      NotedFits(k, fd, had, changes[n - 1], adding, b, x, n);
      QueueAgain(io, changes, k, fd, x.(idxPlus1 := n), Noted(changes[n - 1], adding, b));
    }
  }

  class EventMap {
    /** Whether changes are queued until the dispatch, or go to the kernel at once. */
    const queued: bool
    var io: map<nat, Ctx>
    var changes: seq<Change>
    var kernel: Kernel

    ghost predicate Valid()
      reads this
    {
      AllOk(io, changes, kernel) && (!queued ==> changes == [])
    }

    /** The events inserted on an fd, latest first. */
    ghost function EventsOn(fd: nat): seq<Event>
      reads this
    {
      if fd in io then io[fd].events else []
    }

    constructor (queued: bool)
      ensures Valid() && this.queued == queued
      ensures io == map[] && changes == [] && kernel == map[]
    {
      this.queued := queued;
      io, changes, kernel := map[], [], map[];
    }

    /** event_changelist_add_ and event_changelist_del_: finds or makes the entry of fd and
        notes the change in it. */
    method QueueChange(fd: nat, had: Bits, adding: bool, b: Bits)
      requires fd in io && io[fd].idxPlus1 <= |changes|
      modifies this`io, this`changes
      ensures changes == Queued(old(io), old(changes), fd, had, adding, b)
      ensures io == old(io)[fd := old(io)[fd].(idxPlus1 := EntryIndex(old(io), old(changes), fd) + 1)]
    {
      var i := io[fd].idxPlus1 - 1;
      if io[fd].idxPlus1 == 0 {
        i := |changes|;
        changes := changes + [NewChange(fd, had)];
        io := io[fd := io[fd].(idxPlus1 := i + 1)];
      }
      changes := changes[i := Noted(changes[i], adding, b)];
    }

    /** evsel->add or evsel->del on kinds b, then the new context of fd is stored. */
    method Tell(fd: nat, had: Bits, adding: bool, b: Bits, x: Ctx)
      requires Valid() && fd in io && had == Kinds(io[fd]) && b != NO_BITS
      requires Sound(fd, x) && Kinds(x) == if adding then Union(had, b) else Minus(had, b)
      modifies this`io, this`changes, this`kernel
      ensures Valid() && EventsOn(fd) == x.events
      ensures forall g: nat :: g != fd ==> EventsOn(g) == old(EventsOn(g))
      ensures queued ==> kernel == old(kernel)
    {
      if queued {
        QueueKeeps(io, changes, kernel, fd, had, adding, b, x);
        ghost var io0 := io;
        QueueChange(fd, had, adding, b);
        var y := x.(idxPlus1 := io[fd].idxPlus1);
        assert io[fd := y] == io0[fd := y];
        io := io[fd := y];
      } else {
        TellNow(fd, had, adding, b, x.(idxPlus1 := 0));
      }
    }

    /** epoll_nochangelist_add and epoll_nochangelist_del */
    method TellNow(fd: nat, had: Bits, adding: bool, b: Bits, x: Ctx)
      requires AllOk(io, changes, kernel) && changes == [] && fd in io && b != NO_BITS
      requires Sound(fd, x) && Kinds(x) == (if adding then Union(had, b) else Minus(had, b)) && x.idxPlus1 == 0
      modifies this`io, this`kernel
      ensures AllOk(io, changes, kernel) && io == old(io)[fd := x]
    {
      var ch := if adding then WithAdd(NewChange(fd, had), b) else PlainDel(fd, had, b);
      PlainTargets(fd, had, b);
      ApplyKeeps(io, kernel, fd, x);
      var done, once;
      kernel, done, once := ApplyOne(kernel, ch);
      io := io[fd := x];
    }

    /** The context of an fd, made when there is none yet. */
    method Slot(fd: nat) returns (x: Ctx)
      requires Valid()
      modifies this`io
      ensures Valid() && fd in io && io[fd] == x && Sound(fd, x) && x.events == EventsOn(fd)
      ensures forall g: nat :: EventsOn(g) == old(EventsOn(g))
    {
      if fd !in io {
        NewContextKeeps(io, changes, kernel, fd);
        io := io[fd := NEW_CTX];
      }
      assert FdOk(io, changes, kernel, fd);
      x := io[fd];
    }

    /** evmap_io_add_: counts the event in and tells the backend about kinds that are new on
        its fd. Fails, changing nothing, when a counter would pass 65535. */
    method IoAdd(ev: Event) returns (r: int)
      requires Valid()
      modifies this`io, this`changes, this`kernel
      ensures Valid()
      ensures r == -1 <==> ev.fd >= 0 && Overflows(old(EventsOn(ev.fd)), ev)
      ensures ev.fd >= 0 && r != -1 ==> EventsOn(ev.fd) == [ev] + old(EventsOn(ev.fd))
      ensures r == -1 ==> EventsOn(ev.fd) == old(EventsOn(ev.fd))
      ensures forall g: nat :: g != ev.fd ==> EventsOn(g) == old(EventsOn(g))
      ensures ev.fd >= 0 && r != -1 ==> (r == 1 <==> WantedBy(EventsOn(ev.fd)) != WantedBy(old(EventsOn(ev.fd))))
      ensures queued ==> kernel == old(kernel)
    {
      if ev.fd < 0 {
        return 0;
      }
      var fd: nat := ev.fd;
      var x := Slot(fd);
      var y := x.(nread := x.nread + One(ev.wants.read),
                  nwrite := x.nwrite + One(ev.wants.write),
                  nclose := x.nclose + One(ev.wants.closed),
                  events := [ev] + x.events);
      if y.nread > MAX_COUNT || y.nwrite > MAX_COUNT || y.nclose > MAX_COUNT {
        return -1;
      }
      r := CountIn(fd, ev, x, y);
    }

    /** Stores the new counts and tells the backend about kinds that are new. */
    method CountIn(fd: nat, ev: Event, x: Ctx, y: Ctx) returns (r: int)
      requires Valid() && ev.fd == fd && fd in io && io[fd] == x && Sound(fd, x)
      requires y == x.(nread := x.nread + One(ev.wants.read),
                       nwrite := x.nwrite + One(ev.wants.write),
                       nclose := x.nclose + One(ev.wants.closed),
                       events := [ev] + x.events)
      requires y.nread <= MAX_COUNT && y.nwrite <= MAX_COUNT && y.nclose <= MAX_COUNT
      modifies this`io, this`changes, this`kernel
      ensures Valid() && r != -1
      ensures EventsOn(fd) == [ev] + old(EventsOn(fd))
      ensures forall g: nat :: g != fd ==> EventsOn(g) == old(EventsOn(g))
      ensures r == 1 <==> WantedBy(EventsOn(fd)) != WantedBy(old(EventsOn(fd)))
      ensures queued ==> kernel == old(kernel)
    {
      AddedCounts(fd, x, ev, y);
      var res := Bits(ev.wants.read && y.nread == 1, ev.wants.write && y.nwrite == 1, ev.wants.closed && y.nclose == 1);
      if res != NO_BITS {
        Tell(fd, Kinds(x), true, res, y);
        return 1;
      }
      ContextKeeps(io, changes, kernel, fd, y);
      io := io[fd := y];
      return 0;
    }

    /** evmap_io_del_: counts the event out and tells the backend about kinds that are gone. */
    method IoDel(ev: Event) returns (r: int)
      requires Valid() && (ev.fd >= 0 ==> ev in EventsOn(ev.fd))
      modifies this`io, this`changes, this`kernel
      ensures Valid() && r != -1
      ensures ev.fd >= 0 ==> EventsOn(ev.fd) == Without(old(EventsOn(ev.fd)), ev)
      ensures forall g: nat :: g != ev.fd ==> EventsOn(g) == old(EventsOn(g))
      ensures ev.fd >= 0 ==> (r == 1 <==> WantedBy(EventsOn(ev.fd)) != WantedBy(old(EventsOn(ev.fd))))
      ensures queued ==> kernel == old(kernel)
    {
      if ev.fd < 0 {
        return 0;
      }
      var fd: nat := ev.fd;
      var x := io[fd];
      assert FdOk(io, changes, kernel, fd);
      CountsWithout(x.events, ev);
      var y := x.(nread := x.nread - One(ev.wants.read),
                  nwrite := x.nwrite - One(ev.wants.write),
                  nclose := x.nclose - One(ev.wants.closed),
                  events := Without(x.events, ev));
      RemovedCounts(fd, x, ev, y);
      var res := Bits(ev.wants.read && y.nread == 0, ev.wants.write && y.nwrite == 0, ev.wants.closed && y.nclose == 0);
      if res != NO_BITS {
        Tell(fd, Kinds(x), false, res, y);
        return 1;
      }
      ContextKeeps(io, changes, kernel, fd, y);
      io := io[fd := y];
      return 0;
    }

    /** The applying part of epoll_dispatch: hands every queued change to the kernel, each by
        the table's first call, and clears the list. Afterwards the kernel watches each fd for
        exactly what its events want. */
    method Dispatch() returns (first: bool)
      requires Valid()
      modifies this`io, this`changes, this`kernel
      ensures Valid() && changes == [] && first
      ensures forall fd: nat :: EventsOn(fd) == old(EventsOn(fd))
      ensures forall fd: nat :: Interest(kernel, fd) == WantedBy(EventsOn(fd))
    {
      var ok;
      ghost var k0 := kernel;
      QueuedFacts(io, changes, kernel);
      kernel, ok, first := ApplyAll(kernel, changes);
      var fresh_ := ClearAll(io, changes);
      FlushKeeps(io, changes, k0, kernel, fresh_);
      io, changes := fresh_, [];
      forall fd: nat
        ensures Interest(kernel, fd) == WantedBy(EventsOn(fd))
      {
        FlushedMeans(io, changes, kernel, fd);
      }
    }
  }

  /** Adding the event would push a counter of its fd past 16 bits. */
  ghost predicate Overflows(events: seq<Event>, ev: Event) {
    || CountRead(events) + One(ev.wants.read) > MAX_COUNT
    || CountWrite(events) + One(ev.wants.write) > MAX_COUNT
    || CountClose(events) + One(ev.wants.closed) > MAX_COUNT
  }

  lemma AddedCounts(fd: nat, x: Ctx, ev: Event, y: Ctx)
    requires Sound(fd, x) && ev.fd == fd && y.events == [ev] + x.events
    requires y.nread == x.nread + One(ev.wants.read) <= MAX_COUNT
    requires y.nwrite == x.nwrite + One(ev.wants.write) <= MAX_COUNT
    requires y.nclose == x.nclose + One(ev.wants.closed) <= MAX_COUNT
    ensures Sound(fd, y) && Kinds(x) == WantedBy(x.events) && Kinds(y) == WantedBy(y.events)
  {
    assert y.events[1..] == x.events;
    CountsAreWants(x.events);
    CountsAreWants(y.events);
  }

  lemma RemovedCounts(fd: nat, x: Ctx, ev: Event, y: Ctx)
    requires Sound(fd, x) && ev in x.events && y.events == Without(x.events, ev)
    requires y.nread + One(ev.wants.read) == x.nread
    requires y.nwrite + One(ev.wants.write) == x.nwrite
    requires y.nclose + One(ev.wants.closed) == x.nclose
    ensures Sound(fd, y) && Kinds(x) == WantedBy(x.events) && Kinds(y) == WantedBy(y.events)
  {
    CountsWithout(x.events, ev);
    WithoutStays(x.events, ev, fd);
    CountsAreWants(x.events);
    CountsAreWants(y.events);
  }

  lemma {:induction false} WithoutStays(events: seq<Event>, ev: Event, fd: nat)
    requires forall i :: 0 <= i < |events| ==> events[i].fd == fd
    ensures forall i :: 0 <= i < |Without(events, ev)| ==> Without(events, ev)[i].fd == fd
  {
    if events != [] {
      WithoutStays(events[1..], ev, fd);
    }
  }

  /** The queued changes have pairwise distinct fds and describe the kernel as it is. */
  lemma QueuedFacts(io: map<nat, Ctx>, changes: seq<Change>, k: Kernel)
    requires AllOk(io, changes, k)
    ensures forall i, j :: 0 <= i < j < |changes| ==> changes[i].fd != changes[j].fd
    ensures forall i :: 0 <= i < |changes| ==>
              Interest(k, changes[i].fd) == changes[i].had && DeletesOnlyHad(changes[i])
  {
    forall i | 0 <= i < |changes|
      ensures Interest(k, changes[i].fd) == changes[i].had && DeletesOnlyHad(changes[i])
    {
      assert FdOk(io, changes, k, changes[i].fd);
    }
  }

  /** event_changelist_remove_all_: resets the index of every listed fd. */
  method ClearAll(io: map<nat, Ctx>, changes: seq<Change>) returns (r: map<nat, Ctx>)
    requires Linked(io, changes)
    ensures r.Keys == io.Keys
    ensures forall i :: 0 <= i < |changes| ==> r[changes[i].fd] == io[changes[i].fd].(idxPlus1 := 0)
    ensures forall fd :: fd in io && !Listed(changes, fd) ==> r[fd] == io[fd]
  {
    r := io;
    for n := 0 to |changes|
      invariant r.Keys == io.Keys
      invariant forall i :: 0 <= i < n ==> r[changes[i].fd] == io[changes[i].fd].(idxPlus1 := 0)
      invariant forall i :: n <= i < |changes| ==> r[changes[i].fd] == io[changes[i].fd]
      invariant forall fd :: fd in io && !Listed(changes, fd) ==> r[fd] == io[fd]
    {
      var fd := changes[n].fd;
      r := r[fd := r[fd].(idxPlus1 := 0)];
    }
  }

  /** One fd after its change was applied and cleared. */
  lemma FlushFd(io: map<nat, Ctx>, changes: seq<Change>, k: Kernel, io': map<nat, Ctx>, k': Kernel, fd: nat)
    requires fd in io && FdOk(io, changes, k, fd) && fd in io' && io'[fd] == io[fd].(idxPlus1 := 0)
    requires Interest(k', fd) == if io[fd].idxPlus1 > 0 then Target(changes[io[fd].idxPlus1 - 1]) else Interest(k, fd)
    ensures FdOk(io', [], k', fd)
  {
  }

  ghost predicate Listed(changes: seq<Change>, fd: nat) {
    exists i :: 0 <= i < |changes| && changes[i].fd == fd
  }

  lemma ListedIff(io: map<nat, Ctx>, changes: seq<Change>, k: Kernel, fd: nat)
    requires AllOk(io, changes, k) && fd in io
    ensures Listed(changes, fd) <==> io[fd].idxPlus1 > 0
  {
    assert FdOk(io, changes, k, fd);
    if io[fd].idxPlus1 > 0 {
      assert changes[io[fd].idxPlus1 - 1].fd == fd;
    }
  }

  /** Applying and clearing all changes keeps the state consistent. */
  lemma FlushKeeps(io: map<nat, Ctx>, changes: seq<Change>, k: Kernel, k': Kernel, io': map<nat, Ctx>)
    requires AllOk(io, changes, k) && io'.Keys == io.Keys
    requires forall i :: 0 <= i < |changes| ==> io'[changes[i].fd] == io[changes[i].fd].(idxPlus1 := 0)
    requires forall fd :: fd in io && !Listed(changes, fd) ==> io'[fd] == io[fd]
    requires forall i :: 0 <= i < |changes| ==> Interest(k', changes[i].fd) == Target(changes[i])
    requires forall fd: nat :: !Listed(changes, fd) ==> Interest(k', fd) == Interest(k, fd)
    requires forall fd :: fd in k' ==> k'[fd] != NO_BITS && (fd in k || Listed(changes, fd))
    ensures AllOk(io', [], k') && Flushed(io')
    ensures forall fd :: fd in io ==> io'[fd].events == io[fd].events
  {
    forall fd | fd in io'
      ensures FdOk(io', [], k', fd) && io'[fd] == io[fd].(idxPlus1 := 0)
    {
      FlushOne(io, changes, k, k', io', fd);
    }
    assert Tidy(io', k') by {
      forall fd | fd in k'
        ensures fd in io'
      {
        if Listed(changes, fd) {
          var i :| 0 <= i < |changes| && changes[i].fd == fd;
        }
      }
    }
  }

  lemma FlushOne(io: map<nat, Ctx>, changes: seq<Change>, k: Kernel, k': Kernel, io': map<nat, Ctx>, fd: nat)
    requires AllOk(io, changes, k) && io'.Keys == io.Keys && fd in io
    requires forall i :: 0 <= i < |changes| ==> io'[changes[i].fd] == io[changes[i].fd].(idxPlus1 := 0)
    requires !Listed(changes, fd) ==> io'[fd] == io[fd]
    requires forall i :: 0 <= i < |changes| ==> Interest(k', changes[i].fd) == Target(changes[i])
    requires !Listed(changes, fd) ==> Interest(k', fd) == Interest(k, fd)
    ensures FdOk(io', [], k', fd) && io'[fd] == io[fd].(idxPlus1 := 0)
  {
    assert FdOk(io, changes, k, fd);
    ListedIff(io, changes, k, fd);
    if io[fd].idxPlus1 > 0 {
      assert changes[io[fd].idxPlus1 - 1].fd == fd;
    }
    FlushFd(io, changes, k, io', k', fd);
  }

  // ----- whole runs -----

  datatype Step = AddStep(ev: Event) | DelStep(ev: Event) | DispatchStep

  /** The events on fd after one step: an event is added when it is not there yet and fits
      the counters, and deleted when it is there. */
  ghost function EventsAfter(events: seq<Event>, step: Step, fd: nat): seq<Event> {
    match step
    case AddStep(ev) =>
      if ev.fd == fd && ev !in events && !Overflows(events, ev) then [ev] + events else events
    case DelStep(ev) =>
      if ev.fd == fd && ev in events then Without(events, ev) else events
    case DispatchStep => events
  }

  ghost function EventsOf(steps: seq<Step>, fd: nat): seq<Event> {
    if steps == [] then [] else EventsAfter(EventsOf(steps[..|steps| - 1], fd), steps[|steps| - 1], fd)
  }

  /** One step of event_add, event_del or the loop. */
  method Take(m: EventMap, step: Step)
    requires m.Valid()
    modifies m`io, m`changes, m`kernel
    ensures m.Valid()
    ensures forall fd: nat :: m.EventsOn(fd) == EventsAfter(old(m.EventsOn(fd)), step, fd)
    ensures step.DispatchStep? ==> m.changes == []
  {
    match step {
      case AddStep(ev) =>
        if ev.fd < 0 || ev.fd !in m.io || ev !in m.io[ev.fd].events {
          var r := m.IoAdd(ev);
        }
      case DelStep(ev) =>
        if ev.fd >= 0 && ev.fd in m.io && ev in m.io[ev.fd].events {
          var r := m.IoDel(ev);
        }
      case DispatchStep =>
        var first := m.Dispatch();
    }
  }

  /** With an empty changelist the kernel watches what the events want. */
  lemma Settled(m: EventMap, fd: nat)
    requires m.Valid() && m.changes == []
    ensures Interest(m.kernel, fd) == WantedBy(m.EventsOn(fd))
  {
    if fd in m.io {
      assert FdOk(m.io, m.changes, m.kernel, fd);
    }
    FlushedMeans(m.io, m.changes, m.kernel, fd);
  }

  /** Batching refines immediate updates: after every run that ends with a dispatch, the
      kernel of the queueing backend and that of the immediate one watch the same kinds on
      every fd, namely those its inserted events want. */
  method RunBoth(a: EventMap, b: EventMap, steps: seq<Step>)
    requires a != b && a.Valid() && b.Valid() && a.queued && !b.queued
    requires a.io == b.io == map[]
    modifies a`io, a`changes, a`kernel, b`io, b`changes, b`kernel
    ensures a.Valid() && b.Valid()
    ensures forall fd: nat :: a.EventsOn(fd) == b.EventsOn(fd) == EventsOf(steps, fd)
    ensures forall fd: nat :: Interest(b.kernel, fd) == WantedBy(EventsOf(steps, fd))
    ensures steps != [] && steps[|steps| - 1].DispatchStep? ==>
              forall fd: nat :: Interest(a.kernel, fd) == WantedBy(EventsOf(steps, fd))
  {
    for i := 0 to |steps|
      modifies a`io, a`changes, a`kernel, b`io, b`changes, b`kernel
      invariant a.Valid() && b.Valid()
      invariant forall fd: nat :: a.EventsOn(fd) == b.EventsOn(fd) == EventsOf(steps[..i], fd)
      invariant i > 0 && steps[i - 1].DispatchStep? ==> a.changes == []
    {
      assert steps[..i + 1][..i] == steps[..i];
      Take(a, steps[i]);
      Take(b, steps[i]);
    }
    assert steps[..|steps|] == steps;
    forall fd: nat
      ensures Interest(b.kernel, fd) == WantedBy(EventsOf(steps, fd))
    {
      Settled(b, fd);
    }
    if steps != [] && steps[|steps| - 1].DispatchStep? {
      forall fd: nat
        ensures Interest(a.kernel, fd) == WantedBy(EventsOf(steps, fd))
      {
        Settled(a, fd);
      }
    }
  }
}
