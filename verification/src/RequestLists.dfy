/** Requests of the resolver, the lists they are on, and the counters kept beside the lists. */
module RequestLists {
  import opened IdLists
  import opened Nameservers

  /** `trans` is the transaction id, `ns` the server a request is sent to, `tx` how often it was
      sent, `again` is transmit_me. A request without a server is in the waiting list. */
  datatype Req = Req(trans: nat, ns: Option<Id>, tx: nat, again: bool, reissues: nat)

  type Reqs = map<Id, Req>

  /** No request in flight has this id; waiting requests may carry it. */
  const NO_ID: nat := 0xffff

  ghost function Inflight(reqs: Reqs): set<Id> {
    set k | k in reqs && reqs[k].ns.Some?
  }

  ghost function Waiting(reqs: Reqs): set<Id> {
    set k | k in reqs && reqs[k].ns.None?
  }

  ghost function InBucket(reqs: Reqs, b: nat, n: nat): set<Id>
    requires n > 0
  {
    set k | k in reqs && reqs[k].ns.Some? && reqs[k].trans % n == b
  }

  ghost function SentTo(reqs: Reqs, s: Id): set<Id> {
    set k | k in reqs && reqs[k].ns == Some(s)
  }

  datatype State = State(
    reqs: Reqs, waiting: seq<Id>, heads: seq<seq<Id>>, servers: Servers, ring: seq<Id>,
    nInflight: int, nWaiting: int, good: int)

  /** REQ_HEAD: each request in flight is in the bucket of its id. */
  ghost predicate HeadsOk(reqs: Reqs, heads: seq<seq<Id>>) {
    |heads| > 0 && forall b :: 0 <= b < |heads| ==> Lists(heads[b], InBucket(reqs, b, |heads|))
  }

  /** Ids in flight are pairwise distinct. */
  ghost predicate IdsOk(reqs: Reqs) {
    && (forall k :: k in reqs && reqs[k].ns.Some? ==> reqs[k].trans < NO_ID)
    && (forall k, l :: k in reqs && l in reqs && k != l && reqs[k].ns.Some? && reqs[l].ns.Some? ==> reqs[k].trans != reqs[l].trans)
  }

  /** Requests are sent to servers there are, and each server counts its own. */
  ghost predicate LoadOk(reqs: Reqs, servers: Servers) {
    && (forall k :: k in reqs && reqs[k].ns.Some? ==> reqs[k].ns.value in servers)
    && (forall s :: s in servers ==> servers[s].inflight == |SentTo(reqs, s)|)
  }

  ghost predicate CountsOk(reqs: Reqs, nInflight: int, nWaiting: int) {
    nInflight == |Inflight(reqs)| && nWaiting == |Waiting(reqs)|
  }

  datatype Aspect = Heads | WaitingList | Ids | Load | Counters | Ring

  ghost predicate Holds(st: State, a: Aspect) {
    match a
    case Heads => HeadsOk(st.reqs, st.heads)
    case WaitingList => Lists(st.waiting, Waiting(st.reqs))
    case Ids => IdsOk(st.reqs)
    case Load => LoadOk(st.reqs, st.servers)
    case Counters => CountsOk(st.reqs, st.nInflight, st.nWaiting)
    case Ring => RingOk(st.ring, st.servers, st.good)
  }

  /** Lists, ids and counters agree, in every aspect. */
  ghost predicate Agree(st: State) {
    forall a: Aspect :: Holds(st, a)
  }

  lemma Parts(st: State)
    requires Agree(st)
    ensures HeadsOk(st.reqs, st.heads) && Lists(st.waiting, Waiting(st.reqs)) && IdsOk(st.reqs)
    ensures LoadOk(st.reqs, st.servers) && CountsOk(st.reqs, st.nInflight, st.nWaiting) && RingOk(st.ring, st.servers, st.good)
  {
    assert Holds(st, Heads) && Holds(st, WaitingList) && Holds(st, Ids) && Holds(st, Load) && Holds(st, Counters) && Holds(st, Ring);
  }

  // ----- a request arrives or leaves -----

  lemma HeadsInsert(reqs: Reqs, heads: seq<seq<Id>>, k: Id, r: Req)
    requires HeadsOk(reqs, heads) && (k in reqs ==> reqs[k].ns.None?) && r.ns.Some?
    ensures
      && var b := r.trans % |heads|;
      && HeadsOk(reqs[k := r], heads[b := heads[b] + [k]])
  {
    var n, b := |heads|, r.trans % |heads|;
    assert InBucket(reqs[k := r], b, n) == InBucket(reqs, b, n) + {k};
    SnocLists(heads[b], InBucket(reqs, b, n), k);
    forall c | 0 <= c < n && c != b
      ensures InBucket(reqs[k := r], c, n) == InBucket(reqs, c, n)
    {
    }
  }

  lemma HeadsRemove(reqs: Reqs, heads: seq<seq<Id>>, k: Id)
    requires HeadsOk(reqs, heads) && k in reqs && reqs[k].ns.Some?
    ensures
      && var b := reqs[k].trans % |heads|;
      && HeadsOk(reqs - {k}, heads[b := Drop(heads[b], k)])
  {
    var n, b := |heads|, reqs[k].trans % |heads|;
    assert InBucket(reqs - {k}, b, n) == InBucket(reqs, b, n) - {k};
    DropLists(heads[b], InBucket(reqs, b, n), k);
    forall c | 0 <= c < n && c != b
      ensures InBucket(reqs - {k}, c, n) == InBucket(reqs, c, n)
    {
    }
  }

  lemma HeadsSame(reqs: Reqs, reqs': Reqs, heads: seq<seq<Id>>)
    requires HeadsOk(reqs, heads)
    requires forall b :: 0 <= b < |heads| ==> InBucket(reqs', b, |heads|) == InBucket(reqs, b, |heads|)
    ensures HeadsOk(reqs', heads)
  {
  }

  lemma LoadInsert(reqs: Reqs, servers: Servers, k: Id, r: Req)
    requires LoadOk(reqs, servers) && (k in reqs ==> reqs[k].ns.None?) && r.ns.Some? && r.ns.value in servers
    ensures LoadOk(reqs[k := r], servers[r.ns.value := Busier(servers[r.ns.value], 1)])
  {
    var s := r.ns.value;
    assert SentTo(reqs[k := r], s) == SentTo(reqs, s) + {k};
    forall t | t in servers && t != s
      ensures SentTo(reqs[k := r], t) == SentTo(reqs, t)
    {
    }
  }

  lemma LoadRemove(reqs: Reqs, servers: Servers, k: Id)
    requires LoadOk(reqs, servers) && k in reqs && reqs[k].ns.Some?
    ensures LoadOk(reqs - {k}, servers[reqs[k].ns.value := Busier(servers[reqs[k].ns.value], -1)])
  {
    var s := reqs[k].ns.value;
    assert SentTo(reqs - {k}, s) == SentTo(reqs, s) - {k};
    forall t | t in servers && t != s
      ensures SentTo(reqs - {k}, t) == SentTo(reqs, t)
    {
    }
  }

  function Busier(s: Server, d: int): Server {
    s.(inflight := s.inflight + d)
  }

  /** The ring does not look at how busy a server is. */
  lemma RingFrame(ring: seq<Id>, servers: Servers, good: int, s: Id, v: Server)
    requires RingOk(ring, servers, good) && s in servers && v.up == servers[s].up
    ensures RingOk(ring, servers[s := v], good)
  {
    assert Up(servers[s := v]) == Up(servers);
    assert servers[s := v].Keys == servers.Keys;
  }

  lemma CountsInsert(reqs: Reqs, k: Id, r: Req, nInflight: int, nWaiting: int)
    requires CountsOk(reqs, nInflight, nWaiting) && k !in reqs
    ensures CountsOk(reqs[k := r], if r.ns.Some? then nInflight + 1 else nInflight, if r.ns.Some? then nWaiting else nWaiting + 1)
  {
    var reqs' := reqs[k := r];
    assert Inflight(reqs') == if r.ns.Some? then Inflight(reqs) + {k} else Inflight(reqs);
    assert Waiting(reqs') == if r.ns.Some? then Waiting(reqs) else Waiting(reqs) + {k};
  }

  lemma CountsRemove(reqs: Reqs, k: Id, nInflight: int, nWaiting: int)
    requires CountsOk(reqs, nInflight, nWaiting) && k in reqs
    ensures CountsOk(reqs - {k}, if reqs[k].ns.Some? then nInflight - 1 else nInflight, if reqs[k].ns.Some? then nWaiting else nWaiting - 1)
  {
    assert Inflight(reqs - {k}) == if reqs[k].ns.Some? then Inflight(reqs) - {k} else Inflight(reqs);
    assert Waiting(reqs - {k}) == if reqs[k].ns.Some? then Waiting(reqs) else Waiting(reqs) - {k};
  }

  lemma WaitingSame(reqs: Reqs, reqs': Reqs, waiting: seq<Id>)
    requires Lists(waiting, Waiting(reqs)) && Waiting(reqs') == Waiting(reqs)
    ensures Lists(waiting, Waiting(reqs'))
  {
  }

  predicate FreshId(reqs: Reqs, id: nat) {
    id < NO_ID && forall l :: l in reqs && reqs[l].ns.Some? ==> reqs[l].trans != id
  }

  lemma IdsInsert(reqs: Reqs, k: Id, r: Req)
    requires IdsOk(reqs) && k !in reqs && (r.ns.Some? ==> FreshId(reqs, r.trans))
    ensures IdsOk(reqs[k := r])
  {
  }

  /** request_submit of a request with a server, or the promotion of a waiting one. */
  lemma InsertInflight(st: State, k: Id, r: Req)
    requires Agree(st) && k !in st.reqs && r.ns.Some? && r.ns.value in st.servers && FreshId(st.reqs, r.trans)
    ensures st.heads != []
    ensures
      && var b := r.trans % |st.heads|;
      && Agree(st.(reqs := st.reqs[k := r], heads := st.heads[b := st.heads[b] + [k]],
                   servers := st.servers[r.ns.value := Busier(st.servers[r.ns.value], 1)], nInflight := st.nInflight + 1))
  {
    Parts(st);
    HeadsInsert(st.reqs, st.heads, k, r);
    LoadInsert(st.reqs, st.servers, k, r);
    RingFrame(st.ring, st.servers, st.good, r.ns.value, Busier(st.servers[r.ns.value], 1));
    CountsInsert(st.reqs, k, r, st.nInflight, st.nWaiting);
    IdsInsert(st.reqs, k, r);
    assert Waiting(st.reqs[k := r]) == Waiting(st.reqs);
    WaitingSame(st.reqs, st.reqs[k := r], st.waiting);
  }

  lemma InsertWaiting(st: State, k: Id, r: Req)
    requires Agree(st) && k !in st.reqs && r.ns.None?
    ensures Agree(st.(reqs := st.reqs[k := r], waiting := st.waiting + [k], nWaiting := st.nWaiting + 1))
  {
    Parts(st);
    CountsInsert(st.reqs, k, r, st.nInflight, st.nWaiting);
    IdsInsert(st.reqs, k, r);
    WaitingInsert(st.reqs, k, r, st.waiting);
    NoneSent(st, st.reqs[k := r]);
  }

  lemma WaitingInsert(reqs: Reqs, k: Id, r: Req, waiting: seq<Id>)
    requires Lists(waiting, Waiting(reqs)) && k !in reqs && r.ns.None?
    ensures Lists(waiting + [k], Waiting(reqs[k := r]))
  {
    assert Waiting(reqs[k := r]) == Waiting(reqs) + {k};
    SnocLists(waiting, Waiting(reqs), k);
  }

  /** Waiting requests are in no bucket and on no server. */
  lemma NoneSent(st: State, reqs': Reqs)
    requires HeadsOk(st.reqs, st.heads) && LoadOk(st.reqs, st.servers)
    requires forall k :: k in reqs' && reqs'[k].ns.Some? <==> k in st.reqs && st.reqs[k].ns.Some?
    requires forall k :: k in reqs' && reqs'[k].ns.Some? ==> reqs'[k].ns == st.reqs[k].ns && reqs'[k].trans == st.reqs[k].trans
    ensures HeadsOk(reqs', st.heads) && LoadOk(reqs', st.servers)
  {
    forall b | 0 <= b < |st.heads|
      ensures InBucket(reqs', b, |st.heads|) == InBucket(st.reqs, b, |st.heads|)
    {
    }
    forall s | s in st.servers
      ensures SentTo(reqs', s) == SentTo(st.reqs, s)
    {
    }
    HeadsSame(st.reqs, reqs', st.heads);
  }

  lemma RemoveInflight(st: State, k: Id)
    requires Agree(st) && k in st.reqs && st.reqs[k].ns.Some?
    ensures st.heads != [] && st.reqs[k].ns.value in st.servers
    ensures
      && var r := st.reqs[k];
      && var b := r.trans % |st.heads|;
      && Agree(st.(reqs := st.reqs - {k}, heads := st.heads[b := Drop(st.heads[b], k)],
                   servers := st.servers[r.ns.value := Busier(st.servers[r.ns.value], -1)], nInflight := st.nInflight - 1))
  {
    Parts(st);
    var s := st.reqs[k].ns.value;
    HeadsRemove(st.reqs, st.heads, k);
    LoadRemove(st.reqs, st.servers, k);
    RingFrame(st.ring, st.servers, st.good, s, Busier(st.servers[s], -1));
    CountsRemove(st.reqs, k, st.nInflight, st.nWaiting);
    IdsRemove(st.reqs, k);
    WaitingKept(st.reqs, k, st.waiting);
  }

  lemma WaitingKept(reqs: Reqs, k: Id, waiting: seq<Id>)
    requires Lists(waiting, Waiting(reqs)) && k in reqs && reqs[k].ns.Some?
    ensures Lists(waiting, Waiting(reqs - {k}))
  {
    assert Waiting(reqs - {k}) == Waiting(reqs);
  }

  lemma IdsRemove(reqs: Reqs, k: Id)
    requires IdsOk(reqs)
    ensures IdsOk(reqs - {k})
  {
  }

  lemma RemoveWaiting(st: State, k: Id)
    requires Agree(st) && k in st.reqs && st.reqs[k].ns.None?
    ensures Agree(st.(reqs := st.reqs - {k}, waiting := Drop(st.waiting, k), nWaiting := st.nWaiting - 1))
  {
    Parts(st);
    CountsRemove(st.reqs, k, st.nInflight, st.nWaiting);
    IdsRemove(st.reqs, k);
    WaitingRemove(st.reqs, k, st.waiting);
    NoneSent(st, st.reqs - {k});
  }

  lemma WaitingRemove(reqs: Reqs, k: Id, waiting: seq<Id>)
    requires Lists(waiting, Waiting(reqs))
    ensures Lists(Drop(waiting, k), Waiting(reqs - {k}))
  {
    assert Waiting(reqs - {k}) == Waiting(reqs) - {k};
    DropLists(waiting, Waiting(reqs), k);
  }

  // ----- a request changes -----

  /** Changes to a request that touch neither its id nor its server. */
  lemma Touch(st: State, k: Id, r: Req)
    requires Agree(st) && k in st.reqs && r.ns == st.reqs[k].ns && r.trans == st.reqs[k].trans
    ensures Agree(st.(reqs := st.reqs[k := r]))
  {
    Parts(st);
    var reqs' := st.reqs[k := r];
    assert Inflight(reqs') == Inflight(st.reqs);
    assert Waiting(reqs') == Waiting(st.reqs);
    NoneSent(st, reqs');
  }

  /** request_swap_ns */
  lemma Swap(st: State, k: Id, s: Id)
    requires Agree(st) && k in st.reqs && st.reqs[k].ns.Some? && s in st.servers && st.reqs[k].ns != Some(s)
    ensures st.reqs[k].ns.value in st.servers
    ensures
      && var t := st.reqs[k].ns.value;
      && Agree(st.(reqs := st.reqs[k := st.reqs[k].(ns := Some(s))],
                   servers := st.servers[t := Busier(st.servers[t], -1)][s := Busier(st.servers[s], 1)]))
  {
    Parts(st);
    var t := st.reqs[k].ns.value;
    SwapLists(st, k, s);
    SwapLoad(st.reqs, st.servers, k, s);
    RingFrame(st.ring, st.servers, st.good, t, Busier(st.servers[t], -1));
    RingFrame(st.ring, st.servers[t := Busier(st.servers[t], -1)], st.good, s, Busier(st.servers[s], 1));
  }

  lemma SwapLists(st: State, k: Id, s: Id)
    requires HeadsOk(st.reqs, st.heads) && Lists(st.waiting, Waiting(st.reqs)) && IdsOk(st.reqs)
    requires CountsOk(st.reqs, st.nInflight, st.nWaiting) && k in st.reqs && st.reqs[k].ns.Some?
    ensures
      && var reqs' := st.reqs[k := st.reqs[k].(ns := Some(s))];
      && HeadsOk(reqs', st.heads) && Lists(st.waiting, Waiting(reqs')) && IdsOk(reqs') && CountsOk(reqs', st.nInflight, st.nWaiting)
  {
    var reqs' := st.reqs[k := st.reqs[k].(ns := Some(s))];
    assert Inflight(reqs') == Inflight(st.reqs);
    assert Waiting(reqs') == Waiting(st.reqs);
    forall b | 0 <= b < |st.heads|
      ensures InBucket(reqs', b, |st.heads|) == InBucket(st.reqs, b, |st.heads|)
    {
    }
    HeadsSame(st.reqs, reqs', st.heads);
  }

  lemma SwapLoad(reqs: Reqs, servers: Servers, k: Id, s: Id)
    requires LoadOk(reqs, servers) && k in reqs && reqs[k].ns.Some? && s in servers && reqs[k].ns != Some(s)
    ensures reqs[k].ns.value in servers
    ensures
      && var t := reqs[k].ns.value;
      && LoadOk(reqs[k := reqs[k].(ns := Some(s))], servers[t := Busier(servers[t], -1)][s := Busier(servers[s], 1)])
  {
    var t, reqs' := reqs[k].ns.value, reqs[k := reqs[k].(ns := Some(s))];
    assert SentTo(reqs', s) == SentTo(reqs, s) + {k};
    assert SentTo(reqs', t) == SentTo(reqs, t) - {k};
    forall u | u in servers && u != s && u != t
      ensures SentTo(reqs', u) == SentTo(reqs, u)
    {
    }
  }

  // ----- the servers change -----

  /** A server's counters of timeouts, or the ring's head, change. */
  lemma ServerTouched(st: State, s: Id, v: Server)
    requires Agree(st) && s in st.servers && v.inflight == st.servers[s].inflight && v.up == st.servers[s].up
    ensures Agree(st.(servers := st.servers[s := v]))
  {
    Parts(st);
    RingFrame(st.ring, st.servers, st.good, s, v);
  }

  lemma RingTurned(st: State, ring: seq<Id>)
    requires Agree(st) && RingOk(ring, st.servers, st.good)
    ensures Agree(st.(ring := ring))
  {
    Parts(st);
  }

  /** A server goes down or comes up. */
  lemma ServerFlips(st: State, s: Id, v: Server)
    requires Agree(st) && s in st.servers && v.inflight == st.servers[s].inflight && v.up != st.servers[s].up
    ensures Agree(st.(servers := st.servers[s := v], good := if v.up then st.good + 1 else st.good - 1))
  {
    Parts(st);
    RingFlips(st.ring, st.servers, st.good, s, v);
  }

  lemma RingFlips(ring: seq<Id>, servers: Servers, good: int, s: Id, v: Server)
    requires RingOk(ring, servers, good) && s in servers && v.up != servers[s].up
    ensures RingOk(ring, servers[s := v], if v.up then good + 1 else good - 1)
  {
    var servers' := servers[s := v];
    assert servers'.Keys == servers.Keys;
    assert Up(servers') == if v.up then Up(servers) + {s} else Up(servers) - {s};
  }

  /** A new server, behind the head of the ring. */
  lemma ServerAdded(st: State, s: Id)
    requires Agree(st) && s !in st.servers
    ensures Agree(st.(servers := st.servers[s := Server(true, 0, 0)], good := st.good + 1,
                      ring := if st.ring == [] then [s] else [st.ring[0], s] + st.ring[1..]))
  {
    Parts(st);
    LoadAdded(st.reqs, st.servers, s);
    RingAdded(st.ring, st.servers, st.good, s);
  }

  lemma LoadAdded(reqs: Reqs, servers: Servers, s: Id)
    requires LoadOk(reqs, servers) && s !in servers
    ensures LoadOk(reqs, servers[s := Server(true, 0, 0)])
  {
    assert SentTo(reqs, s) == {};
  }

  lemma RingAdded(ring: seq<Id>, servers: Servers, good: int, s: Id)
    requires RingOk(ring, servers, good) && s !in servers
    ensures RingOk(if ring == [] then [s] else [ring[0], s] + ring[1..], servers[s := Server(true, 0, 0)], good + 1)
  {
    var servers' := servers[s := Server(true, 0, 0)];
    assert servers'.Keys == servers.Keys + {s};
    assert Up(servers') == Up(servers) + {s};
    if ring == [] {
      assert servers.Keys == {};
    } else {
      assert ring == [ring[0]] + ring[1..];
      assert Lists([ring[0], s] + ring[1..], servers.Keys + {s});
    }
  }
}
