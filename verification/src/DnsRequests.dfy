/** The request state machine of the resolver: submitting, promoting, retransmitting, reissuing,
    finishing and cancelling requests while servers go down and come back. */
module DnsRequests {
  import opened IdLists
  import opened Nameservers
  import opened RequestLists

  /** What becomes of a packet that is handed to a socket: sent, to be tried again later (the
      server is choked, or the socket is), or refused, which fails the server. */
  datatype Outcome = Sent | Later | Refused

  class Resolver {
    var reqs: Reqs
    var waiting: seq<Id>
    var heads: seq<seq<Id>>
    var servers: Servers
    var ring: seq<Id>
    var nInflight: int
    var nWaiting: int
    var good: int
    var maxInflight: nat
    var maxRetransmits: nat
    var maxReissues: nat
    var maxTimeouts: nat

    ghost function View(): State
      reads this
    {
      State(reqs, waiting, heads, servers, ring, nInflight, nWaiting, good)
    }

    /** Lists, ids and counters agree. The option parser clips the maximum to 65000. */
    ghost predicate Valid()
      reads this
    {
      Agree(View()) && maxInflight <= 65000
    }

    /** evdns_base_new */
    constructor ()
      ensures Valid() && reqs == map[] && servers == map[]
    {
      reqs, waiting, heads, servers, ring := map[], [], seq(13, i => []), map[], [];
      nInflight, nWaiting, good := 0, 0, 0;
      maxInflight, maxRetransmits, maxReissues, maxTimeouts := 64, 3, 1, 3;
      new;
      EmptyAgrees(View());
    }

    // ----- looking up -----

    /** request_find_from_trans_id: the one request in flight with this id, or none. */
    method Find(id: nat) returns (r: Option<Id>)
      requires Valid()
      ensures r.None? <==> forall k :: k in reqs && reqs[k].ns.Some? ==> reqs[k].trans != id
      ensures r.Some? ==> r.value in reqs && reqs[r.value].ns.Some? && reqs[r.value].trans == id
    {
      Parts(View());
      var b := id % |heads|;
      var i := 0;
      while i < |heads[b]|
        invariant 0 <= i <= |heads[b]|
        invariant forall j :: 0 <= j < i ==> heads[b][j] in reqs && reqs[heads[b][j]].trans != id
      {
        var k := heads[b][i];
        assert k in InBucket(reqs, b, |heads|);
        if reqs[k].trans == id {
          return Some(k);
        }
        i := i + 1;
      }
      forall k | k in reqs && reqs[k].ns.Some? && reqs[k].trans % |heads| == b
        ensures k in heads[b]
      {
        assert k in InBucket(reqs, b, |heads|);
      }
      r := None;
    }

    /** transaction_id_pick: random draws until one is free; any free id may come out. */
    method FreeId() returns (id: nat)
      requires Valid() && nInflight < NO_ID
      ensures FreshId(reqs, id)
    {
      IdsLeft(View());
      id :| id < NO_ID && FreshId(reqs, id);
    }

    // ----- primitives -----

    /** nameserver_pick */
    method PickServer() returns (s: Option<Id>)
      requires Valid()
      modifies this`ring
      ensures Valid()
      ensures s.None? <==> servers == map[]
      ensures s.Some? ==> s.value in servers && (servers[s.value].up <==> good > 0)
      ensures Picked(old(ring), servers, good, s, ring)
    {
      RingReady();
      var ring';
      s, ring' := Pick(ring, servers, good);
      RingTurned(View(), ring');
      ring := ring';
    }

    lemma RingReady()
      requires Valid()
      ensures RingOk(ring, servers, good) && (ring == [] <==> servers == map[])
    {
      Parts(View());
      RingMembers(ring, servers);
    }

    method PutInflight(k: Id, r: Req)
      requires Valid() && k !in reqs && r.ns.Some? && r.ns.value in servers && FreshId(reqs, r.trans)
      modifies this`reqs, this`heads, this`servers, this`nInflight
      ensures Valid() && reqs == old(reqs)[k := r] && nInflight == old(nInflight) + 1 && SameServers(old(servers), servers)
    {
      InsertInflight(View(), k, r);
      var b, s := r.trans % |heads|, r.ns.value;
      reqs, heads := reqs[k := r], heads[b := heads[b] + [k]];
      servers, nInflight := servers[s := Busier(servers[s], 1)], nInflight + 1;
    }

    method TakeInflight(k: Id)
      requires Valid() && k in reqs && reqs[k].ns.Some?
      modifies this`reqs, this`heads, this`servers, this`nInflight
      ensures Valid() && reqs == old(reqs) - {k} && nInflight == old(nInflight) - 1 && SameServers(old(servers), servers)
    {
      RemoveInflight(View(), k);
      var b, s := reqs[k].trans % |heads|, reqs[k].ns.value;
      reqs, heads := reqs - {k}, heads[b := Drop(heads[b], k)];
      servers, nInflight := servers[s := Busier(servers[s], -1)], nInflight - 1;
    }

    method PutWaiting(k: Id, r: Req)
      requires Valid() && k !in reqs && r.ns.None?
      modifies this`reqs, this`waiting, this`nWaiting
      ensures Valid() && reqs == old(reqs)[k := r] && waiting == old(waiting) + [k] && nWaiting == old(nWaiting) + 1
    {
      InsertWaiting(View(), k, r);
      reqs, waiting, nWaiting := reqs[k := r], waiting + [k], nWaiting + 1;
    }

    method TakeWaiting(k: Id)
      requires Valid() && k in reqs && reqs[k].ns.None?
      modifies this`reqs, this`waiting, this`nWaiting
      ensures Valid() && reqs == old(reqs) - {k} && waiting == Drop(old(waiting), k) && nWaiting == old(nWaiting) - 1
    {
      RemoveWaiting(View(), k);
      reqs, waiting, nWaiting := reqs - {k}, Drop(waiting, k), nWaiting - 1;
    }

    method Change(k: Id, r: Req)
      requires Valid() && k in reqs && r.ns == reqs[k].ns && r.trans == reqs[k].trans
      modifies this`reqs
      ensures Valid() && reqs == old(reqs)[k := r]
    {
      Touch(View(), k, r);
      reqs := reqs[k := r];
    }

    /** request_swap_ns */
    method SwapServer(k: Id, s: Option<Id>)
      requires Valid() && k in reqs && reqs[k].ns.Some? && (s.Some? ==> s.value in servers)
      modifies this`reqs, this`servers
      ensures Valid() && reqs == old(reqs)[k := old(reqs)[k].(ns := if s.Some? then s else old(reqs)[k].ns)]
      ensures SameServers(old(servers), servers)
    {
      if s.Some? && reqs[k].ns != s {
        Swap(View(), k, s.value);
        var t := reqs[k].ns.value;
        reqs := reqs[k := reqs[k].(ns := s)];
        servers := servers[t := Busier(servers[t], -1)][s.value := Busier(servers[s.value], 1)];
      }
    }

    // ----- servers -----

    /** evdns_nameserver_add_impl_ for an address there is no server for yet. */
    method AddServer(s: Id)
      requires Valid() && s !in servers
      modifies this`servers, this`ring, this`good
      ensures Valid() && servers == old(servers)[s := Server(true, 0, 0)] && good == old(good) + 1
      ensures ring == if old(ring) == [] then [s] else [old(ring)[0], s] + old(ring)[1..]
    {
      ServerAdded(View(), s);
      ring := if ring == [] then [s] else [ring[0], s] + ring[1..];
      servers, good := servers[s := Server(true, 0, 0)], good + 1;
    }

    /** nameserver_up, once its probe request is out of the way. */
    method ServerUp(s: Id)
      requires Valid() && s in servers
      modifies this`servers, this`good
      ensures Valid()
      ensures old(servers)[s].up ==> servers == old(servers)
      ensures !old(servers)[s].up ==> servers == old(servers)[s := old(servers)[s].(up := true, timedout := 0)]
    {
      if !servers[s].up {
        var v := servers[s].(up := true, timedout := 0);
        ServerFlips(View(), s, v);
        servers, good := servers[s := v], good + 1;
      }
    }

    /** The first part of nameserver_failed. */
    method MarkDown(s: Id)
      requires Valid() && s in servers && servers[s].up
      modifies this`servers, this`good
      ensures Valid() && servers == old(servers)[s := old(servers)[s].(up := false)] && good == old(good) - 1 >= 0
    {
      var v := servers[s].(up := false);
      ServerFlips(View(), s, v);
      servers, good := servers[s := v], good - 1;
      Parts(View());
    }

    /** nameserver_failed: requests that have not been sent yet move to servers that are up, if
        there are any. */
    method ServerFailed(s: Id)
      requires Valid() && s in servers
      modifies this`reqs, this`servers, this`ring, this`good
      ensures Valid() && OnlyMoved(old(reqs), reqs) && OnlyFailed(old(servers), servers, s)
      ensures old(servers)[s].up && good > 0 ==> forall k :: k in reqs && reqs[k].tx == 0 ==> reqs[k].ns != Some(s)
      ensures SentStay(old(reqs), reqs)
    {
      if !servers[s].up {
        return;
      }
      MarkDown(s);
      if good == 0 {
        return;
      }
      var i := 0;
      while i < |heads|
        invariant 0 <= i <= |heads| && Valid() && OnlyMoved(old(reqs), reqs) && good > 0
        invariant OnlyFailed(old(servers), servers, s) && SentStay(old(reqs), reqs)
        invariant forall b :: 0 <= b < i ==> Left(reqs, heads[b], s)
      {
        Reassign(s, i);
        i := i + 1;
      }
      NoneStayed(s);
    }

    /** The inner loop of nameserver_failed. */
    method Reassign(s: Id, b: nat)
      requires Valid() && s in servers && !servers[s].up && good > 0 && b < |heads|
      modifies this`reqs, this`servers, this`ring
      ensures Valid() && OnlyMoved(old(reqs), reqs) && SameServers(old(servers), servers) && SentStay(old(reqs), reqs)
      ensures Left(reqs, heads[b], s) && forall k :: k in reqs && old(reqs)[k].ns != Some(s) ==> reqs[k] == old(reqs)[k]
    {
      HeadMembers(b);
      var j := 0;
      while j < |heads[b]|
        invariant 0 <= j <= |heads[b]| && Valid() && OnlyMoved(old(reqs), reqs) && InFlight(reqs, heads[b])
        invariant SameServers(old(servers), servers) && SentStay(old(reqs), reqs)
        invariant Left(reqs, heads[b][..j], s)
        invariant forall k :: k in reqs && old(reqs)[k].ns != Some(s) ==> reqs[k] == old(reqs)[k]
      {
        var k := heads[b][j];
        MoveUnsent(k, s);
        assert heads[b][..j + 1] == heads[b][..j] + [k];
        j := j + 1;
      }
      assert heads[b][..j] == heads[b];
    }

    method MoveUnsent(k: Id, s: Id)
      requires Valid() && s in servers && !servers[s].up && good > 0 && k in reqs && reqs[k].ns.Some?
      modifies this`reqs, this`servers, this`ring
      ensures Valid() && OnlyMoved(old(reqs), reqs) && SameServers(old(servers), servers) && SentStay(old(reqs), reqs)
      ensures !(reqs[k].tx == 0 && reqs[k].ns == Some(s))
      ensures forall l :: l in reqs && (l != k || old(reqs)[l].ns != Some(s)) ==> reqs[l] == old(reqs)[l]
    {
      if reqs[k].tx == 0 && reqs[k].ns == Some(s) {
        var t := PickServer();
        SwapServer(k, t);
      }
    }

    lemma HeadMembers(b: nat)
      requires Valid() && b < |heads|
      ensures InFlight(reqs, heads[b])
    {
      Parts(View());
      forall k | k in heads[b]
        ensures k in reqs && reqs[k].ns.Some?
      {
        assert k in InBucket(reqs, b, |heads|);
      }
    }

    lemma NoneStayed(s: Id)
      requires Valid() && forall b :: 0 <= b < |heads| ==> Left(reqs, heads[b], s)
      ensures forall k :: k in reqs && reqs[k].tx == 0 ==> reqs[k].ns != Some(s)
    {
      Parts(View());
      forall k | k in reqs && reqs[k].ns.Some?
        ensures reqs[k].tx == 0 ==> reqs[k].ns != Some(s)
      {
        var b := reqs[k].trans % |heads|;
        assert k in InBucket(reqs, b, |heads|);
        assert Left(reqs, heads[b], s);
      }
    }

    // ----- sending -----

    /** evdns_request_transmit */
    method Transmit(k: Id, net: Outcome)
      requires Valid() && k in reqs && reqs[k].ns.Some?
      modifies this`reqs, this`servers, this`ring, this`good
      ensures Valid() && OnlyResent(old(reqs), reqs) && NoneUp(old(servers), servers)
      ensures !net.Refused? ==> servers == old(servers) && ring == old(ring) && reqs[k].ns == old(reqs)[k].ns
      ensures Handed(old(reqs)[k], reqs[k], net) && OnlyMovedBut(old(reqs), reqs, k)
    {
      Change(k, reqs[k].(again := true));
      if net.Later? {
        return;
      }
      if net.Refused? {
        SentToSomebody(k);
        ServerFailed(reqs[k].ns.value);
      }
      Change(k, reqs[k].(tx := reqs[k].tx + 1, again := false));
    }

    lemma SentToSomebody(k: Id)
      requires Valid() && k in reqs && reqs[k].ns.Some?
      ensures reqs[k].ns.value in servers
    {
      Parts(View());
    }

    /** evdns_transmit: every request in flight that is marked for it is handed to its socket
        once, and no other. Nothing that was sent stays marked. */
    method TransmitAll(net: Id -> Outcome)
      requires Valid()
      modifies this`reqs, this`servers, this`ring, this`good
      ensures Valid() && OnlyResent(old(reqs), reqs) && NoneUp(old(servers), servers)
      ensures SentAmong(old(reqs), reqs, Inflight(old(reqs)), net)
      ensures forall k :: k in reqs && reqs[k].ns.Some? && reqs[k].again ==> net(k).Later?
      ensures NeverRefused(net) ==> servers == old(servers)
    {
      Parts(View());
      var i := 0;
      while i < |heads|
        invariant 0 <= i <= |heads| && Valid() && NoneUp(old(servers), servers)
        invariant SentAmong(old(reqs), reqs, Below(old(reqs), i, |heads|), net)
        invariant NeverRefused(net) ==> servers == old(servers)
      {
        ghost var before := reqs;
        TransmitHead(i, net);
        SentMore(old(reqs), before, reqs, i, |heads|, net);
        i := i + 1;
      }
      assert Below(old(reqs), i, |heads|) == Inflight(old(reqs));
    }

    method TransmitHead(b: nat, net: Id -> Outcome)
      requires Valid() && b < |heads|
      modifies this`reqs, this`servers, this`ring, this`good
      ensures Valid() && NoneUp(old(servers), servers)
      ensures SentAmong(old(reqs), reqs, InBucket(old(reqs), b, |heads|), net)
      ensures NeverRefused(net) ==> servers == old(servers)
    {
      HeadList(b);
      var j := 0;
      while j < |heads[b]|
        invariant 0 <= j <= |heads[b]| && Valid() && InFlight(reqs, heads[b]) && NoneUp(old(servers), servers)
        invariant SentAmong(old(reqs), reqs, InList(heads[b][..j]), net)
        invariant NeverRefused(net) ==> servers == old(servers)
      {
        var k := heads[b][j];
        ghost var before := reqs;
        if reqs[k].again {
          Transmit(k, net(k));
          HeadMembers(b);
        }
        SentOneMore(old(reqs), before, reqs, heads[b], j, net);
        j := j + 1;
      }
      assert heads[b][..j] == heads[b];
    }

    lemma HeadList(b: nat)
      requires Valid() && b < |heads|
      ensures InFlight(reqs, heads[b]) && Distinct(heads[b]) && InList(heads[b]) == InBucket(reqs, b, |heads|)
    {
      Parts(View());
      HeadMembers(b);
    }

    // ----- requests come and go -----

    /** A request goes in flight and is handed to its socket. */
    method Launch(k: Id, r: Req, net: Outcome)
      requires Valid() && k !in reqs && r.ns.Some? && r.ns.value in servers && FreshId(reqs, r.trans)
      modifies this`reqs, this`heads, this`servers, this`ring, this`nInflight, this`good
      ensures Valid() && Launched(old(reqs), reqs, k, r, net) && nInflight == old(nInflight) + 1
      ensures NoneUp(old(servers), servers)
      ensures !net.Refused? ==> SameServers(old(servers), servers) && ring == old(ring) && reqs[k].ns == r.ns
    {
      PutInflight(k, r);
      Transmit(k, net);
    }

    /** evdns_requests_pump_waiting_queue: no request waits while there is room for it in flight
        and a server to send it to. The first to wait is the first to go, and each that goes is
        handed to its socket. */
    method Pump(net: Id -> Outcome)
      requires Valid()
      modifies this`reqs, this`waiting, this`heads, this`servers, this`ring, this`nInflight, this`nWaiting, this`good
      ensures Valid() && reqs.Keys == old(reqs).Keys && NoneUp(old(servers), servers)
      ensures waiting == [] || nInflight >= maxInflight || servers == map[]
      ensures exists n: nat :: n <= |old(waiting)| && waiting == old(waiting)[n..] && Pumped(old(reqs), reqs, old(waiting)[..n], net)
      ensures NeverRefused(net) ==> SameServers(old(servers), servers)
    {
      ghost var n := 0;
      WaitingLength();
      while nInflight < maxInflight && nWaiting > 0
        invariant Valid() && NoneUp(old(servers), servers) && nWaiting == |waiting|
        invariant n <= |old(waiting)| && waiting == old(waiting)[n..] && Pumped(old(reqs), reqs, old(waiting)[..n], net)
        invariant NeverRefused(net) ==> SameServers(old(servers), servers)
        decreases nWaiting
      {
        var s := PickServer();
        if s.None? {
          return;
        }
        ghost var before := reqs;
        WaitingFirst();
        Promote(s.value, net);
        PumpedMore(old(reqs), before, reqs, old(waiting), n, net);
        n := n + 1;
        WaitingLength();
      }
    }

    lemma WaitingLength()
      requires Valid()
      ensures nWaiting == |waiting|
    {
      Parts(View());
      ListsLength(waiting, Waiting(reqs));
    }

    lemma WaitingFirst()
      requires Valid() && waiting != []
      ensures waiting[0] in reqs && reqs[waiting[0]].ns.None?
    {
      Parts(View());
      assert waiting[0] in Waiting(reqs);
    }

    /** The first waiting request goes in flight. */
    method Promote(s: Id, net: Id -> Outcome)
      requires Valid() && waiting != [] && s in servers && nInflight < maxInflight
      modifies this`reqs, this`waiting, this`heads, this`servers, this`ring, this`nInflight, this`nWaiting, this`good
      ensures Valid() && reqs.Keys == old(reqs).Keys && NoneUp(old(servers), servers)
      ensures waiting == old(waiting)[1..] && nWaiting == old(nWaiting) - 1 && nInflight == old(nInflight) + 1
      ensures Pumped(old(reqs), reqs, [old(waiting)[0]], net)
      ensures NeverRefused(net) ==> SameServers(old(servers), servers)
    {
      var k := waiting[0];
      WaitingFirst();
      var r := reqs[k];
      TakeWaiting(k);
      var id := FreeId();
      Launch(k, r.(ns := Some(s), trans := id), net(k));
      ghost var sent := reqs;
      TransmitAll(net);
      PromotedOne(old(reqs), sent, reqs, k, r.(ns := Some(s), trans := id), net);
    }

    /** request_new and request_submit: straight in flight if there is room and a server, else
        to the end of the waiting list. */
    method Submit(k: Id, net: Id -> Outcome)
      requires Valid() && k !in reqs
      modifies this`reqs, this`waiting, this`heads, this`servers, this`ring, this`nInflight, this`nWaiting, this`good
      ensures Valid() && reqs.Keys == old(reqs).Keys + {k} && NoneUp(old(servers), servers)
      ensures reqs[k].ns.Some? <==> old(nInflight) < maxInflight && servers != map[]
      ensures waiting == if reqs[k].ns.Some? then old(waiting) else old(waiting) + [k]
      ensures reqs[k].ns.Some? ==> reqs[k].again == net(k).Later? && reqs[k].tx == if net(k).Later? then 0 else 1
      ensures reqs[k].ns.None? ==> !reqs[k].again && reqs[k].tx == 0
      ensures reqs[k].reissues == 0 && OnlyMoved(old(reqs), reqs - {k})
      ensures reqs[k].ns.Some? && !net(k).Refused? ==> Picked(old(ring), old(servers), old(good), reqs[k].ns, ring)
    {
      if nInflight < maxInflight {
        var id := FreeId();
        var s := PickServer();
        var r := Req(id, s, 0, false, 0);
        if s.Some? {
          Launch(k, r, net(k));
        } else {
          PutWaiting(k, r);
        }
      } else {
        PutWaiting(k, Req(NO_ID, None, 0, false, 0));
      }
    }

    /** request_finished: the request leaves its list, and the room it leaves is used. */
    method Finish(k: Id, net: Id -> Outcome)
      requires Valid() && k in reqs
      modifies this`reqs, this`waiting, this`heads, this`servers, this`ring, this`nInflight, this`nWaiting, this`good
      ensures Valid() && reqs.Keys == old(reqs).Keys - {k} && NoneUp(old(servers), servers)
      ensures waiting == [] || nInflight >= maxInflight || servers == map[]
      ensures
        && var others := if old(reqs)[k].ns.Some? then old(waiting) else Drop(old(waiting), k);
        && exists n: nat :: n <= |others| && waiting == others[n..] && Pumped(old(reqs) - {k}, reqs, others[..n], net)
      ensures NeverRefused(net) ==> SameServers(old(servers), servers)
    {
      if reqs[k].ns.Some? {
        TakeInflight(k);
      } else {
        TakeWaiting(k);
      }
      Pump(net);
    }

    /** evdns_request_timeout_callback: a request that has been sent often enough fails, and its
        server with it; any other is sent again, by the next server, and a server that has timed
        out too often in a row fails. */
    method Timeout(k: Id, net: Id -> Outcome)
      requires Valid() && k in reqs && reqs[k].ns.Some?
      modifies this`reqs, this`waiting, this`heads, this`servers, this`ring, this`nInflight, this`nWaiting, this`good
      ensures Valid() && NoneUp(old(servers), servers)
      ensures reqs.Keys == if old(reqs)[k].tx >= maxRetransmits then old(reqs).Keys - {k} else old(reqs).Keys
      ensures old(reqs)[k].tx >= maxRetransmits ==> old(reqs)[k].ns.value in servers && !servers[old(reqs)[k].ns.value].up
      ensures old(reqs)[k].tx < maxRetransmits ==>
        && OnlyResent(old(reqs), reqs) && Handed(old(reqs)[k], reqs[k], net(k)) && OnlyMovedBut(old(reqs), reqs, k)
      ensures 0 < old(reqs)[k].tx < maxRetransmits && !net(k).Refused? ==>
        && (exists ring' :: Picked(old(ring), old(servers), old(good), reqs[k].ns, ring'))
        && TimeoutCounted(old(servers), servers, reqs[k].ns.value, maxTimeouts)
    {
      SentToSomebody(k);
      if reqs[k].tx >= maxRetransmits {
        var s := reqs[k].ns.value;
        Finish(k, net);
        ServerFailed(s);
      } else {
        SendAgain(k, net(k));
        SentToSomebody(k);
        CountTimeout(reqs[k].ns.value);
      }
    }

    /** The request goes to the next server. */
    method SendAgain(k: Id, net: Outcome)
      requires Valid() && k in reqs && reqs[k].ns.Some?
      modifies this`reqs, this`servers, this`ring, this`good
      ensures Valid() && OnlyResent(old(reqs), reqs) && NoneUp(old(servers), servers)
      ensures Handed(old(reqs)[k], reqs[k], net) && OnlyMovedBut(old(reqs), reqs, k)
      ensures !net.Refused? ==>
        SameServers(old(servers), servers) && Picked(old(ring), old(servers), old(good), reqs[k].ns, ring)
    {
      SentToSomebody(k);
      var t := PickServer();
      SwapServer(k, t);
      Transmit(k, net);
    }

    method CountTimeout(s: Id)
      requires Valid() && s in servers
      modifies this`reqs, this`servers, this`ring, this`good
      ensures Valid() && OnlyMoved(old(reqs), reqs) && NoneUp(old(servers), servers) && SentStay(old(reqs), reqs)
      ensures TimeoutCounted(old(servers), servers, s, maxTimeouts)
    {
      var v := servers[s].(timedout := servers[s].timedout + 1);
      var over := v.timedout > maxTimeouts;
      if over {
        v := v.(timedout := 0);
      }
      ServerTouched(View(), s, v);
      servers := servers[s := v];
      if over {
        ServerFailed(s);
      }
    }

    /** request_reissue: true if another server could be found. */
    method Reissue(k: Id) returns (r: bool)
      requires Valid() && k in reqs && reqs[k].ns.Some?
      modifies this`reqs, this`servers, this`ring
      ensures Valid() && NoneUp(old(servers), servers)
      ensures r ==>
        && reqs.Keys == old(reqs).Keys && reqs[k].ns != old(reqs)[k].ns && reqs[k].tx == 0 && reqs[k].again
        && reqs[k].reissues == old(reqs)[k].reissues + 1
      ensures !r ==> reqs == old(reqs)
      ensures forall l :: l in old(reqs) && l != k ==> l in reqs && reqs[l] == old(reqs)[l]
      ensures reqs[k].ns.Some? && reqs[k].trans == old(reqs)[k].trans
      ensures exists t: Option<Id> :: Picked(old(ring), old(servers), good, t, ring) && (r <==> old(reqs)[k].ns != t)
      ensures
        && var s := old(reqs)[k].ns.value;
        && s in old(servers) && (good > 0 && !old(servers)[s].up ==> r && reqs[k].ns.value in servers && servers[reqs[k].ns.value].up)
    {
      var last := reqs[k].ns;
      SentToSomebody(k);
      var t := PickServer();
      SwapServer(k, t);
      if reqs[k].ns == last {
        return false;
      }
      Change(k, reqs[k].(reissues := reqs[k].reissues + 1, tx := 0, again := true));
      return true;
    }

    /** reply_handle for an answer that speaks against the server: it fails, and the request is
        reissued if it may be and another server can be found, else it fails too. */
    method BadReply(k: Id, net: Id -> Outcome)
      requires Valid() && k in reqs && reqs[k].ns.Some?
      modifies this`reqs, this`waiting, this`heads, this`servers, this`ring, this`nInflight, this`nWaiting, this`good
      ensures Valid() && NoneUp(old(servers), servers)
      ensures reqs.Keys == old(reqs).Keys || reqs.Keys == old(reqs).Keys - {k}
      ensures old(reqs)[k].reissues >= maxReissues ==> k !in reqs
      ensures k in reqs ==> reqs[k].ns.Some? && reqs[k].tx == 0 && reqs[k].again && reqs[k].reissues == old(reqs)[k].reissues + 1
      ensures old(reqs)[k].reissues < maxReissues && old(reqs)[k].tx > 0 && OtherUp(old(servers), old(reqs)[k].ns.value) ==>
        k in reqs && reqs[k].ns != old(reqs)[k].ns && reqs[k].ns.value in servers && servers[reqs[k].ns.value].up
    {
      if reqs[k].reissues < maxReissues {
        SentToSomebody(k);
        ServerFailed(reqs[k].ns.value);
        if OtherUp(old(servers), old(reqs)[k].ns.value) {
          StillUp(old(servers), old(reqs)[k].ns.value);
        }
        var again := Reissue(k);
        if again {
          return;
        }
      }
      Finish(k, net);
    }

    /** A server that is up makes the count of such servers positive. */
    lemma StillUp(before: Servers, s: Id)
      requires Valid() && OnlyFailed(before, servers, s) && OtherUp(before, s)
      ensures good > 0
    {
      Parts(View());
      var t :| t in before && t != s && before[t].up;
      assert t in Up(servers);
    }

    /** reply_handle for any other answer: the server is up and the request is done. */
    method GoodReply(k: Id, net: Id -> Outcome)
      requires Valid() && k in reqs && reqs[k].ns.Some?
      modifies this`reqs, this`waiting, this`heads, this`servers, this`ring, this`nInflight, this`nWaiting, this`good
      ensures Valid() && reqs.Keys == old(reqs).Keys - {k} && servers.Keys == old(servers).Keys
      ensures
        && var s := old(reqs)[k].ns.value;
        && NeverRefused(net) ==>
          s in servers && servers[s].up && forall t :: t in servers && t != s ==> servers[t].up == old(servers)[t].up
    {
      SentToSomebody(k);
      ServerUp(reqs[k].ns.value);
      Finish(k, net);
    }

    /** nameserver_send_probe: a request that goes in flight to one given server, room or not. */
    method Probe(k: Id, s: Id, net: Id -> Outcome)
      requires Valid() && k !in reqs && s in servers && nInflight < NO_ID
      modifies this`reqs, this`heads, this`servers, this`ring, this`nInflight, this`good
      ensures Valid() && reqs.Keys == old(reqs).Keys + {k} && NoneUp(old(servers), servers)
      ensures reqs[k].ns.Some? && (!net(k).Refused? ==> reqs[k].ns == Some(s))
      ensures reqs[k].again == net(k).Later? && reqs[k].tx == if net(k).Later? then 0 else 1
      ensures reqs[k].reissues == 0 && OnlyMoved(old(reqs), reqs - {k})
    {
      if nInflight < maxInflight {
        var _ := PickServer();
      }
      var id := FreeId();
      Launch(k, Req(id, Some(s), 0, false, 0), net(k));
    }

    // ----- rehashing -----

    /** evdns_base_set_max_requests_inflight: the requests move to new buckets, and every id is
        found as before. */
    method SetMaxInflight(max: int)
      requires Valid() && max <= 65000
      modifies this`heads, this`maxInflight
      ensures Valid() && maxInflight == (if max < 1 then 1 else max) && |heads| == (maxInflight + 4) / 5
    {
      var m: nat := if max < 1 then 1 else max;
      var n := (m + 4) / 5;
      var buckets := Rehash(n);
      Rehashed(View(), buckets);
      heads, maxInflight := buckets, m;
    }

    method Rehash(n: nat) returns (buckets: seq<seq<Id>>)
      requires Valid() && n > 0
      ensures |buckets| == n && HeadsOk(reqs, buckets)
    {
      Parts(View());
      buckets := seq(n, i => []);
      ghost var done: set<Id> := {};
      var i := 0;
      while i < |heads|
        invariant 0 <= i <= |heads| && |buckets| == n
        invariant done == Below(reqs, i, |heads|) && Moved(reqs, buckets, done)
      {
        var list := heads[i];
        ghost var before := done;
        while list != []
          invariant |buckets| == n && Moved(reqs, buckets, done)
          invariant done !! InList(list) && Distinct(list) && done + InList(list) == before + InBucket(reqs, i, |heads|)
          invariant forall k :: k in list ==> k in reqs && reqs[k].ns.Some?
          decreases |list|
        {
          var k := list[0];
          var b := reqs[k].trans % n;
          MovedMore(reqs, buckets, done, k);
          buckets := buckets[b := buckets[b] + [k]];
          done := done + {k};
          list := list[1..];
        }
        BelowMore(reqs, i, |heads|);
        i := i + 1;
      }
      AllMoved(reqs, buckets, done, |heads|);
    }
  }

  // ----- rehashing, step by step -----

  /** The requests in flight in the first i of n buckets. */
  ghost function Below(reqs: Reqs, i: nat, n: nat): set<Id>
    requires n > 0
  {
    set k | k in reqs && reqs[k].ns.Some? && reqs[k].trans % n < i
  }

  /** The new buckets hold exactly the requests in `done`. */
  ghost predicate Moved(reqs: Reqs, buckets: seq<seq<Id>>, done: set<Id>) {
    && |buckets| > 0 && done <= Inflight(reqs)
    && forall b :: 0 <= b < |buckets| ==> Lists(buckets[b], done * InBucket(reqs, b, |buckets|))
  }

  lemma MovedMore(reqs: Reqs, buckets: seq<seq<Id>>, done: set<Id>, k: Id)
    requires Moved(reqs, buckets, done) && k in reqs && reqs[k].ns.Some? && k !in done
    ensures
      && var b := reqs[k].trans % |buckets|;
      && Moved(reqs, buckets[b := buckets[b] + [k]], done + {k})
  {
    var n, b := |buckets|, reqs[k].trans % |buckets|;
    assert (done + {k}) * InBucket(reqs, b, n) == done * InBucket(reqs, b, n) + {k};
    SnocLists(buckets[b], done * InBucket(reqs, b, n), k);
    forall c | 0 <= c < n && c != b
      ensures (done + {k}) * InBucket(reqs, c, n) == done * InBucket(reqs, c, n)
    {
    }
  }

  lemma BelowMore(reqs: Reqs, i: nat, n: nat)
    requires n > 0
    ensures Below(reqs, i + 1, n) == Below(reqs, i, n) + InBucket(reqs, i, n)
  {
  }

  lemma AllMoved(reqs: Reqs, buckets: seq<seq<Id>>, done: set<Id>, n: nat)
    requires n > 0 && done == Below(reqs, n, n) && Moved(reqs, buckets, done)
    ensures HeadsOk(reqs, buckets)
  {
    forall b | 0 <= b < |buckets|
      ensures done * InBucket(reqs, b, |buckets|) == InBucket(reqs, b, |buckets|)
    {
    }
  }

  lemma Rehashed(st: State, heads: seq<seq<Id>>)
    requires Agree(st) && HeadsOk(st.reqs, heads)
    ensures Agree(st.(heads := heads))
  {
    Parts(st);
  }

  /** Every request is there as before, except that it may have been sent again, by another
      server or later. */
  ghost predicate OnlyResent(before: Reqs, after: Reqs) {
    && after.Keys == before.Keys
    && forall k :: k in before ==>
         && after[k].ns.Some? == before[k].ns.Some? && after[k].tx >= before[k].tx
         && after[k].trans == before[k].trans && after[k].reissues == before[k].reissues
  }

  /** Every request is there as before, except that it may be sent to another server. */
  ghost predicate OnlyMoved(before: Reqs, after: Reqs) {
    && after.Keys == before.Keys
    && forall k :: k in before ==> after[k].ns.Some? == before[k].ns.Some? && after[k] == before[k].(ns := after[k].ns)
  }

  /** Every other request is there as before, except that it may be sent to another server. */
  ghost predicate OnlyMovedBut(before: Reqs, after: Reqs, k: Id) {
    && after.Keys == before.Keys
    && forall l :: l in before && l != k ==> after[l].ns.Some? == before[l].ns.Some? && after[l] == before[l].(ns := after[l].ns)
  }

  // ----- what a socket took -----

  /** The request was handed to a socket once: it stays marked exactly if it has to be tried
      again later, and it counts as sent otherwise. */
  ghost predicate Handed(before: Req, after: Req, net: Outcome) {
    after.again == net.Later? && after.tx == if net.Later? then before.tx else before.tx + 1
  }

  ghost predicate NeverRefused(net: Id -> Outcome) {
    forall k :: !net(k).Refused?
  }

  /** Every marked request of the set was handed to its socket, and no other request was. */
  ghost predicate SentAmong(before: Reqs, after: Reqs, done: set<Id>, net: Id -> Outcome) {
    && OnlyResent(before, after)
    && forall k :: k in before ==>
         if k in done && before[k].again then Handed(before[k], after[k], net(k))
         else after[k].tx == before[k].tx && after[k].again == before[k].again
  }

  lemma SentOneMore(first: Reqs, before: Reqs, after: Reqs, list: seq<Id>, j: nat, net: Id -> Outcome)
    requires j < |list| && Distinct(list) && list[j] in before && SentAmong(first, before, InList(list[..j]), net)
    requires
      && var k := list[j];
      && if before[k].again then OnlyResent(before, after) && Handed(before[k], after[k], net(k)) && OnlyMovedBut(before, after, k)
         else after == before
    ensures SentAmong(first, after, InList(list[..j + 1]), net)
  {
    assert list[..j + 1] == list[..j] + [list[j]];
    assert list[j] !in InList(list[..j]);
    assert forall l :: l != list[j] ==> (l in InList(list[..j + 1]) <==> l in InList(list[..j]));
  }

  lemma SentMore(first: Reqs, before: Reqs, after: Reqs, i: nat, n: nat, net: Id -> Outcome)
    requires n > 0 && SentAmong(first, before, Below(first, i, n), net)
    requires SentAmong(before, after, InBucket(before, i, n), net)
    ensures SentAmong(first, after, Below(first, i + 1, n), net)
  {
  }

  /** The requests in `gone` went in flight, each handed to its socket, and if there was any so
      were the requests in flight that were marked. Nothing else changed but servers. */
  ghost predicate Pumped(before: Reqs, after: Reqs, gone: seq<Id>, net: Id -> Outcome) {
    && after.Keys == before.Keys
    && forall k :: k in before ==>
         && after[k].reissues == before[k].reissues
         && if k in gone then after[k].ns.Some? && Handed(before[k], after[k], net(k))
            else
              && after[k].ns.Some? == before[k].ns.Some? && after[k].trans == before[k].trans
              && if gone != [] && before[k].ns.Some? && before[k].again then Handed(before[k], after[k], net(k))
                 else after[k].tx == before[k].tx && after[k].again == before[k].again
  }

  /** The request k went in flight as r, and was handed to its socket. */
  ghost predicate Launched(before: Reqs, after: Reqs, k: Id, r: Req, net: Outcome) {
    && k in after && after[k].ns.Some? && after[k].reissues == r.reissues && Handed(r, after[k], net)
    && OnlyMoved(before, after - {k})
  }

  lemma PromotedOne(before: Reqs, sent: Reqs, after: Reqs, k: Id, r: Req, net: Id -> Outcome)
    requires k in before && before[k].ns.None? && r == before[k].(ns := r.ns, trans := r.trans)
    requires Launched(before - {k}, sent, k, r, net(k)) && SentAmong(sent, after, Inflight(sent), net)
    ensures Pumped(before, after, [k], net)
  {
    assert before.Keys == (before - {k}).Keys + {k} && sent.Keys == (sent - {k}).Keys + {k};
    forall l | l in before && l != k
      ensures sent[l] == before[l].(ns := sent[l].ns) && sent[l].ns.Some? == before[l].ns.Some?
    {
      assert l in before - {k};
    }
  }

  lemma PumpedMore(first: Reqs, before: Reqs, after: Reqs, waiting: seq<Id>, n: nat, net: Id -> Outcome)
    requires n < |waiting| && Pumped(first, before, waiting[..n], net)
    requires waiting[n] in before && before[waiting[n]].ns.None?
    requires Pumped(before, after, [waiting[n]], net)
    ensures Pumped(first, after, waiting[..n + 1], net)
  {
    assert waiting[..n + 1] == waiting[..n] + [waiting[n]];
  }

  ghost predicate InFlight(reqs: Reqs, s: seq<Id>) {
    forall k :: k in s ==> k in reqs && reqs[k].ns.Some?
  }

  /** No unsent request of the list is left with server s. */
  ghost predicate Left(reqs: Reqs, list: seq<Id>, s: Id) {
    forall k :: k in list ==> k in reqs && !(reqs[k].tx == 0 && reqs[k].ns == Some(s))
  }

  /** A request that has been sent stays with its server. */
  ghost predicate SentStay(before: Reqs, after: Reqs) {
    forall k :: k in before && before[k].tx > 0 ==> k in after && after[k] == before[k]
  }

  ghost predicate OtherUp(servers: Servers, s: Id) {
    exists t :: t in servers && t != s && servers[t].up
  }

  /** Server s is down, and the others are as they were, whatever their load. */
  ghost predicate OnlyFailed(before: Servers, after: Servers, s: Id) {
    && after.Keys == before.Keys && s in after && after[s] == before[s].(up := false, inflight := after[s].inflight)
    && forall t :: t in before && t != s ==> after[t] == before[t].(inflight := after[t].inflight)
  }

  /** One more timeout in a row for server s: one too many and it is down and counts anew. The
      others are as they were, whatever their load. */
  ghost predicate TimeoutCounted(before: Servers, after: Servers, s: Id, max: nat) {
    && after.Keys == before.Keys && s in before
    && (before[s].timedout + 1 > max ==> !after[s].up && after[s].timedout == 0)
    && (before[s].timedout + 1 <= max ==> after[s].up == before[s].up && after[s].timedout == before[s].timedout + 1)
    && forall t :: t in before && t != s ==> after[t] == before[t].(inflight := after[t].inflight)
  }

  /** The same servers, of which none has come up. */
  ghost predicate NoneUp(before: Servers, after: Servers) {
    after.Keys == before.Keys && forall s :: s in before && after[s].up ==> before[s].up
  }

  /** The same servers, in the same condition, whatever their load. */
  ghost predicate SameServers(before: Servers, after: Servers) {
    after.Keys == before.Keys && forall s :: s in before ==> after[s] == before[s].(inflight := after[s].inflight)
  }

  lemma RingMembers(ring: seq<Id>, servers: Servers)
    requires Lists(ring, servers.Keys)
    ensures ring == [] <==> servers == map[]
  {
    if ring != [] {
      assert ring[0] in servers.Keys;
    } else {
      assert servers.Keys == {};
    }
  }

  // ----- there is a free id -----

  ghost function UsedIds(reqs: Reqs, K: set<Id>): set<nat>
    requires forall k :: k in K ==> k in reqs
  {
    set k | k in K :: reqs[k].trans
  }

  lemma {:induction false} FewIds(reqs: Reqs, K: set<Id>)
    requires forall k :: k in K ==> k in reqs
    ensures |UsedIds(reqs, K)| <= |K|
  {
    if K == {} {
      assert UsedIds(reqs, K) == {};
    } else {
      var k :| k in K;
      FewIds(reqs, K - {k});
      assert UsedIds(reqs, K) == UsedIds(reqs, K - {k}) + {reqs[k].trans};
    }
  }

  lemma {:induction false} NotAllUsed(used: set<nat>, n: nat) returns (id: nat)
    requires |used| < n
    ensures id < n && id !in used
  {
    id := n - 1;
    if id in used {
      id := NotAllUsed(used - {n - 1}, n - 1);
    }
  }

  /** With fewer requests in flight than there are ids, one id is free. */
  lemma IdsLeft(st: State)
    requires Agree(st) && st.nInflight < NO_ID
    ensures exists id: nat :: id < NO_ID && FreshId(st.reqs, id)
  {
    Parts(st);
    var used := UsedIds(st.reqs, Inflight(st.reqs));
    FewIds(st.reqs, Inflight(st.reqs));
    var id := NotAllUsed(used, NO_ID);
    forall l | l in st.reqs && st.reqs[l].ns.Some?
      ensures st.reqs[l].trans != id
    {
      assert l in Inflight(st.reqs);
    }
    assert FreshId(st.reqs, id);
  }

  lemma EmptyAgrees(st: State)
    requires st.reqs == map[] && st.waiting == [] && st.servers == map[] && st.ring == []
    requires st.nInflight == 0 && st.nWaiting == 0 && st.good == 0
    requires st.heads != [] && forall b :: 0 <= b < |st.heads| ==> st.heads[b] == []
    ensures Agree(st)
  {
  }

  // ----- every run -----

  /** What can happen to a resolver. Cancelling a request is finishing it; `net` says what becomes
      of the packets that are handed to sockets meanwhile. */
  datatype Step =
    | DoSubmit(k: Id, net: Id -> Outcome)
    | DoFinish(k: Id, net: Id -> Outcome)
    | DoTimeout(k: Id, net: Id -> Outcome)
    | DoBadReply(k: Id, net: Id -> Outcome)
    | DoGoodReply(k: Id, net: Id -> Outcome)
    | DoProbe(k: Id, s: Id, net: Id -> Outcome)
    | DoTransmitAll(net: Id -> Outcome)
    | DoPump(net: Id -> Outcome)
    | DoSetMaxInflight(max: int)
    | DoAddServer(s: Id)
    | DoServerUp(s: Id)
    | DoServerFailed(s: Id)

  /** New requests and servers are new; timeouts and replies concern requests in flight. */
  predicate Allowed(d: Resolver, st: Step)
    reads d
  {
    match st
    case DoSubmit(k, _) => k !in d.reqs
    case DoFinish(k, _) => k in d.reqs
    case DoTimeout(k, _) => k in d.reqs && d.reqs[k].ns.Some?
    case DoBadReply(k, _) => k in d.reqs && d.reqs[k].ns.Some?
    case DoGoodReply(k, _) => k in d.reqs && d.reqs[k].ns.Some?
    case DoProbe(k, s, _) => k !in d.reqs && s in d.servers && d.nInflight < NO_ID
    case DoSetMaxInflight(max) => max <= 65000
    case DoAddServer(s) => s !in d.servers
    case DoServerUp(s) => s in d.servers
    case DoServerFailed(s) => s in d.servers
    case _ => true
  }

  /** Every step takes effect, and keeps lists, ids and counters in agreement. */
  method Do(d: Resolver, st: Step)
    requires d.Valid() && Allowed(d, st)
    modifies d
    ensures d.Valid()
    ensures match st
            case DoSubmit(k, _) => d.reqs.Keys == old(d.reqs).Keys + {k}
            case DoFinish(k, _) => d.reqs.Keys == old(d.reqs).Keys - {k}
            case DoTimeout(k, net) => k in d.reqs <==> old(d.reqs)[k].tx < d.maxRetransmits
            case DoBadReply(k, _) => k in d.reqs ==> d.reqs[k].reissues == old(d.reqs)[k].reissues + 1
            case DoGoodReply(k, _) => d.reqs.Keys == old(d.reqs).Keys - {k}
            case DoProbe(k, _, _) => d.reqs.Keys == old(d.reqs).Keys + {k}
            case DoTransmitAll(net) => SentAmong(old(d.reqs), d.reqs, Inflight(old(d.reqs)), net)
            case DoPump(_) => d.waiting == [] || d.nInflight >= d.maxInflight || d.servers == map[]
            case DoSetMaxInflight(max) => d.maxInflight == if max < 1 then 1 else max
            case DoAddServer(s) => s in d.servers && d.servers[s].up
            case DoServerUp(s) => s in d.servers && d.servers[s].up
            case DoServerFailed(s) => s in d.servers && !d.servers[s].up
  {
    match st
    case DoSubmit(k, net) => d.Submit(k, net);
    case DoFinish(k, net) => d.Finish(k, net);
    case DoTimeout(k, net) => d.Timeout(k, net);
    case DoBadReply(k, net) => d.BadReply(k, net);
    case DoGoodReply(k, net) => d.GoodReply(k, net);
    case DoProbe(k, s, net) => d.Probe(k, s, net);
    case DoTransmitAll(net) => d.TransmitAll(net);
    case DoPump(net) => d.Pump(net);
    case DoSetMaxInflight(max) => d.SetMaxInflight(max);
    case DoAddServer(s) => d.AddServer(s);
    case DoServerUp(s) => d.ServerUp(s);
    case DoServerFailed(s) => d.ServerFailed(s);
  }

  /** After every run: buckets, the waiting list, ids and counters are right, and so is the
      number of servers that are up. */
  method Run(steps: seq<Step>) returns (d: Resolver)
    ensures fresh(d) && d.Valid()
    ensures HeadsOk(d.reqs, d.heads) && IdsOk(d.reqs) && Lists(d.waiting, Waiting(d.reqs))
    ensures d.nInflight == |Inflight(d.reqs)| && d.nWaiting == |d.waiting|
    ensures forall s :: s in d.servers ==> d.servers[s].inflight == |SentTo(d.reqs, s)|
    ensures d.good == |Up(d.servers)|
  {
    d := new Resolver();
    for i := 0 to |steps|
      invariant fresh(d) && d.Valid()
    {
      if Allowed(d, steps[i]) {
        Do(d, steps[i]);
      }
    }
    d.WaitingLength();
    Parts(d.View());
  }
}
