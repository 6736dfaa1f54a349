/** The ring of nameservers: a circular list, seen from its head, and the number of servers
    that are thought to be up. */
module Nameservers {
  import opened IdLists

  /** `timedout` counts consecutive timeouts; `inflight` is requests_inflight. */
  datatype Server = Server(up: bool, inflight: int, timedout: nat)

  type Servers = map<Id, Server>

  ghost function Up(servers: Servers): set<Id> {
    set s | s in servers && servers[s].up
  }

  /** The ring lists the servers, and global_good_nameservers counts those that are up. */
  ghost predicate RingOk(ring: seq<Id>, servers: Servers, good: int) {
    Lists(ring, servers.Keys) && good == |Up(servers)|
  }

  /** server_head = server_head->next */
  function Rotated(ring: seq<Id>): seq<Id> {
    if ring == [] then [] else ring[1..] + [ring[0]]
  }

  /** The ring after i steps. */
  function Turned(ring: seq<Id>, i: nat): seq<Id>
    requires i <= |ring|
  {
    ring[i..] + ring[..i]
  }

  lemma TurnedOk(ring: seq<Id>, servers: Servers, good: int, i: nat)
    requires RingOk(ring, servers, good) && i <= |ring|
    ensures RingOk(Turned(ring, i), servers, good)
  {
    assert ring == ring[..i] + ring[i..];
  }

  lemma TurnedStep(ring: seq<Id>, i: nat)
    requires i < |ring|
    ensures Rotated(Turned(ring, i)) == Turned(ring, i + 1)
  {
    assert Turned(ring, i)[0] == ring[i];
  }

  /** The head after i steps, and after one more; a lap is not over before the last server. */
  lemma LapStep(ring: seq<Id>, servers: Servers, good: int, i: nat)
    requires RingOk(ring, servers, good) && i < |ring|
    ensures Turned(ring, i)[0] == ring[i] && ring[i] in servers
    ensures Rotated(Turned(ring, i)) == Turned(ring, i + 1)
    ensures i + 1 < |ring| ==> Turned(ring, i + 1)[0] == ring[i + 1] != ring[0]
  {
    TurnedStep(ring, i);
    assert ring[i] in ring;
  }

  lemma SomeUp(ring: seq<Id>, servers: Servers, good: int)
    requires RingOk(ring, servers, good)
    ensures good > 0 <==> exists i :: 0 <= i < |ring| && ring[i] in servers && servers[ring[i]].up
    ensures good >= 0
  {
    if good > 0 {
      var s :| s in Up(servers);
      assert s in ring;
    }
    if exists i :: 0 <= i < |ring| && ring[i] in servers && servers[ring[i]].up {
      var i :| 0 <= i < |ring| && ring[i] in servers && servers[ring[i]].up;
      assert ring[i] in Up(servers);
    }
  }

  /** nameserver_pick. It takes at most one lap, picks a server that is up if there is one --
      the first from the head on -- and its branch for a lap without success is dead. */
  method Pick(ring: seq<Id>, servers: Servers, good: int) returns (picked: Option<Id>, ring': seq<Id>)
    requires RingOk(ring, servers, good)
    ensures RingOk(ring', servers, good)
    ensures picked.None? <==> ring == []
    ensures picked.Some? ==> picked.value in servers && (servers[picked.value].up <==> good > 0)
    ensures Picked(ring, servers, good, picked, ring')
  {
    SomeUp(ring, servers, good);
    if ring == [] {
      return None, ring;
    }
    if good == 0 {
      ring' := Rotated(ring);
      assert ring' == Turned(ring, 1);
      TurnedOk(ring, servers, good, 1);
      return Some(ring'[0]), ring';
    }
    picked, ring' := Search(ring, servers, good);
  }

  /** The loop of nameserver_pick. */
  method Search(ring: seq<Id>, servers: Servers, good: int) returns (picked: Option<Id>, ring': seq<Id>)
    requires RingOk(ring, servers, good) && good > 0
    ensures RingOk(ring', servers, good)
    ensures exists i :: 0 <= i < |ring| && FirstUp(ring, servers, i) && picked == Some(ring[i]) && ring' == Turned(ring, i + 1)
  {
    ghost var last := LastUp(ring, servers, good);
    ghost var i := 0;
    ring' := ring;
    while true
      invariant 0 <= i <= last < |ring| && ring' == Turned(ring, i) && DownUpTo(ring, servers, i)
      decreases |ring| - i
    {
      LapStep(ring, servers, good, i);
      if servers[ring'[0]].up {
        picked, ring' := Some(ring'[0]), Rotated(ring');
        assert FirstUp(ring, servers, i);
        TurnedOk(ring, servers, good, i + 1);
        return;
      }
      ring' := Rotated(ring');
      i := i + 1;
      if ring'[0] == ring[0] {
        assert false;
      }
    }
  }

  lemma LastUp(ring: seq<Id>, servers: Servers, good: int) returns (i: nat)
    requires RingOk(ring, servers, good) && good > 0
    ensures i < |ring| && ring[i] in servers && servers[ring[i]].up
  {
    SomeUp(ring, servers, good);
    i :| 0 <= i < |ring| && ring[i] in servers && servers[ring[i]].up;
  }

  ghost predicate DownUpTo(ring: seq<Id>, servers: Servers, i: int)
    requires i <= |ring|
  {
    forall j :: 0 <= j < i ==> ring[j] in servers && !servers[ring[j]].up
  }

  ghost predicate FirstUp(ring: seq<Id>, servers: Servers, i: int) {
    0 <= i < |ring| && ring[i] in servers && servers[ring[i]].up && DownUpTo(ring, servers, i)
  }

  /** What one pick does: the first server that is up, seen from the head, and the head moves
      behind it; with none up, the server behind the head, which becomes the head. */
  ghost predicate Picked(ring: seq<Id>, servers: Servers, good: int, picked: Option<Id>, ring': seq<Id>) {
    && (ring == [] ==> picked.None? && ring' == [])
    && (good > 0 ==>
          exists i :: 0 <= i < |ring| && FirstUp(ring, servers, i) && picked == Some(ring[i]) && ring' == ring[i + 1..] + ring[..i + 1])
    && (good == 0 && ring != [] ==> ring' == ring[1..] + ring[..1] && picked == Some(ring'[0]))
  }

  // ----- load balancing -----

  /** The servers that are up, in ring order. */
  ghost function UpOf(ring: seq<Id>, servers: Servers): seq<Id> {
    if ring == [] then []
    else (if ring[0] in servers && servers[ring[0]].up then [ring[0]] else []) + UpOf(ring[1..], servers)
  }

  lemma {:induction false} UpOfConcat(a: seq<Id>, b: seq<Id>, servers: Servers)
    ensures UpOf(a + b, servers) == UpOf(a, servers) + UpOf(b, servers)
  {
    if a == [] {
      assert a + b == b;
    } else {
      assert (a + b)[1..] == a[1..] + b;
      UpOfConcat(a[1..], b, servers);
    }
  }

  lemma {:induction false} UpOfNone(a: seq<Id>, servers: Servers)
    requires forall j :: 0 <= j < |a| ==> a[j] in servers && !servers[a[j]].up
    ensures UpOf(a, servers) == []
  {
    if a != [] {
      UpOfNone(a[1..], servers);
    }
  }

  /** A pick takes the first server that is up and puts it last. */
  lemma PickTurns(ring: seq<Id>, servers: Servers, i: nat)
    requires FirstUp(ring, servers, i)
    ensures UpOf(ring, servers) != [] && UpOf(ring, servers)[0] == ring[i]
    ensures UpOf(Turned(ring, i + 1), servers) == UpOf(ring, servers)[1..] + [ring[i]]
  {
    var a, x, b := ring[..i], [ring[i]], ring[i + 1..];
    assert ring == a + (x + b);
    UpOfConcat(a, x + b, servers);
    UpOfConcat(x, b, servers);
    UpOfNone(a, servers);
    assert Turned(ring, i + 1) == b + (a + x);
    UpOfConcat(b, a + x, servers);
    UpOfConcat(a, x, servers);
    assert UpOf(x, servers) == x;
  }

  lemma PickedTurns(ring: seq<Id>, servers: Servers, good: int, picked: Option<Id>, ring': seq<Id>)
    requires good > 0 && Picked(ring, servers, good, picked, ring')
    ensures UpOf(ring, servers) != [] && picked == Some(UpOf(ring, servers)[0])
    ensures UpOf(ring', servers) == UpOf(ring, servers)[1..] + [UpOf(ring, servers)[0]]
  {
    var i :| 0 <= i < |ring| && FirstUp(ring, servers, i) && picked == Some(ring[i]) && ring' == ring[i + 1..] + ring[..i + 1];
    PickTurns(ring, servers, i);
  }

  lemma {:induction false} UpOfLists(ring: seq<Id>, servers: Servers, R: set<Id>)
    requires Lists(ring, R)
    ensures Lists(UpOf(ring, servers), set s | s in R && s in servers && servers[s].up)
  {
    if ring != [] {
      var r := R - {ring[0]};
      assert ring == [ring[0]] + ring[1..];
      assert Lists(ring[1..], r);
      UpOfLists(ring[1..], servers, r);
      var u := set s | s in r && s in servers && servers[s].up;
      var up := ring[0] in servers && servers[ring[0]].up;
      assert (set s | s in R && s in servers && servers[s].up) == if up then u + {ring[0]} else u;
    }
  }

  /** With k servers up, k picks in a row return each of them exactly once. */
  method PickRound(ring: seq<Id>, servers: Servers, good: int) returns (picks: seq<Id>, ring': seq<Id>)
    requires RingOk(ring, servers, good)
    ensures Lists(picks, Up(servers)) && |picks| == good && picks == UpOf(ring, servers)
    ensures RingOk(ring', servers, good) && UpOf(ring', servers) == UpOf(ring, servers)
  {
    ghost var ups := UpOf(ring, servers);
    UpOfLists(ring, servers, servers.Keys);
    assert Up(servers) == set s | s in servers.Keys && s in servers && servers[s].up;
    ListsLength(ups, Up(servers));
    picks, ring' := [], ring;
    while |picks| < good
      invariant |picks| <= good && RingOk(ring', servers, good)
      invariant picks == ups[..|picks|] && UpOf(ring', servers) == ups[|picks|..] + ups[..|picks|]
    {
      ghost var before := ring';
      var x;
      x, ring' := Pick(ring', servers, good);
      PickedTurns(before, servers, good, x, ring');
      NextInRound(ups, |picks|, UpOf(before, servers), x.value);
      picks := picks + [x.value];
    }
  }

  lemma NextInRound(ups: seq<Id>, n: nat, now: seq<Id>, x: Id)
    requires n < |ups| && now == ups[n..] + ups[..n] && x == now[0]
    ensures ups[..n] + [x] == ups[..n + 1] && now[1..] + [x] == ups[n + 1..] + ups[..n + 1]
  {
  }
}
