/** The inputs on which a buffer goes wrong are ones a program can make: runs from new
    buffers through reserve, commit, append and prepend to a broken state. */
module EvbufferFaults {
  import opened IdLists
  import opened Chunks
  import opened Evbuffer
  import opened EvbufferMoves
  import opened EvbufferReserve

  lemma RoomOfOne(cs: seq<Chain>)
    requires |cs| == 1
    ensures RoomSum(cs, 0, 1) == |cs[0].room|
  {
    assert RoomSum(cs, 0, 1) == RoomSum(cs, 0, 0) + |cs[0].room|;
  }

  lemma RoomOfTwo(cs: seq<Chain>)
    requires |cs| == 2
    ensures RoomSum(cs, 0, 2) == |cs[0].room| + |cs[1].room|
  {
    assert RoomSum(cs, 0, 2) == RoomSum(cs, 0, 1) + |cs[1].room|;
    assert RoomSum(cs, 0, 1) == RoomSum(cs, 0, 0) + |cs[0].room|;
  }

  /** Vectors for more bytes than the first pieces hold are more than those. */
  lemma NeedsPieces(cs: seq<Chain>, vecs: seq<Vec>, size: nat)
    requires Describes(cs, 0, vecs) && TotalLen(vecs) >= size
    ensures size > 0 ==> vecs != []
    ensures cs != [] && |cs[0].room| < size ==> |vecs| >= 2
    ensures |cs| >= 2 && |cs[0].room| + |cs[1].room| < size ==> |vecs| >= 3
  {
    if |vecs| > 0 {
      assert Fits(cs, vecs[0]);
    }
    if |vecs| == 1 {
      assert TotalLen(vecs) == TotalLen(vecs[..0]) + vecs[0].len;
    }
    if |vecs| == 2 {
      assert Fits(cs, vecs[1]);
      assert TotalLen(vecs) == TotalLen(vecs[..1]) + vecs[1].len;
      assert TotalLen(vecs[..1]) == TotalLen(vecs[..1][..0]) + vecs[0].len;
    }
  }

  lemma LenOfTwo(vecs: seq<Vec>)
    requires |vecs| == 2
    ensures TotalLen(vecs) == vecs[0].len + vecs[1].len
  {
    assert TotalLen(vecs) == TotalLen(vecs[..1]) + vecs[1].len;
    assert TotalLen(vecs[..1]) == TotalLen(vecs[..1][..0]) + vecs[0].len;
  }

  lemma FlatOfTwo(cs: seq<Chain>)
    requires |cs| == 2
    ensures Flat(cs) == cs[0].data + cs[1].data
  {
    assert cs == [cs[0]] + [cs[1]];
    FlatSingle(cs[0]);
    FlatSnoc([cs[0]], cs[1]);
  }

  /** Two reservations on a new buffer leave two empty chains and a vector for each. */
  method ReserveTwice() returns (buf: EvBuffer, vecs: seq<Vec>)
    ensures fresh(buf) && buf.Valid() && buf.Contents() == [] && !buf.freezeEnd && !buf.freezeStart
    ensures buf.lwdp == 0 && |buf.chains| == 2
    ensures FreshChain(buf.chains[0], 1) && FreshChain(buf.chains[1], MIN_ROOM + 1)
    ensures |vecs| == 2 && Describes(buf.chains, 0, vecs)
  {
    buf := new EvBuffer();
    var one := ReserveSpace(buf, 1, 2);
    RoomOfOne(buf.chains);
    assert Short(buf.chains, 0, 2 * MIN_ROOM + 1, 2);
    var two := ReserveSpace(buf, 2 * MIN_ROOM + 1, 2);
    assert buf.chains[0] == buf.chains[..1][0];
    NeedsPieces(buf.chains, two.value, 2 * MIN_ROOM + 1);
    vecs := two.value;
  }

  /** Writing into the second piece only leaves an empty chain in front of the data. */
  method LeadingEmpty(d: Bytes) returns (buf: EvBuffer)
    requires 0 < |d| <= MIN_ROOM
    ensures fresh(buf) && buf.Valid() && buf.Contents() == d && !buf.freezeEnd && !buf.freezeStart
    ensures |buf.chains| == 2 && buf.chains[0].data == [] && buf.chains[1].data == d && buf.lwdp == 1
  {
    var vecs;
    buf, vecs := ReserveTwice();
    WriteVec(buf, 1, d);
    var used := [vecs[0].(len := 0), vecs[1].(len := |d|)];
    assert Fits(buf.chains, vecs[0]) && Fits(buf.chains, vecs[1]);
    LenOfTwo(used);
    var _ := CommitSpace(buf, used);
    FlatOfTwo(buf.chains);
  }

  /** Moving a part of such a chain resets the link of the source in front of its data. */
  method MoveBreaksSource(d: Bytes) returns (src: EvBuffer, dst: EvBuffer)
    requires 2 <= |d| <= MIN_ROOM
    ensures !src.Valid() && src.Contents() == d[1..]
    ensures dst.Valid() && dst.Contents() == d[..1]
  {
    src := LeadingEmpty(d);
    dst := new EvBuffer();
    FlatSingle(src.chains[0]);
    assert src.chains[..1] == [src.chains[0]];
    assert src.chains[1..][0] == src.chains[1];
    assert Whole(src.chains, 1) == 1;
    var _ := RemoveBuffer(src, dst, 1);
  }

  /** A new buffer with d in its one chain. */
  method Filled(d: Bytes) returns (buf: EvBuffer)
    requires 0 < |d| <= MIN_ROOM
    ensures fresh(buf) && buf.Valid() && buf.Contents() == d && !buf.freezeEnd && !buf.freezeStart
    ensures |buf.chains| == 1 && buf.chains[0].pad == [] && buf.chains[0].data == d
    ensures |buf.chains[0].room| == MIN_ROOM - |d| && buf.lwdp == 0
  {
    buf := new EvBuffer();
    var _ := buf.Add(d);
    assert [] + d == d;
  }

  /** A full chain, an empty one and two more with data. */
  method Gapped(a: Bytes, b: Bytes, c: Bytes) returns (buf: EvBuffer)
    requires |a| == MIN_ROOM && 0 < |b| <= MIN_ROOM && 0 < |c| <= MIN_ROOM
    ensures fresh(buf) && buf.Valid() && buf.Contents() == a + (b + c) && !buf.freezeStart
    ensures |buf.chains| == 4 && buf.chains[0].data == a && buf.chains[0].room == []
    ensures Capacity(buf.chains[0]) == MIN_ROOM
    ensures buf.chains[1].data == [] && buf.chains[2].data == b && buf.chains[3].data == c
  {
    buf := Filled(c);
    var mid := Filled(b);
    var _ := PrependBuffer(buf, mid);
    var front := Filled(a);
    RoomOfOne(front.chains);
    assert Short(front.chains, 0, 1, 2);
    var _ := ReserveSpace(front, 1, 2);
    assert front.chains[0] == front.chains[..1][0];
    var _ := PrependBuffer(buf, front);
  }

  /** Moving the bytes up to within c takes the full, the empty and the next chain whole; the
      last piece then takes the place of b, which is lost. */
  method MoveLosesBytes(a: Bytes, b: Bytes, c: Bytes) returns (src: EvBuffer, dst: EvBuffer)
    requires |a| == MIN_ROOM && 0 < |b| <= MIN_ROOM && 2 <= |c| <= MIN_ROOM
    ensures src.Valid() && src.Contents() == c[1..]
    ensures !dst.Valid() && dst.Contents() == a + c[..1] && dst.totalLen == |a| + |b| + 1
  {
    src := Gapped(a, b, c);
    dst := new EvBuffer();
    GapOutcome(src.chains, a, b, c);
    TailOf(a, b, c);
    var _ := RemoveBuffer(src, dst, |a| + |b| + 1);
  }

  lemma TailOf(a: Bytes, b: Bytes, c: Bytes)
    requires c != []
    ensures (a + (b + c))[|a| + |b| + 1..] == c[1..]
  {
  }

  /** What the move does on those four chains. */
  lemma GapOutcome(cs: seq<Chain>, a: Bytes, b: Bytes, c: Bytes)
    requires |cs| == 4 && |a| == MIN_ROOM == Capacity(cs[0]) && b != [] && |c| >= 2
    requires cs[0].data == a && cs[0].room == [] && cs[1].data == [] && cs[2].data == b && cs[3].data == c
    requires |Flat(cs)| == |a| + |b| + |c|
    ensures
      && var n := |a| + |b| + 1;
      && Whole(cs, n) == 3 && Flat(cs[..3]) == a + b
      && !DestSafe(cs, true, n) && SourceSafe(cs, 3, n)
      && Landed(cs, [], 0, n) == a + c[..1]
  {
    var n := |a| + |b| + 1;
    WholeOfFour(cs, n);
    var moved := cs[..3];
    FlatSingle(cs[0]);
    FlatSnoc([cs[0]], cs[1]);
    FlatSnoc([cs[0], cs[1]], cs[2]);
    assert moved == [cs[0], cs[1]] + [cs[2]] && [cs[0], cs[1]] == [cs[0]] + [cs[1]];
    assert a + [] == a;
    assert moved[1].data == [] && moved[2].data != [];
    assert [] + moved == moved && Advanced(moved, 0) == 0;
    assert moved[..1] == [cs[0]];
  }

  lemma WholeOfFour(cs: seq<Chain>, n: nat)
    requires |cs| == 4 && cs[1].data == [] && |cs[3].data| >= 2
    requires n == |cs[0].data| + |cs[2].data| + 1
    ensures Whole(cs, n) == 3
  {
    var t := cs[1..];
    assert t[0] == cs[1] && t[1..][0] == cs[2] && t[1..][1..][0] == cs[3];
    assert Whole(t[1..][1..], 1) == 0;
    assert Whole(t[1..], n - |cs[0].data|) == 1;
    assert Whole(t, n - |cs[0].data|) == 2;
  }

  /** Committing only the last of three pieces leaves the link in front of the data. */
  method CommitStrands(d: Bytes) returns (buf: EvBuffer)
    requires 0 < |d| <= MIN_ROOM
    ensures fresh(buf) && !buf.Valid() && buf.Lagging() && buf.Contents() == d && !buf.freezeEnd
  {
    var vecs;
    buf, vecs := ReserveTwice();
    RoomOfTwo(buf.chains);
    var r := ReserveSpace(buf, 5 * MIN_ROOM, 3);
    assert buf.chains[0] == buf.chains[..2][0] && buf.chains[1] == buf.chains[..2][1];
    NeedsPieces(buf.chains, r.value, 5 * MIN_ROOM);
    vecs := r.value;
    assert Fits(buf.chains, vecs[2]);
    WriteVec(buf, 2, d);
    var used := [vecs[2].(len := |d|)];
    OneVec(buf.chains, used);
    var _ := CommitSpace(buf, used);
    assert [] + d == d;
  }

  /** A chain of more than 4096 bytes that is full but for one byte. */
  method NearlyFull() returns (buf: EvBuffer)
    ensures fresh(buf) && buf.Valid() && !buf.freezeEnd && buf.lwdp == 0
    ensures |buf.chains| == 1 && buf.chains[0].pad == [] && |buf.chains[0].room| == 1
    ensures |buf.chains[0].data| > MAX_TO_COPY
  {
    buf := new EvBuffer();
    var r := ReserveSpace(buf, 5000, 2);
    NeedsPieces(buf.chains, r.value, 5000);
    assert r.value != [] && Fits(buf.chains, r.value[0]);
    var used := [r.value[0].(len := |buf.chains[0].room| - 1)];
    OneVec(buf.chains, used);
    var _ := CommitSpace(buf, used);
  }

  /** Two more reservations put two empty chains behind it; the chain that a reservation of one
      vector then returns is between them, and committing that vector is refused. */
  method ReservesInVain() returns (buf: EvBuffer, vecs: seq<Vec>)
    ensures fresh(buf) && buf.Valid() && !buf.freezeEnd
    ensures |vecs| == 1 && vecs[0].len >= 2 && Fits(buf.chains, vecs[0]) && !Commits(buf.chains, buf.lwdp, vecs)
  {
    buf := NearlyFull();
    RoomOfOne(buf.chains);
    var r := ReserveSpace(buf, 2, 2);
    assert buf.chains[0] == buf.chains[..1][0];
    RoomOfTwo(buf.chains);
    r := ReserveSpace(buf, 5000, 3);
    assert buf.chains[0] == buf.chains[..2][0] && buf.chains[1] == buf.chains[..2][1];
    assert PassesOver(buf.chains, buf.lwdp, 2);
    r := ReserveSpace(buf, 2, 1);
    vecs := r.value;
    OneLen(vecs);
  }

  lemma OneLen(vecs: seq<Vec>)
    requires |vecs| == 1
    ensures TotalLen(vecs) == vecs[0].len
  {
    assert TotalLen(vecs) == TotalLen(vecs[..0]) + vecs[0].len;
  }

  /** Draining a byte makes a gap of one; prepending two when no chain can be had fails and
      leaves the second of them in front. */
  method PrependLeavesPart(d: Bytes, x: Bytes) returns (buf: EvBuffer, ok: bool)
    requires 2 <= |d| <= MIN_ROOM && |x| == 2
    ensures fresh(buf) && buf.Valid() && !ok && buf.Contents() == x[1..] + d[1..]
  {
    buf := Filled(d);
    var _ := buf.Drain(1);
    assert buf.chains[0].data == d[1..] && |buf.chains[0].pad| == 1;
    ok := buf.Prepend(x, false);
  }
}
