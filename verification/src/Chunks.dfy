/** Byte strings, and the chains an evbuffer cuts its bytes into. */
module Chunks {

  type Byte = x: int | 0 <= x < 256

  type Bytes = seq<Byte>

  const CHAIN_MAX: nat := 0x7fff_ffff_ffff_ffff
  const CHAIN_SIZE: nat := 48
  const MAX_CAPACITY: nat := CHAIN_MAX - CHAIN_SIZE

  /** A chain of the evbuffer. Its memory is `pad + data + room`: the live bytes `data`
      start at offset `misalign == |pad|`, and there are `off == |data|` of them. */
  datatype Chain = Chain(pad: Bytes, data: Bytes, room: Bytes)

  /** The allocated length, buffer_len. */
  function Capacity(c: Chain): nat {
    |c.pad| + |c.data| + |c.room|
  }

  predicate Ok(c: Chain) {
    0 < Capacity(c) <= MAX_CAPACITY
  }

  /** The memory of a chain as the source addresses it. */
  function Memory(c: Chain): Bytes {
    c.pad + c.data + c.room
  }

  /** Memory after copying bytes to offset `at`. */
  function Blit(mem: Bytes, at: nat, bytes: Bytes): Bytes
    requires at + |bytes| <= |mem|
  {
    mem[..at] + bytes + mem[at + |bytes|..]
  }

  /** Copies bytes behind the live ones. */
  function Appended(c: Chain, bytes: Bytes): Chain
    requires |bytes| <= |c.room|
  {
    Chain(c.pad, c.data + bytes, c.room[|bytes|..])
  }

  /** Copies bytes in front of the live ones. */
  function Prepended(c: Chain, bytes: Bytes): Chain
    requires |bytes| <= |c.pad|
  {
    Chain(c.pad[..|c.pad| - |bytes|], bytes + c.data, c.room)
  }

  /** Forgets the first n live bytes. */
  function Dropped(c: Chain, n: nat): Chain
    requires n <= |c.data|
  {
    Chain(c.pad + c.data[..n], c.data[n..], c.room)
  }

  /** Moves the live bytes to the start of the memory. */
  function Aligned(c: Chain): Chain {
    Chain([], c.data, Memory(c)[|c.data|..])
  }

  /** An empty chain read as empty at the end (all room). */
  function AllRoom(c: Chain): Chain
    requires c.data == []
  {
    Chain([], [], c.pad + c.room)
  }

  /** An empty chain read as empty at the beginning (all pad). */
  function AllPad(c: Chain): Chain
    requires c.data == []
  {
    Chain(c.pad + c.room, [], [])
  }

  /** Appending is one copy behind the live bytes and writes nothing else. */
  lemma AppendedIsCopy(c: Chain, bytes: Bytes)
    requires |bytes| <= |c.room|
    ensures Memory(Appended(c, bytes)) == Blit(Memory(c), |c.pad| + |c.data|, bytes)
  {
    var m := Memory(c);
    assert m[..|c.pad| + |c.data|] == c.pad + c.data;
    assert m[|c.pad| + |c.data| + |bytes|..] == c.room[|bytes|..];
  }

  /** Prepending is one copy in front of the live bytes and writes nothing else. */
  lemma PrependedIsCopy(c: Chain, bytes: Bytes)
    requires |bytes| <= |c.pad|
    ensures Memory(Prepended(c, bytes)) == Blit(Memory(c), |c.pad| - |bytes|, bytes)
  {
    var m := Memory(c);
    assert m[..|c.pad| - |bytes|] == c.pad[..|c.pad| - |bytes|];
    assert m[|c.pad|..] == c.data + c.room;
  }

  /** Realigning is one copy to the start of the memory and writes nothing else. */
  lemma AlignedIsCopy(c: Chain)
    ensures Memory(Aligned(c)) == Blit(Memory(c), 0, c.data)
  {
  }

  /** The byte string a list of chains stands for. */
  function Flat(cs: seq<Chain>): Bytes {
    if cs == [] then [] else cs[0].data + Flat(cs[1..])
  }

  lemma Assoc(x: Bytes, y: Bytes, z: Bytes)
    ensures x + (y + z) == x + y + z
  {
  }

  lemma {:induction false} FlatConcat(a: seq<Chain>, b: seq<Chain>)
    ensures Flat(a + b) == Flat(a) + Flat(b)
  {
    if a == [] {
      assert a + b == b;
      assert Flat(a) + Flat(b) == Flat(b);
    } else {
      FlatConcat(a[1..], b);
      assert (a + b)[1..] == a[1..] + b;
      Assoc(a[0].data, Flat(a[1..]), Flat(b));
    }
  }

  lemma FlatSingle(c: Chain)
    ensures Flat([c]) == c.data
  {
    assert Flat([c]) == c.data + Flat([]);
  }

  /** Cutting the list cuts the byte string. */
  lemma FlatCut(cs: seq<Chain>, i: nat)
    requires i <= |cs|
    ensures Flat(cs) == Flat(cs[..i]) + Flat(cs[i..])
  {
    FlatConcat(cs[..i], cs[i..]);
    assert cs == cs[..i] + cs[i..];
  }

  lemma FlatAt(cs: seq<Chain>, i: nat)
    requires i < |cs|
    ensures Flat(cs) == Flat(cs[..i]) + cs[i].data + Flat(cs[i + 1..])
    ensures Flat(cs[..i + 1]) == Flat(cs[..i]) + cs[i].data
    ensures Flat(cs[i..]) == cs[i].data + Flat(cs[i + 1..])
  {
    FlatCut(cs, i);
    assert cs[i..][1..] == cs[i + 1..];
    assert Flat(cs[i..]) == cs[i].data + Flat(cs[i + 1..]);
    Assoc(Flat(cs[..i]), cs[i].data, Flat(cs[i + 1..]));
    FlatSnoc(cs[..i], cs[i]);
    assert cs[..i + 1] == cs[..i] + [cs[i]];
  }

  lemma FlatSnoc(cs: seq<Chain>, c: Chain)
    ensures Flat(cs + [c]) == Flat(cs) + c.data
  {
    FlatConcat(cs, [c]);
    FlatSingle(c);
  }

  /** Replacing one chain replaces exactly its bytes. */
  lemma FlatUpdate(cs: seq<Chain>, i: nat, c: Chain)
    requires i < |cs|
    ensures Flat(cs[i := c]) == Flat(cs[..i]) + c.data + Flat(cs[i + 1..])
  {
    FlatAt(cs[i := c], i);
    assert cs[i := c][..i] == cs[..i];
    assert cs[i := c][i + 1..] == cs[i + 1..];
  }

  ghost predicate AllEmpty(cs: seq<Chain>) {
    forall i :: 0 <= i < |cs| ==> cs[i].data == []
  }

  lemma {:induction false} FlatEmpty(cs: seq<Chain>)
    requires AllEmpty(cs)
    ensures Flat(cs) == []
  {
    if cs != [] {
      FlatEmpty(cs[1..]);
    }
  }

  /** Empty chains at the end hold nothing. */
  lemma FlatTrailing(cs: seq<Chain>, i: nat)
    requires i <= |cs|
    requires forall k :: i <= k < |cs| ==> cs[k].data == []
    ensures Flat(cs) == Flat(cs[..i])
  {
    FlatCut(cs, i);
    FlatEmpty(cs[i..]);
  }
}
