/** The evbuffer: a list of chains edited in place, with a cached length and a pointer
    to the link that leads to the last chain with data. Every operation is specified on
    `Contents()`, the one flat byte string the list stands for. */
module Evbuffer {
  import opened IdLists
  import opened Chunks

  const SIZE_MAX: nat := 0xffff_ffff_ffff_ffff
  const MIN_BUFFER_SIZE: nat := 1024
  const MAX_AUTO_SIZE: nat := 4096
  const MAX_TO_COPY: nat := 4096
  const MAX_TO_REALIGN: nat := 2048

  const MIN_ROOM: nat := MIN_BUFFER_SIZE - CHAIN_SIZE

  /** A chain just allocated for `size` bytes: the smallest kind, or less than twice as much
      memory as is needed. */
  ghost predicate FreshChain(c: Chain, size: nat) {
    && c.pad == c.data == [] && size <= |c.room|
    && if size <= MIN_ROOM then |c.room| == MIN_ROOM
       else |c.room| + CHAIN_SIZE < 2 * (size + CHAIN_SIZE)
  }

  /** A new chain with room for at least `size` bytes; fails when the request is too big. */
  method ChainNew(size: nat) returns (r: Option<Chain>)
    ensures r.None? <==> size > MAX_CAPACITY
    ensures r.Some? ==> FreshChain(r.value, size) && Ok(r.value)
  {
    if size > CHAIN_MAX - CHAIN_SIZE {
      return None;
    }
    var needed := size + CHAIN_SIZE;
    var toAlloc;
    if needed < CHAIN_MAX / 2 {
      toAlloc := MIN_BUFFER_SIZE;
      while toAlloc < needed
        invariant MIN_BUFFER_SIZE <= toAlloc < CHAIN_MAX
        invariant toAlloc == MIN_BUFFER_SIZE || (MIN_BUFFER_SIZE < needed && toAlloc < 2 * needed)
        decreases needed - toAlloc
      {
        toAlloc := 2 * toAlloc;
      }
    } else {
      toAlloc := needed;
    }
    return Some(Chain([], [], seq(toAlloc - CHAIN_SIZE, _ => 0)));
  }

  /** The link leads to a chain, or the list is empty and the link is its head. */
  ghost predicate LinkOk(cs: seq<Chain>, k: nat) {
    k < |cs| || (k == 0 && cs == [])
  }

  /** Chain k is the last one with data, or the first one when none has data. */
  ghost predicate LastWithData(cs: seq<Chain>, k: nat) {
    && LinkOk(cs, k)
    && (forall i :: k < i < |cs| ==> cs[i].data == [])
    && (k > 0 ==> cs[k].data != [])
  }

  /** The first chain at or behind chain k without data, where trailing chains are cut. */
  function CutSlot(cs: seq<Chain>, k: nat): (slot: nat)
    requires k <= |cs|
    ensures k <= slot <= |cs|
    decreases |cs| - k
  {
    if k < |cs| && cs[k].data != [] then CutSlot(cs, k + 1) else k
  }

  /** Right behind the last chain with data, when k leads to it. */
  lemma CutSlotAtLast(cs: seq<Chain>, k: nat)
    requires LastWithData(cs, k)
    ensures
      && var slot := CutSlot(cs, k);
      && LastWithData(cs[..slot], k) && Flat(cs[..slot]) == Flat(cs)
      && (slot > 0 ==> k == slot - 1 && cs[k].data != [])
  {
    assert k < |cs| && cs[k].data != [] ==> CutSlot(cs, k) == CutSlot(cs, k + 1) == k + 1;
    FlatTrailing(cs, CutSlot(cs, k));
  }

  /** No empty chain before chain k. */
  ghost predicate NoGap(cs: seq<Chain>, k: nat) {
    forall i :: 0 <= i < k && i < |cs| ==> cs[i].data != []
  }

  ghost predicate AllOk(cs: seq<Chain>) {
    forall i :: 0 <= i < |cs| ==> Ok(cs[i])
  }

  predicate ShouldRealign(c: Chain, datlen: nat) {
    && Capacity(c) - |c.data| >= datlen
    && |c.data| < Capacity(c) / 2
    && |c.data| <= MAX_TO_REALIGN
  }

  /** All the bytes lie in the chains up to the last one with data. */
  lemma FlatUpToLast(cs: seq<Chain>, k: nat)
    requires LastWithData(cs, k) && cs != []
    ensures Flat(cs) == Flat(cs[..k]) + cs[k].data
  {
    FlatAt(cs, k);
    FlatEmpty(cs[k + 1..]);
    assert Flat(cs[..k]) + cs[k].data + [] == Flat(cs[..k]) + cs[k].data;
  }

  /** Bytes put behind the data of the last chain with data are put behind all bytes. */
  lemma FlatAppendAt(cs: seq<Chain>, k: nat, c: Chain, d: Bytes)
    requires LastWithData(cs, k) && cs != []
    requires c.data == cs[k].data + d
    ensures Flat(cs[k := c]) == Flat(cs) + d
  {
    FlatUpToLast(cs, k);
    FlatUpdate(cs, k, c);
    FlatEmpty(cs[k + 1..]);
    Assoc(Flat(cs[..k]), cs[k].data, d);
    assert Flat(cs[..k]) + c.data + [] == Flat(cs[..k]) + c.data;
  }

  /** The link stopped before an empty chain although a chain with data follows. */
  ghost predicate Lags(cs: seq<Chain>, k: nat) {
    && k + 1 < |cs| && cs[k + 1].data == []
    && exists q :: k < q < |cs| && cs[q].data != []
  }

  /** Appending d at such a link: in front of the bytes that follow when d fits there,
      instead of them when it does not. */
  ghost function LaggingAdd(cs: seq<Chain>, k: nat, d: Bytes): Bytes
    requires k < |cs|
  {
    Flat(cs[..k + 1]) + d +
    if |d| <= |cs[k].room| || ShouldRealign(cs[k], |d|) then Flat(cs[k + 1..]) else []
  }

  /** Data behind a lagging link is missed by the chains up to it. */
  lemma LagHides(cs: seq<Chain>, k: nat)
    requires Lags(cs, k)
    ensures Flat(cs[k + 1..]) != [] && Flat(cs) == Flat(cs[..k + 1]) + Flat(cs[k + 1..])
    ensures !LastWithData(cs, k)
  {
    var q :| k < q < |cs| && cs[q].data != [];
    FlatCut(cs, k + 1);
    FlatAt(cs[k + 1..], q - k - 1);
  }

  /** Extending the chain of a lagging link. */
  lemma LagExtend(cs: seq<Chain>, k: nat, c: Chain, d: Bytes)
    requires Lags(cs, k) && c.data == cs[k].data + d
    ensures Lags(cs[k := c], k)
    ensures Flat(cs[k := c]) == Flat(cs[..k + 1]) + d + Flat(cs[k + 1..])
    ensures Flat(cs[k := c][..k + 1]) == Flat(cs[..k + 1]) + d
    ensures |Flat(cs[k := c])| == |Flat(cs)| + |d|
  {
    var q :| k < q < |cs| && cs[q].data != [];
    assert cs[k := c][q] == cs[q];
    FlatUpdate(cs, k, c);
    FlatAt(cs, k);
    FlatAt(cs[k := c], k);
    assert cs[k := c][..k] == cs[..k];
    Assoc(Flat(cs[..k]), cs[k].data, d);
  }

  /** Linking a chain in at a lagging link loses what lies behind the link. */
  lemma LagCut(cs: seq<Chain>, k: nat, c: Chain)
    requires Lags(cs, k)
    ensures
      && var cut := cs[..CutSlot(cs, k)];
      && Flat(cut + [c]) == Flat(cs[..k + 1]) + c.data
      && |Flat(cut + [c])| < |Flat(cs)| + |c.data|
  {
    LagHides(cs, k);
    FlatSnoc(cs[..CutSlot(cs, k)], c);
    if cs[k].data == [] {
      FlatAt(cs, k);
    } else {
      assert CutSlot(cs, k) == CutSlot(cs, k + 1) == k + 1;
    }
  }

  /** Cutting whole chains and then r bytes off the front keeps the list in shape. */
  lemma FrontCut(cs: seq<Chain>, k: nat, i: nat, r: nat)
    requires AllOk(cs) && LastWithData(cs, k) && i <= k < |cs| && r < |cs[i].data|
    ensures AllOk(cs[i..][0 := Dropped(cs[i], r)])
    ensures LastWithData(cs[i..][0 := Dropped(cs[i], r)], k - i)
    ensures NoGap(cs, k) ==> NoGap(cs[i..][0 := Dropped(cs[i], r)], k - i)
    ensures |Flat(cs[..i])| + r <= |Flat(cs)|
    ensures Flat(cs[i..][0 := Dropped(cs[i], r)]) == Flat(cs)[|Flat(cs[..i])| + r..]
  {
    var rest := cs[i + 1..];
    assert cs[i..][0] == cs[i] && cs[i..][1..] == rest;
    FlatUpdate(cs[i..], 0, Dropped(cs[i], r));
    FlatAt(cs, i);
    SuffixOf(Flat(cs[..i]), cs[i].data, Flat(rest), r);
    assert Flat(cs[i..][..0]) + cs[i].data[r..] == cs[i].data[r..];
  }

  /** Linking a chain in where the trailing chains are cut. */
  lemma InsertExact(cs: seq<Chain>, k: nat, c: Chain)
    requires LinkOk(cs, k) && Ok(c)
    ensures
      && var after := cs[..CutSlot(cs, k)] + [c];
      && var link := if c.data != [] then |after| - 1 else k;
      && (AllOk(cs) ==> AllOk(after))
      && (LastWithData(cs, k) ==>
            && LastWithData(after, link) && Flat(after) == Flat(cs) + c.data
            && (NoGap(cs, k) ==> NoGap(after, link))
            && (link == |after| - 1 || link == |after| - 2))
      && (Lags(cs, k) ==>
            Flat(after) == Flat(cs[..k + 1]) + c.data && |Flat(after)| < |Flat(cs)| + |c.data|)
  {
    if LastWithData(cs, k) {
      CutSlotAtLast(cs, k);
      FlatSnoc(cs[..CutSlot(cs, k)], c);
    }
    if Lags(cs, k) {
      LagCut(cs, k, c);
    }
  }

  /** The list after the room of chain k is filled and the rest is linked in behind it. */
  lemma AddExact(cs: seq<Chain>, k: nat, tmp: Chain, data: Bytes)
    requires k < |cs| && AllOk(cs) && Ok(tmp) && tmp.data == [] && |cs[k].room| < |data| <= |tmp.room|
    ensures
      && var r := |cs[k].room|;
      && var cs' := cs[k := Appended(cs[k], data[..r])];
      && var after := cs'[..CutSlot(cs', k)] + [Appended(tmp, data[r..])];
      && AllOk(after)
      && (LastWithData(cs, k) ==>
            && LastWithData(after, |after| - 1) && Flat(after) == Flat(cs) + data
            && (NoGap(cs, k) ==> NoGap(after, |after| - 1)))
      && (Lags(cs, k) ==> Flat(after) == Flat(cs[..k + 1]) + data && |Flat(after)| < |Flat(cs)| + |data|)
  {
    var r := |cs[k].room|;
    var c := Appended(cs[k], data[..r]);
    var cs' := cs[k := c];
    InsertExact(cs', k, Appended(tmp, data[r..]));
    if LastWithData(cs, k) {
      FlatAppendAt(cs, k, c, data[..r]);
      TwoParts(Flat(cs), data, r);
    }
    if Lags(cs, k) {
      LagExtend(cs, k, c, data[..r]);
      TwoParts(Flat(cs[..k + 1]), data, r);
    }
  }

  /** Gathering the first i chains and r more bytes into one chain keeps the list in shape. */
  lemma Gathered(cs: seq<Chain>, k: nat, i: nat, r: nat, tmp: Chain)
    requires AllOk(cs) && LastWithData(cs, k) && Ok(tmp)
    requires i <= k < |cs| && r < |cs[i].data|
    requires tmp.data == Flat(cs[..i]) + cs[i].data[..r]
    ensures AllOk([tmp] + cs[i..][0 := Dropped(cs[i], r)])
    ensures LastWithData([tmp] + cs[i..][0 := Dropped(cs[i], r)], k - i + 1)
    ensures NoGap(cs, k) && tmp.data != [] ==> NoGap([tmp] + cs[i..][0 := Dropped(cs[i], r)], k - i + 1)
    ensures Flat([tmp] + cs[i..][0 := Dropped(cs[i], r)]) == Flat(cs)
  {
    FrontCut(cs, k, i, r);
    var tail := cs[i..][0 := Dropped(cs[i], r)];
    FlatConcat([tmp], tail);
    FlatSingle(tmp);
    FlatAt(cs, i);
    PrefixOf(Flat(cs[..i]), cs[i].data, Flat(cs[i + 1..]), r);
    assert Flat(cs) == Flat(cs)[..|Flat(cs[..i])| + r] + Flat(cs)[|Flat(cs[..i])| + r..];
  }

  lemma PrefixOf(x: Bytes, y: Bytes, z: Bytes, r: nat)
    requires r <= |y|
    ensures (x + y + z)[..|x| + r] == x + y[..r]
  {
  }

  lemma TwoParts(a: Bytes, d: Bytes, r: nat)
    requires r <= |d|
    ensures (a + d[..r]) + d[r..] == a + d
  {
    assert d[..r] + d[r..] == d;
  }

  lemma FrontNoGap(c: Chain, cs: seq<Chain>, k: nat)
    requires c.data != [] && NoGap(cs, k)
    ensures NoGap([c] + cs, k + 1)
  {
  }

  lemma Longer(a: Bytes, b: Bytes)
    ensures a + b == b <==> a == []
  {
    assert |a + b| == |a| + |b|;
    assert [] + b == b;
  }

  /** While fewer bytes were seen than the list holds, there is another chain. */
  lemma FlatNonempty(cs: seq<Chain>, i: nat, n: nat)
    requires i <= |cs| && |Flat(cs[..i])| < n <= |Flat(cs)|
    ensures i < |cs|
  {
    assert cs[..|cs|] == cs;
  }

  lemma SuffixOf(x: Bytes, y: Bytes, z: Bytes, r: nat)
    requires r <= |y|
    ensures (x + y + z)[|x| + r..] == y[r..] + z
  {
  }

  class EvBuffer {
    var chains: seq<Chain>
    /** last_with_datap: 0 is &first, k > 0 is the `next` field of chain k - 1. */
    var lwdp: nat
    var totalLen: nat
    var freezeStart: bool
    var freezeEnd: bool

    ghost predicate Valid()
      reads this
    {
      && AllOk(chains)
      && LastWithData(chains, lwdp)
      && totalLen == |Flat(chains)| <= SIZE_MAX
    }

    /** Only the last chains are empty. */
    ghost predicate Dense()
      reads this
    {
      NoGap(chains, lwdp)
    }

    ghost function Contents(): Bytes
      reads this
    {
      Flat(chains)
    }

    constructor ()
      ensures Valid() && Dense() && Contents() == [] && chains == []
      ensures !freezeStart && !freezeEnd
    {
      chains, lwdp, totalLen := [], 0, 0;
      freezeStart, freezeEnd := false, false;
    }

    /** A buffer whose last_with_datap stopped short; all else is in order. */
    ghost predicate Lagging()
      reads this
    {
      AllOk(chains) && Lags(chains, lwdp) && totalLen == |Flat(chains)| <= SIZE_MAX
    }

    /** Cuts the list behind its last chain with data and returns the link at the end. */
    method FreeTrailingEmptyChains() returns (slot: nat)
      requires LinkOk(chains, lwdp)
      modifies this`chains
      ensures slot == CutSlot(old(chains), lwdp) == |chains| && chains == old(chains)[..slot]
      ensures old(Valid()) ==> Valid() && Contents() == old(Contents())
      ensures old(Valid()) && slot > 0 ==> lwdp == slot - 1 && chains[lwdp].data != []
    {
      if LastWithData(chains, lwdp) {
        CutSlotAtLast(chains, lwdp);
      }
      slot := lwdp;
      while slot < |chains| && chains[slot].data != []
        invariant lwdp <= slot <= |chains| && CutSlot(chains, slot) == CutSlot(chains, lwdp)
      {
        slot := slot + 1;
      }
      chains := chains[..slot];
    }

    /** Appends one chain, dropping the chains from the first empty one behind the link on. */
    method ChainInsert(c: Chain)
      requires LinkOk(chains, lwdp) && Ok(c) && totalLen + |c.data| <= SIZE_MAX
      modifies this`chains, this`lwdp, this`totalLen
      ensures chains == old(chains)[..CutSlot(old(chains), old(lwdp))] + [c]
      ensures lwdp == if c.data != [] then |chains| - 1 else old(lwdp)
      ensures totalLen == old(totalLen) + |c.data|
      ensures old(Valid()) ==> Valid() && Contents() == old(Contents()) + c.data
      ensures old(Valid()) ==> lwdp == |chains| - 1 || (c.data == [] && lwdp == |chains| - 2)
      ensures old(Valid() && Dense()) ==> Dense()
      ensures old(Lagging()) ==> !Valid() && Contents() == Flat(old(chains)[..old(lwdp) + 1]) + c.data
    {
      InsertExact(chains, lwdp, c);
      if lwdp == |chains| {
        chains := [c];
      } else {
        var slot := FreeTrailingEmptyChains();
        chains := chains + [c];
        if c.data != [] {
          lwdp := slot;
        }
      }
      totalLen := totalLen + |c.data|;
    }

    /** Puts a longer chain in place of the one the link leads to. */
    method ExtendLast(c: Chain, ghost d: Bytes)
      requires (Valid() || Lagging()) && chains != [] && Ok(c)
      requires c.data == chains[lwdp].data + d && totalLen + |d| <= SIZE_MAX
      modifies this`chains, this`totalLen
      ensures chains == old(chains)[lwdp := c] && totalLen == old(totalLen) + |d|
      ensures old(Valid()) ==> Valid() && Contents() == old(Contents()) + d && (old(Dense()) ==> Dense())
      ensures old(Lagging()) ==>
                && Lagging()
                && Contents() == Flat(old(chains)[..lwdp + 1]) + d + Flat(old(chains)[lwdp + 1..])
                && Flat(chains[..lwdp + 1]) == Flat(old(chains)[..lwdp + 1]) + d
    {
      if Lags(chains, lwdp) {
        LagExtend(chains, lwdp, c, d);
      } else {
        FlatAppendAt(chains, lwdp, c, d);
      }
      totalLen := totalLen + |c.data| - |chains[lwdp].data|;
      chains := chains[lwdp := c];
    }

    /** Fills the room of the chain the link leads to, then puts the rest into a new chain. */
    method AddChain(tmp: Chain, data: Bytes)
      requires (Valid() || Lagging()) && chains != [] && totalLen + |data| <= SIZE_MAX
      requires Ok(tmp) && tmp.data == [] && |chains[lwdp].room| < |data| <= |tmp.room|
      modifies this`chains, this`lwdp, this`totalLen
      ensures totalLen == old(totalLen) + |data|
      ensures old(Valid()) ==> Valid() && Contents() == old(Contents()) + data && (old(Dense()) ==> Dense())
      ensures old(Lagging()) ==> !Valid() && Contents() == Flat(old(chains)[..old(lwdp) + 1]) + data
    {
      var remain := |chains[lwdp].room|;
      AddExact(chains, lwdp, tmp, data);
      ExtendLast(Appended(chains[lwdp], data[..remain]), data[..remain]);
      ChainInsert(Appended(tmp, data[remain..]));
    }

    /** Appends the bytes, or changes nothing and fails. At a link that lags behind the data
        the bytes go to the wrong place, or the bytes behind the link are lost. */
    method Add(data: Bytes) returns (ok: bool)
      requires Valid() || Lagging()
      modifies this`chains, this`lwdp, this`totalLen
      ensures ok <==> !freezeEnd && old(totalLen) + |data| <= SIZE_MAX && |data| <= MAX_CAPACITY
      ensures totalLen == old(totalLen) + if ok then |data| else 0
      ensures !ok ==> chains == old(chains) && lwdp == old(lwdp)
      ensures old(Valid()) ==> Valid() && (old(Dense()) ==> Dense())
      ensures old(Valid()) && ok ==> Contents() == old(Contents()) + data
      ensures old(chains) == [] && ok && |data| <= MIN_ROOM ==>
                |chains| == 1 && chains[0].pad == [] && chains[0].data == data && |chains[0].room| == MIN_ROOM - |data|
      ensures old(Lagging()) ==> !Valid()
      ensures old(Lagging()) && ok ==> Contents() == LaggingAdd(old(chains), old(lwdp), data)
    {
      if Lags(chains, lwdp) {
        LagHides(chains, lwdp);
      }
      if freezeEnd || |data| > SIZE_MAX - totalLen {
        return false;
      }
      if chains == [] {
        var start := ChainNew(|data|);
        if start.None? {
          return false;
        }
        ChainInsert(start.value);
        assert Contents() == old(Contents());
      }
      ok := AddAtLink(data);
    }

    /** Appends at the link: into the room there, after realigning, or in a new chain. */
    method AddAtLink(data: Bytes) returns (ok: bool)
      requires (Valid() || Lagging()) && chains != [] && totalLen + |data| <= SIZE_MAX
      modifies this`chains, this`lwdp, this`totalLen
      ensures ok <==> |data| <= MAX_CAPACITY
      ensures totalLen == old(totalLen) + if ok then |data| else 0
      ensures !ok ==> chains == old(chains) && lwdp == old(lwdp)
      ensures |data| <= |old(chains)[old(lwdp)].room| ==>
                lwdp == old(lwdp) && chains == old(chains)[lwdp := Appended(old(chains)[lwdp], data)]
      ensures old(Valid()) && ok ==> Valid() && Contents() == old(Contents()) + data && (old(Dense()) ==> Dense())
      ensures old(Lagging()) && ok ==> !Valid() && Contents() == LaggingAdd(old(chains), old(lwdp), data)
    {
      var c := chains[lwdp];
      if |c.room| >= |data| {
        AddInPlace(Appended(c, data), data);
        return true;
      }
      if ShouldRealign(c, |data|) {
        AddInPlace(Appended(Aligned(c), data), data);
        return true;
      }
      var toAlloc := Capacity(c);
      if toAlloc <= MAX_AUTO_SIZE / 2 {
        toAlloc := 2 * toAlloc;
      }
      if |data| > toAlloc {
        toAlloc := |data|;
      }
      var tmp := ChainNew(toAlloc);
      if tmp.None? {
        return false;
      }
      AddChain(tmp.value, data);
      assert Flat(old(chains)[..old(lwdp) + 1]) + data + [] == Flat(old(chains)[..old(lwdp) + 1]) + data;
      return true;
    }

    /** Appends where the data fits into the chain, as it is or realigned. */
    method AddInPlace(c: Chain, ghost d: Bytes)
      requires (Valid() || Lagging()) && chains != [] && Ok(c) && totalLen + |d| <= SIZE_MAX
      requires c.data == chains[lwdp].data + d && (|d| <= |chains[lwdp].room| || ShouldRealign(chains[lwdp], |d|))
      modifies this`chains, this`totalLen
      ensures chains == old(chains)[lwdp := c] && totalLen == old(totalLen) + |d|
      ensures old(Valid()) ==> Valid() && Contents() == old(Contents()) + d && (old(Dense()) ==> Dense())
      ensures old(Lagging()) ==> !Valid() && Contents() == LaggingAdd(old(chains), lwdp, d)
    {
      ExtendLast(c, d);
      if Lags(chains, lwdp) {
        LagHides(chains, lwdp);
      }
    }

    /** Bytes that fit in front of the first chain's data without a new chain. */
    function FrontRoom(): nat
      reads this
    {
      if chains == [] then 0
      else if chains[0].data == [] then Capacity(chains[0])
      else |chains[0].pad|
    }

    /** Puts a chain in place of the first one that has d in front of its data. */
    method ExtendFirst(c: Chain, ghost d: Bytes)
      requires Valid() && chains != [] && Ok(c)
      requires c.data == d + chains[0].data && totalLen + |d| <= SIZE_MAX
      modifies this`chains, this`totalLen
      ensures Valid() && Contents() == d + old(Contents()) && (old(Dense()) ==> Dense())
      ensures chains == old(chains)[0 := c]
    {
      FlatAt(chains, 0);
      FlatUpdate(chains, 0, c);
      Assoc(d, chains[0].data, Flat(chains[1..]));
      totalLen := totalLen + |c.data| - |chains[0].data|;
      chains := chains[0 := c];
    }

    /** Links a chain with data in front of a list whose last data chain has data. */
    method LinkFront(c: Chain)
      requires Valid() && Ok(c) && totalLen + |c.data| <= SIZE_MAX
      requires chains != [] && chains[lwdp].data != []
      modifies this`chains, this`lwdp, this`totalLen
      ensures Valid() && Contents() == c.data + old(Contents())
      ensures old(Dense()) && c.data != [] ==> Dense()
    {
      FlatConcat([c], chains);
      FlatSingle(c);
      // &first becomes the new chain's link; every other link moves up by one.
      if c.data != [] && NoGap(chains, lwdp) {
        FrontNoGap(c, chains, lwdp);
      }
      lwdp := if lwdp == 0 then 1 else lwdp + 1;
      chains := [c] + chains;
      totalLen := totalLen + |c.data|;
    }

    /** Prepends the bytes; `memory` says whether a chain can be allocated when one is needed.
        A failure for lack of one is not atomic: the tail of the data that fitted in front of
        the first chain stays. */
    method Prepend(data: Bytes, memory: bool) returns (ok: bool)
      requires Valid()
      modifies this`chains, this`lwdp, this`totalLen
      ensures Valid() && (old(Dense()) ==> Dense())
      ensures ok <==>
              && !freezeStart && old(totalLen) + |data| <= SIZE_MAX
              && ((old(chains) != [] && |data| <= old(FrontRoom())) ||
                  (memory && |data| - old(FrontRoom()) <= MAX_CAPACITY))
      ensures ok ==> Contents() == data + old(Contents())
      ensures !ok && (freezeStart || old(totalLen) + |data| > SIZE_MAX) ==> chains == old(chains)
      ensures !ok && !freezeStart && old(totalLen) + |data| <= SIZE_MAX ==>
                && |data| >= old(FrontRoom())
                && Contents() == data[|data| - old(FrontRoom())..] + old(Contents())
                && (Contents() == old(Contents()) <==> old(FrontRoom()) == 0)
    {
      if freezeStart || |data| > SIZE_MAX - totalLen {
        return false;
      }
      if chains == [] {
        var start := ChainNew(|data|);
        if !memory || start.None? {
          assert data[|data| - old(FrontRoom())..] + old(Contents()) == [];
          return false;
        }
        ChainInsert(start.value);
        assert Contents() == old(Contents());
      }
      ok := PrependTo(data, memory);
      if !ok {
        Longer(data[|data| - old(FrontRoom())..], old(Contents()));
      }
    }

    method PrependTo(data: Bytes, memory: bool) returns (ok: bool)
      requires Valid() && chains != [] && totalLen + |data| <= SIZE_MAX
      modifies this`chains, this`lwdp, this`totalLen
      ensures Valid() && (old(Dense()) ==> Dense())
      ensures ok <==> |data| <= old(FrontRoom()) || (memory && |data| - old(FrontRoom()) <= MAX_CAPACITY)
      ensures ok ==> Contents() == data + old(Contents())
      ensures !ok ==> Contents() == data[|data| - old(FrontRoom())..] + old(Contents())
    {
      var c := chains[0];
      if c.data == [] {
        c := AllPad(c);
      }
      assert Capacity(c) == Capacity(chains[0]) && |c.pad| == FrontRoom();
      if |c.pad| >= |data| {
        ExtendFirst(Prepended(c, data), data);
        return true;
      }
      var m := |data| - |c.pad|;
      var tail := data[m..];
      ExtendFirst(Prepended(c, tail), tail);
      assert chains[lwdp].data != [];
      ok := PrependNew(data[..m], memory);
      Assoc(data[..m], tail, old(Contents()));
      assert data[..m] + tail == data;
    }

    /** Puts the bytes at the end of a new first chain. */
    method PrependNew(data: Bytes, memory: bool) returns (ok: bool)
      requires Valid() && chains != [] && chains[lwdp].data != [] && totalLen + |data| <= SIZE_MAX
      modifies this`chains, this`lwdp, this`totalLen
      ensures Valid() && (old(Dense()) && data != [] ==> Dense())
      ensures ok <==> memory && |data| <= MAX_CAPACITY
      ensures Contents() == if ok then data + old(Contents()) else old(Contents())
    {
      var tmp := ChainNew(|data|);
      if !memory || tmp.None? {
        return false;
      }
      LinkFront(Prepended(AllPad(tmp.value), data));
      return true;
    }

    /** Makes chain j the first one. No link inside a dropped chain may be last_with_datap. */
    method DropChains(j: nat)
      requires j <= |chains| && (lwdp == 0 || lwdp > j)
      modifies this`chains, this`lwdp
      ensures chains == old(chains)[j..]
      ensures lwdp == if old(lwdp) == 0 then 0 else old(lwdp) - j
    {
      chains := chains[j..];
      lwdp := if lwdp == 0 then 0 else lwdp - j;
    }

    /** Removes the first min(len, length) bytes. */
    method Drain(len: nat) returns (ok: bool)
      requires Valid()
      modifies this`chains, this`lwdp, this`totalLen
      ensures Valid() && (old(Dense()) ==> Dense())
      ensures ok <==> old(totalLen) == 0 || !freezeStart
      ensures ok ==> Contents() == if len < |old(Contents())| then old(Contents())[len..] else []
      ensures !ok ==> chains == old(chains)
      ensures ok && len < old(totalLen) && len < |old(chains)[0].data| ==>
                chains == old(chains)[0 := Dropped(old(chains)[0], len)]
    {
      if totalLen == 0 {
        return true;
      }
      if freezeStart {
        return false;
      }
      if len >= totalLen {
        chains, lwdp, totalLen := [], 0, 0;
        return true;
      }
      DrainSome(len);
      return true;
    }

    /** Drains fewer bytes than there are. */
    method DrainSome(len: nat)
      requires Valid() && len < totalLen
      modifies this`chains, this`lwdp, this`totalLen
      ensures Valid() && (old(Dense()) ==> Dense())
      ensures Contents() == old(Contents())[len..]
      ensures len < |old(chains)[0].data| ==> chains == old(chains)[0 := Dropped(old(chains)[0], len)]
    {
      totalLen := totalLen - len;
      FlatUpToLast(chains, lwdp);
      ghost var top := lwdp;
      var i, remaining;
      i, remaining, lwdp := DrainWalk(chains, lwdp, len);
      FrontCut(chains, top, i, remaining);
      DropChains(i);
      chains := chains[0 := Dropped(chains[0], remaining)];
    }

    /** Copies out the first min(datlen, length) bytes. */
    method CopyOut(datlen: nat) returns (r: Option<Bytes>)
      requires Valid()
      ensures r.None? <==> freezeStart && datlen > 0 && totalLen > 0
      ensures r.Some? ==> r.value == if datlen < |Contents()| then Contents()[..datlen] else Contents()
    {
      var n := if datlen > totalLen then totalLen else datlen;
      if n == 0 {
        return Some([]);
      }
      if freezeStart {
        return None;
      }
      var out: Bytes := [];
      var i := 0;
      var left := n;
      while left > 0 && left >= |chains[i].data|
        invariant i <= |chains| && out == Flat(chains[..i]) && left == n - |out| >= 0
        invariant left > 0 ==> i < |chains|
        decreases |chains| - i
      {
        FlatAt(chains, i);
        out := out + chains[i].data;
        left := left - |chains[i].data|;
        i := i + 1;
        FlatCut(chains, i);
        if left > 0 {
          FlatNonempty(chains, i, n);
        }
      }
      FlatCut(chains, i);
      if left > 0 {
        FlatAt(chains, i);
        PrefixOf(Flat(chains[..i]), chains[i].data, Flat(chains[i + 1..]), left);
        out := out + chains[i].data[..left];
      }
      assert out == Contents()[..n];
      return Some(out);
    }

    /** Copies out and drains the first min(datlen, length) bytes. */
    method Remove(datlen: nat) returns (r: Option<Bytes>)
      requires Valid()
      modifies this`chains, this`lwdp, this`totalLen
      ensures Valid() && (old(Dense()) ==> Dense())
      ensures r.None? <==> freezeStart && datlen > 0 && old(totalLen) > 0
      ensures r.None? ==> chains == old(chains)
      ensures r.Some? ==> |r.value| == (if datlen < |old(Contents())| then datlen else |old(Contents())|)
      ensures r.Some? ==> r.value + Contents() == old(Contents())
    {
      r := CopyOut(datlen);
      if r.Some? && |r.value| > 0 {
        var ok := Drain(|r.value|);
      }
    }

    /** Makes the first `size` bytes (all of them for a negative size) contiguous. */
    method Pullup(size: int) returns (r: Option<Bytes>)
      requires Valid()
      modifies this`chains, this`lwdp
      ensures Valid() && Contents() == old(Contents()) && (old(Dense()) ==> Dense())
      ensures var n := if size < 0 then totalLen else size;
              r.None? <==> n == 0 || n > totalLen || n > MAX_CAPACITY
      ensures r.Some? ==> |r.value| == (if size < 0 then totalLen else size)
      ensures r.Some? ==> chains != [] && r.value <= chains[0].data && r.value <= Contents()
      ensures r.None? ==> chains == old(chains)
    {
      var n := if size < 0 then totalLen else size;
      if n == 0 || n > totalLen {
        return None;
      }
      FlatAt(chains, 0);
      var head := chains[0];
      if |head.data| >= n {
        return Some(head.data[..n]);
      }
      FlatUpToLast(chains, lwdp);
      if Capacity(head) - |head.pad| >= n {
        Gather(head, 1, n);
      } else {
        var fresh_ := ChainNew(n);
        if fresh_.None? {
          return None;
        }
        Gather(fresh_.value, 0, n);
      }
      FlatAt(chains, 0);
      return Some(chains[0].data[..n]);
    }

    /** Gathers n bytes into one chain, freeing every chain that is emptied. */
    method Gather(into: Chain, start: nat, n: nat)
      requires Valid() && start <= lwdp < |chains| && 0 < lwdp
      requires Ok(into) && into.data == Flat(chains[..start])
      requires |into.data| < n <= totalLen && n <= |into.data| + |into.room|
      modifies this`chains, this`lwdp
      ensures Valid() && Contents() == old(Contents()) && (old(Dense()) ==> Dense())
      ensures chains != [] && |chains[0].data| == n
    {
      var cs, k := chains, lwdp;
      var tmp, i, removedLwd, removedLwdp := CopyWhole(cs, k, into, start, n);
      if i < |cs| {
        var r := n - |tmp.data|;
        var full := Appended(tmp, cs[i].data[..r]);
        Gathered(cs, k, i, r, full);
        chains := [full] + cs[i..][0 := Dropped(cs[i], r)];
      } else {
        assert cs[..i] == cs;
        FlatSingle(tmp);
        chains := [tmp];
      }
      if removedLwd {
        lwdp := 0;
      } else if removedLwdp {
        if |chains| > 1 && chains[1].data != [] {
          lwdp := 1;
        } else {
          assert false;
        }
      } else {
        // The same link, renumbered.
        lwdp := k - i + 1;
      }
    }
  }

  /** Skips the chains that are drained whole, keeping last_with_datap out of them. */
  method DrainWalk(cs: seq<Chain>, k: nat, len: nat) returns (i: nat, remaining: nat, link: nat)
    requires k < |cs| && |Flat(cs[..k])| + |cs[k].data| > len
    ensures i <= k && remaining < |cs[i].data| && |Flat(cs[..i])| + remaining == len
    ensures link == if i == k then 0 else k
  {
    i, remaining, link := 0, len, k;
    while remaining >= |cs[i].data|
      invariant i <= k && |Flat(cs[..i])| + remaining == len
      invariant link == if i == k then 0 else k
      decreases k - i
    {
      FlatAt(cs, i);
      remaining := remaining - |cs[i].data|;
      if i == link || i + 1 == link {
        link := 0;
      }
      i := i + 1;
    }
  }

  /** Copies whole chains from `start` on while n bytes are not exceeded; notes whether the
      last chain with data, or the link that leads to it, is among them. */
  method CopyWhole(cs: seq<Chain>, k: nat, into: Chain, start: nat, n: nat)
    returns (tmp: Chain, i: nat, removedLwd: bool, removedLwdp: bool)
    requires start <= |cs| && Ok(into) && into.data == Flat(cs[..start])
    requires |into.data| <= n <= |into.data| + |into.room|
    ensures start <= i <= |cs| && Ok(tmp) && tmp.data == Flat(cs[..i])
    ensures |tmp.data| <= n <= |tmp.data| + |tmp.room|
    ensures i < |cs| ==> n - |tmp.data| < |cs[i].data|
    ensures removedLwd <==> start <= k < i
    ensures removedLwdp <==> start < k <= i
  {
    tmp, i := into, start;
    removedLwd, removedLwdp := false, false;
    while i < |cs| && n - |tmp.data| >= |cs[i].data|
      invariant start <= i <= |cs| && Ok(tmp)
      invariant tmp.data == Flat(cs[..i]) && |tmp.data| <= n <= |tmp.data| + |tmp.room|
      invariant removedLwd <==> start <= k < i
      invariant removedLwdp <==> start < k <= i
    {
      FlatAt(cs, i);
      tmp := Appended(tmp, cs[i].data);
      if i == k {
        removedLwd := true;
      }
      if i + 1 == k {
        removedLwdp := true;
      }
      i := i + 1;
    }
  }
}
