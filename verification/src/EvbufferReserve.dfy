/** Making room at the end of an evbuffer, and the two-phase append: reserve space,
    let the caller write into it, commit what was written. */
module EvbufferReserve {
  import opened IdLists
  import opened Chunks
  import opened Evbuffer
  import opened EvbufferMoves

  /** Chains with the same live bytes stand for the same byte string. */
  lemma {:induction false} SameData(a: seq<Chain>, b: seq<Chain>)
    requires |a| == |b| && forall i :: 0 <= i < |a| ==> a[i].data == b[i].data
    ensures Flat(a) == Flat(b)
  {
    if a != [] {
      SameData(a[1..], b[1..]);
    }
  }

  /** Replacing a chain by one with the same live bytes. */
  method ReplaceChain(buf: EvBuffer, i: nat, c: Chain)
    requires buf.Valid() && i < |buf.chains| && Ok(c) && c.data == buf.chains[i].data
    modifies buf`chains
    ensures buf.Valid() && buf.Contents() == old(buf.Contents()) && (old(buf.Dense()) ==> buf.Dense())
    ensures buf.chains == old(buf.chains)[i := c]
  {
    SameData(buf.chains, buf.chains[i := c]);
    buf.chains := buf.chains[i := c];
  }

  /** Appends a new empty chain with the given room. */
  method InsertNew(buf: EvBuffer, datlen: nat) returns (r: Option<nat>)
    requires buf.Valid()
    modifies buf`chains, buf`lwdp, buf`totalLen
    ensures buf.Valid() && buf.Contents() == old(buf.Contents()) && (old(buf.Dense()) ==> buf.Dense())
    ensures r.None? <==> datlen > MAX_CAPACITY
    ensures r.None? ==> buf.chains == old(buf.chains)
    ensures r.Some? ==> r.value == |buf.chains| - 1 && buf.lwdp <= r.value <= buf.lwdp + 1
    ensures r.Some? ==> FreshChain(buf.chains[r.value], datlen)
    ensures r.Some? && old(buf.chains) == [] ==> |buf.chains| == 1
  {
    var c := ChainNew(datlen);
    if c.None? {
      return None;
    }
    buf.ChainInsert(c.value);
    return Some(|buf.chains| - 1);
  }

  /** The last chain with data has some room but too little, cannot be realigned and is not
      worth resizing, and the chain behind it is big enough but is not the last one. */
  predicate PassesOver(cs: seq<Chain>, k: nat, datlen: nat) {
    && k + 2 < |cs| && cs[k].data != [] && 0 < |cs[k].room| < datlen
    && !ShouldRealign(cs[k], datlen)
    && (|cs[k].room| < Capacity(cs[k]) / 8 || |cs[k].data| > MAX_TO_COPY || datlen >= CHAIN_MAX - |cs[k].data|)
    && |cs[k + 1].room| >= datlen
  }

  /** Makes datlen bytes of contiguous room behind the data and returns the chain that has it. */
  method ExpandSingleChain(buf: EvBuffer, datlen: nat) returns (r: Option<nat>)
    requires buf.Valid()
    modifies buf`chains, buf`lwdp, buf`totalLen
    ensures buf.Valid() && buf.Contents() == old(buf.Contents()) && (old(buf.Dense()) ==> buf.Dense())
    ensures r.Some? ==> buf.lwdp <= r.value <= buf.lwdp + 1 && r.value < |buf.chains|
    ensures r.Some? ==> |buf.chains[r.value].room| >= datlen
    ensures r.None? ==> buf.chains == old(buf.chains)
    ensures datlen <= MAX_CAPACITY - MAX_TO_COPY ==> r.Some?
    ensures datlen >= CHAIN_MAX ==> r.None?
    ensures r.Some? ==>
              (r.value == |buf.chains| - 1 || r.value == FirstRoom(buf.chains, buf.lwdp) <==>
               !PassesOver(old(buf.chains), old(buf.lwdp), datlen))
  {
    var i := buf.lwdp;
    if i < |buf.chains| && buf.chains[i].room == [] {
      i := i + 1;
    }
    if i == |buf.chains| {
      r := InsertNew(buf, datlen);
      return;
    }
    var c := buf.chains[i];
    if |c.room| >= datlen {
      return Some(i);
    }
    if c.data == [] {
      r := InsertNew(buf, datlen);
      return;
    }
    if ShouldRealign(c, datlen) {
      ReplaceChain(buf, i, Aligned(c));
      return Some(i);
    }
    r := ResizeOrSkip(buf, datlen);
  }

  /** The last chain with data has too little room: copy it into a larger one, or use the next
      chain, or add one. */
  method ResizeOrSkip(buf: EvBuffer, datlen: nat) returns (r: Option<nat>)
    requires buf.Valid() && buf.lwdp < |buf.chains|
    requires
      && var c := buf.chains[buf.lwdp];
      && c.data != [] && 0 < |c.room| < datlen && !ShouldRealign(c, datlen)
    modifies buf`chains, buf`lwdp, buf`totalLen
    ensures buf.Valid() && buf.Contents() == old(buf.Contents()) && (old(buf.Dense()) ==> buf.Dense())
    ensures r.Some? ==> buf.lwdp <= r.value <= buf.lwdp + 1 && r.value < |buf.chains|
    ensures r.Some? ==> |buf.chains[r.value].room| >= datlen
    ensures r.None? ==> buf.chains == old(buf.chains)
    ensures datlen <= MAX_CAPACITY - MAX_TO_COPY ==> r.Some?
    ensures datlen >= CHAIN_MAX ==> r.None?
    ensures r.Some? ==>
              (r.value == |buf.chains| - 1 || r.value == FirstRoom(buf.chains, buf.lwdp) <==>
               !PassesOver(old(buf.chains), old(buf.lwdp), datlen))
  {
    var i := buf.lwdp;
    var c := buf.chains[i];
    if |c.room| < Capacity(c) / 8 || |c.data| > MAX_TO_COPY || datlen >= CHAIN_MAX - |c.data| {
      if i + 1 < |buf.chains| && |buf.chains[i + 1].room| >= datlen {
        return Some(i + 1);
      }
      r := InsertNew(buf, datlen);
      return;
    }
    var tmp := ChainNew(|c.data| + datlen);
    if tmp.None? {
      return None;
    }
    ReplaceChain(buf, i, Appended(tmp.value, c.data));
    return Some(i);
  }

  /** The room in chains a..b. */
  function RoomSum(cs: seq<Chain>, a: nat, b: nat): nat
    requires a <= b <= |cs|
  {
    if a == b then 0 else RoomSum(cs, a, b - 1) + |cs[b - 1].room|
  }

  lemma {:induction false} RoomSumSame(a: seq<Chain>, b: seq<Chain>, lo: nat, hi: nat)
    requires lo <= hi <= |a| && hi <= |b|
    requires forall i :: lo <= i < hi ==> |a[i].room| == |b[i].room|
    ensures RoomSum(a, lo, hi) == RoomSum(b, lo, hi)
  {
    if lo < hi {
      RoomSumSame(a, b, lo, hi - 1);
    }
  }

  lemma {:induction false} RoomSumMonotone(cs: seq<Chain>, lo: nat, mid: nat, hi: nat)
    requires lo <= mid <= hi <= |cs|
    ensures RoomSum(cs, lo, mid) <= RoomSum(cs, lo, hi)
  {
    if mid < hi {
      RoomSumMonotone(cs, lo, mid, hi - 1);
    }
  }

  /** The first chain with room at or behind the last chain with data. */
  function FirstRoom(cs: seq<Chain>, k: nat): nat
    requires k < |cs|
  {
    if cs[k].room == [] then k + 1 else k
  }

  /** The end of the first n chains with room. */
  function VecEnd(cs: seq<Chain>, k: nat, n: nat): nat
    requires k < |cs|
  {
    if FirstRoom(cs, k) + n <= |cs| then FirstRoom(cs, k) + n else |cs|
  }

  /** The lists agree on live bytes and memory sizes. */
  ghost predicate SameShape(a: seq<Chain>, b: seq<Chain>) {
    && |a| == |b|
    && (forall i :: 0 <= i < |a| ==> a[i].data == b[i].data && Capacity(a[i]) == Capacity(b[i]))
  }

  lemma SameShapeKeeps(a: seq<Chain>, b: seq<Chain>, k: nat)
    requires SameShape(a, b) && AllOk(a) && LastWithData(a, k)
    ensures AllOk(b) && LastWithData(b, k) && Flat(a) == Flat(b)
  {
    SameData(a, b);
  }

  /** No chain has a gap in front of its data. */
  ghost predicate NoPad(cs: seq<Chain>) {
    forall i :: 0 <= i < |cs| ==> cs[i].pad == []
  }

  /** Every empty chain from k up to chain `upto` has room. */
  ghost predicate Roomy(cs: seq<Chain>, k: nat, upto: nat) {
    forall i :: k <= i < upto && i < |cs| && cs[i].data == [] ==> cs[i].room != []
  }

  /** The chains from k up to chain `upto`, of which at most n have room, have room for datlen
      bytes, and none of them is empty without room. */
  ghost predicate Offers(cs: seq<Chain>, k: nat, datlen: nat, n: nat, upto: nat)
    requires k < |cs|
  {
    k < upto <= VecEnd(cs, k, n) && RoomSum(cs, k, upto) >= datlen && Roomy(cs, k, upto)
  }

  /** Realigning an empty chain makes room and changes nothing else. */
  lemma Realigned(cs: seq<Chain>, r: seq<Chain>, k: nat, i: nat)
    requires AllOk(cs) && SameShape(cs, r) && k <= i < |r| && r[i].data == [] && Roomy(r, k, i)
    requires NoPad(cs) ==> r == cs
    ensures
      && var r' := r[i := AllRoom(r[i])];
      && SameShape(cs, r') && Roomy(r', k, i + 1) && (NoPad(cs) ==> r' == cs)
      && RoomSum(r', k, i) == RoomSum(r, k, i) && |r'[i].room| == Capacity(r[i]) > 0
  {
    var r' := r[i := AllRoom(r[i])];
    RoomSumSame(r, r', k, i);
    if NoPad(cs) {
      assert AllRoom(r[i]) == r[i];
    }
  }

  /** Looks for datlen bytes of room in the first n chains with room, realigning empty ones. */
  method ScanRoom(cs: seq<Chain>, k: nat, datlen: nat, n: nat)
    returns (r: seq<Chain>, avail: nat, used: nat, enough: bool, ghost upto: nat)
    requires AllOk(cs) && LastWithData(cs, k) && k < |cs| && 2 <= n
    ensures SameShape(cs, r)
    ensures k < upto <= |r| && Roomy(r, k, upto)
    ensures enough ==> Offers(r, k, datlen, n, upto)
    ensures !enough && used < n ==> upto == |r|
    ensures !enough ==> avail < datlen && used <= n
    ensures !enough && used < n ==> avail == RoomSum(r, k, |r|) && FirstRoom(r, k) + used == |r|
    ensures !enough ==> |r[k].room| < datlen && used <= |r| - k
    ensures NoPad(cs) ==> r == cs
  {
    r, avail, used := cs, 0, 0;
    var i := k;
    while i < |r|
      invariant k <= i <= |r| && SameShape(cs, r) && used < n && used <= i - k
      invariant NoPad(cs) ==> r == cs
      invariant Roomy(r, k, i)
      invariant avail == RoomSum(r, k, i) && (i > k ==> avail < datlen && |r[k].room| < datlen)
      invariant if i == k then used == 0 else FirstRoom(r, k) + used == i
    {
      var c := r[i];
      ghost var before := r;
      if c.data != [] {
        if c.room != [] {
          avail := avail + |c.room|;
          used := used + 1;
        }
      } else {
        r := r[i := AllRoom(c)];
        Realigned(cs, before, k, i);
        avail := avail + Capacity(c);
        used := used + 1;
      }
      i := i + 1;
      if avail >= datlen {
        enough, upto := true, i;
        return;
      }
      RoomSumMonotone(r, k, k + 1, i);
      if used == n {
        break;
      }
    }
    enough, upto := false, i;
  }

  /** Fewer than n chains from the last one with data on have room, and too little of it. */
  ghost predicate Short(cs: seq<Chain>, k: nat, datlen: nat, n: nat) {
    && k < |cs| < k + n && NoPad(cs)
    && RoomSum(cs, k, |cs|) < datlen
  }

  /** The list `cs` with one more chain for the bytes it has no room for. */
  ghost predicate Extended(cs: seq<Chain>, k: nat, datlen: nat, after: seq<Chain>) {
    && |after| == |cs| + 1 && after[..|cs|] == cs
    && k <= |cs| && RoomSum(cs, k, |cs|) <= datlen
    && FreshChain(after[|cs|], datlen - RoomSum(cs, k, |cs|))
  }

  /** Makes datlen bytes of room available in the first n chains with room, moving no data. */
  method ExpandFast(buf: EvBuffer, datlen: nat, n: nat) returns (ok: bool, ghost upto: nat)
    requires buf.Valid() && 2 <= n
    modifies buf`chains, buf`lwdp, buf`totalLen
    ensures buf.Valid() && buf.Contents() == old(buf.Contents()) && (old(buf.Dense()) ==> buf.Dense())
    ensures ok ==> buf.lwdp < |buf.chains| && Offers(buf.chains, buf.lwdp, datlen, n, upto)
    ensures datlen <= MAX_CAPACITY ==> ok
    ensures ok && old(buf.chains) == [] ==> |buf.chains| == 1 && FreshChain(buf.chains[0], datlen)
    ensures ok && old(Short(buf.chains, buf.lwdp, datlen, n)) ==>
              Extended(old(buf.chains), old(buf.lwdp), datlen, buf.chains) && buf.lwdp == old(buf.lwdp)
  {
    if buf.chains == [] {
      var c := InsertNew(buf, datlen);
      if c.Some? {
        FreshOffers(buf.chains, datlen, n);
      }
      return c.Some?, 1;
    }
    var k := buf.lwdp;
    var cs, avail, used, enough;
    cs, avail, used, enough, upto := ScanRoom(buf.chains, k, datlen, n);
    SameShapeKeeps(buf.chains, cs, k);
    RoomSumMonotone(cs, k, upto, |cs|);
    buf.chains := cs;
    if enough {
      ok := true;
    } else if used < n {
      ok, upto := AppendRoom(buf, datlen, n, avail);
    } else {
      ok, upto := ReplaceRoom(buf, datlen, n);
    }
  }

  /** A list of one chain made for datlen bytes. */
  lemma FreshOffers(cs: seq<Chain>, datlen: nat, n: nat)
    requires |cs| == 1 && FreshChain(cs[0], datlen) && n > 0
    ensures Offers(cs, 0, datlen, n, 1)
  {
    assert RoomSum(cs, 0, 1) == RoomSum(cs, 0, 0) + |cs[0].room|;
  }

  /** Links one more empty chain for the bytes there is no room for. */
  method AppendRoom(buf: EvBuffer, datlen: nat, n: nat, avail: nat) returns (ok: bool, ghost upto: nat)
    requires buf.Valid() && buf.lwdp < |buf.chains| < FirstRoom(buf.chains, buf.lwdp) + n
    requires avail == RoomSum(buf.chains, buf.lwdp, |buf.chains|) < datlen && Roomy(buf.chains, buf.lwdp, |buf.chains|)
    modifies buf`chains
    ensures buf.Valid() && buf.Contents() == old(buf.Contents()) && (old(buf.Dense()) ==> buf.Dense())
    ensures ok ==> buf.lwdp < |buf.chains| && Offers(buf.chains, buf.lwdp, datlen, n, upto)
    ensures datlen <= MAX_CAPACITY ==> ok
    ensures ok ==> Extended(old(buf.chains), buf.lwdp, datlen, buf.chains)
  {
    var tmp := ChainNew(datlen - avail);
    if tmp.None? {
      return false, 0;
    }
    LinkRoom(buf.chains, buf.lwdp, tmp.value);
    buf.chains := buf.chains + [tmp.value];
    return true, |buf.chains|;
  }

  /** An empty chain at the end adds its room and nothing else. */
  lemma LinkRoom(cs: seq<Chain>, k: nat, c: Chain)
    requires AllOk(cs) && LastWithData(cs, k) && k < |cs| && Ok(c) && c.data == []
    ensures AllOk(cs + [c]) && LastWithData(cs + [c], k) && Flat(cs + [c]) == Flat(cs)
    ensures RoomSum(cs + [c], k, |cs| + 1) == RoomSum(cs, k, |cs|) + |c.room|
  {
    FlatSnoc(cs, c);
    RoomSumSame(cs, cs + [c], k, |cs|);
  }

  /** Replaces all empty chains by one that is big enough. */
  method ReplaceRoom(buf: EvBuffer, datlen: nat, n: nat) returns (ok: bool, ghost upto: nat)
    requires buf.Valid() && buf.lwdp < |buf.chains| && 2 <= n
    requires |buf.chains[buf.lwdp].room| < datlen
    modifies buf`chains, buf`lwdp, buf`totalLen
    ensures buf.Valid() && buf.Contents() == old(buf.Contents()) && (old(buf.Dense()) ==> buf.Dense())
    ensures ok ==> buf.lwdp < |buf.chains| && Offers(buf.chains, buf.lwdp, datlen, n, upto)
    ensures datlen <= MAX_CAPACITY ==> ok
  {
    var k := buf.lwdp;
    if buf.chains[k].data == [] {
      FlatTrailing(buf.chains, k);
      var tmp := ChainNew(datlen);
      if tmp.None? {
        buf.chains, buf.lwdp, buf.totalLen := [], 0, 0;
        return false, 0;
      }
      FlatSingle(tmp.value);
      buf.chains, buf.lwdp := [tmp.value], 0;
      FreshOffers(buf.chains, datlen, n);
      return true, 1;
    }
    CutAtLast(buf.chains, k);
    buf.chains := buf.chains[..k + 1];
    ok, upto := AppendRoom(buf, datlen, n, |buf.chains[k].room|);
  }

  /** Cutting the chains behind the last one with data. */
  lemma CutAtLast(cs: seq<Chain>, k: nat)
    requires AllOk(cs) && LastWithData(cs, k) && k < |cs| && cs[k].data != []
    ensures AllOk(cs[..k + 1]) && LastWithData(cs[..k + 1], k) && Flat(cs[..k + 1]) == Flat(cs)
    ensures RoomSum(cs[..k + 1], k, k + 1) == |cs[k].room|
  {
    FlatTrailing(cs, k + 1);
    var t := cs[..k + 1];
    assert RoomSum(t, k, k + 1) == RoomSum(t, k, k) + |t[k].room|;
  }

  /** A vector handed to the caller: the chain and the offset into its memory that iov_base
      points at, and the number of bytes there. */
  datatype Vec = Vec(chain: nat, base: nat, len: nat)

  /** The place where the next byte of a chain goes. */
  function SpacePtr(c: Chain): nat {
    |c.pad| + |c.data|
  }

  /** The vector points at the room of its chain and does not exceed it. */
  predicate Fits(cs: seq<Chain>, v: Vec) {
    && v.chain < |cs|
    && v.base == SpacePtr(cs[v.chain])
    && v.len <= |cs[v.chain].room|
  }

  /** The vectors describe the room of the chains from f on. */
  ghost predicate Describes(cs: seq<Chain>, f: nat, vecs: seq<Vec>) {
    forall i :: 0 <= i < |vecs| ==> vecs[i].chain == f + i && Fits(cs, vecs[i])
  }

  function TotalLen(vecs: seq<Vec>): nat {
    if vecs == [] then 0 else TotalLen(vecs[..|vecs| - 1]) + vecs[|vecs| - 1].len
  }

  /** Collects vectors for `howmuch` bytes of room. */
  method ReadSetupVecs(cs: seq<Chain>, k: nat, howmuch: nat, n: nat, ghost upto: nat) returns (vecs: seq<Vec>)
    requires k < |cs| && LastWithData(cs, k) && Offers(cs, k, howmuch, n, upto)
    ensures |vecs| <= n && Describes(cs, FirstRoom(cs, k), vecs)
    ensures forall v :: v in vecs ==> v.chain < |cs| && 0 < v.len == |cs[v.chain].room|
    ensures TotalLen(vecs) >= howmuch
  {
    var f := FirstRoom(cs, k);
    assert RoomSum(cs, k, f) == 0 by {
      if f == k + 1 {
        assert RoomSum(cs, k, k + 1) == RoomSum(cs, k, k) + |cs[k].room|;
      }
    }
    vecs := [];
    var soFar := 0;
    var j := f;
    while j < f + n && soFar < howmuch
      invariant f <= j <= f + n && j <= |cs| && |vecs| == j - f
      invariant soFar == TotalLen(vecs) == RoomSum(cs, k, j)
      invariant Describes(cs, f, vecs)
      invariant forall v :: v in vecs ==> v.chain < |cs| && 0 < v.len == |cs[v.chain].room|
    {
      NotYet(cs, k, j, howmuch, upto);
      var c := cs[j];
      TotalLenSnoc(vecs, Vec(j, SpacePtr(c), |c.room|));
      vecs := vecs + [Vec(j, SpacePtr(c), |c.room|)];
      soFar := soFar + |c.room|;
      j := j + 1;
    }
    if upto <= j {
      RoomSumMonotone(cs, k, upto, j);
    }
  }

  /** While there is too little room before chain j, it is one that offers some. */
  lemma NotYet(cs: seq<Chain>, k: nat, j: nat, howmuch: nat, upto: nat)
    requires k <= j <= |cs| && k < upto <= |cs|
    requires RoomSum(cs, k, j) < howmuch <= RoomSum(cs, k, upto)
    ensures j < upto
  {
    if upto <= j {
      RoomSumMonotone(cs, k, upto, j);
    }
  }

  lemma TotalLenSnoc(vecs: seq<Vec>, v: Vec)
    ensures TotalLen(vecs + [v]) == TotalLen(vecs) + v.len
  {
    assert (vecs + [v])[..|vecs|] == vecs;
  }

  /** A single vector that is the room of the very last chain. */
  ghost predicate IsLastRoom(cs: seq<Chain>, vecs: seq<Vec>) {
    |vecs| == 1 && cs != [] && vecs[0].chain == |cs| - 1 && vecs[0].base == SpacePtr(cs[|cs| - 1])
  }

  ghost predicate AllFit(cs: seq<Chain>, vecs: seq<Vec>) {
    forall i :: 0 <= i < |vecs| ==> Fits(cs, vecs[i])
  }

  /** The vectors that a commit accepts: none, the room of the last chain, or the rooms of
      consecutive chains from the first one with room on. */
  ghost predicate Commits(cs: seq<Chain>, k: nat, vecs: seq<Vec>)
    requires LinkOk(cs, k)
  {
    || vecs == []
    || (IsLastRoom(cs, vecs) && AllFit(cs, vecs))
    || (cs != [] && Describes(cs, FirstRoom(cs, k), vecs))
  }

  /** Reserves room for `size` bytes in at most nVecs pieces, leaving the contents alone. A
      reservation of one piece can be committed unless the chain that has it was passed over. */
  method ReserveSpace(buf: EvBuffer, size: int, nVecs: int) returns (r: Option<seq<Vec>>)
    requires buf.Valid() && -0x8000_0000_0000_0000 <= size < 0x8000_0000_0000_0000
    modifies buf`chains, buf`lwdp, buf`totalLen
    ensures buf.Valid() && buf.Contents() == old(buf.Contents()) && (old(buf.Dense()) ==> buf.Dense())
    ensures buf.freezeEnd || nVecs < 1 ==> r.None? && buf.chains == old(buf.chains)
    ensures r.Some? ==> 0 <= size <= TotalLen(r.value) && |r.value| <= nVecs
    ensures r.Some? && nVecs >= 2 && r.value != [] ==>
              buf.lwdp < |buf.chains| && Describes(buf.chains, FirstRoom(buf.chains, buf.lwdp), r.value)
    ensures r.Some? && nVecs == 1 ==>
              |r.value| == 1 && Describes(buf.chains, r.value[0].chain, r.value) && buf.lwdp <= r.value[0].chain <= buf.lwdp + 1
    ensures r.Some? && nVecs == 1 ==>
              (Commits(buf.chains, buf.lwdp, r.value) <==> !PassesOver(old(buf.chains), old(buf.lwdp), size))
    ensures r.Some? && nVecs >= 2 ==>
              && (forall v :: v in r.value ==> v.len > 0)
              && buf.lwdp < |buf.chains| && (buf.chains[buf.lwdp].data == [] ==> buf.chains[buf.lwdp].room != [])
    ensures r.Some? && nVecs >= 2 && old(buf.chains) == [] ==> |buf.chains| == 1 && FreshChain(buf.chains[0], size)
    ensures r.Some? && nVecs >= 2 && old(Short(buf.chains, buf.lwdp, size, nVecs)) ==>
              Extended(old(buf.chains), old(buf.lwdp), size, buf.chains) && buf.lwdp == old(buf.lwdp)
    ensures 0 <= size <= MAX_CAPACITY - MAX_TO_COPY && !buf.freezeEnd && 1 <= nVecs ==> r.Some?
  {
    if buf.freezeEnd || nVecs < 1 {
      return None;
    }
    // A negative size is passed on as an unsigned word.
    var want := if size < 0 then size + 0x1_0000_0000_0000_0000 else size;
    if nVecs == 1 {
      var i := ExpandSingleChain(buf, want);
      if i.None? {
        return None;
      }
      var c := buf.chains[i.value];
      r := Some([Vec(i.value, SpacePtr(c), |c.room|)]);
      assert TotalLen(r.value) == TotalLen(r.value[..0]) + |c.room|;
    } else {
      var ok;
      ghost var upto;
      ok, upto := ExpandFast(buf, want, nVecs);
      if !ok || size < 0 {
        return None;
      }
      var vecs := ReadSetupVecs(buf.chains, buf.lwdp, size, nVecs, upto);
      r := Some(vecs);
    }
  }

  /** The caller writes into a reserved piece. */
  method WriteVec(buf: EvBuffer, i: nat, bytes: Bytes)
    requires buf.Valid() && i < |buf.chains| && |bytes| <= |buf.chains[i].room|
    modifies buf`chains
    ensures buf.Valid() && buf.Contents() == old(buf.Contents()) && (old(buf.Dense()) ==> buf.Dense())
    ensures |buf.chains| == |old(buf.chains)|
    ensures buf.chains[i] == Written(old(buf.chains)[i], bytes)
    ensures forall j :: 0 <= j < |buf.chains| && j != i ==> buf.chains[j] == old(buf.chains)[j]
  {
    ReplaceChain(buf, i, Written(buf.chains[i], bytes));
  }

  function Written(c: Chain, bytes: Bytes): Chain
    requires |bytes| <= |c.room|
  {
    c.(room := bytes + c.room[|bytes|..])
  }

  /** A chain after its off field grew by n: what was written into its room is live. */
  function Committed(c: Chain, n: nat): Chain
    requires n <= |c.room|
  {
    Chain(c.pad, c.data + c.room[..n], c.room[n..])
  }

  /** Committing touches no memory. */
  lemma CommittedKeepsMemory(c: Chain, n: nat)
    requires n <= |c.room|
    ensures Memory(Committed(c, n)) == Memory(c)
  {
    assert c.room == c.room[..n] + c.room[n..];
  }

  /** The list after the pieces became live, each in its own chain from f on. */
  ghost predicate Live(cs: seq<Chain>, f: nat, vecs: seq<Vec>, after: seq<Chain>)
    requires Describes(cs, f, vecs)
  {
    && |after| == |cs|
    && forall j :: 0 <= j < |cs| ==> after[j] == LiveChain(cs, f, vecs, j)
  }

  ghost function LiveChain(cs: seq<Chain>, f: nat, vecs: seq<Vec>, j: nat): Chain
    requires Describes(cs, f, vecs) && j < |cs|
  {
    if f <= j < f + |vecs| then
      assert Fits(cs, vecs[j - f]);
      Committed(cs[j], vecs[j - f].len)
    else cs[j]
  }

  /** One more piece. */
  lemma LiveNext(cs: seq<Chain>, f: nat, vecs: seq<Vec>, i: nat, r: seq<Chain>)
    requires Describes(cs, f, vecs) && i < |vecs| && Live(cs, f, vecs[..i], r)
    ensures f + i < |cs| && r[f + i] == cs[f + i] && vecs[i].len <= |cs[f + i].room|
    ensures Live(cs, f, vecs[..i + 1], r[f + i := Committed(cs[f + i], vecs[i].len)])
  {
    assert Fits(cs, vecs[i]);
    var r' := r[f + i := Committed(cs[f + i], vecs[i].len)];
    forall j | 0 <= j < |cs|
      ensures r'[j] == LiveChain(cs, f, vecs[..i + 1], j)
    {
      assert r[j] == LiveChain(cs, f, vecs[..i], j);
    }
  }

  /** The bytes in the first len bytes of each piece, in order. */
  ghost function VecBytes(cs: seq<Chain>, vecs: seq<Vec>): Bytes
    requires AllFit(cs, vecs)
  {
    if vecs == [] then []
    else
      var v := vecs[|vecs| - 1];
      VecBytes(cs, vecs[..|vecs| - 1]) + cs[v.chain].room[..v.len]
  }

  lemma {:induction false} VecBytesLen(cs: seq<Chain>, vecs: seq<Vec>)
    requires AllFit(cs, vecs)
    ensures |VecBytes(cs, vecs)| == TotalLen(vecs)
  {
    if vecs != [] {
      VecBytesLen(cs, vecs[..|vecs| - 1]);
    }
  }

  lemma VecBytesNext(cs: seq<Chain>, vecs: seq<Vec>, i: nat)
    requires AllFit(cs, vecs) && i < |vecs|
    ensures TotalLen(vecs[..i + 1]) == TotalLen(vecs[..i]) + vecs[i].len
    ensures Fits(cs, vecs[i])
    ensures Flat(cs) + VecBytes(cs, vecs[..i + 1]) == Flat(cs) + VecBytes(cs, vecs[..i]) + cs[vecs[i].chain].room[..vecs[i].len]
  {
    assert vecs[..i + 1][..i] == vecs[..i];
    Assoc(Flat(cs), VecBytes(cs, vecs[..i]), cs[vecs[i].chain].room[..vecs[i].len]);
  }

  /** Bytes that become live in an empty chain behind the data, or in the last chain with
      data, become the last bytes of all. */
  lemma CommitAt(cs: seq<Chain>, k: nat, j: nat, n: nat)
    requires AllOk(cs) && LastWithData(cs, k) && k <= j < |cs| && n <= |cs[j].room|
    ensures AllOk(cs[j := Committed(cs[j], n)])
    ensures LastWithData(cs[j := Committed(cs[j], n)], if n == 0 then k else j)
    ensures Flat(cs[j := Committed(cs[j], n)]) == Flat(cs) + cs[j].room[..n]
  {
    var c := Committed(cs[j], n);
    FlatUpdate(cs, j, c);
    FlatAt(cs, j);
    FlatEmpty(cs[j + 1..]);
    Assoc(Flat(cs[..j]), cs[j].data, cs[j].room[..n]);
    assert Flat(cs[..j]) + c.data + [] == Flat(cs[..j]) + c.data;
    assert Flat(cs[..j]) + cs[j].data + [] == Flat(cs[..j]) + cs[j].data;
  }

  /** First pass of the commit: are all vectors in bounds? */
  method CheckVecs(cs: seq<Chain>, f: nat, vecs: seq<Vec>) returns (ok: bool)
    ensures ok <==> Describes(cs, f, vecs)
  {
    for i := 0 to |vecs|
      invariant Describes(cs, f, vecs[..i])
    {
      if f + i >= |cs| {
        assert vecs[i].chain != f + i || !Fits(cs, vecs[i]);
        return false;
      }
      if vecs[i].chain != f + i || vecs[i].base != SpacePtr(cs[f + i]) || vecs[i].len > |cs[f + i].room| {
        return false;
      }
    }
    return true;
  }

  /** The list, the link and the count after the first i pieces became live. */
  ghost predicate LiveSoFar(cs: seq<Chain>, f: nat, vecs: seq<Vec>, i: nat, r: seq<Chain>, link: nat, added: nat)
    requires Describes(cs, f, vecs) && i <= |vecs|
  {
    && Live(cs, f, vecs[..i], r) && AllOk(r) && LastWithData(r, link) && link <= f + i
    && Flat(r) == Flat(cs) + VecBytes(cs, vecs[..i]) && added == TotalLen(vecs[..i])
  }

  lemma CommitNext(cs: seq<Chain>, f: nat, vecs: seq<Vec>, i: nat, r: seq<Chain>, link: nat, added: nat)
    requires Describes(cs, f, vecs) && i < |vecs| && LiveSoFar(cs, f, vecs, i, r, link, added)
    ensures f + i < |r| && vecs[i].len <= |r[f + i].room|
    ensures
      && var r' := r[f + i := Committed(r[f + i], vecs[i].len)];
      && LiveSoFar(cs, f, vecs, i + 1, r', if vecs[i].len > 0 then f + i else link, added + vecs[i].len)
  {
    LiveNext(cs, f, vecs, i, r);
    CommitAt(r, link, f + i, vecs[i].len);
    VecBytesNext(cs, vecs, i);
  }

  /** Second pass of the commit: makes the pieces live one by one. */
  method CommitVecs(cs: seq<Chain>, k: nat, f: nat, vecs: seq<Vec>) returns (r: seq<Chain>, link: nat, added: nat)
    requires AllOk(cs) && LastWithData(cs, k) && k <= f && Describes(cs, f, vecs)
    ensures AllOk(r) && LastWithData(r, link) && added == TotalLen(vecs)
    ensures Flat(r) == Flat(cs) + VecBytes(cs, vecs) && Live(cs, f, vecs, r)
  {
    r, link, added := cs, k, 0;
    assert Flat(cs) + [] == Flat(cs);
    for i := 0 to |vecs|
      invariant LiveSoFar(cs, f, vecs, i, r, link, added)
    {
      CommitNext(cs, f, vecs, i, r, link, added);
      r := r[f + i := Committed(r[f + i], vecs[i].len)];
      added := added + vecs[i].len;
      if vecs[i].len > 0 {
        link := f + i;
      }
    }
    assert vecs[..|vecs|] == vecs;
  }

  /** A single vector in the last chain, behind an empty chain that the link does not pass. */
  ghost predicate Strands(cs: seq<Chain>, k: nat, vecs: seq<Vec>) {
    IsLastRoom(cs, vecs) && vecs[0].len > 0 && k + 1 < |cs| - 1
  }

  /** Makes the bytes in the vectors live, all or nothing. The buffer stays in order unless a
      single vector strands the link; then only the link is wrong. */
  method CommitSpace(buf: EvBuffer, vecs: seq<Vec>) returns (ok: bool)
    requires buf.Valid() && buf.totalLen + TotalLen(vecs) <= SIZE_MAX
    modifies buf`chains, buf`lwdp, buf`totalLen
    ensures ok <==> !buf.freezeEnd && Commits(old(buf.chains), old(buf.lwdp), vecs)
    ensures ok ==> AllFit(old(buf.chains), vecs) && buf.Contents() == old(buf.Contents()) + VecBytes(old(buf.chains), vecs)
    ensures !ok || vecs == [] ==> buf.chains == old(buf.chains) && buf.lwdp == old(buf.lwdp)
    ensures buf.Valid() <==> !(ok && Strands(old(buf.chains), old(buf.lwdp), vecs))
    ensures buf.Valid() || buf.Lagging()
    ensures ok && vecs != [] ==> Live(old(buf.chains), vecs[0].chain, vecs, buf.chains)
  {
    if buf.freezeEnd {
      return false;
    }
    if vecs == [] {
      assert buf.Contents() + [] == buf.Contents();
      return true;
    }
    var n := |buf.chains|;
    if |vecs| == 1 && n > 0 && vecs[0].chain == n - 1 && vecs[0].base == SpacePtr(buf.chains[n - 1]) {
      ok := CommitLast(buf, vecs);
      return;
    }
    if buf.lwdp == n {
      assert !Fits(buf.chains, vecs[0]);
      return false;
    }
    ok := CommitMany(buf, vecs);
  }

  /** Commits pieces from the first chain with room on, after checking them all. */
  method CommitMany(buf: EvBuffer, vecs: seq<Vec>) returns (ok: bool)
    requires buf.Valid() && buf.lwdp < |buf.chains| && buf.totalLen + TotalLen(vecs) <= SIZE_MAX
    modifies buf`chains, buf`lwdp, buf`totalLen
    ensures buf.Valid()
    ensures ok <==> Describes(old(buf.chains), FirstRoom(old(buf.chains), old(buf.lwdp)), vecs)
    ensures ok ==> AllFit(old(buf.chains), vecs) && buf.Contents() == old(buf.Contents()) + VecBytes(old(buf.chains), vecs)
    ensures ok ==> Live(old(buf.chains), FirstRoom(old(buf.chains), old(buf.lwdp)), vecs, buf.chains)
    ensures !ok ==> buf.chains == old(buf.chains) && buf.lwdp == old(buf.lwdp)
  {
    var f := FirstRoom(buf.chains, buf.lwdp);
    var good := CheckVecs(buf.chains, f, vecs);
    if !good {
      return false;
    }
    var cs, link, added := CommitVecs(buf.chains, buf.lwdp, f, vecs);
    VecBytesLen(buf.chains, vecs);
    buf.chains, buf.lwdp, buf.totalLen := cs, link, buf.totalLen + added;
    return true;
  }

  method CommitLast(buf: EvBuffer, vecs: seq<Vec>) returns (ok: bool)
    requires buf.Valid() && buf.totalLen + TotalLen(vecs) <= SIZE_MAX
    requires IsLastRoom(buf.chains, vecs)
    modifies buf`chains, buf`lwdp, buf`totalLen
    ensures ok <==> AllFit(old(buf.chains), vecs)
    ensures ok ==> buf.Contents() == old(buf.Contents()) + VecBytes(old(buf.chains), vecs)
    ensures !ok ==> buf.chains == old(buf.chains) && buf.lwdp == old(buf.lwdp)
    ensures buf.Valid() <==> !(ok && Strands(old(buf.chains), old(buf.lwdp), vecs))
    ensures buf.Valid() || buf.Lagging()
    ensures ok && vecs != [] ==> Live(old(buf.chains), vecs[0].chain, vecs, buf.chains)
  {
    var n := vecs[0].len;
    var j := |buf.chains| - 1;
    if n > |buf.chains[j].room| {
      return false;
    }
    OneVec(buf.chains, vecs);
    CommitLastExact(buf.chains, buf.lwdp, n);
    buf.chains := buf.chains[j := Committed(buf.chains[j], n)];
    if n > 0 {
      buf.lwdp := AdvanceLastWithData(buf.chains, buf.lwdp);
    }
    buf.totalLen := buf.totalLen + n;
    return true;
  }

  lemma OneVec(cs: seq<Chain>, vecs: seq<Vec>)
    requires |vecs| == 1 && AllFit(cs, vecs)
    ensures TotalLen(vecs) == vecs[0].len && VecBytes(cs, vecs) == cs[vecs[0].chain].room[..vecs[0].len]
  {
    assert vecs[..0] == [];
    assert VecBytes(cs, vecs) == VecBytes(cs, vecs[..0]) + cs[vecs[0].chain].room[..vecs[0].len];
  }

  /** Committing n bytes of the last chain's room and advancing the link. */
  lemma CommitLastExact(cs: seq<Chain>, k: nat, n: nat)
    requires AllOk(cs) && LastWithData(cs, k) && cs != [] && n <= |cs[|cs| - 1].room|
    ensures
      && var after := cs[|cs| - 1 := Committed(cs[|cs| - 1], n)];
      && var link := if n > 0 then Advanced(after, k) else k;
      && AllOk(after) && Flat(after) == Flat(cs) + cs[|cs| - 1].room[..n]
      && (LastWithData(after, link) <==> !(n > 0 && k + 1 < |cs| - 1))
      && (Lags(after, link) <==> n > 0 && k + 1 < |cs| - 1)
  {
    CommitAt(cs, k, |cs| - 1, n);
    var after := cs[|cs| - 1 := Committed(cs[|cs| - 1], n)];
    if n > 0 {
      LastLinkExact(after, k);
    } else {
      assert !Lags(after, k);
    }
  }

  /** Advancing from k reaches a last chain with data, with only empty chains between,
      exactly when it is k itself or the next one; otherwise it stays where it is. */
  lemma LastLinkExact(cs: seq<Chain>, k: nat)
    requires k < |cs| && cs[|cs| - 1].data != []
    requires forall i :: k < i < |cs| - 1 ==> cs[i].data == []
    ensures LastWithData(cs, Advanced(cs, k)) <==> |cs| - 1 <= k + 1
    ensures Lags(cs, Advanced(cs, k)) <==> |cs| - 1 > k + 1
  {
    AdvancedStops(cs, k);
  }

  function Concat(chunks: seq<Bytes>): Bytes {
    if chunks == [] then [] else Concat(chunks[..|chunks| - 1]) + chunks[|chunks| - 1]
  }

  /** The vectors a caller passes back: the reserved pieces cut to what was written. */
  function Used(vecs: seq<Vec>, chunks: seq<Bytes>): seq<Vec>
    requires |chunks| <= |vecs|
  {
    seq(|chunks|, i requires 0 <= i < |chunks| => vecs[i].(len := |chunks[i]|))
  }

  /** The pieces hold the chunks. */
  ghost predicate HoldsChunks(cs: seq<Chain>, vecs: seq<Vec>, chunks: seq<Bytes>) {
    && |chunks| <= |vecs|
    && (forall i :: 0 <= i < |chunks| ==>
          Fits(cs, vecs[i]) && |chunks[i]| <= vecs[i].len && cs[vecs[i].chain].room[..|chunks[i]|] == chunks[i])
  }

  lemma {:induction false} UsedBytes(cs: seq<Chain>, vecs: seq<Vec>, chunks: seq<Bytes>)
    requires HoldsChunks(cs, vecs, chunks)
    ensures AllFit(cs, Used(vecs, chunks)) && VecBytes(cs, Used(vecs, chunks)) == Concat(chunks)
  {
    if chunks != [] {
      var m := |chunks| - 1;
      UsedBytes(cs, vecs, chunks[..m]);
      assert Used(vecs, chunks)[..m] == Used(vecs, chunks[..m]);
    }
  }

  /** The caller writes one chunk into each of the first pieces. */
  method WriteChunks(buf: EvBuffer, f: nat, vecs: seq<Vec>, chunks: seq<Bytes>)
    requires buf.Valid() && buf.lwdp < |buf.chains| && f == FirstRoom(buf.chains, buf.lwdp)
    requires Describes(buf.chains, f, vecs) && |chunks| <= |vecs|
    requires forall i :: 0 <= i < |chunks| ==> |chunks[i]| <= vecs[i].len
    modifies buf`chains
    ensures buf.Valid() && buf.Contents() == old(buf.Contents()) && (old(buf.Dense()) ==> buf.Dense())
    ensures buf.lwdp < |buf.chains| && f == FirstRoom(buf.chains, buf.lwdp)
    ensures buf.chains[buf.lwdp].data == old(buf.chains)[buf.lwdp].data
    ensures Describes(buf.chains, f, vecs) && HoldsChunks(buf.chains, vecs, chunks)
  {
    for i := 0 to |chunks|
      modifies buf`chains
      invariant buf.Valid() && buf.Contents() == old(buf.Contents()) && (old(buf.Dense()) ==> buf.Dense())
      invariant buf.lwdp < |buf.chains| && f == FirstRoom(buf.chains, buf.lwdp)
      invariant buf.chains[buf.lwdp].data == old(buf.chains)[buf.lwdp].data
      invariant Describes(buf.chains, f, vecs) && HoldsChunks(buf.chains, vecs, chunks[..i])
    {
      WriteVec(buf, f + i, chunks[i]);
    }
    assert chunks[..|chunks|] == chunks;
  }

  /** Pieces that are all used leave no empty chain before the last of them. */
  lemma FilledNoGap(cs: seq<Chain>, k: nat, vecs: seq<Vec>, after: seq<Chain>, link: nat)
    requires k < |cs| && LastWithData(cs, k) && NoGap(cs, k) && (cs[k].data == [] ==> cs[k].room != [])
    requires vecs != [] && Describes(cs, FirstRoom(cs, k), vecs) && forall v :: v in vecs ==> v.len > 0
    requires Live(cs, FirstRoom(cs, k), vecs, after) && LastWithData(after, link)
    ensures NoGap(after, link)
  {
    var f := FirstRoom(cs, k);
    forall j | 0 <= j < link && j < |after|
      ensures after[j].data != []
    {
      assert after[j] == LiveChain(cs, f, vecs, j);
      if f <= j < f + |vecs| {
        assert vecs[j - f] in vecs && Fits(cs, vecs[j - f]);
      }
    }
  }

  /** Two-phase append: writing chunks into any first pieces of a reservation and committing
      them succeeds and appends exactly the chunks, in order. */
  method WriteAndCommit(buf: EvBuffer, vecs: seq<Vec>, chunks: seq<Bytes>) returns (ok: bool)
    requires buf.Valid() && buf.lwdp < |buf.chains| && !buf.freezeEnd
    requires Describes(buf.chains, FirstRoom(buf.chains, buf.lwdp), vecs) && |chunks| <= |vecs|
    requires forall i :: 0 <= i < |chunks| ==> |chunks[i]| <= vecs[i].len
    requires buf.totalLen + |Concat(chunks)| <= SIZE_MAX
    modifies buf`chains, buf`lwdp, buf`totalLen
    ensures ok && buf.Valid() && buf.Contents() == old(buf.Contents()) + Concat(chunks)
    ensures
      && var c := old(buf.chains)[old(buf.lwdp)];
      && (old(buf.Dense()) && (c.data == [] ==> c.room != []) && NoneEmpty(chunks) ==> buf.Dense())
  {
    WriteChunks(buf, FirstRoom(buf.chains, buf.lwdp), vecs, chunks);
    ok := CommitUsed(buf, vecs, chunks);
  }

  /** Commits pieces that hold the chunks. */
  method CommitUsed(buf: EvBuffer, vecs: seq<Vec>, chunks: seq<Bytes>) returns (ok: bool)
    requires buf.Valid() && buf.lwdp < |buf.chains| && !buf.freezeEnd
    requires Describes(buf.chains, FirstRoom(buf.chains, buf.lwdp), vecs) && HoldsChunks(buf.chains, vecs, chunks)
    requires buf.totalLen + |Concat(chunks)| <= SIZE_MAX
    modifies buf`chains, buf`lwdp, buf`totalLen
    ensures ok && buf.Valid() && buf.Contents() == old(buf.Contents()) + Concat(chunks)
    ensures
      && var c := old(buf.chains)[old(buf.lwdp)];
      && (old(buf.Dense()) && (c.data == [] ==> c.room != []) && NoneEmpty(chunks) ==> buf.Dense())
  {
    var used := Used(vecs, chunks);
    UsedFacts(buf.chains, FirstRoom(buf.chains, buf.lwdp), vecs, chunks);
    ghost var cs, k := buf.chains, buf.lwdp;
    ok := CommitSpace(buf, used);
    if chunks != [] {
      UsedNoGap(cs, k, vecs, chunks, buf.chains, buf.lwdp);
    }
  }

  lemma UsedFacts(cs: seq<Chain>, f: nat, vecs: seq<Vec>, chunks: seq<Bytes>)
    requires Describes(cs, f, vecs) && HoldsChunks(cs, vecs, chunks)
    ensures
      && var used := Used(vecs, chunks);
      && Describes(cs, f, used) && AllFit(cs, used)
      && VecBytes(cs, used) == Concat(chunks) && TotalLen(used) == |Concat(chunks)|
      && (chunks != [] ==> used != [] && used[0].chain == f)
  {
    UsedBytes(cs, vecs, chunks);
    VecBytesLen(cs, Used(vecs, chunks));
  }

  lemma UsedNoGap(cs: seq<Chain>, k: nat, vecs: seq<Vec>, chunks: seq<Bytes>, after: seq<Chain>, link: nat)
    requires k < |cs| && LastWithData(cs, k) && chunks != []
    requires Describes(cs, FirstRoom(cs, k), vecs) && HoldsChunks(cs, vecs, chunks)
    requires Describes(cs, FirstRoom(cs, k), Used(vecs, chunks))
    requires Live(cs, FirstRoom(cs, k), Used(vecs, chunks), after) && LastWithData(after, link)
    ensures NoGap(cs, k) && (cs[k].data == [] ==> cs[k].room != []) && NoneEmpty(chunks) ==> NoGap(after, link)
  {
    if NoGap(cs, k) && (cs[k].data == [] ==> cs[k].room != []) && NoneEmpty(chunks) {
      var used := Used(vecs, chunks);
      forall v | v in used
        ensures v.len > 0
      {
        var i :| 0 <= i < |used| && used[i] == v;
      }
      FilledNoGap(cs, k, used, after, link);
    }
  }

  ghost predicate NoneEmpty(chunks: seq<Bytes>) {
    forall i :: 0 <= i < |chunks| ==> chunks[i] != []
  }

  /** Cuts the data into chunks for the pieces, each as much as its piece holds. */
  method Cut(data: Bytes, vecs: seq<Vec>) returns (chunks: seq<Bytes>)
    requires TotalLen(vecs) >= |data| && forall v :: v in vecs ==> v.len > 0
    ensures |chunks| <= |vecs| && Concat(chunks) == data && NoneEmpty(chunks)
    ensures forall i :: 0 <= i < |chunks| ==> |chunks[i]| <= vecs[i].len
  {
    chunks := [];
    var left := data;
    assert vecs[..|vecs|] == vecs;
    while left != []
      invariant |chunks| <= |vecs| && Concat(chunks) + left == data && NoneEmpty(chunks)
      invariant forall i :: 0 <= i < |chunks| ==> |chunks[i]| <= vecs[i].len
      invariant left != [] ==> |data| - |left| == TotalLen(vecs[..|chunks|])
      decreases |left|
    {
      var i := |chunks|;
      assert vecs[i] in vecs && vecs[..i + 1] == vecs[..i] + [vecs[i]];
      TotalLenSnoc(vecs[..i], vecs[i]);
      var n := if vecs[i].len < |left| then vecs[i].len else |left|;
      CutMore(chunks, left, n);
      chunks, left := chunks + [left[..n]], left[n..];
    }
    assert Concat(chunks) + [] == Concat(chunks);
  }

  lemma CutMore(chunks: seq<Bytes>, left: Bytes, n: nat)
    requires n <= |left|
    ensures Concat(chunks + [left[..n]]) + left[n..] == Concat(chunks) + left
  {
    assert (chunks + [left[..n]])[..|chunks|] == chunks;
    Assoc(Concat(chunks), left[..n], left[n..]);
    assert left[..n] + left[n..] == left;
  }

  /** Appends in two phases: reserves room for the data in n pieces, fills them one after the
      other and commits them. */
  method AppendInPieces(buf: EvBuffer, data: Bytes, n: nat) returns (ok: bool)
    requires buf.Valid() && !buf.freezeEnd && n >= 2
    requires |data| <= MAX_CAPACITY - MAX_TO_COPY && buf.totalLen + |data| <= SIZE_MAX
    modifies buf`chains, buf`lwdp, buf`totalLen
    ensures ok && buf.Valid() && buf.Contents() == old(buf.Contents()) + data && (old(buf.Dense()) ==> buf.Dense())
  {
    var r := ReserveSpace(buf, |data|, n);
    if data == [] {
      assert buf.Contents() + data == buf.Contents();
      return true;
    }
    var chunks := Cut(data, r.value);
    assert r.value != [];
    ok := WriteAndCommit(buf, r.value, chunks);
  }
}
