/** Moving bytes between two evbuffers by relinking whole chains. */
module EvbufferMoves {
  import opened Chunks
  import opened Evbuffer

  /** A list that holds bytes has data in the chain that last_with_datap leads to. */
  lemma LastHasData(cs: seq<Chain>, k: nat)
    requires LastWithData(cs, k) && Flat(cs) != []
    ensures k < |cs| && cs[k].data != []
  {
    FlatUpToLast(cs, k);
    if k == 0 {
      assert Flat(cs[..0]) + cs[0].data == cs[0].data;
    }
  }

  /** The shape of two lists linked one behind the other. */
  lemma Linked(a: seq<Chain>, b: seq<Chain>, k: nat)
    requires AllOk(a) && AllOk(b) && LastWithData(b, k) && k < |b| && b[k].data != []
    ensures AllOk(a + b) && LastWithData(a + b, |a| + k)
  {
  }

  lemma LinkedNoGap(a: seq<Chain>, b: seq<Chain>, k: nat)
    requires NoGap(a, |a|) && NoGap(b, k)
    ensures NoGap(a + b, |a| + k)
  {
  }

  /** A list behind the chains of another that are not trailing and empty. */
  lemma AppendExact(cs: seq<Chain>, k: nat, b: seq<Chain>, kb: nat)
    requires AllOk(cs) && AllOk(b) && LastWithData(cs, k) && LastWithData(b, kb) && kb < |b| && b[kb].data != []
    ensures
      && var kept := cs[..CutSlot(cs, k)];
      && AllOk(kept + b) && LastWithData(kept + b, |kept| + kb) && Flat(kept + b) == Flat(cs) + Flat(b)
      && (NoGap(cs, k) && NoGap(b, kb) ==> NoGap(kept + b, |kept| + kb))
  {
    var kept := cs[..CutSlot(cs, k)];
    CutSlotAtLast(cs, k);
    Linked(kept, b, kb);
    FlatConcat(kept, b);
    if NoGap(cs, k) && NoGap(b, kb) {
      LinkedNoGap(kept, b, kb);
    }
  }

  /** Appends all bytes of inbuf to outbuf and empties inbuf. */
  method AddBuffer(outbuf: EvBuffer, inbuf: EvBuffer) returns (ok: bool)
    requires outbuf.Valid() && inbuf.Valid()
    requires outbuf != inbuf ==> outbuf.totalLen + inbuf.totalLen <= SIZE_MAX
    modifies outbuf`chains, outbuf`lwdp, outbuf`totalLen, inbuf`chains, inbuf`lwdp, inbuf`totalLen
    ensures outbuf.Valid() && inbuf.Valid()
    ensures ok <==> old(inbuf.totalLen) == 0 || outbuf == inbuf || (!outbuf.freezeEnd && !inbuf.freezeStart)
    ensures !ok || outbuf == inbuf ==> outbuf.chains == old(outbuf.chains) && inbuf.chains == old(inbuf.chains)
    ensures ok && outbuf != inbuf ==> inbuf.Contents() == []
    ensures ok && outbuf != inbuf ==> outbuf.Contents() == old(outbuf.Contents()) + old(inbuf.Contents())
    ensures old(outbuf.Dense() && inbuf.Dense()) ==> outbuf.Dense() && inbuf.Dense()
  {
    if inbuf.totalLen == 0 || outbuf == inbuf {
      return true;
    }
    if outbuf.freezeEnd || inbuf.freezeStart {
      return false;
    }
    LastHasData(inbuf.chains, inbuf.lwdp);
    if outbuf.totalLen == 0 {
      outbuf.chains, outbuf.lwdp, outbuf.totalLen := inbuf.chains, inbuf.lwdp, inbuf.totalLen;
    } else {
      AppendExact(outbuf.chains, outbuf.lwdp, inbuf.chains, inbuf.lwdp);
      var slot := outbuf.FreeTrailingEmptyChains();
      outbuf.chains := outbuf.chains + inbuf.chains;
      outbuf.lwdp := if inbuf.lwdp == 0 then slot else slot + inbuf.lwdp;
      outbuf.totalLen := outbuf.totalLen + inbuf.totalLen;
    }
    inbuf.chains, inbuf.lwdp, inbuf.totalLen := [], 0, 0;
    return true;
  }

  /** Puts all bytes of inbuf in front of outbuf and empties inbuf. */
  method PrependBuffer(outbuf: EvBuffer, inbuf: EvBuffer) returns (ok: bool)
    requires outbuf.Valid() && inbuf.Valid()
    requires outbuf != inbuf ==> outbuf.totalLen + inbuf.totalLen <= SIZE_MAX
    modifies outbuf`chains, outbuf`lwdp, outbuf`totalLen, inbuf`chains, inbuf`lwdp, inbuf`totalLen
    ensures outbuf.Valid() && inbuf.Valid()
    ensures ok <==> old(inbuf.totalLen) == 0 || outbuf == inbuf || (!outbuf.freezeStart && !inbuf.freezeStart)
    ensures !ok || outbuf == inbuf ==> outbuf.chains == old(outbuf.chains) && inbuf.chains == old(inbuf.chains)
    ensures ok && outbuf != inbuf ==> inbuf.Contents() == []
    ensures ok && outbuf != inbuf ==> outbuf.Contents() == old(inbuf.Contents()) + old(outbuf.Contents())
    ensures ok && outbuf != inbuf && old(inbuf.totalLen) > 0 && old(outbuf.totalLen) > 0 ==>
              outbuf.chains == old(inbuf.chains) + old(outbuf.chains)
  {
    if inbuf.totalLen == 0 || outbuf == inbuf {
      return true;
    }
    if outbuf.freezeStart || inbuf.freezeStart {
      return false;
    }
    if outbuf.totalLen == 0 {
      outbuf.chains, outbuf.lwdp, outbuf.totalLen := inbuf.chains, inbuf.lwdp, inbuf.totalLen;
    } else {
      LastHasData(outbuf.chains, outbuf.lwdp);
      Linked(inbuf.chains, outbuf.chains, outbuf.lwdp);
      FlatConcat(inbuf.chains, outbuf.chains);
      // &first becomes the link of inbuf's last chain; every other link is renumbered.
      outbuf.lwdp := if outbuf.lwdp == 0 then |inbuf.chains| else |inbuf.chains| + outbuf.lwdp;
      outbuf.chains := inbuf.chains + outbuf.chains;
      outbuf.totalLen := outbuf.totalLen + inbuf.totalLen;
    }
    inbuf.chains, inbuf.lwdp, inbuf.totalLen := [], 0, 0;
    return true;
  }

  /** How many chains RemoveBuffer takes whole from the front to move n bytes. */
  function Whole(cs: seq<Chain>, n: nat): (j: nat)
    ensures j <= |cs|
  {
    if cs == [] || |cs[0].data| > n then 0 else 1 + Whole(cs[1..], n - |cs[0].data|)
  }

  /** Where the walk of RemoveBuffer stops. */
  lemma {:induction false} WholeStops(cs: seq<Chain>, n: nat)
    requires n < |Flat(cs)|
    ensures Whole(cs, n) < |cs|
    ensures |Flat(cs[..Whole(cs, n)])| <= n < |Flat(cs[..Whole(cs, n)])| + |cs[Whole(cs, n)].data|
  {
    if |cs[0].data| <= n {
      var t := cs[1..];
      FlatAt(cs, 0);
      WholeStops(t, n - |cs[0].data|);
      var j := Whole(t, n - |cs[0].data|);
      assert cs[..j + 1][1..] == t[..j];
    }
  }

  /** From index `from` on, the chains with data come before the empty ones. */
  ghost predicate GapFree(cs: seq<Chain>, from: nat) {
    forall p, q :: from <= p < q < |cs| && cs[p].data == [] ==> cs[q].data == []
  }

  /** The walk of RemoveBuffer does not skip only empty chains up to the last one with data,
      where it would reset last_with_datap although no chain is moved. */
  ghost predicate SourceSafe(src: seq<Chain>, k: nat, n: nat) {
    var j := Whole(src, n);
    Flat(src[..j]) == [] ==> j == 0 || k != j
  }

  /** The chains that are moved whole have no empty chain before one with data; the very
      first chain of an empty destination is free. */
  ghost predicate DestSafe(src: seq<Chain>, dstEmpty: bool, n: nat) {
    var moved := src[..Whole(src, n)];
    Flat(moved) == [] || GapFree(moved, if dstEmpty then 1 else 0)
  }

  /** The inputs on which RemoveBuffer leaves both buffers in order. */
  ghost predicate MoveSafe(src: seq<Chain>, k: nat, dstEmpty: bool, n: nat) {
    SourceSafe(src, k, n) && DestSafe(src, dstEmpty, n)
  }

  /** advance_last_with_data: steps over the chains with data that follow. */
  function Advanced(cs: seq<Chain>, k: nat): nat
    decreases |cs| - k
  {
    if k + 1 < |cs| && cs[k + 1].data != [] then Advanced(cs, k + 1) else k
  }

  method AdvanceLastWithData(cs: seq<Chain>, k: nat) returns (r: nat)
    ensures r == Advanced(cs, k)
  {
    r := k;
    while r + 1 < |cs| && cs[r + 1].data != []
      invariant Advanced(cs, r) == Advanced(cs, k)
      decreases |cs| - r
    {
      r := r + 1;
    }
  }

  /** Advancing stops right before an empty chain or at the end, over chains with data. */
  lemma {:induction false} AdvancedStops(cs: seq<Chain>, k: nat)
    requires k < |cs|
    ensures k <= Advanced(cs, k) < |cs|
    ensures Advanced(cs, k) + 1 < |cs| ==> cs[Advanced(cs, k) + 1].data == []
    ensures forall i :: k < i <= Advanced(cs, k) ==> cs[i].data != []
    decreases |cs| - k
  {
    if k + 1 < |cs| && cs[k + 1].data != [] {
      AdvancedStops(cs, k + 1);
    }
  }

  /** Where advancing from the end of `kept` starts in `kept + moved`. */
  function Start(kept: seq<Chain>): nat {
    if kept == [] then 0 else |kept| - 1
  }

  lemma AdvancedGapFree(kept: seq<Chain>, moved: seq<Chain>)
    requires moved != [] && (kept != [] ==> kept[|kept| - 1].data != [])
    requires GapFree(moved, if kept == [] then 1 else 0)
    ensures LastWithData(kept + moved, Advanced(kept + moved, Start(kept)))
  {
    var cs := kept + moved;
    AdvancedStops(cs, Start(kept));
    var r := Advanced(cs, Start(kept));
    forall i | r < i < |cs|
      ensures cs[i].data == []
    {
      assert cs[r + 1] == moved[r + 1 - |kept|] && cs[i] == moved[i - |kept|];
    }
  }

  lemma AdvancedGap(kept: seq<Chain>, moved: seq<Chain>)
    requires moved != [] && !GapFree(moved, if kept == [] then 1 else 0)
    ensures Lags(kept + moved, Advanced(kept + moved, Start(kept)))
  {
    var cs := kept + moved;
    AdvancedStops(cs, Start(kept));
    var p, q :| (if kept == [] then 1 else 0) <= p < q < |moved| && moved[p].data == [] && moved[q].data != [];
    assert cs[|kept| + p] == moved[p] && cs[|kept| + q] == moved[q];
  }

  /** Advancing from the end of `kept` finds the last chain with data of `kept + moved`
      exactly when `moved` has no gap, and stops short of it otherwise. */
  lemma AdvancedExact(kept: seq<Chain>, moved: seq<Chain>)
    requires moved != [] && (kept != [] ==> kept[|kept| - 1].data != [])
    ensures
      && var link := Advanced(kept + moved, Start(kept));
      && (LastWithData(kept + moved, link) <==> GapFree(moved, if kept == [] then 1 else 0))
      && (Lags(kept + moved, link) <==> !GapFree(moved, if kept == [] then 1 else 0))
  {
    if GapFree(moved, if kept == [] then 1 else 0) {
      AdvancedGapFree(kept, moved);
    } else {
      AdvancedGap(kept, moved);
      LagHides(kept + moved, Advanced(kept + moved, Start(kept)));
    }
  }

  /** Skips the chains that are moved whole; resets last_with_datap when its link is among them. */
  method MoveWalk(cs: seq<Chain>, k: nat, n: nat) returns (j: nat, nread: nat, rest: nat, link: nat)
    requires k < |cs| && |Flat(cs[..k])| + |cs[k].data| > n
    ensures j == Whole(cs, n) <= k && nread == |Flat(cs[..j])|
    ensures nread + rest == n && rest < |cs[j].data|
    ensures link == if j == k then 0 else k
  {
    j, nread, rest, link := 0, 0, n, k;
    assert cs[0..] == cs;
    while |cs[j].data| <= rest
      invariant j <= k && nread == |Flat(cs[..j])| && nread + rest == n
      invariant Whole(cs, n) == j + Whole(cs[j..], rest)
      invariant link == if j == k then 0 else k
      decreases k - j
    {
      FlatAt(cs, j);
      assert cs[j..][1..] == cs[j + 1..];
      nread := nread + |cs[j].data|;
      rest := rest - |cs[j].data|;
      if link == j + 1 {
        link := 0;
      }
      j := j + 1;
    }
  }

  /** Cutting bytes off a chain behind empty ones only cuts the front of the byte string. */
  lemma CutFlat(cs: seq<Chain>, j: nat, r: nat)
    requires j < |cs| && r < |cs[j].data| && Flat(cs[..j]) == []
    ensures r <= |Flat(cs)| && Flat(cs[j := Dropped(cs[j], r)]) == Flat(cs)[r..]
  {
    FlatUpdate(cs, j, Dropped(cs[j], r));
    FlatAt(cs, j);
    CutFront(cs[j].data, Flat(cs[j + 1..]), r);
  }

  lemma CutFront(a: Bytes, b: Bytes, r: nat)
    requires r <= |a|
    ensures ([] + a[r..]) + b == (([] + a) + b)[r..]
  {
  }

  /** A chain that keeps some of its data changes neither order nor the last chain with data. */
  lemma DroppedKeeps(cs: seq<Chain>, k: nat, j: nat, r: nat)
    requires AllOk(cs) && LastWithData(cs, k) && j < |cs| && r < |cs[j].data|
    ensures AllOk(cs[j := Dropped(cs[j], r)]) && LastWithData(cs[j := Dropped(cs[j], r)], k)
  {
  }

  /** The chains of a list that stay when its trailing empty chains are cut. */
  ghost function Kept(cs: seq<Chain>, k: nat): seq<Chain>
    requires k <= |cs|
  {
    cs[..CutSlot(cs, k)]
  }

  /** The link after chains are relinked behind those that are kept. */
  ghost function SpliceLink(kept: seq<Chain>, moved: seq<Chain>): (link: nat)
    requires moved != []
    ensures link < |kept + moved|
  {
    AdvancedStops(kept + moved, Start(kept));
    Advanced(kept + moved, Start(kept))
  }

  /** Relinking chains behind a list keeps the bytes; the link ends up at the last chain with
      data or lags behind it. */
  lemma SpliceExact(cs: seq<Chain>, k: nat, moved: seq<Chain>)
    requires AllOk(cs) && AllOk(moved) && LastWithData(cs, k) && moved != []
    ensures
      && var kept := Kept(cs, k);
      && var link := SpliceLink(kept, moved);
      && AllOk(kept + moved) && Flat(kept + moved) == Flat(cs) + Flat(moved)
      && (kept == [] <==> Flat(cs) == [])
      && k == Start(kept)
      && (LastWithData(kept + moved, link) <==> GapFree(moved, if kept == [] then 1 else 0))
      && (Lags(kept + moved, link) <==> !GapFree(moved, if kept == [] then 1 else 0))
      && (NoGap(cs, k) && NoGap(moved, |moved|) ==> NoGap(kept + moved, link))
  {
    var kept := Kept(cs, k);
    CutSlotAtLast(cs, k);
    if NoGap(cs, k) && NoGap(moved, |moved|) {
      LinkedNoGap(kept, moved, |moved|);
    }
    if kept != [] {
      FlatUpToLast(kept, k);
    }
    AdvancedExact(kept, moved);
    FlatConcat(kept, moved);
  }

  /** The bytes of dst after the first n bytes of src were moved there: behind a gap in the
      chains that were moved whole, the last piece goes to the wrong place or takes the place
      of the bytes there. */
  ghost function Landed(src: seq<Chain>, dst: seq<Chain>, dk: nat, n: nat): Bytes
    requires n < |Flat(src)| && dk <= |dst|
  {
    if DestSafe(src, Flat(dst) == [], n) then Flat(dst) + Flat(src)[..n]
    else
      WholeStops(src, n);
      var j := Whole(src, n);
      Misplaced(Kept(dst, dk), src[..j], src[j].data[..n - |Flat(src[..j])|])
  }

  /** The bytes after a piece is appended at a link that stopped short. */
  ghost function Misplaced(kept: seq<Chain>, moved: seq<Chain>, piece: Bytes): Bytes
    requires moved != []
  {
    LaggingAdd(kept + moved, SpliceLink(kept, moved), piece)
  }

  /** Relinks the first j chains of src behind dst. */
  method SpliceChains(src: EvBuffer, dst: EvBuffer, j: nat, nread: nat)
    requires dst.Valid() && src != dst && 0 < j <= |src.chains| && AllOk(src.chains)
    requires nread == |Flat(src.chains[..j])| && dst.totalLen + nread <= SIZE_MAX
    requires src.lwdp == 0 || src.lwdp > j
    modifies src`chains, src`lwdp, dst`chains, dst`lwdp, dst`totalLen
    ensures dst.Contents() == old(dst.Contents()) + Flat(old(src.chains)[..j])
    ensures dst.totalLen == |dst.Contents()|
    ensures dst.chains == Kept(old(dst.chains), old(dst.lwdp)) + old(src.chains)[..j]
    ensures dst.lwdp == SpliceLink(Kept(old(dst.chains), old(dst.lwdp)), old(src.chains)[..j])
    ensures dst.Valid() <==> GapFree(old(src.chains)[..j], if old(dst.totalLen) == 0 then 1 else 0)
    ensures dst.Valid() || dst.Lagging()
    ensures old(dst.Dense() && NoGap(src.chains, j)) ==> dst.Dense()
    ensures src.chains == old(src.chains)[j..]
    ensures src.lwdp == if old(src.lwdp) == 0 then 0 else old(src.lwdp) - j
  {
    var moved := src.chains[..j];
    SpliceExact(dst.chains, dst.lwdp, moved);
    var _ := dst.FreeTrailingEmptyChains();
    dst.chains := dst.chains + moved;
    src.DropChains(j);
    dst.lwdp := AdvanceLastWithData(dst.chains, dst.lwdp);
    dst.totalLen := dst.totalLen + nread;
  }

  /** Moves the first min(datlen, length) bytes of src to the end of dst. The bytes leave src
      in any case; both buffers are in order afterwards exactly when the move is safe. */
  method RemoveBuffer(src: EvBuffer, dst: EvBuffer, datlen: nat) returns (r: int)
    requires src.Valid() && dst.Valid()
    requires src != dst ==> src.totalLen + dst.totalLen <= SIZE_MAX
    modifies src`chains, src`lwdp, src`totalLen, dst`chains, dst`lwdp, dst`totalLen
    ensures datlen == 0 || src == dst ==> r == 0
    ensures datlen > 0 && src != dst && (dst.freezeEnd || src.freezeStart) ==> r == -1
    ensures r <= 0 ==> src.Valid() && dst.Valid()
    ensures r <= 0 ==> src.Contents() == old(src.Contents()) && dst.Contents() == old(dst.Contents())
    ensures datlen > 0 && src != dst && !dst.freezeEnd && !src.freezeStart ==>
              && r == (if datlen < |old(src.Contents())| then datlen else |old(src.Contents())|)
              && src.Contents() == old(src.Contents())[r..]
              && src.totalLen == |src.Contents()|
              && dst.totalLen == |old(dst.Contents())| + r
    ensures r > 0 ==>
              (src.Valid() <==> (r < old(src.totalLen) ==> old(SourceSafe(src.chains, src.lwdp, r))))
    ensures r > 0 ==>
              (dst.Valid() <==> (r < old(src.totalLen) ==> old(DestSafe(src.chains, dst.totalLen == 0, r))))
    ensures r > 0 ==>
              (src.Valid() && dst.Valid() <==>
               (r < old(src.totalLen) ==> old(MoveSafe(src.chains, src.lwdp, dst.totalLen == 0, r))))
    ensures r > 0 ==>
              dst.Contents() == if r < old(src.totalLen) then old(Landed(src.chains, dst.chains, dst.lwdp, r))
                                else old(dst.Contents()) + old(src.Contents())
    ensures r > 0 && dst.Valid() ==> dst.Contents() == old(dst.Contents()) + old(src.Contents())[..r]
    ensures old(src.Dense() && dst.Dense()) ==> src.Valid() && dst.Valid() && src.Dense() && dst.Dense()
  {
    if datlen == 0 || src == dst {
      return 0;
    }
    if dst.freezeEnd || src.freezeStart {
      return -1;
    }
    if datlen >= src.totalLen {
      r := src.totalLen;
      var ok := AddBuffer(dst, src);
      assert old(src.Contents())[..r] == old(src.Contents());
      return;
    }
    if src.Dense() {
      NoEarlyEmptyIsSafe(src.chains, src.lwdp, dst.totalLen == 0, datlen);
    }
    MoveSome(src, dst, datlen);
    return datlen;
  }

  /** The two conditions and the outcome in terms of where the walk stops. */
  lemma MoveCases(src: seq<Chain>, k: nat, dst: seq<Chain>, dk: nat, n: nat, j: nat, rest: nat)
    requires j == Whole(src, n) < |src| && rest == n - |Flat(src[..j])| < |src[j].data| && dk <= |dst|
    requires n < |Flat(src)| && |Flat(src[..j])| <= n
    ensures Flat(src[..j]) != [] ==>
              SourceSafe(src, k, n) &&
              (DestSafe(src, Flat(dst) == [], n) <==> GapFree(src[..j], if Flat(dst) == [] then 1 else 0))
    ensures Flat(src[..j]) == [] ==>
              DestSafe(src, Flat(dst) == [], n) && (SourceSafe(src, k, n) <==> j == 0 || k != j)
    ensures DestSafe(src, Flat(dst) == [], n) ==> Landed(src, dst, dk, n) == Flat(dst) + Flat(src)[..n]
    ensures !DestSafe(src, Flat(dst) == [], n) ==>
              j > 0 && Landed(src, dst, dk, n) == Misplaced(Kept(dst, dk), src[..j], src[j].data[..rest])
  {
  }

  method MoveSome(src: EvBuffer, dst: EvBuffer, datlen: nat)
    requires src.Valid() && dst.Valid() && src != dst && src.totalLen + dst.totalLen <= SIZE_MAX
    requires 0 < datlen < src.totalLen && !dst.freezeEnd
    modifies src`chains, src`lwdp, src`totalLen, dst`chains, dst`lwdp, dst`totalLen
    ensures src.Contents() == old(src.Contents())[datlen..] && src.totalLen == |src.Contents()|
    ensures dst.totalLen == old(dst.totalLen) + datlen
    ensures src.Valid() <==> old(SourceSafe(src.chains, src.lwdp, datlen))
    ensures dst.Valid() <==> old(DestSafe(src.chains, dst.totalLen == 0, datlen))
    ensures dst.Contents() == old(Landed(src.chains, dst.chains, dst.lwdp, datlen))
    ensures old(src.Dense() && dst.Dense()) ==> src.Dense() && dst.Dense()
  {
    FlatUpToLast(src.chains, src.lwdp);
    var j, nread, rest, link := MoveWalk(src.chains, src.lwdp, datlen);
    MoveCases(src.chains, src.lwdp, dst.chains, dst.lwdp, datlen, j, rest);
    if nread > 0 {
      MoveChains(src, dst, j, nread, rest, link);
    } else {
      MoveBytes(src, dst, j, rest, link);
    }
  }

  /** The rest of a move that takes whole chains. */
  method MoveChains(src: EvBuffer, dst: EvBuffer, j: nat, nread: nat, rest: nat, link: nat)
    requires src.Valid() && dst.Valid() && src != dst && src.totalLen + dst.totalLen <= SIZE_MAX
    requires 0 < j <= src.lwdp < |src.chains| && !dst.freezeEnd
    requires nread == |Flat(src.chains[..j])| && rest < |src.chains[j].data|
    requires link == if j == src.lwdp then 0 else src.lwdp
    modifies src`chains, src`lwdp, src`totalLen, dst`chains, dst`lwdp, dst`totalLen
    ensures src.Valid() && nread + rest <= |old(src.Contents())|
    ensures src.Contents() == old(src.Contents())[nread + rest..]
    ensures dst.totalLen == old(dst.totalLen) + nread + rest
    ensures dst.Valid() <==> GapFree(old(src.chains)[..j], if old(dst.totalLen) == 0 then 1 else 0)
    ensures dst.Valid() ==> dst.Contents() == old(dst.Contents()) + old(src.Contents())[..nread + rest]
    ensures !dst.Valid() ==>
              && var c := old(src.chains)[j];
              && dst.Contents() == Misplaced(Kept(old(dst.chains), old(dst.lwdp)), old(src.chains)[..j], c.data[..rest])
    ensures old(src.Dense() && dst.Dense()) ==> src.Dense() && dst.Dense()
  {
    MovedBytes(dst.Contents(), src.chains, j, rest);
    var piece := TakeChains(src, dst, j, nread, rest, link);
    var ok := dst.Add(piece);
  }

  /** Relinks j chains and takes a piece off the next one. */
  method TakeChains(src: EvBuffer, dst: EvBuffer, j: nat, nread: nat, rest: nat, link: nat) returns (piece: Bytes)
    requires src.Valid() && dst.Valid() && src != dst && src.totalLen + dst.totalLen <= SIZE_MAX
    requires 0 < j <= src.lwdp < |src.chains|
    requires nread == |Flat(src.chains[..j])| && rest < |src.chains[j].data|
    requires link == if j == src.lwdp then 0 else src.lwdp
    modifies src`chains, src`lwdp, src`totalLen, dst`chains, dst`lwdp, dst`totalLen
    ensures src.Valid() && nread + rest <= |old(src.Contents())|
    ensures src.Contents() == old(src.Contents())[nread + rest..] && piece == old(src.chains)[j].data[..rest]
    ensures dst.totalLen == old(dst.totalLen) + nread && dst.totalLen + rest <= SIZE_MAX && rest <= MAX_CAPACITY
    ensures dst.Contents() == old(dst.Contents()) + Flat(old(src.chains)[..j])
    ensures dst.chains == Kept(old(dst.chains), old(dst.lwdp)) + old(src.chains)[..j]
    ensures dst.lwdp == SpliceLink(Kept(old(dst.chains), old(dst.lwdp)), old(src.chains)[..j])
    ensures dst.Valid() <==> GapFree(old(src.chains)[..j], if old(dst.totalLen) == 0 then 1 else 0)
    ensures dst.Valid() || dst.Lagging()
    ensures old(src.Dense() && dst.Dense()) ==> src.Dense() && dst.Dense()
  {
    FrontCut(src.chains, src.lwdp, j, rest);
    var c := src.chains[j];
    piece := c.data[..rest];
    src.lwdp := link;
    SpliceChains(src, dst, j, nread);
    src.chains := src.chains[0 := Dropped(c, rest)];
    src.totalLen := src.totalLen - nread - rest;
  }

  /** The rest of a move that takes no whole chain with data. */
  method MoveBytes(src: EvBuffer, dst: EvBuffer, j: nat, rest: nat, link: nat)
    requires src.Valid() && dst.Valid() && src != dst && src.totalLen + dst.totalLen <= SIZE_MAX
    requires j <= src.lwdp < |src.chains| && rest < |src.chains[j].data| && !dst.freezeEnd
    requires Flat(src.chains[..j]) == [] && link == if j == src.lwdp then 0 else src.lwdp
    modifies src`chains, src`lwdp, src`totalLen, dst`chains, dst`lwdp, dst`totalLen
    ensures dst.Valid() && rest <= |old(src.Contents())|
    ensures src.Valid() <==> j == 0 || old(src.lwdp) != j
    ensures src.Contents() == old(src.Contents())[rest..] && src.totalLen == |src.Contents()|
    ensures dst.Contents() == old(dst.Contents()) + old(src.Contents())[..rest]
    ensures old(src.Dense() && dst.Dense()) ==> src.Dense() && dst.Dense()
  {
    MovedBytes(dst.Contents(), src.chains, j, rest);
    CutFlat(src.chains, j, rest);
    DroppedKeeps(src.chains, src.lwdp, j, rest);
    var c := src.chains[j];
    src.lwdp := link;
    src.chains := src.chains[j := Dropped(c, rest)];
    src.totalLen := src.totalLen - rest;
    var ok := dst.Add(c.data[..rest]);
  }

  /** The bytes of j whole chains and then r more are a prefix of all bytes. */
  lemma MovedBytes(d: Bytes, cs: seq<Chain>, j: nat, r: nat)
    requires j < |cs| && r <= |cs[j].data|
    ensures |Flat(cs[..j])| + r <= |Flat(cs)|
    ensures d + Flat(cs[..j]) + cs[j].data[..r] == d + Flat(cs)[..|Flat(cs[..j])| + r]
    ensures Flat(cs[..j]) == [] ==> d + cs[j].data[..r] == d + Flat(cs)[..r]
  {
    FlatAt(cs, j);
    PrefixOf(Flat(cs[..j]), cs[j].data, Flat(cs[j + 1..]), r);
    Assoc(d, Flat(cs[..j]), cs[j].data[..r]);
    if Flat(cs[..j]) == [] {
      assert Flat(cs[..j]) + cs[j].data[..r] == cs[j].data[..r];
    }
  }

  /** Bytes are lost exactly when whole chains with a gap were moved and the last piece does
      not fit where the link stopped. */
  lemma LossExact(src: seq<Chain>, dst: seq<Chain>, dk: nat, n: nat)
    requires AllOk(src) && AllOk(dst) && LastWithData(dst, dk) && n < |Flat(src)|
    ensures |Landed(src, dst, dk, n)| <= |Flat(dst)| + n
    ensures |Landed(src, dst, dk, n)| < |Flat(dst)| + n <==>
            (WholeStops(src, n); !DestSafe(src, Flat(dst) == [], n) && Overflows(src, dst, dk, n))
  {
    if DestSafe(src, Flat(dst) == [], n) {
      assert |Landed(src, dst, dk, n)| == |Flat(dst)| + n;
    } else {
      WholeStops(src, n);
      var j := Whole(src, n);
      SpliceExact(dst, dk, src[..j]);
      MisplacedLoss(Kept(dst, dk), src[..j], src[j].data[..n - |Flat(src[..j])|]);
    }
  }

  lemma MisplacedLoss(kept: seq<Chain>, moved: seq<Chain>, piece: Bytes)
    requires moved != [] && Lags(kept + moved, SpliceLink(kept, moved))
    ensures
      && var c := (kept + moved)[SpliceLink(kept, moved)];
      && |Misplaced(kept, moved, piece)| <= |Flat(kept + moved)| + |piece|
      && (|Misplaced(kept, moved, piece)| < |Flat(kept + moved)| + |piece| <==>
          |piece| > |c.room| && !ShouldRealign(c, |piece|))
  {
    LagHides(kept + moved, SpliceLink(kept, moved));
  }

  /** The piece behind the chains that are moved whole does not fit into the chain where the
      link of dst stops. */
  ghost predicate Overflows(src: seq<Chain>, dst: seq<Chain>, dk: nat, n: nat)
    requires dk <= |dst| && Whole(src, n) > 0 && |Flat(src[..Whole(src, n)])| <= n
  {
    var moved, kept := src[..Whole(src, n)], Kept(dst, dk);
    var c := (kept + moved)[SpliceLink(kept, moved)];
    n - |Flat(moved)| > |c.room| && !ShouldRealign(c, n - |Flat(moved)|)
  }

  /** A list without empty chains before its last chain with data is always safe. */
  lemma NoEarlyEmptyIsSafe(cs: seq<Chain>, k: nat, dstEmpty: bool, n: nat)
    requires LastWithData(cs, k) && n < |Flat(cs)|
    requires NoGap(cs, k)
    ensures MoveSafe(cs, k, dstEmpty, n)
  {
    WholeStops(cs, n);
    var j := Whole(cs, n);
    if k < j {
      FlatTrailing(cs, j);
    }
    if j > 0 {
      FlatAt(cs[..j], 0);
    }
  }
}
