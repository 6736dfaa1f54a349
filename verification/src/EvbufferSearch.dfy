/** Searching an evbuffer chain by chain: the chunk boundaries never show in the result. */
module EvbufferSearch {
  import opened IdLists
  import opened Chunks
  import opened Evbuffer

  const SSIZE_MAX: nat := 0x7fff_ffff_ffff_ffff
  const EOL_CHUNK: nat := 128
  const CR: Byte := 13
  const LF: Byte := 10
  const NUL: Byte := 0

  /** Where chain j starts in the flat byte string. */
  ghost function Base(cs: seq<Chain>, j: nat): nat
    requires j <= |cs|
  {
    |Flat(cs[..j])|
  }

  lemma BaseStep(cs: seq<Chain>, j: nat)
    requires j < |cs|
    ensures Base(cs, j + 1) == Base(cs, j) + |cs[j].data| <= |Flat(cs)|
  {
    FlatAt(cs, j);
  }

  lemma BaseEnds(cs: seq<Chain>)
    ensures Base(cs, 0) == 0 && Base(cs, |cs|) == |Flat(cs)|
  {
    assert cs[..|cs|] == cs;
  }

  lemma {:induction false} BaseMonotone(cs: seq<Chain>, i: nat, j: nat)
    requires i <= j <= |cs|
    ensures Base(cs, i) <= Base(cs, j)
  {
    if i < j {
      BaseStep(cs, j - 1);
      BaseMonotone(cs, i, j - 1);
    }
  }

  /** The bytes of chain j in the flat string. */
  lemma ChunkBytes(cs: seq<Chain>, j: nat)
    requires j < |cs|
    ensures Base(cs, j) + |cs[j].data| <= |Flat(cs)|
    ensures Flat(cs)[Base(cs, j)..Base(cs, j) + |cs[j].data|] == cs[j].data
  {
    FlatAt(cs, j);
    Middle(Flat(cs[..j]), cs[j].data, Flat(cs[j + 1..]));
  }

  lemma Middle(x: Bytes, y: Bytes, z: Bytes)
    ensures (x + y + z)[|x|..|x| + |y|] == y
  {
  }

  lemma ByteAt(cs: seq<Chain>, j: nat, o: nat)
    requires j < |cs| && o < |cs[j].data|
    ensures Base(cs, j) + o < |Flat(cs)|
    ensures Flat(cs)[Base(cs, j) + o] == cs[j].data[o]
  {
    ChunkBytes(cs, j);
    assert Flat(cs)[Base(cs, j)..Base(cs, j) + |cs[j].data|][o] == cs[j].data[o];
  }

  /** An evbuffer_ptr: absolute position, chain (|cs| stands for NULL) and offset in it. */
  datatype Ptr = Ptr(pos: nat, chain: nat, inChain: nat)

  ghost predicate PtrAt(cs: seq<Chain>, p: Ptr) {
    && p.chain <= |cs|
    && p.inChain <= (if p.chain < |cs| then |cs[p.chain].data| else 0)
    && p.pos == Base(cs, p.chain) + p.inChain
  }

  lemma PtrInBounds(cs: seq<Chain>, p: Ptr)
    requires PtrAt(cs, p)
    ensures p.pos <= |Flat(cs)|
  {
    BaseEnds(cs);
    if p.chain < |cs| {
      BaseStep(cs, p.chain);
    }
  }

  /** The walk of evbuffer_ptr_set: `left` bytes on from offset i of chain `from`. */
  method PtrWalk(cs: seq<Chain>, from: nat, i: nat, left: nat, target: nat) returns (r: Option<Ptr>)
    requires from <= |cs| && i <= (if from < |cs| then |cs[from].data| else 0)
    requires target == Base(cs, from) + i + left
    ensures r.Some? <==> target <= |Flat(cs)|
    ensures r.Some? ==> r.value.pos == target && PtrAt(cs, r.value)
    ensures r.Some? && target < |Flat(cs)| ==> r.value.chain < |cs| && r.value.inChain < |cs[r.value.chain].data|
  {
    var j: nat, o: nat, n: nat := from, i, left;
    BaseEnds(cs);
    BaseMonotone(cs, from, |cs|);
    while j < |cs| && o + n >= |cs[j].data|
      invariant from <= j <= |cs| && Base(cs, j) + o + n == target
      invariant o <= (if j < |cs| then |cs[j].data| else 0)
    {
      BaseStep(cs, j);
      n := n - (|cs[j].data| - o);
      j, o := j + 1, 0;
    }
    if j < |cs| {
      BaseStep(cs, j);
      return Some(Ptr(target, j, o + n));
    } else if n == 0 {
      return Some(Ptr(target, j, 0));
    }
    return None;
  }

  /** How to set a pointer: to an absolute position, or on from where it is. */
  datatype How = Set | Add(p: Ptr)

  function Target(position: nat, how: How): nat {
    if how.Set? then position else how.p.pos + position
  }

  /** evbuffer_ptr_set; fails exactly beyond the end. Moving on does not look at the chains
      before the position. */
  method PtrSet(cs: seq<Chain>, position: nat, how: How) returns (r: Option<Ptr>)
    requires how.Add? ==> PtrAt(cs, how.p)
    ensures r.Some? <==> Target(position, how) <= |Flat(cs)| && (how.Add? ==> Target(position, how) <= SIZE_MAX)
    ensures r.Some? ==> r.value.pos == Target(position, how) && PtrAt(cs, r.value)
    ensures r.Some? && r.value.pos < |Flat(cs)| ==> r.value.chain < |cs| && r.value.inChain < |cs[r.value.chain].data|
  {
    if how.Set? {
      BaseEnds(cs);
      r := PtrWalk(cs, 0, 0, position, position);
    } else if how.p.pos > SIZE_MAX - position {
      r := None;
    } else {
      r := PtrWalk(cs, how.p.chain, how.p.inChain, position, how.p.pos + position);
    }
  }

  /** Moves a pointer back; fails exactly when that passes the start. */
  method PtrSubtract(cs: seq<Chain>, p: Ptr, howfar: nat) returns (r: Option<Ptr>)
    requires PtrAt(cs, p)
    ensures r.Some? <==> howfar <= p.pos
    ensures r.Some? ==> r.value.pos == p.pos - howfar && PtrAt(cs, r.value)
    ensures r.Some? && howfar > 0 ==> r.value.chain < |cs| && r.value.inChain < |cs[r.value.chain].data|
  {
    if howfar > p.pos {
      return None;
    }
    PtrInBounds(cs, p);
    if p.chain < |cs| && howfar <= p.inChain {
      return Some(Ptr(p.pos - howfar, p.chain, p.inChain - howfar));
    }
    r := PtrSet(cs, p.pos - howfar, Set);
  }

  /** The pattern occurs in s at i. */
  predicate Occurs(s: Bytes, what: Bytes, i: nat) {
    i + |what| <= |s| && s[i..i + |what|] == what
  }

  /** Is `what` at the pointer? Compares chain by chain. */
  method PtrEquals(cs: seq<Chain>, totalLen: nat, p: Ptr, what: Bytes) returns (same: bool)
    requires PtrAt(cs, p) && totalLen == |Flat(cs)|
    ensures same <==> Occurs(Flat(cs), what, p.pos)
  {
    if p.pos + |what| > totalLen {
      return false;
    }
    ghost var s := Flat(cs);
    var j: nat, o: nat, done: nat := p.chain, p.inChain, 0;
    while done < |what| && j < |cs|
      invariant j <= |cs| && done <= |what| && (done < |what| ==> o <= if j < |cs| then |cs[j].data| else 0)
      invariant done < |what| ==> p.pos + done == Base(cs, j) + o
      invariant s[p.pos..p.pos + done] == what[..done]
    {
      var left := |what| - done;
      var n := if left + o > |cs[j].data| then |cs[j].data| - o else left;
      CompareChunk(cs, j, o, n, p.pos, done, what);
      if cs[j].data[o..o + n] != what[done..done + n] {
        return false;
      }
      BaseStep(cs, j);
      done := done + n;
      o := 0;
      j := j + 1;
    }
    BaseEnds(cs);
    return true;
  }

  /** What comparing n bytes of chain j says about the flat string. */
  lemma CompareChunk(cs: seq<Chain>, j: nat, o: nat, n: nat, at: nat, done: nat, what: Bytes)
    requires j < |cs| && o + n <= |cs[j].data| && at + done == Base(cs, j) + o && done + n <= |what|
    requires at + |what| <= |Flat(cs)| && Flat(cs)[at..at + done] == what[..done]
    ensures cs[j].data[o..o + n] == what[done..done + n] ==> Flat(cs)[at..at + done + n] == what[..done + n]
    ensures cs[j].data[o..o + n] != what[done..done + n] ==> !Occurs(Flat(cs), what, at)
  {
    ChunkBytes(cs, j);
    Window(Flat(cs), Base(cs, j), cs[j].data, o, n);
    Compare(Flat(cs), at, done, n, what);
  }

  lemma Slice(s: Bytes, a: nat, b: nat, i: nat, j: nat)
    requires a <= b <= |s| && i <= j <= b - a
    ensures s[a..b][i..j] == s[a + i..a + j]
  {
    forall x | 0 <= x < j - i
      ensures s[a..b][i..j][x] == s[a + i..a + j][x]
    {
    }
  }

  lemma Window(s: Bytes, b: nat, d: Bytes, o: nat, n: nat)
    requires b + |d| <= |s| && s[b..b + |d|] == d && o + n <= |d|
    ensures s[b + o..b + o + n] == d[o..o + n]
  {
    Slice(s, b, b + |d|, o, o + n);
  }

  /** Comparing a prefix and then the next piece is comparing the longer prefix. */
  lemma Compare(s: Bytes, at: nat, done: nat, n: nat, what: Bytes)
    requires at + |what| <= |s| && done + n <= |what| && s[at..at + done] == what[..done]
    ensures s[at + done..at + done + n] == what[done..done + n] ==> s[at..at + done + n] == what[..done + n]
    ensures s[at + done..at + done + n] != what[done..done + n] ==> s[at..at + |what|] != what
  {
    Slice(s, at, at + |what|, done, done + n);
    assert s[at..at + done + n] == s[at..at + done] + s[at + done..at + done + n];
    assert what[..done + n] == what[..done] + what[done..done + n];
  }

  /** memchr: the first index of ch from `from` on. */
  method Memchr(d: Bytes, from: nat, ch: Byte) returns (r: Option<nat>)
    requires from <= |d|
    ensures r.Some? ==> from <= r.value < |d| && d[r.value] == ch && ch !in d[from..r.value]
    ensures r.None? ==> ch !in d[from..|d|]
  {
    var i := from;
    while i < |d|
      invariant from <= i <= |d| && ch !in d[from..i]
    {
      if d[i] == ch {
        return Some(i);
      }
      i := i + 1;
    }
    return None;
  }

  /** No occurrence of the pattern starts in lo..hi. */
  ghost predicate NoneIn(s: Bytes, what: Bytes, lo: nat, hi: nat) {
    forall i :: lo <= i < hi ==> !Occurs(s, what, i)
  }

  /** Where the first byte of the pattern does not occur, the pattern does not start. */
  lemma SkipTo(cs: seq<Chain>, j: nat, o: nat, n: nat, what: Bytes)
    requires j < |cs| && o <= n <= |cs[j].data| && what != [] && what[0] !in cs[j].data[o..n]
    ensures NoneIn(Flat(cs), what, Base(cs, j) + o, Base(cs, j) + n)
  {
    var s := Flat(cs);
    forall i | Base(cs, j) + o <= i < Base(cs, j) + n
      ensures !Occurs(s, what, i)
    {
      var x := i - Base(cs, j);
      ByteAt(cs, j, x);
      assert cs[j].data[o..n][x - o] == cs[j].data[x];
      if i + |what| <= |s| {
        assert s[i..i + |what|][0] == s[i];
      }
    }
  }

  /** The next place in chain j where the pattern may start. */
  method FindStart(cs: seq<Chain>, j: nat, o: nat, what: Bytes) returns (hit: Option<nat>)
    requires j < |cs| && o <= |cs[j].data| && what != []
    ensures hit.Some? ==> o <= hit.value < |cs[j].data|
    ensures NoneIn(Flat(cs), what, Base(cs, j) + o, Base(cs, j) + if hit.Some? then hit.value else |cs[j].data|)
  {
    hit := Memchr(cs[j].data, o, what[0]);
    SkipTo(cs, j, o, if hit.Some? then hit.value else |cs[j].data|, what);
  }

  /** The result of a search: the least occurrence at or behind `start` that ends by `limit`. */
  ghost predicate IsSearchResult(s: Bytes, what: Bytes, start: nat, limit: nat, r: Option<Ptr>) {
    match r
    case Some(p) => start <= p.pos && Occurs(s, what, p.pos) && p.pos + |what| <= limit && NoneIn(s, what, start, p.pos)
    case None => forall i :: start <= i && i + |what| <= limit ==> !Occurs(s, what, i)
  }

  /** Finds a pattern from `start` on, not reaching past `end` when one is given. The empty
      pattern (and one longer than SSIZE_MAX) is answered with `start`. */
  method SearchRange(cs: seq<Chain>, totalLen: nat, what: Bytes, start: Ptr, end: Option<Ptr>)
    returns (r: Option<Ptr>)
    requires totalLen == |Flat(cs)| && PtrAt(cs, start) && (end.Some? ==> PtrAt(cs, end.value))
    ensures |what| == 0 || |what| > SSIZE_MAX ==> r == Some(start)
    ensures 0 < |what| <= SSIZE_MAX ==>
              IsSearchResult(Flat(cs), what, start.pos, if end.Some? then end.value.pos else totalLen, r)
    ensures r.Some? ==> PtrAt(cs, r.value)
  {
    if |what| == 0 || |what| > SSIZE_MAX {
      return Some(start);
    }
    var pos: nat, j: nat, o: nat := start.pos, start.chain, start.inChain;
    ghost var s := Flat(cs);
    ghost var limit := if end.Some? then end.value.pos else totalLen;
    BaseEnds(cs);
    if end.Some? {
      PtrInBounds(cs, end.value);
    }
    while j < |cs|
      invariant PtrAt(cs, Ptr(pos, j, o)) && start.pos <= pos
      invariant NoneIn(s, what, start.pos, pos)
      decreases |cs| - j, if j < |cs| then |cs[j].data| - o else 0
    {
      var hit := FindStart(cs, j, o, what);
      BaseStep(cs, j);
      if hit.Some? {
        pos, o := pos + hit.value - o, hit.value;
        var same := PtrEquals(cs, totalLen, Ptr(pos, j, o), what);
        if same {
          if end.Some? && pos + |what| > end.value.pos {
            NoMore(s, what, start.pos, pos, limit);
            return None;
          }
          return Some(Ptr(pos, j, o));
        }
        pos, o := pos + 1, o + 1;
        if o == |cs[j].data| {
          j, o := j + 1, 0;
        }
      } else {
        pos := pos + |cs[j].data| - o;
        if end.Some? && j == end.value.chain {
          NoMore(s, what, start.pos, pos, limit);
          return None;
        }
        j, o := j + 1, 0;
      }
    }
    NoMore(s, what, start.pos, pos, limit);
    return None;
  }

  lemma NoMore(s: Bytes, what: Bytes, start: nat, pos: nat, limit: nat)
    requires NoneIn(s, what, start, pos) && limit < pos + |what|
    ensures IsSearchResult(s, what, start, limit, None)
  {
  }

  /** No byte of s in lo..hi is one of bs. */
  ghost predicate NoByte(s: Bytes, bs: set<Byte>, lo: nat, hi: nat) {
    hi <= |s| && forall i :: lo <= i < hi ==> s[i] !in bs
  }

  lemma ChunkNoByte(cs: seq<Chain>, j: nat, o: nat, n: nat, bs: set<Byte>)
    requires j < |cs| && o <= n <= |cs[j].data|
    requires forall i :: o <= i < n ==> cs[j].data[i] !in bs
    ensures NoByte(Flat(cs), bs, Base(cs, j) + o, Base(cs, j) + n)
  {
    ChunkBytes(cs, j);
    forall i | Base(cs, j) + o <= i < Base(cs, j) + n
      ensures Flat(cs)[i] !in bs
    {
      ByteAt(cs, j, i - Base(cs, j));
    }
  }

  /** The result of looking for one of bs from `start` on. */
  ghost predicate IsFirstByte(cs: seq<Chain>, bs: set<Byte>, start: nat, r: Option<Ptr>) {
    match r
    case Some(p) =>
      && PtrAt(cs, p) && p.chain < |cs| && p.inChain < |cs[p.chain].data|
      && start <= p.pos && cs[p.chain].data[p.inChain] in bs && NoByte(Flat(cs), bs, start, p.pos)
    case None => NoByte(Flat(cs), bs, start, |Flat(cs)|)
  }

  lemma FirstByteIs(cs: seq<Chain>, bs: set<Byte>, start: nat, p: Ptr)
    requires IsFirstByte(cs, bs, start, Some(p))
    ensures p.pos < |Flat(cs)| && Flat(cs)[p.pos] == cs[p.chain].data[p.inChain]
  {
    ByteAt(cs, p.chain, p.inChain);
  }

  /** evbuffer_strchr: the first ch at or behind the pointer. */
  method StrChr(cs: seq<Chain>, start: Ptr, ch: Byte) returns (r: Option<Ptr>)
    requires PtrAt(cs, start)
    ensures IsFirstByte(cs, {ch}, start.pos, r)
  {
    var pos: nat, j: nat, o: nat := start.pos, start.chain, start.inChain;
    PtrInBounds(cs, start);
    BaseEnds(cs);
    while j < |cs|
      invariant PtrAt(cs, Ptr(pos, j, o)) && start.pos <= pos
      invariant NoByte(Flat(cs), {ch}, start.pos, pos)
    {
      var hit := Memchr(cs[j].data, o, ch);
      var n := if hit.Some? then hit.value else |cs[j].data|;
      assert forall i :: o <= i < n ==> cs[j].data[i] == cs[j].data[o..n][i - o];
      ChunkNoByte(cs, j, o, n, {ch});
      if hit.Some? {
        return Some(Ptr(pos + hit.value - o, j, hit.value));
      }
      BaseStep(cs, j);
      pos, j, o := pos + |cs[j].data| - o, j + 1, 0;
    }
    return None;
  }

  /** find_eol_char: the first CR or LF of a piece of memory, looked for 128 bytes at a time. */
  method FindEolIn(d: Bytes, from: nat) returns (r: Option<nat>)
    requires from <= |d|
    ensures r.Some? ==> from <= r.value < |d| && d[r.value] in {CR, LF}
    ensures forall i :: from <= i < (if r.Some? then r.value else |d|) ==> d[i] !in {CR, LF}
  {
    var s := from;
    while s < |d|
      invariant from <= s && forall i :: from <= i < s && i < |d| ==> d[i] !in {CR, LF}
    {
      var e := if s + EOL_CHUNK < |d| then s + EOL_CHUNK else |d|;
      var cr := Memchr(d[..e], s, CR);
      var lf := Memchr(d[..e], s, LF);
      EolInChunk(d[..e], s, cr, lf);
      if cr.Some? {
        if lf.Some? && lf.value < cr.value {
          return lf;
        }
        return cr;
      } else if lf.Some? {
        return lf;
      }
      s := s + EOL_CHUNK;
    }
    return None;
  }

  lemma EolInChunk(d: Bytes, s: nat, cr: Option<nat>, lf: Option<nat>)
    requires s <= |d|
    requires if cr.Some? then s <= cr.value < |d| && CR !in d[s..cr.value] else CR !in d[s..|d|]
    requires if lf.Some? then s <= lf.value < |d| && LF !in d[s..lf.value] else LF !in d[s..|d|]
    ensures forall i :: s <= i < |d| && (cr.Some? ==> i < cr.value) && (lf.Some? ==> i < lf.value) ==> d[i] !in {CR, LF}
  {
    forall i | s <= i < |d| && (cr.Some? ==> i < cr.value) && (lf.Some? ==> i < lf.value)
      ensures d[i] !in {CR, LF}
    {
      var a := if cr.Some? then cr.value else |d|;
      var b := if lf.Some? then lf.value else |d|;
      assert d[s..a][i - s] == d[i] == d[s..b][i - s];
    }
  }

  /** evbuffer_find_eol_char: the first CR or LF at or behind the pointer. */
  method FindEolChar(cs: seq<Chain>, start: Ptr) returns (r: Option<Ptr>)
    requires PtrAt(cs, start)
    ensures IsFirstByte(cs, {CR, LF}, start.pos, r)
  {
    var pos: nat, j: nat, o: nat := start.pos, start.chain, start.inChain;
    PtrInBounds(cs, start);
    BaseEnds(cs);
    while j < |cs|
      invariant PtrAt(cs, Ptr(pos, j, o)) && start.pos <= pos
      invariant NoByte(Flat(cs), {CR, LF}, start.pos, pos)
    {
      var hit := FindEolIn(cs[j].data, o);
      ChunkNoByte(cs, j, o, if hit.Some? then hit.value else |cs[j].data|, {CR, LF});
      if hit.Some? {
        return Some(Ptr(pos + hit.value - o, j, hit.value));
      }
      BaseStep(cs, j);
      pos, j, o := pos + |cs[j].data| - o, j + 1, 0;
    }
    return None;
  }

  /** The bytes from i on that are one of bs, as many as there are in a row. */
  ghost predicate IsRun(s: Bytes, bs: set<Byte>, i: nat, n: nat) {
    && i + n <= |s|
    && (forall k :: i <= k < i + n ==> s[k] in bs)
    && (i + n < |s| ==> s[i + n] !in bs)
  }

  /** Some byte from position i on is not in the set. */
  ghost predicate StopsBefore(s: Bytes, bs: set<Byte>, i: nat) {
    exists k :: i <= k < |s| && s[k] !in bs
  }

  /** evbuffer_strspn: how many bytes of the set follow in a row, and the pointer behind them.
      At the end of the buffer that pointer says the start of the last chain instead. */
  method StrSpn(cs: seq<Chain>, start: Ptr, bs: set<Byte>) returns (count: nat, after: Ptr)
    requires PtrAt(cs, start)
    ensures IsRun(Flat(cs), bs, start.pos, count) && after.pos == start.pos + count
    ensures PtrAt(cs, after) || (cs != [] && after == Ptr(start.pos + count, |cs| - 1, 0))
    ensures PtrAt(cs, after) <==>
            start.chain == |cs| || cs[|cs| - 1].data == [] || StopsBefore(Flat(cs), bs, start.pos)
  {
    count := 0;
    after := start;
    PtrInBounds(cs, start);
    BaseEnds(cs);
    if start.chain == |cs| {
      return;
    }
    var j: nat, i: nat := start.chain, start.inChain;
    ghost var s := Flat(cs);
    while true
      invariant j < |cs| && PtrAt(cs, Ptr(start.pos + count, j, i)) && start.pos + count <= |s|
      invariant forall k :: start.pos <= k < start.pos + count ==> s[k] in bs
      decreases |cs| - j, |cs[j].data| - i
    {
      if i < |cs[j].data| {
        ByteAt(cs, j, i);
        if cs[j].data[i] !in bs {
          after := Ptr(start.pos + count, j, i);
          return;
        }
        count, i := count + 1, i + 1;
      } else {
        BaseStep(cs, j);
        if j + 1 == |cs| {
          after := Ptr(start.pos + count, j, 0);
          return;
        }
        j, i := j + 1, 0;
      }
    }
  }

  /** One chain that holds a CR, and the pointer behind the run of CRs: it says offset 0. */
  method SpanLosesPlace() returns (cs: seq<Chain>, after: Ptr)
    ensures Flat(cs) == [CR] && after == Ptr(1, 0, 0) && !PtrAt(cs, after)
  {
    cs := [Chain([], [CR], [])];
    FlatSingle(cs[0]);
    var count;
    count, after := StrSpn(cs, Ptr(0, 0, 0), {CR});
    assert cs[..0] == [];
  }

  /** Copies out up to datlen bytes from a position on. */
  method CopyOutFrom(buf: EvBuffer, p: Ptr, datlen: nat) returns (r: Option<Bytes>)
    requires buf.Valid() && PtrAt(buf.chains, p) && p.pos <= SSIZE_MAX
    ensures r.None? <==> datlen > SSIZE_MAX - p.pos || (buf.freezeStart && datlen > 0 && p.pos < buf.totalLen)
    ensures r.Some? ==>
              && p.pos <= |buf.Contents()|
              && r.value == buf.Contents()[p.pos..if p.pos + datlen < |buf.Contents()| then p.pos + datlen else |buf.Contents()|]
  {
    PtrInBounds(buf.chains, p);
    if datlen > SSIZE_MAX - p.pos {
      return None;
    }
    var n: nat := if datlen + p.pos > buf.totalLen then buf.totalLen - p.pos else datlen;
    if n == 0 {
      return Some([]);
    }
    if buf.freezeStart {
      return None;
    }
    var out := CopyChunks(buf.chains, p, n);
    return Some(out);
  }

  /** The loop of evbuffer_copyout_from. */
  method CopyChunks(cs: seq<Chain>, p: Ptr, n: nat) returns (out: Bytes)
    requires PtrAt(cs, p) && p.pos + n <= |Flat(cs)|
    ensures out == Flat(cs)[p.pos..p.pos + n]
  {
    out := [];
    var j: nat, o: nat := p.chain, p.inChain;
    ghost var s := Flat(cs);
    BaseEnds(cs);
    while |out| < n && n - |out| >= |cs[j].data| - o
      invariant |out| <= n && out == s[p.pos..p.pos + |out|]
      invariant |out| < n ==> j < |cs| && o <= |cs[j].data| && Base(cs, j) + o == p.pos + |out|
      decreases |cs| - j
    {
      CopyMore(cs, j, o, |cs[j].data|, p.pos, out);
      out := out + cs[j].data[o..|cs[j].data|];
      j, o := j + 1, 0;
    }
    if |out| < n {
      CopyMore(cs, j, o, o + n - |out|, p.pos, out);
      out := out + cs[j].data[o..o + n - |out|];
    }
  }

  /** A piece of a chain that follows what was copied so far. */
  lemma CopyMore(cs: seq<Chain>, j: nat, o: nat, e: nat, from: nat, out: Bytes)
    requires j < |cs| && o <= e <= |cs[j].data| && Base(cs, j) + o == from + |out| <= |Flat(cs)|
    requires out == Flat(cs)[from..from + |out|]
    ensures from + |out| + (e - o) <= |Flat(cs)|
    ensures out + cs[j].data[o..e] == Flat(cs)[from..from + |out| + (e - o)]
    ensures Base(cs, j + 1) == Base(cs, j) + |cs[j].data|
    ensures j + 1 == |cs| ==> Base(cs, j + 1) == |Flat(cs)|
  {
    BaseEnds(cs);
    BaseStep(cs, j);
    ChunkBytes(cs, j);
    SliceMore(Flat(cs), cs[j].data, Base(cs, j), o, e, from, out);
  }

  lemma SliceMore(s: Bytes, d: Bytes, base: nat, o: nat, e: nat, from: nat, out: Bytes)
    requires base + |d| <= |s| && s[base..base + |d|] == d && o <= e <= |d|
    requires base + o == from + |out| && out == s[from..from + |out|]
    ensures from + |out| + (e - o) <= |s| && out + d[o..e] == s[from..from + |out| + (e - o)]
  {
    forall k | 0 <= k < e - o
      ensures d[o..e][k] == s[base + o..base + e][k]
    {
      assert d[o + k] == s[base..base + |d|][o + k];
    }
    assert d[o..e] == s[base + o..base + e];
  }

  datatype EolStyle = AnyEol | CrLf | CrLfStrict | LfOnly | NulOnly

  /** A terminator of the style starts at i, has n bytes, and is the first one from `start` on. */
  ghost predicate IsEol(style: EolStyle, s: Bytes, start: nat, i: nat, n: nat) {
    && start <= i && i + n <= |s|
    && match style
       case AnyEol => s[i..i + n] != [] && NoByte(s, {CR, LF}, start, i) && IsRun(s, {CR, LF}, i, n)
       case CrLfStrict => n == 2 && Occurs(s, [CR, LF], i) && NoneIn(s, [CR, LF], start, i)
       case CrLf => 1 <= n && NoByte(s, {LF}, start, i + n - 1) && (
                      || (n == 1 && s[i] == LF && (i > start ==> s[i - 1] != CR))
                      || (n == 2 && s[i] == CR && s[i + 1] == LF))
       case LfOnly => n == 1 && s[i] == LF && NoByte(s, {LF}, start, i)
       case NulOnly => n == 1 && s[i] == NUL && NoByte(s, {NUL}, start, i)
  }

  /** There is no terminator of the style from `start` on. */
  ghost predicate NoEol(style: EolStyle, s: Bytes, start: nat) {
    match style
    case AnyEol => NoByte(s, {CR, LF}, start, |s|)
    case CrLfStrict => forall i :: start <= i && i + 2 <= |s| ==> !Occurs(s, [CR, LF], i)
    case CrLf => NoByte(s, {LF}, start, |s|)
    case LfOnly => NoByte(s, {LF}, start, |s|)
    case NulOnly => NoByte(s, {NUL}, start, |s|)
  }

  /** Finds the end of the line: where its terminator starts and how long that is. */
  method SearchEol(cs: seq<Chain>, totalLen: nat, start: Ptr, style: EolStyle)
    returns (it: Option<Ptr>, eolLen: nat)
    requires totalLen == |Flat(cs)| && PtrAt(cs, start)
    ensures it.Some? ==> IsEol(style, Flat(cs), start.pos, it.value.pos, eolLen)
    ensures it.None? ==> NoEol(style, Flat(cs), start.pos) && eolLen == 0
  {
    eolLen := 0;
    match style {
      case AnyEol =>
        it := FindEolChar(cs, start);
        if it.Some? {
          FirstByteIs(cs, {CR, LF}, start.pos, it.value);
          var behind;
          eolLen, behind := StrSpn(cs, it.value, {CR, LF});
        }
      case CrLfStrict =>
        it := SearchRange(cs, totalLen, [CR, LF], start, None);
        if it.Some? {
          eolLen := 2;
        }
      case CrLf =>
        it, eolLen := SearchCrLf(cs, start);
      case LfOnly =>
        it := StrChr(cs, start, LF);
        if it.Some? {
          FirstByteIs(cs, {LF}, start.pos, it.value);
          eolLen := 1;
        }
      case NulOnly =>
        it := StrChr(cs, start, NUL);
        if it.Some? {
          FirstByteIs(cs, {NUL}, start.pos, it.value);
          eolLen := 1;
        }
    }
  }

  /** An LF, together with a CR right before it unless that lies before the start. */
  method SearchCrLf(cs: seq<Chain>, start: Ptr) returns (it: Option<Ptr>, eolLen: nat)
    requires PtrAt(cs, start)
    ensures it.Some? ==> IsEol(CrLf, Flat(cs), start.pos, it.value.pos, eolLen)
    ensures it.None? ==> NoEol(CrLf, Flat(cs), start.pos) && eolLen == 0
  {
    it := StrChr(cs, start, LF);
    if it.None? {
      return None, 0;
    }
    FirstByteIs(cs, {LF}, start.pos, it.value);
    eolLen := 1;
    if it.value.pos == start.pos {
      return;
    }
    var back := PtrSubtract(cs, it.value, 1);
    ByteAt(cs, back.value.chain, back.value.inChain);
    if cs[back.value.chain].data[back.value.inChain] == CR {
      return back, 2;
    }
  }

  /** s is line, a first terminator of n bytes, and rest. */
  ghost predicate SplitsAt(style: EolStyle, s: Bytes, line: Bytes, n: nat, rest: Bytes) {
    && IsEol(style, s, 0, |line|, n)
    && s[..|line|] == line
    && s[|line| + n..] == rest
  }

  /** Takes one line off the front: the line, its terminator and what is left make up the
      old contents, and the terminator is the first one of the style. */
  method ReadLn(buf: EvBuffer, style: EolStyle) returns (line: Option<Bytes>)
    requires buf.Valid()
    modifies buf`chains, buf`lwdp, buf`totalLen
    ensures buf.Valid()
    ensures line.None? ==> buf.chains == old(buf.chains)
    ensures line.None? <==> buf.freezeStart || NoEol(style, old(buf.Contents()), 0)
    ensures line.Some? ==> exists n :: SplitsAt(style, old(buf.Contents()), line.value, n, buf.Contents())
  {
    if buf.freezeStart {
      return None;
    }
    BaseEnds(buf.chains);
    var it, eolLen := SearchEol(buf.chains, buf.totalLen, Ptr(0, 0, 0), style);
    if it.None? {
      return None;
    }
    EolOrNot(style, buf.Contents(), it.value.pos, eolLen);
    line := TakeLine(buf, style, it.value.pos, eolLen);
  }

  method TakeLine(buf: EvBuffer, ghost style: EolStyle, n: nat, eolLen: nat) returns (line: Option<Bytes>)
    requires buf.Valid() && !buf.freezeStart && IsEol(style, buf.Contents(), 0, n, eolLen)
    modifies buf`chains, buf`lwdp, buf`totalLen
    ensures buf.Valid() && line.Some?
    ensures SplitsAt(style, old(buf.Contents()), line.value, eolLen, buf.Contents())
  {
    ghost var s := buf.Contents();
    line := buf.Remove(n);
    ghost var mid := buf.Contents();
    LineOf(style, s, line.value, mid, eolLen);
    var ok := buf.Drain(eolLen);
  }

  lemma LineOf(style: EolStyle, s: Bytes, line: Bytes, mid: Bytes, eolLen: nat)
    requires s == line + mid && IsEol(style, s, 0, |line|, eolLen)
    ensures eolLen <= |mid| && SplitsAt(style, s, line, eolLen, if eolLen < |mid| then mid[eolLen..] else [])
  {
    assert s[|line|..] == mid;
    assert mid[eolLen..] == s[|line| + eolLen..];
  }

  lemma EolOrNot(style: EolStyle, s: Bytes, i: nat, n: nat)
    requires IsEol(style, s, 0, i, n)
    ensures !NoEol(style, s, 0)
  {
    if style.AnyEol? {
      assert s[i..i + n][0] == s[i];
    }
  }
}
