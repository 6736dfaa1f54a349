/** Tagged data in evbuffers: the loops that encode and decode, and the operations that append
    records to a buffer and take them off again. */
module Tagging {
  import opened IdLists
  import opened Machine
  import opened Chunks
  import opened Evbuffer
  import opened TagCodec

  // ----- the loops -----

  function SetNib(d: Bytes, j: nat, x: nat): Bytes
    requires j / 2 < |d| && x < 16
  {
    d[j / 2 := if j % 2 == 1 then d[j / 2] / 16 * 16 + x else d[j / 2] % 16 + 16 * x]
  }

  lemma NibAfter(d: Bytes, j: nat, x: nat, k: nat)
    requires j / 2 < |d| && x < 16 && k / 2 < |d|
    ensures NibAt(SetNib(d, j, x), k) == if k == j then x else NibAt(d, k)
  {
  }

  /** Nibbles 1 to off-1 are written, the others are zero. */
  ghost predicate Written(d: Bytes, n: nat, off: nat) {
    && 1 <= off <= |Nibs(n)| + 1
    && forall j :: 0 <= j < 2 * |d| ==> NibAt(d, j) == if 1 <= j < off then Nibs(n)[j - 1] else 0
  }

  lemma WrittenMore(d: Bytes, n: nat, off: nat, x: nat)
    requires Written(d, n, off) && off <= |Nibs(n)| && off / 2 < |d| && x < 16 && x == Nibs(n)[off - 1]
    ensures Written(SetNib(d, off, x), n, off + 1)
  {
    forall j | 0 <= j < 2 * |d|
      ensures NibAt(SetNib(d, off, x), j) == if 1 <= j < off + 1 then Nibs(n)[j - 1] else 0
    {
      NibAfter(d, off, x, j);
    }
  }

  /** ENCODE_INT_INTERNAL, into a buffer of width + 1 zero bytes. */
  method EncodeInt(number: nat, width: nat) returns (b: Bytes)
    requires |Nibs(number)| <= 2 * width <= 16
    ensures b == IntBytes(number)
  {
    var data: Bytes := seq(width + 1, i => 0);
    var off, left := 1, number;
    while left != 0
      invariant |data| == width + 1 && Written(data, number, off) && Nibs(left) == Nibs(number)[off - 1..]
      decreases left
    {
      var x := left % 16;
      assert Nibs(left) == [x] + Nibs(left / 16);
      WrittenMore(data, number, off, x);
      data := SetNib(data, off, x);
      left, off := left / 16, off + 1;
    }
    var nibbles := if off > 2 then off - 2 else 0;
    Finished(data, number, nibbles);
    data := SetNib(data, 0, nibbles);
    b := data[..(off + 1) / 2];
  }

  lemma Finished(d: Bytes, n: nat, nibbles: nat)
    requires |Nibs(n)| <= 16 && Written(d, n, |Nibs(n)| + 1) && (|Nibs(n)| + 2) / 2 <= |d|
    requires nibbles == if |Nibs(n)| > 1 then |Nibs(n)| - 1 else 0
    ensures SetNib(d, 0, nibbles)[..(|Nibs(n)| + 2) / 2] == IntBytes(n)
  {
    var e, b := SetNib(d, 0, nibbles), IntBytes(n);
    forall i | 0 <= i < |b|
      ensures e[..|b|][i] == b[i]
    {
      FinishedByte(d, n, nibbles, i);
    }
  }

  lemma FinishedByte(d: Bytes, n: nat, nibbles: nat, i: nat)
    requires |Nibs(n)| <= 16 && Written(d, n, |Nibs(n)| + 1) && i < (|Nibs(n)| + 2) / 2 <= |d|
    requires nibbles == if |Nibs(n)| > 1 then |Nibs(n)| - 1 else 0
    ensures SetNib(d, 0, nibbles)[i] == IntBytes(n)[i]
  {
    FinalNib(d, n, nibbles, 2 * i);
    FinalNib(d, n, nibbles, 2 * i + 1);
    PackedFrom(SetNib(d, 0, nibbles), n, i);
  }

  lemma PackedFrom(e: Bytes, n: nat, i: nat)
    requires |Nibs(n)| <= 16 && i < |e| && NibAt(e, 2 * i) == Stream(n, 2 * i) && NibAt(e, 2 * i + 1) == Stream(n, 2 * i + 1)
    ensures e[i] == Packed(n, i)
  {
    TwoNibs(e, i);
  }

  lemma FinalNib(d: Bytes, n: nat, nibbles: nat, j: nat)
    requires |Nibs(n)| <= 16 && Written(d, n, |Nibs(n)| + 1) && j < 2 * |d|
    requires nibbles == if |Nibs(n)| > 1 then |Nibs(n)| - 1 else 0
    ensures NibAt(SetNib(d, 0, nibbles), j) == Stream(n, j)
  {
    NibAfter(d, 0, nibbles, j);
  }

  lemma TwoNibs(e: Bytes, i: nat)
    requires i < |e|
    ensures e[i] == 16 * NibAt(e, 2 * i) + NibAt(e, 2 * i + 1)
  {
    assert 2 * i / 2 == i && (2 * i + 1) / 2 == i;
  }

  /** The loop of DECODE_INT_INTERNAL. */
  method DecodeNibbles(d: Bytes, n: nat) returns (number: nat)
    requires n / 2 < |d|
    ensures number == Value(d, 1, n)
  {
    number := 0;
    var nibbles := n;
    while nibbles > 0
      invariant 0 <= nibbles <= n && number == Value(d, nibbles + 1, n)
    {
      number := 16 * number + NibAt(d, nibbles);
      nibbles := nibbles - 1;
    }
  }

  /** evtag_encode_tag */
  method EncodeTag(tag: nat) returns (b: Bytes)
    ensures b == TagBytes(tag)
  {
    b := [];
    var left := tag;
    while left >= 128
      invariant b + TagBytes(left) == TagBytes(tag)
      decreases left
    {
      var x: Byte := left % 128 + 128;
      assert b + ([x] + TagBytes(left / 128)) == (b + [x]) + TagBytes(left / 128);
      b, left := b + [x], left / 128;
    }
    b := b + [left];
  }

  /** The loop of decode_tag_internal over the bytes that were made contiguous; `len` is the
      length of the whole buffer. */
  method DecodeTagBytes(d: Bytes, len: nat, ghost whole: Bytes) returns (r: Option<(nat, nat)>)
    requires d <= whole && len == |whole| && (|d| == len || |d| == 5)
    ensures r == TagFrom(whole, 0, 0)
  {
    var number: nat, count: nat := 0, 0;
    while count < len
      invariant 0 <= count <= len && count <= 5 && TagFrom(whole, 0, 0) == TagFrom(whole, count, number)
    {
      if count > 4 {
        return None;
      }
      var lower := d[count];
      assert lower == whole[count];
      if count == 4 && lower % 128 > 15 {
        return None;
      }
      number := number + lower % 128 * Pow(128, count);
      count := count + 1;
      if lower < 128 {
        return Some((number, count));
      }
    }
    return None;
  }

  // ----- records in buffers -----

  /** The buffer takes n more bytes. */
  ghost predicate Room(buf: EvBuffer, n: nat)
    reads buf
  {
    !buf.freezeEnd && buf.totalLen + n <= SIZE_MAX
  }

  /** evtag_marshal */
  method Marshal(buf: EvBuffer, r: Rec)
    requires buf.Valid() && RecOk(r)
    modifies buf`chains, buf`lwdp, buf`totalLen
    ensures buf.Valid()
    ensures old(Room(buf, |Record(r)|)) ==> buf.Contents() == old(buf.Contents()) + Record(r)
  {
    ghost var before: Bytes := buf.Contents();
    RecordLength(r);
    var t := EncodeTag(r.tag);
    Nibs32(|r.payload|);
    var l := EncodeInt(|r.payload|, 4);
    var _ := buf.Add(t);
    var _ := buf.Add(l);
    var _ := buf.Add(r.payload);
    ThreeParts(before, t, l, r.payload);
  }

  lemma ThreeParts(a: Bytes, b: Bytes, c: Bytes, d: Bytes)
    ensures ((a + b) + c) + d == a + (b + (c + d))
  {
  }

  /** evbuffer_drain of bytes that are there. */
  method TakeOff(buf: EvBuffer, n: nat)
    requires buf.Valid() && !buf.freezeStart && n <= buf.totalLen
    modifies buf`chains, buf`lwdp, buf`totalLen
    ensures buf.Valid() && n <= |old(buf.Contents())| && buf.Contents() == old(buf.Contents())[n..]
  {
    var _ := buf.Drain(n);
  }

  /** decode_tag_internal; nothing is drained off a buffer whose start is frozen. */
  method DecodeTag(buf: EvBuffer, drain: bool) returns (r: Option<(nat, nat)>)
    requires buf.Valid()
    modifies buf`chains, buf`lwdp, buf`totalLen
    ensures buf.Valid() && r == TagFrom(old(buf.Contents()), 0, 0)
    ensures r.Some? ==> r.value.1 <= |old(buf.Contents())|
    ensures buf.Contents() ==
            if drain && !buf.freezeStart && r.Some? then old(buf.Contents())[r.value.1..] else old(buf.Contents())
  {
    ghost var whole: Bytes := buf.Contents();
    var n := if buf.totalLen < 5 then buf.totalLen else 5;
    var data := buf.Pullup(n);
    if data.None? {
      return None;
    }
    r := DecodeTagBytes(data.value, buf.totalLen, whole);
    if r.Some? {
      TagCount(whole, 0, 0);
      if drain {
        var _ := buf.Drain(r.value.1);
      }
    }
  }

  /** decode_int_internal and decode_int64_internal, at an offset and without draining. */
  method DecodeInt(buf: EvBuffer, offset: nat, maxNibbles: nat) returns (r: Option<(nat, nat)>)
    requires buf.Valid() && offset <= buf.totalLen <= MAX_CAPACITY && maxNibbles <= 16
    modifies buf`chains, buf`lwdp
    ensures buf.Valid() && buf.Contents() == old(buf.Contents())
    ensures r == IntFrom(buf.Contents()[offset..], maxNibbles)
  {
    ghost var d: Bytes := buf.Contents()[offset..];
    if buf.totalLen == offset {
      return None;
    }
    var first := buf.Pullup(offset + 1);
    assert first.value[offset] == d[0];
    var n: nat := first.value[offset] / 16 + 1;
    if n > maxNibbles || n / 2 + 1 > buf.totalLen - offset {
      return None;
    }
    var len := n / 2 + 1;
    var data := buf.Pullup(offset + len);
    var bytes: Bytes := data.value[offset..];
    assert bytes == d[..len];
    var number := DecodeNibbles(bytes, n);
    SameValue(d, len, 1, n);
    return Some((number, len));
  }

  lemma {:induction false} SameValue(d: Bytes, len: nat, j: nat, n: nat)
    requires n / 2 < len <= |d|
    ensures Value(d[..len], j, n) == Value(d, j, n)
    decreases n + 1 - j
  {
    if j <= n {
      SameValue(d, len, j + 1, n);
    }
  }

  /** An unsigned 32-bit length as the int in which it is returned. */
  function SignedLen(n: nat): int {
    if n > INT_MAX then n - TWO32 else n
  }

  /** What evtag_unmarshal_header returns: -1 for a failure, and also for the largest length. */
  function HeaderLen(p: Parsed): int {
    if p.head.None? then -1 else SignedLen(p.head.value.1)
  }

  /** The length comes back as it is if and only if it is at most INT_MAX. */
  lemma HeaderSign(p: Parsed)
    requires p.head.Some? ==> p.head.value.1 < TWO32
    ensures HeaderLen(p) >= 0 <==> p.head.Some? && p.head.value.1 <= INT_MAX
    ensures HeaderLen(p) >= 0 ==> HeaderLen(p) == p.head.value.1
  {
  }

  /** What draining by such a length leaves: a negative one is a huge unsigned word. */
  function DrainedBy(d: Bytes, len: int): Bytes {
    if 0 <= len < |d| then d[len..] else []
  }

  /** The part of evtag_unmarshal_header before the length is made an int. */
  method ReadHeader(buf: EvBuffer) returns (r: Option<(nat, nat)>)
    requires buf.Valid() && !buf.freezeStart && buf.totalLen <= MAX_CAPACITY
    modifies buf`chains, buf`lwdp, buf`totalLen
    ensures buf.Valid() && Parsed(r, buf.Contents()) == HeaderFrom(old(buf.Contents()))
  {
    var t := DecodeTag(buf, true);
    if t.None? {
      return None;
    }
    var n := DecodeInt(buf, 0, 8);
    assert buf.Contents()[0..] == buf.Contents();
    if n.None? {
      return None;
    }
    TakeOff(buf, n.value.1);
    if buf.totalLen < n.value.0 {
      return None;
    }
    return Some((t.value.0, n.value.0));
  }

  /** evtag_unmarshal_header */
  method UnmarshalHeader(buf: EvBuffer) returns (tag: nat, len: int)
    requires buf.Valid() && !buf.freezeStart && buf.totalLen <= MAX_CAPACITY
    modifies buf`chains, buf`lwdp, buf`totalLen
    ensures buf.Valid() && |buf.Contents()| <= |old(buf.Contents())|
    ensures
      && var p := HeaderFrom(old(buf.Contents()));
      && len == HeaderLen(p) && buf.Contents() == p.rest
      && (p.head.Some? ==> tag == p.head.value.0)
  {
    var h := ReadHeader(buf);
    if h.None? {
      return 0, -1;
    }
    return h.value.0, SignedLen(h.value.1);
  }

  /** Drains by a length that may be negative. */
  method DrainSigned(buf: EvBuffer, len: int)
    requires buf.Valid() && !buf.freezeStart && -TWO63 <= len && buf.totalLen < TWO63
    modifies buf`chains, buf`lwdp, buf`totalLen
    ensures buf.Valid() && buf.Contents() == DrainedBy(old(buf.Contents()), len)
  {
    var _ := buf.Drain(if len < 0 then len + TWO64 else len);
  }

  /** evtag_consume: takes off one whole record, or fails. A record of more than INT_MAX bytes
      takes everything that follows with it, or counts as a failure when its length is the
      largest there is. */
  method Consume(buf: EvBuffer) returns (ok: bool)
    requires buf.Valid() && !buf.freezeStart && buf.totalLen <= MAX_CAPACITY
    modifies buf`chains, buf`lwdp, buf`totalLen
    ensures buf.Valid()
    ensures
      && var p := HeaderFrom(old(buf.Contents()));
      && (ok <==> HeaderLen(p) != -1)
      && buf.Contents() == (if ok then DrainedBy(p.rest, HeaderLen(p)) else p.rest)
      && (p.head.Some? ==>
            var n := p.head.value.1;
            (ok && buf.Contents() == p.rest[n..] <==> n <= INT_MAX || (n == |p.rest| && n != TWO32 - 1)))
  {
    var _, len := UnmarshalHeader(buf);
    if len == -1 {
      return false;
    }
    DrainSigned(buf, len);
    return true;
  }

  /** A new buffer that holds a record and more bytes behind it. */
  method Marshalled(r: Rec, rest: Bytes) returns (buf: EvBuffer)
    requires RecOk(r) && |rest| <= INT_MAX
    ensures fresh(buf) && buf.Valid() && buf.Contents() == Record(r) + rest && !buf.freezeStart
  {
    buf := new EvBuffer();
    RecordLength(r);
    Marshal(buf, r);
    assert buf.Contents() == Record(r);
    var _ := buf.Add(rest);
  }

  /** A record of more than INT_MAX bytes, and what follows it: consuming the one takes both. */
  method ConsumesTooMuch(r: Rec, rest: Bytes) returns (buf: EvBuffer, ok: bool)
    requires RecOk(r) && INT_MAX < |r.payload| < TWO32 - 1 && 0 < |rest| <= INT_MAX
    ensures ok && buf.Valid() && buf.Contents() == [] != rest
  {
    buf := Marshalled(r, rest);
    RecordLength(r);
    RecordHeader(r, rest);
    ghost var p := HeaderFrom(Record(r) + rest);
    assert SignedLen(|r.payload|) < -1 && HeaderLen(p) == SignedLen(|r.payload|);
    ok := Consume(buf);
  }

  /** evtag_unmarshal: the payload is appended to dst and the record is gone from src. It fails
      for a payload of more than INT_MAX bytes. */
  method Unmarshal(src: EvBuffer, dst: EvBuffer) returns (r: Option<(nat, nat)>)
    requires src.Valid() && dst.Valid() && src != dst && !src.freezeStart && src.totalLen <= MAX_CAPACITY
    requires Room(dst, src.totalLen)
    modifies src`chains, src`lwdp, src`totalLen, dst`chains, dst`lwdp, dst`totalLen
    ensures src.Valid() && dst.Valid()
    ensures
      && var p := HeaderFrom(old(src.Contents()));
      && r == (if p.head.Some? && p.head.value.1 <= INT_MAX then p.head else None)
      && (r.None? ==> src.Contents() == p.rest && dst.Contents() == old(dst.Contents()))
      && (r.Some? ==> src.Contents() == p.rest[r.value.1..] && dst.Contents() == old(dst.Contents()) + p.rest[..r.value.1])
  {
    ghost var p := HeaderFrom(src.Contents());
    var tag, len := UnmarshalHeader(src);
    r := UnmarshalBody(src, dst, tag, len, p);
  }

  /** What evtag_unmarshal does behind a header p that was read as tag and len. */
  method UnmarshalBody(src: EvBuffer, dst: EvBuffer, tag: nat, len: int, ghost p: Parsed) returns (r: Option<(nat, nat)>)
    requires src.Valid() && dst.Valid() && src != dst && !src.freezeStart && src.totalLen <= MAX_CAPACITY
    requires Room(dst, src.totalLen) && src.Contents() == p.rest && len == HeaderLen(p)
    requires p.head.Some? ==> tag == p.head.value.0 && p.head.value.1 <= |p.rest| && p.head.value.1 < TWO32
    modifies src`chains, src`lwdp, src`totalLen, dst`chains, dst`lwdp, dst`totalLen
    ensures src.Valid() && dst.Valid()
    ensures r == (if p.head.Some? && p.head.value.1 <= INT_MAX then p.head else None)
    ensures r.None? ==> src.Contents() == p.rest && dst.Contents() == old(dst.Contents())
    ensures r.Some? ==> src.Contents() == p.rest[r.value.1..] && dst.Contents() == old(dst.Contents()) + p.rest[..r.value.1]
  {
    HeaderSign(p);
    if len == -1 {
      return None;
    }
    var data := src.Pullup(len);
    if len < 0 {
      // No chain can be allocated for that many bytes, so evbuffer_add fails.
      return None;
    }
    MovePayload(src, dst, len, if data.Some? then data.value else []);
    return Some((tag, len));
  }

  /** The bytes that were made contiguous go from the front of src to the end of dst. */
  method MovePayload(src: EvBuffer, dst: EvBuffer, len: nat, bytes: Bytes)
    requires src.Valid() && dst.Valid() && src != dst && !src.freezeStart && len <= src.totalLen <= MAX_CAPACITY
    requires Room(dst, src.totalLen) && len <= |src.Contents()| && bytes == src.Contents()[..len]
    modifies src`chains, src`lwdp, src`totalLen, dst`chains, dst`lwdp, dst`totalLen
    ensures src.Valid() && dst.Valid()
    ensures src.Contents() == old(src.Contents())[len..] && dst.Contents() == old(dst.Contents()) + old(src.Contents())[..len]
  {
    var _ := dst.Add(bytes);
    TakeOff(src, len);
  }

  /** evtag_peek_length */
  method PeekLength(buf: EvBuffer) returns (r: Option<nat>)
    requires buf.Valid() && buf.totalLen <= MAX_CAPACITY
    modifies buf`chains, buf`lwdp, buf`totalLen
    ensures buf.Valid() && buf.Contents() == old(buf.Contents()) && r == PeekedLength(buf.Contents())
  {
    ghost var d: Bytes := buf.Contents();
    var t := DecodeTag(buf, false);
    if t.None? {
      return None;
    }
    var n := DecodeInt(buf, t.value.1, 8);
    PeekedParts(d, t.value, n);
    if n.None? {
      return None;
    }
    return Some((n.value.0 + n.value.1 + t.value.1) % TWO32);
  }

  lemma PeekedParts(d: Bytes, t: (nat, nat), n: Option<(nat, nat)>)
    requires TagFrom(d, 0, 0) == Some(t) && t.1 <= |d| && n == IntFrom(d[t.1..], 8)
    ensures PeekedLength(d) == if n.None? then None else Some((n.value.0 + n.value.1 + t.1) % TWO32)
  {
  }

  // ----- integers and times -----

  /** evtag_marshal_int and evtag_marshal_int64: the record whose payload is the number. */
  method MarshalInt(buf: EvBuffer, tag: nat, n: nat, width: nat)
    requires buf.Valid() && tag < TWO32 && |Nibs(n)| <= 2 * width <= 16
    modifies buf`chains, buf`lwdp, buf`totalLen
    ensures buf.Valid()
    ensures old(Room(buf, |Record(Rec(tag, IntBytes(n)))|)) ==> buf.Contents() == old(buf.Contents()) + Record(Rec(tag, IntBytes(n)))
  {
    var data := EncodeInt(n, width);
    Marshal(buf, Rec(tag, data));
  }

  /** What evtag_unmarshal_int makes of a byte string: the number if there is one, and what is
      left of the string. */
  function IntRecordFrom(d: Bytes, needTag: nat, maxNibbles: nat): (Option<nat>, Bytes) {
    var t := TagFrom(d, 0, 0);
    if t.None? then (None, d)
    else
      TagCount(d, 0, 0);
      var d1 := d[t.value.1..];
      if t.value.0 != needTag then (None, d1) else SizedIntFrom(d1, maxNibbles)
  }

  function SizedIntFrom(d: Bytes, maxNibbles: nat): (Option<nat>, Bytes) {
    var n := IntFrom(d, 8);
    if n.None? then (None, d)
    else
      var d2 := d[n.value.1..];
      if |d2| < n.value.0 then (None, d2)
      else
        var v := IntFrom(d2, maxNibbles);
        (if v.None? || v.value.1 > n.value.0 then None else Some(v.value.0), d2[n.value.0..])
  }

  /** evtag_unmarshal_int and evtag_unmarshal_int64 */
  method UnmarshalInt(buf: EvBuffer, needTag: nat, maxNibbles: nat) returns (r: Option<nat>)
    requires buf.Valid() && !buf.freezeStart && buf.totalLen <= MAX_CAPACITY && maxNibbles <= 16
    modifies buf`chains, buf`lwdp, buf`totalLen
    ensures buf.Valid() && (r, buf.Contents()) == IntRecordFrom(old(buf.Contents()), needTag, maxNibbles)
    ensures r.Some? ==> TagFrom(old(buf.Contents()), 0, 0).Some? && TagFrom(old(buf.Contents()), 0, 0).value.0 == needTag
  {
    var t := DecodeTag(buf, true);
    if t.None? || t.value.0 != needTag {
      return None;
    }
    r := UnmarshalSized(buf, maxNibbles);
  }

  method UnmarshalSized(buf: EvBuffer, maxNibbles: nat) returns (r: Option<nat>)
    requires buf.Valid() && !buf.freezeStart && buf.totalLen <= MAX_CAPACITY && maxNibbles <= 16
    modifies buf`chains, buf`lwdp, buf`totalLen
    ensures buf.Valid() && (r, buf.Contents()) == SizedIntFrom(old(buf.Contents()), maxNibbles)
  {
    ghost var d: Bytes := buf.Contents();
    var n := DecodeInt(buf, 0, 8);
    assert d[0..] == d;
    if n.None? {
      return None;
    }
    TakeOff(buf, n.value.1);
    ghost var d2: Bytes := buf.Contents();
    if buf.totalLen < n.value.0 {
      return None;
    }
    var v := DecodeInt(buf, 0, maxNibbles);
    assert d2[0..] == d2;
    TakeOff(buf, n.value.0);
    return if v.None? || v.value.1 > n.value.0 then None else Some(v.value.0);
  }

  lemma SizedRoundTrip(n: nat, maxNibbles: nat, rest: Bytes)
    requires 1 <= maxNibbles <= 16 && |Nibs(n)| <= maxNibbles
    ensures SizedIntFrom(Int32Bytes(|IntBytes(n)|) + (IntBytes(n) + rest), maxNibbles) == (Some(n), rest)
  {
    var p := IntBytes(n);
    var l := Int32Bytes(|p|);
    Nibs32(|p|);
    IntRoundTrip(|p|, 8, p + rest);
    assert (l + (p + rest))[|l|..] == p + rest;
    IntRoundTrip(n, maxNibbles, rest);
    assert (p + rest)[|p|..] == rest;
  }

  /** A marshalled number unmarshals to itself, whatever follows. */
  lemma IntRecordRoundTrip(tag: nat, n: nat, maxNibbles: nat, rest: Bytes)
    requires tag < TWO32 && 1 <= maxNibbles <= 16 && |Nibs(n)| <= maxNibbles
    ensures IntRecordFrom(Record(Rec(tag, IntBytes(n))) + rest, tag, maxNibbles) == (Some(n), rest)
  {
    RecordParts(Rec(tag, IntBytes(n)), rest);
    SizedRoundTrip(n, maxNibbles, rest);
  }

  /** What follows a byte string does not change the number in it, only whether there is enough. */
  lemma IntFromPrefix(p: Bytes, rest: Bytes, maxNibbles: nat)
    ensures
      && var v := IntFrom(p + rest, maxNibbles);
      && IntFrom(p, maxNibbles) == if v.Some? && v.value.1 <= |p| then v else None
  {
    if p != [] {
      var n := p[0] / 16 + 1;
      assert (p + rest)[0] == p[0];
      if n / 2 < |p| {
        assert (p + rest)[..|p|] == p;
        SameValue(p + rest, |p|, 1, n);
      }
    }
  }

  /** Any record with the tag asked for is read as the number that its own payload holds, or as
      none, and is gone. */
  lemma IntRecordOf(r: Rec, maxNibbles: nat, rest: Bytes)
    requires RecOk(r)
    ensures
      && var v := IntFrom(r.payload, maxNibbles);
      && IntRecordFrom(Record(r) + rest, r.tag, maxNibbles) == (if v.Some? then Some(v.value.0) else None, rest)
  {
    RecordParts(r, rest);
    var l := Int32Bytes(|r.payload|);
    assert (l + (r.payload + rest))[|l|..] == r.payload + rest;
    IntFromPrefix(r.payload, rest, maxNibbles);
    assert (r.payload + rest)[|r.payload|..] == rest;
  }

  /** Asked for any other tag, no record is read as a number, and only its tag is gone. */
  lemma OtherTag(r: Rec, needTag: nat, maxNibbles: nat, rest: Bytes)
    requires RecOk(r) && needTag != r.tag
    ensures IntRecordFrom(Record(r) + rest, needTag, maxNibbles) == (None, Int32Bytes(|r.payload|) + (r.payload + rest))
  {
    RecordParts(r, rest);
  }

  /** The payload of evtag_marshal_timeval: the low 32 bits of seconds and microseconds. */
  function TimeBytes(sec: int, usec: int): Bytes {
    Int32Bytes(sec % TWO32) + Int32Bytes(usec % TWO32)
  }

  /** evtag_marshal_timeval */
  method MarshalTime(buf: EvBuffer, tag: nat, sec: int, usec: int)
    requires buf.Valid() && tag < TWO32
    modifies buf`chains, buf`lwdp, buf`totalLen
    ensures buf.Valid() && RecOk(Rec(tag, TimeBytes(sec, usec)))
    ensures
      && var r := Record(Rec(tag, TimeBytes(sec, usec)));
      && (old(Room(buf, |r|)) ==> buf.Contents() == old(buf.Contents()) + r)
  {
    Nibs32(sec % TWO32);
    Nibs32(usec % TWO32);
    var a := EncodeInt(sec % TWO32, 4);
    var b := EncodeInt(usec % TWO32, 4);
    Marshal(buf, Rec(tag, a + b));
  }

  /** Two numbers in the first len bytes. */
  function PairFrom(d: Bytes, len: int): Option<(nat, nat)> {
    var s := IntFrom(d, 8);
    if s.None? then None
    else
      var u := IntFrom(d[s.value.1..], 8);
      if u.None? || s.value.1 + u.value.1 > len then None else Some((s.value.0, u.value.0))
  }

  /** What evtag_unmarshal_timeval makes of a byte string. */
  function TimeFrom(d: Bytes, needTag: nat): (Option<(nat, nat)>, Bytes) {
    var p := HeaderFrom(d);
    var len := HeaderLen(p);
    if len == -1 then (None, p.rest)
    else (if p.head.value.0 != needTag then None else PairFrom(p.rest, len), DrainedBy(p.rest, len))
  }

  method DecodePair(buf: EvBuffer, len: int) returns (r: Option<(nat, nat)>)
    requires buf.Valid() && buf.totalLen <= MAX_CAPACITY
    modifies buf`chains, buf`lwdp
    ensures buf.Valid() && buf.Contents() == old(buf.Contents()) && r == PairFrom(buf.Contents(), len)
  {
    ghost var d: Bytes := buf.Contents();
    var s := DecodeInt(buf, 0, 8);
    assert d[0..] == d;
    if s.None? {
      return None;
    }
    var u := DecodeInt(buf, s.value.1, 8);
    return if u.None? || s.value.1 + u.value.1 > len then None else Some((s.value.0, u.value.0));
  }

  /** evtag_unmarshal_timeval */
  method UnmarshalTime(buf: EvBuffer, needTag: nat) returns (r: Option<(nat, nat)>)
    requires buf.Valid() && !buf.freezeStart && buf.totalLen <= MAX_CAPACITY
    modifies buf`chains, buf`lwdp, buf`totalLen
    ensures buf.Valid() && (r, buf.Contents()) == TimeFrom(old(buf.Contents()), needTag)
    ensures r.Some? ==> TagFrom(old(buf.Contents()), 0, 0).Some? && TagFrom(old(buf.Contents()), 0, 0).value.0 == needTag
  {
    var tag, len := UnmarshalHeader(buf);
    if len == -1 {
      return None;
    }
    r := None;
    if tag == needTag {
      r := DecodePair(buf, len);
    }
    DrainSigned(buf, len);
  }

  lemma PairRoundTrip(sec: nat, usec: nat, rest: Bytes)
    requires sec < TWO32 && usec < TWO32
    ensures
      && var d := Int32Bytes(sec) + Int32Bytes(usec);
      && PairFrom(d + rest, |d|) == Some((sec, usec))
  {
    Nibs32(sec);
    Nibs32(usec);
    var a, b := Int32Bytes(sec), Int32Bytes(usec);
    assert (a + b) + rest == a + (b + rest);
    IntRoundTrip(sec, 8, b + rest);
    IntRoundTrip(usec, 8, rest);
    assert (a + (b + rest))[|a|..] == b + rest;
  }

  lemma WireTime(tag: nat, sec: nat, usec: nat, rest: Bytes)
    requires tag < TWO32 && sec < TWO32 && usec < TWO32
    ensures
      && var r := Rec(tag, Int32Bytes(sec) + Int32Bytes(usec));
      && RecOk(r) && TimeFrom(Record(r) + rest, tag) == (Some((sec, usec)), rest)
  {
    Nibs32(sec);
    Nibs32(usec);
    var p := Int32Bytes(sec) + Int32Bytes(usec);
    RecordHeader(Rec(tag, p), rest);
    PairRoundTrip(sec, usec, rest);
    assert (p + rest)[|p|..] == rest;
  }

  /** A marshalled time comes back modulo 2^32, whatever follows; so it comes back as it is if
      and only if both numbers have 32 bits. */
  lemma TimeRoundTrip(tag: nat, sec: int, usec: int, rest: Bytes)
    requires tag < TWO32
    ensures RecOk(Rec(tag, TimeBytes(sec, usec)))
    ensures
      && var back := TimeFrom(Record(Rec(tag, TimeBytes(sec, usec))) + rest, tag);
      && back == (Some((sec % TWO32, usec % TWO32)), rest)
      && (back.0 == Some((sec, usec)) <==> 0 <= sec < TWO32 && 0 <= usec < TWO32)
  {
    WireTime(tag, sec % TWO32, usec % TWO32, rest);
    Unwrapped(sec);
    Unwrapped(usec);
  }

  /** Any record with the tag asked for is read as the two numbers that its own payload holds,
      or as none, and is gone. */
  lemma TimeRecordOf(r: Rec, rest: Bytes)
    requires RecOk(r) && Readable(r)
    ensures TimeFrom(Record(r) + rest, r.tag) == (PairFrom(r.payload, |r.payload|), rest)
  {
    RecordHeader(r, rest);
    PairFromPrefix(r.payload, rest);
    assert (r.payload + rest)[|r.payload|..] == rest;
  }

  /** What follows the first len bytes does not change the two numbers in them. */
  lemma PairFromPrefix(p: Bytes, rest: Bytes)
    ensures PairFrom(p + rest, |p|) == PairFrom(p, |p|)
  {
    IntFromPrefix(p, rest, 8);
    var s := IntFrom(p, 8);
    if s.Some? {
      var q := p[s.value.1..];
      assert (p + rest)[s.value.1..] == q + rest;
      IntFromPrefix(q, rest, 8);
    }
  }

  /** Asked for any other tag, no record is read as a time, and the whole record is gone. */
  lemma OtherTimeTag(r: Rec, needTag: nat, rest: Bytes)
    requires RecOk(r) && Readable(r) && needTag != r.tag
    ensures TimeFrom(Record(r) + rest, needTag) == (None, rest)
  {
    RecordHeader(r, rest);
    assert (r.payload + rest)[|r.payload|..] == rest;
  }

  // ----- a whole exchange -----

  /** Records that are marshalled into a buffer one after the other come out of it as they went
      in, and leave it empty, if and only if none of them is longer than INT_MAX. */
  method Exchange(rs: seq<Rec>) returns (out: seq<Rec>, buf: EvBuffer)
    requires RecsOk(rs) && |Records(rs)| <= MAX_CAPACITY
    ensures buf.Valid() && (out, buf.Contents()) == UnmarshalAll(Records(rs))
    ensures out == rs && buf.Contents() == [] <==> AllReadable(rs)
  {
    buf := new EvBuffer();
    assert Records(rs[|rs|..]) == [];
    for i := 0 to |rs|
      invariant fresh(buf) && buf.Valid() && !buf.freezeStart && !buf.freezeEnd
      invariant buf.Contents() + Records(rs[i..]) == Records(rs)
    {
      ghost var before: Bytes := buf.Contents();
      assert rs[i..][0] == rs[i] && rs[i..][1..] == rs[i + 1..];
      assert Records(rs[i..]) == Record(rs[i]) + Records(rs[i + 1..]);
      Marshal(buf, rs[i]);
      Assoc(before, Record(rs[i]), Records(rs[i + 1..]));
    }
    assert buf.Contents() + [] == buf.Contents();
    StreamRoundTrip(rs);
    out := TakeAll(buf);
  }

  /** Unmarshals records until it fails. */
  method TakeAll(buf: EvBuffer) returns (out: seq<Rec>)
    requires buf.Valid() && !buf.freezeStart && buf.totalLen <= MAX_CAPACITY
    modifies buf`chains, buf`lwdp, buf`totalLen
    ensures buf.Valid() && (out, buf.Contents()) == UnmarshalAll(old(buf.Contents()))
  {
    out := [];
    ghost var goal := UnmarshalAll(buf.Contents());
    assert [] + goal.0 == goal.0;
    while true
      invariant buf.Valid() && buf.totalLen <= MAX_CAPACITY && Remaining(out, buf.Contents(), goal)
      decreases buf.totalLen
    {
      ghost var before: Bytes := buf.Contents();
      var r := TakeOne(buf);
      if r.None? {
        assert out + [] == out;
        return;
      }
      OneTaken(out, r.value, before, buf.Contents(), goal);
      out := out + [r.value];
    }
  }

  /** The records taken so far and those that are left make up the goal. */
  ghost predicate Remaining(out: seq<Rec>, d: Bytes, goal: (seq<Rec>, Bytes)) {
    out + UnmarshalAll(d).0 == goal.0 && UnmarshalAll(d).1 == goal.1
  }

  lemma OneTaken(out: seq<Rec>, r: Rec, d: Bytes, d': Bytes, goal: (seq<Rec>, Bytes))
    requires Remaining(out, d, goal)
    requires
      && var (more, rest) := UnmarshalAll(d);
      && more != [] && r == more[0] && UnmarshalAll(d') == (more[1..], rest)
    ensures Remaining(out + [r], d', goal)
  {
    var more := UnmarshalAll(d).0;
    assert (out + [r]) + more[1..] == out + more;
  }

  method TakeOne(buf: EvBuffer) returns (r: Option<Rec>)
    requires buf.Valid() && !buf.freezeStart && buf.totalLen <= MAX_CAPACITY
    modifies buf`chains, buf`lwdp, buf`totalLen
    ensures buf.Valid() && buf.totalLen <= old(buf.totalLen) && (r.Some? ==> buf.totalLen < old(buf.totalLen))
    ensures
      && var (more, rest) := UnmarshalAll(old(buf.Contents()));
      && if r.None? then more == [] && buf.Contents() == rest
         else more != [] && r.value == more[0] && UnmarshalAll(buf.Contents()) == (more[1..], rest)
  {
    var dst := new EvBuffer();
    ghost var none: Bytes := dst.Contents();
    ghost var d: Bytes := buf.Contents();
    var h := Unmarshal(buf, dst);
    if h.None? {
      return None;
    }
    assert none + HeaderFrom(d).rest[..h.value.1] == HeaderFrom(d).rest[..h.value.1];
    var payload := TakeContents(dst);
    ghost var more := UnmarshalAll(buf.Contents()).0;
    assert ([Rec(h.value.0, payload)] + more)[1..] == more;
    return Some(Rec(h.value.0, payload));
  }

  method TakeContents(buf: EvBuffer) returns (b: Bytes)
    requires buf.Valid() && !buf.freezeStart
    modifies buf`chains, buf`lwdp, buf`totalLen
    ensures buf.Valid() && b == old(buf.Contents())
  {
    var r := buf.Remove(buf.totalLen);
    b := r.value;
    assert b + buf.Contents() == old(buf.Contents()) && |b| == |old(buf.Contents())|;
    assert b == (b + buf.Contents())[..|b|];
  }
}
