/** The wire format of tagged data: integers in nibbles, tags in groups of seven bits. */
module TagCodec {
  import opened IdLists
  import opened Machine
  import opened Chunks

  // ----- integers -----

  /** The nibbles of a number, least significant first. */
  function Nibs(n: nat): seq<nat> {
    if n == 0 then [] else [n % 16] + Nibs(n / 16)
  }

  /** Nibble j of an encoded number: its number of nibbles less one, the nibbles, and padding. */
  function Stream(n: nat, j: nat): (x: nat) {
    if j == 0 then (if n == 0 then 0 else |Nibs(n)| - 1)
    else if j <= |Nibs(n)| then Nibs(n)[j - 1]
    else 0
  }

  function Pow(b: nat, k: nat): nat {
    if k == 0 then 1 else b * Pow(b, k - 1)
  }

  lemma {:induction false} NibsSmall(n: nat, k: nat)
    requires n < Pow(16, k)
    ensures |Nibs(n)| <= k
  {
    if n > 0 {
      if k == 0 {
        assert false;
      }
      NibsSmall(n / 16, k - 1);
    }
  }

  lemma {:induction false} NibsRange(n: nat, i: nat)
    requires i < |Nibs(n)|
    ensures Nibs(n)[i] < 16
  {
    if i > 0 {
      NibsRange(n / 16, i - 1);
    }
  }

  lemma StreamRange(n: nat, j: nat)
    requires |Nibs(n)| <= 16
    ensures Stream(n, j) < 16
  {
    if 0 < j <= |Nibs(n)| {
      NibsRange(n, j - 1);
    }
  }

  /** An encoded number: two nibbles a byte. */
  function IntBytes(n: nat): (b: Bytes)
    requires |Nibs(n)| <= 16
    ensures |b| == (|Nibs(n)| + 2) / 2
  {
    seq((|Nibs(n)| + 2) / 2, i requires 0 <= i => Packed(n, i))
  }

  function Packed(n: nat, i: nat): Byte
    requires |Nibs(n)| <= 16
  {
    StreamRange(n, 2 * i);
    StreamRange(n, 2 * i + 1);
    16 * Stream(n, 2 * i) + Stream(n, 2 * i + 1)
  }

  /** Nibble j of a byte string. */
  function NibAt(d: Bytes, j: nat): nat
    requires j / 2 < |d|
  {
    if j % 2 == 1 then d[j / 2] % 16 else d[j / 2] / 16
  }

  /** The number in nibbles j to n. */
  function Value(d: Bytes, j: nat, n: nat): nat
    requires n / 2 < |d|
    decreases n + 1 - j
  {
    if j > n then 0 else NibAt(d, j) + 16 * Value(d, j + 1, n)
  }

  /** What DECODE_INT_INTERNAL reads at the start of a byte string: a number and its length. */
  function IntFrom(d: Bytes, maxNibbles: nat): Option<(nat, nat)> {
    if d == [] then None
    else
      var n := d[0] / 16 + 1;
      if n > maxNibbles || n / 2 + 1 > |d| then None
      else Some((Value(d, 1, n), n / 2 + 1))
  }

  lemma {:induction false} ValueBound(d: Bytes, j: nat, n: nat)
    requires n / 2 < |d| && j <= n + 1
    ensures Value(d, j, n) < Pow(16, n + 1 - j)
    decreases n + 1 - j
  {
    if j <= n {
      ValueBound(d, j + 1, n);
    }
  }

  lemma {:induction false} PowOf16(k: nat)
    requires k <= 8
    ensures Pow(16, k) * Pow(16, 8 - k) == Pow(16, 8) && Pow(16, 8 - k) >= 1
  {
    if k > 0 {
      PowOf16(k - 1);
      assert Pow(16, 9 - k) == 16 * Pow(16, 8 - k);
    }
  }

  /** A number of at most eight nibbles is a 32-bit one. */
  lemma IntFrom32(d: Bytes)
    ensures IntFrom(d, 8).Some? ==> IntFrom(d, 8).value.0 < TWO32
  {
    if IntFrom(d, 8).Some? {
      var n := d[0] / 16 + 1;
      ValueBound(d, 1, n);
      PowOf16(n);
      MulMono(1, Pow(16, 8 - n), Pow(16, n));
      Pow16Eight();
    }
  }

  lemma Pow16Eight()
    ensures Pow(16, 8) == TWO32
  {
    assert Pow(16, 2) == 256;
    assert Pow(16, 4) == 16 * (16 * Pow(16, 2));
    assert Pow(16, 6) == 16 * (16 * Pow(16, 4));
    assert Pow(16, 8) == 16 * (16 * Pow(16, 6));
  }

  lemma EncodedNib(n: nat, rest: Bytes, j: nat)
    requires |Nibs(n)| <= 16 && j / 2 < |IntBytes(n)|
    ensures NibAt(IntBytes(n) + rest, j) == Stream(n, j)
  {
    var i := j / 2;
    StreamRange(n, 2 * i);
    StreamRange(n, 2 * i + 1);
    assert (IntBytes(n) + rest)[i] == Packed(n, i);
    HalfBytes(Stream(n, 2 * i), Stream(n, 2 * i + 1));
    if j % 2 == 1 {
      assert j == 2 * i + 1;
    } else {
      assert j == 2 * i;
    }
  }

  lemma HalfBytes(a: nat, b: nat)
    requires a < 16 && b < 16
    ensures (16 * a + b) / 16 == a && (16 * a + b) % 16 == b
  {
  }

  lemma {:induction false} ValueIs(n: nat, rest: Bytes, j: nat, m: nat)
    requires |Nibs(n)| <= 16 && 1 <= j <= |Nibs(n)| + 1 && Nibs(m) == Nibs(n)[j - 1..]
    ensures |Nibs(n)| / 2 < |IntBytes(n) + rest| && Value(IntBytes(n) + rest, j, |Nibs(n)|) == m
    decreases |Nibs(n)| + 1 - j
  {
    if j <= |Nibs(n)| {
      EncodedNib(n, rest, j);
      assert Nibs(m) == [m % 16] + Nibs(m / 16);
      ValueIs(n, rest, j + 1, m / 16);
    }
  }

  lemma Header(n: nat, rest: Bytes)
    requires |Nibs(n)| <= 16
    ensures IntBytes(n) + rest != [] && (IntBytes(n) + rest)[0] / 16 + 1 == if n == 0 then 1 else |Nibs(n)|
  {
    EncodedNib(n, rest, 0);
  }

  lemma ZeroValue(rest: Bytes)
    ensures IntBytes(0) + rest != [] && Value(IntBytes(0) + rest, 1, 1) == 0 && |IntBytes(0)| == 1
  {
    EncodedNib(0, rest, 1);
  }

  /** Every number that fits the field decodes to itself, whatever follows. */
  lemma IntRoundTrip(n: nat, maxNibbles: nat, rest: Bytes)
    requires 1 <= maxNibbles <= 16 && |Nibs(n)| <= maxNibbles
    ensures IntFrom(IntBytes(n) + rest, maxNibbles) == Some((n, |IntBytes(n)|))
  {
    Header(n, rest);
    if n == 0 {
      ZeroValue(rest);
      ReadsAs(IntBytes(n) + rest, maxNibbles, 1, 0);
    } else {
      ValueIs(n, rest, 1, n);
      ReadsAs(IntBytes(n) + rest, maxNibbles, |Nibs(n)|, n);
    }
  }

  lemma ReadsAs(d: Bytes, maxNibbles: nat, k: nat, v: nat)
    requires d != [] && d[0] / 16 + 1 == k <= maxNibbles && k / 2 < |d| && Value(d, 1, k) == v
    ensures IntFrom(d, maxNibbles) == Some((v, (k + 2) / 2))
  {
  }

  lemma DivDiv(x: nat, a: nat, b: nat)
    requires a > 0 && b > 0
    ensures a * b > 0 && x / a / b == x / (a * b)
  {
    var q := x / a;
    Assembled(x, a, b, q, x % a, q / b, q % b);
  }

  lemma Assembled(x: nat, a: nat, b: nat, q: nat, r: nat, p: nat, s: nat)
    requires x == a * q + r && q == b * p + s && s < b && r < a
    ensures a * b > 0 && x / (a * b) == p
  {
    Digits(a, b, p, s, r);
    QuotientIs(x, a * b, p, a * s + r);
  }

  lemma Digits(a: nat, b: nat, p: nat, s: nat, r: nat)
    requires s < b && r < a
    ensures a * (b * p + s) + r == p * (a * b) + (a * s + r) && 0 <= a * s + r < a * b
  {
    MulMono(s + 1, b, a);
    assert a * (b * p) == p * (a * b);
  }

  lemma QuotientIs(x: nat, d: nat, q: nat, r: nat)
    requires d > 0 && r < d && x == q * d + r
    ensures x / d == q
  {
    var k := x / d;
    CancelLess(k, q + 1, d);
    CancelLess(q, k + 1, d);
  }

  lemma CancelLess(a: int, b: int, d: int)
    requires d > 0 && a * d < b * d
    ensures a < b
  {
    if a >= b {
      MulMono(b, a, d);
    }
  }

  lemma {:induction false} PowPositive(b: nat, k: nat)
    requires b > 0
    ensures Pow(b, k) > 0
  {
    if k > 0 {
      PowPositive(b, k - 1);
    }
  }

  /** Nibble i of a number, and how many it has: just enough. */
  lemma {:induction false} NibsAre(n: nat, i: nat)
    ensures Pow(16, i) > 0 && (i < |Nibs(n)| ==> Nibs(n)[i] == n / Pow(16, i) % 16)
    ensures i < |Nibs(n)| <==> n >= Pow(16, i)
  {
    PowPositive(16, i);
    if i > 0 && n > 0 {
      NibsAre(n / 16, i - 1);
      DivDiv(n, 16, Pow(16, i - 1));
      assert Pow(16, i) == 16 * Pow(16, i - 1);
    }
  }

  /** The layout of a number: the first nibble is the number of nibbles less one, nibble j is the
      one of weight 16^(j-1), and there is no more than a nibble of padding. */
  lemma IntLayout(n: nat, count: nat, j: nat)
    requires 1 <= count <= 16 && n < Pow(16, count) && (count == 1 || n >= Pow(16, count - 1)) && j <= count
    ensures |Nibs(n)| <= 16 && |IntBytes(n)| == if n == 0 then 1 else (count + 2) / 2
    ensures Pow(16, if j == 0 then 0 else j - 1) > 0 && j / 2 < |IntBytes(n)|
    ensures NibAt(IntBytes(n), j) == if j == 0 then count - 1 else n / Pow(16, j - 1) % 16
  {
    NibsAre(n, count);
    NibsAre(n, count - 1);
    PowPositive(16, if j == 0 then 0 else j - 1);
    if n == 0 {
      assert count == 1 by {
        PowPositive(16, count - 1);
      }
    }
    if j > 0 {
      NibsAre(n, j - 1);
    }
    assert IntBytes(n) + [] == IntBytes(n);
    EncodedNib(n, [], j);
  }

  // ----- tags -----

  /** Seven bits a byte, least significant first, the high bit set on all but the last. */
  function TagBytes(t: nat): (b: Bytes)
    ensures b != []
  {
    if t < 128 then [t] else [t % 128 + 128] + TagBytes(t / 128)
  }

  /** The layout of a tag: byte i holds the seven bits of weight 128^i, and its high bit says
      that more follow. No byte is wasted. */
  lemma {:induction false} TagLayout(t: nat, i: nat)
    requires i < |TagBytes(t)|
    ensures Pow(128, i) > 0 && TagBytes(t)[i] % 128 == t / Pow(128, i) % 128
    ensures TagBytes(t)[i] >= 128 <==> i + 1 < |TagBytes(t)|
    ensures i > 0 ==> t >= Pow(128, i)
  {
    PowPositive(128, i);
    if i > 0 {
      TagLayout(t / 128, i - 1);
      DivDiv(t, 128, Pow(128, i - 1));
      assert Pow(128, i) == 128 * Pow(128, i - 1);
    }
  }

  /** The tags 0x66 and 0x166: the least significant bits come first. */
  lemma TagExamples()
    ensures TagBytes(0x66) == [0x66] && TagBytes(0x166) == [0xe6, 2]
  {
    assert TagBytes(0x166) == [0xe6] + TagBytes(2);
  }

  /** The loop of decode_tag_internal after i bytes: a tag and its length, or none if the bytes
      run out or the tag does not fit 32 bits. */
  function TagFrom(d: Bytes, i: nat, number: nat): Option<(nat, nat)>
    decreases |d| - i
  {
    if i >= |d| || i > 4 || (i == 4 && d[i] % 128 > 15) then None
    else
      var number' := number + d[i] % 128 * Pow(128, i);
      if d[i] < 128 then Some((number', i + 1)) else TagFrom(d, i + 1, number')
  }

  lemma FifthByte(t: nat)
    requires t * Pow(128, 4) < TWO32
    ensures t < 16
  {
    assert Pow(128, 4) == 128 * Pow(128, 3);
    assert Pow(128, 3) == 128 * Pow(128, 2);
  }

  lemma {:induction false} TagRoundTripAt(pre: Bytes, t: nat, rest: Bytes, number: nat)
    requires |pre| <= 4 && t * Pow(128, |pre|) < TWO32
    ensures TagFrom(pre + (TagBytes(t) + rest), |pre|, number) == Some((number + t * Pow(128, |pre|), |pre| + |TagBytes(t)|))
    decreases t
  {
    var i := |pre|;
    var d := pre + (TagBytes(t) + rest);
    assert d[i] == TagBytes(t)[0];
    if i == 4 {
      FifthByte(t);
    }
    if t >= 128 {
      var x: Byte := t % 128 + 128;
      assert x % 128 == t % 128;
      var p := Pow(128, i);
      TagSplit(t, p);
      assert Pow(128, i + 1) == 128 * p;
      assert (pre + [x]) + (TagBytes(t / 128) + rest) == d;
      TagRoundTripAt(pre + [x], t / 128, rest, number + t % 128 * p);
    }
  }

  lemma TagSplit(t: nat, p: nat)
    ensures t * p == t % 128 * p + t / 128 * (128 * p) && t / 128 * (128 * p) <= t * p
  {
    var q, r := t / 128, t % 128;
    assert t == 128 * q + r;
    assert (128 * q + r) * p == 128 * q * p + r * p;
    assert 128 * q * p == q * (128 * p);
  }

  /** Every 32-bit tag decodes to itself, whatever follows. */
  lemma TagRoundTrip(t: nat, rest: Bytes)
    requires t < TWO32
    ensures TagFrom(TagBytes(t) + rest, 0, 0) == Some((t, |TagBytes(t)|))
  {
    TagRoundTripAt([], t, rest, 0);
    assert [] + (TagBytes(t) + rest) == TagBytes(t) + rest;
    assert t * Pow(128, 0) == t;
  }

  // ----- records -----

  lemma Nibs32(n: nat)
    requires n < TWO32
    ensures |Nibs(n)| <= 8
  {
    Pow16Eight();
    NibsSmall(n, 8);
  }

  function Int32Bytes(n: nat): Bytes
    requires n < TWO32
  {
    Nibs32(n);
    IntBytes(n)
  }

  datatype Rec = Rec(tag: nat, payload: Bytes)

  /** What evtag_marshal takes: a tag and a length of 32 bits. */
  predicate RecOk(r: Rec) {
    r.tag < TWO32 && |r.payload| < TWO32
  }

  /** A length that the interface can report: it returns it as an int. */
  predicate Readable(r: Rec) {
    |r.payload| <= INT_MAX
  }

  /** A record on the wire: tag, length, data. */
  function Record(r: Rec): Bytes
    requires RecOk(r)
  {
    TagBytes(r.tag) + (Int32Bytes(|r.payload|) + r.payload)
  }

  /** Tag 1 with the one byte 7: tag, length, data. */
  lemma RecordExample()
    ensures Record(Rec(1, [7])) == [1, 1, 7]
  {
    assert Nibs(1) == [1] + Nibs(0);
    EncodedNib(1, [], 0);
    EncodedNib(1, [], 1);
    assert IntBytes(1) + [] == IntBytes(1);
    assert Int32Bytes(1) == [1];
  }

  /** What evtag_unmarshal_header makes of a byte string: the tag and length, or none, and what
      is left of the string, also when it fails. */
  datatype Parsed = Parsed(head: Option<(nat, nat)>, rest: Bytes)

  lemma {:induction false} TagCount(d: Bytes, i: nat, number: nat)
    requires TagFrom(d, i, number).Some?
    ensures i < TagFrom(d, i, number).value.1 <= |d|
    decreases |d| - i
  {
    if d[i] >= 128 {
      TagCount(d, i + 1, number + d[i] % 128 * Pow(128, i));
    }
  }

  function HeaderFrom(d: Bytes): (p: Parsed)
    ensures |p.rest| <= |d|
    ensures p.head.Some? ==> p.head.value.1 <= |p.rest| < |d| && p.head.value.1 < TWO32
  {
    var t := TagFrom(d, 0, 0);
    if t.None? then Parsed(None, d)
    else
      TagCount(d, 0, 0);
      var d1 := d[t.value.1..];
      var n := IntFrom(d1, 8);
      IntFrom32(d1);
      if n.None? then Parsed(None, d1)
      else
        var d2 := d1[n.value.1..];
        if |d2| < n.value.0 then Parsed(None, d2) else Parsed(Some((t.value.0, n.value.0)), d2)
  }

  /** The parts of a record are read as they were written. */
  lemma RecordParts(r: Rec, rest: Bytes)
    requires RecOk(r)
    ensures
      && var d := Record(r) + rest;
      && var t, l := TagBytes(r.tag), Int32Bytes(|r.payload|);
      && TagFrom(d, 0, 0) == Some((r.tag, |t|))
      && |t| <= |d| && d[|t|..] == l + (r.payload + rest)
      && IntFrom(d[|t|..], 8) == Some((|r.payload|, |l|))
  {
    var t, l := TagBytes(r.tag), Int32Bytes(|r.payload|);
    Nibs32(|r.payload|);
    var d1 := l + (r.payload + rest);
    assert Record(r) + rest == t + d1;
    TagRoundTrip(r.tag, d1);
    assert (t + d1)[|t|..] == d1;
    IntRoundTrip(|r.payload|, 8, r.payload + rest);
  }

  /** The header of a record is its tag and the length of its payload, which comes next. */
  lemma RecordHeader(r: Rec, rest: Bytes)
    requires RecOk(r)
    ensures HeaderFrom(Record(r) + rest) == Parsed(Some((r.tag, |r.payload|)), r.payload + rest)
  {
    RecordParts(r, rest);
    var l := Int32Bytes(|r.payload|);
    assert (l + (r.payload + rest))[|l|..] == r.payload + rest;
  }

  predicate RecsOk(rs: seq<Rec>) {
    forall i :: 0 <= i < |rs| ==> RecOk(rs[i])
  }

  function Records(rs: seq<Rec>): Bytes
    requires RecsOk(rs)
  {
    if rs == [] then [] else Record(rs[0]) + Records(rs[1..])
  }

  predicate AllReadable(rs: seq<Rec>) {
    forall i :: 0 <= i < |rs| ==> Readable(rs[i])
  }

  /** Unmarshalling until a record cannot be had. The one that fails loses its header. */
  function UnmarshalAll(d: Bytes): (seq<Rec>, Bytes)
    decreases |d|
  {
    var p := HeaderFrom(d);
    if p.head.None? || p.head.value.1 > INT_MAX then ([], p.rest)
    else
      var n := p.head.value.1;
      var (more, rest) := UnmarshalAll(p.rest[n..]);
      ([Rec(p.head.value.0, p.rest[..n])] + more, rest)
  }

  /** A stream of records unmarshals to the same records, with nothing left over, if and only
      if none of them is longer than INT_MAX. */
  lemma {:induction false} StreamRoundTrip(rs: seq<Rec>)
    requires RecsOk(rs)
    ensures UnmarshalAll(Records(rs)) == (rs, []) <==> AllReadable(rs)
  {
    if rs != [] {
      var r, more := rs[0], Records(rs[1..]);
      RecordHeader(r, more);
      if Readable(r) {
        assert (r.payload + more)[|r.payload|..] == more;
        assert (r.payload + more)[..|r.payload|] == r.payload;
        StreamRoundTrip(rs[1..]);
        FirstReadable(rs);
        var (tail, left) := UnmarshalAll(more);
        assert ([r] + tail)[1..] == tail;
        assert [r] + rs[1..] == rs;
      }
    }
  }

  lemma FirstReadable(rs: seq<Rec>)
    requires rs != []
    ensures AllReadable(rs) <==> Readable(rs[0]) && AllReadable(rs[1..])
  {
    if Readable(rs[0]) && AllReadable(rs[1..]) {
      forall i | 0 <= i < |rs|
        ensures Readable(rs[i])
      {
        if i > 0 {
          assert Readable(rs[1..][i - 1]);
        }
      }
    }
  }

  /** What evtag_peek_length reports: the size of the whole record. */
  function PeekedLength(d: Bytes): Option<nat> {
    var t := TagFrom(d, 0, 0);
    if t.None? then None
    else
      TagCount(d, 0, 0);
      var n := IntFrom(d[t.value.1..], 8);
      if n.None? then None else Some((n.value.0 + n.value.1 + t.value.1) % TWO32)
  }

  /** It is that size if and only if the size is a 32-bit number; otherwise it wraps. */
  lemma PeekIsRecordSize(r: Rec, rest: Bytes)
    requires RecOk(r)
    ensures PeekedLength(Record(r) + rest) == Some(|Record(r)| % TWO32)
    ensures PeekedLength(Record(r) + rest) == Some(|Record(r)|) <==> |Record(r)| < TWO32
  {
    RecordParts(r, rest);
    RecordLength(r);
    Unwrapped(|Record(r)|);
  }

  lemma Unwrapped(x: int)
    ensures x % TWO32 == x <==> 0 <= x < TWO32
  {
  }

  lemma RecordLength(r: Rec)
    requires RecOk(r)
    ensures |Record(r)| == |TagBytes(r.tag)| + |Int32Bytes(|r.payload|)| + |r.payload| <= |r.payload| + 10
  {
    assert Pow(128, 5) == 128 * Pow(128, 4) && Pow(128, 4) == 128 * Pow(128, 3) && Pow(128, 3) == 128 * Pow(128, 2);
    TagShort(r.tag, 5);
    Nibs32(|r.payload|);
  }

  lemma {:induction false} TagShort(t: nat, k: nat)
    requires k > 0 && t < Pow(128, k)
    ensures |TagBytes(t)| <= k
  {
    if t >= 128 {
      assert Pow(128, 1) == 128 * Pow(128, 0);
      TagShort(t / 128, k - 1);
    }
  }
}
