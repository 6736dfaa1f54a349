/** DNS names on the wire (sections 3.1 and 4.1.4 of RFC 1035): writing a dotted name as
    labels with compression against a shared label table, and parsing it back. */
module DnsName {
  import opened IdLists
  import opened Chunks

  const DOT: Byte := 46
  const MAX_LABELS: nat := 128
  const MAX_NAME: nat := 255
  const OFFSET_LIMIT: nat := 0x4000

  // ----- reading -----

  /** The offset a pointer at j leads to: 14 bits, whatever the two top bits are. */
  function Target(p: Bytes, j: nat): nat
    requires j + 1 < |p|
  {
    (p[j] as int % 64) * 256 + p[j + 1] as int
  }

  /** Reading p from j on spells the labels, following c pointers on the way. A length byte
      with any of its two top bits set is a pointer. */
  ghost predicate Reads(p: Bytes, j: nat, ls: seq<Bytes>, c: nat)
    decreases |ls|, c
  {
    && j < |p|
    && if p[j] == 0 then
         ls == [] && c == 0
       else if p[j] >= 64 then
         c > 0 && j + 1 < |p| && Target(p, j) < |p| && Reads(p, Target(p, j), ls, c - 1)
       else
         && ls != [] && j + 1 + p[j] <= |p|
         && p[j + 1..j + 1 + p[j]] == ls[0]
         && Reads(p, j + 1 + p[j], ls[1..], c)
  }

  /** The index behind the name at j: behind its terminator or its first pointer. */
  function EndOf(p: Bytes, j: nat): nat
    decreases |p| - j
  {
    if j >= |p| then j
    else if p[j] == 0 then j + 1
    else if p[j] >= 64 then j + 2
    else EndOf(p, j + 1 + p[j])
  }

  /** A name with one more label. */
  function Extend(name: Bytes, piece: Bytes): Bytes {
    if name == [] then piece else name + [DOT] + piece
  }

  /** A name with more labels. */
  function ExtendAll(name: Bytes, ls: seq<Bytes>): Bytes
    decreases |ls|
  {
    if ls == [] then name else ExtendAll(Extend(name, ls[0]), ls[1..])
  }

  /** The rest of a parse at offset j with part of the name read and `count` pointers followed. */
  function ParseFrom(p: Bytes, j: nat, name: Bytes, count: nat, outLen: nat): Option<Bytes>
    requires count <= |p|
    decreases |p| - count, |p| - j
  {
    if j >= |p| then None
    else if p[j] == 0 then (if |name| >= outLen then None else Some(name))
    else if p[j] >= 64 then
      if j + 1 >= |p| || Target(p, j) >= |p| || count + 1 > |p| then None
      else ParseFrom(p, Target(p, j), name, count + 1, outLen)
    else if name != [] && |name| + 1 >= outLen then None
    else if (if name == [] then 0 else |name| + 1) + p[j] >= outLen || j + 1 + p[j] > |p| then None
    else ParseFrom(p, j + 1 + p[j], Extend(name, p[j + 1..j + 1 + p[j]]), count, outLen)
  }

  datatype Piece = Malformed | Terminator | Jump | Label

  /** One turn of the loop of name_parse: what is at j, where to go on, and the name so far. */
  method ParsePiece(p: Bytes, j: nat, name: Bytes, count: nat, outLen: nat) returns (k: Piece, j': nat, name': Bytes)
    requires count <= |p|
    ensures k.Malformed? ==> ParseFrom(p, j, name, count, outLen).None?
    ensures k.Terminator? ==>
      && ParseFrom(p, j, name, count, outLen) == (if |name| >= outLen then None else Some(name))
      && EndOf(p, j) == j' == j + 1 && name' == name
    ensures k.Jump? ==>
      && count < |p| && ParseFrom(p, j, name, count, outLen) == ParseFrom(p, j', name', count + 1, outLen)
      && EndOf(p, j) == j + 2 && name' == name
    ensures k.Label? ==>
      && j < j' <= |p| && ParseFrom(p, j, name, count, outLen) == ParseFrom(p, j', name', count, outLen)
      && EndOf(p, j) == EndOf(p, j')
  {
    if j >= |p| {
      return Malformed, j, name;
    }
    var labelLen: nat := p[j];
    if labelLen == 0 {
      return Terminator, j + 1, name;
    }
    if labelLen >= 64 {
      if j + 1 >= |p| {
        return Malformed, j, name;
      }
      j' := Target(p, j);
      if j' >= |p| || count + 1 > |p| {
        return Malformed, j', name;
      }
      return Jump, j', name;
    }
    if name != [] && |name| + 1 >= outLen {
      return Malformed, j, name;
    }
    if (if name == [] then 0 else |name| + 1) + labelLen >= outLen || j + 1 + labelLen > |p| {
      return Malformed, j, name;
    }
    return Label, j + 1 + labelLen, Extend(name, p[j + 1..j + 1 + labelLen]);
  }

  /** name_parse: terminates on every packet and returns the name and the index behind it. */
  method NameParse(p: Bytes, idx: nat, outLen: nat) returns (r: Option<(Bytes, nat)>)
    ensures r == match ParseFrom(p, idx, [], 0, outLen)
                 case Some(name) => Some((name, EndOf(p, idx)))
                 case None => None
  {
    var nameEnd: int := -1;
    var j: nat, ptrCount: nat := idx, 0;
    var name: Bytes := [];
    while true
      invariant ptrCount <= |p|
      invariant ParseFrom(p, j, name, ptrCount, outLen) == ParseFrom(p, idx, [], 0, outLen)
      invariant EndOf(p, idx) == if nameEnd < 0 then EndOf(p, j) else nameEnd
      decreases |p| - ptrCount, |p| - j
    {
      var k, j', name' := ParsePiece(p, j, name, ptrCount, outLen);
      if k.Malformed? {
        return None;
      }
      if k.Jump? {
        if nameEnd < 0 {
          nameEnd := j + 2;
        }
        ptrCount := ptrCount + 1;
      }
      j, name := j', name';
      if k.Terminator? {
        break;
      }
    }
    if |name| >= outLen {
      return None;
    }
    return Some((name, if nameEnd < 0 then j else nameEnd));
  }

  lemma {:induction false} ExtendAllGrows(name: Bytes, ls: seq<Bytes>)
    ensures |name| <= |ExtendAll(name, ls)|
    decreases |ls|
  {
    if ls != [] {
      ExtendAllGrows(Extend(name, ls[0]), ls[1..]);
    }
  }

  /** Bytes that spell labels parse to the name made of them, if it fits. */
  lemma {:induction false} ParseComplete(p: Bytes, j: nat, name: Bytes, count: nat, outLen: nat, ls: seq<Bytes>, c: nat)
    requires Reads(p, j, ls, c) && count + c <= |p| && |ExtendAll(name, ls)| < outLen
    ensures ParseFrom(p, j, name, count, outLen) == Some(ExtendAll(name, ls))
    decreases |ls|, c
  {
    if p[j] == 0 {
    } else if p[j] >= 64 {
      ParseComplete(p, Target(p, j), name, count + 1, outLen, ls, c - 1);
    } else {
      ExtendAllGrows(Extend(name, ls[0]), ls[1..]);
      ParseComplete(p, j + 1 + p[j], Extend(name, ls[0]), count, outLen, ls[1..], c);
    }
  }

  /** A successful parse found bytes that spell labels, and returned the name made of them. */
  lemma {:induction false} ParseSound(p: Bytes, j: nat, name: Bytes, count: nat, outLen: nat)
    returns (ls: seq<Bytes>, c: nat)
    requires count <= |p| && ParseFrom(p, j, name, count, outLen).Some?
    ensures Reads(p, j, ls, c) && count + c <= |p|
    ensures ParseFrom(p, j, name, count, outLen).value == ExtendAll(name, ls)
    ensures |ExtendAll(name, ls)| < outLen
    decreases |p| - count, |p| - j
  {
    if p[j] == 0 {
      return [], 0;
    } else if p[j] >= 64 {
      ls, c := ParseSound(p, Target(p, j), name, count + 1, outLen);
      return ls, c + 1;
    } else {
      var piece := p[j + 1..j + 1 + p[j]];
      var rest, k := ParseSound(p, j + 1 + p[j], Extend(name, piece), count, outLen);
      ls, c := [piece] + rest, k;
      assert ls[1..] == rest;
    }
  }

  /** The dotted name of a list of labels. */
  function Join(ls: seq<Bytes>): Bytes {
    if ls == [] then [] else if |ls| == 1 then ls[0] else ls[0] + [DOT] + Join(ls[1..])
  }

  ghost predicate AllNonempty(ls: seq<Bytes>) {
    forall i :: 0 <= i < |ls| ==> ls[i] != []
  }

  lemma Shift(a: Bytes, b: Bytes, c: Bytes)
    ensures a + [DOT] + b + [DOT] + c == a + [DOT] + (b + [DOT] + c)
  {
  }

  lemma {:induction false} ExtendAllIs(name: Bytes, ls: seq<Bytes>)
    requires AllNonempty(ls)
    ensures ExtendAll(name, ls) == if name == [] then Join(ls) else if ls == [] then name else name + [DOT] + Join(ls)
    decreases |ls|
  {
    if ls != [] {
      ExtendAllIs(Extend(name, ls[0]), ls[1..]);
      if |ls| > 1 && name != [] {
        Shift(name, ls[0], Join(ls[1..]));
      }
    }
  }

  lemma {:induction false} ReadsNonempty(p: Bytes, j: nat, ls: seq<Bytes>, c: nat)
    requires Reads(p, j, ls, c)
    ensures AllNonempty(ls)
    decreases |ls|, c
  {
    if p[j] >= 64 {
      ReadsNonempty(p, Target(p, j), ls, c - 1);
    } else if p[j] > 0 {
      ReadsNonempty(p, j + 1 + p[j], ls[1..], c);
    }
  }

  /** The bytes at idx spell the labels ls of the name with no more pointers than bytes. */
  ghost predicate Spells(p: Bytes, idx: nat, name: Bytes, ls: seq<Bytes>, c: nat) {
    Reads(p, idx, ls, c) && c <= |p| && Join(ls) == name
  }

  /** name_parse succeeds with a name exactly when the bytes spell it with no more pointers
      than bytes, and the name and its NUL fit the output. */
  lemma ParseExact(p: Bytes, idx: nat, outLen: nat, name: Bytes)
    ensures (ParseFrom(p, idx, [], 0, outLen) == Some(name)) <==>
            (|name| < outLen && exists ls, c: nat :: Spells(p, idx, name, ls, c))
  {
    if ParseFrom(p, idx, [], 0, outLen) == Some(name) {
      var ls, c := ParseSound(p, idx, [], 0, outLen);
      ReadsNonempty(p, idx, ls, c);
      ExtendAllIs([], ls);
      assert Spells(p, idx, name, ls, c);
    }
    if |name| < outLen && exists ls, c: nat :: Spells(p, idx, name, ls, c) {
      var ls, c: nat :| Spells(p, idx, name, ls, c);
      SpelledParses(p, idx, outLen, name, ls, c);
    }
  }

  lemma SpelledParses(p: Bytes, idx: nat, outLen: nat, name: Bytes, ls: seq<Bytes>, c: nat)
    requires Spells(p, idx, name, ls, c) && |name| < outLen
    ensures ParseFrom(p, idx, [], 0, outLen) == Some(name)
  {
    ReadsNonempty(p, idx, ls, c);
    ExtendAllIs([], ls);
    ParseComplete(p, idx, [], 0, outLen, ls, c);
  }

  /** Reading as section 4.1.4 of RFC 1035 has it: labels of 1 to 63 bytes, and pointers that
      start with two set bits and lead back to where a prior name stands. Any other length byte
      is refused. */
  ghost predicate Strict(p: Bytes, j: nat, ls: seq<Bytes>, c: nat)
    decreases |ls|, c
  {
    && j < |p|
    && if p[j] == 0 then
         ls == [] && c == 0
       else if p[j] >= 192 then
         && c > 0 && j + 1 < |p|
         && var to := (p[j] as int - 192) * 256 + p[j + 1];
         && to < j && Strict(p, to, ls, c - 1)
       else
         && p[j] <= 63 && ls != [] && j + 1 + p[j] <= |p|
         && p[j + 1..j + 1 + p[j]] == ls[0]
         && Strict(p, j + 1 + p[j], ls[1..], c)
  }

  /** What a strict reader reads, name_parse reads alike. */
  lemma {:induction false} StrictIsRead(p: Bytes, j: nat, ls: seq<Bytes>, c: nat)
    requires Strict(p, j, ls, c)
    ensures Reads(p, j, ls, c)
    decreases |ls|, c
  {
    if p[j] >= 192 {
      assert Target(p, j) == (p[j] as int - 192) * 256 + p[j + 1];
      StrictIsRead(p, Target(p, j), ls, c - 1);
    } else if p[j] > 0 {
      StrictIsRead(p, j + 1 + p[j], ls[1..], c);
    }
  }

  // ----- writing -----

  /** A suffix of a name and where its labels start in the packet. */
  datatype Entry = Entry(name: Bytes, pos: nat)

  /** The position recorded for a name, if any: the first entry wins. */
  function Find(tab: seq<Entry>, name: Bytes): Option<nat> {
    if tab == [] then None else if tab[0].name == name then Some(tab[0].pos) else Find(tab[1..], name)
  }

  function DotIndex(name: Bytes): (d: nat)
    ensures d <= |name| && (d < |name| ==> name[d] == DOT)
    ensures forall i :: 0 <= i < d ==> name[i] != DOT
  {
    if name == [] || name[0] == DOT then 0 else 1 + DotIndex(name[1..])
  }

  /** The two bytes of a pointer to pos. */
  function PointerTo(pos: nat): Bytes {
    [0xc0 + (pos / 256) % 64, pos % 256]
  }

  datatype Encoded = Done(bytes: Bytes, tab: seq<Entry>) | LabelTooLong | NoRoom

  function Remember(tab: seq<Entry>, useTable: bool, name: Bytes, pos: nat): seq<Entry> {
    if useTable && |tab| < MAX_LABELS then tab + [Entry(name, pos)] else tab
  }

  /** Appends a name to the packet bytes p. */
  function Encode(p: Bytes, name: Bytes, tab: seq<Entry>, useTable: bool, bufLen: nat): Encoded
    decreases |name|
  {
    var found := if useTable then Find(tab, name) else None;
    if found.Some? then
      if |p| + 2 > bufLen then NoRoom else Done(p + PointerTo(found.value), tab)
    else
      var d := DotIndex(name);
      if d > 63 then LabelTooLong
      else if |p| + d + 1 > bufLen then NoRoom
      else
        var q := p + [d] + name[..d];
        var tab' := Remember(tab, useTable, name, |p|);
        if d < |name| then Encode(q, name[d + 1..], tab', useTable, bufLen)
        else Done(if q[|q| - 1] != 0 then q + [0] else q, tab')
  }

  /** A label a dotted name can hold: 1 to 63 bytes, no dot and no NUL. */
  ghost predicate GoodLabel(l: Bytes) {
    0 < |l| < 64 && DOT !in l && 0 !in l
  }

  ghost predicate GoodLabels(ls: seq<Bytes>) {
    forall i :: 0 <= i < |ls| ==> GoodLabel(ls[i])
  }

  /** The packet spells the entry's name at the entry's offset. */
  ghost predicate EntryOk(p: Bytes, e: Entry, ls: seq<Bytes>, c: nat) {
    GoodLabels(ls) && e.name == Join(ls) && c <= e.pos < OFFSET_LIMIT && Strict(p, e.pos, ls, c)
  }

  /** The entries for names of at most n bytes are right and lie before `start`. */
  ghost predicate TabOk(p: Bytes, tab: seq<Entry>, n: nat, start: nat) {
    forall i :: 0 <= i < |tab| && |tab[i].name| <= n ==>
      tab[i].pos < start && exists ls, c: nat :: EntryOk(p, tab[i], ls, c)
  }

  /** Later bytes do not change what earlier bytes spell. */
  lemma {:induction false} StrictExtends(p: Bytes, q: Bytes, j: nat, ls: seq<Bytes>, c: nat)
    requires p <= q && Strict(p, j, ls, c)
    ensures Strict(q, j, ls, c)
    decreases |ls|, c
  {
    if p[j] >= 192 {
      StrictExtends(p, q, (p[j] as int - 192) * 256 + p[j + 1], ls, c - 1);
    } else if p[j] > 0 {
      assert q[j + 1..j + 1 + p[j]] == p[j + 1..j + 1 + p[j]];
      StrictExtends(p, q, j + 1 + p[j], ls[1..], c);
    }
  }

  lemma TabOkExtends(p: Bytes, q: Bytes, tab: seq<Entry>, n: nat, m: nat, start: nat)
    requires p <= q && m <= n && TabOk(p, tab, n, start)
    ensures TabOk(q, tab, m, start)
  {
    forall i | 0 <= i < |tab| && |tab[i].name| <= m
      ensures exists ls, c: nat :: EntryOk(q, tab[i], ls, c)
    {
      var ls, c: nat :| EntryOk(p, tab[i], ls, c);
      StrictExtends(p, q, tab[i].pos, ls, c);
      assert EntryOk(q, tab[i], ls, c);
    }
  }

  lemma {:induction false} FindIs(tab: seq<Entry>, name: Bytes) returns (i: nat)
    requires Find(tab, name).Some?
    ensures i < |tab| && tab[i].name == name && tab[i].pos == Find(tab, name).value
  {
    if tab[0].name == name {
      i := 0;
    } else {
      i := FindIs(tab[1..], name);
      i := i + 1;
    }
  }

  lemma JoinSplits(ls: seq<Bytes>)
    requires GoodLabels(ls) && ls != []
    ensures DotIndex(Join(ls)) == |ls[0]| && Join(ls)[..|ls[0]|] == ls[0]
    ensures |ls| == 1 ==> |Join(ls)| == |ls[0]|
    ensures |ls| > 1 ==> |Join(ls)| > |ls[0]| && Join(ls)[|ls[0]| + 1..] == Join(ls[1..])
  {
    var name := Join(ls);
    var d := DotIndex(name);
    assert forall i :: 0 <= i < |ls[0]| ==> name[i] == ls[0][i];
    assert |ls| > 1 ==> name[|ls[0]|] == DOT;
  }

  /** A written pointer, seen from a strict reader. */
  lemma PointerTarget(p: Bytes, pos: nat)
    requires pos < OFFSET_LIMIT
    ensures
      && var q := p + PointerTo(pos);
      && q[|p|] >= 192 && (q[|p|] as int - 192) * 256 + q[|p| + 1] == pos
  {
    assert (p + PointerTo(pos))[|p|] == 0xc0 + pos / 256;
    assert (p + PointerTo(pos))[|p| + 1] == pos % 256;
  }

  /** A written label, seen from the parser. */
  lemma LabelRead(p: Bytes, l: Bytes, q: Bytes, ls: seq<Bytes>, c: nat)
    requires GoodLabel(l) && p + [|l|] + l <= q && Strict(q, |p| + 1 + |l|, ls, c)
    ensures Strict(q, |p|, [l] + ls, c)
  {
    var h := p + [|l|] + l;
    assert h[|p|] == |l| == q[|p|];
    assert h[|p| + 1..] == l;
    assert q[|p| + 1..|p| + 1 + |l|] == h[|p| + 1..];
    assert ([l] + ls)[1..] == ls;
  }

  /** A dotted name determines its labels. */
  lemma {:induction false} JoinInjective(a: seq<Bytes>, b: seq<Bytes>)
    requires GoodLabels(a) && GoodLabels(b) && Join(a) == Join(b)
    ensures a == b
  {
    if a == [] || b == [] {
      if a != [] {
        JoinSplits(a);
      } else if b != [] {
        JoinSplits(b);
      }
    } else {
      JoinSplits(a);
      JoinSplits(b);
      if |a| > 1 && |b| > 1 {
        JoinInjective(a[1..], b[1..]);
      }
      assert a == [a[0]] + a[1..] && b == [b[0]] + b[1..];
    }
  }

  /** The entries from index `from` on are right. */
  ghost predicate NewEntriesOk(p: Bytes, tab: seq<Entry>, from: nat) {
    forall i :: from <= i < |tab| ==> tab[i].pos < |p| && exists ls, c: nat :: EntryOk(p, tab[i], ls, c)
  }

  /** What writing a name did: the bytes at `at` spell its labels, the name ends at the end of
      the packet, and the entries added to the table are right. */
  ghost predicate Wrote(p: Bytes, at: nat, ls: seq<Bytes>, c: nat, tab: seq<Entry>, from: nat) {
    && Strict(p, at, ls, c)
    && EndOf(p, at) == |p|
    && NewEntriesOk(p, tab, from)
  }

  /** A pointer to a right entry. */
  lemma PointerRead(p: Bytes, ls: seq<Bytes>, tab: seq<Entry>, start: nat) returns (c: nat)
    requires GoodLabels(ls) && start <= |p| && TabOk(p, tab, |Join(ls)|, start) && Find(tab, Join(ls)).Some?
    ensures c <= start && Wrote(p + PointerTo(Find(tab, Join(ls)).value), |p|, ls, c, tab, |tab|)
  {
    var i := FindIs(tab, Join(ls));
    var ks, k: nat :| EntryOk(p, tab[i], ks, k);
    JoinInjective(ls, ks);
    var q := p + PointerTo(tab[i].pos);
    PointerTarget(p, tab[i].pos);
    StrictExtends(p, q, tab[i].pos, ks, k);
    c := k + 1;
    assert q[|p|] >= 64;
  }

  /** The last label of a name and the terminator. */
  lemma LastLabelRead(p: Bytes, l: Bytes, tab: seq<Entry>, useTable: bool)
    requires GoodLabel(l) && |p| < OFFSET_LIMIT
    ensures Wrote(p + [|l|] + l + [0], |p|, [l], 0, Remember(tab, useTable, l, |p|), |tab|)
  {
    var q := p + [|l|] + l + [0];
    assert p + [|l|] + l <= q;
    assert q[|p| + 1 + |l|] == 0;
    LabelRead(p, l, q, [], 0);
    assert [l] + [] == [l];
    assert EndOf(q, |p| + 1 + |l|) == |q|;
    if useTable && |tab| < MAX_LABELS {
      assert EntryOk(q, Entry(l, |p|), [l], 0);
    }
  }

  /** Adding the entry for a name to those of its own suffixes. */
  lemma EntryAdded(q: Bytes, tab: seq<Entry>, useTable: bool, ls: seq<Bytes>, pos: nat, c: nat, tab': seq<Entry>)
    requires GoodLabels(ls) && pos < |q| && c <= pos < OFFSET_LIMIT && Strict(q, pos, ls, c)
    requires Remember(tab, useTable, Join(ls), pos) <= tab'
    requires NewEntriesOk(q, tab', |Remember(tab, useTable, Join(ls), pos)|)
    ensures NewEntriesOk(q, tab', |tab|)
  {
    if useTable && |tab| < MAX_LABELS {
      assert EntryOk(q, Entry(Join(ls), pos), ls, c);
      assert tab'[|tab|] == Entry(Join(ls), pos);
    }
  }

  /** One step of the writer on a name of good labels. */
  lemma EncodeStep(p: Bytes, ls: seq<Bytes>, tab: seq<Entry>, useTable: bool, bufLen: nat)
    requires GoodLabels(ls) && ls != [] && !(useTable && Find(tab, Join(ls)).Some?)
    ensures
      && var r := Encode(p, Join(ls), tab, useTable, bufLen);
      && var q := p + [|ls[0]|] + ls[0];
      && var tab' := Remember(tab, useTable, Join(ls), |p|);
      && if |p| + |ls[0]| + 1 > bufLen then r == NoRoom
         else if |ls| == 1 then r == Done(q + [0], tab')
         else r == Encode(q, Join(ls[1..]), tab', useTable, bufLen)
  {
    JoinSplits(ls);
    var q := p + [|ls[0]|] + ls[0];
    assert q[|q| - 1] == ls[0][|ls[0]| - 1];
  }

  /** The root name is one zero byte. */
  lemma RootRead(p: Bytes, tab: seq<Entry>, useTable: bool, bufLen: nat)
    requires !(useTable && Find(tab, []).Some?) && |p| < bufLen && |p| < OFFSET_LIMIT
    ensures
      && var r := Encode(p, [], tab, useTable, bufLen);
      && r == Done(p + [0], Remember(tab, useTable, [], |p|))
      && Wrote(r.bytes, |p|, [], 0, r.tab, |tab|)
  {
    var q := p + [0];
    assert p + [0] + [] == q;
    if useTable && |tab| < MAX_LABELS {
      assert EntryOk(q, Entry([], |p|), [], 0);
    }
  }

  /** Writing a name of good labels: the packet then spells them, through pointers to earlier
      names only, and the table stays right. */
  lemma {:induction false} EncodeReads(p: Bytes, ls: seq<Bytes>, tab: seq<Entry>, useTable: bool, bufLen: nat, start: nat)
    returns (c: nat)
    requires GoodLabels(ls) && start <= |p| && (useTable ==> TabOk(p, tab, |Join(ls)|, start))
    requires Encode(p, Join(ls), tab, useTable, bufLen).Done?
    requires |Encode(p, Join(ls), tab, useTable, bufLen).bytes| <= OFFSET_LIMIT
    ensures
      && var r := Encode(p, Join(ls), tab, useTable, bufLen);
      && c <= start && p <= r.bytes && tab <= r.tab && Wrote(r.bytes, |p|, ls, c, r.tab, |tab|)
    decreases |ls|
  {
    if useTable && Find(tab, Join(ls)).Some? {
      c := PointerRead(p, ls, tab, start);
    } else if ls == [] {
      RootRead(p, tab, useTable, bufLen);
      c := 0;
    } else {
      EncodeStep(p, ls, tab, useTable, bufLen);
      if |ls| == 1 {
        LastLabelRead(p, ls[0], tab, useTable);
        assert ls == [ls[0]];
        c := 0;
      } else {
        c := EncodeMore(p, ls, tab, useTable, bufLen, start);
      }
    }
  }

  lemma {:induction false} EncodeMore(p: Bytes, ls: seq<Bytes>, tab: seq<Entry>, useTable: bool, bufLen: nat, start: nat)
    returns (c: nat)
    requires GoodLabels(ls) && |ls| > 1 && start <= |p| && (useTable ==> TabOk(p, tab, |Join(ls)|, start))
    requires
      && var q := p + [|ls[0]|] + ls[0];
      && var r := Encode(q, Join(ls[1..]), Remember(tab, useTable, Join(ls), |p|), useTable, bufLen);
      && r.Done? && |r.bytes| <= OFFSET_LIMIT
    ensures
      && var q := p + [|ls[0]|] + ls[0];
      && var r := Encode(q, Join(ls[1..]), Remember(tab, useTable, Join(ls), |p|), useTable, bufLen);
      && c <= start && p <= r.bytes && tab <= r.tab && Wrote(r.bytes, |p|, ls, c, r.tab, |tab|)
    decreases |ls|, 0
  {
    var q := p + [|ls[0]|] + ls[0];
    var tab' := Remember(tab, useTable, Join(ls), |p|);
    if useTable {
      TabOkNext(p, q, ls, tab, start);
    }
    c := EncodeReads(q, ls[1..], tab', useTable, bufLen, start);
    var r := Encode(q, Join(ls[1..]), tab', useTable, bufLen);
    LabelWrote(p, ls, r.bytes, c, tab, useTable, r.tab);
  }

  /** A name's own entry does not disturb the search for its shorter suffixes. */
  lemma TabOkNext(p: Bytes, q: Bytes, ls: seq<Bytes>, tab: seq<Entry>, start: nat)
    requires GoodLabels(ls) && |ls| > 1 && p <= q && TabOk(p, tab, |Join(ls)|, start)
    ensures TabOk(q, Remember(tab, true, Join(ls), |p|), |Join(ls[1..])|, start)
  {
    JoinSplits(ls);
    TabOkExtends(p, q, tab, |Join(ls)|, |Join(ls[1..])|, start);
  }

  /** A label in front of a written name. */
  lemma LabelWrote(p: Bytes, ls: seq<Bytes>, q: Bytes, c: nat, tab: seq<Entry>, useTable: bool, tab': seq<Entry>)
    requires GoodLabels(ls) && |ls| > 1 && p + [|ls[0]|] + ls[0] <= q && c <= |p| < OFFSET_LIMIT
    requires Remember(tab, useTable, Join(ls), |p|) <= tab'
    requires Wrote(q, |p| + 1 + |ls[0]|, ls[1..], c, tab', |Remember(tab, useTable, Join(ls), |p|)|)
    ensures p <= q && tab <= tab' && Wrote(q, |p|, ls, c, tab', |tab|)
  {
    LabelRead(p, ls[0], q, ls[1..], c);
    assert [ls[0]] + ls[1..] == ls;
    EntryAdded(q, tab, useTable, ls, |p|, c, tab');
    assert (p + [|ls[0]|] + ls[0])[|p|] == |ls[0]|;
    assert EndOf(q, |p|) == EndOf(q, |p| + 1 + |ls[0]|);
  }

  /** The writer only appends, and never runs out of room that the name's length allows for. */
  lemma {:induction false} EncodeFits(p: Bytes, name: Bytes, tab: seq<Entry>, useTable: bool, bufLen: nat)
    ensures
      && var r := Encode(p, name, tab, useTable, bufLen);
      && (r.Done? ==> p <= r.bytes && |r.bytes| <= |p| + |name| + 2)
      && (|p| + |name| + 2 <= bufLen ==> r != NoRoom)
    decreases |name|
  {
    var d := DotIndex(name);
    if d < |name| && d < 64 {
      EncodeFits(p + [d] + name[..d], name[d + 1..], Remember(tab, useTable, name, |p|), useTable, bufLen);
    }
  }

  /** What a table answers after a name was added: what it answered before, and for the new
      name its offset if there was room for it. */
  lemma {:induction false} FindRemember(tab: seq<Entry>, name: Bytes, pos: nat, n: Bytes)
    ensures Find(tab + [Entry(name, pos)], n) ==
            if Find(tab, n).Some? then Find(tab, n) else if n == name then Some(pos) else None
  {
    if tab != [] {
      FindRemember(tab[1..], name, pos, n);
      assert (tab + [Entry(name, pos)])[1..] == tab[1..] + [Entry(name, pos)];
    }
  }

  /** The name or what follows one of its dots is in the table. */
  predicate Known(tab: seq<Entry>, name: Bytes)
    decreases |name|
  {
    var d := DotIndex(name);
    Find(tab, name).Some? || (d < |name| && Known(tab, name[d + 1..]))
  }

  /** Adding a name to the table makes no shorter one known. */
  lemma {:induction false} KnownRemember(tab: seq<Entry>, name: Bytes, pos: nat, rest: Bytes)
    requires |rest| < |name|
    ensures Known(Remember(tab, true, name, pos), rest) == Known(tab, rest)
    decreases |rest|
  {
    FindRemember(tab, name, pos, rest);
    var d := DotIndex(rest);
    if d < |rest| {
      KnownRemember(tab, name, pos, rest[d + 1..]);
    }
  }

  /** The labels of the name fill the room to the last byte, no pointer takes their place, and
      the last label is not empty: the terminator goes one byte too far. */
  predicate Overruns(j: nat, name: Bytes, tab: seq<Entry>, useTable: bool, bufLen: nat) {
    && !(useTable && Known(tab, name))
    && j + |name| + 1 == bufLen
    && name != [] && name[|name| - 1] != DOT && name[|name| - 1] != 0
  }

  /** The writer exceeds the room it was given by one byte at most, and exactly then. */
  lemma {:induction false} OverrunExact(p: Bytes, name: Bytes, tab: seq<Entry>, useTable: bool, bufLen: nat)
    ensures
      && var r := Encode(p, name, tab, useTable, bufLen);
      && (r.Done? ==> |r.bytes| <= bufLen + 1)
      && (r.Done? ==> (|r.bytes| > bufLen <==> Overruns(|p|, name, tab, useTable, bufLen)))
    decreases |name|
  {
    var d := DotIndex(name);
    if (useTable && Find(tab, name).Some?) || d > 63 || |p| + d + 1 > bufLen {
    } else if d < |name| {
      var q, tab', rest := p + [d] + name[..d], Remember(tab, useTable, name, |p|), name[d + 1..];
      if useTable {
        KnownRemember(tab, name, |p|, rest);
      }
      assert rest != [] ==> rest[|rest| - 1] == name[|name| - 1];
      assert rest == [] ==> name[|name| - 1] == DOT;
      OverrunExact(q, rest, tab', useTable, bufLen);
    } else {
      LastByte(p, name);
    }
  }

  lemma LastByte(p: Bytes, l: Bytes)
    requires DotIndex(l) == |l| <= 63
    ensures
      && var q := p + [|l|] + l[..|l|];
      && q[|q| - 1] == (if l == [] then 0 else l[|l| - 1]) && DOT !in l
  {
  }

  /** The name "a" at offset 0 with room for two bytes: three are written. */
  lemma OneByteTooMany()
    ensures Encode([], [97], [], false, 2) == Done([1, 97, 0], [])
    ensures Overruns(0, [97], [], false, 2)
  {
    assert DotIndex([97]) == 1 + DotIndex([]);
    assert [] + [1] + [97] == [1, 97];
    assert [97][..1] == [97];
  }

  class LabelTable {
    var entries: seq<Entry>

    constructor ()
      ensures entries == []
    {
      entries := [];
    }

    /** dnslabel_table_get_pos */
    method GetPos(name: Bytes) returns (r: Option<nat>)
      ensures r == Find(entries, name)
    {
      assert entries[0..] == entries;
      for i := 0 to |entries|
        invariant Find(entries, name) == Find(entries[i..], name)
      {
        if entries[i].name == name {
          return Some(entries[i].pos);
        }
        assert entries[i..][1..] == entries[i + 1..];
      }
      return None;
    }

    /** dnslabel_table_add: a full table silently keeps what it has. */
    method Add(name: Bytes, pos: nat)
      modifies this
      ensures entries == Remember(old(entries), true, name, pos)
      ensures forall n :: n != name || Find(old(entries), n).Some? ==> Find(entries, n) == Find(old(entries), n)
      ensures Find(old(entries), name).None? ==>
                Find(entries, name) == if |old(entries)| < MAX_LABELS then Some(pos) else None
    {
      forall n: Bytes
        ensures Find(entries + [Entry(name, pos)], n) ==
                if Find(entries, n).Some? then Find(entries, n) else if n == name then Some(pos) else None
      {
        FindRemember(entries, name, pos, n);
      }
      if |entries| < MAX_LABELS {
        entries := entries + [Entry(name, pos)];
      }
    }
  }

  ghost function Entries(table: LabelTable?): seq<Entry>
    reads table
  {
    if table == null then [] else table.entries
  }

  /** strchr(name, '.') */
  method FindDot(name: Bytes) returns (d: nat)
    ensures d == DotIndex(name)
  {
    d := 0;
    while d < |name| && name[d] != DOT
      invariant d <= |name| && DotIndex(name) == d + DotIndex(name[d..])
    {
      assert name[d..][1..] == name[d + 1..];
      d := d + 1;
    }
  }

  method Lookup(table: LabelTable?, name: Bytes) returns (r: Option<nat>)
    ensures r == if table != null then Find(Entries(table), name) else None
  {
    if table == null {
      return None;
    }
    r := table.GetPos(name);
  }

  /** Remembers where the rest of the name starts and writes its first label there. */
  method PutLabel(buf: array<Byte>, j: nat, name: Bytes, d: nat, table: LabelTable?)
    requires d < 64 && d <= |name| && j + 1 + d <= buf.Length
    modifies buf, table
    ensures buf[..j + 1 + d] == Labelled(old(buf[..j]), name, d)
    ensures Entries(table) == Remember(old(Entries(table)), table != null, name, j)
  {
    if table != null {
      table.Add(name, j);
    }
    buf[j] := d;
    forall k | 0 <= k < d {
      buf[j + 1 + k] := name[k];
    }
  }

  method PutPointer(buf: array<Byte>, j: nat, pos: nat)
    requires j + 2 <= buf.Length
    modifies buf
    ensures buf[..j + 2] == old(buf[..j]) + PointerTo(pos)
  {
    buf[j] := PointerTo(pos)[0];
    buf[j + 1] := PointerTo(pos)[1];
  }

  /** Terminates the labels, unless the last of them was an empty one. */
  method PutEnd(buf: array<Byte>, j: nat) returns (r: nat)
    requires 0 < j <= buf.Length && (j == buf.Length ==> buf[j - 1] == 0)
    modifies buf
    ensures r <= buf.Length
    ensures buf[..r] == Ended(old(buf[..j]))
  {
    r := j;
    if buf[j - 1] != 0 {
      buf[j] := 0;
      r := j + 1;
    }
  }

  datatype Turn = LongLabel | Full | Pointed | Last | More

  /** The packet with one more label. */
  function Labelled(p: Bytes, rest: Bytes, d: nat): (q: Bytes)
    requires d <= 63 && d <= |rest|
    ensures |q| == |p| + 1 + d
  {
    p + [d] + rest[..d]
  }

  /** The packet with a terminator, unless the last label was an empty one. */
  function Ended(q: Bytes): Bytes
    requires q != []
  {
    if q[|q| - 1] != 0 then q + [0] else q
  }

  /** What to write next: a pointer to offset d, or a label of length d. */
  method NextPiece(j: nat, rest: Bytes, table: LabelTable?, bufLen: nat, ghost p: Bytes) returns (k: Turn, d: nat)
    requires j == |p| <= bufLen
    ensures k.LongLabel? ==> Encode(p, rest, Entries(table), table != null, bufLen) == LabelTooLong
    ensures k.Full? ==> Encode(p, rest, Entries(table), table != null, bufLen) == NoRoom
    ensures k.Pointed? ==>
      && j + 2 <= bufLen
      && Encode(p, rest, Entries(table), table != null, bufLen) == Done(p + PointerTo(d), Entries(table))
    ensures k.Last? || k.More? ==> d <= 63 && d <= |rest| && j + 1 + d <= bufLen
    ensures k.Last? ==>
      && var t' := Remember(Entries(table), table != null, rest, j);
      && Encode(p, rest, Entries(table), table != null, bufLen) == Done(Ended(Labelled(p, rest, d)), t')
    ensures k.More? ==>
      && d < |rest|
      && var q, t' := Labelled(p, rest, d), Remember(Entries(table), table != null, rest, j);
      && Encode(p, rest, Entries(table), table != null, bufLen) == Encode(q, rest[d + 1..], t', table != null, bufLen)
  {
    var ref := Lookup(table, rest);
    if ref.Some? {
      return if j + 2 > bufLen then Full else Pointed, ref.value;
    }
    d := FindDot(rest);
    if d > 63 {
      return LongLabel, d;
    }
    if j + d + 1 > bufLen {
      return Full, d;
    }
    EncodeLabel(p, rest, Entries(table), table != null, bufLen);
    return if d == |rest| then Last else More, d;
  }

  /** One turn of the loop of dnsname_to_labels: a pointer, or one label. */
  method PutPiece(buf: array<Byte>, bufLen: nat, j: nat, rest: Bytes, table: LabelTable?) returns (k: Turn, j': nat, rest': Bytes)
    requires j <= bufLen <= buf.Length
    modifies buf, table
    ensures j' <= bufLen && |rest'| <= |rest|
    ensures
      && var q := buf[..j'];
      && var e := Encode(old(buf[..j]), rest, old(Entries(table)), table != null, bufLen);
      && (k.LongLabel? ==> e == LabelTooLong)
      && (k.Full? ==> e == NoRoom)
      && (k.Pointed? ==> e == Done(q, Entries(table)))
      && (k.Last? ==> q != [] && e == Done(Ended(q), Entries(table)))
      && (k.More? ==> |rest'| < |rest| && e == Encode(q, rest', Entries(table), table != null, bufLen))
  {
    ghost var p: Bytes, t := buf[..j], Entries(table);
    ghost var e := Encode(p, rest, t, table != null, bufLen);
    var d;
    k, d := NextPiece(j, rest, table, bufLen, p);
    j', rest' := j, rest;
    if k.Pointed? {
      PutPointer(buf, j, d);
      j' := j + 2;
      assert e == Done(buf[..j'], Entries(table));
    } else if k.Last? || k.More? {
      PutLabel(buf, j, rest, d, table);
      j' := j + 1 + d;
      rest' := if k.Last? then rest else rest[d + 1..];
      ghost var q: Bytes := buf[..j'];
      assert q == Labelled(p, rest, d) && Entries(table) == Remember(t, table != null, rest, j);
    }
  }

  /** What writing one label leaves to be written. */
  lemma EncodeLabel(p: Bytes, rest: Bytes, t: seq<Entry>, useTable: bool, bufLen: nat)
    requires useTable ==> Find(t, rest).None?
    requires DotIndex(rest) <= 63 && |p| + DotIndex(rest) + 1 <= bufLen
    ensures
      && var d := DotIndex(rest);
      && var q, t', e := Labelled(p, rest, d), Remember(t, useTable, rest, |p|), Encode(p, rest, t, useTable, bufLen);
      && if d < |rest| then e == Encode(q, rest[d + 1..], t', useTable, bufLen) else e == Done(Ended(q), t')
  {
  }

  /** A strict reader finds the labels of the name at `at`, and the name ends with the bytes. */
  ghost predicate WrittenAt(q: Bytes, at: nat, name: Bytes) {
    EndsThere(q, at, name) && forall ls :: GoodName(name, ls) ==> exists c: nat :: Strict(q, at, ls, c)
  }

  ghost predicate EndsThere(q: Bytes, at: nat, name: Bytes) {
    IsGood(name) ==> EndOf(q, at) == |q|
  }

  lemma WritesStrictly(p: Bytes, name: Bytes, tab: seq<Entry>, useTable: bool, bufLen: nat)
    ensures
      && var r := Encode(p, name, tab, useTable, bufLen);
      && (r.Done? && |r.bytes| <= OFFSET_LIMIT && (useTable ==> TabOk(p, tab, |name|, |p|)) ==> WrittenAt(r.bytes, |p|, name))
  {
    var r := Encode(p, name, tab, useTable, bufLen);
    if r.Done? && |r.bytes| <= OFFSET_LIMIT && (useTable ==> TabOk(p, tab, |name|, |p|)) {
      forall ls | GoodName(name, ls)
        ensures EndOf(r.bytes, |p|) == |r.bytes| && exists c: nat :: Strict(r.bytes, |p|, ls, c)
      {
        var c := EncodeReads(p, ls, tab, useTable, bufLen, |p|);
        assert Strict(r.bytes, |p|, ls, c);
      }
    }
  }

  /** dnsname_to_labels: writes the name at j and returns the index behind it, or -1 for a
      label of more than 63 bytes, or -2 for a lack of room. Memory of bufLen bytes is enough
      unless the name overruns it. */
  method NameToLabels(buf: array<Byte>, bufLen: nat, at: nat, name: Bytes, table: LabelTable?) returns (r: int)
    requires at <= bufLen <= buf.Length
    requires |name| <= MAX_NAME && bufLen == buf.Length ==> !Overruns(at, name, Entries(table), table != null, bufLen)
    modifies buf, table
    ensures |name| > MAX_NAME ==> r == -2
    ensures |name| <= MAX_NAME ==>
              match Encode(old(buf[..at]), name, old(Entries(table)), table != null, bufLen)
              case LabelTooLong => r == -1
              case NoRoom => r == -2
              case Done(bytes, tab) =>
                && r == |bytes| <= buf.Length && buf[..r] == bytes && Entries(table) == tab
                && (r > bufLen <==> Overruns(at, name, old(Entries(table)), table != null, bufLen))
    ensures
      && var before := old(buf[..at]);
      && (0 <= r <= OFFSET_LIMIT && (table != null ==> TabOk(before, old(Entries(table)), |name|, at)) ==>
            r <= buf.Length && WrittenAt(buf[..r], at, name))
  {
    if |name| > MAX_NAME {
      return -2;
    }
    OverrunExact(buf[..at], name, Entries(table), table != null, bufLen);
    DoesLead(buf[..at], name, Entries(table), table != null, bufLen);
    WritesStrictly(buf[..at], name, Entries(table), table != null, bufLen);
    r := WriteLabels(buf, bufLen, at, name, table, Encode(buf[..at], name, Entries(table), table != null, bufLen));
  }

  datatype Seal = Seal

  /** The rest of the name has yet to be written for the outcome to be `goal`. */
  ghost predicate Leads(p: Bytes, rest: Bytes, tab: seq<Entry>, useTable: bool, bufLen: nat, goal: Encoded) {
    forall z: Seal :: LeadsSealed(z, p, rest, tab, useTable, bufLen, goal)
  }

  ghost predicate LeadsSealed(z: Seal, p: Bytes, rest: Bytes, tab: seq<Entry>, useTable: bool, bufLen: nat, goal: Encoded) {
    Encode(p, rest, tab, useTable, bufLen) == goal
  }

  lemma DoesLead(p: Bytes, rest: Bytes, tab: seq<Entry>, useTable: bool, bufLen: nat)
    ensures Leads(p, rest, tab, useTable, bufLen, Encode(p, rest, tab, useTable, bufLen))
  {
  }

  /** One turn of the loop on the way to an outcome. */
  method PutNext(buf: array<Byte>, bufLen: nat, j: nat, rest: Bytes, table: LabelTable?, ghost goal: Encoded)
    returns (k: Turn, j': nat, rest': Bytes)
    requires j <= bufLen <= buf.Length && Leads(buf[..j], rest, Entries(table), table != null, bufLen, goal)
    modifies buf, table
    ensures j' <= bufLen && |rest'| <= |rest|
    ensures k.LongLabel? ==> goal == LabelTooLong
    ensures k.Full? ==> goal == NoRoom
    ensures k.Pointed? ==> goal == Done(buf[..j'], Entries(table))
    ensures k.Last? ==> j' > 0 && goal == Done(Ended(buf[..j']), Entries(table))
    ensures k.More? ==> |rest'| < |rest| && Leads(buf[..j'], rest', Entries(table), table != null, bufLen, goal)
  {
    assert LeadsSealed(Seal, buf[..j], rest, Entries(table), table != null, bufLen, goal);
    k, j', rest' := PutPiece(buf, bufLen, j, rest, table);
    if k.More? {
      DoesLead(buf[..j'], rest', Entries(table), table != null, bufLen);
    }
  }

  /** The loop of dnsname_to_labels. */
  method WriteLabels(buf: array<Byte>, bufLen: nat, at: nat, name: Bytes, table: LabelTable?, ghost goal: Encoded)
    returns (r: int)
    requires at <= bufLen <= buf.Length && Leads(buf[..at], name, Entries(table), table != null, bufLen, goal)
    requires goal.Done? ==> |goal.bytes| <= buf.Length
    modifies buf, table
    ensures match goal
            case LabelTooLong => r == -1
            case NoRoom => r == -2
            case Done(bytes, tab) => r == |bytes| <= buf.Length && buf[..r] == bytes && Entries(table) == tab
  {
    var rest: Bytes, j: nat := name, at;
    while true
      invariant j <= bufLen && Leads(buf[..j], rest, Entries(table), table != null, bufLen, goal)
      decreases |rest|
    {
      var k, j', rest' := PutNext(buf, bufLen, j, rest, table, goal);
      match k {
        case LongLabel => return -1;
        case Full => return -2;
        case Pointed => return j';
        case Last =>
          r := PutEnd(buf, j');
          return;
        case More =>
          j, rest := j', rest';
      }
    }
  }

  // ----- round trip -----

  /** A packet after some names were written, and where each starts and ends. */
  datatype Packet = Packet(bytes: Bytes, tab: seq<Entry>, starts: seq<nat>, ends: seq<nat>)

  /** Writes the names one after the other with one shared label table. */
  function EncodeAll(header: Bytes, names: seq<Bytes>, bufLen: nat): Option<Packet> {
    if names == [] then Some(Packet(header, [], [], []))
    else
      match EncodeAll(header, names[..|names| - 1], bufLen)
      case None => None
      case Some(k) =>
        match Encode(k.bytes, names[|names| - 1], k.tab, true, bufLen)
        case Done(bytes, tab) => Some(Packet(bytes, tab, k.starts + [|k.bytes|], k.ends + [|bytes|]))
        case _ => None
  }

  ghost predicate GoodName(name: Bytes, ls: seq<Bytes>) {
    GoodLabels(ls) && Join(ls) == name && |name| <= MAX_NAME
  }

  /** The name at index i is spelled in the packet and ends where the writer said. */
  ghost predicate Holds(k: Packet, i: nat, ls: seq<Bytes>, c: nat)
    requires i < |k.starts| && i < |k.ends|
  {
    c <= k.starts[i] < |k.bytes| && Strict(k.bytes, k.starts[i], ls, c) && EndOf(k.bytes, k.starts[i]) == k.ends[i]
  }

  ghost predicate HoldsName(k: Packet, i: nat, name: Bytes)
    requires i < |k.starts| && i < |k.ends|
  {
    exists ls, c: nat :: GoodName(name, ls) && Holds(k, i, ls, c)
  }

  lemma {:induction false} EndOfExtends(p: Bytes, q: Bytes, j: nat, ls: seq<Bytes>, c: nat)
    requires p <= q && Strict(p, j, ls, c)
    ensures EndOf(q, j) == EndOf(p, j)
    decreases |ls|, c
  {
    if 0 < p[j] < 64 {
      EndOfExtends(p, q, j + 1 + p[j], ls[1..], c);
    }
  }

  ghost predicate PacketOk(k: Packet, names: seq<Bytes>) {
    && |k.starts| == |k.ends| == |names|
    && NewEntriesOk(k.bytes, k.tab, 0)
    && (forall i :: 0 <= i < |names| ==> HoldsName(k, i, names[i]))
  }

  /** Writing one more name keeps every earlier one readable. */
  lemma PacketGrows(k: Packet, names: seq<Bytes>, name: Bytes, ls: seq<Bytes>, bufLen: nat)
    requires PacketOk(k, names) && GoodName(name, ls)
    requires
      && var r := Encode(k.bytes, name, k.tab, true, bufLen);
      && r.Done? && |r.bytes| <= OFFSET_LIMIT
    ensures
      && var r := Encode(k.bytes, name, k.tab, true, bufLen);
      && PacketOk(Packet(r.bytes, r.tab, k.starts + [|k.bytes|], k.ends + [|r.bytes|]), names + [name])
  {
    var r := Encode(k.bytes, name, k.tab, true, bufLen);
    assert TabOk(k.bytes, k.tab, |name|, |k.bytes|);
    var c := EncodeReads(k.bytes, ls, k.tab, true, bufLen, |k.bytes|);
    var n := Packet(r.bytes, r.tab, k.starts + [|k.bytes|], k.ends + [|r.bytes|]);
    OldEntriesStay(k.bytes, r.bytes, k.tab, r.tab);
    assert GoodName(name, ls) && Holds(n, |names|, ls, c);
    forall i | 0 <= i < |names|
      ensures HoldsName(n, i, names[i])
    {
      var js, d: nat :| GoodName(names[i], js) && Holds(k, i, js, d);
      StrictExtends(k.bytes, r.bytes, k.starts[i], js, d);
      EndOfExtends(k.bytes, r.bytes, k.starts[i], js, d);
      assert GoodName(names[i], js) && Holds(n, i, js, d);
    }
  }

  lemma OldEntriesStay(p: Bytes, q: Bytes, tab: seq<Entry>, tab': seq<Entry>)
    requires p <= q && tab <= tab' && NewEntriesOk(p, tab, 0) && NewEntriesOk(q, tab', |tab|)
    ensures NewEntriesOk(q, tab', 0)
  {
    forall i | 0 <= i < |tab|
      ensures exists ls, c: nat :: EntryOk(q, tab'[i], ls, c)
    {
      var ls, c: nat :| EntryOk(p, tab[i], ls, c);
      StrictExtends(p, q, tab[i].pos, ls, c);
      assert EntryOk(q, tab'[i], ls, c);
    }
  }

  ghost predicate AllGood(names: seq<Bytes>) {
    forall i :: 0 <= i < |names| ==> IsGood(names[i])
  }

  ghost predicate IsGood(name: Bytes) {
    exists ls :: GoodName(name, ls)
  }

  lemma {:induction false} EncodeAllOk(header: Bytes, names: seq<Bytes>, bufLen: nat)
    requires AllGood(names)
    requires EncodeAll(header, names, bufLen).Some? && |EncodeAll(header, names, bufLen).value.bytes| <= OFFSET_LIMIT
    ensures PacketOk(EncodeAll(header, names, bufLen).value, names)
  {
    if names != [] {
      var m := |names| - 1;
      var k := EncodeAll(header, names[..m], bufLen).value;
      EncodeFits(k.bytes, names[m], k.tab, true, bufLen);
      EncodeAllOk(header, names[..m], bufLen);
      var ls :| GoodName(names[m], ls);
      PacketGrows(k, names[..m], names[m], ls, bufLen);
      assert names[..m] + [names[m]] == names;
    }
  }

  /** Every name written with compression parses back to itself, also for a strict reader, and
      the parser resumes where the writer stopped, also after all later names were written. */
  lemma RoundTrip(header: Bytes, names: seq<Bytes>, bufLen: nat, i: nat)
    requires AllGood(names) && i < |names|
    requires EncodeAll(header, names, bufLen).Some? && |EncodeAll(header, names, bufLen).value.bytes| <= OFFSET_LIMIT
    ensures
      && var k := EncodeAll(header, names, bufLen).value;
      && |k.starts| == |k.ends| == |names|
      && ParseFrom(k.bytes, k.starts[i], [], 0, MAX_NAME + 1) == Some(names[i])
      && (exists ls, c: nat :: GoodName(names[i], ls) && Strict(k.bytes, k.starts[i], ls, c))
      && EndOf(k.bytes, k.starts[i]) == k.ends[i]
  {
    EncodeAllOk(header, names, bufLen);
    var k := EncodeAll(header, names, bufLen).value;
    var ls, c: nat :| GoodName(names[i], ls) && Holds(k, i, ls, c);
    StrictIsRead(k.bytes, k.starts[i], ls, c);
    SpelledParses(k.bytes, k.starts[i], MAX_NAME + 1, names[i], ls, c);
  }

  /** Some label of the name, cut at its dots, is empty. */
  predicate HasEmptyLabel(name: Bytes)
    decreases |name|
  {
    var d := DotIndex(name);
    d == 0 || (d < |name| && HasEmptyLabel(name[d + 1..]))
  }

  predicate ShortLabels(name: Bytes)
    decreases |name|
  {
    var d := DotIndex(name);
    d < 64 && (d < |name| ==> ShortLabels(name[d + 1..]))
  }

  lemma {:induction false} DoneIsShort(p: Bytes, name: Bytes, bufLen: nat)
    requires Encode(p, name, [], false, bufLen).Done?
    ensures ShortLabels(name)
    decreases |name|
  {
    var d := DotIndex(name);
    if d < |name| {
      DoneIsShort(p + [d] + name[..d], name[d + 1..], bufLen);
    }
  }

  lemma {:induction false} SplitGood(name: Bytes) returns (ls: seq<Bytes>)
    requires !HasEmptyLabel(name) && 0 !in name && ShortLabels(name)
    ensures GoodLabels(ls) && Join(ls) == name && ls != []
    decreases |name|
  {
    var d := DotIndex(name);
    var l := name[..d];
    assert GoodLabel(l);
    if d == |name| {
      ls := [name];
    } else {
      var rest := SplitGood(name[d + 1..]);
      ls := [l] + rest;
      assert ls[1..] == rest;
      assert name == l + [DOT] + name[d + 1..];
    }
  }

  /** The labels of the name, one after the other, from offset j on. */
  ghost predicate LabelsAt(bytes: Bytes, j: nat, name: Bytes)
    decreases |name|, 1
  {
    forall z: Seal :: FirstLabelAt(z, bytes, j, name)
  }

  ghost predicate FirstLabelAt(z: Seal, bytes: Bytes, j: nat, name: Bytes)
    decreases |name|, 0
  {
    var d := DotIndex(name);
    && d <= 63 && j + 1 + d <= |bytes| && bytes[j] == d && bytes[j + 1..j + 1 + d] == name[..d]
    && (d < |name| ==> LabelsAt(bytes, j + 1 + d, name[d + 1..]))
  }

  lemma HeadAt(bytes: Bytes, j: nat, name: Bytes)
    requires LabelsAt(bytes, j, name)
    ensures
      && var d := DotIndex(name);
      && d <= 63 && j + 1 + d <= |bytes| && bytes[j] == d && bytes[j + 1..j + 1 + d] == name[..d]
      && (d < |name| ==> LabelsAt(bytes, j + 1 + d, name[d + 1..]))
  {
    assert FirstLabelAt(Seal, bytes, j, name);
  }

  /** What the writer writes without a table. */
  ghost predicate Writes(p: Bytes, name: Bytes, bufLen: nat, bytes: Bytes) {
    forall z: Seal :: WritesSealed(z, p, name, bufLen, bytes)
  }

  ghost predicate WritesSealed(z: Seal, p: Bytes, name: Bytes, bufLen: nat, bytes: Bytes) {
    Encode(p, name, [], false, bufLen) == Done(bytes, [])
  }

  lemma {:induction false} EncodedLabels(p: Bytes, name: Bytes, bufLen: nat, bytes: Bytes)
    requires Writes(p, name, bufLen, bytes)
    ensures LabelsAt(bytes, |p|, name)
    decreases |name|
  {
    var d := DotIndex(name);
    FirstWritten(p, name, bufLen, bytes);
    if d < |name| {
      EncodedLabels(Labelled(p, name, d), name[d + 1..], bufLen, bytes);
    }
  }

  /** Parsing at j yields fewer than n bytes, or nothing. */
  ghost predicate YieldsLess(bytes: Bytes, j: nat, acc: Bytes, outLen: nat, n: int) {
    forall z: Seal :: Less(z, bytes, j, acc, outLen, n)
  }

  ghost predicate Less(z: Seal, bytes: Bytes, j: nat, acc: Bytes, outLen: nat, n: int) {
    var r := ParseFrom(bytes, j, acc, 0, outLen);
    r.Some? ==> |r.value| < n
  }

  /** A name with an empty label reads back as something shorter. */
  lemma {:induction false} EmptyLabelCuts(bytes: Bytes, j: nat, name: Bytes, acc: Bytes, outLen: nat)
    requires HasEmptyLabel(name) && !(name == [] && acc == []) && LabelsAt(bytes, j, name)
    ensures YieldsLess(bytes, j, acc, outLen, |acc| + |name| + if acc == [] then 0 else 1)
    decreases |name|
  {
    var d := DotIndex(name);
    HeadAt(bytes, j, name);
    if d == 0 {
      LessAtEnd(bytes, j, acc, outLen, |name|);
    } else {
      MoreLabels(name);
      EmptyLabelCuts(bytes, j + 1 + d, name[d + 1..], Extend(acc, name[..d]), outLen);
      ShorterAfter(bytes, j, acc, outLen, name[..d], |name|);
    }
  }

  lemma LessAtEnd(bytes: Bytes, j: nat, acc: Bytes, outLen: nat, n: nat)
    requires j < |bytes| && bytes[j] == 0 && !(n == 0 && acc == [])
    ensures YieldsLess(bytes, j, acc, outLen, |acc| + n + if acc == [] then 0 else 1)
  {
    ParseEnds(bytes, j, acc, 0, outLen);
  }

  /** What is lost behind a label is lost altogether. */
  lemma ShorterAfter(bytes: Bytes, j: nat, acc: Bytes, outLen: nat, piece: Bytes, n: nat)
    requires 0 < |piece| < 64 && |piece| < n && j + 1 + |piece| <= |bytes|
    requires bytes[j] == |piece| && bytes[j + 1..j + 1 + |piece|] == piece
    requires YieldsLess(bytes, j + 1 + |piece|, Extend(acc, piece), outLen, |Extend(acc, piece)| + (n - |piece| - 1) + 1)
    ensures YieldsLess(bytes, j, acc, outLen, |acc| + n + if acc == [] then 0 else 1)
  {
    assert Less(Seal, bytes, j + 1 + |piece|, Extend(acc, piece), outLen, |Extend(acc, piece)| + (n - |piece| - 1) + 1);
    ParseLabel(bytes, j, acc, 0, outLen);
  }

  /** A label that is not empty is not the one that is. */
  lemma MoreLabels(name: Bytes)
    requires HasEmptyLabel(name) && DotIndex(name) > 0
    ensures DotIndex(name) < |name| && HasEmptyLabel(name[DotIndex(name) + 1..])
  {
  }

  /** An encoded name starts with its first label. */
  lemma FirstLabel(p: Bytes, name: Bytes, bufLen: nat, bytes: Bytes)
    requires Encode(p, name, [], false, bufLen) == Done(bytes, [])
    ensures
      && var d := DotIndex(name);
      && d <= 63 && |p| + 1 + d <= |bytes| && bytes[|p|] == d && bytes[|p| + 1..|p| + 1 + d] == name[..d]
      && (d < |name| ==> Encode(Labelled(p, name, d), name[d + 1..], [], false, bufLen) == Done(bytes, []))
  {
    var d := DotIndex(name);
    EncodeLabel(p, name, [], false, bufLen);
    var q := Labelled(p, name, d);
    if d < |name| {
      EncodeFits(q, name[d + 1..], [], false, bufLen);
    }
    LabelAt(q, bytes, |p|, d, name[..d]);
  }

  lemma FirstWritten(p: Bytes, name: Bytes, bufLen: nat, bytes: Bytes)
    requires Writes(p, name, bufLen, bytes)
    ensures
      && var d := DotIndex(name);
      && d <= 63 && |p| + 1 + d <= |bytes| && bytes[|p|] == d && bytes[|p| + 1..|p| + 1 + d] == name[..d]
      && (d < |name| ==> Writes(Labelled(p, name, d), name[d + 1..], bufLen, bytes))
  {
    assert WritesSealed(Seal, p, name, bufLen, bytes);
    FirstLabel(p, name, bufLen, bytes);
    var d := DotIndex(name);
    if d < |name| {
      DoesWrite(Labelled(p, name, d), name[d + 1..], bufLen, bytes);
    }
  }

  lemma DoesWrite(p: Bytes, name: Bytes, bufLen: nat, bytes: Bytes)
    requires Encode(p, name, [], false, bufLen) == Done(bytes, [])
    ensures Writes(p, name, bufLen, bytes)
  {
  }

  lemma LabelAt(q: Bytes, bytes: Bytes, j: nat, d: nat, piece: Bytes)
    requires q <= bytes && |piece| == d <= 63 && j + 1 + d == |q| && q[j] == d && q[j + 1..] == piece
    ensures bytes[j] == d && bytes[j + 1..j + 1 + d] == piece
  {
    assert bytes[j + 1..j + 1 + d] == q[j + 1..j + 1 + d];
  }

  lemma ParseEnds(p: Bytes, j: nat, name: Bytes, count: nat, outLen: nat)
    requires count <= |p| && j < |p| && p[j] == 0
    ensures
      && var r := ParseFrom(p, j, name, count, outLen);
      && (r.None? || r == Some(name))
  {
  }

  lemma ParseLabel(p: Bytes, j: nat, name: Bytes, count: nat, outLen: nat)
    requires count <= |p| && j < |p| && 0 < p[j] < 64 && j + 1 + p[j] <= |p|
    ensures
      && var r := ParseFrom(p, j, name, count, outLen);
      && (r.None? || r == ParseFrom(p, j + 1 + p[j], Extend(name, p[j + 1..j + 1 + p[j]]), count, outLen))
  {
  }

  /** Without a table none is made. */
  lemma {:induction false} PlainTable(p: Bytes, name: Bytes, bufLen: nat)
    requires Encode(p, name, [], false, bufLen).Done?
    ensures Encode(p, name, [], false, bufLen).tab == []
    decreases |name|
  {
    var d := DotIndex(name);
    if d < |name| {
      PlainTable(p + [d] + name[..d], name[d + 1..], bufLen);
    }
  }

  /** An uncompressed name parses back to itself exactly when none of its labels is empty, or
      it is the empty name: a leading, trailing or doubled dot is lost. */
  lemma PlainRoundTripExact(p: Bytes, name: Bytes, bufLen: nat)
    requires 0 !in name && |name| <= MAX_NAME && Encode(p, name, [], false, bufLen).Done?
    requires |Encode(p, name, [], false, bufLen).bytes| <= OFFSET_LIMIT
    ensures
      && var bytes := Encode(p, name, [], false, bufLen).bytes;
      && (ParseFrom(bytes, |p|, [], 0, MAX_NAME + 1) == Some(name) <==> name == [] || !HasEmptyLabel(name))
  {
    var bytes := Encode(p, name, [], false, bufLen).bytes;
    if name == [] || !HasEmptyLabel(name) {
      var ls: seq<Bytes> := [];
      if name != [] {
        DoneIsShort(p, name, bufLen);
        ls := SplitGood(name);
      }
      var c := EncodeReads(p, ls, [], false, bufLen, |p|);
      StrictIsRead(bytes, |p|, ls, c);
      SpelledParses(bytes, |p|, MAX_NAME + 1, name, ls, c);
    } else {
      PlainTable(p, name, bufLen);
      DoesWrite(p, name, bufLen, bytes);
      EncodedLabels(p, name, bufLen, bytes);
      EmptyLabelCuts(bytes, |p|, name, [], MAX_NAME + 1);
      assert Less(Seal, bytes, |p|, [], MAX_NAME + 1, |name|);
    }
  }

  /** Section 3.1 of RFC 1035: each label behind its length, and a terminator. */
  function Wire(ls: seq<Bytes>): (w: Bytes)
    requires GoodLabels(ls)
  {
    if ls == [] then [0] else [|ls[0]|] + ls[0] + Wire(ls[1..])
  }

  /** Without a table the writer appends exactly that. */
  lemma {:induction false} PlainLayout(p: Bytes, ls: seq<Bytes>, bufLen: nat, bytes: Bytes)
    requires GoodLabels(ls) && Writes(p, Join(ls), bufLen, bytes)
    ensures bytes == p + Wire(ls)
    decreases |ls|
  {
    WritesStep(p, ls, bufLen, bytes);
    if ls != [] {
      var q := p + [|ls[0]|] + ls[0];
      if |ls| == 1 {
        assert Wire(ls[1..]) == [0];
      } else {
        PlainLayout(q, ls[1..], bufLen, bytes);
      }
      assert q + Wire(ls[1..]) == p + Wire(ls);
    }
  }

  lemma WritesStep(p: Bytes, ls: seq<Bytes>, bufLen: nat, bytes: Bytes)
    requires GoodLabels(ls) && Writes(p, Join(ls), bufLen, bytes)
    ensures ls == [] ==> bytes == p + [0]
    ensures |ls| == 1 ==> bytes == p + [|ls[0]|] + ls[0] + [0]
    ensures |ls| > 1 ==> Writes(p + [|ls[0]|] + ls[0], Join(ls[1..]), bufLen, bytes)
  {
    assert WritesSealed(Seal, p, Join(ls), bufLen, bytes);
    if ls == [] {
      assert p + [0] + [] == p + [0];
    } else {
      EncodeStep(p, ls, [], false, bufLen);
      if |ls| > 1 {
        DoesWrite(p + [|ls[0]|] + ls[0], Join(ls[1..]), bufLen, bytes);
      }
    }
  }

  lemma EncodeAllStep(header: Bytes, names: seq<Bytes>, name: Bytes, bufLen: nat, k: Packet, bytes: Bytes, tab: seq<Entry>)
    requires EncodeAll(header, names, bufLen) == Some(k) && Encode(k.bytes, name, k.tab, true, bufLen) == Done(bytes, tab)
    ensures EncodeAll(header, names + [name], bufLen) ==
            Some(Packet(bytes, tab, k.starts + [|k.bytes|], k.ends + [|bytes|]))
  {
    assert (names + [name])[..|names|] == names;
  }

  /** "a" twice: the second is a pointer to the first, at offset 0. */
  lemma SecondIsPointer()
    ensures EncodeAll([], [[97], [97]], 100) == Some(Packet([1, 97, 0, 0xc0, 0], [Entry([97], 0)], [0, 3], [3, 5]))
  {
    var a: Bytes, one: Bytes := [97], [1, 97, 0];
    var tab := [Entry(a, 0)];
    assert GoodLabel(a) && Join([a]) == a;
    EncodeStep([], [a], [], true, 100);
    assert [] + [1] + a + [0] == one;
    EncodeAllStep([], [], a, 100, Packet([], [], [], []), one, tab);
    assert [] + [a] == [a] && [] + [0] == [0] && [] + [3] == [3];
    assert one + PointerTo(0) == [1, 97, 0, 0xc0, 0];
    EncodeAllStep([], [a], a, 100, Packet(one, tab, [0], [3]), [1, 97, 0, 0xc0, 0], tab);
    assert [a] + [a] == [[97], [97]] && [0] + [3] == [0, 3] && [3] + [5] == [3, 5];
  }

  /** "a." comes back as "a". */
  lemma TrailingDotLost()
    ensures HasEmptyLabel([97, DOT])
    ensures Encode([], [97, DOT], [], false, 10) == Done([1, 97, 0], [])
    ensures ParseFrom([1, 97, 0], 0, [], 0, MAX_NAME + 1) == Some([97])
  {
    var name: Bytes := [97, DOT];
    assert name[1..] == [DOT] && DotIndex(name) == 1;
    assert name[..1] == [97] && name[2..] == [];
    assert [] + [1] + [97] == [1, 97];
    assert [1, 97] + [0] + [] == [1, 97, 0];
    ParseA([1, 97, 0], 0);
  }

  /** The byte 64, which is neither the length of a label nor the start of a pointer in section
      4.1.4 of RFC 1035, is followed as a pointer: to "a" here. */
  lemma ReservedByteJumps()
    ensures ParseFrom([1, 97, 0, 64, 0], 3, [], 0, MAX_NAME + 1) == Some([97])
  {
    assert Target([1, 97, 0, 64, 0], 3) == 0;
    ParseA([1, 97, 0, 64, 0], 1);
  }

  lemma ParseA(p: Bytes, count: nat)
    requires [1, 97, 0] <= p && count <= |p|
    ensures ParseFrom(p, 0, [], count, MAX_NAME + 1) == Some([97])
  {
    assert p[1..2] == [97] && p[2] == 0;
    assert Extend([], [97]) == [97];
    assert ParseFrom(p, 2, [97], count, MAX_NAME + 1) == Some([97]);
  }
}
