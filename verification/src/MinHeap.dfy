/** The timer heap: a binary heap of event ids ordered by deadline, in which every event
    knows its own position. */
module MinHeap {
  import opened IdLists

  /** `p` is the array; `pos` is min_heap_idx, absent for an event outside the heap. */
  datatype Heap = Heap(p: seq<Id>, pos: map<Id, nat>)

  function Parent(i: nat): nat
    requires i > 0
  {
    (i - 1) / 2
  }

  /** Every element has a deadline and knows its index; nobody else has one. */
  ghost predicate Placed(p: seq<Id>, pos: map<Id, nat>, t: map<Id, int>) {
    && (forall i :: 0 <= i < |p| ==> p[i] in t && p[i] in pos && pos[p[i]] == i)
    && (forall x :: x in pos ==> pos[x] < |p| && p[pos[x]] == x)
  }

  /** No element is due before its parent. */
  ghost predicate Ordered(p: seq<Id>, t: map<Id, int>)
    requires forall i :: 0 <= i < |p| ==> p[i] in t
  {
    forall i :: 0 < i < |p| ==> t[p[Parent(i)]] <= t[p[i]]
  }

  ghost predicate HeapOk(h: Heap, t: map<Id, int>) {
    Placed(h.p, h.pos, t) && Ordered(h.p, t)
  }

  /** The top is due first. */
  lemma {:induction false} TopIsLeast(h: Heap, t: map<Id, int>, i: nat)
    requires HeapOk(h, t) && i < |h.p|
    ensures t[h.p[0]] <= t[h.p[i]]
  {
    if i > 0 {
      TopIsLeast(h, t, Parent(i));
    }
  }

  /** Ordered but for the place k, whose element may be due before its parent. */
  ghost predicate OrderedAbove(p: seq<Id>, t: map<Id, int>, k: nat)
    requires forall i :: 0 <= i < |p| ==> p[i] in t
  {
    && (forall i :: 0 < i < |p| && i != k ==> t[p[Parent(i)]] <= t[p[i]])
    && (forall i :: 0 < i < |p| && Parent(i) == k && k > 0 ==> t[p[Parent(k)]] <= t[p[i]])
  }

  /** Ordered but for the place k, whose element may be due after its children. */
  ghost predicate OrderedBelow(p: seq<Id>, t: map<Id, int>, k: nat)
    requires forall i :: 0 <= i < |p| ==> p[i] in t
  {
    && (forall i :: 0 < i < |p| && Parent(i) != k ==> t[p[Parent(i)]] <= t[p[i]])
    && (forall i :: 0 < i < |p| && Parent(i) == k && k > 0 ==> t[p[Parent(k)]] <= t[p[i]])
  }

  /** The array with the elements at i and j exchanged. */
  function Swap(p: seq<Id>, i: nat, j: nat): seq<Id>
    requires i < |p| && j < |p|
  {
    p[i := p[j]][j := p[i]]
  }

  function SwapPos(p: seq<Id>, pos: map<Id, nat>, i: nat, j: nat): map<Id, nat>
    requires i < |p| && j < |p|
  {
    pos[p[i] := j][p[j] := i]
  }

  lemma SwapPlaced(p: seq<Id>, pos: map<Id, nat>, t: map<Id, int>, i: nat, j: nat)
    requires Placed(p, pos, t) && i < |p| && j < |p| && i != j
    ensures Placed(Swap(p, i, j), SwapPos(p, pos, i, j), t)
    ensures SwapPos(p, pos, i, j).Keys == pos.Keys
  {
  }

  lemma SwapUp(p: seq<Id>, t: map<Id, int>, k: nat)
    requires (forall i :: 0 <= i < |p| ==> p[i] in t) && 0 < k < |p|
    requires OrderedAbove(p, t, k) && t[p[Parent(k)]] > t[p[k]]
    ensures OrderedAbove(Swap(p, k, Parent(k)), t, Parent(k))
  {
    var up, q := Parent(k), Swap(p, k, Parent(k));
    forall i | 0 < i < |p| && i != up
      ensures t[q[Parent(i)]] <= t[q[i]]
    {
      assert i != k ==> q[i] == p[i];
    }
    forall i | 0 < i < |p| && Parent(i) == up && up > 0
      ensures t[q[Parent(up)]] <= t[q[i]]
    {
      assert t[p[Parent(up)]] <= t[p[up]];
    }
  }

  /** Moves the element at k up to its place. */
  method ShiftUp(h: Heap, t: map<Id, int>, k: nat) returns (r: Heap)
    requires Placed(h.p, h.pos, t) && k < |h.p| && OrderedAbove(h.p, t, k)
    ensures HeapOk(r, t) && r.pos.Keys == h.pos.Keys
  {
    r := h;
    var hole: nat := k;
    while hole > 0 && t[r.p[Parent(hole)]] > t[r.p[hole]]
      invariant Placed(r.p, r.pos, t) && hole < |r.p| && OrderedAbove(r.p, t, hole)
      invariant r.pos.Keys == h.pos.Keys
    {
      var up := Parent(hole);
      SwapPlaced(r.p, r.pos, t, hole, up);
      SwapUp(r.p, t, hole);
      r := Heap(Swap(r.p, hole, up), SwapPos(r.p, r.pos, hole, up));
      hole := up;
    }
  }

  lemma SwapDown(p: seq<Id>, t: map<Id, int>, k: nat, c: nat)
    requires (forall i :: 0 <= i < |p| ==> p[i] in t) && c < |p| && c > 0 && Parent(c) == k
    requires OrderedBelow(p, t, k) && t[p[k]] > t[p[c]]
    requires forall i :: 0 < i < |p| && Parent(i) == k ==> t[p[c]] <= t[p[i]]
    ensures OrderedBelow(Swap(p, k, c), t, c)
  {
  }

  /** The child of k that is due first: 2k + 1 or 2k + 2. */
  method LeastChild(p: seq<Id>, t: map<Id, int>, k: nat) returns (c: nat)
    requires (forall i :: 0 <= i < |p| ==> p[i] in t) && 2 * (k + 1) <= |p|
    ensures 0 < c < |p| && Parent(c) == k
    ensures forall i :: 0 < i < |p| && Parent(i) == k ==> t[p[c]] <= t[p[i]]
  {
    c := 2 * (k + 1);
    if c == |p| || t[p[c]] > t[p[c - 1]] {
      c := c - 1;
    }
  }

  /** Moves the element at k down to its place. */
  method ShiftDown(h: Heap, t: map<Id, int>, k: nat) returns (r: Heap)
    requires Placed(h.p, h.pos, t) && k < |h.p| && OrderedBelow(h.p, t, k)
    ensures HeapOk(r, t) && r.pos.Keys == h.pos.Keys
  {
    r := h;
    var hole: nat := k;
    while 2 * (hole + 1) <= |r.p|
      invariant Placed(r.p, r.pos, t) && hole < |r.p| && OrderedBelow(r.p, t, hole)
      invariant r.pos.Keys == h.pos.Keys
      decreases |r.p| - hole
    {
      var child := LeastChild(r.p, t, hole);
      if t[r.p[hole]] <= t[r.p[child]] {
        return;
      }
      SwapPlaced(r.p, r.pos, t, hole, child);
      SwapDown(r.p, t, hole, child);
      r := Heap(Swap(r.p, hole, child), SwapPos(r.p, r.pos, hole, child));
      hole := child;
    }
  }

  /** min_heap_push_ */
  method Push(h: Heap, t: map<Id, int>, e: Id) returns (r: Heap)
    requires HeapOk(h, t) && e in t && e !in h.pos
    ensures HeapOk(r, t) && r.pos.Keys == h.pos.Keys + {e}
  {
    r := Heap(h.p + [e], h.pos[e := |h.p|]);
    PushPlaced(h, t, e);
    r := ShiftUp(r, t, |h.p|);
  }

  lemma PushPlaced(h: Heap, t: map<Id, int>, e: Id)
    requires HeapOk(h, t) && e in t && e !in h.pos
    ensures Placed(h.p + [e], h.pos[e := |h.p|], t)
    ensures OrderedAbove(h.p + [e], t, |h.p|)
  {
  }

  /** min_heap_erase_: the last element takes the place of e and moves up or down from there. */
  method Erase(h: Heap, t: map<Id, int>, e: Id) returns (r: Heap)
    requires HeapOk(h, t) && e in h.pos
    ensures HeapOk(r, t) && r.pos.Keys == h.pos.Keys - {e}
  {
    var k, n := h.pos[e], |h.p| - 1;
    var last := h.p[n];
    if k == n {
      LastErased(h, t);
      return Heap(h.p[..n], h.pos - {e});
    }
    var p, pos := h.p[..n][k := last], (h.pos - {e})[last := k];
    ErasePlaced(h, t, e);
    if k > 0 && t[h.p[Parent(k)]] > t[last] {
      EraseAbove(h, t, k);
      r := ShiftUp(Heap(p, pos), t, k);
    } else {
      EraseBelow(h, t, k);
      r := ShiftDown(Heap(p, pos), t, k);
    }
  }

  lemma LastErased(h: Heap, t: map<Id, int>)
    requires HeapOk(h, t) && h.p != []
    ensures HeapOk(Heap(h.p[..|h.p| - 1], h.pos - {h.p[|h.p| - 1]}), t)
  {
  }

  lemma ErasePlaced(h: Heap, t: map<Id, int>, e: Id)
    requires HeapOk(h, t) && e in h.pos && h.pos[e] < |h.p| - 1
    ensures
      && var n := |h.p| - 1;
      && Placed(h.p[..n][h.pos[e] := h.p[n]], (h.pos - {e})[h.p[n] := h.pos[e]], t)
      && (h.pos - {e})[h.p[n] := h.pos[e]].Keys == h.pos.Keys - {e}
  {
  }

  lemma EraseAbove(h: Heap, t: map<Id, int>, k: nat)
    requires HeapOk(h, t) && 0 < k < |h.p| - 1 && t[h.p[Parent(k)]] > t[h.p[|h.p| - 1]]
    ensures OrderedAbove(h.p[..|h.p| - 1][k := h.p[|h.p| - 1]], t, k)
  {
    var p := h.p[..|h.p| - 1][k := h.p[|h.p| - 1]];
    forall i | 0 < i < |p| && Parent(i) == k
      ensures t[h.p[Parent(k)]] <= t[p[i]]
    {
      assert t[h.p[Parent(k)]] <= t[h.p[k]] <= t[h.p[i]];
    }
  }

  lemma EraseBelow(h: Heap, t: map<Id, int>, k: nat)
    requires HeapOk(h, t) && k < |h.p| - 1 && (k > 0 ==> t[h.p[Parent(k)]] <= t[h.p[|h.p| - 1]])
    ensures OrderedBelow(h.p[..|h.p| - 1][k := h.p[|h.p| - 1]], t, k)
  {
    var p := h.p[..|h.p| - 1][k := h.p[|h.p| - 1]];
    forall i | 0 < i < |p| && Parent(i) == k && k > 0
      ensures t[h.p[Parent(k)]] <= t[p[i]]
    {
      assert t[h.p[Parent(k)]] <= t[h.p[k]] <= t[h.p[i]];
    }
  }
}
