/** Whole runs over two evbuffers: whatever the chains look like, every run of operations
    does to the buffers what it does to two flat byte strings. */
module EvbufferRuns {
  import opened Chunks
  import opened Evbuffer
  import opened EvbufferMoves
  import opened EvbufferReserve

  /** An operation on one of two buffers, or a move of bytes from the other one; AppendOp is a
      reservation of n pieces that are filled and committed. */
  datatype Op =
    | AddOp(data: Bytes)
    | PrependOp(data: Bytes)
    | DrainOp(len: nat)
    | RemoveOp(len: nat)
    | CopyOutOp(len: nat)
    | PullupOp(size: int)
    | ExpandOp(len: nat)
    | AppendOp(data: Bytes, n: nat)
    | MoveOp(len: nat)
    | AddBufferOp
    | PrependBufferOp

  /** Two byte strings, of which ops work on `own`, and the bytes handed out so far. */
  datatype FlatState = FlatState(own: Bytes, other: Bytes, out: seq<Bytes>)

  ghost function Front(s: Bytes, n: nat): Bytes {
    if n < |s| then s[..n] else s
  }

  ghost function Back(s: Bytes, n: nat): Bytes {
    if n < |s| then s[n..] else []
  }

  /** What an operation does to flat byte strings. */
  ghost function FlatStep(s: FlatState, op: Op): FlatState {
    match op
    case AddOp(d) => s.(own := s.own + d)
    case PrependOp(d) => s.(own := d + s.own)
    case DrainOp(n) => s.(own := Back(s.own, n))
    case RemoveOp(n) => s.(own := Back(s.own, n), out := s.out + [Front(s.own, n)])
    case CopyOutOp(n) => s.(out := s.out + [Front(s.own, n)])
    case PullupOp(n) => s
    case ExpandOp(n) => s
    case AppendOp(d, _) => s.(own := s.own + d)
    case MoveOp(n) => s.(own := s.own + Front(s.other, n), other := Back(s.other, n))
    case AddBufferOp => s.(own := s.own + s.other, other := [])
    case PrependBufferOp => s.(own := s.other + s.own, other := [])
  }

  /** A step of a run: an operation, and which of the two buffers it works on. */
  datatype Step = Step(swapped: bool, op: Op)

  ghost function Swap(s: FlatState): FlatState {
    FlatState(s.other, s.own, s.out)
  }

  ghost function FlatRun(s: FlatState, steps: seq<Step>): FlatState {
    if steps == [] then s
    else
      var t := FlatRun(s, steps[..|steps| - 1]);
      var last := steps[|steps| - 1];
      if last.swapped then Swap(FlatStep(Swap(t), last.op)) else FlatStep(t, last.op)
  }

  /** All bytes of both strings can be in memory, each piece added fits in one chain. */
  ghost predicate InMemory(s: FlatState, op: Op) {
    match op
    case AddOp(d) => |d| <= MAX_CAPACITY && |s.own| + |s.other| + |d| <= SIZE_MAX
    case PrependOp(d) => |d| <= MAX_CAPACITY && |s.own| + |s.other| + |d| <= SIZE_MAX
    case AppendOp(d, n) => |d| <= MAX_CAPACITY - MAX_TO_COPY && |s.own| + |s.other| + |d| <= SIZE_MAX && n >= 2
    case _ => |s.own| + |s.other| <= SIZE_MAX
  }

  ghost predicate RunInMemory(s: FlatState, steps: seq<Step>) {
    forall i :: 0 <= i < |steps| ==>
      var t := FlatRun(s, steps[..i]);
      InMemory(if steps[i].swapped then Swap(t) else t, steps[i].op)
  }

  ghost predicate Unfrozen(b: EvBuffer)
    reads b
  {
    b.Valid() && !b.freezeStart && !b.freezeEnd
  }

  ghost predicate BothDense(a: EvBuffer, b: EvBuffer)
    reads a, b
  {
    a.Dense() && b.Dense()
  }

  /** Each operation does to the buffers what it does to byte strings. Only putting one buffer
      in front of another can leave an empty chain before the last data, which is what a partial
      move cannot have. */
  method DoStep(own: EvBuffer, other: EvBuffer, op: Op, out: seq<Bytes>) returns (outs: seq<Bytes>)
    requires own != other && Unfrozen(own) && Unfrozen(other)
    requires InMemory(FlatState(own.Contents(), other.Contents(), out), op)
    requires op.MoveOp? ==> BothDense(own, other)
    modifies own`chains, own`lwdp, own`totalLen, other`chains, other`lwdp, other`totalLen
    ensures Unfrozen(own) && Unfrozen(other)
    ensures FlatState(own.Contents(), other.Contents(), outs)
         == FlatStep(old(FlatState(own.Contents(), other.Contents(), out)), op)
    ensures old(BothDense(own, other)) && !op.PrependBufferOp? ==> BothDense(own, other)
  {
    outs := out;
    match op {
      case AddOp(d) => var ok := own.Add(d);
      case PrependOp(d) => var ok := own.Prepend(d, true);
      case DrainOp(n) => var ok := own.Drain(n);
      case RemoveOp(n) =>
        ghost var s := own.Contents();
        var r := own.Remove(n);
        assert Front(s, n) + Back(s, n) == s;
        assert r.value == (r.value + own.Contents())[..|r.value|] == Front(s, n);
        assert own.Contents() == (r.value + own.Contents())[|r.value|..] == Back(s, n);
        outs := out + [r.value];
      case CopyOutOp(n) =>
        var r := own.CopyOut(n);
        outs := out + [r.value];
      case PullupOp(n) => var r := own.Pullup(n);
      case ExpandOp(n) => var r := ExpandSingleChain(own, n);
      case AppendOp(d, n) => var ok := AppendInPieces(own, d, n);
      case MoveOp(n) => MoveStep(own, other, n);
      case AddBufferOp => var ok := AddBuffer(own, other);
      case PrependBufferOp => var ok := PrependBuffer(own, other);
    }
  }

  method MoveStep(own: EvBuffer, other: EvBuffer, n: nat)
    requires own != other && Unfrozen(own) && Unfrozen(other) && BothDense(own, other)
    requires own.totalLen + other.totalLen <= SIZE_MAX
    modifies own`chains, own`lwdp, own`totalLen, other`chains, other`lwdp, other`totalLen
    ensures Unfrozen(own) && Unfrozen(other) && BothDense(own, other)
    ensures own.Contents() == old(own.Contents()) + Front(old(other.Contents()), n)
    ensures other.Contents() == Back(old(other.Contents()), n)
  {
    ghost var s, t := own.Contents(), other.Contents();
    var r := RemoveBuffer(other, own, n);
    assert n == 0 ==> Front(t, n) == [] && Back(t, n) == t;
    assert n > 0 && n < |t| ==> t[..r] == Front(t, n) && t[r..] == Back(t, n);
    assert n > 0 && n >= |t| ==> t[..r] == t && t[r..] == [];
    assert s + [] == s;
  }

  /** No step before step i puts one buffer in front of the other. */
  ghost predicate Clear(steps: seq<Step>, i: nat) {
    forall j :: 0 <= j < i && j < |steps| ==> !steps[j].op.PrependBufferOp?
  }

  /** Every run acts on the chunked buffers exactly as on two flat byte strings. Partial moves may
      come as long as no buffer was put in front of another. */
  method Run(a: EvBuffer, b: EvBuffer, steps: seq<Step>) returns (outs: seq<Bytes>)
    requires a != b && Unfrozen(a) && Unfrozen(b)
    requires RunInMemory(FlatState(a.Contents(), b.Contents(), []), steps)
    requires forall i :: 0 <= i < |steps| && steps[i].op.MoveOp? ==> BothDense(a, b) && Clear(steps, i)
    modifies a`chains, a`lwdp, a`totalLen, b`chains, b`lwdp, b`totalLen
    ensures Unfrozen(a) && Unfrozen(b)
    ensures FlatState(a.Contents(), b.Contents(), outs)
         == FlatRun(old(FlatState(a.Contents(), b.Contents(), [])), steps)
    ensures old(BothDense(a, b)) && Clear(steps, |steps|) ==> BothDense(a, b)
  {
    outs := [];
    ghost var s := FlatState(a.Contents(), b.Contents(), []);
    for i := 0 to |steps|
      modifies a`chains, a`lwdp, a`totalLen, b`chains, b`lwdp, b`totalLen
      invariant Unfrozen(a) && Unfrozen(b)
      invariant FlatState(a.Contents(), b.Contents(), outs) == FlatRun(s, steps[..i])
      invariant old(BothDense(a, b)) && Clear(steps, i) ==> BothDense(a, b)
    {
      assert steps[..i + 1][..i] == steps[..i];
      if steps[i].swapped {
        outs := DoStep(b, a, steps[i].op, outs);
      } else {
        outs := DoStep(a, b, steps[i].op, outs);
      }
    }
    assert steps[..|steps|] == steps;
  }
}
