/** Unbiased random numbers below a bound, by rejection, in 32-bit arithmetic. */
module Uniform {
  import opened IdLists
  import opened Machine

  function U32(x: int): nat {
    x % TWO32
  }

  /** The least draw that arc4random_uniform accepts, as its 32-bit formulas compute it. */
  function Threshold(bound: nat): nat
    requires 2 <= bound < TWO32
  {
    if bound > 0x8000_0000 then U32(1 + (TWO32 - 1 - bound))
    else U32(U32(0xffff_ffff - U32(bound * 2)) + 1) % bound
  }

  lemma Quotient(x: nat, b: nat, q: nat, r: nat)
    requires r < b && x == q * b + r
    ensures x % b == r
  {
    var d := q - x / b;
    assert x == x / b * b + x % b;
    assert d * b == x % b - r;
    if d >= 1 {
      MulMono(1, d, b);
    } else if d <= -1 {
      MulMono(d, -1, b);
    }
  }

  lemma PlusBound(x: nat, b: nat)
    requires b > 0
    ensures (x + b) % b == x % b
  {
    Quotient(x + b, b, x / b + 1, x % b);
  }

  /** The formulas avoid 64-bit arithmetic and still give the remainder of 2 to the 32. */
  lemma ThresholdExact(bound: nat)
    requires 2 <= bound < TWO32
    ensures Threshold(bound) == TWO32 % bound
  {
    if bound > 0x8000_0000 {
      Quotient(TWO32, bound, 1, TWO32 - bound);
    } else {
      WithoutTwice(bound);
      PlusBound(TWO32 - bound, bound);
      PlusBound(TWO32 - 2 * bound, bound);
    }
  }

  lemma WithoutTwice(bound: nat)
    requires 2 <= bound <= 0x8000_0000
    ensures Threshold(bound) == (TWO32 - 2 * bound) % bound
  {
    if bound < 0x8000_0000 {
      Small(bound * 2);
      Small(0xffff_ffff - bound * 2);
      Small(0xffff_ffff - bound * 2 + 1);
    }
  }

  lemma Small(x: nat)
    requires x < TWO32
    ensures U32(x) == x
  {
  }

  /** arc4random_uniform, given what arc4random returns in turn: the first draw that is not
      below the threshold decides. */
  method Uniform(bound: nat, draws: seq<nat>) returns (r: Option<nat>)
    requires bound < TWO32 && forall i :: 0 <= i < |draws| ==> draws[i] < TWO32
    ensures bound < 2 ==> r == Some(0)
    ensures bound >= 2 && r.None? ==> forall i :: 0 <= i < |draws| ==> draws[i] < TWO32 % bound
    ensures bound >= 2 && r.Some? ==>
      && r.value < bound
      && exists i :: 0 <= i < |draws| && Accepted(draws, i, bound) && r.value == draws[i] % bound
  {
    if bound < 2 {
      return Some(0);
    }
    ThresholdExact(bound);
    var min := Threshold(bound);
    var i := 0;
    while i < |draws|
      invariant 0 <= i <= |draws| && forall j :: 0 <= j < i ==> draws[j] < min
    {
      if draws[i] >= min {
        assert Accepted(draws, i, bound);
        return Some(draws[i] % bound);
      }
      i := i + 1;
    }
    return None;
  }

  /** Draw i is the first that is not below the threshold. */
  ghost predicate Accepted(draws: seq<nat>, i: nat, bound: nat) {
    && bound > 0 && i < |draws| && draws[i] >= TWO32 % bound
    && forall j :: 0 <= j < i ==> draws[j] < TWO32 % bound
  }

  // ----- every result is equally likely -----

  /** The draws from lo on, n of them, that are hits. */
  ghost function Draws(lo: nat, n: nat, hit: nat -> bool): set<nat> {
    if n == 0 then {}
    else if hit(lo + n - 1) then Draws(lo, n - 1, hit) + {lo + n - 1}
    else Draws(lo, n - 1, hit)
  }

  lemma {:induction false} DrawsMeaning(lo: nat, n: nat, hit: nat -> bool)
    ensures forall r :: r in Draws(lo, n, hit) <==> lo <= r < lo + n && hit(r)
  {
    if n > 0 {
      DrawsMeaning(lo, n - 1, hit);
    }
  }

  /** How many they are. */
  ghost function Count(lo: nat, n: nat, hit: nat -> bool): nat {
    if n == 0 then 0 else Count(lo, n - 1, hit) + if hit(lo + n - 1) then 1 else 0
  }

  lemma {:induction false} CountIsSize(lo: nat, n: nat, hit: nat -> bool)
    ensures |Draws(lo, n, hit)| == Count(lo, n, hit)
  {
    if n > 0 {
      CountIsSize(lo, n - 1, hit);
      var x, before := lo + n - 1, Draws(lo, n - 1, hit);
      NotDrawn(lo, n - 1, hit);
      if hit(x) {
        AddOne(before, x);
      }
    }
  }

  lemma NotDrawn(lo: nat, n: nat, hit: nat -> bool)
    ensures lo + n !in Draws(lo, n, hit)
  {
    DrawsMeaning(lo, n, hit);
  }

  lemma AddOne(s: set<nat>, x: nat)
    requires x !in s
    ensures |s + {x}| == |s| + 1
  {
  }

  lemma {:induction false} CountSplit(lo: nat, n: nat, m: nat, hit: nat -> bool)
    ensures Count(lo, n + m, hit) == Count(lo, n, hit) + Count(lo + n, m, hit)
  {
    if m > 0 {
      CountSplit(lo, n, m - 1, hit);
    }
  }

  /** One hit below b, and then every b draws again. */
  ghost predicate EveryNth(hit: nat -> bool, b: nat, v: nat) {
    v < b && (forall r: nat :: r < b ==> (hit(r) <==> r == v)) && forall r: nat :: hit(r + b) <==> hit(r)
  }

  lemma {:induction false} FirstWindow(n: nat, hit: nat -> bool, b: nat, v: nat)
    requires EveryNth(hit, b, v) && n <= b
    ensures Count(0, n, hit) == if v < n then 1 else 0
  {
    if n > 0 {
      FirstWindow(n - 1, hit, b, v);
    }
  }

  lemma OneDraw(lo: nat, hit: nat -> bool)
    ensures Count(lo, 1, hit) == if hit(lo) then 1 else 0
  {
    assert Count(lo, 0, hit) == 0;
  }

  lemma {:induction false} Window(lo: nat, hit: nat -> bool, b: nat, v: nat)
    requires EveryNth(hit, b, v)
    ensures Count(lo, b, hit) == 1
  {
    if lo == 0 {
      FirstWindow(b, hit, b, v);
    } else {
      var l := lo - 1;
      Window(l, hit, b, v);
      Slide(l, b, hit);
    }
  }

  lemma Slide(l: nat, b: nat, hit: nat -> bool)
    requires hit(l + b) <==> hit(l)
    ensures Count(l + 1, b, hit) == Count(l, b, hit)
  {
    CountSplit(l, 1, b, hit);
    CountSplit(l, b, 1, hit);
    OneDraw(l, hit);
    OneDraw(l + b, hit);
    assert 1 + b == b + 1;
  }

  lemma {:induction false} Windows(lo: nat, k: nat, hit: nat -> bool, b: nat, v: nat)
    requires EveryNth(hit, b, v)
    ensures Count(lo, k * b, hit) == k
  {
    if k > 0 {
      var n := (k - 1) * b;
      Windows(lo, k - 1, hit, b, v);
      assert k * b == n + b;
      CountSplit(lo, n, b, hit);
      Window(lo + n, hit, b, v);
    }
  }

  lemma ResidueEveryNth(b: nat, v: nat)
    requires v < b
    ensures EveryNth((r: nat) => b > 0 && r % b == v, b, v)
  {
    var hit := (r: nat) => b > 0 && r % b == v;
    forall r: nat | r < b
      ensures hit(r) <==> r == v
    {
      Quotient(r, b, 0, r);
    }
    forall r: nat
      ensures hit(r + b) <==> hit(r)
    {
      PlusBound(r, b);
    }
  }

  lemma WholeWindows(total: nat, b: nat)
    requires b > 0
    ensures total - total % b == total / b * b
  {
  }

  /** Each of the results below the bound comes from exactly floor(2^32 / bound) of the draws
      that are accepted. */
  lemma EquallyLikely(bound: nat, v: nat)
    requires 2 <= bound < TWO32 && v < bound
    ensures |Draws(Threshold(bound), TWO32 - Threshold(bound), (r: nat) => bound > 0 && r % bound == v)| == TWO32 / bound
  {
    ThresholdExact(bound);
    ResidueEveryNth(bound, v);
    WholeWindows(TWO32, bound);
    Windows(Threshold(bound), TWO32 / bound, (r: nat) => bound > 0 && r % bound == v, bound, v);
    CountIsSize(Threshold(bound), TWO32 - Threshold(bound), (r: nat) => bound > 0 && r % bound == v);
  }
}
