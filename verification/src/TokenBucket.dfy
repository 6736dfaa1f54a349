/** Token buckets in machine arithmetic: signed 64-bit limits, unsigned 64-bit rates and
    maxima, unsigned 32-bit tick numbers that wrap around. */
module TokenBucket {
  import opened Machine

  /** EV_RATE_LIMIT_MAX */
  const RATE_LIMIT_MAX: int := 0x7fff_ffff_ffff_ffff

  /** Conversion to size_t and to ev_ssize_t. */
  function U64(x: int): int { x % TWO64 }

  function S64(x: int): int {
    if U64(x) < TWO63 then U64(x) else U64(x) - TWO64
  }

  /** One direction of ev_token_bucket_cfg. */
  datatype Rate = Rate(rate: int, maximum: int)

  /** ev_token_bucket_cfg; the two directions and the length of a tick. */
  datatype Cfg = Cfg(read: Rate, write: Rate, msecPerTick: nat)

  datatype Bucket = Bucket(read: int, write: int, lastUpdated: int)

  predicate RateOk(r: Rate) {
    1 <= r.rate <= r.maximum <= RATE_LIMIT_MAX
  }

  /** What ev_token_bucket_cfg_new lets through. */
  predicate CfgOk(c: Cfg) {
    RateOk(c.read) && RateOk(c.write)
  }

  function Min(a: int, b: int): int {
    if a < b then a else b
  }

  /** The number of ticks between two tick numbers, as the unsigned subtraction gives it. */
  function Elapsed(from: int, to: int): int {
    (to - from) % TWO32
  }

  /** One direction of ev_token_bucket_update_, operation by operation. */
  function Refilled(limit: int, r: Rate, n: int): int
    requires n > 0
  {
    if U64(r.maximum - limit) / n < r.rate then S64(r.maximum)
    else S64(limit + U64(n * r.rate))
  }

  /** ev_token_bucket_update_ */
  function Updated(b: Bucket, c: Cfg, tick: int): Bucket {
    var n := Elapsed(b.lastUpdated, tick);
    if n == 0 || n > INT_MAX then b
    else Bucket(Refilled(b.read, c.read, n), Refilled(b.write, c.write, n), tick)
  }

  /** ev_token_bucket_cfg_new accepts exactly the configurations with a positive rate, a burst
      at least the rate, and nothing beyond the largest limit. */
  method CfgNew(readRate: int, readBurst: int, writeRate: int, writeBurst: int, msecPerTick: nat) returns (ok: bool, c: Cfg)
    requires 0 <= readRate < TWO64 && 0 <= readBurst < TWO64 && 0 <= writeRate < TWO64 && 0 <= writeBurst < TWO64
    ensures c == Cfg(Rate(readRate, readBurst), Rate(writeRate, writeBurst), msecPerTick)
    ensures ok <==> CfgOk(c)
  {
    c := Cfg(Rate(readRate, readBurst), Rate(writeRate, writeBurst), msecPerTick);
    if readRate > readBurst || writeRate > writeBurst || readRate < 1 || writeRate < 1 {
      return false, c;
    }
    if readRate > RATE_LIMIT_MAX || writeRate > RATE_LIMIT_MAX || readBurst > RATE_LIMIT_MAX || writeBurst > RATE_LIMIT_MAX {
      return false, c;
    }
    return true, c;
  }

  // ----- the division-based update is the naive one -----

  lemma MachineRange(x: int)
    requires -TWO63 <= x < TWO63
    ensures S64(x) == x
  {
    if x < 0 {
      assert x % TWO64 == x + TWO64;
    }
  }

  /** The quotient test decides whether the tokens to add overshoot the gap. */
  lemma GapTest(gap: int, n: int, rate: int)
    requires gap >= 0 && n > 0 && rate >= 1
    ensures gap / n < rate <==> gap < n * rate
  {
    var q := gap / n;
    assert gap == q * n + gap % n;
    if q < rate {
      MulMono(q + 1, rate, n);
    } else {
      MulMono(rate, q, n);
    }
  }

  /** Up to its maximum a bucket is refilled by n times the rate and capped, and no operation
      leaves its machine range: the gap fits size_t, the product is formed only when it fits. */
  lemma RefillExact(limit: int, r: Rate, n: int)
    requires RateOk(r) && -TWO63 <= limit <= r.maximum && 0 < n
    ensures Refilled(limit, r, n) == Min(r.maximum, limit + n * r.rate)
    ensures 0 <= r.maximum - limit < TWO64
    ensures !(U64(r.maximum - limit) / n < r.rate) ==> n * r.rate < TWO64 && limit + n * r.rate <= r.maximum
  {
    var gap := r.maximum - limit;
    GapTest(gap, n, r.rate);
    assert U64(gap) == gap;
    MachineRange(r.maximum);
    MulMono(0, n, r.rate);
    if gap >= n * r.rate {
      assert U64(n * r.rate) == n * r.rate;
      MachineRange(limit + n * r.rate);
    }
  }

  /** Exactly when the update computes the capped sum: always up to the maximum; above it, only
      if the tokens to add make up for the wrapped-around gap. */
  lemma RefillExactIff(limit: int, r: Rate, n: int)
    requires RateOk(r) && -TWO63 <= limit < TWO63 && 0 < n
    ensures Refilled(limit, r, n) == Min(r.maximum, limit + n * r.rate) <==>
            limit <= r.maximum || TWO64 + r.maximum - limit <= n * r.rate
  {
    if limit <= r.maximum {
      RefillExact(limit, r, n);
    } else {
      AboveMaximum(limit, r, n);
    }
  }

  lemma AboveMaximum(limit: int, r: Rate, n: int)
    requires RateOk(r) && r.maximum < limit < TWO63 && 0 < n
    ensures Min(r.maximum, limit + n * r.rate) == r.maximum
    ensures Refilled(limit, r, n) == r.maximum <==> TWO64 + r.maximum - limit <= n * r.rate
  {
    var gap := TWO64 + r.maximum - limit;
    assert U64(r.maximum - limit) == gap by {
      assert r.maximum - limit == -1 * TWO64 + gap;
    }
    MachineRange(r.maximum);
    GapTest(gap, n, r.rate);
    MulMono(0, n, r.rate);
    if gap >= n * r.rate {
      var x := limit + n * r.rate;
      assert U64(n * r.rate) == n * r.rate;
      WrappedOnce(x, r.maximum, gap - n * r.rate);
    }
  }

  lemma WrappedOnce(x: int, m: int, rest: int)
    requires 0 <= m < TWO63 && m < x && x + rest == TWO64 + m && rest >= 0
    ensures S64(x) == m <==> rest == 0
  {
  }

  /** A bucket that was refilled by hand beyond its maximum keeps growing, into debt at last. */
  lemma OverfullGrows()
    ensures RateOk(Rate(1, 10)) && Refilled(11, Rate(1, 10), 1) == 12
    ensures Refilled(TWO63 - 1, Rate(1, 10), 1) == -TWO63
  {
  }

  // ----- ticks -----

  /** Tick numbers wrap around, elapsed ticks do not: they add up as long as the whole interval
      fits. */
  lemma ElapsedAdds(a: int, b: int, c: int)
    requires Elapsed(a, b) + Elapsed(b, c) < TWO32
    ensures Elapsed(a, c) == Elapsed(a, b) + Elapsed(b, c)
  {
    var i, j := (b - a) / TWO32, (c - b) / TWO32;
    assert c - a == (i + j) * TWO32 + (Elapsed(a, b) + Elapsed(b, c));
  }

  /** ev_token_bucket_get_tick_ */
  function Tick(msec: int, c: Cfg): int
    requires c.msecPerTick > 0
  {
    (msec / c.msecPerTick) % TWO32
  }

  /** The ticks between two moments are counted right although tick numbers wrap around. */
  lemma TickDistance(m1: int, m2: int, c: Cfg)
    requires c.msecPerTick > 0 && 0 <= m2 / c.msecPerTick - m1 / c.msecPerTick < TWO32
    ensures Elapsed(Tick(m1, c), Tick(m2, c)) == m2 / c.msecPerTick - m1 / c.msecPerTick
  {
    var a, b := m1 / c.msecPerTick, m2 / c.msecPerTick;
    var d := b - a;
    assert b % TWO32 - a % TWO32 == d + (a / TWO32 - b / TWO32) * TWO32;
    WrapAround(d, a / TWO32 - b / TWO32);
  }

  lemma WrapAround(d: int, k: int)
    requires 0 <= d < TWO32
    ensures (d + k * TWO32) % TWO32 == d
  {
  }

  /** A bucket whose limits are within reach of its configuration. */
  ghost predicate Within(b: Bucket, c: Cfg) {
    -TWO63 <= b.read <= c.read.maximum && -TWO63 <= b.write <= c.write.maximum
  }

  lemma UpdateExact(b: Bucket, c: Cfg, tick: int)
    requires CfgOk(c) && Within(b, c) && 0 < Elapsed(b.lastUpdated, tick) <= INT_MAX
    ensures
      && var n := Elapsed(b.lastUpdated, tick);
      && Updated(b, c, tick) ==
         Bucket(Min(c.read.maximum, b.read + n * c.read.rate), Min(c.write.maximum, b.write + n * c.write.rate), tick)
  {
    var n := Elapsed(b.lastUpdated, tick);
    RefillExact(b.read, c.read, n);
    RefillExact(b.write, c.write, n);
  }

  /** Updating on the way changes nothing: an interval can be split at any tick. */
  lemma UpdateSplits(b: Bucket, c: Cfg, t1: int, t2: int)
    requires CfgOk(c) && Within(b, c)
    requires 0 < Elapsed(b.lastUpdated, t1) && 0 < Elapsed(t1, t2) && Elapsed(b.lastUpdated, t1) + Elapsed(t1, t2) <= INT_MAX
    ensures Updated(Updated(b, c, t1), c, t2) == Updated(b, c, t2)
  {
    ElapsedAdds(b.lastUpdated, t1, t2);
    UpdateExact(b, c, t1);
    UpdateExact(Updated(b, c, t1), c, t2);
    UpdateExact(b, c, t2);
    SumSplits(b.read, c.read, Elapsed(b.lastUpdated, t1), Elapsed(t1, t2));
    SumSplits(b.write, c.write, Elapsed(b.lastUpdated, t1), Elapsed(t1, t2));
  }

  lemma SumSplits(limit: int, r: Rate, n: int, k: int)
    requires RateOk(r) && n > 0 && k > 0
    ensures Min(r.maximum, Min(r.maximum, limit + n * r.rate) + k * r.rate) == Min(r.maximum, limit + (n + k) * r.rate)
  {
    assert (n + k) * r.rate == n * r.rate + k * r.rate;
    MulMono(1, k, r.rate);
  }

  /** Refilling keeps a bucket within its configuration and never takes tokens away. */
  lemma UpdateWithin(b: Bucket, c: Cfg, tick: int)
    requires CfgOk(c) && Within(b, c)
    ensures Within(Updated(b, c, tick), c) && b.read <= Updated(b, c, tick).read && b.write <= Updated(b, c, tick).write
  {
    var n := Elapsed(b.lastUpdated, tick);
    if 0 < n <= INT_MAX {
      UpdateExact(b, c, tick);
      MulMono(0, c.read.rate, n);
      MulMono(0, c.write.rate, n);
    }
  }

  // ----- buckets that were refilled by hand -----

  ghost predicate InRange(b: Bucket) {
    -TWO63 <= b.read < TWO63 && -TWO63 <= b.write < TWO63
  }

  /** The sum does not come to lie in the negative half of ev_ssize_t. */
  predicate Steady(limit: int, r: Rate, n: int) {
    limit <= r.maximum || limit + n * r.rate < TWO63 || limit + n * r.rate > TWO64
  }

  /** A refill leaves tokens in a bucket that has some exactly when it is steady; beyond its
      maximum a bucket can overflow into debt. */
  lemma RefillPositive(limit: int, r: Rate, n: int)
    requires RateOk(r) && 0 < limit < TWO63 && 0 < n
    ensures Refilled(limit, r, n) > 0 <==> Steady(limit, r, n)
  {
    MulMono(0, n, r.rate);
    if limit <= r.maximum {
      MulMono(1, n, r.rate);
      RefillExact(limit, r, n);
    } else {
      var gap := TWO64 + r.maximum - limit;
      assert U64(r.maximum - limit) == gap by {
        assert r.maximum - limit == -1 * TWO64 + gap;
      }
      MachineRange(r.maximum);
      GapTest(gap, n, r.rate);
      if gap >= n * r.rate {
        assert U64(n * r.rate) == n * r.rate;
        SignOf(limit + n * r.rate);
      }
    }
  }

  lemma SignOf(x: int)
    requires 0 < x < TWO64 + TWO63
    ensures S64(x) > 0 <==> x < TWO63 || x > TWO64
  {
  }

  predicate SteadyBucket(b: Bucket, c: Cfg, tick: int) {
    var n := Elapsed(b.lastUpdated, tick);
    0 < n <= INT_MAX ==> Steady(b.read, c.read, n) && Steady(b.write, c.write, n)
  }

  /** An update leaves no bucket exhausted that was not. */
  lemma UpdatePositive(b: Bucket, c: Cfg, tick: int)
    requires CfgOk(c) && InRange(b) && SteadyBucket(b, c, tick)
    ensures InRange(Updated(b, c, tick))
    ensures b.read > 0 ==> Updated(b, c, tick).read > 0
    ensures b.write > 0 ==> Updated(b, c, tick).write > 0
  {
    var n := Elapsed(b.lastUpdated, tick);
    if 0 < n <= INT_MAX {
      if b.read > 0 { RefillPositive(b.read, c.read, n); }
      if b.write > 0 { RefillPositive(b.write, c.write, n); }
    }
  }

  // ----- initialization -----

  /** ev_token_bucket_init_: a new bucket starts with one tick's worth; a reconfigured one is
      only clipped. */
  function Initialized(b: Bucket, c: Cfg, tick: int, reinitialize: bool): (r: Bucket)
    ensures CfgOk(c) && (reinitialize ==> InRange(b)) ==> Within(r, c) && InRange(r)
    ensures !reinitialize && CfgOk(c) ==> r.read > 0 && r.write > 0
    ensures reinitialize && CfgOk(c) ==> (r.read > 0 <==> b.read > 0) && (r.write > 0 <==> b.write > 0)
  {
    if reinitialize then Bucket(Min(b.read, c.read.maximum), Min(b.write, c.write.maximum), b.lastUpdated)
    else Bucket(c.read.rate, c.write.rate, tick)
  }

  // ----- bandwidth over a window -----

  /** What happens to one direction of a bucket: ticks pass, or a transfer within what
      bufferevent_get_rlim_max_ allows is charged. */
  datatype Move = Ticks(n: int) | Transfer(bytes: int)

  /** The transfers stay within the limit at their time. */
  ghost predicate Obeys(limit: int, r: Rate, moves: seq<Move>)
    decreases |moves|
  {
    moves == [] ||
    match moves[0]
    case Ticks(n) => 0 < n && Obeys(Refilled(limit, r, n), r, moves[1..])
    case Transfer(k) => 0 <= k && (k <= limit || k == 0) && Obeys(limit - k, r, moves[1..])
  }

  function Sent(moves: seq<Move>): int {
    if moves == [] then 0 else (if moves[0].Transfer? then moves[0].bytes else 0) + Sent(moves[1..])
  }

  function Passed(moves: seq<Move>): int {
    if moves == [] then 0 else (if moves[0].Ticks? then moves[0].n else 0) + Passed(moves[1..])
  }

  lemma Distribute(a: int, b: int, c: int)
    ensures (a + b) * c == a * c + b * c
  {
  }

  /** Over any window of T ticks at most the burst plus T times the rate is transferred, and no
      more than was in the bucket plus T times the rate. */
  lemma {:induction false} WindowBound(limit: int, r: Rate, moves: seq<Move>)
    requires RateOk(r) && -TWO63 <= limit <= r.maximum && Obeys(limit, r, moves)
    ensures Sent(moves) <= (if limit > 0 then limit else 0) + Passed(moves) * r.rate
    ensures Sent(moves) <= r.maximum + Passed(moves) * r.rate
    decreases |moves|
  {
    if moves != [] {
      match moves[0]
      case Ticks(n) =>
        RefillExact(limit, r, n);
        MulMono(0, n, r.rate);
        WindowBound(Refilled(limit, r, n), r, moves[1..]);
        Distribute(n, Passed(moves[1..]), r.rate);
      case Transfer(k) =>
        WindowBound(limit - k, r, moves[1..]);
    }
  }
}
