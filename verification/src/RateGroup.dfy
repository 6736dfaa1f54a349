/** A rate-limiting group, in one direction: the code has reading and writing written out twice,
    with the same structure. Members are suspended and resumed under try-locks that may fail in
    any pattern, and transfers are charged in a separate step from the one that grants them. */
module RateGroup {
  import opened IdLists
  import opened Machine
  import opened TokenBucket

  /** The bytes that members may still transfer on grants they hold. */
  function Outstanding(s: seq<Id>, grants: map<Id, int>): int {
    if s == [] then 0 else (if s[0] in grants then grants[s[0]] else 0) + Outstanding(s[1..], grants)
  }

  /** Every grant is at most cap. */
  ghost predicate Capped(grants: map<Id, int>, cap: int) {
    forall x :: x in grants ==> 0 <= grants[x] <= cap
  }

  lemma {:induction false} OutstandingBound(s: seq<Id>, grants: map<Id, int>, cap: int)
    requires Capped(grants, cap) && cap >= 0
    ensures 0 <= Outstanding(s, grants) <= |s| * cap
  {
    if s != [] {
      OutstandingBound(s[1..], grants, cap);
      assert |s| * cap == cap + |s[1..]| * cap;
    }
  }

  /** Settling a grant takes it off the sum once. */
  lemma {:induction false} OutstandingWithout(s: seq<Id>, grants: map<Id, int>, x: Id)
    requires Distinct(s) && x in grants
    ensures Outstanding(s, grants - {x}) == Outstanding(s, grants) - (if x in s then grants[x] else 0)
  {
    if s != [] {
      assert Distinct(s[1..]);
      OutstandingWithout(s[1..], grants, x);
      assert x in s <==> x == s[0] || x in s[1..];
      assert s[0] == x ==> x !in s[1..];
    }
  }

  /** A member's part of the limit, at least the minimum share and at most its own limit. */
  function Granted(own: int, limit: int, n: nat, minShare: int): int
    requires n > 0
  {
    var share := if limit / n < minShare then minShare else limit / n;
    if own < 0 then 0 else Min(own, share)
  }

  /** What a share means, without dividing: never more than asked for; above the minimum share
      only if all n members could have as much; and less than asked for only if it is no less
      than the minimum share and one more byte for all of them would exceed the limit. */
  ghost predicate Fair(own: int, limit: int, n: nat, minShare: int, max: int) {
    && 0 <= max && (own >= 0 ==> max <= own) && (own < 0 ==> max == 0)
    && (max <= minShare || max * n <= limit)
    && (max < own ==> max >= minShare && (max + 1) * n > limit)
  }

  lemma GrantedIsFair(own: int, limit: int, n: nat, minShare: int)
    requires n > 0 && limit > 0 && minShare >= 0
    ensures Fair(own, limit, n, minShare, Granted(own, limit, n, minShare))
  {
    var q := limit / n;
    assert q * n <= limit < (q + 1) * n && q >= 0;
    var max := Granted(own, limit, n, minShare);
    if q < minShare {
      assert (q + 1) * n <= (minShare + 1) * n;
    } else if own < q {
      assert max * n <= q * n;
    }
  }

  /** Offers made to all members at the same limit exceed it only if the minimum shares do. */
  lemma OffersTogether(members: seq<Id>, grants: map<Id, int>, own: map<Id, int>, limit: int, minShare: int)
    requires limit > 0 && minShare >= 0
    requires forall x :: x in grants ==> x in own && Fair(own[x], limit, |members|, minShare, grants[x])
    ensures Outstanding(members, grants) <= limit || Outstanding(members, grants) <= |members| * minShare
  {
    var n := |members|;
    if n > 0 {
      var share := if limit / n < minShare then minShare else limit / n;
      assert n * (limit / n) <= limit;
      forall x | x in grants
        ensures 0 <= grants[x] <= share
      {
        AtMostShare(grants[x], limit, n, minShare);
      }
      OutstandingBound(members, grants, share);
    }
  }

  lemma AtMostShare(max: int, limit: int, n: nat, minShare: int)
    requires n > 0 && (max <= minShare || max * n <= limit)
    ensures max <= minShare || max <= limit / n
  {
    var q := limit / n;
    assert limit < (q + 1) * n;
    if max > q {
      assert max * n >= (q + 1) * n;
    }
  }

  /** The limit after n ticks; a distance that is not positive changes nothing. */
  function AfterTicks(l: int, r: Rate, n: int): int {
    if 0 < n <= INT_MAX then Refilled(l, r, n) else l
  }

  class Group {
    /** The list of members, newest first. */
    var members: seq<Id>
    var suspended: bool
    var pendingUnsuspend: bool
    var limit: int
    var rate: Rate
    var minShare: int
    /** The members that carry BEV_SUSPEND_BW_GROUP in this direction. */
    var marked: set<Id>
    /** Members that joined while the group was suspended, hold their own lock and have yet to
        mark themselves. */
    var joining: set<Id>
    /** What members were told they may transfer and have not been charged for yet. */
    var grants: map<Id, int>
    /** The share asked for, of which minShare is what the rates allow. */
    var configuredMinShare: int
    /** The largest burst and the largest number of members so far. */
    ghost var cap: int
    ghost var peak: nat

    /** Suspension flags, marks and limit fit together. */
    ghost predicate FlagsOk()
      reads this
    {
      && (!suspended ==> limit > 0)
      && (pendingUnsuspend ==> !suspended)
      && (!suspended && !pendingUnsuspend ==> marked * InList(members) == {} && joining == {})
      && joining <= InList(members)
    }

    ghost predicate ShapeOk()
      reads this
    {
      && Distinct(members) && RateOk(rate) && -TWO63 <= limit < TWO63
      && 0 <= minShare <= rate.rate && 0 <= configuredMinShare <= RATE_LIMIT_MAX
    }

    /** The group is never deeper in debt than one burst for each of the members it had at its
        fullest, even once every grant is used up. */
    ghost predicate DebtOk()
      reads this
    {
      && Capped(grants, cap) && limit <= rate.maximum <= cap && |members| <= peak
      && limit - Outstanding(members, grants) > -(peak * cap)
    }

    ghost predicate Valid()
      reads this
    {
      FlagsOk() && ShapeOk()
    }

    /** The limit stays above minus one share even once every grant is used up. */
    ghost predicate Covered()
      reads this
    {
      limit - Outstanding(members, grants) > -minShare
    }

    /** What the group tells a member that may transfer `own` bytes by its own limit. */
    function Offer(own: int): int
      requires members != []
      reads this
    {
      if suspended then 0 else Granted(own, limit, |members|, minShare)
    }

    /** One more grant leaves the group covered. */
    predicate OfferFits(own: int)
      requires members != []
      reads this
    {
      limit - Outstanding(members, grants) - Offer(own) > -minShare
    }

    /** bufferevent_rate_limit_group_new, with the default share */
    constructor (r: Rate)
      requires RateOk(r)
      ensures Valid() && members == [] && limit == r.rate && rate == r && minShare == Min(64, r.rate)
      ensures !suspended && !pendingUnsuspend && joining == {} && grants == map[] && marked == {} && DebtOk()
    {
      members, suspended, pendingUnsuspend, limit, rate := [], false, false, r.rate, r;
      minShare := if 64 > r.rate then r.rate else 64;
      configuredMinShare := 64;
      marked, joining, grants, cap, peak := {}, {}, map[], r.maximum, 0;
    }

    // ----- suspending and resuming every member -----

    /** bev_group_suspend_reading_: every member that can be locked is marked. */
    method Suspend(lockable: set<Id>)
      requires joining <= InList(members)
      modifies this`suspended, this`pendingUnsuspend, this`marked
      ensures FlagsOk() && suspended && !pendingUnsuspend
      ensures marked == old(marked) + InList(members) * lockable
    {
      suspended, pendingUnsuspend := true, false;
      var m := marked;
      for i := 0 to |members|
        invariant m == marked + InList(members[..i]) * lockable
      {
        assert members[..i + 1] == members[..i] + [members[i]];
        if members[i] in lockable {
          m := m + {members[i]};
        }
      }
      assert members[..|members|] == members;
      marked := m;
    }

    /** bev_group_unsuspend_reading_ and FOREACH_RANDOM_ORDER: every member is visited once,
        from a random one to the end and from the start to it; those that cannot be locked are
        left for the next refill. */
    method Unsuspend(first: nat, lockable: set<Id>)
      requires joining <= InList(members) && lockable !! joining
      requires members != [] ==> first < |members|
      modifies this`suspended, this`pendingUnsuspend, this`marked
      ensures !suspended && (limit > 0 ==> FlagsOk())
      ensures marked == old(marked) - InList(members) * lockable
      ensures pendingUnsuspend <==> !(InList(members) <= lockable)
    {
      suspended := false;
      var from := if members == [] then 0 else first;
      var m, again := Sweep(from, |members|, marked, lockable);
      var m', again' := Sweep(0, from, m, lockable);
      assert members == members[0..from] + members[from..|members|];
      marked := m';
      pendingUnsuspend := again || again';
      if InList(members) <= lockable {
        assert joining <= lockable;
      }
    }

    /** One of the two loops. */
    method Sweep(from: nat, to: nat, marks: set<Id>, lockable: set<Id>) returns (m: set<Id>, again: bool)
      requires from <= to <= |members|
      ensures m == marks - InList(members[from..to]) * lockable
      ensures again <==> !(InList(members[from..to]) <= lockable)
    {
      m, again := marks, false;
      for i := from to to
        invariant m == marks - InList(members[from..i]) * lockable
        invariant again <==> !(InList(members[from..i]) <= lockable)
      {
        assert members[from..i + 1] == members[from..i] + [members[i]];
        if members[i] in lockable {
          m := m - {members[i]};
        } else {
          again := true;
        }
      }
    }

    // ----- transfers -----

    /** The part of bufferevent_get_rlim_max_ that asks the group; `own` is what the member's
        own limit allows. A suspended group grants nothing and marks the member. */
    method GetMax(x: Id, own: int) returns (max: int)
      requires Valid() && x in members && x !in grants
      modifies this`marked, this`grants
      ensures Valid() && grants == old(grants)[x := max] && (old(DebtOk()) ==> DebtOk())
      ensures marked == if suspended then old(marked) + {x} else old(marked)
      ensures max == Offer(own) >= 0
      ensures suspended ==> max == 0
      ensures !suspended ==> Fair(own, limit, |members|, minShare, max)
      ensures Covered() <==> old(OfferFits(own))
    {
      var share := 0;
      if suspended {
        marked := marked + {x};
      } else {
        share := Share();
        GrantedIsFair(own, limit, |members|, minShare);
      }
      max := if own > share then share else own;
      if max < 0 {
        max := 0;
      }
      ghost var before := grants;
      grants := grants[x := max];
      assert grants - {x} == before;
      OutstandingWithout(members, grants, x);
      if old(DebtOk()) {
        GrantKeepsDebt(before, x, max);
      }
    }

    /** A member's part of the limit, at least the minimum. */
    method Share() returns (share: int)
      requires Valid() && !suspended && members != []
      ensures share == if limit / |members| < minShare then minShare else limit / |members|
      ensures 0 <= share && (share <= limit || share <= rate.rate)
    {
      share := limit / |members|;
      ShareOfLimit(limit, |members|);
      if share < minShare {
        share := minShare;
      }
    }

    lemma GrantKeepsDebt(before: map<Id, int>, x: Id, max: int)
      requires Distinct(members) && x in members && x !in before && grants == before[x := max] && 0 <= max
      requires RateOk(rate) && limit <= rate.maximum <= cap && |members| <= peak && Capped(before, cap)
      requires limit - Outstanding(members, before) > -(peak * cap)
      requires max == 0 || (limit > 0 && (max <= limit || max <= rate.rate))
      ensures DebtOk()
    {
      assert grants - {x} == before;
      OutstandingWithout(members, grants, x);
      OutstandingBound(members, grants, cap);
      MulMono(|members|, peak, cap);
    }

    /** The group's part of bufferevent_decrement_read_buckets_: the grant is settled for what
        was transferred. */
    method Charge(x: Id, bytes: int, first: nat, lockable: set<Id>)
      requires Valid() && x in grants && x in members && 0 <= bytes <= grants[x] && -TWO63 <= limit - bytes
      requires lockable !! joining && (members != [] ==> first < |members|)
      modifies this`limit, this`grants, this`suspended, this`pendingUnsuspend, this`marked
      ensures Valid() && limit == old(limit) - bytes && grants == old(grants) - {x} && (old(DebtOk()) ==> DebtOk())
      ensures suspended <==> limit <= 0
      ensures old(Covered()) ==> Covered()
    {
      ghost var before := grants;
      limit := limit - bytes;
      grants := grants - {x};
      OutstandingWithout(members, before, x);
      if limit <= 0 {
        Suspend(lockable);
      } else if suspended {
        Unsuspend(first, lockable);
      }
    }

    /** A transfer that no other member's transfer comes between. */
    method Transfer(x: Id, own: int, used: int, first: nat, lockable: set<Id>) returns (bytes: int)
      requires Valid() && x in members && x !in grants && used >= 0 && -TWO63 <= limit - Offer(own)
      requires lockable !! joining && (members != [] ==> first < |members|)
      modifies this`limit, this`grants, this`suspended, this`pendingUnsuspend, this`marked
      ensures Valid() && grants == old(grants) && limit == old(limit) - bytes && (old(DebtOk()) ==> DebtOk())
      ensures 0 <= bytes == Min(used, old(Offer(own)))
      ensures old(OfferFits(own)) ==> Covered()
    {
      var max := GetMax(x, own);
      bytes := if used <= max then used else max;
      Charge(x, bytes, first, lockable);
      assert grants == old(grants);
    }

    /** When no grant is out, one more always fits: that is what a share is for. */
    lemma AloneFits(own: int)
      requires Valid() && members != [] && minShare >= 1 && grants == map[] && limit > -minShare
      ensures OfferFits(own)
    {
      NoneOutstanding(members);
      if !suspended {
        ShareOfLimit(limit, |members|);
      }
    }

    lemma ShareOfLimit(l: int, n: int)
      requires l > 0 && n > 0
      ensures l / n <= l
    {
      assert l == (l / n) * n + l % n;
      MulMono(1, n, l / n);
    }

    // ----- refilling -----

    /** bev_group_refill_callback_, n ticks after the last refill: a group that has a share to
        give is resumed, and so are members that could not be locked before. */
    method Refill(n: int, first: nat, lockable: set<Id>)
      requires Valid() && lockable !! joining && (members != [] ==> first < |members|)
      modifies this`limit, this`suspended, this`pendingUnsuspend, this`marked
      ensures ShapeOk() && limit == AfterTicks(old(limit), rate, n)
      ensures old(limit) <= rate.maximum ==> limit == if 0 < n <= INT_MAX then Min(old(limit) + n * rate.rate, rate.maximum) else old(limit)
      ensures suspended <==> old(suspended) && !old(pendingUnsuspend) && limit < minShare
      ensures FlagsOk() <==> if old(suspended) then !(minShare <= limit <= 0) else limit > 0
      ensures !old(suspended) && (0 < n <= INT_MAX ==> Steady(old(limit), rate, n)) ==> limit > 0
      ensures old(limit) <= rate.maximum ==> old(limit) <= limit <= rate.maximum
      ensures old(limit) <= rate.maximum ==> (Valid() <==> !(old(suspended) && minShare <= limit <= 0))
      ensures old(DebtOk()) ==> DebtOk()
      ensures suspended ==> limit < minShare
      ensures old(pendingUnsuspend) || (old(suspended) && limit >= minShare) ==>
        && marked == old(marked) - InList(members) * lockable
        && (pendingUnsuspend <==> !(InList(members) <= lockable))
      ensures !old(pendingUnsuspend) && !(old(suspended) && limit >= minShare) ==> marked == old(marked) && !pendingUnsuspend
    {
      if 0 < n <= INT_MAX {
        RefillFacts(limit, rate, n);
        limit := Refilled(limit, rate, n);
      }
      if pendingUnsuspend || (suspended && limit >= minShare) {
        Unsuspend(first, lockable);
      }
    }

    lemma RefillFacts(l: int, r: Rate, n: int)
      requires RateOk(r) && -TWO63 <= l < TWO63 && 0 < n
      ensures -TWO63 <= Refilled(l, r, n) < TWO63
      ensures l > 0 && Steady(l, r, n) ==> Refilled(l, r, n) > 0
      ensures l <= r.maximum ==> l <= Refilled(l, r, n) == Min(l + n * r.rate, r.maximum) && Steady(l, r, n)
    {
      if l > 0 {
        RefillPositive(l, r, n);
      }
      if l <= r.maximum {
        RefillExact(l, r, n);
        MulMono(0, n, r.rate);
      }
    }

    /** bufferevent_rate_limit_group_decrement_read */
    method Decrement(decr: int, first: nat, lockable: set<Id>)
      requires Valid() && -TWO63 <= limit - decr < TWO63
      requires lockable !! joining && (members != [] ==> first < |members|)
      modifies this`limit, this`suspended, this`pendingUnsuspend, this`marked
      ensures Valid() && limit == old(limit) - decr
      ensures (old(limit) <= 0 || limit <= 0) ==> (suspended <==> limit <= 0)
    {
      var before := limit;
      limit := limit - decr;
      if before > 0 && limit <= 0 {
        Suspend(lockable);
      } else if before <= 0 && limit > 0 {
        Unsuspend(first, lockable);
      }
    }

    // ----- configuration -----

    /** bufferevent_rate_limit_group_set_min_share */
    method SetMinShare(share: int, otherRate: int) returns (r: int)
      requires FlagsOk() && Distinct(members) && RateOk(rate) && -TWO63 <= limit < TWO63 && 0 <= share && otherRate >= 1
      modifies this`minShare, this`configuredMinShare
      ensures r == if share > RATE_LIMIT_MAX then -1 else 0
      ensures r == -1 ==> minShare == old(minShare) && configuredMinShare == old(configuredMinShare)
      ensures r == 0 ==>
        && Valid() && configuredMinShare == share && minShare == Min(share, Min(rate.rate, otherRate))
        && (minShare >= 1 <==> share >= 1)
    {
      if share > RATE_LIMIT_MAX {
        return -1;
      }
      configuredMinShare := share;
      var s := share;
      if s > rate.rate {
        s := rate.rate;
      }
      if s > otherRate {
        s := otherRate;
      }
      minShare := s;
      return 0;
    }

    /** bufferevent_rate_limit_group_set_cfg */
    method SetCfg(r: Rate, otherRate: int)
      requires Valid() && RateOk(r) && otherRate >= 1
      modifies this`rate, this`limit, this`minShare, this`configuredMinShare, this`cap
      ensures Valid() && rate == r && limit == Min(old(limit), r.maximum)
      ensures minShare == Min(old(configuredMinShare), Min(r.rate, otherRate))
    {
      cap := if r.maximum > cap then r.maximum else cap;
      rate := r;
      if limit > r.maximum {
        limit := r.maximum;
      }
      var _ := SetMinShare(configuredMinShare, otherRate);
    }

    // ----- membership -----

    /** bufferevent_add_to_rate_limit_group while it holds the group's lock. */
    method Join(x: Id)
      requires Valid() && x !in members && x !in marked && x !in grants
      modifies this`members, this`joining, this`peak
      ensures Valid() && members == [x] + old(members) && (old(DebtOk()) ==> DebtOk())
      ensures joining == if suspended then old(joining) + {x} else old(joining)
      ensures Outstanding(members, grants) == old(Outstanding(members, grants))
    {
      ghost var before := members;
      members := [x] + members;
      if suspended {
        joining := joining + {x};
      }
      peak := if |members| > peak then |members| else peak;
      assert members[1..] == before;
      if old(DebtOk()) {
        MulMono(old(peak), peak, cap);
      }
    }

    /** bufferevent_add_to_rate_limit_group after it: the member marks itself if it saw the
        group suspended, although the group may have been resumed in between. */
    method FinishJoin(x: Id)
      requires Valid() && x in joining
      modifies this`joining, this`marked
      ensures Valid() && x in marked && joining == old(joining) - {x}
    {
      joining := joining - {x};
      marked := marked + {x};
    }

    /** bufferevent_remove_from_rate_limit_group_internal_ */
    method Leave(x: Id)
      requires Valid() && x in members && x !in joining && x !in grants
      modifies this`members, this`marked
      ensures Valid() && InList(members) == InList(old(members)) - {x} && x !in marked && (old(DebtOk()) ==> DebtOk())
      ensures Outstanding(members, grants) == old(Outstanding(members, grants))
    {
      var i := 0;
      while members[i] != x
        invariant 0 <= i < |members| && x !in members[..i]
        decreases |members| - i
      {
        i := i + 1;
        assert members[..i] == members[..i - 1] + [members[i - 1]];
      }
      OutstandingCut(members, i, grants);
      members := members[..i] + members[i + 1..];
      marked := marked - {x};
    }
  }

  lemma {:induction false} OutstandingCut(s: seq<Id>, i: nat, grants: map<Id, int>)
    requires i < |s| && s[i] !in grants
    ensures Outstanding(s[..i] + s[i + 1..], grants) == Outstanding(s, grants)
  {
    if i == 0 {
      assert s[..0] + s[1..] == s[1..];
    } else {
      OutstandingCut(s[1..], i - 1, grants);
      assert (s[..i] + s[i + 1..])[1..] == s[1..][..i - 1] + s[1..][i..];
    }
  }

  lemma {:induction false} NoneOutstanding(s: seq<Id>)
    ensures Outstanding(s, map[]) == 0
  {
    if s != [] {
      NoneOutstanding(s[1..]);
    }
  }

  // ----- a share of zero -----

  /** With a share of zero a refill resumes a group that has no tokens. */
  method ZeroShareResumes() returns (g: Group)
    ensures fresh(g) && g.ShapeOk() && !g.FlagsOk() && !g.suspended && g.limit == 0 && g.minShare == 0
  {
    g := new Group(Rate(64, 64));
    g.Join(0);
    var _ := g.SetMinShare(0, 64);
    var max := g.GetMax(0, 64);
    g.Charge(0, max, 0, {});
    assert g.suspended && g.limit == 0;
    g.Refill(0, 0, {});
  }

  /** A refill n ticks later keeps the flags of a suspended group right. */
  predicate ResumeOk(l: int, r: Rate, n: int, minShare: int) {
    !(minShare <= AfterTicks(l, r, n) <= 0)
  }

  /** Every refill of every suspended group does if and only if the share is positive. */
  lemma ShareExact(r: Rate, minShare: int)
    ensures (forall l: int, n: int | -TWO63 <= l < TWO63 :: ResumeOk(l, r, n, minShare)) <==> minShare >= 1
  {
    if minShare < 1 {
      assert !ResumeOk(0, r, 0, minShare);
    }
  }

  // ----- grants that are out together -----

  /** One charge: who, for how much, where the sweep starts and which locks could be had. */
  datatype Settlement = Settlement(x: Id, bytes: int, first: nat, lockable: set<Id>)

  /** Each member is charged at most once and for no more than it was granted. */
  ghost predicate Settles(grants: map<Id, int>, cs: seq<Settlement>) {
    cs != [] ==>
      && cs[0].x in grants && 0 <= cs[0].bytes <= grants[cs[0].x]
      && Settles(grants - {cs[0].x}, cs[1..])
  }

  ghost function Total(cs: seq<Settlement>): int {
    if cs == [] then 0 else cs[0].bytes + Total(cs[1..])
  }

  /** The members that hold grants, and the grants are not negative. */
  ghost predicate Holders(s: seq<Id>, grants: map<Id, int>) {
    Distinct(s) && (forall x :: x in grants ==> x in s && grants[x] >= 0)
  }

  /** No settlement takes more than what is outstanding. */
  lemma {:induction false} TotalBound(s: seq<Id>, grants: map<Id, int>, cs: seq<Settlement>)
    requires Holders(s, grants) && Settles(grants, cs)
    ensures Total(cs) <= Outstanding(s, grants)
    decreases |cs|
  {
    if cs == [] {
      OutstandingNonneg(s, grants);
    } else {
      OutstandingWithout(s, grants, cs[0].x);
      TotalBound(s, grants - {cs[0].x}, cs[1..]);
    }
  }

  lemma {:induction false} OutstandingNonneg(s: seq<Id>, grants: map<Id, int>)
    requires forall x :: x in grants ==> grants[x] >= 0
    ensures Outstanding(s, grants) >= 0
  {
    if s != [] {
      OutstandingNonneg(s[1..], grants);
    }
  }

  /** Everyone uses up the whole grant. */
  ghost function UseUp(s: seq<Id>, grants: map<Id, int>): seq<Settlement> {
    if s == [] then []
    else if s[0] in grants then [Settlement(s[0], grants[s[0]], 0, {})] + UseUp(s[1..], grants - {s[0]})
    else UseUp(s[1..], grants)
  }

  lemma {:induction false} UseUpSettles(s: seq<Id>, grants: map<Id, int>)
    requires Distinct(s) && forall x :: x in grants ==> grants[x] >= 0
    ensures Settles(grants, UseUp(s, grants)) && Total(UseUp(s, grants)) == Outstanding(s, grants)
  {
    if s != [] {
      assert Distinct(s[1..]);
      if s[0] in grants {
        var rest := grants - {s[0]};
        UseUpSettles(s[1..], rest);
        OutstandingWithout(s[1..], grants, s[0]);
        assert s[0] !in s[1..];
        assert UseUp(s, grants)[1..] == UseUp(s[1..], rest);
      } else {
        UseUpSettles(s[1..], grants);
      }
    }
  }

  /** Every way of settling the grants that are out, in any order and each for at most its
      amount, leaves the limit above minus one share if and only if it stays there once all of
      them are used up. */
  lemma SettlementExact(s: seq<Id>, grants: map<Id, int>, limit: int, minShare: int)
    requires Holders(s, grants)
    ensures (forall cs: seq<Settlement> :: Settles(grants, cs) ==> limit - Total(cs) > -minShare)
            <==> limit - Outstanding(s, grants) > -minShare
  {
    if limit - Outstanding(s, grants) > -minShare {
      forall cs: seq<Settlement> | Settles(grants, cs)
        ensures limit - Total(cs) > -minShare
      {
        TotalBound(s, grants, cs);
      }
    } else {
      UseUpSettles(s, grants);
      assert !(limit - Total(UseUp(s, grants)) > -minShare);
    }
  }

  /** The locks that a settlement needs can be had. */
  ghost predicate LocksOk(g: Group, cs: seq<Settlement>)
    reads g
  {
    forall c :: c in cs ==> c.lockable !! g.joining && c.first < |g.members|
  }

  /** Charging the group in that order. */
  method Settle(g: Group, cs: seq<Settlement>)
    requires g.Valid() && Holders(g.members, g.grants) && Settles(g.grants, cs) && LocksOk(g, cs)
    requires -TWO63 <= g.limit - Outstanding(g.members, g.grants)
    modifies g`limit, g`grants, g`suspended, g`pendingUnsuspend, g`marked
    ensures g.Valid() && g.limit == old(g.limit) - Total(cs)
    ensures old(g.Covered()) ==> g.limit > -g.minShare
    decreases |cs|
  {
    TotalBound(g.members, g.grants, cs);
    if cs != [] {
      OutstandingWithout(g.members, g.grants, cs[0].x);
      OutstandingNonneg(g.members, g.grants - {cs[0].x});
      assert cs[0] in cs;
      g.Charge(cs[0].x, cs[0].bytes, cs[0].first, cs[0].lockable);
      assert forall c :: c in cs[1..] ==> c in cs;
      Settle(g, cs[1..]);
    }
  }

  /** Two grants that are out together can make a group owe a whole share: the second one did
      not fit. */
  method Overdraw() returns (g: Group)
    ensures fresh(g) && g.Valid() && g.limit <= -g.minShare
  {
    g := new Group(Rate(64, 64));
    g.Join(0);
    g.Join(1);
    assert |g.members| == 2;
    var a := g.GetMax(0, 64);
    assert g.members[1..] == [0] && g.members[1..][1..] == [];
    assert Outstanding(g.members, g.grants) == Outstanding(g.members[1..], g.grants) == 64;
    assert !g.OfferFits(64);
    var b := g.GetMax(1, 64);
    assert a == 64 && b == 64;
    g.Charge(0, a, 0, {});
    g.Charge(1, b, 0, {});
  }

  // ----- every run -----

  /** What members and the refill timer do to a group, in any order; `first` and `lockable` are
      the random starting point and the locks that could be had. */
  datatype Step =
    | DoGetMax(x: Id, own: int)
    | DoCharge(x: Id, bytes: int, first: nat, lockable: set<Id>)
    | DoTransfer(x: Id, own: int, used: int, first: nat, lockable: set<Id>)
    | DoRefill(n: int, first: nat, lockable: set<Id>)
    | DoJoin(x: Id)
    | DoFinishJoin(x: Id)
    | DoLeave(x: Id)

  /** A member asks before it transfers, transfers no more than it was told, and holds its own
      lock from asking to being charged and while it joins. */
  predicate Allowed(g: Group, st: Step)
    reads g
  {
    match st
    case DoGetMax(x, _) => x in g.members && x !in g.grants
    case DoCharge(x, bytes, first, lockable) =>
      && x in g.members && x in g.grants && 0 <= bytes <= g.grants[x] && -TWO63 <= g.limit - bytes
      && lockable !! g.joining && first < |g.members|
    case DoTransfer(x, own, used, first, lockable) =>
      && x in g.members && x !in g.grants && used >= 0 && -TWO63 <= g.limit - g.Offer(own)
      && lockable !! g.joining && first < |g.members|
    case DoRefill(_, first, lockable) => lockable !! g.joining && (g.members != [] ==> first < |g.members|)
    case DoJoin(x) => x !in g.members && x !in g.marked && x !in g.grants
    case DoFinishJoin(x) => x in g.joining
    case DoLeave(x) => x in g.members && x !in g.joining && x !in g.grants
  }

  /** A step that gives out no grant, or one that fits. */
  predicate Fitting(g: Group, st: Step)
    requires Allowed(g, st)
    reads g
  {
    match st
    case DoGetMax(_, own) => g.OfferFits(own)
    case DoTransfer(_, own, _, _, _) => g.OfferFits(own)
    case _ => true
  }

  /** Every step takes effect and keeps the flags and the debt in order, and a fitting one keeps
      the group covered. */
  method Do(g: Group, st: Step)
    requires g.Valid() && g.DebtOk() && g.minShare >= 1 && Allowed(g, st)
    modifies g
    ensures g.Valid() && g.DebtOk() && g.minShare == old(g.minShare)
    ensures old(g.Covered()) && old(Fitting(g, st)) ==> g.Covered()
    ensures !st.DoGetMax? && old(g.grants) == map[] ==> g.grants == map[]
    ensures match st
            case DoGetMax(x, own) => x in g.grants && g.grants[x] == old(g.Offer(own))
            case DoCharge(x, bytes, _, _) => x !in g.grants && g.limit == old(g.limit) - bytes
            case DoTransfer(_, own, used, _, _) => g.limit == old(g.limit) - Min(used, old(g.Offer(own)))
            case DoRefill(n, _, _) => g.limit == AfterTicks(old(g.limit), g.rate, n)
            case DoJoin(x) => x in g.members
            case DoFinishJoin(x) => x in g.members && x !in g.joining
            case DoLeave(x) => x !in g.members
  {
    match st
    case DoGetMax(x, own) => var _ := g.GetMax(x, own);
    case DoCharge(x, bytes, first, lockable) => g.Charge(x, bytes, first, lockable);
    case DoTransfer(x, own, used, first, lockable) => var _ := g.Transfer(x, own, used, first, lockable);
    case DoRefill(n, first, lockable) => g.Refill(n, first, lockable);
    case DoJoin(x) => g.Join(x);
    case DoFinishJoin(x) => g.FinishJoin(x);
    case DoLeave(x) => g.Leave(x);
  }

  /** Every run keeps the flags consistent and the debt below one burst per member. */
  method Run(r: Rate, steps: seq<Step>) returns (g: Group)
    requires RateOk(r)
    ensures fresh(g) && g.Valid() && g.limit > -(g.peak * g.cap)
  {
    g := new Group(r);
    for i := 0 to |steps|
      invariant fresh(g) && g.Valid() && g.DebtOk() && g.minShare >= 1
    {
      if Allowed(g, steps[i]) {
        Do(g, steps[i]);
      }
    }
    OutstandingBound(g.members, g.grants, g.cap);
  }

  /** What a group promises: tokens while it is not suspended, less than a share of debt, no
      resumption left to do while it is suspended, and no member marked once there is none. */
  ghost predicate Promises(g: Group)
    reads g
  {
    && (!g.suspended ==> g.limit > 0)
    && g.limit > -g.minShare
    && (g.pendingUnsuspend ==> !g.suspended)
    && (!g.suspended && !g.pendingUnsuspend ==> g.marked * InList(g.members) == {})
  }

  /** Every run in which a transfer is one step keeps the promises. */
  method TransferRun(r: Rate, steps: seq<Step>) returns (g: Group)
    requires RateOk(r) && forall st :: st in steps ==> !st.DoGetMax? && !st.DoCharge?
    ensures fresh(g) && g.grants == map[] && Promises(g)
  {
    g := new Group(r);
    NoneOutstanding(g.members);
    for i := 0 to |steps|
      invariant fresh(g) && g.Valid() && g.DebtOk() && g.minShare >= 1 && g.grants == map[] && g.Covered()
    {
      assert steps[i] in steps;
      if Allowed(g, steps[i]) {
        NoneOutstanding(g.members);
        if steps[i].DoTransfer? {
          g.AloneFits(steps[i].own);
        }
        Do(g, steps[i]);
      }
    }
    NoneOutstanding(g.members);
  }

  /** So does every run, whatever comes between asking and charging, that gives out only
      grants that fit. */
  method CoveredRun(r: Rate, steps: seq<Step>) returns (g: Group)
    requires RateOk(r)
    ensures fresh(g) && Promises(g)
  {
    g := new Group(r);
    NoneOutstanding(g.members);
    for i := 0 to |steps|
      invariant fresh(g) && g.Valid() && g.DebtOk() && g.minShare >= 1 && g.Covered()
    {
      if Allowed(g, steps[i]) {
        if Fitting(g, steps[i]) {
          Do(g, steps[i]);
        }
      }
    }
    OutstandingBound(g.members, g.grants, g.cap);
  }
}
