/** Suspension of a bufferevent and its own rate limit. A direction can be suspended for several
    reasons at once; an exhausted bucket is one of them. */
module Bufferevent {
  import opened IdLists
  import opened Machine
  import opened TokenBucket

  /** The BEV_SUSPEND_* reasons. */
  datatype Reason = WM | BW | BWGroup | Lookup | FiltRead

  class Bev {
    /** The directions the user has enabled, and those the backend is working in. */
    var enabledRead: bool
    var enabledWrite: bool
    var reading: bool
    var writing: bool
    var readSuspended: set<Reason>
    var writeSuspended: set<Reason>
    /** rate_limiting: its configuration and bucket. */
    var cfg: Option<Cfg>
    var limit: Bucket
    /** The refill event is waiting for its timeout. */
    var refillPending: bool
    /** The refill event has fired and its callback is about to take the lock. */
    var refillDue: bool

    /** The backend works in a direction exactly when it is enabled and nothing suspends it. */
    ghost predicate Backend()
      reads this
    {
      && (reading <==> enabledRead && readSuspended == {})
      && (writing <==> enabledWrite && writeSuspended == {})
    }

    /** An exhausted bucket suspends its direction, and whatever the bucket suspends will be
        looked at by the refill callback. */
    ghost predicate Limited()
      reads this
    {
      if cfg.None? then BW !in readSuspended && BW !in writeSuspended
      else
        && CfgOk(cfg.value) && InRange(limit)
        && (limit.read <= 0 ==> BW in readSuspended)
        && (limit.write <= 0 ==> BW in writeSuspended)
        && (BW in readSuspended + writeSuspended ==> refillPending || refillDue)
    }

    ghost predicate Valid()
      reads this
    {
      Backend() && Limited()
    }

    constructor ()
      ensures Valid() && cfg.None? && !enabledRead && !enabledWrite && readSuspended == {} && writeSuspended == {}
    {
      enabledRead, enabledWrite, reading, writing := false, false, false, false;
      readSuspended, writeSuspended, cfg, limit := {}, {}, None, Bucket(0, 0, 0);
      refillPending, refillDue := false, false;
    }

    // ----- the flag layer -----

    /** bufferevent_suspend_read_ */
    method SuspendRead(why: Reason)
      requires Backend()
      modifies this`readSuspended, this`reading
      ensures Backend() && readSuspended == old(readSuspended) + {why}
    {
      if readSuspended == {} {
        reading := false;
      }
      readSuspended := readSuspended + {why};
    }

    /** bufferevent_unsuspend_read_ */
    method UnsuspendRead(why: Reason)
      requires Backend()
      modifies this`readSuspended, this`reading
      ensures Backend() && readSuspended == old(readSuspended) - {why}
    {
      readSuspended := readSuspended - {why};
      if readSuspended == {} && enabledRead {
        reading := true;
      }
    }

    /** bufferevent_suspend_write_ */
    method SuspendWrite(why: Reason)
      requires Backend()
      modifies this`writeSuspended, this`writing
      ensures Backend() && writeSuspended == old(writeSuspended) + {why}
    {
      if writeSuspended == {} {
        writing := false;
      }
      writeSuspended := writeSuspended + {why};
    }

    /** bufferevent_unsuspend_write_ */
    method UnsuspendWrite(why: Reason)
      requires Backend()
      modifies this`writeSuspended, this`writing
      ensures Backend() && writeSuspended == old(writeSuspended) - {why}
    {
      writeSuspended := writeSuspended - {why};
      if writeSuspended == {} && enabledWrite {
        writing := true;
      }
    }

    /** bufferevent_enable */
    method Enable(read: bool, write: bool)
      requires Valid()
      modifies this`enabledRead, this`enabledWrite, this`reading, this`writing
      ensures Valid() && enabledRead == (old(enabledRead) || read) && enabledWrite == (old(enabledWrite) || write)
    {
      var implRead, implWrite := read && readSuspended == {}, write && writeSuspended == {};
      enabledRead, enabledWrite := enabledRead || read, enabledWrite || write;
      reading, writing := reading || implRead, writing || implWrite;
    }

    /** bufferevent_disable */
    method Disable(read: bool, write: bool)
      requires Valid()
      modifies this`enabledRead, this`enabledWrite, this`reading, this`writing
      ensures Valid() && enabledRead == (old(enabledRead) && !read) && enabledWrite == (old(enabledWrite) && !write)
    {
      enabledRead, enabledWrite := enabledRead && !read, enabledWrite && !write;
      reading, writing := reading && !read, writing && !write;
    }

    /** Suspension for any other reason (watermarks, a pending lookup, a filter, the group). */
    method SuspendFor(why: Reason, read: bool, on: bool)
      requires Valid() && why != BW
      modifies this`readSuspended, this`reading, this`writeSuspended, this`writing
      ensures Valid()
      ensures read ==> (why in readSuspended <==> on) && writeSuspended == old(writeSuspended)
      ensures !read ==> (why in writeSuspended <==> on) && readSuspended == old(readSuspended)
    {
      if read {
        if on { SuspendRead(why); } else { UnsuspendRead(why); }
      } else {
        if on { SuspendWrite(why); } else { UnsuspendWrite(why); }
      }
    }

    // ----- the rate limit -----

    /** bufferevent_update_buckets, and the bound bufferevent_get_rlim_max_ takes from it. */
    method GetMax(tick: int, write: bool) returns (max: int)
      requires Valid() && cfg.Some?
      modifies this`limit
      ensures limit == Updated(old(limit), cfg.value, tick)
      ensures SteadyBucket(old(limit), cfg.value, tick) ==> Valid()
      ensures
        && var tokens := if write then limit.write else limit.read;
        && max == if tokens < 0 then 0 else tokens
    {
      if SteadyBucket(limit, cfg.value, tick) {
        UpdatePositive(limit, cfg.value, tick);
      }
      if tick != limit.lastUpdated {
        limit := Updated(limit, cfg.value, tick);
      }
      max := if write then limit.write else limit.read;
      if max < 0 {
        max := 0;
      }
    }

    /** bufferevent_decrement_read_buckets_, as far as the bufferevent's own bucket goes. */
    method ChargeRead(bytes: int)
      requires Valid() && cfg.Some? && -TWO63 <= limit.read - bytes < TWO63
      modifies this`limit, this`readSuspended, this`reading, this`refillPending, this`refillDue
      ensures Valid() && limit == old(limit).(read := old(limit).read - bytes)
      ensures BW in readSuspended <==> limit.read <= 0
      ensures readSuspended - {BW} == old(readSuspended) - {BW}
    {
      limit := limit.(read := limit.read - bytes);
      if limit.read <= 0 {
        SuspendRead(BW);
        refillPending := true;
      } else if BW in readSuspended {
        if BW !in writeSuspended {
          refillPending, refillDue := false, false;
        }
        UnsuspendRead(BW);
      }
    }

    /** bufferevent_decrement_write_buckets_, as far as the bufferevent's own bucket goes. */
    method ChargeWrite(bytes: int)
      requires Valid() && cfg.Some? && -TWO63 <= limit.write - bytes < TWO63
      modifies this`limit, this`writeSuspended, this`writing, this`refillPending, this`refillDue
      ensures Valid() && limit == old(limit).(write := old(limit).write - bytes)
      ensures BW in writeSuspended <==> limit.write <= 0
      ensures writeSuspended - {BW} == old(writeSuspended) - {BW}
    {
      limit := limit.(write := limit.write - bytes);
      if limit.write <= 0 {
        SuspendWrite(BW);
        refillPending := true;
      } else if BW in writeSuspended {
        if BW !in readSuspended {
          refillPending, refillDue := false, false;
        }
        UnsuspendWrite(BW);
      }
    }

    /** bufferevent_decrement_read_limit */
    method DecrementReadLimit(decr: int)
      requires Valid() && cfg.Some? && -TWO63 <= limit.read - decr < TWO63
      modifies this`limit, this`readSuspended, this`reading, this`refillPending, this`refillDue
      ensures Valid() && limit == old(limit).(read := old(limit).read - decr)
      ensures readSuspended - {BW} == old(readSuspended) - {BW}
      ensures old(limit).read <= 0 || BW !in old(readSuspended) ==> (BW in readSuspended <==> limit.read <= 0)
    {
      var before := limit.read;
      limit := limit.(read := limit.read - decr);
      if before > 0 && limit.read <= 0 {
        SuspendRead(BW);
        refillPending := true;
      } else if before <= 0 && limit.read > 0 {
        if BW !in writeSuspended {
          refillPending, refillDue := false, false;
        }
        UnsuspendRead(BW);
      }
    }

    /** bufferevent_decrement_write_limit */
    method DecrementWriteLimit(decr: int)
      requires Valid() && cfg.Some? && -TWO63 <= limit.write - decr < TWO63
      modifies this`limit, this`writeSuspended, this`writing, this`refillPending, this`refillDue
      ensures Valid() && limit == old(limit).(write := old(limit).write - decr)
      ensures writeSuspended - {BW} == old(writeSuspended) - {BW}
      ensures old(limit).write <= 0 || BW !in old(writeSuspended) ==> (BW in writeSuspended <==> limit.write <= 0)
    {
      var before := limit.write;
      limit := limit.(write := limit.write - decr);
      if before > 0 && limit.write <= 0 {
        SuspendWrite(BW);
        refillPending := true;
      } else if before <= 0 && limit.write > 0 {
        if BW !in readSuspended {
          refillPending, refillDue := false, false;
        }
        UnsuspendWrite(BW);
      }
    }

    /** The refill event's timeout expires. */
    method RefillFires()
      requires Valid() && refillPending
      modifies this`refillPending, this`refillDue
      ensures Valid() && refillDue
    {
      refillPending, refillDue := false, true;
    }

    /** bev_refill_callback_: afterwards a direction is suspended for bandwidth exactly when its
        bucket is still exhausted, and then another refill is scheduled. */
    method RefillCallback(tick: int)
      requires Valid()
      modifies this
      ensures cfg == old(cfg) && !refillDue
      ensures (cfg.Some? ==> SteadyBucket(old(limit), cfg.value, tick)) ==> Valid()
      ensures cfg.Some? ==>
        && limit == Updated(old(limit), cfg.value, tick)
        && (BW in readSuspended <==> BW in old(readSuspended) && limit.read <= 0)
        && (BW in writeSuspended <==> BW in old(writeSuspended) && limit.write <= 0)
      ensures readSuspended - {BW} == old(readSuspended) - {BW} && writeSuspended - {BW} == old(writeSuspended) - {BW}
    {
      refillDue := false;
      if cfg.None? {
        return;
      }
      if SteadyBucket(limit, cfg.value, tick) {
        UpdatePositive(limit, cfg.value, tick);
      }
      limit := Updated(limit, cfg.value, tick);
      var again := false;
      if BW in readSuspended {
        if limit.read > 0 { UnsuspendRead(BW); } else { again := true; }
      }
      if BW in writeSuspended {
        if limit.write > 0 { UnsuspendWrite(BW); } else { again := true; }
      }
      if again {
        refillPending := true;
      }
    }

    /** bufferevent_set_rate_limit; `same` says that c is the very configuration in use. */
    method SetRateLimit(c: Option<Cfg>, same: bool, tick: int)
      requires same ==> c == cfg
      requires Valid() && (c.Some? ==> CfgOk(c.value))
      modifies this
      ensures Valid() && cfg == c
      ensures readSuspended - {BW} == old(readSuspended) - {BW} && writeSuspended - {BW} == old(writeSuspended) - {BW}
      ensures c.Some? && same ==> limit == old(limit) && readSuspended == old(readSuspended) && writeSuspended == old(writeSuspended)
      ensures c.None? ==> limit == old(limit) && BW !in readSuspended && BW !in writeSuspended && !refillPending
      ensures c.Some? && !same ==>
        && limit == Initialized(old(limit), c.value, tick, old(cfg).Some?)
        && (old(cfg).None? ==> limit.read == c.value.read.rate && limit.write == c.value.write.rate && limit.lastUpdated == tick)
        && (old(cfg).Some? ==>
              && limit.read == Min(old(limit).read, c.value.read.maximum)
              && limit.write == Min(old(limit).write, c.value.write.maximum)
              && limit.lastUpdated == old(limit).lastUpdated)
        && (BW in readSuspended <==> limit.read <= 0) && (BW in writeSuspended <==> limit.write <= 0)
    {
      if c.None? {
        cfg := None;
        UnsuspendRead(BW);
        UnsuspendWrite(BW);
        refillPending, refillDue := false, false;
        return;
      }
      if same {
        return;
      }
      limit := Initialized(limit, c.value, tick, cfg.Some?);
      cfg := c;
      refillPending, refillDue := false, false;
      if limit.read > 0 { UnsuspendRead(BW); } else { SuspendRead(BW); }
      if limit.write > 0 { UnsuspendWrite(BW); } else { SuspendWrite(BW); }
      if limit.read <= 0 || limit.write <= 0 {
        refillPending := true;
      }
    }
  }

  // ----- every run -----

  datatype Step =
    | DoEnable(read: bool, write: bool)
    | DoDisable(read: bool, write: bool)
    | DoSuspendFor(why: Reason, read: bool, on: bool)
    | DoGetMax(tick: int, write: bool)
    | DoChargeRead(bytes: int)
    | DoChargeWrite(bytes: int)
    | DoDecrementReadLimit(decr: int)
    | DoDecrementWriteLimit(decr: int)
    | DoRefillFires
    | DoRefillCallback(tick: int)
    | DoSetRateLimit(c: Option<Cfg>, same: bool, tick: int)

  predicate Fits(x: int) {
    -TWO63 <= x < TWO63
  }

  /** Limits stay in the range of their type, refills are steady, and configurations are those
      that ev_token_bucket_cfg_new makes. */
  predicate Allowed(b: Bev, st: Step)
    reads b
  {
    match st
    case DoSuspendFor(why, _, _) => why != BW
    case DoGetMax(tick, _) => b.cfg.Some? && SteadyBucket(b.limit, b.cfg.value, tick)
    case DoChargeRead(bytes) => b.cfg.Some? && Fits(b.limit.read - bytes)
    case DoChargeWrite(bytes) => b.cfg.Some? && Fits(b.limit.write - bytes)
    case DoDecrementReadLimit(decr) => b.cfg.Some? && Fits(b.limit.read - decr)
    case DoDecrementWriteLimit(decr) => b.cfg.Some? && Fits(b.limit.write - decr)
    case DoRefillFires => b.refillPending
    case DoRefillCallback(tick) => b.cfg.Some? ==> SteadyBucket(b.limit, b.cfg.value, tick)
    case DoSetRateLimit(c, same, _) => (c.Some? ==> CfgOk(c.value)) && (same ==> c == b.cfg)
    case _ => true
  }

  /** The backend works on what is enabled and not suspended, an exhausted bucket suspends its
      direction, and whatever is suspended for bandwidth will be looked at again. */
  ghost predicate NotStuck(b: Bev)
    reads b
  {
    && (b.reading <==> b.enabledRead && b.readSuspended == {})
    && (b.writing <==> b.enabledWrite && b.writeSuspended == {})
    && (b.cfg.Some? && b.limit.read <= 0 ==> BW in b.readSuspended && !b.reading)
    && (b.cfg.Some? && b.limit.write <= 0 ==> BW in b.writeSuspended && !b.writing)
    && (BW in b.readSuspended || BW in b.writeSuspended ==> b.cfg.Some? && (b.refillPending || b.refillDue))
  }

  /** Each step takes effect, and none leaves a bufferevent stuck. */
  method Do(b: Bev, st: Step)
    requires b.Valid() && Allowed(b, st)
    modifies b
    ensures b.Valid() && NotStuck(b)
    ensures match st
            case DoEnable(read, write) => b.enabledRead == (old(b.enabledRead) || read) && b.enabledWrite == (old(b.enabledWrite) || write)
            case DoDisable(read, write) => b.enabledRead == (old(b.enabledRead) && !read) && b.enabledWrite == (old(b.enabledWrite) && !write)
            case DoSuspendFor(why, read, on) => why in (if read then b.readSuspended else b.writeSuspended) <==> on
            case DoGetMax(tick, _) => b.cfg.Some? && b.limit == Updated(old(b.limit), b.cfg.value, tick)
            case DoChargeRead(bytes) => b.limit.read == old(b.limit).read - bytes
            case DoChargeWrite(bytes) => b.limit.write == old(b.limit).write - bytes
            case DoDecrementReadLimit(decr) => b.limit.read == old(b.limit).read - decr
            case DoDecrementWriteLimit(decr) => b.limit.write == old(b.limit).write - decr
            case DoRefillFires => b.refillDue
            case DoRefillCallback(tick) => !b.refillDue && (b.cfg.Some? ==> b.limit == Updated(old(b.limit), b.cfg.value, tick))
            case DoSetRateLimit(c, _, _) => b.cfg == c
  {
    match st
    case DoEnable(read, write) => b.Enable(read, write);
    case DoDisable(read, write) => b.Disable(read, write);
    case DoSuspendFor(why, read, on) => b.SuspendFor(why, read, on);
    case DoGetMax(tick, write) => var _ := b.GetMax(tick, write);
    case DoChargeRead(bytes) => b.ChargeRead(bytes);
    case DoChargeWrite(bytes) => b.ChargeWrite(bytes);
    case DoDecrementReadLimit(decr) => b.DecrementReadLimit(decr);
    case DoDecrementWriteLimit(decr) => b.DecrementWriteLimit(decr);
    case DoRefillFires => b.RefillFires();
    case DoRefillCallback(tick) => b.RefillCallback(tick);
    case DoSetRateLimit(c, same, tick) => b.SetRateLimit(c, same, tick);
  }

  /** No run of allowed steps from a new bufferevent does. Steps that are not allowed are left
      out of the run. */
  method Run(steps: seq<Step>) returns (b: Bev)
    ensures fresh(b) && b.Valid() && NotStuck(b)
  {
    b := new Bev();
    for i := 0 to |steps|
      invariant fresh(b) && b.Valid() && NotStuck(b)
    {
      if Allowed(b, steps[i]) {
        Do(b, steps[i]);
      }
    }
  }
}
