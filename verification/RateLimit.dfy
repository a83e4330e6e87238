/** Token buckets: the refill arithmetic in machine integers, and its meaning. */
module TokenBucket {
  import opened Common

  /** Conversion to size_t. */
  function U64(x: int): int {
    x % TWO64
  }

  /** Conversion of a size_t to ev_ssize_t. */
  function S64(x: int): int
    requires 0 <= x < TWO64
  {
    if x <= SSIZE_MAX then x else x - TWO64
  }

  predicate Limits(limit: int, maximum: int, rate: int, n: int) {
    SSIZE_MIN <= limit <= SSIZE_MAX && 1 <= rate <= maximum <= SSIZE_MAX && 1 <= n <= INT_MAX
  }

  /** One direction of ev_token_bucket_update_: divide first, so as not to overflow. */
  function Refill(limit: int, maximum: int, rate: int, n: int): int
    requires Limits(limit, maximum, rate, n)
  {
    if U64(maximum - limit) / n < rate then maximum else S64(U64(limit + U64(n * rate)))
  }

  lemma DivideFirst(d: int, n: int, rate: int)
    requires 0 <= d && 0 < n && 0 <= rate
    ensures d / n < rate <==> d < n * rate
  {
    var q, m := d / n, d % n;
    assert d == n * q + m;
    if q < rate {
      Monotone(n, q + 1, rate);
      assert n * (q + 1) == n * q + n;
    } else {
      Monotone(n, rate, q);
    }
  }

  lemma Monotone(n: int, a: int, b: int)
    requires 0 <= n && a <= b
    ensures n * a <= n * b
  {
  }

  lemma WrapsBack(x: int, y: int, k: int)
    requires 0 <= y < TWO64 && x == y + k * TWO64
    ensures U64(x) == y
  {
  }

  /** What a refill comes to.  A limit within its maximum grows up to it.  A limit above it, which
      a negative charge can cause, makes the unsigned difference wrap around: the limit grows on,
      past the largest ev_ssize_t into the negative numbers, unless so much is added that the
      difference is used up. */
  function Refilled(limit: int, maximum: int, rate: int, n: int): int {
    var s := limit + n * rate;
    if limit <= maximum then Min(maximum, s)
    else if TWO64 + maximum < s then maximum
    else if s <= SSIZE_MAX then s else s - TWO64
  }

  lemma RefillMeans(limit: int, maximum: int, rate: int, n: int)
    requires Limits(limit, maximum, rate, n)
    ensures Refill(limit, maximum, rate, n) == Refilled(limit, maximum, rate, n)
  {
    var d := if limit <= maximum then maximum - limit else TWO64 + maximum - limit;
    AtLeast(n, rate);
    if limit <= maximum {
      WrapsBack(maximum - limit, d, 0);
    } else {
      WrapsBack(maximum - limit, d, -1);
    }
    DivideFirst(d, n, rate);
    if n * rate <= d {
      WrapsBack(n * rate, n * rate, 0);
      Summed(limit, n * rate);
    }
  }

  lemma Summed(limit: int, x: int)
    requires SSIZE_MIN <= limit <= SSIZE_MAX && 0 <= x && limit + x <= TWO64 + SSIZE_MAX
    ensures var s := limit + x;
            S64(U64(s)) == if s <= SSIZE_MAX then s else s - TWO64
  {
    var s := limit + x;
    if s < 0 {
      WrapsBack(s, s + TWO64, -1);
    } else if s < TWO64 {
      WrapsBack(s, s, 0);
    } else {
      WrapsBack(s, s - TWO64, 1);
    }
  }

  /** The machine computation is the naive one exactly if the bucket is not over its maximum,
      or so far over it that the unsigned difference is used up. */
  lemma RefillExact(limit: int, maximum: int, rate: int, n: int)
    requires Limits(limit, maximum, rate, n)
    ensures Refill(limit, maximum, rate, n) == Min(maximum, limit + n * rate)
       <==> limit <= maximum || TWO64 + maximum - limit <= n * rate
  {
    hide Refill;
    RefillMeans(limit, maximum, rate, n);
    AtLeast(n, rate);
  }

  /** A refill that makes a limit of at least `low` fall below it. */
  predicate Turns(limit: int, maximum: int, rate: int, n: int, low: int) {
    maximum < limit && SSIZE_MAX < limit + n * rate < TWO64 + low
  }

  /** A refill takes from a bucket only if it turns over. */
  lemma RefilledKeeps(limit: int, maximum: int, rate: int, n: int, low: int)
    requires Limits(limit, maximum, rate, n) && 0 <= low <= 1 && low <= limit
    ensures Refilled(limit, maximum, rate, n) < low <==> Turns(limit, maximum, rate, n, low)
  {
    AtLeast(n, rate);
  }

  lemma RefillRange(limit: int, maximum: int, rate: int, n: int)
    requires Limits(limit, maximum, rate, n)
    ensures SSIZE_MIN <= Refill(limit, maximum, rate, n) <= SSIZE_MAX
  {
  }

  /** Two refills are one. */
  lemma RefillTwice(limit: int, maximum: int, rate: int, m: int, n: int)
    requires Limits(limit, maximum, rate, m) && Limits(limit, maximum, rate, n) && m + n <= INT_MAX && limit <= maximum
    ensures var once := Refill(limit, maximum, rate, m);
            && Limits(once, maximum, rate, n) && once <= maximum
            && Refill(once, maximum, rate, n) == Refill(limit, maximum, rate, m + n)
  {
    hide Refill;
    RefillExact(limit, maximum, rate, m);
    RefillRange(limit, maximum, rate, m);
    AtLeast(m, rate);
    AtLeast(n, rate);
    assert (m + n) * rate == m * rate + n * rate;
    var once := Refill(limit, maximum, rate, m);
    RefillExact(once, maximum, rate, n);
    RefillExact(limit, maximum, rate, m + n);
  }

  /** A bucket over its maximum, which a negative charge can cause, is filled further. */
  lemma OverfullExample()
    ensures Refill(20, 10, 1, 1) == 21
  {
  }

  /** What happens to one direction of a bucket: ticks pass, or bytes are charged to it. */
  datatype Use = Ticks(n: nat) | Charge(bytes: nat)

  /** The limit after some uses. */
  function After(limit: int, maximum: int, rate: int, uses: seq<Use>): int
    decreases uses
  {
    if uses == [] then limit
    else
      match uses[0]
      case Ticks(n) => After(Min(maximum, limit + n * rate), maximum, rate, uses[1..])
      case Charge(b) => After(limit - b, maximum, rate, uses[1..])
  }

  /** No charge is more than the limit at that time, nor anything charged to an empty bucket. */
  predicate WithinLimit(limit: int, maximum: int, rate: int, uses: seq<Use>)
    decreases uses
  {
    if uses == [] then true
    else
      match uses[0]
      case Ticks(n) => WithinLimit(Min(maximum, limit + n * rate), maximum, rate, uses[1..])
      case Charge(b) => b <= Max(0, limit) && WithinLimit(limit - b, maximum, rate, uses[1..])
  }

  function Charged(uses: seq<Use>): nat {
    if uses == [] then 0 else (if uses[0].Charge? then uses[0].bytes else 0) + Charged(uses[1..])
  }

  function Elapsed(uses: seq<Use>): nat {
    if uses == [] then 0 else (if uses[0].Ticks? then uses[0].n else 0) + Elapsed(uses[1..])
  }

  lemma Spread(m: nat, n: nat, rate: nat)
    ensures (m + n) * rate == m * rate + n * rate && 0 <= m * rate
  {
  }

  /** Over any stretch of time the bytes charged are at most what was in the bucket and what
      the rate allows, after what an overdrawn bucket owes; and what is left is what was not
      charged, or less. */
  lemma {:induction false} ChargeBound(limit: int, maximum: int, rate: nat, uses: seq<Use>)
    requires limit <= maximum && 0 <= maximum && WithinLimit(limit, maximum, rate, uses)
    ensures Min(0, limit) <= After(limit, maximum, rate, uses) <= maximum
    ensures Charged(uses) + Max(0, After(limit, maximum, rate, uses)) <= Max(0, limit + Elapsed(uses) * rate)
    decreases uses
  {
    if uses != [] {
      match uses[0]
      case Ticks(n) =>
        ChargeBound(Min(maximum, limit + n * rate), maximum, rate, uses[1..]);
        Spread(n, Elapsed(uses[1..]), rate);
      case Charge(b) =>
        ChargeBound(limit - b, maximum, rate, uses[1..]);
    }
  }

  datatype Dir = Read | Write

  /** One number for reading and one for writing. */
  datatype PerDir = PerDir(read: int, write: int) {
    function Of(d: Dir): int {
      if d == Read then read else write
    }

    function With(d: Dir, x: int): PerDir {
      if d == Read then this.(read := x) else this.(write := x)
    }
  }

  /** struct ev_token_bucket_cfg */
  datatype Cfg = Cfg(rate: PerDir, maximum: PerDir) {
    /** What ev_token_bucket_cfg_new insists on. */
    predicate Ok() {
      forall d: Dir :: 1 <= rate.Of(d) <= maximum.Of(d) <= SSIZE_MAX
    }
  }

  /** struct ev_token_bucket */
  datatype Bucket = Bucket(limit: PerDir, last: int) {
    predicate Ok() {
      0 <= last < TWO32 && forall d: Dir :: SSIZE_MIN <= limit.Of(d) <= SSIZE_MAX
    }

    /** No direction is over its maximum. */
    predicate Within(cfg: Cfg) {
      forall d: Dir :: limit.Of(d) <= cfg.maximum.Of(d)
    }

    /** An update makes a limit of at least `low` fall below it. */
    predicate Turning(cfg: Cfg, tick: int, d: Dir, low: int) {
      var n := Since(tick, last);
      1 <= n <= INT_MAX && low <= limit.Of(d) && Turns(limit.Of(d), cfg.maximum.Of(d), cfg.rate.Of(d), n, low)
    }
  }

  /** Ticks since the last update, as an unsigned difference. */
  function Since(tick: int, last: int): int {
    (tick - last) % TWO32
  }

  lemma Advanced(last: int, later: int)
    requires 0 <= last < TWO32 && 1 <= later <= INT_MAX
    ensures Since((last + later) % TWO32, last) == later
  {
  }

  /** The bucket after an update. */
  function Updated(b: Bucket, cfg: Cfg, tick: int): Bucket {
    var n := Since(tick, b.last);
    if n == 0 || n > INT_MAX then b
    else
      Bucket(PerDir(Refilled(b.limit.read, cfg.maximum.read, cfg.rate.read, n),
                    Refilled(b.limit.write, cfg.maximum.write, cfg.rate.write, n)), tick)
  }

  /** ev_token_bucket_update_ */
  method Update(b: Bucket, cfg: Cfg, tick: int) returns (r: Bucket)
    requires cfg.Ok() && b.Ok() && 0 <= tick < TWO32
    ensures r == Updated(b, cfg, tick) && r.Ok()
  {
    hide Refill, Refilled;
    UpdatedOk(b, cfg, tick);
    var n := Since(tick, b.last);
    if n == 0 || n > INT_MAX {
      return b;
    }
    assert Limits(b.limit.Of(Read), cfg.maximum.Of(Read), cfg.rate.Of(Read), n);
    assert Limits(b.limit.Of(Write), cfg.maximum.Of(Write), cfg.rate.Of(Write), n);
    RefillMeans(b.limit.read, cfg.maximum.read, cfg.rate.read, n);
    RefillMeans(b.limit.write, cfg.maximum.write, cfg.rate.write, n);
    r := b.(limit := b.limit.(read := Refill(b.limit.read, cfg.maximum.read, cfg.rate.read, n)));
    r := r.(limit := r.limit.(write := Refill(b.limit.write, cfg.maximum.write, cfg.rate.write, n)));
    r := r.(last := tick);
  }

  /** One direction of an update. */
  lemma UpdatedDir(b: Bucket, cfg: Cfg, tick: int, d: Dir)
    requires cfg.Ok() && b.Ok() && 0 <= tick < TWO32
    ensures var n := Since(tick, b.last);
            Updated(b, cfg, tick).limit.Of(d) ==
              if n == 0 || n > INT_MAX then b.limit.Of(d)
              else Refilled(b.limit.Of(d), cfg.maximum.Of(d), cfg.rate.Of(d), n)
    ensures 0 <= Since(tick, b.last) && 1 <= cfg.rate.Of(d) <= cfg.maximum.Of(d) <= SSIZE_MAX
    ensures SSIZE_MIN <= b.limit.Of(d) <= SSIZE_MAX
  {
    hide Refilled;
  }

  lemma UpdatedOk(b: Bucket, cfg: Cfg, tick: int)
    requires cfg.Ok() && b.Ok() && 0 <= tick < TWO32
    ensures Updated(b, cfg, tick).Ok()
    ensures b.Within(cfg) ==> Updated(b, cfg, tick).Within(cfg)
    ensures forall d: Dir :: b.limit.Of(d) <= cfg.maximum.Of(d) ==> b.limit.Of(d) <= Updated(b, cfg, tick).limit.Of(d)
  {
    hide Updated, Refill;
    var n := Since(tick, b.last);
    forall d: Dir
      ensures SSIZE_MIN <= Updated(b, cfg, tick).limit.Of(d) <= SSIZE_MAX
      ensures b.limit.Of(d) <= cfg.maximum.Of(d) ==>
        b.limit.Of(d) <= Updated(b, cfg, tick).limit.Of(d) <= cfg.maximum.Of(d)
    {
      UpdatedDir(b, cfg, tick, d);
      AtLeast(n, cfg.rate.Of(d));
      if 1 <= n <= INT_MAX {
        RefillMeans(b.limit.Of(d), cfg.maximum.Of(d), cfg.rate.Of(d), n);
        RefillRange(b.limit.Of(d), cfg.maximum.Of(d), cfg.rate.Of(d), n);
      }
    }
    UpdatedLast(b, cfg, tick);
  }

  lemma UpdatedLast(b: Bucket, cfg: Cfg, tick: int)
    requires b.Ok() && 0 <= tick < TWO32
    ensures 0 <= Updated(b, cfg, tick).last < TWO32
  {
    hide Refilled;
  }

  /** An update takes from a bucket exactly if it turns over. */
  lemma UpdatedKeeps(b: Bucket, cfg: Cfg, tick: int, d: Dir, low: int)
    requires cfg.Ok() && b.Ok() && 0 <= tick < TWO32 && 0 <= low <= 1 && low <= b.limit.Of(d)
    ensures Updated(b, cfg, tick).limit.Of(d) < low <==> b.Turning(cfg, tick, d, low)
  {
    hide Updated, Refilled, Turns;
    UpdatedDir(b, cfg, tick, d);
    var n := Since(tick, b.last);
    if 1 <= n <= INT_MAX {
      RefilledKeeps(b.limit.Of(d), cfg.maximum.Of(d), cfg.rate.Of(d), n, low);
    }
  }

  lemma AtLeast(n: int, rate: int)
    requires 0 <= n && 1 <= rate
    ensures n <= n * rate
  {
  }

  lemma ChargedOk(b: Bucket, d: Dir, limit: int)
    ensures forall x: Dir :: b.limit.With(d, limit).Of(x) == if x == d then limit else b.limit.Of(x)
  {
  }

  /** ev_token_bucket_init_ */
  method Init(b: Bucket, cfg: Cfg, tick: int, reinitialize: bool) returns (r: Bucket)
    requires cfg.Ok() && 0 <= tick < TWO32
    requires reinitialize ==> b.Ok()
    ensures r.Ok() && r.Within(cfg)
    ensures reinitialize ==> r.last == b.last && forall d: Dir :: r.limit.Of(d) == Min(b.limit.Of(d), cfg.maximum.Of(d))
    ensures !reinitialize ==> r == Bucket(cfg.rate, tick)
  {
    assert forall d: Dir :: 1 <= cfg.rate.Of(d) <= cfg.maximum.Of(d) <= SSIZE_MAX;
    if reinitialize {
      r := b;
      if r.limit.read > cfg.maximum.read {
        r := r.(limit := r.limit.(read := cfg.maximum.read));
      }
      if r.limit.write > cfg.maximum.write {
        r := r.(limit := r.limit.(write := cfg.maximum.write));
      }
      assert forall d: Dir :: SSIZE_MIN <= b.limit.Of(d) && r.limit.Of(d) == Min(b.limit.Of(d), cfg.maximum.Of(d));
    } else {
      r := Bucket(cfg.rate, tick);
    }
  }
}

/** One rate-limited bufferevent. */
module RateLimitedBev {
  import opened Common
  import opened TokenBucket

  /** Why a direction is suspended: the flags BEV_SUSPEND_... */
  datatype Why = Watermark | Bandwidth | Group | Lookup | Filter

  class Bufferevent {
    var cfg: Option<Cfg>
    var bucket: Bucket
    /** The flags in read_suspended and write_suspended. */
    var suspended: set<(Dir, Why)>
    /** Whether refill_bucket_event is pending. */
    var timer: bool
    /** Whether it has fired and its callback still has to take the lock. */
    var firing: bool
    /** Whether it could not be set when it was last needed. */
    ghost var stalled: bool
    /** The directions the user has enabled. */
    var enabled: set<Dir>
    /** The directions in which the backend transfers. */
    var running: set<Dir>
    /** Those in which it does not because it could not start. */
    ghost var failed: set<Dir>

    predicate Clear(d: Dir)
      reads `suspended
    {
      forall w: Why :: (d, w) !in suspended
    }

    /** Transfers run exactly if enabled and not suspended for any reason, unless the backend
        failed to start them. */
    ghost predicate Runs()
      reads `suspended, `enabled, `running, `failed
    {
      forall d: Dir :: d in running <==> d in enabled && Clear(d) && d !in failed
    }

    /** An exhausted direction is suspended. */
    ghost predicate Covered()
      reads `cfg, `bucket, `suspended
    {
      cfg.Some? ==> forall d: Dir :: bucket.limit.Of(d) <= 0 ==> (d, Bandwidth) in suspended
    }

    /** An update at this tick exhausts a direction that is not suspended. */
    ghost predicate Overturned(tick: int)
      reads `cfg, `bucket, `suspended
    {
      cfg.Some? && exists d: Dir :: (d, Bandwidth) !in suspended && bucket.Turning(cfg.value, tick, d, 1)
    }

    /** While a direction is suspended for bandwidth the refill is coming, unless its timer could
        not be set. */
    ghost predicate Valid()
      reads this
    {
      Runs() && Limited()
    }

    ghost predicate Limited()
      reads `cfg, `bucket, `suspended, `timer, `firing, `stalled
    {
      if cfg == None then !timer && forall d: Dir :: (d, Bandwidth) !in suspended
      else
        && cfg.value.Ok() && bucket.Ok()
        && (forall d: Dir :: (d, Bandwidth) in suspended ==> timer || firing || stalled)
    }

    constructor ()
      ensures Valid() && Covered() && cfg == None && suspended == {} && enabled == {} && running == {} && !timer
      ensures !firing && !stalled
    {
      cfg, bucket, suspended, timer, firing := None, Bucket(PerDir(0, 0), 0), {}, false, false;
      enabled, running, failed, stalled := {}, {}, {}, false;
    }

    /** event_add on the refill event, which can fail only if it is not pending. */
    method AddTimer(memory: bool) returns (r: int)
      modifies `timer, `stalled
      ensures r == if old(timer) || memory then 0 else -1
      ensures timer == (r == 0) && stalled == (r == -1)
    {
      if timer || memory {
        timer, stalled := true, false;
        return 0;
      }
      stalled := true;
      return -1;
    }

    /** event_del on the refill event; a callback that waits for the lock may still run. */
    method DelTimer()
      modifies `timer, `firing
      ensures !timer && (firing ==> old(firing))
    {
      timer := false;
      if * {
        firing := false;
      }
    }

    /** The event loop finds the refill event due. */
    method Fire()
      requires Valid() && timer
      modifies `timer, `firing
      ensures Valid() && !timer && firing
    {
      timer, firing := false, true;
    }

    /** be_ops->enable; what was running goes on when it fails. */
    method StartBackend(ds: set<Dir>) returns (ok: bool)
      modifies `running, `failed
      ensures forall d: Dir :: d !in ds ==> (d in running <==> d in old(running)) && (d in failed <==> d in old(failed))
      ensures forall d: Dir :: d in ds ==> (d in running <==> d !in failed)
      ensures forall d: Dir :: d in old(running) ==> d in running
      ensures ok ==> ds <= running
    {
      var bad :| bad <= ds;
      running := running + (ds - bad);
      failed := failed - ds + (bad - running);
      ok := bad == {};
    }

    /** bufferevent_enable */
    method Enable(ds: set<Dir>) returns (r: int)
      requires Valid()
      modifies `enabled, `running, `failed
      ensures Valid() && enabled == old(enabled) + ds && old(running) <= running
      ensures r == 0 ==> forall d: Dir :: d in ds ==> (d in running <==> Clear(d))
    {
      var impl := set d: Dir | d in ds && Clear(d);
      enabled := enabled + ds;
      var ok := true;
      if impl != {} {
        ok := StartBackend(impl);
      }
      forall d: Dir
        ensures d in running <==> d in enabled && Clear(d) && d !in failed
        ensures ok && d in ds && Clear(d) ==> d in running
      {
        assert d in impl <==> d in ds && Clear(d);
      }
      r := if ok then 0 else -1;
    }

    /** bufferevent_disable */
    method Disable(ds: set<Dir>)
      requires Valid()
      modifies `enabled, `running
      ensures Valid() && enabled == old(enabled) - ds && running == old(running) - ds
    {
      enabled := enabled - ds;
      running := running - ds;
    }

    /** bufferevent_suspend_read_ and bufferevent_suspend_write_: the backend stops on the first
        reason. */
    method Suspend(d: Dir, why: Why)
      requires Runs()
      modifies `suspended, `running
      ensures Runs() && suspended == old(suspended) + {(d, why)} && running == old(running) - {d}
    {
      if Clear(d) {
        running := running - {d};
      }
      suspended := suspended + {(d, why)};
    }

    /** bufferevent_unsuspend_read_ and bufferevent_unsuspend_write_: the backend starts when the
        last reason goes, if the user has enabled the direction. */
    method Unsuspend(d: Dir, why: Why)
      requires Runs()
      modifies `suspended, `running, `failed
      ensures Runs() && suspended == old(suspended) - {(d, why)}
      ensures forall x: Dir :: x != d ==> (x in running <==> x in old(running)) && (x in failed <==> x in old(failed))
    {
      suspended := suspended - {(d, why)};
      if Clear(d) && d in enabled {
        var _ := StartBackend({d});
      }
    }

    /** Suspends or unsuspends a direction for bandwidth as its limit demands. */
    method Judge(d: Dir) returns (empty: bool)
      requires Runs()
      modifies `suspended, `running, `failed
      ensures Runs() && empty == (bucket.limit.Of(d) <= 0)
      ensures suspended == if empty then old(suspended) + {(d, Bandwidth)} else old(suspended) - {(d, Bandwidth)}
    {
      hide Runs;
      empty := bucket.limit.Of(d) <= 0;
      if empty {
        Suspend(d, Bandwidth);
      } else {
        Unsuspend(d, Bandwidth);
      }
    }

    method JudgeBoth(memory: bool)
      requires Runs()
      modifies `suspended, `running, `failed, `timer, `stalled
      ensures Runs() && forall d: Dir :: (d, Bandwidth) in suspended <==> bucket.limit.Of(d) <= 0
      ensures forall d: Dir, w: Why :: w != Bandwidth ==> ((d, w) in suspended <==> (d, w) in old(suspended))
      ensures if bucket.limit.read <= 0 || bucket.limit.write <= 0
              then timer == (old(timer) || memory) && stalled == !timer
              else timer == old(timer) && !stalled
    {
      hide Runs;
      var again := Judge(Read);
      var more := Judge(Write);
      stalled := false;
      if again || more {
        var _ := AddTimer(memory);
      }
      forall d: Dir
        ensures (d, Bandwidth) in suspended <==> bucket.limit.Of(d) <= 0
      {
        assert d == Read || d == Write;
      }
    }

    /** bufferevent_set_rate_limit; `same` says that c is the configuration already in use.  That
        the timer cannot be set goes unnoticed. */
    method SetRateLimit(c: Option<Cfg>, same: bool, tick: int, memory: bool)
      requires Valid() && 0 <= tick < TWO32 && (c.Some? ==> c.value.Ok()) && (same ==> c.Some? && cfg == c)
      modifies this
      ensures Valid() && cfg == c && (!same || old(Covered()) ==> Covered())
      ensures forall d: Dir, w: Why :: w != Bandwidth ==> ((d, w) in suspended <==> (d, w) in old(suspended))
      ensures same ==> bucket == old(bucket) && suspended == old(suspended) && timer == old(timer)
      ensures c.Some? && !same ==> forall d: Dir :: (d, Bandwidth) in suspended <==> bucket.limit.Of(d) <= 0
      ensures c.Some? && !same ==>
        (timer || stalled <==> (Read, Bandwidth) in suspended || (Write, Bandwidth) in suspended) && !(timer && stalled)
      ensures c.Some? && !same && memory ==> !stalled
      ensures c.Some? && !same && old(cfg) == None ==> bucket == Bucket(c.value.rate, tick)
      ensures c.Some? && !same && old(cfg).Some? ==>
        forall d: Dir :: bucket.limit.Of(d) == Min(old(bucket).limit.Of(d), c.value.maximum.Of(d))
      ensures firing ==> old(firing)
    {
      hide Runs;
      if c == None {
        cfg := None;
        Unsuspend(Read, Bandwidth);
        Unsuspend(Write, Bandwidth);
        DelTimer();
        assert (Read, Bandwidth) !in suspended && (Write, Bandwidth) !in suspended;
        forall d: Dir
          ensures (d, Bandwidth) !in suspended
        {
          assert d == Read || d == Write;
        }
        return;
      }
      if same {
        return;
      }
      var reinit := cfg != None;
      cfg := c;
      bucket := Init(bucket, c.value, tick, reinit);
      if reinit {
        DelTimer();
      }
      JudgeBoth(memory);
    }

    /** bufferevent_update_buckets */
    method UpdateBuckets(tick: int)
      requires Valid() && cfg.Some? && 0 <= tick < TWO32
      modifies `bucket
      ensures Valid() && bucket == Updated(old(bucket), cfg.value, tick)
      ensures old(Covered()) ==> (Covered() <==> !old(Overturned(tick)))
    {
      hide Updated, Runs, Bucket.Turning;
      NoTicks(bucket, cfg.value, tick);
      if old(Covered()) {
        StillCovered(bucket, cfg.value, tick, suspended);
      }
      if tick != bucket.last {
        bucket := Update(bucket, cfg.value, tick);
      }
    }

    /** The part of bufferevent_decrement_read_buckets_ and of its twin for writing that deals
        with the bufferevent's own bucket. */
    method Decrement(d: Dir, bytes: int, memory: bool) returns (r: int)
      requires Valid() && (cfg.Some? ==> SSIZE_MIN <= bucket.limit.Of(d) - bytes <= SSIZE_MAX)
      modifies this
      ensures Valid() && cfg == old(cfg) && (old(Covered()) ==> Covered())
      ensures cfg.Some? ==> bucket == old(bucket).(limit := old(bucket).limit.With(d, old(bucket).limit.Of(d) - bytes))
      ensures cfg.Some? ==> ((d, Bandwidth) in suspended <==> bucket.limit.Of(d) <= 0)
      ensures forall x: (Dir, Why) :: x != (d, Bandwidth) ==> (x in suspended <==> x in old(suspended))
      ensures r == if cfg.Some? && bucket.limit.Of(d) <= 0 && !old(timer) && !memory then -1 else 0
      ensures cfg.Some? && bucket.limit.Of(d) <= 0 ==> stalled == (r == -1) && timer == (r == 0)
      ensures !(cfg.Some? && bucket.limit.Of(d) <= 0) ==> stalled == old(stalled)
      ensures firing ==> old(firing)
    {
      hide Runs;
      r := 0;
      if cfg.Some? {
        var other := if d == Read then Write else Read;
        ChargedOk(bucket, d, bucket.limit.Of(d) - bytes);
        bucket := bucket.(limit := bucket.limit.With(d, bucket.limit.Of(d) - bytes));
        if bucket.limit.Of(d) <= 0 {
          Suspend(d, Bandwidth);
          r := AddTimer(memory);
        } else if (d, Bandwidth) in suspended {
          if (other, Bandwidth) !in suspended {
            DelTimer();
          }
          Unsuspend(d, Bandwidth);
        }
        forall x: Dir
          ensures (x, Bandwidth) in suspended ==> timer || firing || stalled
          ensures old(Covered()) && bucket.limit.Of(x) <= 0 ==> (x, Bandwidth) in suspended
        {
          assert x == d || x == other;
        }
      }
    }

    /** One direction of bev_refill_callback_: whether it has to be looked at again. */
    method Relieve(d: Dir) returns (again: bool)
      requires Runs()
      modifies `suspended, `running, `failed
      ensures Runs() && again == ((d, Bandwidth) in suspended)
      ensures suspended == if 0 < bucket.limit.Of(d) then old(suspended) - {(d, Bandwidth)} else old(suspended)
    {
      hide Runs;
      again := false;
      if (d, Bandwidth) in suspended {
        if bucket.limit.Of(d) > 0 {
          Unsuspend(d, Bandwidth);
        } else {
          again := true;
        }
      } else {
        assert suspended - {(d, Bandwidth)} == suspended;
      }
    }

    /** bev_refill_callback_; that the timer cannot be set again goes unnoticed. */
    method RefillCallback(tick: int, memory: bool)
      requires Valid() && firing && 0 <= tick < TWO32
      modifies this
      ensures Valid() && cfg == old(cfg) && !firing
      ensures old(Covered()) ==> (Covered() <==> !old(Overturned(tick)))
      ensures cfg == None ==> suspended == old(suspended) && bucket == old(bucket) && !timer
      ensures cfg.Some? ==> bucket == Updated(old(bucket), cfg.value, tick)
      ensures cfg.Some? ==> forall d: Dir :: (d, Bandwidth) in suspended <==>
          (d, Bandwidth) in old(suspended) && bucket.limit.Of(d) <= 0
      ensures forall x: (Dir, Why) :: x.1 != Bandwidth ==> (x in suspended <==> x in old(suspended))
      ensures cfg.Some? && ((Read, Bandwidth) in suspended || (Write, Bandwidth) in suspended) ==>
        timer == (old(timer) || memory) && stalled == !timer
      ensures !(cfg.Some? && ((Read, Bandwidth) in suspended || (Write, Bandwidth) in suspended)) ==>
        timer == old(timer) && stalled == old(stalled)
    {
      hide Runs, Updated, Bucket.Turning;
      firing := false;
      if cfg == None {
        return;
      }
      if old(Covered()) {
        StillCovered(bucket, cfg.value, tick, suspended);
      }
      bucket := Update(bucket, cfg.value, tick);
      var again := Relieve(Read);
      var more := Relieve(Write);
      if again || more {
        var _ := AddTimer(memory);
      }
      forall d: Dir
        ensures (d, Bandwidth) in suspended ==> timer || stalled
      {
        assert d == Read || d == Write;
      }
    }
  }

  lemma NoTicks(b: Bucket, cfg: Cfg, tick: int)
    ensures tick == b.last ==> Updated(b, cfg, tick) == b
  {
  }

  /** What an update does to the directions that are not suspended. */
  lemma StillCovered(b: Bucket, cfg: Cfg, tick: int, suspended: set<(Dir, Why)>)
    requires cfg.Ok() && b.Ok() && 0 <= tick < TWO32
    requires forall d: Dir :: b.limit.Of(d) <= 0 ==> (d, Bandwidth) in suspended
    ensures forall d: Dir :: (d, Bandwidth) !in suspended ==>
      (Updated(b, cfg, tick).limit.Of(d) <= 0 <==> b.Turning(cfg, tick, d, 1))
  {
    hide Updated, Bucket.Turning;
    forall d: Dir | (d, Bandwidth) !in suspended
      ensures Updated(b, cfg, tick).limit.Of(d) <= 0 <==> b.Turning(cfg, tick, d, 1)
    {
      UpdatedKeeps(b, cfg, tick, d, 1);
    }
  }

  /** No refill is lost while the timer can be set: if nothing more is charged, it fires only a
      bounded number of times, however late each time, and then no direction is suspended for
      bandwidth. */
  method RefillUntilClear(bev: Bufferevent) returns (rounds: nat)
    requires bev.Valid() && !bev.stalled && (bev.cfg.Some? ==> bev.bucket.Within(bev.cfg.value))
    modifies bev
    ensures rounds <= old(Missing(bev.bucket.limit.read) + Missing(bev.bucket.limit.write)) + 2
    ensures bev.Valid() && !bev.timer && forall d: Dir :: (d, Bandwidth) !in bev.suspended
    ensures bev.cfg == old(bev.cfg)
  {
    hide Bufferevent.Valid, Bucket.Within, Left;
    rounds := 0;
    LeftBound(bev);
    while bev.timer || bev.firing
      invariant bev.Valid() && bev.cfg == old(bev.cfg) && !bev.stalled
      invariant bev.cfg.Some? ==> bev.bucket.Within(bev.cfg.value)
      invariant rounds + Left(bev) <= old(Left(bev))
      decreases Left(bev)
    {
      RefillRound(bev);
      rounds := rounds + 1;
    }
    LeftBound(bev);
    Unlimited(bev);
  }

  /** What is left to do: to fill both directions, to fire and to run. */
  ghost function Left(bev: Bufferevent): nat
    reads bev`bucket, bev`timer, bev`firing
  {
    Missing(bev.bucket.limit.read) + Missing(bev.bucket.limit.write)
    + (if bev.timer then 1 else 0) + (if bev.firing then 1 else 0)
  }

  lemma LeftBound(bev: Bufferevent)
    ensures Left(bev) <= Missing(bev.bucket.limit.read) + Missing(bev.bucket.limit.write) + 2
  {
  }

  lemma Unlimited(bev: Bufferevent)
    requires bev.Valid() && !bev.timer && !bev.firing && !bev.stalled
    ensures forall d: Dir :: (d, Bandwidth) !in bev.suspended
  {
  }

  /** The timer fires, sooner or later, and its callback runs. */
  method RefillRound(bev: Bufferevent)
    requires bev.Valid() && !bev.stalled && (bev.timer || bev.firing)
    requires bev.cfg.Some? ==> bev.bucket.Within(bev.cfg.value)
    modifies bev
    ensures bev.Valid() && bev.cfg == old(bev.cfg) && !bev.stalled && Left(bev) < old(Left(bev))
    ensures bev.cfg.Some? ==> bev.bucket.Within(bev.cfg.value)
  {
    hide Updated, Bucket.Within, Bufferevent.Runs, Bufferevent.Covered, Bufferevent.Overturned;
    if !bev.firing {
      bev.Fire();
    }
    var later :| 1 <= later <= INT_MAX;
    var tick := (bev.bucket.last + later) % TWO32;
    if bev.cfg.Some? {
      Advanced(bev.bucket.last, later);
      Progress(bev.bucket, bev.cfg.value, tick, later);
      UpdatedOk(bev.bucket, bev.cfg.value, tick);
    }
    bev.RefillCallback(tick, true);
    assert bev.bucket.limit.Of(Read) == bev.bucket.limit.read && bev.bucket.limit.Of(Write) == bev.bucket.limit.write;
  }

  /** How far a limit is from being positive. */
  function Missing(limit: int): nat {
    if limit <= 0 then 1 - limit else 0
  }

  lemma Progress(b: Bucket, cfg: Cfg, tick: int, n: int)
    requires cfg.Ok() && b.Ok() && b.Within(cfg) && 0 <= tick < TWO32 && Since(tick, b.last) == n && 1 <= n <= INT_MAX
    ensures forall d: Dir :: Missing(Updated(b, cfg, tick).limit.Of(d)) <= Missing(b.limit.Of(d))
    ensures forall d: Dir :: b.limit.Of(d) <= 0 ==> Missing(Updated(b, cfg, tick).limit.Of(d)) < Missing(b.limit.Of(d))
  {
    hide Updated;
    forall d: Dir
      ensures b.limit.Of(d) < Updated(b, cfg, tick).limit.Of(d)
              || Updated(b, cfg, tick).limit.Of(d) == cfg.maximum.Of(d)
      ensures 1 <= cfg.maximum.Of(d) && b.limit.Of(d) <= Updated(b, cfg, tick).limit.Of(d)
    {
      UpdatedDir(b, cfg, tick, d);
      AtLeast(n, cfg.rate.Of(d));
    }
  }

  /** A bufferevent with this rate is charged -1 when its bucket is full, and after one tick it has
      a negative limit and is not suspended. */
  method Overturn() returns (bev: Bufferevent)
    ensures fresh(bev) && bev.Valid() && bev.cfg.Some?
    ensures bev.bucket.limit.read < 0 && (Read, Bandwidth) !in bev.suspended
  {
    bev := new Bufferevent();
    var half: int := 0x4000_0000_0000_0000;
    var cfg := Cfg(PerDir(half, half), PerDir(half, half));
    assert forall d: Dir :: 1 <= cfg.rate.Of(d) <= cfg.maximum.Of(d) <= SSIZE_MAX;
    bev.SetRateLimit(Some(cfg), false, 0, true);
    var _ := bev.Decrement(Read, -1, true);
    bev.UpdateBuckets(1);
  }

  /** A bucket charged empty while the timer cannot be set stays suspended without a refill. */
  method Stall() returns (bev: Bufferevent, r: int)
    ensures fresh(bev) && bev.Valid() && r == -1 && (Read, Bandwidth) in bev.suspended && !bev.timer && !bev.firing
  {
    bev := new Bufferevent();
    var cfg := Cfg(PerDir(1, 1), PerDir(1, 1));
    assert forall d: Dir :: 1 <= cfg.rate.Of(d) <= cfg.maximum.Of(d) <= SSIZE_MAX;
    bev.SetRateLimit(Some(cfg), false, 0, true);
    r := bev.Decrement(Read, 1, false);
  }
}
