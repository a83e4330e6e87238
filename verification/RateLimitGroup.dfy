/** A rate-limiting group: the steps of its members' threads and of its own timer, in any
    order.  A bufferevent is a number; `holder` says which thread holds its lock.  Whoever holds
    the group's lock works through a task step by step, and others take and give back the locks
    of members, and end joining or leaving, between its steps. */
module RateLimitGroup {
  import opened Common
  import opened TailQueue
  import opened TokenBucket

  /** What the thread t that holds the group's lock is doing: looking at the directions that a
      refill may unsuspend, unsuspending the members in `order` with i of them visited, or
      suspending the members with `done` of them visited.  `dirs` is what is left of a refill. */
  datatype Task =
    | Free
    | Refilling(t: nat, dirs: seq<Dir>)
    | Sweeping(t: nat, dirs: seq<Dir>, d: Dir, order: seq<nat>, i: nat, again: bool)
    | Suspending(t: nat, d: Dir, done: nat)

  /** The members from a given one on, and then those before it. */
  function Rotated(members: seq<nat>, which: nat): seq<nat>
    requires which <= |members|
  {
    members[which..] + members[..which]
  }

  /** FOREACH_RANDOM_ORDER: every member has its turn exactly once, whatever the start. */
  lemma RotatedOnce(members: seq<nat>, which: nat)
    requires NoDup(members) && which <= |members|
    ensures var order := Rotated(members, which);
            |order| == |members| && NoDup(order) && multiset(order) == multiset(members)
            && forall b :: b in order <==> b in members
  {
    var order := Rotated(members, which);
    assert members == members[..which] + members[which..];
    forall i, j | 0 <= i < j < |order|
      ensures order[i] != order[j]
    {
      var n := |members| - which;
      assert order[i] == members[if i < n then which + i else i - n];
      assert order[j] == members[if j < n then which + j else j - n];
    }
    forall b
      ensures b in order <==> b in members
    {
      assert b in order <==> b in multiset(order);
      assert b in members <==> b in multiset(members);
    }
  }

  /** Who is left after one more visit. */
  lemma Visited(q: seq<nat>, i: nat)
    requires NoDup(q) && i < |q|
    ensures forall c :: c in q[i + 1..] <==> c in q[i..] && c != q[i]
  {
    assert q[i..] == [q[i]] + q[i + 1..];
  }

  class Group {
    var members: seq<nat>
    var nMembers: int
    var cfg: Cfg
    var bucket: Bucket
    /** read_suspended and write_suspended */
    var suspended: set<Dir>
    /** pending_unsuspend_read and pending_unsuspend_write */
    var pending: set<Dir>
    var minShare: int
    var configuredMinShare: int
    /** The bufferevents that carry BEV_SUSPEND_BW_GROUP. */
    var flagged: set<(nat, Dir)>
    var holder: map<nat, nat>
    /** Members that found the group suspended when they joined it and have yet to suspend
        themselves. */
    var joining: set<(nat, Dir)>
    /** Bufferevents that left the group and have yet to clear their flags. */
    var leaving: set<nat>
    /** Bufferevents that left the group while they were being destroyed. */
    var gone: set<nat>
    var task: Task

    /** Somebody will look after b, suspended in direction d: the group is suspended or its
        unsuspension is pending; in the middle of a sweep, b has yet to be visited or the sweep
        will leave an unsuspension pending. */
    ghost predicate Tended(b: nat, d: Dir)
      reads `suspended, `pending, `task
    {
      if task.Sweeping? && task.d == d then task.again || (task.i <= |task.order| && b in task.order[task.i..])
      else d in suspended || d in pending
    }

    /** Nobody is forgotten: see Tended. */
    ghost predicate Cared()
      reads `members, `nMembers, `suspended, `pending, `flagged, `holder, `joining, `leaving, `gone, `task
    {
      && NoDup(members) && nMembers == |members|
      && (forall b, d :: (b, d) in flagged ==> (b in members && Tended(b, d)) || b in leaving || b in gone)
      && (forall b, d :: (b, d) in joining ==> b in members && b in holder && Tended(b, d))
      && (forall b :: b in leaving ==> b !in members && b in holder)
      && (forall b :: b in gone ==> b !in members)
      && (forall d: Dir :: d in pending ==> d !in suspended)
      && TaskOk()
    }

    ghost predicate RatesOk()
      reads `cfg, `bucket, `minShare, `configuredMinShare
    {
      && 0 <= configuredMinShare <= SSIZE_MAX
      && cfg.Ok() && bucket.Ok()
      && 0 <= minShare && (forall d: Dir :: minShare <= cfg.rate.Of(d))
    }

    /** A direction that is overdrawn is suspended. */
    ghost predicate Covered()
      reads `bucket, `suspended
    {
      forall d: Dir :: bucket.limit.Of(d) < 0 ==> d in suspended
    }

    /** A refill at this tick overdraws a direction that is not suspended. */
    ghost predicate Overturned(tick: int)
      reads `cfg, `bucket, `suspended
    {
      exists d: Dir :: d !in suspended && bucket.Turning(cfg, tick, d, 0)
    }

    ghost predicate Valid()
      reads this
    {
      Cared() && RatesOk()
    }

    ghost predicate TaskOk()
      reads `members, `suspended, `holder, `joining, `leaving, `task
    {
      match task
      case Free => true
      case Refilling(t, _) => Idle(t)
      case Sweeping(t, _, d, order, i, _) =>
        Idle(t) && d !in suspended && i <= |order| && NoDup(order) && forall b :: b in order <==> b in members
      case Suspending(t, d, done) => Idle(t) && d in suspended && done <= |members|
    }

    /** Thread t is between no two steps of joining or leaving. */
    predicate Idle(t: nat)
      reads `holder, `joining, `leaving
    {
      && (forall x :: x in joining && x.0 in holder ==> holder[x.0] != t)
      && (forall b :: b in leaving && b in holder ==> holder[b] != t)
    }

    /** Thread t does not hold the group's lock. */
    predicate Outside(t: nat)
      reads this
    {
      task == Free || task.t != t
    }

    /** bufferevent_rate_limit_group_new */
    constructor (cfg: Cfg, tick: int)
      requires cfg.Ok() && 0 <= tick < TWO32
      ensures Valid() && members == [] && flagged == {} && suspended == {} && holder == map[] && task == Free
      ensures Covered() && bucket.Within(cfg)
    {
      this.cfg := cfg;
      members, nMembers, suspended, pending := [], 0, {}, {};
      bucket := Bucket(cfg.rate, tick);
      flagged, holder, joining, leaving, gone, task := {}, map[], {}, {}, {}, Free;
      var m := Min(64, Min(cfg.rate.read, cfg.rate.write));
      minShare, configuredMinShare := m, 64;
      new;
      assert forall d: Dir :: 1 <= cfg.rate.Of(d) <= cfg.maximum.Of(d);
      assert cfg.rate.Of(Read) == cfg.rate.read && cfg.rate.Of(Write) == cfg.rate.write;
    }

    /** bufferevent_rate_limit_group_set_min_share, which takes no lock */
    method SetMinShare(share: nat) returns (r: int)
      requires Valid()
      modifies `minShare, `configuredMinShare
      ensures Valid() && (r == -1 <==> SSIZE_MAX < share) && (r == 0 || r == -1)
      ensures r == 0 ==> configuredMinShare == share && minShare == Min(share, Min(cfg.rate.read, cfg.rate.write))
      ensures r == 0 ==> 0 <= minShare && forall d: Dir :: minShare <= cfg.rate.Of(d)
      ensures r == -1 ==> minShare == old(minShare)
    {
      hide Cared;
      if share > SSIZE_MAX {
        return -1;
      }
      configuredMinShare := share;
      minShare := share;
      if minShare > cfg.rate.read {
        minShare := cfg.rate.read;
      }
      if minShare > cfg.rate.write {
        minShare := cfg.rate.write;
      }
      assert forall d: Dir :: 1 <= cfg.rate.Of(d);
      assert cfg.rate.Of(Read) == cfg.rate.read && cfg.rate.Of(Write) == cfg.rate.write;
      return 0;
    }

    method Acquire(b: nat, t: nat)
      requires Valid() && b !in holder && Idle(t) && Outside(t)
      modifies `holder
      ensures Valid() && holder == old(holder)[b := t] && Idle(t)
    {
      holder := holder[b := t];
    }

    method Release(b: nat, t: nat)
      requires Valid() && b in holder && holder[b] == t && Idle(t)
      modifies `holder
      ensures Valid() && holder == old(holder) - {b} && Idle(t)
    {
      holder := holder - {b};
    }

    /** bufferevent_add_to_rate_limit_group, while it holds the group's lock. */
    method JoinStart(b: nat, t: nat)
      requires Valid() && task == Free && b in holder && holder[b] == t && Idle(t) && b !in members && b !in gone
      modifies `members, `nMembers, `joining
      ensures Valid() && members == [b] + old(members)
      ensures joining == old(joining) + set d: Dir | d in suspended :: (b, d)
    {
      nMembers := nMembers + 1;
      members := [b] + members;
      joining := joining + set d: Dir | d in suspended :: (b, d);
    }

    /** The rest of bufferevent_add_to_rate_limit_group, without the group's lock. */
    method JoinEnd(b: nat, t: nat)
      requires Valid() && b in holder && holder[b] == t
      modifies `flagged, `joining
      ensures Valid() && (forall x :: x in joining <==> x in old(joining) && x.0 != b)
      ensures forall x :: x in flagged <==> x in old(flagged) || (x.0 == b && x in old(joining))
    {
      BothDirs(b);
      flagged := flagged + set d: Dir | (b, d) in joining :: (b, d);
      joining := joining - {(b, Read), (b, Write)};
    }

    /** bufferevent_remove_from_rate_limit_group_internal_, while it holds the group's lock. */
    method LeaveStart(b: nat, t: nat)
      requires Valid() && task == Free && b in holder && holder[b] == t && Idle(t) && b in members
      modifies `members, `nMembers, `leaving
      ensures Valid() && b !in members && leaving == old(leaving) + {b} && members == Removed(old(members), b)
      ensures forall c :: c in members <==> c in old(members) && c != b
    {
      RemovedIs(members, b);
      nMembers := nMembers - 1;
      members := Removed(members, b);
      leaving := leaving + {b};
    }

    /** The rest of it, without the group's lock: the flags go, unless the bufferevent is being
        destroyed. */
    method LeaveEnd(b: nat, t: nat, unsuspend: bool)
      requires Valid() && b in leaving && holder[b] == t
      modifies `flagged, `leaving, `gone
      ensures Valid() && leaving == old(leaving) - {b} && gone == old(gone) + if unsuspend then {} else {b}
      ensures forall x :: x in flagged <==> x in old(flagged) && !(unsuspend && x.0 == b)
    {
      BothDirs(b);
      if unsuspend {
        flagged := flagged - {(b, Read), (b, Write)};
      } else {
        gone := gone + {b};
      }
      leaving := leaving - {b};
    }

    /** The group's part of bufferevent_get_rlim_max_: what member b may transfer, given what
        its own bucket allows. */
    method GetRlimMax(b: nat, d: Dir, t: nat, own: int) returns (r: int)
      requires Valid() && task == Free && b in members && b in holder && holder[b] == t && Idle(t)
      modifies `flagged
      ensures Valid() && 0 <= r && (0 <= own ==> r <= own)
      ensures d in suspended ==> r == 0 && flagged == old(flagged) + {(b, d)}
      ensures d !in suspended ==> flagged == old(flagged)
      ensures d !in suspended && minShare <= bucket.limit.Of(d) / |members| ==> |members| * r <= bucket.limit.Of(d)
      ensures d !in suspended && minShare <= own ==> minShare <= r
      ensures d !in suspended && 0 <= own && minShare <= bucket.limit.Of(d) / |members| ==>
        r == Min(own, bucket.limit.Of(d) / |members|)
    {
      var share;
      if d in suspended {
        flagged := flagged + {(b, d)};
        share := 0;
      } else {
        share := Truncated(bucket.limit.Of(d), nMembers);
        ShareFits(bucket.limit.Of(d), nMembers);
        if share < minShare {
          share := minShare;
        }
      }
      r := if own > share then share else own;
      if r < 0 {
        r := 0;
      }
      if d !in suspended && minShare <= bucket.limit.Of(d) / |members| {
        Monotone(|members|, r, bucket.limit.Of(d) / |members|);
      }
    }

    /** bufferevent_rate_limit_group_set_cfg */
    method SetCfg(c: Cfg)
      requires Valid() && task == Free && c.Ok()
      modifies `cfg, `bucket, `minShare, `configuredMinShare
      ensures Valid() && cfg == c && bucket.last == old(bucket).last && bucket.Within(c)
      ensures (old(Covered()) ==> Covered())
      ensures forall d: Dir :: bucket.limit.Of(d) == Min(old(bucket).limit.Of(d), c.maximum.Of(d))
      ensures minShare == Min(configuredMinShare, Min(c.rate.read, c.rate.write))
    {
      hide Cared;
      assert forall d: Dir :: 1 <= c.rate.Of(d) <= c.maximum.Of(d) <= SSIZE_MAX;
      cfg := c;
      bucket := bucket.(limit := PerDir(Min(bucket.limit.read, c.maximum.read),
                                        Min(bucket.limit.write, c.maximum.write)));
      assert forall d: Dir :: bucket.limit.Of(d) == Min(old(bucket).limit.Of(d), c.maximum.Of(d));
      minShare := Min(configuredMinShare, Min(c.rate.read, c.rate.write));
      assert cfg.rate.Of(Read) == cfg.rate.read && cfg.rate.Of(Write) == cfg.rate.write;
    }

    /** bev_group_unsuspend_reading_ and bev_group_unsuspend_writing_, up to the loop, which
        starts at a random member. */
    method StartSweep(d: Dir, t: nat, dirs: seq<Dir>, which: nat)
      requires Valid() && Idle(t) && !task.Sweeping? && which <= |members|
      modifies `suspended, `task
      ensures Valid() && suspended == old(suspended) - {d} && (old(Covered()) && 0 <= bucket.limit.Of(d) ==> Covered())
      ensures task == Sweeping(t, dirs, d, Rotated(members, which), 0, false)
    {
      hide RatesOk, Rotated;
      RotatedOnce(members, which);
      suspended := suspended - {d};
      task := Sweeping(t, dirs, d, Rotated(members, which), 0, false);
      assert task.order[0..] == task.order;
    }

    /** One member's turn in a sweep. */
    method VisitOne()
      requires Valid() && task.Sweeping? && task.i < |task.order|
      modifies `flagged, `task
      ensures Valid()
      ensures var k := old(task);
              var free := TryLock(holder, k.order[k.i], k.t);
              && task == k.(i := k.i + 1, again := k.again || !free)
              && flagged == old(flagged) - if free then {(k.order[k.i], k.d)} else {}
    {
      hide RatesOk, NoDup;
      assert flagged - {} == flagged;
      var b := task.order[task.i];
      Visited(task.order, task.i);
      if TryLock(holder, b, task.t) {
        flagged := flagged - {(b, task.d)};
        task := task.(i := task.i + 1);
      } else {
        task := task.(i := task.i + 1, again := true);
      }
    }

    /** The end of a sweep. */
    method EndSweep()
      requires Valid() && task.Sweeping? && task.i == |task.order|
      modifies `pending, `task
      ensures Valid()
      ensures pending == (if old(task).again then old(pending) + {old(task).d} else old(pending) - {old(task).d})
      ensures task == if old(task).dirs == [] then Free else Refilling(old(task).t, old(task).dirs)
      ensures !old(task).again ==> forall b :: b in members ==> (b, old(task).d) !in flagged
    {
      assert task.order[task.i..] == [];
      pending := if task.again then pending + {task.d} else pending - {task.d};
      task := if task.dirs == [] then Free else Refilling(task.t, task.dirs);
    }

    /** One member's turn in bev_group_suspend_reading_ or bev_group_suspend_writing_: those
        that cannot be locked find out when they look at their limit. */
    method SuspendOne()
      requires Valid() && task.Suspending? && task.done < |members|
      modifies `flagged, `task
      ensures Valid() && task == old(task).(done := old(task).done + 1)
      ensures var k := old(task);
              flagged == old(flagged) + if TryLock(holder, members[k.done], k.t) then {(members[k.done], k.d)} else {}
    {
      if TryLock(holder, members[task.done], task.t) {
        flagged := flagged + {(members[task.done], task.d)};
      }
      task := task.(done := task.done + 1);
    }

    method EndSuspend()
      requires Valid() && task.Suspending? && task.done == |members|
      modifies `task
      ensures Valid() && task == Free
    {
      task := Free;
    }

    /** The group's part of bufferevent_decrement_read_buckets_ and its twin for writing, up to
        the loop over the members. */
    method StartCharge(d: Dir, bytes: int, t: nat, which: nat)
      requires Valid() && task == Free && Idle(t) && which <= |members|
      requires SSIZE_MIN <= bucket.limit.Of(d) - bytes <= SSIZE_MAX
      modifies `bucket, `suspended, `pending, `task
      ensures Valid() && (old(Covered()) ==> Covered())
      ensures bucket == old(bucket).(limit := old(bucket).limit.With(d, old(bucket).limit.Of(d) - bytes))
      ensures d in suspended <==> bucket.limit.Of(d) <= 0
      ensures forall x: Dir :: x != d ==>
        (x in suspended <==> x in old(suspended)) && (x in pending <==> x in old(pending))
      ensures task == if bucket.limit.Of(d) <= 0 then Suspending(t, d, 0)
                      else if d in old(suspended) then Sweeping(t, [], d, Rotated(members, which), 0, false) else Free
    {
      hide Cared, RatesOk, Idle, Rotated;
      var limit := bucket.limit.Of(d) - bytes;
      ChargedOk(bucket, d, limit);
      SetLimit(d, limit);
      if limit <= 0 {
        StartSuspend(d, t);
      } else if d in suspended {
        StartSweep(d, t, [], which);
      }
    }

    method SetLimit(d: Dir, limit: int)
      requires Valid() && SSIZE_MIN <= limit <= SSIZE_MAX
      modifies `bucket
      ensures Valid() && bucket == old(bucket).(limit := old(bucket).limit.With(d, limit))
    {
      hide Cared;
      ChargedOk(bucket, d, limit);
      bucket := bucket.(limit := bucket.limit.With(d, limit));
    }

    /** bev_group_suspend_reading_ and bev_group_suspend_writing_, up to the loop. */
    method StartSuspend(d: Dir, t: nat)
      requires Valid() && task == Free && Idle(t)
      modifies `suspended, `pending, `task
      ensures Valid() && suspended == old(suspended) + {d} && pending == old(pending) - {d}
      ensures task == Suspending(t, d, 0)
    {
      hide RatesOk;
      suspended := suspended + {d};
      pending := pending - {d};
      task := Suspending(t, d, 0);
    }

    /** bev_group_refill_callback_, up to where it looks at the directions. */
    method StartRefill(tick: int, t: nat)
      requires Valid() && task == Free && Idle(t) && 0 <= tick < TWO32
      modifies `bucket, `task
      ensures Valid() && bucket == Updated(old(bucket), cfg, tick) && task == Refilling(t, [Read, Write])
      ensures old(Covered()) ==> (Covered() <==> !old(Overturned(tick)))
    {
      hide Updated, Bucket.Turning, Cared;
      if old(Covered()) {
        StillCovered(bucket, cfg, tick, suspended);
      }
      bucket := Update(bucket, cfg, tick);
      BeginRefill(t);
    }

    method BeginRefill(t: nat)
      requires Valid() && task == Free && Idle(t)
      modifies `task
      ensures Valid() && task == Refilling(t, [Read, Write])
    {
      hide RatesOk;
      task := Refilling(t, [Read, Write]);
    }

    /** A refill unsuspends this direction. */
    predicate DueIn(d: Dir)
      reads this
    {
      d in pending || (d in suspended && bucket.limit.Of(d) >= minShare)
    }

    /** The next direction of a refill. */
    method NextDirection(which: nat)
      requires Valid() && task.Refilling? && which <= |members|
      modifies `suspended, `task
      ensures Valid() && (old(Covered()) ==> Covered())
      ensures var k := old(task);
              if k.dirs == [] then task == Free && suspended == old(suspended)
              else if old(DueIn(k.dirs[0])) then
                suspended == old(suspended) - {k.dirs[0]}
                && task == Sweeping(k.t, k.dirs[1..], k.dirs[0], Rotated(members, which), 0, false)
              else suspended == old(suspended) && task == if |k.dirs| == 1 then Free else Refilling(k.t, k.dirs[1..])
    {
      if task.dirs == [] {
        task := Free;
      } else if DueIn(task.dirs[0]) {
        StartSweep(task.dirs[0], task.t, task.dirs[1..], which);
      } else {
        task := if |task.dirs| == 1 then Free else Refilling(task.t, task.dirs[1..]);
      }
    }

    /** The next step of the thread that holds the group's lock. */
    method Continue(which: nat)
      requires Valid() && task != Free && which <= |members|
      modifies `flagged, `suspended, `pending, `task
      ensures Valid() && (old(Covered()) ==> Covered())
    {
      hide RatesOk, Busy, TryLock, Rotated, Tended, NoDup;
      match task {
        case Free =>
        case Refilling(_, _) =>
          NextDirection(which);
        case Sweeping(_, _, _, order, i, _) =>
          if i < |order| {
            VisitOne();
          } else {
            EndSweep();
          }
        case Suspending(_, _, done) =>
          if done < |members| {
            SuspendOne();
          } else {
            EndSuspend();
          }
      }
    }

    /** The rest of a sweep, when the locks of the members stay as they are. */
    method FinishSweep()
      requires Valid() && task.Sweeping? && !task.again && task.i == 0
      modifies `flagged, `pending, `task
      ensures Valid()
      ensures var d := old(task).d;
              pending == if Busy(holder, old(task).order, old(task).t) then old(pending) + {d} else old(pending) - {d}
      ensures task == if old(task).dirs == [] then Free else Refilling(old(task).t, old(task).dirs)
      ensures forall x :: x in flagged <==>
        x in old(flagged) && !(x.1 == old(task).d && x.0 in members && TryLock(holder, x.0, old(task).t))
    {
      hide Cared, RatesOk, TryLock;
      ghost var k := task;
      while task.i < |task.order|
        invariant Valid() && task.Sweeping? && task.i <= |k.order| && task == k.(i := task.i, again := task.again)
        invariant pending == old(pending)
        invariant task.again <==> Busy(holder, k.order[..task.i], k.t)
        invariant forall x :: x in flagged <==>
          x in old(flagged) && !(x.1 == k.d && x.0 in k.order[..task.i] && TryLock(holder, x.0, k.t))
        decreases |task.order| - task.i
      {
        BusyNext(holder, k.order, task.i, k.t);
        VisitOne();
      }
      assert k.order[..task.i] == k.order;
      SweptAll();
      EndSweep();
    }

    /** The rest of suspending the members, when their locks stay as they are. */
    method FinishSuspend()
      requires Valid() && task.Suspending? && task.done == 0
      modifies `flagged, `task
      ensures Valid() && task == Free
      ensures forall x :: x in flagged <==>
        x in old(flagged) || (x.1 == old(task).d && x.0 in members && TryLock(holder, x.0, old(task).t))
    {
      hide Cared, RatesOk, TryLock;
      ghost var k := task;
      while task.done < |members|
        invariant Valid() && task.Suspending? && task.done <= |members| && task == k.(done := task.done)
        invariant forall x :: x in flagged <==>
          x in old(flagged) || (x.1 == k.d && x.0 in members[..task.done] && TryLock(holder, x.0, k.t))
        decreases |members| - task.done
      {
        assert members[..task.done + 1] == members[..task.done] + [members[task.done]];
        SuspendOne();
      }
      assert members[..task.done] == members;
      EndSuspend();
    }

    lemma SweptAll()
      requires Valid() && task.Sweeping?
      ensures forall b :: b in task.order <==> b in members
    {
    }

    /** One direction of a refill, when the locks of the members stay as they are. */
    method Direction(which: nat)
      requires Valid() && task.Refilling? && task.dirs != [] && which <= |members|
      modifies `flagged, `suspended, `pending, `task
      ensures Valid() && (old(Covered()) ==> Covered())
      ensures var k := old(task);
              task == if |k.dirs| == 1 then Free else Refilling(k.t, k.dirs[1..])
      ensures var d := old(task).dirs[0];
              && (d in suspended <==> d in old(suspended) && bucket.limit.Of(d) < minShare)
              && (d in pending <==> Busy(holder, members, old(task).t) && old(DueIn(d)))
              && (forall x :: x != d ==>
                    (x in suspended <==> x in old(suspended)) && (x in pending <==> x in old(pending)))
    {
      hide Busy, RatesOk, Tended, TaskOk, NoDup, Rotated;
      BusyRotated(holder, members, which, task.t);
      NextDirection(which);
      if task.Sweeping? {
        FinishSweep();
      }
    }

    /** bev_group_refill_callback_, when the locks of the members stay as they are. */
    method RefillCallback(tick: int, t: nat, which: nat)
      requires Valid() && task == Free && Idle(t) && 0 <= tick < TWO32 && which <= |members|
      modifies `bucket, `suspended, `pending, `flagged, `task
      ensures Valid() && task == Free && bucket == Updated(old(bucket), cfg, tick)
      ensures old(Covered()) && !old(Overturned(tick)) ==> Covered()
      ensures forall d: Dir :: d in suspended <==> d in old(suspended) && bucket.limit.Of(d) < minShare
      ensures forall d: Dir :: d in pending <==>
        Busy(holder, members, t) && (d in old(pending) || (d in old(suspended) && minShare <= bucket.limit.Of(d)))
    {
      hide Busy, Cared, RatesOk, Updated, Overturned;
      StartRefill(tick, t);
      Direction(which);
      assert task.dirs == [Write];
      Direction(which);
    }
  }

  /** What a thread does next. */
  datatype Step =
    | Acquire(b: nat, t: nat)
    | Release(b: nat, t: nat)
    | JoinStart(b: nat, t: nat)
    | JoinEnd(b: nat, t: nat)
    | LeaveStart(b: nat, t: nat)
    | LeaveEnd(b: nat, t: nat, unsuspend: bool)
    | GetRlimMax(b: nat, d: Dir, t: nat, own: int)
    | StartCharge(d: Dir, bytes: int, t: nat, which: nat)
    | StartRefill(tick: int, t: nat)
    | Continue(which: nat)
    | SetCfg(c: Cfg)
    | SetMinShare(share: nat)

  /** Thread t holds the lock of b and is doing nothing else with the group. */
  predicate Holds(g: Group, b: nat, t: nat)
    reads g
  {
    b in g.holder && g.holder[b] == t && g.Idle(t)
  }

  /** The locks, and what the callers promise, allow the step. */
  predicate Enabled(g: Group, s: Step)
    reads g
  {
    match s
    case Acquire(b, t) => b !in g.holder && g.Idle(t) && g.Outside(t)
    case Release(b, t) => Holds(g, b, t)
    case JoinStart(b, t) => g.task == Free && Holds(g, b, t) && b !in g.members && b !in g.gone
    case JoinEnd(b, t) => b in g.holder && g.holder[b] == t
    case LeaveStart(b, t) => g.task == Free && Holds(g, b, t) && b in g.members
    case LeaveEnd(b, t, _) => b in g.leaving && b in g.holder && g.holder[b] == t
    case GetRlimMax(b, _, t, _) => g.task == Free && Holds(g, b, t) && b in g.members
    case StartCharge(d, bytes, t, which) =>
      && g.task == Free && g.Idle(t) && which <= |g.members|
      && SSIZE_MIN <= g.bucket.limit.Of(d) - bytes <= SSIZE_MAX
    case StartRefill(tick, t) => g.task == Free && g.Idle(t) && 0 <= tick < TWO32
    case Continue(which) => g.task != Free && which <= |g.members|
    case SetCfg(c) => g.task == Free && c.Ok()
    case SetMinShare(_) => true
  }

  method Take(g: Group, s: Step)
    requires g.Valid() && Enabled(g, s)
    modifies g
    ensures g.Valid()
    ensures old(g.Covered()) ==> (g.Covered() <==> !(s.StartRefill? && old(g.Overturned(s.tick))))
    ensures old(g.bucket.Within(g.cfg)) && (s.StartCharge? ==> 0 <= s.bytes) ==> g.bucket.Within(g.cfg)
  {
    hide Group.Cared, Group.RatesOk, Bucket.Turning, Updated;
    match s {
      case Acquire(b, t) =>
        g.Acquire(b, t);
      case Release(b, t) =>
        g.Release(b, t);
      case JoinStart(b, t) =>
        g.JoinStart(b, t);
      case JoinEnd(b, t) =>
        g.JoinEnd(b, t);
      case LeaveStart(b, t) =>
        g.LeaveStart(b, t);
      case LeaveEnd(b, t, unsuspend) =>
        g.LeaveEnd(b, t, unsuspend);
      case GetRlimMax(b, d, t, own) =>
        var _ := g.GetRlimMax(b, d, t, own);
      case StartCharge(d, bytes, t, which) =>
        ChargedOk(g.bucket, d, g.bucket.limit.Of(d) - bytes);
        g.StartCharge(d, bytes, t, which);
      case StartRefill(tick, t) =>
        Rates(g);
        UpdatedOk(g.bucket, g.cfg, tick);
        g.StartRefill(tick, t);
      case Continue(which) =>
        g.Continue(which);
      case SetCfg(c) =>
        g.SetCfg(c);
      case SetMinShare(share) =>
        var _ := g.SetMinShare(share);
    }
  }

  /** Whatever the order of the steps, no member stays suspended by the group without the
      group being suspended, an unsuspension pending, or a sweep on its way that deals with it. */
  method Run(g: Group, steps: seq<Step>)
    requires g.Valid()
    modifies g
    ensures g.Valid()
    ensures forall b, d :: b in g.members && (b, d) in g.flagged ==> g.Tended(b, d)
    ensures g.task == Free ==>
      forall b, d :: b in g.members && (b, d) in g.flagged ==> d in g.suspended || d in g.pending
    ensures old(g.Covered() && g.bucket.Within(g.cfg)) && Spending(steps) ==> g.Covered() && g.bucket.Within(g.cfg)
  {
    for i := 0 to |steps|
      invariant g.Valid()
      invariant old(g.Covered() && g.bucket.Within(g.cfg)) && Spending(steps) ==> g.Covered() && g.bucket.Within(g.cfg)
    {
      if Enabled(g, steps[i]) {
        if g.bucket.Within(g.cfg) {
          NeverOverturned(g);
        }
        Take(g, steps[i]);
      }
    }
  }

  /** No charge is negative. */
  predicate Spending(steps: seq<Step>) {
    forall i :: 0 <= i < |steps| && steps[i].StartCharge? ==> 0 <= steps[i].bytes
  }

  lemma NeverOverturned(g: Group)
    requires g.bucket.Within(g.cfg)
    ensures forall tick :: !g.Overturned(tick)
  {
  }

  lemma Rates(g: Group)
    requires g.Valid()
    ensures g.cfg.Ok() && g.bucket.Ok()
  {
    hide Group.Cared;
  }

  /** What a refill does to the directions that are not suspended. */
  lemma StillCovered(b: Bucket, cfg: Cfg, tick: int, suspended: set<Dir>)
    requires cfg.Ok() && b.Ok() && 0 <= tick < TWO32
    requires forall d: Dir :: b.limit.Of(d) < 0 ==> d in suspended
    ensures forall d: Dir :: d !in suspended ==> (Updated(b, cfg, tick).limit.Of(d) < 0 <==> b.Turning(cfg, tick, d, 0))
  {
    hide Updated, Bucket.Turning;
    forall d: Dir | d !in suspended
      ensures Updated(b, cfg, tick).limit.Of(d) < 0 <==> b.Turning(cfg, tick, d, 0)
    {
      UpdatedKeeps(b, cfg, tick, d, 0);
    }
  }

  /** How far a limit is below the smallest share. */
  function Short(limit: int, share: int): nat {
    if limit < share then share - limit else 0
  }

  lemma Filling(b: Bucket, cfg: Cfg, tick: int, n: int, share: int)
    requires cfg.Ok() && b.Ok() && b.Within(cfg) && 0 <= tick < TWO32 && Since(tick, b.last) == n && 1 <= n <= INT_MAX
    requires forall d: Dir :: share <= cfg.rate.Of(d)
    ensures forall d: Dir :: Short(Updated(b, cfg, tick).limit.Of(d), share) <= Short(b.limit.Of(d), share)
    ensures forall d: Dir :: b.limit.Of(d) < share ==>
      Short(Updated(b, cfg, tick).limit.Of(d), share) < Short(b.limit.Of(d), share)
  {
    hide Updated;
    forall d: Dir
      ensures b.limit.Of(d) < Updated(b, cfg, tick).limit.Of(d)
              || Updated(b, cfg, tick).limit.Of(d) == cfg.maximum.Of(d)
      ensures share <= cfg.maximum.Of(d) && b.limit.Of(d) <= Updated(b, cfg, tick).limit.Of(d)
    {
      UpdatedDir(b, cfg, tick, d);
      assert share <= cfg.rate.Of(d);
      AtLeast(n, cfg.rate.Of(d));
    }
  }

  /** If no other thread holds a member's lock and nothing more is charged, a bounded number
      of refills, however far apart, leaves no member suspended by the group. */
  method RefillUntilOpen(g: Group, t: nat) returns (rounds: nat)
    requires g.Valid() && g.task == Free && g.Idle(t) && !Busy(g.holder, g.members, t) && g.bucket.Within(g.cfg)
    modifies g`bucket, g`suspended, g`pending, g`flagged, g`task
    ensures rounds <= old(Short(g.bucket.limit.read, g.minShare) + Short(g.bucket.limit.write, g.minShare)) + 3
    ensures g.Valid() && g.suspended == {} && forall b, d :: b in g.members ==> (b, d) !in g.flagged
  {
    hide Busy, Group.Cared, Group.RatesOk, Group.Idle, Bucket.Within, Left;
    rounds := 0;
    LeftBound(g);
    while g.suspended != {} || g.pending != {}
      invariant g.Valid() && g.Idle(t) && g.task == Free && g.bucket.Within(g.cfg)
      invariant rounds + Left(g) <= old(Left(g))
      decreases Left(g)
    {
      RefillRound(g, t);
      rounds := rounds + 1;
    }
    LeftBound(g);
    Open(g);
  }

  /** What is left to do: to fill both directions, and to unsuspend. */
  ghost function Left(g: Group): nat
    reads g`bucket, g`minShare, g`suspended, g`pending
  {
    Short(g.bucket.limit.read, g.minShare) + Short(g.bucket.limit.write, g.minShare)
    + (if Read in g.suspended then 1 else 0) + (if Write in g.suspended then 1 else 0)
    + (if g.pending != {} then 1 else 0)
  }

  lemma LeftBound(g: Group)
    ensures Left(g) <= Short(g.bucket.limit.read, g.minShare) + Short(g.bucket.limit.write, g.minShare) + 3
  {
  }

  lemma Open(g: Group)
    requires g.Valid() && g.task == Free && g.suspended == {} && g.pending == {}
    ensures forall b, d :: b in g.members ==> (b, d) !in g.flagged
  {
    hide Group.RatesOk;
  }

  /** The next refill, sooner or later. */
  method RefillRound(g: Group, t: nat)
    requires g.Valid() && g.task == Free && g.Idle(t) && !Busy(g.holder, g.members, t) && g.bucket.Within(g.cfg)
    requires g.suspended != {} || g.pending != {}
    modifies g`bucket, g`suspended, g`pending, g`flagged, g`task
    ensures g.Valid() && g.task == Free && g.bucket.Within(g.cfg) && Left(g) < old(Left(g))
  {
    hide Busy, Updated, Group.Cared, Bucket.Within, Group.Covered, Group.Overturned;
    var later :| 1 <= later <= INT_MAX;
    var tick := (g.bucket.last + later) % TWO32;
    Advanced(g.bucket.last, later);
    Filling(g.bucket, g.cfg, tick, later, g.minShare);
    UpdatedOk(g.bucket, g.cfg, tick);
    SomeDir(g.suspended);
    ghost var limit := g.bucket.limit;
    assert limit.Of(Read) == limit.read && limit.Of(Write) == limit.write;
    var which :| 0 <= which <= |g.members|;
    g.RefillCallback(tick, t, which);
    SomeDir(g.pending);
    assert g.bucket.limit.Of(Read) == g.bucket.limit.read && g.bucket.limit.Of(Write) == g.bucket.limit.write;
  }

  lemma SomeDir(s: set<Dir>)
    ensures s != {} ==> Read in s || Write in s
  {
    if d :| d in s {
      assert d == Read || d == Write;
    }
  }

  lemma BothDirs(b: nat)
    ensures forall x: (nat, Dir) :: x.0 == b ==> x == (b, Read) || x == (b, Write)
  {
    forall x: (nat, Dir) | x.0 == b
      ensures x == (b, Read) || x == (b, Write)
    {
      assert x.1 == Read || x.1 == Write;
    }
  }

  /** Division as C does it. */
  function Truncated(limit: int, n: int): int
    requires 0 < n
  {
    if 0 <= limit then limit / n else -(-limit / n)
  }

  lemma ShareFits(limit: int, n: int)
    requires 0 < n
    ensures 0 <= limit ==> Truncated(limit, n) == limit / n && 0 <= limit / n && n * (limit / n) <= limit
    ensures limit < 0 ==> Truncated(limit, n) <= 0 && limit / n < 0
  {
  }

  /** EVLOCK_TRY_LOCK_: the locks are recursive. */
  predicate TryLock(holder: map<nat, nat>, b: nat, t: nat) {
    b !in holder || holder[b] == t
  }

  /** Some of these could not be locked. */
  ghost predicate Busy(holder: map<nat, nat>, bs: seq<nat>, t: nat) {
    exists i :: 0 <= i < |bs| && !TryLock(holder, bs[i], t)
  }

  lemma BusyNext(holder: map<nat, nat>, q: seq<nat>, i: nat, t: nat)
    requires i < |q|
    ensures q[..i + 1] == q[..i] + [q[i]]
    ensures Busy(holder, q[..i + 1], t) <==> Busy(holder, q[..i], t) || !TryLock(holder, q[i], t)
  {
    if j :| 0 <= j < |q[..i]| && !TryLock(holder, q[..i][j], t) {
      assert !TryLock(holder, q[..i + 1][j], t);
    }
    assert q[..i + 1][i] == q[i];
  }

  /** Whom a sweep meets does not depend on where it starts. */
  lemma BusyRotated(holder: map<nat, nat>, members: seq<nat>, which: nat, t: nat)
    requires which <= |members|
    ensures Busy(holder, Rotated(members, which), t) <==> Busy(holder, members, t)
  {
    var order, n := Rotated(members, which), |members| - which;
    if i :| 0 <= i < |order| && !TryLock(holder, order[i], t) {
      assert !TryLock(holder, members[if i < n then which + i else i - n], t);
    }
    if i :| 0 <= i < |members| && !TryLock(holder, members[i], t) {
      assert !TryLock(holder, order[if i < which then n + i else i - which], t);
    }
  }
}
