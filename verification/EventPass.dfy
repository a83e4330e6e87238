/** One pass of the event loop: due timeouts become active, active callbacks run, and those of
    persistent events are entered again. */
module EventPass {
  import opened TailQueue
  import opened ActiveQueues
  import opened Timeouts
  import opened EventLoop

  /** A timeout that `now` has reached. */
  ghost predicate DueBy(on: set<(nat, Flag)>, due: map<nat, int>, x: nat, now: int) {
    (x, Timeout) in on && Due(due, x) <= now
  }

  /** A persistent event that has run. */
  ghost predicate Repeated(info: map<nat, Info>, ran: set<nat>, x: nat) {
    x in ran && x in info && info[x].persist
  }

  /** Later than now, or a persistent event entered again at exactly now. */
  ghost predicate Fine(info: map<nat, Info>, ran: set<nat>, due: map<nat, int>, now: int, x: nat) {
    now < Due(due, x) || (Due(due, x) == now && Repeated(info, ran, x))
  }

  /** When a list's timer is set, it is for later, or for an event entered again at exactly now
      that is the first of the list; and unless the list has lost its timer, nothing in it
      is overdue. */
  ghost predicate ListFine(info: map<nat, Info>, ran: set<nat>, now: int, ctl: Ctl, on: set<(nat, Flag)>, due: map<nat,
                           int>,
                           astray: bool) {
    (ctl.timer, Timeout) in on ==>
      && now <= Due(due, ctl.timer)
      && (Due(due, ctl.timer) == now ==>
            ctl.events != [] && Due(due, ctl.events[0]) == now && Repeated(info, ran, ctl.events[0]))
      && (!astray ==> forall y :: y in ctl.events ==> Fine(info, ran, due, now, y))
  }

  /** The events and timeouts of a base, as values. */
  datatype View = View(common: seq<Ctl>, on: set<(nat, Flag)>, due: map<nat, int>, slot: map<nat, int>, lost: set<int>)

  ghost function Look(base: Base): View
    reads base
  {
    View(base.common, base.on, base.due, base.slot, base.lost)
  }

  /** What a pass keeps; it started with v0, and `ran` has run.  `all` says whether the lists' timers,
      too, run only if they were active or due at the start. */
  ghost predicate Passing(info: map<nat, Info>, v0: View, now: int, v: View, ran: set<nat>, all: bool) {
    && SameTimers(v0.common, v.common)
    && (forall x :: !Timer(v0.common, x) ==> EventFine(info, v0, now, v, ran, x))
    && (forall c :: 0 <= c < |v.common| ==> ListFine(info, ran, now, v.common[c], v.on, v.due, c in v.lost))
    && (forall x :: (all || !Timer(v0.common, x)) && (x in ran || (x, Active) in v.on) ==>
          (x, Active) in v0.on || DueBy(v0.on, v0.due, x, now))
  }

  ghost predicate EventFine(info: map<nat, Info>, v0: View, now: int, v: View, ran: set<nat>, x: nat) {
    && (x !in ran ==> Due(v.due, x) == Due(v0.due, x) && Slot(v.slot, x) == Slot(v0.slot, x))
    && ((x, Timeout) in v.on && Slot(v.slot, x) == HEAP ==> Fine(info, ran, v.due, now, x))
    && (x in ran && (x, Active) in v.on ==> (x, Timeout) !in v.on)
    && ((x, Timeout) in v.on ==> (x, Timeout) in v0.on || Repeated(info, ran, x))
    && ((x, Timeout) in v0.on ==> x in ran || (x, Active) in v.on || (x, Timeout) in v.on)
  }

  /** Persistent events with an interval wait again. */
  ghost predicate Waiting(interval: map<nat, Tv>, v: View, now: int, ran: set<nat>) {
    forall x :: x in ran && x in interval && interval[x].time != 0 && (x, Active) !in v.on && !Timer(v.common, x) ==>
      (x, Timeout) in v.on && now <= Due(v.due, x)
  }

  /** What a pass uses up: events behind their time, timeouts that have come, active flags. */
  ghost function Behind(info: map<nat, Info>, v: View, now: int): set<nat> {
    set x | x in info && !Timer(v.common, x) && Due(v.due, x) < now
  }

  ghost function Waits(v: View, now: int): set<(nat, Flag)> {
    set q | q in v.on && q.1 == Timeout && !Timer(v.common, q.0) && Due(v.due, q.0) <= now
  }

  ghost function Actives(v: View): set<(nat, Flag)> {
    set q | q in v.on && q.1 == Active
  }

  lemma PassStart(info: map<nat, Info>, v0: View, now: int, heap0: set<nat>, heap: set<nat>, v: View,
                  timedOut: set<nat>)
    requires v == v0.(on := v.on)
    requires Timed(heap0, v0.common, v0.on, v0.slot, v0.due) && Timed(heap, v.common, v.on, v.slot, v.due)
    requires TimersOk(v.common, info, v.on, v.slot, timedOut) && AllServed(v.common, v.on, v.due, NOBODY, v.lost)
    requires forall x :: x in heap <==> x in heap0 && now < Due(v.due, x)
    requires forall x :: x in heap0 && Due(v.due, x) <= now ==> (x, Active) in v.on && (x, Timeout) !in v.on
    requires forall q: (nat, Flag) :: q.0 !in heap0 || now < Due(v.due, q.0) ==> (q in v.on <==> q in v0.on)
    ensures Passing(info, v0, now, v, {}, true)
  {
    hide Due;
    forall x
      ensures EventFine(info, v0, now, v, {}, x)
      ensures (x, Active) in v.on ==> (x, Active) in v0.on || DueBy(v0.on, v0.due, x, now)
    {
      assert x !in heap0 || now < Due(v.due, x) ==> ((x, Timeout) in v.on <==> (x, Timeout) in v0.on);
      assert x !in heap0 || now < Due(v.due, x) ==> ((x, Active) in v.on <==> (x, Active) in v0.on);
    }
    ListsStart(info, now, heap, v, {}, timedOut);
  }

  /** With nothing in the heap overdue, nothing in a list that is served is. */
  lemma ListsStart(info: map<nat, Info>, now: int, heap: set<nat>, v: View, ran: set<nat>, timedOut: set<nat>)
    requires Timed(heap, v.common, v.on, v.slot, v.due) && TimersOk(v.common, info, v.on, v.slot, timedOut)
    requires AllServed(v.common, v.on, v.due, NOBODY, v.lost) && forall x :: x in heap ==> now < Due(v.due, x)
    ensures forall c :: 0 <= c < |v.common| ==> ListFine(info, ran, now, v.common[c], v.on, v.due, c in v.lost)
  {
    hide Due;
    forall c | 0 <= c < |v.common|
      ensures ListFine(info, ran, now, v.common[c], v.on, v.due, c in v.lost)
    {
      var q := v.common[c].events;
      assert TimerOk(v.common[c].timer, info, v.on, v.slot, timedOut);
      if (v.common[c].timer, Timeout) in v.on && c !in v.lost {
        assert Served(v.common[c], v.on, v.due, NOBODY);
        forall y | y in q
          ensures now < Due(v.due, y)
        {
          var i :| 0 <= i < |q| && q[i] == y;
          assert Due(v.due, q[0]) <= Due(v.due, q[i]);
        }
      }
    }
  }

  /** Looking at the timeouts again, at a later time. */
  lemma PassAgain(info: map<nat, Info>, v0: View, before: int, now: int, heap: set<nat>, heap': set<nat>, v: View,
                  v': View,
                  ran: set<nat>, timedOut: set<nat>)
    requires Passing(info, v0, before, v, ran, false) && before <= now && v' == v.(on := v'.on)
    requires Timed(heap, v.common, v.on, v.slot, v.due) && Timed(heap', v'.common, v'.on, v'.slot, v'.due)
    requires TimersOk(v'.common, info, v'.on, v'.slot, timedOut) && AllServed(v'.common, v'.on, v'.due, NOBODY, v'.lost)
    requires forall x :: x in heap' <==> x in heap && now < Due(v.due, x)
    requires forall x :: x in heap && Due(v.due, x) <= now ==> (x, Active) in v'.on && (x, Timeout) !in v'.on
    requires forall q: (nat, Flag) :: q.0 !in heap || now < Due(v.due, q.0) ==> (q in v'.on <==> q in v.on)
    ensures Passing(info, v0, now, v', ran, false)
  {
    hide Due, Slot, Timer, TimersOk, AllServed, ListFine;
    forall x | !Timer(v0.common, x)
      ensures EventFine(info, v0, now, v', ran, x)
      ensures x in ran || (x, Active) in v'.on ==> (x, Active) in v0.on || DueBy(v0.on, v0.due, x, now)
    {
      assert EventFine(info, v0, before, v, ran, x);
      assert x !in heap || now < Due(v.due, x) ==> ((x, Timeout) in v'.on <==> (x, Timeout) in v.on);
      assert x !in heap || now < Due(v.due, x) ==> ((x, Active) in v'.on <==> (x, Active) in v.on);
      assert x in heap ==> (x, Timeout) in v.on;
      assert (x, Timeout) in v'.on && Slot(v'.slot, x) == HEAP ==> x in heap';
    }
    ListsStart(info, now, heap', v', ran, timedOut);
  }

  /** The view after a callback has started. */
  ghost function Started(info: map<nat, Info>, v: View, x: nat): View
    requires x in info
  {
    v.(on := v.on - (if info[x].persist then {(x, Active)} else Flags(x)),
       common := if info[x].persist || (x, Timeout) !in v.on then v.common else Dropped(v.common, Slot(v.slot, x), x))
  }

  lemma DroppedList(heap: set<nat>, v: View, x: nat, c: nat)
    requires Timed(heap, v.common, v.on, v.slot, v.due) && c < |v.common| && (x, Timeout) in v.on
    ensures var r := Dropped(v.common, Slot(v.slot, x), x);
            && |r| == |v.common| && r[c].timer == v.common[c].timer
            && (forall y :: y in r[c].events ==> y in v.common[c].events)
            && (v.common[c].events != [] && v.common[c].events[0] != x ==>
                  r[c].events != [] && r[c].events[0] == v.common[c].events[0])
  {
    if Slot(v.slot, x) == c {
      assert x in v.common[c].events;
      RemovedIs(v.common[c].events, x);
    }
  }

  /** x does not stand first in a list whose timer is set for now. */
  ghost predicate NotFirst(v: View, now: int, x: nat) {
    forall c :: 0 <= c < |v.common| && (v.common[c].timer, Timeout) in v.on && Due(v.due, v.common[c].timer) == now ==>
      v.common[c].events != [] && v.common[c].events[0] != x
  }

  lemma FineMore(info: map<nat, Info>, ran: set<nat>, due: map<nat, int>, now: int, x: nat)
    ensures forall y :: Fine(info, ran, due, now, y) ==> Fine(info, ran + {x}, due, now, y)
    ensures forall y :: Repeated(info, ran, y) ==> Repeated(info, ran + {x}, y)
  {
  }

  /** A callback starts to run. */
  lemma PassRuns(info: map<nat, Info>, v0: View, now: int, v: View, ran: set<nat>, x: nat, heap: set<nat>,
                 timedOut: set<nat>, all: bool)
    requires Passing(info, v0, now, v, ran, all) && (x, Active) in v.on && x in info
    requires Timed(heap, v.common, v.on, v.slot, v.due) && TimersOk(v.common, info, v.on, v.slot, timedOut)
    ensures Passing(info, v0, now, Started(info, v, x), ran + {x}, all) && NotFirst(Started(info, v, x), now, x)
  {
    hide Due, Slot, Timed, TimersOk, Timer, Fine, Repeated, DueBy, Dropped;
    var v' := Started(info, v, x);
    FineMore(info, ran, v.due, now, x);
    SameTimer(v0.common, v.common);
    forall c | 0 <= c < |v.common|
      ensures |v'.common| == |v.common| && v'.common[c].timer == v.common[c].timer
      ensures ListFine(info, ran + {x}, now, v'.common[c], v'.on, v'.due, c in v'.lost)
      ensures (v'.common[c].timer, Timeout) in v'.on && Due(v'.due, v'.common[c].timer) == now ==>
        v'.common[c].events != [] && v'.common[c].events[0] != x
    {
      assert ListFine(info, ran, now, v.common[c], v.on, v.due, c in v.lost);
      if (x, Timeout) in v.on {
        DroppedList(heap, v, x, c);
      }
      Fired(heap, v.common, v.on, v.slot, v.due, info, timedOut, c);
      if v.common[c].events != [] && v.common[c].events[0] == x {
        assert x in v.common[c].events;
        RepeatedRan(info, ran, x);
        assert EventFine(info, v0, now, v, ran, x);
      }
    }
    forall y | !Timer(v0.common, y)
      ensures EventFine(info, v0, now, v', ran + {x}, y)
    {
      assert EventFine(info, v0, now, v, ran, y);
    }
    StartedTimers(info, v, x);
    assert forall c :: 0 <= c < |v'.common| ==>
        ListFine(info, ran + {x}, now, v'.common[c], v'.on, v'.due, c in v'.lost);
    assert forall y: nat :: (all || !Timer(v0.common, y)) && (y in ran + {x} || (y, Active) in v'.on) ==>
        (y, Active) in v0.on || DueBy(v0.on, v0.due, y, now);
  }

  lemma StartedTimers(info: map<nat, Info>, v: View, x: nat)
    requires x in info
    ensures SameTimers(v.common, Started(info, v, x).common)
  {
  }

  lemma RepeatedRan(info: map<nat, Info>, ran: set<nat>, x: nat)
    ensures Repeated(info, ran, x) ==> x in ran
  {
  }

  lemma Fired(heap: set<nat>, common: seq<Ctl>, on: set<(nat, Flag)>, slot: map<nat, int>, due: map<nat, int>,
              info: map<nat, Info>, timedOut: set<nat>, c: nat)
    requires Timed(heap, common, on, slot, due) && TimersOk(common, info, on, slot, timedOut) && c < |common|
    ensures forall x :: x in common[c].events ==> (x, Timeout) in on && !Timer(common, x) && Slot(slot, x) == c
    ensures common[c].timer in info && !info[common[c].timer].persist
  {
    assert forall d :: 0 <= d < |common| ==> TimerOk(common[d].timer, info, on, slot, timedOut);
  }

  /** A persistent event is entered again, not before now. */
  lemma PassReadds(info: map<nat, Info>, v0: View, now: int, v: View, ran: set<nat>, x: nat, v': View, all: bool)
    requires Passing(info, v0, now, v, ran, all) && NotFirst(v, now, x) && Repeated(info, ran, x) && !Timer(v.common, x)
    requires (x, Timeout) in v'.on && now <= Due(v'.due, x) && (x, Active) !in v'.on
    requires OthersSame(v'.common, x, v.on, v.due, v.slot, v'.on, v'.due, v'.slot) && SameTimers(v.common, v'.common)
    requires TimersStep(v.common, v.on, v.due, v'.common, v'.on, v'.due, x, Slot(v'.slot, x))
    requires forall d :: 0 <= d < |v'.common| && d in v.lost && d !in v'.lost ==>
      First(v'.common[d].events, v'.due, x, Due(v'.due, x))
    requires forall c, y :: 0 <= c < |v.common| && y in v.common[c].events ==> !Timer(v.common, y)
    ensures Passing(info, v0, now, v', ran, all)
  {
    hide Due, Slot, Timer, DueBy;
    SameTimer(v0.common, v.common);
    SameTimer(v.common, v'.common);
    assert Fine(info, ran, v'.due, now, x);
    forall y | !Timer(v0.common, y)
      ensures EventFine(info, v0, now, v', ran, y)
    {
      assert EventFine(info, v0, now, v, ran, y);
      if y != x {
        SameFlags(v'.common, x, v.on, v.due, v.slot, v'.on, v'.due, v'.slot, y);
      }
    }
    forall c | 0 <= c < |v'.common|
      ensures ListFine(info, ran, now, v'.common[c], v'.on, v'.due, c in v'.lost)
    {
      assert TimerStep(v.common[c], v.on, v.due, v'.common[c], v'.on, v'.due, x, c == Slot(v'.slot, x));
      assert ListFine(info, ran, now, v.common[c], v.on, v.due, c in v.lost);
      ReaddList(info, ran, now, v, v', x, c);
    }
    ActivesKept(v, v', x);
  }

  lemma TimerIndex(common: seq<Ctl>, x: nat) returns (c: nat)
    requires Timer(common, x)
    ensures c < |common| && common[c].timer == x
  {
    var d :| 0 <= d < |common| && common[d].timer == x;
    c := d;
  }

  lemma SameFlags(common: seq<Ctl>, x: nat, on: set<(nat, Flag)>, due: map<nat, int>, slot: map<nat, int>,
                  on': set<(nat, Flag)>, due': map<nat, int>, slot': map<nat, int>, y: nat)
    requires OthersSame(common, x, on, due, slot, on', due', slot') && y != x && !Timer(common, y)
    ensures forall f: Flag :: (y, f) in on' <==> (y, f) in on
    ensures Due(due', y) == Due(due, y) && Slot(slot', y) == Slot(slot, y)
  {
  }

  /** What entering x again does to one list. */
  lemma ReaddList(info: map<nat, Info>, ran: set<nat>, now: int, v: View, v': View, x: nat, c: nat)
    requires c < |v.common| == |v'.common| && SameTimers(v.common, v'.common) && NotFirst(v, now, x)
    requires Fine(info, ran, v'.due, now, x)
    requires TimerStep(v.common[c], v.on, v.due, v'.common[c], v'.on, v'.due, x, c == Slot(v'.slot, x))
    requires ListFine(info, ran, now, v.common[c], v.on, v.due, c in v.lost) && Repeated(info, ran, x)
    requires OthersSame(v'.common, x, v.on, v.due, v.slot, v'.on, v'.due, v'.slot)
    requires c in v.lost && c !in v'.lost ==> First(v'.common[c].events, v'.due, x, Due(v'.due, x))
    requires forall y :: y in v.common[c].events ==> !Timer(v'.common, y)
    ensures ListFine(info, ran, now, v'.common[c], v'.on, v'.due, c in v'.lost)
  {
    hide Slot, Timer, Repeated, Due, Fine;
    var ctl, ctl' := v.common[c], v'.common[c];
    if (ctl.timer, Timeout) in v'.on {
      if First(ctl'.events, v'.due, x, Due(v'.due, x)) {
        FirstFine(info, ran, now, ctl'.events, v'.due, x);
      } else if (ctl.timer, Timeout) in v.on && c !in v'.lost {
        OthersFine(info, ran, now, v, v', x, c);
      }
      FineIs(info, ran, v'.due, now, x);
      if (ctl.timer, Timeout) in v.on && Due(v.due, ctl.timer) == now {
        var y := ctl.events[0];
        assert y in ctl.events && y != x && y in ctl'.events && Due(v'.due, y) == Due(v.due, y);
      }
    }
  }

  lemma FineIs(info: map<nat, Info>, ran: set<nat>, due: map<nat, int>, now: int, x: nat)
    requires Fine(info, ran, due, now, x)
    ensures now <= Due(due, x)
  {
  }

  /** If x, which is fine, is the first of a list, then so are the others. */
  lemma FirstFine(info: map<nat, Info>, ran: set<nat>, now: int, q: seq<nat>, due: map<nat, int>, x: nat)
    requires Fine(info, ran, due, now, x) && First(q, due, x, Due(due, x))
    ensures forall y :: y in q ==> Fine(info, ran, due, now, y)
  {
    hide Due;
  }

  /** The others of the list are as they were. */
  lemma OthersFine(info: map<nat, Info>, ran: set<nat>, now: int, v: View, v': View, x: nat, c: nat)
    requires c < |v.common| == |v'.common| && Fine(info, ran, v'.due, now, x)
    requires OthersSame(v'.common, x, v.on, v.due, v.slot, v'.on, v'.due, v'.slot)
    requires forall y :: y in v'.common[c].events ==> y in v.common[c].events || y == x
    requires forall y :: y in v.common[c].events ==> !Timer(v'.common, y) && Fine(info, ran, v.due, now, y)
    ensures forall y :: y in v'.common[c].events ==> Fine(info, ran, v'.due, now, y)
  {
    hide Due, Timer, Repeated;
  }

  /** The callback of list c has run and activated `fired`. */
  lemma PassFires(info: map<nat, Info>, v0: View, now: int, v: View, ran: set<nat>, c: nat, fired: seq<nat>, v': View,
                  all: bool)
    requires Passing(info, v0, now, v, ran, all) && CallbackStep(v, now, c, fired, v')
    ensures Passing(info, v0, now, v', ran, all)
  {
    hide Due, Slot, Timer;
    SameTimer(v0.common, v.common);
    SameTimer(v.common, v'.common);
    TimerOf(v.common, c);
    forall y | !Timer(v0.common, y)
      ensures EventFine(info, v0, now, v', ran, y)
      ensures (y, Active) in v'.on ==> y in ran || (y, Active) in v0.on || DueBy(v0.on, v0.due, y, now)
    {
      assert EventFine(info, v0, now, v, ran, y);
    }
    forall d | 0 <= d < |v'.common|
      ensures ListFine(info, ran, now, v'.common[d], v'.on, v'.due, d in v'.lost)
    {
      assert ListFine(info, ran, now, v.common[d], v.on, v.due, d in v.lost);
      TimerOf(v.common, d);
      if d != c {
        assert v'.common[d] == v.common[d] && v.common[d].timer !in fired;
        assert forall y :: y in v.common[d].events ==> Due(v'.due, y) == Due(v.due, y);
        if v.common[d].events != [] {
          assert v.common[d].events[0] in v.common[d].events;
        }
      }
    }
    forall y | (y, Active) in v'.on && Timer(v0.common, y)
      ensures (y, Active) in v.on
    {
      assert y !in fired;
    }
  }

  /** What the callback of list c does. */
  ghost predicate CallbackStep(v: View, now: int, c: nat, fired: seq<nat>, v': View) {
    && c < |v.common| == |v'.common| && v.common[c].timer == v'.common[c].timer
    && (forall d :: 0 <= d < |v.common| && d != c ==> v'.common[d] == v.common[d] && (d in v'.lost <==> d in v.lost))
    && (forall d :: 0 <= d < |v.common| && d != c ==> v.common[d].timer != v.common[c].timer)
    && (forall d, y :: 0 <= d < |v.common| && y in v.common[d].events ==> !Timer(v.common, y))
    && (forall y :: y in v'.common[c].events ==> now < Due(v'.due, y))
    && (forall x :: x in fired ==> (x, Timeout) in v.on && Due(v.due, x) <= now && !Timer(v.common, x))
    && (forall q: (nat, Flag) :: q.0 != v.common[c].timer ==>
            (q in v'.on <==> if q.0 in fired then q.1 == Active else q in v.on))
    && (forall x :: x != v.common[c].timer ==> Due(v'.due, x) == Due(v.due, x) && Slot(v'.slot, x) == Slot(v.slot, x))
    && ((v.common[c].timer, Timeout) in v'.on ==> now < Due(v'.due, v.common[c].timer))
    && ((v.common[c].timer, Active) in v'.on ==> (v.common[c].timer, Active) in v.on)
    && SameTimers(v.common, v'.common)
  }

  /** With nothing active and nothing running, what is left is not overdue. */
  lemma PassEnd(info: map<nat, Info>, v0: View, now: int, v: View, ran: set<nat>, heap: set<nat>, timedOut: set<nat>,
                all: bool)
    requires Passing(info, v0, now, v, ran, all) && forall x :: (x, Active) !in v.on
    requires Timed(heap, v.common, v.on, v.slot, v.due) && TimersOk(v.common, info, v.on, v.slot, timedOut)
    requires AllServed(v.common, v.on, v.due, NOBODY, v.lost)
    ensures forall x :: (x, Timeout) in v.on && !Timer(v0.common, x) && Slot(v.slot, x) !in v.lost ==>
      Fine(info, ran, v.due, now, x)
    ensures forall c :: 0 <= c < |v.common| ==> ListFine(info, ran, now, v.common[c], v.on, v.due, true)
    ensures forall x :: !Timer(v0.common, x) && DueBy(v0.on, v0.due, x, now) ==> x in ran || Slot(v0.slot, x) in v.lost
    ensures forall x :: (all || !Timer(v0.common, x)) && x in ran ==>
      (x, Active) in v0.on || DueBy(v0.on, v0.due, x, now)
  {
    hide Due, Timer;
    forall x | (x, Timeout) in v.on && !Timer(v0.common, x) && Slot(v.slot, x) !in v.lost
      ensures Fine(info, ran, v.due, now, x)
    {
      assert EventFine(info, v0, now, v, ran, x);
      var c := Slot(v.slot, x);
      if c != HEAP {
        assert x in v.common[c].events;
        assert Served(v.common[c], v.on, v.due, NOBODY) && TimerOk(v.common[c].timer, info, v.on, v.slot, timedOut);
        assert ListFine(info, ran, now, v.common[c], v.on, v.due, c in v.lost);
      }
    }
    forall x | !Timer(v0.common, x) && DueBy(v0.on, v0.due, x, now) && x !in ran
      ensures Slot(v0.slot, x) in v.lost
    {
      assert EventFine(info, v0, now, v, ran, x);
    }
  }

  /** The pass comes nearer to its end, or at least does not go back. */
  ghost predicate NoMore(info: map<nat, Info>, now: int, v: View, v': View) {
    && Behind(info, v', now) <= Behind(info, v, now)
    && (Behind(info, v', now) == Behind(info, v, now) ==> Waits(v', now) <= Waits(v, now))
    && (Behind(info, v', now) == Behind(info, v, now) && Waits(v', now) == Waits(v, now) ==> Actives(v') <= Actives(v))
  }

  ghost predicate Less(info: map<nat, Info>, now: int, v: View, v': View) {
    && Behind(info, v', now) <= Behind(info, v, now)
    && (Behind(info, v', now) == Behind(info, v, now) ==> Waits(v', now) <= Waits(v, now))
    && (Behind(info, v', now) == Behind(info, v, now) && Waits(v', now) == Waits(v, now) ==> Actives(v') < Actives(v))
  }

  lemma LessStill(info: map<nat, Info>, now: int, v: View, v1: View, v2: View)
    requires Less(info, now, v, v1) && NoMore(info, now, v1, v2)
    ensures Less(info, now, v, v2)
  {
    hide Behind, Waits, Actives;
  }

  lemma RunsLess(info: map<nat, Info>, now: int, v: View, x: nat)
    requires x in info && (x, Active) in v.on
    ensures Less(info, now, v, Started(info, v, x))
  {
    hide Due, Timer;
    StartedTimers(info, v, x);
    SameTimer(v.common, Started(info, v, x).common);
    assert (x, Active) in Actives(v) && (x, Active) !in Actives(Started(info, v, x));
  }

  /** Entering x again: if it was behind its time it is so no longer, and otherwise it is
      later than now. */
  lemma ReaddLess(info: map<nat, Info>, now: int, v: View, v': View, x: nat)
    requires OthersSame(v'.common, x, v.on, v.due, v.slot, v'.on, v'.due, v'.slot) && SameTimers(v.common, v'.common)
    requires x in info && !Timer(v.common, x) && (x, Active) !in v'.on
    requires forall y :: (y, Active) in v'.on ==> (y, Active) in v.on
    requires now <= Due(v'.due, x) && (now <= Due(v.due, x) ==> now < Due(v'.due, x))
    ensures NoMore(info, now, v, v')
  {
    hide Due, Slot, Timer;
    SameTimer(v.common, v'.common);
    forall y | y in Behind(info, v', now)
      ensures y in Behind(info, v, now)
    {
    }
    if Due(v.due, x) < now {
      assert x in Behind(info, v, now) && x !in Behind(info, v', now);
    }
  }

  lemma FiresLess(info: map<nat, Info>, now: int, v: View, c: nat, fired: seq<nat>, v': View)
    requires CallbackStep(v, now, c, fired, v')
    ensures NoMore(info, now, v, v')
  {
    hide Due, Slot, Timer;
    SameTimer(v.common, v'.common);
    TimerOf(v.common, c);
    assert Behind(info, v', now) == Behind(info, v, now);
    assert Waits(v', now) <= Waits(v, now);
    if fired != [] {
      assert (fired[0], Timeout) in Waits(v, now) && (fired[0], Timeout) !in v'.on;
    } else {
      assert Actives(v') <= Actives(v);
    }
  }

  lemma WaitRuns(info: map<nat, Info>, interval: map<nat, Tv>, v: View, now: int, ran: set<nat>, x: nat)
    requires Waiting(interval, v, now, ran) && x in info
    ensures Waiting(interval, Started(info, v, x), now, ran - {x})
  {
    hide Due, Timer;
    StartedTimers(info, v, x);
    SameTimer(v.common, Started(info, v, x).common);
  }

  lemma WaitReadds(interval: map<nat, Tv>, v: View, now: int, ran: set<nat>, x: nat, v': View)
    requires Waiting(interval, v, now, ran - {x}) && SameTimers(v.common, v'.common)
    requires OthersSame(v'.common, x, v.on, v.due, v.slot, v'.on, v'.due, v'.slot)
    requires x in interval && interval[x].time != 0 && !Timer(v'.common, x) ==>
      (x, Timeout) in v'.on && now <= Due(v'.due, x)
    ensures Waiting(interval, v', now, ran + {x})
  {
    hide Due, Slot, Timer;
    SameTimer(v.common, v'.common);
  }

  lemma WaitFires(interval: map<nat, Tv>, v: View, now: int, ran: set<nat>, c: nat, fired: seq<nat>, v': View)
    requires CallbackStep(v, now, c, fired, v') && Waiting(interval, v, now, ran - {v.common[c].timer})
    ensures Waiting(interval, v', now, ran + {v.common[c].timer})
  {
    hide Due, Slot, Timer;
    SameTimer(v.common, v'.common);
    TimerOf(v.common, c);
  }

  /** The first active queue that is not empty. */
  method NextQueue(active: seq<seq<nat>>) returns (p: int)
    ensures p == -1 || (0 <= p < |active| && active[p] != [])
    ensures forall i :: 0 <= i < (if p == -1 then |active| else p) ==> active[i] == []
  {
    p := 0;
    while p < |active|
      invariant 0 <= p <= |active| && forall i :: 0 <= i < p ==> active[i] == []
    {
      if active[p] != [] {
        return;
      }
      p := p + 1;
    }
    p := -1;
  }

  method ListOf(common: seq<Ctl>, x: nat) returns (c: int)
    ensures c == -1 ==> !Timer(common, x)
    ensures c != -1 ==> 0 <= c < |common| && common[c].timer == x
  {
    c := 0;
    while c < |common|
      invariant 0 <= c <= |common| && forall d :: 0 <= d < c ==> common[d].timer != x
    {
      if common[c].timer == x {
        return;
      }
      c := c + 1;
    }
    c := -1;
  }

  lemma ActiveOnes(active: seq<seq<nat>>, later: seq<nat>, on: set<(nat, Flag)>, info: map<nat, Info>)
    requires Queued(active, later, on, info)
    ensures forall p :: 0 <= p < |active| && active[p] != [] ==> (active[p][0], Active) in on
    ensures (forall p :: 0 <= p < |active| ==> active[p] == []) ==> forall x :: (x, Active) !in on
  {
    forall p | 0 <= p < |active| && active[p] != []
      ensures (active[p][0], Active) in on
    {
      assert active[p][0] in active[p];
    }
    forall x | (x, Active) in on
      ensures exists p :: 0 <= p < |active| && active[p] != []
    {
      assert x in active[info[x].pri];
    }
  }

  /** Everything a pass keeps. */
  ghost predicate Going(info: map<nat, Info>, interval: map<nat, Tv>, v0: View, now: int, v: View, ran: set<nat>,
                        all: bool,
                        sure: bool) {
    && Passing(info, v0, now, v, ran, all) && (sure ==> Waiting(interval, v, now, ran) && v.lost <= v0.lost)
  }

  lemma NoTimer(common: seq<Ctl>, x: nat)
    requires !Timer(common, x)
    ensures forall c :: 0 <= c < |common| ==> common[c].timer != x
  {
  }

  /** event_persist_closure for the callback that is running, unless it is a list's timer. */
  method Repeat(base: Base, x: nat, now: int, memory: bool, backend: bool, ghost v0: View, ghost ran: set<nat>,
                ghost all: bool,
                ghost sure: bool)
    requires base.Valid() && base.running == x && x in base.info && !Timer(base.common, x) && (x, Active) !in base.on
    requires x in ran
    requires forall y :: y in base.interval ==> 0 <= base.interval[y].time
    requires Passing(base.info, v0, now, Look(base), ran, all) && NotFirst(Look(base), now, x)
    requires sure ==> memory && backend && Waiting(base.interval, Look(base), now, ran - {x}) && base.lost <= v0.lost
    modifies base
    ensures base.Valid() && base.running == x && base.interval == old(base.interval) && !Timer(base.common, x)
    ensures Going(base.info, base.interval, v0, now, Look(base), ran, all, sure)
    ensures NoMore(base.info, now, old(Look(base)), Look(base))
  {
    hide Passing, Waiting, NotFirst, NoMore, Timer, TimersStep, OthersSame, Due, Slot, First, SameTimers;
    hide Base.Core, TimersOk, AllServed, IntervalsOk, Timed;
    ghost var v := Look(base);
    Nothing(base.info, base.interval, v, now, ran, x);
    Intervals(base);
    if base.info[x].persist {
      var r := base.PersistReadd(x, now, memory, backend);
      ghost var v' := Look(base);
      SameTimer(v.common, v'.common);
      if r == 0 && x in base.interval && base.interval[x].time != 0 {
        Lists(base.info, v, old(base.heap), old(base.timedOut));
        PassReadds(base.info, v0, now, v, ran, x, v', all);
        ActivesKept(v, v', x);
        ReaddLess(base.info, now, v, v', x);
        if sure {
          WaitReadds(base.interval, v, now, ran, x, v');
        }
      } else {
        assert v' == v;
      }
    }
    assert ran + {x} == ran;
  }

  lemma Nothing(info: map<nat, Info>, interval: map<nat, Tv>, v: View, now: int, ran: set<nat>, x: nat)
    ensures NoMore(info, now, v, v)
    ensures Waiting(interval, v, now, ran - {x}) && (x !in interval || interval[x].time == 0) ==>
      Waiting(interval, v, now, ran)
  {
  }

  lemma Intervals(base: Base)
    requires base.Valid()
    ensures forall x :: x in base.interval ==> x in base.info && base.info[x].persist
    ensures Timed(base.heap, base.common, base.on, base.slot, base.due)
    ensures TimersOk(base.common, base.info, base.on, base.slot, base.timedOut)
  {
  }

  /** No list holds a timer. */
  lemma Lists(info: map<nat, Info>, v: View, heap: set<nat>, timedOut: set<nat>)
    requires Timed(heap, v.common, v.on, v.slot, v.due) && TimersOk(v.common, info, v.on, v.slot, timedOut)
    ensures forall c, y :: 0 <= c < |v.common| && y in v.common[c].events ==> !Timer(v.common, y)
  {
    forall c, y | 0 <= c < |v.common| && y in v.common[c].events
      ensures !Timer(v.common, y)
    {
      Fired(heap, v.common, v.on, v.slot, v.due, info, timedOut, c);
    }
  }

  lemma ActivesKept(v: View, v': View, x: nat)
    requires OthersSame(v'.common, x, v.on, v.due, v.slot, v'.on, v'.due, v'.slot) && SameTimers(v.common, v'.common)
    requires TimersStep(v.common, v.on, v.due, v'.common, v'.on, v'.due, x, Slot(v'.slot, x)) && (x, Active) !in v'.on
    ensures forall y :: (y, Active) in v'.on ==> (y, Active) in v.on
  {
    hide Due, Slot;
    forall y | (y, Active) in v'.on
      ensures (y, Active) in v.on
    {
      if Timer(v'.common, y) {
        var c := TimerIndex(v'.common, y);
        assert TimerStep(v.common[c], v.on, v.due, v'.common[c], v'.on, v'.due, x, c == Slot(v'.slot, x));
      }
    }
  }

  /** common_timeout_callback, which is running. */
  method FireList(base: Base, c: nat, now: int, memory: bool, ghost v0: View, ghost ran: set<nat>, ghost all: bool,
                  ghost sure: bool)
    requires base.Valid() && c < |base.common| && base.running == base.common[c].timer && base.common[c].timer in ran
    requires Passing(base.info, v0, now, Look(base), ran, all) && (sure ==> memory)
    requires (base.common[c].timer, Timeout) !in base.on
    requires sure ==> Waiting(base.interval, Look(base), now, ran - {base.common[c].timer}) && base.lost <= v0.lost
    modifies base
    ensures base.Valid() && base.running == NOBODY && base.interval == old(base.interval)
    ensures Going(base.info, base.interval, v0, now, Look(base), ran, all, sure)
    ensures NoMore(base.info, now, old(Look(base)), Look(base))
  {
    hide Queued, Timed, Users, Total, TimersOk, AllServed, IntervalsOk, Passing, Waiting, NoMore, Timer, Due, Slot;
    hide CallbackStep, Silent;
    ghost var v, t := Look(base), base.common[c].timer;
    ghost var q := base.common[c].events;
    Intervals(base);
    Lists(base.info, v, base.heap, base.timedOut);
    Fired(base.heap, base.common, base.on, base.slot, base.due, base.info, base.timedOut, c);
    Apart(base.common, base.info, base.on, base.slot, base.timedOut, c);
    ghost var n := base.CommonTimeoutCallback(c, now, memory);
    Unfired(q, v.due, base.due, n, now);
    ghost var v' := Look(base);
    assert CallbackStep(v, now, c, q[..n], v') by {
      Called(v, now, c, n, v');
    }
    PassFires(base.info, v0, now, v, ran, c, q[..n], v', all);
    FiresLess(base.info, now, v, c, q[..n], v');
    if sure {
      WaitFires(base.interval, v, now, ran, c, q[..n], v');
      assert ran + {t} == ran;
    }
  }

  lemma Apart(common: seq<Ctl>, info: map<nat, Info>, on: set<(nat, Flag)>, slot: map<nat, int>, timedOut: set<nat>,
              c: nat)
    requires TimersOk(common, info, on, slot, timedOut) && c < |common|
    ensures forall d :: 0 <= d < |common| && d != c ==> common[d].timer != common[c].timer
  {
  }

  /** What the callback of list c leaves is later than now. */
  lemma Unfired(q: seq<nat>, due: map<nat, int>, due': map<nat, int>, n: nat, now: int)
    requires n <= |q|
    requires forall i :: 0 <= i < |q| ==>
               Due(due', q[i]) == Due(due, q[i]) && if i < n then Due(due', q[i]) <= now else now < Due(due', q[i])
    ensures forall x :: x in q[..n] ==> x in q && Due(due, x) <= now
    ensures forall x :: x in q[n..] ==> now < Due(due', x)
    ensures q[n..] != [] ==> now < Due(due', q[n..][0])
  {
    hide Due;
  }

  /** The contract of common_timeout_callback as a step of the pass. */
  lemma Called(v: View, now: int, c: nat, n: nat, v': View)
    requires c < |v.common| && n <= |v.common[c].events|
    requires v'.common == v.common[c := v.common[c].(events := v.common[c].events[n..])]
    requires forall d :: d != c ==> (d in v'.lost <==> d in v.lost)
    requires forall d :: 0 <= d < |v.common| && d != c ==> v.common[d].timer != v.common[c].timer
    requires forall d, y :: 0 <= d < |v.common| && y in v.common[d].events ==> !Timer(v.common, y)
    requires forall y :: y in v.common[c].events ==> (y, Timeout) in v.on
    requires forall y :: y in v.common[c].events[..n] ==> y in v.common[c].events && Due(v.due, y) <= now
    requires forall y :: y in v.common[c].events[n..] ==> now < Due(v'.due, y)
    requires forall q: (nat, Flag) :: q.0 != v.common[c].timer ==>
               (q in v'.on <==> if q.0 in v.common[c].events[..n] then q.1 == Active else q in v.on)
    requires forall x :: x != v.common[c].timer ==>
      Due(v'.due, x) == Due(v.due, x) && Slot(v'.slot, x) == Slot(v.slot, x)
    requires (v.common[c].timer, Timeout) in v'.on ==> now < Due(v'.due, v.common[c].timer)
    requires (v.common[c].timer, Active) in v'.on ==> (v.common[c].timer, Active) in v.on
    ensures CallbackStep(v, now, c, v.common[c].events[..n], v')
  {
    hide Due, Slot, Timer;
  }

  /** Runs the first callback of queue p; a list's timer activates what is due in its list, and
      a persistent event is entered again. */
  method RunOne(base: Base, p: nat, now: int, memory: bool, backend: bool, ghost v0: View, ghost ran: set<nat>,
                ghost all: bool, ghost sure: bool) returns (x: nat)
    requires base.Valid() && base.running == NOBODY && p < |base.active| && base.active[p] != []
    requires (forall y :: y in base.interval ==> 0 <= base.interval[y].time) && (sure ==> memory && backend)
    requires Going(base.info, base.interval, v0, now, Look(base), ran, all, sure)
    modifies base
    ensures base.Valid() && base.running == NOBODY && x == old(base.active)[p][0] && base.interval == old(base.interval)
    ensures Going(base.info, base.interval, v0, now, Look(base), ran + {x}, all, sure)
    ensures Less(base.info, now, old(Look(base)), Look(base))
  {
    hide Queued, Timed, Users, Total, TimersOk, AllServed, Passing, Waiting, NotFirst, NoMore, Less, Timer, Dropped;
    hide Flags, IntervalsOk;
    x := base.active[p][0];
    ghost var v := Look(base);
    ActiveOnes(base.active, base.later, base.on, base.info);
    KnownEvent(base.active, base.later, base.on, base.info, x, Active);
    PassRuns(base.info, v0, now, v, ran, x, base.heap, base.timedOut, all);
    RunsLess(base.info, now, v, x);
    if sure {
      WaitRuns(base.info, base.interval, v, now, ran, x);
      assert (ran + {x}) - {x} == ran - {x};
    }
    base.StartCallback(p);
    ghost var v1 := Look(base);
    assert v1 == Started(base.info, v, x);
    OffQueue(base.info, v, x);
    var c := ListOf(base.common, x);
    if c == -1 {
      Repeat(base, x, now, memory, backend, v0, ran + {x}, all, sure);
      NoTimer(base.common, x);
      LessStill(base.info, now, v, v1, Look(base));
      base.FinishCallback();
    } else {
      Fired(base.heap, base.common, base.on, base.slot, base.due, base.info, base.timedOut, c);
      FireList(base, c, now, memory, v0, ran + {x}, all, sure);
      LessStill(base.info, now, v, v1, Look(base));
    }
  }

  lemma OffQueue(info: map<nat, Info>, v: View, x: nat)
    requires x in info
    ensures (x, Active) !in Started(info, v, x).on
    ensures !info[x].persist ==> (x, Timeout) !in Started(info, v, x).on
  {
  }

  /** timeout_process and then event_process_active until nothing is active, with callbacks
      that leave the base alone.  Every timeout that is due has run, whichever way it was kept,
      unless its list has lost its timer.  Nothing has run that was neither active nor due.  What
      is left is later than now, or is a persistent event entered again at exactly now, or the
      timer of such an event's list. */
  method Pass(base: Base, now: int, memory: bool, backend: bool) returns (ran: set<nat>)
    requires base.Valid() && base.running == NOBODY
    requires forall y :: y in base.interval ==> 0 <= base.interval[y].time
    modifies base
    ensures base.Valid() && base.running == NOBODY && forall x :: (x, Active) !in base.on
    ensures forall x :: (x, Timeout) in base.on && !Timer(old(base.common), x) && Slot(base.slot, x) !in base.lost ==>
      Fine(base.info, ran, base.due, now, x)
    ensures forall c :: 0 <= c < |base.common| ==>
      ListFine(base.info, ran, now, base.common[c], base.on, base.due, true)
    ensures forall x :: !Timer(old(base.common), x) && DueBy(old(base.on), old(base.due), x, now) ==>
      x in ran || Slot(old(base.slot), x) in base.lost
    ensures forall x :: x in ran ==> (x, Active) in old(base.on) || DueBy(old(base.on), old(base.due), x, now)
    ensures base.interval == old(base.interval) && (memory && backend ==> base.lost <= old(base.lost))
    ensures memory && backend ==>
      forall x :: x in ran && x in base.interval && base.interval[x].time != 0 && !Timer(base.common, x) ==>
        (x, Timeout) in base.on && now <= Due(base.due, x)
  {
    hide Queued, Timed, Users, Total, TimersOk, Due, Slot, AllServed, Passing, Waiting, Less, Timer, DueBy, Fine;
    hide ListFine, IntervalsOk;
    ghost var heap0, v0 := base.heap, Look(base);
    base.TimeoutProcess(now);
    PassStart(base.info, v0, now, heap0, base.heap, Look(base), base.timedOut);
    NobodyYet(base.interval, Look(base), now);
    ran := {};
    var p := NextQueue(base.active);
    while p != -1
      invariant base.Valid() && base.running == NOBODY && base.interval == old(base.interval)
      invariant Going(base.info, base.interval, v0, now, Look(base), ran, true, memory && backend)
      invariant p == -1 || (0 <= p < |base.active| && base.active[p] != [])
      invariant p == -1 ==> forall i :: 0 <= i < |base.active| ==> base.active[i] == []
      decreases Behind(base.info, Look(base), now), Waits(Look(base), now), Actives(Look(base))
    {
      ghost var v := Look(base);
      var x := RunOne(base, p, now, memory, backend, v0, ran, true, memory && backend);
      LessIs(base.info, now, v, Look(base));
      ran := ran + {x};
      p := NextQueue(base.active);
    }
    ActiveOnes(base.active, base.later, base.on, base.info);
    PassEnd(base.info, v0, now, Look(base), ran, base.heap, base.timedOut, true);
    AllWait(base.interval, Look(base), now, ran);
  }

  lemma NobodyYet(interval: map<nat, Tv>, v: View, now: int)
    ensures Waiting(interval, v, now, {})
  {
  }

  lemma LessIs(info: map<nat, Info>, now: int, v: View, v': View)
    requires Less(info, now, v, v')
    ensures Behind(info, v', now) <= Behind(info, v, now)
    ensures Behind(info, v', now) == Behind(info, v, now) ==> Waits(v', now) <= Waits(v, now)
    ensures Behind(info, v', now) == Behind(info, v, now) && Waits(v', now) == Waits(v, now) ==>
      Actives(v') < Actives(v)
  {
  }

  lemma AllWait(interval: map<nat, Tv>, v: View, now: int, ran: set<nat>)
    requires forall x :: (x, Active) !in v.on
    ensures Waiting(interval, v, now, ran) ==>
      forall x :: x in ran && x in interval && interval[x].time != 0 && !Timer(v.common, x) ==>
        (x, Timeout) in v.on && now <= Due(v.due, x)
  {
    hide Due, Timer;
  }

  /** event_process_active_single_queue: runs the callbacks of queue p until it is empty, and
      counts those that are not internal. */
  method ProcessQueue(base: Base, p: nat, now: int, memory: bool, backend: bool, ghost v0: View, ghost ran0: set<nat>)
    returns (ran: set<nat>, count: nat)
    requires base.Valid() && base.running == NOBODY && p < |base.active|
    requires forall y :: y in base.interval ==> 0 <= base.interval[y].time
    requires Passing(base.info, v0, now, Look(base), ran0, false)
    modifies base
    ensures base.Valid() && base.running == NOBODY && base.interval == old(base.interval) && base.active[p] == []
    ensures Passing(base.info, v0, now, Look(base), ran0 + ran, false)
    ensures (forall x :: x in ran && IsUser(base.info, x) ==> base.info[x].pri == p)
    ensures count == 0 ==> forall x :: x in ran ==> !IsUser(base.info, x)
  {
    hide Base.Core, TimersOk, AllServed, IntervalsOk, Passing, Waiting, Less, Behind, Waits, Actives;
    Priorities(base);
    ran, count := {}, 0;
    assert ran0 + {} == ran0;
    while base.active[p] != []
      invariant base.Valid() && base.running == NOBODY && base.interval == old(base.interval) && p < |base.active|
      invariant Passing(base.info, v0, now, Look(base), ran0 + ran, false)
      invariant forall x :: x in ran && IsUser(base.info, x) ==> base.info[x].pri == p
      invariant count == 0 ==> forall x :: x in ran ==> !IsUser(base.info, x)
      decreases Behind(base.info, Look(base), now), Waits(Look(base), now), Actives(Look(base))
    {
      ghost var v := Look(base);
      QueuedThere(base, p);
      var x := RunOne(base, p, now, memory, backend, v0, ran0 + ran, false, false);
      Priorities(base);
      LessIs(base.info, now, v, Look(base));
      assert ran0 + ran + {x} == ran0 + (ran + {x});
      ran := ran + {x};
      count := count + if IsUser(base.info, x) then 1 else 0;
    }
  }

  lemma QueuedThere(base: Base, p: nat)
    requires base.Valid() && p < |base.active| && base.active[p] != []
    ensures base.active[p][0] in base.info && base.info[base.active[p][0]].pri == p
  {
    hide TimersOk, AllServed, IntervalsOk, Timed;
    assert base.active[p][0] in base.active[p];
  }

  lemma Priorities(base: Base)
    requires base.Valid()
    ensures |base.active| == base.priorities
  {
  }

  /** event_process_active: the queues in order of priority, up to the first in which something that
      is not internal has run. */
  method ProcessActive(base: Base, now: int, memory: bool, backend: bool, ghost v0: View, ghost ran0: set<nat>)
    returns (ran: set<nat>, ghost top: nat)
    requires base.Valid() && base.running == NOBODY
    requires forall y :: y in base.interval ==> 0 <= base.interval[y].time
    requires Passing(base.info, v0, now, Look(base), ran0, false)
    modifies base
    ensures base.Valid() && base.running == NOBODY && base.interval == old(base.interval)
    ensures Passing(base.info, v0, now, Look(base), ran0 + ran, false)
    ensures forall x :: x in ran && IsUser(base.info, x) ==> base.info[x].pri == top
  {
    hide Base.Core, TimersOk, AllServed, IntervalsOk, Passing;
    ran, top := {}, 0;
    assert ran0 + {} == ran0;
    var i := 0;
    while i < base.priorities
      invariant base.Valid() && base.running == NOBODY && base.interval == old(base.interval) && i <= base.priorities
      invariant Passing(base.info, v0, now, Look(base), ran0 + ran, false)
      invariant forall x :: x in ran ==> !IsUser(base.info, x)
    {
      Priorities(base);
      if base.active[i] != [] {
        var more, c := ProcessQueue(base, i, now, memory, backend, v0, ran0 + ran);
        assert ran0 + ran + more == ran0 + (ran + more);
        ran, top := ran + more, i;
        if c > 0 {
          return;
        }
      }
      i := i + 1;
    }
  }

  /** Everything that has run. */
  ghost function All(log: seq<set<nat>>): set<nat> {
    if log == [] then {} else All(log[..|log| - 1]) + log[|log| - 1]
  }

  /** The turns of event_base_loop between which nothing else happens, at the given readings of the
      clock: each looks at the timeouts and then runs the callbacks of one priority.  Nothing runs
      that was neither active at the start nor due by that turn's reading.  Once nothing is active,
      every timeout due by the last reading has run, unless its list has lost its timer, and what is
      left is later, or a persistent event entered again at exactly that time. */
  method Loop(base: Base, clock: seq<int>, memory: bool, backend: bool) returns (log: seq<set<nat>>)
    requires base.Valid() && base.running == NOBODY && clock != []
    requires forall y :: y in base.interval ==> 0 <= base.interval[y].time
    requires forall i, j :: 0 <= i < j < |clock| ==> clock[i] <= clock[j]
    modifies base
    ensures base.Valid() && base.running == NOBODY && base.interval == old(base.interval) && |log| == |clock|
    ensures forall i, x :: 0 <= i < |log| && x in log[i] && !Timer(old(base.common), x) ==>
      (x, Active) in old(base.on) || DueBy(old(base.on), old(base.due), x, clock[i])
    ensures (forall x :: (x, Active) !in base.on) ==>
      var now := clock[|clock| - 1];
      && (forall x :: !Timer(old(base.common), x) && DueBy(old(base.on), old(base.due), x, now) ==>
            x in All(log) || Slot(old(base.slot), x) in base.lost)
      && (forall x :: (x, Timeout) in base.on && !Timer(old(base.common), x) && Slot(base.slot, x) !in base.lost ==>
            Fine(base.info, All(log), base.due, now, x))
  {
    hide Base.Core, TimersOk, AllServed, IntervalsOk, Passing, Timer, Due, Slot, DueBy, Fine, ListFine, Timed;
    ghost var v0 := Look(base);
    var ran := FirstTurn(base, clock[0], memory, backend);
    log := [ran];
    AllOne(ran);
    PassRan(base.info, v0, clock[0], Look(base), ran, ran);
    var n := 1;
    while n < |clock|
      invariant 1 <= n <= |clock| && |log| == n
      invariant base.Valid() && base.running == NOBODY && base.interval == old(base.interval)
      invariant Passing(base.info, v0, clock[n - 1], Look(base), All(log), false)
      invariant forall i, x :: 0 <= i < |log| && x in log[i] && !Timer(v0.common, x) ==>
        (x, Active) in v0.on || DueBy(v0.on, v0.due, x, clock[i])
    {
      ran := NextTurn(base, clock[n - 1], clock[n], memory, backend, v0, All(log));
      PassRan(base.info, v0, clock[n], Look(base), All(log) + ran, ran);
      AllMore(log, ran);
      log := log + [ran];
      n := n + 1;
    }
    if forall x :: (x, Active) !in base.on {
      Ended(base, v0, clock[n - 1], All(log));
    }
  }

  lemma AllOne(ran: set<nat>)
    ensures All([ran]) == ran && {} + ran == ran
  {
    assert [ran][..0] == [];
  }

  lemma AllMore(log: seq<set<nat>>, ran: set<nat>)
    ensures All(log + [ran]) == All(log) + ran
  {
    assert (log + [ran])[..|log|] == log;
  }

  lemma PassRan(info: map<nat, Info>, v0: View, now: int, v: View, all: set<nat>, ran: set<nat>)
    requires Passing(info, v0, now, v, all, false) && ran <= all
    ensures forall x :: x in ran && !Timer(v0.common, x) ==> (x, Active) in v0.on || DueBy(v0.on, v0.due, x, now)
  {
    hide Timer, DueBy, EventFine, ListFine;
  }

  lemma Ended(base: Base, v0: View, now: int, ran: set<nat>)
    requires base.Valid() && base.running == NOBODY && Passing(base.info, v0, now, Look(base), ran, false)
    requires forall x :: (x, Active) !in base.on
    ensures forall x :: !Timer(v0.common, x) && DueBy(v0.on, v0.due, x, now) ==>
      x in ran || Slot(v0.slot, x) in base.lost
    ensures forall x :: (x, Timeout) in base.on && !Timer(v0.common, x) && Slot(base.slot, x) !in base.lost ==>
      Fine(base.info, ran, base.due, now, x)
  {
    hide Base.Core, Timed, TimersOk, AllServed, IntervalsOk, Passing, Timer, Due, Slot, DueBy, Fine, ListFine;
    base.Known();
    PassEnd(base.info, v0, now, Look(base), ran, base.heap, base.timedOut, false);
  }

  /** One turn of the loop, which starts a run. */
  method FirstTurn(base: Base, now: int, memory: bool, backend: bool) returns (ran: set<nat>)
    requires base.Valid() && base.running == NOBODY
    requires forall y :: y in base.interval ==> 0 <= base.interval[y].time
    modifies base
    ensures base.Valid() && base.running == NOBODY && base.interval == old(base.interval)
    ensures Passing(base.info, old(Look(base)), now, Look(base), ran, false)
  {
    hide Base.Core, Timed, TimersOk, AllServed, IntervalsOk, Passing, Due;
    ghost var heap, v0 := base.heap, Look(base);
    base.Known();
    base.TimeoutProcess(now);
    base.Known();
    PassStart(base.info, v0, now, heap, base.heap, Look(base), base.timedOut);
    PassLess(base.info, v0, now, Look(base));
    ghost var top;
    ran, top := ProcessActive(base, now, memory, backend, v0, {});
    AllOne(ran);
  }

  lemma PassLess(info: map<nat, Info>, v0: View, now: int, v: View)
    requires Passing(info, v0, now, v, {}, true)
    ensures Passing(info, v0, now, v, {}, false)
  {
    hide Timer, EventFine, ListFine, DueBy;
  }

  /** A later turn. */
  method NextTurn(base: Base, before: int, now: int, memory: bool, backend: bool, ghost v0: View, ghost all: set<nat>)
    returns (ran: set<nat>)
    requires base.Valid() && base.running == NOBODY && before <= now
    requires forall y :: y in base.interval ==> 0 <= base.interval[y].time
    requires Passing(base.info, v0, before, Look(base), all, false)
    modifies base
    ensures base.Valid() && base.running == NOBODY && base.interval == old(base.interval)
    ensures Passing(base.info, v0, now, Look(base), all + ran, false)
  {
    hide Base.Core, Timed, TimersOk, AllServed, IntervalsOk, Passing, Due;
    ghost var heap, v := base.heap, Look(base);
    base.Known();
    base.TimeoutProcess(now);
    base.Known();
    PassAgain(base.info, v0, before, now, heap, base.heap, v, Look(base), all, base.timedOut);
    ghost var top;
    ran, top := ProcessActive(base, now, memory, backend, v0, all);
  }
}
