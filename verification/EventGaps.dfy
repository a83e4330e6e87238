/** Runs in which a list loses its timer, an event its place in the heap, and a persistent event
    comes round at once. */
module EventGaps {
  import opened Common
  import opened TailQueue
  import opened ActiveQueues
  import opened Timeouts
  import opened EventLoop

  /** Two lists' timers and eight other events, of one priority. */
  function Events(): map<nat, Info> {
    var timer, event := Info(0, true, false, false), Info(0, false, false, false);
    map[0 := timer, 1 := timer, 2 := event, 3 := event, 4 := event,
        5 := event, 6 := event, 7 := event, 8 := event, 9 := event]
  }

  /** What the heap holds when the events from 3 on have been added. */
  ghost function Held(i: nat): set<nat> {
    if i <= 3 then {0} else Held(i - 1) + {i - 1}
  }

  lemma {:induction false} HeldIs(i: nat)
    requires 3 <= i
    ensures |Held(i)| == i - 2 && forall x :: x in Held(i) <==> x == 0 || 3 <= x < i
  {
    if 3 < i {
      HeldIs(i - 1);
    }
  }

  /** Event 2 waits in list 0, list 1 is empty, and the events from 3 to i are in the heap. */
  ghost predicate Filled(base: Base, i: nat)
    reads base
  {
    && base.Valid() && base.info == Events() && base.running == NOBODY && base.lost == {} && base.interval == map[]
    && TwoLists(base.common) && base.room == 8 && base.heap == Held(i)
    && (forall x :: (x, Timeout) in base.on <==> x == 0 || x == 2 || 3 <= x < i)
    && Slot(base.slot, 2) == 0 && (1, Active) !in base.on
  }

  ghost predicate TwoLists(common: seq<Ctl>) {
    |common| == 2 && common[0].timer == 0 && common[1].timer == 1
  }

  lemma NotTimer(common: seq<Ctl>, x: nat)
    requires TwoLists(common)
    ensures !Timer(common, x) <==> 2 <= x
  {
    assert Timer(common, common[0].timer) && Timer(common, common[1].timer);
  }

  lemma AddedFirst(heap: set<nat>, common: seq<Ctl>, on: set<(nat, Flag)>, slot: map<nat, int>, due: map<nat, int>,
                   info: map<nat, Info>, timedOut: set<nat>, common0: seq<Ctl>)
    requires Timed(heap, common, on, slot, due) && TimersOk(common, info, on, slot, timedOut)
    requires AllServed(common, on, due, NOBODY, {}) && TwoLists(common) && TwoLists(common0)
    requires TimersStep(common0, {}, map[], common, on, due, 2, 0)
    requires OthersSame(common, 2, {}, map[], map[], on, due, slot)
    requires (2, Timeout) in on && Slot(slot, 2) == 0
    ensures heap == Held(3) && (1, Active) !in on && forall x :: (x, Timeout) in on <==> x == 0 || x == 2
  {
    HeldIs(3);
    assert 2 in common[0].events && Served(common[0], on, due, NOBODY);
    assert TimerStep(common0[0], {}, map[], common[0], on, due, 2, true);
    assert TimerStep(common0[1], {}, map[], common[1], on, due, 2, false);
    assert TimerOk(common[0].timer, info, on, slot, timedOut) && TimerOk(common[1].timer, info, on, slot, timedOut);
    forall x: nat
      ensures (x, Timeout) in on <==> x == 0 || x == 2
    {
      NotTimer(common, x);
    }
  }

  lemma EightAtFirst()
    ensures Reserved(0, 1) == 8
  {
  }

  /** A base with two lists and nothing in them. */
  method NewLists() returns (base: Base)
    ensures fresh(base) && base.Valid() && base.info == Events() && base.running == NOBODY && TwoLists(base.common)
    ensures base.on == {} && base.heap == {} && base.room == 0 && base.lost == {} && base.interval == map[]
    ensures base.slot == map[] && base.due == map[] && base.timedOut == {}
  {
    hide Base.Valid, Timer;
    base := new Base(Events(), 1);
    NoLists(base.common);
    var _ := base.InitCommonTimeout(0, 5, true);
    OneList(base.common);
    var _ := base.InitCommonTimeout(1, 7, true);
  }

  method AddFirst() returns (base: Base)
    ensures fresh(base) && Filled(base, 3)
  {
    hide Base.Core, Timed, AllServed, TimersOk, IntervalsOk, TimersStep, OthersSame, Silent, First, Timer, Held;
    hide Reserved;
    base := NewLists();
    NotTimer(base.common, 2);
    EightAtFirst();
    ghost var common0 := base.common;
    var _ := base.Add(2, Some(Tv(5, 0)), false, 0, true, true);
    assert base.lost == {};
    base.Known();
    AddedFirst(base.heap, base.common, base.on, base.slot, base.due, base.info, base.timedOut, common0);
  }

  lemma NoLists(common: seq<Ctl>)
    requires common == []
    ensures forall x :: !Timer(common, x)
  {
  }

  lemma OneList(common: seq<Ctl>)
    requires |common| == 1 && common[0].timer == 0
    ensures !Timer(common, 1)
  {
  }

  lemma AddedNext(heap: set<nat>, common: seq<Ctl>, on: set<(nat, Flag)>, slot: map<nat, int>, due: map<nat, int>,
                  info: map<nat, Info>, timedOut: set<nat>, i: nat,
                  common': seq<Ctl>, on': set<(nat, Flag)>, slot': map<nat, int>, due': map<nat, int>, heap': set<nat>)
    requires Timed(heap', common', on', slot', due') && TimersOk(common', info, on', slot', timedOut) && 3 <= i
    requires TwoLists(common) && TwoLists(common') && (1, Active) !in on && Slot(slot, 2) == 0
    requires forall x :: (x, Timeout) in on <==> x == 0 || x == 2 || 3 <= x < i
    requires forall x :: x in heap <==> x == 0 || 3 <= x < i
    requires Timed(heap, common, on, slot, due)
    requires TimersStep(common, on, due, common', on', due', i, HEAP)
    requires OthersSame(common', i, on, due, slot, on', due', slot')
    requires (i, Timeout) in on' && Slot(slot', i) == HEAP
    ensures heap' == Held(i + 1) && Slot(slot', 2) == 0 && (1, Active) !in on'
    ensures forall x :: (x, Timeout) in on' <==> x == 0 || x == 2 || 3 <= x < i + 1
  {
    hide Timed, TimersStep, OthersSame, Slot, Held, TimersOk, Due, TwoLists;
    HeldIs(i + 1);
    NotTimer(common', 2);
    TimersFlags(common, on, due, common', on', due', i);
    SameFor(common', i, on, due, slot, on', due', slot', 2);
    forall x: nat
      ensures (x, Timeout) in on' <==> x == 0 || x == 2 || 3 <= x < i + 1
      ensures x in heap' <==> x == 0 || 3 <= x < i + 1
    {
      NotTimer(common', x);
      InHeapIff(heap', common', on', slot', due', x);
      InHeapIff(heap, common, on, slot, due, x);
      TimerSlots(common', info, on', slot', timedOut);
      if 2 <= x && x != i {
        SameFor(common', i, on, due, slot, on', due', slot', x);
      }
    }
  }

  lemma InHeapIff(heap: set<nat>, common: seq<Ctl>, on: set<(nat, Flag)>, slot: map<nat, int>, due: map<nat, int>,
                  x: nat)
    requires Timed(heap, common, on, slot, due)
    ensures x in heap <==> (x, Timeout) in on && Slot(slot, x) == HEAP
  {
  }

  lemma SameFor(common: seq<Ctl>, i: nat, on: set<(nat, Flag)>, due: map<nat, int>, slot: map<nat, int>,
                on': set<(nat, Flag)>, due': map<nat, int>, slot': map<nat, int>, x: nat)
    requires OthersSame(common, i, on, due, slot, on', due', slot') && x != i && !Timer(common, x)
    ensures ((x, Timeout) in on' <==> (x, Timeout) in on) && Slot(slot', x) == Slot(slot, x)
  {
    hide Timer;
  }

  lemma TimerSlots(common: seq<Ctl>, info: map<nat, Info>, on: set<(nat, Flag)>, slot: map<nat, int>,
                   timedOut: set<nat>)
    requires TimersOk(common, info, on, slot, timedOut) && TwoLists(common)
    ensures Slot(slot, 0) == HEAP && Slot(slot, 1) == HEAP
  {
    assert TimerOk(common[0].timer, info, on, slot, timedOut) && TimerOk(common[1].timer, info, on, slot, timedOut);
  }

  /** Entering an event in the heap leaves the lists' timers alone. */
  lemma TimersFlags(common: seq<Ctl>, on: set<(nat, Flag)>, due: map<nat, int>, common': seq<Ctl>,
                    on': set<(nat, Flag)>,
                    due': map<nat, int>, i: nat)
    requires TimersStep(common, on, due, common', on', due', i, HEAP) && TwoLists(common)
    ensures (0, Timeout) in on' <==> (0, Timeout) in on
    ensures (1, Timeout) in on' <==> (1, Timeout) in on
    ensures (1, Active) in on' ==> (1, Active) in on
  {
    assert TimerStep(common[0], on, due, common'[0], on', due', i, false);
    assert TimerStep(common[1], on, due, common'[1], on', due', i, false);
  }

  method AddNext(base: Base, i: nat)
    requires Filled(base, i) && 3 <= i < 10
    modifies base
    ensures Filled(base, i + 1)
  {
    hide Queued, Timed, Users, Total, AllServed, TimersOk, IntervalsOk, TimersStep, OthersSame, Silent, First, Timer;
    hide Held;
    NotTimer(base.common, i);
    HeldIs(i);
    base.Known();
    ghost var h0, c0, on0, s0, d0 := base.heap, base.common, base.on, base.slot, base.due;
    var _ := base.Add(i, Some(Tv(50, HEAP)), false, 0, true, true);
    base.Known();
    AddedNext(h0, c0, on0, s0, d0, base.info, base.timedOut, i, base.common, base.on, base.slot, base.due, base.heap);
  }

  /** A base whose heap is at its capacity. */
  method Fill() returns (base: Base)
    ensures fresh(base) && Filled(base, 10) && base.room == |base.heap|
  {
    base := AddFirst();
    for i := 3 to 10
      invariant fresh(base) && Filled(base, i)
    {
      AddNext(base, i);
    }
    HeldIs(10);
  }

  /** Moving event 2 to list 1 succeeds, but without memory the list is left without its timer. */
  method LoseTimer() returns (base: Base, r: int)
    ensures fresh(base) && base.Valid() && r == 0 && base.lost == {1}
    ensures 1 < |base.common| && base.common[1].events != [] && !Served(base.common[1], base.on, base.due, base.running)
  {
    hide Queued, Timed, Users, Total, AllServed, TimersOk, IntervalsOk, TimersStep, OthersSame, Timer, Held;
    base := Fill();
    NotTimer(base.common, 2);
    base.Known();
    HeldIs(10);
    Empty(base.heap, base.common, base.on, base.slot, base.due);
    r := base.Add(2, Some(Tv(7, 1)), false, 0, false, true);
  }

  lemma Empty(heap: set<nat>, common: seq<Ctl>, on: set<(nat, Flag)>, slot: map<nat, int>, due: map<nat, int>)
    requires Timed(heap, common, on, slot, due) && TwoLists(common) && Slot(slot, 2) == 0
    requires forall x :: (x, Timeout) in on ==> x == 2 || x in heap
    ensures forall x :: x !in common[1].events
  {
    forall x: nat
      ensures x !in common[1].events
    {
      assert x in common[1].events <==> (x, Timeout) in on && Slot(slot, x) == 1;
    }
  }

  /** Moving it to the heap succeeds, but without memory the heap does not hold it. */
  method LoseTimeout() returns (base: Base, r: int)
    ensures fresh(base) && r == 0 && !base.Valid() && (2, Timeout) in base.on && Slot(base.slot, 2) == HEAP
    ensures 2 !in base.heap
  {
    hide Queued, Timed, Users, Total, AllServed, TimersOk, IntervalsOk, TimersStep, OthersSame, Timer, Held, First;
    base := Fill();
    NotTimer(base.common, 2);
    r := base.Add(2, Some(Tv(7, HEAP)), false, 0, false, true);
  }

  /** A persistent event that is due one interval before now is entered again for exactly now. */
  method ComeRound() returns (base: Base)
    ensures fresh(base) && base.Valid() && (0, Timeout) in base.on && Due(base.due, 0) == 10
  {
    hide Queued, Timed, Users, Total, AllServed, TimersOk, IntervalsOk, TimersStep, OthersSame, First;
    base := new Base(map[0 := Info(0, false, true, false)], 1);
    NoLists(base.common);
    var r := base.Add(0, Some(Tv(5, HEAP)), false, 0, true, true);
    base.Known();
    assert 0 in base.heap && Due(base.due, 0) == 5;
    base.TimeoutProcess(10);
    Front(base);
    base.StartCallback(0);
    var _ := base.PersistReadd(0, 10, true, true);
  }

  lemma Front(base: Base)
    requires base.Valid() && (0, Active) in base.on && base.info == map[0 := Info(0, false, true, false)]
    requires base.priorities == 1
    ensures |base.active| == 1 && base.active[0] != [] && base.active[0][0] == 0
  {
    assert 0 in base.active[0];
    var x := base.active[0][0];
    assert x in base.active[0];
    assert x in base.info;
  }
}
