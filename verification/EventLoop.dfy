/** Lists without repetition, as the tail queues of an event base are. */
module TailQueue {
  ghost predicate NoDup(q: seq<nat>) {
    forall i, j :: 0 <= i < j < |q| ==> q[i] != q[j]
  }

  /** TAILQ_REMOVE */
  function Removed(q: seq<nat>, x: nat): seq<nat> {
    if q == [] then [] else if q[0] == x then q[1..] else [q[0]] + Removed(q[1..], x)
  }

  lemma {:induction false} RemovedIs(q: seq<nat>, x: nat)
    requires NoDup(q) && x in q
    ensures NoDup(Removed(q, x)) && |Removed(q, x)| == |q| - 1
    ensures forall y :: y in Removed(q, x) <==> y in q && y != x
  {
    if q[0] == x {
      assert forall y :: y in q <==> y == x || y in q[1..];
      assert x !in q[1..];
    } else {
      assert forall y :: y in q <==> y == q[0] || y in q[1..];
      assert q[0] !in q[1..];
      RemovedIs(q[1..], x);
      var r := Removed(q[1..], x);
      assert forall i :: 0 <= i < |r| ==> r[i] in r;
    }
  }

  lemma Appended(q: seq<nat>, x: nat)
    requires NoDup(q) && x !in q
    ensures NoDup(q + [x]) && forall y :: y in q + [x] <==> y in q || y == x
  {
  }

  /** How many elements several queues hold. */
  function Total(qs: seq<seq<nat>>): nat {
    if qs == [] then 0 else |qs[0]| + Total(qs[1..])
  }

  lemma {:induction false} TotalUpdate(qs: seq<seq<nat>>, p: nat, q: seq<nat>)
    requires p < |qs|
    ensures Total(qs[p := q]) == Total(qs) - |qs[p]| + |q|
  {
    if p == 0 {
      assert qs[p := q][1..] == qs[1..];
    } else {
      assert qs[p := q][1..] == qs[1..][p - 1 := q];
      TotalUpdate(qs[1..], p - 1, q);
    }
  }

  lemma {:induction false} TotalEmpty(qs: seq<seq<nat>>)
    requires forall p :: 0 <= p < |qs| ==> qs[p] == []
    ensures Total(qs) == 0
  {
    if qs != [] {
      TotalEmpty(qs[1..]);
    }
  }
}

/** The active queues and event counters of an event base. */
module ActiveQueues {
  import opened TailQueue

  /** EVLIST_INSERTED, EVLIST_TIMEOUT, EVLIST_ACTIVE and EVLIST_ACTIVE_LATER */
  datatype Flag = Inserted | Timeout | Active | Later

  /** What does not change about an event or callback: its priority, EVLIST_INTERNAL, EV_PERSIST,
      and whether it waits for a descriptor. */
  datatype Info = Info(pri: nat, internal: bool, persist: bool, io: bool)

  predicate IsUser(info: map<nat, Info>, x: nat) {
    x in info && !info[x].internal
  }

  /** The flags that count: those of events that are not internal. */
  ghost function Users(on: set<(nat, Flag)>, info: map<nat, Info>): set<(nat, Flag)> {
    set p | p in on && IsUser(info, p.0)
  }

  lemma UsersAdd(on: set<(nat, Flag)>, info: map<nat, Info>, x: nat, f: Flag)
    requires (x, f) !in on
    ensures |Users(on + {(x, f)}, info)| == |Users(on, info)| + if IsUser(info, x) then 1 else 0
  {
    var u := Users(on, info);
    assert Users(on + {(x, f)}, info) == if IsUser(info, x) then u + {(x, f)} else u;
  }

  lemma UsersDrop(on: set<(nat, Flag)>, info: map<nat, Info>, x: nat, f: Flag)
    requires (x, f) in on
    ensures |Users(on, info)| == |Users(on - {(x, f)}, info)| + if IsUser(info, x) then 1 else 0
  {
    var u := Users(on - {(x, f)}, info);
    assert Users(on, info) == if IsUser(info, x) then u + {(x, f)} else u;
  }

  /** Every callback is in exactly the queue its flags and its priority name. */
  ghost predicate Queued(active: seq<seq<nat>>, later: seq<nat>, on: set<(nat, Flag)>, info: map<nat, Info>) {
    && (forall p :: 0 <= p < |active| ==> NoDup(active[p]))
    && NoDup(later)
    && (forall p, x :: 0 <= p < |active| ==> (x in active[p] <==> (x, Active) in on && x in info && info[x].pri == p))
    && (forall x :: x in later <==> (x, Later) in on)
    && (forall x :: (x, Active) in on ==> (x, Later) !in on)
    && (forall q :: q in on ==> q.0 in info && info[q.0].pri < |active|)
  }

  /** At the end of the queue of its priority. */
  function Enqueued(active: seq<seq<nat>>, info: map<nat, Info>, x: nat): seq<seq<nat>> {
    if x in info && info[x].pri < |active| then active[info[x].pri := active[info[x].pri] + [x]] else active
  }

  function Unqueued(active: seq<seq<nat>>, info: map<nat, Info>, x: nat): seq<seq<nat>> {
    if x in info && info[x].pri < |active| then active[info[x].pri := Removed(active[info[x].pri], x)] else active
  }

  lemma InsertedActive(active: seq<seq<nat>>, later: seq<nat>, on: set<(nat, Flag)>, info: map<nat, Info>, x: nat)
    requires Queued(active, later, on, info) && x in info && info[x].pri < |active|
    requires (x, Active) !in on && (x, Later) !in on
    ensures var p := info[x].pri;
            && Queued(active[p := active[p] + [x]], later, on + {(x, Active)}, info)
            && Total(active[p := active[p] + [x]]) == Total(active) + 1
  {
    var p := info[x].pri;
    Appended(active[p], x);
    TotalUpdate(active, p, active[p] + [x]);
  }

  lemma RemovedActive(active: seq<seq<nat>>, later: seq<nat>, on: set<(nat, Flag)>, info: map<nat, Info>, x: nat)
    requires Queued(active, later, on, info) && (x, Active) in on
    ensures x in info && info[x].pri < |active| && x in active[info[x].pri]
    ensures var p := info[x].pri;
            var q := Removed(active[p], x);
            && Queued(active[p := q], later, on - {(x, Active)}, info)
            && Total(active[p := q]) == Total(active) - 1
  {
    var p := info[x].pri;
    assert (x, Active) in on;
    RemovedIs(active[p], x);
    TotalUpdate(active, p, Removed(active[p], x));
  }

  lemma InsertedLater(active: seq<seq<nat>>, later: seq<nat>, on: set<(nat, Flag)>, info: map<nat, Info>, x: nat)
    requires Queued(active, later, on, info) && x in info && info[x].pri < |active|
    requires (x, Active) !in on && (x, Later) !in on
    ensures Queued(active, later + [x], on + {(x, Later)}, info)
  {
    Appended(later, x);
  }

  lemma RemovedLater(active: seq<seq<nat>>, later: seq<nat>, on: set<(nat, Flag)>, info: map<nat, Info>, x: nat)
    requires Queued(active, later, on, info) && (x, Later) in on
    ensures Queued(active, Removed(later, x), on - {(x, Later)}, info) && |Removed(later, x)| == |later| - 1
  {
    RemovedIs(later, x);
  }

  /** Flags that name no queue. */
  lemma OtherFlag(active: seq<seq<nat>>, later: seq<nat>, on: set<(nat, Flag)>, info: map<nat, Info>, x: nat, f: Flag)
    requires Queued(active, later, on, info) && x in info && info[x].pri < |active| && (f == Inserted || f == Timeout)
    ensures Queued(active, later, on + {(x, f)}, info) && Queued(active, later, on - {(x, f)}, info)
  {
  }
}

/** Timeouts: the heap and the lists of common timeouts. */
module Timeouts {
  import opened Common
  import opened TailQueue
  import opened ActiveQueues

  /** struct common_timeout_list: its internal timer, its duration and its events. */
  datatype Ctl = Ctl(timer: nat, duration: int, events: seq<nat>)

  /** Which list an event's timeout belongs to; HEAP for none. */
  const HEAP: int := -1

  function Slot(slot: map<nat, int>, x: nat): int {
    if x in slot then slot[x] else HEAP
  }

  function Due(due: map<nat, int>, x: nat): int {
    if x in due then due[x] else 0
  }

  ghost predicate Sorted(q: seq<nat>, due: map<nat, int>) {
    forall i, j :: 0 <= i < j < |q| ==> Due(due, q[i]) <= Due(due, q[j])
  }

  ghost predicate Timed(heap: set<nat>, common: seq<Ctl>, on: set<(nat, Flag)>, slot: map<nat, int>, due: map<nat,
                        int>) {
    && (forall x :: x in heap <==> (x, Timeout) in on && Slot(slot, x) == HEAP)
    && (forall c, x :: 0 <= c < |common| ==> (x in common[c].events <==> (x, Timeout) in on && Slot(slot, x) == c))
    && (forall c :: 0 <= c < |common| ==> NoDup(common[c].events) && Sorted(common[c].events, due))
    && (forall x :: (x, Timeout) in on ==> HEAP <= Slot(slot, x) < |common|)
  }

  /** The capacity of the heap after min_heap_reserve_ has made room for n. */
  function Reserved(room: nat, n: nat): nat {
    if room < n then Max(if room == 0 then 8 else 2 * room % TWO32, n) else room
  }

  /** Where an event belongs in a sorted list: behind those that are not due after it. */
  ghost predicate Place(q: seq<nat>, due: map<nat, int>, x: nat, k: nat) {
    && k <= |q|
    && (0 < k ==> Due(due, q[k - 1]) <= Due(due, x))
    && (forall i :: k <= i < |q| ==> Due(due, x) < Due(due, q[i]))
  }

  lemma InsertMembers(q: seq<nat>, x: nat, k: nat)
    requires k <= |q|
    ensures forall y :: y in q[..k] + [x] + q[k..] <==> y in q || y == x
  {
    assert q == q[..k] + q[k..];
    assert forall y :: y in q <==> y in q[..k] || y in q[k..];
  }

  lemma InsertNoDup(q: seq<nat>, x: nat, k: nat)
    requires NoDup(q) && x !in q && k <= |q|
    ensures NoDup(q[..k] + [x] + q[k..])
  {
    var r := q[..k] + [x] + q[k..];
    forall i, j | 0 <= i < j < |r|
      ensures r[i] != r[j]
    {
      assert r[i] == if i < k then q[i] else if i == k then x else q[i - 1];
      assert r[j] == if j < k then q[j] else if j == k then x else q[j - 1];
    }
  }

  lemma InsertSorted(q: seq<nat>, due: map<nat, int>, x: nat, k: nat)
    requires Sorted(q, due) && Place(q, due, x, k)
    ensures Sorted(q[..k] + [x] + q[k..], due)
  {
    hide Due;
    var r := q[..k] + [x] + q[k..];
    assert forall i :: 0 <= i < |r| ==> r[i] == if i < k then q[i] else if i == k then x else q[i - 1];
    assert forall i :: 0 <= i < k ==> Due(due, q[i]) <= Due(due, x);
  }

  /** What follows an element is what remains of the list behind it. */
  lemma TailMembers(q: seq<nat>, due: map<nat, int>)
    requires q != [] && NoDup(q) && Sorted(q, due)
    ensures NoDup(q[1..]) && Sorted(q[1..], due) && q[0] !in q[1..]
    ensures forall y :: y in q <==> y == q[0] || y in q[1..]
    ensures forall y :: y in q[1..] ==> Due(due, q[0]) <= Due(due, y)
  {
    hide Due;
    assert forall y :: y in q[1..] ==> exists i :: 1 <= i < |q| && q[i] == y;
  }

  lemma FrontSorted(r: seq<nat>, due: map<nat, int>, x: nat)
    requires Sorted(r, due) && forall y :: y in r ==> Due(due, x) <= Due(due, y)
    ensures Sorted([x] + r, due)
  {
    hide Due;
    assert forall i :: 0 <= i < |r| ==> r[i] in r;
  }

  lemma {:induction false} RemovedSorted(q: seq<nat>, due: map<nat, int>, x: nat)
    requires NoDup(q) && Sorted(q, due) && x in q
    ensures NoDup(Removed(q, x)) && Sorted(Removed(q, x), due)
    ensures forall y :: y in Removed(q, x) <==> y in q && y != x
    ensures Removed(q, x) != [] ==> Due(due, q[0]) <= Due(due, Removed(q, x)[0])
  {
    hide Due, Sorted, NoDup;
    RemovedIs(q, x);
    TailMembers(q, due);
    if q[0] != x {
      RemovedSorted(q[1..], due, x);
      FrontSorted(Removed(q[1..], x), due, q[0]);
    } else if q[1..] != [] {
      assert q[1..][0] in q[1..];
    }
  }

  /** Entering a timeout, in the heap or at its place in a list. */
  lemma EnteredHeap(heap: set<nat>, common: seq<Ctl>, on: set<(nat, Flag)>, slot: map<nat, int>, due: map<nat, int>,
                    x: nat)
    requires Timed(heap, common, on, slot, due) && (x, Timeout) !in on && Slot(slot, x) == HEAP
    ensures Timed(heap + {x}, common, on + {(x, Timeout)}, slot, due)
  {
  }

  lemma EnteredList(heap: set<nat>, common: seq<Ctl>, on: set<(nat, Flag)>, slot: map<nat, int>, due: map<nat, int>,
                    x: nat, k: nat)
    requires Timed(heap, common, on, slot, due) && (x, Timeout) !in on && 0 <= Slot(slot, x) < |common|
    requires Place(common[Slot(slot, x)].events, due, x, k)
    ensures var c := Slot(slot, x);
            var q := common[c].events;
            Timed(heap, common[c := common[c].(events := q[..k] + [x] + q[k..])], on + {(x, Timeout)}, slot, due)
  {
    var c := Slot(slot, x);
    var q := common[c].events;
    InsertNoDup(q, x, k);
    InsertMembers(q, x, k);
    InsertSorted(q, due, x, k);
  }

  lemma LeftHeap(heap: set<nat>, common: seq<Ctl>, on: set<(nat, Flag)>, slot: map<nat, int>, due: map<nat, int>,
                 x: nat)
    requires Timed(heap, common, on, slot, due) && (x, Timeout) in on && Slot(slot, x) == HEAP
    ensures Timed(heap - {x}, common, on - {(x, Timeout)}, slot, due)
  {
  }

  lemma LeftList(heap: set<nat>, common: seq<Ctl>, on: set<(nat, Flag)>, slot: map<nat, int>, due: map<nat, int>,
                 x: nat)
    requires Timed(heap, common, on, slot, due) && (x, Timeout) in on && Slot(slot, x) != HEAP
    ensures 0 <= Slot(slot, x) < |common| && x in common[Slot(slot, x)].events && x !in heap
    ensures var c := Slot(slot, x);
            var q := Removed(common[c].events, x);
            Timed(heap, common[c := common[c].(events := q)], on - {(x, Timeout)}, slot, due)
  {
    RemovedSorted(common[Slot(slot, x)].events, due, x);
  }

  /** Flags other than the timeout flag, and the times of events that have none. */
  lemma SameTimed(heap: set<nat>, common: seq<Ctl>, on: set<(nat, Flag)>, slot: map<nat, int>, due: map<nat, int>,
                  on': set<(nat, Flag)>, slot': map<nat, int>, due': map<nat, int>)
    requires Timed(heap, common, on, slot, due)
    requires forall x :: (x, Timeout) in on <==> (x, Timeout) in on'
    requires forall x :: (x, Timeout) in on ==> Slot(slot, x) == Slot(slot', x) && Due(due, x) == Due(due', x)
    ensures Timed(heap, common, on', slot', due')
  {
    forall c | 0 <= c < |common|
      ensures Sorted(common[c].events, due')
    {
      var q := common[c].events;
      assert forall i :: 0 <= i < |q| ==> q[i] in q;
      assert Sorted(q, due);
    }
  }
}

/** An event base: its queues, counters and timeouts under the steps of its loop, of callbacks
    and of other threads. */
module EventLoop {
  import opened Common
  import opened TailQueue
  import opened ActiveQueues
  import opened Timeouts

  /** A timeout and the common list it belongs to, or HEAP. */
  datatype Tv = Tv(time: int, list: int)

  const MAX_COMMON_TIMEOUTS: nat := 256
  const NOBODY: int := -1

  /** Whoever waits in this list will be woken in time: its timer is set for the head or
      before, or is active, or its callback is about to look at the list. */
  ghost predicate Served(ctl: Ctl, on: set<(nat, Flag)>, due: map<nat, int>, running: int) {
    || ctl.events == []
    || (ctl.timer, Active) in on
    || running == ctl.timer
    || ((ctl.timer, Timeout) in on && Due(due, ctl.timer) <= Due(due, ctl.events[0]))
  }

  /** A list's timer is an internal event that only its timeout can activate. */
  ghost predicate TimerOk(x: nat, info: map<nat, Info>, on: set<(nat, Flag)>, slot: map<nat, int>, timedOut: set<nat>) {
    && x in info && info[x].internal && !info[x].persist && !info[x].io && Slot(slot, x) == HEAP
    && (x, Later) !in on && (x, Inserted) !in on && ((x, Active) in on ==> x in timedOut && (x, Timeout) !in on)
  }

  ghost predicate TimersOk(common: seq<Ctl>, info: map<nat, Info>, on: set<(nat, Flag)>, slot: map<nat, int>,
                           timedOut: set<nat>) {
    && (forall c :: 0 <= c < |common| ==> TimerOk(common[c].timer, info, on, slot, timedOut))
    && (forall c, d :: 0 <= c < d < |common| ==> common[c].timer != common[d].timer)
  }

  /** Taking the timeout of x off the heap or its list. */
  lemma LeftTimeout(heap: set<nat>, common: seq<Ctl>, on: set<(nat, Flag)>, slot: map<nat, int>, due: map<nat, int>,
                    x: nat)
    requires Timed(heap, common, on, slot, due) && (x, Timeout) in on
    ensures Timed(heap - {x}, Dropped(common, Slot(slot, x), x), on - {(x, Timeout)}, slot, due)
    ensures |heap - {x}| <= |heap|
    ensures if Slot(slot, x) == HEAP then Dropped(common, HEAP, x) == common else heap - {x} == heap
  {
    hide Timed;
    if Slot(slot, x) == HEAP {
      LeftHeap(heap, common, on, slot, due, x);
    } else {
      LeftList(heap, common, on, slot, due, x);
      assert heap - {x} == heap;
    }
  }

  /** Every list is served, except those that have lost their timer. */
  ghost predicate AllServed(common: seq<Ctl>, on: set<(nat, Flag)>, due: map<nat, int>, running: int, lost: set<int>) {
    forall c :: 0 <= c < |common| && c !in lost ==> Served(common[c], on, due, running)
  }

  /** x is the timer of a list. */
  ghost predicate Timer(common: seq<Ctl>, x: nat) {
    exists c :: 0 <= c < |common| && common[c].timer == x
  }

  /** ev_io_timeout names the list that ev_timeout names, as event_persist_closure asserts. */
  ghost predicate IntervalsOk(interval: map<nat, Tv>, info: map<nat, Info>, slot: map<nat, int>, lists: nat) {
    forall x :: x in interval ==>
      x in info && info[x].persist && HEAP <= interval[x].list < lists && Slot(slot, x) == interval[x].list
  }

  /** Nothing will make the callback of this timer run. */
  ghost predicate Silent(t: nat, on: set<(nat, Flag)>, running: int) {
    (t, Timeout) !in on && (t, Active) !in on && running != t
  }

  /** Nobody else in the list is due by then. */
  ghost predicate First(q: seq<nat>, due: map<nat, int>, x: nat, time: int) {
    forall y :: y in q && y != x ==> time < Due(due, y)
  }

  /** The lists without a timer after one event_add: only the list whose head changes is
      concerned. */
  ghost function LostBy(lost: set<int>, list: int, first: bool, loses: bool): set<int> {
    if !first then lost else if loses then lost + {list} else lost - {list}
  }

  /** Nobody but t is concerned. */
  ghost predicate Only(t: nat, on: set<(nat, Flag)>, due: map<nat, int>, slot: map<nat, int>,
                       on': set<(nat, Flag)>, due': map<nat, int>, slot': map<nat, int>) {
    && (forall q: (nat, Flag) :: q.0 != t ==> (q in on' <==> q in on))
    && (forall y :: y != t ==> Due(due', y) == Due(due, y) && Slot(slot', y) == Slot(slot, y))
  }

  lemma OnlyTimer(on: set<(nat, Flag)>, due: map<nat, int>, slot: map<nat, int>, t: nat, time: int, was: bool)
    ensures Only(t, on, due, slot, on, due, slot)
    ensures Only(t, on, due, slot, on - (if was then {(t, Active)} else {}) + {(t, Timeout)},
                 due[t := time], slot[t := HEAP])
  {
  }

  lemma OnlyX(common: seq<Ctl>, x: nat, time: int, list: int, was: bool, on: set<(nat, Flag)>, due: map<nat, int>,
              slot: map<nat, int>)
    ensures OthersSame(common, x, on, due, slot, on - (if was then {(x, Active)} else {}) + {(x, Timeout)},
                       due[x := time], slot[x := list])
  {
  }

  /** Nobody but x and then t. */
  lemma OnlyBoth(common: seq<Ctl>, x: nat, t: nat, time: int, list: int, was: bool,
                 on: set<(nat, Flag)>, due: map<nat, int>, slot: map<nat, int>,
                 on1: set<(nat, Flag)>, on': set<(nat, Flag)>, due': map<nat, int>, slot': map<nat, int>)
    requires on1 == on - (if was then {(x, Active)} else {}) + {(x, Timeout)}
    requires Timer(common, t) && !Timer(common, x) && Only(t, on1, due[x := time], slot[x := list], on', due', slot')
    ensures OthersSame(common, x, on, due, slot, on', due', slot')
    ensures Due(due', x) == time && Slot(slot', x) == list && forall f: Flag :: (x, f) in on' <==> (x, f) in on1
  {
    hide Timer;
  }

  /** Neither x nor a list's timer is concerned. */
  ghost predicate OthersSame(common: seq<Ctl>, x: nat, on: set<(nat, Flag)>, due: map<nat, int>, slot: map<nat, int>,
                             on': set<(nat, Flag)>, due': map<nat, int>, slot': map<nat, int>) {
    && (forall q: (nat, Flag) :: q.0 != x && !Timer(common, q.0) ==> (q in on' <==> q in on))
    && (forall y :: y != x && !Timer(common, y) ==> Due(due', y) == Due(due, y) && Slot(slot', y) == Slot(slot, y))
  }

  /** When an event with this timeout is due. */
  function Time(tv: Tv, absolute: bool, now: int): int {
    tv.time + if absolute then 0 else now
  }

  /** The same lists with the same timers. */
  ghost predicate SameTimers(common: seq<Ctl>, common': seq<Ctl>) {
    |common| == |common'| && forall c :: 0 <= c < |common| ==> common'[c].timer == common[c].timer
  }

  /** No list has got an earlier head. */
  ghost predicate HeadsLater(common: seq<Ctl>, due: map<nat, int>, common': seq<Ctl>, due': map<nat, int>) {
    forall c :: 0 <= c < |common| == |common'| && common'[c].events != [] ==>
      common[c].events != [] && Due(due, common[c].events[0]) <= Due(due', common'[c].events[0])
  }

  /** The timers are as they were. */
  ghost predicate TimersKept(common: seq<Ctl>, on: set<(nat, Flag)>, due: map<nat, int>, on': set<(nat, Flag)>,
                             due': map<nat, int>) {
    forall c :: 0 <= c < |common| ==>
      var t := common[c].timer;
      (forall f: Flag :: (t, f) in on <==> (t, f) in on') && Due(due, t) == Due(due', t)
  }

  lemma StillServed(common: seq<Ctl>, on: set<(nat, Flag)>, due: map<nat, int>, running: int, lost: set<int>,
                    common': seq<Ctl>, on': set<(nat, Flag)>, due': map<nat, int>)
    requires AllServed(common, on, due, running, lost) && SameTimers(common, common')
    requires HeadsLater(common, due, common', due') && TimersKept(common, on, due, on', due')
    ensures AllServed(common', on', due', running, lost)
  {
    hide Due;
    forall c | 0 <= c < |common'| && c !in lost
      ensures Served(common'[c], on', due', running)
    {
      assert Served(common[c], on, due, running);
    }
  }

  lemma StillTimers(common: seq<Ctl>, info: map<nat, Info>, on: set<(nat, Flag)>, slot: map<nat, int>,
                    timedOut: set<nat>,
                    due: map<nat, int>, common': seq<Ctl>, on': set<(nat, Flag)>, due': map<nat, int>,
                    slot': map<nat, int>, timedOut': set<nat>)
    requires TimersOk(common, info, on, slot, timedOut) && SameTimers(common, common')
    requires TimersKept(common, on, due, on', due')
    requires forall c :: 0 <= c < |common| ==> Slot(slot', common[c].timer) == Slot(slot, common[c].timer)
    requires forall c :: 0 <= c < |common| && common[c].timer in timedOut ==> common[c].timer in timedOut'
    ensures TimersOk(common', info, on', slot', timedOut')
  {
    forall c | 0 <= c < |common'|
      ensures TimerOk(common'[c].timer, info, on', slot', timedOut')
    {
      assert TimerOk(common[c].timer, info, on, slot, timedOut);
    }
  }

  /** Dropping an event from its list leaves later heads. */
  lemma DroppedHeads(heap: set<nat>, common: seq<Ctl>, on: set<(nat, Flag)>, slot: map<nat, int>, due: map<nat, int>,
                     x: nat)
    requires Timed(heap, common, on, slot, due) && (x, Timeout) in on
    ensures SameTimers(common, Dropped(common, Slot(slot, x), x))
    ensures HeadsLater(common, due, Dropped(common, Slot(slot, x), x), due)
  {
    hide Due;
    var c := Slot(slot, x);
    if 0 <= c < |common| {
      assert x in common[c].events;
      RemovedSorted(common[c].events, due, x);
    }
  }

  /** Without x in any list, its time does not matter. */
  lemma NotHead(heap: set<nat>, common: seq<Ctl>, on: set<(nat, Flag)>, slot: map<nat, int>, due: map<nat, int>, x: nat,
                time: int)
    requires Timed(heap, common, on, slot, due)
    ensures var was := if (x, Timeout) in on then Dropped(common, Slot(slot, x), x) else common;
            HeadsLater(common, due, was, due[x := time]) && SameTimers(common, was)
  {
    var was := if (x, Timeout) in on then Dropped(common, Slot(slot, x), x) else common;
    forall c | 0 <= c < |common|
      ensures x !in was[c].events
      ensures was[c].timer == common[c].timer
      ensures was[c].events != [] ==>
        common[c].events != [] && Due(due, common[c].events[0]) <= Due(due, was[c].events[0])
    {
      if (x, Timeout) in on && Slot(slot, x) == c {
        assert x in common[c].events;
        RemovedSorted(common[c].events, due, x);
      }
    }
    forall c | 0 <= c < |common| && was[c].events != []
      ensures Due(due, was[c].events[0]) == Due(due[x := time], was[c].events[0])
    {
      assert was[c].events[0] in was[c].events;
    }
  }

  /** The timers of the lists after the time of another event has been set. */
  lemma OthersKept(common: seq<Ctl>, on: set<(nat, Flag)>, due: map<nat, int>, x: nat, time: int, on': set<(nat, Flag)>)
    requires forall c :: 0 <= c < |common| ==> common[c].timer != x
    requires forall q: (nat, Flag) :: q.0 != x ==> (q in on <==> q in on')
    ensures TimersKept(common, on, due, on', due[x := time])
  {
  }

  /** Putting x at place k of its list changes the head only if k is 0. */
  lemma PutServed(was: seq<Ctl>, on: set<(nat, Flag)>, due: map<nat, int>, running: int, lost: set<int>, x: nat,
                  list: nat, k: nat,
                  common: seq<Ctl>)
    requires AllServed(was, on, due, running, lost) && list < |was| && k <= |was[list].events|
    requires common == was[list := was[list].(events := was[list].events[..k] + [x] + was[list].events[k..])]
    ensures OthersServed(common, list, on, due, running, lost) && (0 < k ==> AllServed(common, on, due, running, lost))
    ensures SameTimers(was, common) && common[list].events != []
    ensures if k == 0 then common[list].events[0] == x else common[list].events[0] == was[list].events[0]
  {
    assert list !in lost ==> Served(was[list], on, due, running);
  }

  /** Where x goes tells whether it is the first. */
  lemma FirstPlace(events: seq<nat>, due: map<nat, int>, x: nat, time: int, q: seq<nat>, k: nat)
    requires NoDup(events) && (x in events ==> q == Removed(events, x)) && (x !in events ==> q == events)
    requires Place(q, due[x := time], x, k)
    ensures First(events, due, x, time) <==> k == 0
  {
    if x in events {
      RemovedIs(events, x);
    }
    if 0 < k {
      assert q[k - 1] in q;
    }
  }

  /** Setting a list's timer for its head serves the list. */
  lemma Scheduled(heap: set<nat>, common: seq<Ctl>, on: set<(nat, Flag)>, slot: map<nat, int>, due: map<nat, int>,
                  info: map<nat, Info>, timedOut: set<nat>, running: int, lost: set<int>, c: nat, on': set<(nat, Flag)>)
    requires Timed(heap, common, on, slot, due) && TimersOk(common, info, on, slot, timedOut)
    requires c < |common| && common[c].events != [] && OthersServed(common, c, on, due, running, lost)
    requires var t := common[c].timer;
             on' == on - (if t in timedOut then {(t, Active)} else {}) + {(t, Timeout)}
    ensures var t := common[c].timer;
            var due' := due[t := Due(due, common[c].events[0])];
            AllServed(common, on', due', running, lost - {c}) && TimersOk(common, info, on', slot[t := HEAP], timedOut)
  {
    var t := common[c].timer;
    var due' := due[t := Due(due, common[c].events[0])];
    assert TimerOk(t, info, on, slot, timedOut);
    forall d | 0 <= d < |common| && d !in lost - {c}
      ensures Served(common[d], on', due', running)
    {
      if common[d].events != [] {
        assert common[d].events[0] in common[d].events;
      }
      assert d != c ==> common[d].timer != t && Served(common[d], on, due, running);
    }
    forall d | 0 <= d < |common|
      ensures TimerOk(common[d].timer, info, on', slot[t := HEAP], timedOut)
    {
      assert TimerOk(common[d].timer, info, on, slot, timedOut);
    }
  }

  class Base {
    const info: map<nat, Info>
    const priorities: nat
    var active: seq<seq<nat>>
    var later: seq<nat>
    var on: set<(nat, Flag)>
    var heap: set<nat>
    var common: seq<Ctl>
    var slot: map<nat, int>
    var due: map<nat, int>
    /** Events whose ev_res has EV_TIMEOUT. */
    var timedOut: set<nat>
    /** ev_io_timeout of persistent events. */
    var interval: map<nat, Tv>
    var count: int
    var countActive: int
    /** The callback being run, or NOBODY: current_event. */
    var running: int
    /** How many events the heap has memory for. */
    var room: nat
    /** virtual_event_count */
    var virtuals: nat
    /** Lists that wait although their timer could not be entered in the heap. */
    ghost var lost: set<int>

    ghost predicate Core()
      reads `active, `later, `on, `heap, `common, `slot, `due, `count, `countActive, `room
    {
      && |active| == priorities && (forall x :: x in info ==> info[x].pri < priorities)
      && Queued(active, later, on, info) && Timed(heap, common, on, slot, due)
      && count == |Users(on, info)| && countActive == |later| + Total(active) && |heap| <= room
    }

    ghost predicate Valid()
      reads this
    {
      && Core() && TimersOk(common, info, on, slot, timedOut) && AllServed(common, on, due, running, lost)
      && IntervalsOk(interval, info, slot, |common|)
    }

    /** Nothing has been reserved in the heap for x, which waits in a list. */
    ghost predicate Unreserved(x: nat, memory: bool)
      reads `on, `slot, `room, `heap
    {
      (x, Timeout) in on && Slot(slot, x) != HEAP && room <= |heap| && !memory
    }

    /** When an event_add makes a list lose its timer: x moves to the front of the list, no room
        has been reserved for the timer, and nothing else will look at the list. */
    ghost predicate Loses(x: nat, time: int, list: int, memory: bool)
      reads `on, `slot, `room, `heap, `common, `due, `running
    {
      && Unreserved(x, memory) && 0 <= list < |common| && First(common[list].events, due, x, time)
      && Silent(common[list].timer, on, running)
    }

    /** event_add has to tell the backend about x. */
    ghost predicate Registers(x: nat, on: set<(nat, Flag)>) {
      x in info && info[x].io && (x, Inserted) !in on && (x, Active) !in on && (x, Later) !in on
    }

    constructor (info: map<nat, Info>, priorities: nat)
      requires forall x :: x in info ==> info[x].pri < priorities
      ensures Valid() && on == {} && common == [] && running == NOBODY && this.info == info
      ensures this.priorities == priorities && lost == {}
      ensures heap == {} && room == 0 && slot == map[] && due == map[] && timedOut == {} && interval == map[]
    {
      this.info, this.priorities := info, priorities;
      active, later, on := seq(priorities, _ => []), [], {};
      heap, common, slot, due := {}, [], map[], map[];
      timedOut, interval, count, countActive, running := {}, map[], 0, 0, NOBODY;
      room, virtuals, lost := 0, 0, {};
      new;
      assert Users(on, info) == {};
      TotalEmpty(active);
    }

    /** INCR_EVENT_COUNT and DECR_EVENT_COUNT */
    method Counted(x: nat, n: int)
      requires x in info
      modifies `count
      ensures count == old(count) + if IsUser(info, x) then n else 0
    {
      count := count + if info[x].internal then 0 else n;
    }

    /** event_queue_remove_active */
    method QueueRemoveActive(x: nat)
      requires Core() && (x, Active) in on
      modifies `active, `on, `count, `countActive
      ensures Core() && on == old(on) - {(x, Active)}
      ensures active == Unqueued(old(active), info, x)
    {
      hide Queued, Timed, Users, Total;
      RemovedActive(active, later, on, info, x);
      UsersDrop(on, info, x, Active);
      SameTimed(heap, common, on, slot, due, on - {(x, Active)}, slot, due);
      Counted(x, -1);
      on := on - {(x, Active)};
      countActive := countActive - 1;
      active := Unqueued(active, info, x);
    }

    /** event_queue_insert_active */
    method QueueInsertActive(x: nat)
      requires Core() && x in info && (x, Later) !in on
      modifies `active, `on, `count, `countActive
      ensures Core() && on == old(on) + {(x, Active)}
      ensures active == if (x, Active) in old(on) then old(active) else Enqueued(old(active), info, x)
    {
      hide Queued, Timed, Users, Total;
      if (x, Active) in on {
        assert on == on + {(x, Active)};
        return;
      }
      InsertedActive(active, later, on, info, x);
      UsersAdd(on, info, x, Active);
      SameTimed(heap, common, on, slot, due, on + {(x, Active)}, slot, due);
      Counted(x, 1);
      on := on + {(x, Active)};
      countActive := countActive + 1;
      active := Enqueued(active, info, x);
    }

    /** event_queue_remove_active_later */
    method QueueRemoveLater(x: nat)
      requires Core() && (x, Later) in on
      modifies `later, `on, `count, `countActive
      ensures Core() && on == old(on) - {(x, Later)} && later == Removed(old(later), x)
    {
      hide Queued, Timed, Users, Total;
      KnownEvent(active, later, on, info, x, Later);
      RemovedLater(active, later, on, info, x);
      UsersDrop(on, info, x, Later);
      SameTimed(heap, common, on, slot, due, on - {(x, Later)}, slot, due);
      Counted(x, -1);
      on := on - {(x, Later)};
      countActive := countActive - 1;
      later := Removed(later, x);
    }

    /** event_queue_insert_active_later */
    method QueueInsertLater(x: nat)
      requires Core() && x in info
      modifies `later, `on, `count, `countActive
      ensures Core() && on == if (x, Active) in old(on) then old(on) else old(on) + {(x, Later)}
      ensures later == old(later) + if (x, Later) in old(on) || (x, Active) in old(on) then [] else [x]
    {
      hide Queued, Timed, Users, Total;
      if (x, Later) in on || (x, Active) in on {
        assert (x, Later) in on ==> on == on + {(x, Later)};
        return;
      }
      InsertedLater(active, later, on, info, x);
      UsersAdd(on, info, x, Later);
      SameTimed(heap, common, on, slot, due, on + {(x, Later)}, slot, due);
      Counted(x, 1);
      on := on + {(x, Later)};
      countActive := countActive + 1;
      later := later + [x];
    }

    /** event_queue_insert_inserted */
    method QueueInsertInserted(x: nat)
      requires Core() && x in info && (x, Inserted) !in on
      modifies `on, `count
      ensures Core() && on == old(on) + {(x, Inserted)}
    {
      hide Queued, Timed, Users, Total;
      OtherFlag(active, later, on, info, x, Inserted);
      UsersAdd(on, info, x, Inserted);
      SameTimed(heap, common, on, slot, due, on + {(x, Inserted)}, slot, due);
      Counted(x, 1);
      on := on + {(x, Inserted)};
    }

    /** event_queue_remove_inserted */
    method QueueRemoveInserted(x: nat)
      requires Core() && (x, Inserted) in on
      modifies `on, `count
      ensures Core() && on == old(on) - {(x, Inserted)}
    {
      hide Queued, Timed, Users, Total;
      KnownEvent(active, later, on, info, x, Inserted);
      OtherFlag(active, later, on, info, x, Inserted);
      UsersDrop(on, info, x, Inserted);
      SameTimed(heap, common, on, slot, due, on - {(x, Inserted)}, slot, due);
      Counted(x, -1);
      on := on - {(x, Inserted)};
    }

    /** event_queue_remove_timeout */
    method QueueRemoveTimeout(x: nat)
      requires Core() && (x, Timeout) in on
      modifies `on, `count, `heap, `common
      ensures Core() && on == old(on) - {(x, Timeout)} && heap == old(heap) - {x}
      ensures common == Dropped(old(common), Slot(slot, x), x)
    {
      hide Queued, Timed, Users, Total, Dropped;
      KnownEvent(active, later, on, info, x, Timeout);
      OtherFlag(active, later, on, info, x, Timeout);
      UsersDrop(on, info, x, Timeout);
      LeftTimeout(heap, common, on, slot, due, x);
      Counted(x, -1);
      on := on - {(x, Timeout)};
      if Slot(slot, x) != HEAP {
        common := Dropped(common, Slot(slot, x), x);
      } else {
        heap := heap - {x};
      }
    }

    /** insert_common_timeout_inorder: where the event goes. */
    method FindPlace(c: nat, x: nat) returns (k: nat)
      requires c < |common|
      ensures Place(common[c].events, due, x, k)
    {
      var q := common[c].events;
      k := |q|;
      while k > 0
        invariant k <= |q| && forall i :: k <= i < |q| ==> Due(due, x) < Due(due, q[i])
      {
        if Due(due, x) >= Due(due, q[k - 1]) {
          return;
        }
        k := k - 1;
      }
    }

    /** event_queue_insert_timeout for an event of a common list. */
    method InsertInList(x: nat) returns (ghost k: nat)
      requires Core() && x in info && (x, Timeout) !in on && 0 <= Slot(slot, x) < |common|
      modifies `on, `count, `common
      ensures Core() && on == old(on) + {(x, Timeout)}
      ensures var c := Slot(slot, x);
              var q := old(common)[c].events;
              Place(q, due, x, k) && common == old(common)[c := old(common)[c].(events := q[..k] + [x] + q[k..])]
    {
      hide Queued, Timed, Users, Total, Place;
      OtherFlag(active, later, on, info, x, Timeout);
      UsersAdd(on, info, x, Timeout);
      Counted(x, 1);
      var c := Slot(slot, x);
      var at := FindPlace(c, x);
      k := at;
      EnteredList(heap, common, on, slot, due, x, k);
      PlaceBound(common[c].events, due, x, k);
      on := on + {(x, Timeout)};
      common := common[c := common[c].(events := common[c].events[..at] + [x] + common[c].events[at..])];
    }

    /** The same for the heap: that min_heap_push_ fails goes unnoticed. */
    method InsertInHeap(x: nat, memory: bool) returns (ok: bool)
      requires Core() && x in info && (x, Timeout) !in on && Slot(slot, x) == HEAP
      modifies `on, `count, `heap, `room
      ensures ok <==> |old(heap)| < old(room) || memory
      ensures (ok ==> Core()) && on == old(on) + {(x, Timeout)}
      ensures heap == if ok then old(heap) + {x} else old(heap)
      ensures room == if ok then Reserved(old(room), |old(heap)| + 1) else old(room)
    {
      hide Queued, Timed, Users, Total;
      OtherFlag(active, later, on, info, x, Timeout);
      UsersAdd(on, info, x, Timeout);
      EnteredHeap(heap, common, on, slot, due, x);
      Counted(x, 1);
      on := on + {(x, Timeout)};
      if room < |heap| + 1 && !memory {
        return false;
      }
      room := Reserved(room, |heap| + 1);
      heap := heap + {x};
      ok := true;
    }

    /** event_queue_insert_timeout */
    method QueueInsertTimeout(x: nat, memory: bool) returns (ok: bool, ghost k: nat)
      requires Core() && x in info && (x, Timeout) !in on && HEAP <= Slot(slot, x) < |common|
      modifies `on, `count, `heap, `common, `room
      ensures ok <==> Slot(slot, x) != HEAP || |old(heap)| < old(room) || memory
      ensures (ok ==> Core()) && on == old(on) + {(x, Timeout)}
      ensures heap == if ok && Slot(slot, x) == HEAP then old(heap) + {x} else old(heap)
      ensures room == if ok && Slot(slot, x) == HEAP then Reserved(old(room), |old(heap)| + 1) else old(room)
      ensures var c := Slot(slot, x);
              if c == HEAP then common == old(common)
              else
                var q := old(common)[c].events;
                Place(q, due, x, k) && common == old(common)[c := old(common)[c].(events := q[..k] + [x] + q[k..])]
    {
      hide Core, Place, Reserved, Slot;
      ok, k := true, 0;
      if Slot(slot, x) != HEAP {
        k := InsertInList(x);
      } else {
        ok := InsertInHeap(x, memory);
      }
    }

    /** event_del_nolock_ */
    method EventDel(x: nat)
      requires Core() && x in info
      modifies `active, `later, `on, `heap, `common, `count, `countActive
      ensures Core() && on == old(on) - Flags(x) && heap == old(heap) - (if (x, Timeout) in old(on) then {x} else {})
      ensures active == if (x, Active) in old(on) then Unqueued(old(active), info, x) else old(active)
      ensures common == if (x, Timeout) in old(on) then Dropped(old(common), Slot(slot, x), x) else old(common)
    {
      hide Core, Dropped, Unqueued, Flags;
      Known();
      FlagsOff(on, x);
      assert heap - {} == heap;
      if (x, Active) in on {
        NotBoth(active, later, on, info, x);
      }
      NotThereToDrop(on, (x, Timeout));
      if (x, Timeout) in on {
        QueueRemoveTimeout(x);
      }
      NotThereToDrop(on, (x, Active));
      NotThereToDrop(on, (x, Later));
      NotThereToDrop(on - {(x, Active)}, (x, Later));
      if (x, Active) in on {
        QueueRemoveActive(x);
      } else if (x, Later) in on {
        QueueRemoveLater(x);
      }
      NotThereToDrop(on, (x, Inserted));
      if (x, Inserted) in on {
        QueueRemoveInserted(x);
      }
    }

    /** event_active_nolock_ and event_callback_activate_nolock_ */
    method EventActive(x: nat, timeout: bool)
      requires Core() && x in info
      modifies `active, `later, `on, `count, `countActive, `timedOut
      ensures Core() && on == old(on) - {(x, Later)} + {(x, Active)}
      ensures active == if (x, Active) in old(on) then old(active) else Enqueued(old(active), info, x)
      ensures timeout ==> timedOut == old(timedOut) + {x}
      ensures forall y :: y != x ==> (y in timedOut <==> y in old(timedOut))
    {
      hide Queued, Timed, Users, Total;
      if (x, Active) in on || (x, Later) in on {
        timedOut := if timeout then timedOut + {x} else timedOut;
      } else {
        timedOut := if timeout then timedOut + {x} else timedOut - {x};
      }
      if (x, Active) in on {
        NotBoth(active, later, on, info, x);
        assert on == on - {(x, Later)} + {(x, Active)};
        return;
      }
      if (x, Later) in on {
        QueueRemoveLater(x);
      }
      QueueInsertActive(x);
    }

    /** The timeout part of event_add_nolock_: what the event was waiting for goes. */
    method ClearTimeout(x: nat)
      requires Core() && x in info
      modifies `active, `on, `heap, `common, `count, `countActive
      ensures Core() && heap == old(heap) - {x}
      ensures on == old(on) - (if x in timedOut then {(x, Active)} else {}) - {(x, Timeout)}
      ensures common == if (x, Timeout) in old(on) then Dropped(old(common), Slot(slot, x), x) else old(common)
      ensures |common| == |old(common)|
    {
      hide Queued, Timed, Users, Total;
      if (x, Timeout) in on {
        QueueRemoveTimeout(x);
      } else {
        NotThere(heap, common, on, slot, due, x);
      }
      if (x, Active) in on && x in timedOut {
        QueueRemoveActive(x);
      }
    }

    method Retime(x: nat, time: int, list: int)
      requires Core() && (x, Timeout) !in on
      modifies `slot, `due
      ensures Core() && due == old(due)[x := time] && slot == old(slot)[x := list] && Slot(slot, x) == list
    {
      hide Queued, Timed, Users, Total;
      SameTimed(heap, common, on, slot, due, on, slot[x := list], due[x := time]);
      due := due[x := time];
      slot := slot[x := list];
    }

    /** And the new timeout is entered, for an event of the heap or of a list. */
    method SetTimeout(x: nat, time: int, list: int, memory: bool) returns (ok: bool, ghost k: nat)
      requires Core() && x in info && HEAP <= list < |common|
      modifies `active, `on, `heap, `common, `count, `countActive, `slot, `due, `room
      ensures ok <==> list != HEAP || |old(heap) - {x}| < old(room) || memory
      ensures (ok ==> Core()) && due == old(due)[x := time] && slot == old(slot)[x := list]
      ensures heap == if ok && list == HEAP then old(heap) - {x} + {x} else old(heap) - {x}
      ensures list != HEAP || |old(heap) - {x}| < old(room) ==> room == old(room)
      ensures on == old(on) - (if x in timedOut then {(x, Active)} else {}) + {(x, Timeout)}
      ensures var was := if (x, Timeout) in old(on) then Dropped(old(common), Slot(old(slot), x), x) else old(common);
              if list == HEAP then common == was
              else
                && |was| == |old(common)| && Place(was[list].events, due, x, k)
                && common == was[list := was[list].(events := was[list].events[..k] + [x] + was[list].events[k..])]
    {
      hide Core, Place, Dropped, Slot;
      Anew(on, if x in timedOut then {(x, Active)} else {}, x);
      ClearTimeout(x);
      Retime(x, time, list);
      ok, k := QueueInsertTimeout(x, memory);
    }

    /** event_del on an event other than a list's timer. */
    method Del(x: nat)
      requires Valid() && x in info && !Timer(common, x)
      modifies `active, `later, `on, `heap, `common, `count, `countActive
      ensures Valid() && on == old(on) - Flags(x) && SameTimers(old(common), common)
    {
      hide Queued, Timed, Users, Total, Dropped, TimersOk, AllServed, HeadsLater;
      ghost var c0, on0 := common, on;
      if (x, Timeout) in on {
        DroppedHeads(heap, common, on, slot, due, x);
      } else {
        SameHeads(common, due);
      }
      EventDel(x);
      StillServed(c0, on0, due, running, lost, common, on, due);
      StillTimers(c0, info, on0, slot, timedOut, due, common, on, due, slot, timedOut);
    }

    /** event_active on an event other than a list's timer, and event_callback_activate_. */
    method Activate(x: nat, timeout: bool)
      requires Valid() && x in info && !Timer(common, x)
      modifies `active, `later, `on, `count, `countActive, `timedOut
      ensures Valid() && on == old(on) - {(x, Later)} + {(x, Active)}
      ensures active == if (x, Active) in old(on) then old(active) else Enqueued(old(active), info, x)
    {
      hide Queued, Timed, Users, Total, TimersOk, AllServed, HeadsLater;
      ghost var on0, t0 := on, timedOut;
      SameHeads(common, due);
      EventActive(x, timeout);
      StillServed(common, on0, due, running, lost, common, on, due);
      StillTimers(common, info, on0, slot, t0, due, common, on, due, slot, timedOut);
    }

    /** event_active_later_ and event_callback_activate_later_nolock_ */
    method ActivateLater(x: nat)
      requires Valid() && x in info && !Timer(common, x)
      modifies `later, `on, `count, `countActive
      ensures Valid() && on == if (x, Active) in old(on) then old(on) else old(on) + {(x, Later)}
    {
      hide Queued, Timed, Users, Total, TimersOk, AllServed, HeadsLater;
      ghost var on0 := on;
      SameHeads(common, due);
      QueueInsertLater(x);
      StillServed(common, on0, due, running, lost, common, on, due);
      StillTimers(common, info, on0, slot, timedOut, due, common, on, due, slot, timedOut);
    }

    /** common_timeout_schedule, that is event_add_nolock_ on the list's timer, whose failure goes
        unnoticed. */
    method Schedule(c: nat, memory: bool) returns (ok: bool)
      requires Core() && TimersOk(common, info, on, slot, timedOut) && c < |common| && common[c].events != []
      requires IntervalsOk(interval, info, slot, |common|) && OthersServed(common, c, on, due, running, lost)
      modifies `active, `on, `heap, `common, `count, `countActive, `slot, `due, `room, `lost
      ensures Valid() && common == old(common)
      ensures ok <==> (common[c].timer, Timeout) in old(on) || |old(heap)| < old(room) || memory
      ensures ok ==> (common[c].timer, Timeout) in on && Due(due, common[c].timer) == Due(due, common[c].events[0])
      ensures !ok ==> on == old(on) && due == old(due) && slot == old(slot)
      ensures lost == if !ok && Silent(common[c].timer, on, running) then old(lost) + {c} else old(lost) - {c}
      ensures c in lost ==> !Served(common[c], on, due, running)
      ensures (common[c].timer, Active) in on ==> (common[c].timer, Active) in old(on)
      ensures Only(common[c].timer, old(on), old(due), old(slot), on, due, slot)
      ensures |old(heap)| < old(room) ==> room == old(room)
    {
      hide Core, Queued, Timed, AllServed, Served, OthersServed, IntervalsOk, TimersOk, Only, Due;
      var t := common[c].timer;
      OnlyTimer(on, due, slot, t, 0, false);
      Known();
      TimerFacts(common, info, on, slot, timedOut, c);
      NotLost(common, on, due, running, lost, c);
      ok := ReserveFor(t, memory);
      if !ok {
        Unscheduled(common, on, due, running, lost, c);
        lost := if Silent(t, on, running) then lost + {c} else lost - {c};
        return;
      }
      lost := lost - {c};
      SetListTimer(c, memory);
    }

    /** Sets the timer of list c for its head. */
    method SetListTimer(c: nat, memory: bool)
      requires Core() && TimersOk(common, info, on, slot, timedOut) && c < |common| && common[c].events != []
      requires IntervalsOk(interval, info, slot, |common|) && OthersServed(common, c, on, due, running, lost)
      requires c !in lost && |heap - {common[c].timer}| < room
      modifies `active, `on, `heap, `common, `count, `countActive, `slot, `due, `room
      ensures Valid() && common == old(common) && room == old(room)
      ensures (common[c].timer, Timeout) in on && Due(due, common[c].timer) == Due(due, common[c].events[0])
      ensures (common[c].timer, Active) in on ==> (common[c].timer, Active) in old(on)
      ensures Only(common[c].timer, old(on), old(due), old(slot), on, due, slot)
    {
      hide Core, Queued, Timed, AllServed, Served, OthersServed, IntervalsOk, TimersOk, Only, Due;
      var t := common[c].timer;
      OnlyTimer(on, due, slot, t, Due(due, common[c].events[0]), t in timedOut);
      Known();
      TimerFacts(common, info, on, slot, timedOut, c);
      Scheduled(heap, common, on, slot, due, info, timedOut, running, lost, c,
                on - (if t in timedOut then {(t, Active)} else {}) + {(t, Timeout)});
      IntervalsKept(interval, info, slot, |common|, t, HEAP);
      assert lost - {c} == lost;
      TimerDue(heap, common, on, slot, due, info, timedOut, c);
      SetTimer(t, Due(due, common[c].events[0]), memory);
    }

    /** Enters a list's timer, for which there is room. */
    method SetTimer(t: nat, time: int, memory: bool)
      requires Core() && t in info && Slot(slot, t) == HEAP && |heap - {t}| < room
      modifies `active, `on, `heap, `common, `count, `countActive, `slot, `due, `room
      ensures Core() && common == old(common) && due == old(due)[t := time] && slot == old(slot)[t := HEAP]
      ensures on == old(on) - (if t in timedOut then {(t, Active)} else {}) + {(t, Timeout)} && room == old(room)
    {
      hide Core, Place;
      var _, _ := SetTimeout(t, time, HEAP, memory);
    }

    /** The beginning of event_add_nolock_ with a timeout: room in the heap for an event that has
        no timeout yet. */
    method ReserveFor(x: nat, memory: bool) returns (ok: bool)
      requires Core()
      modifies `room
      ensures Core() && (ok <==> (x, Timeout) in on || |heap| < old(room) || memory)
      ensures room == if (x, Timeout) in on || !ok then old(room) else Reserved(old(room), |heap| + 1)
      ensures ok && (x, Timeout) !in on ==> |heap| < room
      ensures ok && ((x, Timeout) !in on || Slot(slot, x) == HEAP) ==> |heap - {x}| < room
    {
      hide Queued, Timed, Users, Total;
      RoomFor(heap, common, on, slot, due, x);
      ok := true;
      if (x, Timeout) !in on {
        if room < |heap| + 1 && !memory {
          return false;
        }
        room := Reserved(room, |heap| + 1);
      }
    }

    /** The part of event_add_nolock_ that tells the backend. */
    method Register(x: nat, backend: bool) returns (r: int)
      requires Valid() && x in info && !Timer(common, x)
      modifies `on, `count
      ensures Valid() && r == if Registers(x, old(on)) && !backend then -1 else 0
      ensures on == if Registers(x, old(on)) && backend then old(on) + {(x, Inserted)} else old(on)
    {
      hide Core, AllServed, TimersOk, IntervalsOk, HeadsLater;
      if info[x].io && (x, Inserted) !in on && (x, Active) !in on && (x, Later) !in on {
        if !backend {
          return -1;
        }
        ghost var on0 := on;
        QueueInsertInserted(x);
        SameHeads(common, due);
        StillServed(common, on0, due, running, lost, common, on, due);
        StillTimers(common, info, on0, slot, timedOut, due, common, on, due, slot, timedOut);
      }
      return 0;
    }

    /** What comes before that part does anything about the timeout. */
    method Prepare(x: nat, memory: bool, backend: bool) returns (r: int)
      requires Valid() && x in info && !Timer(common, x)
      modifies `on, `count, `room
      ensures Valid() && (r == 0 && (x, Timeout) !in on ==> |heap| < room)
      ensures (Unreserved(x, memory) <==> old(Unreserved(x, memory)))
      ensures r == if ((x, Timeout) !in old(on) && old(room) <= |heap| && !memory)
                      || (Registers(x, old(on)) && !backend) then -1 else 0
      ensures on == if r == 0 && Registers(x, old(on)) then old(on) + {(x, Inserted)} else old(on)
      ensures r == 0 && (x, Timeout) !in on ==> room == Reserved(old(room), |heap| + 1)
    {
      hide Core, AllServed, TimersOk, IntervalsOk;
      var ok := ReserveFor(x, memory);
      if !ok {
        return -1;
      }
      r := Register(x, backend);
    }

    /** event_add_nolock_ on an event other than a list's timer. */
    method Add(x: nat, tv: Option<Tv>, absolute: bool, now: int, memory: bool, backend: bool) returns (r: int)
      requires Valid() && x in info && !Timer(common, x) && (tv.Some? ==> HEAP <= tv.value.list < |common|)
      requires tv.Some? && absolute && x in interval ==> tv.value.list == interval[x].list
      modifies this
      ensures Valid() <==> !(r == 0 && tv.Some? && tv.value.list == HEAP && old(Unreserved(x, memory)))
      ensures r == 0 && tv.Some? && tv.value.list == HEAP ==> (x in heap <==> !old(Unreserved(x, memory)))
      ensures SameTimers(old(common), common) && running == old(running) && virtuals == old(virtuals)
      ensures r == if (tv.Some? && (x, Timeout) !in old(on) && old(room) <= |old(heap)| && !memory)
                      || (Registers(x, old(on)) && !backend) then -1 else 0
      ensures r == -1 ==>
        on == old(on) && due == old(due) && slot == old(slot) && common == old(common) && lost == old(lost)
      ensures r == 0 && tv.Some? ==> (x, Timeout) in on && Slot(slot, x) == tv.value.list
      ensures r == 0 && tv.Some? ==> Due(due, x) == Time(tv.value, absolute, now)
      ensures r == 0 && tv.Some? ==> TimersStep(old(common), old(on), old(due), common, on, due, x, tv.value.list)
      ensures r == 0 && tv == None ==>
        due == old(due) && common == old(common) && slot == old(slot) && lost == old(lost)
      ensures r == 0 ==> ((x, Inserted) in on <==> (x, Inserted) in old(on) || Registers(x, old(on)))
      ensures (x, Later) in on <==> (x, Later) in old(on)
      ensures (x, Active) in on <==> (x, Active) in old(on) && !(r == 0 && tv.Some? && x in timedOut)
      ensures OthersSame(common, x, old(on), old(due), old(slot), on, due, slot)
      ensures r == 0 && tv.Some? ==>
        var time, list := Time(tv.value, absolute, now), tv.value.list;
        lost == LostBy(old(lost), list, list != HEAP && First(old(common)[list].events, old(due), x, time),
                       old(Loses(x, time, list, memory)))
        && (list != HEAP && First(old(common)[list].events, old(due), x, time) ==>
              First(common[list].events, due, x, time))
        && (old(Loses(x, time, list, memory)) ==> !Served(common[list], on, due, running))
      ensures interval == if r == 0 && tv.Some? && info[x].persist && !absolute then old(interval)[x := tv.value]
                          else old(interval)
      ensures timedOut == old(timedOut)
      ensures r == 0 && tv.Some? && (x, Timeout) !in old(on) ==> room == Reserved(old(room), |old(heap)| + 1)
    {
      hide Core, AllServed, TimersOk, First, IntervalsOk, TimersStep, Silent, Timer, Reserved, OthersSame, SameTimers;
      hide Due, Slot, LostBy, Served;
      NobodyConcerned(common, x, on, due, slot);
      if tv == None {
        r := Register(x, backend);
        return;
      }
      r := Prepare(x, memory, backend);
      if r == -1 {
        return;
      }
      ghost var on1 := on;
      Enter(x, tv.value, absolute, now, memory);
      StepFrom(old(common), old(on), on1, old(due), common, on, due, x, tv.value.list, running, old(slot), slot);
    }

    lemma Known()
      requires Core()
      ensures Queued(active, later, on, info) && Timed(heap, common, on, slot, due) && |heap| <= room
    {
    }

    lemma NoCore()
      requires !Timed(heap, common, on, slot, due)
      ensures !Core()
    {
    }

    /** Enters the timeout of x, before its list's timer is set. */
    method PutTimeout(x: nat, time: int, list: int, memory: bool) returns (ok: bool, ghost k: nat)
      requires Core() && TimersOk(common, info, on, slot, timedOut) && AllServed(common, on, due, running, lost)
      requires x in info && !Timer(common, x) && HEAP <= list < |common| && ((x, Timeout) in on || |heap| < room)
      modifies `active, `on, `heap, `common, `count, `countActive, `slot, `due, `room
      ensures ok <==> !(list == HEAP && old(Unreserved(x, memory)))
      ensures SameTimers(old(common), common) && due == old(due)[x := time] && slot == old(slot)[x := list]
      ensures on == old(on) - (if x in timedOut then {(x, Active)} else {}) + {(x, Timeout)}
      ensures ok ==> Core() && TimersOk(common, info, on, slot, timedOut)
      ensures !ok ==> !Core()
      ensures ok && (list == HEAP || 0 < k) ==> AllServed(common, on, due, running, lost)
      ensures list != HEAP ==> OthersServed(common, list, on, due, running, lost)
      ensures TimersStep(old(common), old(on), old(due), common, on, due, x, list)
      ensures list != HEAP ==> common[list].events != [] && (common[list].events[0] == x <==> k == 0)
      ensures list != HEAP ==> (First(old(common)[list].events, old(due), x, time) <==> k == 0)
      ensures list != HEAP && k == 0 ==> First(common[list].events, due, x, time)
      ensures list != HEAP ==> room == old(room) && (room <= |heap| && !memory <==> old(Unreserved(x, memory)))
      ensures |old(heap)| < old(room) ==> room == old(room) && (list != HEAP ==> |heap| < room)
      ensures list == HEAP ==> (x in heap <==> ok)
    {
      hide Core, Queued, Timed, AllServed, Served, OthersServed, TimersOk, HeadsLater, Place, First, TimersStep;
      ghost var c0, on0, s0, due0, h0 := common, on, slot, due, heap;
      ghost var was := if (x, Timeout) in on then Dropped(common, Slot(slot, x), x) else common;
      Known();
      NotHead(heap, common, on, slot, due, x, time);
      RoomFor(heap, common, on, slot, due, x);
      ok, k := SetTimeout(x, time, list, memory);
      PutStep(h0, c0, on0, s0, due0, x, time, list, k, was, common, on);
      OthersKept(c0, on0, due0, x, time, on);
      StillServed(c0, on0, due0, running, lost, was, on, due);
      StillTimers(c0, info, on0, s0, timedOut, due0, was, on, due, slot, timedOut);
      if !ok {
        Stray(heap, common, on, slot, due, x);
        NoCore();
      } else if list != HEAP {
        PutServed(was, on, due, running, lost, x, list, k, common);
        SameTimersOk(was, common, info, on, slot, timedOut);
      }
    }

    /** Sets the timer of the list that x has come to head. */
    method ServeHead(x: nat, list: nat, memory: bool, ghost common0: seq<Ctl>, ghost on0: set<(nat, Flag)>,
                     ghost due0: map<nat, int>)
      requires Core() && TimersOk(common, info, on, slot, timedOut) && IntervalsOk(interval, info, slot, |common|)
      requires list < |common| && common[list].events != [] && OthersServed(common, list, on, due, running, lost)
      requires common[list].events[0] == x && First(common[list].events, due, x, Due(due, x))
      requires SameTimers(common0, common) && !Timer(common0, x)
      requires TimersStep(common0, on0, due0, common, on, due, x, list)
      modifies `active, `on, `heap, `common, `count, `countActive, `slot, `due, `room, `lost
      ensures Valid() && common == old(common) && Timer(common, common[list].timer)
      ensures var ok := (common[list].timer, Timeout) in old(on) || |old(heap)| < old(room) || memory;
              lost == if !ok && Silent(common[list].timer, old(on), running) then old(lost) + {list}
                      else old(lost) - {list}
      ensures list in lost ==> !Served(common[list], on, due, running)
      ensures Only(common[list].timer, old(on), old(due), old(slot), on, due, slot)
      ensures TimersStep(common0, on0, due0, common, on, due, x, list)
      ensures First(common[list].events, due, x, Due(due, x))
      ensures |old(heap)| < old(room) ==> room == old(room)
    {
      hide Core, Queued, Timed, AllServed, Served, OthersServed, TimersOk, First, IntervalsOk, TimersStep, Timer, Only;
      hide Silent, Due;
      Known();
      TimerNowhere(heap, common, on, slot, due, info, timedOut, list);
      TimerOf(common, list);
      var ok := Schedule(list, memory);
      SetStep(common0, on0, due0, common, old(on), old(due), on, due, old(slot), slot, x, list);
    }

    /** The end of event_add_nolock_: enters the timeout, and if it is the first of its list
        sets the list's timer. */
    method AddTimeout(x: nat, time: int, list: int, memory: bool)
      requires Core() && TimersOk(common, info, on, slot, timedOut) && AllServed(common, on, due, running, lost)
      requires x in info && !Timer(common, x) && HEAP <= list < |common| && ((x, Timeout) in on || |heap| < room)
      requires IntervalsOk(interval, info, slot[x := list], |common|)
      modifies `active, `on, `heap, `common, `count, `countActive, `slot, `due, `room, `lost
      ensures Valid() <==> !(list == HEAP && old(Unreserved(x, memory)))
      ensures list == HEAP ==> (x in heap <==> !old(Unreserved(x, memory)))
      ensures SameTimers(old(common), common)
      ensures old(Loses(x, time, list, memory)) ==> !Served(common[list], on, due, running)
      ensures (x, Timeout) in on && Slot(slot, x) == list && Due(due, x) == time
      ensures TimersStep(old(common), old(on), old(due), common, on, due, x, list)
      ensures (x, Inserted) in on <==> (x, Inserted) in old(on)
      ensures (x, Later) in on <==> (x, Later) in old(on)
      ensures (x, Active) in on <==> (x, Active) in old(on) && x !in timedOut
      ensures OthersSame(common, x, old(on), old(due), old(slot), on, due, slot)
      ensures lost == LostBy(old(lost), list, list != HEAP && First(old(common)[list].events, old(due), x, time),
                             old(Loses(x, time, list, memory)))
      ensures list != HEAP && First(old(common)[list].events, old(due), x, time) ==>
        First(common[list].events, due, x, time)
      ensures |old(heap)| < old(room) ==> room == old(room)
    {
      hide Core, Queued, Users, Total, Timed, AllServed, Served, OthersServed, TimersOk, First, IntervalsOk, TimersStep;
      hide Timer, Only, OthersSame;
      var ok, k := PutTimeout(x, time, list, memory);
      OnlyX(common, x, time, list, x in timedOut, old(on), old(due), old(slot));
      if ok && list != HEAP && x == common[list].events[0] {
        ghost var on1 := on;
        SilentKept(old(common), old(on), on, running, x, list);
        SameTimer(old(common), common);
        ServeHead(x, list, memory, old(common), old(on), old(due));
        OnlyBoth(common, x, common[list].timer, time, list, x in timedOut, old(on), old(due), old(slot),
                 on1, on, due, slot);
      }
    }

    /** The part of event_add_nolock_ that deals with the timeout. */
    method Enter(x: nat, tv: Tv, absolute: bool, now: int, memory: bool)
      requires Valid() && x in info && !Timer(common, x) && HEAP <= tv.list < |common|
      requires ((x, Timeout) in on || |heap| < room)
      requires absolute && x in interval ==> tv.list == interval[x].list
      modifies `active, `on, `heap, `common, `count, `countActive, `slot, `due, `room, `lost, `interval
      ensures Valid() <==> !(tv.list == HEAP && old(Unreserved(x, memory)))
      ensures tv.list == HEAP ==> (x in heap <==> !old(Unreserved(x, memory)))
      ensures SameTimers(old(common), common)
      ensures old(Loses(x, Time(tv, absolute, now), tv.list, memory)) ==> !Served(common[tv.list], on, due, running)
      ensures (x, Timeout) in on && Slot(slot, x) == tv.list && Due(due, x) == Time(tv, absolute, now)
      ensures TimersStep(old(common), old(on), old(due), common, on, due, x, tv.list)
      ensures (x, Inserted) in on <==> (x, Inserted) in old(on)
      ensures (x, Later) in on <==> (x, Later) in old(on)
      ensures (x, Active) in on <==> (x, Active) in old(on) && x !in timedOut
      ensures OthersSame(common, x, old(on), old(due), old(slot), on, due, slot)
      ensures lost == LostBy(old(lost), tv.list,
                             tv.list != HEAP &&
                                First(old(common)[tv.list].events, old(due), x, Time(tv, absolute, now)),
                             old(Loses(x, Time(tv, absolute, now), tv.list, memory)))
      ensures tv.list != HEAP && First(old(common)[tv.list].events, old(due), x, Time(tv, absolute, now)) ==>
        First(common[tv.list].events, due, x, Time(tv, absolute, now))
      ensures |old(heap)| < old(room) ==> room == old(room)
      ensures interval == if info[x].persist && !absolute then old(interval)[x := tv] else old(interval)
    {
      hide Core, AllServed, TimersOk, First, IntervalsOk, TimersStep, Silent, Timer, OthersSame, SameTimers, Due, Slot;
      hide LostBy, Served, Loses;
      IntervalSet(interval, info, slot, |common|, x, tv, absolute);
      if info[x].persist && !absolute {
        interval := interval[x := tv];
      }
      AddTimeout(x, Time(tv, absolute, now), tv.list, memory);
    }

    /** Takes an expired event off its queues and activates it. */
    method Expire(x: nat)
      requires Core() && TimersOk(common, info, on, slot, timedOut) && x in info && (x, Timeout) in on
      modifies `active, `later, `on, `heap, `common, `count, `countActive, `timedOut
      ensures Core() && TimersOk(common, info, on, slot, timedOut)
      ensures on == old(on) - Flags(x) + {(x, Active)} && common == Dropped(old(common), Slot(slot, x), x)
      ensures heap == old(heap) - {x}
      ensures timedOut == old(timedOut) + {x}
      ensures forall c :: 0 <= c < |common| && Served(old(common)[c], old(on), due, running) ==>
        Served(common[c], on, due, running)
    {
      hide Queued, Timed, Users, Total, TimersOk, Served, Dropped;
      ghost var c0, on0, t0 := common, on, timedOut;
      DroppedHeads(heap, common, on, slot, due, x);
      EventDel(x);
      EventActive(x, true);
      Expired(c0, on0, due, running, x, common, on, info, slot, t0, timedOut);
    }

    /** One turn of the loop of common_timeout_callback: the head of list c expires. */
    method ExpireFirst(c: nat)
      requires Core() && TimersOk(common, info, on, slot, timedOut) && c < |common| && common[c].events != []
      requires OthersServed(common, c, on, due, running, lost)
      modifies `active, `later, `on, `heap, `common, `count, `countActive, `timedOut
      ensures Core() && TimersOk(common, info, on, slot, timedOut) && heap == old(heap)
      ensures common == old(common)[c := old(common)[c].(events := old(common)[c].events[1..])]
      ensures OthersServed(common, c, on, due, running, lost)
      ensures var x := old(common)[c].events[0];
              on == old(on) - Flags(x) + {(x, Active)}
    {
      hide Core, Queued, Timed, TimersOk, Served, OthersServed, Flags;
      ghost var c1, on1 := common, on;
      var x := common[c].events[0];
      Known();
      FirstOfList(heap, common, on, slot, due, c);
      KnownEvent(active, later, on, info, x, Timeout);
      Expire(x);
      OthersStillServed(c1, on1, common, on, due, running, lost, c);
    }

    /** The loop of common_timeout_callback. */
    method ExpireList(c: nat, now: int) returns (ghost n: nat)
      requires Core() && TimersOk(common, info, on, slot, timedOut) && c < |common|
      requires OthersServed(common, c, on, due, running, lost)
      modifies `active, `later, `on, `heap, `common, `count, `countActive, `timedOut
      ensures Core() && TimersOk(common, info, on, slot, timedOut)
      ensures n <= |old(common)[c].events| && heap == old(heap)
      ensures common == old(common)[c := old(common)[c].(events := old(common)[c].events[n..])]
      ensures OthersServed(common, c, on, due, running, lost)
      ensures n < |old(common)[c].events| ==> now < Due(due, old(common)[c].events[n])
      ensures forall i :: 0 <= i < n ==> Due(due, old(common)[c].events[i]) <= now
      ensures forall q: (nat, Flag) :: q in on <==>
        if q.0 in old(common)[c].events[..n] then q.1 == Active else q in old(on)
    {
      hide Core, TimersOk, Due, OthersServed, OnlyActive, Flags;
      n := 0;
      OnlyActiveNone(on, common[c].events);
      ghost var q, c0 := common[c].events, common;
      assert common == c0[c := c0[c].(events := q[n..])];
      while common[c].events != [] && Due(due, common[c].events[0]) <= now
        invariant Core() && TimersOk(common, info, on, slot, timedOut)
        invariant heap == old(heap) && n <= |q| && common == c0[c := c0[c].(events := q[n..])]
        invariant OthersServed(common, c, on, due, running, lost)
        invariant forall i :: 0 <= i < n ==> Due(due, q[i]) <= now
        invariant OnlyActive(old(on), on, q[..n])
        decreases |q| - n
      {
        ghost var on1 := on;
        ExpireFirst(c);
        assert q[n..][1..] == q[n + 1..];
        OnlyActiveNext(old(on), on1, on, q, n);
        n := n + 1;
      }
      OnlyActiveIs(old(on), on, q[..n]);
    }

    /** common_timeout_callback: activates just the expired events of its list, in order, and
        sets the timer for the rest. */
    method CommonTimeoutCallback(c: nat, now: int, memory: bool) returns (ghost n: nat)
      requires Valid() && c < |common| && running == common[c].timer
      modifies this
      ensures Valid() && running == NOBODY && n <= |old(common)[c].events|
      ensures common == old(common)[c := old(common)[c].(events := old(common)[c].events[n..])]
      ensures forall i :: 0 <= i < |old(common)[c].events| ==>
        var x := old(common)[c].events[i];
        Due(due, x) == Due(old(due), x) && if i < n then Due(due, x) <= now else now < Due(due, x)
      ensures forall q: (nat, Flag) :: q.0 != common[c].timer ==>
        (q in on <==> if q.0 in old(common)[c].events[..n] then q.1 == Active else q in old(on))
      ensures forall x :: x != common[c].timer ==>
        Due(due, x) == Due(old(due), x) && Slot(slot, x) == Slot(old(slot), x)
      ensures (forall d :: d != c ==> (d in lost <==> d in old(lost))) && (memory ==> lost <= old(lost))
      ensures common[c].events != [] ==>
        (c in lost <==> old(room) <= |old(heap)| && !memory && Silent(common[c].timer, old(on), NOBODY))
      ensures common[c].events != [] && (common[c].timer, Timeout) in on ==>
        Due(due, common[c].timer) == Due(due, common[c].events[0])
      ensures common[c].events == [] ==> lost == old(lost)
      ensures common[c].events == [] ==> ((common[c].timer, Timeout) in on <==> (common[c].timer, Timeout) in old(on))
      ensures interval == old(interval)
      ensures (common[c].timer, Active) in on ==> (common[c].timer, Active) in old(on)
    {
      hide Queued, Timed, Users, Total, TimersOk, Served, Due, AllServed;
      ghost var q, h0, on0 := common[c].events, heap, on;
      ListFacts(heap, common, on, slot, due, info, timedOut, c);
      ListsOthers(common, on, due, running, lost, c);
      n := ExpireList(c, now);
      SuffixSorted(q, due, n, now);
      StopRunning(common, on, due, info, slot, timedOut, lost, c, NOBODY);
      running := NOBODY;
      if common[c].events != [] {
        var _ := Schedule(c, memory);
      }
    }

    /** timeout_process: activates every event of the heap whose time has come, and no other.
        An event of a common list is in the heap only through its list's timer. */
    method TimeoutProcess(now: int)
      requires Valid()
      modifies `active, `later, `on, `heap, `common, `count, `countActive, `timedOut
      ensures Valid() && common == old(common)
      ensures forall x :: x in heap <==> x in old(heap) && now < Due(due, x)
      ensures forall x :: x in old(heap) && Due(due, x) <= now ==>
        (x, Active) in on && (x, Timeout) !in on && x in timedOut
      ensures forall q: (nat, Flag) :: q.0 !in old(heap) || now < Due(due, q.0) ==> (q in on <==> q in old(on))
    {
      hide Core, Queued, Timed, TimersOk, Served, Due, AllServed, IntervalsOk, Woken;
      ghost var h0, on0 := heap, on;
      NobodyWoken(heap, on, due, timedOut, now);
      while heap != {}
        invariant Core() && TimersOk(common, info, on, slot, timedOut) && common == old(common)
        invariant AllServed(common, on, due, running, lost) && Woken(h0, on0, heap, on, due, timedOut, now)
        decreases |heap|
      {
        EarliestExists(heap, due);
        var x :| x in heap && forall y :: y in heap ==> Due(due, x) <= Due(due, y);
        if Due(due, x) > now {
          break;
        }
        Known();
        InHeap(heap, common, on, slot, due, x);
        KnownEvent(active, later, on, info, x, Timeout);
        ghost var h, on1, t1 := heap, on, timedOut;
        EverybodyServed(common, on, due, running, lost);
        Expire(x);
        AllAreServed(common, on, due, running, lost);
        WokenNext(h0, on0, h, on1, due, t1, now, x);
      }
      WokenAll(h0, on0, heap, on, due, timedOut, now);
    }

    /** event_process_active_single_queue, up to where it calls the callback: the first one of
        priority p is taken off its queue, and off all queues unless it is persistent. */
    method StartCallback(p: nat)
      requires Valid() && p < |active| && active[p] != [] && running == NOBODY
      modifies this
      ensures Valid() && running == old(active)[p][0] && SameTimers(old(common), common)
      ensures active == old(active)[p := old(active)[p][1..]]
      ensures on == old(on) - if info[running].persist then {(running, Active)} else Flags(running)
      ensures common == if info[running].persist || (running, Timeout) !in old(on) then old(common)
                        else Dropped(old(common), Slot(slot, running), running)
      ensures due == old(due) && slot == old(slot) && interval == old(interval) && timedOut == old(timedOut)
      ensures lost == old(lost)
    {
      hide Core, Queued, Timed, TimersOk, Served, AllServed, IntervalsOk, Dropped, HeadsLater, Unqueued, SameTimers;
      var x := active[p][0];
      Known();
      HeadOff(active, later, on, info, p);
      ghost var c0, on0 := common, on;
      if (x, Timeout) in on {
        DroppedHeads(heap, common, on, slot, due, x);
      } else {
        SameHeads(common, due);
      }
      if info[x].persist {
        SameHeads(common, due);
        QueueRemoveActive(x);
      } else {
        EventDel(x);
      }
      running := x;
      StartedServed(c0, on0, due, x, common, on, info, slot, timedOut, lost);
    }

    /** The rest of event_process_active_single_queue, for callbacks other than the lists'. */
    method FinishCallback()
      requires Valid() && running != NOBODY && forall c :: 0 <= c < |common| ==> common[c].timer != running
      modifies `running
      ensures Valid() && running == NOBODY
    {
      running := NOBODY;
      assert forall c :: 0 <= c < |common| && Served(common[c], on, due, old(running)) ==>
        Served(common[c], on, due, NOBODY);
    }

    /** event_persist_closure: the next run is one interval after the last one was due, or
        after now if it was not the timeout that came or that time has already gone by. */
    method PersistReadd(x: nat, now: int, memory: bool, backend: bool) returns (r: int)
      requires Valid() && x in info && running == x && !Timer(common, x)
      modifies this
      ensures Valid() && running == x && interval == old(interval) && SameTimers(old(common), common)
      ensures (r == 0 || r == -1) && (memory && backend ==> r == 0 && lost <= old(lost))
      ensures x !in interval || interval[x].time == 0 || r == -1 ==>
        on == old(on) && due == old(due) && slot == old(slot) && common == old(common) && lost == old(lost)
      ensures x !in interval || interval[x].time == 0 ==> r == 0
      ensures r == 0 && x in old(interval) && old(interval)[x].time != 0 ==>
        var step := old(interval)[x].time;
        var next := step + if x in old(timedOut) then Due(old(due), x) else now;
        (x, Timeout) in on && Due(due, x) == if next < now then now + step else next
      ensures r == 0 && x in old(interval) && old(interval)[x].time != 0 ==>
        TimersStep(old(common), old(on), old(due), common, on, due, x, Slot(slot, x))
      ensures (x, Active) in on ==> (x, Active) in old(on)
      ensures OthersSame(common, x, old(on), old(due), old(slot), on, due, slot)
      ensures Slot(slot, x) == Slot(old(slot), x) && timedOut == old(timedOut)
      ensures forall d :: 0 <= d < |common| && d in old(lost) && d !in lost ==>
        First(common[d].events, due, x, Due(due, x))
    {
      hide Core, TimersOk, AllServed, First, TimersStep, Silent, Registers;
      r := 0;
      if x in interval && interval[x].time != 0 {
        var step := interval[x].time;
        var runAt := step + if x in timedOut then Due(due, x) else now;
        if runAt < now {
          runAt := now + step;
        }
        r := Add(x, Some(Tv(runAt, interval[x].list)), true, now, memory, backend);
      }
    }

    /** Makes the first of the later callbacks active. */
    method MoveLater()
      requires Valid() && later != []
      modifies `active, `later, `on
      ensures Valid() && later == old(later)[1..] && old(later)[0] in info && info[old(later)[0]].pri < |old(active)|
      ensures (old(later)[0], Later) in old(on) && on == old(on) - {(old(later)[0], Later)} + {(old(later)[0], Active)}
      ensures active == Enqueued(old(active), info, old(later)[0])
    {
      hide Queued, Timed, Users, Total, TimersOk, Served, AllServed, HeadsLater, IntervalsOk;
      var x := later[0];
      ghost var on0 := on;
      MovedActive(active, later, on, info, x);
      SameTimed(heap, common, on, slot, due, on - {(x, Later)} + {(x, Active)}, slot, due);
      NotATimer(common, info, on, slot, timedOut, x);
      later := later[1..];
      on := on - {(x, Later)} + {(x, Active)};
      active := Enqueued(active, info, x);
      SameHeads(common, due);
      StillServed(common, on0, due, running, lost, common, on, due);
      StillTimers(common, info, on0, slot, timedOut, due, common, on, due, slot, timedOut);
    }

    /** event_queue_make_later_events_active */
    method MakeLaterActive()
      requires Valid()
      modifies `active, `later, `on
      ensures Valid() && later == []
      ensures forall p :: 0 <= p < |active| ==> active[p] == old(active)[p] + OfPriority(old(later), info, p)
      ensures forall q: (nat, Flag) :: q in on <==>
        match q.1
        case Later => false
        case Active => q in old(on) || (q.0, Later) in old(on)
        case _ => q in old(on)
    {
      hide Core, TimersOk, AllServed, IntervalsOk, InTurn, OfPriority;
      ghost var on0 := on;
      InTurnEnd(active, later, active, info);
      while later != []
        invariant Valid() && InTurn(old(active), old(later), active, later, info)
        invariant forall q: (nat, Flag) :: q in on ==> q in on0 || (q.1 == Active && (q.0, Later) in on0)
        invariant forall q: (nat, Flag) :: q in on0 && q !in on ==> q.1 == Later && (q.0, Active) in on
        decreases |later|
      {
        ghost var active1, later1 := active, later;
        MoveLater();
        InTurnNext(old(active), old(later), active1, later1, info);
      }
      Known();
      LaterEmpty(active, later, on, info);
      InTurnEnd(old(active), old(later), active, info);
    }

    /** Nothing is left that the loop could wait for or run. */
    ghost predicate Finished()
      reads `virtuals, `on
    {
      virtuals == 0 && forall q: (nat, Flag) :: q in on ==> !IsUser(info, q.0) && q.1 != Active && q.1 != Later
    }

    /** The test that makes event_base_loop return 1. */
    method NothingLeft() returns (b: bool)
      requires Valid()
      ensures b <==> Finished()
    {
      hide Timed, TimersOk, AllServed, Total;
      b := !(virtuals > 0 || count > 0) && countActive == 0;
      CountZero(on, info);
      NoneQueued(active, later, on, info);
    }

    /** event_base_add_virtual_ and event_base_del_virtual_ */
    method AddVirtual()
      requires Valid()
      modifies `virtuals
      ensures Valid() && virtuals == old(virtuals) + 1 && !Finished()
    {
      virtuals := virtuals + 1;
    }

    method DelVirtual()
      requires Valid() && 0 < virtuals
      modifies `virtuals
      ensures Valid() && virtuals == old(virtuals) - 1 && !old(Finished())
    {
      virtuals := virtuals - 1;
    }

    /** event_base_init_common_timeout: the list for a duration, or -1; x becomes the timer of a
        new one. */
    method InitCommonTimeout(x: nat, duration: int, memory: bool) returns (c: int)
      requires Valid() && TimerOk(x, info, on, slot, timedOut) && !Timer(common, x)
      modifies `common
      ensures Valid()
      ensures c == -1 <==> (forall d :: 0 <= d < |old(common)| ==> old(common)[d].duration != duration)
                           && (|old(common)| == MAX_COMMON_TIMEOUTS || !memory)
      ensures c != -1 ==> 0 <= c < |common| && common[c].duration == duration
      ensures c != -1 ==> forall d :: 0 <= d < c ==> common[d].duration != duration
      ensures common == if c == |old(common)| then old(common) + [Ctl(x, duration, [])] else old(common)
    {
      hide Queued, Timed, Users, Total, TimersOk, TimerOk, AllServed, IntervalsOk, Timer;
      c := 0;
      while c < |common|
        invariant 0 <= c <= |common| && forall d :: 0 <= d < c ==> common[d].duration != duration
      {
        if common[c].duration == duration {
          return;
        }
        c := c + 1;
      }
      if |common| == MAX_COMMON_TIMEOUTS {
        return -1;
      }
      if !memory {
        return -1;
      }
      NewList(heap, common, on, slot, due, x, duration);
      NewListServed(common, info, on, slot, due, timedOut, running, lost, x, duration);
      MoreLists(interval, info, slot, |common|, |common| + 1);
      common := common + [Ctl(x, duration, [])];
    }
  }

  /** The events of q have only the active flag left; the others are as they were. */
  ghost predicate OnlyActive(on0: set<(nat, Flag)>, on: set<(nat, Flag)>, q: seq<nat>) {
    forall p: (nat, Flag) :: p in on <==> if p.0 in q then p.1 == Active else p in on0
  }

  lemma OnlyActiveNone(on: set<(nat, Flag)>, q: seq<nat>)
    ensures OnlyActive(on, on, q[..0])
  {
  }

  lemma OnlyActiveIs(on0: set<(nat, Flag)>, on: set<(nat, Flag)>, q: seq<nat>)
    requires OnlyActive(on0, on, q)
    ensures forall p: (nat, Flag) :: p in on <==> if p.0 in q then p.1 == Active else p in on0
  {
  }

  lemma OnlyActiveNext(on0: set<(nat, Flag)>, on: set<(nat, Flag)>, on': set<(nat, Flag)>, q: seq<nat>, n: nat)
    requires n < |q| && OnlyActive(on0, on, q[..n]) && on' == on - Flags(q[n]) + {(q[n], Active)}
    ensures OnlyActive(on0, on', q[..n + 1])
  {
    assert q[..n + 1] == q[..n] + [q[n]];
    forall p: (nat, Flag)
      ensures p in on' <==> if p.0 in q[..n + 1] then p.1 == Active else p in on0
    {
      assert p.1 == Inserted || p.1 == Timeout || p.1 == Active || p.1 == Later;
    }
  }

  function Flags(x: nat): set<(nat, Flag)> {
    {(x, Inserted), (x, Timeout), (x, Active), (x, Later)}
  }

  /** Clearing the flags one by one. */
  lemma FlagsOff(on: set<(nat, Flag)>, x: nat)
    ensures on - Flags(x) == on - {(x, Timeout)} - {(x, Active)} - {(x, Later)} - {(x, Inserted)}
  {
  }

  lemma NotThereToDrop(on: set<(nat, Flag)>, q: (nat, Flag))
    ensures q !in on ==> on - {q} == on
  {
  }

  lemma NotBoth(active: seq<seq<nat>>, later: seq<nat>, on: set<(nat, Flag)>, info: map<nat, Info>, x: nat)
    requires Queued(active, later, on, info) && (x, Active) in on
    ensures (x, Later) !in on
  {
  }

  lemma SameHeads(common: seq<Ctl>, due: map<nat, int>)
    ensures HeadsLater(common, due, common, due) && SameTimers(common, common)
  {
  }

  lemma SameTimersOk(was: seq<Ctl>, common: seq<Ctl>, info: map<nat, Info>, on: set<(nat, Flag)>, slot: map<nat, int>,
                     timedOut: set<nat>)
    requires TimersOk(was, info, on, slot, timedOut) && SameTimers(was, common)
    ensures TimersOk(common, info, on, slot, timedOut)
  {
  }

  lemma AllAreServed(common: seq<Ctl>, on: set<(nat, Flag)>, due: map<nat, int>, running: int, lost: set<int>)
    requires forall c :: 0 <= c < |common| && c !in lost ==> Served(common[c], on, due, running)
    ensures AllServed(common, on, due, running, lost)
  {
  }

  /** Expiring an event, be it a list's timer or not, leaves the lists served. */
  lemma Expired(common: seq<Ctl>, on: set<(nat, Flag)>, due: map<nat, int>, running: int, x: nat,
                common': seq<Ctl>, on': set<(nat, Flag)>, info: map<nat, Info>, slot: map<nat, int>,
                t: set<nat>, t': set<nat>)
    requires TimersOk(common, info, on, slot, t) && SameTimers(common, common') && HeadsLater(common, due, common', due)
    requires on' == on - Flags(x) + {(x, Active)} && t' == t + {x}
    ensures TimersOk(common', info, on', slot, t')
    ensures forall c :: 0 <= c < |common'| && Served(common[c], on, due, running) ==>
      Served(common'[c], on', due, running)
  {
    hide Due;
    forall c | 0 <= c < |common'|
      ensures TimerOk(common'[c].timer, info, on', slot, t')
      ensures Served(common[c], on, due, running) ==> Served(common'[c], on', due, running)
    {
      assert TimerOk(common[c].timer, info, on, slot, t);
    }
  }

  lemma EverybodyServed(common: seq<Ctl>, on: set<(nat, Flag)>, due: map<nat, int>, running: int, lost: set<int>)
    requires AllServed(common, on, due, running, lost)
    ensures forall c :: 0 <= c < |common| && c !in lost ==> Served(common[c], on, due, running)
  {
  }

  ghost predicate OthersServed(common: seq<Ctl>, c: nat, on: set<(nat, Flag)>, due: map<nat, int>, running: int,
                               lost: set<int>) {
    forall d :: 0 <= d < |common| && d != c && d !in lost ==> Served(common[d], on, due, running)
  }

  lemma ListsOthers(common: seq<Ctl>, on: set<(nat, Flag)>, due: map<nat, int>, running: int, lost: set<int>, c: nat)
    requires AllServed(common, on, due, running, lost)
    ensures OthersServed(common, c, on, due, running, lost)
  {
  }

  /** A list whose timer could not be entered is lost, unless its callback will run anyway. */
  lemma Unscheduled(common: seq<Ctl>, on: set<(nat, Flag)>, due: map<nat, int>, running: int, lost: set<int>, c: nat)
    requires c < |common| && OthersServed(common, c, on, due, running, lost) && common[c].events != []
    requires (common[c].timer, Timeout) !in on
    ensures AllServed(common, on, due, running, if Silent(common[c].timer, on, running) then lost + {c} else lost - {c})
    ensures Silent(common[c].timer, on, running) <==> !Served(common[c], on, due, running)
  {
  }

  lemma NotLost(common: seq<Ctl>, on: set<(nat, Flag)>, due: map<nat, int>, running: int, lost: set<int>, c: nat)
    requires OthersServed(common, c, on, due, running, lost)
    ensures OthersServed(common, c, on, due, running, lost - {c})
  {
  }

  lemma RoomFor(heap: set<nat>, common: seq<Ctl>, on: set<(nat, Flag)>, slot: map<nat, int>, due: map<nat, int>, x: nat)
    requires Timed(heap, common, on, slot, due)
    ensures x in heap <==> (x, Timeout) in on && Slot(slot, x) == HEAP
    ensures |heap - {x}| == |heap| - if x in heap then 1 else 0
    ensures forall c :: 0 <= c < |common| ==> NoDup(common[c].events)
  {
    if x !in heap {
      assert heap - {x} == heap;
    }
  }

  lemma NotThere(heap: set<nat>, common: seq<Ctl>, on: set<(nat, Flag)>, slot: map<nat, int>, due: map<nat, int>,
                 x: nat)
    requires Timed(heap, common, on, slot, due) && (x, Timeout) !in on
    ensures x !in heap && heap == heap - {x}
  {
  }

  /** An event with a timeout that the heap does not hold. */
  lemma Stray(heap: set<nat>, common: seq<Ctl>, on: set<(nat, Flag)>, slot: map<nat, int>, due: map<nat, int>, x: nat)
    requires (x, Timeout) in on && Slot(slot, x) == HEAP && x !in heap
    ensures !Timed(heap, common, on, slot, due)
  {
  }

  lemma IntervalsKept(interval: map<nat, Tv>, info: map<nat, Info>, slot: map<nat, int>, lists: nat, t: nat, list: int)
    requires IntervalsOk(interval, info, slot, lists) && t in info && !info[t].persist
    ensures IntervalsOk(interval, info, slot[t := list], lists)
  {
  }

  lemma IntervalSet(interval: map<nat, Tv>, info: map<nat, Info>, slot: map<nat, int>, lists: nat, x: nat, tv: Tv,
                    absolute: bool)
    requires IntervalsOk(interval, info, slot, lists) && x in info && HEAP <= tv.list < lists
    requires absolute && x in interval ==> tv.list == interval[x].list
    ensures IntervalsOk(if info[x].persist && !absolute then interval[x := tv] else interval,
                        info, slot[x := tv.list], lists)
  {
  }

  lemma SilentKept(common: seq<Ctl>, on: set<(nat, Flag)>, on': set<(nat, Flag)>, running: int, x: nat, list: nat)
    requires list < |common| && !Timer(common, x)
    requires forall q: (nat, Flag) :: q.0 != x ==> (q in on <==> q in on')
    ensures Silent(common[list].timer, on, running) <==> Silent(common[list].timer, on', running)
    ensures (common[list].timer, Timeout) in on <==> (common[list].timer, Timeout) in on'
  {
  }

  /** What entering the timeout of x does to list d and its timer: the timer changes only if x
      comes first, and then it is set for x. */
  ghost predicate TimerStep(ctl: Ctl, on: set<(nat, Flag)>, due: map<nat, int>, ctl': Ctl, on': set<(nat, Flag)>,
                            due': map<nat, int>,
                            x: nat, enters: bool) {
    var t := ctl.timer;
    && ((t, Active) in on' ==> (t, Active) in on)
    && ((t, Timeout) in on ==> (t, Timeout) in on')
    && ((t, Timeout) in on' ==>
          || ((t, Timeout) in on && Due(due', t) == Due(due, t))
          || (enters && ctl'.events != [] && ctl'.events[0] == x && Due(due', t) == Due(due', x)
              && First(ctl'.events, due', x, Due(due', x))))
    && (forall y :: y in ctl'.events ==> y in ctl.events || (enters && y == x))
    && (forall y :: y in ctl.events && y != x ==> y in ctl'.events)
    && (ctl.events != [] && ctl.events[0] != x ==>
          && ctl'.events != []
          && (|| ctl'.events[0] == ctl.events[0]
              || (enters && ctl'.events[0] == x && First(ctl'.events, due', x, Due(due', x)))))
  }

  ghost predicate TimersStep(common: seq<Ctl>, on: set<(nat, Flag)>, due: map<nat, int>,
                             common': seq<Ctl>, on': set<(nat, Flag)>, due': map<nat, int>, x: nat, list: int) {
    && |common| == |common'|
    && forall d :: 0 <= d < |common| ==> TimerStep(common[d], on, due, common'[d], on', due', x, d == list)
  }

  lemma NobodyConcerned(common: seq<Ctl>, x: nat, on: set<(nat, Flag)>, due: map<nat, int>, slot: map<nat, int>)
    ensures OthersSame(common, x, on, due, slot, on, due, slot)
    ensures OthersSame(common, x, on, due, slot, on + {(x, Inserted)}, due, slot)
    ensures SameTimers(common, common)
  {
  }

  /** The inserted flag plays no part. */
  lemma StepFrom(common: seq<Ctl>, on: set<(nat, Flag)>, on1: set<(nat, Flag)>, due: map<nat, int>,
                 common': seq<Ctl>, on': set<(nat, Flag)>, due': map<nat, int>, x: nat, list: int, running: int,
                 slot: map<nat, int>, slot': map<nat, int>)
    requires TimersStep(common, on1, due, common', on', due', x, list)
    requires OthersSame(common', x, on1, due, slot, on', due', slot')
    requires on <= on1 <= on + {(x, Inserted)}
    ensures TimersStep(common, on, due, common', on', due', x, list)
    ensures OthersSame(common', x, on, due, slot, on', due', slot')
    ensures 0 <= list < |common| ==>
      (Silent(common[list].timer, on, running) <==> Silent(common[list].timer, on1, running))
  {
    forall d | 0 <= d < |common|
      ensures TimerStep(common[d], on, due, common'[d], on', due', x, d == list)
    {
      assert TimerStep(common[d], on1, due, common'[d], on', due', x, d == list);
    }
  }

  lemma DueSet(due: map<nat, int>, x: nat, time: int)
    ensures Due(due[x := time], x) == time && forall y :: y != x ==> Due(due[x := time], y) == Due(due, y)
  {
  }

  lemma PutOne(q: seq<nat>, due: map<nat, int>, x: nat, k: nat)
    requires Place(q, due, x, k) && x !in q
    ensures var r := q[..k] + [x] + q[k..];
            && (r[0] == x <==> k == 0) && (0 < k ==> r[0] == q[0]) && (forall y :: y in r <==> y in q || y == x)
            && (k == 0 ==> First(r, due, x, Due(due, x)))
  {
    InsertMembers(q, x, k);
    if 0 < k {
      assert q[0] in q;
    }
  }

  /** Entering the timeout of x, before its list's timer is set: what it does to one list. */
  lemma PutList(ctl: Ctl, on: set<(nat, Flag)>, due: map<nat, int>, x: nat, time: int, enters: bool, k: nat,
                q: seq<nat>,
                ctl': Ctl, on': set<(nat, Flag)>)
    requires NoDup(ctl.events) && q == if x in ctl.events then Removed(ctl.events, x) else ctl.events
    requires ctl.timer != x && forall p: (nat, Flag) :: p.0 != x ==> (p in on <==> p in on')
    requires enters ==> Place(q, due[x := time], x, k)
    requires ctl' == ctl.(events := if enters then q[..k] + [x] + q[k..] else q)
    ensures TimerStep(ctl, on, due, ctl', on', due[x := time], x, enters)
    ensures enters ==>
      ctl'.events != [] && (ctl'.events[0] == x <==> k == 0) && (First(ctl.events, due, x, time) <==> k == 0)
    ensures enters && k == 0 ==> First(ctl'.events, due[x := time], x, time)
  {
    hide Due, Place, First;
    DueSet(due, x, time);
    if x in ctl.events {
      RemovedIs(ctl.events, x);
    }
    if enters {
      PutOne(q, due[x := time], x, k);
      FirstPlace(ctl.events, due, x, time, q, k);
      PlaceBound(q, due[x := time], x, k);
    }
  }

  lemma PutStep(heap: set<nat>, common: seq<Ctl>, on: set<(nat, Flag)>, slot: map<nat, int>, due: map<nat, int>, x: nat,
                time: int,
                list: int, k: nat, was: seq<Ctl>, common': seq<Ctl>, on': set<(nat, Flag)>)
    requires Timed(heap, common, on, slot, due) && !Timer(common, x) && HEAP <= list < |common|
    requires was == if (x, Timeout) in on then Dropped(common, Slot(slot, x), x) else common
    requires forall q: (nat, Flag) :: q.0 != x ==> (q in on <==> q in on')
    requires if list == HEAP then common' == was
             else
               && |was| == |common| && Place(was[list].events, due[x := time], x, k)
               && common' == was[list := was[list].(events := was[list].events[..k] + [x] + was[list].events[k..])]
    ensures TimersStep(common, on, due, common', on', due[x := time], x, list)
    ensures list != HEAP ==> common'[list].events != [] && (common'[list].events[0] == x <==> k == 0)
    ensures list != HEAP ==> (First(common[list].events, due, x, time) <==> k == 0)
    ensures list != HEAP && k == 0 ==> First(common'[list].events, due[x := time], x, time)
    ensures list != HEAP ==> k <= |was[list].events|
  {
    hide Due, Place, First, TimerStep;
    forall d | 0 <= d < |common|
      ensures |common'| == |common| && TimerStep(common[d], on, due, common'[d], on', due[x := time], x, d == list)
      ensures d == list ==> common'[d].events != [] && (common'[d].events[0] == x <==> k == 0)
      ensures d == list ==> (First(common[d].events, due, x, time) <==> k == 0)
      ensures d == list && k == 0 ==> First(common'[d].events, due[x := time], x, time)
    {
      assert x in common[d].events <==> (x, Timeout) in on && Slot(slot, x) == d;
      PutList(common[d], on, due, x, time, d == list, k, was[d].events, common'[d], on');
    }
    if list != HEAP {
      PlaceBound(was[list].events, due[x := time], x, k);
    }
  }

  lemma TimerFacts(common: seq<Ctl>, info: map<nat, Info>, on: set<(nat, Flag)>, slot: map<nat, int>,
                   timedOut: set<nat>, c: nat)
    requires TimersOk(common, info, on, slot, timedOut) && c < |common|
    ensures var t := common[c].timer;
            t in info && !info[t].persist && Slot(slot, t) == HEAP && ((t, Active) in on ==> t in timedOut)
  {
    assert TimerOk(common[c].timer, info, on, slot, timedOut);
  }

  lemma Anew(on: set<(nat, Flag)>, gone: set<(nat, Flag)>, x: nat)
    ensures on - gone - {(x, Timeout)} + {(x, Timeout)} == on - gone + {(x, Timeout)}
  {
  }

  lemma TimerDue(heap: set<nat>, common: seq<Ctl>, on: set<(nat, Flag)>, slot: map<nat, int>, due: map<nat, int>,
                 info: map<nat, Info>, timedOut: set<nat>, c: nat)
    requires Timed(heap, common, on, slot, due) && TimersOk(common, info, on, slot, timedOut)
    requires c < |common| && common[c].events != []
    ensures var due' := due[common[c].timer := Due(due, common[c].events[0])];
            Due(due', common[c].timer) == Due(due', common[c].events[0])
  {
    ListFacts(heap, common, on, slot, due, info, timedOut, c);
  }

  lemma SameTimer(common: seq<Ctl>, common': seq<Ctl>)
    requires SameTimers(common, common')
    ensures forall x :: Timer(common, x) <==> Timer(common', x)
  {
    forall x
      ensures Timer(common, x) <==> Timer(common', x)
    {
      if c :| 0 <= c < |common| && common[c].timer == x {
        assert common'[c].timer == x;
      }
      if c :| 0 <= c < |common'| && common'[c].timer == x {
        assert common[c].timer == x;
      }
    }
  }

  lemma TimerOf(common: seq<Ctl>, c: nat)
    requires c < |common|
    ensures Timer(common, common[c].timer)
  {
  }

  /** No list holds a timer, and no two have the same. */
  lemma TimerNowhere(heap: set<nat>, common: seq<Ctl>, on: set<(nat, Flag)>, slot: map<nat, int>, due: map<nat, int>,
                     info: map<nat, Info>, timedOut: set<nat>, c: nat)
    requires Timed(heap, common, on, slot, due) && TimersOk(common, info, on, slot, timedOut) && c < |common|
    ensures forall d :: 0 <= d < |common| ==> common[c].timer !in common[d].events
    ensures forall d :: 0 <= d < c || c < d < |common| ==> common[d].timer != common[c].timer
  {
    assert TimerOk(common[c].timer, info, on, slot, timedOut);
  }

  /** And after it. */
  lemma SetStep(common: seq<Ctl>, on: set<(nat, Flag)>, due: map<nat, int>, common': seq<Ctl>, on1: set<(nat, Flag)>,
                due1: map<nat, int>,
                on': set<(nat, Flag)>, due': map<nat, int>, slot1: map<nat, int>, slot': map<nat, int>,
                x: nat, list: nat)
    requires TimersStep(common, on, due, common', on1, due1, x, list) && SameTimers(common, common') && list < |common|
    requires common'[list].events != [] && common'[list].events[0] == x
    requires First(common'[list].events, due1, x, Due(due1, x))
    requires forall d :: 0 <= d < list || list < d < |common| ==> common[d].timer != common[list].timer
    requires forall d :: 0 <= d < |common| ==> common[list].timer !in common'[d].events
    requires !Timer(common, x)
    requires var t := common[list].timer;
             && ((t, Active) in on' ==> (t, Active) in on1)
             && ((on' == on1 && due' == due1) || (Due(due', t) == Due(due', x) && (t, Timeout) in on'))
             && Only(t, on1, due1, slot1, on', due', slot')
    ensures TimersStep(common, on, due, common', on', due', x, list)
    ensures First(common'[list].events, due', x, Due(due', x))
  {
    hide Due;
    forall d | 0 <= d < |common|
      ensures TimerStep(common[d], on, due, common'[d], on', due', x, d == list)
    {
      assert TimerStep(common[d], on, due, common'[d], on1, due1, x, d == list);
    }
  }

  lemma OthersStillServed(common: seq<Ctl>, on: set<(nat, Flag)>, common': seq<Ctl>, on': set<(nat, Flag)>,
                          due: map<nat, int>, running: int, lost: set<int>, c: nat)
    requires OthersServed(common, c, on, due, running, lost) && |common'| == |common|
    requires forall d :: 0 <= d < |common'| && Served(common[d], on, due, running) ==>
      Served(common'[d], on', due, running)
    ensures OthersServed(common', c, on', due, running, lost)
  {
  }

  lemma KnownEvent(active: seq<seq<nat>>, later: seq<nat>, on: set<(nat, Flag)>, info: map<nat, Info>, x: nat, f: Flag)
    requires Queued(active, later, on, info) && (x, f) in on
    ensures x in info && info[x].pri < |active|
  {
  }

  /** A list is sorted and does not hold its own timer. */
  lemma ListFacts(heap: set<nat>, common: seq<Ctl>, on: set<(nat, Flag)>, slot: map<nat, int>, due: map<nat, int>,
                  info: map<nat, Info>, timedOut: set<nat>, c: nat)
    requires Timed(heap, common, on, slot, due) && TimersOk(common, info, on, slot, timedOut) && c < |common|
    ensures Sorted(common[c].events, due)
    ensures forall i :: 0 <= i < |common[c].events| ==> common[c].events[i] != common[c].timer
  {
    assert TimerOk(common[c].timer, info, on, slot, timedOut);
    assert forall i :: 0 <= i < |common[c].events| ==> common[c].events[i] in common[c].events;
  }

  lemma FirstOfList(heap: set<nat>, common: seq<Ctl>, on: set<(nat, Flag)>, slot: map<nat, int>, due: map<nat, int>,
                    c: nat)
    requires Timed(heap, common, on, slot, due) && c < |common| && common[c].events != []
    ensures var x := common[c].events[0];
            && (x, Timeout) in on && Slot(slot, x) == c && Removed(common[c].events, x) == common[c].events[1..]
            && heap - {x} == heap
  {
    assert common[c].events[0] in common[c].events;
  }

  lemma SuffixSorted(q: seq<nat>, due: map<nat, int>, n: nat, now: int)
    requires Sorted(q, due) && n <= |q| && (n < |q| ==> now < Due(due, q[n]))
    ensures forall i :: n <= i < |q| ==> now < Due(due, q[i])
  {
  }

  /** Other lists do not depend on whether this list's timer is running. */
  lemma StopRunning(common: seq<Ctl>, on: set<(nat, Flag)>, due: map<nat, int>, info: map<nat, Info>, slot: map<nat,
                    int>,
                    timedOut: set<nat>, lost: set<int>, c: nat, running': int)
    requires TimersOk(common, info, on, slot, timedOut) && c < |common|
    requires OthersServed(common, c, on, due, common[c].timer, lost)
    ensures OthersServed(common, c, on, due, running', lost)
    ensures common[c].events == [] ==> AllServed(common, on, due, running', lost)
  {
  }

  lemma {:induction false} EarliestExists(heap: set<nat>, due: map<nat, int>)
    requires heap != {}
    ensures exists x :: x in heap && forall y :: y in heap ==> Due(due, x) <= Due(due, y)
    decreases |heap|
  {
    hide Due;
    var z :| z in heap;
    if heap - {z} != {} {
      EarliestExists(heap - {z}, due);
      var x :| x in heap - {z} && forall y :: y in heap - {z} ==> Due(due, x) <= Due(due, y);
      var m := if Due(due, z) <= Due(due, x) then z else x;
      assert forall y :: y in heap ==> y == z || y in heap - {z};
      assert m in heap && forall y :: y in heap ==> Due(due, m) <= Due(due, y);
    } else {
      assert forall y :: y in heap ==> y == z || y in heap - {z};
      assert forall y :: y in heap ==> Due(due, z) <= Due(due, y);
    }
  }

  lemma InHeap(heap: set<nat>, common: seq<Ctl>, on: set<(nat, Flag)>, slot: map<nat, int>, due: map<nat, int>, x: nat)
    requires Timed(heap, common, on, slot, due) && x in heap
    ensures (x, Timeout) in on && Slot(slot, x) == HEAP
  {
  }

  /** The events that have left the heap are active through their timeout; the others are as
      they were. */
  ghost predicate Woken(heap0: set<nat>, on0: set<(nat, Flag)>, heap: set<nat>, on: set<(nat, Flag)>, due: map<nat,
                        int>,
                        timedOut: set<nat>, now: int) {
    && heap <= heap0
    && (forall x :: x in heap0 && x !in heap ==>
          Due(due, x) <= now && (x, Active) in on && (x, Timeout) !in on && x in timedOut)
    && (forall q: (nat, Flag) :: q.0 !in heap0 || q.0 in heap ==> (q in on <==> q in on0))
  }

  lemma NobodyWoken(heap: set<nat>, on: set<(nat, Flag)>, due: map<nat, int>, timedOut: set<nat>, now: int)
    ensures Woken(heap, on, heap, on, due, timedOut, now)
  {
  }

  lemma WokenNext(heap0: set<nat>, on0: set<(nat, Flag)>, heap: set<nat>, on: set<(nat, Flag)>, due: map<nat, int>,
                  timedOut: set<nat>, now: int, x: nat)
    requires Woken(heap0, on0, heap, on, due, timedOut, now) && x in heap && Due(due, x) <= now
    ensures Woken(heap0, on0, heap - {x}, on - Flags(x) + {(x, Active)}, due, timedOut + {x}, now)
  {
    hide Due;
  }

  lemma WokenAll(heap0: set<nat>, on0: set<(nat, Flag)>, heap: set<nat>, on: set<(nat, Flag)>, due: map<nat, int>,
                 timedOut: set<nat>, now: int)
    requires Woken(heap0, on0, heap, on, due, timedOut, now) && forall x :: x in heap ==> now < Due(due, x)
    ensures forall x :: x in heap <==> x in heap0 && now < Due(due, x)
    ensures forall x :: x in heap0 && Due(due, x) <= now ==> (x, Active) in on && (x, Timeout) !in on && x in timedOut
    ensures forall q: (nat, Flag) :: q.0 !in heap0 || now < Due(due, q.0) ==> (q in on <==> q in on0)
  {
    hide Due;
  }

  /** Starting a callback leaves the lists served: if it is a list's, it will look at it. */
  lemma StartedServed(common: seq<Ctl>, on: set<(nat, Flag)>, due: map<nat, int>, x: nat, common': seq<Ctl>,
                      on': set<(nat, Flag)>,
                      info: map<nat, Info>, slot: map<nat, int>, timedOut: set<nat>, lost: set<int>)
    requires AllServed(common, on, due, NOBODY, lost) && TimersOk(common, info, on, slot, timedOut)
    requires SameTimers(common, common') && HeadsLater(common, due, common', due)
    requires on' <= on && forall q: (nat, Flag) :: q.0 != x ==> (q in on <==> q in on')
    ensures AllServed(common', on', due, x, lost) && TimersOk(common', info, on', slot, timedOut)
    ensures |common'| == |common|
  {
    hide Due;
    forall c | 0 <= c < |common'|
      ensures TimerOk(common'[c].timer, info, on', slot, timedOut)
      ensures c !in lost ==> Served(common'[c], on', due, x)
    {
      assert c !in lost ==> Served(common[c], on, due, NOBODY);
      assert TimerOk(common[c].timer, info, on, slot, timedOut);
    }
  }

  lemma MovedActive(active: seq<seq<nat>>, later: seq<nat>, on: set<(nat, Flag)>, info: map<nat, Info>, x: nat)
    requires Queued(active, later, on, info) && later != [] && x == later[0]
    ensures (x, Later) in on && x in info && info[x].pri < |active|
    ensures var p := info[x].pri;
            var on' := on - {(x, Later)} + {(x, Active)};
            && Queued(active[p := active[p] + [x]], later[1..], on', info)
            && Total(active[p := active[p] + [x]]) == Total(active) + 1
            && |Users(on', info)| == |Users(on, info)|
  {
    assert x in later;
    RemovedLater(active, later, on, info, x);
    assert Removed(later, x) == later[1..];
    NotBothLater(active, later, on, info, x);
    InsertedActive(active, later[1..], on - {(x, Later)}, info, x);
    UsersDrop(on, info, x, Later);
    UsersAdd(on - {(x, Later)}, info, x, Active);
  }

  lemma HeadOff(active: seq<seq<nat>>, later: seq<nat>, on: set<(nat, Flag)>, info: map<nat, Info>, p: nat)
    requires Queued(active, later, on, info) && p < |active| && active[p] != []
    ensures Unqueued(active, info, active[p][0]) == active[p := active[p][1..]]
    ensures active[p][0] in info && (active[p][0], Active) in on
  {
    assert active[p][0] in active[p];
  }

  /** The callbacks of one priority, in order. */
  ghost function OfPriority(q: seq<nat>, info: map<nat, Info>, p: nat): seq<nat> {
    if q == [] then []
    else (if q[0] in info && info[q[0]].pri == p then [q[0]] else []) + OfPriority(q[1..], info, p)
  }

  /** Each queue has taken its share of `later` in order. */
  ghost predicate InTurn(active0: seq<seq<nat>>, later0: seq<nat>, active: seq<seq<nat>>, later: seq<nat>,
                         info: map<nat, Info>) {
    && |active| == |active0|
    && forall p :: 0 <= p < |active| ==>
         active[p] + OfPriority(later, info, p) == active0[p] + OfPriority(later0, info, p)
  }

  lemma OneTurn(a: seq<nat>, x: nat, rest: seq<nat>, info: map<nat, Info>, p: nat)
    ensures a + OfPriority([x] + rest, info, p) ==
            (if x in info && info[x].pri == p then a + [x] else a) + OfPriority(rest, info, p)
  {
    assert ([x] + rest)[1..] == rest;
    assert a + ([x] + OfPriority(rest, info, p)) == (a + [x]) + OfPriority(rest, info, p);
    assert a + ([] + OfPriority(rest, info, p)) == a + OfPriority(rest, info, p);
  }

  lemma InTurnNext(active0: seq<seq<nat>>, later0: seq<nat>, active: seq<seq<nat>>, later: seq<nat>, info: map<nat,
                   Info>)
    requires InTurn(active0, later0, active, later, info) && later != []
    requires later[0] in info && info[later[0]].pri < |active|
    ensures InTurn(active0, later0, Enqueued(active, info, later[0]), later[1..], info)
  {
    hide OfPriority;
    assert later == [later[0]] + later[1..];
    forall p | 0 <= p < |active|
      ensures Enqueued(active, info, later[0])[p] + OfPriority(later[1..], info, p)
              == active0[p] + OfPriority(later0, info, p)
    {
      OneTurn(active[p], later[0], later[1..], info, p);
    }
  }

  lemma InTurnEnd(active0: seq<seq<nat>>, later0: seq<nat>, active: seq<seq<nat>>, info: map<nat, Info>)
    ensures InTurn(active0, later0, active0, later0, info)
    ensures InTurn(active0, later0, active, [], info) ==>
      |active| == |active0| && forall p :: 0 <= p < |active| ==> active[p] == active0[p] + OfPriority(later0, info, p)
  {
    if InTurn(active0, later0, active, [], info) {
      forall p | 0 <= p < |active|
        ensures active[p] == active0[p] + OfPriority(later0, info, p)
      {
        assert active[p] + [] == active[p];
      }
    }
  }

  lemma NotBothLater(active: seq<seq<nat>>, later: seq<nat>, on: set<(nat, Flag)>, info: map<nat, Info>, x: nat)
    requires Queued(active, later, on, info) && (x, Later) in on
    ensures (x, Active) !in on
  {
  }

  lemma NotATimer(common: seq<Ctl>, info: map<nat, Info>, on: set<(nat, Flag)>, slot: map<nat, int>, timedOut: set<nat>,
                  x: nat)
    requires TimersOk(common, info, on, slot, timedOut) && (x, Later) in on
    ensures forall c :: 0 <= c < |common| ==> common[c].timer != x
  {
    assert forall c :: 0 <= c < |common| ==> TimerOk(common[c].timer, info, on, slot, timedOut);
  }

  lemma LaterEmpty(active: seq<seq<nat>>, later: seq<nat>, on: set<(nat, Flag)>, info: map<nat, Info>)
    requires Queued(active, later, on, info) && later == []
    ensures forall x :: (x, Later) !in on
  {
  }

  lemma CountZero(on: set<(nat, Flag)>, info: map<nat, Info>)
    ensures |Users(on, info)| == 0 <==> forall q :: q in on ==> !IsUser(info, q.0)
  {
    if forall q :: q in on ==> !IsUser(info, q.0) {
      assert Users(on, info) == {};
    }
    if |Users(on, info)| == 0 {
      assert Users(on, info) == {};
      forall q | q in on
        ensures !IsUser(info, q.0)
      {
        assert q !in Users(on, info);
      }
    }
  }

  lemma {:induction false} TotalZero(qs: seq<seq<nat>>, p: nat)
    requires Total(qs) == 0 && p < |qs|
    ensures qs[p] == []
  {
    if 0 < p {
      TotalZero(qs[1..], p - 1);
    }
  }

  lemma NoneQueued(active: seq<seq<nat>>, later: seq<nat>, on: set<(nat, Flag)>, info: map<nat, Info>)
    requires Queued(active, later, on, info)
    ensures |later| + Total(active) == 0 <==> forall q :: q in on ==> q.1 != Active && q.1 != Later
  {
    if |later| + Total(active) == 0 {
      forall x: nat
        ensures (x, Active) !in on
      {
        if x in info && info[x].pri < |active| {
          TotalZero(active, info[x].pri);
          assert x !in active[info[x].pri];
        }
      }
    }
    if forall q :: q in on ==> q.1 != Active && q.1 != Later {
      assert forall x :: x in later ==> (x, Later) in on;
      NobodyIn(later);
      forall p | 0 <= p < |active|
        ensures active[p] == []
      {
        assert forall x :: x in active[p] ==> (x, Active) in on;
        NobodyIn(active[p]);
      }
      TotalEmpty(active);
    }
  }

  lemma NobodyIn(q: seq<nat>)
    requires forall x :: x !in q
    ensures q == []
  {
    if q != [] {
      FirstIn(q);
    }
  }

  lemma FirstIn(q: seq<nat>)
    requires q != []
    ensures q[0] in q
  {
  }

  lemma NewList(heap: set<nat>, common: seq<Ctl>, on: set<(nat, Flag)>, slot: map<nat, int>, due: map<nat, int>, x: nat,
                duration: int)
    requires Timed(heap, common, on, slot, due)
    ensures Timed(heap, common + [Ctl(x, duration, [])], on, slot, due)
  {
  }

  lemma NewListServed(common: seq<Ctl>, info: map<nat, Info>, on: set<(nat, Flag)>, slot: map<nat, int>, due: map<nat,
                      int>,
                      timedOut: set<nat>, running: int, lost: set<int>, x: nat, duration: int)
    requires TimersOk(common, info, on, slot, timedOut) && AllServed(common, on, due, running, lost)
    requires TimerOk(x, info, on, slot, timedOut) && !Timer(common, x)
    ensures var common' := common + [Ctl(x, duration, [])];
            TimersOk(common', info, on, slot, timedOut) && AllServed(common', on, due, running, lost)
  {
    hide TimerOk, Due;
  }

  lemma MoreLists(interval: map<nat, Tv>, info: map<nat, Info>, slot: map<nat, int>, n: nat, m: nat)
    requires IntervalsOk(interval, info, slot, n) && n <= m
    ensures IntervalsOk(interval, info, slot, m)
  {
  }

  lemma PlaceBound(q: seq<nat>, due: map<nat, int>, x: nat, k: nat)
    requires Place(q, due, x, k)
    ensures k <= |q|
  {
  }

  /** The lists without x in list c. */
  function Dropped(common: seq<Ctl>, c: int, x: nat): seq<Ctl> {
    if 0 <= c < |common| then common[c := common[c].(events := Removed(common[c].events, x))] else common
  }
}
