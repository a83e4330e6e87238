/** The map from file descriptors to events, the changelist, and the epoll backend. */
module Evmap {
  import opened Common
  import opened EpollTable

  /** An event, as far as the map sees it. */
  datatype Event = Event(id: nat, fd: int, kinds: set<Kind>)

  /** How many events of one kind a descriptor can have. */
  const MAX_EVENTS: nat := 0xffff

  function One(b: bool): nat {
    if b then 1 else 0
  }

  /** How many of the listed events wait for k. */
  function Count(evs: seq<Event>, k: Kind): nat {
    if evs == [] then 0 else One(k in evs[0].kinds) + Count(evs[1..], k)
  }

  /** The counters have no room for one more event. */
  ghost predicate Full(evs: seq<Event>, ev: Event) {
    exists k :: k in ev.kinds && Count(evs, k) == MAX_EVENTS
  }

  /** LIST_REMOVE */
  function Without(evs: seq<Event>, ev: Event): seq<Event> {
    if evs == [] then [] else if evs[0] == ev then evs[1..] else [evs[0]] + Without(evs[1..], ev)
  }

  lemma {:induction false} CountWithout(evs: seq<Event>, ev: Event, k: Kind)
    requires ev in evs
    ensures Count(evs, k) == Count(Without(evs, ev), k) + One(k in ev.kinds)
  {
    if evs[0] != ev {
      CountWithout(evs[1..], ev, k);
      assert Without(evs, ev)[1..] == Without(evs[1..], ev);
    }
  }

  /** The sizes a table can have while it is kept in an int: none, or 32 doubled some times. */
  predicate TableSize(n: nat) {
    n in [0, 0x20, 0x40, 0x80, 0x100, 0x200, 0x400, 0x800, 0x1000, 0x2000, 0x4000, 0x8000, 0x1_0000, 0x2_0000, 0x4_0000,
          0x8_0000, 0x10_0000, 0x20_0000, 0x40_0000, 0x80_0000, 0x100_0000, 0x200_0000, 0x400_0000, 0x800_0000,
          0x1000_0000, 0x2000_0000, 0x4000_0000]
  }

  lemma TableDoubles(n: nat)
    requires TableSize(n)
    ensures n <= 0x4000_0000 && (0 < n < 0x4000_0000 ==> TableSize(n * 2))
  {
  }

  /** The sizing loop of evmap_make_space: 32 or the present size, doubled until the slot fits. */
  method RoomyEnough(size: nat, slot: nat) returns (n: nat)
    requires size <= slot
    ensures slot < n
    ensures TableSize(size) ==>
      if slot < 0x4000_0000 then TableSize(n) && n <= INT_MAX else INT_MAX < n
  {
    hide TableSize;
    n := if size != 0 then size else 32;
    assert TableSize(32) by {
      FirstSize();
    }
    while n <= slot
      invariant 0 < n && size <= n
      invariant TableSize(size) ==> TableSize(n) || (0x4000_0000 <= slot && INT_MAX < n)
      decreases slot - n
    {
      if TableSize(n) {
        TableDoubles(n);
      }
      n := n * 2;
    }
    if TableSize(n) {
      TableDoubles(n);
    }
  }

  lemma FirstSize()
    ensures TableSize(32)
  {
  }

  /** Growing the table with empty places changes no context. */
  lemma GrownTable(entries: seq<Option<Ctx>>, n: nat)
    requires |entries| <= n
    ensures var grown := entries + seq(n - |entries|, _ => None);
            |grown| == n && forall fd :: At(grown, fd) == At(entries, fd)
  {
  }

  /** struct evmap_io, with the changelist's fdinfo behind it. */
  datatype Ctx = Ctx(nread: nat, nwrite: nat, nclose: nat, events: seq<Event>, idxplus1: nat) {
    function N(k: Kind): nat {
      match k
      case Read => nread
      case Write => nwrite
      case Closed => nclose
    }

    /** The counters are right. */
    ghost predicate Counted() {
      forall k: Kind :: N(k) == Count(events, k) <= MAX_EVENTS
    }

    /** The kinds some listed event waits for. */
    function Active(): set<Kind> {
      set k: Kind | N(k) > 0
    }
  }

  const EMPTY := Ctx(0, 0, 0, [], 0)

  function At(entries: seq<Option<Ctx>>, fd: int): Ctx {
    if 0 <= fd < |entries| && entries[fd].Some? then entries[fd].value else EMPTY
  }

  /** What the kernel has registered for fd. */
  function Reg(kernel: map<int, set<Kind>>, fd: int): Option<set<Kind>> {
    if fd in kernel then Some(kernel[fd]) else None
  }

  /** How the kernel registers an interest: nothing is not registered at all. */
  function Want(s: set<Kind>): Option<set<Kind>> {
    if s == {} then None else Some(s)
  }

  /** What has to hold for one descriptor: its counters are right; if it has no entry in the
      changelist the kernel has what the counters say, and if it has one, the kernel still has
      the old events of the entry and the entry asks for what the counters say.  The kernel
      may disagree only where the registration drifted. */
  ghost predicate FdOk(c: Ctx, fd: int, changes: seq<Change>, reg: Option<set<Kind>>, drifted: bool) {
    && c.Counted()
    && c.idxplus1 <= |changes|
    && if c.idxplus1 == 0 then drifted || reg == Want(c.Active())
       else
         var ch := changes[c.idxplus1 - 1];
         && ch.fd == fd && ch.Exclusive() && ch.Wanted() == c.Active()
         && (drifted || reg == Want(ch.had))
  }

  /** Every entry of the changelist is the one its descriptor points to. */
  ghost predicate Indexed(entries: seq<Option<Ctx>>, changes: seq<Change>) {
    forall i :: 0 <= i < |changes| ==>
      0 <= changes[i].fd < |entries| && entries[changes[i].fd].Some? && At(entries, changes[i].fd).idxplus1 == i + 1
  }

  /** event_changelist_add_'s effect on an entry. */
  function AddTo(ch: Change, kinds: set<Kind>): Change {
    ch.(read := if Read in kinds then CHANGE_ADD else ch.read,
        write := if Write in kinds then CHANGE_ADD else ch.write,
        close := if Closed in kinds then CHANGE_ADD else ch.close)
  }

  /** event_changelist_del_'s effect on an entry. */
  function DelFrom(ch: Change, kinds: set<Kind>): Change {
    ch.(read := if Read in kinds then (if Read in ch.had then CHANGE_DEL else 0) else ch.read,
        write := if Write in kinds then (if Write in ch.had then CHANGE_DEL else 0) else ch.write,
        close := if Closed in kinds then (if Closed in ch.had then CHANGE_DEL else 0) else ch.close)
  }

  lemma AddToWanted(ch: Change, kinds: set<Kind>)
    requires ch.Exclusive()
    ensures AddTo(ch, kinds).Exclusive() && AddTo(ch, kinds).Wanted() == ch.Wanted() + kinds
  {
    forall k: Kind
      ensures k in AddTo(ch, kinds).Wanted() <==> k in ch.Wanted() + kinds
    {
      match k
      case Read =>
      case Write =>
      case Closed =>
    }
  }

  lemma DelFromWanted(ch: Change, kinds: set<Kind>)
    requires ch.Exclusive()
    ensures DelFrom(ch, kinds).Exclusive() && DelFrom(ch, kinds).Wanted() == ch.Wanted() - kinds
  {
    forall k: Kind
      ensures k in DelFrom(ch, kinds).Wanted() <==> k in ch.Wanted() - kinds
    {
      match k
      case Read =>
      case Write =>
      case Closed =>
    }
  }

  lemma AddToOps(ch: Change, kinds: set<Kind>)
    ensures forall k: Kind :: AddTo(ch, kinds).Of(k) != 0 <==> k in kinds || ch.Of(k) != 0
  {
    forall k: Kind
      ensures AddTo(ch, kinds).Of(k) != 0 <==> k in kinds || ch.Of(k) != 0
    {
      match k
      case Read =>
      case Write =>
      case Closed =>
    }
  }

  lemma DelFromOps(ch: Change, kinds: set<Kind>)
    ensures forall k: Kind :: DelFrom(ch, kinds).Of(k) != 0 <==> if k in kinds then k in ch.had else ch.Of(k) != 0
  {
    forall k: Kind
      ensures DelFrom(ch, kinds).Of(k) != 0 <==> if k in kinds then k in ch.had else ch.Of(k) != 0
    {
      match k
      case Read =>
      case Write =>
      case Closed =>
    }
  }

  /** Adding kinds and deleting them again before a dispatch asks the kernel for nothing at
      all exactly if none of them was registered before.  The immediate backend makes two
      calls in either case, so a registration that drifted survives only a coalesced pair. */
  lemma AddThenDel(fd: int, had: set<Kind>, kinds: set<Kind>)
    ensures DelFrom(AddTo(Change(fd, had, 0, 0, 0), kinds), kinds).Effective() <==> kinds * had != {}
  {
    SomeKind(kinds * had);
    assert forall k: Kind :: k in kinds * had <==> k in kinds && k in had;
    assert kinds * had == {} ==> Read !in kinds * had && Write !in kinds * had && Closed !in kinds * had;
  }

  /** The entry of a descriptor, a new one if it has none. */
  function Entered(changes: seq<Change>, idxplus1: nat, fd: int, had: set<Kind>): (r: seq<Change>)
    ensures |changes| <= |r|
  {
    if idxplus1 == 0 then changes + [Change(fd, had, 0, 0, 0)] else changes
  }

  function Place(changes: seq<Change>, idxplus1: nat): nat {
    if idxplus1 == 0 then |changes| else idxplus1 - 1
  }

  /** The map, the changelist, the kernel's table and the descriptors that drifted. */
  datatype State = State(entries: seq<Option<Ctx>>, changes: seq<Change>, kernel: map<int, set<Kind>>,
                         drifted: set<int>) {
    ghost predicate Ok() {
      Indexed(entries, changes) && forall fd :: OkAt(fd)
    }

    ghost predicate OkAt(fd: int) {
      FdOk(At(entries, fd), fd, changes, Reg(kernel, fd), fd in drifted)
    }
  }

  /** The kinds the kernel was last told about fd. */
  ghost function Known(s: State, fd: int): set<Kind> {
    var c := At(s.entries, fd);
    if 0 < c.idxplus1 <= |s.changes| then s.changes[c.idxplus1 - 1].had else c.Active()
  }

  /** The changelist entry of fd adds or deletes k. */
  ghost predicate Op(s: State, fd: int, k: Kind) {
    var i := At(s.entries, fd).idxplus1;
    0 < i <= |s.changes| && s.changes[i - 1].Of(k) != 0
  }

  /** What the changelist notes when the kinds of fd change from those in s to those in t: each
      kind that comes or goes is added, or deleted if the kernel was told of it. */
  ghost predicate Noted(s: State, t: State, fd: int) {
    var a, b := At(s.entries, fd).Active(), At(t.entries, fd).Active();
    forall f, k: Kind {:trigger Op(t, f, k)} ::
      Op(t, f, k) <==> if f == fd && (k in a) != (k in b) then k in b || k in Known(s, fd) else Op(s, f, k)
  }

  /** The kernel is told of the kinds of fd if they change. */
  ghost predicate Carried(s: State, t: State, fd: int) {
    var a, b := At(s.entries, fd).Active(), At(t.entries, fd).Active();
    forall f :: Reg(t.kernel, f) == if f == fd && a != b then Want(b) else Reg(s.kernel, f)
  }

  /** Only the context, the changelist entry and the registration of fd change. */
  ghost predicate Local(s: State, t: State, fd: int) {
    && 0 <= fd < |s.entries| == |t.entries| && s.entries[fd].Some? && t.entries[fd].Some?
    && (forall f :: f != fd ==> At(t.entries, f) == At(s.entries, f))
    && (forall f :: 0 <= f < |s.entries| ==> s.entries[f].Some? ==> t.entries[f].Some?)
    && SameElsewhere(s.changes, t.changes, fd, At(s.entries, fd).idxplus1, At(t.entries, fd).idxplus1)
    && (forall f :: f != fd ==> Reg(t.kernel, f) == Reg(s.kernel, f))
    && (forall f :: f != fd && f in s.drifted ==> f in t.drifted)
  }

  ghost predicate SameElsewhere(changes: seq<Change>, changes': seq<Change>, fd: int, i: nat, i': nat) {
    && |changes| <= |changes'| <= |changes| + 1
    && (|changes| < |changes'| ==> i == 0 && i' == |changes'| && changes'[|changes|].fd == fd)
    && (|changes| == |changes'| ==> i' == i)
    && (forall j :: 0 <= j < |changes| && j + 1 != i' ==> changes'[j] == changes[j])
  }

  /** A change to one descriptor keeps the others right. */
  lemma LocalElsewhere(s: State, t: State, fd: int, f: int)
    requires s.Ok() && Local(s, t, fd) && f != fd
    ensures t.OkAt(f)
  {
    hide Ctx.Counted, Ctx.Active, Change.Wanted, Change.Exclusive, Want, Reg;
    assert s.OkAt(f) && s.OkAt(fd);
  }

  lemma LocalIndexed(s: State, t: State, fd: int)
    requires s.Ok() && Local(s, t, fd) && t.OkAt(fd)
    ensures Indexed(t.entries, t.changes)
  {
    hide Ctx.Counted, Ctx.Active, Change.Wanted, Change.Exclusive, Want, Reg;
    assert s.OkAt(fd);
    forall i | 0 <= i < |t.changes|
      ensures var f := t.changes[i].fd;
              0 <= f < |t.entries| && t.entries[f].Some? && At(t.entries, f).idxplus1 == i + 1
    {
      if i + 1 != At(t.entries, fd).idxplus1 {
        assert t.changes[i] == s.changes[i];
        assert s.OkAt(s.changes[i].fd);
      }
    }
  }

  lemma LocalOk(s: State, t: State, fd: int)
    requires s.Ok() && Local(s, t, fd) && t.OkAt(fd)
    ensures t.Ok()
  {
    hide FdOk;
    LocalIndexed(s, t, fd);
    forall f | f != fd
      ensures t.OkAt(f)
    {
      LocalElsewhere(s, t, fd, f);
    }
  }

  /** What a successful call into the backend did about fd: with a changelist the entry of
      fd now asks for `want`; without one the kernel has it. */
  ghost predicate Asked(s: State, t: State, fd: int, want: set<Kind>, changelist: bool) {
    var c, c' := At(s.entries, fd), At(t.entries, fd);
    && Local(s, t, fd) && c' == c.(idxplus1 := c'.idxplus1) && t.drifted == s.drifted
    && if changelist then
         && 0 < c'.idxplus1 <= |t.changes| && t.kernel == s.kernel
         && (var ch := t.changes[c'.idxplus1 - 1];
             && ch.fd == fd && ch.Exclusive() && ch.Wanted() == want
             && ch.had == if 0 < c.idxplus1 <= |s.changes| then s.changes[c.idxplus1 - 1].had else c.Active())
       else
         t.changes == s.changes && c' == c && c.idxplus1 == 0 && Reg(t.kernel, fd) == Want(want)
  }

  /** Bringing the counters up to date after the backend has been asked. */
  lemma AskedOk(s: State, t: State, u: State, fd: int, c: Ctx, want: set<Kind>, changelist: bool)
    requires s.Ok() && Asked(s, t, fd, want, changelist)
    requires c.Counted() && c.Active() == want && c.idxplus1 == At(t.entries, fd).idxplus1
    requires u == State(t.entries[fd := Some(c)], t.changes, t.kernel,
                        if changelist then t.drifted else t.drifted - {fd})
    ensures u.Ok()
  {
    hide Ctx.Counted, Ctx.Active, Change.Wanted, Change.Exclusive, Want, Reg;
    assert s.OkAt(fd);
    assert At(u.entries, fd) == c;
    assert Local(s, u, fd);
    LocalOk(s, u, fd);
  }

  /** From what the backend did to what has been noted. */
  lemma AskedNoted(s: State, t: State, u: State, fd: int, c: Ctx, want: set<Kind>)
    requires s.Ok() && Asked(s, t, fd, want, true) && c.idxplus1 == At(t.entries, fd).idxplus1 && c.Active() == want
    requires u.entries == t.entries[fd := Some(c)] && u.changes == t.changes
    requires var a := At(s.entries, fd).Active();
             forall k: Kind ::
               Op(t, fd, k) <==> if (k in a) != (k in want) then k in want || k in Known(s, fd) else Op(s, fd, k)
    ensures Noted(s, u, fd)
  {
    hide Ctx.Counted, Ctx.Active, Change.Wanted, Change.Exclusive, Want, Reg;
    assert s.OkAt(fd);
    assert At(u.entries, fd) == c;
    forall f, k: Kind
      ensures f != fd ==> Op(u, f, k) == Op(s, f, k)
      ensures f == fd ==> Op(u, f, k) == Op(t, f, k)
    {
      assert s.OkAt(f);
      if f != fd {
        assert At(u.entries, f) == At(t.entries, f) == At(s.entries, f);
      }
    }
  }

  lemma AskedKnown(s: State, t: State, u: State, fd: int, c: Ctx, want: set<Kind>, f: int)
    requires s.Ok() && Asked(s, t, fd, want, true) && c.idxplus1 == At(t.entries, fd).idxplus1
    requires u.entries == t.entries[fd := Some(c)] && u.changes == t.changes
    ensures Known(u, f) == Known(s, f)
  {
    hide Ctx.Counted, Ctx.Active, Change.Wanted, Change.Exclusive, Want, Reg;
    assert s.OkAt(fd) && s.OkAt(f);
    if f != fd {
      assert At(u.entries, f) == At(t.entries, f) == At(s.entries, f);
    }
  }

  /** Changing the counters alone: the backend need not know, or it could not be told. */
  lemma CountersOk(s: State, u: State, fd: int, c: Ctx)
    requires s.Ok() && 0 <= fd < |s.entries| && s.entries[fd].Some?
    requires c.Counted() && c.idxplus1 == At(s.entries, fd).idxplus1
    requires u.entries == s.entries[fd := Some(c)] && u.changes == s.changes && u.kernel == s.kernel
    requires if c.Active() == At(s.entries, fd).Active() then u.drifted == s.drifted
             else u.drifted == s.drifted + {fd} && c.idxplus1 == 0
    ensures u.Ok()
  {
    hide Ctx.Counted, Ctx.Active, Change.Wanted, Change.Exclusive, Want, Reg;
    assert s.OkAt(fd);
    assert At(u.entries, fd) == c;
    LocalOk(s, u, fd);
  }

  /** Counters that leave the same kinds active. */
  lemma CountersNoted(s: State, u: State, fd: int, c: Ctx)
    requires 0 <= fd < |s.entries| && s.entries[fd].Some? && c.Active() == At(s.entries, fd).Active()
    requires u.entries == s.entries[fd := Some(c)] && u.changes == s.changes && u.kernel == s.kernel
    requires c.idxplus1 == At(s.entries, fd).idxplus1
    ensures Noted(s, u, fd) && Carried(s, u, fd) && forall f :: Known(u, f) == Known(s, f)
  {
    hide Ctx.Active, Reg, Want;
    assert At(u.entries, fd) == c;
    forall f | f != fd
      ensures At(u.entries, f) == At(s.entries, f)
    {
    }
  }

  /** Without a changelist the kernel has been told. */
  lemma AskedCarried(s: State, t: State, u: State, fd: int, c: Ctx, changelist: bool)
    requires Asked(s, t, fd, c.Active(), changelist) && 0 <= fd < |t.entries|
    requires u.entries == t.entries[fd := Some(c)] && u.kernel == t.kernel
    requires c.Active() != At(s.entries, fd).Active()
    ensures !changelist ==> Carried(s, u, fd)
  {
    hide Ctx.Active, Reg, Want;
    assert At(u.entries, fd) == c;
  }

  /** Where a stored context shows: in its own place only. */
  lemma RelistEntry(s: State, t: State, fd: int, c: Ctx, told: int, changelist: bool)
    requires 0 <= fd < |t.entries| && t.entries[fd].Some? && c.idxplus1 == At(t.entries, fd).idxplus1
    requires if told == 1 then Asked(s, t, fd, c.Active(), changelist) else s == t
    ensures var e := t.entries[fd := Some(c)];
            && At(e, fd) == c && (forall f :: f != fd ==> At(e, f) == At(s.entries, f))
            && forall u: State :: u.entries == e && u.changes == t.changes ==> Heals(u, fd) == Heals(t, fd)
  {
    hide Ctx.Active, Reg, Want, Change.Effective;
  }

  /** What the backend leaves of a context. */
  lemma AskedEntry(s: State, t: State, fd: int, want: set<Kind>, changelist: bool)
    requires Asked(s, t, fd, want, changelist)
    ensures 0 <= fd < |t.entries| && t.entries[fd].Some? && t.drifted == s.drifted
    ensures At(t.entries, fd) == At(s.entries, fd).(idxplus1 := At(t.entries, fd).idxplus1)
    ensures changelist ==> t.kernel == s.kernel
  {
    hide Ctx.Active, Reg, Want, Change.Wanted, Change.Exclusive;
  }

  /** Rewriting the changelist entry of fd, or adding one, so that it asks for `want`. */
  lemma EntryAsked(s: State, t: State, fd: int, had: set<Kind>, ch: Change, want: set<Kind>)
    requires s.Ok() && 0 <= fd < |s.entries| && s.entries[fd].Some? && had == At(s.entries, fd).Active()
    requires var c := At(s.entries, fd);
             var i := Place(s.changes, c.idxplus1);
             var all := Entered(s.changes, c.idxplus1, fd, had);
             && i < |all| && ch.fd == fd && ch.had == all[i].had && ch.Exclusive() && ch.Wanted() == want
             && t == State(s.entries[fd := Some(c.(idxplus1 := i + 1))], all[i := ch], s.kernel, s.drifted)
    ensures Asked(s, t, fd, want, true)
  {
    hide Ctx.Counted, Ctx.Active, Change.Wanted, Change.Exclusive, Want, Reg;
    assert s.OkAt(fd);
    var c, c' := At(s.entries, fd), At(t.entries, fd);
    assert c' == c.(idxplus1 := c'.idxplus1);
  }

  /** What the entry of fd adds and deletes, before and after it is rewritten. */
  lemma EntryOps(s: State, t: State, fd: int, had: set<Kind>, ch: Change)
    requires 0 <= fd < |s.entries| && At(s.entries, fd).idxplus1 <= |s.changes| && had == At(s.entries, fd).Active()
    requires var c := At(s.entries, fd);
             var i := Place(s.changes, c.idxplus1);
             var all := Entered(s.changes, c.idxplus1, fd, had);
             && t == State(s.entries[fd := Some(c.(idxplus1 := i + 1))], all[i := ch], s.kernel, s.drifted)
    ensures var i := Place(s.changes, At(s.entries, fd).idxplus1);
            var was := Entered(s.changes, At(s.entries, fd).idxplus1, fd, had)[i];
            && Known(s, fd) == was.had
            && forall k: Kind :: (Op(s, fd, k) <==> was.Of(k) != 0) && (Op(t, fd, k) <==> ch.Of(k) != 0)
  {
    hide Ctx.Active, Change.Of;
    NewOps(fd, had);
  }

  datatype Errno = OK | ENOENT | EEXIST | EBADF | EPERM | ENOMEM

  class EventBase {
    /** Whether the backend coalesces changes until it dispatches. */
    const changelist: bool
    /** Whether memory and other resources never run out. */
    const reliable: bool
    var entries: seq<Option<Ctx>>
    var changes: seq<Change>
    var changesSize: nat
    /** The kernel's side: the interest registered for each descriptor. */
    var kernel: map<int, set<Kind>>
    /** Descriptors whose registration was changed behind the map's back, or for which a
        backend call failed that could not be undone. */
    ghost var drifted: set<int>

    ghost function S(): State
      reads this
    {
      State(entries, changes, kernel, drifted)
    }

    ghost predicate Valid()
      reads this
    {
      S().Ok() && |changes| <= changesSize && (!changelist ==> changes == [])
    }

    /** The events listed for a descriptor. */
    ghost function Listed(fd: int): seq<Event>
      reads this
    {
      At(entries, fd).events
    }

    constructor (changelist: bool, reliable: bool)
      ensures Valid() && kernel == map[] && drifted == {} && changes == [] && forall fd :: Listed(fd) == []
      ensures this.changelist == changelist && this.reliable == reliable
    {
      this.changelist, this.reliable := changelist, reliable;
      entries, changes, changesSize, kernel, drifted := [], [], 0, map[], {};
    }

    /** epoll_ctl.  A call for a registered descriptor, or one that registers it, can fail for
        lack of memory; a DEL can find that the descriptor has been closed. */
    method Ctl(op: Operation, fd: int) returns (err: Errno)
      requires op.ADD? || op.MOD? || op.DEL?
      modifies `kernel
      ensures err == OK ==> kernel == if op.DEL? then old(kernel) - {fd} else old(kernel)[fd := Unmask(op.events)]
      ensures err != OK ==> kernel == old(kernel)
      ensures err == EEXIST <==> op.ADD? && fd in old(kernel)
      ensures op.MOD? ==> (err == ENOENT <==> fd !in old(kernel))
      ensures op.DEL? ==> (err == ENOENT || err == EBADF || err == EPERM <==> fd !in old(kernel))
      ensures op.ADD? && fd !in old(kernel) ==> err == OK || err == ENOMEM
      ensures !op.ADD? && fd in old(kernel) ==> err == OK || err == ENOMEM
      ensures err == ENOMEM ==> !reliable
    {
      if op.ADD? {
        if fd in kernel {
          return EEXIST;
        }
      } else if fd !in kernel {
        if op.DEL? {
          if * {
            return EBADF;
          } else if * {
            return EPERM;
          }
        }
        return ENOENT;
      }
      if !reliable {
        if * {
          return ENOMEM;
        }
      }
      kernel := if op.DEL? then kernel - {fd} else kernel[fd := Unmask(op.events)];
      return OK;
    }

    /** epoll_apply_one_change */
    method ApplyOneChange(ch: Change) returns (r: int)
      requires ch.Exclusive()
      modifies `kernel
      ensures r == 0 || r == -1
      ensures r == -1 ==> ch.Effective() && kernel == old(kernel) && !reliable
      ensures !ch.Effective() ==> kernel == old(kernel)
      ensures r == 0 && ch.Effective() ==> Reg(kernel, ch.fd) == Want(ch.Wanted())
      ensures forall fd :: fd != ch.fd ==> Reg(kernel, fd) == Reg(old(kernel), fd)
    {
      hide Row, Change.Wanted, Unmask, Mask;
      var op := OpTable(Index(ch));
      TableRight(ch);
      if op.NOOP? {
        return 0;
      }
      var err := Ctl(op, ch.fd);
      if err == OK {
        return 0;
      }
      match op {
        case MOD(events) =>
          if err == ENOENT {
            err := Ctl(ADD(events), ch.fd);
            return if err == OK then 0 else -1;
          }
        case ADD(events) =>
          if err == EEXIST {
            err := Ctl(MOD(events), ch.fd);
            return if err == OK then 0 else -1;
          }
        case _ =>
          if err == ENOENT || err == EBADF || err == EPERM {
            return 0;
          }
      }
      return -1;
    }

    /** evmap_make_space */
    method MakeSpace(slot: nat) returns (ok: bool)
      modifies `entries
      ensures if ok then slot < |entries| else !reliable
      ensures |old(entries)| <= |entries| && forall fd :: At(entries, fd) == At(old(entries), fd)
      ensures forall i :: 0 <= i < |old(entries)| ==> entries[i] == old(entries)[i]
      ensures ok && TableSize(|old(entries)|) ==>
        if slot < 0x4000_0000 then TableSize(|entries|) && |entries| <= INT_MAX else INT_MAX < |entries|
    {
      hide TableSize, At;
      if |entries| <= slot {
        var nentries := RoomyEnough(|entries|, slot);
        if !reliable {
          if * {
            return false;
          }
        }
        GrownTable(entries, nentries);
        entries := entries + seq(nentries - |entries|, _ => None);
      } else if TableSize(|entries|) {
        TableDoubles(|entries|);
      }
      return true;
    }

    /** event_changelist_grow */
    method ChangelistGrow() returns (ok: bool)
      modifies `changesSize
      ensures if ok then changesSize > old(changesSize) else changesSize == old(changesSize) && !reliable
    {
      var newSize := if changesSize < 64 then 64 else changesSize * 2;
      if !reliable {
        if * {
          return false;
        }
      }
      changesSize := newSize;
      return true;
    }

    /** event_changelist_get_or_construct: the place of the entry, or None. */
    method GetOrConstruct(fd: int, had: set<Kind>) returns (r: Option<nat>)
      requires Valid() && changelist && 0 <= fd < |entries| && entries[fd].Some?
      modifies `entries, `changes, `changesSize
      ensures |changes| <= changesSize
      ensures r == None ==>
        entries == old(entries) && changes == old(changes) && old(At(entries, fd)).idxplus1 == 0 && !reliable
      ensures r.Some? ==>
        var c := old(At(entries, fd));
        && r.value == Place(old(changes), c.idxplus1)
        && changes == Entered(old(changes), c.idxplus1, fd, had)
        && entries == old(entries)[fd := Some(c.(idxplus1 := r.value + 1))]
    {
      var c := At(entries, fd);
      if c.idxplus1 == 0 {
        if |changes| == changesSize {
          var ok := ChangelistGrow();
          if !ok {
            return None;
          }
        }
        var idx := |changes|;
        changes := changes + [Change(fd, had, 0, 0, 0)];
        entries := entries[fd := Some(c.(idxplus1 := idx + 1))];
        return Some(idx);
      } else {
        return Some(c.idxplus1 - 1);
      }
    }

    /** event_changelist_add_ */
    method ChangelistAdd(fd: int, had: set<Kind>, kinds: set<Kind>) returns (r: int)
      requires Valid() && changelist && 0 <= fd < |entries| && entries[fd].Some?
      requires had == At(entries, fd).Active()
      modifies `entries, `changes, `changesSize
      ensures |changes| <= changesSize && (r == 0 || r == -1)
      ensures r == -1 ==> S() == old(S()) && At(entries, fd).idxplus1 == 0 && !reliable
      ensures r == 0 ==> Asked(old(S()), S(), fd, had + kinds, true)
      ensures r == 0 && kinds != {} ==> Heals(S(), fd)
      ensures r == 0 ==> forall k: Kind :: Op(S(), fd, k) <==> k in kinds || Op(old(S()), fd, k)
    {
      hide Ctx.Counted, Ctx.Active, Change.Wanted, Change.Exclusive, Want, Asked, Indexed, Change.Of, State.Ok, Reg;
      hide Op, Known;
      ghost var s := S();
      EntryExclusive(s, fd);
      NewWanted(fd, had);
      var i := GetOrConstruct(fd, had);
      if i == None {
        return -1;
      }
      var ch := changes[i.value];
      AddToWanted(ch, kinds);
      SomeKind(kinds);
      if Read in kinds {
        ch := ch.(read := CHANGE_ADD);
      }
      if Write in kinds {
        ch := ch.(write := CHANGE_ADD);
      }
      if Closed in kinds {
        ch := ch.(close := CHANGE_ADD);
      }
      EntryAsked(s, State(entries, changes[i.value := ch], kernel, drifted), fd, had, ch, had + kinds);
      EntryOps(s, State(entries, changes[i.value := ch], kernel, drifted), fd, had, ch);
      AddToOps(changes[i.value], kinds);
      changes := changes[i.value := ch];
      return 0;
    }

    /** event_changelist_del_ */
    method ChangelistDel(fd: int, had: set<Kind>, kinds: set<Kind>) returns (r: int)
      requires Valid() && changelist && 0 <= fd < |entries| && entries[fd].Some?
      requires had == At(entries, fd).Active()
      modifies `entries, `changes, `changesSize
      ensures |changes| <= changesSize && (r == 0 || r == -1)
      ensures r == -1 ==> S() == old(S()) && At(entries, fd).idxplus1 == 0 && !reliable
      ensures r == 0 ==> Asked(old(S()), S(), fd, had - kinds, true)
      ensures r == 0 ==> forall k: Kind ::
        Op(S(), fd, k) <==> if k in kinds then k in Known(old(S()), fd) else Op(old(S()), fd, k)
    {
      hide Ctx.Counted, Ctx.Active, Change.Wanted, Change.Exclusive, Want, Asked, Indexed, Change.Of, State.Ok, Reg;
      hide Op, Known;
      ghost var s := S();
      EntryExclusive(s, fd);
      NewWanted(fd, had);
      var i := GetOrConstruct(fd, had);
      if i == None {
        return -1;
      }
      var ch := changes[i.value];
      DelFromWanted(ch, kinds);
      if Read in kinds {
        ch := ch.(read := if Read !in ch.had then 0 else CHANGE_DEL);
      }
      if Write in kinds {
        ch := ch.(write := if Write !in ch.had then 0 else CHANGE_DEL);
      }
      if Closed in kinds {
        ch := ch.(close := if Closed !in ch.had then 0 else CHANGE_DEL);
      }
      EntryAsked(s, State(entries, changes[i.value := ch], kernel, drifted), fd, had, ch, had - kinds);
      EntryOps(s, State(entries, changes[i.value := ch], kernel, drifted), fd, had, ch);
      DelFromOps(changes[i.value], kinds);
      changes := changes[i.value := ch];
      return 0;
    }

    /** epoll_nochangelist_add */
    method NochangelistAdd(fd: int, had: set<Kind>, kinds: set<Kind>) returns (r: int)
      requires kinds != {}
      modifies `kernel
      ensures r == 0 || r == -1
      ensures r == -1 ==> kernel == old(kernel) && !reliable
      ensures r == 0 ==> Reg(kernel, fd) == Want(had + kinds)
      ensures forall f :: f != fd ==> Reg(kernel, f) == Reg(old(kernel), f)
    {
      hide Change.Wanted;
      var ch := Change(fd, had, 0, 0, 0);
      NewWanted(fd, had);
      AddToWanted(ch, kinds);
      SomeKind(kinds);
      if Write in kinds {
        ch := ch.(write := CHANGE_ADD);
      }
      if Read in kinds {
        ch := ch.(read := CHANGE_ADD);
      }
      if Closed in kinds {
        ch := ch.(close := CHANGE_ADD);
      }
      r := ApplyOneChange(ch);
    }

    /** epoll_nochangelist_del */
    method NochangelistDel(fd: int, had: set<Kind>, kinds: set<Kind>) returns (r: int)
      requires kinds != {}
      modifies `kernel
      ensures r == 0 || r == -1
      ensures r == -1 ==> kernel == old(kernel) && !reliable
      ensures r == 0 ==> Reg(kernel, fd) == Want(had - kinds)
      ensures forall f :: f != fd ==> Reg(kernel, f) == Reg(old(kernel), f)
    {
      hide Change.Wanted;
      var ch := Change(fd, had, 0, 0, 0);
      DelAllWanted(fd, had, kinds);
      SomeKind(kinds);
      if Write in kinds {
        ch := ch.(write := CHANGE_DEL);
      }
      if Read in kinds {
        ch := ch.(read := CHANGE_DEL);
      }
      if Closed in kinds {
        ch := ch.(close := CHANGE_DEL);
      }
      r := ApplyOneChange(ch);
    }

    /** The add function of the backend. */
    method BackendAdd(fd: int, had: set<Kind>, kinds: set<Kind>) returns (r: int)
      requires Valid() && 0 <= fd < |entries| && entries[fd].Some? && had == At(entries, fd).Active() && kinds != {}
      modifies `entries, `changes, `changesSize, `kernel
      ensures |changes| <= changesSize && (!changelist ==> changes == []) && (r == 0 || r == -1)
      ensures r == -1 ==> S() == old(S()) && !reliable
      ensures r == 0 ==> Asked(old(S()), S(), fd, had + kinds, changelist) && (changelist ==> Heals(S(), fd))
      ensures r == 0 && changelist ==> forall k: Kind :: Op(S(), fd, k) <==> k in kinds || Op(old(S()), fd, k)
    {
      hide Ctx.Counted, Ctx.Active, Change.Wanted, Change.Exclusive, Want, Indexed, Reg;
      assert S().OkAt(fd);
      if changelist {
        r := ChangelistAdd(fd, had, kinds);
      } else {
        r := NochangelistAdd(fd, had, kinds);
      }
    }

    /** The del function of the backend. */
    method BackendDel(fd: int, had: set<Kind>, kinds: set<Kind>) returns (r: int)
      requires Valid() && 0 <= fd < |entries| && entries[fd].Some? && had == At(entries, fd).Active() && kinds != {}
      modifies `entries, `changes, `changesSize, `kernel
      ensures |changes| <= changesSize && (!changelist ==> changes == []) && (r == 0 || r == -1)
      ensures r == -1 ==> S() == old(S()) && At(entries, fd).idxplus1 == 0 && !reliable
      ensures r == 0 ==> Asked(old(S()), S(), fd, had - kinds, changelist)
      ensures r == 0 && changelist ==> forall k: Kind ::
        Op(S(), fd, k) <==> if k in kinds then k in Known(old(S()), fd) else Op(old(S()), fd, k)
    {
      hide Ctx.Counted, Ctx.Active, Change.Wanted, Change.Exclusive, Want, Indexed, Reg;
      assert S().OkAt(fd);
      if changelist {
        r := ChangelistDel(fd, had, kinds);
      } else {
        r := NochangelistDel(fd, had, kinds);
      }
    }

    /** GET_IO_SLOT_AND_CTOR, after evmap_make_space. */
    method GetSlot(fd: nat) returns (ok: bool)
      requires Valid()
      modifies `entries
      ensures Valid() && forall f :: At(entries, f) == At(old(entries), f)
      ensures if ok then fd < |entries| && entries[fd].Some? else !reliable
      ensures forall f :: Known(S(), f) == old(Known(S(), f))
      ensures forall f, k: Kind {:trigger Op(S(), f, k)} :: Op(S(), f, k) == Op(old(S()), f, k)
    {
      hide FdOk, State.Ok, Known, Op, TableSize;
      ghost var s := S();
      ok := true;
      if fd >= |entries| {
        ok := MakeSpace(fd);
      }
      if ok && entries[fd] == None {
        if !reliable {
          ok := *;
        }
        if ok {
          entries := entries[fd := Some(EMPTY)];
        }
      }
      SameContexts(s, S());
    }

    /** Stores the new counters and list of fd after the backend has been told (1), did not
        need to be (0) or could not be (-1); s is the state before. */
    method Relist(fd: int, c: Ctx, ghost told: int, ghost s: State)
      requires s.Ok() && |changes| <= changesSize && (!changelist ==> changes == []) && -1 <= told <= 1
      requires 0 <= fd < |entries| && entries[fd].Some? && c.Counted() && c.idxplus1 == At(entries, fd).idxplus1
      requires told == 1 ==> Asked(s, S(), fd, c.Active(), changelist)
      requires told <= 0 ==> S() == s
      requires told == 0 <==> c.Active() == At(s.entries, fd).Active()
      requires told == -1 ==> c.idxplus1 == 0
      requires told == 1 && changelist ==>
        var a := At(s.entries, fd).Active();
        forall k: Kind ::
          Op(S(), fd, k) <==> if (k in a) != (k in c.Active()) then k in c.Active() || k in Known(s, fd)
                              else Op(s, fd, k)
      modifies `entries, `drifted
      ensures Valid() && entries == old(entries)[fd := Some(c)] && Heals(S(), fd) == old(Heals(S(), fd))
      ensures drifted == if told == -1 then old(drifted) + {fd}
                         else if told == 1 && !changelist then old(drifted) - {fd} else old(drifted)
      ensures forall f :: f != fd ==> At(entries, f) == At(s.entries, f)
      ensures changelist && 0 <= told ==> Noted(s, S(), fd) && forall f :: Known(S(), f) == Known(s, f)
      ensures !changelist && 0 <= told ==> Carried(s, S(), fd)
    {
      hide Ctx.Counted, Ctx.Active, FdOk, Want, Reg, Change.Wanted, Indexed, Asked, Local, Known, Op, Noted, Carried;
      hide Heals;
      ghost var t := S();
      RelistEntry(s, t, fd, c, told, changelist);
      entries := entries[fd := Some(c)];
      if told == 1 {
        drifted := if changelist then drifted else drifted - {fd};
        AskedOk(s, t, S(), fd, c, c.Active(), changelist);
        AskedCarried(s, t, S(), fd, c, changelist);
        if changelist {
          AskedNoted(s, t, S(), fd, c, c.Active());
          forall f
            ensures Known(S(), f) == Known(s, f)
          {
            AskedKnown(s, t, S(), fd, c, c.Active(), f);
          }
        }
      } else {
        drifted := if told == -1 then drifted + {fd} else drifted;
        CountersOk(s, S(), fd, c);
        if told == 0 {
          CountersNoted(s, S(), fd, c);
        }
      }
    }

    /** evmap_io_add_ on a descriptor that has a slot. */
    method AddToSlot(fd: int, ev: Event) returns (r: int)
      requires Valid() && ev.fd == fd && 0 <= fd < |entries| && entries[fd].Some?
      modifies this
      ensures Valid() && -1 <= r <= 1
      ensures r == -1 ==> S() == old(S())
      ensures 0 <= r ==>
        && At(entries, fd).events == [ev] + old(Listed(fd))
        && (forall f :: f != fd ==> At(entries, f) == old(At(entries, f)))
        && (r == 1 <==> At(entries, fd).Active() != old(At(entries, fd)).Active())
      ensures Full(old(Listed(fd)), ev) ==> r == -1
      ensures r == -1 ==> !reliable || Full(old(Listed(fd)), ev)
      ensures drifted == if r == 1 && !changelist then old(drifted) - {fd} else old(drifted)
      ensures changelist ==> (r == 1 ==> Heals(S(), fd)) && forall f :: Known(S(), f) == old(Known(S(), f))
      ensures 0 <= r ==>
        if changelist then Noted(old(S()), S(), fd) && kernel == old(kernel) else Carried(old(S()), S(), fd)
    {
      hide State.Ok, Count, Full, Want, Reg, Ctx.Counted, Ctx.Active, Asked, Known, Op, Noted, Carried, Heals;
      var c := At(entries, fd);
      ghost var s := S();
      CountedAt(s, fd);
      var nread := c.nread + One(Read in ev.kinds);
      var nwrite := c.nwrite + One(Write in ev.kinds);
      var nclose := c.nclose + One(Closed in ev.kinds);
      var had := c.Active();
      var res := (if Read in ev.kinds && nread == 1 then {Read} else {})
               + (if Write in ev.kinds && nwrite == 1 then {Write} else {})
               + (if Closed in ev.kinds && nclose == 1 then {Closed} else {});
      var retval := 0;
      TooMany(c, ev);
      if nread > MAX_EVENTS || nwrite > MAX_EVENTS || nclose > MAX_EVENTS {
        return -1;
      }
      if res != {} {
        r := BackendAdd(fd, had, res);
        if r == -1 {
          return -1;
        }
        AskedEntry(s, S(), fd, had + res, changelist);
        retval := 1;
      }
      var d := Ctx(nread, nwrite, nclose, [ev] + c.events, At(entries, fd).idxplus1);
      OneMore(c, ev, d, res);
      Relist(fd, d, retval, s);
      return retval;
    }

    /** evmap_io_add_ */
    method IoAdd(fd: int, ev: Event) returns (r: int)
      requires Valid() && ev.fd == fd
      modifies this
      ensures Valid() && -1 <= r <= 1
      ensures forall f :: Listed(f) == (if f == fd && 0 <= fd && 0 <= r then [ev] else []) + old(Listed(f))
      ensures forall f :: r == -1 || f != fd ==> At(entries, f) == old(At(entries, f))
      ensures r == -1 ==> changes == old(changes) && kernel == old(kernel)
      ensures r == 1 <==> At(entries, fd).Active() != old(At(entries, fd)).Active()
      ensures 0 <= fd && Full(old(Listed(fd)), ev) ==> r == -1
      ensures r == -1 ==> 0 <= fd && (!reliable || Full(old(Listed(fd)), ev))
      ensures drifted == if r == 1 && !changelist then old(drifted) - {fd} else old(drifted)
      ensures changelist ==> (r == 1 ==> Heals(S(), fd)) && forall f :: Known(S(), f) == old(Known(S(), f))
      ensures 0 <= r ==>
        if changelist then Noted(old(S()), S(), fd) && kernel == old(kernel) else Carried(old(S()), S(), fd)
    {
      hide Count, State.Ok, Ctx.Active, Heals;
      if fd < 0 {
        return 0;
      }
      var ok := GetSlot(fd);
      if !ok {
        return -1;
      }
      assert forall f :: Listed(f) == old(Listed(f));
      r := AddToSlot(fd, ev);
    }

    /** evmap_io_del_ */
    method IoDel(fd: int, ev: Event) returns (r: int)
      requires Valid() && ev.fd == fd
      requires 0 <= fd < |entries| ==> entries[fd].Some? && ev in Listed(fd)
      modifies this
      ensures Valid() && -1 <= r <= 1
      ensures forall f :: Listed(f) == if f == fd then Without(old(Listed(f)), ev) else old(Listed(f))
      ensures forall f :: f != fd ==> At(entries, f) == old(At(entries, f))
      ensures fd < 0 ==> r == 0 && S() == old(S())
      ensures |old(entries)| <= fd ==> r == -1 && S() == old(S())
      ensures 0 <= fd < |old(entries)| && 0 <= r ==>
        (r == 1 <==> At(entries, fd).Active() != old(At(entries, fd)).Active())
        && (drifted == if r == 1 && !changelist then old(drifted) - {fd} else old(drifted))
      ensures 0 <= fd < |old(entries)| && r == -1 ==>
        changes == old(changes) && kernel == old(kernel) && drifted == old(drifted) + {fd} && !reliable
      ensures changelist && 0 <= r ==> forall f :: Known(S(), f) == old(Known(S(), f))
      ensures 0 <= r ==>
        if changelist then Noted(old(S()), S(), fd) && kernel == old(kernel) else Carried(old(S()), S(), fd)
    {
      hide State.Ok, Count, Without, Want, Reg, Ctx.Counted, Ctx.Active, Asked, Known, Op, Noted, Carried, Heals;
      if fd < 0 || fd >= |entries| {
        NotListed(S(), fd, ev);
        return if fd < 0 then 0 else -1;
      }
      var c := At(entries, fd);
      ghost var s := S();
      CountedAt(s, fd);
      ListedCounts(c, ev);
      var nread := c.nread - One(Read in ev.kinds);
      var nwrite := c.nwrite - One(Write in ev.kinds);
      var nclose := c.nclose - One(Closed in ev.kinds);
      var had := c.Active();
      var res := (if Read in ev.kinds && nread == 0 then {Read} else {})
               + (if Write in ev.kinds && nwrite == 0 then {Write} else {})
               + (if Closed in ev.kinds && nclose == 0 then {Closed} else {});
      var retval := 0;
      if res != {} {
        retval := BackendDel(fd, had, res);
        retval := if retval == -1 then -1 else 1;
        if retval == 1 {
          AskedEntry(s, S(), fd, had - res, changelist);
        }
      }
      var d := Ctx(nread, nwrite, nclose, Without(c.events, ev), At(entries, fd).idxplus1);
      OneLess(c, ev, d, res);
      Relist(fd, d, retval, s);
      return retval;
    }

    /** epoll_apply_changes */
    method ApplyChanges() returns (r: int, ghost failed: set<int>)
      requires Valid()
      modifies `kernel
      ensures Applied(old(S()), |changes|, failed, kernel) && (r == 0 <==> failed == {}) && (r == 0 || r == -1)
      ensures (forall f :: f in failed ==> Heals(old(S()), f)) && (reliable ==> r == 0)
    {
      hide FdOk, Want, Reg, Change.Wanted, Change.Effective, Indexed;
      ghost var s := S();
      r, failed := 0, {};
      var i := 0;
      while i < |changes|
        invariant 0 <= i <= |changes| && (r == 0 <==> failed == {}) && (r == 0 || r == -1)
        invariant reliable ==> r == 0
        invariant Applied(s, i, failed, kernel)
        invariant forall f :: f in failed ==> Heals(s, f) && At(entries, f).idxplus1 <= i
      {
        ghost var k := kernel;
        ChangeAt(s, i);
        var one := ApplyOneChange(changes[i]);
        ghost var fails := if one == -1 then failed + {changes[i].fd} else failed;
        AppliedStep(s, i, failed, k, fails, kernel);
        failed := fails;
        r := if one < 0 then -1 else r;
        i := i + 1;
      }
    }

    /** event_changelist_remove_all_ */
    method ChangelistRemoveAll()
      requires Indexed(entries, changes)
      requires forall f :: Owner(At(entries, f), f, changes)
      modifies `entries, `changes
      ensures changes == [] && |entries| == |old(entries)|
      ensures forall f :: At(entries, f) == old(At(entries, f)).(idxplus1 := 0)
    {
      var i := 0;
      while i < |changes|
        modifies `entries
        invariant 0 <= i <= |changes| && changes == old(changes) && |entries| == |old(entries)|
        invariant forall f :: 0 <= f < |entries| ==> (entries[f].Some? <==> old(entries)[f].Some?)
        invariant forall f :: At(entries, f) == Reset(old(At(entries, f)), i)
      {
        var fd := changes[i].fd;
        ghost var before := entries;
        entries := entries[fd := Some(At(entries, fd).(idxplus1 := 0))];
        forall f
          ensures At(entries, f) == Reset(old(At(entries, f)), i + 1)
        {
          assert Owner(old(At(entries, f)), f, changes);
          assert f != fd ==> At(entries, f) == At(before, f);
        }
        i := i + 1;
      }
      changes := [];
    }

    /** The apply-then-clear step of epoll_dispatch. */
    method Dispatch() returns (r: int, ghost failed: set<int>)
      requires Valid()
      modifies this
      ensures Valid() && changes == [] && (r == 0 <==> failed == {}) && (reliable ==> r == 0)
      ensures forall f :: At(entries, f) == old(At(entries, f)).(idxplus1 := 0)
      ensures forall f :: Reg(kernel, f) == if Heals(old(S()), f) && f !in failed then Want(At(entries, f).Active())
                                            else Reg(old(kernel), f)
      ensures forall f :: f in drifted <==> f in failed || (f in old(drifted) && !Heals(old(S()), f))
      ensures forall f :: f !in drifted ==> Reg(kernel, f) == Want(At(entries, f).Active())
    {
      hide FdOk, Want, Reg, Change.Wanted, Change.Effective, Indexed, Ctx.Active, Heals, Applied;
      ghost var s := S();
      r, failed := ApplyChanges();
      Owners(s);
      ChangelistRemoveAll();
      drifted := failed + set f | f in drifted && !Heals(s, f);
      Dispatched(s, failed, S());
    }

    /** The world outside changes a registration. */
    method Drift(fd: int, reg: Option<set<Kind>>)
      requires Valid()
      modifies `kernel, `drifted
      ensures Valid() && drifted == old(drifted) + {fd} && Reg(kernel, fd) == reg
      ensures forall f :: f != fd ==> Reg(kernel, f) == Reg(old(kernel), f)
    {
      ghost var s := S();
      kernel := if reg.Some? then kernel[fd := reg.value] else kernel - {fd};
      drifted := drifted + {fd};
      forall f
        ensures S().OkAt(f)
      {
        assert s.OkAt(f);
      }
    }
  }

  lemma NewWanted(fd: int, had: set<Kind>)
    ensures Change(fd, had, 0, 0, 0).Wanted() == had && Change(fd, had, 0, 0, 0).Exclusive()
  {
  }

  lemma DelAllWanted(fd: int, had: set<Kind>, kinds: set<Kind>)
    ensures Change(fd, had, CHANGE_DEL * One(Read in kinds), CHANGE_DEL * One(Write in kinds),
                   CHANGE_DEL * One(Closed in kinds)).Wanted() == had - kinds
  {
    var ch := Change(fd, had, CHANGE_DEL * One(Read in kinds), CHANGE_DEL * One(Write in kinds),
                     CHANGE_DEL * One(Closed in kinds));
    forall k: Kind
      ensures k in ch.Wanted() <==> k in had - kinds
    {
      match k
      case Read =>
      case Write =>
      case Closed =>
    }
  }

  lemma EntryExclusive(s: State, fd: int)
    requires s.Ok()
    ensures var c := At(s.entries, fd);
            && c.idxplus1 <= |s.changes|
            && (0 < c.idxplus1 ==>
                  var ch := s.changes[c.idxplus1 - 1];
                  ch.fd == fd && ch.Exclusive() && ch.Wanted() == c.Active())
  {
    assert s.OkAt(fd);
  }

  lemma NewOps(fd: int, had: set<Kind>)
    ensures forall k: Kind :: Change(fd, had, 0, 0, 0).Of(k) == 0
  {
  }

  lemma CountedAt(s: State, fd: int)
    requires s.Ok()
    ensures At(s.entries, fd).Counted()
  {
    assert s.OkAt(fd);
  }

  lemma SameContexts(s: State, t: State)
    requires s.Ok() && t.changes == s.changes && t.kernel == s.kernel && t.drifted == s.drifted
    requires forall fd :: At(t.entries, fd) == At(s.entries, fd)
    requires |s.entries| <= |t.entries| && forall i :: 0 <= i < |s.entries| && s.entries[i].Some? ==> t.entries[i].Some?
    ensures t.Ok() && (forall f :: Known(t, f) == Known(s, f)) && forall f, k: Kind :: Op(t, f, k) == Op(s, f, k)
  {
    hide FdOk;
    assert forall fd :: s.OkAt(fd) ==> t.OkAt(fd);
  }

  /** Listing one more event. */
  lemma OneMore(c: Ctx, ev: Event, d: Ctx, res: set<Kind>)
    requires c.Counted() && d.nread <= MAX_EVENTS && d.nwrite <= MAX_EVENTS && d.nclose <= MAX_EVENTS
    requires d.nread == c.nread + One(Read in ev.kinds) && d.nwrite == c.nwrite + One(Write in ev.kinds)
    requires d.nclose == c.nclose + One(Closed in ev.kinds) && d.events == [ev] + c.events
    requires res == (if Read in ev.kinds && d.nread == 1 then {Read} else {})
                    + (if Write in ev.kinds && d.nwrite == 1 then {Write} else {})
                    + (if Closed in ev.kinds && d.nclose == 1 then {Closed} else {})
    ensures d.Counted() && d.Active() == c.Active() + res && res !! c.Active()
  {
    hide Count;
    forall k: Kind
      ensures d.N(k) == Count(d.events, k) <= MAX_EVENTS
      ensures (k in d.Active() <==> k in c.Active() || k in res) && !(k in c.Active() && k in res)
    {
      CountMore(c.events, ev, k);
      match k
      case Read =>
      case Write =>
      case Closed =>
    }
  }

  lemma CountMore(evs: seq<Event>, ev: Event, k: Kind)
    ensures Count([ev] + evs, k) == One(k in ev.kinds) + Count(evs, k)
  {
    assert ([ev] + evs)[1..] == evs;
  }

  /** A listed event is counted. */
  lemma TooMany(c: Ctx, ev: Event)
    requires c.Counted()
    ensures Full(c.events, ev) <==>
      || c.nread + One(Read in ev.kinds) > MAX_EVENTS || c.nwrite + One(Write in ev.kinds) > MAX_EVENTS
      || c.nclose + One(Closed in ev.kinds) > MAX_EVENTS
  {
    hide Count;
    assert c.N(Read) == Count(c.events, Read) && c.N(Write) == Count(c.events, Write);
    assert c.N(Closed) == Count(c.events, Closed);
  }

  lemma ListedCounts(c: Ctx, ev: Event)
    requires c.Counted() && ev in c.events
    ensures forall k: Kind :: One(k in ev.kinds) <= c.N(k)
    ensures One(Read in ev.kinds) <= c.nread && One(Write in ev.kinds) <= c.nwrite
    ensures One(Closed in ev.kinds) <= c.nclose
  {
    forall k: Kind
      ensures One(k in ev.kinds) <= c.N(k)
    {
      CountWithout(c.events, ev, k);
    }
    assert c.N(Read) == c.nread && c.N(Write) == c.nwrite && c.N(Closed) == c.nclose;
  }

  /** A descriptor outside the table has nothing to unlist. */
  lemma NotListed(s: State, fd: int, ev: Event)
    requires !(0 <= fd < |s.entries|)
    ensures At(s.entries, fd) == EMPTY && Without([], ev) == [] && Noted(s, s, fd) && Carried(s, s, fd)
  {
  }

  /** Unlisting an event. */
  lemma OneLess(c: Ctx, ev: Event, d: Ctx, res: set<Kind>)
    requires c.Counted() && ev in c.events && d.events == Without(c.events, ev)
    requires c.nread == d.nread + One(Read in ev.kinds) && c.nwrite == d.nwrite + One(Write in ev.kinds)
    requires c.nclose == d.nclose + One(Closed in ev.kinds)
    requires res == (if Read in ev.kinds && d.nread == 0 then {Read} else {})
                    + (if Write in ev.kinds && d.nwrite == 0 then {Write} else {})
                    + (if Closed in ev.kinds && d.nclose == 0 then {Closed} else {})
    ensures d.Counted() && d.Active() == c.Active() - res && res <= c.Active()
  {
    hide Count, Without;
    forall k: Kind
      ensures d.N(k) == Count(d.events, k) <= MAX_EVENTS
      ensures (k in d.Active() <==> k in c.Active() && k !in res) && (k in res ==> k in c.Active())
    {
      CountWithout(c.events, ev, k);
      match k
      case Read =>
      case Write =>
      case Closed =>
    }
  }

  /** A dispatch tells the kernel about fd whatever was registered before. */
  ghost predicate Heals(s: State, fd: int) {
    var i := At(s.entries, fd).idxplus1;
    0 < i <= |s.changes| && s.changes[i - 1].Effective()
  }

  /** The kernel's table after the first n changes. */
  ghost predicate Applied(s: State, n: nat, failed: set<int>, kernel: map<int, set<Kind>>) {
    forall f :: Reg(kernel, f) == RegAfter(s, n, failed, f)
  }

  ghost function RegAfter(s: State, n: nat, failed: set<int>, f: int): Option<set<Kind>> {
    var i := At(s.entries, f).idxplus1;
    if Heals(s, f) && i <= n && f !in failed then Want(s.changes[i - 1].Wanted()) else Reg(s.kernel, f)
  }

  lemma ChangeAt(s: State, i: nat)
    requires s.Ok() && i < |s.changes|
    ensures s.changes[i].Exclusive() && At(s.entries, s.changes[i].fd).idxplus1 == i + 1
  {
    assert s.OkAt(s.changes[i].fd);
  }

  /** The changelist entry a descriptor points to, if any, is its own. */
  ghost predicate Owner(c: Ctx, fd: int, changes: seq<Change>) {
    c.idxplus1 <= |changes| && (0 < c.idxplus1 ==> changes[c.idxplus1 - 1].fd == fd)
  }

  lemma Owners(s: State)
    requires s.Ok()
    ensures forall f :: Owner(At(s.entries, f), f, s.changes)
  {
    assert forall f :: s.OkAt(f) ==> Owner(At(s.entries, f), f, s.changes);
  }

  /** A context after the first n changes have been taken off the changelist. */
  function Reset(c: Ctx, n: nat): Ctx {
    c.(idxplus1 := if c.idxplus1 <= n then 0 else c.idxplus1)
  }

  lemma AppliedStep(s: State, i: nat, failed: set<int>, k: map<int, set<Kind>>, failed': set<int>, k': map<int,
                    set<Kind>>)
    requires s.Ok() && i < |s.changes| && Applied(s, i, failed, k)
    requires forall f :: f in failed ==> At(s.entries, f).idxplus1 <= i
    requires var ch := s.changes[i];
             && (forall f :: f != ch.fd ==> Reg(k', f) == Reg(k, f))
             && (if ch.fd !in failed' && ch.Effective() then Reg(k', ch.fd) == Want(ch.Wanted()) else k' == k)
             && (failed' == failed || failed' == failed + {ch.fd})
    ensures Applied(s, i + 1, failed', k')
  {
    hide Want, Reg, Change.Wanted, Change.Effective, FdOk, RegAfter;
    ChangeAt(s, i);
    Owners(s);
    forall f
      ensures RegAfter(s, i + 1, failed', f) == Reg(k', f)
    {
      RegStep(s, i, failed, failed', f);
    }
  }

  lemma RegStep(s: State, i: nat, failed: set<int>, failed': set<int>, f: int)
    requires i < |s.changes| && Owner(At(s.entries, f), f, s.changes)
    requires var fd := s.changes[i].fd;
             && At(s.entries, fd).idxplus1 == i + 1 && (failed' == failed || failed' == failed + {fd}) && fd !in failed
    ensures var ch := s.changes[i];
            RegAfter(s, i + 1, failed', f) ==
              if f == ch.fd && f !in failed' && ch.Effective() then Want(ch.Wanted()) else RegAfter(s, i, failed, f)
  {
    hide Want, Reg, Change.Wanted, Change.Effective;
  }

  lemma NoChange(ch: Change)
    requires !ch.Effective()
    ensures ch.Wanted() == ch.had
  {
    assert forall k: Kind :: ch.Of(k) == 0;
  }

  lemma DispatchedAt(s: State, failed: set<int>, t: State, f: int)
    requires s.Ok() && Applied(s, |s.changes|, failed, t.kernel)
    requires t.changes == [] && At(t.entries, f) == At(s.entries, f).(idxplus1 := 0)
    requires t.drifted == failed + set g | g in s.drifted && !Heals(s, g)
    ensures t.OkAt(f)
    ensures Reg(t.kernel, f) == if Heals(s, f) && f !in failed then Want(At(t.entries, f).Active())
                                else Reg(s.kernel, f)
  {
    hide Want, Reg, Change.Wanted, Change.Effective, Count;
    assert s.OkAt(f);
    var c := At(s.entries, f);
    assert At(t.entries, f).Active() == c.Active();
    if 0 < c.idxplus1 && !s.changes[c.idxplus1 - 1].Effective() {
      NoChange(s.changes[c.idxplus1 - 1]);
    }
  }

  lemma Dispatched(s: State, failed: set<int>, t: State)
    requires s.Ok() && Applied(s, |s.changes|, failed, t.kernel)
    requires t.changes == [] && forall f :: At(t.entries, f) == At(s.entries, f).(idxplus1 := 0)
    requires t.drifted == failed + set f | f in s.drifted && !Heals(s, f)
    ensures t.Ok()
    ensures forall f :: Reg(t.kernel, f) == if Heals(s, f) && f !in failed then Want(At(t.entries, f).Active())
                                            else Reg(s.kernel, f)
    ensures forall f :: f !in t.drifted ==> Reg(t.kernel, f) == Want(At(t.entries, f).Active())
  {
    hide Want, Reg, Change.Wanted, Change.Effective, Ctx.Active, Ctx.Counted, Heals, Applied;
    forall f
      ensures t.OkAt(f)
      ensures Reg(t.kernel, f) == if Heals(s, f) && f !in failed then Want(At(t.entries, f).Active())
                                  else Reg(s.kernel, f)
      ensures f !in t.drifted ==> Reg(t.kernel, f) == Want(At(t.entries, f).Active())
    {
      DispatchedAt(s, failed, t, f);
    }
  }

  lemma SomeKind(kinds: set<Kind>)
    ensures kinds != {} ==> Read in kinds || Write in kinds || Closed in kinds
  {
    if k :| k in kinds {
      match k
      case Read =>
      case Write =>
      case Closed =>
    }
  }

  /** The kinds some event of a list waits for. */
  ghost function Kinds(evs: seq<Event>): set<Kind> {
    set k: Kind | AnyWaits(evs, k)
  }

  ghost predicate AnyWaits(evs: seq<Event>, k: Kind) {
    exists i :: 0 <= i < |evs| && k in evs[i].kinds
  }

  lemma {:induction false} CountKinds(evs: seq<Event>, k: Kind)
    ensures 0 < Count(evs, k) <==> AnyWaits(evs, k)
  {
    if evs != [] {
      CountKinds(evs[1..], k);
      if 0 < Count(evs[1..], k) {
        var i :| 0 <= i < |evs[1..]| && k in evs[1..][i].kinds;
        assert k in evs[i + 1].kinds;
      }
      if i :| 0 < i < |evs| && k in evs[i].kinds {
        assert k in evs[1..][i - 1].kinds;
      }
    }
  }

  /** The counters say which kinds the listed events wait for. */
  lemma ActiveKinds(c: Ctx)
    requires c.Counted()
    ensures c.Active() == Kinds(c.events)
  {
    forall k: Kind
      ensures k in c.Active() <==> k in Kinds(c.events)
    {
      CountKinds(c.events, k);
    }
  }

  /** What can happen to an event base.  Reopening: a descriptor was closed, reopened or
      duplicated, which gave the kernel another registration for it. */
  datatype Step = Adding(ev: Event) | Deleting(ev: Event) | Dispatching | Reopening(fd: int, reg: Option<set<Kind>>)

  /** The events listed for fd after some steps. */
  function ListedAfter(steps: seq<Step>, fd: int): seq<Event> {
    if steps == [] then []
    else NextListed(steps[|steps| - 1], ListedAfter(steps[..|steps| - 1], fd), fd)
  }

  function NextListed(step: Step, evs: seq<Event>, fd: int): seq<Event> {
    match step
    case Adding(ev) => if ev.fd == fd && 0 <= fd then [ev] + evs else evs
    case Deleting(ev) => if ev.fd == fd then Without(evs, ev) else evs
    case _ => evs
  }

  /** Only listed events are deleted. */
  ghost predicate Sound(steps: seq<Step>) {
    forall i :: 0 <= i < |steps| && steps[i].Deleting? && 0 <= steps[i].ev.fd ==>
      steps[i].ev in ListedAfter(steps[..i], steps[i].ev.fd)
  }

  /** The kinds a coalescing backend last told the kernel about. */
  ghost function Told(steps: seq<Step>, fd: int): set<Kind> {
    if steps == [] then {}
    else if steps[|steps| - 1].Dispatching? then Kinds(ListedAfter(steps, fd))
    else Told(steps[..|steps| - 1], fd)
  }

  /** The kinds of fd that have come or gone since the last dispatch. */
  ghost function Touched(steps: seq<Step>, fd: int): set<Kind> {
    if steps == [] || steps[|steps| - 1].Dispatching? then {}
    else
      var before := steps[..|steps| - 1];
      var a, b := Kinds(ListedAfter(before, fd)), Kinds(ListedAfter(steps, fd));
      Touched(before, fd) + (a - b) + (b - a)
  }

  /** The next dispatch of a coalescing backend makes a call for fd: some kind that was touched
      is wanted now or the kernel was told of it. */
  ghost predicate Asks(steps: seq<Step>, fd: int) {
    exists k :: k in Touched(steps, fd) && (k in Kinds(ListedAfter(steps, fd)) || k in Told(steps, fd))
  }

  /** The last step makes the backend tell the kernel about fd. */
  ghost predicate Tells(steps: seq<Step>, fd: int, changelist: bool)
    requires steps != []
  {
    var before := steps[..|steps| - 1];
    if changelist then steps[|steps| - 1].Dispatching? && Asks(before, fd)
    else Kinds(ListedAfter(before, fd)) != Kinds(ListedAfter(steps, fd))
  }

  /** The registration of fd was changed from outside, and since then the backend has not
      told the kernel about fd. */
  ghost predicate Stale(steps: seq<Step>, fd: int, changelist: bool) {
    && steps != []
    && !Tells(steps, fd, changelist)
    && ((steps[|steps| - 1].Reopening? && steps[|steps| - 1].fd == fd) || Stale(steps[..|steps| - 1], fd, changelist))
  }

  /** What the kernel has registered for fd after some steps. */
  ghost function Registered(steps: seq<Step>, fd: int, changelist: bool): Option<set<Kind>> {
    if steps == [] then None
    else if Tells(steps, fd, changelist) then Want(Kinds(ListedAfter(steps, fd)))
    else if steps[|steps| - 1].Reopening? && steps[|steps| - 1].fd == fd then steps[|steps| - 1].reg
    else Registered(steps[..|steps| - 1], fd, changelist)
  }

  /** The kernel has exactly the kinds the listed events wait for, except where a change
      from outside has not been made up for. */
  ghost predicate InSync(kernel: map<int, set<Kind>>, steps: seq<Step>, changelist: bool) {
    forall fd :: !Stale(steps, fd, changelist) ==> Reg(kernel, fd) == Want(Kinds(ListedAfter(steps, fd)))
  }

  /** The state that belongs to a history, for one descriptor. */
  ghost predicate MatchesAt(s: State, steps: seq<Step>, changelist: bool, fd: int) {
    && At(s.entries, fd).events == ListedAfter(steps, fd)
    && (fd in s.drifted <==> Stale(steps, fd, changelist))
    && Reg(s.kernel, fd) == Registered(steps, fd, changelist)
    && (changelist ==>
          && Known(s, fd) == Told(steps, fd)
          && forall k: Kind ::
               Op(s, fd, k) <==>
                 k in Touched(steps, fd) && (k in Kinds(ListedAfter(steps, fd)) || k in Told(steps, fd)))
  }

  /** What a run keeps. */
  ghost predicate Follows(base: EventBase, steps: seq<Step>)
    reads base
  {
    base.Valid() && forall fd :: MatchesAt(base.S(), steps, base.changelist, fd)
  }

  /** No counter overflows. */
  ghost predicate Bounded(steps: seq<Step>) {
    forall i :: 0 <= i < |steps| && steps[i].Adding? ==>
      !Full(ListedAfter(steps[..i], steps[i].ev.fd), steps[i].ev)
  }

  /** One step; false if the call failed. */
  method TakeStep(base: EventBase, ghost before: seq<Step>, step: Step) returns (ok: bool)
    requires Follows(base, before)
    requires step.Deleting? && 0 <= step.ev.fd ==> step.ev in ListedAfter(before, step.ev.fd)
    modifies base
    ensures base.Valid()
    ensures ok ==> Follows(base, before + [step])
    ensures step.Dispatching? ==> base.changes == []
    ensures base.reliable && (step.Adding? ==> !Full(ListedAfter(before, step.ev.fd), step.ev)) ==> ok
  {
    hide MatchesAt, SteppedAt, ListedAfter, Full, State.Ok;
    ghost var s := base.S();
    match step {
      case Adding(ev) =>
        ListedIs(s, before, base.changelist, ev.fd);
        ok := StepIo(base, ev, true);
      case Deleting(ev) =>
        ListedIs(s, before, base.changelist, ev.fd);
        ok := StepIo(base, ev, false);
      case Dispatching =>
        ok := StepDispatch(base);
      case Reopening(fd, reg) =>
        StepReopen(base, fd, reg);
        ok := true;
    }
    if ok {
      forall fd
        ensures MatchesAt(base.S(), before + [step], base.changelist, fd)
      {
        assert MatchesAt(s, before, base.changelist, fd);
        MatchesNext(s, base.S(), before, step, base.changelist, fd);
      }
    }
  }

  lemma ListedIs(s: State, steps: seq<Step>, changelist: bool, fd: int)
    requires MatchesAt(s, steps, changelist, fd)
    ensures At(s.entries, fd).events == ListedAfter(steps, fd)
    ensures At(s.entries, fd).events != [] ==> 0 <= fd < |s.entries| && s.entries[fd].Some?
  {
  }

  method StepIo(base: EventBase, ev: Event, adding: bool) returns (ok: bool)
    requires base.Valid()
    requires !adding && 0 <= ev.fd ==>
      0 <= ev.fd < |base.entries| && base.entries[ev.fd].Some? && ev in base.Listed(ev.fd)
    modifies base
    ensures base.Valid()
    ensures var step := if adding then Adding(ev) else Deleting(ev);
            ok ==> forall fd :: SteppedAt(old(base.S()), base.S(), step, base.changelist, fd)
    ensures base.reliable && (adding ==> !Full(old(base.Listed(ev.fd)), ev)) ==> ok
  {
    hide State.Ok, Without, Full, Heals, Ctx.Active, Reg, Want, Op, Known;
    var r: int;
    if adding {
      r := base.IoAdd(ev.fd, ev);
    } else {
      r := base.IoDel(ev.fd, ev);
    }
    ok := r != -1;
    ghost var step := if adding then Adding(ev) else Deleting(ev);
    if ok {
      forall fd
        ensures SteppedAt(old(base.S()), base.S(), step, base.changelist, fd)
      {
        assert [] + old(base.Listed(fd)) == old(base.Listed(fd));
        IoStepped(old(base.S()), base.S(), ev, adding, base.changelist, r == 1, fd);
      }
    }
  }

  /** Listing or unlisting an event, for one descriptor. */
  lemma IoStepped(s: State, t: State, ev: Event, adding: bool, changelist: bool, told: bool, fd: int)
    requires At(t.entries, fd).events ==
               NextListed(if adding then Adding(ev) else Deleting(ev), At(s.entries, fd).events, fd)
    requires fd != ev.fd ==> At(t.entries, fd) == At(s.entries, fd)
    requires told <==> At(t.entries, ev.fd).Active() != At(s.entries, ev.fd).Active()
    requires t.drifted == if told && !changelist then s.drifted - {ev.fd} else s.drifted
    requires changelist ==> Known(t, fd) == Known(s, fd)
    requires if changelist then Noted(s, t, ev.fd) && t.kernel == s.kernel else Carried(s, t, ev.fd)
    ensures SteppedAt(s, t, if adding then Adding(ev) else Deleting(ev), changelist, fd)
  {
    hide Without, Ctx.Active, Reg, Want, Op, Known, NextListed;
    forall k: Kind | changelist
      ensures var a, b := At(s.entries, fd).Active(), At(t.entries, fd).Active();
              Op(t, fd, k) <==> if (k in a) != (k in b) then k in b || k in Known(s, fd) else Op(s, fd, k)
    {
    }
  }

  method StepDispatch(base: EventBase) returns (ok: bool)
    requires base.Valid()
    modifies base
    ensures base.Valid() && base.changes == [] && (base.reliable ==> ok)
    ensures ok ==> forall fd :: SteppedAt(old(base.S()), base.S(), Dispatching, base.changelist, fd)
  {
    hide State.Ok, Heals, Ctx.Active, Reg, Want, Op, Known;
    SameActive();
    var r, _ := base.Dispatch();
    EmptyList(base.S());
    ok := r == 0;
  }

  method StepReopen(base: EventBase, fd: int, reg: Option<set<Kind>>)
    requires base.Valid()
    modifies base
    ensures base.Valid()
    ensures forall f :: SteppedAt(old(base.S()), base.S(), Reopening(fd, reg), base.changelist, f)
  {
    hide State.Ok, Heals, Ctx.Active, Reg, Want, Op, Known;
    ghost var s := base.S();
    base.Drift(fd, reg);
    SameEntries(s, base.S());
    forall f
      ensures SteppedAt(s, base.S(), Reopening(fd, reg), base.changelist, f)
    {
      var t := base.S();
      assert Known(t, f) == Known(s, f) && forall k: Kind :: Op(t, f, k) == Op(s, f, k);
      assert Reg(t.kernel, f) == if f == fd then reg else Reg(s.kernel, f);
    }
  }

  lemma EmptyList(s: State)
    requires s.changes == []
    ensures forall fd :: Known(s, fd) == At(s.entries, fd).Active() && forall k: Kind :: !Op(s, fd, k)
  {
  }

  lemma SameEntries(s: State, t: State)
    requires t.entries == s.entries && t.changes == s.changes
    ensures forall fd :: Known(t, fd) == Known(s, fd) && forall k: Kind :: Op(t, fd, k) == Op(s, fd, k)
  {
  }

  /** What a step does to one descriptor. */
  ghost predicate SteppedAt(s: State, t: State, step: Step, changelist: bool, fd: int) {
    var a, b := At(s.entries, fd).Active(), At(t.entries, fd).Active();
    && At(t.entries, fd).events == NextListed(step, At(s.entries, fd).events, fd)
    && match step
       case Reopening(f, reg) =>
         && a == b && (fd in t.drifted <==> f == fd || fd in s.drifted)
         && Reg(t.kernel, fd) == (if f == fd then reg else Reg(s.kernel, fd))
         && Known(t, fd) == Known(s, fd) && forall k: Kind :: Op(t, fd, k) == Op(s, fd, k)
       case Dispatching =>
         && a == b && (fd in t.drifted <==> fd in s.drifted && !Heals(s, fd))
         && Reg(t.kernel, fd) == (if Heals(s, fd) then Want(b) else Reg(s.kernel, fd))
         && Known(t, fd) == b && forall k: Kind :: !Op(t, fd, k)
       case _ =>
         && (fd in t.drifted <==> fd in s.drifted && (changelist || a == b))
         && Reg(t.kernel, fd) == (if !changelist && a != b then Want(b) else Reg(s.kernel, fd))
         && (changelist ==>
               && Known(t, fd) == Known(s, fd)
               && forall k: Kind ::
                    Op(t, fd, k) <==> if (k in a) != (k in b) then k in b || k in Known(s, fd) else Op(s, fd, k))
  }

  lemma HealsOps(s: State, fd: int)
    ensures Heals(s, fd) <==> Op(s, fd, Read) || Op(s, fd, Write) || Op(s, fd, Closed)
  {
  }

  lemma AsksHeals(s: State, steps: seq<Step>, fd: int)
    requires MatchesAt(s, steps, true, fd)
    ensures Heals(s, fd) <==> Asks(steps, fd)
  {
    hide Kinds, Ctx.Active, Reg, Known, Op, Heals, Touched, Told, ListedAfter, Stale, Registered;
    HealsOps(s, fd);
    if Heals(s, fd) {
      var k := if Op(s, fd, Read) then Read else if Op(s, fd, Write) then Write else Closed;
      assert Op(s, fd, k);
    }
    if k :| k in Touched(steps, fd) && (k in Kinds(ListedAfter(steps, fd)) || k in Told(steps, fd)) {
      assert Op(s, fd, k);
      match k
      case Read =>
      case Write =>
      case Closed =>
    }
  }

  /** The functions of the history, one step further. */
  lemma OneStep(before: seq<Step>, step: Step, changelist: bool, fd: int)
    ensures var after := before + [step];
            var a, b := Kinds(ListedAfter(before, fd)), Kinds(ListedAfter(after, fd));
            var tells := if changelist then step.Dispatching? && Asks(before, fd) else a != b;
            && ListedAfter(after, fd) == NextListed(step, ListedAfter(before, fd), fd)
            && Told(after, fd) == (if step.Dispatching? then b else Told(before, fd))
            && Touched(after, fd) == (if step.Dispatching? then {} else Touched(before, fd) + (a - b) + (b - a))
            && (Stale(after, fd, changelist) <==>
                  !tells && ((step.Reopening? && step.fd == fd) || Stale(before, fd, changelist)))
            && Registered(after, fd, changelist) ==
                 if tells then Want(b)
                 else if step.Reopening? && step.fd == fd then step.reg else Registered(before, fd, changelist)
  {
    hide Kinds, NextListed, Asks;
    var after := before + [step];
    assert after[..|before|] == before && after[|after| - 1] == step;
  }

  lemma NoEntries(s: State, fd: int)
    requires s.changes == []
    ensures !Heals(s, fd)
  {
  }

  lemma MatchesNext(s: State, t: State, before: seq<Step>, step: Step, changelist: bool, fd: int)
    requires s.Ok() && t.Ok() && (!changelist ==> s.changes == [])
    requires MatchesAt(s, before, changelist, fd) && SteppedAt(s, t, step, changelist, fd)
    ensures MatchesAt(t, before + [step], changelist, fd)
  {
    hide State.Ok, NextListed, Kinds, Ctx.Active, Reg, Want, Known, Op, Heals, ListedAfter, Told, Touched, Stale;
    hide Registered, Asks;
    ActiveAt(s, fd);
    ActiveAt(t, fd);
    OneStep(before, step, changelist, fd);
    if changelist {
      AsksHeals(s, before, fd);
    } else {
      NoEntries(s, fd);
    }
    var after := before + [step];
    forall k: Kind | changelist
      ensures Op(t, fd, k) <==> k in Touched(after, fd) && (k in Kinds(ListedAfter(after, fd)) || k in Told(after, fd))
    {
      assert Op(s, fd, k) <==>
               k in Touched(before, fd) && (k in Kinds(ListedAfter(before, fd)) || k in Told(before, fd));
    }
  }

  lemma ActiveAt(s: State, fd: int)
    requires s.Ok()
    ensures At(s.entries, fd).Active() == Kinds(At(s.entries, fd).events)
  {
    hide Kinds, Ctx.Active;
    assert s.OkAt(fd);
    ActiveKinds(At(s.entries, fd));
  }

  lemma SameActive()
    ensures forall c: Ctx :: c.(idxplus1 := 0).Active() == c.Active()
  {
  }

  /** The last thing that happened was a dispatch. */
  ghost predicate Cleared(steps: seq<Step>) {
    steps != [] && steps[|steps| - 1].Dispatching?
  }

  /** A new base is at the start of every history. */
  lemma StartFollows(base: EventBase)
    requires base.Valid() && base.kernel == map[] && base.drifted == {} && base.changes == []
    requires forall fd :: base.Listed(fd) == []
    ensures Follows(base, [])
  {
    NoKinds();
    forall fd
      ensures MatchesAt(base.S(), [], base.changelist, fd)
    {
      assert base.Listed(fd) == [];
      ActiveAt(base.S(), fd);
    }
  }

  /** Any run of an event base from the start, as long as no call fails. */
  method Run(base: EventBase, steps: seq<Step>) returns (ok: bool)
    requires Follows(base, []) && Sound(steps)
    modifies base
    ensures base.Valid() && (ok ==> Follows(base, steps))
    ensures ok && (!base.changelist || Cleared(steps)) ==> InSync(base.kernel, steps, base.changelist)
    ensures base.reliable && Bounded(steps) ==> ok
  {
    hide Follows, Kinds, Full;
    ok := true;
    var n := 0;
    FollowsValid(base, []);
    while n < |steps| && ok
      invariant 0 <= n <= |steps| && base.Valid()
      invariant ok ==> Follows(base, steps[..n])
      invariant base.reliable && Bounded(steps) ==> ok
      invariant ok && Cleared(steps[..n]) ==> base.changes == []
    {
      assert steps[..n + 1] == steps[..n] + [steps[n]];
      ok := TakeStep(base, steps[..n], steps[n]);
      n := n + 1;
    }
    if ok {
      assert steps[..n] == steps;
      SyncedWhenClear(base, steps);
    }
  }

  lemma FollowsValid(base: EventBase, steps: seq<Step>)
    requires Follows(base, steps)
    ensures base.Valid()
  {
  }

  lemma SyncedWhenClear(base: EventBase, steps: seq<Step>)
    requires Follows(base, steps)
    ensures base.changes == [] ==> InSync(base.kernel, steps, base.changelist)
  {
    hide Kinds, Ctx.Active, Want, Reg, Stale, ListedAfter, Registered, Op, Known, Told, Touched;
    if base.changes == [] {
      forall fd | !Stale(steps, fd, base.changelist)
        ensures Reg(base.kernel, fd) == Want(Kinds(ListedAfter(steps, fd)))
      {
        ActiveAt(base.S(), fd);
        assert base.S().OkAt(fd) && MatchesAt(base.S(), steps, base.changelist, fd);
      }
    }
  }

  lemma SameRegs(a: map<int, set<Kind>>, b: map<int, set<Kind>>)
    requires forall fd :: Reg(a, fd) == Reg(b, fd)
    ensures a == b
  {
    forall fd
      ensures fd in a <==> fd in b
      ensures fd in a ==> a[fd] == b[fd]
    {
      assert Reg(a, fd) == Reg(b, fd);
    }
  }

  /** Both backends have the kernel register the same for every descriptor. */
  ghost predicate Agreeing(steps: seq<Step>) {
    forall fd :: Registered(steps, fd, false) == Registered(steps, fd, true)
  }

  /** Two kernels that follow histories agree exactly if the histories register the same. */
  lemma SameKernels(a: State, b: State, steps: seq<Step>)
    requires forall fd :: MatchesAt(a, steps, false, fd) && MatchesAt(b, steps, true, fd)
    ensures a.kernel == b.kernel <==> Agreeing(steps)
  {
    hide Reg, Kinds, ListedAfter;
    forall fd
      ensures Reg(a.kernel, fd) == Registered(steps, fd, false) && Reg(b.kernel, fd) == Registered(steps, fd, true)
    {
      assert MatchesAt(a, steps, false, fd) && MatchesAt(b, steps, true, fd);
    }
    if Agreeing(steps) {
      SameRegs(a.kernel, b.kernel);
    }
  }

  /** After a dispatch the coalescing backend has the registrations the immediate one has,
      wherever neither is stale; the kernels agree exactly if the histories say so. */
  method RunBoth(immediate: EventBase, coalescing: EventBase, steps: seq<Step>) returns (ok: bool)
    requires immediate != coalescing && !immediate.changelist && coalescing.changelist
    requires Follows(immediate, []) && Follows(coalescing, []) && Sound(steps) && Cleared(steps)
    modifies immediate, coalescing
    ensures ok ==> InSync(immediate.kernel, steps, false) && InSync(coalescing.kernel, steps, true)
    ensures ok ==> (immediate.kernel == coalescing.kernel <==> Agreeing(steps))
    ensures ok && (forall fd :: !Stale(steps, fd, false) && !Stale(steps, fd, true)) ==>
      immediate.kernel == coalescing.kernel
    ensures immediate.reliable && coalescing.reliable && Bounded(steps) ==> ok
  {
    hide MatchesAt, Stale, ListedAfter, Bounded, Agreeing, Kinds, Reg, Want, State.Ok;
    ok := Run(immediate, steps);
    if ok {
      ok := Run(coalescing, steps);
    }
    if ok {
      SameKernels(immediate.S(), coalescing.S(), steps);
      if forall fd :: !Stale(steps, fd, false) && !Stale(steps, fd, true) {
        SameRegs(immediate.kernel, coalescing.kernel);
      }
    }
  }

  /** A descriptor that is closed and opened again, and whose only event is deleted and added
      again, is in order after the next dispatch, with either backend. */
  lemma ReopenedInTime(before: seq<Step>, e: Event, reg: Option<set<Kind>>, changelist: bool)
    requires 0 <= e.fd && e.kinds != {} && ListedAfter(before, e.fd) == [e]
    ensures !Stale(before + [Reopening(e.fd, reg), Deleting(e), Adding(e), Dispatching], e.fd, changelist)
  {
    hide Kinds, ListedAfter, Told, Touched, Stale, Registered;
    var s1 := before + [Reopening(e.fd, reg)];
    var s2 := s1 + [Deleting(e)];
    var s3 := s2 + [Adding(e)];
    assert before + [Reopening(e.fd, reg), Deleting(e), Adding(e), Dispatching] == s3 + [Dispatching];
    OneStep(before, Reopening(e.fd, reg), changelist, e.fd);
    OneStep(s1, Deleting(e), changelist, e.fd);
    OneStep(s2, Adding(e), changelist, e.fd);
    OneStep(s3, Dispatching, changelist, e.fd);
    NoKinds();
    OnlyKinds(e);
    assert ListedAfter(s2, e.fd) == [] && ListedAfter(s3, e.fd) == [e];
    var k :| k in e.kinds;
    assert k in Touched(s3, e.fd) && k in Kinds(ListedAfter(s3, e.fd));
  }

  lemma NoKinds()
    ensures Kinds([]) == {}
  {
    assert forall k: Kind :: !AnyWaits([], k);
  }

  lemma OnlyKinds(e: Event)
    ensures Kinds([e]) == e.kinds
  {
    forall k: Kind
      ensures k in Kinds([e]) <==> k in e.kinds
    {
      assert [e][0] == e;
    }
  }
}
