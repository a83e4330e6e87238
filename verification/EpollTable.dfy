/** The table that turns a change of interest in a file descriptor into one epoll_ctl call. */
module EpollTable {
  /** What an event can wait for: EV_READ, EV_WRITE and EV_CLOSED. */
  datatype Kind = Read | Write | Closed

  /** Masks of events: EPOLLIN, EPOLLOUT and EPOLLRDHUP. */
  const R: nat := 1
  const W: nat := 2
  const C: nat := 4
  const RW: nat := 3
  const RC: nat := 5
  const WC: nat := 6
  const RWC: nat := 7

  /** Bits of a change: EV_CHANGE_ADD and EV_CHANGE_DEL, which exclude each other. */
  const CHANGE_ADD: nat := 1
  const CHANGE_DEL: nat := 2

  /** struct event_change */
  datatype Change = Change(fd: int, had: set<Kind>, read: nat, write: nat, close: nat) {
    function Of(k: Kind): nat {
      match k
      case Read => read
      case Write => write
      case Closed => close
    }

    function With(k: Kind, c: nat): Change {
      match k
      case Read => this.(read := c)
      case Write => this.(write := c)
      case Closed => this.(close := c)
    }

    /** No kind is both added and deleted. */
    predicate Exclusive() {
      read <= CHANGE_DEL && write <= CHANGE_DEL && close <= CHANGE_DEL
    }

    /** Some kind is added or deleted. */
    predicate Effective() {
      read != 0 || write != 0 || close != 0
    }

    /** The interest the change asks for. */
    function Wanted(): set<Kind> {
      set k: Kind | Of(k) == CHANGE_ADD || (Of(k) != CHANGE_DEL && k in had)
    }
  }

  /** One entry of the table: the call and the events it names; NEVER where a kind would be both added and deleted. */
  datatype Operation = NOOP | ADD(events: nat) | MOD(events: nat) | DEL(events: nat) | NEVER

  /** EPOLL_OP_TABLE_INDEX */
  function Index(ch: Change): (i: nat)
    requires ch.read <= 3 && ch.write <= 3 && ch.close <= 3
    ensures i < 512 && i % 4 == ch.close && i / 4 % 4 == ch.read && i / 16 % 4 == ch.write && i / 64 == Mask(ch.had)
  {
    IndexFields(ch.close, ch.read, ch.write, Mask(ch.had));
    ch.close + 4 * ch.read + 16 * ch.write + 64 * Mask(ch.had)
  }

  lemma IndexFields(c: nat, r: nat, w: nat, b: nat)
    requires c <= 3 && r <= 3 && w <= 3
    ensures var i := c + 4 * r + 16 * w + 64 * b;
            i % 4 == c && i / 4 % 4 == r && i / 16 % 4 == w && i / 64 == b && i / 16 == 4 * b + w && i % 16 == 4 * r + c
  {
    var i := c + 4 * r + 16 * w + 64 * b;
    LastField(c, r + 4 * w + 16 * b);
    LastField(r, w + 4 * b);
    LastField(w, b);
    assert i == c + 4 * (r + 4 * w + 16 * b) && i / 4 == r + 4 * (w + 4 * b);
    Quarters(i);
    Quarters(i / 4);
    LastTwoFields(4 * r + c, w + 4 * b);
  }

  lemma LastField(a: nat, q: nat)
    requires a < 4
    ensures (a + 4 * q) % 4 == a && (a + 4 * q) / 4 == q
  {
  }

  lemma LastTwoFields(a: nat, q: nat)
    requires a < 16
    ensures (a + 16 * q) % 16 == a && (a + 16 * q) / 16 == q
  {
  }

  lemma Quarters(i: nat)
    ensures i / 4 / 4 == i / 16 && i / 16 / 4 == i / 64
  {
  }

  function Mask(had: set<Kind>): (b: nat)
    ensures b < 8
  {
    (if Read in had then 1 else 0) + (if Write in had then 2 else 0) + (if Closed in had then 4 else 0)
  }

  /** epoll_op_table, sixteen entries at a time. */
  function Row(r: nat): (row: seq<Operation>)
    requires r < 32
    ensures |row| == 16
  {
    match r
    // old events: none
    case 0 =>
      [NOOP, ADD(C), DEL(C), NEVER, ADD(R), ADD(RC), ADD(R), NEVER,
       DEL(R), ADD(C), DEL(RC), NEVER, NEVER, NEVER, NEVER, NEVER]
    case 1 =>
      [ADD(W), ADD(WC), ADD(W), NEVER, ADD(RW), ADD(RWC), ADD(RW), NEVER,
       ADD(W), ADD(WC), ADD(W), NEVER, NEVER, NEVER, NEVER, NEVER]
    case 2 =>
      [DEL(W), ADD(C), DEL(WC), NEVER, ADD(R), ADD(RC), ADD(R), NEVER,
       DEL(RW), ADD(C), DEL(RWC), NEVER, NEVER, NEVER, NEVER, NEVER]
    // old events: read
    case 4 =>
      [NOOP, MOD(RC), MOD(R), NEVER, MOD(R), MOD(RC), MOD(R), NEVER,
       DEL(R), MOD(C), DEL(RC), NEVER, NEVER, NEVER, NEVER, NEVER]
    case 5 =>
      [MOD(RW), MOD(RWC), MOD(RW), NEVER, MOD(RW), MOD(RWC), MOD(RW), NEVER,
       MOD(W), MOD(WC), MOD(W), NEVER, NEVER, NEVER, NEVER, NEVER]
    case 6 =>
      [MOD(R), MOD(RC), MOD(R), NEVER, MOD(R), MOD(RC), MOD(R), NEVER,
       DEL(RW), MOD(C), DEL(RWC), NEVER, NEVER, NEVER, NEVER, NEVER]
    // old events: write
    case 8 =>
      [NOOP, MOD(WC), MOD(W), NEVER, MOD(RW), MOD(RWC), MOD(RW), NEVER,
       MOD(W), MOD(WC), MOD(W), NEVER, NEVER, NEVER, NEVER, NEVER]
    case 9 =>
      [MOD(W), MOD(WC), MOD(W), NEVER, MOD(RW), MOD(RWC), MOD(RW), NEVER,
       MOD(W), MOD(WC), MOD(W), NEVER, NEVER, NEVER, NEVER, NEVER]
    case 10 =>
      [DEL(W), MOD(C), DEL(WC), NEVER, MOD(R), MOD(RC), MOD(R), NEVER,
       DEL(RW), MOD(C), DEL(RWC), NEVER, NEVER, NEVER, NEVER, NEVER]
    // old events: read and write
    case 12 =>
      [NOOP, MOD(RWC), MOD(RW), NEVER, MOD(RW), MOD(RWC), MOD(RW), NEVER,
       MOD(W), MOD(WC), MOD(W), NEVER, NEVER, NEVER, NEVER, NEVER]
    case 13 =>
      [MOD(RW), MOD(RWC), MOD(RW), NEVER, MOD(RW), MOD(RWC), MOD(RW), NEVER,
       MOD(W), MOD(WC), MOD(W), NEVER, NEVER, NEVER, NEVER, NEVER]
    case 14 =>
      [MOD(R), MOD(RC), MOD(R), NEVER, MOD(R), MOD(RC), MOD(R), NEVER,
       DEL(RW), MOD(C), DEL(RWC), NEVER, NEVER, NEVER, NEVER, NEVER]
    // old events: closed
    case 16 =>
      [NOOP, MOD(C), DEL(C), NEVER, MOD(RC), MOD(RC), MOD(R), NEVER,
       MOD(C), MOD(C), DEL(RC), NEVER, NEVER, NEVER, NEVER, NEVER]
    case 17 =>
      [MOD(WC), MOD(WC), MOD(W), NEVER, MOD(RWC), MOD(RWC), MOD(RW), NEVER,
       MOD(WC), MOD(WC), MOD(W), NEVER, NEVER, NEVER, NEVER, NEVER]
    case 18 =>
      [MOD(C), MOD(C), DEL(WC), NEVER, MOD(RC), MOD(RC), MOD(R), NEVER,
       MOD(C), MOD(C), DEL(RWC), NEVER, NEVER, NEVER, NEVER, NEVER]
    // old events: closed and read
    case 20 =>
      [NOOP, MOD(RC), MOD(R), NEVER, MOD(RC), MOD(RC), MOD(R), NEVER,
       MOD(C), MOD(C), DEL(RC), NEVER, NEVER, NEVER, NEVER, NEVER]
    case 21 =>
      [MOD(RWC), MOD(RWC), MOD(RW), NEVER, MOD(RWC), MOD(RWC), MOD(RW), NEVER,
       MOD(WC), MOD(WC), MOD(W), NEVER, NEVER, NEVER, NEVER, NEVER]
    case 22 =>
      [MOD(RC), MOD(RC), MOD(R), NEVER, MOD(RC), MOD(RC), MOD(R), NEVER,
       MOD(C), MOD(C), DEL(RWC), NEVER, NEVER, NEVER, NEVER, NEVER]
    // old events: closed and write
    case 24 =>
      [NOOP, MOD(WC), MOD(W), NEVER, MOD(RWC), MOD(RWC), MOD(RW), NEVER,
       MOD(WC), MOD(WC), MOD(W), NEVER, NEVER, NEVER, NEVER, NEVER]
    case 25 =>
      [MOD(WC), MOD(WC), MOD(W), NEVER, MOD(RWC), MOD(RWC), MOD(RW), NEVER,
       MOD(WC), MOD(WC), MOD(W), NEVER, NEVER, NEVER, NEVER, NEVER]
    case 26 =>
      [MOD(C), MOD(C), DEL(WC), NEVER, MOD(RC), MOD(RC), MOD(R), NEVER,
       MOD(C), MOD(C), DEL(RWC), NEVER, NEVER, NEVER, NEVER, NEVER]
    // old events: all
    case 28 =>
      [NOOP, MOD(RWC), MOD(RW), NEVER, MOD(RWC), MOD(RWC), MOD(RW), NEVER,
       MOD(WC), MOD(WC), MOD(W), NEVER, NEVER, NEVER, NEVER, NEVER]
    case 29 =>
      [MOD(RWC), MOD(RWC), MOD(RW), NEVER, MOD(RWC), MOD(RWC), MOD(RW), NEVER,
       MOD(WC), MOD(WC), MOD(W), NEVER, NEVER, NEVER, NEVER, NEVER]
    case 30 =>
      [MOD(RC), MOD(RC), MOD(R), NEVER, MOD(RC), MOD(RC), MOD(R), NEVER,
       MOD(C), MOD(C), DEL(RWC), NEVER, NEVER, NEVER, NEVER, NEVER]
    // the write change is both add and del
    case _ =>
      [NEVER, NEVER, NEVER, NEVER, NEVER, NEVER, NEVER, NEVER, NEVER, NEVER, NEVER, NEVER, NEVER, NEVER, NEVER, NEVER]
  }

  function OpTable(i: nat): Operation
    requires i < 512
  {
    Row(i / 16)[i % 16]
  }

  /** The kinds a mask stands for. */
  function Unmask(m: nat): set<Kind> {
    (if m % 2 == 1 then {Read} else {}) + (if m / 2 % 2 == 1 then {Write} else {})
    + (if m / 4 % 2 == 1 then {Closed} else {})
  }

  lemma Masked(s: set<Kind>)
    ensures Unmask(Mask(s)) == s && (Mask(s) == 0 <==> s == {})
  {
    forall k: Kind
      ensures k in Unmask(Mask(s)) <==> k in s
    {
      match k
      case Read =>
      case Write =>
      case Closed =>
    }
    assert Read in s || Write in s || Closed in s || s == {} by {
      if k :| k in s {
        match k
        case Read =>
        case Write =>
        case Closed =>
      }
    }
  }

  /** The mask a change from the mask b asks for. */
  function WantMask(b: nat, w: nat, r: nat, c: nat): nat {
    (if r == 1 || (r == 0 && b % 2 == 1) then R else 0)
    + (if w == 1 || (w == 0 && b / 2 % 2 == 1) then W else 0)
    + (if c == 1 || (c == 0 && b / 4 % 2 == 1) then C else 0)
  }

  lemma WantedMask(ch: Change)
    requires ch.Exclusive()
    ensures Mask(ch.Wanted()) == WantMask(Mask(ch.had), ch.write, ch.read, ch.close)
  {
  }

  /** What the entry for a change has to be. */
  predicate Right(op: Operation, b: nat, w: nat, r: nat, c: nat) {
    var want := WantMask(b, w, r, c);
    if w == r == c == 0 then op == NOOP
    else if want != 0 then op == if b == 0 then ADD(want) else MOD(want)
    else op.DEL? && op.events != 0
  }

  /** The rows for one mask of old events follow the rule; the eight lemmas take them in turn. */
  lemma Rows0(w: nat, r: nat, c: nat)
    requires w < 3 && r < 3 && c < 3
    ensures Right(Row(0 + w)[4 * r + c], 0, w, r, c)
  {
    assert w == 0 || w == 1 || w == 2;
  }

  lemma Rows1(w: nat, r: nat, c: nat)
    requires w < 3 && r < 3 && c < 3
    ensures Right(Row(4 + w)[4 * r + c], 1, w, r, c)
  {
    assert w == 0 || w == 1 || w == 2;
  }

  lemma Rows2(w: nat, r: nat, c: nat)
    requires w < 3 && r < 3 && c < 3
    ensures Right(Row(8 + w)[4 * r + c], 2, w, r, c)
  {
    assert w == 0 || w == 1 || w == 2;
  }

  lemma Rows3(w: nat, r: nat, c: nat)
    requires w < 3 && r < 3 && c < 3
    ensures Right(Row(12 + w)[4 * r + c], 3, w, r, c)
  {
    assert w == 0 || w == 1 || w == 2;
  }

  lemma Rows4(w: nat, r: nat, c: nat)
    requires w < 3 && r < 3 && c < 3
    ensures Right(Row(16 + w)[4 * r + c], 4, w, r, c)
  {
    assert w == 0 || w == 1 || w == 2;
  }

  lemma Rows5(w: nat, r: nat, c: nat)
    requires w < 3 && r < 3 && c < 3
    ensures Right(Row(20 + w)[4 * r + c], 5, w, r, c)
  {
    assert w == 0 || w == 1 || w == 2;
  }

  lemma Rows6(w: nat, r: nat, c: nat)
    requires w < 3 && r < 3 && c < 3
    ensures Right(Row(24 + w)[4 * r + c], 6, w, r, c)
  {
    assert w == 0 || w == 1 || w == 2;
  }

  lemma Rows7(w: nat, r: nat, c: nat)
    requires w < 3 && r < 3 && c < 3
    ensures Right(Row(28 + w)[4 * r + c], 7, w, r, c)
  {
    assert w == 0 || w == 1 || w == 2;
  }

  /** Every entry the code can reach asks the kernel for exactly the wanted interest, with
      ADD when nothing was registered before and MOD when something was, or for the removal
      of the descriptor. */
  lemma TableRight(ch: Change)
    requires ch.Exclusive()
    ensures var op := OpTable(Index(ch));
            var want := ch.Wanted();
            if !ch.Effective() then op == NOOP
            else if want != {} then
              (if ch.had == {} then op.ADD? else op.MOD?) && op.events != 0 && Unmask(op.events) == want
            else op.DEL? && op.events != 0
  {
    hide Mask, Unmask, Change.Wanted, Row;
    WantedMask(ch);
    Masked(ch.had);
    Masked(ch.Wanted());
    var b := Mask(ch.had);
    IndexFields(ch.close, ch.read, ch.write, b);
    var w, r, c := ch.write, ch.read, ch.close;
    assert Right(Row(4 * b + w)[4 * r + c], b, w, r, c) by {
      if
      case b == 0 => Rows0(w, r, c);
      case b == 1 => Rows1(w, r, c);
      case b == 2 => Rows2(w, r, c);
      case b == 3 => Rows3(w, r, c);
      case b == 4 => Rows4(w, r, c);
      case b == 5 => Rows5(w, r, c);
      case b == 6 => Rows6(w, r, c);
      case b == 7 => Rows7(w, r, c);
    }
  }
}
