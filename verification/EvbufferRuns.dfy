/** Whole runs of evbuffer operations on two buffers. */
module EvbufferRuns {
  import opened Common
  import opened ChainView
  import opened EvbufferCore

  /** An operation on one buffer, the target; `other` is the second buffer. */
  datatype Op =
    | Append(data: seq<byte>)
    | Push(data: seq<byte>)
    | Consume(n: nat)
    | TakeOut(n: nat)
    | Straighten(size: int)
    | MoveAllIn
    | MoveAllInFront
    | MoveOut(n: nat)

  datatype Call = Call(onSecond: bool, op: Op)

  /** What an operation does to the bytes of the target and of the other buffer. */
  function Effect(op: Op, x: seq<byte>, y: seq<byte>): (seq<byte>, seq<byte>) {
    match op
    case Append(data) => (x + data, y)
    case Push(data) => (data + x, y)
    case Consume(n) => (x[Min(n, |x|)..], y)
    case TakeOut(n) => (x[Min(n, |x|)..], y)
    case Straighten(_) => (x, y)
    case MoveAllIn => (x + y, [])
    case MoveAllInFront => (y + x, [])
    case MoveOut(n) => (x[Min(n, |x|)..], y + x[..Min(n, |x|)])
  }

  /** The operations that need memory, and so can fail. */
  predicate Allocates(op: Op) {
    op.Append? || op.Push? || op.MoveOut?
  }

  /** How many bytes an operation brings in. */
  function Brought(op: Op): nat {
    if op.Append? || op.Push? then |op.data| else 0
  }

  function Volume(calls: seq<Call>): nat {
    if calls == [] then 0 else Volume(calls[..|calls| - 1]) + Brought(calls[|calls| - 1].op)
  }

  lemma EffectSize(op: Op, x: seq<byte>, y: seq<byte>)
    ensures var (a, b) := Effect(op, x, y); |a| + |b| <= |x| + |y| + Brought(op)
  {
  }

  /** The buffers never hold more than what was brought in. */
  lemma {:induction false} AfterSize(calls: seq<Call>)
    ensures |After(calls).0| + |After(calls).1| <= Volume(calls)
  {
    if calls != [] {
      var (a, b) := After(calls[..|calls| - 1]);
      AfterSize(calls[..|calls| - 1]);
      var c := calls[|calls| - 1];
      if c.onSecond {
        EffectSize(c.op, b, a);
      } else {
        EffectSize(c.op, a, b);
      }
    }
  }

  lemma {:induction false} VolumeGrows(calls: seq<Call>, n: nat)
    requires n <= |calls|
    ensures Volume(calls[..n]) <= Volume(calls)
    decreases |calls| - n
  {
    if n < |calls| {
      assert calls[..n + 1][..n] == calls[..n];
      VolumeGrows(calls, n + 1);
    } else {
      assert calls[..n] == calls;
    }
  }

  /** The bytes of both buffers after a run that starts with two empty ones. */
  function After(calls: seq<Call>): (seq<byte>, seq<byte>) {
    if calls == [] then ([], [])
    else
      var (a, b) := After(calls[..|calls| - 1]);
      var c := calls[|calls| - 1];
      if c.onSecond then
        var (y, x) := Effect(c.op, b, a);
        (x, y)
      else Effect(c.op, a, b)
  }

  /** Two usable buffers that share no chain, without an empty chain except for a single one. */
  ghost predicate Pair(a: Evbuffer, b: Evbuffer)
    reads a, a.repr, b, b.repr
  {
    && a != b && a.Valid() && b.Valid() && a.repr !! b.repr
    && !a.freezeStart && !a.freezeEnd && !b.freezeStart && !b.freezeEnd
    && a.Packed() && a.Trim() && b.Packed() && b.Trim()
  }

  /** One operation; ok unless memory or the size limit runs out. */
  method Perform(x: Evbuffer, y: Evbuffer, op: Op, memory: bool) returns (ghost ok: bool)
    requires Pair(x, y)
    modifies x, x.repr, y, y.repr
    ensures Pair(x, y) && fresh(x.repr + y.repr - old(x.repr + y.repr))
    ensures ok ==> (x.Contents(), y.Contents()) == Effect(op, old(x.Contents()), old(y.Contents()))
    ensures !ok ==> Allocates(op)
    ensures memory && |old(x.Contents())| + |old(y.Contents())| + Brought(op) <= CHAIN_LIMIT ==> ok
  {
    hide Flat, PackedTo, LayoutOk, ChainList, SlotAt, Movable, WholeChains, Evbuffer.RoomFor, Evbuffer.FrontRoom;
    hide Evbuffer.Contents;
    if op.MoveAllIn? || op.MoveAllInFront? || op.MoveOut? {
      ok := PerformMove(x, y, op, memory);
    } else {
      ok := PerformOne(x, op, memory);
    }
  }

  /** An operation that touches the target only. */
  method PerformOne(x: Evbuffer, op: Op, memory: bool) returns (ghost ok: bool)
    requires x.Valid() && !x.freezeStart && !x.freezeEnd && x.Packed() && x.Trim()
    requires !op.MoveAllIn? && !op.MoveAllInFront? && !op.MoveOut?
    modifies x, x.repr
    ensures x.Valid() && !x.freezeStart && !x.freezeEnd && x.Packed() && x.Trim() && fresh(x.repr - old(x.repr))
    ensures forall d: seq<byte> :: ok ==> (x.Contents(), d) == Effect(op, old(x.Contents()), d)
    ensures !ok ==> Allocates(op)
    ensures memory && |old(x.Contents())| + Brought(op) <= CHAIN_LIMIT ==> ok
  {
    hide Flat, PackedTo, LayoutOk, ChainList, SlotAt, Evbuffer.RoomFor, Evbuffer.FrontRoom;
    x.Sizes();
    ghost var c := x.Contents();
    Units(c, []);
    match op {
      case Append(data) =>
        ok := x.Add(data, memory);
      case Push(data) =>
        ok := x.Prepend(data, memory);
      case Consume(n) =>
        ok := x.Drain(n);
      case TakeOut(n) =>
        var r := x.Remove(n);
        ok := true;
        DropTaken(c, r.value, x.Contents());
      case Straighten(size) =>
        var _ := x.Pullup(size, memory);
        ok := true;
    }
  }

  /** An operation that moves bytes between the buffers. */
  method PerformMove(x: Evbuffer, y: Evbuffer, op: Op, memory: bool) returns (ghost ok: bool)
    requires Pair(x, y) && (op.MoveAllIn? || op.MoveAllInFront? || op.MoveOut?)
    modifies x, x.repr, y, y.repr
    ensures Pair(x, y) && fresh(x.repr + y.repr - old(x.repr + y.repr))
    ensures ok ==> (x.Contents(), y.Contents()) == Effect(op, old(x.Contents()), old(y.Contents()))
    ensures !ok ==> Allocates(op)
    ensures memory && |old(x.Contents())| + |old(y.Contents())| <= CHAIN_LIMIT ==> ok
  {
    hide Flat, PackedTo, LayoutOk, ChainList, SlotAt, Movable, WholeChains, Evbuffer.RoomFor, Evbuffer.FrontRoom;
    x.Sizes();
    y.Sizes();
    Units(x.Contents(), y.Contents());
    match op {
      case MoveAllIn =>
        ok := x.AddBuffer(y);
      case MoveAllInFront =>
        ok := x.PrependBuffer(y);
      case MoveOut(n) =>
        if 0 < n < x.totalLen {
          PackedMovable(x.vs, x.lwd, x.totalLen, y.vs, y.lwd, y.totalLen, n);
        }
        var moved; ghost var added;
        moved, added := x.RemoveBuffer(y, n, memory);
        ok := added || moved <= 0;
    }
  }

  lemma Units(c: seq<byte>, d: seq<byte>)
    ensures c[0..] == c && d + c[..0] == d && c[|c|..] == [] && c[..|c|] == c
    ensures d == [] ==> c + d == c && d + c == c
    ensures c == [] ==> d + c == d
  {
  }

  lemma DropTaken(c: seq<byte>, a: seq<byte>, b: seq<byte>)
    requires c == a + b
    ensures b == c[|a|..]
  {
  }

  /** A run keeps both buffers' invariants, and their bytes are those of the plain byte
      operations, as long as memory lasts. */
  method Run(a: Evbuffer, b: Evbuffer, calls: seq<Call>, memory: bool) returns (ghost ok: bool)
    requires Pair(a, b) && a.Contents() == b.Contents() == []
    modifies a, a.repr, b, b.repr
    ensures Pair(a, b)
    ensures ok ==> (a.Contents(), b.Contents()) == After(calls)
    ensures !ok ==> exists i :: 0 <= i < |calls| && Allocates(calls[i].op)
    ensures memory && Volume(calls) <= CHAIN_LIMIT ==> ok
  {
    hide Flat, PackedTo, Pair, Effect;
    ok := true;
    var n := 0;
    assert calls[..0] == [];
    while n < |calls|
      invariant 0 <= n <= |calls| && Pair(a, b)
      invariant fresh(a.repr + b.repr - old(a.repr + b.repr))
      invariant ok ==> (a.Contents(), b.Contents()) == After(calls[..n])
      invariant !ok ==> exists i :: 0 <= i < |calls| && Allocates(calls[i].op)
      invariant memory && Volume(calls) <= CHAIN_LIMIT ==> ok
    {
      assert calls[..n + 1][..n] == calls[..n];
      AfterSize(calls[..n]);
      VolumeGrows(calls, n + 1);
      var c := calls[n];
      ghost var done;
      if c.onSecond {
        PairSwap(a, b);
        done := Perform(b, a, c.op, memory);
        PairSwap(b, a);
      } else {
        done := Perform(a, b, c.op, memory);
      }
      ok := ok && done;
      n := n + 1;
    }
    assert calls[..n] == calls;
  }

  lemma PairSwap(a: Evbuffer, b: Evbuffer)
    requires Pair(a, b)
    ensures Pair(b, a)
  {
  }
}
