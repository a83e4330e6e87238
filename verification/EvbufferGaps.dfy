/** What evbuffer_remove_buffer and evbuffer_strspn can do wrong, on buffers that calls alone
    have built. */
module EvbufferGaps {
  import opened Common
  import opened ChainView
  import opened EvbufferCore
  import opened EvbufferReading
  import ByteSearch
  import EvbufferSearching

  /** A new buffer with one byte in one chain. */
  method OneByte(b: byte) returns (buf: Evbuffer)
    ensures fresh(buf) && buf.Valid() && fresh(buf.repr) && buf.Contents() == [b] && !buf.freezeStart && !buf.freezeEnd
    ensures buf.totalLen == 1 && buf.Packed() && buf.Trim() && |buf.vs| == 1 && buf.lwd == 0
    ensures buf.vs[0].off == 1 && buf.vs[0].Space() < MIN_BUFFER_SIZE
  {
    hide Flat, LayoutOk, ChainList;
    buf := new Evbuffer();
    buf.Sizes();
    var _ := buf.Add([b], true);
    buf.Sizes();
    buf.Here(0);
    assert buf.vs[..1] == buf.vs;
  }

  /** Three bytes in chains x0, .., an empty one, b and c. */
  lemma Gap(vs: seq<View>, lwd: nat, n: nat)
    requires LayoutOk(vs, lwd, 3) && 2 <= n && lwd == n + 1 < |vs|
    requires vs[n - 1].off == 0 && 0 < vs[n].off && vs[lwd].off == 1
    ensures forall dvs, dlwd, dtotal :: LayoutOk(dvs, dlwd, dtotal) ==> !Movable(vs, lwd, dvs, dlwd, 2)
  {
    hide Flat, Movable;
    FlatWindow(vs, lwd);
    FlatUpTo(vs, lwd + 1);
    forall dvs, dlwd, dtotal | LayoutOk(dvs, dlwd, dtotal)
      ensures !Movable(vs, lwd, dvs, dlwd, 2)
    {
      GapUnmovable(vs, lwd, 3, dvs, dlwd, dtotal, n - 1, n);
    }
  }

  lemma Behind(vs: seq<View>, lwd: nat, total: nat)
    requires LayoutOk(vs, lwd, total) && lwd + 1 < |vs|
    ensures vs[|vs| - 1].off == 0
  {
  }

  /** A byte, and the room that evbuffer_read has made behind it. */
  method ShortRead() returns (x: Evbuffer)
    ensures fresh(x) && x.Valid() && fresh(x.repr) && x.Contents() == [0] && !x.freezeStart
    ensures x.totalLen == 1 && 2 <= |x.vs| && x.vs[|x.vs| - 1].off == 0
  {
    hide Flat, LayoutOk, ChainList, PackedTo, Ready;
    x := OneByte(0);
    var _ := ExpandFast(x, MAX_READ, NUM_READ_IOVEC, true);
    x.Sizes();
    RoomBehind(x, MAX_READ, NUM_READ_IOVEC);
    Behind(x.vs, x.lwd, x.totalLen);
  }

  method TwoChains() returns (y: Evbuffer)
    ensures fresh(y) && y.Valid() && fresh(y.repr) && y.Contents() == [1, 2] && !y.freezeStart
    ensures y.totalLen == 2 && |y.vs| == 2 && y.lwd == 1 && 0 < y.vs[0].off && y.vs[1].off == 1
  {
    hide Flat, LayoutOk, ChainList, PackedTo;
    y := OneByte(1);
    var z := OneByte(2);
    var _ := y.AddBuffer(z);
    y.Sizes();
  }

  /** evbuffer_prepend_buffer makes an unmovable source: a buffer whose last read found less
      than it had made room for, put in front of one of two chains.  Whatever the
      destination, taking two of its three bytes leaves a wrong slot. */
  method BuildGap() returns (src: Evbuffer)
    ensures src.Valid() && src.Contents() == [0, 1, 2]
    ensures forall dvs, dlwd, dtotal :: LayoutOk(dvs, dlwd, dtotal) ==> !Movable(src.vs, src.lwd, dvs, dlwd, 2)
  {
    hide Flat, LayoutOk, ChainList, Movable, PackedTo;
    var x := ShortRead();
    src := TwoChains();
    ghost var xs := x.vs;
    var _ := src.PrependBuffer(x);
    src.Sizes();
    assert src.vs[|xs| - 1] == xs[|xs| - 1];
    Gap(src.vs, src.lwd, |xs|);
  }

  lemma InsideFirst(vs: seq<View>, n: nat)
    requires vs != [] && n < vs[0].off
    ensures WholeChains(vs, n) == 0 && Flat(vs[..0]) == []
    ensures LandingChains(vs, [], 0, n) == []
  {
  }

  /** Two bytes in one chain, one of them to be moved to an empty buffer: without memory it
      is gone, and the call still reports it as moved. */
  method LoseByte() returns (src: Evbuffer, dst: Evbuffer, n: int)
    ensures src.Valid() && dst.Valid() && n == 1 && src.Contents() == [2] && dst.Contents() == []
  {
    hide Flat, LayoutOk, ChainList, Movable, PackedTo;
    src := new Evbuffer();
    dst := new Evbuffer();
    src.Sizes();
    var _ := src.Add([1, 2], true);
    src.Sizes();
    dst.Sizes();
    PackedMovable(src.vs, src.lwd, src.totalLen, dst.vs, dst.lwd, dst.totalLen, 1);
    src.Here(0);
    assert src.vs[..1] == src.vs;
    InsideFirst(src.vs, 1);
    ghost var added;
    n, added := src.RemoveBuffer(dst, 1, false);
  }

  /** A buffer that is all one line end: evbuffer_strspn reports it and leaves a pointer whose
      place is not its offset. */
  method StrayPointer() returns (buf: Evbuffer, count: nat, q: Ptr)
    ensures buf.Valid() && buf.Contents() == [10] && count == 1 && q.pos == 1 && !buf.Denotes(q)
  {
    hide Flat, LayoutOk, ChainList, PackedTo, Evbuffer.Valid, Evbuffer.Contents;
    buf := OneByte(10);
    EvbufferSearching.StartDenotes(buf);
    buf.Sizes();
    assert ByteSearch.RunLen([10], 0) == 1 + ByteSearch.RunLen([10], 1);
    count, q := EvbufferSearching.Strspn(buf, Ptr(0, buf.first, 0));
  }
}
