/** Room for reading, away from the heap: how much free space follows the last chain with
    data, and what it means to put bytes there. */
module ReadView {
  import opened Common
  import opened ChainView

  /** Free bytes of the chains a..b. */
  function SpaceSum(vs: seq<View>, a: nat, b: nat): int
    requires b <= |vs|
    decreases b
  {
    if b <= a then 0 else SpaceSum(vs, a, b - 1) + vs[b - 1].Space()
  }

  /** The first chain a reader may write to. */
  function FirstRoom(vs: seq<View>, lwd: nat): (f: nat)
    ensures lwd <= f <= lwd + 1
  {
    if lwd < |vs| && vs[lwd].Space() == 0 then lwd + 1 else lwd
  }

  /** The free bytes that n vectors reach. */
  function Room(vs: seq<View>, lwd: nat, n: nat): int {
    SpaceSum(vs, FirstRoom(vs, lwd), Min(FirstRoom(vs, lwd) + n, |vs|))
  }

  lemma {:induction false} SpaceSumNat(vs: seq<View>, a: nat, b: nat)
    requires AllOk(vs) && b <= |vs|
    ensures 0 <= SpaceSum(vs, a, b)
    decreases b
  {
    if a < b {
      SpaceSumNat(vs, a, b - 1);
    }
  }

  lemma {:induction false} SpaceSumMono(vs: seq<View>, a: nat, b: nat, c: nat)
    requires AllOk(vs) && b <= c <= |vs|
    ensures SpaceSum(vs, a, b) <= SpaceSum(vs, a, c)
    decreases c
  {
    if b < c {
      SpaceSumMono(vs, a, b, c - 1);
      SpaceSumNat(vs, a, b);
    }
  }

  lemma {:induction false} SpaceSumSame(vs: seq<View>, ws: seq<View>, a: nat, b: nat)
    requires b <= |vs| && b <= |ws| && vs[..b] == ws[..b]
    ensures SpaceSum(vs, a, b) == SpaceSum(ws, a, b)
    decreases b
  {
    if a < b {
      assert vs[..b - 1] == vs[..b][..b - 1] == ws[..b][..b - 1] == ws[..b - 1];
      assert vs[b - 1] == vs[..b][b - 1] == ws[..b][b - 1] == ws[b - 1];
      SpaceSumSame(vs, ws, a, b - 1);
    }
  }

  /** A chain without free space adds nothing at the front. */
  lemma {:induction false} SpaceSumSkip(vs: seq<View>, a: nat, b: nat)
    requires a < b <= |vs|
    ensures SpaceSum(vs, a, b) == vs[a].Space() + SpaceSum(vs, a + 1, b)
    decreases b
  {
    if a + 1 < b {
      SpaceSumSkip(vs, a, b - 1);
    }
  }

  /** The bytes behind a chain's data. */
  function Free(v: View): seq<byte> {
    if v.misalign + v.off <= |v.mem| then v.mem[v.misalign + v.off..] else []
  }

  lemma FreeLen(v: View)
    requires v.Ok()
    ensures |Free(v)| == v.Space()
  {
  }

  lemma FreeTaken(v: View, x: nat)
    requires v.Ok() && x <= v.Space()
    ensures x <= |Free(v)| && v.(off := v.off + x).Ok()
    ensures v.(off := v.off + x).Data() == v.Data() + Free(v)[..x]
  {
  }

  /** The bytes that lie in the free space of the chains a..b. */
  function FreeBytes(vs: seq<View>, a: nat, b: nat): seq<byte>
    requires b <= |vs|
    decreases b
  {
    if b <= a then [] else FreeBytes(vs, a, b - 1) + Free(vs[b - 1])
  }

  lemma {:induction false} FreeBytesLen(vs: seq<View>, a: nat, b: nat)
    requires AllOk(vs) && b <= |vs|
    ensures |FreeBytes(vs, a, b)| == SpaceSum(vs, a, b)
    decreases b
  {
    hide Free;
    if a < b {
      FreeBytesLen(vs, a, b - 1);
      FreeLen(vs[b - 1]);
    }
  }

  /** Two lists that differ only in the memory behind their data. */
  predicate SameData(vs: seq<View>, ws: seq<View>) {
    && |vs| == |ws|
    && forall i :: 0 <= i < |vs| ==>
      ws[i].misalign == vs[i].misalign && ws[i].off == vs[i].off && |ws[i].mem| == |vs[i].mem|
      && ws[i].Data() == vs[i].Data()
  }

  lemma {:induction false} SameDataFlat(vs: seq<View>, ws: seq<View>)
    requires SameData(vs, ws)
    ensures Flat(vs) == Flat(ws)
  {
    if vs != [] {
      SameDataFlat(vs[1..], ws[1..]);
    }
  }

  lemma {:induction false} SameDataLayout(vs: seq<View>, ws: seq<View>, lwd: nat, total: nat)
    requires SameData(vs, ws) && LayoutOk(vs, lwd, total)
    ensures LayoutOk(ws, lwd, total) && (PackedTo(vs, lwd) ==> PackedTo(ws, lwd))
  {
    SameDataFlat(vs, ws);
  }

  /** Chain j, at or after the last one with data, takes the next x of the bytes lying in
      its free space. */
  lemma {:induction false} GrowAt(vs: seq<View>, lwd: nat, total: nat, j: nat, x: nat)
    requires LayoutOk(vs, lwd, total) && lwd <= j < |vs| && x <= vs[j].Space() && (0 < x || j == lwd)
    ensures var w := vs[j].(off := vs[j].off + x);
            Flat(vs[j := w]) == Flat(vs) + Free(vs[j])[..x] && LayoutOk(vs[j := w], j, total + x)
  {
    hide Flat, View.Data, Free;
    var v := vs[j];
    var w := v.(off := v.off + x);
    FreeTaken(v, x);
    FlatUpdate(vs, j, w);
    FlatSplit(vs, j);
    FlatEmpty(vs[j + 1..]);
  }

  /** No empty chain is left behind when chain j grows and the chains before it are full. */
  lemma {:induction false} GrowAtPacked(vs: seq<View>, lwd: nat, j: nat, x: nat)
    requires PackedTo(vs, lwd) && lwd <= j < |vs| && (j <= lwd + 1)
    requires j == lwd || 0 < vs[lwd].off
    ensures PackedTo(vs[j := vs[j].(off := vs[j].off + x)], j)
  {
  }

  /** Counting one more chain, realigned if it is empty. */
  lemma {:induction false} CountStep(vs: seq<View>, lwd: nat, i: nat, ws: seq<View>)
    requires AllOk(vs) && lwd <= i < |vs|
    requires ws == if vs[i].off == 0 then vs[i := vs[i].(misalign := 0)] else vs
    ensures SpaceSum(ws, FirstRoom(ws, lwd), i + 1) == SpaceSum(vs, FirstRoom(vs, lwd), i) + ws[i].Space()
    ensures i > lwd ==> FirstRoom(ws, lwd) == FirstRoom(vs, lwd)
  {
    if i > lwd {
      assert ws[..i] == vs[..i];
      SpaceSumSame(vs, ws, FirstRoom(vs, lwd), i);
    }
  }

  /** The chains lwd..i have been counted: `used` of them have free space, `avail` bytes. */
  ghost predicate Counted(vs: seq<View>, lwd: nat, i: nat, avail: nat, used: nat) {
    && lwd <= i <= |vs|
    && avail == SpaceSum(vs, FirstRoom(vs, lwd), i)
    && used == (if i == lwd then 0 else i - FirstRoom(vs, lwd))
    && Spacious(vs, FirstRoom(vs, lwd), i)
  }

  lemma CountedNone(vs: seq<View>, lwd: nat)
    requires lwd <= |vs|
    ensures Counted(vs, lwd, lwd, 0, 0)
  {
  }

  lemma {:induction false} CountedStep(vs: seq<View>, lwd: nat, i: nat, ws: seq<View>, avail: nat, used: nat)
    requires AllOk(vs) && i < |vs| && (i > lwd ==> vs[i].off == 0) && Counted(vs, lwd, i, avail, used)
    requires ws == if vs[i].off == 0 then vs[i := vs[i].(misalign := 0)] else vs
    ensures 0 <= ws[i].Space() && (vs[i].off == 0 ==> ws[i].Space() == |vs[i].mem| > 0)
    ensures Counted(ws, lwd, i + 1, avail + ws[i].Space(), used + if 0 < ws[i].Space() then 1 else 0)
  {
    CountStep(vs, lwd, i, ws);
    UsedStep(vs, lwd, i, ws);
    SpaciousStep(vs, lwd, i, ws);
  }

  lemma {:induction false} CountedReady(vs: seq<View>, lwd: nat, i: nat, avail: nat, used: nat, datlen: nat, n: nat)
    requires AllOk(vs) && lwd < i && Counted(vs, lwd, i, avail, used) && datlen <= avail && used <= n
    ensures datlen <= Room(vs, lwd, n) && Roomy(vs, FirstRoom(vs, lwd), datlen)
  {
    EnoughRoom(vs, lwd, i, n);
    RoomyUpTo(vs, FirstRoom(vs, lwd), i, datlen);
  }

  /** Only the last chain with data can be without free space. */
  lemma {:induction false} UsedStep(vs: seq<View>, lwd: nat, i: nat, ws: seq<View>)
    requires AllOk(vs) && lwd <= i < |vs| && (i > lwd ==> vs[i].off == 0)
    requires ws == if vs[i].off == 0 then vs[i := vs[i].(misalign := 0)] else vs
    ensures i + 1 - FirstRoom(ws, lwd) ==
            (if i == lwd then 0 else i - FirstRoom(vs, lwd)) + if 0 < ws[i].Space() then 1 else 0
    ensures vs[i].off == 0 ==> ws[i].Space() == |vs[i].mem| > 0
  {
  }

  lemma {:induction false} EnoughRoom(vs: seq<View>, lwd: nat, i: nat, n: nat)
    requires AllOk(vs) && lwd < i <= |vs| && i - FirstRoom(vs, lwd) <= n
    ensures SpaceSum(vs, FirstRoom(vs, lwd), i) <= Room(vs, lwd, n)
  {
    SpaceSumMono(vs, FirstRoom(vs, lwd), i, Min(FirstRoom(vs, lwd) + n, |vs|));
  }

  /** The chains f..i all have free space. */
  predicate Spacious(vs: seq<View>, f: nat, i: nat) {
    forall j :: f <= j < i && j < |vs| ==> 0 < vs[j].Space()
  }

  /** Every chain that is needed for datlen bytes has free space. */
  predicate Roomy(vs: seq<View>, f: nat, datlen: nat) {
    forall j {:trigger SpaceSum(vs, f, j)} :: f <= j < |vs| && SpaceSum(vs, f, j) < datlen ==> 0 < vs[j].Space()
  }

  lemma {:induction false} RoomyUpTo(vs: seq<View>, f: nat, i: nat, datlen: nat)
    requires AllOk(vs) && i <= |vs| && Spacious(vs, f, i) && (i == |vs| || datlen <= SpaceSum(vs, f, i))
    ensures Roomy(vs, f, datlen)
  {
    forall j | f <= j < |vs| && SpaceSum(vs, f, j) < datlen
      ensures 0 < vs[j].Space()
    {
      if i <= j {
        SpaceSumMono(vs, f, i, j);
      }
    }
  }

  /** One more chain with free space. */
  lemma SpaciousStep(vs: seq<View>, lwd: nat, i: nat, ws: seq<View>)
    requires AllOk(vs) && lwd <= i < |vs| && (i > lwd ==> vs[i].off == 0) && Spacious(vs, FirstRoom(vs, lwd), i)
    requires ws == if vs[i].off == 0 then vs[i := vs[i].(misalign := 0)] else vs
    ensures Spacious(ws, FirstRoom(ws, lwd), i + 1)
  {
  }

  lemma SpaceSumEmpty(vs: seq<View>, a: nat)
    requires a <= |vs|
    ensures SpaceSum(vs, a, a) == 0
  {
  }

  lemma SpaceSumSnoc(vs: seq<View>, a: nat, k: nat)
    requires a <= k < |vs|
    ensures SpaceSum(vs, a, k + 1) == SpaceSum(vs, a, k) + vs[k].Space()
  {
  }

  /** An empty chain at the end adds its whole memory to the room. */
  lemma {:induction false} RoomAppend(vs: seq<View>, lwd: nat, n: nat, v: View)
    requires AllOk(vs) && lwd < |vs| && v.Ok() && v.off == 0 && v.misalign == 0
    requires |vs| - FirstRoom(vs, lwd) < n && Spacious(vs, FirstRoom(vs, lwd), |vs|)
    ensures Room(vs + [v], lwd, n) == SpaceSum(vs, FirstRoom(vs, lwd), |vs|) + |v.mem|
    ensures forall d :: Roomy(vs + [v], FirstRoom(vs + [v], lwd), d)
  {
    var ws := vs + [v];
    assert ws[..|vs|] == vs[..|vs|];
    SpaceSumSame(vs, ws, FirstRoom(vs, lwd), |vs|);
    assert Spacious(ws, FirstRoom(ws, lwd), |ws|);
  }

  lemma {:induction false} RoomAppendCounted(vs: seq<View>, lwd: nat, n: nat, v: View, avail: nat, used: nat)
    requires AllOk(vs) && lwd < |vs| && v.Ok() && v.off == 0 && v.misalign == 0
    requires Counted(vs, lwd, |vs|, avail, used) && used < n
    ensures Room(vs + [v], lwd, n) == avail + |v.mem|
    ensures forall d :: Roomy(vs + [v], FirstRoom(vs + [v], lwd), d)
  {
    RoomAppend(vs, lwd, n, v);
  }

  /** The room of a list that ends with its last chain with data. */
  lemma {:induction false} RoomOfLast(vs: seq<View>, lwd: nat)
    requires |vs| == lwd + 1
    ensures SpaceSum(vs, FirstRoom(vs, lwd), |vs|) == vs[lwd].Space()
    ensures vs[lwd].Ok() ==> Spacious(vs, FirstRoom(vs, lwd), |vs|)
  {
  }

  lemma {:induction false} RoomOfOne(v: View, n: nat)
    requires v.Ok() && v.off == 0 && v.misalign == 0 && 0 < n
    ensures Room([v], 0, n) == |v.mem| && forall d :: Roomy([v], FirstRoom([v], 0), d)
  {
    assert Room([v], 0, n) == SpaceSum([v], 0, 1);
  }

  /** A list whose last chain with data is empty has no data. */
  lemma {:induction false} NoData(vs: seq<View>, lwd: nat, total: nat)
    requires LayoutOk(vs, lwd, total) && lwd < |vs| && vs[lwd].off == 0
    ensures Flat(vs) == [] && total == 0 && lwd == 0
  {
    FlatEmpty(vs);
  }

  /** An empty chain may be realigned. */
  lemma {:induction false} RealignEmpty(vs: seq<View>, lwd: nat, total: nat, i: nat)
    requires LayoutOk(vs, lwd, total) && i < |vs| && vs[i].off == 0
    ensures var ws := vs[i := vs[i].(misalign := 0)];
            Flat(ws) == Flat(vs) && LayoutOk(ws, lwd, total) && (PackedTo(vs, lwd) ==> PackedTo(ws, lwd))
  {
    hide Flat;
    FlatUpdate(vs, i, vs[i].(misalign := 0));
    FlatSplit(vs, i);
  }

  /** An empty chain may be added at the end. */
  lemma {:induction false} AppendEmpty(vs: seq<View>, lwd: nat, total: nat, v: View)
    requires LayoutOk(vs, lwd, total) && 0 < |vs| && v.Ok() && v.off == 0
    ensures Flat(vs + [v]) == Flat(vs) && LayoutOk(vs + [v], lwd, total)
    ensures PackedTo(vs, lwd) ==> PackedTo(vs + [v], lwd)
  {
    hide Flat;
    FlatAppend(vs, [v]);
    FlatOne(v);
  }

  /** The chains up to the last one with data may be kept alone. */
  lemma {:induction false} CutAfterLast(vs: seq<View>, lwd: nat, total: nat)
    requires LayoutOk(vs, lwd, total) && lwd < |vs|
    ensures Flat(vs[..lwd + 1]) == Flat(vs) && LayoutOk(vs[..lwd + 1], lwd, total)
    ensures PackedTo(vs, lwd) ==> PackedTo(vs[..lwd + 1], lwd)
  {
    FlatUpTo(vs, lwd + 1);
  }

  lemma {:induction false} FreeBytesSame(vs: seq<View>, ws: seq<View>, a: nat, b: nat)
    requires b <= |vs| && b <= |ws| && vs[..b] == ws[..b]
    ensures FreeBytes(vs, a, b) == FreeBytes(ws, a, b)
    decreases b
  {
    if a < b {
      assert vs[..b - 1] == vs[..b][..b - 1] == ws[..b][..b - 1] == ws[..b - 1];
      assert vs[b - 1] == vs[..b][b - 1] == ws[..b][b - 1] == ws[b - 1];
      FreeBytesSame(vs, ws, a, b - 1);
    }
  }

  /** The free space of the chains f..j starts with the first w bytes of d, and is no more
      than those while there are more to come. */
  ghost predicate Holds(vs: seq<View>, f: nat, j: nat, d: seq<byte>, w: nat) {
    && j <= |vs| && w <= |d| && w <= |FreeBytes(vs, f, j)|
    && FreeBytes(vs, f, j)[..w] == d[..w]
    && (w < |d| ==> w == |FreeBytes(vs, f, j)|)
  }

  /** Chain j with x more bytes of d stored behind its data. */
  function Stored(v: View, p: seq<byte>): View
    requires v.Ok() && |p| <= v.Space()
  {
    v.(mem := Patch(v.mem, v.misalign + v.off, p))
  }

  lemma StoredFree(v: View, p: seq<byte>)
    requires v.Ok() && |p| <= v.Space()
    ensures |Free(Stored(v, p))| == v.Space() && Free(Stored(v, p))[..|p|] == p
    ensures Stored(v, p).Ok() && Stored(v, p).Data() == v.Data()
  {
  }

  lemma FreeBytesSnoc(vs: seq<View>, f: nat, j: nat)
    requires f <= j < |vs|
    ensures FreeBytes(vs, f, j + 1) == FreeBytes(vs, f, j) + Free(vs[j])
  {
  }

  /** i chains from f on have been filled up with the bytes that lie in their free space. */
  ghost predicate Committed(vs0: seq<View>, lwd: nat, total: nat, vs: seq<View>, f: nat, i: nat) {
    && |vs| == |vs0| && f + i <= |vs| && vs[f + i..] == vs0[f + i..]
    && Flat(vs) == Flat(vs0) + FreeBytes(vs0, f, f + i)
    && LayoutOk(vs, if i == 0 then lwd else f + i - 1, total + |FreeBytes(vs0, f, f + i)|)
    && (PackedTo(vs0, lwd) ==> PackedTo(vs, if i == 0 then lwd else f + i - 1))
    && if i == 0 then vs == vs0 else 0 < vs[f + i - 1].off
  }

  lemma CommittedNone(vs0: seq<View>, lwd: nat, total: nat, f: nat)
    requires LayoutOk(vs0, lwd, total) && f <= |vs0|
    ensures Committed(vs0, lwd, total, vs0, f, 0) && FreeBytes(vs0, f, f) == []
  {
    assert Flat(vs0) + [] == Flat(vs0);
  }

  lemma CommittedAt(vs0: seq<View>, lwd: nat, total: nat, vs: seq<View>, f: nat, i: nat)
    requires Committed(vs0, lwd, total, vs, f, i) && f + i < |vs0|
    ensures vs[f + i] == vs0[f + i] && vs[f + i].Ok()
  {
    assert vs[f + i] == vs[f + i..][0] == vs0[f + i..][0];
  }

  /** A chain that is still needed has free space. */
  lemma {:induction false} NeedsSpace(vs: seq<View>, lwd: nat, total: nat, f: nat, j: nat, n: nat)
    requires LayoutOk(vs, lwd, total) && f <= j < |vs| && Roomy(vs, f, n) && |FreeBytes(vs, f, j)| < n
    ensures 0 < vs[j].Space() <= CHAIN_LIMIT
    ensures |FreeBytes(vs, f, j + 1)| == |FreeBytes(vs, f, j)| + vs[j].Space()
  {
    hide Flat;
    FreeBytesLen(vs, f, j);
    FreeBytesSnoc(vs, f, j);
    FreeLen(vs[j]);
  }

  lemma {:induction false} CommittedStep(vs0: seq<View>, lwd: nat, total: nat, vs: seq<View>, f: nat, i: nat)
    requires Committed(vs0, lwd, total, vs, f, i) && lwd < |vs0| && f + i < |vs0| && 0 < vs[f + i].Space()
    requires lwd <= f <= lwd + 1 && (f == lwd || 0 < vs0[lwd].off) && vs[f + i].Ok()
    ensures var v := vs[f + i];
            Committed(vs0, lwd, total, vs[f + i := v.(off := v.off + v.Space())], f, i + 1)
  {
    hide Flat, LayoutOk, View.Data, FreeBytes, Free;
    var j := f + i;
    var cur := if i == 0 then lwd else j - 1;
    var done := total + |FreeBytes(vs0, f, j)|;
    var v := vs[j];
    CommittedAt(vs0, lwd, total, vs, f, i);
    GrowAt(vs, cur, done, j, v.Space());
    FreeLen(v);
    assert Free(v)[..v.Space()] == Free(v);
    FreeBytesSnoc(vs0, f, j);
    var ws := vs[j := v.(off := v.off + v.Space())];
    assert ws[j + 1..] == vs[j..][1..] == vs0[j..][1..] == vs0[j + 1..];
    if PackedTo(vs0, lwd) {
      GrowAtPacked(vs, cur, j, v.Space());
    }
  }

  /** When reading starts behind the last chain with data, that chain has data. */
  lemma FirstRoomData(vs: seq<View>, lwd: nat, total: nat)
    requires LayoutOk(vs, lwd, total) && lwd < |vs| && (vs[lwd].off == 0 ==> vs[lwd].misalign == 0)
    ensures FirstRoom(vs, lwd) == lwd || 0 < vs[lwd].off
  {
  }

  /** The last chain takes the x bytes that are left. */
  lemma {:induction false} CommittedLast(vs0: seq<View>, lwd: nat, total: nat, vs: seq<View>, f: nat, i: nat,
                                         x: nat, nvecs: nat)
    requires Committed(vs0, lwd, total, vs, f, i) && lwd < |vs0| && i < nvecs && f + nvecs <= |vs0|
    requires 0 < x <= vs[f + i].Space() && lwd <= f <= lwd + 1 && (f == lwd || 0 < vs0[lwd].off) && vs[f + i].Ok()
    ensures var v := vs[f + i];
            var ws := vs[f + i := v.(off := v.off + x)];
            var n := |FreeBytes(vs0, f, f + i)| + x;
            n <= |FreeBytes(vs0, f, f + nvecs)| &&
            Flat(ws) == Flat(vs0) + FreeBytes(vs0, f, f + nvecs)[..n] &&
            LayoutOk(ws, f + i, total + n) && (PackedTo(vs0, lwd) ==> PackedTo(ws, f + i))
  {
    hide Flat, LayoutOk, View.Data, FreeBytes, Free;
    var j := f + i;
    var cur := if i == 0 then lwd else j - 1;
    var done := total + |FreeBytes(vs0, f, j)|;
    var v := vs[j];
    CommittedAt(vs0, lwd, total, vs, f, i);
    GrowAt(vs, cur, done, j, x);
    FreeLen(v);
    FreeBytesSnoc(vs0, f, j);
    FreeBytesPrefix(vs0, f, j + 1, f + nvecs);
    if PackedTo(vs0, lwd) {
      GrowAtPacked(vs, cur, j, x);
    }
  }

  lemma {:induction false} FreeBytesPrefix(vs: seq<View>, f: nat, a: nat, b: nat)
    requires a <= b <= |vs|
    ensures FreeBytes(vs, f, a) <= FreeBytes(vs, f, b)
    decreases b
  {
    hide Free;
    if a < b {
      FreeBytesPrefix(vs, f, a, b - 1);
    }
  }

  lemma HoldsAll(vs: seq<View>, f: nat, j: nat, d: seq<byte>)
    requires Holds(vs, f, j, d, |d|)
    ensures j <= |vs| && |d| <= |FreeBytes(vs, f, j)| && FreeBytes(vs, f, j)[..|d|] == d
  {
    assert d[..|d|] == d;
  }

  lemma {:induction false} SameDataSpace(vs: seq<View>, ws: seq<View>, a: nat, b: nat)
    requires SameData(vs, ws) && b <= |vs|
    ensures SpaceSum(vs, a, b) == SpaceSum(ws, a, b)
    decreases b
  {
    hide View.Data;
    if a < b {
      SameDataSpace(vs, ws, a, b - 1);
    }
  }

  /** Filling free space leaves the room as it was. */
  lemma {:induction false} SameDataRoom(vs: seq<View>, ws: seq<View>, lwd: nat, f: nat, datlen: nat, n: nat)
    requires SameData(vs, ws) && lwd < |vs| && f == FirstRoom(vs, lwd) && Roomy(vs, f, datlen) && n <= datlen
    requires vs[lwd].off == 0 ==> vs[lwd].misalign == 0
    ensures |ws| == |vs| && FirstRoom(ws, lwd) == f && Roomy(ws, f, n)
    ensures ws[lwd].off == 0 ==> ws[lwd].misalign == 0
  {
    hide View.Data;
    forall j | f <= j < |ws| && SpaceSum(ws, f, j) < n
      ensures 0 < ws[j].Space()
    {
      SameDataSpace(vs, ws, f, j);
    }
  }

  lemma HoldsNone(vs: seq<View>, f: nat, d: seq<byte>)
    requires f <= |vs|
    ensures Holds(vs, f, f, d, 0)
  {
  }

  lemma SameDataSelf(vs: seq<View>)
    ensures SameData(vs, vs)
  {
  }

  lemma SameDataAt(vs: seq<View>, ws: seq<View>, i: nat)
    requires SameData(vs, ws) && i < |vs|
    ensures |ws| == |vs| && ws[i].misalign == vs[i].misalign && ws[i].off == vs[i].off
    ensures |ws[i].mem| == |vs[i].mem| && ws[i].Space() == vs[i].Space()
  {
  }

  lemma SameDataTrans(a: seq<View>, b: seq<View>, c: seq<View>)
    requires SameData(a, b) && SameData(b, c)
    ensures SameData(a, c)
  {
  }

  lemma StoredSame(vs: seq<View>, j: nat, p: seq<byte>)
    requires j < |vs| && vs[j].Ok() && |p| <= vs[j].Space()
    ensures SameData(vs, vs[j := Stored(vs[j], p)])
  {
    StoredFree(vs[j], p);
  }

  lemma {:induction false} FillStep(vs: seq<View>, f: nat, j: nat, d: seq<byte>, w: nat, x: nat)
    requires AllOk(vs) && f <= j < |vs| && Holds(vs, f, j, d, w)
    requires w + x <= |d| && x <= vs[j].Space() && (w + x < |d| ==> x == vs[j].Space())
    ensures var ws := vs[j := Stored(vs[j], d[w..w + x])];
            SameData(vs, ws) && Holds(ws, f, j + 1, d, w + x)
  {
    hide Free, View.Data;
    var p := d[w..w + x];
    var ws := vs[j := Stored(vs[j], p)];
    StoredFree(vs[j], p);
    assert ws[..j] == vs[..j];
    FreeBytesSame(vs, ws, f, j);
    var a, b := FreeBytes(ws, f, j), Free(ws[j]);
    assert FreeBytes(ws, f, j + 1) == a + b;
    if w < |d| {
      assert (a + b)[..w + x] == a + b[..x];
      assert d[..w + x] == d[..w] + p;
    } else {
      assert (a + b)[..w] == a[..w];
    }
  }
}

/** evbuffer_expand_fast_, evbuffer_read_setup_vecs_ and the commit loop of evbuffer_read. */
module EvbufferReading {
  import opened Common
  import opened ChainView
  import opened ReadView
  import opened EvbufferCore

  /** The last chain with data, if there is one. */
  ghost function LastOne(buf: Evbuffer): Option<View>
    reads buf
  {
    if buf.lwd < |buf.vs| && 0 < buf.vs[buf.lwd].off then Some(buf.vs[buf.lwd]) else None
  }

  lemma RoomOfTrim(vs: seq<View>, lwd: nat, n: nat)
    requires lwd < |vs| && 0 <= vs[lwd].Space() && 0 < n
    ensures |vs| <= lwd + 1 ==> Room(vs, lwd, n) <= vs[lwd].Space()
  {
    assert SpaceSum(vs, lwd, lwd + 1) == SpaceSum(vs, lwd, lwd) + vs[lwd].Space();
  }

  /** Room for more than the last chain with data offers is found in chains behind it. */
  lemma RoomBehind(buf: Evbuffer, datlen: nat, n: nat)
    requires buf.Valid() && Ready(buf, datlen, n) && 0 < n && buf.vs[buf.lwd].Space() < datlen
    ensures !buf.Trim()
  {
    hide Room, Flat, ChainList;
    LayoutOkAt(buf.vs, buf.lwd, buf.totalLen, buf.lwd);
    RoomOfTrim(buf.vs, buf.lwd, n);
  }

  /** Moves the free space of an empty chain to its start. */
  method Realign(buf: Evbuffer, chain: Chain, ghost i: nat)
    requires buf.Valid() && i < |buf.spine| && chain == buf.spine[i] && chain.off == 0
    modifies buf`vs, chain`misalign
    ensures buf.Valid() && buf.Contents() == old(buf.Contents()) && buf.Steady()
    ensures LastOne(buf) == old(LastOne(buf))
    ensures buf.vs == old(buf.vs)[i := old(buf.vs)[i].(misalign := 0)]
  {
    hide Flat, PackedTo, LayoutOk, View.Data;
    assert buf.vs[i] == chain.V();
    RealignEmpty(buf.vs, buf.lwd, buf.totalLen, i);
    chain.misalign := 0;
    buf.vs := buf.vs[i := chain.V()];
  }

  /** Links an empty chain behind the last one. */
  method AppendNew(buf: Evbuffer, tmp: Chain)
    requires buf.Valid() && buf.spine != [] && tmp !in buf.repr && tmp.next == null
    requires tmp.V().Ok() && tmp.off == 0
    modifies buf, buf.repr`next
    ensures buf.Valid() && buf.Contents() == old(buf.Contents()) && buf.Steady()
    ensures LastOne(buf) == old(LastOne(buf))
    ensures buf.vs == old(buf.vs) + [tmp.V()] && buf.lwd == old(buf.lwd) && buf.repr == old(buf.repr) + {tmp}
  {
    hide Flat, PackedTo, LayoutOk, ChainList, SlotAt;
    NoChains(buf);
    SingletonList(tmp);
    AppendEmpty(buf.vs, buf.lwd, buf.totalLen, tmp.V());
    LayoutBounds(buf.vs, buf.lwd, buf.totalLen);
    assert buf.spine[..|buf.spine|] == buf.spine;
    SlotPrefix(buf.spine, |buf.spine|, [tmp], buf.lwd);
    JoinChains(buf.last, tmp, buf.spine, buf.vs, buf.repr, [tmp], [tmp.V()], {tmp});
    buf.last := tmp;
    buf.spine, buf.vs, buf.repr := buf.spine + [tmp], buf.vs + [tmp.V()], buf.repr + {tmp};
  }

  /** One round of the loop: the free bytes of chain i, which is realigned if it is empty. */
  method CountChain(buf: Evbuffer, chain: Chain, avail: nat, used: nat, ghost i: nat) returns (a: nat, u: nat)
    requires buf.Valid() && buf.lwd <= i < |buf.spine| && chain == buf.spine[i]
    requires Counted(buf.vs, buf.lwd, i, avail, used)
    modifies buf`vs, chain`misalign
    ensures buf.Valid() && buf.Contents() == old(buf.Contents()) && buf.Steady()
    ensures LastOne(buf) == old(LastOne(buf))
    ensures Counted(buf.vs, buf.lwd, i + 1, a, u) && avail <= a && used <= u <= used + 1
    ensures |buf.vs| == |old(buf.vs)| && (buf.lwd < i ==> buf.vs[buf.lwd] == old(buf.vs[buf.lwd]))
    ensures i == buf.lwd ==> avail + buf.vs[i].Space() == a && (buf.vs[i].off == 0 ==> buf.vs[i].misalign == 0)
  {
    hide Flat, PackedTo, LayoutOk, View.Data, Counted;
    ghost var vs := buf.vs;
    assert chain in buf.repr && vs[i] == chain.V();
    LayoutAllOk(vs, buf.lwd, buf.totalLen);
    LayoutOkAt(vs, buf.lwd, buf.totalLen, i);
    a, u := avail, used;
    if chain.off != 0 {
      var space := |chain.mem| - chain.misalign - chain.off;
      if space != 0 {
        a := avail + space;
        u := used + 1;
      }
    } else {
      Realign(buf, chain, i);
      a := avail + |chain.mem|;
      u := used + 1;
    }
    LayoutAllOk(buf.vs, buf.lwd, buf.totalLen);
    CountedStep(vs, buf.lwd, i, buf.vs, avail, used);
  }

  /** The first loop of evbuffer_expand_fast_: counts the free bytes behind the data, in at
      most n chains, and realigns the empty chains it passes. */
  method CountRoom(buf: Evbuffer, datlen: nat, n: nat) returns (enough: bool, avail: nat, used: nat)
    requires buf.Valid() && buf.spine != [] && 0 < n
    modifies buf`vs, buf.repr`misalign
    ensures buf.Valid() && buf.Contents() == old(buf.Contents()) && buf.Steady() && buf.lwd < |buf.vs|
    ensures LastOne(buf) == old(LastOne(buf))
    ensures buf.vs[buf.lwd].off == 0 ==> buf.vs[buf.lwd].misalign == 0
    ensures enough ==> Ready(buf, datlen, n)
    ensures !enough ==> avail < datlen && used <= n && buf.vs[buf.lwd].Space() < datlen
    ensures !enough && used < n ==> Counted(buf.vs, buf.lwd, |buf.vs|, avail, used)
  {
    hide Flat, PackedTo, LayoutOk, View.Data, FirstRoom, Roomy, Room, Counted, SlotAt, ChainList;
    LayoutBounds(buf.vs, buf.lwd, buf.totalLen);
    LastView(buf);
    used, avail := 0, 0;
    var chain := buf.Deref(buf.lastWithDatap);
    buf.LinkedAt(buf.lwd);
    ghost var i := buf.lwd;
    CountedNone(buf.vs, i);
    while chain != null
      invariant buf.Valid() && buf.Contents() == old(buf.Contents()) && buf.Steady()
      invariant LastOne(buf) == old(LastOne(buf))
      invariant buf.lwd <= i <= |buf.spine| == |buf.vs| && chain == At(buf.spine, i)
      invariant if i == buf.lwd then avail == 0 else avail < datlen && buf.vs[buf.lwd].Space() < datlen
      invariant Counted(buf.vs, buf.lwd, i, avail, used) && used < n
      invariant buf.lwd < i && buf.vs[buf.lwd].off == 0 ==> buf.vs[buf.lwd].misalign == 0
      decreases |buf.spine| - i
    {
      buf.Here(i);
      buf.LinkedAt(i);
      avail, used := CountChain(buf, chain, avail, used, i);
      i := i + 1;
      if avail >= datlen {
        LayoutAllOk(buf.vs, buf.lwd, buf.totalLen);
        CountedReady(buf.vs, buf.lwd, i, avail, used, datlen, n);
        return true, avail, used;
      }
      if used == n {
        return false, avail, used;
      }
      chain := chain.next;
    }
    return false, avail, used;
  }

  /** Drops every chain behind the last one with data. */
  method DropEmptyTail(buf: Evbuffer)
    requires buf.Valid() && buf.spine != []
    modifies buf`first, buf`spine, buf`vs, buf`last, buf.repr`next
    ensures buf.Valid() && buf.Contents() == old(buf.Contents()) && buf.Steady()
    ensures LastOne(buf) == old(LastOne(buf))
    ensures buf.spine == old(buf.spine)[..buf.lwd + 1] && buf.vs == old(buf.vs)[..buf.lwd + 1]
  {
    hide Flat, PackedTo, LayoutOk, View.Data, ChainList;
    LayoutBounds(buf.vs, buf.lwd, buf.totalLen);
    CutAfterLast(buf.vs, buf.lwd, buf.totalLen);
    var chain := buf.Deref(buf.lastWithDatap);
    buf.LinkedAt(buf.lwd);
    buf.last := chain;
    buf.CutAt(NextOf(chain), buf.lwd + 1);
  }

  /** The second half of evbuffer_expand_fast_ when n chains were not enough: all empty
      chains make way for one that is big enough. */
  method ReplaceEmptyChains(buf: Evbuffer, datlen: nat, n: nat, memory: bool) returns (ok: bool)
    requires buf.Valid() && buf.spine != [] && 2 <= n && 0 < datlen
    requires buf.vs[buf.lwd].off == 0 ==> buf.vs[buf.lwd].misalign == 0
    requires 0 < buf.vs[buf.lwd].off ==> buf.vs[buf.lwd].Space() <= datlen
    modifies buf, buf.repr
    ensures buf.Valid() && buf.Contents() == old(buf.Contents()) && buf.Grown()
    ensures LastOne(buf) == old(LastOne(buf))
    ensures ok ==> Ready(buf, datlen, n)
    ensures memory && datlen <= CHAIN_LIMIT ==> ok
  {
    hide Flat, PackedTo, LayoutOk, View.Data, ChainList, SlotAt, SpaceSum, FirstRoom, Room, Roomy, Spacious, Counted;
    NoChains(buf);
    LayoutBounds(buf.vs, buf.lwd, buf.totalLen);
    LastView(buf);
    LayoutOkAt(buf.vs, buf.lwd, buf.totalLen, buf.lwd);
    var chain := buf.Deref(buf.lastWithDatap);
    if chain.off == 0 {
      NoData(buf.vs, buf.lwd, buf.totalLen);
      buf.ZeroChain();
      var tmp := ChainNew(datlen, memory);
      if tmp == null {
        return false;
      }
      RoomOfOne(tmp.V(), n);
      buf.InsertFirst(tmp);
    } else {
      var avail := |chain.mem| - chain.misalign - chain.off;
      DropEmptyTail(buf);
      var tmp := ChainNew(datlen - avail, memory);
      if tmp == null {
        return false;
      }
      LayoutAllOk(buf.vs, buf.lwd, buf.totalLen);
      RoomOfLast(buf.vs, buf.lwd);
      RoomAppend(buf.vs, buf.lwd, n, tmp.V());
      AppendNew(buf, tmp);
    }
    return true;
  }

  lemma LastView(buf: Evbuffer)
    requires buf.Valid() && buf.spine != []
    ensures buf.lwd < |buf.spine| && buf.vs[buf.lwd] == buf.spine[buf.lwd].V() && buf.spine[buf.lwd] in buf.repr
  {
  }

  /** Reading datlen bytes with n vectors finds the room it needs. */
  ghost predicate Ready(buf: Evbuffer, datlen: nat, n: nat)
    reads buf
  {
    && buf.lwd < |buf.vs|
    && datlen <= Room(buf.vs, buf.lwd, n)
    && Roomy(buf.vs, FirstRoom(buf.vs, buf.lwd), datlen)
    && (buf.vs[buf.lwd].off == 0 ==> buf.vs[buf.lwd].misalign == 0)
  }

  /** evbuffer_expand_fast_ */
  method ExpandFast(buf: Evbuffer, datlen: nat, n: nat, memory: bool) returns (ok: bool)
    requires buf.Valid() && 2 <= n
    modifies buf, buf.repr
    ensures buf.Valid() && buf.Contents() == old(buf.Contents()) && buf.Grown()
    ensures LastOne(buf) == old(LastOne(buf))
    ensures ok ==> Ready(buf, datlen, n)
    ensures memory && datlen <= CHAIN_LIMIT ==> ok
  {
    hide Flat, PackedTo, LayoutOk, View.Data, ChainList, SlotAt, SpaceSum, FirstRoom, Room, Roomy, Spacious, Counted;
    NoChains(buf);
    if buf.last == null {
      var chain := ChainNew(datlen, memory);
      if chain == null {
        return false;
      }
      RoomOfOne(chain.V(), n);
      LayoutBounds(buf.vs, buf.lwd, buf.totalLen);
      buf.ChainInsert(chain);
      assert buf.vs == [chain.V()];
      return true;
    }
    var enough, avail, used := CountRoom(buf, datlen, n);
    if enough {
      return true;
    }
    if used < n {
      var tmp := ChainNew(datlen - avail, memory);
      if tmp == null {
        return false;
      }
      LayoutAllOk(buf.vs, buf.lwd, buf.totalLen);
      RoomAppendCounted(buf.vs, buf.lwd, n, tmp.V(), avail, used);
      AppendNew(buf, tmp);
      return true;
    }
    ok := ReplaceEmptyChains(buf, datlen, n, memory);
  }

  /** A vector handed to readv: len bytes of a chain's memory from start on. */
  datatype Extent = Extent(chain: Chain, start: nat, len: nat)

  /** Free bytes that the vectors cover. */
  ghost function Covered(vecs: seq<Extent>): nat {
    if vecs == [] then 0 else Covered(vecs[..|vecs| - 1]) + vecs[|vecs| - 1].len
  }

  /** e is free space of chain j: all of it, or a part. */
  ghost predicate ExtentOf(e: Extent, spine: seq<Chain>, vs: seq<View>, j: nat, full: bool)
    requires j < |spine| == |vs|
  {
    && e.chain == spine[j]
    && e.start == vs[j].misalign + vs[j].off
    && e.len <= vs[j].Space()
    && (full ==> e.len == vs[j].Space())
  }

  /** The vectors are the free space of consecutive chains from f on; only the last may be
      cut short, and none is if `full`. */
  ghost predicate Vectors(spine: seq<Chain>, vs: seq<View>, vecs: seq<Extent>, f: nat, full: bool) {
    && f + |vecs| <= |spine| == |vs|
    && forall i {:trigger vecs[i]} :: 0 <= i < |vecs| ==> ExtentOf(vecs[i], spine, vs, f + i, full || i + 1 < |vecs|)
  }

  lemma ExtendVectors(spine: seq<Chain>, vs: seq<View>, vecs: seq<Extent>, f: nat, e: Extent, full: bool)
    requires Vectors(spine, vs, vecs, f, true) && f + |vecs| < |spine| && ExtentOf(e, spine, vs, f + |vecs|, full)
    ensures Vectors(spine, vs, vecs + [e], f, full) && Covered(vecs + [e]) == Covered(vecs) + e.len
  {
    assert (vecs + [e])[..|vecs|] == vecs;
  }

  lemma WeakenVectors(spine: seq<Chain>, vs: seq<View>, vecs: seq<Extent>, f: nat)
    ensures Vectors(spine, vs, vecs, f, true) ==> Vectors(spine, vs, vecs, f, false)
  {
  }

  /** evbuffer_read_setup_vecs_ */
  method ReadSetupVecs(buf: Evbuffer, howmuch: int, n: nat, exact: bool)
    returns (nvecs: int, vecs: seq<Extent>, firstp: Slot, ghost f: nat)
    requires buf.Valid() && (0 <= howmuch ==> Ready(buf, howmuch, n))
    ensures nvecs == if howmuch < 0 then -1 else |vecs|
    ensures 0 <= howmuch ==>
      |vecs| <= n && f == FirstRoom(buf.vs, buf.lwd) && Vectors(buf.spine, buf.vs, vecs, f, false)
    ensures 0 <= howmuch ==> f <= |buf.spine| && firstp == SlotAt(buf.spine, f)
    ensures 0 <= howmuch ==> howmuch <= Covered(vecs) && (exact ==> Covered(vecs) == howmuch)
  {
    hide Flat, PackedTo, LayoutOk, View.Data, SpaceSum, Vectors, Covered, ChainList, SlotAt, Gathered;
    vecs, firstp, f := [], buf.lastWithDatap, buf.lwd;
    if howmuch < 0 {
      return -1, vecs, firstp, f;
    }
    LayoutAllOk(buf.vs, buf.lwd, buf.totalLen);
    var c := buf.Deref(firstp);
    buf.LinkedAt(buf.lwd);
    if |c.mem| - c.misalign - c.off == 0 {
      firstp := NextOf(c);
      f := f + 1;
    }
    var chain := buf.Deref(firstp);
    if f < |buf.spine| {
      buf.LinkedAt(f);
    }
    var soFar: nat := 0;
    GatherNone(buf.spine, buf.vs, f, howmuch, exact);
    while |vecs| < n && soFar < howmuch
      invariant |vecs| <= n && f + |vecs| <= |buf.spine| && chain == At(buf.spine, f + |vecs|)
      invariant soFar == Covered(vecs) && Gathered(buf.spine, buf.vs, vecs, f, howmuch, exact)
      decreases n - |vecs|
    {
      GatherMore(buf.spine, buf.vs, vecs, f, howmuch, exact, n);
      buf.LinkedAt(f + |vecs|);
      var avail := |chain.mem| - chain.misalign - chain.off;
      if avail > howmuch - soFar && exact {
        avail := howmuch - soFar;
      }
      var e := Extent(chain, chain.misalign + chain.off, avail);
      GatherNext(buf.spine, buf.vs, vecs, f, howmuch, exact, e);
      vecs := vecs + [e];
      soFar := soFar + avail;
      chain := chain.next;
    }
    GatherMore(buf.spine, buf.vs, vecs, f, howmuch, exact, n);
    nvecs := |vecs|;
  }

  /** What the vectors gathered so far cover: the whole free space of their chains, or exactly
      what was asked for. */
  ghost predicate Gathered(spine: seq<Chain>, vs: seq<View>, vecs: seq<Extent>, f: nat, howmuch: nat, exact: bool) {
    && Vectors(spine, vs, vecs, f, false)
    && (|| (exact && Covered(vecs) == howmuch)
        || (Covered(vecs) == SpaceSum(vs, f, f + |vecs|) && Vectors(spine, vs, vecs, f, true)))
    && (exact ==> Covered(vecs) <= howmuch)
  }

  lemma GatherNone(spine: seq<Chain>, vs: seq<View>, f: nat, howmuch: nat, exact: bool)
    requires f <= |spine| == |vs|
    ensures Gathered(spine, vs, [], f, howmuch, exact) && Covered([]) == 0
  {
    SpaceSumEmpty(vs, f);
  }

  lemma GatherMore(spine: seq<Chain>, vs: seq<View>, vecs: seq<Extent>, f: nat, howmuch: nat, exact: bool, n: nat)
    requires Gathered(spine, vs, vecs, f, howmuch, exact) && AllOk(vs) && |vecs| <= n
    requires f <= |vs| && howmuch <= SpaceSum(vs, f, Min(f + n, |vs|))
    ensures Vectors(spine, vs, vecs, f, false) && (exact ==> Covered(vecs) <= howmuch)
    ensures Covered(vecs) < howmuch ==> |vecs| < n && f + |vecs| < |spine|
  {
    hide SpaceSum, Covered;
    SpaceSumMono(vs, f, f + |vecs|, Min(f + n, |vs|));
  }

  lemma GatherNext(spine: seq<Chain>, vs: seq<View>, vecs: seq<Extent>, f: nat, howmuch: nat, exact: bool, e: Extent)
    requires Gathered(spine, vs, vecs, f, howmuch, exact) && Covered(vecs) < howmuch && f + |vecs| < |spine| == |vs|
    requires e.chain == spine[f + |vecs|] && e.start == vs[f + |vecs|].misalign + vs[f + |vecs|].off
    requires e.len == if exact then Min(howmuch - Covered(vecs), vs[f + |vecs|].Space()) else vs[f + |vecs|].Space()
    ensures Gathered(spine, vs, vecs + [e], f, howmuch, exact) && Covered(vecs + [e]) == Covered(vecs) + e.len
  {
    hide SpaceSum, Covered, Vectors;
    ghost var k := f + |vecs|;
    SpaceSumSnoc(vs, f, k);
    ExtendVectors(spine, vs, vecs, f, e, e.len == vs[k].Space());
    WeakenVectors(spine, vs, vecs + [e], f);
  }

  /** Stores bytes in a chain's free space. */
  method StoreIn(buf: Evbuffer, chain: Chain, p: seq<byte>, ghost j: nat)
    requires buf.Valid() && j < |buf.spine| && chain == buf.spine[j]
    requires chain.misalign + chain.off + |p| <= |chain.mem|
    modifies buf`vs, chain`mem
    ensures buf.Valid() && buf.Contents() == old(buf.Contents()) && buf.Steady()
    ensures old(buf.vs)[j].Ok() && |p| <= old(buf.vs)[j].Space()
    ensures buf.vs == old(buf.vs)[j := Stored(old(buf.vs)[j], p)]
  {
    hide Flat, PackedTo, LayoutOk, View.Data, SameData, ChainList, SlotAt, Stored;
    LayoutOkAt(buf.vs, buf.lwd, buf.totalLen, j);
    buf.LinkedAt(j);
    StoredSame(buf.vs, j, p);
    SameDataLayout(buf.vs, buf.vs[j := Stored(buf.vs[j], p)], buf.lwd, buf.totalLen);
    SameDataFlat(buf.vs, buf.vs[j := Stored(buf.vs[j], p)]);
    StoreAt(buf, chain, p, j);
  }

  method StoreAt(buf: Evbuffer, chain: Chain, p: seq<byte>, ghost j: nat)
    requires buf.Linked() && j < |buf.spine| && chain == buf.spine[j] && buf.vs[j].Ok() && |p| <= buf.vs[j].Space()
    modifies buf`vs, chain`mem
    ensures buf.Linked() && buf.vs == old(buf.vs)[j := Stored(old(buf.vs)[j], p)]
  {
    chain.mem := Patch(chain.mem, chain.misalign + chain.off, p);
    buf.vs := buf.vs[j := Stored(buf.vs[j], p)];
  }

  /** What readv does with the vectors: the bytes d go into them in order. */
  method Readv(buf: Evbuffer, vecs: seq<Extent>, d: seq<byte>, ghost f: nat)
    requires buf.Valid() && Vectors(buf.spine, buf.vs, vecs, f, false) && |d| <= Covered(vecs)
    modifies buf`vs, buf.repr`mem
    ensures buf.Valid() && buf.Contents() == old(buf.Contents()) && buf.Steady()
    ensures SameData(old(buf.vs), buf.vs)
    ensures Holds(buf.vs, f, f + |vecs|, d, |d|)
  {
    hide Flat, PackedTo, LayoutOk, View.Data, Holds, SameData, Covered, Stored, Vectors, ChainList, SlotAt;
    var w := 0;
    var i := 0;
    VectorsFit(buf.spine, buf.vs, vecs, f);
    HoldsNone(buf.vs, f, d);
    CoveredNone(vecs);
    SameDataSelf(buf.vs);
    while i < |vecs|
      invariant i <= |vecs| && w == Min(|d|, Covered(vecs[..i]))
      invariant buf.Valid() && buf.Contents() == old(buf.Contents()) && buf.Steady()
      invariant SameData(old(buf.vs), buf.vs) && |buf.vs| == |old(buf.vs)|
      invariant Holds(buf.vs, f, f + i, d, w)
    {
      var e := vecs[i];
      ghost var vs := buf.vs;
      VectorAt(buf.spine, old(buf.vs), vecs, f, i);
      buf.LinkedAt(f + i);
      SameDataAt(old(buf.vs), vs, f + i);
      CoveredStep(vecs, i);
      assert i + 1 == |vecs| ==> vecs[..i + 1] == vecs;
      var x := if |d| - w < e.len then |d| - w else e.len;
      LayoutAllOk(vs, buf.lwd, buf.totalLen);
      FillStep(vs, f, f + i, d, w, x);
      StoreIn(buf, e.chain, d[w..w + x], f + i);
      SameDataTrans(old(buf.vs), vs, buf.vs);
      w, i := w + x, i + 1;
    }
    assert vecs[..i] == vecs;
  }

  lemma VectorAt(spine: seq<Chain>, vs: seq<View>, vecs: seq<Extent>, f: nat, i: nat)
    requires Vectors(spine, vs, vecs, f, false) && i < |vecs|
    ensures f + i < |spine| == |vs| && ExtentOf(vecs[i], spine, vs, f + i, i + 1 < |vecs|)
  {
  }

  lemma CoveredNone(vecs: seq<Extent>)
    ensures Covered(vecs[..0]) == 0
  {
  }

  lemma {:induction false} CoveredStep(vecs: seq<Extent>, i: nat)
    requires i < |vecs|
    ensures Covered(vecs[..i + 1]) == Covered(vecs[..i]) + vecs[i].len
    ensures Covered(vecs[..i + 1]) <= Covered(vecs)
    decreases |vecs| - i
  {
    assert vecs[..i + 1][..i] == vecs[..i];
    if i + 1 < |vecs| {
      CoveredStep(vecs, i + 1);
    } else {
      assert vecs[..i + 1] == vecs;
    }
  }

  /** Counts x of the bytes in chain j's free space as data. */
  method GrowChain(buf: Evbuffer, chain: Chain, x: nat, ghost j: nat)
    requires buf.Linked() && j < |buf.spine| && chain == buf.spine[j]
    modifies buf`vs, chain`off
    ensures buf.Linked() && buf.vs == old(buf.vs)[j := old(buf.vs)[j].(off := old(buf.vs)[j].off + x)]
  {
    assert buf.vs[j] == chain.V();
    chain.off := chain.off + x;
    buf.vs := buf.vs[j := chain.V()];
  }

  /** The commit loop of evbuffer_read: n bytes lie in the free space of nvecs chains from
      firstp on. */
  method CommitRead(buf: Evbuffer, firstp: Slot, nvecs: nat, n: nat, ghost f: nat)
    requires buf.Valid() && buf.lwd < |buf.spine| && f == FirstRoom(buf.vs, buf.lwd)
    requires f + nvecs <= |buf.spine| && firstp == SlotAt(buf.spine, f)
    requires 0 < n <= |FreeBytes(buf.vs, f, f + nvecs)| && Roomy(buf.vs, f, n)
    requires buf.vs[buf.lwd].off == 0 ==> buf.vs[buf.lwd].misalign == 0
    modifies buf, buf.repr`off
    ensures buf.Valid() && buf.Steady() && buf.repr == old(buf.repr)
    ensures buf.Contents() == old(buf.Contents()) + FreeBytes(old(buf.vs), f, f + nvecs)[..n]
  {
    hide Flat, PackedTo, LayoutOk, View.Data, FreeBytes, Committed, Roomy, ChainList, SlotAt;
    var chainp := firstp;
    var remaining := n;
    var i := 0;
    ghost var vs0, lwd0, total := buf.vs, buf.lwd, buf.totalLen;
    CommittedNone(vs0, lwd0, total, f);
    FirstRoomData(vs0, lwd0, total);
    while i < nvecs
      modifies buf`vs, buf.repr`off
      invariant i <= nvecs && buf.Linked() && chainp == SlotAt(buf.spine, f + i)
      invariant |buf.vs| == |vs0|
      invariant Committed(vs0, lwd0, total, buf.vs, f, i)
      invariant 0 < remaining && remaining + |FreeBytes(vs0, f, f + i)| == n
    {
      ghost var j := f + i;
      buf.LinkedAt(j);
      var chain := buf.Deref(chainp);
      CommittedAt(vs0, lwd0, total, buf.vs, f, i);
      NeedsSpace(vs0, lwd0, total, f, j, n);
      var space := |chain.mem| - chain.misalign - chain.off;
      space := if space > CHAIN_MAX then CHAIN_MAX else space;
      if space < remaining {
        CommittedStep(vs0, lwd0, total, buf.vs, f, i);
        GrowChain(buf, chain, space, j);
        remaining := remaining - space;
      } else {
        CommittedLast(vs0, lwd0, total, buf.vs, f, i, remaining, nvecs);
        GrowChain(buf, chain, remaining, j);
        break;
      }
      chainp := NextOf(chain);
      i := i + 1;
    }
    buf.Settle(buf.last, chainp, buf.totalLen + n, f + i);
  }

  const MAX_READ: nat := 4096
  const NUM_READ_IOVEC: nat := 4

  /** How much evbuffer_read asks for, given what the descriptor says is readable. */
  function ReadSize(howmuch: int, readable: int): (n: nat)
    ensures n <= MAX_READ && (0 <= howmuch ==> n <= howmuch)
  {
    var n := if readable <= 0 || readable > MAX_READ then MAX_READ else readable;
    if howmuch < 0 || howmuch > n then n else howmuch
  }

  /** evbuffer_read.  `pending` are the bytes waiting on the descriptor and `got` is what
      readv answers: an error, or how many of them it delivered. */
  method Read(buf: Evbuffer, howmuch: int, readable: int, pending: seq<byte>, got: int, memory: bool)
    returns (result: int)
    requires buf.Valid() && -1 <= got <= |pending| && got <= ReadSize(howmuch, readable)
    modifies buf, buf.repr
    ensures buf.Valid() && buf.Grown()
    ensures if buf.freezeEnd then result == -1 else result == got || (!memory && result == -1)
    ensures buf.Contents() == old(buf.Contents()) + if 0 < result then pending[..result] else []
  {
    hide Flat, PackedTo, LayoutOk, View.Data, FreeBytes, Roomy, SameData, Holds, Vectors, Covered, FirstRoom, Room;
    hide ChainList, SlotAt;
    if buf.freezeEnd {
      return -1;
    }
    var size := ReadSize(howmuch, readable);
    var ok := ExpandFast(buf, size, NUM_READ_IOVEC, memory);
    if !ok {
      return -1;
    }
    var nvecs, vecs, firstp; ghost var f;
    nvecs, vecs, firstp, f := ReadSetupVecs(buf, size, NUM_READ_IOVEC, true);
    if got == -1 {
      return -1;
    }
    ghost var vs := buf.vs;
    Readv(buf, vecs, pending[..got], f);
    if got == 0 {
      return 0;
    }
    VectorsFit(buf.spine, vs, vecs, f);
    SameDataRoom(vs, buf.vs, buf.lwd, f, size, got);
    HoldsAll(buf.vs, f, f + |vecs|, pending[..got]);
    CommitRead(buf, firstp, nvecs, got, f);
    return got;
  }

  lemma VectorsFit(spine: seq<Chain>, vs: seq<View>, vecs: seq<Extent>, f: nat)
    requires Vectors(spine, vs, vecs, f, false)
    ensures f + |vecs| <= |spine| == |vs|
  {
  }
}
