/** The value of a chain list: what an evbuffer's linked chains mean, away from
    the heap.  A `View` is a snapshot of one chain; `Flat` is the byte queue that a
    list of chains stands for; `LayoutOk` is the invariant of the list. */
module ChainView {
  import opened Common

  const CHAIN_MAX: nat := SSIZE_MAX
  const CHAIN_SIZE: nat := 48
  const CHAIN_LIMIT: nat := CHAIN_MAX - CHAIN_SIZE
  const MAX_TO_REALIGN_IN_EXPAND: nat := 2048

  /** A chain's memory, the unused bytes in front of its data, and its data length. */
  datatype View = View(mem: seq<byte>, misalign: nat, off: nat) {
    predicate Ok() {
      0 < |mem| <= CHAIN_LIMIT && misalign + off <= |mem|
    }

    function Data(): seq<byte> {
      if misalign + off <= |mem| then mem[misalign..misalign + off] else []
    }

    /** Free bytes after the data. */
    function Space(): int {
      |mem| - misalign - off
    }

    /** evbuffer_chain_should_realign */
    predicate ShouldRealign(datlen: nat) {
      |mem| - off >= datlen && off < |mem| / 2 && off <= MAX_TO_REALIGN_IN_EXPAND
    }
  }

  /** The bytes held by a list of chains, in order. */
  function Flat(cs: seq<View>): seq<byte> {
    if cs == [] then [] else cs[0].Data() + Flat(cs[1..])
  }

  predicate AllOk(cs: seq<View>) {
    forall i :: 0 <= i < |cs| ==> cs[i].Ok()
  }

  predicate AllEmpty(cs: seq<View>) {
    forall i :: 0 <= i < |cs| ==> cs[i].off == 0
  }

  /** `lwd` is the last chain with data, or the first chain if none has any, or 0
      in a list without chains. */
  predicate LastWithData(cs: seq<View>, lwd: nat) {
    && (cs == [] ==> lwd == 0)
    && (cs != [] ==> lwd < |cs|)
    && (forall i :: lwd < i < |cs| ==> cs[i].off == 0)
    && (0 < lwd < |cs| ==> 0 < cs[lwd].off)
  }

  /** No empty chain stands before the last chain with data. */
  predicate PackedTo(cs: seq<View>, lwd: nat) {
    forall i :: 0 <= i < lwd && i < |cs| ==> 0 < cs[i].off
  }

  /** The invariant every evbuffer operation keeps. */
  predicate LayoutOk(cs: seq<View>, lwd: nat, total: nat) {
    AllOk(cs) && LastWithData(cs, lwd) && total == |Flat(cs)|
  }

  lemma LayoutBounds(cs: seq<View>, lwd: nat, total: nat)
    requires LayoutOk(cs, lwd, total)
    ensures lwd < |cs| || (cs == [] && lwd == 0)
    ensures Kept(cs, lwd) <= |cs| && (Kept(cs, lwd) == 0 ==> lwd == 0)
    ensures (0 < Kept(cs, lwd) ==> Kept(cs, lwd) == lwd + 1)
  {
  }

  lemma LayoutAllOk(cs: seq<View>, lwd: nat, total: nat)
    requires LayoutOk(cs, lwd, total)
    ensures Kept(cs, lwd) <= |cs| && AllOk(cs) && AllOk(cs[..Kept(cs, lwd)])
  {
  }

  lemma LayoutSize(cs: seq<View>, lwd: nat, total: nat)
    requires LayoutOk(cs, lwd, total)
    ensures |Flat(cs)| == total && (total == 0 ==> Flat(cs) == []) && (0 < total ==> lwd < |cs|)
    ensures Kept(cs, lwd) <= |cs|
  {
  }

  lemma FullyPacked(cs: seq<View>, lwd: nat, total: nat)
    requires LayoutOk(cs, lwd, total) && 0 < total
    ensures lwd < |cs| && (PackedTo(cs, lwd) && lwd + 1 == |cs| ==> PackedTo(cs, |cs|))
  {
    FlatZero(cs);
    assert cs[lwd].off == 0 ==> AllEmpty(cs);
  }

  lemma LayoutOkAt(cs: seq<View>, lwd: nat, total: nat, i: nat)
    requires LayoutOk(cs, lwd, total) && i < |cs|
    ensures cs[i].Ok()
    ensures lwd < |cs| && (0 < cs[i].off ==> i <= lwd && 0 < cs[lwd].off)
  {
  }

  lemma {:induction false} FlatAppend(a: seq<View>, b: seq<View>)
    ensures Flat(a + b) == Flat(a) + Flat(b)
  {
    if a == [] {
      assert a + b == b;
    } else {
      assert (a + b)[1..] == a[1..] + b;
      FlatAppend(a[1..], b);
    }
  }

  lemma {:induction false} FlatEmpty(cs: seq<View>)
    requires AllEmpty(cs)
    ensures Flat(cs) == []
  {
    if cs != [] {
      FlatEmpty(cs[1..]);
    }
  }

  lemma {:induction false} FlatOne(v: View)
    ensures Flat([v]) == v.Data()
  {
    assert Flat([v]) == v.Data() + Flat([]);
  }

  /** The bytes around chain k. */
  lemma {:induction false} FlatSplit(cs: seq<View>, k: nat)
    requires k < |cs|
    ensures Flat(cs) == Flat(cs[..k]) + cs[k].Data() + Flat(cs[k + 1..])
  {
    hide Flat;
    FlatCut(cs, k);
    FlatHead(cs, k);
    Regroup(Flat(cs[..k]), cs[k].Data(), Flat(cs[k + 1..]));
  }

  lemma {:induction false} Regroup(a: seq<byte>, b: seq<byte>, c: seq<byte>)
    ensures a + b + c == a + (b + c)
    ensures a == [] ==> a + b + c == b + c
    ensures c == [] ==> a + b + c == a + b
  {
  }

  /** Replacing chain k changes only its own bytes. */
  lemma {:induction false} FlatUpdate(cs: seq<View>, k: nat, v: View)
    requires k < |cs|
    ensures Flat(cs[k := v]) == Flat(cs[..k]) + v.Data() + Flat(cs[k + 1..])
  {
    var ds := cs[k := v];
    FlatSplit(ds, k);
    assert ds[..k] == cs[..k] && ds[k + 1..] == cs[k + 1..];
  }

  /** Cutting the list anywhere cuts the bytes. */
  lemma {:induction false} FlatCut(cs: seq<View>, k: nat)
    requires k <= |cs|
    ensures Flat(cs) == Flat(cs[..k]) + Flat(cs[k..])
  {
    assert cs == cs[..k] + cs[k..];
    FlatAppend(cs[..k], cs[k..]);
  }

  /** Chains after the last one with data hold nothing. */
  lemma {:induction false} FlatUpTo(cs: seq<View>, k: nat)
    requires k <= |cs| && AllEmpty(cs[k..])
    ensures Flat(cs) == Flat(cs[..k])
  {
    FlatCut(cs, k);
    FlatEmpty(cs[k..]);
  }

  /** A list is without bytes exactly when each of its chains is. */
  lemma {:induction false} FlatZero(cs: seq<View>)
    requires AllOk(cs)
    ensures |Flat(cs)| == 0 <==> AllEmpty(cs)
  {
    if AllEmpty(cs) {
      FlatEmpty(cs);
    } else if k :| 0 <= k < |cs| && cs[k].off != 0 {
      FlatSplit(cs, k);
    }
  }

  /** The last chain with data is determined by the chains. */
  lemma {:induction false} LastWithDataUnique(cs: seq<View>, m: nat, n: nat)
    requires LastWithData(cs, m) && LastWithData(cs, n)
    ensures m == n
  {
  }

  /** `mem` with `data` stored at position p: what memcpy leaves behind. */
  function Patch(mem: seq<byte>, p: nat, data: seq<byte>): (r: seq<byte>)
    requires p + |data| <= |mem|
    ensures |r| == |mem|
    ensures r[..p] == mem[..p] && r[p..p + |data|] == data && r[p + |data|..] == mem[p + |data|..]
  {
    mem[..p] + data + mem[p + |data|..]
  }

  /** Storing right after a chain's data extends the data. */
  lemma {:induction false} PatchAfter(v: View, d: seq<byte>)
    requires v.Ok() && |d| <= v.Space()
    ensures v.(mem := Patch(v.mem, v.misalign + v.off, d), off := v.off + |d|).Data() == v.Data() + d
  {
  }

  /** Storing right before a chain's data extends it at the front. */
  lemma {:induction false} PatchBefore(v: View, d: seq<byte>)
    requires v.Ok() && |d| <= v.misalign
    ensures var w := View(Patch(v.mem, v.misalign - |d|, d), v.misalign - |d|, v.off + |d|);
            w.Ok() && w.Data() == d + v.Data()
  {
    var at := v.misalign - |d|;
    var mem := Patch(v.mem, at, d);
    assert mem[at..at + |d|] == d;
    assert mem[v.misalign..v.misalign + v.off] == v.Data();
    assert mem[at..at + (v.off + |d|)] == mem[at..at + |d|] + mem[at + |d|..at + |d| + v.off];
  }

  /** The chains that survive when the empty ones at the end are freed. */
  function Kept(vs: seq<View>, lwd: nat): nat {
    if lwd < |vs| && 0 < vs[lwd].off then lwd + 1 else 0
  }

  lemma {:induction false} KeptFlat(vs: seq<View>, lwd: nat, total: nat)
    requires LayoutOk(vs, lwd, total)
    ensures Kept(vs, lwd) <= |vs| && Flat(vs[..Kept(vs, lwd)]) == Flat(vs)
    ensures PackedTo(vs, lwd) ==> PackedTo(vs[..Kept(vs, lwd)], Kept(vs, lwd))
  {
    hide Flat;
    FlatUpTo(vs, Kept(vs, lwd));
  }

  /** Growing the last chain with data appends. */
  lemma {:induction false} GrowLast(vs: seq<View>, lwd: nat, total: nat, w: View, d: seq<byte>)
    requires LayoutOk(vs, lwd, total) && lwd < |vs|
    requires w.Ok() && w.Data() == vs[lwd].Data() + d
    ensures Flat(vs[lwd := w]) == Flat(vs) + d
    ensures LayoutOk(vs[lwd := w], lwd, total + |d|)
    ensures PackedTo(vs, lwd) ==> PackedTo(vs[lwd := w], lwd)
  {
    hide Flat;
    FlatUpdate(vs, lwd, w);
    FlatSplit(vs, lwd);
    FlatEmpty(vs[lwd + 1..]);
  }

  /** Growing the first chain at its front prepends. */
  lemma {:induction false} GrowFirst(vs: seq<View>, lwd: nat, total: nat, w: View, d: seq<byte>)
    requires LayoutOk(vs, lwd, total) && 0 < |vs|
    requires w.Ok() && w.Data() == d + vs[0].Data()
    ensures Flat(vs[0 := w]) == d + Flat(vs)
    ensures LayoutOk(vs[0 := w], lwd, total + |d|)
    ensures PackedTo(vs, lwd) ==> PackedTo(vs[0 := w], lwd)
  {
    hide Flat, View.Data;
    FlatUpdate(vs, 0, w);
    FlatSplit(vs, 0);
    FlatEmpty(vs[..0]);
    Regroup([], w.Data(), Flat(vs[1..]));
    Regroup([], vs[0].Data(), Flat(vs[1..]));
    Regroup(d, vs[0].Data(), Flat(vs[1..]));
    DataSize(w);
    DataSize(vs[0]);
    FirstKept(vs, lwd, w, w.off - vs[0].off);
  }

  /** A first chain that has not lost data changes nothing about the places. */
  lemma {:induction false} FirstKept(vs: seq<View>, lwd: nat, w: View, more: int)
    requires LastWithData(vs, lwd) && AllOk(vs) && 0 < |vs| && w.Ok() && w.off == vs[0].off + more && 0 <= more
    ensures LastWithData(vs[0 := w], lwd) && AllOk(vs[0 := w])
    ensures PackedTo(vs, lwd) ==> PackedTo(vs[0 := w], lwd)
  {
  }

  /** Appending a chain in place of the empty ones at the end. */
  lemma {:induction false} InsertLast(vs: seq<View>, lwd: nat, total: nat, v: View)
    requires LayoutOk(vs, lwd, total) && v.Ok()
    ensures var k := Kept(vs, lwd);
            k <= |vs| &&
            Flat(vs[..k] + [v]) == Flat(vs) + v.Data() &&
            LayoutOk(vs[..k] + [v], if 0 < v.off then k else lwd, total + v.off) &&
            (PackedTo(vs, lwd) ==> PackedTo(vs[..k] + [v], if 0 < v.off then k else lwd))
  {
    hide Flat, View.Data, PackedTo;
    var k := Kept(vs, lwd);
    KeptFlat(vs, lwd, total);
    FlatAppend(vs[..k], [v]);
    FlatOne(v);
    DataSize(v);
    LastPlaced(vs, lwd, v);
  }

  lemma {:induction false} DataSize(v: View)
    requires v.Ok()
    ensures |v.Data()| == v.off
  {
  }

  lemma {:induction false} LastPlaced(vs: seq<View>, lwd: nat, v: View)
    requires AllOk(vs) && LastWithData(vs, lwd) && v.Ok()
    ensures var k := Kept(vs, lwd);
            var l := if 0 < v.off then k else lwd;
            k <= |vs| && AllOk(vs[..k] + [v]) && LastWithData(vs[..k] + [v], l)
            && (PackedTo(vs, lwd) ==> PackedTo(vs[..k] + [v], l))
  {
  }

  lemma {:induction false} ConcatSplit(a: seq<byte>, d: seq<byte>, k: nat)
    requires k <= |d|
    ensures a + d[..k] + d[k..] == a + d
  {
  }

  lemma {:induction false} ConcatBack(d: seq<byte>, m: nat, a: seq<byte>)
    requires m <= |d|
    ensures d[..|d| - m] + (d[|d| - m..] + a) == d + a
    ensures m == 0 ==> d[|d| - m..] + a == a
  {
  }

  lemma {:induction false} TwoCuts(c: seq<byte>, n: nat, m: nat)
    requires n + m <= |c|
    ensures c[n..][m..] == c[n + m..] && c[..n] + c[n..][..m] == c[..n + m]
  {
  }

  /** A chain put in front of a list that holds data. */
  lemma {:induction false} PushFirst(vs: seq<View>, lwd: nat, total: nat, v: View)
    requires LayoutOk(vs, lwd, total) && lwd < |vs| && 0 < vs[lwd].off && v.Ok()
    ensures Flat([v] + vs) == v.Data() + Flat(vs)
    ensures LayoutOk([v] + vs, lwd + 1, total + v.off)
    ensures PackedTo(vs, lwd) && 0 < v.off ==> PackedTo([v] + vs, lwd + 1)
  {
    assert ([v] + vs)[1..] == vs;
    assert forall i :: lwd + 1 < i < |[v] + vs| ==> ([v] + vs)[i] == vs[i - 1];
  }

  lemma {:induction false} FlatSnoc(vs: seq<View>, i: nat)
    requires i < |vs|
    ensures Flat(vs[..i + 1]) == Flat(vs[..i]) + vs[i].Data()
  {
    assert vs[..i + 1] == vs[..i] + [vs[i]];
    FlatAppend(vs[..i], [vs[i]]);
    FlatOne(vs[i]);
  }

  lemma {:induction false} FlatHead(vs: seq<View>, i: nat)
    requires i < |vs|
    ensures Flat(vs[i..]) == vs[i].Data() + Flat(vs[i + 1..])
  {
    assert vs[i..][1..] == vs[i + 1..];
  }

  /** From the last chain with data on, the list holds that chain's bytes. */
  lemma {:induction false} FlatTail(vs: seq<View>, lwd: nat, total: nat)
    requires LayoutOk(vs, lwd, total) && lwd < |vs|
    ensures Flat(vs[lwd..]) == vs[lwd].Data()
  {
    FlatHead(vs, lwd);
    FlatEmpty(vs[lwd + 1..]);
  }

  /** Fewer bytes than there are never reach past the last chain with data. */
  lemma {:induction false} BeforeLast(vs: seq<View>, lwd: nat, total: nat, i: nat, n: nat)
    requires LayoutOk(vs, lwd, total) && i <= lwd < |vs| && n < total
    requires |Flat(vs[..i])| + vs[i].off <= n
    ensures i < lwd && |Flat(vs[..i + 1])| == |Flat(vs[..i])| + vs[i].off
  {
    hide Flat;
    FlatSnoc(vs, i);
    FlatUpTo(vs, lwd + 1);
  }

  /** Dropping i chains and r bytes of the next one drops that prefix of the bytes. */
  lemma {:induction false} DropFirst(vs: seq<View>, lwd: nat, total: nat, i: nat, r: nat)
    requires LayoutOk(vs, lwd, total) && i <= lwd < |vs| && r < vs[i].off
    ensures var w := vs[i].(misalign := vs[i].misalign + r, off := vs[i].off - r);
            var n := |Flat(vs[..i])| + r;
            n <= total && w.Ok() &&
            Flat([w] + vs[i + 1..]) == Flat(vs)[n..] &&
            LayoutOk([w] + vs[i + 1..], lwd - i, total - n) &&
            (PackedTo(vs, lwd) ==> PackedTo([w] + vs[i + 1..], lwd - i))
  {
    hide Flat;
    var w := vs[i].(misalign := vs[i].misalign + r, off := vs[i].off - r);
    FlatSplit(vs, i);
    assert w.Data() == vs[i].Data()[r..];
    FlatAppend([w], vs[i + 1..]);
    FlatOne(w);
  }

  /** Where chain k's bytes lie in the whole. */
  lemma {:induction false} FlatWindow(vs: seq<View>, k: nat)
    requires k < |vs| && vs[k].Ok()
    ensures var n := |Flat(vs[..k])|;
            n + vs[k].off <= |Flat(vs)| && Flat(vs)[n..n + vs[k].off] == vs[k].Data()
            && |Flat(vs[..k + 1])| == n + vs[k].off
  {
    hide Flat;
    FlatSplit(vs, k);
    FlatSnoc(vs, k);
  }

  /** Bytes a..b of chain k, as bytes of the whole. */
  lemma {:induction false} FlatPart(vs: seq<View>, k: nat, a: nat, b: nat)
    requires k < |vs| && vs[k].Ok() && a <= b <= vs[k].off
    ensures var n := |Flat(vs[..k])|;
            n + b <= |Flat(vs)| &&
            Flat(vs)[n + a..n + b] == vs[k].mem[vs[k].misalign + a..vs[k].misalign + b]
  {
    hide Flat;
    FlatWindow(vs, k);
    var n := |Flat(vs[..k])|;
    SubSlice(Flat(vs), n, n + vs[k].off, a, b);
    SubSlice(vs[k].mem, vs[k].misalign, vs[k].misalign + vs[k].off, a, b);
  }

  lemma {:induction false} SubSlice(s: seq<byte>, n: nat, m: nat, a: nat, b: nat)
    requires n <= m <= |s| && a <= b <= m - n
    ensures s[n..m][a..b] == s[n + a..n + b]
  {
    forall i | 0 <= i < b - a
      ensures s[n..m][a..b][i] == s[n + a..n + b][i]
    {
    }
  }

  lemma {:induction false} SliceJoin(s: seq<byte>, a: nat, b: nat, c: nat)
    requires a <= b <= c <= |s|
    ensures s[a..b] + s[b..c] == s[a..c]
  {
  }

  lemma {:induction false} WholePrefix(vs: seq<View>, k: nat)
    requires k <= |vs|
    ensures k == |vs| ==> Flat(vs[..k]) == Flat(vs)
  {
    if k == |vs| {
      assert vs[..k] == vs;
    }
  }

  /** Two lists put together, the second one holding data. */
  lemma {:induction false} JoinLists(a: seq<View>, an: nat, b: seq<View>, lwd: nat, bn: nat)
    requires AllOk(a) && an == |Flat(a)| && LayoutOk(b, lwd, bn) && 0 < bn
    ensures Flat(a + b) == Flat(a) + Flat(b) && LayoutOk(a + b, |a| + lwd, an + bn)
    ensures PackedTo(a + b, |a| + lwd) <==> PackedTo(a, |a|) && PackedTo(b, lwd)
  {
    hide Flat;
    FlatAppend(a, b);
    FlatZero(b);
    var c := a + b;
    assert forall i :: |a| <= i < |c| ==> c[i] == b[i - |a|];
    assert forall i :: 0 <= i < |a| ==> c[i] == a[i];
    assert forall i :: 0 <= i < |b| ==> c[|a| + i] == b[i];
    assert b[lwd].off == 0 ==> AllEmpty(b);
  }

  /** The same with the empty chains at the end of the first list gone. */
  lemma {:induction false} JoinKept(vs: seq<View>, lwd: nat, total: nat, b: seq<View>, blwd: nat, bn: nat)
    requires LayoutOk(vs, lwd, total) && LayoutOk(b, blwd, bn) && 0 < bn
    ensures var k := Kept(vs, lwd);
            && k <= |vs| && blwd < |b| && Flat(vs[..k] + b) == Flat(vs) + Flat(b)
            && LayoutOk(vs[..k] + b, k + blwd, total + bn)
            && (PackedTo(vs, lwd) && PackedTo(b, blwd) ==> PackedTo(vs[..k] + b, k + blwd))
  {
    hide Flat, PackedTo, LayoutOk;
    var k := Kept(vs, lwd);
    KeptFlat(vs, lwd, total);
    LayoutAllOk(vs, lwd, total);
    LayoutSize(vs, lwd, total);
    LayoutSize(b, blwd, bn);
    JoinLists(vs[..k], total, b, blwd, bn);
  }

  /** The chains left when a pullup has taken j whole chains of `rest` and r bytes of the
      next one into the chain t. */
  function PulledUp(t: View, rest: seq<View>, j: nat, r: nat): (cs: seq<View>)
    requires j <= |rest| && (j < |rest| ==> r <= rest[j].off)
    ensures |cs| == 1 + |rest| - j && cs[0] == t
  {
    if j == |rest| then [t]
    else [t, rest[j].(misalign := rest[j].misalign + r, off := rest[j].off - r)] + rest[j + 1..]
  }

  /** Pulling bytes up into one chain t moves them but changes none; `last` is the place
      of the last chain with data within `rest`. */
  lemma {:induction false} PullUp(base: seq<byte>, rest: seq<View>, last: nat, t: View, j: nat, r: nat)
    requires AllOk(rest) && last < |rest| && 0 < rest[last].off && AllEmpty(rest[last + 1..])
    requires j <= |rest| && (if j < |rest| then r < rest[j].off else r == 0)
    requires t.Ok() && 0 < t.off == |base| + |Flat(rest[..j])| + r
    requires Received(t.mem, t.misalign, t.misalign + t.off, base, rest)
    ensures var cs := PulledUp(t, rest, j, r);
            Flat(cs) == base + Flat(rest) &&
            LayoutOk(cs, if last < j then 0 else last - j + 1, |base + Flat(rest)|)
  {
    hide Flat, View.Data, Received;
    PullUpBytes(base, rest, t, j, r);
    PullUpPlaces(rest, last, t, j, r);
  }

  lemma {:induction false} PullUpBytes(base: seq<byte>, rest: seq<View>, t: View, j: nat, r: nat)
    requires AllOk(rest) && j <= |rest| && (if j < |rest| then r < rest[j].off else r == 0)
    requires t.Ok() && t.off == |base| + |Flat(rest[..j])| + r
    requires Received(t.mem, t.misalign, t.misalign + t.off, base, rest)
    ensures Flat(PulledUp(t, rest, j, r)) == base + Flat(rest)
  {
    hide Flat, View.Data, Received, PulledUp;
    FlatOne(t);
    ReceivedData(base, rest, t);
    PulledParts(t, rest, j, r);
    if j < |rest| {
      var w := rest[j].(misalign := rest[j].misalign + r, off := rest[j].off - r);
      FlatAppend([t], [w] + rest[j + 1..]);
      FlatFront(w, rest[j + 1..]);
      CutData(rest[j], r);
      FlatSplit(rest, j);
      CutInside(base, Flat(rest[..j]), rest[j].Data(), Flat(rest[j + 1..]), r);
    } else {
      assert rest[..j] == rest;
      TakeAll(base + Flat(rest));
    }
  }

  lemma {:induction false} PulledParts(t: View, rest: seq<View>, j: nat, r: nat)
    requires j <= |rest| && (j < |rest| ==> r <= rest[j].off)
    ensures j == |rest| ==> PulledUp(t, rest, j, r) == [t]
    ensures j < |rest| ==>
      var w := rest[j].(misalign := rest[j].misalign + r, off := rest[j].off - r);
      PulledUp(t, rest, j, r) == [t] + ([w] + rest[j + 1..])
  {
  }

  lemma {:induction false} FlatFront(v: View, cs: seq<View>)
    ensures Flat([v] + cs) == v.Data() + Flat(cs)
  {
    assert ([v] + cs)[1..] == cs;
  }

  lemma {:induction false} TakeAll(s: seq<byte>)
    ensures s[..|s|] == s
  {
  }

  /** The chain that received the bytes holds the first of them. */
  lemma {:induction false} ReceivedData(base: seq<byte>, rest: seq<View>, t: View)
    requires t.Ok() && Received(t.mem, t.misalign, t.misalign + t.off, base, rest)
    ensures t.off <= |base + Flat(rest)| && t.Data() == (base + Flat(rest))[..t.off]
  {
    hide Flat;
  }

  lemma {:induction false} CutData(v: View, r: nat)
    requires v.Ok() && r <= v.off
    ensures |v.Data()| == v.off && v.(misalign := v.misalign + r, off := v.off - r).Data() == v.Data()[r..]
  {
  }

  lemma {:induction false} CutInside(a: seq<byte>, b: seq<byte>, c: seq<byte>, d: seq<byte>, r: nat)
    requires r <= |c|
    ensures (a + (b + c + d))[..|a| + |b| + r] + (c[r..] + d) == a + (b + c + d)
  {
    assert (a + (b + c + d))[..|a| + |b| + r] == a + b + c[..r];
    assert c == c[..r] + c[r..];
  }

  lemma {:induction false} PullUpPlaces(rest: seq<View>, last: nat, t: View, j: nat, r: nat)
    requires AllOk(rest) && last < |rest| && 0 < rest[last].off && AllEmpty(rest[last + 1..]) && t.Ok() && 0 < t.off
    requires j <= |rest| && (if j < |rest| then r < rest[j].off else r == 0)
    ensures var cs := PulledUp(t, rest, j, r);
            AllOk(cs) && LastWithData(cs, if last < j then 0 else last - j + 1)
  {
    var cs := PulledUp(t, rest, j, r);
    assert forall i :: 2 <= i < |cs| ==> cs[i] == rest[j + i - 1];
    assert forall i :: last < i < |rest| ==> rest[i] == rest[last + 1..][i - last - 1];
  }

  lemma {:induction false} PullUpPacked(rest: seq<View>, last: nat, t: View, j: nat, r: nat)
    requires j <= |rest| && last < |rest| && 0 < rest[last].off && (j < |rest| ==> r < rest[j].off)
    requires 0 < t.off && PackedTo(rest, last)
    ensures PackedTo(PulledUp(t, rest, j, r), if last < j then 0 else last - j + 1)
  {
  }

  /** One step of copying `rest` behind `base`: the copy so far, grown by b bytes of
      chain j. */
  lemma {:induction false} CopyStep(base: seq<byte>, rest: seq<View>, j: nat, b: nat)
    requires j < |rest| && rest[j].Ok() && b <= rest[j].off
    ensures var n := |base| + |Flat(rest[..j])|;
            var all := base + Flat(rest);
            n + b <= |all| && all[..n] + rest[j].Data()[..b] == all[..n + b]
    ensures |Flat(rest[..j + 1])| == |Flat(rest[..j])| + rest[j].off
  {
    hide Flat;
    FlatSplit(rest, j);
    FlatSnoc(rest, j);
  }

  /** From m to p, the memory holds the first bytes of `base` followed by `rest`. */
  ghost predicate Received(mem: seq<byte>, m: nat, p: nat, base: seq<byte>, rest: seq<View>) {
    && m <= p <= |mem| && p - m <= |base + Flat(rest)|
    && mem[m..p] == (base + Flat(rest))[..p - m]
  }

  /** The same step on the memory that is copied into, from m on. */
  lemma {:induction false} CopyInto(mem: seq<byte>, m: nat, p: nat,
                                    base: seq<byte>, rest: seq<View>, j: nat, b: nat)
    requires j < |rest| && rest[j].Ok() && b <= rest[j].off && p + b <= |mem|
    requires Received(mem, m, p, base, rest) && p - m == |base| + |Flat(rest[..j])|
    ensures |Flat(rest[..j + 1])| == |Flat(rest[..j])| + rest[j].off
    ensures Received(Patch(mem, p, rest[j].mem[rest[j].misalign..rest[j].misalign + b]), m, p + b, base, rest)
  {
    hide Flat;
    var d := rest[j].mem[rest[j].misalign..rest[j].misalign + b];
    CopyStep(base, rest, j, b);
    SubSlice(rest[j].mem, rest[j].misalign, rest[j].misalign + rest[j].off, 0, b);
    PatchWindow(mem, m, p, d);
  }

  lemma PatchWindow(mem: seq<byte>, m: nat, p: nat, d: seq<byte>)
    requires m <= p && p + |d| <= |mem|
    ensures Patch(mem, p, d)[m..p + |d|] == mem[m..p] + d
  {
  }

  lemma ReceivedBase(mem: seq<byte>, m: nat, p: nat, base: seq<byte>, rest: seq<View>)
    requires m <= p <= |mem| && mem[m..p] == base
    ensures Received(mem, m, p, base, rest)
  {
  }

  /** What evbuffer_pullup knows once the first chain alone is too short. */
  lemma {:induction false} NeedsMore(vs: seq<View>, lwd: nat, total: nat, n: nat)
    requires LayoutOk(vs, lwd, total) && vs != [] && vs[0].off < n <= total
    ensures 1 <= lwd < |vs| && 0 < vs[lwd].off && AllEmpty(vs[lwd + 1..]) && AllEmpty(vs[1..][lwd..])
    ensures AllOk(vs) && AllOk(vs[1..]) && vs[0].Ok() && (PackedTo(vs, lwd) ==> PackedTo(vs[1..], lwd - 1))
    ensures Flat(vs) == vs[0].Data() + Flat(vs[1..]) && n - vs[0].off <= |Flat(vs[1..])|
  {
    FlatTail(vs, lwd, total);
    FlatCut(vs, 0);
    assert vs[0..] == vs;
  }

  lemma {:induction false} FirstBytes(vs: seq<View>, n: nat)
    requires vs != [] && vs[0].Ok() && n <= vs[0].off
    ensures n <= |Flat(vs)| && vs[0].mem[vs[0].misalign..vs[0].misalign + n] == Flat(vs)[..n]
  {
    FlatEmpty(vs[..0]);
    FlatPart(vs, 0, 0, n);
  }

  /** Where advance_last_with_data stops when it starts at chain i. */
  function AdvanceFrom(vs: seq<View>, i: nat): (a: nat)
    requires i < |vs|
    ensures i <= a < |vs|
    decreases |vs| - i
  {
    if i + 1 < |vs| && vs[i + 1].off != 0 then AdvanceFrom(vs, i + 1) else i
  }

  /** No empty chain lies between chain i and a later chain with data. */
  predicate NoGapAfter(vs: seq<View>, i: nat) {
    forall a, b :: i < a < b < |vs| && vs[b].off != 0 ==> vs[a].off != 0
  }

  /** advance_last_with_data finds the last chain with data exactly when there is no gap. */
  lemma {:induction false} AdvanceFindsLast(vs: seq<View>, i: nat)
    requires i < |vs| && (i == 0 || vs[i].off != 0)
    ensures LastWithData(vs, AdvanceFrom(vs, i)) <==> NoGapAfter(vs, i)
    decreases |vs| - i
  {
    if i + 1 < |vs| && vs[i + 1].off != 0 {
      AdvanceFindsLast(vs, i + 1);
      assert NoGapAfter(vs, i) <==> NoGapAfter(vs, i + 1);
    } else if i + 1 < |vs| && NoGapAfter(vs, i) {
      forall j | i < j < |vs|
        ensures vs[j].off == 0
      {
      }
    } else if LastWithData(vs, i) {
      assert NoGapAfter(vs, i);
    }
  }

  lemma {:induction false} AdvancePacked(vs: seq<View>, i: nat)
    requires i < |vs| && PackedTo(vs, i) && (i == 0 || 0 < vs[i].off)
    ensures 0 < vs[i].off || AdvanceFrom(vs, i) == i ==> PackedTo(vs, AdvanceFrom(vs, i))
    decreases |vs| - i
  {
    if i + 1 < |vs| && vs[i + 1].off != 0 && 0 < vs[i].off {
      AdvancePacked(vs, i + 1);
    }
  }

  /** How many chains evbuffer_remove_buffer takes whole when asked for n bytes. */
  function WholeChains(vs: seq<View>, n: nat): (k: nat)
    ensures k <= |vs|
  {
    if vs == [] || n < vs[0].off then 0 else 1 + WholeChains(vs[1..], n - vs[0].off)
  }

  /** What evbuffer_remove_buffer needs of the two layouts to keep the invariant when it
      takes n bytes: the chains it moves leave no gap behind the data already there, and if
      it moves none, the empty chains it passed do not reach up to the last one with data. */
  predicate Movable(vs: seq<View>, lwd: nat, dvs: seq<View>, dlwd: nat, n: nat) {
    var k := WholeChains(vs, n);
    var d := Kept(dvs, dlwd);
    if AllEmpty(vs[..k]) then k == 0 || k < lwd
    else d <= |dvs| && NoGapAfter(dvs[..d] + vs[..k], dlwd)
  }

  /** One more chain taken whole. */
  lemma {:induction false} WholeStep(vs: seq<View>, i: nat, n: nat)
    requires i < |vs| && vs[i].off <= n
    ensures WholeChains(vs[i..], n) == 1 + WholeChains(vs[i + 1..], n - vs[i].off)
  {
    assert vs[i..][1..] == vs[i + 1..];
  }

  lemma {:induction false} WholeStop(vs: seq<View>, i: nat, n: nat)
    requires i < |vs| && n < vs[i].off
    ensures WholeChains(vs[i..], n) == 0
  {
  }

  /** Dropping r bytes of chain x, before which there are none. */
  lemma {:induction false} DropAt(vs: seq<View>, lwd: nat, total: nat, x: nat, r: nat)
    requires LayoutOk(vs, lwd, total) && x < |vs| && |Flat(vs[..x])| == 0 && r < vs[x].off
    ensures var w := vs[x].(misalign := vs[x].misalign + r, off := vs[x].off - r);
            r <= total && Flat(vs[x := w]) == Flat(vs)[r..] && LayoutOk(vs[x := w], lwd, total - r)
            && (PackedTo(vs, lwd) ==> PackedTo(vs[x := w], lwd))
            && vs[x].mem[vs[x].misalign..vs[x].misalign + r] == Flat(vs)[..r]
  {
    hide Flat;
    var w := vs[x].(misalign := vs[x].misalign + r, off := vs[x].off - r);
    assert w.Data() == vs[x].Data()[r..];
    FlatSplit(vs, x);
    FlatUpdate(vs, x, w);
    FlatPart(vs, x, 0, r);
  }

  /** The list with its first k chains gone, none of them the last one with data. */
  lemma {:induction false} DropWhole(vs: seq<View>, lwd: nat, total: nat, k: nat)
    requires LayoutOk(vs, lwd, total) && k <= lwd < |vs| && 0 < vs[lwd].off
    ensures |Flat(vs[..k])| <= total && Flat(vs) == Flat(vs[..k]) + Flat(vs[k..])
    ensures LayoutOk(vs[k..], lwd - k, total - |Flat(vs[..k])|) && AllOk(vs[..k])
    ensures PackedTo(vs, lwd) ==> PackedTo(vs[k..], lwd - k) && PackedTo(vs[..k], k)
  {
    hide Flat;
    FlatCut(vs, k);
    assert vs[k..][lwd - k] == vs[lwd];
  }

  /** Chains m moved behind a list, and the last chain with data sought from where it was:
      the invariant holds again exactly when the move leaves no gap. */
  lemma {:induction false} MoveLayout(dvs: seq<View>, dlwd: nat, dtotal: nat, m: seq<View>)
    requires LayoutOk(dvs, dlwd, dtotal) && AllOk(m) && 0 < |m|
    ensures var d := Kept(dvs, dlwd);
            d <= |dvs| && dlwd < d + |m| &&
            var all := dvs[..d] + m;
            Flat(all) == Flat(dvs) + Flat(m) &&
            (LayoutOk(all, AdvanceFrom(all, dlwd), dtotal + |Flat(m)|) <==> NoGapAfter(all, dlwd)) &&
            (PackedTo(dvs, dlwd) && PackedTo(m, |m|) ==> PackedTo(all, AdvanceFrom(all, dlwd))) &&
            (NoGapAfter(all, dlwd) && PackedTo(m, |m|) ==> |all| == AdvanceFrom(all, dlwd) + 1)
  {
    hide Flat;
    var d := Kept(dvs, dlwd);
    var all := dvs[..d] + m;
    assert all[|all| - 1] == m[|m| - 1];
    KeptFlat(dvs, dlwd, dtotal);
    FlatAppend(dvs[..d], m);
    AdvanceFindsLast(all, dlwd);
    if PackedTo(dvs, dlwd) && PackedTo(m, |m|) {
      AdvancePacked(all, dlwd);
    }
  }

  lemma {:induction false} WholeSum(vs: seq<View>, n: nat)
    requires AllOk(vs)
    ensures |Flat(vs[..WholeChains(vs, n)])| <= n
  {
    if vs != [] && vs[0].off <= n {
      var k := WholeChains(vs, n);
      WholeSum(vs[1..], n - vs[0].off);
      assert vs[..k][1..] == vs[1..][..k - 1];
    }
  }

  /** The chains taken whole never include the last one with data. */
  lemma {:induction false} WholeBelow(vs: seq<View>, lwd: nat, total: nat, n: nat)
    requires LayoutOk(vs, lwd, total) && n < total
    ensures WholeChains(vs, n) <= lwd < |vs|
  {
    var k := WholeChains(vs, n);
    WholeSum(vs, n);
    if lwd < k {
      FlatUpTo(vs, k);
    }
  }

  /** `Movable` is exact: evbuffer_remove_buffer leaves both cached slots pointing at the
      last chain with data if and only if it holds. */
  lemma {:induction false} MovableExact(vs: seq<View>, lwd: nat, total: nat,
                                        dvs: seq<View>, dlwd: nat, dtotal: nat, n: nat)
    requires LayoutOk(vs, lwd, total) && LayoutOk(dvs, dlwd, dtotal) && n < total
    ensures var k := WholeChains(vs, n);
            var d := Kept(dvs, dlwd);
            d <= |dvs| && k <= |vs| &&
            var all := dvs[..d] + vs[..k];
            Movable(vs, lwd, dvs, dlwd, n) <==>
              if AllEmpty(vs[..k]) then LastWithData(vs, if 0 < k == lwd then 0 else lwd)
              else dlwd < |all| && LastWithData(all, AdvanceFrom(all, dlwd))
  {
    hide Flat;
    var k := WholeChains(vs, n);
    var d := Kept(dvs, dlwd);
    WholeBelow(vs, lwd, total, n);
    LayoutBounds(dvs, dlwd, dtotal);
    if !AllEmpty(vs[..k]) {
      AdvanceFindsLast(dvs[..d] + vs[..k], dlwd);
    }
  }

  /** Chain `last` of a list has room for n more bytes, as evbuffer_add sees it. */
  predicate RoomAt(cs: seq<View>, last: nat, n: nat) {
    last < |cs| && (n <= cs[last].Space() || cs[last].ShouldRealign(n))
  }

  /** The destination's chains once evbuffer_remove_buffer has moved the whole ones. */
  function LandingChains(vs: seq<View>, dvs: seq<View>, dlwd: nat, n: nat): seq<View> {
    var m := vs[..WholeChains(vs, n)];
    if AllEmpty(m) then dvs else dvs[..Kept(dvs, dlwd)] + m
  }

  /** And which of them it then takes for the last one with data. */
  function Landing(vs: seq<View>, dvs: seq<View>, dlwd: nat, n: nat): nat {
    var all := LandingChains(vs, dvs, dlwd, n);
    if AllEmpty(vs[..WholeChains(vs, n)]) || |all| <= dlwd then dlwd else AdvanceFrom(all, dlwd)
  }

  lemma {:induction false} LastMoved(a: seq<View>, m: seq<View>, l: nat)
    requires LastWithData(a + m, l) && !AllEmpty(m)
    ensures |a| <= l < |a + m| && (a + m)[l] == m[l - |a|] && 0 < m[l - |a|].off && AllEmpty(m[l - |a| + 1..])
  {
    var i :| 0 <= i < |m| && m[i].off != 0;
    assert (a + m)[|a| + i] == m[i];
    forall b | l - |a| < b < |m|
      ensures m[b].off == 0
    {
      assert (a + m)[|a| + b] == m[b];
    }
  }

  /** What the condition says when chains with data are moved whole, and when none are. */
  lemma {:induction false} MovableCases(vs: seq<View>, lwd: nat, total: nat, dvs: seq<View>, dlwd: nat, n: nat)
    requires LayoutOk(vs, lwd, total) && n < total && Movable(vs, lwd, dvs, dlwd, n)
    ensures var k := WholeChains(vs, n);
            k <= |vs| && Kept(dvs, dlwd) <= |dvs| &&
            if |Flat(vs[..k])| == 0 then !(0 < k == lwd)
            else 0 < k && NoGapAfter(dvs[..Kept(dvs, dlwd)] + vs[..k], dlwd)
  {
    hide Flat, NoGapAfter;
    WholeBelow(vs, lwd, total, n);
    FlatZero(vs[..WholeChains(vs, n)]);
  }

  lemma {:induction false} LandingCases(vs: seq<View>, dvs: seq<View>, dlwd: nat, n: nat)
    requires AllOk(vs) && WholeChains(vs, n) <= |vs| && Kept(dvs, dlwd) <= |dvs|
    ensures var m := vs[..WholeChains(vs, n)];
            var all := LandingChains(vs, dvs, dlwd, n);
            if |Flat(m)| == 0 then all == dvs && Landing(vs, dvs, dlwd, n) == dlwd
            else
              && all == dvs[..Kept(dvs, dlwd)] + m
              && (dlwd < |all| ==> Landing(vs, dvs, dlwd, n) == AdvanceFrom(all, dlwd))
  {
    hide Flat, AdvanceFrom;
    FlatZero(vs[..WholeChains(vs, n)]);
  }

  /** That is the last chain with data among those moved, or the destination's own if none
      with data moves. */
  lemma {:induction false} LandingIs(vs: seq<View>, lwd: nat, total: nat,
                                     dvs: seq<View>, dlwd: nat, dtotal: nat, n: nat)
    requires LayoutOk(vs, lwd, total) && LayoutOk(dvs, dlwd, dtotal) && n < total
    requires Movable(vs, lwd, dvs, dlwd, n)
    ensures var m := vs[..WholeChains(vs, n)];
            var all := LandingChains(vs, dvs, dlwd, n);
            var l := Landing(vs, dvs, dlwd, n);
            if AllEmpty(m) then all == dvs && l == dlwd
            else
              l < |all| && exists j :: 0 <= j < |m| && 0 < m[j].off && AllEmpty(m[j + 1..]) && all[l] == m[j]
  {
    hide Flat, AllEmpty, LastWithData, AdvanceFrom, NoGapAfter;
    var m := vs[..WholeChains(vs, n)];
    var d := Kept(dvs, dlwd);
    LayoutBounds(dvs, dlwd, dtotal);
    MovableExact(vs, lwd, total, dvs, dlwd, dtotal, n);
    if !AllEmpty(m) {
      LastMoved(dvs[..d], m, Landing(vs, dvs, dlwd, n));
    }
  }

  /** What becomes of the rest of the bytes when chains have moved and left a gap: the chain that is
      then taken for the last one with data has others behind it, and bytes stored at its end come
      before theirs. */
  lemma {:induction false} Misplaced(vs: seq<View>, lwd: nat, total: nat,
                                     dvs: seq<View>, dlwd: nat, dtotal: nat, n: nat, rest: seq<byte>)
    requires LayoutOk(vs, lwd, total) && LayoutOk(dvs, dlwd, dtotal) && n < total
    requires !AllEmpty(vs[..WholeChains(vs, n)]) && !Movable(vs, lwd, dvs, dlwd, n)
    ensures var all := LandingChains(vs, dvs, dlwd, n);
            var l := Landing(vs, dvs, dlwd, n);
            && l < |all| && Flat(all[l + 1..]) != []
            && (|rest| <= all[l].Space() ==>
                  var c := all[l].(mem := Patch(all[l].mem, all[l].misalign + all[l].off, rest),
                                   off := all[l].off + |rest|);
                  Flat(all[l := c]) == Flat(all[..l + 1]) + rest + Flat(all[l + 1..]))
  {
    hide Flat, LayoutOk, View.Data, Movable, WholeChains, Kept;
    LandingOk(vs, lwd, total, dvs, dlwd, dtotal, n);
    var all := LandingChains(vs, dvs, dlwd, n);
    var l := Landing(vs, dvs, dlwd, n);
    MovableExact(vs, lwd, total, dvs, dlwd, dtotal, n);
    SomeBehind(all, dlwd);
    FlatZero(all[l + 1..]);
    if |rest| <= all[l].Space() {
      StoredInside(all, l, rest);
    }
  }

  /** Bytes stored at the end of a chain come before those of the next. */
  lemma {:induction false} StoredInside(all: seq<View>, l: nat, rest: seq<byte>)
    requires l < |all| && all[l].Ok() && |rest| <= all[l].Space()
    ensures var c := all[l].(mem := Patch(all[l].mem, all[l].misalign + all[l].off, rest), off := all[l].off + |rest|);
            Flat(all[l := c]) == Flat(all[..l + 1]) + rest + Flat(all[l + 1..])
  {
    hide Flat, View.Data;
    PatchAfter(all[l], rest);
    var c := all[l].(mem := Patch(all[l].mem, all[l].misalign + all[l].off, rest), off := all[l].off + |rest|);
    FlatUpdate(all, l, c);
    FlatSplit(all[..l + 1], l);
    FlatEmpty(all[..l + 1][l + 1..]);
    assert all[..l + 1][..l] == all[..l];
  }

  lemma {:induction false} LandingOk(vs: seq<View>, lwd: nat, total: nat,
                                     dvs: seq<View>, dlwd: nat, dtotal: nat, n: nat)
    requires LayoutOk(vs, lwd, total) && LayoutOk(dvs, dlwd, dtotal) && n < total
    requires !AllEmpty(vs[..WholeChains(vs, n)])
    ensures var all := LandingChains(vs, dvs, dlwd, n);
            && Kept(dvs, dlwd) <= |dvs| && all == dvs[..Kept(dvs, dlwd)] + vs[..WholeChains(vs, n)]
            && AllOk(all) && dlwd < |all| && (dlwd == 0 || all[dlwd].off != 0)
  {
    hide Flat, View.Data, WholeChains;
    LayoutBounds(dvs, dlwd, dtotal);
    LayoutAllOk(vs, lwd, total);
    LayoutAllOk(dvs, dlwd, dtotal);
  }

  /** Where advance_last_with_data stops too early, there is data behind. */
  lemma {:induction false} SomeBehind(vs: seq<View>, i: nat)
    requires i < |vs| && (i == 0 || vs[i].off != 0)
    ensures !LastWithData(vs, AdvanceFrom(vs, i)) ==> !AllEmpty(vs[AdvanceFrom(vs, i) + 1..])
    decreases |vs| - i
  {
    if i + 1 < |vs| && vs[i + 1].off != 0 {
      SomeBehind(vs, i + 1);
    } else if AllEmpty(vs[i + 1..]) {
      assert forall j :: i < j < |vs| ==> vs[j] == vs[i + 1..][j - i - 1];
    }
  }

  /** A source without empty chains before its data is always movable. */
  lemma {:induction false} PackedMovable(vs: seq<View>, lwd: nat, total: nat,
                                         dvs: seq<View>, dlwd: nat, dtotal: nat, n: nat)
    requires LayoutOk(vs, lwd, total) && LayoutOk(dvs, dlwd, dtotal) && n < total
    requires PackedTo(vs, lwd)
    ensures Movable(vs, lwd, dvs, dlwd, n)
  {
    hide Flat;
    var k := WholeChains(vs, n);
    var d := Kept(dvs, dlwd);
    WholeBelow(vs, lwd, total, n);
    LayoutBounds(dvs, dlwd, dtotal);
    var all := dvs[..d] + vs[..k];
    assert forall i :: d <= i < |all| ==> all[i] == vs[i - d];
    assert 0 < k ==> vs[..k][0].off != 0;
  }

  /** A source with an empty chain between its bytes is not, whatever the destination: taking
      all that lies before the last chain with data leaves the gap behind. */
  lemma {:induction false} GapUnmovable(vs: seq<View>, lwd: nat, total: nat,
                                        dvs: seq<View>, dlwd: nat, dtotal: nat, i: nat, j: nat)
    requires LayoutOk(vs, lwd, total) && LayoutOk(dvs, dlwd, dtotal)
    requires 0 < i < j < lwd && vs[i].off == 0 && 0 < vs[j].off
    ensures var n := |Flat(vs[..lwd])|; 0 < n < total && !Movable(vs, lwd, dvs, dlwd, n)
  {
    hide Flat, NoGapAfter, WholeChains, View.Data, View.Ok;
    var n := |Flat(vs[..lwd])|;
    FlatWindow(vs, lwd);
    FlatZero(vs[..lwd]);
    assert vs[..lwd][j] == vs[j] && vs[..lwd][i] == vs[i];
    assert vs[0..] == vs && vs[0..lwd] == vs[..lwd];
    WholeAll(vs, lwd, 0, n);
    LayoutBounds(dvs, dlwd, dtotal);
    assert !AllEmpty(vs[..lwd]);
    GapBehind(dvs[..Kept(dvs, dlwd)], vs[..lwd], dlwd, i, j);
  }

  lemma {:induction false} GapBehind(a: seq<View>, m: seq<View>, l: nat, i: nat, j: nat)
    requires l <= |a| && i < j < |m| && (l == |a| ==> 0 < i) && m[i].off == 0 && 0 < m[j].off
    ensures !NoGapAfter(a + m, l)
  {
    assert (a + m)[|a| + i] == m[i] && (a + m)[|a| + j] == m[j];
  }

  /** All chains before lwd are taken whole when exactly their bytes are asked for. */
  lemma {:induction false} WholeAll(vs: seq<View>, lwd: nat, i: nat, n: nat)
    requires AllOk(vs) && i <= lwd < |vs| && 0 < vs[lwd].off && n == |Flat(vs[i..lwd])|
    ensures WholeChains(vs[i..], n) == lwd - i
    decreases lwd - i
  {
    if i == lwd {
      FlatEmpty(vs[i..lwd]);
      WholeStop(vs, i, n);
    } else {
      FlatHead(vs[..lwd], i);
      assert vs[..lwd][i..] == vs[i..lwd] && vs[..lwd][i + 1..] == vs[i + 1..lwd];
      WholeAll(vs, lwd, i + 1, n - vs[i].off);
      WholeStep(vs, i, n);
    }
  }
}
