/** Evbuffers: byte queues kept in linked chains of memory. */
module EvbufferCore {
  import opened Common
  import opened ChainView

  const MIN_BUFFER_SIZE: nat := 1024
  const CHAIN_MAX_AUTO_SIZE: nat := 4096

  class Chain {
    var next: Chain?
    var mem: seq<byte>
    var misalign: nat
    var off: nat

    constructor (mem: seq<byte>)
      ensures this.next == null && this.mem == mem && this.misalign == 0 && this.off == 0
    {
      this.next, this.mem, this.misalign, this.off := null, mem, 0, 0;
    }

    function V(): View
      reads this
    {
      View(mem, misalign, off)
    }

    /** Stores d as the data of an empty chain. */
    method Fill(d: seq<byte>)
      requires misalign == 0 && |d| <= |mem|
      modifies this`mem, this`off
      ensures |mem| == old(|mem|) && off == |d| && V().Data() == d
    {
      mem := Patch(mem, 0, d);
      off := |d|;
    }

    /** Stores d right after the data. */
    method PutAfter(d: seq<byte>)
      requires V().Ok() && |d| <= V().Space()
      modifies this`mem, this`off
      ensures |mem| == old(|mem|) && off == old(off) + |d| && V().Ok() && V().Data() == old(V().Data()) + d
    {
      PatchAfter(V(), d);
      mem := Patch(mem, misalign + off, d);
      off := off + |d|;
    }

    /** Stores d right before the data. */
    method PutBefore(d: seq<byte>)
      requires V().Ok() && |d| <= misalign
      modifies this`mem, this`off, this`misalign
      ensures |mem| == old(|mem|) && off == old(off) + |d| && V().Ok() && V().Data() == d + old(V().Data())
    {
      PatchBefore(V(), d);
      mem := Patch(mem, misalign - |d|, d);
      off := off + |d|;
      misalign := misalign - |d|;
    }

    /** Copies the first b bytes of chain j of `rest` to position p. */
    method CopyFrom(p: nat, chain: Chain, b: nat, ghost base: seq<byte>, ghost rest: seq<View>, ghost j: nat)
      requires j < |rest| && rest[j].Ok() && rest[j] == chain.V() && b <= chain.off && p + b <= |mem|
      requires Received(mem, misalign, p, base, rest) && p - misalign == |base| + |Flat(rest[..j])|
      modifies this`mem
      ensures |mem| == old(|mem|) && Received(mem, misalign, p + b, base, rest)
      ensures |Flat(rest[..j + 1])| == |Flat(rest[..j])| + rest[j].off
    {
      hide Flat, PackedTo;
      CopyInto(mem, misalign, p, base, rest, j, b);
      mem := Patch(mem, p, chain.mem[chain.misalign..chain.misalign + b]);
    }

    /** evbuffer_chain_align: moves the data to the start of the memory. */
    method Align()
      requires V().Ok()
      modifies this`mem, this`misalign
      ensures misalign == 0 && |mem| == old(|mem|) && V().Ok() && V().Data() == old(V().Data())
    {
      mem := Patch(mem, 0, mem[misalign..misalign + off]);
      misalign := 0;
    }
  }

  /** Where a `next` pointer is stored: in the buffer itself or in a chain. */
  datatype Slot = First | NextOf(chain: Chain)

  ghost predicate Distinct(s: seq<Chain>) {
    forall i, j :: 0 <= i < j < |s| ==> s[i] != s[j]
  }

  lemma DistinctConcat(a: seq<Chain>, b: seq<Chain>)
    requires Distinct(a) && Distinct(b)
    requires forall i, j :: 0 <= i < |a| && 0 <= j < |b| ==> a[i] != b[j]
    ensures Distinct(a + b)
  {
    forall i, j | 0 <= i < j < |a + b|
      ensures (a + b)[i] != (a + b)[j]
    {
      if i < |a| <= j {
        assert a[i] != b[j - |a|];
      }
    }
  }

  ghost function At(s: seq<Chain>, i: nat): Chain? {
    if i < |s| then s[i] else null
  }

  ghost function SlotAt(s: seq<Chain>, i: nat): Slot
    requires i <= |s|
  {
    if i == 0 then First else NextOf(s[i - 1])
  }

  /** An evbuffer_ptr: an offset and the place in the chains it stands for. */
  datatype Ptr = Ptr(pos: int, chain: Chain?, posInChain: nat)

  /** The chains s are the whole list that starts at head, and w is what they hold. */
  ghost predicate ChainList(head: Chain?, s: seq<Chain>, w: seq<View>, r: set<Chain>)
    reads r
  {
    && (forall i {:trigger s[i]} :: 0 <= i < |s| ==> s[i] in r)
    && Distinct(s)
    && head == At(s, 0)
    && |w| == |s|
    && (forall i {:trigger s[i].next} :: 0 <= i < |s| ==> s[i].next == At(s, i + 1))
    && (forall i {:trigger w[i]} :: 0 <= i < |s| ==> s[i].V() == w[i])
  }

  lemma SingletonList(c: Chain)
    requires c.next == null
    ensures ChainList(c, [c], [c.V()], {c})
  {
  }

  lemma FirstOfList(head: Chain?, s: seq<Chain>, w: seq<View>, r: set<Chain>)
    requires ChainList(head, s, w, r) && s != [] && |w| == |s|
    ensures s[0] in r && s[0].V() == w[0]
  {
  }

  lemma TailList(head: Chain?, s: seq<Chain>, w: seq<View>, r: set<Chain>)
    requires ChainList(head, s, w, r) && s != []
    ensures ChainList(s[0].next, s[1..], w[1..], r - {s[0]}) && (|s| > 1 ==> s[0].next == s[1])
  {
  }

  lemma Enlarge(head: Chain?, s: seq<Chain>, w: seq<View>, r: set<Chain>, r': set<Chain>)
    requires ChainList(head, s, w, r) && r <= r'
    ensures ChainList(head, s, w, r')
  {
  }

  lemma DropList(s: seq<Chain>, w: seq<View>, r: set<Chain>, j: nat)
    requires s != [] && j <= |s| && ChainList(s[0], s, w, r)
    ensures ChainList(At(s, j), s[j..], w[j..], r)
  {
    forall i | 0 <= i < |s[j..]|
      ensures s[j..][i].next == At(s[j..], i + 1) && s[j..][i].V() == w[j..][i] && s[j..][i] in r
    {
      assert s[j..][i] == s[j + i] && w[j..][i] == w[j + i];
    }
  }

  lemma ConsList(c: Chain, head: Chain?, s: seq<Chain>, w: seq<View>, r: set<Chain>)
    requires ChainList(head, s, w, r) && c !in r && c.next == head
    ensures ChainList(c, [c] + s, [c.V()] + w, r + {c})
  {
    forall i | 0 <= i < |s| + 1
      ensures ([c] + s)[i].next == At([c] + s, i + 1) && ([c] + s)[i].V() == ([c.V()] + w)[i]
      ensures ([c] + s)[i] in r + {c}
    {
      if i > 0 {
        assert ([c] + s)[i] == s[i - 1] && ([c.V()] + w)[i] == w[i - 1];
      }
    }
  }

  /** Uses up bytes at the start of the first chain of a list. */
  method UseUpFirst(c: Chain, size: nat, ghost s: seq<Chain>, ghost w: seq<View>, ghost r: set<Chain>)
    requires ChainList(c, s, w, r) && s != [] && |w| == |s| && size < w[0].off
    modifies c`misalign, c`off
    ensures c.V() == View(w[0].mem, w[0].misalign + size, w[0].off - size) && ChainList(c, s, w[0 := c.V()], r)
    ensures 0 < c.off
  {
    assert c == s[0] && c.V() == w[0];
    c.misalign := c.misalign + size;
    c.off := c.off - size;
    assert forall i :: 1 <= i < |s| ==> s[i] != c;
  }

  /** Ends a list behind its first i chains: `p->next = NULL`. */
  method SplitChains(p: Chain, ghost s: seq<Chain>, ghost w: seq<View>, ghost r: set<Chain>, ghost i: nat)
    returns (ghost m: set<Chain>)
    requires 0 < i < |s| && p == s[i - 1] && ChainList(s[0], s, w, r)
    modifies p`next
    ensures ChainList(s[0], s[..i], w[..i], m) && ChainList(s[i], s[i..], w[i..], r - m) && m <= r
  {
    m := set c | c in s[..i];
    assert s[i - 1] in r;
    p.next := null;
    FrontList(s, w, i, m);
    BackList(s, w, r, i, m);
  }

  /** The first i chains of a list that now ends behind them. */
  lemma FrontList(s: seq<Chain>, w: seq<View>, i: nat, m: set<Chain>)
    requires i <= |s| == |w| && Distinct(s) && m == (set c | c in s[..i])
    requires forall j {:trigger s[j].next} :: 0 <= j < i ==> s[j].next == if j + 1 < i then s[j + 1] else null
    requires forall j {:trigger w[j]} :: 0 <= j < |s| ==> s[j].V() == w[j]
    ensures ChainList(At(s[..i], 0), s[..i], w[..i], m)
  {
    forall j | 0 <= j < i
      ensures s[..i][j].next == At(s[..i], j + 1) && s[..i][j].V() == w[..i][j] && s[..i][j] in m
    {
      assert s[..i][j] == s[j] && w[..i][j] == w[j];
    }
  }

  /** And the others. */
  lemma BackList(s: seq<Chain>, w: seq<View>, r: set<Chain>, i: nat, m: set<Chain>)
    requires i < |s| == |w| && Distinct(s) && m == (set c | c in s[..i])
    requires forall j {:trigger s[j]} :: 0 <= j < |s| ==> s[j] in r
    requires forall j {:trigger s[j].next} :: i <= j < |s| ==> s[j].next == At(s, j + 1)
    requires forall j {:trigger w[j]} :: 0 <= j < |s| ==> s[j].V() == w[j]
    ensures ChainList(s[i], s[i..], w[i..], r - m)
  {
    forall j | 0 <= j < |s[i..]|
      ensures s[i..][j].next == At(s[i..], j + 1) && s[i..][j].V() == w[i..][j] && s[i..][j] in r - m
    {
      assert s[i..][j] == s[i + j] && w[i..][j] == w[i + j];
      NotInPrefix(s, i, i + j);
    }
  }

  lemma NotInPrefix(s: seq<Chain>, i: nat, j: nat)
    requires Distinct(s) && i <= j < |s|
    ensures s[j] !in s[..i]
  {
  }

  /** Links the list that starts at head behind the list that ends at p: `p->next = head`. */
  method JoinChains(p: Chain, head: Chain?,
                    ghost s: seq<Chain>, ghost v: seq<View>, ghost q: set<Chain>,
                    ghost t: seq<Chain>, ghost w: seq<View>, ghost r: set<Chain>)
    requires s != [] && p == s[|s| - 1] && ChainList(s[0], s, v, q) && ChainList(head, t, w, r) && q !! r
    modifies p`next
    ensures ChainList(s[0], s + t, v + w, q + r)
  {
    DistinctConcat(s, t);
    p.next := head;
    forall i | 0 <= i < |s + t|
      ensures (s + t)[i].next == At(s + t, i + 1) && (s + t)[i].V() == (v + w)[i] && (s + t)[i] in q + r
    {
      if i < |s| {
        assert (s + t)[i] == s[i] && (v + w)[i] == v[i];
      } else {
        var k := i - |s|;
        assert (s + t)[i] == t[k] && (v + w)[i] == w[k] && t[k] in r && t[k].next == At(t, k + 1);
      }
    }
  }

  /** The slot of the last chain with data holds null only in a buffer without chains. */
  lemma NoChains(b: Evbuffer)
    requires b.Valid()
    ensures b.last == null <==> b.spine == []
    ensures b.spine != [] ==> b.last in b.repr
    ensures b.lastWithDatap.NextOf? ==> b.lastWithDatap.chain in b.repr
    ensures b.first == At(b.spine, 0) && (b.spine != [] ==> b.spine[0] in b.repr)
    ensures b.Deref(b.lastWithDatap) == At(b.spine, b.lwd)
    ensures b.Deref(b.lastWithDatap) == null <==> b.spine == []
  {
  }

  lemma SlotFirst(s: seq<Chain>, i: nat)
    requires i <= |s|
    ensures SlotAt(s, i) == First <==> i == 0
    ensures i == |s| && 0 < i ==> SlotAt(s, i) == NextOf(s[i - 1])
  {
  }

  lemma SlotPrefix(a: seq<Chain>, d: nat, b: seq<Chain>, i: nat)
    requires d <= |a| && 0 < |b| && (i < d || i == 0)
    ensures SlotAt(a[..d] + b, i) == SlotAt(a, i)
    ensures (a[..d] + b)[|a[..d] + b| - 1] == b[|b| - 1]
  {
  }

  lemma SlotSuffix(a: seq<Chain>, k: nat, i: nat)
    requires k <= i < |a|
    ensures SlotAt(a[k..], i - k) == if i == k then First else SlotAt(a, i)
    ensures a[k..][|a[k..]| - 1] == a[|a| - 1]
  {
  }

  /** Slots and last chain of tmp followed by what is left of rest. */
  lemma PulledSlots(tmp: Chain, rest: seq<Chain>, j: nat, lastAt: nat)
    requires j <= |rest| && lastAt < |rest|
    ensures var s := [tmp] + rest[j..];
            && SlotAt(s, 0) == First
            && SlotAt(s, 1) == NextOf(tmp)
            && (j < lastAt ==> SlotAt(s, lastAt - j + 1) == NextOf(rest[lastAt - 1]))
            && s[|s| - 1] == if j == |rest| then tmp else rest[|rest| - 1]
  {
  }

  /** Slots and last chain of two lists put together. */
  lemma SlotConcat(a: seq<Chain>, b: seq<Chain>, i: nat)
    requires i <= |b| && 0 < |b|
    ensures SlotAt(a + b, |a| + i) == if i == 0 then SlotAt(a, |a|) else SlotAt(b, i)
    ensures (a + b)[|a + b| - 1] == b[|b| - 1]
    ensures SlotAt(b, 0) == First
  {
  }

  /** Using up r bytes of chain i, in two ways of writing. */
  lemma FirstChanged(vs: seq<View>, i: nat, r: nat)
    requires i < |vs| && r <= vs[i].off
    ensures var w := vs[i].(misalign := vs[i].misalign + r, off := vs[i].off - r);
            vs[i..][0 := w] == [w] + vs[i + 1..] && w == View(vs[i].mem, vs[i].misalign + r, vs[i].off - r)
  {
  }

  lemma PulledAs(t: View, ws: seq<View>, j: nat, r: nat)
    requires j <= |ws| && (j < |ws| ==> r <= ws[j].off)
    ensures j == |ws| ==> PulledUp(t, ws, j, r) == [t] + ws[j..]
    ensures j < |ws| ==> PulledUp(t, ws, j, r) == [t] + ws[j..][0 := View(ws[j].mem, ws[j].misalign + r, ws[j].off - r)]
  {
    if j < |ws| {
      FirstChanged(ws, j, r);
    }
  }

  lemma FirstView(b: Evbuffer)
    requires b.Valid() && b.spine != []
    ensures b.vs[0] == b.spine[0].V() && b.vs[0].Ok() && b.vs[0].off == b.spine[0].off
    ensures var v := b.vs[0]; v.Data() == v.mem[v.misalign..v.misalign + v.off]
  {
  }

  lemma MovedBytes(d: seq<byte>, c: seq<byte>, n: nat, m: nat)
    requires n + m <= |c|
    ensures d + c[..n] + c[n..][..m] == d + c[..n + m] && c[n..][m..] == c[n + m..] && d + c[..n] + [] == d + c[..n]
  {
  }

  lemma NoBytes(v: View)
    requires v.off == 0
    ensures v.Data() == []
  {
  }

  lemma SomeChain(b: Evbuffer)
    requires b.Valid() && 0 < b.totalLen
    ensures b.spine != [] && |b.vs| == |b.spine| && b.first == b.spine[0] && b.vs[0] == b.spine[0].V() && b.vs[0].Ok()
    ensures |b.Contents()| == b.totalLen
  {
    hide Flat;
    LayoutSize(b.vs, b.lwd, b.totalLen);
  }

  /** The slot of a last chain with data that is not the first chain. */
  lemma SlotIn(b: Evbuffer)
    requires b.Valid() && 1 <= b.lwd < |b.spine|
    ensures b.lastWithDatap == NextOf(b.spine[b.lwd - 1]) && b.spine[b.lwd - 1].next == b.spine[b.lwd]
    ensures b.last == b.spine[|b.spine| - 1]
    ensures b.lwd > 1 ==> b.lastWithDatap.chain == b.spine[1..][b.lwd - 2]
  {
  }

  /** evbuffer_chain_new; `memory` tells whether malloc succeeds. */
  method ChainNew(size: nat, memory: bool) returns (c: Chain?)
    ensures c != null ==> fresh(c) && c.next == null && c.misalign == 0 && c.off == 0
                          && size <= |c.mem| && c.V().Ok() && c.V().Data() == []
    ensures c != null <==> size <= CHAIN_LIMIT && memory
    ensures c != null && size + CHAIN_SIZE <= MIN_BUFFER_SIZE ==> |c.mem| + CHAIN_SIZE == MIN_BUFFER_SIZE
  {
    if size > CHAIN_LIMIT {
      return null;
    }
    var need := size + CHAIN_SIZE;
    var toAlloc := need;
    if need < CHAIN_MAX / 2 {
      toAlloc := MIN_BUFFER_SIZE;
      while toAlloc < need
        invariant MIN_BUFFER_SIZE <= toAlloc
        invariant (toAlloc == MIN_BUFFER_SIZE || (MIN_BUFFER_SIZE < need && toAlloc < 2 * need))
      {
        toAlloc := toAlloc * 2;
      }
    }
    if !memory {
      return null;
    }
    c := new Chain(seq(toAlloc - CHAIN_SIZE, i => 0));
  }

  /** A new chain with d at the end of its memory. */
  method ChainEndingIn(d: seq<byte>, memory: bool) returns (c: Chain?)
    ensures c != null ==> fresh(c) && c.next == null && c.V().Ok() && c.V().Data() == d && c.off == |d|
    ensures c != null <==> |d| <= CHAIN_LIMIT && memory
  {
    c := ChainNew(|d|, memory);
    if c != null {
      c.misalign := |c.mem|;
      c.PutBefore(d);
    }
  }

  class Evbuffer {
    var first: Chain?
    var last: Chain?
    var lastWithDatap: Slot
    var totalLen: nat
    var freezeStart: bool
    var freezeEnd: bool
    ghost var spine: seq<Chain>
    ghost var vs: seq<View>
    ghost var lwd: nat
    ghost var repr: set<Chain>

    /** `spine` is the list reached from `first`, and `vs` what its chains hold. */
    ghost predicate Linked()
      reads this, repr
    {
      |vs| == |spine| && ChainList(first, spine, vs, repr)
    }

    ghost predicate Valid()
      reads this, repr
    {
      && Linked()
      && last == (if spine == [] then null else spine[|spine| - 1])
      && lwd <= |spine|
      && lastWithDatap == SlotAt(spine, lwd)
      && LayoutOk(vs, lwd, totalLen)
    }

    ghost function Contents(): seq<byte>
      reads this
    {
      Flat(vs)
    }

    /** p's place is its offset: a byte of a chain, the end of a chain's data, or the end
        of the buffer. */
    ghost predicate Denotes(p: Ptr)
      reads this
    {
      if p.chain == null then p.pos == totalLen && p.posInChain == 0
      else exists k: nat :: PtrAt(p, k)
    }

    ghost predicate PtrAt(p: Ptr, k: nat)
      reads this
    {
      && k < |spine| && k < |vs| && p.chain == spine[k]
      && p.posInChain <= vs[k].off && p.pos == |Flat(vs[..k])| + p.posInChain
    }

    /** The buffer took no chain that belonged to somebody else. */
    twostate predicate Grown()
      reads this
    {
      fresh(repr - old(repr)) && Steady()
    }

    /** The freezes are as they were, and no empty chain got in front of data. */
    twostate predicate Steady()
      reads this
    {
      SameFreeze() && (old(Packed()) ==> Packed())
    }

    twostate predicate SameFreeze()
      reads this
    {
      freezeStart == old(freezeStart) && freezeEnd == old(freezeEnd)
    }

    ghost predicate Packed()
      reads this
    {
      PackedTo(vs, lwd)
    }

    /** No chain follows the last one with data. */
    ghost predicate Trim()
      reads this
    {
      |vs| <= lwd + 1
    }

    twostate predicate Taut()
      reads this
    {
      old(Trim()) ==> Trim()
    }

    constructor ()
      ensures Valid() && spine == [] && vs == [] && repr == {} && Contents() == [] && !freezeStart && !freezeEnd
      ensures lwd == 0 && totalLen == 0 && Packed() && Trim()
    {
      first, last, lastWithDatap, totalLen := null, null, First, 0;
      freezeStart, freezeEnd := false, false;
      spine, vs, lwd, repr := [], [], 0, {};
    }

    /** Makes s the list of the buffer, with its last chain, its slot and its size. */
    method Install(head: Chain?, tail: Chain?, slot: Slot, total: nat,
                   ghost s: seq<Chain>, ghost w: seq<View>, ghost k: nat, ghost r: set<Chain>)
      requires ChainList(head, s, w, r) && |s| == |w| && tail == (if s == [] then null else s[|s| - 1])
      requires k <= |s| && slot == SlotAt(s, k) && LayoutOk(w, k, total)
      modifies `first, `last, `lastWithDatap, `totalLen, `spine, `vs, `lwd, `repr
      ensures Valid() && spine == s && vs == w && lwd == k && repr == r && totalLen == total
    {
      hide ChainList, SlotAt, LayoutOk;
      first, last, lastWithDatap, totalLen := head, tail, slot, total;
      spine, vs, lwd, repr := s, w, k, r;
    }

    /** The same when the list is there already. */
    method Settle(tail: Chain, slot: Slot, total: nat, ghost k: nat)
      requires Linked() && spine != [] && tail == spine[|spine| - 1]
      requires k <= |spine| && slot == SlotAt(spine, k) && LayoutOk(vs, k, total)
      modifies `last, `lastWithDatap, `totalLen, `lwd
      ensures Valid() && lwd == k && totalLen == total
    {
      hide ChainList, SlotAt, LayoutOk;
      last, lastWithDatap, totalLen, lwd := tail, slot, total, k;
    }

    function Deref(s: Slot): Chain?
      reads this, if s.NextOf? then {s.chain} else {}
    {
      match s
      case First => first
      case NextOf(c) => c.next
    }

    /** Stores through a slot: `*slot = c`. */
    method SetSlot(s: Slot, c: Chain?)
      modifies this`first, (if s.NextOf? then {s.chain} else {})`next
      ensures s.First? ==> first == c
      ensures s.NextOf? ==> s.chain.next == c && first == old(first)
    {
      match s {
        case First => first := c;
        case NextOf(p) => p.next := c;
      }
    }

    /** Ends the list at slot k: `*ch = NULL`. */
    method CutAt(ch: Slot, ghost k: nat)
      requires Linked() && k <= |spine| && ch == SlotAt(spine, k)
      modifies this`first, this`spine, this`vs, repr`next
      ensures Linked() && spine == old(spine)[..k] && vs == old(vs)[..k]
    {
      SetSlot(ch, null);
      ghost var m := set c | c in spine[..k];
      FrontList(spine, vs, k, m);
      Enlarge(At(spine[..k], 0), spine[..k], vs[..k], m, repr);
      spine, vs := spine[..k], vs[..k];
    }

    /** evbuffer_free_trailing_empty_chains: drops the empty chains at the end and
        gives the slot where the list now ends.  `last` is left to the caller. */
    method FreeTrailingEmptyChains() returns (ch: Slot)
      requires Valid()
      modifies this`first, this`spine, this`vs, repr`next
      ensures Linked()
      ensures var k := Kept(old(vs), lwd); k <= |old(vs)| && spine == old(spine)[..k] && vs == old(vs)[..k]
      ensures ch == SlotAt(spine, |spine|)
    {
      hide Flat, PackedTo;
      ch := lastWithDatap;
      ghost var k := lwd;
      while Deref(ch) != null && Deref(ch).off != 0
        invariant lwd <= k <= |spine| && k <= lwd + 1
        invariant ch == SlotAt(spine, k)
        invariant k == lwd + 1 ==> vs[lwd].off > 0
        decreases |spine| - k
      {
        assert Deref(ch) == spine[k] && vs[k].off != 0;
        ch := NextOf(Deref(ch));
        k := k + 1;
      }
      if Deref(ch) != null {
        assert vs[k].off == 0;
        CutAt(ch, k);
      }
    }

    /** Puts the list that starts at head behind the last chain: `*ch = head`. */
    method Attach(ch: Slot, head: Chain?, ghost s: seq<Chain>, ghost w: seq<View>, ghost r: set<Chain>)
      requires Linked() && ch == SlotAt(spine, |spine|)
      requires ChainList(head, s, w, r) && repr !! r
      modifies this`first, this`spine, this`vs, this`repr, repr`next
      ensures Linked() && spine == old(spine) + s && vs == old(vs) + w && repr == old(repr) + r
    {
      hide ChainList;
      match ch {
        case First =>
          assert spine + s == s && vs + w == w;
          Enlarge(head, s, w, r, repr + r);
          first := head;
        case NextOf(p) =>
          LinkedAt(|spine| - 1);
          JoinChains(p, head, spine, vs, repr, s, w, r);
      }
      spine, vs, repr := spine + s, vs + w, repr + r;
    }

    /** Puts the list that starts at head in place of the empty chains at the end, and gives
        the slot that holds it. */
    method ReplaceEmptyTail(head: Chain?, ghost s: seq<Chain>, ghost w: seq<View>, ghost r: set<Chain>)
      returns (chp: Slot)
      requires Valid() && ChainList(head, s, w, r) && repr !! r && |s| == |w|
      modifies this`first, this`spine, this`vs, this`repr, repr`next
      ensures Linked() && repr == old(repr) + r
      ensures var d := Kept(old(vs), lwd);
              d <= |old(vs)| == |old(spine)| && spine == old(spine)[..d] + s && vs == old(vs)[..d] + w
              && chp == SlotAt(old(spine)[..d], d)
    {
      hide ChainList, SlotAt;
      chp := FreeTrailingEmptyChains();
      Attach(chp, head, s, w, r);
    }

    /** The first chain of a buffer that has none. */
    method InsertFirst(c: Chain)
      requires Valid() && spine == [] && c !in repr && c.next == null && c.V().Ok()
      modifies this
      ensures Valid() && spine == [c] && vs == [c.V()] && lwd == 0 && repr == {c}
      ensures Contents() == old(Contents()) + c.V().Data() && totalLen == old(totalLen) + c.off && Steady() && Taut()
    {
      InsertLast(vs, lwd, totalLen, c.V());
      assert vs[..0] + [c.V()] == [c.V()];
      hide Flat, PackedTo, LayoutOk;
      first, last := c, c;
      totalLen := totalLen + c.off;
      spine, vs, repr := [c], [c.V()], {c};
    }

    /** evbuffer_chain_insert */
    method ChainInsert(c: Chain)
      requires Valid() && c !in repr && c.next == null && c.V().Ok()
      modifies this, repr`next
      ensures Valid()
      ensures var k := Kept(old(vs), old(lwd));
              k <= |old(vs)| && spine == old(spine)[..k] + [c] && vs == old(vs)[..k] + [c.V()]
              && lwd == if 0 < c.off then k else old(lwd)
      ensures repr <= old(repr) + {c}
      ensures Contents() == old(Contents()) + c.V().Data()
      ensures totalLen == old(totalLen) + c.off
      ensures Steady() && (0 < c.off || old(Kept(vs, lwd)) == 0 ==> Trim())
    {
      hide Flat, PackedTo, LayoutOk, ChainList, SlotAt, View.Data, View.Ok;
      InsertLast(vs, lwd, totalLen, c.V());
      LayoutBounds(vs, lwd, totalLen);
      SingletonList(c);
      if Deref(lastWithDatap) == null {
        assert spine == [] by { NoChains(this); }
        InsertFirst(c);
      } else {
        ghost var k := Kept(vs, lwd);
        SlotConcat(spine[..k], [c], 0);
        SlotPrefix(spine, k, [c], lwd);
        var chp := ReplaceEmptyTail(c, [c], [c.V()], {c});
        Settle(c, if c.off != 0 then chp else lastWithDatap, totalLen + c.off, if c.off != 0 then k else lwd);
      }
    }

    /** Stores d right after the data of chain k. */
    method PutIn(chain: Chain, d: seq<byte>, ghost k: nat)
      requires Linked() && k < |spine| && chain == spine[k] && vs[k].Ok() && |d| <= vs[k].Space()
      modifies `vs, chain`mem, chain`off
      ensures Linked() && vs == old(vs)[k := chain.V()] && |chain.mem| == old(|chain.mem|)
      ensures chain.V().Ok() && chain.V().Data() == old(vs)[k].Data() + d && chain.off == old(chain.off) + |d|
    {
      hide View.Data;
      chain.PutAfter(d);
      vs := vs[k := chain.V()];
    }

    /** Copies d behind the data of the last chain with data, which has room for it. */
    method FillLast(chain: Chain, d: seq<byte>)
      requires Valid() && lwd < |spine| && chain == spine[lwd] && |d| <= chain.V().Space()
      modifies this`totalLen, this`vs, chain`mem, chain`off
      ensures Valid() && Contents() == old(Contents()) + d && totalLen == old(totalLen) + |d|
      ensures |vs| == |old(vs)| && vs[lwd] == chain.V() && |chain.mem| == old(|chain.mem|)
      ensures Steady() && Taut()
    {
      hide Flat, PackedTo, LayoutOk, ChainList, View.Data;
      LinkedAt(lwd);
      LayoutOkAt(vs, lwd, totalLen, lwd);
      ghost var vs0 := vs;
      PutIn(chain, d, lwd);
      GrowLast(vs0, lwd, totalLen, chain.V(), d);
      totalLen := totalLen + |d|;
    }

    /** Realigns the last chain with data. */
    method AlignLast(chain: Chain)
      requires Valid() && lwd < |spine| && chain == spine[lwd]
      modifies this`vs, chain`mem, chain`misalign
      ensures Valid() && Contents() == old(Contents()) && chain.misalign == 0 && |chain.mem| == old(|chain.mem|)
      ensures Steady() && Taut()
    {
      hide Flat, PackedTo;
      assert vs[lwd].Ok();
      chain.Align();
      GrowLast(vs, lwd, totalLen, chain.V(), []);
      vs := vs[lwd := chain.V()];
    }

    /** The chain evbuffer_add writes to first: the last one with data, or a new one
        when the buffer has no chains. */
    method ChainForAdd(datlen: nat, memory: bool) returns (chain: Chain?)
      requires Valid()
      modifies this, repr
      ensures Valid() && Contents() == old(Contents()) && totalLen == old(totalLen) && Grown() && Taut()
      ensures chain != null <==> old(vs) != [] || (memory && datlen <= CHAIN_LIMIT)
      ensures if old(vs) != [] then vs == old(vs) && lwd == old(lwd) else chain != null ==> datlen <= chain.V().Space()
      ensures old(vs) == [] && chain != null ==> |vs| == 1 && lwd == 0
      ensures old(vs) == [] && chain != null && datlen + CHAIN_SIZE <= MIN_BUFFER_SIZE ==>
        |chain.mem| + CHAIN_SIZE == MIN_BUFFER_SIZE
      ensures chain != null ==> lwd < |spine| && chain == spine[lwd] && chain in repr
    {
      hide Flat, PackedTo;
      chain := if Deref(lastWithDatap) == null then last else Deref(lastWithDatap);
      if chain == null {
        chain := ChainNew(datlen, memory);
        if chain == null {
          return;
        }
        ChainInsert(chain);
      }
    }

    /** The end of evbuffer_add: fills up `chain` and puts the rest of the data in a
        new chain. */
    method AddChainFor(chain: Chain, remain: nat, data: seq<byte>, memory: bool) returns (ok: bool)
      requires Valid() && lwd < |spine| && chain == spine[lwd] && chain in repr
      requires remain == chain.V().Space() && remain < |data| && vs[lwd] == chain.V()
      modifies this, repr
      ensures Valid() && Grown() && Taut()
      ensures Contents() == old(Contents()) + (if ok then data else [])
      ensures ok <==> memory && |data| <= CHAIN_LIMIT
    {
      hide Flat, PackedTo, LayoutOk, ChainList, SlotAt, View.Data;
      LayoutOkAt(vs, lwd, totalLen, lwd);
      var toAlloc := |chain.mem|;
      if toAlloc <= CHAIN_MAX_AUTO_SIZE / 2 {
        toAlloc := toAlloc * 2;
      }
      if |data| > toAlloc {
        toAlloc := |data|;
      }
      var tmp := ChainNew(toAlloc, memory);
      if tmp == null {
        return false;
      }
      AddSplit(chain, tmp, remain, data);
      return true;
    }

    /** Puts the first bytes of the data into `chain` and the others into the new chain tmp. */
    method AddSplit(chain: Chain, tmp: Chain, remain: nat, data: seq<byte>)
      requires Valid() && lwd < |spine| && chain == spine[lwd] && chain in repr
      requires remain == chain.V().Space() && remain < |data|
      requires tmp !in repr && tmp.next == null && tmp.misalign == 0 && tmp.off == 0 && |data| <= |tmp.mem|
      requires tmp.V().Ok()
      modifies this, repr, tmp
      ensures Valid() && Steady() && Taut() && repr <= old(repr) + {tmp}
      ensures Contents() == old(Contents()) + data
    {
      hide Flat, PackedTo, LayoutOk, ChainList, SlotAt, View.Data;
      if remain != 0 {
        FillLast(chain, data[..remain]);
      }
      tmp.Fill(data[remain..]);
      ConcatSplit(old(Contents()), data, remain);
      ChainInsert(tmp);
    }

    /** The last chain with data has room for n more bytes. */
    ghost predicate RoomFor(n: nat)
      reads this
    {
      RoomAt(vs, lwd, n)
    }

    /** evbuffer_add */
    method Add(data: seq<byte>, memory: bool) returns (ok: bool)
      requires Valid()
      modifies this, repr
      ensures Valid() && Grown() && Taut()
      ensures Contents() == old(Contents()) + (if ok then data else [])
      ensures ok <==>
        !freezeEnd && |data| <= SIZE_MAX - old(totalLen) &&
        (old(RoomFor(|data|)) || (memory && |data| <= CHAIN_LIMIT))
      ensures ok && old(vs) == [] ==> |vs| == 1 && lwd == 0
      ensures ok && old(vs) == [] && |data| + CHAIN_SIZE <= MIN_BUFFER_SIZE ==>
        |vs[0].mem| + CHAIN_SIZE == MIN_BUFFER_SIZE
    {
      hide Flat, PackedTo, LayoutOk, ChainList, SlotAt, View.Data;
      if freezeEnd || |data| > SIZE_MAX - totalLen {
        return false;
      }
      LayoutBounds(vs, lwd, totalLen);
      var chain := ChainForAdd(|data|, memory);
      if chain == null {
        return false;
      }
      LinkedAt(lwd);
      LayoutOkAt(vs, lwd, totalLen, lwd);
      var remain := |chain.mem| - chain.misalign - chain.off;
      if remain >= |data| {
        FillLast(chain, data);
        ok := true;
      } else if chain.V().ShouldRealign(|data|) {
        AlignLast(chain);
        FillLast(chain, data);
        ok := true;
      } else {
        ok := AddChainFor(chain, remain, data, memory);
      }
    }
  
    /** Room in front of the data of the first chain, as evbuffer_prepend counts it. */
    ghost function FrontRoom(): nat
      reads this
    {
      if vs == [] then 0 else if vs[0].off == 0 then |vs[0].mem| else vs[0].misalign
    }

    /** Lets an empty first chain be filled from its end. */
    method OpenFront(chain: Chain)
      requires Valid() && spine != [] && chain == spine[0]
      modifies this`vs, chain`misalign
      ensures Valid() && Contents() == old(Contents()) && chain.misalign == old(FrontRoom())
      ensures |vs| == |old(vs)| && vs[0] == chain.V() && 0 < chain.off + chain.misalign
      ensures Steady() && Taut()
    {
      hide Flat, PackedTo, LayoutOk, View.Data, SlotAt;
      LayoutOkAt(vs, lwd, totalLen, 0);
      FirstView(this);
      if chain.off == 0 {
        NoBytes(chain.V());
        NoBytes(chain.V().(misalign := |chain.mem|));
        chain.misalign := |chain.mem|;
        GrowFirst(vs, lwd, totalLen, chain.V(), []);
        vs := vs[0 := chain.V()];
      }
    }

    /** Copies d in front of the data of the first chain, which has room for it. */
    method FillFirst(chain: Chain, d: seq<byte>)
      requires Valid() && spine != [] && chain == spine[0] && |d| <= chain.misalign
      modifies this`totalLen, this`vs, chain`mem, chain`off, chain`misalign
      ensures Valid() && Contents() == d + old(Contents()) && totalLen == old(totalLen) + |d|
      ensures vs != [] && vs[0] == chain.V() && chain.off == old(chain.off) + |d|
      ensures Steady() && Taut()
    {
      hide Flat, PackedTo, LayoutOk, View.Data;
      LayoutOkAt(vs, lwd, totalLen, 0);
      chain.PutBefore(d);
      GrowFirst(vs, lwd, totalLen, chain.V(), d);
      vs := vs[0 := chain.V()];
      totalLen := totalLen + |d|;
    }

    /** Puts a chain in front of a buffer that holds data. */
    method LinkFirst(tmp: Chain)
      requires Valid() && lwd < |spine| && 0 < vs[lwd].off
      requires tmp !in repr && tmp.next == null && tmp.V().Ok() && 0 < tmp.off
      modifies this, tmp`next
      ensures Valid() && Contents() == tmp.V().Data() + old(Contents())
      ensures repr == old(repr) + {tmp} && totalLen == old(totalLen) + tmp.off
      ensures Steady() && Taut()
    {
      hide Flat, PackedTo, LayoutOk, ChainList, SlotAt, View.Data;
      PushFirst(vs, lwd, totalLen, tmp.V());
      NoChains(this);
      SingletonList(tmp);
      SlotConcat([tmp], spine, lwd);
      SlotFirst([tmp], 1);
      SlotFirst(spine, lwd);
      var slot := if lastWithDatap == First then NextOf(tmp) else lastWithDatap;
      JoinChains(tmp, first, [tmp], [tmp.V()], {tmp}, spine, vs, repr);
      Install(tmp, last, slot, totalLen + tmp.off, [tmp] + spine, [tmp.V()] + vs, lwd + 1, {tmp} + repr);
    }

    /** evbuffer_prepend.  A failed allocation can leave part of the data behind. */
    method Prepend(data: seq<byte>, memory: bool) returns (ok: bool)
      requires Valid()
      modifies this, repr
      ensures Valid() && Grown() && Taut()
      ensures ok ==> Contents() == data + old(Contents())
      ensures !ok ==>
        var k := if freezeStart || SIZE_MAX - old(totalLen) < |data| then 0 else old(FrontRoom());
        k <= |data| && Contents() == data[|data| - k..] + old(Contents())
      ensures ok <==>
        !freezeStart && |data| <= SIZE_MAX - old(totalLen) &&
        if old(vs) != [] && |data| <= old(FrontRoom()) then true
        else memory && |data| - old(FrontRoom()) <= CHAIN_LIMIT
    {
      hide Flat, PackedTo, LayoutOk, ChainList;
      if freezeStart || |data| > SIZE_MAX - totalLen {
        return false;
      }
      NoChains(this);
      var chain := first;
      if chain == null {
        chain := ChainNew(|data|, memory);
        if chain == null {
          return false;
        }
        ChainInsert(chain);
      }
      OpenFront(chain);
      if chain.misalign >= |data| {
        FillFirst(chain, data);
        ok := true;
      } else {
        ok := PrependChainFor(chain, data, memory);
      }
    }

    /** The end of evbuffer_prepend: fills up the first chain and puts the rest of the
        data in a new chain before it. */
    method PrependChainFor(chain: Chain, data: seq<byte>, memory: bool) returns (ok: bool)
      requires Valid() && spine != [] && chain == spine[0] && chain in repr && vs[0] == chain.V()
      requires chain.misalign < |data| && 0 < chain.off + chain.misalign
      modifies this, repr
      ensures Valid() && Grown() && Taut()
      ensures Contents() == (if ok then data else data[|data| - old(chain.misalign)..]) + old(Contents())
      ensures ok <==> memory && |data| - old(chain.misalign) <= CHAIN_LIMIT
    {
      hide Flat, PackedTo, LayoutOk, ChainList, SlotAt, View.Data;
      var m := chain.misalign;
      if m != 0 {
        FillFirst(chain, data[|data| - m..]);
      }
      ConcatBack(data, m, old(Contents()));
      var tmp := ChainEndingIn(data[..|data| - m], memory);
      if tmp == null {
        return false;
      }
      LayoutOkAt(vs, lwd, totalLen, 0);
      LinkFirst(tmp);
      return true;
    }

    /** ZERO_CHAIN, after every chain has been freed. */
    method ZeroChain()
      modifies this
      ensures Valid() && Contents() == [] && spine == [] && repr == {}
      ensures Steady() && Taut()
    {
      first, last, lastWithDatap, totalLen := null, null, First, 0;
      spine, vs, lwd, repr := [], [], 0, {};
    }

    /** Drops the first i chains, of which the slots are already forgotten, and the first
        r bytes of the next one. */
    method DropChains(chain: Chain, r: nat, ghost i: nat)
      requires Linked() && i <= lwd < |spine| && chain == spine[i] && r < chain.off
      requires last == spine[|spine| - 1]
      requires lastWithDatap == if i == lwd then First else SlotAt(spine, lwd)
      requires LayoutOk(vs, lwd, |Flat(vs)|) && totalLen == |Flat(vs)| - |Flat(vs[..i])| - r
      modifies this, chain`misalign, chain`off
      ensures Valid() && Contents() == old(Contents())[|Flat(old(vs)[..i])| + r..] && repr == old(repr)
      ensures Steady() && Taut()
    {
      hide Flat, PackedTo, LayoutOk, ChainList, SlotAt, View.Data;
      LinkedAt(i);
      DropFirst(vs, lwd, |Flat(vs)|, i, r);
      SlotSuffix(spine, i, lwd);
      DropList(spine, vs, repr, i);
      UseUpFirst(chain, r, spine[i..], vs[i..], repr);
      FirstChanged(vs, i, r);
      Install(chain, last, lastWithDatap, totalLen, spine[i..], vs[i..][0 := chain.V()], lwd - i, repr);
    }

    /** The loop of evbuffer_drain: passes the chains that are dropped whole. */
    method SkipWhole(len: nat, ghost total: nat) returns (chain: Chain, remaining: nat, ghost i: nat)
      requires Linked() && lwd < |spine| && lastWithDatap == SlotAt(spine, lwd) && LayoutOk(vs, lwd, total)
      requires len < total
      modifies `lastWithDatap
      ensures Linked() && i <= lwd && chain == spine[i] && chain in repr && remaining < chain.off
      ensures lastWithDatap == if i == lwd then First else SlotAt(spine, lwd)
      ensures |Flat(vs[..i])| + remaining == len
    {
      hide Flat, LayoutOk, ChainList, SlotAt;
      LinkedAt(0);
      SlotFirst(spine, lwd);
      chain, remaining, i := first, len, 0;
      FlatEmpty(vs[..0]);
      while remaining >= chain.off
        invariant Linked() && i <= lwd && chain == spine[i] && chain in repr
        invariant lastWithDatap == if i == lwd then First else SlotAt(spine, lwd)
        invariant |Flat(vs[..i])| + remaining == len
        decreases lwd - i
      {
        LinkedAt(i);
        BeforeLast(vs, lwd, total, i, len);
        SlotLinks(lwd, i);
        LinkedAt(i + 1);
        var next := chain.next;
        remaining := remaining - chain.off;
        var slot := if chain == Deref(lastWithDatap) then First else lastWithDatap;
        lastWithDatap := if slot == NextOf(chain) then First else slot;
        chain := next;
        i := i + 1;
      }
    }

    /** evbuffer_drain */
    method Drain(len: nat) returns (ok: bool)
      requires Valid()
      modifies this, repr
      ensures Valid() && Grown() && Taut()
      ensures ok <==> old(totalLen) == 0 || !freezeStart
      ensures Contents() == if !ok then old(Contents())
                            else if len < old(totalLen) then old(Contents())[len..] else []
    {
      hide Flat, PackedTo, LayoutOk, ChainList, SlotAt;
      LayoutSize(vs, lwd, totalLen);
      if totalLen == 0 {
        return true;
      }
      if freezeStart {
        return false;
      }
      if len >= totalLen {
        ZeroChain();
        return true;
      }
      ghost var total := totalLen;
      totalLen := totalLen - len;
      var chain, remaining; ghost var i;
      chain, remaining, i := SkipWhole(len, total);
      DropChains(chain, remaining, i);
      return true;
    }

    /** The index of the chain a pointer names. */
    lemma PtrIndex(p: Ptr) returns (k: nat)
      requires Valid() && Denotes(p)
      ensures if p.chain == null then k == |spine| && p.pos == totalLen else PtrAt(p, k)
      ensures k <= |spine| && p.chain == At(spine, k) && 0 <= p.pos <= totalLen
    {
      if p.chain == null {
        k := |spine|;
      } else {
        k :| PtrAt(p, k);
        FlatWindow(vs, k);
      }
    }

    /** What a valid buffer says about its sizes. */
    lemma Sizes()
      requires Valid()
      ensures |vs| == |spine| && |Contents()| == totalLen && first == At(spine, 0)
      ensures |Flat(vs[..0])| == 0 && |Flat(vs[..|spine|])| == totalLen
    {
      hide Flat;
      LayoutSize(vs, lwd, totalLen);
      FlatEmpty(vs[..0]);
      assert vs[..|spine|] == vs;
    }

    lemma Parts()
      requires Valid()
      ensures Linked() && LayoutOk(vs, lwd, totalLen) && lwd <= |spine| && lastWithDatap == SlotAt(spine, lwd)
      ensures last == if spine == [] then null else spine[|spine| - 1]
    {
    }

    /** What a linked buffer says about chain k and the slots around it. */
    lemma LinkedAt(k: nat)
      requires Linked() && k < |spine|
      ensures spine[k] in repr && vs[k] == spine[k].V() && spine[k].next == At(spine, k + 1) && spine[0] == first
      ensures Deref(SlotAt(spine, k)) == spine[k] && SlotAt(spine, k + 1) == NextOf(spine[k])
    {
    }

    /** The slot of chain k lies in the chain before it, and in no other. */
    lemma SlotLinks(k: nat, i: nat)
      requires Linked() && i <= k < |spine|
      ensures SlotAt(spine, k) == NextOf(spine[i]) <==> i + 1 == k
      ensures Deref(SlotAt(spine, k)) == spine[i] <==> i == k
    {
    }

    /** What a walk along the list finds at chain k. */
    lemma Here(k: nat)
      requires Valid() && k < |spine|
      ensures |vs| == |spine| && vs[k] == spine[k].V() && vs[k].Ok() && spine[k].next == At(spine, k + 1)
      ensures vs[k].off == spine[k].off && spine[k].misalign + spine[k].off <= |spine[k].mem|
      ensures |Flat(vs[..k + 1])| == |Flat(vs[..k])| + vs[k].off <= totalLen == |Contents()|
    {
      hide Flat;
      LayoutSize(vs, lwd, totalLen);
      LayoutOkAt(vs, lwd, totalLen, k);
      FlatWindow(vs, k);
    }

    /** Bytes a..b of chain k's data, as bytes of the contents. */
    lemma HerePart(k: nat, a: nat, b: nat)
      requires Valid() && k < |spine| && a <= b <= vs[k].off
      ensures vs[k] == spine[k].V() && vs[k].Ok() && |Flat(vs[..k])| + b <= |Contents()|
      ensures var n := |Flat(vs[..k])|; var c := spine[k];
              Contents()[n + a..n + b] == c.mem[c.misalign + a..c.misalign + b]
    {
      hide Flat;
      Here(k);
      FlatPart(vs, k, a, b);
    }

    /** Copies bytes a..b of chain k's data, which continue what was copied from p on. */
    method CopyPart(chain: Chain, a: nat, b: nat, ghost k: nat, ghost p: nat) returns (d: seq<byte>)
      requires Valid() && k < |spine| && chain == spine[k] && a <= b <= vs[k].off && p <= |Flat(vs[..k])| + a
      ensures |d| == b - a && |Flat(vs[..k])| + b <= |Contents()|
      ensures var n := |Flat(vs[..k])|; Contents()[p..n + a] + d == Contents()[p..n + b]
    {
      hide Flat, Valid, Contents;
      Here(k);
      HerePart(k, a, b);
      ghost var n := |Flat(vs[..k])|;
      SliceJoin(Contents(), p, n + a, n + b);
      d := chain.mem[chain.misalign + a..chain.misalign + b];
    }

    /** All bytes lie before the end of the list. */
    lemma AtEnd(k: nat)
      requires Valid() && k <= |spine|
      ensures k == |spine| ==> |Flat(vs[..k])| == totalLen
    {
      hide Valid;
      Sizes();
    }

    /** The copying loop: n bytes from place posInChain of chain k on. */
    method CopyBytes(from: Chain, start: nat, n: nat, ghost k0: nat) returns (out: seq<byte>)
      requires Valid() && k0 < |spine| && from == spine[k0] && start <= vs[k0].off
      requires |Flat(vs[..k0])| + start + n <= totalLen
      ensures var p := |Flat(vs[..k0])| + start; out == Contents()[p..p + n]
    {
      hide Flat, Valid, Contents, Chain.V, View.Ok, View.Data;
      Sizes();
      var chain: Chain?, posInChain: nat, left: nat := from, start, n;
      ghost var p, k := |Flat(vs[..k0])| + start, k0;
      out := [];
      while left != 0 && left >= chain.off - posInChain
        invariant k <= |spine| && chain == At(spine, k) && |out| + left == n
        invariant p + |out| == |Flat(vs[..k])| + posInChain && out == Contents()[p..p + |out|]
        invariant if k == |spine| then posInChain == 0 && left == 0 else posInChain <= vs[k].off
        decreases |spine| - k
      {
        Here(k);
        var d := CopyPart(chain, posInChain, chain.off, k, p);
        out := out + d;
        left := left - (chain.off - posInChain);
        chain := chain.next;
        posInChain := 0;
        k := k + 1;
        AtEnd(k);
      }
      if left != 0 {
        Here(k);
        var d := CopyPart(chain, posInChain, posInChain + left, k, p);
        out := out + d;
      }
    }

    /** evbuffer_copyout_from: the bytes copied, or None for -1. */
    method CopyoutFrom(pos: Option<Ptr>, datlen: nat) returns (r: Option<seq<byte>>)
      requires Valid() && (pos.Some? ==> Denotes(pos.value))
      ensures var p := if pos.Some? then pos.value.pos else 0;
              var n := if p + datlen <= totalLen then datlen else totalLen - p;
              0 <= p <= totalLen && 0 <= n &&
              if pos.Some? && SSIZE_MAX - p < datlen then r == None
              else if n == 0 then r == Some([])
              else if freezeStart then r == None
              else r == Some(Contents()[p..p + n])
    {
      hide Flat, PackedTo;
      var chain: Chain?, posInChain: nat, p := first, 0, 0;
      ghost var k: nat := 0;
      FlatEmpty(vs[..0]);
      if pos.Some? {
        p, chain, posInChain := pos.value.pos, pos.value.chain, pos.value.posInChain;
        k := PtrIndex(pos.value);
        if datlen > SSIZE_MAX - p {
          return None;
        }
      }
      var left := if p + datlen > totalLen then totalLen - p else datlen;
      if left == 0 {
        return Some([]);
      }
      if freezeStart {
        return None;
      }
      var out := CopyBytes(chain, posInChain, left, k);
      return Some(out);
    }

    /** evbuffer_remove: the bytes removed, or None for -1. */
    method Remove(datlen: nat) returns (r: Option<seq<byte>>)
      requires Valid()
      modifies this, repr
      ensures Valid() && Grown() && Taut()
      ensures r == None <==> freezeStart && 0 < datlen && 0 < old(totalLen)
      ensures r.Some? ==>
        old(Contents()) == r.value + Contents() && |r.value| == if datlen < old(totalLen) then datlen else old(totalLen)
      ensures r == None ==> Contents() == old(Contents())
    {
      hide Flat, PackedTo;
      r := CopyoutFrom(None, datlen);
      if r.Some? && 0 < |r.value| {
        var ok := Drain(|r.value|);
        if !ok {
          r := None;
        }
      }
    }
  
    /** COPY_CHAIN */
    method CopyChain(src: Evbuffer)
      requires src.Valid() && src != this
      modifies this
      ensures Valid() && Contents() == src.Contents() && repr == src.repr
      ensures SameFreeze() && Packed() == src.Packed() && Trim() == src.Trim()
    {
      hide Flat, PackedTo, LayoutOk, ChainList, SlotAt;
      var slot := if src.lastWithDatap == First then First else src.lastWithDatap;
      Install(src.first, src.last, slot, src.totalLen, src.spine, src.vs, src.lwd, src.repr);
    }

    /** APPEND_CHAIN */
    method AppendChain(src: Evbuffer)
      requires Valid() && src.Valid() && src != this && repr !! src.repr && 0 < src.totalLen
      modifies this, repr`next
      ensures Valid() && Contents() == old(Contents()) + src.Contents() && repr == old(repr) + src.repr
      ensures vs == old(vs)[..old(Kept(vs, lwd))] + src.vs && lwd == old(Kept(vs, lwd)) + src.lwd
      ensures SameFreeze() && (old(Packed()) && src.Packed() ==> Packed()) && (src.Trim() ==> Trim())
    {
      hide Flat, PackedTo, LayoutOk, ChainList, SlotAt, Kept;
      ghost var k := Kept(vs, lwd);
      JoinKept(vs, lwd, totalLen, src.vs, src.lwd, src.totalLen);
      SlotConcat(spine[..k], src.spine, src.lwd);
      SlotFirst(src.spine, src.lwd);
      var chp := ReplaceEmptyTail(src.first, src.spine, src.vs, src.repr);
      var slot := if src.lastWithDatap == First then chp else src.lastWithDatap;
      Settle(src.last, slot, totalLen + src.totalLen, k + src.lwd);
    }

    /** evbuffer_add_buffer: moves everything in src to the end of this buffer. */
    method AddBuffer(src: Evbuffer) returns (ok: bool)
      requires Valid() && src.Valid() && (src != this ==> repr !! src.repr)
      modifies this, repr, src
      ensures Valid() && src.Valid()
      ensures src != this ==> repr !! src.repr && repr <= old(repr + src.repr) && src.repr <= old(src.repr)
      ensures ok <==> src == this || old(src.totalLen) == 0 || !(freezeEnd || src.freezeStart)
      ensures if src == this || old(src.totalLen) == 0 || !ok
              then Contents() == old(Contents()) && src.Contents() == old(src.Contents())
              else Contents() == old(Contents()) + old(src.Contents()) && src.Contents() == []
      ensures Contents() != old(Contents()) && 0 < old(totalLen) ==>
        vs == old(vs)[..old(Kept(vs, lwd))] + old(src.vs) && lwd == old(Kept(vs, lwd)) + old(src.lwd)
      ensures SameFreeze() && (old(Packed() && src.Packed()) ==> Packed()) && (old(Trim() && src.Trim()) ==> Trim())
      ensures src.Steady() && src.Taut()
    {
      hide Flat, PackedTo, LayoutOk, ChainList;
      if src.totalLen == 0 || src == this {
        return true;
      }
      if freezeEnd || src.freezeStart {
        return false;
      }
      LayoutSize(vs, lwd, totalLen);
      if totalLen == 0 {
        CopyChain(src);
      } else {
        AppendChain(src);
      }
      src.ZeroChain();
      return true;
    }

    /** Links src's list before this one. */
    method LinkBefore(src: Evbuffer)
      requires Valid() && src.Valid() && src != this && repr !! src.repr && src.spine != []
      modifies this`first, this`spine, this`vs, this`repr, src.repr`next
      ensures Linked() && first == src.first
      ensures spine == src.spine + old(spine) && vs == src.vs + old(vs) && repr == src.repr + old(repr)
    {
      hide Flat, PackedTo, LayoutOk, ChainList;
      NoChains(src);
      JoinChains(src.last, first, src.spine, src.vs, src.repr, spine, vs, repr);
      first := src.first;
      spine, vs, repr := src.spine + spine, src.vs + vs, src.repr + repr;
    }

    /** PREPEND_CHAIN */
    method PrependChain(src: Evbuffer)
      requires Valid() && src.Valid() && src != this && repr !! src.repr && 0 < totalLen && 0 < src.totalLen
      modifies this, src.repr`next
      ensures Valid() && Contents() == src.Contents() + old(Contents()) && repr == old(repr) + src.repr
      ensures vs == src.vs + old(vs) && lwd == |src.vs| + old(lwd)
      ensures SameFreeze() && (old(Packed() && src.Packed() && src.Trim()) ==> Packed())
      ensures (old(Trim() && src.Trim()) ==> Trim())
    {
      hide Flat, PackedTo, LayoutOk, ChainList, SlotAt;
      LayoutSize(vs, lwd, totalLen);
      LayoutSize(src.vs, src.lwd, src.totalLen);
      LayoutAllOk(src.vs, src.lwd, src.totalLen);
      JoinLists(src.vs, src.totalLen, vs, lwd, totalLen);
      FullyPacked(src.vs, src.lwd, src.totalLen);
      NoChains(src);
      NoChains(this);
      SlotConcat(src.spine, spine, lwd);
      SlotFirst(spine, lwd);
      SlotFirst(src.spine, |src.spine|);
      var srcSlot := if src.lastWithDatap == First then First else src.lastWithDatap;
      LinkBefore(src);
      var slot :=
        if Deref(lastWithDatap) == null then srcSlot
        else if lastWithDatap == First then NextOf(src.last)
        else lastWithDatap;
      Settle(last, slot, totalLen + src.totalLen, |src.spine| + lwd);
    }

    /** evbuffer_prepend_buffer: moves everything in src to the front of this buffer. */
    method PrependBuffer(src: Evbuffer) returns (ok: bool)
      requires Valid() && src.Valid() && (src != this ==> repr !! src.repr)
      modifies this, repr, src, src.repr
      ensures Valid() && src.Valid()
      ensures src != this ==> repr !! src.repr && repr <= old(repr + src.repr) && src.repr <= old(src.repr)
      ensures ok <==> src == this || old(src.totalLen) == 0 || !(freezeStart || src.freezeStart)
      ensures if src == this || old(src.totalLen) == 0 || !ok
              then Contents() == old(Contents()) && src.Contents() == old(src.Contents())
              else Contents() == old(src.Contents()) + old(Contents()) && src.Contents() == []
      ensures Contents() != old(Contents()) && 0 < old(totalLen) ==>
        vs == old(src.vs) + old(vs) && lwd == |old(src.vs)| + old(lwd)
      ensures SameFreeze() && (old(Packed() && src.Packed() && src.Trim()) ==> Packed())
      ensures (old(Trim() && src.Trim()) ==> Trim())
      ensures src.Steady() && src.Taut()
    {
      hide Flat, PackedTo, LayoutOk, ChainList;
      if src.totalLen == 0 || src == this {
        return true;
      }
      if freezeStart || src.freezeStart {
        return false;
      }
      LayoutSize(vs, lwd, totalLen);
      if totalLen == 0 {
        CopyChain(src);
      } else {
        PrependChain(src);
      }
      src.ZeroChain();
      return true;
    }
  
    /** The copying part of evbuffer_pullup: size0 bytes from the chains `rest` on go to
        position `start` of tmp.  Tells which chain the copy ended in, how many bytes of it
        were used, and whether the last chain with data or the one before it went. */
    method CopyUp(tmp: Chain, head: Chain?, start: nat, size0: nat, lastWithData: Chain?,
                  ghost rest: seq<Chain>, ghost ws: seq<View>, ghost r: set<Chain>,
                  ghost base: seq<byte>, ghost lastAt: nat)
      returns (chain: Chain?, size: nat, removedLast: bool, removedLastp: bool, ghost j: nat)
      requires |ws| == |rest| && ChainList(head, rest, ws, r) && tmp !in r && AllOk(ws)
      requires tmp.misalign + |base| == start && start + size0 <= |tmp.mem|
      requires tmp.mem[tmp.misalign..start] == base && size0 <= |Flat(ws)|
      requires lastAt < |rest| && lastWithData == rest[lastAt] && lastWithDatap.NextOf?
      requires if lastAt == 0 then lastWithDatap.chain !in r else lastWithDatap.chain == rest[lastAt - 1]
      modifies tmp`mem
      ensures j <= |rest| && chain == At(rest, j)
      ensures if j < |rest| then size < ws[j].off else size == 0
      ensures |Flat(ws[..j])| + size == size0
      ensures removedLast <==> lastAt < j
      ensures removedLastp <==> 1 <= lastAt <= j
      ensures |tmp.mem| == old(|tmp.mem|)
      ensures Received(tmp.mem, tmp.misalign, start + size0, base, ws)
    {
      hide Flat, PackedTo, Received;
      var p := start;
      chain, size, removedLast, removedLastp := head, size0, false, false;
      j := 0;
      FlatEmpty(ws[..0]);
      ReceivedBase(tmp.mem, tmp.misalign, p, base, ws);
      while chain != null && size >= chain.off
        invariant j <= |rest| && chain == At(rest, j) && ChainList(head, rest, ws, r)
        invariant |Flat(ws[..j])| + size == size0 && p == start + size0 - size
        invariant removedLast <==> lastAt < j
        invariant removedLastp <==> 1 <= lastAt <= j
        invariant |tmp.mem| == old(|tmp.mem|)
        invariant Received(tmp.mem, tmp.misalign, p, base, ws)
        decreases |rest| - j
      {
        assert ws[j] == chain.V();
        tmp.CopyFrom(p, chain, chain.off, base, ws, j);
        size := size - chain.off;
        p := p + chain.off;
        if chain == lastWithData {
          removedLast := true;
        }
        if NextOf(chain) == lastWithDatap {
          removedLastp := true;
        }
        chain := chain.next;
        j := j + 1;
      }
      WholePrefix(ws, j);
      if chain != null {
        assert ws[j] == chain.V();
        tmp.CopyFrom(p, chain, size, base, ws, j);
      }
    }
  
    /** Uses up `size` bytes of `chain` and links tmp, now with n bytes, before it. */
    method RelinkPulled(tmp: Chain, chain: Chain?, n: nat, size: nat,
                        ghost rest: seq<Chain>, ghost ws: seq<View>, ghost r: set<Chain>, ghost j: nat)
      requires |ws| == |rest| && rest != [] && ChainList(rest[0], rest, ws, r) && tmp !in r
      requires j <= |rest| && chain == At(rest, j) && (if j < |rest| then size < ws[j].off else size == 0)
      modifies tmp`off, tmp`next, r`misalign, r`off
      ensures tmp.off == n && tmp.next == chain
      ensures ChainList(tmp, [tmp] + rest[j..], PulledUp(tmp.V(), ws, j, size), r + {tmp})
      ensures chain != null ==> 0 < chain.off
    {
      hide ChainList, PulledUp;
      ghost var w := ws[j..];
      DropList(rest, ws, r, j);
      if chain != null {
        FirstOfList(chain, rest[j..], w, r);
        UseUpFirst(chain, size, rest[j..], w, r);
        w := w[0 := chain.V()];
      }
      tmp.next := chain;
      tmp.off := n;
      ConsList(tmp, chain, rest[j..], w, r);
      PulledAs(tmp.V(), ws, j, size);
    }

    /** Makes tmp followed by what is left of `rest` the list of this buffer. */
    method AdoptPulled(tmp: Chain, chain: Chain?, n: nat, size: nat,
                       ghost rest: seq<Chain>, ghost ws: seq<View>, ghost r: set<Chain>, ghost j: nat)
      requires first == tmp && |ws| == |rest| && rest != [] && ChainList(rest[0], rest, ws, r) && tmp !in r
      requires j <= |rest| && chain == At(rest, j) && (if j < |rest| then size < ws[j].off else size == 0)
      modifies this`spine, this`vs, this`repr, tmp`off, tmp`next, r`misalign, r`off
      ensures Linked() && spine == [tmp] + rest[j..] && repr == r + {tmp}
      ensures vs == PulledUp(View(tmp.mem, tmp.misalign, n), ws, j, size)
      ensures tmp.next == chain && (chain != null ==> 0 < chain.off)
    {
      hide ChainList, PulledUp;
      RelinkPulled(tmp, chain, n, size, rest, ws, r, j);
      spine, vs, repr := [tmp] + rest[j..], PulledUp(tmp.V(), ws, j, size), r + {tmp};
    }

    /** The end of evbuffer_pullup: the list becomes tmp followed by what is left of `rest`. */
    method FinishPullup(tmp: Chain, chain: Chain?, n: nat, size: nat, removedLast: bool, removedLastp: bool,
                        ghost rest: seq<Chain>, ghost ws: seq<View>, ghost r: set<Chain>,
                        ghost base: seq<byte>, ghost lastAt: nat, ghost j: nat)
      requires |ws| == |rest| && rest != [] && ChainList(rest[0], rest, ws, r) && tmp !in r && AllOk(ws)
      requires first == tmp && last == rest[|rest| - 1] && totalLen == |base + Flat(ws)|
      requires lastAt < |rest| && lastWithDatap == NextOf(if lastAt == 0 then tmp else rest[lastAt - 1])
      requires 0 < ws[lastAt].off && AllEmpty(ws[lastAt + 1..])
      requires j <= |rest| && chain == At(rest, j) && (if j < |rest| then size < ws[j].off else size == 0)
      requires 0 < n == |base| + |Flat(ws[..j])| + size
      requires removedLast <==> lastAt < j
      requires removedLastp <==> 1 <= lastAt <= j
      requires tmp.misalign + n <= |tmp.mem| <= CHAIN_LIMIT
      requires Received(tmp.mem, tmp.misalign, tmp.misalign + n, base, ws)
      modifies this, tmp`off, tmp`next, r
      ensures Valid() && Contents() == base + Flat(ws) && repr == r + {tmp}
      ensures totalLen == old(totalLen) && vs != [] && vs[0].off == n
      ensures SameFreeze() && (PackedTo(ws, lastAt) ==> Packed()) && (|ws| <= lastAt + 1 ==> Trim())
    {
      hide Flat, PackedTo, Received, LayoutOk, ChainList, SlotAt, AllOk, AllEmpty, PulledUp;
      PulledSlots(tmp, rest, j, lastAt);
      PullUp(base, ws, lastAt, View(tmp.mem, tmp.misalign, n), j, size);
      if PackedTo(ws, lastAt) {
        PullUpPacked(ws, lastAt, View(tmp.mem, tmp.misalign, n), j, size);
      }
      AdoptPulled(tmp, chain, n, size, rest, ws, r, j);
      var slot :=
        if removedLast then First
        else if removedLastp then
          (if first.next != null && first.next.off != 0 then NextOf(first) else First)
        else lastWithDatap;
      Settle(if chain == null then tmp else last, slot, totalLen, if lastAt < j then 0 else lastAt - j + 1);
    }

    /** evbuffer_pullup when the first chain has room for n bytes. */
    method PullupInPlace(n: nat)
      requires Valid() && spine != [] && vs[0].off < n <= totalLen && n <= |vs[0].mem| - vs[0].misalign
      modifies this, repr
      ensures Valid() && Contents() == old(Contents()) && repr == old(repr)
      ensures totalLen == old(totalLen) && vs != [] && vs[0].off == n
      ensures Steady() && Taut()
    {
      hide Flat, PackedTo, Received, LayoutOk, ChainList, View.Data;
      var tmp := first;
      NoChains(this);
      NeedsMore(vs, lwd, totalLen, n);
      FirstView(this);
      LayoutSize(vs, lwd, totalLen);
      TailList(first, spine, vs, repr);
      ghost var rest, ws, r, base := spine[1..], vs[1..], repr - {tmp}, vs[0].Data();
      var lastWithData := Deref(lastWithDatap);
      SlotIn(this);
      var chain, size, gone, gonep; ghost var j;
      chain, size, gone, gonep, j :=
        CopyUp(tmp, tmp.next, tmp.misalign + tmp.off, n - tmp.off, lastWithData, rest, ws, r, base, lwd - 1);
      FinishPullup(tmp, chain, n, size, gone, gonep, rest, ws, r, base, lwd - 1, j);
    }
  
    /** evbuffer_pullup when n bytes need a new chain. */
    method PullupNew(tmp: Chain, n: nat)
      requires Valid() && spine != [] && vs[0].off < n <= totalLen
      requires tmp !in repr && tmp.misalign == 0 && n <= |tmp.mem| <= CHAIN_LIMIT
      modifies this, repr, tmp
      ensures Valid() && Contents() == old(Contents()) && repr == old(repr) + {tmp}
      ensures totalLen == old(totalLen) && vs != [] && vs[0].off == n
      ensures Steady() && Taut()
    {
      hide Flat, PackedTo, Received, LayoutOk, ChainList;
      var chain := first;
      NoChains(this);
      NeedsMore(vs, lwd, totalLen, n);
      LayoutSize(vs, lwd, totalLen);
      SlotIn(this);
      assert [] + Flat(vs) == Flat(vs);
      ghost var head := first;
      first := tmp;
      var lastWithData := Deref(lastWithDatap);
      var size, gone, gonep; ghost var j;
      chain, size, gone, gonep, j := CopyUp(tmp, chain, 0, n, lastWithData, spine, vs, repr, [], lwd);
      FinishPullup(tmp, chain, n, size, gone, gonep, spine, vs, repr, [], lwd, j);
    }

    /** evbuffer_pullup: makes the first bytes of the buffer contiguous. */
    method Pullup(size: int, memory: bool) returns (r: Option<seq<byte>>)
      requires Valid()
      modifies this, repr
      ensures Valid() && Grown() && Taut() && Contents() == old(Contents()) && totalLen == old(totalLen)
      ensures var n := if size < 0 then totalLen else size;
              if n == 0 || totalLen < n then r == None
              else
                && (r.Some? <==>
                      old(vs) != [] && (n <= |old(vs)[0].mem| - old(vs)[0].misalign || (memory && n <= CHAIN_LIMIT)))
                && (r.Some? ==> first != null && n <= first.off && r.value == Contents()[..n])
    {
      hide Flat, PackedTo, LayoutOk, ChainList, Evbuffer.Valid;
      var n: nat := if size < 0 then totalLen else size;
      if n == 0 || n > totalLen {
        return None;
      }
      SomeChain(this);
      var ok := Gather(n, memory);
      if !ok {
        return None;
      }
      SomeChain(this);
      FirstBytes(vs, n);
      r := Some(first.mem[first.misalign..first.misalign + n]);
    }

    /** Brings the first n bytes together in the first chain. */
    method Gather(n: nat, memory: bool) returns (ok: bool)
      requires Valid() && 0 < n <= totalLen && vs != []
      modifies this, repr
      ensures Valid() && Grown() && Taut() && Contents() == old(Contents()) && totalLen == old(totalLen)
      ensures ok <==> n <= |old(vs)[0].mem| - old(vs)[0].misalign || (memory && n <= CHAIN_LIMIT)
      ensures ok ==> vs != [] && n <= vs[0].off
    {
      hide Flat, PackedTo, LayoutOk, ChainList, Evbuffer.Valid;
      SomeChain(this);
      if first.off < n {
        if |first.mem| - first.misalign >= n {
          PullupInPlace(n);
        } else {
          var tmp := ChainNew(n, memory);
          if tmp == null {
            return false;
          }
          PullupNew(tmp, n);
        }
      }
      return true;
    }

    /** advance_last_with_data */
    method AdvanceLastWithData()
      requires Linked() && lwd < |spine| && lastWithDatap == SlotAt(spine, lwd)
      modifies this`lastWithDatap, this`lwd
      ensures lwd == AdvanceFrom(vs, old(lwd)) && lastWithDatap == SlotAt(spine, lwd)
    {
      while Deref(lastWithDatap).next != null && Deref(lastWithDatap).next.off != 0
        invariant lwd < |spine| && lastWithDatap == SlotAt(spine, lwd)
        invariant AdvanceFrom(vs, lwd) == AdvanceFrom(vs, old(lwd))
        decreases |spine| - lwd
      {
        assert Deref(lastWithDatap) == spine[lwd] && vs[lwd + 1] == spine[lwd + 1].V();
        lastWithDatap := NextOf(Deref(lastWithDatap));
        lwd := lwd + 1;
      }
      assert Deref(lastWithDatap) == spine[lwd];
      assert lwd + 1 < |spine| ==> vs[lwd + 1] == spine[lwd + 1].V();
    }

    /** The loop of evbuffer_remove_buffer: passes the chains that can be moved whole. */
    method PassWhole(datlen: nat) returns (chain: Chain, previous: Chain, nread: nat, left: nat, ghost k: nat)
      requires Valid() && datlen < totalLen
      modifies this`lastWithDatap
      ensures Linked() && k == WholeChains(vs, datlen) <= lwd < |spine|
      ensures chain == spine[k] && previous == spine[if k == 0 then 0 else k - 1]
      ensures nread == |Flat(vs[..k])| && nread + left == datlen && left < vs[k].off
      ensures lastWithDatap == if 0 < k == lwd then First else SlotAt(spine, lwd)
      ensures first == spine[0] && previous in repr && chain in repr && vs[k] == chain.V()
    {
      hide Flat, PackedTo, LayoutOk, WholeChains, ChainList, SlotAt;
      LayoutSize(vs, lwd, totalLen);
      LinkedAt(0);
      chain, previous, nread, left := first, first, 0, datlen;
      k := 0;
      FlatEmpty(vs[..0]);
      assert vs[0..] == vs;
      while chain.off <= left
        modifies this`lastWithDatap
        invariant Linked() && k <= lwd < |spine| && chain in repr && previous in repr
        invariant chain == spine[k] && previous == spine[if k == 0 then 0 else k - 1]
        invariant nread == |Flat(vs[..k])| && nread + left == datlen
        invariant WholeChains(vs, datlen) == k + WholeChains(vs[k..], left)
        invariant lastWithDatap == if 0 < k == lwd then First else SlotAt(spine, lwd)
        decreases lwd - k
      {
        LinkedAt(k);
        BeforeLast(vs, lwd, totalLen, k, datlen);
        SlotLinks(lwd, k);
        LinkedAt(k + 1);
        WholeStep(vs, k, left);
        nread := nread + chain.off;
        left := left - chain.off;
        previous := chain;
        if lastWithDatap == NextOf(chain) {
          lastWithDatap := First;
        }
        chain := chain.next;
        k := k + 1;
      }
      LinkedAt(k);
      WholeStop(vs, k, left);
    }
  
    /** Takes the chains that start at head to the end, and looks for the last chain with
        data from where it was. */
    method TakeChains(head: Chain, previous: Chain, nread: nat,
                      ghost s: seq<Chain>, ghost w: seq<View>, ghost m: set<Chain>)
      requires Valid() && s != [] && |w| == |s| && ChainList(head, s, w, m) && repr !! m
      requires AllOk(w) && nread == |Flat(w)| && previous == s[|s| - 1]
      requires var d := Kept(vs, lwd); d <= |vs| && NoGapAfter(vs[..d] + w, lwd)
      modifies this, repr`next
      ensures Valid() && Contents() == old(Contents()) + Flat(w) && repr == old(repr) + m
      ensures vs == old(vs)[..old(Kept(vs, lwd))] + w && old(lwd) < |vs| && lwd == AdvanceFrom(vs, old(lwd))
      ensures SameFreeze() && (old(Packed()) && PackedTo(w, |w|) ==> Packed()) && (PackedTo(w, |w|) ==> Trim())
    {
      hide Flat, PackedTo, LayoutOk, ChainList, AdvanceFrom, SlotAt, NoGapAfter;
      MoveLayout(vs, lwd, totalLen, w);
      LayoutBounds(vs, lwd, totalLen);
      ghost var d := Kept(vs, lwd);
      SlotPrefix(spine, d, s, lwd);
      var _ := ReplaceEmptyTail(head, s, w, m);
      AdvanceLastWithData();
      Settle(previous, lastWithDatap, totalLen + nread, lwd);
    }

    /** Moves the first k chains to the end of dst. */
    method MoveWhole(dst: Evbuffer, chain: Chain, previous: Chain, nread: nat, ghost k: nat)
      requires dst != this && dst.Valid() && repr !! dst.repr
      requires Linked() && 0 < k <= lwd < |spine| && chain == spine[k] && previous == spine[k - 1]
      requires first == spine[0] && previous in repr && AllOk(vs[..k]) && nread == |Flat(vs[..k])|
      requires var d := Kept(dst.vs, dst.lwd); d <= |dst.vs| && NoGapAfter(dst.vs[..d] + vs[..k], dst.lwd)
      modifies this`first, this`spine, this`vs, this`lwd, this`repr, previous`next, dst, dst.repr`next
      ensures Linked() && spine == old(spine)[k..] && vs == old(vs)[k..] && lwd == old(lwd) - k
      ensures chain in repr && chain.V() == old(vs)[k]
      ensures dst.Valid() && dst.Contents() == old(dst.Contents()) + Flat(old(vs)[..k])
      ensures repr !! dst.repr && repr <= old(repr) && dst.repr <= old(dst.repr + repr)
      ensures dst.SameFreeze() && (old(dst.Packed()) && PackedTo(old(vs)[..k], k) ==> dst.Packed())
      ensures PackedTo(old(vs)[..k], k) ==> dst.Trim()
      ensures dst.vs == old(dst.vs)[..old(Kept(dst.vs, dst.lwd))] + old(vs)[..k]
      ensures old(dst.lwd) < |dst.vs| && dst.lwd == AdvanceFrom(dst.vs, old(dst.lwd))
    {
      hide Flat, PackedTo, LayoutOk, ChainList, NoGapAfter, Kept, AdvanceFrom, AllOk, Evbuffer.Valid;
      ghost var m := SplitChains(previous, spine, vs, repr, k);
      dst.TakeChains(first, previous, nread, spine[..k], vs[..k], m);
      first := chain;
      spine, vs, lwd, repr := spine[k..], vs[k..], lwd - k, repr - m;
      FirstOfList(chain, spine, vs, repr);
    }
  
    /** Drops r bytes of `chain`, before which the buffer holds none. */
    method DropInside(chain: Chain, r: nat, total: nat, ghost x: nat)
      requires Linked() && x < |spine| && chain == spine[x] && r < chain.off
      requires LayoutOk(vs, lwd, total) && lwd < |spine| && |Flat(vs[..x])| == 0
      requires last == spine[|spine| - 1] && lastWithDatap == SlotAt(spine, lwd)
      modifies this`totalLen, this`vs, chain`misalign, chain`off
      ensures Valid() && r <= total && Contents() == old(Contents())[r..]
      ensures Steady() && Taut()
    {
      hide Flat, PackedTo, LayoutOk;
      assert vs[x] == chain.V();
      DropAt(vs, lwd, total, x, r);
      chain.misalign := chain.misalign + r;
      chain.off := chain.off - r;
      vs := vs[x := chain.V()];
      totalLen := total - r;
    }

    /** evbuffer_remove_buffer up to the point where whole chains have been moved. */
    method RemoveWhole(dst: Evbuffer, datlen: nat) returns (chain: Chain, nread: nat, left: nat, ghost x: nat)
      requires Valid() && dst.Valid() && dst != this && repr !! dst.repr
      requires 0 < datlen < totalLen && Movable(vs, lwd, dst.vs, dst.lwd, datlen)
      modifies this, repr, dst, dst.repr`next
      ensures Linked() && x < |spine| && chain == spine[x] && chain in repr && chain.V() == vs[x]
      ensures nread + left == datlen && left < chain.off && |Flat(vs[..x])| == 0
      ensures nread == |Flat(old(vs)[..WholeChains(old(vs), datlen)])|
      ensures totalLen == old(totalLen) && nread <= totalLen && LayoutOk(vs, lwd, totalLen - nread)
      ensures lwd < |spine| && last == spine[|spine| - 1] && lastWithDatap == SlotAt(spine, lwd)
      ensures Flat(vs) == old(Contents())[nread..]
      ensures dst.Valid() && dst.Contents() == old(dst.Contents()) + old(Contents())[..nread]
      ensures dst.vs == LandingChains(old(vs), old(dst.vs), old(dst.lwd), datlen)
      ensures dst.lwd == Landing(old(vs), old(dst.vs), old(dst.lwd), datlen)
      ensures repr !! dst.repr && repr <= old(repr) && dst.repr <= old(dst.repr + repr)
      ensures Steady() && Taut()
      ensures dst.SameFreeze() && (old(dst.Packed() && Packed()) ==> dst.Packed())
      ensures old(dst.Trim() && Packed() && Trim()) ==> dst.Trim()
    {
      hide Flat, PackedTo, LayoutOk, ChainList, WholeChains, SlotAt, Movable, LandingChains, Landing, Kept, NoGapAfter;
      hide AdvanceFrom;
      hide At, Evbuffer.Valid;
      Parts();
      LayoutSize(vs, lwd, totalLen);
      LayoutAllOk(vs, lwd, totalLen);
      MovableCases(vs, lwd, totalLen, dst.vs, dst.lwd, datlen);
      LandingCases(vs, dst.vs, dst.lwd, datlen);
      var previous; ghost var k;
      chain, previous, nread, left, k := PassWhole(datlen);
      LayoutOkAt(vs, lwd, totalLen, k);
      DropWhole(vs, lwd, totalLen, k);
      x := k;
      if nread != 0 {
        SlotSuffix(spine, k, lwd);
        MoveWhole(dst, chain, previous, nread, k);
        x := 0;
        FlatEmpty(vs[..0]);
      }
    }

    /** The bytes that evbuffer_remove_buffer copies will fit into the destination's last
        chain with data, the one it will have when the whole chains have been moved. */
    ghost predicate LandsInPlace(dst: Evbuffer, datlen: nat)
      reads this, dst
    {
      var w := |Flat(vs[..WholeChains(vs, datlen)])|;
      && w <= datlen
      && RoomAt(LandingChains(vs, dst.vs, dst.lwd, datlen), Landing(vs, dst.vs, dst.lwd, datlen), datlen - w)
    }

    /** The first bytes of a buffer that holds none before chain x. */
    lemma FrontOf(x: nat, n: nat)
      requires Linked() && x < |spine| && |Flat(vs[..x])| == 0 && vs[x].Ok() && n <= vs[x].off
      ensures var c := spine[x];
              && c.V() == vs[x] && c.misalign + n <= |c.mem| && n <= |Flat(vs)|
              && c.mem[c.misalign..c.misalign + n] == Flat(vs)[..n]
    {
      hide Flat, ChainList;
      LinkedAt(x);
      FlatPart(vs, x, 0, n);
    }

    /** evbuffer_remove_buffer when fewer bytes are asked for than there are.  The bytes
        that are not moved with a whole chain are lost when they cannot be added. */
    method RemovePart(dst: Evbuffer, datlen: nat, memory: bool) returns (ghost added: bool)
      requires Valid() && dst.Valid() && dst != this && repr !! dst.repr
      requires 0 < datlen < totalLen && Movable(vs, lwd, dst.vs, dst.lwd, datlen)
      modifies this, repr, dst, dst.repr
      ensures Valid() && dst.Valid() && repr !! dst.repr && repr <= old(repr) && fresh(dst.repr - old(dst.repr + repr))
      ensures Contents() == old(Contents())[datlen..]
      ensures var w := |Flat(old(vs)[..WholeChains(old(vs), datlen)])|;
              w <= datlen && dst.Contents() == old(dst.Contents()) + old(Contents())[..if added then datlen else w]
      ensures added <==>
        !dst.freezeEnd && old(dst.totalLen) + datlen <= SIZE_MAX && (memory || old(LandsInPlace(dst, datlen)))
      ensures Steady() && Taut()
      ensures dst.SameFreeze() && (old(dst.Packed() && Packed()) ==> dst.Packed())
      ensures old(dst.Trim() && Packed() && Trim()) ==> dst.Trim()
    {
      hide Flat, PackedTo, LayoutOk, ChainList, WholeChains, Movable, SlotAt, RoomAt, LandingChains, Landing, View.Data;
      hide Evbuffer.Valid;
      Sizes();
      dst.Sizes();
      var chain, nread, left; ghost var x;
      chain, nread, left, x := RemoveWhole(dst, datlen);
      LayoutOkAt(vs, lwd, totalLen - nread, x);
      FrontOf(x, left);
      MovedBytes(old(dst.Contents()), old(Contents()), nread, left);
      dst.Sizes();
      added := dst.Add(chain.mem[chain.misalign..chain.misalign + left], memory);
      DropInside(chain, left, totalLen - nread, x);
    }

    /** evbuffer_remove_buffer */
    method RemoveBuffer(dst: Evbuffer, datlen: nat, memory: bool) returns (n: int, ghost added: bool)
      requires Valid() && dst.Valid() && (dst != this ==> repr !! dst.repr)
      requires dst != this && 0 < datlen < totalLen && !dst.freezeEnd && !freezeStart ==>
        Movable(vs, lwd, dst.vs, dst.lwd, datlen)
      modifies this, repr, dst, dst.repr
      ensures Valid() && dst.Valid() && (dst != this ==> repr !! dst.repr)
      ensures repr <= old(repr) && fresh(dst.repr - old(dst.repr + repr))
      ensures n == if datlen == 0 || dst == this then 0 else if dst.freezeEnd || freezeStart then -1
                   else if datlen < old(totalLen) then datlen else old(totalLen)
      ensures n <= 0 ==> Contents() == old(Contents()) && dst.Contents() == old(dst.Contents())
      ensures 0 < n ==>
        var w := if n == old(totalLen) then n else |Flat(old(vs)[..WholeChains(old(vs), datlen)])|;
        n <= |old(Contents())| && w <= n && Contents() == old(Contents())[n..]
        && dst.Contents() == old(dst.Contents()) + old(Contents())[..if added then n else w]
      ensures added <==>
        n <= 0 || n == old(totalLen) ||
        (old(dst.totalLen) + datlen <= SIZE_MAX && (memory || old(LandsInPlace(dst, datlen))))
      ensures Steady() && Taut()
      ensures dst.SameFreeze() && (old(dst.Packed() && Packed()) ==> dst.Packed())
      ensures old(dst.Trim() && Packed() && Trim()) ==> dst.Trim()
    {
      hide Flat, PackedTo, LayoutOk, ChainList, WholeChains, Movable, SlotAt, Evbuffer.LandsInPlace;
      added := true;
      if datlen == 0 || dst == this {
        return 0, added;
      }
      if dst.freezeEnd || freezeStart {
        return -1, added;
      }
      LayoutSize(vs, lwd, totalLen);
      if datlen >= totalLen {
        n := totalLen;
        var _ := dst.AddBuffer(this);
        return;
      }
      added := RemovePart(dst, datlen, memory);
      n := datlen;
    }
  }
}
