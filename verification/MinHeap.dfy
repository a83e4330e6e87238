/** The binary heap of timeouts. */
module MinHeap {
  import opened Common
  import opened Timeouts

  const NOWHERE: int := -1

  function Parent(i: nat): (r: nat)
    requires 0 < i
    ensures r < i
  {
    (i - 1) / 2
  }

  lemma Children(hole: nat, i: nat)
    requires 0 < i
    ensures Parent(i) == hole <==> i == 2 * hole + 1 || i == 2 * hole + 2
  {
  }

  function Position(idx: map<nat, int>, x: nat): int {
    if x in idx then idx[x] else NOWHERE
  }

  /** p[i] is not due before its parent. */
  ghost predicate InOrder(p: seq<nat>, due: map<nat, int>, i: nat)
    requires 0 < i < |p|
  {
    Due(due, p[Parent(i)]) <= Due(due, p[i])
  }

  ghost predicate Heap(p: seq<nat>, due: map<nat, int>) {
    forall i {:trigger p[i]} :: 0 < i < |p| ==> InOrder(p, due, i)
  }

  /** A heap but for what is at the hole; the hole's children are not due before its parent. */
  ghost predicate HeapBut(p: seq<nat>, due: map<nat, int>, hole: nat) {
    && (forall i {:trigger p[i]} :: 0 < i < |p| && i != hole && Parent(i) != hole ==> InOrder(p, due, i))
    && (forall i {:trigger p[i]} :: 0 < i < |p| && 0 < hole && Parent(i) == hole ==>
          Due(due, p[Parent(hole)]) <= Due(due, p[i]))
  }

  /** What is at the hole is not due after its children. */
  ghost predicate AboveChildren(p: seq<nat>, due: map<nat, int>, hole: nat) {
    forall i {:trigger p[i]} :: 0 < i < |p| && Parent(i) == hole ==> InOrder(p, due, i)
  }

  ghost predicate BelowParent(p: seq<nat>, due: map<nat, int>, hole: nat) {
    0 < hole < |p| ==> InOrder(p, due, hole)
  }

  /** Every event knows its place, but for the one at the hole. */
  ghost predicate Indexed(p: seq<nat>, idx: map<nat, int>, hole: int) {
    forall i {:trigger p[i]} :: 0 <= i < |p| && i != hole ==>
      Position(idx, p[i]) == i && (0 <= hole < |p| ==> p[i] != p[hole])
  }

  /** The top of the heap is due first. */
  lemma {:induction false} TopFirst(p: seq<nat>, due: map<nat, int>, i: nat)
    requires Heap(p, due) && i < |p|
    ensures Due(due, p[0]) <= Due(due, p[i])
  {
    if 0 < i {
      TopFirst(p, due, Parent(i));
    }
  }

  function Exchanged(p: seq<nat>, i: nat, j: nat): (r: seq<nat>)
    requires i < |p| && j < |p|
    ensures |r| == |p| && r[i] == p[j] && r[j] == p[i]
    ensures forall k :: 0 <= k < |p| && k != i && k != j ==> r[k] == p[k]
  {
    p[i := p[j]][j := p[i]]
  }

  lemma UpdatedMembers(p: seq<nat>, i: nat, x: nat)
    requires i < |p|
    ensures multiset(p[i := x]) == multiset(p) - multiset{p[i]} + multiset{x}
  {
    assert p == p[..i] + [p[i]] + p[i + 1..];
    assert p[i := x] == p[..i] + [x] + p[i + 1..];
  }

  lemma ExchangedMembers(p: seq<nat>, i: nat, j: nat)
    requires i < |p| && j < |p| && i != j
    ensures multiset(Exchanged(p, i, j)) == multiset(p)
  {
    UpdatedMembers(p, i, p[j]);
    UpdatedMembers(p[i := p[j]], j, p[i]);
    assert p[i] in multiset(p);
  }

  /** One step up: the parent of the hole, due later than what is to go there, comes down. */
  lemma StepUp(p: seq<nat>, due: map<nat, int>, hole: nat)
    requires 0 < hole < |p| && HeapBut(p, due, hole) && AboveChildren(p, due, hole)
    requires Due(due, p[hole]) < Due(due, p[Parent(hole)])
    ensures var r := Exchanged(p, hole, Parent(hole));
            HeapBut(r, due, Parent(hole)) && AboveChildren(r, due, Parent(hole))
  {
    hide Due, Parent, Exchanged;
    var up := Parent(hole);
    var r := Exchanged(p, hole, up);
    assert 0 < up ==> InOrder(p, due, up);
    forall i | 0 < i < |r|
      ensures i != up && Parent(i) != up ==> InOrder(r, due, i)
      ensures Parent(i) == up ==> InOrder(r, due, i)
      ensures Parent(i) == up && 0 < up ==> Due(due, r[Parent(up)]) <= Due(due, r[i])
    {
      assert p[i] == p[i] && r[Parent(i)] == r[Parent(i)];
    }
  }

  /** One step down: the child of the hole that is due first, and before what is to go there, comes up. */
  lemma StepDown(p: seq<nat>, due: map<nat, int>, hole: nat, child: nat)
    requires 0 < child < |p| && Parent(child) == hole && HeapBut(p, due, hole)
    requires Due(due, p[child]) < Due(due, p[hole])
    requires forall i {:trigger p[i]} :: 0 < i < |p| && Parent(i) == hole ==> Due(due, p[child]) <= Due(due, p[i])
    ensures var r := Exchanged(p, hole, child); HeapBut(r, due, child) && BelowParent(r, due, child)
  {
    hide Due, Parent, Exchanged;
    var r := Exchanged(p, hole, child);
    forall i | 0 < i < |r|
      ensures i != child && Parent(i) != child ==> InOrder(r, due, i)
      ensures Parent(i) == child ==> Due(due, r[Parent(child)]) <= Due(due, r[i])
    {
      assert p[i] == p[i] && r[Parent(i)] == r[Parent(i)];
    }
  }

  lemma Settled(p: seq<nat>, due: map<nat, int>, hole: nat)
    requires hole < |p| && HeapBut(p, due, hole) && AboveChildren(p, due, hole) && BelowParent(p, due, hole)
    ensures Heap(p, due)
  {
    hide Due, Parent;
    forall i | 0 < i < |p|
      ensures InOrder(p, due, i)
    {
      assert p[i] == p[i];
    }
  }

  /** Moving what is at `from` to the hole moves the hole to `from`. */
  lemma Moved(p: seq<nat>, idx: map<nat, int>, hole: nat, from: nat)
    requires hole < |p| && from < |p| && hole != from && Indexed(p, idx, hole)
    ensures Indexed(Exchanged(p, hole, from), idx[p[from] := hole], from)
  {
    hide Exchanged;
    var r := Exchanged(p, hole, from);
    forall i | 0 <= i < |r| && i != from
      ensures Position(idx[p[from] := hole], r[i]) == i && r[i] != r[from]
    {
      assert Position(idx, p[from]) == from;
      assert p[i] == p[i];
    }
  }

  lemma SameMembers(p: seq<nat>, q: seq<nat>)
    requires multiset(p) == multiset(q)
    ensures forall x :: x in p <==> x in q
  {
    forall x
      ensures x in p <==> x in q
    {
      assert x in p <==> x in multiset(p);
      assert x in q <==> x in multiset(q);
    }
  }

  /** Taking p[i] out and putting the last event in its place leaves a heap but for that place. */
  lemma Replaced(p: seq<nat>, due: map<nat, int>, idx: map<nat, int>, i: nat)
    requires Heap(p, due) && Indexed(p, idx, NOWHERE) && i < |p| - 1
    ensures var r := p[..|p| - 1][i := p[|p| - 1]];
            && HeapBut(r, due, i) && Indexed(r, idx, i)
            && (BelowParent(r, due, i) || AboveChildren(r, due, i))
  {
    hide Due, Parent;
    var r := p[..|p| - 1][i := p[|p| - 1]];
    assert 0 < i ==> InOrder(p, due, i);
    forall k | 0 < k < |r|
      ensures k != i && Parent(k) != i ==> InOrder(r, due, k)
      ensures Parent(k) == i && 0 < i ==> Due(due, r[Parent(i)]) <= Due(due, r[k])
    {
      assert p[k] == p[k];
    }
    forall k | 0 <= k < |r| && k != i
      ensures Position(idx, r[k]) == k && r[k] != r[i]
    {
      assert p[k] == p[k] && p[|p| - 1] == r[i];
    }
  }

  lemma ReplacedMembers(p: seq<nat>, i: nat)
    requires i < |p|
    ensures multiset(p) - multiset{p[i]} ==
            multiset(if i < |p| - 1 then p[..|p| - 1][i := p[|p| - 1]] else p[..|p| - 1])
  {
    var q := p[..|p| - 1];
    assert p == q + [p[|p| - 1]];
    if i < |p| - 1 {
      UpdatedMembers(q, i, p[|p| - 1]);
      assert p[i] == q[i] && q[i] in multiset(q);
    }
  }

  lemma Above(p: seq<nat>, due: map<nat, int>, hole: nat, child: nat)
    requires 0 < child < |p| && Parent(child) == hole && Due(due, p[hole]) <= Due(due, p[child])
    requires forall i {:trigger p[i]} :: 0 < i < |p| && Parent(i) == hole ==> Due(due, p[child]) <= Due(due, p[i])
    ensures AboveChildren(p, due, hole)
  {
    hide Due, Parent;
    forall i | 0 < i < |p| && Parent(i) == hole
      ensures InOrder(p, due, i)
    {
      assert p[i] == p[i];
    }
  }

  lemma NoChildren(p: seq<nat>, due: map<nat, int>, hole: nat)
    requires 2 * (hole + 1) > |p|
    ensures AboveChildren(p, due, hole)
  {
    forall i | 0 < i < |p|
      ensures Parent(i) != hole
    {
      assert i <= 2 * hole;
    }
  }

  lemma Appended(p: seq<nat>, due: map<nat, int>, idx: map<nat, int>, e: nat)
    requires Heap(p, due) && Indexed(p, idx, NOWHERE) && Position(idx, e) == NOWHERE
    ensures var r := p + [e];
            HeapBut(r, due, |p|) && AboveChildren(r, due, |p|) && Indexed(r, idx, |p|)
  {
    hide Due, Parent;
    var r := p + [e];
    forall i | 0 < i < |p|
      ensures InOrder(r, due, i)
    {
      assert p[i] == r[i];
    }
    forall i | 0 <= i < |p|
      ensures Position(idx, r[i]) == i && r[i] != e
    {
      assert p[i] == r[i];
    }
  }

  lemma Shorter(p: seq<nat>, due: map<nat, int>, idx: map<nat, int>)
    requires 0 < |p| && Heap(p, due) && Indexed(p, idx, NOWHERE)
    ensures Heap(p[..|p| - 1], due) && Indexed(p[..|p| - 1], idx, NOWHERE)
  {
    hide Due, Parent;
    var q := p[..|p| - 1];
    forall i | 0 <= i < |q|
      ensures Position(idx, q[i]) == i && (0 < i ==> InOrder(q, due, i))
    {
      assert p[i] == q[i];
    }
  }

  lemma Without(p: seq<nat>, idx: map<nat, int>, i: nat, x: nat)
    requires i < |p| && Indexed(p, idx, NOWHERE)
    ensures x in p[..i] + p[i + 1..] <==> x in p && x != p[i]
  {
    if x in p[..i] + p[i + 1..] {
      var k :| 0 <= k < |p| && k != i && p[k] == x;
      assert Position(idx, p[i]) == i;
    }
  }

  /** An event is in the heap once. */
  lemma Departed(p: seq<nat>, q: seq<nat>, idx: map<nat, int>, i: nat)
    requires i < |p| && Indexed(p, idx, NOWHERE) && multiset(q) == multiset(p) - multiset{p[i]}
    ensures forall x :: x in q <==> x in p && x != p[i]
  {
    hide Indexed;
    assert p == p[..i] + [p[i]] + p[i + 1..];
    SameMembers(q, p[..i] + p[i + 1..]);
    forall x
      ensures x in q <==> x in p && x != p[i]
    {
      Without(p, idx, i, x);
    }
  }

  /** If only the time of p[i] has changed, it may have to go up or down, not both. */
  lemma Ajar(p: seq<nat>, due: map<nat, int>, idx: map<nat, int>, i: nat)
    requires i < |p| && HeapBut(p, due, i) && Indexed(p, idx, NOWHERE)
    ensures Indexed(p, idx, i) && (BelowParent(p, due, i) || AboveChildren(p, due, i))
  {
    hide Due, Parent;
    forall k | 0 <= k < |p| && k != i
      ensures Position(idx, p[k]) == k && p[k] != p[i]
    {
      assert Position(idx, p[i]) == i;
    }
    if !BelowParent(p, due, i) {
      forall k | 0 < k < |p| && Parent(k) == i
        ensures InOrder(p, due, k)
      {
        assert p[k] == p[k];
      }
    }
  }

  /** An array of |p| places, of which the first n are used. */
  class Timers {
    var p: seq<nat>
    var n: nat
    var idx: map<nat, int>
    var due: map<nat, int>

    ghost function Live(): seq<nat>
      requires n <= |p|
      reads this
    {
      p[..n]
    }

    ghost predicate Valid()
      reads this
    {
      && n <= |p|
      && Heap(Live(), due)
      && Indexed(Live(), idx, NOWHERE)
      && (forall x {:trigger Position(idx, x)} :: x !in Live() ==> Position(idx, x) == NOWHERE)
    }

    ghost function With(hole: nat, e: nat): seq<nat>
      requires hole < n <= |p|
      reads this
    {
      p[..n][hole := e]
    }

    method Move(hole: nat, from: nat, ghost e: nat)
      requires hole < n <= |p| && from < n && hole != from && Indexed(With(hole, e), idx, hole)
      modifies `p, `idx
      ensures |p| == old(|p|) && With(from, e) == Exchanged(old(With(hole, e)), hole, from)
      ensures Indexed(With(from, e), idx, from) && multiset(With(from, e)) == multiset(old(With(hole, e)))
      ensures forall x {:trigger Position(idx, x)} :: x !in With(from, e) ==> Position(idx, x) == old(Position(idx, x))
    {
      ghost var g := With(hole, e);
      Moved(g, idx, hole, from);
      ExchangedMembers(g, hole, from);
      idx := idx[p[from] := hole];
      p := p[hole := p[from]];
      assert With(from, e) == Exchanged(g, hole, from);
      assert g[from] in With(from, e);
    }

    method Put(hole: nat, e: nat)
      requires hole < n <= |p| && Indexed(With(hole, e), idx, hole) && Heap(With(hole, e), due)
      modifies `p, `idx
      ensures |p| == old(|p|) && Live() == old(With(hole, e)) && Heap(Live(), due) && Indexed(Live(), idx, NOWHERE)
      ensures forall x {:trigger Position(idx, x)} :: x !in Live() ==> Position(idx, x) == old(Position(idx, x))
    {
      ghost var g := With(hole, e);
      p, idx := p[hole := e], idx[e := hole];
      assert Live() == g;
      forall i | 0 <= i < |g|
        ensures Position(idx, g[i]) == i
      {
      }
      assert hole < |g| && g[hole] == e;
    }

    /** Looks for the place of e from the hole up. */
    method ShiftUp(start: nat, e: nat)
      requires start < n <= |p| && Indexed(With(start, e), idx, start)
      requires HeapBut(With(start, e), due, start) && AboveChildren(With(start, e), due, start)
      modifies `p, `idx
      ensures |p| == old(|p|) && multiset(Live()) == multiset(old(With(start, e)))
      ensures Heap(Live(), due) && Indexed(Live(), idx, NOWHERE)
      ensures forall x {:trigger Position(idx, x)} :: x !in Live() ==> Position(idx, x) == old(Position(idx, x))
    {
      hide HeapBut, AboveChildren, Indexed, Due, Parent, Exchanged;
      var hole: nat := start;
      while 0 < hole && Due(due, p[Parent(hole)]) > Due(due, e)
        invariant hole < n <= |p| == old(|p|) && Indexed(With(hole, e), idx, hole)
        invariant HeapBut(With(hole, e), due, hole) && AboveChildren(With(hole, e), due, hole)
        invariant multiset(With(hole, e)) == multiset(old(With(start, e)))
        invariant forall x {:trigger Position(idx, x)} :: x !in With(hole, e) ==>
          Position(idx, x) == old(Position(idx, x))
      {
        StepUp(With(hole, e), due, hole);
        ghost var g := With(hole, e);
        Move(hole, Parent(hole), e);
        SameMembers(g, With(Parent(hole), e));
        hole := Parent(hole);
      }
      Settled(With(hole, e), due, hole);
      Put(hole, e);
    }

    /** The child of the hole that is due first. */
    ghost predicate FirstChild(g: seq<nat>, hole: nat, child: nat)
      reads this
    {
      && 0 < child < |g| && Parent(child) == hole
      && (forall i {:trigger g[i]} :: 0 < i < |g| && Parent(i) == hole ==> Due(due, g[child]) <= Due(due, g[i]))
    }

    method PickChild(hole: nat, ghost e: nat) returns (child: nat)
      requires hole < n <= |p| && 2 * (hole + 1) <= n
      ensures FirstChild(With(hole, e), hole, child)
    {
      hide Parent, Due;
      child := 2 * (hole + 1);
      Children(hole, child);
      Children(hole, child - 1);
      if child == n || Due(due, p[child]) > Due(due, p[child - 1]) {
        child := child - 1;
      }
      ghost var g := With(hole, e);
      forall i | 0 < i < |g| && Parent(i) == hole
        ensures Due(due, g[child]) <= Due(due, g[i])
      {
        Children(hole, i);
      }
    }

    /** Looks for the place of e from the hole down. */
    method ShiftDown(start: nat, e: nat)
      requires start < n <= |p| && Indexed(With(start, e), idx, start)
      requires HeapBut(With(start, e), due, start) && BelowParent(With(start, e), due, start)
      modifies `p, `idx
      ensures |p| == old(|p|) && multiset(Live()) == multiset(old(With(start, e)))
      ensures Heap(Live(), due) && Indexed(Live(), idx, NOWHERE)
      ensures forall x {:trigger Position(idx, x)} :: x !in Live() ==> Position(idx, x) == old(Position(idx, x))
    {
      hide HeapBut, BelowParent, Indexed, Due, Parent, Exchanged;
      var hole := start;
      while 2 * (hole + 1) <= n
        invariant hole < n <= |p| == old(|p|) && Indexed(With(hole, e), idx, hole)
        invariant HeapBut(With(hole, e), due, hole) && BelowParent(With(hole, e), due, hole)
        invariant multiset(With(hole, e)) == multiset(old(With(start, e)))
        invariant forall x {:trigger Position(idx, x)} :: x !in With(hole, e) ==>
          Position(idx, x) == old(Position(idx, x))
        decreases n - hole
      {
        ghost var g := With(hole, e);
        var child := PickChild(hole, e);
        if !(Due(due, e) > Due(due, p[child])) {
          Above(g, due, hole, child);
          Settled(g, due, hole);
          Put(hole, e);
          return;
        }
        StepDown(g, due, hole, child);
        Move(hole, child, e);
        SameMembers(g, With(child, e));
        hole := child;
      }
      NoChildren(With(hole, e), due, hole);
      Settled(With(hole, e), due, hole);
      Put(hole, e);
    }

    /** Makes room; without memory nothing changes. */
    method Reserve(wanted: nat, memory: bool) returns (r: int)
      requires n <= |p|
      modifies `p
      ensures r == (if wanted <= old(|p|) || memory then 0 else -1)
      ensures old(p) <= p && |p| == if r == 0 then Reserved(|old(p)|, wanted) else |old(p)|
    {
      r := 0;
      if |p| < wanted {
        var a := if 0 < |p| then 2 * |p| % TWO32 else 8;
        if a < wanted {
          a := wanted;
        }
        if !memory {
          return -1;
        }
        p := p + seq(a - |p|, _ => 0);
      }
    }

    /** Adds an event that is not in the heap. */
    method Push(e: nat, memory: bool) returns (r: int)
      requires Valid() && Position(idx, e) == NOWHERE
      modifies `p, `n, `idx
      ensures Valid() && r == (if old(n) < old(|p|) || memory then 0 else -1)
      ensures multiset(Live()) == old(multiset(Live())) + (if r == 0 then multiset{e} else multiset{})
      ensures n == old(n) + (if r == 0 then 1 else 0)
    {
      hide Due, Parent, Exchanged, Heap, HeapBut, AboveChildren, Indexed;
      ghost var live := Live();
      r := Reserve(n + 1, memory);
      assert Live() == live;
      if r == -1 {
        return;
      }
      n := n + 1;
      assert With(n - 1, e) == live + [e];
      Appended(live, due, idx, e);
      ShiftUp(n - 1, e);
      SameMembers(Live(), live + [e]);
    }

    /** Puts the last event in the place of the one that leaves. */
    method Fill(i: nat, last: nat, ghost live: seq<nat>)
      requires n < |p| && live == p[..n + 1] && i <= n && last == live[n]
      requires Heap(live, due) && Indexed(live, idx, NOWHERE)
      modifies `p, `idx
      ensures |p| == old(|p|) && multiset(Live()) == multiset(live) - multiset{live[i]}
      ensures Heap(Live(), due) && Indexed(Live(), idx, NOWHERE)
      ensures forall x {:trigger Position(idx, x)} :: x !in Live() ==> Position(idx, x) == old(Position(idx, x))
    {
      hide Due, Parent, Exchanged, HeapBut, AboveChildren, Heap;
      ReplacedMembers(live, i);
      if i == n {
        assert Position(idx, live[n]) == n;
        p, idx := p[n := last], idx[last := n];
        assert Live() == live[..n];
        Shorter(live, due, idx);
        return;
      }
      assert With(i, last) == live[..n][i := last];
      Replaced(live, due, idx, i);
      if 0 < i && Due(due, p[Parent(i)]) > Due(due, last) {
        ShiftUp(i, last);
      } else {
        ShiftDown(i, last);
      }
    }

    /** Takes an event out, wherever it is. */
    method Erase(e: nat) returns (r: int)
      requires Valid()
      modifies `p, `n, `idx
      ensures Valid() && r == (if e in old(Live()) then 0 else -1)
      ensures multiset(Live()) == old(multiset(Live())) - multiset{e} && e !in Live()
    {
      hide Due, Heap, Parent;
      if Position(idx, e) == NOWHERE {
        assert e !in multiset(Live());
        return -1;
      }
      Remove(Position(idx, e), e);
      return 0;
    }

    method Remove(i: nat, e: nat)
      requires Valid() && i < n && p[i] == e
      modifies `p, `n, `idx
      ensures Valid() && n == old(n) - 1
      ensures multiset(Live()) == old(multiset(Live())) - multiset{e} && e !in Live()
    {
      hide Due, Heap, Parent;
      ghost var live := Live();
      n := n - 1;
      Fill(i, p[n], live);
      Departed(live, Live(), old(idx), i);
      assert forall x :: x !in Live() && x != e ==> Position(idx, x) == NOWHERE;
      idx := idx[e := NOWHERE];
    }

    /** Takes out the event that is due first. */
    method Pop() returns (found: bool, e: nat)
      requires Valid()
      modifies `p, `n, `idx
      ensures Valid() && found == (0 < old(n))
      ensures found ==> e in old(Live()) && forall x :: x in old(Live()) ==> Due(due, e) <= Due(due, x)
      ensures multiset(Live()) == old(multiset(Live())) - (if found then multiset{e} else multiset{})
    {
      hide Due, Parent;
      if n == 0 {
        return false, 0;
      }
      e := p[0];
      ghost var live := Live();
      forall x | x in live
        ensures Due(due, e) <= Due(due, x)
      {
        var i :| 0 <= i < |live| && live[i] == x;
        TopFirst(live, due, i);
      }
      Remove(0, e);
      found := true;
    }

    /** Finds the place of an event whose time alone has changed. */
    method Adjust(e: nat, memory: bool) returns (r: int)
      requires n <= |p| && Indexed(Live(), idx, NOWHERE)
      requires forall x {:trigger Position(idx, x)} :: x !in Live() ==> Position(idx, x) == NOWHERE
      requires if e in Live() then HeapBut(Live(), due, Position(idx, e)) else Heap(Live(), due)
      modifies `p, `n, `idx
      ensures Valid() && r == (if e in old(Live()) || old(n) < old(|p|) || memory then 0 else -1)
      ensures multiset(Live()) ==
              old(multiset(Live())) + (if e in old(Live()) || r == -1 then multiset{} else multiset{e})
    {
      hide Due, Parent;
      if Position(idx, e) == NOWHERE {
        r := Push(e, memory);
        return;
      }
      var i := Position(idx, e);
      ghost var live := Live();
      assert live[i] == e;
      assert With(i, e) == live;
      Ajar(live, due, idx, i);
      if 0 < i && Due(due, p[Parent(i)]) > Due(due, e) {
        ShiftUp(i, e);
      } else {
        ShiftDown(i, e);
      }
      SameMembers(live, Live());
      return 0;
    }
  }
}
