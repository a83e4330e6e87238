/** The RC4 stream and the unbiased range reduction of arc4random. */
module Arc4Random {
  import opened Common

  ghost predicate Permutation(s: seq<byte>) {
    |s| == 256 && forall a, b :: 0 <= a < b < 256 ==> s[a] != s[b]
  }

  /** The numbers below n. */
  ghost function Below(n: nat): (r: set<nat>)
    ensures |r| == n && forall x: nat :: x in r <==> x < n
  {
    if n == 0 then {} else Below(n - 1) + {n - 1}
  }

  /** The first n entries, as a set. */
  lemma {:induction false} Seen(s: seq<byte>, n: nat) returns (r: set<nat>)
    requires Permutation(s) && n <= 256
    ensures |r| == n && forall x :: x in r ==> x < 256 && x in s[..n]
  {
    if n == 0 {
      r := {};
    } else {
      var q := Seen(s, n - 1);
      assert s[n - 1] !in s[..n - 1];
      assert s[..n] == s[..n - 1] + [s[n - 1]];
      r := q + {s[n - 1]};
    }
  }

  /** Different entries, 256 of them, are all the bytes there are. */
  lemma Everything(s: seq<byte>, v: byte)
    requires Permutation(s)
    ensures v in s
  {
    hide Below;
    var r := Seen(s, |s|);
    SameSize(r, Below(|s|));
    assert v in r && s[..|s|] == s;
  }

  lemma SameSize<T>(a: set<T>, b: set<T>)
    requires a <= b && |a| == |b|
    ensures a == b
  {
    assert |b - a| == |b| - |a|;
  }

  /** Addition of unsigned characters. */
  function Plus(a: nat, b: nat): byte {
    (a + b) % 256
  }

  /** s with two entries swapped. */
  function Swapped(s: seq<byte>, i: nat, j: nat): seq<byte>
    requires i < |s| && j < |s|
  {
    s[i := s[j]][j := s[i]]
  }

  lemma SwappedPermutation(s: seq<byte>, i: nat, j: nat)
    requires Permutation(s) && i < 256 && j < 256
    ensures Permutation(Swapped(s, i, j)) && Swapped(Swapped(s, i, j), i, j) == s
  {
  }

  /** A state of the generator as a value. */
  datatype State = State(s: seq<byte>, i: byte, j: byte)

  /** The state after n rounds of key mixing. */
  function Mixed(st: State, dat: seq<byte>, n: nat): (r: State)
    requires |st.s| == 256 && dat != []
    ensures |r.s| == 256
  {
    if n == 0 then st
    else
      var p := Mixed(st, dat, n - 1);
      var i := Plus(p.i, 1);
      var si: nat, d: nat := p.s[i], dat[(n - 1) % |dat|];
      var j := Plus(p.j, si + d);
      State(Swapped(p.s, i, j), i, j)
  }

  /** struct arc4_stream */
  class Stream {
    var i: byte
    var j: byte
    const s: array<byte>

    ghost predicate Valid()
      reads this, s
    {
      Permutation(s[..])
    }

    /** arc4_init */
    constructor ()
      ensures Valid() && fresh(s) && i == 0 && j == 0 && forall n :: 0 <= n < 256 ==> s[n] == n
    {
      s := new byte[256](n requires 0 <= n => n % 256);
      i, j := 0, 0;
    }

    /** Exchanges entry i and entry j, as both functions below do. */
    method Swap()
      requires Valid()
      modifies s
      ensures Valid() && s[..] == Swapped(old(s[..]), i, j)
    {
      SwappedPermutation(s[..], i, j);
      var si := s[i];
      s[i] := s[j];
      s[j] := si;
      assert s[..] == Swapped(old(s[..]), i, j);
    }

    /** arc4_addrandom */
    method AddRandom(dat: seq<byte>)
      requires Valid() && dat != []
      modifies this, s
      ensures Valid() && i == Plus(old(i), 255) && j == i
      ensures s[..] == Mixed(State(old(s[..]), Plus(old(i), 255), old(j)), dat, 256).s
    {
      hide Plus, Swapped;
      i := Plus(i, 255);
      var n := 0;
      ghost var st := State(s[..], i, j);
      while n < 256
        invariant 0 <= n <= 256 && Valid() && i == Plus(old(i), 255 + n)
        invariant State(s[..], i, j) == Mixed(st, dat, n)
      {
        NextIndex(old(i), 255 + n);
        i := Plus(i, 1);
        var si: nat, d: nat := s[i], dat[n % |dat|];
        j := Plus(j, si + d);
        Swap();
        n := n + 1;
      }
      AllTheWayRound(old(i), 255);
      j := i;
    }

    /** arc4_getbyte */
    method GetByte() returns (r: byte)
      requires Valid()
      modifies this, s
      ensures Valid() && i == Plus(old(i), 1) && j == Plus(old(j), old(s[..])[i])
      ensures s[..] == Swapped(old(s[..]), i, j) && r == s[Plus(s[i], s[j])]
    {
      i := Plus(i, 1);
      j := Plus(j, s[i]);
      Swap();
      r := s[Plus(s[i], s[j])];
    }
  }

  /** A getbyte step can be undone, so no two states of the generator run together. */
  lemma StepInjective(s1: seq<byte>, i1: byte, j1: byte, s2: seq<byte>, i2: byte, j2: byte)
    requires Permutation(s1) && Permutation(s2) && Plus(i1, 1) == Plus(i2, 1)
    requires Plus(j1, s1[Plus(i1, 1)]) == Plus(j2, s2[Plus(i2, 1)])
    requires var i := Plus(i1, 1);
             var j := Plus(j1, s1[i]);
             Swapped(s1, i, j) == Swapped(s2, i, j)
    ensures s1 == s2 && i1 == i2 && j1 == j2
  {
    hide Plus, Swapped;
    var i := Plus(i1, 1);
    var j := Plus(j1, s1[i]);
    SwappedPermutation(s1, i, j);
    SwappedPermutation(s2, i, j);
    PlusInjective(i1, i2, 1);
    PlusInjective(j1, j2, s1[i]);
  }

  lemma PlusInjective(a: byte, b: byte, n: byte)
    requires Plus(a, n) == Plus(b, n)
    ensures a == b
  {
  }

  lemma NextIndex(a: nat, n: nat)
    ensures Plus(Plus(a, n), 1) == Plus(a, n + 1)
  {
  }

  lemma AllTheWayRound(a: nat, n: nat)
    ensures Plus(a, n + 256) == Plus(a, n)
  {
  }

  /** min as arc4random_uniform computes it in 32 bits: in C, 1 + ~x is 2^32 - x. */
  function RejectBelow(bound: nat): nat
    requires 2 <= bound < TWO32
  {
    if bound > 0x8000_0000 then (1 + (0xffff_ffff - bound)) % TWO32
    else ((0xffff_ffff - bound * 2 % TWO32) + 1) % TWO32 % bound
  }

  lemma RejectExact(bound: nat)
    requires 2 <= bound < TWO32
    ensures RejectBelow(bound) == TWO32 % bound
  {
    if bound > 0x8000_0000 {
      LargeBound(bound);
    } else if bound < 0x8000_0000 {
      hide RejectBelow;
      SmallBound(bound);
      TwiceLess(TWO32 - 2 * bound, bound);
    }
  }

  lemma LargeBound(bound: nat)
    requires 0x8000_0000 < bound < TWO32
    ensures RejectBelow(bound) == TWO32 % bound
  {
    Fits(1 + (0xffff_ffff - bound));
    Remainder(TWO32, bound, 1, TWO32 - bound);
  }

  lemma SmallBound(bound: nat)
    requires 2 <= bound < 0x8000_0000
    ensures RejectBelow(bound) == (TWO32 - 2 * bound) % bound
  {
    Fits(bound * 2);
    Fits(0xffff_ffff - bound * 2 + 1);
  }

  lemma Fits(x: nat)
    requires x < TWO32
    ensures x % TWO32 == x
  {
  }

  lemma TwiceLess(x: nat, b: nat)
    requires 0 < b
    ensures (x + 2 * b) % b == x % b
  {
    assert x == x / b * b + x % b && (x / b + 2) * b == x / b * b + 2 * b;
    Remainder(x + 2 * b, b, x / b + 2, x % b);
  }

  lemma AtLeastOnce(x: int, b: nat)
    requires 1 <= x
    ensures b <= x * b
  {
  }

  lemma NotOnce(x: int, b: nat)
    requires 0 < x * b + b && x * b < b
    ensures x == 0
  {
    if 1 <= x {
      AtLeastOnce(x, b);
    } else if x <= -1 {
      AtLeastOnce(-x, b);
    }
  }

  lemma Remainder(a: nat, b: nat, q: nat, r: nat)
    requires 0 < b && r < b && a == q * b + r
    ensures a % b == r && a / b == q
  {
    assert a == a / b * b + a % b;
    assert (a / b - q) * b == a / b * b - q * b;
    NotOnce(a / b - q, b);
  }

  /** The numbers in lo..hi that leave remainder k. */
  function Hitting(lo: nat, hi: nat, bound: nat, k: nat): set<nat>
    requires 0 < bound
  {
    set x: nat | lo <= x < hi && x % bound == k
  }

  /** One of any `bound` consecutive numbers leaves remainder k. */
  lemma OneHit(lo: nat, bound: nat, k: nat) returns (x: nat)
    requires k < bound
    ensures lo <= x < lo + bound && Hitting(lo, lo + bound, bound, k) == {x}
  {
    var q, m := lo / bound, lo % bound;
    assert lo == q * bound + m && (q + 1) * bound == q * bound + bound;
    var times := if m <= k then q else q + 1;
    x := times * bound + k;
    Remainder(x, bound, times, k);
    assert x in Hitting(lo, lo + bound, bound, k);
    forall y: nat | lo <= y < lo + bound && y % bound == k
      ensures y == x
    {
      SameRemainder(x, y, bound);
    }
  }

  lemma SameRemainder(x: nat, y: nat, b: nat)
    requires 0 < b && x % b == y % b && x < y + b && y < x + b
    ensures x == y
  {
    assert x == x / b * b + x % b && y == y / b * b + y % b;
    assert (x / b - y / b) * b == x / b * b - y / b * b;
    NotOnce(x / b - y / b, b);
  }

  lemma {:induction false} EvenlySpread(lo: nat, q: nat, bound: nat, k: nat)
    requires k < bound
    ensures |Hitting(lo, lo + q * bound, bound, k)| == q
  {
    if q == 0 {
      assert Hitting(lo, lo + q * bound, bound, k) == {};
    } else {
      EvenlySpread(lo, q - 1, bound, k);
      var mid := lo + (q - 1) * bound;
      assert mid + bound == lo + q * bound;
      var x := OneHit(mid, bound, k);
      assert Hitting(lo, mid + bound, bound, k) == Hitting(lo, mid, bound, k) + Hitting(mid, mid + bound, bound, k);
    }
  }

  /** No bias: every result below the bound comes from the same number of accepted words. */
  lemma Uniformity(bound: nat, k: nat)
    requires 2 <= bound < TWO32 && k < bound
    ensures |Hitting(RejectBelow(bound), TWO32, bound, k)| == TWO32 / bound
  {
    RejectExact(bound);
    assert TWO32 == TWO32 % bound + TWO32 / bound * bound;
    EvenlySpread(TWO32 % bound, TWO32 / bound, bound, k);
  }

  /** arc4random_uniform on the words arc4random will return; None if all are rejected. */
  method Uniform(bound: nat, words: seq<nat>) returns (r: Option<nat>)
    requires bound < TWO32 && forall i :: 0 <= i < |words| ==> words[i] < TWO32
    ensures bound < 2 ==> r == Some(0)
    ensures 2 <= bound && r == None ==> forall i :: 0 <= i < |words| ==> words[i] < TWO32 % bound
    ensures 2 <= bound && r.Some? ==>
      exists i :: 0 <= i < |words| && TWO32 % bound <= words[i] && r.value == words[i] % bound
                  && forall k :: 0 <= k < i ==> words[k] < TWO32 % bound
  {
    if bound < 2 {
      return Some(0);
    }
    RejectExact(bound);
    var min := RejectBelow(bound);
    var n := 0;
    while n < |words|
      invariant 0 <= n <= |words| && forall k :: 0 <= k < n ==> words[k] < min
    {
      if words[n] >= min {
        return Some(words[n] % bound);
      }
      n := n + 1;
    }
    return None;
  }
}
