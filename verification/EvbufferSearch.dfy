/** What searching a byte string means, independent of how it is stored. */
module ByteSearch {
  import opened Common

  const CR: byte := 13
  const LF: byte := 10
  const NUL: byte := 0

  predicate Match(c: seq<byte>, what: seq<byte>, i: nat) {
    i + |what| <= |c| && c[i..i + |what|] == what
  }

  predicate IsEolChar(b: byte) {
    b == CR || b == LF
  }

  datatype EolStyle = EolAny | EolCrlf | EolCrlfStrict | EolLf | EolNul

  /** Length of the run of CR and LF characters that starts at i. */
  function RunLen(c: seq<byte>, i: nat): (n: nat)
    ensures i + n <= |c| || n == 0
    decreases |c| - i
  {
    if i < |c| && IsEolChar(c[i]) then 1 + RunLen(c, i + 1) else 0
  }

  /** Length of the line terminator of the given style that starts at i; 0 if none does. */
  function EolAt(style: EolStyle, c: seq<byte>, i: nat): (n: nat)
    ensures 0 < n ==> i + n <= |c|
  {
    match style
    case EolAny => RunLen(c, i)
    case EolCrlfStrict => if Match(c, [CR, LF], i) then 2 else 0
    case EolCrlf => if i < |c| && c[i] == LF then 1 else if Match(c, [CR, LF], i) then 2 else 0
    case EolLf => if i < |c| && c[i] == LF then 1 else 0
    case EolNul => if i < |c| && c[i] == NUL then 1 else 0
  }

  /** memchr: the first place of ch in s, or -1. */
  method Memchr(s: seq<byte>, ch: byte) returns (r: int)
    ensures -1 <= r < |s|
    ensures 0 <= r ==> s[r] == ch && ch !in s[..r]
    ensures r == -1 ==> ch !in s
  {
    r := 0;
    while r < |s|
      invariant 0 <= r <= |s| && ch !in s[..r]
    {
      if s[r] == ch {
        return;
      }
      r := r + 1;
    }
    r := -1;
  }

  ghost predicate NoEolChar(s: seq<byte>, n: int) {
    forall i :: 0 <= i < n && i < |s| ==> !IsEolChar(s[i])
  }

  lemma NeitherChar(s: seq<byte>, n: nat)
    requires n <= |s| && CR !in s[..n] && LF !in s[..n]
    ensures NoEolChar(s, n)
  {
    forall i | 0 <= i < n
      ensures !IsEolChar(s[i])
    {
      assert s[i] == s[..n][i];
    }
  }

  lemma NotInFront(s: seq<byte>, ch: byte, m: nat, n: nat)
    requires m <= n <= |s| && ch !in s[..n]
    ensures ch !in s[..m]
  {
    assert s[..m] <= s[..n];
  }

  /** One chunk: the nearer of the first CR and the first LF. */
  method ChunkEol(part: seq<byte>) returns (r: int)
    ensures -1 <= r < |part|
    ensures 0 <= r ==> IsEolChar(part[r])
    ensures NoEolChar(part, if r == -1 then |part| else r)
  {
    hide NoEolChar;
    var cr := Memchr(part, CR);
    var lf := Memchr(part, LF);
    assert part[..|part|] == part;
    r := if cr >= 0 && lf >= 0 then (if lf < cr then lf else cr) else if cr >= 0 then cr else lf;
    var n := if r == -1 then |part| else r;
    NotInFront(part, CR, n, if cr >= 0 then cr else |part|);
    NotInFront(part, LF, n, if lf >= 0 then lf else |part|);
    NeitherChar(part, n);
  }

  lemma ChunkStep(s: seq<byte>, at: nat, part: seq<byte>, n: nat)
    requires at + |part| <= |s| && part == s[at..at + |part|] && n <= |part|
    requires NoEolChar(s, at) && NoEolChar(part, n)
    ensures NoEolChar(s, at + n)
  {
    forall i | at <= i < at + n
      ensures !IsEolChar(s[i])
    {
      assert s[i] == part[i - at];
    }
  }

  lemma WholeSeq(s: seq<byte>, n: nat)
    ensures |s| <= n ==> (NoEolChar(s, |s|) <==> NoEolChar(s, n))
  {
  }

  /** find_eol_char: looks for the first CR or LF, 128 bytes at a time. */
  method FindEol(s: seq<byte>) returns (r: int)
    ensures -1 <= r < |s|
    ensures 0 <= r ==> IsEolChar(s[r])
    ensures NoEolChar(s, if r == -1 then |s| else r)
  {
    hide NoEolChar;
    NeitherChar(s, 0);
    var at := 0;
    while at < |s|
      invariant 0 <= at && NoEolChar(s, at)
    {
      var chunk := if at + 128 < |s| then 128 else |s| - at;
      var part := s[at..at + chunk];
      r := ChunkEol(part);
      ChunkStep(s, at, part, if r == -1 then chunk else r);
      if r >= 0 {
        return at + r;
      }
      WholeSeq(s, at + 128);
      at := at + 128;
    }
    WholeSeq(s, at);
    return -1;
  }
}

/** evbuffer_ptr_set, evbuffer_search_range, evbuffer_search_eol and evbuffer_readln. */
module EvbufferSearching {
  import opened Common
  import opened ChainView
  import opened ByteSearch
  import opened EvbufferCore

  function NotFound(): Ptr {
    Ptr(-1, null, 0)
  }

  datatype PtrHow = PtrSet | PtrAdd

  /** A pointer at a byte of a chain. */
  ghost predicate OnByte(buf: Evbuffer, p: Ptr)
    reads buf
  {
    exists k: nat :: buf.PtrAt(p, k) && p.posInChain < buf.vs[k].off
  }

  /** evbuffer_ptr_set: moves p to an offset, or by a distance. */
  method SetPtr(buf: Evbuffer, p: Ptr, position: nat, how: PtrHow) returns (ok: bool, q: Ptr)
    requires buf.Valid() && (how == PtrAdd && 0 <= p.pos ==> buf.Denotes(p))
    ensures var target := if how == PtrSet then position else p.pos + position;
            if how == PtrAdd && (p.pos < 0 || SIZE_MAX < target) then !ok && q == p
            else if target <= buf.totalLen then
              && ok && q.pos == target && buf.Denotes(q)
              && if target < buf.totalLen then OnByte(buf, q) else q.chain == null
            else !ok && q == NotFound()
  {
    hide Flat, Evbuffer.Valid, Evbuffer.Contents;
    var left: nat := position;
    var chain: Chain?, at: nat, pos := buf.first, 0, position;
    ghost var k: nat := 0;
    buf.Sizes();
    if how == PtrAdd {
      if p.pos < 0 || SIZE_MAX - position < p.pos {
        return false, p;
      }
      k := buf.PtrIndex(p);
      chain, at, pos := p.chain, p.posInChain, p.pos + position;
    }
    while chain != null && at + left >= chain.off
      invariant k <= |buf.spine| && chain == At(buf.spine, k)
      invariant |Flat(buf.vs[..k])| + (if k < |buf.spine| then at else 0) + left == pos
      invariant k < |buf.spine| ==> at <= buf.vs[k].off
      decreases |buf.spine| - k
    {
      buf.Here(k);
      left := left - (chain.off - at);
      chain := chain.next;
      at := 0;
      k := k + 1;
    }
    if chain != null {
      buf.Here(k);
      q := Ptr(pos, chain, at + left);
      assert buf.PtrAt(q, k);
      return true, q;
    } else if left == 0 {
      return true, Ptr(pos, null, 0);
    } else {
      return false, NotFound();
    }
  }

  /** evbuffer_ptr_subtract */
  method SubtractPtr(buf: Evbuffer, p: Ptr, howfar: nat) returns (ok: bool, q: Ptr)
    requires buf.Valid() && (0 <= p.pos ==> buf.Denotes(p))
    ensures ok <==> howfar <= p.pos
    ensures ok ==> q.pos == p.pos - howfar && buf.Denotes(q) && (0 < howfar ==> OnByte(buf, q))
    ensures !ok ==> q == p
  {
    hide Flat, PackedTo, LayoutOk, View.Data;
    if p.pos < 0 || howfar > p.pos {
      return false, p;
    }
    ghost var k := buf.PtrIndex(p);
    if p.chain != null && howfar <= p.posInChain {
      q := Ptr(p.pos - howfar, p.chain, p.posInChain - howfar);
      assert buf.PtrAt(q, k);
      return true, q;
    }
    ok, q := SetPtr(buf, p, p.pos - howfar, PtrSet);
  }

  /** The byte a chain holds at place x is the byte of the buffer at its offset. */
  lemma ByteAt(buf: Evbuffer, k: nat, x: nat)
    requires buf.Valid() && k < |buf.spine| && x < buf.vs[k].off
    ensures buf.vs[k] == buf.spine[k].V() && buf.vs[k].Ok()
    ensures |Flat(buf.vs[..k])| + x < |buf.Contents()|
    ensures buf.Contents()[|Flat(buf.vs[..k])| + x] == buf.vs[k].mem[buf.vs[k].misalign + x]
  {
    hide Flat;
    FlatPart(buf.vs, k, x, x + 1);
    var n := |Flat(buf.vs[..k])|;
    assert buf.Contents()[n + x..n + x + 1][0] == buf.Contents()[n + x];
  }

  /** The first j bytes agree. */
  ghost predicate Agree(c: seq<byte>, what: seq<byte>, p: nat, j: nat) {
    j <= |what| && p + |what| <= |c| && c[p..p + j] == what[..j]
  }

  /** Comparing n more bytes. */
  lemma CompareStep(c: seq<byte>, what: seq<byte>, p: nat, j: nat, n: nat)
    requires Agree(c, what, p, j) && j + n <= |what|
    ensures c[p + j..p + j + n] == what[j..j + n] ==> Agree(c, what, p, j + n)
    ensures c[p + j..p + j + n] != what[j..j + n] ==> !Match(c, what, p)
  {
    assert c[p..p + j + n] == c[p..p + j] + c[p + j..p + j + n];
    assert what[..j + n] == what[..j] + what[j..j + n];
    SubSlice(c, p, p + |what|, j, j + n);
  }

  lemma AgreeEnds(c: seq<byte>, what: seq<byte>, p: nat)
    requires p + |what| <= |c|
    ensures Agree(c, what, p, 0) && (Agree(c, what, p, |what|) ==> Match(c, what, p))
  {
    assert what[..|what|] == what;
  }

  /** evbuffer_ptr_memcmp, as far as it tells equal from different. */
  method PtrEquals(buf: Evbuffer, p: Ptr, what: seq<byte>) returns (eq: bool)
    requires buf.Valid() && buf.Denotes(p) && |what| <= SSIZE_MAX
    ensures eq <==> Match(buf.Contents(), what, p.pos)
  {
    hide Flat, Evbuffer.Valid, Evbuffer.Contents, Agree, Match;
    buf.Sizes();
    ghost var k: nat := buf.PtrIndex(p);
    ghost var c := buf.Contents();
    if p.pos + |what| > buf.totalLen {
      MatchFits(c, what, p.pos);
      return false;
    }
    AgreeEnds(c, what, p.pos);
    var chain: Chain?, at: nat, j: nat := p.chain, p.posInChain, 0;
    while j < |what| && chain != null
      invariant k <= |buf.spine| && chain == At(buf.spine, k) && j <= |what|
      invariant k < |buf.spine| ==> at <= buf.vs[k].off
      invariant j < |what| ==> p.pos + j == |Flat(buf.vs[..k])| + if k < |buf.spine| then at else 0
      invariant Agree(c, what, p.pos, j)
      decreases |buf.spine| - k
    {
      buf.Here(k);
      var n := if |what| - j + at > chain.off then chain.off - at else |what| - j;
      buf.HerePart(k, at, at + n);
      CompareStep(c, what, p.pos, j, n);
      if chain.mem[chain.misalign + at..chain.misalign + at + n] != what[j..j + n] {
        return false;
      }
      j := j + n;
      at := 0;
      chain := chain.next;
      k := k + 1;
    }
    return true;
  }

  lemma MatchFits(c: seq<byte>, what: seq<byte>, i: nat)
    requires |c| < i + |what|
    ensures !Match(c, what, i)
  {
  }

  ghost predicate NoMatch(c: seq<byte>, what: seq<byte>, a: int, b: int) {
    forall i {:trigger Match(c, what, i)} :: 0 <= i && a <= i < b ==> !Match(c, what, i)
  }

  /** Where the first byte of the pattern does not occur, the pattern does not start. */
  lemma SkipTo(c: seq<byte>, what: seq<byte>, s: nat, a: nat, b: nat)
    requires NoMatch(c, what, s, a) && what != [] && a <= b <= |c| && what[0] !in c[a..b]
    ensures NoMatch(c, what, s, b)
  {
    forall i | a <= i < b
      ensures !Match(c, what, i)
    {
      assert c[i] == c[a..b][i - a];
      if i + |what| <= |c| {
        assert c[i..i + |what|][0] == c[i];
      }
    }
  }

  lemma SkipOne(c: seq<byte>, what: seq<byte>, s: nat, a: nat)
    requires NoMatch(c, what, s, a) && !Match(c, what, a)
    ensures NoMatch(c, what, s, a + 1)
  {
  }

  lemma NoneFound(c: seq<byte>, what: seq<byte>, s: nat, a: nat, limit: int)
    requires NoMatch(c, what, s, a) && what != [] && limit < a + |what|
    ensures FirstMatch(c, what, s, limit, -1)
  {
  }

  /** The first match at or after s that ends at or before limit, or -1. */
  ghost predicate FirstMatch(c: seq<byte>, what: seq<byte>, s: int, limit: int, r: int) {
    if r < 0 then r == -1 && NoMatch(c, what, s, limit - |what| + 1)
    else s <= r && r + |what| <= limit && Match(c, what, r) && NoMatch(c, what, s, r)
  }

  /** One memchr of evbuffer_search_range: how far the first byte of the pattern is from
      place x of chain k, or -1. */
  method ScanChain(buf: Evbuffer, chain: Chain, x: nat, what: seq<byte>, ghost k: nat, ghost s: nat) returns (r: int)
    requires buf.Valid() && k < |buf.spine| && chain == buf.spine[k] && x <= buf.vs[k].off && what != []
    requires NoMatch(buf.Contents(), what, s, |Flat(buf.vs[..k])| + x)
    ensures -1 <= r && x + r < buf.vs[k].off + (if r == -1 then 1 else 0)
    ensures NoMatch(buf.Contents(), what, s, |Flat(buf.vs[..k])| + if r == -1 then buf.vs[k].off else x + r)
  {
    hide Flat, Evbuffer.Valid, Evbuffer.Contents, Match, NoMatch;
    buf.Here(k);
    var part := chain.mem[chain.misalign + x..chain.misalign + chain.off];
    r := Memchr(part, what[0]);
    ghost var n := |Flat(buf.vs[..k])|;
    ghost var to := if r == -1 then chain.off else x + r;
    buf.HerePart(k, x, to);
    SubSlice(chain.mem, chain.misalign + x, chain.misalign + chain.off, 0, to - x);
    SkipTo(buf.Contents(), what, s, n + x, n + to);
  }

  /** Where a pointer stands. */
  lemma PtrPlace(buf: Evbuffer, p: Ptr) returns (k: nat)
    requires buf.Valid() && buf.Denotes(p)
    ensures k <= |buf.spine| == |buf.vs| && p.chain == At(buf.spine, k) && 0 <= p.pos <= buf.totalLen
    ensures p.pos == |Flat(buf.vs[..k])| + if k < |buf.spine| then p.posInChain else 0
    ensures k < |buf.spine| ==> p.posInChain <= buf.vs[k].off
  {
    hide Flat, LayoutOk;
    buf.Sizes();
    k := buf.PtrIndex(p);
  }

  lemma PlaceDenotes(buf: Evbuffer, k: nat, x: nat)
    requires buf.Valid() && k < |buf.spine| && x <= buf.vs[k].off
    ensures buf.Denotes(Ptr(|Flat(buf.vs[..k])| + x, buf.spine[k], x))
  {
    hide Flat, LayoutOk;
    assert buf.PtrAt(Ptr(|Flat(buf.vs[..k])| + x, buf.spine[k], x), k);
  }

  /** The next place of chain k where the first byte of the pattern stands, and whether the
      whole pattern does. */
  method Candidate(buf: Evbuffer, chain: Chain, pos: nat, x: nat, what: seq<byte>, ghost k: nat, ghost s: nat)
    returns (r: int, eq: bool)
    requires buf.Valid() && k < |buf.spine| && chain == buf.spine[k] && x <= buf.vs[k].off
    requires pos == |Flat(buf.vs[..k])| + x
    requires what != [] && |what| <= SSIZE_MAX && NoMatch(buf.Contents(), what, s, pos)
    ensures -1 <= r && x + r < buf.vs[k].off + (if r == -1 then 1 else 0)
    ensures NoMatch(buf.Contents(), what, s, pos + if r == -1 then buf.vs[k].off - x else r)
    ensures r != -1 ==> buf.Denotes(Ptr(pos + r, chain, x + r))
    ensures r != -1 ==> (eq <==> Match(buf.Contents(), what, pos + r))
  {
    hide Flat, Evbuffer.Valid, Evbuffer.Contents, Evbuffer.PtrAt, Evbuffer.Denotes, Match, NoMatch;
    r := ScanChain(buf, chain, x, what, k, s);
    eq := false;
    if r >= 0 {
      PlaceDenotes(buf, k, x + r);
      eq := PtrEquals(buf, Ptr(pos + r, chain, x + r), what);
    }
  }

  /** The loop of evbuffer_search_range. */
  method SearchFrom(buf: Evbuffer, what: seq<byte>, from: Ptr, end: Option<Ptr>) returns (r: Ptr)
    requires buf.Valid() && what != [] && |what| <= SSIZE_MAX
    requires buf.Denotes(from) && (end.Some? ==> buf.Denotes(end.value))
    ensures FirstMatch(buf.Contents(), what, from.pos, if end.Some? then end.value.pos else buf.totalLen, r.pos)
    ensures if r.pos < 0 then r == NotFound() else buf.Denotes(r) && r.chain != null
  {
    hide Flat, Evbuffer.Valid, Evbuffer.Contents, Evbuffer.PtrAt, Evbuffer.Denotes, Match, NoMatch, FirstMatch;
    var pos, chain: Chain?, x: nat := from.pos, from.chain, from.posInChain;
    ghost var k: nat := PtrPlace(buf, from);
    var lastChain := if end.Some? then end.value.chain else null;
    ghost var s, c := pos, buf.Contents();
    ghost var limit := if end.Some? then end.value.pos else buf.totalLen;
    buf.Sizes();
    if end.Some? {
      ghost var _ := PtrPlace(buf, end.value);
    }
    NoMatchNone(c, what, s);
    while chain != null
      invariant k <= |buf.spine| && chain == At(buf.spine, k) && s <= pos
      invariant pos == |Flat(buf.vs[..k])| + if k < |buf.spine| then x else 0
      invariant k < |buf.spine| ==> x <= buf.vs[k].off
      invariant NoMatch(c, what, s, pos)
      decreases |buf.spine| - k, buf.totalLen - pos
    {
      buf.Here(k);
      var p, eq := Candidate(buf, chain, pos, x, what, k, s);
      if p >= 0 {
        pos, x := pos + p, x + p;
        if eq {
          if end.Some? && pos + |what| > end.value.pos {
            NoneFound(c, what, s, pos, limit);
            return NotFound();
          }
          MatchFound(c, what, s, pos, limit);
          return Ptr(pos, chain, x);
        }
        SkipOne(c, what, s, pos);
        pos, x := pos + 1, x + 1;
        if x == chain.off {
          chain, x := chain.next, 0;
          k := k + 1;
        }
      } else {
        if chain == lastChain {
          EndInside(buf, end.value, k);
          NoneFound(c, what, s, pos + chain.off - x, limit);
          return NotFound();
        }
        pos := pos + (chain.off - x);
        chain, x := chain.next, 0;
        k := k + 1;
      }
    }
    NoneFound(c, what, s, pos, limit);
    return NotFound();
  }

  /** A pointer into chain k is not past its data. */
  lemma EndInside(buf: Evbuffer, p: Ptr, k: nat)
    requires buf.Valid() && buf.Denotes(p) && k < |buf.spine| && p.chain == buf.spine[k]
    ensures p.pos <= |Flat(buf.vs[..k])| + buf.vs[k].off
  {
    hide Flat, LayoutOk;
    var j := buf.PtrIndex(p);
  }

  /** evbuffer_search_range */
  method SearchRange(buf: Evbuffer, what: seq<byte>, start: Option<Ptr>, end: Option<Ptr>) returns (r: Ptr)
    requires buf.Valid()
    requires start.Some? ==> buf.Denotes(start.value)
    requires end.Some? ==> buf.Denotes(end.value)
    ensures var s := if start.Some? then start.value.pos else 0;
            var limit := if end.Some? then end.value.pos else buf.totalLen;
            if what == [] || SSIZE_MAX < |what| then
              r == (if start.Some? then start.value else Ptr(0, buf.first, 0))
            else
              && FirstMatch(buf.Contents(), what, s, limit, r.pos)
              && (if r.pos < 0 then r == NotFound() else buf.Denotes(r) && r.chain != null)
  {
    hide Flat, Evbuffer.Valid, Evbuffer.Contents, Match, NoMatch, FirstMatch;
    var from := if start.Some? then start.value else Ptr(0, buf.first, 0);
    if what == [] || |what| > SSIZE_MAX {
      return from;
    }
    if start.None? {
      StartDenotes(buf);
    }
    r := SearchFrom(buf, what, from, end);
  }

  lemma NoMatchNone(c: seq<byte>, what: seq<byte>, s: nat)
    ensures NoMatch(c, what, s, s)
  {
  }

  lemma MatchFound(c: seq<byte>, what: seq<byte>, s: nat, i: nat, limit: int)
    requires s <= i && NoMatch(c, what, s, i) && Match(c, what, i) && (i + |what| <= limit || limit == |c|)
    ensures FirstMatch(c, what, s, limit, i)
  {
  }

  /** What evbuffer_strchr and evbuffer_find_eol_char look for. */
  datatype Target = One(b: byte) | AnyEol

  predicate Hits(t: Target, b: byte) {
    match t
    case One(ch) => b == ch
    case AnyEol => IsEolChar(b)
  }

  ghost predicate NoHit(c: seq<byte>, t: Target, a: int, b: int) {
    forall i :: 0 <= i < |c| && a <= i < b ==> !Hits(t, c[i])
  }

  lemma ExtendNoHit(c: seq<byte>, t: Target, s: nat, a: nat, part: seq<byte>, n: nat)
    requires NoHit(c, t, s, a) && a + |part| <= |c| && c[a..a + |part|] == part && n <= |part|
    requires forall i :: 0 <= i < n ==> !Hits(t, part[i])
    ensures NoHit(c, t, s, a + n)
    ensures n < |part| ==> c[a + n] == part[n]
  {
    forall i | a <= i < a + n
      ensures !Hits(t, c[i])
    {
      assert c[i] == part[i - a];
    }
  }

  method FirstHit(part: seq<byte>, t: Target) returns (r: int)
    ensures -1 <= r < |part|
    ensures 0 <= r ==> Hits(t, part[r]) && forall i :: 0 <= i < r ==> !Hits(t, part[i])
    ensures r == -1 ==> forall i :: 0 <= i < |part| ==> !Hits(t, part[i])
  {
    match t {
      case One(ch) =>
        r := Memchr(part, ch);
        assert 0 <= r ==> forall i :: 0 <= i < r ==> part[i] == part[..r][i];
      case AnyEol =>
        r := FindEol(part);
    }
  }

  /** evbuffer_strchr and evbuffer_find_eol_char: the first hit at or after `it`. */
  method FindFirst(buf: Evbuffer, it: Ptr, t: Target) returns (found: bool, q: Ptr)
    requires buf.Valid() && buf.Denotes(it)
    ensures found ==> buf.Denotes(q) && q.chain != null && it.pos <= q.pos < buf.totalLen == |buf.Contents()|
    ensures found ==> Hits(t, buf.Contents()[q.pos]) && NoHit(buf.Contents(), t, it.pos, q.pos)
    ensures !found ==> q == NotFound() && NoHit(buf.Contents(), t, it.pos, buf.totalLen)
  {
    hide Flat, Evbuffer.Valid, Evbuffer.Contents, Evbuffer.PtrAt, Evbuffer.Denotes, NoHit, Hits;
    var chain: Chain?, x: nat, pos := it.chain, it.posInChain, it.pos;
    ghost var k: nat := PtrPlace(buf, it);
    ghost var c := buf.Contents();
    buf.Sizes();
    NoHitNone(c, t, pos);
    while chain != null
      invariant k <= |buf.spine| && chain == At(buf.spine, k) && it.pos <= pos
      invariant k < |buf.spine| ==> x <= buf.vs[k].off
      invariant pos == |Flat(buf.vs[..k])| + if k < |buf.spine| then x else 0
      invariant NoHit(c, t, it.pos, pos)
      decreases |buf.spine| - k
    {
      buf.Here(k);
      buf.HerePart(k, x, chain.off);
      var part := chain.mem[chain.misalign + x..chain.misalign + chain.off];
      var r := FirstHit(part, t);
      ExtendNoHit(c, t, it.pos, pos, part, if r >= 0 then r else |part|);
      if r >= 0 {
        PlaceDenotes(buf, k, x + r);
        return true, Ptr(pos + r, chain, x + r);
      }
      pos := pos + (chain.off - x);
      chain, x := chain.next, 0;
      k := k + 1;
    }
    return false, NotFound();
  }

  lemma NoHitNone(c: seq<byte>, t: Target, s: nat)
    ensures NoHit(c, t, s, s)
  {
  }

  /** evbuffer_strspn over CR and LF: the length of the run that starts at p, and p moved behind
      it.  A run that reaches the end of the buffer leaves a pointer to the front of the last
      chain, which is its place only if that chain is empty. */
  method Strspn(buf: Evbuffer, p: Ptr) returns (count: nat, q: Ptr)
    requires buf.Valid() && buf.Denotes(p)
    ensures count == RunLen(buf.Contents(), p.pos) && q.pos == p.pos + count
    ensures buf.Denotes(q) <==> p.chain == null || q.pos < |buf.Contents()| || buf.vs[|buf.vs| - 1].off == 0
  {
    hide Flat, Evbuffer.Valid, Evbuffer.Contents, RunLen;
    ghost var k: nat := buf.PtrIndex(p);
    ghost var c := buf.Contents();
    buf.Sizes();
    count := 0;
    if p.chain == null {
      RunEnds(c, p.pos);
      return 0, p;
    }
    var chain: Chain, i: nat := p.chain, p.posInChain;
    while true
      invariant k < |buf.spine| && chain == buf.spine[k] && i <= buf.vs[k].off
      invariant p.pos + count == |Flat(buf.vs[..k])| + i
      invariant RunLen(c, p.pos) == count + RunLen(c, p.pos + count)
      decreases |buf.spine| - k
    {
      buf.Here(k);
      while i < chain.off
        invariant i <= chain.off && p.pos + count == |Flat(buf.vs[..k])| + i
        invariant RunLen(c, p.pos) == count + RunLen(c, p.pos + count)
      {
        ByteAt(buf, k, i);
        RunStep(c, p.pos + count);
        if !IsEolChar(chain.mem[chain.misalign + i]) {
          q := Ptr(p.pos + count, chain, i);
          assert buf.PtrAt(q, k);
          return;
        }
        count := count + 1;
        i := i + 1;
      }
      i := 0;
      if chain.next == null {
        RunEnds(c, p.pos + count);
        q := Ptr(p.pos + count, chain, 0);
        AtFront(buf, q, k);
        return;
      }
      chain := chain.next;
      k := k + 1;
    }
  }

  /** A pointer to the front of the last chain that should be at its end. */
  lemma AtFront(buf: Evbuffer, q: Ptr, k: nat)
    requires buf.Valid() && k + 1 == |buf.spine| == |buf.vs| && q.chain == buf.spine[k] && q.posInChain == 0
    requires q.pos == |Flat(buf.vs[..k])| + buf.vs[k].off
    ensures buf.Denotes(q) <==> buf.vs[k].off == 0
  {
    hide Flat;
    assert buf.vs[k].off == 0 ==> buf.PtrAt(q, k);
    if buf.Denotes(q) {
      var d := buf.PtrIndex(q);
    }
  }

  lemma RunStep(c: seq<byte>, i: nat)
    requires i < |c|
    ensures RunLen(c, i) == if IsEolChar(c[i]) then 1 + RunLen(c, i + 1) else 0
  {
  }

  lemma RunEnds(c: seq<byte>, i: nat)
    requires |c| <= i
    ensures RunLen(c, i) == 0
  {
  }

  /** No terminator of the style starts in a..b. */
  ghost predicate NoEol(style: EolStyle, c: seq<byte>, a: int, b: int) {
    forall i {:trigger EolAt(style, c, i)} :: 0 <= i && a <= i < b ==> EolAt(style, c, i) == 0
  }

  /** q is where the first terminator at or after s starts and n is its length; or there is
      none. */
  ghost predicate FirstEol(style: EolStyle, c: seq<byte>, s: int, q: int, n: nat) {
    if q < 0 then q == -1 && n == 0 && NoEol(style, c, s, |c|)
    else s <= q && 0 < n == EolAt(style, c, q) && NoEol(style, c, s, q)
  }

  /** The byte each style is recognised by. */
  function EolTarget(style: EolStyle): Target {
    match style
    case EolAny => AnyEol
    case EolNul => One(NUL)
    case _ => One(LF)
  }

  /** For the styles with one-character terminators, and for runs, the first hit is the
      first terminator. */
  lemma HitIsEol(style: EolStyle, c: seq<byte>, s: nat, q: nat)
    requires style.EolAny? || style.EolLf? || style.EolNul?
    requires q <= |c| && NoHit(c, EolTarget(style), s, q)
    ensures NoEol(style, c, s, q)
    ensures q < |c| && Hits(EolTarget(style), c[q]) ==> 0 < EolAt(style, c, q)
  {
    forall i | 0 <= i && s <= i < q
      ensures EolAt(style, c, i) == 0
    {
      assert !Hits(EolTarget(style), c[i]);
    }
  }

  lemma MatchCrlf(c: seq<byte>, i: nat)
    ensures Match(c, [CR, LF], i) <==> i + 2 <= |c| && c[i] == CR && c[i + 1] == LF
  {
    if i + 2 <= |c| {
      assert c[i..i + 2] == [c[i], c[i + 1]];
    }
  }

  /** A terminator of an LF optionally preceded by a CR starts one before its LF exactly if
      there is a CR. */
  lemma CrlfEol(c: seq<byte>, s: nat, q: nat)
    requires s <= q < |c| && c[q] == LF && NoHit(c, One(LF), s, q)
    ensures if s < q && c[q - 1] == CR then FirstEol(EolCrlf, c, s, q - 1, 2) else FirstEol(EolCrlf, c, s, q, 1)
  {
    var at := if s < q && c[q - 1] == CR then q - 1 else q;
    forall i | 0 <= i && s <= i < at
      ensures EolAt(EolCrlf, c, i) == 0
    {
      assert !Hits(One(LF), c[i]);
      assert i + 1 < q ==> !Hits(One(LF), c[i + 1]);
      MatchCrlf(c, i);
    }
    if at == q - 1 {
      assert !Hits(One(LF), c[at]);
      assert c[at..at + 2] == [CR, LF];
    }
  }

  lemma NoLfNoEol(c: seq<byte>, s: nat)
    requires NoHit(c, One(LF), s, |c|)
    ensures NoEol(EolCrlf, c, s, |c|)
  {
    forall i | 0 <= i && s <= i < |c|
      ensures EolAt(EolCrlf, c, i) == 0
    {
      assert !Hits(One(LF), c[i]);
      assert i + 1 < |c| ==> !Hits(One(LF), c[i + 1]);
      MatchCrlf(c, i);
    }
  }

  lemma StrictEol(c: seq<byte>, s: nat, r: int)
    requires FirstMatch(c, [CR, LF], s, |c|, r)
    ensures FirstEol(EolCrlfStrict, c, s, r, if r < 0 then 0 else 2)
  {
  }

  /** evbuffer_getchr */
  method GetChr(buf: Evbuffer, p: Ptr) returns (b: int)
    requires buf.Valid() && (p.chain == null || OnByte(buf, p))
    ensures p.chain == null ==> b == -1
    ensures p.chain != null ==> 0 <= p.pos < |buf.Contents()| && b == buf.Contents()[p.pos]
  {
    hide Flat, LayoutOk, View.Data;
    if p.chain == null {
      return -1;
    }
    ghost var k: nat :| buf.PtrAt(p, k) && p.posInChain < buf.vs[k].off;
    ByteAt(buf, k, p.posInChain);
    b := p.chain.mem[p.chain.misalign + p.posInChain];
  }

  /** The EVBUFFER_EOL_CRLF case of evbuffer_search_eol: the first LF, or the CR before it. */
  method SearchCrlf(buf: Evbuffer, from: Ptr) returns (it: Ptr, len: nat)
    requires buf.Valid() && buf.Denotes(from)
    ensures FirstEol(EolCrlf, buf.Contents(), from.pos, it.pos, len)
    ensures if it.pos < 0 then it == NotFound() else buf.Denotes(it)
  {
    hide Flat, PackedTo, LayoutOk, View.Data, NoHit, EolAt, NoEol;
    ghost var c := buf.Contents();
    ghost var k := buf.PtrIndex(from);
    LayoutSize(buf.vs, buf.lwd, buf.totalLen);
    var found;
    found, it := FindFirst(buf, from, One(LF));
    if !found {
      NoLfNoEol(c, from.pos);
      return NotFound(), 0;
    }
    CrlfEol(c, from.pos, it.pos);
    len := 1;
    if it.pos == from.pos {
      return;
    }
    var ok, it2 := SubtractPtr(buf, it, 1);
    if ok {
      var ch := GetChr(buf, it2);
      if ch == CR {
        it, len := it2, 2;
      }
    }
  }

  /** evbuffer_search_eol */
  method SearchEol(buf: Evbuffer, start: Option<Ptr>, style: EolStyle) returns (it: Ptr, len: nat)
    requires buf.Valid() && (start.Some? ==> buf.Denotes(start.value))
    ensures FirstEol(style, buf.Contents(), if start.Some? then start.value.pos else 0, it.pos, len)
    ensures if it.pos < 0 then it == NotFound() else buf.Denotes(it)
  {
    hide Flat, Evbuffer.Valid, Evbuffer.Contents, Evbuffer.PtrAt, Evbuffer.Denotes;
    hide NoHit, NoMatch, EolAt, NoEol, RunLen;
    ghost var c := buf.Contents();
    buf.Sizes();
    if start.Some? && start.value.chain == null {
      ghost var _ := PtrPlace(buf, start.value);
      PastEndNoEol(style, c, start.value.pos);
      return NotFound(), 0;
    }
    var from := if start.Some? then start.value else Ptr(0, buf.first, 0);
    if start.None? {
      StartDenotes(buf);
    }
    ghost var k := PtrPlace(buf, from);
    match style {
      case EolCrlfStrict =>
        it := SearchRange(buf, [CR, LF], Some(from), None);
        StrictEol(c, from.pos, it.pos);
        return it, if it.pos < 0 then 0 else 2;
      case EolCrlf =>
        it, len := SearchCrlf(buf, from);
      case EolAny =>
        var found;
        found, it := FindFirst(buf, from, AnyEol);
        HitIsEol(style, c, from.pos, if found then it.pos else |c|);
        if !found {
          return NotFound(), 0;
        }
        var run, _ := Strspn(buf, it);
        len := run;
        AnyEolIsRun(c, it.pos);
      case _ =>
        var found;
        found, it := FindFirst(buf, from, EolTarget(style));
        HitIsEol(style, c, from.pos, if found then it.pos else |c|);
        if !found {
          return NotFound(), 0;
        }
        OneCharEol(style, c, it.pos);
        len := 1;
    }
  }

  lemma AnyEolIsRun(c: seq<byte>, i: nat)
    ensures EolAt(EolAny, c, i) == RunLen(c, i)
  {
  }

  lemma OneCharEol(style: EolStyle, c: seq<byte>, i: nat)
    requires style.EolLf? || style.EolNul?
    ensures EolAt(style, c, i) <= 1
  {
  }

  lemma PastEndNoEol(style: EolStyle, c: seq<byte>, s: nat)
    requires |c| <= s
    ensures NoEol(style, c, s, |c|)
  {
  }

  /** The start of the buffer, as a pointer. */
  lemma StartDenotes(buf: Evbuffer)
    requires buf.Valid()
    ensures buf.Denotes(Ptr(0, buf.first, 0))
  {
    FlatEmpty(buf.vs[..0]);
    if buf.first != null {
      assert buf.PtrAt(Ptr(0, buf.first, 0), 0);
    }
  }

  /** evbuffer_readln: the line, without its terminator, or None for NULL. */
  method Readln(buf: Evbuffer, style: EolStyle, memory: bool) returns (r: Option<seq<byte>>)
    requires buf.Valid()
    modifies buf, buf.repr
    ensures buf.Valid() && buf.Grown()
    ensures r == None ==> buf.Contents() == old(buf.Contents())
    ensures r == None <==> buf.freezeStart || !memory || NoEol(style, old(buf.Contents()), 0, |old(buf.Contents())|)
    ensures r.Some? ==>
      var c := old(buf.Contents());
      var n := |c| - |r.value| - |buf.Contents()|;
      && 0 <= n && FirstEol(style, c, 0, |r.value|, n)
      && c == r.value + c[|r.value|..|r.value| + n] + buf.Contents()
  {
    hide Flat, Evbuffer.Valid, Evbuffer.Contents, Evbuffer.Packed, EolAt, NoEol;
    if buf.freezeStart {
      return None;
    }
    ghost var c := buf.Contents();
    buf.Sizes();
    var it, extra := SearchEol(buf, None, style);
    if it.pos < 0 {
      return None;
    }
    EolInside(style, c, it.pos);
    if !memory {
      return None;
    }
    r := buf.Remove(it.pos);
    buf.Sizes();
    ThreeParts(c, r.value, buf.Contents(), extra);
    var _ := buf.Drain(extra);
  }

  lemma EolInside(style: EolStyle, c: seq<byte>, q: nat)
    requires 0 < EolAt(style, c, q)
    ensures q + EolAt(style, c, q) <= |c| && !NoEol(style, c, 0, |c|)
  {
  }

  lemma ThreeParts(c: seq<byte>, a: seq<byte>, b: seq<byte>, n: nat)
    requires c == a + b && n <= |b|
    ensures c == a + c[|a|..|a| + n] + b[n..]
    ensures n == |b| ==> b[n..] == []
  {
  }
}
