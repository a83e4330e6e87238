/** Domain names in DNS messages (sections 3.1 and 4.1.4 of RFC 1035): the parser and the
    encoder with its compression table. */
module DnsName {
  import opened Common

  const DOT: byte := 46

  /** A decoded name: its labels, the index just past it (or past its first pointer), and
      how many pointers were followed. */
  datatype Name = Name(labels: seq<seq<byte>>, end: nat, jumps: nat)

  /** The offset a pointer stands for. */
  function Target(hi: byte, lo: byte): nat {
    hi % 64 * 256 + lo
  }

  /** What a name at index j means, if it ends after following at most `jumps` pointers. */
  function Decode(p: seq<byte>, j: nat, jumps: nat): Option<Name>
    decreases jumps, |p| - j
  {
    if |p| <= j then None
    else if p[j] == 0 then Some(Name([], j + 1, 0))
    else if 64 <= p[j] then
      if |p| <= j + 1 || |p| <= Target(p[j], p[j + 1]) || jumps == 0 then None
      else
        var rest := Decode(p, Target(p[j], p[j + 1]), jumps - 1);
        if rest == None then None else Some(Name(rest.value.labels, j + 2, rest.value.jumps + 1))
    else
      if |p| < j + 1 + p[j] then None
      else
        var rest := Decode(p, j + 1 + p[j], jumps);
        if rest == None then None
        else Some(rest.value.(labels := [p[j + 1..j + 1 + p[j]]] + rest.value.labels))
  }

  /** Labels with dots between them. */
  function Dotted(labels: seq<seq<byte>>): seq<byte> {
    if labels == [] then []
    else if |labels| == 1 then labels[0]
    else labels[0] + [DOT] + Dotted(labels[1..])
  }

  /** How many jumps a name takes does not depend on how many are allowed. */
  lemma {:induction false} MoreJumps(p: seq<byte>, j: nat, k: nat, k': nat)
    requires Decode(p, j, k).Some?
    ensures Decode(p, j, k).value.jumps <= k
    ensures Decode(p, j, k).value.jumps <= k' ==> Decode(p, j, k') == Decode(p, j, k)
    decreases k, |p| - j
  {
    if 64 <= p[j] {
      MoreJumps(p, Target(p[j], p[j + 1]), k - 1, if k' == 0 then 0 else k' - 1);
    } else if p[j] != 0 {
      MoreJumps(p, j + 1 + p[j], k, k');
    }
  }

  /** The indices pointers of a name lead to are all different: each has fewer jumps left. */
  lemma {:induction false} DistinctTargets(p: seq<byte>, j: nat, k: nat) returns (targets: set<nat>)
    requires Decode(p, j, k).Some?
    ensures |targets| == Decode(p, j, k).value.jumps
    ensures forall t :: t in targets ==> t < |p|
    ensures forall t :: t in targets ==>
      Decode(p, t, k).Some? && Decode(p, t, k).value.jumps < Decode(p, j, k).value.jumps
    decreases k, |p| - j
  {
    if p[j] == 0 {
      targets := {};
    } else if 64 <= p[j] {
      var t := Target(p[j], p[j + 1]);
      var rest := DistinctTargets(p, t, k - 1);
      MoreJumps(p, t, k - 1, k);
      forall u | u in rest
        ensures Decode(p, u, k).Some? && Decode(p, u, k).value.jumps < Decode(p, t, k).value.jumps
      {
        MoreJumps(p, u, k - 1, k);
      }
      targets := rest + {t};
    } else {
      targets := DistinctTargets(p, j + 1 + p[j], k);
    }
  }

  lemma {:induction false} SmallSet(s: set<nat>, n: nat)
    requires forall x :: x in s ==> x < n
    ensures |s| <= n
  {
    if n == 0 {
      assert s == {};
    } else {
      SmallSet(s - {n - 1}, n - 1);
    }
  }

  /** As many jumps as the message has bytes are enough for every name that ends at all: a
      name that needs more goes round in a circle. */
  lemma EnoughJumps(p: seq<byte>, j: nat, k: nat)
    requires Decode(p, j, k).Some?
    ensures Decode(p, j, |p|) == Decode(p, j, k)
  {
    var targets := DistinctTargets(p, j, k);
    SmallSet(targets, |p|);
    MoreJumps(p, j, k, |p|);
  }

  lemma {:induction false} DottedSnoc(done: seq<seq<byte>>, l: seq<byte>)
    ensures Dotted(done + [l]) == if done == [] then l else Dotted(done) + [DOT] + l
  {
    if |done| <= 1 {
      assert done == [] ==> done + [l] == [l];
      assert |done| == 1 ==> (done + [l])[1..] == [l];
    } else {
      assert (done + [l])[1..] == done[1..] + [l];
      DottedSnoc(done[1..], l);
    }
  }

  lemma {:induction false} DottedPrefix(a: seq<seq<byte>>, b: seq<seq<byte>>)
    ensures |Dotted(a)| <= |Dotted(a + b)|
  {
    if a == [] {
    } else if |a| == 1 {
      assert (a + b)[0] == a[0];
    } else {
      assert (a + b)[1..] == a[1..] + b;
      DottedPrefix(a[1..], b);
    }
  }

  /** Where the parser stands: the name that started at idx continues at j, after `done`. */
  ghost predicate Parsing(p: seq<byte>, idx: nat, j: nat, jumps: nat, done: seq<seq<byte>>, nameEnd: int) {
    var whole, rest := Decode(p, idx, |p|), Decode(p, j, jumps);
    if rest == None then whole == None
    else
      && whole.Some? && whole.value.labels == done + rest.value.labels
      && whole.value.end == if 0 <= nameEnd then nameEnd else rest.value.end
  }

  lemma ParsingLabel(p: seq<byte>, idx: nat, j: nat, jumps: nat, done: seq<seq<byte>>, nameEnd: int)
    requires Parsing(p, idx, j, jumps, done, nameEnd) && j < |p| && 0 < p[j] < 64
    ensures |p| < j + 1 + p[j] ==> Decode(p, idx, |p|) == None
    ensures j + 1 + p[j] <= |p| ==>
      Parsing(p, idx, j + 1 + p[j], jumps, done + [p[j + 1..j + 1 + p[j]]], nameEnd)
    ensures j + 1 + p[j] <= |p| && Decode(p, idx, |p|).Some? ==>
      |Dotted(done + [p[j + 1..j + 1 + p[j]]])| <= |Dotted(Decode(p, idx, |p|).value.labels)|
  {
    if j + 1 + p[j] <= |p| && Decode(p, idx, |p|).Some? {
      var l := p[j + 1..j + 1 + p[j]];
      var rest := Decode(p, j + 1 + p[j], jumps).value.labels;
      assert done + ([l] + rest) == done + [l] + rest;
      DottedPrefix(done + [l], rest);
    }
  }

  lemma ParsingPointer(p: seq<byte>, idx: nat, j: nat, jumps: nat, done: seq<seq<byte>>, nameEnd: int)
    requires Parsing(p, idx, j, jumps, done, nameEnd) && j < |p| && 64 <= p[j]
    ensures |p| <= j + 1 || |p| <= Target(p[j], p[j + 1]) || jumps == 0 ==> Decode(p, idx, |p|) == None
    ensures j + 1 < |p| && Target(p[j], p[j + 1]) < |p| && 0 < jumps ==>
      Parsing(p, idx, Target(p[j], p[j + 1]), jumps - 1, done, if nameEnd < 0 then j + 2 else nameEnd)
  {
  }

  lemma ParsingEnd(p: seq<byte>, idx: nat, j: nat, jumps: nat, done: seq<seq<byte>>, nameEnd: int)
    requires Parsing(p, idx, j, jumps, done, nameEnd)
    ensures |p| <= j ==> Decode(p, idx, |p|) == None
    ensures j < |p| && p[j] == 0 ==>
      var whole := Decode(p, idx, |p|);
      whole.Some? && whole.value.labels == done && whole.value.end == if nameEnd < 0 then j + 1 else nameEnd
  {
    assert done + [] == done;
  }

  /** Copies bytes of the message behind the first n bytes of a string. */
  method CopyTo(out: array<byte>, n: nat, bytes: seq<byte>)
    requires n + |bytes| <= out.Length
    modifies out
    ensures out[..n + |bytes|] == old(out[..n]) + bytes
  {
    forall k | 0 <= k < |bytes| {
      out[n + k] := bytes[k];
    }
  }

  /** Copies one label behind the name so far, with a dot between them; the length of the name, or
      -1 if the label does not end inside the packet or the name does not fit. */
  method CopyLabel(packet: seq<byte>, j: nat, labelLen: nat, out: array<byte>, at: nat, ghost done: seq<seq<byte>>)
    returns (cp: int)
    requires (done == [] <==> at == 0) && at <= out.Length && out[..at] == Dotted(done) && 0 < labelLen
    modifies out
    ensures var text := if j + labelLen <= |packet| then Dotted(done + [packet[j..j + labelLen]]) else [];
            if j + labelLen <= |packet| && |text| < out.Length then 0 < cp == |text| && out[..cp] == text else cp == -1
  {
    hide Dotted;
    ghost var l := if j + labelLen <= |packet| then packet[j..j + labelLen] else [];
    DottedSnoc(done, l);
    cp := at;
    if cp != 0 {
      if cp + 1 >= out.Length {
        return -1;
      }
      CopyTo(out, cp, [DOT]);
      cp := cp + 1;
    }
    if cp + labelLen >= out.Length {
      return -1;
    }
    if j + labelLen > |packet| {
      return -1;
    }
    CopyTo(out, cp, packet[j..j + labelLen]);
    cp := cp + labelLen;
  }

  /** name_parse: 0 or -1, and the new index.  The name goes to `out`. */
  method NameParse(packet: seq<byte>, idx: nat, out: array<byte>) returns (r: int, next: nat)
    modifies out
    ensures r == 0 || r == -1
    ensures var name := Decode(packet, idx, |packet|);
            if name.Some? && |Dotted(name.value.labels)| < out.Length then
              var text := Dotted(name.value.labels);
              r == 0 && next == name.value.end <= |packet| && out[..|text|] == text && out[|text|] == 0
            else r == -1 && next == idx
  {
    hide Decode, Dotted, Parsing, Target;
    var nameEnd, j, ptrCount, cp := -1, idx, 0, 0;
    ghost var done: seq<seq<byte>> := [];
    DecodeEnd(packet, idx, |packet|);
    ParsingStart(packet, idx);
    while true
      invariant 0 <= ptrCount <= |packet| && 0 <= j
      invariant Parsing(packet, idx, j, |packet| - ptrCount, done, nameEnd)
      invariant 0 <= cp && (done == [] <==> cp == 0) && (0 < cp ==> cp < out.Length) && out[..cp] == Dotted(done)
      decreases |packet| - ptrCount, |packet| - j
    {
      if j >= |packet| {
        ParsingEnd(packet, idx, j, |packet| - ptrCount, done, nameEnd);
        return -1, idx;
      }
      var labelLen := packet[j];
      j := j + 1;
      if labelLen == 0 {
        ParsingEnd(packet, idx, j - 1, |packet| - ptrCount, done, nameEnd);
        break;
      }
      if labelLen >= 64 {
        ParsingPointer(packet, idx, j - 1, |packet| - ptrCount, done, nameEnd);
        if j >= |packet| {
          return -1, idx;
        }
        var ptrLow := packet[j];
        j := j + 1;
        nameEnd := if nameEnd < 0 then j else nameEnd;
        j := Target(labelLen, ptrLow);
        if j >= |packet| {
          return -1, idx;
        }
        ptrCount := ptrCount + 1;
        if ptrCount > |packet| {
          return -1, idx;
        }
        continue;
      }
      ParsingLabel(packet, idx, j - 1, |packet| - ptrCount, done, nameEnd);
      ghost var l := if j + labelLen <= |packet| then packet[j..j + labelLen] else [];
      cp := CopyLabel(packet, j, labelLen, out, cp, done);
      if cp == -1 {
        return -1, idx;
      }
      j := j + labelLen;
      done := done + [l];
    }
    if cp >= out.Length {
      return -1, idx;
    }
    out[cp] := 0;
    return 0, if nameEnd < 0 then j else nameEnd;
  }

  lemma ParsingStart(p: seq<byte>, idx: nat)
    ensures Parsing(p, idx, idx, |p|, [], -1) && Dotted([]) == []
  {
    if Decode(p, idx, |p|).Some? {
      assert [] + Decode(p, idx, |p|).value.labels == Decode(p, idx, |p|).value.labels;
    }
  }

  lemma {:induction false} DecodeEnd(p: seq<byte>, j: nat, k: nat)
    ensures Decode(p, j, k).Some? ==> j < Decode(p, j, k).value.end <= |p|
    decreases k, |p| - j
  {
    if j < |p| && 0 < p[j] < 64 && j + 1 + p[j] <= |p| {
      DecodeEnd(p, j + 1 + p[j], k);
    }
  }
}

/** dnsname_to_labels and its compression table. */
module DnsLabels {
  import opened Common
  import opened DnsName

  const MAX_LABELS: nat := 128
  const MAX_NAME: nat := 255
  const MAX_LABEL: nat := 63
  /** Offsets a pointer can hold. */
  const POINTERS: nat := 0x4000

  /** Where the first dot of s is, or the length of s: strchr. */
  function FirstDot(s: seq<byte>): (d: nat)
    ensures d <= |s| && (d < |s| ==> s[d] == DOT) && DOT !in s[..d]
  {
    if s == [] || s[0] == DOT then 0
    else
      var d := FirstDot(s[1..]);
      assert s[..d + 1] == [s[0]] + s[1..][..d];
      1 + d
  }

  /** A name cut at its dots. */
  function Split(s: seq<byte>): (ls: seq<seq<byte>>)
    ensures 0 < |ls|
  {
    var d := FirstDot(s);
    if d == |s| then [s] else [s[..d]] + Split(s[d + 1..])
  }

  /** The labels of a name; the empty name is the root, which has none. */
  function Labels(name: seq<byte>): seq<seq<byte>> {
    if name == [] then [] else Split(name)
  }

  lemma {:induction false} DottedSplit(s: seq<byte>)
    ensures Dotted(Split(s)) == s
  {
    hide Split, Dotted, FirstDot;
    SplitStep(s);
    var d := FirstDot(s);
    if d < |s| {
      var t := s[d + 1..];
      DottedSplit(t);
      DottedCons(s[..d], Split(t));
      assert s == s[..d] + [DOT] + t;
    } else {
      DottedOne(s);
    }
  }

  lemma SplitStep(s: seq<byte>)
    ensures var d := FirstDot(s);
            Split(s) == if d == |s| then [s] else [s[..d]] + Split(s[d + 1..])
  {
    hide FirstDot;
  }

  lemma DottedCons(l: seq<byte>, ls: seq<seq<byte>>)
    requires ls != []
    ensures Dotted([l] + ls) == l + [DOT] + Dotted(ls)
  {
    assert ([l] + ls)[1..] == ls;
  }

  lemma DottedOne(l: seq<byte>)
    ensures Dotted([l]) == l
  {
  }

  /** The last byte of a name is that of its last label, or a dot before an empty one. */
  lemma {:induction false} LastLabel(s: seq<byte>)
    ensures var ls := Split(s);
            var l := ls[|ls| - 1];
            if s == [] || s[|s| - 1] == DOT then l == [] else l != [] && l[|l| - 1] == s[|s| - 1]
  {
    hide Split, FirstDot;
    SplitStep(s);
    var d := FirstDot(s);
    if d < |s| {
      LastLabel(s[d + 1..]);
    } else if s != [] {
      assert s[|s| - 1] in s[..d];
    }
  }

  /** No label is longer than a length byte can say. */
  ghost predicate ShortLabels(name: seq<byte>) {
    forall i :: 0 <= i < |Split(name)| ==> |Split(name)[i]| <= MAX_LABEL
  }

  lemma GoodShort(name: seq<byte>)
    requires Good(name)
    ensures ShortLabels(name)
  {
    if name == [] {
      RootSplit();
    }
  }

  /** The coding of the name does not end in a zero of its own. */
  predicate Unended(name: seq<byte>) {
    name != [] && name[|name| - 1] != DOT && name[|name| - 1] != 0
  }

  lemma DottedLabels(name: seq<byte>)
    ensures Dotted(Labels(name)) == name
  {
    if name != [] {
      DottedSplit(name);
    }
  }

  predicate GoodLabels(ls: seq<seq<byte>>) {
    forall i :: 0 <= i < |ls| ==> 1 <= |ls[i]| <= MAX_LABEL && 0 !in ls[i]
  }

  /** A name of dot-separated labels of 1 to 63 bytes. */
  predicate Good(name: seq<byte>) {
    GoodLabels(Labels(name))
  }

  /** Labels as they are written: each after its length. */
  function Coded(ls: seq<seq<byte>>): seq<byte> {
    if ls == [] then [] else [|ls[0]| % 256] + (ls[0] + Coded(ls[1..]))
  }

  /** The bytes s stand at j. */
  ghost predicate Holds(p: seq<byte>, j: nat, s: seq<byte>) {
    j + |s| <= |p| && p[j..j + |s|] == s
  }

  lemma HoldsConcat(p: seq<byte>, j: nat, s: seq<byte>, t: seq<byte>)
    ensures Holds(p, j, s + t) <==> Holds(p, j, s) && Holds(p, j + |s|, t)
  {
    if j + |s| + |t| <= |p| {
      var all := p[j..j + |s| + |t|];
      assert all == p[j..j + |s|] + p[j + |s|..j + |s| + |t|];
      if all == s + t {
        assert p[j..j + |s|] == all[..|s|] == s;
        assert p[j + |s|..j + |s| + |t|] == all[|s|..] == t;
      }
    }
  }

  /** The labels ls are written at j, with every pointer leading strictly backwards. */
  predicate Spells(p: seq<byte>, j: nat, ls: seq<seq<byte>>)
    decreases |ls|, j
  {
    && j < |p|
    && if p[j] == 0 then ls == []
       else if 64 <= p[j] then
         j + 1 < |p| && Target(p[j], p[j + 1]) < j && Spells(p, Target(p[j], p[j + 1]), ls)
       else
         && ls != [] && j + 1 + p[j] <= |p| && p[j + 1..j + 1 + p[j]] == ls[0]
         && Spells(p, j + 1 + p[j], ls[1..])
  }

  /** The index just past the name. */
  function EndsAt(p: seq<byte>, j: nat, ls: seq<seq<byte>>): (e: nat)
    requires Spells(p, j, ls)
    ensures j < e <= |p|
    decreases |ls|, j
  {
    if p[j] == 0 then j + 1
    else if 64 <= p[j] then j + 2
    else EndsAt(p, j + 1 + p[j], ls[1..])
  }

  /** What is spelled is what the parser finds. */
  lemma {:induction false} SpellsDecode(p: seq<byte>, j: nat, ls: seq<seq<byte>>) returns (k: nat)
    requires Spells(p, j, ls)
    ensures Decode(p, j, k) == Some(Name(ls, EndsAt(p, j, ls), k))
    decreases |ls|, j
  {
    if p[j] == 0 {
      k := 0;
    } else if 64 <= p[j] {
      k := SpellsDecode(p, Target(p[j], p[j + 1]), ls);
      k := k + 1;
    } else {
      k := SpellsDecode(p, j + 1 + p[j], ls[1..]);
      assert [ls[0]] + ls[1..] == ls;
    }
  }

  /** Writing more of the message changes no name before it. */
  lemma {:induction false} SpellsGrow(p: seq<byte>, q: seq<byte>, j: nat, ls: seq<seq<byte>>)
    requires Spells(p, j, ls) && p <= q
    ensures Spells(q, j, ls) && EndsAt(q, j, ls) == EndsAt(p, j, ls)
    decreases |ls|, j
  {
    if p[j] == 0 {
    } else if 64 <= p[j] {
      SpellsGrow(p, q, Target(p[j], p[j + 1]), ls);
    } else {
      assert q[j + 1..j + 1 + q[j]] == p[j + 1..j + 1 + p[j]];
      SpellsGrow(p, q, j + 1 + p[j], ls[1..]);
    }
  }

  lemma CodedHead(p: seq<byte>, j: nat, a: seq<seq<byte>>)
    requires a != [] && 1 <= |a[0]| <= MAX_LABEL && Holds(p, j, Coded(a))
    ensures var n := |a[0]|;
            && |Coded(a)| == 1 + n + |Coded(a[1..])| && j + 1 + n <= |p|
            && p[j] == n && p[j + 1..j + 1 + n] == a[0] && Holds(p, j + 1 + n, Coded(a[1..]))
  {
    hide Holds;
    HoldsConcat(p, j, [|a[0]| % 256], a[0] + Coded(a[1..]));
    HoldsConcat(p, j + 1, a[0], Coded(a[1..]));
    HoldsIs(p, j, [|a[0]|]);
    HoldsIs(p, j + 1, a[0]);
  }

  lemma HoldsIs(p: seq<byte>, j: nat, s: seq<byte>)
    requires Holds(p, j, s) && s != []
    ensures j + |s| <= |p| && p[j..j + |s|] == s && p[j] == s[0]
  {
    assert p[j..j + |s|][0] == p[j];
  }

  lemma OneLabel(p: seq<byte>, j: nat, l: seq<byte>, ls: seq<seq<byte>>)
    requires 1 <= |l| <= MAX_LABEL && j + 1 + |l| <= |p| && p[j] == |l| && p[j + 1..j + 1 + |l|] == l
    requires Spells(p, j + 1 + |l|, ls)
    ensures Spells(p, j, [l] + ls) && EndsAt(p, j, [l] + ls) == EndsAt(p, j + 1 + |l|, ls)
  {
    assert ([l] + ls)[1..] == ls;
  }

  /** Labels written in front of a spelled name. */
  lemma {:induction false} CodedSpells(p: seq<byte>, j: nat, a: seq<seq<byte>>, b: seq<seq<byte>>)
    requires GoodLabels(a) && Holds(p, j, Coded(a))
    requires Spells(p, j + |Coded(a)|, b)
    ensures Spells(p, j, a + b) && EndsAt(p, j, a + b) == EndsAt(p, j + |Coded(a)|, b)
    decreases |a|
  {
    hide Spells, EndsAt, Holds;
    if a == [] {
      assert a + b == b;
    } else {
      CodedHead(p, j, a);
      CodedSpells(p, j + 1 + |a[0]|, a[1..], b);
      OneLabel(p, j, a[0], a[1..] + b);
      assert a + b == [a[0]] + (a[1..] + b);
    }
  }

  lemma {:induction false} CodedConcat(a: seq<seq<byte>>, b: seq<seq<byte>>)
    ensures Coded(a + b) == Coded(a) + Coded(b)
  {
    if a == [] {
      assert a + b == b;
    } else {
      assert (a + b)[1..] == a[1..] + b;
      CodedConcat(a[1..], b);
    }
  }

  datatype Entry = Entry(v: seq<byte>, pos: nat)

  /** Every entry of the table leads to its name. */
  ghost predicate TableOk(p: seq<byte>, es: seq<Entry>) {
    forall i :: 0 <= i < |es| ==> EntryOk(p, es[i])
  }

  ghost predicate EntryOk(p: seq<byte>, e: Entry) {
    e.pos < POINTERS && Good(e.v) && Spells(p, e.pos, Labels(e.v))
  }

  lemma TableGrow(p: seq<byte>, q: seq<byte>, es: seq<Entry>)
    requires TableOk(p, es) && p <= q
    ensures TableOk(q, es)
  {
    forall i | 0 <= i < |es|
      ensures EntryOk(q, es[i])
    {
      assert EntryOk(p, es[i]);
      SpellsGrow(p, q, es[i].pos, Labels(es[i].v));
    }
  }

  class LabelTable {
    /** Whether copies of names can be allocated. */
    const memory: bool
    var labels: seq<Entry>

    constructor (memory: bool)
      ensures labels == [] && this.memory == memory
    {
      this.labels, this.memory := [], memory;
    }

    /** dnslabel_table_get_pos */
    method GetPos(name: seq<byte>) returns (pos: int)
      ensures pos == -1 ==> forall i :: 0 <= i < |labels| ==> labels[i].v != name
      ensures pos != -1 ==> 0 <= pos && Entry(name, pos) in labels
    {
      var i := 0;
      while i < |labels|
        invariant 0 <= i <= |labels|
        invariant forall k :: 0 <= k < i ==> labels[k].v != name
      {
        if name == labels[i].v {
          assert labels[i] == Entry(name, labels[i].pos);
          return labels[i].pos;
        }
        i := i + 1;
      }
      return -1;
    }

    /** dnslabel_table_add */
    method Add(name: seq<byte>, pos: nat) returns (r: int)
      modifies this
      ensures labels == old(labels) + if r == 0 then [Entry(name, pos)] else []
      ensures r == 0 <==> |old(labels)| != MAX_LABELS && memory
    {
      if |labels| == MAX_LABELS {
        return -1;
      }
      if !memory {
        return -1;
      }
      labels := labels + [Entry(name, pos)];
      return 0;
    }
  }

  /** An entry made while the name with the labels `all` was being written from `start` on. */
  ghost predicate NewEntry(e: Entry, all: seq<seq<byte>>, start: nat, cur: nat) {
    exists m :: 0 <= m < cur <= |all| && Split(e.v) == all[m..] && e.pos == start + |Coded(all[..m])|
  }

  /** The first `cur` of the labels `all` have been written behind the message p; q is the
      message now and es the table, which was es0. */
  ghost predicate Writing(p: seq<byte>, all: seq<seq<byte>>, cur: nat, q: seq<byte>, es0: seq<Entry>, es: seq<Entry>) {
    && cur <= |all| && q == p + Coded(all[..cur])
    && es0 <= es && forall i :: |es0| <= i < |es| ==> NewEntry(es[i], all, |p|, cur)
  }

  lemma WritingNext(p: seq<byte>, all: seq<seq<byte>>, cur: nat, q: seq<byte>, es0: seq<Entry>, es: seq<Entry>,
                    rest: seq<byte>, q': seq<byte>, es': seq<Entry>)
    requires Writing(p, all, cur, q, es0, es) && cur < |all| && Split(rest) == all[cur..]
    requires q' == q + [|all[cur]| % 256] + all[cur] && (es' == es || es' == es + [Entry(rest, |q|)])
    ensures Writing(p, all, cur + 1, q', es0, es')
  {
    hide Split;
    CodedConcat(all[..cur], [all[cur]]);
    assert all[..cur + 1] == all[..cur] + [all[cur]];
    assert Coded([all[cur]]) == [|all[cur]| % 256] + all[cur];
    forall i | |es0| <= i < |es'|
      ensures NewEntry(es'[i], all, |p|, cur + 1)
    {
      if i < |es| {
        assert es'[i] == es[i] && NewEntry(es[i], all, |p|, cur);
      }
    }
  }

  /** Any suffix of a name is spelled once the end of the name is. */
  lemma SuffixSpelled(p: seq<byte>, all: seq<seq<byte>>, cur: nat, q: seq<byte>, m: nat)
    requires m <= cur <= |all| && GoodLabels(all) && p + Coded(all[..cur]) <= q
    requires Spells(q, |p| + |Coded(all[..cur])|, all[cur..])
    ensures var at := |p| + |Coded(all[..m])|;
            Spells(q, at, all[m..]) && EndsAt(q, at, all[m..]) == EndsAt(q, |p| + |Coded(all[..cur])|, all[cur..])
  {
    hide Coded, Spells, EndsAt;
    var at := |p| + |Coded(all[..m])|;
    assert all[..cur] == all[..m] + all[m..cur] && all[m..] == all[m..cur] + all[cur..];
    CodedConcat(all[..m], all[m..cur]);
    var c := p + Coded(all[..cur]);
    assert c == p + Coded(all[..m]) + Coded(all[m..cur]);
    assert q[at..at + |Coded(all[m..cur])|] == c[at..] == Coded(all[m..cur]);
    CodedSpells(q, at, all[m..cur], all[cur..]);
  }

  lemma NewEntryOk(p: seq<byte>, all: seq<seq<byte>>, cur: nat, q: seq<byte>, e: Entry)
    requires NewEntry(e, all, |p|, cur) && GoodLabels(all) && p + Coded(all[..cur]) <= q
    requires |p| + |Coded(all[..cur])| <= POINTERS && Spells(q, |p| + |Coded(all[..cur])|, all[cur..])
    ensures EntryOk(q, e)
  {
    hide Coded, Spells, EndsAt, Split, GoodLabels;
    var m :| 0 <= m < cur <= |all| && Split(e.v) == all[m..] && e.pos == |p| + |Coded(all[..m])|;
    SuffixSpelled(p, all, cur, q, m);
    SuffixLabels(all, m, e.v);
    CodedShorter(all, m, cur);
  }

  /** Once the rest of the name is spelled, the name and all entries of the table are. */
  lemma Complete(p: seq<byte>, all: seq<seq<byte>>, cur: nat, q0: seq<byte>, q: seq<byte>, es0: seq<Entry>,
                 es: seq<Entry>)
    requires Writing(p, all, cur, q0, es0, es) && GoodLabels(all) && q0 <= q && |q0| <= POINTERS && TableOk(p, es0)
    requires Spells(q, |q0|, all[cur..]) && EndsAt(q, |q0|, all[cur..]) == |q|
    ensures Spells(q, |p|, all) && EndsAt(q, |p|, all) == |q| && TableOk(q, es)
  {
    hide Coded, Spells, EndsAt, GoodLabels, Writing, TableOk;
    WrittenIs(p, all, cur, q0, es0, es);
    NameComplete(p, all, cur, q0, q);
    PrefixOf(p, q0, q);
    TableGrow(p, q, es0);
    TableComplete(p, all, cur, q0, q, es0, es);
  }

  lemma NameComplete(p: seq<byte>, all: seq<seq<byte>>, cur: nat, q0: seq<byte>, q: seq<byte>)
    requires cur <= |all| && q0 == p + Coded(all[..cur]) && GoodLabels(all) && q0 <= q
    requires Spells(q, |q0|, all[cur..])
    ensures Spells(q, |p|, all) && EndsAt(q, |p|, all) == EndsAt(q, |q0|, all[cur..])
  {
    hide Coded, Spells, EndsAt;
    assert all == all[..cur] + all[cur..];
    assert q[|p|..|q0|] == q0[|p|..] == Coded(all[..cur]);
    CodedSpells(q, |p|, all[..cur], all[cur..]);
  }

  lemma PrefixOf(a: seq<byte>, b: seq<byte>, c: seq<byte>)
    requires a <= b <= c
    ensures a <= c
  {
  }

  lemma WrittenIs(p: seq<byte>, all: seq<seq<byte>>, cur: nat, q: seq<byte>, es0: seq<Entry>, es: seq<Entry>)
    requires Writing(p, all, cur, q, es0, es)
    ensures cur <= |all| && q == p + Coded(all[..cur]) && p <= q
  {
  }

  lemma TableComplete(p: seq<byte>, all: seq<seq<byte>>, cur: nat, q0: seq<byte>, q: seq<byte>, es0: seq<Entry>,
                      es: seq<Entry>)
    requires Writing(p, all, cur, q0, es0, es) && GoodLabels(all) && q0 <= q && |q0| <= POINTERS && TableOk(q, es0)
    requires Spells(q, |q0|, all[cur..])
    ensures TableOk(q, es)
  {
    hide Coded, Spells, EndsAt, GoodLabels, NewEntry, EntryOk;
    forall i | 0 <= i < |es|
      ensures EntryOk(q, es[i])
    {
      if i < |es0| {
        assert es[i] == es0[i];
      } else {
        NewEntryOk(p, all, cur, q, es[i]);
      }
    }
  }

  lemma CodedNone(all: seq<seq<byte>>)
    ensures Coded(all[..0]) == []
  {
  }

  lemma CodedShorter(all: seq<seq<byte>>, m: nat, cur: nat)
    requires m < cur <= |all|
    ensures |Coded(all[..m])| < |Coded(all[..cur])|
  {
    CodedConcat(all[..m], all[m..cur]);
    assert all[..cur] == all[..m] + all[m..cur];
  }

  lemma SuffixLabels(all: seq<seq<byte>>, m: nat, v: seq<byte>)
    requires GoodLabels(all) && m < |all| && Split(v) == all[m..]
    ensures Good(v) && Labels(v) == all[m..]
  {
    assert Split([]) == [[]];
    assert all[m..][0] == all[m];
  }

  /** Stores bytes at j. */
  method WriteAt(buf: array<byte>, j: nat, bytes: seq<byte>)
    requires j + |bytes| <= buf.Length
    modifies buf
    ensures buf[..j + |bytes|] == old(buf[..j]) + bytes
    ensures forall i :: 0 <= i < j || j + |bytes| <= i < buf.Length ==> buf[i] == old(buf[i])
  {
    forall k | 0 <= k < |bytes| {
      buf[j + k] := bytes[k];
    }
  }

  /** What dnslabel_table_add adds. */
  ghost function MaybeAdded(table: LabelTable?, es: seq<Entry>, rest: seq<byte>, j: nat): seq<Entry> {
    if table != null && table.memory && |es| != MAX_LABELS then [Entry(rest, j)] else []
  }

  /** One label: 0, or the error the encoder returns. */
  method WriteLabel(buf: array<byte>, bufLen: nat, j: nat, l: seq<byte>, rest: seq<byte>, table: LabelTable?)
    returns (r: int)
    requires j <= buf.Length && bufLen < buf.Length
    modifies buf, if table == null then {} else {table}
    ensures r == if |l| > MAX_LABEL then -1 else if j + |l| + 1 > bufLen then -2 else 0
    ensures r < 0 ==> buf[..] == old(buf[..]) && (table != null ==> table.labels == old(table.labels))
    ensures r == 0 ==>
      && buf[..j + |l| + 1] == old(buf[..j]) + [|l| % 256] + l
      && (forall i :: 0 <= i < j || j + |l| + 1 <= i < buf.Length ==> buf[i] == old(buf[i]))
      && Entries(table) == old(Entries(table)) + MaybeAdded(table, old(Entries(table)), rest, j)
  {
    if |l| > MAX_LABEL {
      return -1;
    }
    if j + |l| + 1 > bufLen {
      return -2;
    }
    if table != null {
      var _ := table.Add(rest, j);
    }
    WriteAt(buf, j, [|l| % 256]);
    WriteAt(buf, j + 1, l);
    return 0;
  }

  /** The state of the encoder's loop. */
  ghost predicate Encoding(p: seq<byte>, all: seq<seq<byte>>, cur: nat, rest: seq<byte>, q: seq<byte>,
                           es0: seq<Entry>, es: seq<Entry>) {
    Writing(p, all, cur, q, es0, es) && cur < |all| && Split(rest) == all[cur..]
  }

  /** What the encoder achieves: behind the message p, which is now q, the name is spelled up
      to the end of q, and every entry of the table leads to its name. */
  ghost predicate Encoded(p: seq<byte>, q: seq<byte>, name: seq<byte>, es0: seq<Entry>, es: seq<Entry>) {
    Good(name) && TableOk(p, es0) && |q| <= POINTERS ==>
      Spells(q, |p|, Labels(name)) && EndsAt(q, |p|, Labels(name)) == |q| && TableOk(q, es)
  }

  lemma EncodingStart(p: seq<byte>, name: seq<byte>, es: seq<Entry>)
    ensures Encoding(p, Split(name), 0, name, p, es, es)
  {
    CodedNone(Split(name));
    assert p + [] == p;
    assert Split(name)[0..] == Split(name);
  }

  /** One label written: the rest of the name is behind its dot, or it was the last. */
  lemma EncodingNext(p: seq<byte>, all: seq<seq<byte>>, cur: nat, rest: seq<byte>, q: seq<byte>,
                     es0: seq<Entry>, es: seq<Entry>, q': seq<byte>, es': seq<Entry>)
    requires Encoding(p, all, cur, rest, q, es0, es)
    requires var l := rest[..FirstDot(rest)]; q' == q + [|l| % 256] + l
    requires es' == es || es' == es + [Entry(rest, |q|)]
    ensures FirstDot(rest) < |rest| ==> Encoding(p, all, cur + 1, rest[FirstDot(rest) + 1..], q', es0, es')
    ensures FirstDot(rest) == |rest| ==> cur + 1 == |all| && Writing(p, all, cur + 1, q', es0, es')
    ensures q < q' && p <= q
  {
    hide Writing;
    var d := FirstDot(rest);
    assert all[cur] == all[cur..][0] == rest[..d];
    WritingNext(p, all, cur, q, es0, es, rest, q', es');
    assert all[cur + 1..] == all[cur..][1..];
    WritingPrefix(p, all, cur, q, es0, es);
  }

  lemma WritingPrefix(p: seq<byte>, all: seq<seq<byte>>, cur: nat, q: seq<byte>, es0: seq<Entry>, es: seq<Entry>)
    requires Writing(p, all, cur, q, es0, es)
    ensures p <= q && es0 <= es
    ensures cur == 0 ==> q == p && es == es0
  {
    assert |es0| < |es| ==> NewEntry(es[|es0|], all, |p|, cur);
  }

  lemma PointerSpells(q: seq<byte>, pos: nat, ls: seq<seq<byte>>)
    requires Spells(q, pos, ls) && pos < POINTERS
    ensures var w := q + [192 + pos / 256, pos % 256];
            Spells(w, |q|, ls) && EndsAt(w, |q|, ls) == |w|
  {
    var w := q + [192 + pos / 256, pos % 256];
    SpellsGrow(q, w, pos, ls);
    assert Target(w[|q|], w[|q| + 1]) == pos;
  }

  lemma NotNew(e: Entry, all: seq<seq<byte>>, start: nat, cur: nat)
    requires cur <= |all| && Split(e.v) == all[cur..]
    ensures !NewEntry(e, all, start, cur)
  {
  }

  /** An entry for the rest of the name was in the table before. */
  lemma FoundEntry(p: seq<byte>, all: seq<seq<byte>>, cur: nat, rest: seq<byte>, q: seq<byte>,
                   es0: seq<Entry>, es: seq<Entry>, pos: nat)
    requires Encoding(p, all, cur, rest, q, es0, es) && Entry(rest, pos) in es && TableOk(p, es0)
    ensures pos < POINTERS && Spells(q, pos, Labels(rest))
  {
    hide Coded, Split, Spells, Good;
    WritingPrefix(p, all, cur, q, es0, es);
    var i :| 0 <= i < |es| && es[i] == Entry(rest, pos);
    NotNew(es[i], all, |p|, cur);
    assert EntryOk(p, es0[i]);
    SpellsGrow(p, q, pos, Labels(rest));
  }

  /** The rest of the name was found in the table. */
  lemma PointerDone(p: seq<byte>, name: seq<byte>, cur: nat, rest: seq<byte>, q: seq<byte>,
                    es0: seq<Entry>, es: seq<Entry>, pos: nat)
    requires Encoding(p, Split(name), cur, rest, q, es0, es) && Entry(rest, pos) in es
    ensures Encoded(p, q + [192 + pos % POINTERS / 256, pos % 256], name, es0, es)
  {
    hide Coded, Split, Spells, EndsAt, Good, GoodLabels, NewEntry, EntryOk, TableOk, Writing;
    var w := q + [192 + pos % POINTERS / 256, pos % 256];
    if Good(name) && TableOk(p, es0) && |w| <= POINTERS {
      FoundEntry(p, Split(name), cur, rest, q, es0, es, pos);
      PointerSpells(q, pos, Labels(rest));
      if name == [] {
        RootPointer(p, cur, rest, q, es0, es, w);
      } else {
        GoodSplit(name);
        SuffixLabels(Split(name), cur, rest);
        Complete(p, Split(name), cur, q, w, es0, es);
      }
    }
  }

  lemma GoodSplit(name: seq<byte>)
    requires Good(name) && name != []
    ensures GoodLabels(Split(name)) && Labels(name) == Split(name)
  {
  }

  lemma RootPointer(p: seq<byte>, cur: nat, rest: seq<byte>, q: seq<byte>, es0: seq<Entry>, es: seq<Entry>,
                    w: seq<byte>)
    requires Encoding(p, Split([]), cur, rest, q, es0, es) && TableOk(p, es0) && q <= w
    ensures rest == [] && q == p && TableOk(w, es)
  {
    hide Writing, TableOk;
    WritingPrefix(p, Split([]), cur, q, es0, es);
    RootSplit();
    RestOfRoot(rest);
    TableGrow(p, w, es);
  }

  lemma RootSplit()
    ensures Split([]) == [[]]
  {
  }

  lemma RestOfRoot(rest: seq<byte>)
    requires Split(rest) == [[]]
    ensures rest == []
  {
    DottedSplit(rest);
  }

  /** All labels of a name have been written. */
  lemma LabelsDone(p: seq<byte>, name: seq<byte>, q: seq<byte>, es0: seq<Entry>, es: seq<Entry>)
    requires Writing(p, Split(name), |Split(name)|, q, es0, es)
    ensures q != [] && Encoded(p, if q[|q| - 1] != 0 then q + [0] else q, name, es0, es)
    ensures q[|q| - 1] != 0 <==> Unended(name)
  {
    hide Split, GoodLabels, Coded;
    var all := Split(name);
    CodedLast(all);
    LastLabel(name);
    assert all[..|all|] == all;
    if name == [] {
      RootSplit();
      RootDone(p, q, es0, es);
    } else if Good(name) {
      GoodEnd(name);
      if TableOk(p, es0) && |q| < POINTERS {
        assert all[|all|..] == [];
        Complete(p, all, |all|, q, q + [0], es0, es);
      }
    }
  }

  lemma GoodEnd(name: seq<byte>)
    requires Good(name) && name != []
    ensures Unended(name)
  {
    var ls := Split(name);
    LastLabel(name);
    assert 1 <= |ls[|ls| - 1]| && 0 !in ls[|ls| - 1];
  }

  lemma RootDone(p: seq<byte>, q: seq<byte>, es0: seq<Entry>, es: seq<Entry>)
    requires Writing(p, [[]], 1, q, es0, es)
    ensures q == p + [0] && Encoded(p, q, [], es0, es)
  {
    var root: seq<seq<byte>> := [[]];
    assert root[..1] == root && Coded(root) == [0];
    if TableOk(p, es0) && |q| <= POINTERS {
      TableGrow(p, q, es0);
      forall i | 0 <= i < |es|
        ensures EntryOk(q, es[i])
      {
        if i < |es0| {
          assert es[i] == es0[i];
        } else {
          assert NewEntry(es[i], [[]], |p|, 1);
          RestOfRoot(es[i].v);
          CodedNone([[]]);
        }
      }
    }
  }

  lemma {:induction false} CodedLast(all: seq<seq<byte>>)
    requires all != []
    ensures Coded(all) != []
    ensures var l := all[|all| - 1];
            Coded(all)[|Coded(all)| - 1] == if l == [] then 0 else l[|l| - 1]
  {
    var l, c := all[|all| - 1], Coded(all);
    assert all == all[..|all| - 1] + [l];
    CodedConcat(all[..|all| - 1], [l]);
    assert Coded([l]) == [|l| % 256] + l;
    assert c[|c| - 1] == Coded([l])[|l|];
  }

  ghost function Entries(table: LabelTable?): seq<Entry>
    reads table
  {
    if table == null then [] else table.labels
  }

  /** A pointer to `ref`, if there is room. */
  method WritePointer(buf: array<byte>, bufLen: nat, j: nat, ref: nat) returns (r: int)
    requires j <= bufLen <= buf.Length
    modifies buf
    ensures r == if j + 2 > bufLen then -2 else j + 2
    ensures 0 <= r ==> buf[..r] == old(buf[..j]) + [192 + ref % POINTERS / 256, ref % 256]
    ensures forall i :: 0 <= i < j || bufLen <= i < buf.Length ==> buf[i] == old(buf[i])
  {
    if j + 2 > bufLen {
      return -2;
    }
    WriteAt(buf, j, [192 + ref % POINTERS / 256, ref % 256]);
    return j + 2;
  }

  /** The whole name has an entry. */
  ghost predicate Knows(es: seq<Entry>, name: seq<byte>) {
    exists i :: 0 <= i < |es| && es[i].v == name
  }

  /** How many bytes of the name stand before its first suffix that has an entry; one more than
      it has if none has. */
  ghost function Plain(es: seq<Entry>, name: seq<byte>): (n: nat)
    ensures n <= |name| + 1
  {
    if Knows(es, name) then 0
    else
      var d := FirstDot(name);
      if d == |name| then |name| + 1 else d + 1 + Plain(es, name[d + 1..])
  }

  lemma PlainStep(es: seq<Entry>, name: seq<byte>)
    ensures var d := FirstDot(name);
            Plain(es, name) ==
              if Knows(es, name) then 0 else if d == |name| then |name| + 1 else d + 1 + Plain(es, name[d + 1..])
  {
    hide FirstDot, Knows;
  }

  /** Entries made for the name itself do not name what is left of it. */
  lemma OldEntry(p: seq<byte>, all: seq<seq<byte>>, cur: nat, rest: seq<byte>, q: seq<byte>, es0: seq<Entry>,
                 es: seq<Entry>)
    requires Encoding(p, all, cur, rest, q, es0, es)
    ensures Knows(es, rest) <==> Knows(es0, rest)
  {
    hide Coded, Split, NewEntry;
    WritingPrefix(p, all, cur, q, es0, es);
    if i :| 0 <= i < |es| && es[i].v == rest {
      NotNew(es[i], all, |p|, cur);
      assert es0[i] == es[i];
    }
    if i :| 0 <= i < |es0| && es0[i].v == rest {
      assert es[i] == es0[i];
    }
  }

  lemma Looked(es: seq<Entry>, name: seq<byte>, pos: int)
    requires pos == -1 ==> forall i :: 0 <= i < |es| ==> es[i].v != name
    requires pos != -1 ==> 0 <= pos && Entry(name, pos) in es
    ensures Knows(es, name) <==> 0 <= pos
  {
  }

  /** What is known of the whole name after `cur` labels. */
  ghost predicate Seen(table: LabelTable?, es0: seq<Entry>, es: seq<Entry>, name: seq<byte>, rest: seq<byte>,
                       cur: nat) {
    if cur == 0 then es == es0 && rest == name
    else !Knows(es0, name) && (table != null && table.memory && |es0| != MAX_LABELS ==> Knows(es, name))
  }

  lemma SeenNext(table: LabelTable?, es0: seq<Entry>, es: seq<Entry>, name: seq<byte>, rest: seq<byte>, cur: nat,
                 j: nat,
                 rest': seq<byte>)
    requires Seen(table, es0, es, name, rest, cur) && !Knows(es, rest)
    ensures Seen(table, es0, es + MaybeAdded(table, es, rest, j), name, rest', cur + 1)
  {
    var es' := es + MaybeAdded(table, es, rest, j);
    if i :| 0 <= i < |es| && es[i].v == name {
      assert es'[i] == es[i];
    }
    if |es| < |es'| {
      assert es'[|es|].v == rest;
    }
  }

  lemma SeenFirst(table: LabelTable?, es0: seq<Entry>, es: seq<Entry>, name: seq<byte>, rest: seq<byte>, cur: nat)
    requires Seen(table, es0, es, name, rest, cur)
    ensures Knows(es0, name) ==> cur == 0 && Knows(es, rest)
    ensures Knows(es, rest) && table != null && table.memory && |es0| != MAX_LABELS ==> Knows(es, name)
    ensures 0 < cur && table != null && table.memory && |es0| != MAX_LABELS ==> Knows(es, name)
  {
  }

  /** The position of a name that can be pointed to, or -1. */
  method LookUp(table: LabelTable?, rest: seq<byte>) returns (ref: int)
    ensures -1 <= ref && (ref == -1 <==> !Knows(Entries(table), rest))
    ensures 0 <= ref ==> Entry(rest, ref) in Entries(table)
  {
    ref := -1;
    if table != null {
      ref := table.GetPos(rest);
    }
    Looked(Entries(table), rest, ref);
  }

  /** The loop of dnsname_to_labels.  If it ends early, r is the encoder's result; if not, all
      labels have been written up to r. */
  method WriteLabels(buf: array<byte>, bufLen: nat, start: nat, name: seq<byte>, table: LabelTable?)
    returns (early: bool, r: int)
    requires start <= bufLen < buf.Length && |name| <= MAX_NAME
    modifies buf, if table == null then {} else {table}
    ensures forall i :: 0 <= i < start || bufLen <= i < buf.Length ==> buf[i] == old(buf[i])
    ensures early ==> r == -1 || r == -2 || start < r <= bufLen
    ensures early && 0 <= r ==> Encoded(old(buf[..start]), buf[..r], name, old(Entries(table)), Entries(table))
    ensures !early ==> r == start + |name| + 1 <= bufLen
    ensures !early ==>
      Writing(old(buf[..start]), Split(name), |Split(name)|, buf[..r], old(Entries(table)), Entries(table))
    ensures !early ==> Plain(old(Entries(table)), name) == |name| + 1
    ensures ShortLabels(name) && early ==>
      var k := Plain(old(Entries(table)), name);
      if k <= |name| && start + k + 2 <= bufLen then r == start + k + 2
      else r == -2 && (k == |name| + 1 ==> bufLen < start + k)
    ensures early && 0 <= r ==>
      Plain(old(Entries(table)), name) <= |name| && r == start + Plain(old(Entries(table)), name) + 2
    ensures Knows(old(Entries(table)), name) ==> early && r == if start + 2 > bufLen then -2 else start + 2
    ensures 0 <= r && table != null && table.memory && |old(table.labels)| != MAX_LABELS ==> Knows(table.labels, name)
  {
    hide Encoded, Writing, ShortLabels, Split, FirstDot, Coded, Knows, Plain, Progress;
    var rest, j := name, start;
    ghost var p, cur: nat, es0 := buf[..start], 0, Entries(table);
    ProgressStart(table, p, name, es0);
    while true
      invariant start <= j <= bufLen && Progress(table, p, name, cur, rest, buf[..j], es0, Entries(table))
      invariant j + |rest| == start + |name|
      invariant forall i :: 0 <= i < start || bufLen <= i < buf.Length ==> buf[i] == old(buf[i])
      decreases |rest|
    {
      ghost var q, es := buf[..j], Entries(table);
      var ref := LookUp(table, rest);
      if ref >= 0 {
        ProgressFound(table, p, name, cur, rest, q, es0, es, ref);
        r := WritePointer(buf, bufLen, j, ref);
        return true, r;
      }
      var dot := FirstDot(rest);
      ProgressLabel(table, p, name, cur, rest, q, es0, es);
      r := WriteLabel(buf, bufLen, j, rest[..dot], rest, table);
      if r < 0 {
        return true, r;
      }
      j := j + 1 + dot;
      cur := cur + 1;
      if dot == |rest| {
        return false, j;
      }
      rest := rest[dot + 1..];
    }
  }

  /** Where the encoder's loop is: what it has written and what it knows of the name. */
  ghost predicate Progress(table: LabelTable?, p: seq<byte>, name: seq<byte>, cur: nat, rest: seq<byte>, q: seq<byte>,
                           es0: seq<Entry>, es: seq<Entry>) {
    && Encoding(p, Split(name), cur, rest, q, es0, es) && Seen(table, es0, es, name, rest, cur)
    && |p| <= |q| && (cur == 0 ==> q == p) && Plain(es0, name) == |q| - |p| + Plain(es0, rest)
  }

  lemma ProgressStart(table: LabelTable?, p: seq<byte>, name: seq<byte>, es: seq<Entry>)
    ensures Progress(table, p, name, 0, name, p, es, es)
  {
    hide Writing, Split, Plain;
    EncodingStart(p, name, es);
  }

  lemma ProgressFound(table: LabelTable?, p: seq<byte>, name: seq<byte>, cur: nat, rest: seq<byte>, q: seq<byte>,
                      es0: seq<Entry>, es: seq<Entry>, ref: nat)
    requires Progress(table, p, name, cur, rest, q, es0, es) && Entry(rest, ref) in es && Knows(es, rest)
    requires |q| + |rest| == |p| + |name|
    ensures Encoded(p, q + [192 + ref % POINTERS / 256, ref % 256], name, es0, es)
    ensures Plain(es0, name) == |q| - |p| <= |name|
    ensures Knows(es0, name) ==> |q| == |p|
    ensures table != null && table.memory && |es0| != MAX_LABELS ==> Knows(es, name)
  {
    hide Writing, Split, Knows, Encoding, Encoded;
    PointerDone(p, name, cur, rest, q, es0, es, ref);
    OldEntry(p, Split(name), cur, rest, q, es0, es);
    PlainStep(es0, rest);
    SeenFirst(table, es0, es, name, rest, cur);
  }

  /** What one more label does to what is known of the name. */
  lemma LabelSeen(table: LabelTable?, name: seq<byte>, cur: nat, rest: seq<byte>, j: nat, es0: seq<Entry>,
                  es: seq<Entry>,
                  rest': seq<byte>)
    requires Seen(table, es0, es, name, rest, cur) && !Knows(es, rest)
    ensures var es' := es + MaybeAdded(table, es, rest, j);
            && !Knows(es0, name) && Seen(table, es0, es', name, rest', cur + 1)
            && (table != null && table.memory && |es0| != MAX_LABELS ==> Knows(es', name))
  {
    hide Seen, Knows;
    SeenFirst(table, es0, es, name, rest, cur);
    SeenNext(table, es0, es, name, rest, cur, j, rest');
    SeenFirst(table, es0, es + MaybeAdded(table, es, rest, j), name, rest', cur + 1);
  }

  /** And to the length of what is left. */
  lemma LabelPlain(es: seq<Entry>, name: seq<byte>, rest: seq<byte>, n: nat)
    requires Plain(es, name) == n + Plain(es, rest) && !Knows(es, rest)
    ensures var dot := FirstDot(rest);
            && dot <= |rest| && n + dot + 1 <= Plain(es, name)
            && Plain(es, name) == n + dot + 1 + if dot < |rest| then Plain(es, rest[dot + 1..]) else 0
  {
    PlainStep(es, rest);
  }

  lemma ProgressLabel(table: LabelTable?, p: seq<byte>, name: seq<byte>, cur: nat, rest: seq<byte>, q: seq<byte>,
                      es0: seq<Entry>, es: seq<Entry>)
    requires Progress(table, p, name, cur, rest, q, es0, es) && !Knows(es, rest)
    requires |q| + |rest| == |p| + |name|
    ensures !Knows(es0, name) && (ShortLabels(name) ==> FirstDot(rest) <= MAX_LABEL)
    ensures var dot := FirstDot(rest);
            var q' := q + [dot % 256] + rest[..dot];
            var es' := es + MaybeAdded(table, es, rest, |q|);
            && |q| - |p| + dot + 1 <= Plain(es0, name)
            && if dot < |rest| then Progress(table, p, name, cur + 1, rest[dot + 1..], q', es0, es')
               else
                 && Writing(p, Split(name), |Split(name)|, q', es0, es') && Plain(es0, name) == |name| + 1
                 && (table != null && table.memory && |es0| != MAX_LABELS ==> Knows(es', name))
  {
    hide Writing, Split, Knows, Encoding, ShortLabels, Plain, Seen, FirstDot, MaybeAdded;
    var dot := FirstDot(rest);
    var q' := q + [dot % 256] + rest[..dot];
    var es' := es + MaybeAdded(table, es, rest, |q|);
    OldEntry(p, Split(name), cur, rest, q, es0, es);
    LabelPlain(es0, name, rest, |q| - |p|);
    LabelSeen(table, name, cur, rest, |q|, es0, es, if dot < |rest| then rest[dot + 1..] else rest);
    if ShortLabels(name) {
      DotAt(p, name, cur, rest, q, es0, es);
    }
    Maybe(table, es, rest, |q|);
    LengthByte(rest, dot);
    EncodingNext(p, Split(name), cur, rest, q, es0, es, q', es');
  }

  lemma LengthByte(rest: seq<byte>, dot: nat)
    requires dot <= |rest|
    ensures |rest[..dot]| % 256 == dot % 256
  {
  }

  lemma Maybe(table: LabelTable?, es: seq<Entry>, rest: seq<byte>, j: nat)
    ensures var es' := es + MaybeAdded(table, es, rest, j); es' == es || es' == es + [Entry(rest, j)]
  {
    assert es + [] == es;
  }

  /** dnsname_to_labels: the first index behind the encoded name, or -1 or -2.  The final zero
      is written without a check, so `buf` has to have one byte more than bufLen says. */
  method ToLabels(buf: array<byte>, bufLen: nat, start: nat, name: seq<byte>, table: LabelTable?) returns (r: int)
    requires start <= bufLen < buf.Length
    modifies buf, if table == null then {} else {table}
    ensures r == -1 || r == -2 || start < r <= bufLen + 1
    ensures buf[..start] == old(buf[..start]) && forall i :: bufLen < i < buf.Length ==> buf[i] == old(buf[i])
    ensures 0 <= r ==> Encoded(old(buf[..start]), buf[..r], name, old(Entries(table)), Entries(table))
    ensures MAX_NAME < |name| ==> r == -2
    ensures r <= start + |name| + 2
    ensures ShortLabels(name) && |name| <= MAX_NAME ==>
      var k := Plain(old(Entries(table)), name);
      if k <= |name| then r == if bufLen < start + k + 2 then -2 else start + k + 2
      else r == if bufLen < start + k then -2 else start + k + (if Unended(name) then 1 else 0)
    ensures ShortLabels(name) && |name| <= MAX_NAME ==>
      (r == bufLen + 1 <==>
       Unended(name) && bufLen == start + |name| + 1 && Plain(old(Entries(table)), name) == |name| + 1)
    ensures |name| <= MAX_NAME && Knows(old(Entries(table)), name) ==> r == if start + 2 > bufLen then -2 else start + 2
    ensures 0 <= r && table != null && table.memory && |old(table.labels)| != MAX_LABELS ==> Knows(table.labels, name)
  {
    hide Encoded, Encoding, Writing, ShortLabels, Split, FirstDot, Coded, Knows, Plain;
    if |name| > MAX_NAME {
      return -2;
    }
    var early;
    early, r := WriteLabels(buf, bufLen, start, name, table);
    if early {
      return r;
    }
    LabelsDone(old(buf[..start]), name, buf[..r], old(Entries(table)), Entries(table));
    if r == 0 || buf[r - 1] != 0 {
      WriteAt(buf, r, [0]);
      r := r + 1;
    }
  }

  /** The name "a" takes three bytes.  With a buffer that is said to have two it is written all
      the same, and its zero goes behind the end, with a table as without. */
  method PastTheEnd(withTable: bool) returns (buf: array<byte>, r: int)
    ensures r == 3 == buf.Length
  {
    hide Encoded;
    buf := new byte[3];
    var table: LabelTable? := null;
    if withTable {
      table := new LabelTable(true);
    }
    LetterA();
    PlainStep([], [97]);
    r := ToLabels(buf, 2, 0, [97], table);
  }

  lemma LetterA()
    ensures FirstDot([97]) == 1 && Split([97]) == [[97]] && ShortLabels([97])
  {
    assert [97][1..] == [];
  }

  lemma DotAt(p: seq<byte>, name: seq<byte>, cur: nat, rest: seq<byte>, q: seq<byte>, es0: seq<Entry>, es: seq<Entry>)
    requires Encoding(p, Split(name), cur, rest, q, es0, es) && ShortLabels(name)
    ensures FirstDot(rest) <= MAX_LABEL
  {
    hide Writing, FirstDot, Split;
    SplitFirst(rest);
    assert Split(name)[cur..][0] == Split(name)[cur];
  }

  lemma SplitFirst(s: seq<byte>)
    ensures FirstDot(s) <= |s| && Split(s)[0] == s[..FirstDot(s)]
    ensures s == [] ==> FirstDot(s) == 0 && Split(s) == [s]
  {
  }

  /** A name that is spelled in a message is what the parser reads there. */
  lemma ParsesBack(p: seq<byte>, j: nat, name: seq<byte>)
    requires Spells(p, j, Labels(name))
    ensures var read := Decode(p, j, |p|);
            && read.Some? && read.value.labels == Labels(name) && Dotted(read.value.labels) == name
            && read.value.end == EndsAt(p, j, Labels(name))
  {
    var k := SpellsDecode(p, j, Labels(name));
    EnoughJumps(p, j, k);
    DottedLabels(name);
  }

  /** A part of a message: a name, or other bytes. */
  datatype Part = NamePart(name: seq<byte>) | RawPart(bytes: seq<byte>)

  /** Part i of the message p stands between at[i] and at[i + 1]. */
  ghost predicate Stands(p: seq<byte>, at: seq<nat>, parts: seq<Part>, i: nat)
    requires i < |parts| && i + 1 < |at|
  {
    match parts[i]
    case NamePart(name) => Spells(p, at[i], Labels(name)) && EndsAt(p, at[i], Labels(name)) == at[i + 1]
    case RawPart(bytes) => Holds(p, at[i], bytes) && at[i] + |bytes| == at[i + 1]
  }

  lemma StandsGrow(p: seq<byte>, q: seq<byte>, at: seq<nat>, end: nat, parts: seq<Part>, i: nat)
    requires i < |parts| && i + 1 < |at| && Stands(p, at, parts, i) && p <= q
    ensures Stands(q, at + [end], parts, i)
  {
    match parts[i]
    case NamePart(name) => SpellsGrow(p, q, at[i], Labels(name));
    case RawPart(bytes) =>
      assert q[at[i]..at[i] + |bytes|] == p[at[i]..at[i] + |bytes|];
  }

  /** The message so far: n parts have been written. */
  ghost predicate Message(p: seq<byte>, at: seq<nat>, parts: seq<Part>, n: nat, es: seq<Entry>) {
    && n <= |parts| && |at| == n + 1 && at[n] == |p|
    && (|p| <= POINTERS ==> TableOk(p, es) && forall i :: 0 <= i < n ==> Stands(p, at, parts, i))
  }

  lemma NameWritten(p: seq<byte>, at: seq<nat>, parts: seq<Part>, n: nat, es: seq<Entry>, q: seq<byte>, es': seq<Entry>)
    requires Message(p, at, parts, n, es) && n < |parts| && parts[n].NamePart? && Good(parts[n].name) && p <= q
    requires Encoded(p, q, parts[n].name, es, es')
    ensures Message(q, at + [|q|], parts, n + 1, es')
  {
    hide Good, Spells, EndsAt, TableOk;
    if |q| <= POINTERS {
      forall i | 0 <= i < n + 1
        ensures Stands(q, at + [|q|], parts, i)
      {
        if i < n {
          StandsGrow(p, q, at, |q|, parts, i);
        }
      }
    }
  }

  lemma RawWritten(p: seq<byte>, at: seq<nat>, parts: seq<Part>, n: nat, es: seq<Entry>, q: seq<byte>)
    requires Message(p, at, parts, n, es) && n < |parts| && parts[n].RawPart? && q == p + parts[n].bytes
    ensures Message(q, at + [|q|], parts, n + 1, es)
  {
    hide Spells, EndsAt, TableOk;
    if |q| <= POINTERS {
      TableGrow(p, q, es);
      forall i | 0 <= i < n + 1
        ensures Stands(q, at + [|q|], parts, i)
      {
        if i < n {
          StandsGrow(p, q, at, |q|, parts, i);
        } else {
          assert q[|p|..] == parts[n].bytes;
        }
      }
    }
  }

  /** The room a message needs at most. */
  function Room(parts: seq<Part>): nat {
    if parts == [] then 0
    else
      Room(parts[..|parts| - 1])
      + match parts[|parts| - 1]
        case NamePart(name) => |name| + 2
        case RawPart(bytes) => |bytes|
  }

  lemma {:induction false} RoomGrows(parts: seq<Part>, n: nat)
    requires n <= |parts|
    ensures Room(parts[..n]) <= Room(parts)
    decreases |parts| - n
  {
    if n < |parts| {
      assert parts[..n + 1][..n] == parts[..n];
      RoomGrows(parts, n + 1);
    } else {
      assert parts[..n] == parts;
    }
  }

  ghost predicate ShortNames(parts: seq<Part>) {
    forall i :: 0 <= i < |parts| && parts[i].NamePart? ==> |parts[i].name| <= MAX_NAME
  }

  /** Writes a message whose names share one compression table; None if it does not fit.  In a
      message of at most 16384 bytes every name can be read back. */
  method WriteMessage(buf: array<byte>, bufLen: nat, parts: seq<Part>, memory: bool) returns (at: Option<seq<nat>>)
    requires bufLen < buf.Length
    requires forall i :: 0 <= i < |parts| && parts[i].NamePart? ==> Good(parts[i].name)
    modifies buf
    ensures at.Some? ==> |at.value| == |parts| + 1 && at.value[0] == 0 && at.value[|parts|] <= buf.Length
    ensures ShortNames(parts) && Room(parts) <= bufLen ==> at.Some? && at.value[|parts|] <= Room(parts)
    ensures at.Some? && at.value[|parts|] <= POINTERS ==>
      var p := buf[..at.value[|parts|]];
      forall i :: 0 <= i < |parts| ==> ReadsBack(p, at.value[i], parts[i], at.value[i + 1])
  {
    hide Message, Encoded, Good, Knows, ShortLabels, Unended;
    var table := new LabelTable(memory);
    var j, n, ends := 0, 0, [0];
    EmptyMessage(buf[..0], parts);
    while n < |parts|
      invariant 0 <= n <= |parts| && 0 <= j <= buf.Length && |ends| == n + 1 && ends[0] == 0
      invariant fresh(table) && Message(buf[..j], ends, parts, n, table.labels)
      invariant ends[n] == j <= Room(parts[..n])
    {
      assert parts[..n + 1][..n] == parts[..n];
      RoomGrows(parts, n + 1);
      RoomGrows(parts, n);
      ghost var p, es := buf[..j], table.labels;
      if j > bufLen {
        return None;
      }
      match parts[n] {
        case NamePart(name) =>
          GoodShort(name);
          var r := ToLabels(buf, bufLen, j, name, table);
          if r < 0 {
            return None;
          }
          NameWritten(p, ends, parts, n, es, buf[..r], table.labels);
          j := r;
        case RawPart(bytes) =>
          if j + |bytes| > bufLen {
            return None;
          }
          WriteAt(buf, j, bytes);
          j := j + |bytes|;
          RawWritten(p, ends, parts, n, es, buf[..j]);
      }
      ends := ends + [j];
      n := n + 1;
    }
    assert parts[..n] == parts;
    WholeMessage(buf[..j], ends, parts, table.labels);
    return Some(ends);
  }

  /** What a reader of the message finds at j. */
  ghost predicate ReadsBack(p: seq<byte>, j: nat, part: Part, end: nat) {
    match part
    case NamePart(name) =>
      var read := Decode(p, j, |p|);
      read.Some? && Dotted(read.value.labels) == name && read.value.end == end
    case RawPart(bytes) => Holds(p, j, bytes) && j + |bytes| == end
  }

  lemma EmptyMessage(p: seq<byte>, parts: seq<Part>)
    requires p == []
    ensures Message(p, [0], parts, 0, [])
  {
  }

  lemma WholeMessage(p: seq<byte>, at: seq<nat>, parts: seq<Part>, es: seq<Entry>)
    requires Message(p, at, parts, |parts|, es)
    ensures |at| == |parts| + 1 && at[|parts|] == |p|
    ensures |p| <= POINTERS ==> forall i :: 0 <= i < |parts| ==> ReadsBack(p, at[i], parts[i], at[i + 1])
  {
    hide Spells, EndsAt, TableOk, Decode, Labels, Dotted;
    if |p| <= POINTERS {
      forall i | 0 <= i < |parts|
        ensures ReadsBack(p, at[i], parts[i], at[i + 1])
      {
        assert Stands(p, at, parts, i);
        if parts[i].NamePart? {
          ParsesBack(p, at[i], parts[i].name);
        }
      }
    }
  }
}
