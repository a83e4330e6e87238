/** The wire format of tagged data: variable-length tags and nibble-coded integers. */
module TagFormat {
  import opened Common

  datatype Read = Read(number: nat, len: nat)

  /** A tag, seven bits to a byte, the least significant first; the high bit says that more
      follows. */
  function TagBytes(tag: nat): (s: seq<byte>)
    ensures 0 < |s|
  {
    if tag < 128 then [tag] else [tag % 128 + 128] + TagBytes(tag / 128)
  }

  /** The tag whose byte i stands first in s. */
  function TagOf(s: seq<byte>, i: nat): Option<Read>
    decreases 5 - i
  {
    if s == [] || 4 < i || (i == 4 && 15 < s[0] % 128) then None
    else if s[0] < 128 then Some(Read(s[0], 1))
    else
      var rest := TagOf(s[1..], i + 1);
      if rest == None then None else Some(Read(s[0] % 128 + 128 * rest.value.number, rest.value.len + 1))
  }

  function Power(b: nat, n: nat): nat {
    if n == 0 then 1 else b * Power(b, n - 1)
  }

  /** A tag of which i bytes have gone before is read back. */
  lemma {:induction false} TagRoundTripFrom(tag: nat, i: nat, rest: seq<byte>)
    requires i <= 4 && tag < 16 * Power(128, 4 - i)
    ensures TagOf(TagBytes(tag) + rest, i) == Some(Read(tag, |TagBytes(tag)|))
    decreases tag
  {
    hide Power, TagBytes;
    var s := TagBytes(tag) + rest;
    TagBound(tag, i);
    TagPart(tag);
    if 128 <= tag {
      assert s[1..] == TagBytes(tag / 128) + rest;
      TagRoundTripFrom(tag / 128, i + 1, rest);
    }
  }

  /** The first byte of a tag and the others. */
  lemma TagPart(tag: nat)
    ensures if tag < 128 then TagBytes(tag) == [tag] else TagBytes(tag) == [tag % 128 + 128] + TagBytes(tag / 128)
    ensures tag == tag % 128 + 128 * (tag / 128) && (tag % 128 + 128) % 128 == tag % 128 && tag % 128 + 128 < 256
  {
  }

  lemma TagBound(tag: nat, i: nat)
    requires i <= 4 && tag < 16 * Power(128, 4 - i)
    ensures if i == 4 then tag < 16 else tag / 128 < 16 * Power(128, 3 - i)
  {
    if i < 4 {
      Divided(tag, 16 * Power(128, 3 - i));
    }
  }

  lemma Divided(tag: nat, b: nat)
    requires tag < 128 * b
    ensures tag / 128 < b
  {
  }

  lemma TagRoundTrip(tag: nat, rest: seq<byte>)
    requires tag < TWO32
    ensures TagOf(TagBytes(tag) + rest, 0) == Some(Read(tag, |TagBytes(tag)|)) && |TagBytes(tag)| <= 5
  {
    assert Power(128, 4) == 128 * (128 * (128 * (128 * Power(128, 0))));
    TagRoundTripFrom(tag, 0, rest);
    TagLength(TagBytes(tag) + rest, 0);
  }

  lemma {:induction false} TagLength(s: seq<byte>, i: nat)
    requires TagOf(s, i).Some?
    ensures 0 < TagOf(s, i).value.len <= 5 - i && TagOf(s, i).value.len <= |s|
    decreases 5 - i
  {
    if 128 <= s[0] {
      TagLength(s[1..], i + 1);
    }
  }

  /** The significant nibbles of a number, the least significant first. */
  function Nibbles(n: nat): seq<nat> {
    if n == 0 then [] else [n % 16] + Nibbles(n / 16)
  }

  lemma {:induction false} NibblesSmall(n: nat, k: nat)
    requires n < Power(16, k)
    ensures |Nibbles(n)| <= k && forall i :: 0 <= i < |Nibbles(n)| ==> Nibbles(n)[i] < 16
  {
    if 0 < k && n != 0 {
      NibblesSmall(n / 16, k - 1);
    }
  }

  /** What nibble k of an encoded number is: the count of significant nibbles less one, then
      the nibbles. */
  function Nibble(n: nat, k: nat): nat {
    var ns := Nibbles(n);
    if k == 0 then (if 1 < |ns| then |ns| - 1 else 0)
    else if k <= |ns| then ns[k - 1] else 0
  }

  function IntLen(n: nat): nat {
    (|Nibbles(n)| + 2) / 2
  }

  lemma NibbleSmall(n: nat, k: nat)
    requires n < TWO64
    ensures Nibble(n, k) < 16
  {
    Power16();
    NibblesSmall(n, 16);
  }

  lemma Power16()
    ensures Power(16, 8) == TWO32 && Power(16, 16) == TWO64
  {
    assert Power(16, 4) == 16 * (16 * (16 * (16 * Power(16, 0))));
    assert Power(16, 8) == 16 * (16 * (16 * (16 * Power(16, 4))));
    assert Power(16, 12) == 16 * (16 * (16 * (16 * Power(16, 8))));
    assert Power(16, 16) == 16 * (16 * (16 * (16 * Power(16, 12))));
  }

  /** s begins with the encoding of n. */
  ghost predicate Encodes(s: seq<byte>, n: nat) {
    IntLen(n) <= |s| && forall i :: 0 <= i < IntLen(n) ==> s[i] == 16 * Nibble(n, 2 * i) + Nibble(n, 2 * i + 1)
  }

  /** Nibble k of some bytes, the high one of each first. */
  function NibbleOf(s: seq<byte>, k: nat): nat
    requires k / 2 < |s|
  {
    if k % 2 == 1 then s[k / 2] % 16 else s[k / 2] / 16
  }

  lemma EncodesNibble(s: seq<byte>, n: nat, k: nat)
    requires Encodes(s, n) && n < TWO64 && k / 2 < IntLen(n)
    ensures NibbleOf(s, k) == Nibble(n, k)
  {
    NibbleSmall(n, k / 2 * 2);
    NibbleSmall(n, k / 2 * 2 + 1);
  }

  /** The number made of the nibbles from `from` up to k, `from` being the least significant. */
  function FromTop(s: seq<byte>, k: nat, from: nat): nat
    requires k / 2 < |s|
    decreases k + 1 - from
  {
    if k < from then 0 else NibbleOf(s, from) + 16 * FromTop(s, k, from + 1)
  }

  /** decode_int_internal, as a function. */
  function IntOf(s: seq<byte>, maxNibbles: nat): Option<Read> {
    if s == [] then None
    else
      var nibbles := s[0] / 16 + 1;
      if maxNibbles < nibbles || |s| < nibbles / 2 + 1 then None
      else Some(Read(FromTop(s, nibbles, 1), nibbles / 2 + 1))
  }

  lemma {:induction false} FromTopIs(s: seq<byte>, n: nat, k: nat, from: nat, m: nat)
    requires Encodes(s, n) && n < TWO64 && 1 <= from <= k + 1 && k / 2 < IntLen(n)
    requires Nibbles(m) == (if from - 1 <= |Nibbles(n)| then Nibbles(n)[from - 1..] else []) && |Nibbles(n)| <= k
    ensures FromTop(s, k, from) == m
    decreases k + 1 - from
  {
    if from <= k {
      EncodesNibble(s, n, from);
      if m == 0 {
        FromTopIs(s, n, k, from + 1, 0);
      } else {
        assert Nibbles(m)[1..] == Nibbles(m / 16);
        FromTopIs(s, n, k, from + 1, m / 16);
      }
    } else {
      assert Nibbles(m) == [];
    }
  }

  /** An encoded number is read back, with its length. */
  lemma IntRoundTrip(n: nat, s: seq<byte>, maxNibbles: nat)
    requires Encodes(s, n) && 1 <= maxNibbles <= 16 && n < Power(16, maxNibbles)
    ensures IntOf(s, maxNibbles) == Some(Read(n, IntLen(n)))
  {
    hide Power, Nibbles, FromTop, Encodes;
    PowerGrows(maxNibbles, 16);
    Power16();
    NoNibbles();
    NibblesSmall(n, maxNibbles);
    EncodesLen(s, n);
    EncodesNibble(s, n, 0);
    var nibbles := Nibble(n, 0) + 1;
    assert Nibbles(n)[0..] == Nibbles(n);
    FromTopIs(s, n, nibbles, 1, n);
  }

  lemma NoNibbles()
    ensures Nibbles(0) == []
  {
  }

  lemma EncodesLen(s: seq<byte>, n: nat)
    requires Encodes(s, n)
    ensures IntLen(n) <= |s|
  {
  }

  lemma {:induction false} PowerGrows(a: nat, b: nat)
    requires a <= b
    ensures Power(16, a) <= Power(16, b)
    decreases b
  {
    if a < b {
      PowerGrows(a, b - 1);
    }
  }

  /** The encoding of a number. */
  function IntBytes(n: nat): (s: seq<byte>)
    ensures |s| == IntLen(n)
  {
    seq(IntLen(n), i requires 0 <= i => (16 * Nibble(n, 2 * i) + Nibble(n, 2 * i + 1)) % 256)
  }

  lemma IntBytesEncodes(n: nat, rest: seq<byte>)
    requires n < TWO64
    ensures Encodes(IntBytes(n) + rest, n)
  {
    forall i | 0 <= i < IntLen(n)
      ensures (IntBytes(n) + rest)[i] == 16 * Nibble(n, 2 * i) + Nibble(n, 2 * i + 1)
    {
      NibbleSmall(n, 2 * i);
      NibbleSmall(n, 2 * i + 1);
    }
  }

  /** Only one sequence of that length encodes a number. */
  lemma EncodesUnique(s: seq<byte>, n: nat)
    requires Encodes(s, n) && n < TWO64
    ensures IntLen(n) <= |s| && s[..IntLen(n)] == IntBytes(n)
  {
    IntBytesEncodes(n, []);
    assert IntBytes(n) + [] == IntBytes(n);
  }

  /** The nibbles of data after the nibbles before `off` have been written. */
  ghost predicate Written(data: seq<byte>, n: nat, off: nat) {
    forall k :: 0 <= k < 2 * |data| ==> NibbleOf(data, k) == if 1 <= k < off then Nibble(n, k) else 0
  }

  /** Half a byte is replaced. */
  lemma ReplacedHalf(was: nat, v: nat)
    requires was < 256 && v < 16
    ensures was / 16 * 16 + v < 256 && (was / 16 * 16 + v) / 16 == was / 16 && (was / 16 * 16 + v) % 16 == v
    ensures was % 16 + 16 * v < 256 && (was % 16 + 16 * v) % 16 == was % 16 && (was % 16 + 16 * v) / 16 == v
  {
  }

  lemma Halves(a: nat, b: nat)
    ensures a == b <==> a / 2 == b / 2 && a % 2 == b % 2
  {
  }

  lemma WrittenNext(data: seq<byte>, n: nat, off: nat, v: nat)
    requires Written(data, n, off) && 1 <= off < 2 * |data| && v == Nibble(n, off) < 16
    ensures var was := data[off / 2];
            var b := if off % 2 == 1 then was / 16 * 16 + v else was % 16 + 16 * v;
            b < 256 && Written(data[off / 2 := b], n, off + 1)
  {
    var was := data[off / 2];
    var b := if off % 2 == 1 then was / 16 * 16 + v else was % 16 + 16 * v;
    var d := data[off / 2 := b];
    hide Nibble;
    ReplacedHalf(was, v);
    forall k | 0 <= k < 2 * |d|
      ensures NibbleOf(d, k) == if 1 <= k < off + 1 then Nibble(n, k) else 0
    {
      Halves(k, off);
      assert NibbleOf(data, k) == if 1 <= k < off then Nibble(n, k) else 0;
    }
  }

  lemma WrittenAt(data: seq<byte>, n: nat, off: nat, k: nat)
    requires Written(data, n, off) && k < 2 * |data|
    ensures NibbleOf(data, k) == if 1 <= k < off then Nibble(n, k) else 0
  {
  }

  lemma TwoNibbles(data: seq<byte>, i: nat)
    requires i < |data|
    ensures data[i] == 16 * NibbleOf(data, 2 * i) + NibbleOf(data, 2 * i + 1)
    ensures NibbleOf(data, 2 * i) == data[i] / 16 && NibbleOf(data, 2 * i + 1) == data[i] % 16
  {
  }

  lemma WrittenAll(data: seq<byte>, n: nat, top: nat)
    requires Written(data, n, |Nibbles(n)| + 1) && IntLen(n) <= |data| && top == Nibble(n, 0) < 16
    ensures var b := data[0] % 16 + 16 * top; b < 256 && Encodes(data[0 := b], n)
  {
    hide Nibbles, Written, NibbleOf;
    var b := data[0] % 16 + 16 * top;
    forall i | 0 <= i < IntLen(n)
      ensures data[0 := b][i] == 16 * Nibble(n, 2 * i) + Nibble(n, 2 * i + 1)
    {
      WrittenAt(data, n, |Nibbles(n)| + 1, 2 * i);
      WrittenAt(data, n, |Nibbles(n)| + 1, 2 * i + 1);
      TwoNibbles(data, i);
    }
  }

  /** The next nibble goes into the low half of its byte or the high one. */
  method PutNibble(data: array<byte>, off: nat, v: nat, ghost number: nat)
    requires Written(data[..], number, off) && 1 <= off < 2 * data.Length && v == Nibble(number, off) < 16
    modifies data
    ensures Written(data[..], number, off + 1)
  {
    hide Written, Nibble;
    WrittenNext(data[..], number, off, v);
    ghost var before := data[..];
    if off % 2 == 1 {
      data[off / 2] := data[off / 2] / 16 * 16 + v;
    } else {
      data[off / 2] := data[off / 2] % 16 + 16 * v;
    }
    assert data[..] == before[off / 2 := data[off / 2]];
  }

  /** encode_int_internal and encode_int64_internal: how many bytes of data are used. */
  method EncodeInt(data: array<byte>, number: nat) returns (len: nat)
    requires (data.Length == 5 && number < TWO32) || (data.Length == 9 && number < TWO64)
    modifies data
    ensures len == IntLen(number) <= data.Length && data[..len] == IntBytes(number)
  {
    hide Encodes, Written, Power;
    Power16();
    NibblesSmall(number, if data.Length == 5 then 8 else 16);
    forall i | 0 <= i < data.Length {
      data[i] := 0;
    }
    var off, n := 1, number;
    NothingWritten(data[..], number);
    assert Nibbles(number)[0..] == Nibbles(number);
    while n != 0
      invariant 1 <= off <= |Nibbles(number)| + 1 && Nibbles(n) == Nibbles(number)[off - 1..]
      invariant Written(data[..], number, off)
      decreases n
    {
      assert Nibbles(n)[0] == n % 16 == Nibbles(number)[off - 1];
      assert Nibbles(n)[1..] == Nibbles(n / 16);
      PutNibble(data, off, n % 16, number);
      n := n / 16;
      off := off + 1;
    }
    var nibbles := if off > 2 then off - 2 else 0;
    ghost var before := data[..];
    WrittenAll(before, number, nibbles);
    data[0] := data[0] % 16 + 16 * nibbles;
    assert data[..] == before[0 := data[0]];
    EncodesUnique(data[..], number);
    return (off + 1) / 2;
  }

  lemma NothingWritten(data: seq<byte>, n: nat)
    requires forall i :: 0 <= i < |data| ==> data[i] == 0
    ensures Written(data, n, 1)
  {
  }

  /** A record: its tag, the length of its payload, and the payload. */
  function Record(tag: nat, payload: seq<byte>): seq<byte> {
    TagBytes(tag) + IntBytes(|payload|) + payload
  }

  /** The tag, the length of the payload, and the length of the header itself. */
  datatype Header = Header(tag: nat, payload: nat, size: nat)

  function HeaderOf(s: seq<byte>): Option<Header> {
    var t := TagOf(s, 0);
    if t == None || |s| < t.value.len then None
    else
      var n := IntOf(s[t.value.len..], 8);
      if n == None then None else Some(Header(t.value.number, n.value.number, t.value.len + n.value.len))
  }

  /** How many bytes reading the header uses up: none if there is no tag, only the tag if no
      number follows it. */
  function HeaderDrained(s: seq<byte>): (n: nat)
    ensures n <= |s| && (n == 0 <==> TagOf(s, 0) == None)
    ensures HeaderOf(s).Some? ==> n == HeaderOf(s).value.size
  {
    HeaderFits(s);
    var t := TagOf(s, 0);
    if t == None then 0
    else
      TagLength(s, 0);
      var n := IntOf(s[t.value.len..], 8);
      if n == None then t.value.len else t.value.len + n.value.len
  }

  /** A record torn off behind its tag loses the tag when it is read. */
  lemma TornExample()
    ensures HeaderOf([5]) == None && HeaderDrained([5]) == 1
  {
    var s: seq<byte> := [5];
    assert s[1..] == [];
  }

  /** A header is read back, whatever follows the record. */
  lemma HeaderRoundTrip(tag: nat, payload: seq<byte>, rest: seq<byte>)
    requires tag < TWO32 && |payload| < TWO32
    ensures var s := Record(tag, payload) + rest;
            var size := |TagBytes(tag)| + IntLen(|payload|);
            && HeaderOf(s) == Some(Header(tag, |payload|, size))
            && size <= |s| && s[size..] == payload + rest && |Record(tag, payload)| == size + |payload|
            && |TagBytes(tag)| <= 5
  {
    hide TagOf, IntOf, TagBytes, IntBytes, IntLen;
    var s := Record(tag, payload) + rest;
    var t := |TagBytes(tag)|;
    assert s == TagBytes(tag) + (IntBytes(|payload|) + payload + rest);
    TagRoundTrip(tag, IntBytes(|payload|) + payload + rest);
    assert s[t..] == IntBytes(|payload|) + (payload + rest);
    IntBytesEncodes(|payload|, payload + rest);
    Power16();
    IntRoundTrip(|payload|, s[t..], 8);
  }

  lemma {:induction false} FromTopBound(s: seq<byte>, k: nat, from: nat)
    requires k / 2 < |s| && from <= k + 1
    ensures FromTop(s, k, from) < Power(16, k + 1 - from)
    decreases k + 1 - from
  {
    if from <= k {
      FromTopBound(s, k, from + 1);
    }
  }

  lemma IntOfBound(s: seq<byte>)
    ensures IntOf(s, 8).Some? ==> IntOf(s, 8).value.number < TWO32
  {
    if IntOf(s, 8).Some? {
      var nibbles := s[0] / 16 + 1;
      FromTopBound(s, nibbles, 1);
      PowerGrows(nibbles, 8);
      Power16();
    }
  }

  /** A header lies within the bytes, and its length is a 32-bit number. */
  lemma HeaderFits(s: seq<byte>)
    ensures HeaderOf(s).Some? ==> HeaderOf(s).value.size <= |s| && HeaderOf(s).value.payload < TWO32
    ensures TagOf(s, 0).Some? ==> TagOf(s, 0).value.len <= |s|
  {
    if TagOf(s, 0).Some? {
      TagLength(s, 0);
      IntOfBound(s[TagOf(s, 0).value.len..]);
    }
  }

  /** The wire form of a list of records. */
  function Stream(records: seq<(nat, seq<byte>)>): seq<byte> {
    if records == [] then [] else Record(records[0].0, records[0].1) + Stream(records[1..])
  }
}

/** event_tagging.c over a byte queue; an evbuffer is one, as long as memory lasts. */
module Tagging {
  import opened Common
  import opened TagFormat

  class Buffer {
    var bytes: seq<byte>

    constructor ()
      ensures bytes == []
    {
      bytes := [];
    }

    method Add(data: seq<byte>)
      modifies this
      ensures bytes == old(bytes) + data
    {
      bytes := bytes + data;
    }

    /** evbuffer_get_length */
    method Length() returns (n: nat)
      ensures n == |bytes|
    {
      n := |bytes|;
    }

    method Drain(n: nat)
      requires n <= |bytes|
      modifies this
      ensures bytes == old(bytes)[n..]
    {
      bytes := bytes[n..];
    }
  }

  /** evtag_encode_int and evtag_encode_int64: `wide` says which. */
  method EncodeIntTo(buf: Buffer, number: nat, wide: bool)
    requires number < if wide then TWO64 else TWO32
    modifies buf
    ensures buf.bytes == old(buf.bytes) + IntBytes(number)
  {
    var data := new byte[if wide then 9 else 5];
    var len := EncodeInt(data, number);
    buf.Add(data[..len]);
  }

  /** The loop of evtag_encode_tag. */
  method TagInto(data: array<byte>, tag: nat) returns (bytes: nat)
    requires tag < TWO32 && data.Length == 5
    modifies data
    ensures bytes <= 5 && data[..bytes] == TagBytes(tag)
  {
    hide TagBytes;
    TagRoundTrip(tag, []);
    var t := tag;
    bytes := 0;
    ghost var all := TagBytes(tag);
    assert all[0..] == all;
    while true
      invariant bytes < |all| && data[..bytes] == all[..bytes] && TagBytes(t) == all[bytes..]
      decreases t
    {
      TagStep(t);
      assert all[bytes] == all[bytes..][0] && all[bytes + 1..] == all[bytes..][1..];
      data[bytes] := if t / 128 != 0 then t % 128 + 128 else t % 128;
      t := t / 128;
      bytes := bytes + 1;
      if t == 0 {
        break;
      }
    }
    assert all[..bytes] == all;
  }

  /** evtag_encode_tag */
  method EncodeTag(buf: Buffer, tag: nat) returns (bytes: nat)
    requires tag < TWO32
    modifies buf
    ensures bytes == |TagBytes(tag)| <= 5 && buf.bytes == old(buf.bytes) + TagBytes(tag)
  {
    var data := new byte[5];
    bytes := TagInto(data, tag);
    buf.Add(data[..bytes]);
  }

  lemma TagStep(t: nat)
    ensures TagBytes(t) == if t / 128 == 0 then [t % 128] else [t % 128 + 128] + TagBytes(t / 128)
  {
  }

  function Product(a: nat, b: nat): nat {
    a * b
  }

  /** How the tag read so far and the rest make up the whole. */
  ghost predicate ReadingTag(c: seq<byte>, i: nat, number: nat) {
    && i <= |c|
    && match TagOf(c[i..], i)
       case None => TagOf(c, 0) == None
       case Some(rest) => TagOf(c, 0) == Some(Read(number + Product(Power(128, i), rest.number), i + rest.len))
  }

  lemma ReadingStart(c: seq<byte>)
    ensures ReadingTag(c, 0, 0)
  {
    assert c[0..] == c;
    assert Power(128, 0) == 1;
  }

  /** A byte that says that more follows. */
  lemma ReadingMore(c: seq<byte>, i: nat, number: nat)
    requires ReadingTag(c, i, number) && i < |c| && i <= 4 && !(i == 4 && 15 < c[i] % 128) && 128 <= c[i]
    ensures ReadingTag(c, i + 1, number + Product(Power(128, i), c[i] % 128))
  {
    hide Power, TagOf, Product;
    TagAt(c, i);
    var rest := TagOf(c[i + 1..], i + 1);
    if rest.Some? {
      PowerNext(i);
      Distribute(Power(128, i), c[i] % 128, rest.value.number);
    }
  }

  /** The last byte of a tag. */
  lemma ReadingLast(c: seq<byte>, i: nat, number: nat)
    requires ReadingTag(c, i, number) && i < |c| && i <= 4 && !(i == 4 && 15 < c[i] % 128) && c[i] < 128
    ensures TagOf(c, 0) == Some(Read(number + Product(Power(128, i), c[i] % 128), i + 1))
  {
    hide Power, TagOf, Product;
    TagAt(c, i);
  }

  /** A byte that cannot be part of a tag, or no byte at all. */
  lemma ReadingStop(c: seq<byte>, i: nat, number: nat)
    requires ReadingTag(c, i, number) && (i == |c| || 4 < i || (i == 4 && 15 < c[i] % 128))
    ensures TagOf(c, 0) == None
  {
    hide Power, TagOf, Product;
    TagAt(c, i);
  }

  lemma TagAt(c: seq<byte>, i: nat)
    requires i <= |c|
    ensures TagOf(c[i..], i) ==
            if i == |c| || 4 < i || (i == 4 && 15 < c[i] % 128) then None
            else if c[i] < 128 then Some(Read(c[i] % 128, 1))
            else
              var rest := TagOf(c[i + 1..], i + 1);
              if rest == None then None else Some(Read(c[i] % 128 + 128 * rest.value.number, rest.value.len + 1))
  {
    if i < |c| {
      assert c[i..][1..] == c[i + 1..] && c[i..][0] == c[i];
    }
  }

  lemma Distribute(p: nat, a: nat, r: nat)
    ensures Product(p, a + 128 * r) == Product(p, a) + Product(p * 128, r)
  {
  }

  /** decode_tag_internal: the length of the tag, or -1. */
  method DecodeTag(buf: Buffer, drain: bool) returns (r: int, tag: nat)
    modifies buf
    ensures var t := TagOf(old(buf.bytes), 0);
            if t == None then r == -1 && buf.bytes == old(buf.bytes)
            else
              && r == t.value.len && tag == t.value.number && r <= |old(buf.bytes)|
              && buf.bytes == if drain then old(buf.bytes)[r..] else old(buf.bytes)
  {
    hide TagOf, ReadingTag, Power;
    var c, len := buf.bytes, |buf.bytes|;
    var count: nat, shift: nat, number: nat := 0, 1, 0;
    var done := false;
    ReadingStart(c);
    PowerZero();
    while count < len
      invariant count <= len && shift == Power(128, count) && !done
      invariant ReadingTag(c, count, number) && buf.bytes == c
      decreases len - count
    {
      if count >= 4 {
        if count > 4 || c[count] % 128 > 15 {
          ReadingStop(c, count, number);
          return -1, 0;
        }
      }
      var lower := c[count];
      if lower < 128 {
        ReadingLast(c, count, number);
      } else {
        ReadingMore(c, count, number);
      }
      number := number + Product(shift, lower % 128);
      PowerNext(count);
      shift := shift * 128;
      count := count + 1;
      if lower < 128 {
        done := true;
        break;
      }
    }
    if !done {
      ReadingStop(c, count, number);
      return -1, 0;
    }
    if drain {
      buf.Drain(count);
    }
    return count, number;
  }

  lemma PowerZero()
    ensures Power(128, 0) == 1
  {
  }

  lemma PowerNext(n: nat)
    ensures Power(128, n + 1) == Power(128, n) * 128
  {
  }

  /** decode_int_internal and decode_int64_internal: the length of the number that stands at
      offset, or -1. */
  method DecodeInt(buf: Buffer, offset: nat, maxNibbles: nat) returns (r: int, number: nat)
    requires offset <= |buf.bytes|
    ensures var n := IntOf(buf.bytes[offset..], maxNibbles);
            if n == None then r == -1
            else r == n.value.len && number == n.value.number && offset + r <= |buf.bytes|
  {
    var data := buf.bytes[offset..];
    number := 0;
    if |data| <= 0 {
      return -1, 0;
    }
    var nibbles := data[0] / 16 + 1;
    if nibbles > maxNibbles || nibbles / 2 + 1 > |data| {
      return -1, 0;
    }
    var len := nibbles / 2 + 1;
    ghost var all := nibbles;
    while nibbles > 0
      invariant 0 <= nibbles <= all && number == FromTop(data, all, nibbles + 1)
    {
      number := number * 16;
      if nibbles % 2 == 1 {
        number := number + data[nibbles / 2] % 16;
      } else {
        number := number + data[nibbles / 2] / 16;
      }
      nibbles := nibbles - 1;
    }
    return len, number;
  }

  /** evtag_decode_int and evtag_decode_int64 */
  method DecodeIntFrom(buf: Buffer, wide: bool) returns (r: int, number: nat)
    modifies buf
    ensures var n := IntOf(old(buf.bytes), if wide then 16 else 8);
            if n == None then r == -1 && buf.bytes == old(buf.bytes)
            else
              && r == 0 && number == n.value.number && n.value.len <= |old(buf.bytes)|
              && buf.bytes == old(buf.bytes)[n.value.len..]
  {
    assert buf.bytes[0..] == buf.bytes;
    var res;
    res, number := DecodeInt(buf, 0, if wide then 16 else 8);
    if res != -1 {
      buf.Drain(res);
    }
    return if res == -1 then -1 else 0, number;
  }

  /** Behind whatever the buffer holds, integers come back, and as many bytes are consumed as
      were written. */
  method IntThereAndBack(buf: Buffer, number: nat, wide: bool, after: seq<byte>) returns (r: int, back: nat)
    requires number < (if wide then TWO64 else TWO32)
    modifies buf
    ensures r == 0 && back == number && buf.bytes == after
  {
    var before := buf.Length();
    EncodeIntTo(buf, number, wide);
    buf.Add(after);
    buf.Drain(before);
    IntBytesEncodes(number, after);
    assert buf.bytes == IntBytes(number) + after;
    Power16();
    IntRoundTrip(number, buf.bytes, if wide then 16 else 8);
    r, back := DecodeIntFrom(buf, wide);
  }

  /** evtag_marshal */
  method Marshal(buf: Buffer, tag: nat, data: seq<byte>)
    requires tag < TWO32 && |data| < TWO32
    modifies buf
    ensures buf.bytes == old(buf.bytes) + Record(tag, data)
  {
    hide TagBytes, IntBytes;
    var _ := EncodeTag(buf, tag);
    EncodeIntTo(buf, |data|, false);
    buf.Add(data);
  }

  /** A length as the int that is returned. */
  function AsInt(n: nat): int {
    if n <= INT_MAX then n else n - TWO32
  }

  /** evtag_unmarshal_header: the length of the payload, or -1. */
  method UnmarshalHeader(buf: Buffer) returns (r: int, tag: nat)
    modifies buf
    ensures var h := HeaderOf(old(buf.bytes));
            if h == None || |old(buf.bytes)| < h.value.size + h.value.payload then r == -1
            else r == AsInt(h.value.payload) && tag == h.value.tag && h.value.payload <= |buf.bytes|
    ensures buf.bytes == old(buf.bytes)[HeaderDrained(old(buf.bytes))..]
  {
    hide TagOf, IntOf;
    ghost var c := buf.bytes;
    HeaderFits(c);
    var n;
    n, tag := DecodeTag(buf, true);
    if n == -1 {
      return -1, tag;
    }
    assert c[n..] == buf.bytes;
    var res, len := DecodeIntFrom(buf, false);
    if res == -1 {
      return -1, tag;
    }
    if |buf.bytes| < len {
      return -1, tag;
    }
    return AsInt(len), tag;
  }

  /** evtag_peek_length */
  method PeekLength(buf: Buffer) returns (r: int, length: nat)
    modifies buf
    ensures buf.bytes == old(buf.bytes)
    ensures var h := HeaderOf(buf.bytes);
            if h == None then r == -1 else r == 0 && length == (h.value.size + h.value.payload) % TWO32
  {
    hide TagOf, IntOf;
    HeaderFits(buf.bytes);
    var len, _ := DecodeTag(buf, false);
    if len == -1 {
      return -1, 0;
    }
    var res;
    res, length := DecodeInt(buf, len, 8);
    if res == -1 {
      return -1, 0;
    }
    return 0, (length + res + len) % TWO32;
  }

  /** evtag_unmarshal: the length of the payload, which goes to dst, or -1. */
  method Unmarshal(src: Buffer, dst: Buffer) returns (r: int, tag: nat)
    requires src != dst
    modifies src, dst
    ensures var h := HeaderOf(old(src.bytes));
            if h == None || INT_MAX < h.value.payload || |old(src.bytes)| < h.value.size + h.value.payload then
              r == -1 && dst.bytes == old(dst.bytes) && src.bytes == old(src.bytes)[HeaderDrained(old(src.bytes))..]
            else
              && r == h.value.payload && tag == h.value.tag
              && dst.bytes == old(dst.bytes) + old(src.bytes)[h.value.size..h.value.size + r]
              && src.bytes == old(src.bytes)[h.value.size + r..]
  {
    hide HeaderOf;
    HeaderFits(src.bytes);
    r, tag := UnmarshalHeader(src);
    if r < 0 {
      return -1, tag;
    }
    ghost var c, h := old(src.bytes), HeaderOf(old(src.bytes)).value;
    assert src.bytes[..r] == c[h.size..h.size + r] && src.bytes[r..] == c[h.size + r..];
    dst.Add(src.bytes[..r]);
    src.Drain(r);
  }

  /** Writes some records. */
  method MarshalAll(buf: Buffer, records: seq<(nat, seq<byte>)>)
    requires forall i :: 0 <= i < |records| ==> records[i].0 < TWO32 && |records[i].1| <= INT_MAX
    modifies buf
    ensures buf.bytes == old(buf.bytes) + Stream(records)
  {
    hide Record;
    var i := 0;
    assert records[0..] == records;
    while i < |records|
      invariant 0 <= i <= |records|
      invariant buf.bytes + Stream(records[i..]) == old(buf.bytes) + Stream(records)
    {
      ghost var rest := records[i..];
      assert rest[1..] == records[i + 1..];
      ghost var before := buf.bytes;
      Marshal(buf, records[i].0, records[i].1);
      assert before + (Record(rest[0].0, rest[0].1) + Stream(rest[1..])) == buf.bytes + Stream(records[i + 1..]);
      i := i + 1;
    }
    assert buf.bytes + [] == buf.bytes;
  }

  /** Peeks at the next record and reads it. */
  method UnmarshalOne(src: Buffer, ghost tag: nat, ghost d: seq<byte>, ghost rest: seq<byte>)
    returns (record: (nat, seq<byte>), size: nat)
    requires src.bytes == Record(tag, d) + rest && tag < TWO32 && |d| <= INT_MAX
    modifies src
    ensures record == (tag, d) && size == |Record(tag, d)| && src.bytes == rest
  {
    hide Record, HeaderOf;
    HeaderRoundTrip(tag, d, rest);
    var _, n := PeekLength(src);
    size := n;
    IntLenBound(|d|);
    var dst := new Buffer();
    ghost var c := src.bytes;
    var r, t := Unmarshal(src, dst);
    TakeRecord(c, HeaderOf(c).value.size, d, rest);
    record := (t, dst.bytes);
  }

  /** Reads records until the buffer is empty.  What was marshalled comes back, record by
      record, and peeking tells the size of each. */
  method UnmarshalAll(src: Buffer, ghost records: seq<(nat, seq<byte>)>) returns (out: seq<(nat, seq<byte>)>,
                      sizes: seq<nat>)
    requires src.bytes == Stream(records)
    requires forall i :: 0 <= i < |records| ==> records[i].0 < TWO32 && |records[i].1| <= INT_MAX
    modifies src
    ensures out == records && src.bytes == [] && |sizes| == |records|
    ensures forall i :: 0 <= i < |records| ==> sizes[i] == |Record(records[i].0, records[i].1)|
  {
    hide Record, HeaderOf, Stream;
    out, sizes := [], [];
    ghost var n := 0;
    assert records[0..] == records && records[..0] == [];
    while src.bytes != []
      invariant 0 <= n <= |records| && src.bytes == Stream(records[n..]) && out == records[..n]
      invariant |sizes| == n && forall i :: 0 <= i < n ==> sizes[i] == |Record(records[i].0, records[i].1)|
      decreases |records| - n
    {
      ghost var tag, d, rest := SplitStream(records, n);
      var record, size := UnmarshalOne(src, tag, d, rest);
      assert records[..n + 1] == records[..n] + [record];
      out, sizes := out + [record], sizes + [size];
      n := n + 1;
    }
    StreamEmpty(records[n..]);
    assert records[..n] == records;
  }

  lemma SplitStream(records: seq<(nat, seq<byte>)>, n: nat) returns (tag: nat, d: seq<byte>, rest: seq<byte>)
    requires n <= |records| && Stream(records[n..]) != []
    ensures n < |records| && records[n] == (tag, d) && rest == Stream(records[n + 1..])
    ensures Stream(records[n..]) == Record(tag, d) + rest
  {
    assert records[n..][0] == records[n] && records[n..][1..] == records[n + 1..];
    tag, d, rest := records[n].0, records[n].1, Stream(records[n + 1..]);
  }

  lemma StreamEmpty(records: seq<(nat, seq<byte>)>)
    requires Stream(records) == []
    ensures records == []
  {
  }

  lemma TakeRecord(c: seq<byte>, size: nat, d: seq<byte>, rest: seq<byte>)
    requires size <= |c| && c[size..] == d + rest
    ensures size + |d| <= |c| && c[size..size + |d|] == d && c[size + |d|..] == rest
    ensures [] + d == d
  {
    assert c[size..size + |d|] == c[size..][..|d|];
    assert c[size + |d|..] == c[size..][|d|..];
  }

  /** evtag_marshal_int and evtag_marshal_int64 */
  method MarshalInt(buf: Buffer, tag: nat, number: nat, wide: bool)
    requires tag < TWO32 && number < if wide then TWO64 else TWO32
    modifies buf
    ensures buf.bytes == old(buf.bytes) + Record(tag, IntBytes(number))
  {
    hide TagBytes, IntBytes;
    var data := new byte[if wide then 9 else 5];
    var len := EncodeInt(data, number);
    var _ := EncodeTag(buf, tag);
    EncodeIntTo(buf, len, false);
    buf.Add(data[..len]);
  }

  /** evtag_unmarshal_int and evtag_unmarshal_int64: the length of the number, or -1. */
  method UnmarshalInt(buf: Buffer, needTag: nat, wide: bool) returns (r: int, number: nat)
    modifies buf
    ensures var c := old(buf.bytes);
            var h := HeaderOf(c);
            var t := TagOf(c, 0);
            if t.Some? && t.value.number != needTag then
              r == -1 && t.value.len <= |c| && buf.bytes == c[t.value.len..]
            else if h == None || |c| < h.value.size + h.value.payload then
              r == -1 && buf.bytes == c[HeaderDrained(c)..]
            else
              var v := IntOf(c[h.value.size..], if wide then 16 else 8);
              && buf.bytes == c[h.value.size + h.value.payload..]
              && if v == None || h.value.payload < v.value.len then r == -1
                 else r == v.value.len && number == v.value.number
  {
    hide TagOf, IntOf;
    ghost var c := buf.bytes;
    HeaderFits(c);
    var t, tag := DecodeTag(buf, true);
    if t == -1 {
      return -1, 0;
    }
    if needTag != tag {
      return -1, 0;
    }
    var res, len := DecodeIntFrom(buf, false);
    if res == -1 {
      return -1, 0;
    }
    if |buf.bytes| < len {
      return -1, 0;
    }
    assert buf.bytes[0..] == buf.bytes == c[HeaderOf(c).value.size..];
    assert buf.bytes[len..] == c[HeaderOf(c).value.size + len..];
    var result;
    result, number := DecodeInt(buf, 0, if wide then 16 else 8);
    buf.Drain(len);
    return if result < 0 || result > len then -1 else result, number;
  }

  /** Behind whatever the buffer holds, a tagged integer comes back, and its record is consumed. */
  method IntRecordThereAndBack(buf: Buffer, tag: nat, number: nat, wide: bool, after: seq<byte>) returns (r: int,
                               back: nat)
    requires tag < TWO32 && number < (if wide then TWO64 else TWO32)
    modifies buf
    ensures r == IntLen(number) && back == number && buf.bytes == after
  {
    hide HeaderOf, IntOf, Record, IntBytes, TagOf;
    var before := buf.Length();
    MarshalInt(buf, tag, number, wide);
    buf.Add(after);
    buf.Drain(before);
    ghost var c := buf.bytes;
    Power16();
    IntLenBound(number);
    assert c == Record(tag, IntBytes(number)) + after;
    HeaderRoundTrip(tag, IntBytes(number), after);
    HeaderTag(c);
    IntBytesEncodes(number, after);
    IntRoundTrip(number, IntBytes(number) + after, if wide then 16 else 8);
    r, back := UnmarshalInt(buf, tag, wide);
    TakeRecord(c, HeaderOf(c).value.size, IntBytes(number), after);
  }

  lemma HeaderTag(c: seq<byte>)
    ensures HeaderOf(c).Some? ==> TagOf(c, 0).Some? && TagOf(c, 0).value.number == HeaderOf(c).value.tag
  {
  }

  lemma IntLenBound(n: nat)
    requires n < TWO64
    ensures IntLen(n) <= 9
  {
    Power16();
    NibblesSmall(n, 16);
  }
}
