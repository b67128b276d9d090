/** RTP: packing and unpacking (section 5.1 of RFC 3550), the L16 byte swap
    (section 4.5.11 of RFC 3551), and the receiver that puts packets in order. */
module Rtp {
  import opened Wrappers

  // ----- big-endian fields -----

  function U16(v: int): (r: seq<byte>)
    requires 0 <= v < 0x1_0000
    ensures |r| == 2
  {
    [v / 256, v % 256]
  }

  function U32(v: int): (r: seq<byte>)
    requires 0 <= v < 0x1_0000_0000
    ensures |r| == 4
  {
    U16(v / 0x1_0000) + U16(v % 0x1_0000)
  }

  function FromU16(s: seq<byte>, i: nat): (v: int)
    requires i + 2 <= |s|
    ensures 0 <= v < 0x1_0000
  {
    s[i] as int * 256 + s[i + 1] as int
  }

  function FromU32(s: seq<byte>, i: nat): (v: int)
    requires i + 4 <= |s|
    ensures 0 <= v < 0x1_0000_0000
  {
    FromU16(s, i) * 0x1_0000 + FromU16(s, i + 2)
  }

  lemma U16RoundTrip(s: seq<byte>, i: nat, v: int)
    requires 0 <= v < 0x1_0000 && i + 2 <= |s| && s[i..i + 2] == U16(v)
    ensures FromU16(s, i) == v
  {
    assert s[i] == s[i..i + 2][0] && s[i + 1] == s[i..i + 2][1];
  }

  lemma U32RoundTrip(s: seq<byte>, i: nat, v: int)
    requires 0 <= v < 0x1_0000_0000 && i + 4 <= |s| && s[i..i + 4] == U32(v)
    ensures FromU32(s, i) == v
  {
    assert s[i..i + 2] == s[i..i + 4][..2] == U16(v / 0x1_0000);
    assert s[i + 2..i + 4] == s[i..i + 4][2..] == U16(v % 0x1_0000);
    U16RoundTrip(s, i, v / 0x1_0000);
    U16RoundTrip(s, i + 2, v % 0x1_0000);
  }

  // ----- packets -----

  const HEADER: nat := 12

  datatype Packet = Packet(pt: int, marker: bool, seqNo: int, ts: int, ssrc: int, payload: seq<byte>)

  /** The second byte: marker and payload type. */
  function SecondByte(marker: bool, pt: int): (b: byte)
    requires 0 <= pt < 128
    ensures b % 128 == pt && (b / 128 == 1 <==> marker)
  {
    (if marker then 0x80 else 0) + pt
  }

  /** The first byte: version 2, padding and extension flags, CSRC count. */
  function FirstByte(padded: bool, extended: bool, count: nat): (b: byte)
    requires count < 16
    ensures b / 64 == 2 && b % 16 == count
    ensures b / 32 % 2 == (if padded then 1 else 0) && b / 16 % 2 == (if extended then 1 else 0)
  {
    0x80 + (if padded then 0x20 else 0) + (if extended then 0x10 else 0) + count
  }

  function Front(b0: byte, b1: byte, seqNo: int, ts: int, ssrc: int): (r: seq<byte>)
    requires 0 <= seqNo < 0x1_0000 && 0 <= ts < 0x1_0000_0000 && 0 <= ssrc < 0x1_0000_0000
    ensures |r| == HEADER
  {
    [b0, b1] + U16(seqNo) + U32(ts) + U32(ssrc)
  }

  /** rtp_pack of a payload type below 128: version 2, no padding, extension or CSRCs. */
  function Pack(seqNo: int, ts: int, ssrc: int, payload: seq<byte>, marker: bool, pt: int): (r: seq<byte>)
    requires 0 <= pt < 128
    ensures |r| == HEADER + |payload|
  {
    Front(FirstByte(false, false, 0), SecondByte(marker, pt), seqNo % 0x1_0000, ts % 0x1_0000_0000,
          ssrc % 0x1_0000_0000) + payload
  }

  /** Where the payload starts, or None when the header does not fit. */
  function PayloadStart(pkt: seq<byte>): Option<nat>
    requires |pkt| >= HEADER
  {
    var off := HEADER + 4 * (pkt[0] % 16);
    if pkt[0] / 16 % 2 == 0 then Some(off)
    else if |pkt| < off + 4 then None
    else Some(off + 4 + 4 * FromU16(pkt, off + 2))
  }

  /** rtp_unpack: None when it is not an RTP packet. */
  function Unpack(pkt: seq<byte>): Option<Packet> {
    if |pkt| < HEADER || pkt[0] / 64 != 2 then None
    else
      var off := PayloadStart(pkt);
      var end := |pkt| - if pkt[0] / 32 % 2 == 1 then pkt[|pkt| - 1] else 0;
      if off.None? || off.value > end then None
      else Some(Packet(pkt[1] % 128, pkt[1] / 128 == 1, FromU16(pkt, 2), FromU32(pkt, 4), FromU32(pkt, 8),
                       pkt[off.value..end]))
  }

  /** What a sender may put around a payload: CSRCs, a header extension, padding. */
  datatype Extras = Extras(csrcs: seq<int>, extension: Option<(int, seq<int>)>, padding: nat)

  ghost predicate Sendable(x: Extras) {
    && |x.csrcs| < 16 && (forall i :: 0 <= i < |x.csrcs| ==> 0 <= x.csrcs[i] < 0x1_0000_0000)
    && (x.extension.Some? ==>
          && 0 <= x.extension.value.0 < 0x1_0000 && |x.extension.value.1| < 0x1_0000
          && forall i :: 0 <= i < |x.extension.value.1| ==> 0 <= x.extension.value.1[i] < 0x1_0000_0000)
    && x.padding < 256
  }

  function Words(ws: seq<int>): (r: seq<byte>)
    requires forall i :: 0 <= i < |ws| ==> 0 <= ws[i] < 0x1_0000_0000
    ensures |r| == 4 * |ws|
  {
    if ws == [] then [] else U32(ws[0]) + Words(ws[1..])
  }

  /** The padding: its last byte says how long it is. */
  function Padding(n: nat): (r: seq<byte>)
    requires n < 256
    ensures |r| == n
  {
    if n == 0 then [] else seq(n - 1, i => 0) + [n]
  }

  ghost function Extension(x: Option<(int, seq<int>)>): (r: seq<byte>)
    requires Sendable(Extras([], x, 0))
    ensures |r| == if x.Some? then 4 + 4 * |x.value.1| else 0
  {
    if x.None? then [] else U16(x.value.0) + U16(|x.value.1|) + Words(x.value.1)
  }

  /** A packet as section 5.1 of RFC 3550 lays it out. */
  ghost function Print(p: Packet, x: Extras): (pkt: seq<byte>)
    requires Sendable(x) && Fields(p)
    ensures |pkt| >= HEADER
  {
    Front(FirstByte(x.padding > 0, x.extension.Some?, |x.csrcs|),
          SecondByte(p.marker, p.pt), p.seqNo, p.ts, p.ssrc)
    + (Words(x.csrcs) + (Extension(x.extension) + (p.payload + Padding(x.padding))))
  }

  ghost predicate Fields(p: Packet) {
    0 <= p.pt < 128 && 0 <= p.seqNo < 0x1_0000 && 0 <= p.ts < 0x1_0000_0000 && 0 <= p.ssrc < 0x1_0000_0000
  }

  lemma FrontFields(b0: byte, b1: byte, seqNo: int, ts: int, ssrc: int, rest: seq<byte>)
    requires 0 <= seqNo < 0x1_0000 && 0 <= ts < 0x1_0000_0000 && 0 <= ssrc < 0x1_0000_0000
    ensures var pkt := Front(b0, b1, seqNo, ts, ssrc) + rest;
            && pkt[0] == b0 && pkt[1] == b1
            && FromU16(pkt, 2) == seqNo && FromU32(pkt, 4) == ts && FromU32(pkt, 8) == ssrc
            && pkt[HEADER..] == rest
  {
    var pkt := Front(b0, b1, seqNo, ts, ssrc) + rest;
    assert pkt[2..4] == U16(seqNo);
    assert pkt[4..8] == U32(ts);
    assert pkt[8..12] == U32(ssrc);
    U16RoundTrip(pkt, 2, seqNo);
    U32RoundTrip(pkt, 4, ts);
    U32RoundTrip(pkt, 8, ssrc);
  }

  lemma TwoParts(s: seq<byte>, i: nat, a: seq<byte>, b: seq<byte>)
    requires i <= |s| && s[i..] == a + b
    ensures |s| == i + |a| + |b|
    ensures s[i..i + |a|] == a && s[i + |a|..] == b
  {
    assert s[i..i + |a|] == s[i..][..|a|];
    assert s[i + |a|..] == s[i..][|a|..];
  }

  /** Where the parts of the rest stand. */
  lemma RestParts(pkt: seq<byte>, w: seq<byte>, e: seq<byte>, payload: seq<byte>, pad: seq<byte>)
    requires |pkt| >= HEADER && pkt[HEADER..] == w + (e + (payload + pad))
    ensures var off := HEADER + |w|;
            && |pkt| == off + |e| + |payload| + |pad|
            && pkt[off..off + |e|] == e
            && pkt[off + |e|..off + |e| + |payload|] == payload
            && pkt[off + |e| + |payload|..] == pad
  {
    TwoParts(pkt, HEADER, w, e + (payload + pad));
    TwoParts(pkt, HEADER + |w|, e, payload + pad);
    TwoParts(pkt, HEADER + |w| + |e|, payload, pad);
  }

  lemma ExtensionLength(pkt: seq<byte>, off: nat, x: Option<(int, seq<int>)>)
    requires Sendable(Extras([], x, 0)) && x.Some?
    requires off + |Extension(x)| <= |pkt| && pkt[off..off + |Extension(x)|] == Extension(x)
    ensures FromU16(pkt, off + 2) == |x.value.1|
  {
    var e := pkt[off..off + |Extension(x)|];
    assert e[2] == U16(|x.value.1|)[0] && e[3] == U16(|x.value.1|)[1];
  }

  ghost function AfterFront(p: Packet, x: Extras): seq<byte>
    requires Sendable(x)
  {
    Words(x.csrcs) + (Extension(x.extension) + (p.payload + Padding(x.padding)))
  }

  lemma PrintedFront(p: Packet, x: Extras)
    requires Sendable(x) && Fields(p)
    ensures var pkt := Print(p, x);
            && pkt[0] == FirstByte(x.padding > 0, x.extension.Some?, |x.csrcs|) && pkt[1] == SecondByte(p.marker, p.pt)
            && FromU16(pkt, 2) == p.seqNo && FromU32(pkt, 4) == p.ts && FromU32(pkt, 8) == p.ssrc
            && pkt[HEADER..] == AfterFront(p, x)
  {
    hide Words, Extension, Padding, Front, FromU16, FromU32, FirstByte, SecondByte;
    FrontFields(FirstByte(x.padding > 0, x.extension.Some?, |x.csrcs|), SecondByte(p.marker, p.pt),
                p.seqNo, p.ts, p.ssrc, AfterFront(p, x));
  }

  function ExtensionWords(x: Extras): nat {
    if x.extension.Some? then |x.extension.value.1| else 0
  }

  function PayloadAt(x: Extras): nat {
    HEADER + 4 * |x.csrcs| + if x.extension.Some? then 4 + 4 * ExtensionWords(x) else 0
  }

  /** Where the payload, the padding and the extension's length stand. */
  lemma PrintedParts(p: Packet, x: Extras, pkt: seq<byte>)
    requires Sendable(x) && |pkt| >= HEADER && pkt[HEADER..] == AfterFront(p, x)
    ensures var start := PayloadAt(x);
            && |pkt| == start + |p.payload| + x.padding
            && (x.extension.Some? ==> FromU16(pkt, HEADER + 4 * |x.csrcs| + 2) == ExtensionWords(x))
            && pkt[start..start + |p.payload|] == p.payload
            && pkt[start + |p.payload|..] == Padding(x.padding)
  {
    hide Words, Extension, Padding, FromU16;
    var w, e, pad := Words(x.csrcs), Extension(x.extension), Padding(x.padding);
    RestParts(pkt, w, e, p.payload, pad);
    hide AfterFront;
    if x.extension.Some? {
      ExtensionLength(pkt, HEADER + |w|, x.extension);
    }
  }

  /** Unpacking undoes it, whatever is around the payload. */
  lemma UnpackPrinted(p: Packet, x: Extras)
    requires Sendable(x) && Fields(p)
    ensures Unpack(Print(p, x)) == Some(p)
  {
    hide Unpack, Print, AfterFront, Extension, Padding, FromU16, FromU32, FirstByte, SecondByte;
    PrintedFront(p, x);
    PrintedParts(p, x, Print(p, x));
    PayloadIsThere(p, Print(p, x), |x.csrcs|, x.extension.Some?, ExtensionWords(x), Padding(x.padding));
  }

  lemma PaddingEnds(pkt: seq<byte>, end: nat, pad: seq<byte>)
    requires end <= |pkt| && pkt[end..] == pad && |pad| < 256 && pad == Padding(|pad|)
    ensures |pad| > 0 ==> pkt[|pkt| - 1] == |pad|
  {
    if |pad| > 0 {
      assert pkt[end..][|pad| - 1] == pkt[|pkt| - 1];
    }
  }

  lemma PayloadIsThere(p: Packet, pkt: seq<byte>, count: nat, extended: bool, words: nat, pad: seq<byte>)
    requires |pkt| >= HEADER && |pad| < 256 && pad == Padding(|pad|) && count < 16 && Fields(p)
    requires pkt[0] == FirstByte(|pad| > 0, extended, count) && pkt[1] == SecondByte(p.marker, p.pt)
    requires FromU16(pkt, 2) == p.seqNo && FromU32(pkt, 4) == p.ts && FromU32(pkt, 8) == p.ssrc
    requires var start := HEADER + 4 * count + if extended then 4 + 4 * words else 0;
             && |pkt| == start + |p.payload| + |pad|
             && (extended ==> FromU16(pkt, HEADER + 4 * count + 2) == words)
             && pkt[start..start + |p.payload|] == p.payload
             && pkt[start + |p.payload|..] == pad
    ensures Unpack(pkt) == Some(p)
  {
    var start := HEADER + 4 * count + if extended then 4 + 4 * words else 0;
    PaddingEnds(pkt, start + |p.payload|, pad);
    assert PayloadStart(pkt) == Some(start);
  }

  /** pkt is a packet with these fields: version 2, as many CSRCs as it says, an extension of the length it says
      when it has one, the payload, and padding as long as its last byte says when it has one. */
  ghost predicate IsPacket(pkt: seq<byte>, p: Packet) {
    && |pkt| >= HEADER && pkt[0] / 64 == 2
    && p.pt == pkt[1] % 128 && (p.marker <==> pkt[1] >= 128)
    && p.seqNo == FromU16(pkt, 2) && p.ts == FromU32(pkt, 4) && p.ssrc == FromU32(pkt, 8)
    && exists c: nat, e: nat :: LaidOut(pkt, p.payload, c, e)
  }

  ghost predicate LaidOut(pkt: seq<byte>, payload: seq<byte>, c: nat, e: nat)
    requires |pkt| >= HEADER
  {
    var start := HEADER + c + e;
    var pad := if pkt[0] / 32 % 2 == 1 then pkt[|pkt| - 1] else 0;
    && c == 4 * (pkt[0] % 16)
    && (if pkt[0] / 16 % 2 == 1 then HEADER + c + 4 <= |pkt| && e == 4 + 4 * FromU16(pkt, HEADER + c + 2) else e == 0)
    && start + |payload| + pad == |pkt| && pkt[start..start + |payload|] == payload
  }

  /** Unpacking gives the packet's fields, and nothing exactly when it is not one. */
  lemma UnpackExactly(pkt: seq<byte>, p: Packet)
    ensures Unpack(pkt) == Some(p) <==> IsPacket(pkt, p)
  {
    if Unpack(pkt) == Some(p) {
      UnpacksPackets(pkt, p);
    }
    if IsPacket(pkt, p) {
      var c: nat, e: nat :| LaidOut(pkt, p.payload, c, e);
      assert PayloadStart(pkt) == Some(HEADER + c + e);
    }
  }

  lemma UnpacksPackets(pkt: seq<byte>, p: Packet)
    requires Unpack(pkt) == Some(p)
    ensures IsPacket(pkt, p)
  {
    var c: nat := 4 * (pkt[0] % 16);
    var e: nat := PayloadStart(pkt).value - HEADER - c;
    assert LaidOut(pkt, p.payload, c, e);
  }

  /** Unpacking undoes packing, up to the widths of the fields. */
  lemma UnpackPacked(seqNo: int, ts: int, ssrc: int, payload: seq<byte>, marker: bool, pt: int)
    requires 0 <= pt < 128
    ensures Unpack(Pack(seqNo, ts, ssrc, payload, marker, pt)) ==
            Some(Packet(pt, marker, seqNo % 0x1_0000, ts % 0x1_0000_0000, ssrc % 0x1_0000_0000, payload))
  {
    var p := Packet(pt, marker, seqNo % 0x1_0000, ts % 0x1_0000_0000, ssrc % 0x1_0000_0000, payload);
    UnpackPrinted(p, Extras([], None, 0));
    assert Words([]) + (Extension(None) + (payload + Padding(0))) == payload;
  }

  // ----- L16 -----

  /** l16_to_le: the bytes of each sample swapped; an odd last byte is dropped. */
  function Swapped(s: seq<byte>): (r: seq<byte>)
    ensures |r| == |s| / 2 * 2
  {
    if |s| < 2 then [] else [s[1], s[0]] + Swapped(s[2..])
  }

  /** The two bytes of each sample change places. */
  lemma {:induction false} SwappedAt(s: seq<byte>, i: nat)
    requires i < |s| / 2 * 2
    ensures Swapped(s)[i] == s[if i % 2 == 0 then i + 1 else i - 1]
    decreases |s|
  {
    if i >= 2 {
      SwappedAt(s[2..], i - 2);
    }
  }

  /** Its own inverse on whole samples. */
  lemma {:induction false} SwapTwice(s: seq<byte>)
    ensures Swapped(Swapped(s)) == s[..|s| / 2 * 2]
    decreases |s|
  {
    if |s| >= 2 {
      SwapTwice(s[2..]);
      assert Swapped(s)[2..] == Swapped(s[2..]);
      assert s[..|s| / 2 * 2] == [s[0], s[1]] + s[2..][..|s[2..]| / 2 * 2];
    }
  }

  // ----- the receiver -----

  /** RtpReceiver's fields. */
  datatype Rx = Rx(next: Option<int>, lost: nat, late: nat, packets: nat)

  const NEW_RX: Rx := Rx(None, 0, 0, 0)

  function Zeros(n: nat): (r: seq<byte>)
    ensures |r| == n
  {
    seq(n, i => 0)
  }

  /** feed: the samples to append, and whether the stream restarts with them. */
  function Step(rx: Rx, maxFill: nat, seqNo: int, marker: bool, payload: seq<byte>): (Rx, seq<byte>, bool)
    requires 0 <= seqNo < 0x1_0000
  {
    var pcm := Swapped(payload);
    var on := Rx(Some((seqNo + 1) % 0x1_0000), rx.lost, rx.late, rx.packets + 1);
    if rx.next.None? || marker then (on, pcm, true)
    else
      var d := (seqNo - rx.next.value) % 0x1_0000;
      if d == 0 then (on, pcm, false)
      else if d >= 0x8000 then (rx.(late := rx.late + 1, packets := rx.packets + 1), [], false)
      else if d <= maxFill then (on.(lost := rx.lost + d), Zeros(|pcm| * d) + pcm, false)
      else (on, pcm, true)
  }

  class RtpReceiver {
    const maxFill: nat
    var nextSeq: Option<int>
    var lost: nat
    var late: nat
    var packets: nat

    ghost function View(): Rx
      reads this
    {
      Rx(nextSeq, lost, late, packets)
    }

    constructor (maxFill: nat)
      ensures View() == NEW_RX && this.maxFill == maxFill
    {
      this.maxFill, nextSeq, lost, late, packets := maxFill, None, 0, 0, 0;
    }

    method Feed(seqNo: int, marker: bool, payload: seq<byte>) returns (pcm: seq<byte>, restart: bool)
      requires 0 <= seqNo < 0x1_0000
      modifies this
      ensures (View(), pcm, restart) == Step(old(View()), maxFill, seqNo, marker, payload)
    {
      packets := packets + 1;
      pcm, restart := Swapped(payload), true;
      if nextSeq.Some? && !marker {
        var d := (seqNo - nextSeq.value) % 0x1_0000;
        if d >= 0x8000 {
          late := late + 1;
          return [], false;
        }
        if d == 0 {
          restart := false;
        } else if d <= maxFill {
          lost := lost + d;
          pcm, restart := Zeros(|pcm| * d) + pcm, false;
        }
      }
      nextSeq := Some((seqNo + 1) % 0x1_0000);
    }
  }

  // ----- whole streams -----

  /** Packet u of the stream is sent with sequence number u % 2^16; a packet may
      come late, twice or never.  A talkspurt is what came out since the last
      restart: it began with packet `first`, packet `next` is due, and the
      `accepted` packets are in it. */
  datatype Talk = Talk(rx: Rx, first: int, next: int, accepted: set<int>, out: seq<byte>, lostBefore: nat)

  datatype Arrival = Arrival(u: int, marker: bool)

  /** The audio of packets first .. next - 1, each at its place, silence for those not accepted. */
  function Timeline(source: int -> seq<byte>, size: nat, first: int, next: int, accepted: set<int>): seq<byte>
    requires first <= next
    decreases next - first
  {
    if first == next then []
    else Timeline(source, size, first, next - 1, accepted)
         + if next - 1 in accepted then Swapped(source(next - 1)) else Zeros(size)
  }

  ghost predicate Sound(t: Talk, source: int -> seq<byte>, size: nat) {
    && t.first < t.next && t.rx.next == Some(t.next % 0x1_0000)
    && (forall u :: u in t.accepted ==> t.first <= u < t.next)
    && t.first in t.accepted && t.next - 1 in t.accepted
    && t.out == Timeline(source, size, t.first, t.next, t.accepted)
    && t.rx.lost == t.lostBefore + (t.next - t.first) - |t.accepted|
  }

  /** The reordering is less than half the sequence space. */
  predicate Near(t: Talk, a: Arrival) {
    -0x8000 <= a.u - t.next < 0x8000
  }

  /** An arrival, as the receiver takes it. */
  function Arrive(t: Talk, maxFill: nat, source: int -> seq<byte>, a: Arrival): Talk {
    var (rx, pcm, restart) := Step(t.rx, maxFill, a.u % 0x1_0000, a.marker, source(a.u));
    if restart then Talk(rx, a.u, a.u + 1, {a.u}, pcm, rx.lost)
    else if rx.late > t.rx.late then t.(rx := rx)
    else t.(rx := rx, next := a.u + 1, accepted := t.accepted + {a.u}, out := t.out + pcm)
  }

  /** The distance the receiver sees is the distance in the stream. */
  lemma SeenDistance(u: int, next: int)
    requires -0x8000 <= u - next < 0x8000
    ensures (u % 0x1_0000 - next % 0x1_0000) % 0x1_0000 == if u >= next then u - next else u - next + 0x1_0000
    ensures (u % 0x1_0000 + 1) % 0x1_0000 == (u + 1) % 0x1_0000
  {
  }

  lemma {:induction false} SilenceOnTimeline(source: int -> seq<byte>, size: nat, first: int, next: int, d: nat,
                                             accepted: set<int>)
    requires first <= next && forall u :: u in accepted ==> u < next
    ensures Timeline(source, size, first, next + d, accepted) ==
            Timeline(source, size, first, next, accepted) + Zeros(size * d)
  {
    if d == 0 {
      assert Zeros(size * 0) == [];
    } else {
      SilenceOnTimeline(source, size, first, next, d - 1, accepted);
      assert size * d == size * (d - 1) + size;
      assert Zeros(size * d) == Zeros(size * (d - 1)) + Zeros(size);
    }
  }

  lemma {:induction false} TimelineIgnoresLater(source: int -> seq<byte>, size: nat, first: int, next: int,
                                                accepted: set<int>, u: int)
    requires first <= next <= u
    ensures Timeline(source, size, first, next, accepted + {u}) == Timeline(source, size, first, next, accepted)
    decreases next - first
  {
    if first < next {
      TimelineIgnoresLater(source, size, first, next - 1, accepted, u);
    }
  }

  lemma TimelineNext(source: int -> seq<byte>, size: nat, first: int, u: int, accepted: set<int>)
    requires first <= u && u in accepted
    ensures Timeline(source, size, first, u + 1, accepted) ==
            Timeline(source, size, first, u, accepted) + Swapped(source(u))
  {
  }

  ghost predicate EqualSizes(source: int -> seq<byte>, size: nat) {
    forall u :: |Swapped(source(u))| == size
  }

  lemma SizeOf(source: int -> seq<byte>, size: nat, u: int)
    requires EqualSizes(source, size)
    ensures |Swapped(source(u))| == size
  {
  }

  /** What an arrival is, by its place in the stream. */
  lemma ArriveCases(t: Talk, maxFill: nat, source: int -> seq<byte>, a: Arrival)
    requires t.rx.next == Some(t.next % 0x1_0000) && Near(t, a)
    ensures var pcm, n := Swapped(source(a.u)), Arrive(t, maxFill, source, a);
            var on := Rx(Some((a.u + 1) % 0x1_0000), t.rx.lost, t.rx.late, t.rx.packets + 1);
            n == if a.marker || a.u > t.next + maxFill then Talk(on, a.u, a.u + 1, {a.u}, pcm, on.lost)
                 else if a.u < t.next then t.(rx := t.rx.(late := t.rx.late + 1, packets := t.rx.packets + 1))
                 else if a.u == t.next then
                   t.(rx := on, next := a.u + 1, accepted := t.accepted + {a.u}, out := t.out + pcm)
                 else t.(rx := on.(lost := on.lost + (a.u - t.next)), next := a.u + 1, accepted := t.accepted + {a.u},
                         out := t.out + (Zeros(|pcm| * (a.u - t.next)) + pcm))
  {
    SeenDistance(a.u, t.next);
  }

  lemma RestartIsSound(t: Talk, source: int -> seq<byte>, size: nat, u: int)
    requires t.first == u && t.next == u + 1 && t.accepted == {u} && t.out == Swapped(source(u))
    requires t.rx.next == Some((u + 1) % 0x1_0000) && t.rx.lost == t.lostBefore
    ensures Sound(t, source, size)
  {
    assert Timeline(source, size, u, u + 1, {u}) == Timeline(source, size, u, u, {u}) + Swapped(source(u));
  }

  /** A packet that is due, or later by at most maxFill, goes to its place. */
  lemma AcceptedIsSound(t: Talk, source: int -> seq<byte>, size: nat, u: int, n: Talk)
    requires Sound(t, source, size) && t.next <= u
    requires n.first == t.first && n.next == u + 1 && n.accepted == t.accepted + {u} && n.lostBefore == t.lostBefore
    requires n.rx.next == Some((u + 1) % 0x1_0000) && n.rx.lost == t.rx.lost + (u - t.next)
    requires n.out == t.out + (Zeros(size * (u - t.next)) + Swapped(source(u)))
    ensures Sound(n, source, size) && u !in t.accepted
  {
    hide Timeline, Swapped;
    SilenceOnTimeline(source, size, t.first, t.next, u - t.next, t.accepted);
    TimelineIgnoresLater(source, size, t.first, u, t.accepted, u);
    TimelineNext(source, size, t.first, u, t.accepted + {u});
    assert u !in t.accepted;
    assert n.out == (t.out + Zeros(size * (u - t.next))) + Swapped(source(u));
  }

  /** Every arrival keeps the talkspurt sound; between restarts the accepted
      packets strictly increase and a late one adds nothing. */
  lemma ArriveKeepsSound(t: Talk, maxFill: nat, source: int -> seq<byte>, size: nat, a: Arrival)
    requires Sound(t, source, size) && Near(t, a) && EqualSizes(source, size)
    ensures Sound(Arrive(t, maxFill, source, a), source, size)
    ensures var n := Arrive(t, maxFill, source, a);
            if a.marker || a.u > t.next + maxFill then n.first == a.u && n.accepted == {a.u}
            else if a.u < t.next then n == t.(rx := t.rx.(late := t.rx.late + 1, packets := t.rx.packets + 1))
            else n.first == t.first && n.next == a.u + 1 && n.accepted == t.accepted + {a.u} && a.u !in t.accepted
  {
    hide Arrive, Timeline, Swapped, EqualSizes, Near;
    var n := Arrive(t, maxFill, source, a);
    ArriveCases(t, maxFill, source, a);
    if a.marker || a.u > t.next + maxFill {
      RestartIsSound(n, source, size, a.u);
    } else if a.u >= t.next {
      SizeOf(source, size, a.u);
      if a.u == t.next {
        assert Zeros(size * 0) + Swapped(source(a.u)) == Swapped(source(a.u));
      }
      AcceptedIsSound(t, source, size, a.u, n);
    }
  }

  function AfterAll(t: Talk, maxFill: nat, source: int -> seq<byte>, arrivals: seq<Arrival>): Talk {
    if arrivals == [] then t
    else Arrive(AfterAll(t, maxFill, source, arrivals[..|arrivals| - 1]), maxFill, source, arrivals[|arrivals| - 1])
  }

  /** The first packet starts a talkspurt. */
  lemma FirstArrival(maxFill: nat, source: int -> seq<byte>, size: nat, a: Arrival)
    ensures var n := Arrive(Talk(NEW_RX, 0, 0, {}, [], 0), maxFill, source, a);
            Sound(n, source, size) && n.first == a.u && n.out == Swapped(source(a.u))
  {
    SeenDistance(a.u, a.u);
    RestartIsSound(Arrive(Talk(NEW_RX, 0, 0, {}, [], 0), maxFill, source, a), source, size, a.u);
  }

  /** Under any loss, duplication and reordering below half the sequence space
      every sample comes out at its place in the stream. */
  lemma {:induction false} StreamsStaySound(t: Talk, maxFill: nat, source: int -> seq<byte>, size: nat,
                                            arrivals: seq<Arrival>)
    requires Sound(t, source, size) && EqualSizes(source, size)
    requires forall i :: 0 <= i < |arrivals| ==> Near(AfterAll(t, maxFill, source, arrivals[..i]), arrivals[i])
    ensures Sound(AfterAll(t, maxFill, source, arrivals), source, size)
  {
    if arrivals != [] {
      var k := |arrivals| - 1;
      var front := arrivals[..k];
      forall i | 0 <= i < k
        ensures Near(AfterAll(t, maxFill, source, front[..i]), front[i])
      {
        assert front[..i] == arrivals[..i];
      }
      StreamsStaySound(t, maxFill, source, size, front);
      ArriveKeepsSound(AfterAll(t, maxFill, source, front), maxFill, source, size, arrivals[k]);
    }
  }

  /** Where the n-th block starts. */
  function Offset(n: nat, size: nat): nat {
    n * size
  }

  lemma OffsetNext(n: nat, size: nat)
    ensures Offset(n + 1, size) == Offset(n, size) + size
  {
  }

  lemma {:induction false} BlockFits(v: nat, last: nat, size: nat)
    requires v < last
    ensures Offset(v, size) + size <= Offset(last, size)
    decreases last
  {
    OffsetNext(last - 1, size);
    if v < last - 1 {
      BlockFits(v, last - 1, size);
    }
  }

  function BlockAt(line: seq<byte>, o: nat, size: nat): seq<byte>
    requires o + size <= |line|
  {
    line[o..o + size]
  }

  lemma StaysInFront(front: seq<byte>, block: seq<byte>, o: nat, size: nat)
    requires o + size <= |front|
    ensures BlockAt(front + block, o, size) == BlockAt(front, o, size)
  {
  }

  lemma LastBlock(front: seq<byte>, block: seq<byte>)
    ensures BlockAt(front + block, |front|, |block|) == block
  {
  }

  function Heard(source: int -> seq<byte>, size: nat, accepted: set<int>, v: int): seq<byte> {
    if v in accepted then Swapped(source(v)) else Zeros(size)
  }

  lemma OneMoreBlock(source: int -> seq<byte>, size: nat, first: int, next: int, accepted: set<int>)
    requires first < next && EqualSizes(source, size)
    ensures Timeline(source, size, first, next, accepted) ==
            Timeline(source, size, first, next - 1, accepted) + Heard(source, size, accepted, next - 1)
    ensures |Heard(source, size, accepted, next - 1)| == size
  {
    SizeOf(source, size, next - 1);
  }

  /** Packet v of a talkspurt is the block at (v - first) * size. */
  lemma {:induction false} AtItsOffset(source: int -> seq<byte>, size: nat, first: int, next: int,
                                       accepted: set<int>, v: int)
    requires first <= v < next && EqualSizes(source, size)
    ensures var line, o := Timeline(source, size, first, next, accepted), Offset(v - first, size);
            && |line| == Offset(next - first, size) && o + size <= |line|
            && BlockAt(line, o, size) == Heard(source, size, accepted, v)
    decreases next - first
  {
    hide Offset, Timeline, Swapped, EqualSizes, Zeros, Heard, BlockAt;
    var front, block := Timeline(source, size, first, next - 1, accepted), Heard(source, size, accepted, next - 1);
    OneMoreBlock(source, size, first, next, accepted);
    TimelineSize(source, size, first, next - 1, accepted);
    OffsetNext(next - 1 - first, size);
    if v < next - 1 {
      AtItsOffset(source, size, first, next - 1, accepted, v);
      BlockFits(v - first, next - 1 - first, size);
      StaysInFront(front, block, Offset(v - first, size), size);
    } else {
      LastBlock(front, block);
    }
  }

  lemma {:induction false} TimelineSize(source: int -> seq<byte>, size: nat, first: int, next: int, accepted: set<int>)
    requires first <= next && EqualSizes(source, size)
    ensures |Timeline(source, size, first, next, accepted)| == Offset(next - first, size)
    decreases next - first
  {
    if first < next {
      SizeOf(source, size, next - 1);
      TimelineSize(source, size, first, next - 1, accepted);
      OffsetNext(next - 1 - first, size);
    }
  }
}
