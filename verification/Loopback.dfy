/** From the transmitter's samples to a receiver's buffer: what arrives when the driver's own packets come back. */
module Loopback {
  import opened Words
  import opened HeaderParser
  import opened Samples
  import opened Quantisation
  import opened SequenceTracker
  import opened Transmitter
  import opened DpdkSource
  import U = UdpSource
  import D = DumpThread

  // ---------------------------------------------------------------- the wire

  /** The header fields of a frame that neither the filter nor the datagram determines. */
  datatype Envelope = Envelope(macs: seq<Byte>, ipHead: seq<Byte>, ipTail: seq<Byte>, udpSource: seq<Byte>,
                               udpTail: seq<Byte>) {
    predicate Valid() {
      |macs| == 12 && |ipHead| == 9 && |ipTail| == 10 && |udpSource| == 2 && |udpTail| == 4
    }
  }

  function BigEndian(w: Word16): (bytes: seq<Byte>)
    ensures |bytes| == 2
  {
    [w / 0x100, w % 0x100]
  }

  const ETHER_TYPE_IPV4: Word16 := 0x0800
  const PROTOCOL_UDP: Byte := 17

  /** The bytes of a datagram on the wire: Ethernet, IPv4 without options, UDP. */
  function FrameBytes(e: Envelope, port: Word16, w: seq<Byte>): (bytes: seq<Byte>)
    requires e.Valid()
    ensures |bytes| == HRZR_OFFSET + |w|
  {
    e.macs + BigEndian(ETHER_TYPE_IPV4)
    + e.ipHead + [PROTOCOL_UDP] + e.ipTail
    + e.udpSource + BigEndian(port) + e.udpTail
    + w
  }

  /** The buffer holds a frame that carries the datagram w to the port. */
  ghost predicate Delivers(m: Mbuf, w: seq<Byte>, port: Word16) {
    && m.pktLen <= DATA_ROOM
    && exists e: Envelope :: e.Valid() && m.data[..m.pktLen] == FrameBytes(e, port, w)
  }

  lemma DeliveredFields(m: Mbuf, w: seq<Byte>, port: Word16)
    requires Delivers(m, w, port)
    ensures m.pktLen == HRZR_OFFSET + |w| <= DATA_ROOM
    ensures m.data[12] == 0x08 && m.data[13] == 0x00 && m.data[23] == PROTOCOL_UDP
    ensures m.data[36] == port / 0x100 && m.data[37] == port % 0x100
    ensures m.data[HRZR_OFFSET..HRZR_OFFSET + |w|] == w
  {
    var e: Envelope :| e.Valid() && m.data[..m.pktLen] == FrameBytes(e, port, w);
    var f := m.data[..m.pktLen];
    assert m.data[12] == f[12] && m.data[13] == f[13] && m.data[23] == f[23];
    assert m.data[36] == f[36] && m.data[37] == f[37];
    assert f[HRZR_OFFSET..] == w;
  }

  lemma FrameFound(m: Mbuf, port: Word16)
    requires HRZR_OFFSET <= m.pktLen <= DATA_ROOM
    requires m.data[12] == 0x08 && m.data[13] == 0x00 && m.data[23] == PROTOCOL_UDP
    requires m.data[36] == port / 0x100 && m.data[37] == port % 0x100
    ensures Delivers(m, m.data[HRZR_OFFSET..m.pktLen], port)
  {
    var d, w := m.data, m.data[HRZR_OFFSET..m.pktLen];
    var e := Envelope(d[..12], d[14..23], d[24..34], d[34..36], d[38..42]);
    assert d[..m.pktLen] == FrameBytes(e, port, w);
  }

  /** The thread's filter passes exactly the frames that carry a full-size datagram to the stream's port. */
  lemma StreamFrameIff(m: Mbuf, port: Word16)
    ensures IsForStream(m, port) <==> exists w: seq<Byte> :: |w| == PACKET_SIZE && Delivers(m, w, port)
  {
    hide Delivers;
    if IsForStream(m, port) {
      Div100(LoadU16(m.data, 12), m.data[13], m.data[12]);
      Div100(LoadU16(m.data, 36), m.data[37], m.data[36]);
      Div100(SwapBytes(port), port % 0x100, port / 0x100);
      FrameFound(m, port);
    }
    if w: seq<Byte> :| |w| == PACKET_SIZE && Delivers(m, w, port) {
      DeliveredFields(m, w, port);
    }
  }

  /** The frame carries a datagram of 1472 bytes to the port whose first four bits are one of the given ones. */
  ghost predicate DeliversWith(m: Mbuf, port: Word16, bits: set<int>) {
    exists w: seq<Byte> :: |w| == 1472 && Delivers(m, w, port) && w[0] / 0x10 in bits
  }

  lemma DeliversWithIff(m: Mbuf, port: Word16, bits: set<int>)
    ensures DeliversWith(m, port, bits) <==> IsForStream(m, port) && m.data[HRZR_OFFSET] / 0x10 in bits
  {
    hide Delivers, IsForStream;
    StreamFrameIff(m, port);
    forall w: seq<Byte> | |w| == 1472 && Delivers(m, w, port)
      ensures w[0] == m.data[HRZR_OFFSET]
    {
      DeliveredByte(m, w, port, 0);
    }
  }

  /** What the receive thread does with any frame whatever: it rings the data packets sent to the stream's port, throws
      on an undecodable header of such a packet, and frees everything else. */
  lemma VerdictIff(m: Mbuf, port: Word16)
    ensures Classify(m, port) == Enqueue <==> DeliversWith(m, port, {0x0, 0x1, 0x2, 0x3})
    ensures Classify(m, port) == Throw <==> DeliversWith(m, port, {0x9, 0xB})
    ensures Classify(m, port) == Free <==> !DeliversWith(m, port, {0x0, 0x1, 0x2, 0x3, 0x9, 0xB})
  {
    hide DeliversWith, IsForStream, GetControlFromHeader;
    DeliversWithIff(m, port, {0x0, 0x1, 0x2, 0x3});
    DeliversWithIff(m, port, {0x9, 0xB});
    DeliversWithIff(m, port, {0x0, 0x1, 0x2, 0x3, 0x9, 0xB});
    ControlTable(HrzrOf(m));
    LoadedRest(m.data, HRZR_OFFSET);
  }

  function Zeros(n: nat): (bytes: seq<Byte>)
    ensures |bytes| == n
  {
    seq(n, _ => 0)
  }

  const PLAIN := Envelope(Zeros(12), Zeros(9), Zeros(10), Zeros(2), Zeros(4))

  /** The buffer a NIC fills with a datagram; the fields the datagram does not determine are zero. */
  function Frame(w: seq<Byte>, port: Word16, id: nat): Mbuf
    requires HRZR_OFFSET + |w| <= DATA_ROOM
  {
    Mbuf(id, FrameBytes(PLAIN, port, w) + Zeros(DATA_ROOM - HRZR_OFFSET - |w|), HRZR_OFFSET + |w|)
  }

  lemma FrameDelivers(w: seq<Byte>, port: Word16, id: nat)
    requires HRZR_OFFSET + |w| <= DATA_ROOM
    ensures Delivers(Frame(w, port, id), w, port)
  {
    hide FrameBytes;
    var m := Frame(w, port, id);
    assert PLAIN.Valid() && m.data[..m.pktLen] == FrameBytes(PLAIN, port, w);
  }

  lemma DeliveredByte(m: Mbuf, w: seq<Byte>, port: Word16, k: nat)
    requires Delivers(m, w, port) && k < |w|
    ensures HRZR_OFFSET + |w| <= DATA_ROOM && m.data[HRZR_OFFSET + k] == w[k]
  {
    DeliveredFields(m, w, port);
    assert m.data[HRZR_OFFSET..HRZR_OFFSET + |w|][k] == w[k];
  }

  lemma ComponentDelivered(m: Mbuf, w: seq<Byte>, port: Word16, n: nat, cs: seq<Int16>, k: nat)
    requires Delivers(m, w, port) && Carries(w, n, cs) && k < |cs| && k < MAX_COMPONENTS
    ensures LoadI16(PayloadOf(m), 2 * k) == cs[k]
  {
    hide Delivers;
    DeliveredByte(m, w, port, 8 + 2 * k);
    DeliveredByte(m, w, port, 8 + 2 * k + 1);
    assert LoadI16(w, 8 + 2 * k) == cs[k];
  }

  /** Every sample of a delivered packet is decoded as the components that were sent, divided by the norm. */
  lemma SampleDelivered(m: Mbuf, w: seq<Byte>, port: Word16, n: nat, cs: seq<Int16>, i: nat, norm: real)
    requires Delivers(m, w, port) && Carries(w, n, cs) && norm != 0.0
    requires i < SAMPLES_PER_PACKET && 2 * i + 1 < |cs|
    ensures SampleAt(PayloadOf(m), i, norm) == Complex(cs[2 * i] as real / norm, cs[2 * i + 1] as real / norm)
  {
    hide Delivers, Carries, LoadI16, PayloadOf;
    ComponentDelivered(m, w, port, n, cs, 2 * i);
    ComponentDelivered(m, w, port, n, cs, 2 * i + 1);
  }

  /** A frame that delivers one block of samples as some packet of a transmitter. */
  ghost predicate DeliversBlock(m: Mbuf, port: Word16, xs: seq<Complex>) {
    && |xs| == SAMPLES_PER_PACKET && AllInRange(xs)
    && exists w: seq<Byte>, n: nat :: Delivers(m, w, port) && Carries(w, n, Components(xs))
  }

  lemma BlockDelivered(m: Mbuf, port: Word16, xs: seq<Complex>, i: nat, norm: real)
    requires DeliversBlock(m, port, xs) && i < SAMPLES_PER_PACKET && norm != 0.0
    ensures SampleAt(PayloadOf(m), i, norm)
      == Complex(Trunc(xs[i].re) as real / norm, Trunc(xs[i].im) as real / norm)
  {
    hide Delivers, Carries, SampleAt, Trunc, Components, PayloadOf;
    var w: seq<Byte>, n: nat :| Delivers(m, w, port) && Carries(w, n, Components(xs));
    ComponentsAt(xs, i);
    SampleDelivered(m, w, port, n, Components(xs), i, norm);
  }

  function Flatten(blocks: seq<seq<Complex>>): seq<Complex> {
    if blocks == [] then [] else blocks[0] + Flatten(blocks[1..])
  }

  /** Every component truncated and divided by the norm. */
  function Quantised(xs: seq<Complex>, norm: real): (r: seq<Complex>)
    requires norm != 0.0
    ensures |r| == |xs|
  {
    seq(|xs|, i requires 0 <= i < |xs| => Complex(Trunc(xs[i].re) as real / norm, Trunc(xs[i].im) as real / norm))
  }

  lemma OneBlock(m: Mbuf, port: Word16, xs: seq<Complex>, norm: real)
    requires DeliversBlock(m, port, xs) && norm != 0.0
    ensures DecodeAll(Payloads([m]), norm) == Quantised(xs, norm)
  {
    hide PayloadOf, SampleAt;
    forall i | 0 <= i < SAMPLES_PER_PACKET
      ensures DecodeAll(Payloads([m]), norm)[i] == Quantised(xs, norm)[i]
    {
      BlockDelivered(m, port, xs, i, norm);
      BlockOf(0, i);
    }
  }

  /** Blocks sent one per packet and delivered in order are decoded as the sent samples, truncated and divided. */
  lemma {:induction false} LoopbackDecoded(ms: seq<Mbuf>, port: Word16, blocks: seq<seq<Complex>>, norm: real)
    requires |ms| == |blocks| && norm != 0.0
    requires forall k :: 0 <= k < |ms| ==> DeliversBlock(ms[k], port, blocks[k])
    ensures DecodeAll(Payloads(ms), norm) == Quantised(Flatten(blocks), norm)
    decreases |ms|
  {
    hide DecodeAll, DeliversBlock, Payloads;
    if ms == [] {
      NothingDecoded(norm);
    } else {
      LoopbackDecoded(ms[1..], port, blocks[1..], norm);
      AppendBurst([ms[0]], ms[1..], norm);
      OneBlock(ms[0], port, blocks[0], norm);
      assert [ms[0]] + ms[1..] == ms;
    }
  }

  predicate Integral(xs: seq<Complex>) {
    forall i :: 0 <= i < |xs| ==> IsInteger(xs[i].re) && IsInteger(xs[i].im)
  }

  predicate IsInteger(x: real) {
    x == x.Floor as real
  }

  lemma TruncExactIff(x: real)
    ensures Trunc(x) as real == x <==> IsInteger(x)
  {
    hide Trunc;
    TruncInteger(x.Floor);
    if Trunc(x) as real == x {
      assert (Trunc(x) as real).Floor == Trunc(x);
    }
  }

  lemma QuantisedIdentityIff(xs: seq<Complex>)
    ensures Quantised(xs, 1.0) == xs <==> Integral(xs)
  {
    hide Trunc, IsInteger;
    var q := Quantised(xs, 1.0);
    forall i | 0 <= i < |xs|
      ensures q[i] == xs[i] <==> IsInteger(xs[i].re) && IsInteger(xs[i].im)
    {
      assert q[i] == Complex(Trunc(xs[i].re) as real, Trunc(xs[i].im) as real);
      TruncExactIff(xs[i].re);
      TruncExactIff(xs[i].im);
    }
  }

  /** With norm 1 the round trip is the identity exactly on integer samples. */
  lemma LoopbackIdentityIff(ms: seq<Mbuf>, port: Word16, blocks: seq<seq<Complex>>)
    requires |ms| == |blocks|
    requires forall k :: 0 <= k < |ms| ==> DeliversBlock(ms[k], port, blocks[k])
    ensures DecodeAll(Payloads(ms), 1.0) == Flatten(blocks) <==> Integral(Flatten(blocks))
  {
    hide DecodeAll, DeliversBlock, Payloads, Quantised, Integral;
    LoopbackDecoded(ms, port, blocks, 1.0);
    QuantisedIdentityIff(Flatten(blocks));
  }

  // ---------------------------------------------------------------- the two receive paths on one packet

  /** The socket path points the parser at the header: its samples 2.. are the DPDK path's samples 0..363, its first
      two come from the header, and the last two samples of the packet are not delivered. */
  lemma UdpIsShiftedByTwo(m: Mbuf, w: U.Datagram, port: Word16, norm: real)
    requires Delivers(m, w, port) && |w| == PACKET_SIZE && norm != 0.0
    ensures var udp, dpdk := DecodeAll([U.UdpPayload(w)], norm), DecodeAll([PayloadOf(m)], norm);
      && udp[2..] == dpdk[..SAMPLES_PER_PACKET - 2]
      && udp[0] == Complex(LoadI16(w, 0) as real / norm, LoadI16(w, 2) as real / norm)
      && udp[1] == Complex(LoadI16(w, 4) as real / norm, LoadI16(w, 6) as real / norm)
  {
    hide SampleAt, PayloadOf, Delivers, LoadI16, U.UdpPayload;
    var udp, dpdk := DecodeAll([U.UdpPayload(w)], norm), DecodeAll([PayloadOf(m)], norm);
    HeaderSamples(w, norm);
    BlockOf(0, 0);
    BlockOf(0, 1);
    forall i | 0 <= i < SAMPLES_PER_PACKET - 2
      ensures udp[2 + i] == dpdk[i]
    {
      BlockOf(0, 2 + i);
      BlockOf(0, i);
      ShiftedSample(m, w, port, i, norm);
    }
  }

  lemma HeaderSamples(w: U.Datagram, norm: real)
    requires |w| == PACKET_SIZE && norm != 0.0
    ensures SampleAt(U.UdpPayload(w), 0, norm) == Complex(LoadI16(w, 0) as real / norm, LoadI16(w, 2) as real / norm)
    ensures SampleAt(U.UdpPayload(w), 1, norm) == Complex(LoadI16(w, 4) as real / norm, LoadI16(w, 6) as real / norm)
  {
  }

  lemma ShiftedSample(m: Mbuf, w: U.Datagram, port: Word16, i: nat, norm: real)
    requires Delivers(m, w, port) && |w| == PACKET_SIZE && norm != 0.0 && i < SAMPLES_PER_PACKET - 2
    ensures SampleAt(U.UdpPayload(w), 2 + i, norm) == SampleAt(PayloadOf(m), i, norm)
  {
    hide Delivers;
    DeliveredByte(m, w, port, 8 + 4 * i);
    DeliveredByte(m, w, port, 8 + 4 * i + 1);
    DeliveredByte(m, w, port, 8 + 4 * i + 2);
    DeliveredByte(m, w, port, 8 + 4 * i + 3);
  }

  /** How the socket path treats any datagram whatever. */
  lemma TreatIff(w: U.Datagram)
    ensures U.Treat(w).Accept? <==> |w| >= 1472 && w[0] / 0x10 in {0x0, 0x2}
    ensures U.Treat(w) == U.Throw <==> |w| >= 1472 && w[0] / 0x10 in {0x9, 0xB}
    ensures U.Treat(w).Accept? ==> U.Treat(w).payload == w[..1464]
  {
    hide GetControlFromHeader;
    if |w| >= 1472 {
      ControlTable(LoadHrzr(w, 0));
      LoadedRest(w, 0);
    }
  }

  /** What the dump thread queues of a delivered packet: the header word is the first eight bytes of the datagram, and
      every word of the payload holds two components, the first one in its lower half. */
  lemma DumpedDelivery(m: Mbuf, w: seq<Byte>, port: Word16, n: nat, cs: seq<Int16>, i: nat)
    requires Delivers(m, w, port) && Carries(w, n, cs) && i < 366 && 2 * i + 1 < |cs|
    ensures D.ItemOf(m).header == LoadHrzr(w, 0)
    ensures D.ItemOf(m).words[i] == Unsigned(cs[2 * i]) + 0x1_0000 * Unsigned(cs[2 * i + 1])
  {
    hide Delivers, Carries, D.KindOf, D.WordsOf, HrzrOf, LoadHrzr, PayloadOf, LoadI16, Unsigned;
    HeaderDelivered(m, w, port, n, cs);
    WordOfPair(PayloadOf(m), 4 * i);
    D.WordIsPayload(m, i);
    ComponentDelivered(m, w, port, n, cs, 2 * i);
    ComponentDelivered(m, w, port, n, cs, 2 * i + 1);
  }

  lemma WordOfPair(bytes: seq<Byte>, at: nat)
    requires at + 4 <= |bytes|
    ensures Unsigned(LoadI16(bytes, at)) + 0x1_0000 * Unsigned(LoadI16(bytes, at + 2)) ==
      bytes[at] as int + 0x100 * bytes[at + 1] as int + 0x1_0000 * bytes[at + 2] as int
      + 0x100_0000 * bytes[at + 3] as int
  {
    hide LoadI16, Unsigned;
    UnsignedLoaded(bytes, at);
    UnsignedLoaded(bytes, at + 2);
  }

  /** A component as the receiver's unsigned 16 bits. */
  function Unsigned(x: Int16): Word16 {
    if x < 0 then x + 0x1_0000 else x
  }

  lemma UnsignedLoaded(bytes: seq<Byte>, at: nat)
    requires at + 2 <= |bytes|
    ensures Unsigned(LoadI16(bytes, at)) == bytes[at] + 0x100 * bytes[at + 1] as int
  {
  }

  lemma HeaderDelivered(m: Mbuf, w: seq<Byte>, port: Word16, n: nat, cs: seq<Int16>)
    requires Delivers(m, w, port) && Carries(w, n, cs)
    ensures |w| >= 8 && HrzrOf(m) == LoadHrzr(w, 0)
  {
    hide Delivers;
    forall k | 0 <= k < 8
      ensures m.data[HRZR_OFFSET + k] == w[k]
    {
      DeliveredByte(m, w, port, k);
    }
    SameHeader(m.data, HRZR_OFFSET, w);
  }

  lemma SameHeader(a: seq<Byte>, at: nat, b: seq<Byte>)
    requires at + 8 <= |a| && 8 <= |b| && forall k :: 0 <= k < 8 ==> a[at + k] == b[k]
    ensures LoadHrzr(a, at) == LoadHrzr(b, 0)
  {
    hide Join;
    assert forall k :: 0 <= k < 7 ==> LoadU16(a, at + k) == LoadU16(b, k);
  }

  // ---------------------------------------------------------------- the driver's own header on the wire

  /** A frame that delivers the transmitter's full-size packet with number n. */
  ghost predicate IsOwnPacket(m: Mbuf, port: Word16, n: nat) {
    exists w: seq<Byte>, cs: seq<Int16> :: |cs| == MAX_COMPONENTS && Delivers(m, w, port) && Carries(w, n, cs)
  }

  lemma OwnHeader(m: Mbuf, port: Word16, n: nat)
    requires n < 4096 && IsOwnPacket(m, port, n)
    ensures HrzrOf(m) == HostHeader(n, HrzrOf(m).rest)
    ensures IsForStream(m, port)
  {
    hide Delivers;
    var w: seq<Byte>, cs: seq<Int16> :| |cs| == MAX_COMPONENTS && Delivers(m, w, port) && Carries(w, n, cs);
    DeliveredFields(m, w, port);
    DeliveredByte(m, w, port, 0);
    DeliveredByte(m, w, port, 1);
    Div100(n, w[1], w[0]);
  }

  /** How the receive thread reads the packet with number 256 hi + low: the low byte decides its verdict. */
  lemma OwnPacketRead(m: Mbuf, port: Word16, hi: int, low: Byte)
    requires 0 <= hi < 0x10 && IsOwnPacket(m, port, 0x100 * hi + low)
    ensures NumberOf(m) == 0x100 * (low % 0x10) + hi
    ensures Classify(m, port) == Enqueue <==> low / 0x10 in {0x0, 0x1, 0x2, 0x3}
    ensures Classify(m, port) == Throw <==> low / 0x10 in {0x9, 0xB}
  {
    hide GetControlFromHeader, HrzrOf, IsForStream, IsOwnPacket;
    OwnHeader(m, port, 0x100 * hi + low);
    Div100(0x100 * hi + low, hi, low);
    ControlTable(HrzrOf(m));
  }

  /** How the socket path treats the same packet. */
  lemma OwnDatagramTreated(w: U.Datagram, cs: seq<Int16>, hi: int, low: Byte)
    requires 0 <= hi < 0x10 && |cs| == MAX_COMPONENTS && Carries(w, 0x100 * hi + low, cs)
    ensures U.Treat(w).Accept? <==> low / 0x10 in {0x0, 0x2}
    ensures U.Treat(w) == U.Throw <==> low / 0x10 in {0x9, 0xB}
  {
    hide U.Treat;
    Div100(0x100 * hi + low, w[1], w[0]);
    Div100(0x100 * hi + low, hi, low);
    TreatIff(w);
  }

  /** The numbers the tracker sees for the transmitter's first n packets (n at most 145). */
  function OwnNumbers(n: nat): (ss: seq<int>)
    ensures |ss| == n
  {
    seq(n, k => 0x100 * (k % 0x10))
  }

  lemma {:induction false} OwnNumbersCharged(n: nat)
    requires 0 < n
    ensures TrackAll(START, OwnNumbers(n))
      == Tracker(0x100 * ((n - 1) % 0x10), n + 0x100 * (n - 1 - (n - 1) / 0x10), 0x100 * (n - 1 - (n - 1) / 0x10))
    decreases n
  {
    hide Skipped;
    assert OwnNumbers(n)[..n - 1] == OwnNumbers(n - 1);
    if n == 1 {
      FirstNumber(0);
      assert TrackAll(START, OwnNumbers(1)) == Track(START, 0);
    } else {
      OwnNumbersCharged(n - 1);
      OwnStep(n - 1);
    }
  }

  /** Every step inside a group of sixteen costs 256, the step to the next group costs nothing. */
  lemma OwnStep(k: nat)
    requires 0 < k
    ensures Skipped(0x100 * ((k - 1) % 0x10), 0x100 * (k % 0x10)) == if k % 0x10 == 0 then 0 else 0x100
    ensures k / 0x10 == (k - 1) / 0x10 + if k % 0x10 == 0 then 1 else 0
  {
    Previous(k);
  }

  lemma Previous(k: nat)
    requires 0 < k
    ensures k % 0x10 == 0 ==> (k - 1) % 0x10 == 0xF && (k - 1) / 0x10 == k / 0x10 - 1
    ensures k % 0x10 != 0 ==> (k - 1) % 0x10 == k % 0x10 - 1 && (k - 1) / 0x10 == k / 0x10
  {
    var q, r := k / 0x10, k % 0x10;
    if r == 0 {
      assert k - 1 == 0x10 * (q - 1) + 0xF;
    } else {
      assert k - 1 == 0x10 * q + (r - 1);
    }
  }

  /** A receive thread fed with the transmitter's own lossless stream from packet 0 throws on packet 144, whose header
      decodes to an invalid control field, after reporting 34560 lost packets; no run gets further. */
  lemma OwnStreamEndsThread(taken: seq<Mbuf>, port: Word16, threw: bool)
    requires ThrewAtEnd(taken, port, threw)
    requires forall k :: 0 <= k < |taken| ==> IsOwnPacket(taken[k], port, k)
    ensures |taken| <= 145 && (threw <==> |taken| == 145)
    ensures threw ==> TrackAll(START, NumbersOf(taken)) == Tracker(0, 145 + 34560, 34560)
  {
    hide Classify, NumberOf, IsOwnPacket;
    forall k | 0 <= k < |taken| && k <= 144
      ensures NumberOf(taken[k]) == 0x100 * (k % 0x10)
      ensures Classify(taken[k], port) == Throw <==> k == 144
    {
      OwnPacketRead(taken[k], port, 0, k);
    }
    if threw {
      assert Classify(taken[|taken| - 1], port) == Throw;
    }
    if |taken| >= 145 {
      assert Classify(taken[144], port) == Throw;
    }
    if |taken| == 145 {
      assert NumbersOf(taken) == OwnNumbers(145);
      OwnNumbersCharged(145);
    }
  }
}
