/** The UDP transmitter: a 12-bit packet counter and the byte layout of the packets it sends. */
module Transmitter {
  import opened Words
  import opened HeaderParser
  import opened SequenceTracker

  datatype HrzrHeader = HrzrHeader(control: Byte, sequenceNumber: Word16, totalPacketLength: Word16, sourceId: Word32)

  /** The packed structure handed to the socket; only its first totalPckLen bytes are sent. */
  datatype HrzrPacket = HrzrPacket(ctrlAndSeqNb: Word16, totalPckLen: Word16, srcId: Word32, samples: seq<Int16>)

  const MAX_COMPONENTS: nat := 732

  /** `(static_cast<uint16_t>(control) << 12) | sequence_number`; PackedBits ties it to the bit operations. */
  function Pack(control: Byte, sequenceNumber: Word16): Word16
    requires sequenceNumber < 4096
  {
    control % 0x10 * 0x1000 + sequenceNumber
  }

  lemma PackedBits(control: bv16, sequenceNumber: bv16)
    requires control < 0x100 && sequenceNumber < 4096
    ensures (control << 12) | sequenceNumber == (control % 0x10) * 0x1000 + sequenceNumber
  {
  }

  /** Had the transmitter swapped the two bytes of the packed word before storing it, the parser would recover every
      packet type and number. */
  lemma SwappedHeaderRecovered(t: PacketType, seqNb: int, rest: Word48)
    requires 0 <= seqNb < 4096
    ensures var w := StoreU16(SwapBytes(Pack(ControlCode(t), seqNb)));
      var hrzr := Hrzr(w[0], w[1], rest);
      && hrzr == NetworkHeader(ControlCode(t), seqNb, rest)
      && GetControlFromHeader(hrzr) == Known(t) && GetSequenceNumberFromHeader(hrzr) == seqNb
  {
    hide GetControlFromHeader, GetSequenceNumberFromHeader;
    var word := Pack(ControlCode(t), seqNb);
    Div100(word, 0x10 * ControlCode(t) + seqNb / 0x100, seqNb % 0x100);
    Div100(SwapBytes(word), word % 0x100, word / 0x100);
    NetworkHeaderRecovered(t, false, seqNb, rest);
  }

  /** As it is stored, unswapped and with control 0, the word is the header in host order. */
  lemma StoredHeaderIsHostHeader(seqNb: int, rest: Word48)
    requires 0 <= seqNb < 4096
    ensures var w := StoreU16(Pack(0, seqNb)); Hrzr(w[0], w[1], rest) == HostHeader(seqNb, rest)
  {
  }

  /** The bytes of a run of 16-bit components. */
  function ComponentBytes(cs: seq<Int16>): (bytes: seq<Byte>)
    ensures |bytes| == 2 * |cs|
  {
    seq(2 * |cs|, k requires 0 <= k < 2 * |cs| => StoreI16(cs[k / 2])[k % 2])
  }

  lemma ComponentLoaded(cs: seq<Int16>, k: nat)
    requires k < |cs|
    ensures LoadI16(ComponentBytes(cs), 2 * k) == cs[k]
  {
    assert (2 * k) / 2 == k && (2 * k) % 2 == 0 && (2 * k + 1) / 2 == k && (2 * k + 1) % 2 == 1;
  }

  function PacketBytes(p: HrzrPacket): (bytes: seq<Byte>)
    ensures |bytes| == 8 + 2 * |p.samples|
  {
    StoreU16(p.ctrlAndSeqNb) + StoreU16(p.totalPckLen) + StoreU32(p.srcId) + ComponentBytes(p.samples)
  }

  /** A datagram with packet number n that carries the components cs and nothing else. */
  ghost predicate Carries(w: seq<Byte>, n: nat, cs: seq<Int16>) {
    && |w| == 8 + 2 * |cs|
    && LoadU16(w, 0) == n
    && LoadU16(w, 2) == |w|
    && LoadU32(w, 4) == 0
    && forall k :: 0 <= k < |cs| ==> LoadI16(w, 8 + 2 * k) == cs[k]
  }

  lemma HeaderBytes(p: HrzrPacket, w: seq<Byte>)
    requires 8 <= |w| && w <= PacketBytes(p)
    ensures LoadU16(w, 0) == p.ctrlAndSeqNb && LoadU16(w, 2) == p.totalPckLen && LoadU32(w, 4) == p.srcId
  {
    assert w[0..2] == StoreU16(p.ctrlAndSeqNb);
    assert w[2..4] == StoreU16(p.totalPckLen);
    assert w[4..8] == StoreU32(p.srcId);
    assert LoadU16(w, 0) == LoadU16(w[0..2], 0) && LoadU16(w, 2) == LoadU16(w[2..4], 0);
    assert LoadU32(w, 4) == LoadU32(w[4..8], 0);
  }

  lemma SentComponent(p: HrzrPacket, w: seq<Byte>, k: nat)
    requires w <= PacketBytes(p) && 8 + 2 * k + 2 <= |w|
    ensures LoadI16(w, 8 + 2 * k) == p.samples[k]
  {
    hide StoreU16, StoreU32, ComponentBytes;
    ComponentLoaded(p.samples, k);
    var cs := ComponentBytes(p.samples);
    assert PacketBytes(p)[8..] == cs;
    assert w[8 + 2 * k] == cs[2 * k] && w[8 + 2 * k + 1] == cs[2 * k + 1];
  }

  lemma SentBytes(p: HrzrPacket, len: nat)
    requires len <= |p.samples| && p.srcId == 0 && p.totalPckLen == 8 + 2 * len
    ensures Carries(PacketBytes(p)[..p.totalPckLen], p.ctrlAndSeqNb, p.samples[..len])
  {
    hide PacketBytes, LoadI16, LoadU16, LoadU32;
    var w := PacketBytes(p)[..p.totalPckLen];
    HeaderBytes(p, w);
    forall k | 0 <= k < len
      ensures LoadI16(w, 8 + 2 * k) == p.samples[k]
    {
      SentComponent(p, w, k);
    }
  }

  class HrzrUdpTransmitter {
    var currentSequenceNumber: Word16
    /** The datagrams handed to the connected socket so far. */
    var sent: seq<seq<Byte>>

    /** The k-th datagram ever sent carries k modulo 4096, and so will the next one. */
    ghost predicate Valid()
      reads this
    {
      && currentSequenceNumber == |sent| % 4096
      && forall k :: 0 <= k < |sent| ==> |sent[k]| >= 8 && LoadU16(sent[k], 0) == k % 4096
    }

    constructor ()
      ensures Valid() && sent == []
    {
      currentSequenceNumber := 0;
      sent := [];
    }

    method MakeHrzrHeader(numSamples: nat) returns (header: HrzrHeader)
      requires 8 + numSamples * 4 < 0x1_0000
      ensures header == HrzrHeader(0, currentSequenceNumber, 8 + numSamples * 4, 0)
    {
      header := HrzrHeader(0, currentSequenceNumber, 8 + numSamples * 4, 0);
    }

    /** The samples sit at the front of the packet's fixed buffer; what follows them is unspecified. */
    method MakeHrzrPacket(header: HrzrHeader, payload: seq<Int16>) returns (packet: HrzrPacket)
      requires |payload| <= MAX_COMPONENTS && header.sequenceNumber < 4096
      ensures packet.ctrlAndSeqNb == Pack(header.control, header.sequenceNumber)
      ensures packet.totalPckLen == header.totalPacketLength && packet.srcId == header.sourceId
      ensures |packet.samples| == MAX_COMPONENTS && payload <= packet.samples
    {
      var buffer := new Int16[MAX_COMPONENTS];
      for i := 0 to |payload|
        invariant buffer[..i] == payload[..i]
      {
        buffer[i] := payload[i];
      }
      assert buffer[..|payload|] == payload;
      packet := HrzrPacket(Pack(header.control, header.sequenceNumber), header.totalPacketLength,
                           header.sourceId, buffer[..]);
    }

    /** Sends one datagram with the current number and every complete sample; a trailing half sample is dropped. */
    method SendPacket(samples: seq<Int16>)
      requires Valid() && |samples| <= MAX_COMPONENTS
      modifies this
      ensures Valid()
      ensures |sent| == |old(sent)| + 1 && old(sent) <= sent
      ensures Carries(sent[|sent| - 1], |old(sent)| % 4096, samples[..|samples| / 2 * 2])
    {
      hide Carries, LoadU16, PacketBytes;
      var header := MakeHrzrHeader(|samples| / 2);
      var packet := MakeHrzrPacket(header, samples);
      ghost var n := |samples| / 2 * 2;
      SentBytes(packet, n);
      assert packet.samples[..n] == samples[..n];
      var datagram := PacketBytes(packet)[..packet.totalPckLen];
      CarriesNumber(datagram, currentSequenceNumber, samples[..n]);
      CounterStep(|sent|);
      sent := sent + [datagram];
      currentSequenceNumber := currentSequenceNumber + 1;
      if currentSequenceNumber == 4096 {
        currentSequenceNumber := 0;
      }
    }
  }

  lemma CarriesNumber(w: seq<Byte>, n: nat, cs: seq<Int16>)
    requires Carries(w, n, cs)
    ensures |w| >= 8 && LoadU16(w, 0) == n
  {
  }

  lemma CounterStep(n: nat)
    ensures (n + 1) % 4096 == if n % 4096 + 1 == 4096 then 0 else n % 4096 + 1
  {
    NumberOfNext(n);
  }
}
