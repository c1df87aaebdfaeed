/** The driver against itself: what a client sends reaches a receiver's buffer; and concrete inputs on which the
    findings about the receive threads happen. */
module EndToEnd {
  import opened Words
  import opened Samples
  import opened Quantisation
  import opened SequenceTracker
  import opened Transmitter
  import opened DpdkSource
  import opened Loopback
  import Client = IqClient
  import opened MbufSystem
  import opened MbufHistory

  // ---------------------------------------------------------------- from sample blocks to received samples

  predicate Sendable(blocks: seq<seq<Complex>>) {
    forall k :: 0 <= k < |blocks| ==> |blocks[k]| == SAMPLES_PER_PACKET && AllInRange(blocks[k])
  }

  /** A datagram that carries a block of samples and has number n. */
  ghost predicate CarriesBlock(w: seq<Byte>, xs: seq<Complex>, n: nat) {
    |xs| == SAMPLES_PER_PACKET && AllInRange(xs) && Carries(w, n, Components(xs))
  }

  /** Datagrams that carry the blocks one by one, numbered on from the given count of earlier ones. */
  ghost predicate CarriesBlocks(ws: seq<seq<Byte>>, blocks: seq<seq<Complex>>, earlier: nat) {
    && |ws| == |blocks|
    && forall k :: 0 <= k < |ws| ==> CarriesBlock(ws[k], blocks[k], (earlier + k) % 4096)
  }

  /** The sender's loop: one block per call. */
  method SendAll(client: Client.IqClient, blocks: seq<seq<Complex>>)
    requires client.hrzrUdpTransmitter.Valid() && Sendable(blocks)
    modifies client.hrzrUdpTransmitter
    ensures client.hrzrUdpTransmitter.Valid()
    ensures old(client.hrzrUdpTransmitter.sent) <= client.hrzrUdpTransmitter.sent
    ensures var before := |old(client.hrzrUdpTransmitter.sent)|;
      CarriesBlocks(client.hrzrUdpTransmitter.sent[before..], blocks, before)
  {
    hide AllInRange, Carries, Components, HrzrUdpTransmitter.Valid;
    var transmitter := client.hrzrUdpTransmitter;
    ghost var before, ws := transmitter.sent, [];
    for k := 0 to |blocks|
      invariant transmitter.Valid()
      invariant transmitter.sent == before + ws && |ws| == k
      invariant CarriesBlocks(ws, blocks[..k], |before|)
    {
      var samples := new Complex[SAMPLES_PER_PACKET](i requires 0 <= i < SAMPLES_PER_PACKET => blocks[k][i]);
      assert samples[..SAMPLES_PER_PACKET] == blocks[k];
      client.SendPayload(samples, SAMPLES_PER_PACKET);
      ws := ws + [transmitter.sent[|transmitter.sent| - 1]];
    }
    assert blocks[..|blocks|] == blocks;
  }

  /** The buffers the network fills: the datagrams at the given positions of what was sent, in that order. */
  function Framed(ws: seq<seq<Byte>>, delivered: seq<nat>, port: Word16): (ms: seq<Mbuf>)
    requires forall k :: 0 <= k < |ws| ==> |ws[k]| == PACKET_SIZE
    requires forall k :: 0 <= k < |delivered| ==> delivered[k] < |ws|
    ensures |ms| == |delivered|
    ensures forall k :: 0 <= k < |ms| ==> ms[k] == Frame(ws[delivered[k]], port, k)
  {
    seq(|delivered|, k requires 0 <= k < |delivered| => Frame(ws[delivered[k]], port, k))
  }

  function BlocksAt(blocks: seq<seq<Complex>>, delivered: seq<nat>): (r: seq<seq<Complex>>)
    requires forall k :: 0 <= k < |delivered| ==> delivered[k] < |blocks|
    ensures |r| == |delivered|
    ensures forall k :: 0 <= k < |r| ==> r[k] == blocks[delivered[k]]
  {
    seq(|delivered|, k requires 0 <= k < |delivered| => blocks[delivered[k]])
  }

  lemma BlockFramed(w: seq<Byte>, xs: seq<Complex>, n: nat, port: Word16, id: nat)
    requires CarriesBlock(w, xs, n)
    ensures |w| == PACKET_SIZE && DeliversBlock(Frame(w, port, id), port, xs)
  {
    assert |w| == PACKET_SIZE;
    hide Delivers, Carries, Components, AllInRange, Frame;
    FrameDelivers(w, port, id);
  }

  /** Blocks are sent; the network delivers some of the datagrams, in any order; a receiver drains the queue with any
      requests. What it gets is what was sent in the delivered packets it has consumed, truncated and divided by the
      norm. */
  method SendAndReceive(client: Client.IqClient, source: DpdkSource, numStream: nat,
                        blocks: seq<seq<Complex>>, delivered: seq<nat>, requests: seq<nat>, ready: seq<nat>)
    returns (received: seq<Complex>, ghost consumed: nat)
    requires client.hrzrUdpTransmitter.Valid() && Sendable(blocks)
    requires forall k :: 0 <= k < |delivered| ==> delivered[k] < |blocks|
    requires numStream < |source.streams| && source.parser.Valid() && |ready| == |requests|
    modifies client.hrzrUdpTransmitter, source.streams[numStream]
    ensures consumed + |source.streams[numStream].rxQueue| == |delivered|
    ensures AllReady(ready, |delivered|) && |requests| >= |delivered| ==> consumed == |delivered|
    ensures received == Quantised(Flatten(BlocksAt(blocks, delivered[..consumed])), source.parser.norm)
    ensures delivered == Consecutive(0, |blocks|) && consumed == |delivered| ==>
      && received == Quantised(Flatten(blocks), source.parser.norm)
      && (source.parser.norm == 1.0 ==> (received == Flatten(blocks) <==> Integral(Flatten(blocks))))
  {
    hide CarriesBlock, Sendable, Framed, BlocksAt, DeliversBlock, Frame;
    hide DecodeAll, Payloads, Flatten, Quantised, Integral, Ids;
    var stream := source.streams[numStream];
    var before := |client.hrzrUdpTransmitter.sent|;
    SendAll(client, blocks);
    var ws := client.hrzrUdpTransmitter.sent[before..];
    forall k | 0 <= k < |ws|
      ensures |ws[k]| == PACKET_SIZE
    {
      BlockFramed(ws[k], blocks[k], (before + k) % 4096, 0, 0);
    }
    stream.rxQueue := Framed(ws, delivered, stream.udpRxPort);
    ghost var queue, bs := stream.rxQueue, BlocksAt(blocks, delivered);
    ghost var taken;
    received, taken := source.ReceiveAll(numStream, requests, ready);
    consumed := |taken|;
    forall k | 0 <= k < consumed
      ensures DeliversBlock(taken[k], stream.udpRxPort, bs[..consumed][k])
    {
      assert taken[k] == queue[k];
      BlockFramed(ws[delivered[k]], blocks[delivered[k]], (before + delivered[k]) % 4096, stream.udpRxPort, k);
    }
    LoopbackDecoded(taken, stream.udpRxPort, bs[..consumed], source.parser.norm);
    assert BlocksAt(blocks, delivered[..consumed]) == bs[..consumed];
    assert consumed == |delivered| ==> delivered[..consumed] == delivered;
    assert delivered == Consecutive(0, |blocks|) ==> bs == blocks;
    QuantisedIdentityIff(Flatten(blocks));
  }

  // ---------------------------------------------------------------- the findings happen

  /** Every number of the transmitter has its frame. */
  lemma OwnFrame(port: Word16, n: nat) returns (m: Mbuf)
    requires n < 4096
    ensures IsOwnPacket(m, port, n)
  {
    hide Delivers, Carries, PacketBytes, Frame;
    var p := HrzrPacket(Pack(0, n), PACKET_SIZE, 0, seq(MAX_COMPONENTS, _ => 0));
    var w := PacketBytes(p)[..PACKET_SIZE];
    SentBytes(p, MAX_COMPONENTS);
    m := Frame(w, port, n);
    FrameDelivers(w, port, n);
  }

  /** The frames of the transmitter's first n packets. */
  lemma {:induction false} OwnStream(port: Word16, n: nat) returns (ms: seq<Mbuf>)
    requires n <= 4096
    ensures |ms| == n && forall k :: 0 <= k < n ==> IsOwnPacket(ms[k], port, k)
  {
    hide IsOwnPacket;
    if n == 0 {
      ms := [];
    } else {
      var pre := OwnStream(port, n - 1);
      var m := OwnFrame(port, n - 1);
      ms := pre + [m];
    }
  }

  /** 145 of them are a run of the receive thread, which ends with the exception and 34560 reported lost. */
  lemma OwnStreamThrows(port: Word16) returns (ms: seq<Mbuf>)
    ensures |ms| == 145 && ThrewAtEnd(ms, port, true)
    ensures forall k :: 0 <= k < |ms| ==> IsOwnPacket(ms[k], port, k)
    ensures TrackAll(START, NumbersOf(ms)) == Tracker(0, 145 + 34560, 34560)
  {
    hide Classify, NumbersOf, IsOwnPacket, TrackAll;
    ms := OwnStream(port, 145);
    forall k | 0 <= k < 145
      ensures Classify(ms[k], port) == Throw <==> k == 144
    {
      OwnPacketRead(ms[k], port, 0, k);
    }
    OwnStreamEndsThread(ms, port, true);
  }

  /** The thread accepts the transmitter's packet 0 and throws on packet 144. */
  lemma OwnVerdicts(port: Word16) returns (good: Mbuf, bad: Mbuf)
    ensures Classify(good, port) == Enqueue && Classify(bad, port) == Throw
  {
    hide Classify, IsOwnPacket;
    good := OwnFrame(port, 0);
    bad := OwnFrame(port, 144);
    OwnPacketRead(good, port, 0, 0);
    OwnPacketRead(bad, port, 0, 0x90);
  }

  /** Every stream has a run in which the program goes on and no step changes anything any more, and, unless its pool
      is empty, one in which the receive thread ends the program. */
  lemma StandstillsHappen(c: Config)
    ensures exists steps :: !Run(c, steps).ended && forall step :: Do(c, Run(c, steps), step) == Run(c, steps)
    ensures c.poolSize > 0 ==> exists steps :: Run(c, steps).ended
  {
    hide Run, Do, Classify, Select;
    var good, bad := OwnVerdicts(c.port);
    StandstillReachable(c, good, c.poolSize);
    StandsStillIff(c, Rounds(good, c.poolSize));
    if c.poolSize > 0 {
      RoundThrows(c, bad);
    }
  }
}
