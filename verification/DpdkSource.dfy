/** The DPDK receive side: the polling thread that counts, filters and rings packets, and the caller that drains
    the same receive queue for samples. */
module DpdkSource {
  import opened Words
  import opened HeaderParser
  import opened Samples
  import opened SequenceTracker

  const BURST_SIZE: nat := 32
  const HRZR_OFFSET: nat := 42
  const ALL_HEADERS: nat := 50
  const DATA_ROOM: nat := 2048

  type DataRoom = d: seq<Byte> | |d| == DATA_ROOM witness seq(2048, _ => 0)

  /** A packet buffer of the pool: its identity, its bytes, and the length of the frame the NIC put there. */
  datatype Mbuf = Mbuf(id: nat, data: DataRoom, pktLen: nat)

  function HrzrOf(m: Mbuf): Hrzr {
    LoadHrzr(m.data, HRZR_OFFSET)
  }

  function PayloadOf(m: Mbuf): Payload {
    m.data[ALL_HEADERS..ALL_HEADERS + PAYLOAD_SIZE]
  }

  function NumberOf(m: Mbuf): Word16 {
    GetSequenceNumberFromHeader(HrzrOf(m))
  }

  function Payloads(ms: seq<Mbuf>): (ps: seq<Payload>)
    ensures |ps| == |ms|
  {
    seq(|ms|, i requires 0 <= i < |ms| => PayloadOf(ms[i]))
  }

  function Ids(ms: seq<Mbuf>): (ids: seq<nat>)
    ensures |ids| == |ms|
  {
    seq(|ms|, i requires 0 <= i < |ms| => ms[i].id)
  }

  function NumbersOf(ms: seq<Mbuf>): (ss: seq<int>)
    ensures |ss| == |ms|
  {
    seq(|ms|, i requires 0 <= i < |ms| => NumberOf(ms[i]))
  }

  predicate IsValidPacketType(t: PacketType) {
    t == Data || t == DataEndOfBurst
  }

  datatype Verdict = Enqueue | Free | Throw

  /** Addressed to the stream: UDP over IPv4, the stream's port, a full-size frame. */
  predicate IsForStream(m: Mbuf, port: Word16) {
    && m.data[23] == 17
    && LoadU16(m.data, 12) == SwapBytes(0x0800)
    && LoadU16(m.data, 36) == SwapBytes(port)
    && m.pktLen == PAYLOAD_SIZE + ALL_HEADERS
  }

  /** What the receive thread does with a packet; the header is parsed only for packets of the stream. */
  function Classify(m: Mbuf, port: Word16): Verdict {
    if !IsForStream(m, port) then Free
    else
      match GetControlFromHeader(HrzrOf(m))
      case Known(t) => if IsValidPacketType(t) then Enqueue else Free
      case InvalidHrzrHeader => Throw
  }

  function Select(ms: seq<Mbuf>, port: Word16, v: Verdict): seq<Mbuf>
    decreases |ms|
  {
    if ms == [] then []
    else
      var n := |ms| - 1;
      if Classify(ms[n], port) == v then Select(ms[..n], port, v) + [ms[n]] else Select(ms[..n], port, v)
  }

  lemma SelectSnoc(ms: seq<Mbuf>, m: Mbuf, port: Word16, v: Verdict)
    ensures Select(ms + [m], port, v) ==
      if Classify(m, port) == v then Select(ms, port, v) + [m] else Select(ms, port, v)
  {
    assert (ms + [m])[..|ms|] == ms;
  }

  /** How many of the accepted packets a ring with the given room takes. */
  function Fitting(room: nat, accepted: seq<Mbuf>): (n: nat)
    ensures n <= |accepted|
  {
    if |accepted| <= room then |accepted| else room
  }

  /** The largest burst `rte_eth_rx_burst` can return to GetSamples with the given number of packets waiting. */
  function LargestBurst(waiting: nat, numberOfSamples: nat): nat {
    var limit := numberOfSamples / SAMPLES_PER_PACKET + 1;
    if waiting < limit then waiting else limit
  }

  /** A buffer of numberOfSamples cells holds whatever a call may deliver exactly when so few packets are waiting. */
  lemma DocumentedBufferSufficesIff(waiting: nat, numberOfSamples: nat)
    ensures SAMPLES_PER_PACKET * LargestBurst(waiting, numberOfSamples) <= numberOfSamples
      <==> waiting <= numberOfSamples / SAMPLES_PER_PACKET
  {
  }

  /** At every poll at least n packets are ready. */
  predicate AllReady(ready: seq<nat>, n: nat) {
    forall k :: 0 <= k < |ready| ==> ready[k] >= n
  }

  function Sum(ns: seq<nat>): nat
    decreases |ns|
  {
    if ns == [] then 0 else Sum(ns[..|ns| - 1]) + ns[|ns| - 1]
  }

  lemma SumNone(ns: seq<nat>)
    ensures Sum(ns[..0]) == 0
  {
  }

  lemma SumSnoc(ns: seq<nat>, n: nat)
    requires n < |ns|
    ensures Sum(ns[..n + 1]) == Sum(ns[..n]) + ns[n]
  {
    assert ns[..n + 1][..n] == ns[..n];
  }

  class Stream {
    const udpRxPort: Word16
    const ringCapacity: nat
    /** Filled frames waiting on the selected queue of the port. */
    var rxQueue: seq<Mbuf>
    var ring: seq<Mbuf>
    /** The buffers handed back to the pool, in order. */
    var freed: seq<nat>
    /** Buffers that were accepted while the ring was full: nobody holds them any more. */
    ghost var leaked: seq<Mbuf>

    constructor (port: Word16, ringCapacity: nat)
      ensures udpRxPort == port && this.ringCapacity == ringCapacity
      ensures rxQueue == [] && ring == [] && freed == [] && leaked == []
    {
      udpRxPort, this.ringCapacity := port, ringCapacity;
      rxQueue, ring, freed, leaked := [], [], [], [];
    }

    /** `rte_eth_rx_burst`: of the waiting packets the NIC has made `ready` many available, and at most `limit` are
        taken, from the front. */
    method RxBurst(limit: nat, ready: nat) returns (mbufs: seq<Mbuf>)
      modifies `rxQueue
      ensures old(rxQueue) == mbufs + rxQueue
      ensures |mbufs| <= limit && |mbufs| <= ready
      ensures |mbufs| == limit || |mbufs| == ready || rxQueue == []
      ensures ready >= |old(rxQueue)| ==> |mbufs| == limit || rxQueue == []
    {
      var n := if limit <= ready then limit else ready;
      n := if n <= |rxQueue| then n else |rxQueue|;
      mbufs := rxQueue[..n];
      rxQueue := rxQueue[n..];
    }

    /** `rte_ring_enqueue`: refused without effect when the ring is full. */
    method RingEnqueue(m: Mbuf) returns (ok: bool)
      modifies `ring
      ensures ok <==> |old(ring)| < ringCapacity
      ensures ring == if ok then old(ring) + [m] else old(ring)
    {
      ok := |ring| < ringCapacity;
      if ok {
        ring := ring + [m];
      }
    }

    /** `rte_pktmbuf_free`. */
    method PktmbufFree(m: Mbuf)
      modifies `freed
      ensures freed == old(freed) + [m.id]
    {
      freed := freed + [m.id];
    }
  }

  class DpdkSource {
    const parser: HrzrParser
    const streams: seq<Stream>
    var quit: bool
    var totalPackets: int
    var totalPacketsLost: int

    constructor (parser: HrzrParser, streams: seq<Stream>)
      requires parser.Valid()
      ensures this.parser == parser && this.streams == streams
      ensures !quit && totalPackets == 0 && totalPacketsLost == 0
    {
      this.parser, this.streams := parser, streams;
      quit, totalPackets, totalPacketsLost := false, 0, 0;
    }

    /** Takes a prefix of the receive queue, fills the front of the buffer with exactly its flat decode, frees
        exactly those packets in order. The count stays within the request whenever no more packets are waiting than
        the request covers; MbufHistory.OverDeliveryIff shows that otherwise it need not. It stays at or below the
        request only where no more packets are ready. */
    method GetSamples(numStream: nat, numberOfSamples: nat, samples: array<Complex>, ready: nat)
      returns (count: nat, ghost taken: seq<Mbuf>)
      requires numStream < |streams| && parser.Valid()
      requires SAMPLES_PER_PACKET * LargestBurst(|streams[numStream].rxQueue|, numberOfSamples) <= samples.Length
      modifies streams[numStream], samples
      ensures old(streams[numStream].rxQueue) == taken + streams[numStream].rxQueue
      ensures streams[numStream].freed == old(streams[numStream].freed) + Ids(taken)
      ensures streams[numStream].ring == old(streams[numStream].ring)
      ensures streams[numStream].leaked == old(streams[numStream].leaked)
      ensures count == SAMPLES_PER_PACKET * |taken| <= numberOfSamples + SAMPLES_PER_PACKET
      ensures count <= samples.Length
      ensures |old(streams[numStream].rxQueue)| <= numberOfSamples / SAMPLES_PER_PACKET ==> count <= numberOfSamples
      ensures |taken| <= ready
      ensures count > numberOfSamples || |taken| == ready || streams[numStream].rxQueue == []
      ensures samples[..count] == DecodeAll(Payloads(taken), parser.norm)
      ensures samples[count..] == old(samples[count..])
    {
      hide DecodeAll, Payloads, Ids, PayloadOf;
      NothingDecoded(parser.norm);
      var stream := streams[numStream];
      var packetsToDequeue := numberOfSamples / SAMPLES_PER_PACKET + 1;
      count := 0;
      var mbufs := stream.RxBurst(packetsToDequeue, ready);
      for packetIdx := 0 to |mbufs|
        invariant count == SAMPLES_PER_PACKET * packetIdx
        invariant old(stream.rxQueue) == mbufs + stream.rxQueue
        invariant stream.ring == old(stream.ring) && stream.leaked == old(stream.leaked)
        invariant stream.freed == old(stream.freed) + Ids(mbufs[..packetIdx])
        invariant samples[..count] == DecodeAll(Payloads(mbufs[..packetIdx]), parser.norm)
        invariant samples[count..] == old(samples[count..])
      {
        var payload := PayloadOf(mbufs[packetIdx]);
        var received := parser.ParsePayloadSamples(packetIdx, payload, samples);
        stream.PktmbufFree(mbufs[packetIdx]);
        Snoc(mbufs, packetIdx);
        DecodeAllConcat(Payloads(mbufs[..packetIdx]), [payload], parser.norm);
        count := count + received;
      }
      assert mbufs[..|mbufs|] == mbufs;
      taken := mbufs;
    }

    /** The caller's loop: repeated requests, the delivered samples appended. However the requests and the bursts
        cut the queue, the result is the flat decode of the consumed packets. When every waiting packet is ready, every
        request is more than filled until the queue is empty. */
    method ReceiveAll(numStream: nat, requests: seq<nat>, ready: seq<nat>)
      returns (received: seq<Complex>, ghost taken: seq<Mbuf>)
      requires numStream < |streams| && parser.Valid() && |ready| == |requests|
      modifies streams[numStream]
      ensures old(streams[numStream].rxQueue) == taken + streams[numStream].rxQueue
      ensures streams[numStream].freed == old(streams[numStream].freed) + Ids(taken)
      ensures received == DecodeAll(Payloads(taken), parser.norm)
      ensures AllReady(ready, |old(streams[numStream].rxQueue)|) ==>
        |received| >= Sum(requests) + |requests| || streams[numStream].rxQueue == []
      ensures AllReady(ready, |old(streams[numStream].rxQueue)|) && |requests| >= |old(streams[numStream].rxQueue)| ==>
        streams[numStream].rxQueue == []
    {
      hide DecodeAll, Payloads, Ids, Sum;
      var stream := streams[numStream];
      received, taken := [], [];
      NothingDecoded(parser.norm);
      SumNone(requests);
      for r := 0 to |requests|
        invariant old(stream.rxQueue) == taken + stream.rxQueue
        invariant stream.freed == old(stream.freed) + Ids(taken)
        invariant received == DecodeAll(Payloads(taken), parser.norm)
        invariant AllReady(ready, |old(stream.rxQueue)|) ==>
          (|received| >= Sum(requests[..r]) + r && |taken| >= r) || stream.rxQueue == []
      {
        var buffer := new Complex[SAMPLES_PER_PACKET * (requests[r] / SAMPLES_PER_PACKET + 1)](_ => Complex(0.0, 0.0));
        ghost var burst;
        var count;
        count, burst := GetSamples(numStream, requests[r], buffer, ready[r]);
        received := received + buffer[..count];
        SumSnoc(requests, r);
        AppendBurst(taken, burst, parser.norm);
        taken := taken + burst;
      }
      assert requests[..|requests|] == requests;
    }

    /** What the receive thread of a stream updates: the tracker with the two totals, and the stream's holdings. */
    ghost function StateOf(stream: Stream, seqNb: int): RxState
      reads this, stream
    {
      RxState(Tracker(seqNb, totalPackets, totalPacketsLost), Holdings(stream.ring, stream.leaked, stream.freed))
    }

    /** Counts one packet in the totals and reports its number. */
    method CountPacket(m: Mbuf, seqNb: int) returns (next: int)
      modifies `totalPackets, `totalPacketsLost
      ensures Tracker(next, totalPackets, totalPacketsLost)
        == Track(Tracker(seqNb, old(totalPackets), old(totalPacketsLost)), NumberOf(m))
    {
      var prevSeq := seqNb;
      next := NumberOf(m);
      totalPackets := totalPackets + 1;
      if next != prevSeq + 1 && prevSeq != 4095 && next != 0 {
        totalPacketsLost := totalPacketsLost + Abs(next - prevSeq);
        totalPackets := totalPackets + Abs(next - prevSeq);
      }
    }

    /** The thread's loop body: count the packet, then ring it, free it, or throw. */
    method ReceivePacket(stream: Stream, m: Mbuf, seqNb: int) returns (next: int, threw: bool)
      modifies this, stream
      ensures StateOf(stream, next) == Receive(stream.udpRxPort, stream.ringCapacity, old(StateOf(stream, seqNb)), m)
      ensures threw <==> Classify(m, stream.udpRxPort) == Throw
      ensures stream.rxQueue == old(stream.rxQueue) && quit == old(quit)
    {
      next := CountPacket(m, seqNb);
      threw := false;
      match Classify(m, stream.udpRxPort) {
        case Enqueue =>
          var ok := stream.RingEnqueue(m);
          stream.leaked := if ok then stream.leaked else stream.leaked + [m];
        case Free =>
          stream.PktmbufFree(m);
        case Throw =>
          threw := true;
      }
    }

    /** The inner loop over one burst, left early by an exception. */
    method ReceiveBurst(stream: Stream, mbufs: seq<Mbuf>, seqNb: int)
      returns (next: int, threw: bool, ghost taken: seq<Mbuf>)
      modifies this, stream
      ensures taken <= mbufs && (!threw ==> taken == mbufs)
      ensures ThrewAtEnd(taken, stream.udpRxPort, threw)
      ensures StateOf(stream, next)
        == ReceiveRun(stream.udpRxPort, stream.ringCapacity, old(StateOf(stream, seqNb)), taken)
      ensures stream.rxQueue == old(stream.rxQueue) && quit == old(quit)
    {
      hide Classify, Track, Dispose;
      next, threw, taken := seqNb, false, [];
      for j := 0 to |mbufs|
        invariant taken == mbufs[..j]
        invariant ThrewAtEnd(taken, stream.udpRxPort, false)
        invariant StateOf(stream, next)
          == ReceiveRun(stream.udpRxPort, stream.ringCapacity, old(StateOf(stream, seqNb)), taken)
        invariant stream.rxQueue == old(stream.rxQueue) && quit == old(quit)
      {
        next, threw := ReceivePacket(stream, mbufs[j], next);
        taken := mbufs[..j + 1];
        assert taken[..j] == mbufs[..j];
        if threw {
          return;
        }
      }
    }

    /** The polling thread, stopped by `quit` or when the given polls are over. Every packet taken is counted by the
        tracker; accepted packets fill the ring in order until it is full and leak after that; all others are freed.
        An undecodable header on a packet of the stream ends the thread with an exception; the rest of that burst,
        already polled, is abandoned. */
    method RXThread(numStream: nat, ready: seq<nat>)
      returns (threw: bool, ghost taken: seq<Mbuf>, ghost abandoned: seq<Mbuf>)
      requires numStream < |streams|
      requires |streams[numStream].ring| <= streams[numStream].ringCapacity
      modifies this, streams[numStream]
      ensures old(streams[numStream].rxQueue) == taken + abandoned + streams[numStream].rxQueue
      ensures |abandoned| < BURST_SIZE && (!threw ==> abandoned == [])
      ensures |taken| + |abandoned| <= 32 * |ready| && quit == old(quit) && (quit ==> taken == [])
      ensures !threw && !quit && AllReady(ready, |old(streams[numStream].rxQueue)|) ==>
        |taken| == 32 * |ready| || streams[numStream].rxQueue == []
      ensures ThrewAtEnd(taken, streams[numStream].udpRxPort, threw)
      ensures var accepted := Select(taken, streams[numStream].udpRxPort, Enqueue);
        var n := Fitting(streams[numStream].ringCapacity - |old(streams[numStream].ring)|, accepted);
        && streams[numStream].ring == old(streams[numStream].ring) + accepted[..n]
        && streams[numStream].leaked == old(streams[numStream].leaked) + accepted[n..]
      ensures streams[numStream].freed
        == old(streams[numStream].freed) + Ids(Select(taken, streams[numStream].udpRxPort, Free))
      ensures var t := TrackAll(Tracker(0, old(totalPackets), old(totalPacketsLost)), NumbersOf(taken));
        totalPackets == t.totalPackets && totalPacketsLost == t.totalPacketsLost
    {
      hide Receive, ReceiveRun, TrackAll, Select, Classify;
      var stream := streams[numStream];
      var seqNb := 0;
      var p := 0;
      threw, taken, abandoned := false, [], [];
      ghost var port, capacity, start := stream.udpRxPort, stream.ringCapacity, StateOf(stream, 0);
      ReceiveRunNone(port, capacity, start);
      while p < |ready| && !quit
        invariant old(stream.rxQueue) == taken + stream.rxQueue && abandoned == []
        invariant ThrewAtEnd(taken, port, false)
        invariant StateOf(stream, seqNb) == ReceiveRun(port, capacity, start, taken)
        invariant !threw && p <= |ready| && quit == old(quit) && (quit ==> taken == [])
        invariant |taken| <= 32 * p
        invariant AllReady(ready, |old(stream.rxQueue)|) ==> |taken| == 32 * p || stream.rxQueue == []
        decreases |ready| - p
      {
        var mbufs := stream.RxBurst(BURST_SIZE, ready[p]);
        ghost var burst;
        seqNb, threw, burst := ReceiveBurst(stream, mbufs, seqNb);
        ReceiveRunConcat(port, capacity, start, taken, burst);
        assert taken + mbufs == taken + burst + mbufs[|burst|..];
        taken, abandoned := taken + burst, mbufs[|burst|..];
        if threw {
          break;
        }
        p := p + 1;
      }
      ReceiveRunMeans(port, capacity, start, taken);
    }
  }

  /** What a stream holds: its ring, the leaked buffers, the ids handed back. */
  datatype Holdings = Holdings(ring: seq<Mbuf>, leaked: seq<Mbuf>, freed: seq<nat>)

  /** Where the packets a thread has taken went, given the holdings when it started. */
  ghost function Disposed(port: Word16, capacity: nat, start: Holdings, taken: seq<Mbuf>): Holdings
    requires |start.ring| <= capacity
  {
    var accepted := Select(taken, port, Enqueue);
    var n := Fitting(capacity - |start.ring|, accepted);
    Holdings(start.ring + accepted[..n], start.leaked + accepted[n..], start.freed + Ids(Select(taken, port, Free)))
  }

  /** Where one packet goes. */
  function Dispose(port: Word16, capacity: nat, h: Holdings, m: Mbuf): Holdings {
    match Classify(m, port)
    case Enqueue => if |h.ring| < capacity then h.(ring := h.ring + [m]) else h.(leaked := h.leaked + [m])
    case Free => h.(freed := h.freed + [m.id])
    case Throw => h
  }

  datatype RxState = RxState(tracker: Tracker, holdings: Holdings)

  function Receive(port: Word16, capacity: nat, st: RxState, m: Mbuf): RxState {
    RxState(Track(st.tracker, NumberOf(m)), Dispose(port, capacity, st.holdings, m))
  }

  function ReceiveRun(port: Word16, capacity: nat, st: RxState, ms: seq<Mbuf>): RxState
    decreases |ms|
  {
    if ms == [] then st
    else Receive(port, capacity, ReceiveRun(port, capacity, st, ms[..|ms| - 1]), ms[|ms| - 1])
  }

  /** The taken packets are decodable where the thread looks, except the one that made it throw. */
  ghost predicate ThrewAtEnd(taken: seq<Mbuf>, port: Word16, threw: bool) {
    && (threw ==> taken != [])
    && forall k :: 0 <= k < |taken| ==> (Classify(taken[k], port) == Throw <==> threw && k == |taken| - 1)
  }

  lemma ReceiveRunNone(port: Word16, capacity: nat, st: RxState)
    ensures ReceiveRun(port, capacity, st, []) == st
  {
  }

  lemma {:induction false} ReceiveRunConcat(port: Word16, capacity: nat, st: RxState, a: seq<Mbuf>, b: seq<Mbuf>)
    ensures ReceiveRun(port, capacity, st, a + b)
      == ReceiveRun(port, capacity, ReceiveRun(port, capacity, st, a), b)
    decreases |b|
  {
    hide Receive;
    if b == [] {
      assert a + b == a;
    } else {
      var n := |b| - 1;
      ReceiveRunConcat(port, capacity, st, a, b[..n]);
      assert (a + b)[..|a| + n] == a + b[..n];
    }
  }

  lemma {:induction false} ReceiveRunMeans(port: Word16, capacity: nat, st: RxState, ms: seq<Mbuf>)
    requires |st.holdings.ring| <= capacity
    ensures ReceiveRun(port, capacity, st, ms)
      == RxState(TrackAll(st.tracker, NumbersOf(ms)), Disposed(port, capacity, st.holdings, ms))
    decreases |ms|
  {
    hide Track, Dispose, TrackAll, Disposed, NumbersOf;
    if ms == [] {
      NothingReceived(port, capacity, st);
    } else {
      var pre, m := ms[..|ms| - 1], ms[|ms| - 1];
      ReceiveRunMeans(port, capacity, st, pre);
      CountedSnoc(st.tracker, pre, m);
      DisposedSnoc(port, capacity, st.holdings, pre, m);
      assert ms == pre + [m];
    }
  }

  lemma NothingReceived(port: Word16, capacity: nat, st: RxState)
    requires |st.holdings.ring| <= capacity
    ensures TrackAll(st.tracker, NumbersOf([])) == st.tracker
    ensures Disposed(port, capacity, st.holdings, []) == st.holdings
  {
  }

  lemma DisposedSnoc(port: Word16, capacity: nat, start: Holdings, taken: seq<Mbuf>, m: Mbuf)
    requires |start.ring| <= capacity
    ensures Disposed(port, capacity, start, taken + [m])
      == Dispose(port, capacity, Disposed(port, capacity, start, taken), m)
  {
    hide Classify, Select;
    SelectSnoc(taken, m, port, Enqueue);
    SelectSnoc(taken, m, port, Free);
    var accepted, room := Select(taken, port, Enqueue), capacity - |start.ring|;
    var n := Fitting(room, accepted);
    if Classify(m, port) == Enqueue {
      if |accepted| < room {
        assert (accepted + [m])[..n + 1] == accepted[..n] + [m];
      } else {
        assert (accepted + [m])[..n] == accepted[..n];
        assert (accepted + [m])[n..] == accepted[n..] + [m];
      }
    } else if Classify(m, port) == Free {
      assert Ids(Select(taken, port, Free) + [m]) == Ids(Select(taken, port, Free)) + [m.id];
    }
  }

  lemma CountedSnoc(start: Tracker, taken: seq<Mbuf>, m: Mbuf)
    ensures TrackAll(start, NumbersOf(taken + [m]))
      == Track(TrackAll(start, NumbersOf(taken)), NumberOf(m))
  {
    var s := NumberOf(m);
    assert NumbersOf(taken + [m]) == NumbersOf(taken) + [s];
    TrackAllSnoc(start, NumbersOf(taken), s);
  }

  lemma NothingDecoded(norm: real)
    requires norm != 0.0
    ensures DecodeAll(Payloads([]), norm) == [] && Ids([]) == []
  {
  }

  lemma Snoc(ms: seq<Mbuf>, n: nat)
    requires n < |ms|
    ensures Ids(ms[..n + 1]) == Ids(ms[..n]) + [ms[n].id]
    ensures Payloads(ms[..n + 1]) == Payloads(ms[..n]) + [PayloadOf(ms[n])]
  {
    hide PayloadOf;
  }

  lemma AppendBurst(taken: seq<Mbuf>, burst: seq<Mbuf>, norm: real)
    requires norm != 0.0
    ensures DecodeAll(Payloads(taken + burst), norm)
      == DecodeAll(Payloads(taken), norm) + DecodeAll(Payloads(burst), norm)
    ensures Ids(taken + burst) == Ids(taken) + Ids(burst)
  {
    DecodeAllConcat(Payloads(taken), Payloads(burst), norm);
    assert Payloads(taken + burst) == Payloads(taken) + Payloads(burst);
  }

}
