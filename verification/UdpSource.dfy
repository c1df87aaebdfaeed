/** The socket receive path: one datagram per packet index, blocks of samples written only for accepted ones. */
module UdpSource {
  import opened Words
  import opened HeaderParser
  import opened Samples

  type Datagram = seq<Byte>

  /** What is done with a datagram; an accepted one delivers a payload. */
  datatype Treatment = Accept(payload: Payload) | Skip | Throw

  /** A read of at most PACKET_SIZE bytes truncates, so every longer datagram counts as full-size. The parser is pointed
      at the start of the receive buffer, header included. */
  function Treat(d: Datagram): Treatment {
    if |d| < PACKET_SIZE then Skip
    else
      match GetControlFromHeader(LoadHrzr(d, 0))
      case Known(t) => if t == Data then Accept(UdpPayload(d)) else Skip
      case InvalidHrzrHeader => Throw
  }

  function UdpPayload(d: Datagram): Payload
    requires |d| >= PAYLOAD_SIZE
  {
    d[..PAYLOAD_SIZE]
  }

  function Treatments(window: seq<Datagram>): (ts: seq<Treatment>)
    ensures |ts| == |window|
  {
    seq(|window|, k requires 0 <= k < |window| => Treat(window[k]))
  }

  lemma TreatmentsOfPrefix(window: seq<Datagram>, n: nat)
    requires n <= |window|
    ensures Treatments(window)[..n] == Treatments(window[..n])
  {
    hide Treat;
  }

  lemma TreatmentAt(window: seq<Datagram>, k: nat)
    requires k < |window|
    ensures Treatments(window)[k] == Treat(window[k])
  {
  }

  /** Only what fits into the receive buffer matters. */
  lemma TreatReceived(d: Datagram, received: seq<Byte>)
    requires |d| >= PACKET_SIZE && received == d[..PACKET_SIZE]
    ensures Treat(d) == Treat(received)
  {
    hide GetControlFromHeader;
  }

  // ---------------------------------------------------------------- a window of treatments

  /** A buffer after the blocks of the accepted datagrams of a window have been written over it. */
  function Overlay(buffer: seq<Complex>, ts: seq<Treatment>, norm: real): (r: seq<Complex>)
    requires norm != 0.0
    ensures |r| == |buffer|
  {
    seq(|buffer|, k requires 0 <= k < |buffer| =>
      var p := k / SAMPLES_PER_PACKET;
      if p < |ts| && ts[p].Accept? then SampleAt(ts[p].payload, k % SAMPLES_PER_PACKET, norm) else buffer[k])
  }

  function Accepted(ts: seq<Treatment>): (n: nat)
    ensures n <= |ts|
    decreases |ts|
  {
    if ts == [] then 0 else Accepted(ts[..|ts| - 1]) + if ts[|ts| - 1].Accept? then 1 else 0
  }

  lemma AcceptedSnoc(ts: seq<Treatment>, t: Treatment)
    ensures Accepted(ts + [t]) == Accepted(ts) + if t.Accept? then 1 else 0
  {
    assert (ts + [t])[..|ts|] == ts;
  }

  lemma BlockBounds(k: nat, n: nat)
    ensures k / SAMPLES_PER_PACKET < n <==> k < SAMPLES_PER_PACKET * n
  {
  }

  lemma OverlayAt(buffer: seq<Complex>, ts: seq<Treatment>, t: Treatment, norm: real, k: nat)
    requires norm != 0.0 && k < |buffer|
    ensures Overlay(buffer, ts + [t], norm)[k] ==
      if k / SAMPLES_PER_PACKET == |ts| && t.Accept? then SampleAt(t.payload, k % SAMPLES_PER_PACKET, norm)
      else Overlay(buffer, ts, norm)[k]
  {
    hide SampleAt;
  }

  lemma OverlaySkipped(buffer: seq<Complex>, ts: seq<Treatment>, t: Treatment, norm: real)
    requires norm != 0.0 && !t.Accept?
    ensures Overlay(buffer, ts + [t], norm) == Overlay(buffer, ts, norm)
  {
    hide Overlay, SampleAt;
    var l, o := Overlay(buffer, ts + [t], norm), Overlay(buffer, ts, norm);
    forall k | 0 <= k < |buffer|
      ensures l[k] == o[k]
    {
      OverlayAt(buffer, ts, t, norm, k);
    }
  }

  lemma OverlayAccepted(buffer: seq<Complex>, ts: seq<Treatment>, payload: Payload, norm: real)
    requires norm != 0.0 && SAMPLES_PER_PACKET * (|ts| + 1) <= |buffer|
    ensures Overlay(buffer, ts + [Accept(payload)], norm) ==
      Overlay(buffer, ts, norm)[..SAMPLES_PER_PACKET * |ts|] + DecodeAll([payload], norm)
      + Overlay(buffer, ts, norm)[SAMPLES_PER_PACKET * (|ts| + 1)..]
  {
    hide Overlay, SampleAt;
    var l, o := Overlay(buffer, ts + [Accept(payload)], norm), Overlay(buffer, ts, norm);
    var first := SAMPLES_PER_PACKET * |ts|;
    var block := DecodeAll([payload], norm);
    forall k | 0 <= k < |buffer|
      ensures l[k] == if first <= k < first + SAMPLES_PER_PACKET then block[k - first] else o[k]
    {
      OverlayAt(buffer, ts, Accept(payload), norm, k);
      BlockBounds(k, |ts|);
      BlockBounds(k, |ts| + 1);
      if first <= k < first + SAMPLES_PER_PACKET {
        BlockOf(|ts|, k - first);
        BlockOf(0, k - first);
      }
    }
    assert l == o[..first] + block + o[first + |block|..];
  }

  /** The blocks a call for the given number of packets writes, up to an exception, fit into a buffer of the given
      length. */
  predicate BlocksFit(ts: seq<Treatment>, length: nat) {
    forall p :: 0 <= p < |ts| && ts[p].Accept? && Throw !in ts[..p] ==> SAMPLES_PER_PACKET * (p + 1) <= length
  }

  lemma BlockFits(ts: seq<Treatment>, length: nat, p: nat)
    requires BlocksFit(ts, length) && p < |ts| && ts[p].Accept? && Throw !in ts[..p]
    ensures SAMPLES_PER_PACKET * (p + 1) <= length
  {
  }

  lemma {:induction false} AllAcceptedIff(ts: seq<Treatment>)
    ensures Accepted(ts) == |ts| <==> forall p :: 0 <= p < |ts| ==> ts[p].Accept?
    decreases |ts|
  {
    if ts == [] {
    } else {
      AllAcceptedIff(ts[..|ts| - 1]);
    }
  }

  /** More samples than requested are delivered exactly when every datagram of the full window is accepted. */
  lemma CountAbove(all: seq<Treatment>, n: nat, numberOfSamples: nat)
    requires n <= |all| == numberOfSamples / SAMPLES_PER_PACKET + 1
    requires n == |all| || (n > 0 && all[n - 1] == Throw)
    ensures SAMPLES_PER_PACKET * Accepted(all[..n]) > numberOfSamples <==>
      forall p :: 0 <= p < |all| ==> all[p].Accept?
  {
    hide Accepted;
    AllAcceptedIff(all[..n]);
    assert SAMPLES_PER_PACKET * Accepted(all[..n]) > numberOfSamples <==> Accepted(all[..n]) == |all|;
    if n == |all| {
      assert all[..n] == all;
    }
  }

  class UdpSource {
    const parser: HrzrParser
    const buf: array<Byte>
    /** The datagrams the socket will deliver. */
    var inbox: seq<Datagram>

    constructor (parser: HrzrParser, inbox: seq<Datagram>)
      requires parser.Valid()
      ensures this.parser == parser && this.inbox == inbox && Valid() && fresh(buf)
    {
      this.parser, this.inbox := parser, inbox;
      buf := new Byte[PACKET_SIZE](_ => 0);
    }

    predicate Valid() {
      parser.Valid() && buf.Length == PACKET_SIZE
    }

    /** `recv(s, buf, PACKET_SIZE, 0)`: overwrites the front of the buffer, drops what does not fit. */
    method Recv() returns (received: nat)
      requires Valid() && inbox != []
      modifies `inbox, buf
      ensures inbox == old(inbox)[1..]
      ensures received == if |old(inbox)[0]| < PACKET_SIZE then |old(inbox)[0]| else PACKET_SIZE
      ensures buf[..received] == old(inbox)[0][..received]
      ensures buf[received..] == old(buf[received..])
    {
      var d := inbox[0];
      inbox := inbox[1..];
      received := if |d| < PACKET_SIZE then |d| else PACKET_SIZE;
      for i := 0 to received
        invariant inbox == old(inbox)[1..]
        invariant buf[..i] == d[..i]
        invariant buf[received..] == old(buf[received..])
      {
        buf[i] := d[i];
      }
    }

    /** The loop body: one datagram is read; an accepted one fills its block. */
    method ReceiveBlock(packetIdx: nat, samples: array<Complex>) returns (threw: bool, received: nat)
      requires Valid() && inbox != []
      requires Treat(inbox[0]).Accept? ==> SAMPLES_PER_PACKET * (packetIdx + 1) <= samples.Length
      modifies `inbox, buf, samples
      ensures inbox == old(inbox)[1..]
      ensures var t := Treat(old(inbox)[0]);
        && (threw <==> t == Throw)
        && received == (if t.Accept? then SAMPLES_PER_PACKET else 0)
        && samples[..] ==
          if t.Accept?
          then old(samples[..SAMPLES_PER_PACKET * packetIdx]) + DecodeAll([t.payload], parser.norm)
               + old(samples[SAMPLES_PER_PACKET * (packetIdx + 1)..])
          else old(samples[..])
    {
      hide DecodeAll, Treat;
      ghost var d := inbox[0];
      threw, received := false, 0;
      var ret := Recv();
      if ret != PACKET_SIZE {
        ShortSkipped(d);
        return;
      }
      assert buf[..] == d[..PACKET_SIZE];
      TreatReceived(d, buf[..]);
      FullSizeTreated(buf[..]);
      match GetControlFromHeader(LoadHrzr(buf[..], 0)) {
        case InvalidHrzrHeader =>
          threw := true;
        case Known(control) =>
          if control == Data {
            received := parser.ParsePayloadSamples(packetIdx, buf[..PAYLOAD_SIZE], samples);
          }
      }
    }

    /** Reads one datagram per packet index until the window is full or a header cannot be decoded. On return the
        buffer holds the overlay of the datagrams read, and the count is the number of samples written. */
    method GetSamples(numberOfSamples: nat, samples: array<Complex>)
      returns (threw: bool, count: nat, ghost window: seq<Datagram>)
      requires Valid() && |inbox| >= numberOfSamples / SAMPLES_PER_PACKET + 1
      requires BlocksFit(Treatments(inbox[..numberOfSamples / SAMPLES_PER_PACKET + 1]), samples.Length)
      modifies `inbox, buf, samples
      ensures Valid() && old(inbox) == window + inbox
      ensures if threw then window != [] else |window| == numberOfSamples / SAMPLES_PER_PACKET + 1
      ensures var ts := Treatments(window);
        && (forall k :: 0 <= k < |ts| ==> (ts[k] == Throw <==> threw && k == |ts| - 1))
        && samples[..] == Overlay(old(samples[..]), ts, parser.norm)
        && count == SAMPLES_PER_PACKET * Accepted(ts)
      ensures var all := Treatments(old(inbox)[..numberOfSamples / SAMPLES_PER_PACKET + 1]);
        count > numberOfSamples <==> forall p :: 0 <= p < |all| ==> all[p].Accept?
    {
      hide Overlay, Accepted, DecodeAll, Treat, Treatments, BlocksFit;
      var packetsToDequeue := numberOfSamples / SAMPLES_PER_PACKET + 1;
      ghost var queue, n := inbox, 0;
      ghost var all := Treatments(queue[..packetsToDequeue]);
      threw, count, window := false, 0, [];
      EmptyWindow(samples[..], parser.norm);
      for packetIdx := 0 to packetsToDequeue
        invariant n == packetIdx && !threw
        invariant inbox == queue[n..] && Throw !in all[..n]
        invariant samples[..] == Overlay(old(samples[..]), all[..n], parser.norm)
        invariant count == SAMPLES_PER_PACKET * Accepted(all[..n])
      {
        TreatmentAt(queue[..packetsToDequeue], n);
        OneMoreTreated(old(samples[..]), all, n, parser.norm);
        if all[n].Accept? {
          BlockFits(all, samples.Length, n);
        }
        var received;
        threw, received := ReceiveBlock(packetIdx, samples);
        count, n := count + received, n + 1;
        if threw {
          break;
        }
      }
      window := queue[..n];
      TreatmentsOfPrefix(queue[..packetsToDequeue], n);
      assert queue[..packetsToDequeue][..n] == window;
      CountAbove(all, n, numberOfSamples);
    }
  }

  lemma OneMoreTreated(buffer: seq<Complex>, all: seq<Treatment>, n: nat, norm: real)
    requires norm != 0.0 && n < |all|
    ensures Accepted(all[..n + 1]) == Accepted(all[..n]) + if all[n].Accept? then 1 else 0
    ensures all[n].Accept? && SAMPLES_PER_PACKET * (n + 1) <= |buffer| ==>
      Overlay(buffer, all[..n + 1], norm) == Overlay(buffer, all[..n], norm)[..SAMPLES_PER_PACKET * n]
        + DecodeAll([all[n].payload], norm) + Overlay(buffer, all[..n], norm)[SAMPLES_PER_PACKET * (n + 1)..]
    ensures !all[n].Accept? ==> Overlay(buffer, all[..n + 1], norm) == Overlay(buffer, all[..n], norm)
  {
    hide Overlay, Accepted, DecodeAll;
    assert all[..n + 1] == all[..n] + [all[n]];
    AcceptedSnoc(all[..n], all[n]);
    if !all[n].Accept? {
      OverlaySkipped(buffer, all[..n], all[n], norm);
    } else if SAMPLES_PER_PACKET * (n + 1) <= |buffer| {
      OverlayAccepted(buffer, all[..n], all[n].payload, norm);
    }
  }

  lemma ShortSkipped(d: Datagram)
    requires |d| < PACKET_SIZE
    ensures Treat(d) == Skip
  {
  }

  lemma FullSizeTreated(d: Datagram)
    requires |d| == PACKET_SIZE
    ensures Treat(d) ==
      match GetControlFromHeader(LoadHrzr(d, 0))
      case Known(t) => if t == Data then Accept(d[..PAYLOAD_SIZE]) else Skip
      case InvalidHrzrHeader => Throw
  {
  }

  lemma EmptyWindow(buffer: seq<Complex>, norm: real)
    requires norm != 0.0
    ensures Overlay(buffer, [], norm) == buffer && Accepted([]) == 0 && Treatments([]) == []
  {
  }

  /** Whether the given position of the buffer is written for a window. */
  predicate Written(ts: seq<Treatment>, k: nat) {
    k / SAMPLES_PER_PACKET < |ts| && ts[k / SAMPLES_PER_PACKET].Accept?
  }

  predicate AcceptedFirst(ts: seq<Treatment>) {
    forall i, j :: 0 <= i < j < |ts| && ts[j].Accept? ==> ts[i].Accept?
  }

  lemma {:induction false} AcceptedFirstCount(ts: seq<Treatment>)
    requires AcceptedFirst(ts)
    ensures forall i :: 0 <= i < |ts| ==> (ts[i].Accept? <==> i < Accepted(ts))
    decreases |ts|
  {
    if ts == [] {
    } else {
      AcceptedFirstCount(ts[..|ts| - 1]);
    }
  }

  /** The returned count describes the written positions exactly when the accepted datagrams come first. */
  lemma CountDescribesWrittenIff(ts: seq<Treatment>)
    ensures (forall k: nat :: Written(ts, k) <==> k < SAMPLES_PER_PACKET * Accepted(ts)) <==> AcceptedFirst(ts)
  {
    hide Accepted;
    var n := Accepted(ts);
    if forall k: nat :: Written(ts, k) <==> k < SAMPLES_PER_PACKET * n {
      forall i, j | 0 <= i < j < |ts| && ts[j].Accept?
        ensures ts[i].Accept?
      {
        BlockOf(i, 0);
        BlockOf(j, 0);
        assert Written(ts, SAMPLES_PER_PACKET * j);
        assert Written(ts, SAMPLES_PER_PACKET * i);
      }
    }
    if AcceptedFirst(ts) {
      AcceptedFirstCount(ts);
    }
  }

  /** A full-size data datagram. */
  function DataDatagram(): Datagram {
    seq(PACKET_SIZE, _ => 0)
  }

  lemma DataAccepted()
    ensures Treat(DataDatagram()).Accept?
  {
    hide LoadU16, LoadU32;
  }

  /** A short datagram before a data datagram leaves a hole: 366 samples are counted, but they are not the first. */
  lemma ShortFirstLeavesHole(short: Datagram)
    requires |short| < PACKET_SIZE
    ensures var ts := Treatments([short, DataDatagram()]);
      Accepted(ts) == 1 && !Written(ts, 0) && Written(ts, SAMPLES_PER_PACKET)
  {
    hide Treat, Accepted, DataDatagram;
    DataAccepted();
    ShortSkipped(short);
    EmptyWindow([], 1.0);
    AcceptedSnoc([], Skip);
    AcceptedSnoc([Skip], Treat(DataDatagram()));
    assert [] + [Skip] == [Skip];
    assert Treatments([short, DataDatagram()]) == [Skip] + [Treat(DataDatagram())];
    BlockOf(0, 0);
    BlockOf(1, 0);
  }
}
