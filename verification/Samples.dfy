/** Sample blocks: the flat decoding of packet payloads, and the parser that fills a caller's buffer with it. */
module Samples {
  import opened Words

  const SAMPLES_PER_PACKET: nat := 366
  const PAYLOAD_SIZE: nat := 1464
  const PACKET_SIZE: nat := 1472

  datatype Complex = Complex(re: real, im: real)

  datatype Result<+T> = Ok(value: T) | InvalidValueError

  /** A payload of 366 samples, four bytes each: I then Q, least significant byte first. */
  type Payload = p: seq<Byte> | |p| == PAYLOAD_SIZE witness seq(1464, _ => 0)

  /** Sample i of a payload: both components divided by the norm. */
  function SampleAt(payload: Payload, i: nat, norm: real): Complex
    requires i < SAMPLES_PER_PACKET && norm != 0.0
  {
    Complex(LoadI16(payload, 4 * i) as real / norm, LoadI16(payload, 4 * i + 2) as real / norm)
  }

  /** The samples of a list of payloads, one after the other. */
  function DecodeAll(payloads: seq<Payload>, norm: real): (r: seq<Complex>)
    requires norm != 0.0
    ensures |r| == SAMPLES_PER_PACKET * |payloads|
    ensures forall i :: 0 <= i < |r| ==>
      r[i] == SampleAt(payloads[i / SAMPLES_PER_PACKET], i % SAMPLES_PER_PACKET, norm)
  {
    seq(SAMPLES_PER_PACKET * |payloads|,
        i requires 0 <= i < SAMPLES_PER_PACKET * |payloads| =>
          SampleAt(payloads[i / SAMPLES_PER_PACKET], i % SAMPLES_PER_PACKET, norm))
  }

  lemma BlockOf(p: nat, i: nat)
    requires i < SAMPLES_PER_PACKET
    ensures (SAMPLES_PER_PACKET * p + i) / SAMPLES_PER_PACKET == p
    ensures (SAMPLES_PER_PACKET * p + i) % SAMPLES_PER_PACKET == i
  {
  }

  lemma DecodeAllConcat(a: seq<Payload>, b: seq<Payload>, norm: real)
    requires norm != 0.0
    ensures DecodeAll(a + b, norm) == DecodeAll(a, norm) + DecodeAll(b, norm)
  {
    var l, r := DecodeAll(a + b, norm), DecodeAll(a, norm) + DecodeAll(b, norm);
    forall k | 0 <= k < |l|
      ensures l[k] == r[k]
    {
      var p, i := k / SAMPLES_PER_PACKET, k % SAMPLES_PER_PACKET;
      if |a| <= p {
        BlockOf(p - |a|, i);
      }
    }
  }

  class HrzrParser {
    const norm: real

    constructor (norm: real)
      requires norm != 0.0
      ensures this.norm == norm && Valid()
    {
      this.norm := norm;
    }

    predicate Valid() {
      norm != 0.0
    }

    /** A zero norm is refused with InvalidValueError, every other norm is accepted. */
    static method Create(norm: real) returns (r: Result<HrzrParser>)
      ensures r.InvalidValueError? <==> norm == 0.0
      ensures r.Ok? ==> r.value.Valid() && r.value.norm == norm
    {
      if norm == 0.0 {
        r := InvalidValueError;
      } else {
        var p := new HrzrParser(norm);
        r := Ok(p);
      }
    }

    /** Writes the 366 decoded samples into block packetIdx of the buffer and touches nothing else. */
    method ParsePayloadSamples(packetIdx: nat, payload: Payload, samples: array<Complex>) returns (count: nat)
      requires Valid()
      requires SAMPLES_PER_PACKET * (packetIdx + 1) <= samples.Length
      modifies samples
      ensures count == SAMPLES_PER_PACKET
      ensures samples[..] == old(samples[..SAMPLES_PER_PACKET * packetIdx]) + DecodeAll([payload], norm)
                             + old(samples[SAMPLES_PER_PACKET * (packetIdx + 1)..])
    {
      count := 0;
      var first := packetIdx * SAMPLES_PER_PACKET;
      for s := 0 to SAMPLES_PER_PACKET
        invariant count == s
        invariant forall k :: 0 <= k < first || first + SAMPLES_PER_PACKET <= k < samples.Length ==>
          samples[k] == old(samples[k])
        invariant forall i :: 0 <= i < s ==> samples[first + i] == SampleAt(payload, i, norm)
      {
        var at := packetIdx * SAMPLES_PER_PACKET + s;
        samples[at] := samples[at].(re := LoadI16(payload, (s * 2) * 2) as real / norm);
        samples[at] := samples[at].(im := LoadI16(payload, (s * 2 + 1) * 2) as real / norm);
        count := count + 1;
      }
    }
  }
}
