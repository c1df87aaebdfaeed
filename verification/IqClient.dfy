/** The client: configuration of a device by read-modify-write setters, and the sending of sample blocks. */
module IqClient {
  import opened Words
  import opened Samples
  import opened Transmitter
  import opened Quantisation

  datatype MSR4Channel = Rx1 | Rx2 | Rx3 | Rx4

  datatype Protocols = AMMOS | HRZR

  datatype UdpSetting = UdpSetting(port: int, destinationAddress: string, protocol: Protocols, sfpInterface: int,
                                   isStreaming: bool)

  datatype RfSetting = RfSetting(satFrequencyHz: real, downFrequencyHz: real)

  datatype ChannelState = ChannelState(udp: UdpSetting, rf: RfSetting, analysisBandwidthHz: real)

  datatype Channels = Channels(rx1: ChannelState, rx2: ChannelState, rx3: ChannelState, rx4: ChannelState) {
    function Of(c: MSR4Channel): ChannelState {
      match c
      case Rx1 => rx1
      case Rx2 => rx2
      case Rx3 => rx3
      case Rx4 => rx4
    }

    function With(c: MSR4Channel, st: ChannelState): (r: Channels)
      ensures r.Of(c) == st && forall d :: d != c ==> r.Of(d) == Of(d)
    {
      match c
      case Rx1 => this.(rx1 := st)
      case Rx2 => this.(rx2 := st)
      case Rx3 => this.(rx3 := st)
      case Rx4 => this.(rx4 := st)
    }
  }

  /** A change of one field. The setters read and write whole records; these are the effects they are meant to have. */
  datatype Edit =
    | Streaming(on: bool)
    | SatFrequency(hz: real)
    | DownFrequency(hz: real)
    | AnalysisBandwidth(hz: real)
    | Port(port: int)
    | Address(address: string)
    | Protocol(protocol: Protocols)

  function Edited(st: ChannelState, e: Edit): ChannelState {
    match e
    case Streaming(on) => st.(udp := st.udp.(isStreaming := on))
    case SatFrequency(hz) => st.(rf := st.rf.(satFrequencyHz := hz))
    case DownFrequency(hz) => st.(rf := st.rf.(downFrequencyHz := hz))
    case AnalysisBandwidth(hz) => st.(analysisBandwidthHz := hz)
    case Port(p) => st.(udp := st.udp.(port := p))
    case Address(a) => st.(udp := st.udp.(destinationAddress := a))
    case Protocol(p) => st.(udp := st.udp.(protocol := p))
  }

  /** The configured device behind reliable calls. The i-th write is answered with error code reply(i); a write
      answered with a code other than 0 changes nothing. */
  class Device {
    const reply: nat -> int
    var channels: Channels
    var writes: nat

    constructor (channels: Channels, reply: nat -> int)
      ensures this.channels == channels && this.reply == reply && writes == 0
    {
      this.channels, this.reply, writes := channels, reply, 0;
    }

    method Answer(channel: MSR4Channel, st: ChannelState) returns (errorCode: int)
      modifies this
      ensures errorCode == reply(old(writes)) && writes == old(writes) + 1
      ensures channels == if errorCode == 0 then old(channels).With(channel, st) else old(channels)
    {
      errorCode := reply(writes);
      writes := writes + 1;
      if errorCode == 0 {
        channels := channels.With(channel, st);
      }
    }

    method SetUdpSetting(channel: MSR4Channel, setting: UdpSetting) returns (errorCode: int)
      modifies this
      ensures errorCode == reply(old(writes)) && writes == old(writes) + 1
      ensures channels == if errorCode == 0
        then old(channels).With(channel, old(channels).Of(channel).(udp := setting)) else old(channels)
    {
      errorCode := Answer(channel, channels.Of(channel).(udp := setting));
    }

    method SetRfSetting(channel: MSR4Channel, setting: RfSetting) returns (errorCode: int)
      modifies this
      ensures errorCode == reply(old(writes)) && writes == old(writes) + 1
      ensures channels == if errorCode == 0
        then old(channels).With(channel, old(channels).Of(channel).(rf := setting)) else old(channels)
    {
      errorCode := Answer(channel, channels.Of(channel).(rf := setting));
    }

    method SetBandwidthSettingByAnalysisBandwidth(channel: MSR4Channel, hz: real) returns (errorCode: int)
      modifies this
      ensures errorCode == reply(old(writes)) && writes == old(writes) + 1
      ensures channels == if errorCode == 0
        then old(channels).With(channel, old(channels).Of(channel).(analysisBandwidthHz := hz)) else old(channels)
    {
      errorCode := Answer(channel, channels.Of(channel).(analysisBandwidthHz := hz));
    }
  }

  /** The four parsed sections of a configuration file. */
  datatype Config = Config(
    rxChannel: int,
    satFrequency: int, downFrequency: int, analysisBandwidth: int,
    port: int, destinationAddress: string, protocol: string)

  function ChannelOf(rxChannel: int): MSR4Channel
    requires 1 <= rxChannel <= 4
  {
    if rxChannel == 1 then Rx1 else if rxChannel == 2 then Rx2 else if rxChannel == 3 then Rx3 else Rx4
  }

  datatype Outcome =
    | Configured
    | InvalidLogin
    | InvalidChannel
    | WriteRejected(errorCode: int)
    | ProtocolNotImplemented

  /** The edits a configuration run attempts on the selected channel, in order. */
  function Plan(config: Config, streaming: bool): seq<Edit> {
    (if streaming then [Streaming(false)] else [])
    + [SatFrequency(config.satFrequency as real), DownFrequency(config.downFrequency as real),
       AnalysisBandwidth(config.analysisBandwidth as real), Port(config.port), Address(config.destinationAddress)]
    + (if config.protocol == "HRZR" then [Protocol(HRZR)] else [])
  }

  /** Edits whose rejection ends the run; the answers to the other two are not looked at. */
  predicate Checked(e: Edit) {
    !e.Streaming? && !e.Protocol?
  }

  /** The selected channel, the device, and the edits attempted so far (history). */
  datatype View = View(channel: MSR4Channel, channels: Channels, writes: nat, attempted: seq<Edit>)

  /** One attempted write: answered by the next reply, it has exactly the effect of the edit, or none. */
  function Stepped(reply: nat -> int, v: View, e: Edit): View {
    var channels := if reply(v.writes) == 0
                    then v.channels.With(v.channel, Edited(v.channels.Of(v.channel), e)) else v.channels;
    View(v.channel, channels, v.writes + 1, v.attempted + [e])
  }

  function After(reply: nat -> int, v: View, edits: seq<Edit>): View
    decreases |edits|
  {
    if edits == [] then v else Stepped(reply, After(reply, v, edits[..|edits| - 1]), edits[|edits| - 1])
  }

  /** A channel after the accepted ones of the edits, the first of them answered by reply(from). */
  function Applied(st: ChannelState, edits: seq<Edit>, reply: nat -> int, from: nat): ChannelState
    decreases |edits|
  {
    if edits == [] then st
    else
      var n := |edits| - 1;
      var before := Applied(st, edits[..n], reply, from);
      if reply(from + n) == 0 then Edited(before, edits[n]) else before
  }

  /** A run of writes changes the selected channel by its accepted edits, and nothing else. */
  lemma {:induction false} AfterMeans(reply: nat -> int, v: View, edits: seq<Edit>)
    ensures After(reply, v, edits) == View(
      v.channel, v.channels.With(v.channel, Applied(v.channels.Of(v.channel), edits, reply, v.writes)),
      v.writes + |edits|, v.attempted + edits)
    decreases |edits|
  {
    hide Edited;
    if edits == [] {
    } else {
      AfterMeans(reply, v, edits[..|edits| - 1]);
      assert edits == edits[..|edits| - 1] + [edits[|edits| - 1]];
    }
  }

  lemma AfterStep(reply: nat -> int, v: View, plan: seq<Edit>, n: nat)
    requires n < |plan|
    ensures After(reply, v, plan[..n + 1]) == Stepped(reply, After(reply, v, plan[..n]), plan[n])
    ensures After(reply, v, plan[..n]).writes == v.writes + n
  {
    AfterMeans(reply, v, plan[..n]);
    assert plan[..n + 1][..n] == plan[..n];
  }

  class IqClient {
    const device: Device
    const hrzrUdpTransmitter: HrzrUdpTransmitter
    var msr4Channel: MSR4Channel
    /** The edits attempted so far (history). */
    ghost var attempted: seq<Edit>

    constructor (device: Device, transmitter: HrzrUdpTransmitter)
      ensures this.device == device && hrzrUdpTransmitter == transmitter
      ensures msr4Channel == Rx1 && attempted == []
    {
      this.device, hrzrUdpTransmitter := device, transmitter;
      msr4Channel, attempted := Rx1, [];
    }

    ghost function Now(): View
      reads this, device
    {
      View(msr4Channel, device.channels, device.writes, attempted)
    }

    method SetPort(port: int) returns (errorCode: int)
      modifies this, device
      ensures Now() == Stepped(device.reply, old(Now()), Port(port))
      ensures errorCode == device.reply(old(device.writes))
    {
      var setting := device.channels.Of(msr4Channel).udp;
      setting := setting.(port := port);
      errorCode := device.SetUdpSetting(msr4Channel, setting);
      attempted := attempted + [Port(port)];
    }

    method SetDestinationAddress(address: string) returns (errorCode: int)
      modifies this, device
      ensures Now() == Stepped(device.reply, old(Now()), Address(address))
      ensures errorCode == device.reply(old(device.writes))
    {
      var setting := device.channels.Of(msr4Channel).udp;
      setting := setting.(destinationAddress := address);
      errorCode := device.SetUdpSetting(msr4Channel, setting);
      attempted := attempted + [Address(address)];
    }

    /** AMMOS is refused with an exception before anything is written. */
    method SetProtocol(protocol: Protocols) returns (threw: bool, errorCode: int)
      modifies this, device
      ensures threw <==> protocol == AMMOS
      ensures threw ==> Now() == old(Now())
      ensures !threw ==>
        Now() == Stepped(device.reply, old(Now()), Protocol(protocol)) && errorCode == device.reply(old(device.writes))
    {
      threw, errorCode := protocol == AMMOS, 0;
      if threw {
        return;
      }
      var setting := device.channels.Of(msr4Channel).udp;
      setting := setting.(protocol := protocol);
      errorCode := device.SetUdpSetting(msr4Channel, setting);
      attempted := attempted + [Protocol(protocol)];
    }

    method SetStreamingStatus(status: bool) returns (errorCode: int)
      modifies this, device
      ensures Now() == Stepped(device.reply, old(Now()), Streaming(status))
      ensures errorCode == device.reply(old(device.writes))
    {
      var setting := device.channels.Of(msr4Channel).udp;
      setting := setting.(isStreaming := status);
      errorCode := device.SetUdpSetting(msr4Channel, setting);
      attempted := attempted + [Streaming(status)];
    }

    method SetSatFrequencyHz(hz: real) returns (errorCode: int)
      modifies this, device
      ensures Now() == Stepped(device.reply, old(Now()), SatFrequency(hz))
      ensures errorCode == device.reply(old(device.writes))
    {
      var rf := RfSetting(hz, device.channels.Of(msr4Channel).rf.downFrequencyHz);
      errorCode := device.SetRfSetting(msr4Channel, rf);
      attempted := attempted + [SatFrequency(hz)];
    }

    method SetDownFrequencyHz(hz: real) returns (errorCode: int)
      modifies this, device
      ensures Now() == Stepped(device.reply, old(Now()), DownFrequency(hz))
      ensures errorCode == device.reply(old(device.writes))
    {
      var rf := RfSetting(device.channels.Of(msr4Channel).rf.satFrequencyHz, hz);
      errorCode := device.SetRfSetting(msr4Channel, rf);
      attempted := attempted + [DownFrequency(hz)];
    }

    method SetBandwidthByAnalysisBandwidth(hz: real) returns (errorCode: int)
      modifies this, device
      ensures Now() == Stepped(device.reply, old(Now()), AnalysisBandwidth(hz))
      ensures errorCode == device.reply(old(device.writes))
    {
      errorCode := device.SetBandwidthSettingByAnalysisBandwidth(msr4Channel, hz);
      attempted := attempted + [AnalysisBandwidth(hz)];
    }

    /** The 16-bit components of a block, each truncated toward zero. */
    method Quantise(samples: seq<Complex>) returns (smpl: seq<Int16>)
      requires AllInRange(samples)
      ensures smpl == Components(samples)
    {
      var buffer := new Int16[|samples| * 2](_ => 0);
      for i := 0 to |samples|
        invariant buffer[..2 * i] == Components(samples)[..2 * i]
      {
        ComponentsAt(samples, i);
        assert InRange(samples[i].re) && InRange(samples[i].im);
        buffer[2 * i] := Trunc(samples[i].re);
        buffer[2 * i + 1] := Trunc(samples[i].im);
        assert buffer[..2 * (i + 1)] == buffer[..2 * i] + [buffer[2 * i], buffer[2 * i + 1]];
      }
      smpl := buffer[..];
    }

    /** Quantises a block and sends it as one datagram. */
    method SendPayload(samples: array<Complex>, numberOfSamples: nat)
      requires numberOfSamples <= samples.Length && numberOfSamples <= SAMPLES_PER_PACKET
      requires AllInRange(samples[..numberOfSamples]) && hrzrUdpTransmitter.Valid()
      modifies hrzrUdpTransmitter
      ensures hrzrUdpTransmitter.Valid()
      ensures |hrzrUdpTransmitter.sent| == |old(hrzrUdpTransmitter.sent)| + 1
      ensures old(hrzrUdpTransmitter.sent) <= hrzrUdpTransmitter.sent
      ensures Carries(hrzrUdpTransmitter.sent[|hrzrUdpTransmitter.sent| - 1],
                      |old(hrzrUdpTransmitter.sent)| % 4096, Components(samples[..numberOfSamples]))
    {
      var smpl := Quantise(samples[..numberOfSamples]);
      assert smpl[..|smpl| / 2 * 2] == smpl;
      hrzrUdpTransmitter.SendPacket(smpl);
    }

    /** A configuration run. It performs the first n planned edits on the selected channel, n being the number of
        writes: the accepted ones take effect there, every other channel is untouched. It ends early exactly at the
        first rejected write whose answer is looked at. */
    method SetMSR4ByJson(config: Config, loginOk: bool) returns (outcome: Outcome)
      modifies this, device
      ensures outcome == InvalidLogin <==> !loginOk
      ensures outcome == InvalidChannel <==> loginOk && !(1 <= config.rxChannel <= 4)
      ensures outcome in {InvalidLogin, InvalidChannel} ==> Now() == old(Now())
      ensures outcome !in {InvalidLogin, InvalidChannel} ==>
        RunEnded(config, outcome, device.reply, old(Now()), Now())
    {
      hide Stepped, After, Plan, Ending, RunEnded, Channels.Of;
      if !loginOk {
        return InvalidLogin;
      }
      if !(1 <= config.rxChannel <= 4) {
        return InvalidChannel;
      }
      msr4Channel := ChannelOf(config.rxChannel);
      ghost var v := Now();
      var wasStreaming := device.channels.Of(msr4Channel).udp.isStreaming;
      ghost var plan, n := Plan(config, wasStreaming), if wasStreaming then 1 else 0;
      PlanEntries(config, wasStreaming);
      NothingYet(device.reply, v, plan);
      if wasStreaming {
        AfterStep(device.reply, v, plan, 0);
        var ignored := SetStreamingStatus(false);
      }
      ghost var done;
      outcome, done := ConfigureRf(config, v, plan, n);
      if outcome == Configured {
        outcome, done := ConfigureUdp(config, v, plan, n);
      }
      EndedAt(config, outcome, device.reply, old(Now()), plan, n, done);
    }

    /** The three radio settings of a configuration run, up to the first rejection. */
    method ConfigureRf(config: Config, ghost v: View, ghost plan: seq<Edit>, ghost n: nat)
      returns (outcome: Outcome, ghost done: nat)
      requires PlannedFrom(config, plan, n) && Now() == After(device.reply, v, plan[..n])
      modifies this, device
      ensures n < done <= n + 3 && Now() == After(device.reply, v, plan[..done])
      ensures AcceptedUntil(device.reply, v, n, done, outcome)
      ensures outcome == Configured ==> done == n + 3
      ensures outcome == Configured || outcome.WriteRejected?
    {
      hide Stepped, After, Plan, Channels.Of;
      var err;

      AfterStep(device.reply, v, plan, n);
      err := SetSatFrequencyHz(config.satFrequency as real);
      if err != 0 {
        return WriteRejected(err), n + 1;
      }

      AfterStep(device.reply, v, plan, n + 1);
      err := SetDownFrequencyHz(config.downFrequency as real);
      if err != 0 {
        return WriteRejected(err), n + 2;
      }

      AfterStep(device.reply, v, plan, n + 2);
      err := SetBandwidthByAnalysisBandwidth(config.analysisBandwidth as real);
      if err != 0 {
        return WriteRejected(err), n + 3;
      }
      return Configured, n + 3;
    }

    /** The network settings, up to the first rejection, and the protocol. */
    method ConfigureUdp(config: Config, ghost v: View, ghost plan: seq<Edit>, ghost n: nat)
      returns (outcome: Outcome, ghost done: nat)
      requires PlannedFrom(config, plan, n) && Now() == After(device.reply, v, plan[..n + 3])
      requires AcceptedUntil(device.reply, v, n, n + 3, Configured)
      modifies this, device
      ensures n + 3 < done <= |plan| && Now() == After(device.reply, v, plan[..done])
      ensures AcceptedUntil(device.reply, v, n, if done < n + 5 then done else n + 5, outcome)
      ensures if outcome.WriteRejected? then done <= n + 5
        else done == |plan| && outcome == if config.protocol == "HRZR" then Configured else ProtocolNotImplemented
    {
      hide Stepped, After, Plan, Channels.Of;
      var err;

      AfterStep(device.reply, v, plan, n + 3);
      err := SetPort(config.port);
      if err != 0 {
        assert err == Code(device.reply, v, n + 3);
        return WriteRejected(err), n + 4;
      }

      AfterStep(device.reply, v, plan, n + 4);
      err := SetDestinationAddress(config.destinationAddress);
      if err != 0 {
        assert err == Code(device.reply, v, n + 4);
        return WriteRejected(err), n + 5;
      }

      if config.protocol == "HRZR" {
        AfterStep(device.reply, v, plan, n + 5);
        var threw;
        threw, err := SetProtocol(HRZR);
        return Configured, n + 6;
      } else {
        return ProtocolNotImplemented, n + 5;
      }
    }
  }

  /** The five checked edits sit at n, after the optional stop and before the optional protocol. */
  ghost predicate PlannedFrom(config: Config, plan: seq<Edit>, n: nat) {
    && |plan| == n + 5 + (if config.protocol == "HRZR" then 1 else 0)
    && plan[n] == SatFrequency(config.satFrequency as real)
    && plan[n + 1] == DownFrequency(config.downFrequency as real)
    && plan[n + 2] == AnalysisBandwidth(config.analysisBandwidth as real)
    && plan[n + 3] == Port(config.port)
    && plan[n + 4] == Address(config.destinationAddress)
    && (config.protocol == "HRZR" ==> plan[n + 5] == Protocol(HRZR))
  }

  lemma PlanEntries(config: Config, streaming: bool)
    ensures PlannedFrom(config, Plan(config, streaming), if streaming then 1 else 0)
    ensures streaming ==> Plan(config, streaming)[0] == Streaming(false)
  {
  }

  lemma PlanChecked(config: Config, streaming: bool)
    ensures var plan, n := Plan(config, streaming), if streaming then 1 else 0;
      forall k :: 0 <= k < |plan| ==> (Checked(plan[k]) <==> n <= k < n + 5)
  {
  }

  /** The answer to the k-th write of a run. */
  function Code(reply: nat -> int, v: View, k: nat): int {
    reply(v.writes + k)
  }

  /** Writes n to done - 1 were accepted, except the last if the outcome is a rejection. */
  ghost predicate AcceptedUntil(reply: nat -> int, v: View, n: nat, done: nat, outcome: Outcome) {
    && (forall k :: n <= k < done && !(outcome.WriteRejected? && k == done - 1) ==> Code(reply, v, k) == 0)
    && (outcome.WriteRejected? ==> n < done && outcome.errorCode == Code(reply, v, done - 1) != 0)
  }

  lemma EndedAt(config: Config, outcome: Outcome, reply: nat -> int, before: View, plan: seq<Edit>, n: nat, done: nat)
    requires 1 <= config.rxChannel <= 4 && done <= |plan|
    requires var v := before.(channel := ChannelOf(config.rxChannel));
      && plan == Plan(config, v.channels.Of(v.channel).udp.isStreaming)
      && n == (if v.channels.Of(v.channel).udp.isStreaming then 1 else 0)
      && AcceptedUntil(reply, v, n, if done < n + 5 then done else n + 5, outcome)
    requires if outcome.WriteRejected? then done <= n + 5
      else done == |plan| && outcome == if config.protocol == "HRZR" then Configured else ProtocolNotImplemented
    ensures var v := before.(channel := ChannelOf(config.rxChannel));
      RunEnded(config, outcome, reply, before, After(reply, v, plan[..done]))
  {
    hide Channels.Of, After, Plan, Code;
    PlanChecked(config, n == 1);
    AfterMeans(reply, before.(channel := ChannelOf(config.rxChannel)), plan[..done]);
  }

  lemma NothingYet(reply: nat -> int, v: View, plan: seq<Edit>)
    ensures After(reply, v, plan[..0]) == v
  {
  }

  /** Why a run stopped after n planned edits: at the first checked edit that was rejected, or at the end of the
      plan. */
  ghost predicate Ending(plan: seq<Edit>, protocol: string, outcome: Outcome, reply: nat -> int, v: View, n: nat) {
    && n <= |plan|
    && (forall k :: 0 <= k < n && Checked(plan[k]) && Code(reply, v, k) != 0 ==> k == n - 1 && outcome.WriteRejected?)
    && match outcome
       case WriteRejected(code) => n > 0 && Checked(plan[n - 1]) && code == Code(reply, v, n - 1) && code != 0
       case Configured => n == |plan| && protocol == "HRZR"
       case ProtocolNotImplemented => n == |plan| && protocol != "HRZR"
       case _ => false
  }

  /** How a configuration run that selected a channel ended, told from the device's answers. */
  ghost predicate RunEnded(config: Config, outcome: Outcome, reply: nat -> int, before: View, after: View)
  {
    && 1 <= config.rxChannel <= 4 && before.writes <= after.writes
    && var v, n := before.(channel := ChannelOf(config.rxChannel)), after.writes - before.writes;
    && var plan := Plan(config, v.channels.Of(v.channel).udp.isStreaming);
    && Ending(plan, config.protocol, outcome, reply, v, n)
    && after == After(reply, v, plan[..n])
  }

  lemma AppliedStep(st: ChannelState, plan: seq<Edit>, reply: nat -> int, from: nat, n: nat)
    requires n < |plan|
    ensures Applied(st, plan[..n + 1], reply, from) ==
      if reply(from + n) == 0 then Edited(Applied(st, plan[..n], reply, from), plan[n])
      else Applied(st, plan[..n], reply, from)
  {
    assert plan[..n + 1][..n] == plan[..n];
  }

  /** The five checked edits, all accepted, set exactly their fields. */
  lemma FiveApplied(config: Config, st: ChannelState, plan: seq<Edit>, reply: nat -> int, v: View, n: nat)
    requires PlannedFrom(config, plan, n)
    requires forall i :: n <= i < n + 5 ==> Code(reply, v, i) == 0
    ensures var before := Applied(st, plan[..n], reply, v.writes);
      Applied(st, plan[..n + 5], reply, v.writes) == ChannelState(
        before.udp.(port := config.port, destinationAddress := config.destinationAddress),
        RfSetting(config.satFrequency as real, config.downFrequency as real), config.analysisBandwidth as real)
  {
    hide Applied;
    assert Code(reply, v, n) == Code(reply, v, n + 1) == Code(reply, v, n + 2) == 0;
    assert Code(reply, v, n + 3) == Code(reply, v, n + 4) == 0;
    AppliedStep(st, plan, reply, v.writes, n);
    AppliedStep(st, plan, reply, v.writes, n + 1);
    AppliedStep(st, plan, reply, v.writes, n + 2);
    AppliedStep(st, plan, reply, v.writes, n + 3);
    AppliedStep(st, plan, reply, v.writes, n + 4);
  }

  /** Whether a run is cut short depends on the answers to its five checked writes alone: a rejected stop request or
      protocol does not show. */
  lemma NotCutShortIff(config: Config, outcome: Outcome, reply: nat -> int, before: View, after: View)
    requires RunEnded(config, outcome, reply, before, after)
    ensures var n := if before.channels.Of(ChannelOf(config.rxChannel)).udp.isStreaming then 1 else 0;
      !outcome.WriteRejected? <==> forall k :: n <= k < n + 5 ==> Code(reply, before, k) == 0
  {
    hide After, Plan, Channels.Of;
    var streaming := before.channels.Of(ChannelOf(config.rxChannel)).udp.isStreaming;
    var plan, n := Plan(config, streaming), if streaming then 1 else 0;
    PlanEntries(config, streaming);
    PlanChecked(config, streaming);
    if !outcome.WriteRejected? {
      forall k | n <= k < n + 5
        ensures Code(reply, before, k) == 0
      {
        assert Checked(plan[k]);
      }
    } else {
      var last := after.writes - before.writes - 1;
      assert Checked(plan[last]) && Code(reply, before, last) != 0;
    }
  }

  /** What a run that was not cut short by a rejection leaves behind. The protocol is HRZR afterwards only if the
      last write was accepted or it was HRZR before; streaming is off only if it was off or the stop was accepted. */
  lemma RunCompleted(config: Config, outcome: Outcome, reply: nat -> int, before: View, after: View)
    requires RunEnded(config, outcome, reply, before, after) && !outcome.WriteRejected?
    ensures var ch := ChannelOf(config.rxChannel);
      var st0, st1 := before.channels.Of(ch), after.channels.Of(ch);
      && st1.rf == RfSetting(config.satFrequency as real, config.downFrequency as real)
      && st1.analysisBandwidthHz == config.analysisBandwidth as real
      && st1.udp == UdpSetting(
           config.port, config.destinationAddress,
           if config.protocol == "HRZR" && reply(after.writes - 1) == 0 then HRZR else st0.udp.protocol,
           st0.udp.sfpInterface,
           st0.udp.isStreaming && reply(before.writes) != 0)
      && (forall d :: d != ch ==> after.channels.Of(d) == before.channels.Of(d))
      && (st0.udp.isStreaming ==> before.attempted + [Streaming(false)] <= after.attempted)
  {
    hide After, Applied, Plan, Channels.Of;
    var ch := ChannelOf(config.rxChannel);
    var v, st0 := before.(channel := ch), before.channels.Of(ch);
    var plan, n := Plan(config, st0.udp.isStreaming), if st0.udp.isStreaming then 1 else 0;
    PlanEntries(config, st0.udp.isStreaming);
    PlanChecked(config, st0.udp.isStreaming);
    assert plan[..|plan|] == plan;
    AfterMeans(reply, v, plan);
    forall i | n <= i < n + 5
      ensures Code(reply, v, i) == 0
    {
      assert Checked(plan[i]);
    }
    FiveApplied(config, st0, plan, reply, v, n);
    AppliedNone(st0, plan, reply, before.writes);
    if n == 1 {
      AppliedStep(st0, plan, reply, before.writes, 0);
    }
    if config.protocol == "HRZR" {
      AppliedStep(st0, plan, reply, before.writes, n + 5);
    }
  }

  /** The device refuses exactly the writes whose answers nobody looks at. */
  function RefuseUnchecked(from: nat, streaming: bool): nat -> int {
    n => if n == from && streaming then 1 else if n == from + (if streaming then 6 else 5) then 1 else 0
  }

  /** Then a run for HRZR still ends normally, with the protocol and the streaming flag as they were before. */
  lemma RefusedUnnoticed(config: Config, before: View)
    requires 1 <= config.rxChannel <= 4 && config.protocol == "HRZR"
    ensures var v := before.(channel := ChannelOf(config.rxChannel));
      var st0 := before.channels.Of(v.channel);
      var reply := RefuseUnchecked(before.writes, st0.udp.isStreaming);
      var after := After(reply, v, Plan(config, st0.udp.isStreaming));
      && RunEnded(config, Configured, reply, before, after)
      && after.channels.Of(v.channel).udp.protocol == st0.udp.protocol
      && after.channels.Of(v.channel).udp.isStreaming == st0.udp.isStreaming
  {
    hide After, Applied, Plan, Channels.Of;
    var v := before.(channel := ChannelOf(config.rxChannel));
    var streaming := before.channels.Of(v.channel).udp.isStreaming;
    var reply, plan := RefuseUnchecked(before.writes, streaming), Plan(config, streaming);
    PlanEntries(config, streaming);
    PlanChecked(config, streaming);
    AfterMeans(reply, v, plan);
    assert plan[..|plan|] == plan;
    var after := After(reply, v, plan);
    assert RunEnded(config, Configured, reply, before, after);
    RunCompleted(config, Configured, reply, before, after);
  }

  /** Only one channel differs, told from its number and the fields of the device. */
  ghost predicate OnlyDiffers(rxChannel: int, before: Channels, after: Channels, st0: ChannelState, st1: ChannelState) {
    if rxChannel == 1 then before.rx1 == st0 && after == Channels(st1, before.rx2, before.rx3, before.rx4)
    else if rxChannel == 2 then before.rx2 == st0 && after == Channels(before.rx1, st1, before.rx3, before.rx4)
    else if rxChannel == 3 then before.rx3 == st0 && after == Channels(before.rx1, before.rx2, st1, before.rx4)
    else rxChannel == 4 && before.rx4 == st0 && after == Channels(before.rx1, before.rx2, before.rx3, st1)
  }

  lemma SelectedDiffers(rxChannel: int, before: Channels, st: ChannelState)
    requires 1 <= rxChannel <= 4
    ensures var ch := ChannelOf(rxChannel);
      OnlyDiffers(rxChannel, before, before.With(ch, st), before.Of(ch), st)
  {
  }

  /** The channel record after the stop request, if any, was answered by `stop`, the first n of the five checked writes
      were accepted, and the protocol was answered by `last` if it was asked for. */
  function RecordAfter(config: Config, st: ChannelState, stop: int, n: int, last: int): ChannelState {
    ChannelState(
      UdpSetting(
        if n >= 4 then config.port else st.udp.port,
        if n >= 5 then config.destinationAddress else st.udp.destinationAddress,
        if n >= 5 && config.protocol == "HRZR" && last == 0 then HRZR else st.udp.protocol,
        st.udp.sfpInterface,
        st.udp.isStreaming && stop != 0),
      RfSetting(
        if n >= 1 then config.satFrequency as real else st.rf.satFrequencyHz,
        if n >= 2 then config.downFrequency as real else st.rf.downFrequencyHz),
      if n >= 3 then config.analysisBandwidth as real else st.analysisBandwidthHz)
  }

  lemma FirstApplied(config: Config, st: ChannelState, reply: nat -> int, v: View, n: nat, k: nat)
    requires n == (if st.udp.isStreaming then 1 else 0) && k <= 5
    requires forall i :: n <= i < n + k ==> Code(reply, v, i) == 0
    ensures var plan := Plan(config, st.udp.isStreaming);
      Applied(st, plan[..n + k], reply, v.writes) == RecordAfter(config, st, reply(v.writes), k, 1)
    decreases k
  {
    hide Applied, Plan;
    var plan := Plan(config, st.udp.isStreaming);
    PlanEntries(config, st.udp.isStreaming);
    if k == 0 {
      AppliedNone(st, plan, reply, v.writes);
      if n == 1 {
        AppliedStep(st, plan, reply, v.writes, 0);
      }
    } else {
      FirstApplied(config, st, reply, v, n, k - 1);
      AppliedStep(st, plan, reply, v.writes, n + k - 1);
      assert Code(reply, v, n + k - 1) == 0;
    }
  }

  /** The whole device after a run that selected a channel, told from the number in the configuration and the device's
      answers: the channel of that number has the settings written before the first rejection, the other three are as
      they were. */
  lemma DeviceAfter(config: Config, outcome: Outcome, reply: nat -> int, before: View, after: View)
    requires RunEnded(config, outcome, reply, before, after)
    ensures var st := before.channels.Of(ChannelOf(config.rxChannel));
      var writes := after.writes - before.writes - if st.udp.isStreaming then 1 else 0;
      var accepted := if outcome.WriteRejected? then writes - 1 else 5;
      && 0 <= accepted <= 5
      && OnlyDiffers(config.rxChannel, before.channels, after.channels, st,
                     RecordAfter(config, st, reply(before.writes), accepted,
                                 if outcome == Configured then reply(after.writes - 1) else 1))
  {
    hide After, Applied, Plan, Channels.Of, Channels.With, ChannelOf, OnlyDiffers;
    var ch := ChannelOf(config.rxChannel);
    var v, st := before.(channel := ch), before.channels.Of(ch);
    var plan, n := Plan(config, st.udp.isStreaming), if st.udp.isStreaming then 1 else 0;
    PlanEntries(config, st.udp.isStreaming);
    PlanChecked(config, st.udp.isStreaming);
    var m := after.writes - before.writes;
    AfterMeans(reply, v, plan[..m]);
    SelectedDiffers(config.rxChannel, before.channels, Applied(st, plan[..m], reply, before.writes));
    var accepted := if outcome.WriteRejected? then m - n - 1 else 5;
    assert outcome.WriteRejected? ==> Checked(plan[m - 1]);
    forall i | n <= i < n + accepted
      ensures Code(reply, v, i) == 0
    {
      assert Checked(plan[i]);
    }
    FirstApplied(config, st, reply, v, n, accepted);
    if m > n + accepted {
      AppliedStep(st, plan, reply, before.writes, m - 1);
    }
  }

  lemma AppliedNone(st: ChannelState, plan: seq<Edit>, reply: nat -> int, from: nat)
    ensures Applied(st, plan[..0], reply, from) == st
  {
  }
}
