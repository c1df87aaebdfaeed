/** The loss counter of the receive threads: what it reports, against which packets were really missing. */
module SequenceTracker {

  /** The thread's last sequence number and the two totals it updates. */
  datatype Tracker = Tracker(seqNb: int, totalPackets: int, totalPacketsLost: int)

  const START := Tracker(0, 0, 0)

  predicate Is12Bit(s: int) {
    0 <= s < 4096
  }

  function Abs(x: int): nat {
    if x < 0 then -x else x
  }

  /** What one received number `s` adds to both totals when the previous one was `prev`. */
  function Skipped(prev: int, s: int): nat {
    if s != prev + 1 && prev != 4095 && s != 0 then Abs(s - prev) else 0
  }

  function Track(t: Tracker, s: int): Tracker {
    var skipped := Skipped(t.seqNb, s);
    Tracker(s, t.totalPackets + 1 + skipped, t.totalPacketsLost + skipped)
  }

  /** The tracker after a whole run of numbers. */
  function TrackAll(t: Tracker, ss: seq<int>): Tracker
    decreases |ss|
  {
    if ss == [] then t else Track(TrackAll(t, ss[..|ss| - 1]), ss[|ss| - 1])
  }

  lemma TrackAllSnoc(t: Tracker, ss: seq<int>, s: int)
    ensures TrackAll(t, ss + [s]) == Track(TrackAll(t, ss), s)
  {
    assert (ss + [s])[..|ss|] == ss;
  }

  lemma {:induction false} TrackAllConcat(t: Tracker, a: seq<int>, b: seq<int>)
    ensures TrackAll(t, a + b) == TrackAll(TrackAll(t, a), b)
    decreases |b|
  {
    if b == [] {
      assert a + b == a;
    } else {
      var n := |b| - 1;
      assert (a + b)[..|a| + n] == a + b[..n];
      TrackAllConcat(t, a, b[..n]);
    }
  }

  // ---------------------------------------------------------------- packet indices and true losses

  /** The n-th packet of a transmitter that counts from zero modulo 4096. */
  function Number(n: nat): (s: int)
    ensures Is12Bit(s)
  {
    n % 4096
  }

  function Numbers(idx: seq<nat>): (ss: seq<int>)
    ensures |ss| == |idx|
    ensures forall k :: 0 <= k < |ss| ==> ss[k] == Number(idx[k])
  {
    seq(|idx|, k requires 0 <= k < |idx| => Number(idx[k]))
  }

  predicate Increasing(idx: seq<nat>) {
    forall a, b :: 0 <= a < b < |idx| ==> idx[a] < idx[b]
  }

  /** Packets of the stream up to the last delivered one that were not delivered. */
  function Missing(idx: seq<nat>): int {
    if idx == [] then 0 else idx[|idx| - 1] + 1 - |idx|
  }

  /** The number of places where at least one packet was skipped. */
  function Gaps(idx: seq<nat>): nat
    decreases |idx|
  {
    if |idx| < 2 then 0
    else
      var n := |idx| - 1;
      Gaps(idx[..n]) + if idx[n] == idx[n - 1] + 1 then 0 else 1
  }

  /** How many packets j is ahead of i, as far as twelve bits can tell: every order of delivery and every distance is
      covered, a repetition is 0 ahead. */
  function Ahead(i: nat, j: nat): (d: nat)
    ensures d < 4096
  {
    (j - i) % 4096
  }

  /** A step from packet i to packet j that the tracker does not see. */
  predicate Unseen(i: nat, j: nat) {
    Ahead(i, j) <= 1 || i % 4096 == 4095 || j % 4096 == 0
  }

  lemma NumberOfNext(i: nat)
    ensures Number(i + 1) == if Number(i) == 4095 then 0 else Number(i) + 1
  {
    var q, r := i / 4096, i % 4096;
    if r == 4095 {
      assert i + 1 == 4096 * (q + 1);
    } else {
      assert i + 1 == 4096 * q + (r + 1);
    }
  }

  /** What the totals are charged for a step from packet i to packet j, told from the packet indices: a gap inside one
      epoch costs one too many, a gap across the wrap-around costs its complement. */
  function Charge(i: nat, j: nat): nat {
    if Unseen(i, j) then 0
    else if i % 4096 + Ahead(i, j) < 4096 then Ahead(i, j)
    else 4096 - Ahead(i, j)
  }

  lemma Mod4096(n: int, q: int, r: int)
    requires n == 4096 * q + r && 0 <= r < 4096
    ensures n % 4096 == r && n / 4096 == q
  {
  }

  lemma NumberAhead(i: nat, j: nat)
    ensures var r, d := Number(i), Ahead(i, j); Number(j) == if r + d < 4096 then r + d else r + d - 4096
  {
    var p, r, q, d := i / 4096, i % 4096, (j - i) / 4096, (j - i) % 4096;
    if r + d < 4096 {
      Mod4096(j, p + q, r + d);
    } else {
      Mod4096(j, p + q + 1, r + d - 4096);
    }
  }

  /** For every two packets, in whatever order they arrive. */
  lemma ChargeOfJump(i: nat, j: nat)
    ensures Skipped(Number(i), Number(j)) == Charge(i, j)
  {
    NumberAhead(i, j);
  }

  lemma AheadForward(i: nat, j: nat)
    requires i <= j < i + 4096
    ensures Ahead(i, j) == j - i
    ensures i % 4096 + (j - i) < 4096 <==> i / 4096 == j / 4096
  {
    var p, r := i / 4096, i % 4096;
    if r + (j - i) < 4096 {
      Mod4096(j, p, r + (j - i));
    } else {
      Mod4096(j, p + 1, r + (j - i) - 4096);
    }
  }

  /** A step forward by less than an epoch: a repetition and the next packet cost nothing, nor does a gap next to the
      wrap-around; any other costs its length inside an epoch and its complement across two. */
  lemma ForwardCharge(i: nat, j: nat)
    requires i <= j < i + 4096
    ensures Skipped(Number(i), Number(j)) ==
      if j <= i + 1 || i % 4096 == 4095 || j % 4096 == 0 then 0
      else if i / 4096 == j / 4096 then j - i
      else 4096 - (j - i)
  {
    AheadForward(i, j);
    ChargeOfJump(i, j);
  }

  /** A step back by less than an epoch costs its length inside an epoch and its complement across two. */
  lemma BackwardCharge(i: nat, j: nat)
    requires j < i < j + 4096
    ensures Skipped(Number(i), Number(j)) ==
      if i % 4096 == 4095 || j % 4096 == 0 || i == j + 4095 then 0
      else if i / 4096 == j / 4096 then i - j
      else 4096 - (i - j)
  {
    AheadForward(j, i);
    NumberAhead(j, i);
  }

  /** On a single jump the charge is the true loss exactly when nothing is missing. */
  lemma JumpChargeExactIff(i: nat, j: nat)
    requires i < j < i + 4096
    ensures Skipped(Number(i), Number(j)) == j - i - 1 <==> j == i + 1
  {
    ForwardCharge(i, j);
  }

  // ---------------------------------------------------------------- repetitions

  /** A run of numbers without the immediate repetitions. */
  function Deduplicated(ss: seq<int>): (r: seq<int>)
    ensures |r| <= |ss|
    ensures ss != [] ==> r != [] && r[|r| - 1] == ss[|ss| - 1]
    decreases |ss|
  {
    if |ss| < 2 then ss
    else
      var n := |ss| - 1;
      if ss[n] == ss[n - 1] then Deduplicated(ss[..n]) else Deduplicated(ss[..n]) + [ss[n]]
  }

  /** Repeated packets are counted, but never reported as lost. */
  lemma {:induction false} RepetitionsFree(t: Tracker, ss: seq<int>)
    ensures var all, once := TrackAll(t, ss), TrackAll(t, Deduplicated(ss));
      && all.totalPacketsLost == once.totalPacketsLost && all.seqNb == once.seqNb
      && all.totalPackets == once.totalPackets + |ss| - |Deduplicated(ss)|
    decreases |ss|
  {
    hide Skipped;
    if |ss| < 2 {
    } else {
      var n := |ss| - 1;
      RepetitionsFree(t, ss[..n]);
      if ss[n] == ss[n - 1] {
        LastTracked(t, ss[..n]);
        SameNumberFree(ss[n]);
      } else {
        TrackAllSnoc(t, Deduplicated(ss[..n]), ss[n]);
      }
    }
  }

  lemma LastTracked(t: Tracker, ss: seq<int>)
    requires ss != []
    ensures TrackAll(t, ss).seqNb == ss[|ss| - 1]
  {
  }

  lemma SameNumberFree(s: int)
    ensures Skipped(s, s) == 0
  {
  }

  // ---------------------------------------------------------------- whole runs of one stream

  predicate AllUnseen(idx: seq<nat>) {
    forall k {:trigger idx[k]} :: 0 < k < |idx| ==> Unseen(idx[k - 1], idx[k])
  }

  function Charges(idx: seq<nat>): nat
    decreases |idx|
  {
    if |idx| < 2 then 0
    else
      var n := |idx| - 1;
      Charges(idx[..n]) + Charge(idx[n - 1], idx[n])
  }

  /** What the very first packet is charged: a thread starts as if number 0 had just been received. */
  function FirstCharge(first: nat): nat {
    if Number(first) <= 1 then 0 else Number(first)
  }

  /** The exact totals after any delivered packets of the stream, with any gaps, repetitions and changes of order. */
  lemma {:induction false} LossOfRun(idx: seq<nat>)
    requires idx != []
    ensures var lost := FirstCharge(idx[0]) + Charges(idx);
      TrackAll(START, Numbers(idx)) == Tracker(Number(idx[|idx| - 1]), |idx| + lost, lost)
    decreases |idx|
  {
    hide Number, Numbers, Skipped, Charge, TrackAll, FirstCharge;
    LastNumber(idx);
    if |idx| == 1 {
      OnlyNumber(idx[0]);
      assert idx == [idx[0]];
    } else {
      var n := |idx| - 1;
      LossOfRun(idx[..n]);
      ChargeOfJump(idx[n - 1], idx[n]);
    }
  }

  lemma OnlyNumber(first: nat)
    ensures TrackAll(START, Numbers([first])) == Tracker(Number(first), 1 + FirstCharge(first), FirstCharge(first))
  {
    LastNumber([first]);
    FirstNumber(first);
  }

  lemma LastNumber(idx: seq<nat>)
    requires idx != []
    ensures var n := |idx| - 1;
      TrackAll(START, Numbers(idx)) == Track(TrackAll(START, Numbers(idx[..n])), Number(idx[n]))
  {
    var n := |idx| - 1;
    assert Numbers(idx)[..n] == Numbers(idx[..n]);
  }

  lemma FirstNumber(first: nat)
    ensures Skipped(0, Number(first)) == FirstCharge(first)
  {
  }

  lemma {:induction false} NoChargesIff(idx: seq<nat>)
    ensures Charges(idx) == 0 <==> AllUnseen(idx)
    decreases |idx|
  {
    hide Unseen, Charge;
    if |idx| < 2 {
    } else {
      var n := |idx| - 1;
      var pre := idx[..n];
      NoChargesIff(pre);
      NoChargeIff(idx[n - 1], idx[n]);
      assert forall k :: 0 <= k < n ==> pre[k] == idx[k];
      assert AllUnseen(idx) <==> AllUnseen(pre) && Unseen(idx[n - 1], idx[n]);
    }
  }

  lemma NoChargeIff(i: nat, j: nat)
    ensures Charge(i, j) == 0 <==> Unseen(i, j)
  {
  }

  /** No loss is reported exactly when the run starts at number 0 or 1 and every step that is neither a repetition nor
      to the next packet starts from number 4095 or leads to number 0. */
  lemma NoLossReportedIff(idx: seq<nat>)
    requires idx != []
    ensures TrackAll(START, Numbers(idx)).totalPacketsLost == 0 <==> Number(idx[0]) <= 1 && AllUnseen(idx)
  {
    LossOfRun(idx);
    NoChargesIff(idx);
  }

  lemma {:induction false} ChargesWithinOneEpoch(idx: seq<nat>)
    requires idx != [] && Increasing(idx) && idx[|idx| - 1] < 4096
    ensures Charges(idx) == Missing(idx) - idx[0] + Gaps(idx)
    ensures Gaps(idx) <= Missing(idx) - idx[0]
    ensures Gaps(idx) == 0 <==> Missing(idx) == idx[0]
    decreases |idx|
  {
    hide Charge;
    if |idx| <= 1 {
    } else {
      ChargesWithinOneEpoch(idx[..|idx| - 1]);
      ChargeWithinEpoch(idx[|idx| - 2], idx[|idx| - 1]);
    }
  }

  lemma ChargeWithinEpoch(i: nat, j: nat)
    requires i < j < 4096
    ensures Charge(i, j) == if j == i + 1 then 0 else j - i
  {
    AheadForward(i, j);
  }

  /** Within one epoch of 4096 numbers a run that starts with packet 0 is charged every missing packet and one more
      for every gap; so the counter is right only when nothing is missing, and never more than twice the truth. */
  lemma LossWithinOneEpoch(idx: seq<nat>)
    requires idx != [] && idx[0] == 0 && Increasing(idx) && idx[|idx| - 1] < 4096
    ensures var lost := TrackAll(START, Numbers(idx)).totalPacketsLost;
      && lost == Missing(idx) + Gaps(idx)
      && (lost == Missing(idx) <==> Missing(idx) == 0)
      && lost <= 2 * Missing(idx)
  {
    assert FirstCharge(0) == 0;
    hide TrackAll, Numbers, Gaps, Charges;
    LossOfRun(idx);
    ChargesWithinOneEpoch(idx);
  }

  /** The smallest runs with a wrong report: packets 0 and g + 1 are delivered, the g between them are missing. */
  lemma GapReportedOneTooHigh(g: nat)
    requires 0 < g < 4095
    ensures Missing([0, g + 1]) == g
    ensures TrackAll(START, Numbers([0, g + 1])).totalPacketsLost == g + 1
  {
    var idx := [0, g + 1];
    LossWithinOneEpoch(idx);
    assert idx[..1] == [0];
    assert Gaps([0]) == 0 && Gaps(idx) == 1;
  }

  function Consecutive(from: nat, count: nat): (idx: seq<nat>)
    ensures |idx| == count
    ensures forall k :: 0 <= k < count ==> idx[k] == from + k
  {
    seq(count, k => from + k)
  }

  /** A receiver that joins a lossless stream at packet `from` is charged that packet's number once
      (nothing for numbers 0 and 1), and nothing ever after. */
  lemma LosslessRun(from: nat, count: nat)
    requires count > 0
    ensures TrackAll(START, Numbers(Consecutive(from, count))).totalPacketsLost == FirstCharge(from)
  {
    LossOfRun(Consecutive(from, count));
    NoChargesIff(Consecutive(from, count));
  }

  lemma {:induction false} SameNumberSameLosses(t: Tracker, u: Tracker, ss: seq<int>)
    requires t.seqNb == u.seqNb
    ensures TrackAll(t, ss).seqNb == TrackAll(u, ss).seqNb
    ensures TrackAll(t, ss).totalPacketsLost - t.totalPacketsLost
      == TrackAll(u, ss).totalPacketsLost - u.totalPacketsLost
    decreases |ss|
  {
    if ss == [] {
    } else {
      SameNumberSameLosses(t, u, ss[..|ss| - 1]);
    }
  }

  /** Prepending the phantom packet 0 changes nothing. */
  lemma StartActsAsPacketZero(ss: seq<int>)
    ensures TrackAll(START, [0] + ss).totalPacketsLost == TrackAll(START, ss).totalPacketsLost
    ensures TrackAll(START, [0] + ss).seqNb == TrackAll(START, ss).seqNb
  {
    TrackAllConcat(START, [0], ss);
    assert [0][..0] == [];
    SameNumberSameLosses(TrackAll(START, [0]), START, ss);
  }

  // ---------------------------------------------------------------- several streams, shared totals

  /** A packet processed by the thread of one stream. */
  datatype Processed = Processed(stream: nat, s: int)

  /** Every stream has its own last number; the two totals are shared. */
  datatype Shared = Shared(last: seq<int>, totalPackets: int, totalPacketsLost: int)

  predicate ValidRun(n: nat, es: seq<Processed>) {
    forall e <- es :: e.stream < n && Is12Bit(e.s)
  }

  function SharedStep(sh: Shared, e: Processed): (r: Shared)
    requires e.stream < |sh.last|
    ensures |r.last| == |sh.last|
  {
    var skipped := Skipped(sh.last[e.stream], e.s);
    Shared(sh.last[e.stream := e.s], sh.totalPackets + 1 + skipped, sh.totalPacketsLost + skipped)
  }

  function SharedRun(n: nat, es: seq<Processed>): (r: Shared)
    requires ValidRun(n, es)
    ensures |r.last| == n
    decreases |es|
  {
    if es == [] then Shared(seq(n, _ => 0), 0, 0)
    else SharedStep(SharedRun(n, es[..|es| - 1]), es[|es| - 1])
  }

  /** The numbers one stream's thread sees. */
  function Project(es: seq<Processed>, stream: nat): seq<int>
    decreases |es|
  {
    if es == [] then []
    else
      var n := |es| - 1;
      if es[n].stream == stream then Project(es[..n], stream) + [es[n].s] else Project(es[..n], stream)
  }

  /** The losses the first n streams would report on their own. */
  function SumOfLosses(n: nat, es: seq<Processed>): int {
    if n == 0 then 0 else SumOfLosses(n - 1, es) + TrackAll(START, Project(es, n - 1)).totalPacketsLost
  }

  lemma {:induction false} SumOfLossesStep(n: nat, pre: seq<Processed>, e: Processed)
    ensures SumOfLosses(n, pre + [e]) == SumOfLosses(n, pre) +
      if e.stream < n then Skipped(TrackAll(START, Project(pre, e.stream)).seqNb, e.s) else 0
  {
    hide Skipped, TrackAll, Project;
    if n == 0 {
    } else {
      SumOfLossesStep(n - 1, pre, e);
      ProjectSnoc(pre, e, n - 1);
      if e.stream == n - 1 {
        TrackAllSnoc(START, Project(pre, n - 1), e.s);
      }
    }
  }

  lemma ProjectSnoc(pre: seq<Processed>, e: Processed, stream: nat)
    ensures Project(pre + [e], stream)
      == if e.stream == stream then Project(pre, stream) + [e.s] else Project(pre, stream)
  {
    assert (pre + [e])[..|pre|] == pre;
  }

  /** Each stream's last number is its own tracker's. */
  lemma {:induction false} SharedLast(n: nat, es: seq<Processed>)
    requires ValidRun(n, es)
    ensures forall k :: 0 <= k < n ==>
      SharedRun(n, es).last[k] == TrackAll(START, Project(es, k)).seqNb && Is12Bit(SharedRun(n, es).last[k])
    decreases |es|
  {
    hide Skipped;
    if es == [] {
    } else {
      var pre, e := es[..|es| - 1], es[|es| - 1];
      assert es == pre + [e] && e in es;
      SharedLast(n, pre);
      forall k | 0 <= k < n
        ensures SharedRun(n, es).last[k] == TrackAll(START, Project(es, k)).seqNb && Is12Bit(SharedRun(n, es).last[k])
      {
        ProjectSnoc(pre, e, k);
        TrackAllSnoc(START, Project(pre, k), e.s);
      }
    }
  }

  lemma SkippedBounded(prev: int, s: int)
    requires Is12Bit(prev) && Is12Bit(s)
    ensures 0 <= Skipped(prev, s) <= 4095
  {
  }

  /** However the threads interleave, the shared totals count every packet once and the lost total is the sum of
      what the streams would report alone; the reported rate never exceeds 4095/4096. */
  lemma {:induction false} SharedTotals(n: nat, es: seq<Processed>)
    requires ValidRun(n, es)
    ensures var r := SharedRun(n, es);
      && r.totalPackets - r.totalPacketsLost == |es|
      && r.totalPacketsLost == SumOfLosses(n, es)
      && 0 <= 4096 * r.totalPacketsLost <= 4095 * r.totalPackets
    decreases |es|
  {
    hide Skipped, TrackAll, Project, SumOfLosses;
    if es == [] {
      NothingProcessed(n);
    } else {
      var pre, e := es[..|es| - 1], es[|es| - 1];
      assert es == pre + [e] && e in es;
      SharedTotals(n, pre);
      SharedLast(n, pre);
      SumOfLossesStep(n, pre, e);
      SkippedBounded(SharedRun(n, pre).last[e.stream], e.s);
    }
  }

  lemma {:induction false} NothingProcessed(n: nat)
    ensures SumOfLosses(n, []) == 0
  {
    if n == 0 {
    } else {
      NothingProcessed(n - 1);
    }
  }
}
