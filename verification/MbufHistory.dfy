/** Which reader gets which packet, and what follows for the ring, the totals and the delivered samples. */
module MbufHistory {
  import opened Words
  import opened Samples
  import opened SequenceTracker
  import opened DpdkSource
  import opened MbufSystem
  import opened MbufSafety

  // ---------------------------------------------------------------- who got which packet

  /** Positions of the arrivals taken by a reader. */
  function IndicesOf(takenBy: seq<Reader>, who: Reader): (idx: seq<nat>)
    ensures forall k :: 0 <= k < |idx| ==> idx[k] < |takenBy|
    decreases |takenBy|
  {
    if takenBy == [] then []
    else
      var n := |takenBy| - 1;
      if takenBy[n] == who then IndicesOf(takenBy[..n], who) + [n] else IndicesOf(takenBy[..n], who)
  }

  function PacketsAt(arrivals: seq<Mbuf>, idx: seq<nat>): (ms: seq<Mbuf>)
    requires forall k :: 0 <= k < |idx| ==> idx[k] < |arrivals|
    ensures |ms| == |idx|
  {
    seq(|idx|, k requires 0 <= k < |idx| => arrivals[idx[k]])
  }

  lemma IndicesSnoc(takenBy: seq<Reader>, who: Reader, other: Reader)
    ensures IndicesOf(takenBy + [who], other) ==
      if other == who then IndicesOf(takenBy, other) + [|takenBy|] else IndicesOf(takenBy, other)
  {
    assert (takenBy + [who])[..|takenBy|] == takenBy;
  }

  lemma {:induction false} IndicesOfBurst(takenBy: seq<Reader>, who: Reader, n: nat, other: Reader)
    ensures IndicesOf(takenBy + seq(n, _ => who), other) ==
      if other == who then IndicesOf(takenBy, other) + Consecutive(|takenBy|, n) else IndicesOf(takenBy, other)
  {
    hide IndicesOf;
    var all := takenBy + seq(n, _ => who);
    if n == 0 {
      assert all == takenBy;
    } else {
      var pre := takenBy + seq(n - 1, _ => who);
      IndicesOfBurst(takenBy, who, n - 1, other);
      IndicesSnoc(pre, who, other);
      assert all == pre + [who];
      assert Consecutive(|takenBy|, n) == Consecutive(|takenBy|, n - 1) + [|pre|];
    }
  }

  lemma MoreArrivals(arrivals: seq<Mbuf>, m: Mbuf, idx: seq<nat>)
    requires forall k :: 0 <= k < |idx| ==> idx[k] < |arrivals|
    ensures PacketsAt(arrivals + [m], idx) == PacketsAt(arrivals, idx)
  {
  }

  lemma MoreTaken(arrivals: seq<Mbuf>, idx: seq<nat>, from: nat, n: nat)
    requires forall k :: 0 <= k < |idx| ==> idx[k] < |arrivals|
    requires from + n <= |arrivals|
    ensures PacketsAt(arrivals, idx + Consecutive(from, n))
      == PacketsAt(arrivals, idx) + arrivals[from..from + n]
  {
  }

  /** The packets a reader has read so far. */
  function Seen(h: Hand): seq<Mbuf> {
    if h.read && h.mbufs != [] then h.done + [h.mbufs[0]] else h.done
  }

  ghost predicate HandFollows(s: System, who: Reader) {
    && |s.takenBy| <= |s.arrivals|
    && (HandOf(s, who).mbufs == [] ==> !HandOf(s, who).read)
    && HandOf(s, who).done + HandOf(s, who).mbufs == PacketsAt(s.arrivals, IndicesOf(s.takenBy, who))
  }

  /** Every arrival is on the queue or goes to exactly one reader, in order. */
  ghost predicate Followed(s: System) {
    && |s.takenBy| <= |s.arrivals|
    && s.queue == s.arrivals[|s.takenBy|..]
    && HandFollows(s, Rx)
    && HandFollows(s, Gs)
  }

  /** The totals are the tracker's over what the thread has read. */
  predicate Tracked(s: System) {
    s.tracker == TrackAll(START, NumbersOf(Seen(s.rx)))
  }

  /** The delivered samples are the flat decode of what GetSamples has read. */
  predicate Decoded(c: Config, s: System) {
    c.norm != 0.0 ==> s.delivered == DecodeAll(Payloads(Seen(s.gs)), c.norm)
  }

  /** Ring and leaks are the accepted packets in order. */
  predicate Stored(c: Config, s: System) {
    && s.ring + s.leaked == Select(s.rx.done, c.port, Enqueue)
    && |s.ring| <= c.ringCapacity
    && (s.leaked != [] ==> |s.ring| == c.ringCapacity)
  }

  lemma TakeFillsHand(s: System, who: Reader, n: nat)
    requires Followed(s) && n <= |s.queue| && HandOf(s, who).mbufs == []
    ensures HandFollows(Take(s, who, n), who)
  {
    hide IndicesOf, PacketsAt, TakenEvents;
    IndicesOfBurst(s.takenBy, who, n, who);
    MoreTaken(s.arrivals, IndicesOf(s.takenBy, who), |s.takenBy|, n);
    assert s.queue[..n] == s.arrivals[|s.takenBy|..|s.takenBy| + n];
  }

  lemma TakeKeepsHand(s: System, who: Reader, n: nat, other: Reader)
    requires Followed(s) && n <= |s.queue| && other != who
    ensures HandFollows(Take(s, who, n), other)
  {
    hide IndicesOf, PacketsAt, TakenEvents;
    IndicesOfBurst(s.takenBy, who, n, other);
  }

  lemma FillKeepsHand(s: System, m: Mbuf, who: Reader)
    requires HandFollows(s, who)
    ensures HandFollows(Fill(s, m), who)
  {
    hide IndicesOf, PacketsAt;
    MoreArrivals(s.arrivals, m, IndicesOf(s.takenBy, who));
  }

  /** The steps on packets in hand. */
  lemma StepKeepsHand(c: Config, s: System, step: Step, who: Reader)
    requires HandFollows(s, who) && (step.ReadHead? || step.DisposeHead?)
    ensures HandFollows(Do(c, s, step), who)
  {
    hide Track, DecodeAll, IndicesOf, PacketsAt, Classify;
  }

  lemma FollowedKept(c: Config, s: System, step: Step)
    requires Followed(s)
    ensures Followed(Do(c, s, step))
  {
    hide HandFollows, Track, DecodeAll, Classify, TakenEvents;
    if Enabled(s, step) {
      match step
      case NicReceive(m) =>
        FillKeepsHand(s, m, Rx);
        FillKeepsHand(s, m, Gs);
      case Poll(who, _, n) =>
        TakeFillsHand(s, who, n);
        TakeKeepsHand(s, who, n, if who == Rx then Gs else Rx);
      case _ =>
        StepKeepsHand(c, s, step, Rx);
        StepKeepsHand(c, s, step, Gs);
    }
  }

  lemma TrackedKept(c: Config, s: System, step: Step)
    requires Tracked(s)
    ensures Tracked(Do(c, s, step))
  {
    hide Track, TrackAll, DecodeAll, Classify, TakenEvents;
    if step == ReadHead(Rx) && Enabled(s, step) {
      CountedSnoc(START, s.rx.done, s.rx.mbufs[0]);
    }
  }

  lemma DecodedKept(c: Config, s: System, step: Step)
    requires Decoded(c, s)
    ensures Decoded(c, Do(c, s, step))
  {
    hide Track, DecodeAll, Payloads, Classify, TakenEvents;
    if step == ReadHead(Gs) && Enabled(s, step) {
      DecodedRead(c, s);
    }
  }

  lemma DecodedRead(c: Config, s: System)
    requires Decoded(c, s) && s.gs.mbufs != [] && !s.gs.read
    ensures Decoded(c, ReadFirst(c, s, Gs))
  {
    hide DecodeAll, PayloadOf;
    if c.norm != 0.0 {
      var m := s.gs.mbufs[0];
      AppendBurst(s.gs.done, [m], c.norm);
      assert Payloads([m]) == [PayloadOf(m)];
    }
  }

  lemma StoredKept(c: Config, s: System, step: Step)
    requires Stored(c, s)
    ensures Stored(c, Do(c, s, step))
  {
    hide Track, DecodeAll, Select, Classify, TakenEvents;
    if step == DisposeHead(Rx) && Enabled(s, step) {
      SelectSnoc(s.rx.done, s.rx.mbufs[0], c.port, Enqueue);
    }
  }

  /** The four together, in every run. */
  lemma {:induction false} HistoryAlways(c: Config, steps: seq<Step>)
    ensures Followed(Run(c, steps)) && Tracked(Run(c, steps))
    ensures Decoded(c, Run(c, steps)) && Stored(c, Run(c, steps))
    decreases |steps|
  {
    hide Do, Followed, Tracked, Decoded, Stored;
    if steps == [] {
      InitHistory(c);
    } else {
      var pre, step := Run(c, steps[..|steps| - 1]), steps[|steps| - 1];
      HistoryAlways(c, steps[..|steps| - 1]);
      FollowedKept(c, pre, step);
      TrackedKept(c, pre, step);
      DecodedKept(c, pre, step);
      StoredKept(c, pre, step);
    }
  }

  lemma InitHistory(c: Config)
    ensures Followed(Init(c)) && Tracked(Init(c)) && Decoded(c, Init(c)) && Stored(c, Init(c))
  {
  }

  // ---------------------------------------------------------------- consequences for whole runs

  /** The ring and the leaked buffers are what the receive thread alone would make of the packets it has disposed of,
      however the other steps interleave: the first accepted packets up to the ring's room, and the later ones. */
  lemma RingAsInThread(c: Config, steps: seq<Step>)
    ensures var s := Run(c, steps);
      var accepted := Select(s.rx.done, c.port, Enqueue);
      var n := Fitting(c.ringCapacity, accepted);
      s.ring == accepted[..n] && s.leaked == accepted[n..]
  {
    hide Run, Select, Followed, Tracked, Decoded;
    var s := Run(c, steps);
    HistoryAlways(c, steps);
    var accepted := Select(s.rx.done, c.port, Enqueue);
    assert s.ring == accepted[..|s.ring|] && s.leaked == accepted[|s.ring|..];
  }

  /** The thread accepts at most as many packets as the pool has buffers, ever; it leaks exactly those of them that
      the ring cannot hold. */
  lemma AcceptedAndLeakedBounded(c: Config, steps: seq<Step>)
    ensures var s := Run(c, steps);
      var accepted := |Select(s.rx.done, c.port, Enqueue)|;
      && accepted <= c.poolSize
      && |s.ring| + |s.leaked| == accepted
      && |s.leaked| == (if accepted <= c.ringCapacity then 0 else accepted - c.ringCapacity)
      && |s.leaked| <= if c.poolSize <= c.ringCapacity then 0 else c.poolSize - c.ringCapacity
  {
    var s := Run(c, steps);
    BuffersSafe(c, steps);
    HistoryAlways(c, steps);
    AllIdsOnce(c.poolSize);
    BagSize(s);
    assert |s.ring + s.leaked| == |s.ring| + |s.leaked|;
  }

  lemma BagSize(s: System)
    ensures |Bag(s)| == |s.pool| + |s.queue| + |s.rx.mbufs| + |s.gs.mbufs| + |s.ring| + |s.leaked|
  {
    hide IdBag;
    IdBagSize(s.queue);
    IdBagSize(s.rx.mbufs);
    IdBagSize(s.gs.mbufs);
    IdBagSize(s.ring);
    IdBagSize(s.leaked);
  }

  /** With the sizes the driver asks DPDK for: 4096 buffers, and a ring of 4096 slots that holds 4095. */
  lemma DriverLeaksAtMostOne(port: Word16, norm: real, steps: seq<Step>)
    ensures |Run(Config(4096, 4095, port, norm), steps).leaked| <= 1
  {
    AcceptedAndLeakedBounded(Config(4096, 4095, port, norm), steps);
  }

  // ---------------------------------------------------------------- standstill

  /** The program has ended, or all its buffers are in the ring or leaked. */
  predicate Stuck(c: Config, s: System) {
    s.ended || |Select(s.rx.done, c.port, Enqueue)| == c.poolSize
  }

  /** Every enabled step changes the state, except a poll that gets nothing. */
  lemma EnabledMoves(c: Config, s: System, step: Step)
    requires Enabled(s, step) && (step.Poll? ==> step.n > 0)
    ensures Do(c, s, step) != s
  {
    hide Classify, Track, DecodeAll;
    match step
    case NicReceive(m) => assert |Fill(s, m).queue| == |s.queue| + 1;
    case Poll(who, _, n) => assert |Take(s, who, n).queue| == |s.queue| - n;
    case ReadHead(who) => assert |ReadFirst(c, s, who).events| == |s.events| + 1;
    case DisposeHead(who) =>
      if who == Rx && Classify(s.rx.mbufs[0], c.port) == Throw {
        assert DisposeFirst(c, s, who).ended;
      } else {
        assert |DisposeFirst(c, s, who).events| == |s.events| + 1;
      }
  }

  /** Where no step changes anything, and the program runs, all buffers are in the ring or leaked. */
  lemma NothingLeftToDo(c: Config, s: System)
    requires !s.ended && forall step :: Do(c, s, step) == s
    ensures s.pool == multiset{} && s.queue == s.gs.mbufs == s.rx.mbufs == []
  {
    hide Do;
    if s.pool != multiset{} {
      var id :| id in s.pool;
      EnabledMoves(c, s, NicReceive(Mbuf(id, seq(DATA_ROOM, _ => 0), 0)));
    }
    if s.gs.mbufs != [] {
      EnabledMoves(c, s, if s.gs.read then DisposeHead(Gs) else ReadHead(Gs));
    } else if s.queue != [] {
      EnabledMoves(c, s, Poll(Gs, 0, 1));
    }
    if s.rx.mbufs != [] {
      EnabledMoves(c, s, if s.rx.read then DisposeHead(Rx) else ReadHead(Rx));
    }
  }

  lemma PlacesAddUp(c: Config, steps: seq<Step>)
    ensures var s := Run(c, steps);
      c.poolSize == |s.pool| + |s.queue| + |s.rx.mbufs| + |s.gs.mbufs| + |Select(s.rx.done, c.port, Enqueue)|
  {
    hide Run, Select, Bag;
    AcceptedAndLeakedBounded(c, steps);
    BuffersSafe(c, steps);
    AllIdsOnce(c.poolSize);
    BagSize(Run(c, steps));
  }

  lemma NoStepMoves(c: Config, steps: seq<Step>, step: Step)
    requires Stuck(c, Run(c, steps))
    ensures Do(c, Run(c, steps), step) == Run(c, steps)
  {
    hide Run, Select, Followed;
    var s := Run(c, steps);
    PlacesAddUp(c, steps);
    HistoryAlways(c, steps);
    if !s.ended {
      assert |s.pool| == 0 && s.queue == s.rx.mbufs == s.gs.mbufs == [];
      NothingToRead(s, Rx);
      NothingToRead(s, Gs);
    }
  }

  lemma NothingToRead(s: System, who: Reader)
    requires Followed(s) && HandOf(s, who).mbufs == []
    ensures !HandOf(s, who).read
  {
  }

  /** No step changes anything exactly when the program has ended or the thread has accepted as many packets as the
      pool has buffers. */
  lemma StandsStillIff(c: Config, steps: seq<Step>)
    ensures (forall step :: Do(c, Run(c, steps), step) == Run(c, steps)) <==> Stuck(c, Run(c, steps))
  {
    hide Do, Run, Select;
    if Stuck(c, Run(c, steps)) {
      forall step
        ensures Do(c, Run(c, steps), step) == Run(c, steps)
      {
        NoStepMoves(c, steps, step);
      }
    } else if forall step :: Do(c, Run(c, steps), step) == Run(c, steps) {
      PlacesAddUp(c, steps);
      NothingLeftToDo(c, Run(c, steps));
    }
  }

  /** Nothing takes buffers out of the ring, so a stream that stands still does so forever: no packet can arrive, no
      reader gets anything. */
  lemma {:induction false} StandsStill(c: Config, steps: seq<Step>, more: seq<Step>)
    requires Stuck(c, Run(c, steps))
    ensures Run(c, steps + more) == Run(c, steps)
    decreases |more|
  {
    hide Do, Stuck;
    if more == [] {
      assert steps + more == steps;
    } else {
      var n := |more| - 1;
      StandsStill(c, steps, more[..n]);
      assert (steps + more)[..|steps| + n] == steps + more[..n];
      NoStepMoves(c, steps, more[n]);
    }
  }

  /** One buffer filled with the frame of m and passed through the receive thread. */
  function Round(m: Mbuf, id: nat): seq<Step> {
    [NicReceive(m.(id := id)), Poll(Rx, 0, 1), ReadHead(Rx), DisposeHead(Rx)]
  }

  function Rounds(m: Mbuf, n: nat): seq<Step> {
    if n == 0 then [] else Rounds(m, n - 1) + Round(m, n - 1)
  }

  ghost predicate Rested(s: System, n: nat) {
    && s.queue == [] && s.rx.mbufs == [] && s.gs.mbufs == [] && !s.ended
    && forall x <- s.ring + s.leaked :: x.id < n
  }

  lemma RunRound(c: Config, steps: seq<Step>, m: Mbuf, id: nat)
    ensures Run(c, steps + Round(m, id)) ==
      Do(c, Do(c, Do(c, Do(c, Run(c, steps), Round(m, id)[0]), Round(m, id)[1]), Round(m, id)[2]), Round(m, id)[3])
  {
    hide Do;
    var r := Round(m, id);
    RunSnoc(c, steps, r[0]);
    RunSnoc(c, steps + [r[0]], r[1]);
    RunSnoc(c, steps + [r[0]] + [r[1]], r[2]);
    RunSnoc(c, steps + [r[0]] + [r[1]] + [r[2]], r[3]);
    assert steps + r == steps + [r[0]] + [r[1]] + [r[2]] + [r[3]];
  }

  lemma RunSnoc(c: Config, steps: seq<Step>, step: Step)
    ensures Run(c, steps + [step]) == Do(c, Run(c, steps), step)
  {
    assert (steps + [step])[..|steps|] == steps;
  }

  lemma {:induction false} InBag(ms: seq<Mbuf>, id: nat)
    requires id in IdBag(ms)
    ensures exists x :: x in ms && x.id == id
    decreases |ms|
  {
    if ms[0].id != id {
      InBag(ms[1..], id);
      var x :| x in ms[1..] && x.id == id;
      assert x in ms;
    } else {
      assert ms[0] in ms;
    }
  }

  /** The round up to the point where the thread has read its packet. */
  lemma RoundReads(c: Config, s: System, x: Mbuf)
    requires !s.ended && s.queue == s.rx.mbufs == [] && x.id in s.pool
    ensures var t := Do(c, Do(c, Do(c, s, NicReceive(x)), Poll(Rx, 0, 1)), ReadHead(Rx));
      && !t.ended && t.queue == [] && t.rx == Hand(s.rx.done, [x], true)
      && t.gs == s.gs && t.ring == s.ring && t.leaked == s.leaked
  {
    hide Track, DecodeAll, TakenEvents;
    var a := Do(c, s, NicReceive(x));
    assert a.queue == [x];
  }

  lemma RoundAccepts(c: Config, s: System, m: Mbuf, n: nat)
    requires Rested(s, n) && n in s.pool && Classify(m.(id := n), c.port) == Enqueue
    ensures var r := Round(m, n);
      var t := Do(c, Do(c, Do(c, Do(c, s, r[0]), r[1]), r[2]), r[3]);
      Rested(t, n + 1) && t.rx.done == s.rx.done + [m.(id := n)]
  {
    hide Classify;
    RoundReads(c, s, m.(id := n));
    var r := Round(m, n);
    AcceptRead(c, Do(c, Do(c, Do(c, s, r[0]), r[1]), r[2]), n);
  }

  lemma AcceptRead(c: Config, t: System, n: nat)
    requires !t.ended && t.queue == t.gs.mbufs == [] && |t.rx.mbufs| == 1 && t.rx.read && t.rx.mbufs[0].id == n
    requires Classify(t.rx.mbufs[0], c.port) == Enqueue && forall x <- t.ring + t.leaked :: x.id < n
    ensures var u := Do(c, t, DisposeHead(Rx)); Rested(u, n + 1) && u.rx.done == t.rx.done + t.rx.mbufs
  {
    hide Classify;
  }

  lemma RestedInit(c: Config)
    ensures Rested(Run(c, []), 0) && Select(Run(c, []).rx.done, c.port, Enqueue) == []
  {
  }

  lemma NextInPool(s: System, n: nat)
    requires Rested(s, n) && Bag(s)[n] == 1
    ensures n in s.pool
  {
    hide IdBag;
    IdBagEmpty();
    if n in IdBag(s.ring) {
      InBag(s.ring, n);
    }
    if n in IdBag(s.leaked) {
      InBag(s.leaked, n);
    }
  }

  lemma SameFrame(m: Mbuf, id: nat, port: Word16)
    ensures Classify(m.(id := id), port) == Classify(m, port)
  {
  }

  /** The standstill is reached: for any frame the thread accepts there is a run in which it has accepted as many
      packets as the pool has buffers, and then leaked exactly what the ring cannot hold. */
  lemma {:induction false} StandstillReachable(c: Config, m: Mbuf, n: nat)
    requires n <= c.poolSize && Classify(m, c.port) == Enqueue
    ensures var s := Run(c, Rounds(m, n));
      Rested(s, n) && |Select(s.rx.done, c.port, Enqueue)| == n
  {
    hide Classify, Do, At, LifeOf, Bag, Rested, Run;
    if n == 0 {
      RestedInit(c);
    } else {
      var s := Run(c, Rounds(m, n - 1));
      StandstillReachable(c, m, n - 1);
      BuffersSafe(c, Rounds(m, n - 1));
      NextInPool(s, n - 1);
      SameFrame(m, n - 1, c.port);
      RoundAccepts(c, s, m, n - 1);
      RunRound(c, Rounds(m, n - 1), m, n - 1);
      SelectSnoc(s.rx.done, m.(id := n - 1), c.port, Enqueue);
    }
  }

  /** A packet on which the thread throws ends the program, whatever the pool still holds. */
  lemma RoundThrows(c: Config, bad: Mbuf)
    requires c.poolSize > 0 && Classify(bad, c.port) == Throw
    ensures var s := Run(c, Round(bad, 0)); s.ended && s.rx.done == []
  {
    hide Classify, Run, Do;
    NotStarted(c);
    SameFrame(bad, 0, c.port);
    RunRound(c, [], bad, 0);
    assert [] + Round(bad, 0) == Round(bad, 0);
    RoundReads(c, Init(c), bad.(id := 0));
    var r := Round(bad, 0);
    ThrowRead(c, Do(c, Do(c, Do(c, Init(c), r[0]), r[1]), r[2]));
  }

  lemma ThrowRead(c: Config, t: System)
    requires !t.ended && t.rx.mbufs != [] && t.rx.read && Classify(t.rx.mbufs[0], c.port) == Throw
    ensures var u := Do(c, t, DisposeHead(Rx)); u.ended && u.rx.done == t.rx.done
  {
    hide Classify;
  }

  // ---------------------------------------------------------------- how much one call of GetSamples delivers

  /** Steps of which none starts a new call of GetSamples. */
  ghost predicate NoNewCall(more: seq<Step>) {
    forall step <- more :: !(step.Poll? && step.who == Gs)
  }

  /** A call for n samples whose burst has k packets, with any steps of the others in between, delivers more than n. */
  ghost predicate OverDelivers(c: Config, steps: seq<Step>, n: nat, k: nat, more: seq<Step>) {
    && NoNewCall(more)
    && |Run(c, steps + [Poll(Gs, n, k)] + more).delivered| > |Run(c, steps).delivered| + n
  }

  lemma {:induction false} CallKeepsBurst(c: Config, steps: seq<Step>, more: seq<Step>)
    requires NoNewCall(more)
    ensures var s, t := Run(c, steps), Run(c, steps + more);
      t.gs.done + t.gs.mbufs == s.gs.done + s.gs.mbufs
    decreases |more|
  {
    hide Do;
    if more == [] {
      assert steps + more == steps;
    } else {
      var n := |more| - 1;
      CallKeepsBurst(c, steps, more[..n]);
      assert steps + more == steps + more[..n] + [more[n]];
      RunSnoc(c, steps + more[..n], more[n]);
      StepKeepsBurst(c, Run(c, steps + more[..n]), more[n]);
    }
  }

  lemma StepKeepsBurst(c: Config, s: System, step: Step)
    requires !(step.Poll? && step.who == Gs)
    ensures Do(c, s, step).gs.done + Do(c, s, step).gs.mbufs == s.gs.done + s.gs.mbufs
  {
    hide Classify, Track, DecodeAll;
  }

  lemma DeliveredSize(c: Config, steps: seq<Step>)
    requires c.norm != 0.0
    ensures |Run(c, steps).delivered| == SAMPLES_PER_PACKET * |Seen(Run(c, steps).gs)|
  {
    hide Run, HandFollows, TrackAll, Select;
    HistoryAlways(c, steps);
  }

  /** A call never delivers more than what was waiting when it polled, nor more than one packet beyond the request. */
  lemma DeliveredAtMost(c: Config, steps: seq<Step>, n: nat, k: nat, more: seq<Step>)
    requires c.norm != 0.0 && Run(c, steps).gs.mbufs == [] && NoNewCall(more)
    ensures var before, after := Run(c, steps), Run(c, steps + [Poll(Gs, n, k)] + more);
      && |after.delivered| <= |before.delivered| + (if before.ended then 0 else 366 * |before.queue|)
      && |after.delivered| <= |before.delivered| + n + 366
  {
    hide Run, Seen;
    var polled := steps + [Poll(Gs, n, k)];
    RunSnoc(c, steps, Poll(Gs, n, k));
    CallKeepsBurst(c, polled, more);
    DeliveredSize(c, steps);
    DeliveredSize(c, polled + more);
    SeenSize(Run(c, steps).gs);
    SeenSize(Run(c, polled + more).gs);
    PolledSize(c, Run(c, steps), n, k);
    var s, t := Run(c, polled), Run(c, polled + more);
    assert |t.gs.done + t.gs.mbufs| == |t.gs.done| + |t.gs.mbufs|;
    assert |s.gs.done + s.gs.mbufs| == |s.gs.done| + |s.gs.mbufs|;
  }

  lemma SeenSize(h: Hand)
    ensures |h.done| <= |Seen(h)| <= |h.done| + |h.mbufs|
  {
  }

  lemma PolledSize(c: Config, s: System, n: nat, k: nat)
    requires s.gs.mbufs == []
    ensures var t := Do(c, s, Poll(Gs, n, k));
      && t.gs.done == s.gs.done
      && |t.gs.mbufs| <= (if s.ended then 0 else |s.queue|)
      && 366 * |t.gs.mbufs| <= n + 366
  {
  }

  /** GetSamples reads and frees the next j packets of its burst. */
  function ReadAndFree(j: nat): seq<Step> {
    if j == 0 then [] else ReadAndFree(j - 1) + [ReadHead(Gs), DisposeHead(Gs)]
  }

  lemma {:induction false} BurstDelivered(c: Config, steps: seq<Step>, j: nat)
    requires var s := Run(c, steps); !s.ended && !s.gs.read && j <= |s.gs.mbufs|
    ensures NoNewCall(ReadAndFree(j))
    ensures var s, t := Run(c, steps), Run(c, steps + ReadAndFree(j));
      !t.ended && t.gs == Hand(s.gs.done + s.gs.mbufs[..j], s.gs.mbufs[j..], false)
  {
    hide Do, Run;
    if j == 0 {
      assert steps + ReadAndFree(0) == steps;
    } else {
      var pre := steps + ReadAndFree(j - 1);
      BurstDelivered(c, steps, j - 1);
      RunSnoc(c, pre, ReadHead(Gs));
      RunSnoc(c, pre + [ReadHead(Gs)], DisposeHead(Gs));
      assert steps + ReadAndFree(j) == pre + [ReadHead(Gs)] + [DisposeHead(Gs)];
      OneDelivered(c, Run(c, pre));
    }
  }

  lemma OneDelivered(c: Config, s: System)
    requires !s.ended && s.gs.mbufs != [] && !s.gs.read
    ensures var t := Do(c, Do(c, s, ReadHead(Gs)), DisposeHead(Gs)); !t.ended && t.gs == Next(s.gs)
  {
    hide DecodeAll;
  }

  /** While the program runs some call for n samples may deliver more than n exactly when more packets are waiting than
      n samples fill. */
  lemma OverDeliveryIff(c: Config, steps: seq<Step>, n: nat)
    requires c.norm != 0.0 && Run(c, steps).gs.mbufs == []
    ensures (exists k: nat, more: seq<Step> :: OverDelivers(c, steps, n, k, more))
      <==> !Run(c, steps).ended && |Run(c, steps).queue| > n / SAMPLES_PER_PACKET
  {
    hide Run;
    if k: nat, more: seq<Step> :| OverDelivers(c, steps, n, k, more) {
      DeliveredAtMost(c, steps, n, k, more);
    }
    if !Run(c, steps).ended && |Run(c, steps).queue| > n / SAMPLES_PER_PACKET {
      FullBurstOverDelivers(c, steps, n);
    }
  }

  lemma FullBurstOverDelivers(c: Config, steps: seq<Step>, n: nat)
    requires var s := Run(c, steps);
      c.norm != 0.0 && !s.ended && s.gs.mbufs == [] && |s.queue| > n / SAMPLES_PER_PACKET
    ensures var k := n / SAMPLES_PER_PACKET + 1; OverDelivers(c, steps, n, k, ReadAndFree(k))
  {
    hide Run, Do, Seen;
    var s, k := Run(c, steps), n / SAMPLES_PER_PACKET + 1;
    var polled := steps + [Poll(Gs, n, k)];
    RunSnoc(c, steps, Poll(Gs, n, k));
    FullBurstPolled(c, s, n, k);
    BurstDelivered(c, polled, k);
    DeliveredSize(c, steps);
    DeliveredSize(c, polled + ReadAndFree(k));
    SeenSize(s.gs);
    SeenSize(Run(c, polled + ReadAndFree(k)).gs);
  }

  lemma FullBurstPolled(c: Config, s: System, n: nat, k: nat)
    requires !s.ended && s.gs.mbufs == [] && k == n / SAMPLES_PER_PACKET + 1 <= |s.queue|
    ensures var t := Do(c, s, Poll(Gs, n, k));
      t.gs.done == s.gs.done && |t.gs.mbufs| == k && !t.gs.read && !t.ended
  {
  }

  /** The bursts each reader can get while the program runs: the thread up to 32 packets, GetSamples up to the one that
      completes its request. */
  lemma BurstPossibleIff(c: Config, s: System, who: Reader, requested: nat, n: nat)
    requires !s.ended && HandOf(s, who).mbufs == [] && n > 0
    ensures var t := Do(c, s, Poll(who, requested, n));
      |HandOf(t, who).mbufs| == n <==>
        n <= |s.queue| && (if who == Rx then n <= 32 else 366 * (n - 1) <= requested)
  {
  }

  /** The thread never holds more than one burst. */
  lemma {:induction false} ThreadHoldsOneBurst(c: Config, steps: seq<Step>)
    ensures |Run(c, steps).rx.mbufs| <= 32
    decreases |steps|
  {
    hide Do;
    if steps == [] {
    } else {
      ThreadHoldsOneBurst(c, steps[..|steps| - 1]);
      BurstKept(c, Run(c, steps[..|steps| - 1]), steps[|steps| - 1]);
    }
  }

  lemma BurstKept(c: Config, s: System, step: Step)
    requires |s.rx.mbufs| <= 32
    ensures |Do(c, s, step).rx.mbufs| <= 32
  {
    hide Classify, Track, DecodeAll, TakenEvents;
  }

  // ---------------------------------------------------------------- totals on a lossless stream

  lemma {:induction false} IndicesIncrease(takenBy: seq<Reader>, who: Reader)
    ensures Increasing(IndicesOf(takenBy, who))
    decreases |takenBy|
  {
    if takenBy == [] {
    } else {
      IndicesIncrease(takenBy[..|takenBy| - 1], who);
    }
  }

  /** Arrivals 1 to `last` that GetSamples took. */
  function Stolen(takenBy: seq<Reader>, last: nat): nat
    requires last < |takenBy|
  {
    if last == 0 then 0 else Stolen(takenBy, last - 1) + if takenBy[last] == Gs then 1 else 0
  }

  lemma {:induction false} TakenUpTo(takenBy: seq<Reader>, last: nat)
    requires last < |takenBy|
    ensures |IndicesOf(takenBy[..last + 1], Rx)| + Stolen(takenBy, last) + (if takenBy[0] == Gs then 1 else 0)
      == last + 1
    ensures takenBy[last] == Rx ==>
      var idx := IndicesOf(takenBy[..last + 1], Rx); idx != [] && idx[|idx| - 1] == last
    ensures var idx := IndicesOf(takenBy[..last + 1], Rx); idx != [] && idx[0] == 0 <==> takenBy[0] == Rx
  {
    assert takenBy[..last + 1][..last] == takenBy[..last];
    if last == 0 {
    } else {
      TakenUpTo(takenBy, last - 1);
    }
  }

  /** The first k positions are those of the prefix that ends with the k-th. */
  lemma {:induction false} PrefixOfIndices(takenBy: seq<Reader>, k: nat)
    requires 0 < k <= |IndicesOf(takenBy, Rx)|
    ensures var last := IndicesOf(takenBy, Rx)[k - 1];
      last < |takenBy| && takenBy[last] == Rx && IndicesOf(takenBy[..last + 1], Rx) == IndicesOf(takenBy, Rx)[..k]
    decreases |takenBy|
  {
    var n := |takenBy| - 1;
    if takenBy[n] == Rx && k == |IndicesOf(takenBy, Rx)| {
      assert takenBy[..n + 1] == takenBy;
    } else {
      PrefixOfIndices(takenBy[..n], k);
      var last := IndicesOf(takenBy[..n], Rx)[k - 1];
      assert takenBy[..n][..last + 1] == takenBy[..last + 1];
    }
  }

  /** The stream on the wire is lossless: the n-th arrival carries the n-th number. */
  ghost predicate LosslessArrivals(arrivals: seq<Mbuf>) {
    forall i :: 0 <= i < |arrivals| ==> NumberOf(arrivals[i]) == Number(i)
  }

  /** The positions the thread has read, with position 0 put in front when GetSamples took it. */
  function WithZero(idx: seq<nat>): seq<nat> {
    if idx != [] && idx[0] == 0 then idx else [0] + idx
  }

  lemma WithZeroTracked(idx: seq<nat>)
    ensures TrackAll(START, Numbers(WithZero(idx))).totalPacketsLost == TrackAll(START, Numbers(idx)).totalPacketsLost
  {
    if !(idx != [] && idx[0] == 0) {
      assert Numbers([0] + idx) == [0] + Numbers(idx);
      StartActsAsPacketZero(Numbers(idx));
    }
  }

  /** The positions of the packets the thread has read. */
  function ReadPositions(s: System): seq<nat> {
    var idx, n := IndicesOf(s.takenBy, Rx), |Seen(s.rx)|;
    if n <= |idx| then idx[..n] else idx
  }

  lemma ReadPositionsNumbered(s: System)
    requires HandFollows(s, Rx) && LosslessArrivals(s.arrivals)
    ensures |ReadPositions(s)| == |Seen(s.rx)|
    ensures NumbersOf(Seen(s.rx)) == Numbers(ReadPositions(s))
  {
    hide IndicesOf, NumberOf;
    var idx := IndicesOf(s.takenBy, Rx);
    var all, seen := PacketsAt(s.arrivals, idx), Seen(s.rx);
    assert seen <= all;
    forall k | 0 <= k < |seen|
      ensures NumberOf(seen[k]) == Number(idx[k])
    {
      assert seen[k] == all[k] == s.arrivals[idx[k]];
    }
  }

  lemma ReadPositionsOrdered(s: System)
    requires ReadPositions(s) != []
    ensures var idx := ReadPositions(s);
      var last := idx[|idx| - 1];
      && Increasing(idx) && last < |s.takenBy|
      && |idx| + Stolen(s.takenBy, last) + (if idx[0] == 0 then 0 else 1) == last + 1
  {
    hide IndicesOf, Stolen;
    var idx := ReadPositions(s);
    PrefixOfIndices(s.takenBy, |idx|);
    TakenUpTo(s.takenBy, idx[|idx| - 1]);
    IndicesIncrease(s.takenBy, Rx);
  }

  /** The totals after any run on a lossless stream, told from which arrivals the thread has read. */
  lemma TotalsOnLosslessStream(c: Config, steps: seq<Step>)
    requires var s := Run(c, steps);
      LosslessArrivals(s.arrivals) && ReadPositions(s) != []
    ensures var s := Run(c, steps);
      var idx := ReadPositions(s);
      s.tracker.totalPacketsLost == FirstCharge(idx[0]) + Charges(idx)
  {
    hide Run, HandFollows, TrackAll, Select, DecodeAll, ReadPositions;
    var s := Run(c, steps);
    HistoryAlways(c, steps);
    ReadPositionsNumbered(s);
    LossOfRun(ReadPositions(s));
  }

  /** However long the lossless stream is: no loss is reported exactly when the thread started at number 0 or 1 and
      every stretch GetSamples took touches the wrap-around. */
  lemma NoLossOnLosslessStreamIff(c: Config, steps: seq<Step>)
    requires var s := Run(c, steps);
      LosslessArrivals(s.arrivals) && ReadPositions(s) != []
    ensures var s := Run(c, steps);
      var idx := ReadPositions(s);
      s.tracker.totalPacketsLost == 0 <==> Number(idx[0]) <= 1 && AllUnseen(idx)
  {
    hide Run, ReadPositions, AllUnseen;
    TotalsOnLosslessStream(c, steps);
    NoChargesIff(ReadPositions(Run(c, steps)));
  }

  /** Nothing is lost on the wire, and the arrivals stay within one epoch; yet the thread reports as lost every packet
      GetSamples took before the last one the thread has read (packet 0 excepted), and one more for every contiguous
      run of them. It reports no loss exactly when GetSamples took none of them. */
  lemma StolenPacketsReportedLost(c: Config, steps: seq<Step>)
    requires var s := Run(c, steps);
      LosslessArrivals(s.arrivals) && |s.arrivals| <= 4096 && ReadPositions(s) != []
    ensures var s := Run(c, steps);
      var idx := ReadPositions(s);
      var stolen := Stolen(s.takenBy, idx[|idx| - 1]);
      && s.tracker.totalPacketsLost == stolen + Gaps(WithZero(idx))
      && (s.tracker.totalPacketsLost == 0 <==> stolen == 0)
  {
    hide Run, HandFollows, TrackAll, Select, DecodeAll, ReadPositions, Gaps, Stolen, Numbers, NumbersOf, Seen;
    hide Increasing, WithZero;
    var s := Run(c, steps);
    var idx := ReadPositions(s);
    HistoryAlways(c, steps);
    ReadPositionsNumbered(s);
    ReadPositionsOrdered(s);
    StolenBetween(idx, Stolen(s.takenBy, idx[|idx| - 1]));
  }

  lemma StolenBetween(idx: seq<nat>, stolen: nat)
    requires idx != [] && Increasing(idx) && idx[|idx| - 1] < 4096
    requires |idx| + stolen + (if idx[0] == 0 then 0 else 1) == idx[|idx| - 1] + 1
    ensures var lost := TrackAll(START, Numbers(idx)).totalPacketsLost;
      lost == stolen + Gaps(WithZero(idx)) && (lost == 0 <==> stolen == 0)
  {
    hide TrackAll, Gaps, Numbers;
    WithZeroTracked(idx);
    LossWithinOneEpoch(WithZero(idx));
    NoGapsIff(WithZero(idx));
  }

  lemma NoGapsIff(idx: seq<nat>)
    requires idx != [] && idx[0] == 0 && Increasing(idx) && idx[|idx| - 1] < 4096
    ensures Gaps(idx) == 0 <==> Missing(idx) == 0
  {
    ChargesWithinOneEpoch(idx);
  }

  /** The documented call for ten samples: one waiting packet is enough, all its 366 samples may come back. */
  lemma TenSamplesOverDelivered(c: Config)
    requires c.poolSize > 0 && c.norm != 0.0
    ensures exists k: nat, more: seq<Step> :: OverDelivers(c, Arrive(1), 10, k, more)
  {
    hide Run, OverDelivers;
    AllArrive(c, 1);
    OverDeliveryIff(c, Arrive(1), 10);
  }

  /** A frame that is not for any stream, with buffer and sequence number k. */
  function Numbered(k: Byte): Mbuf {
    Mbuf(k, seq(DATA_ROOM, i => if i == HRZR_OFFSET + 1 then k else 0), 0)
  }

  lemma NumberedFrame(k: Byte, port: Word16)
    ensures NumberOf(Numbered(k)) == k && Classify(Numbered(k), port) == Free
  {
    Div100(0x100 * k, k, 0);
  }

  function Arrivals(n: nat): (ms: seq<Mbuf>)
    requires n <= 0x100
    ensures |ms| == n
  {
    seq(n, k requires 0 <= k < n => Numbered(k))
  }

  function Arrive(n: nat): (steps: seq<Step>)
    requires n <= 0x100
    ensures |steps| == n
  {
    seq(n, k requires 0 <= k < n => NicReceive(Numbered(k)))
  }

  lemma {:induction false} AllArrive(c: Config, n: nat)
    requires n <= c.poolSize && n <= 0x100
    ensures var s := Run(c, Arrive(n));
      && s.arrivals == s.queue == Arrivals(n) && (forall id: nat :: n <= id < c.poolSize ==> id in s.pool)
      && s.takenBy == [] && s.rx == s.gs == Hand([], [], false) && !s.ended
  {
    hide Run;
    if n == 0 {
      NotStarted(c);
    } else {
      AllArrive(c, n - 1);
      RunSnoc(c, Arrive(n - 1), NicReceive(Numbered(n - 1)));
      assert Arrive(n) == Arrive(n - 1) + [NicReceive(Numbered(n - 1))];
      assert Arrivals(n) == Arrivals(n - 1) + [Numbered(n - 1)];
    }
  }

  lemma NotStarted(c: Config)
    ensures Run(c, []) == Init(c)
    ensures forall id: nat :: id < c.poolSize ==> id in Init(c).pool
  {
    AllIdsOnce(c.poolSize);
  }

  /** Three packets arrive; the thread reads the first, GetSamples polls the second, the thread reads the third. */
  function StealOne(): seq<Step> {
    Arrive(3)
    + [Poll(Rx, 0, 1), ReadHead(Rx), DisposeHead(Rx), Poll(Gs, 0, 1), Poll(Rx, 0, 1), ReadHead(Rx)]
  }

  /** So a single packet taken by GetSamples is reported as two lost ones. */
  lemma OneStolenReportedAsTwo(c: Config)
    requires c.poolSize >= 3
    ensures var s := Run(c, StealOne());
      && LosslessArrivals(s.arrivals) && s.takenBy == [Rx, Gs, Rx] && ReadPositions(s) == [0, 2]
      && s.tracker.totalPacketsLost == 2
  {
    hide Run, Classify, Numbered, NumberOf, Track, IndicesOf, Stolen, Gaps, StealOne;
    StealOneRuns(c);
    StealOnePositions();
    StealOneCounts();
    NumberedFrame(0, c.port);
    NumberedFrame(1, c.port);
    NumberedFrame(2, c.port);
    StolenPacketsReportedLost(c, StealOne());
  }

  lemma NoIndices()
    ensures IndicesOf([], Rx) == []
  {
  }

  lemma StealOnePositions()
    ensures IndicesOf([Rx, Gs, Rx], Rx) == [0, 2]
  {
    hide IndicesOf;
    NoIndices();
    IndicesSnoc([], Rx, Rx);
    IndicesSnoc([Rx], Gs, Rx);
    IndicesSnoc([Rx, Gs], Rx, Rx);
    assert [] + [Rx] == [Rx] && [Rx] + [Gs] == [Rx, Gs] && [Rx, Gs] + [Rx] == [Rx, Gs, Rx];
  }

  lemma StealOneCounts()
    ensures Stolen([Rx, Gs, Rx], 2) == 1 && Gaps([0, 2]) == 1
  {
    var t := [Rx, Gs, Rx];
    assert Stolen(t, 0) == 0 && Stolen(t, 1) == 1;
    assert [0, 2][..1] == [0] && Gaps([0]) == 0;
  }

  lemma StealOneRuns(c: Config)
    requires c.poolSize >= 3
    ensures var s := Run(c, StealOne());
      && s.arrivals == Arrivals(3) && s.takenBy == [Rx, Gs, Rx] && s.rx == Hand([Numbered(0)], [Numbered(2)], true)
  {
    hide Run, Classify, Numbered, NumberOf, Track;
    FirstRead(c);
    var steps := StealOne();
    RunSnoc(c, steps[..6], steps[6]);
    RunSnoc(c, steps[..7], steps[7]);
    RunSnoc(c, steps[..8], steps[8]);
    assert steps[..7] == steps[..6] + [steps[6]] && steps[..8] == steps[..7] + [steps[7]];
    assert steps == steps[..8] + [steps[8]];
  }

  lemma FirstRead(c: Config)
    requires c.poolSize >= 3
    ensures var s := Run(c, StealOne()[..6]);
      && s.arrivals == Arrivals(3) && s.queue == Arrivals(3)[1..] && s.takenBy == [Rx]
      && s.rx == Hand([Numbered(0)], [], false) && s.gs == Hand([], [], false) && !s.ended
  {
    hide Run, Classify, Numbered, NumberOf, Track;
    AllArrive(c, 3);
    NumberedFrame(0, c.port);
    var steps := StealOne();
    assert steps[..3] == Arrive(3);
    RunSnoc(c, steps[..3], steps[3]);
    RunSnoc(c, steps[..4], steps[4]);
    RunSnoc(c, steps[..5], steps[5]);
    assert steps[..4] == steps[..3] + [steps[3]] && steps[..5] == steps[..4] + [steps[4]];
    assert steps[..6] == steps[..5] + [steps[5]];
  }
}
