/** One stream's buffers under every interleaving of the NIC, the receive thread and the sample reader, which poll
    the same receive queue. A run is any list of steps; a step that is not enabled changes nothing. */
module MbufSystem {
  import opened Words
  import opened Samples
  import opened SequenceTracker
  import opened DpdkSource

  datatype Config = Config(poolSize: nat, ringCapacity: nat, port: Word16, norm: real)

  datatype Reader = Rx | Gs

  // ---------------------------------------------------------------- the life of one buffer, told from the events

  datatype Event =
    | Filled(id: nat)
    | Taken(id: nat, who: Reader)
    | Read(id: nat, who: Reader)
    | Freed(id: nat, who: Reader)
    | Ringed(id: nat)
    | Leaked(id: nat)

  datatype Life = InPool | OnQueue | Held(who: Reader, read: bool) | InRing | Lost | Bad

  /** The only legal order of events on a buffer. A second free, a read after a free, a free of a ringed buffer,
      an access by the wrong thread all lead to Bad. */
  function Advance(l: Life, e: Event): Life {
    match (l, e)
    case (InPool, Filled(_)) => OnQueue
    case (OnQueue, Taken(_, who)) => Held(who, false)
    case (Held(owner, false), Read(_, who)) => if owner == who then Held(who, true) else Bad
    case (Held(owner, true), Freed(_, who)) => if owner == who then InPool else Bad
    case (Held(Rx, true), Ringed(_)) => InRing
    case (Held(Rx, true), Leaked(_)) => Lost
    case _ => Bad
  }

  function LifeOf(events: seq<Event>, id: nat): Life
    decreases |events|
  {
    if events == [] then InPool
    else
      var n := |events| - 1;
      if events[n].id == id then Advance(LifeOf(events[..n], id), events[n]) else LifeOf(events[..n], id)
  }

  // ---------------------------------------------------------------- the system

  /** A reader: the packets it has disposed of, in order (history); the rest of its burst; whether the first packet of
      that rest has been read. */
  datatype Hand = Hand(done: seq<Mbuf>, mbufs: seq<Mbuf>, read: bool)

  datatype System = System(
    pool: multiset<nat>,
    queue: seq<Mbuf>,
    rx: Hand,
    gs: Hand,
    ring: seq<Mbuf>,
    leaked: seq<Mbuf>,
    ended: bool,
    tracker: Tracker,
    delivered: seq<Complex>,
    arrivals: seq<Mbuf>,
    takenBy: seq<Reader>,
    events: seq<Event>)

  datatype Step =
    | NicReceive(m: Mbuf)
    | Poll(who: Reader, requested: nat, n: nat)
    | ReadHead(who: Reader)
    | DisposeHead(who: Reader)

  function AllIds(n: nat): multiset<nat> {
    if n == 0 then multiset{} else AllIds(n - 1) + multiset{n - 1}
  }

  function Init(c: Config): System {
    System(AllIds(c.poolSize), [], Hand([], [], false), Hand([], [], false), [], [], false, START, [], [], [], [])
  }

  function HandOf(s: System, who: Reader): Hand {
    match who
    case Rx => s.rx
    case Gs => s.gs
  }

  function WithHand(s: System, who: Reader, h: Hand): System {
    match who
    case Rx => s.(rx := h)
    case Gs => s.(gs := h)
  }

  function BurstLimit(who: Reader, requested: nat): nat {
    match who
    case Rx => BURST_SIZE
    case Gs => requested / SAMPLES_PER_PACKET + 1
  }

  /** Nothing happens once an exception has ended the program. */
  predicate Enabled(s: System, step: Step) {
    !s.ended &&
    match step
    case NicReceive(m) => m.id in s.pool
    case Poll(who, requested, n) =>
      HandOf(s, who).mbufs == [] && n <= BurstLimit(who, requested) && n <= |s.queue|
    case ReadHead(who) => HandOf(s, who).mbufs != [] && !HandOf(s, who).read
    case DisposeHead(who) => HandOf(s, who).mbufs != [] && HandOf(s, who).read
  }

  function Fill(s: System, m: Mbuf): System {
    s.(pool := s.pool - multiset{m.id}, queue := s.queue + [m], arrivals := s.arrivals + [m],
       events := s.events + [Filled(m.id)])
  }

  function Take(s: System, who: Reader, n: nat): System
    requires n <= |s.queue|
  {
    var burst := s.queue[..n];
    WithHand(s, who, Hand(HandOf(s, who).done, burst, false)).(
      queue := s.queue[n..],
      takenBy := s.takenBy + seq(n, _ => who),
      events := s.events + TakenEvents(burst, who))
  }

  function TakenEvents(burst: seq<Mbuf>, who: Reader): (es: seq<Event>)
    ensures |es| == |burst|
  {
    seq(|burst|, i requires 0 <= i < |burst| => Taken(burst[i].id, who))
  }

  function MarkRead(s: System, who: Reader): System
    requires HandOf(s, who).mbufs != []
  {
    WithHand(s, who, HandOf(s, who).(read := true)).(events := s.events + [Read(HandOf(s, who).mbufs[0].id, who)])
  }

  function ReadFirst(c: Config, s: System, who: Reader): System
    requires HandOf(s, who).mbufs != []
  {
    var m := HandOf(s, who).mbufs[0];
    var t := MarkRead(s, who);
    match who
    case Rx => t.(tracker := Track(s.tracker, NumberOf(m)))
    case Gs => if c.norm == 0.0 then t else t.(delivered := s.delivered + DecodeAll([PayloadOf(m)], c.norm))
  }

  function Next(h: Hand): Hand
    requires h.mbufs != []
  {
    Hand(h.done + [h.mbufs[0]], h.mbufs[1..], false)
  }

  function FreeFirst(s: System, who: Reader): System
    requires HandOf(s, who).mbufs != []
  {
    var h := HandOf(s, who);
    WithHand(s, who, Next(h)).(
      pool := s.pool + multiset{h.mbufs[0].id},
      events := s.events + [Freed(h.mbufs[0].id, who)])
  }

  function RingFirst(c: Config, s: System): System
    requires s.rx.mbufs != []
  {
    var m := s.rx.mbufs[0];
    var t := s.(rx := Next(s.rx));
    if |s.ring| < c.ringCapacity
    then t.(ring := s.ring + [m], events := s.events + [Ringed(m.id)])
    else t.(leaked := s.leaked + [m], events := s.events + [Leaked(m.id)])
  }

  function DisposeFirst(c: Config, s: System, who: Reader): System
    requires HandOf(s, who).mbufs != []
  {
    match who
    case Gs => FreeFirst(s, Gs)
    case Rx =>
      match Classify(s.rx.mbufs[0], c.port)
      case Enqueue => RingFirst(c, s)
      case Free => FreeFirst(s, Rx)
      case Throw => s.(ended := true)
  }

  function Do(c: Config, s: System, step: Step): System {
    if !Enabled(s, step) then s
    else
      match step
      case NicReceive(m) => Fill(s, m)
      case Poll(who, _, n) => Take(s, who, n)
      case ReadHead(who) => ReadFirst(c, s, who)
      case DisposeHead(who) => DisposeFirst(c, s, who)
  }

  function Run(c: Config, steps: seq<Step>): System
    decreases |steps|
  {
    if steps == [] then Init(c) else Do(c, Run(c, steps[..|steps| - 1]), steps[|steps| - 1])
  }
}
