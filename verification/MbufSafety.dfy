/** Every buffer of the pool is in exactly one place in every run, and is used only in the legal order. */
module MbufSafety {
  import opened Samples
  import opened SequenceTracker
  import opened DpdkSource
  import opened MbufSystem

  // ---------------------------------------------------------------- every buffer is in exactly one place

  function IdBag(ms: seq<Mbuf>): multiset<nat>
    decreases |ms|
  {
    if ms == [] then multiset{} else multiset{ms[0].id} + IdBag(ms[1..])
  }

  lemma {:induction false} IdBagConcat(a: seq<Mbuf>, b: seq<Mbuf>)
    ensures IdBag(a + b) == IdBag(a) + IdBag(b)
    decreases |a|
  {
    if a == [] {
      assert a + b == b;
    } else {
      assert (a + b)[1..] == a[1..] + b;
      IdBagConcat(a[1..], b);
    }
  }

  lemma IdBagSnoc(ms: seq<Mbuf>, m: Mbuf)
    ensures IdBag(ms + [m]) == IdBag(ms) + multiset{m.id}
  {
    assert [m][1..] == [];
    IdBagConcat(ms, [m]);
  }

  lemma IdBagHead(ms: seq<Mbuf>)
    requires ms != []
    ensures IdBag(ms) == multiset{ms[0].id} + IdBag(ms[1..])
  {
  }

  lemma {:induction false} IdBagSize(ms: seq<Mbuf>)
    ensures |IdBag(ms)| == |ms|
    decreases |ms|
  {
    if ms == [] {
    } else {
      IdBagSize(ms[1..]);
    }
  }

  lemma {:induction false} AllIdsOnce(n: nat)
    ensures |AllIds(n)| == n
    ensures forall id: nat :: AllIds(n)[id] == if id < n then 1 else 0
  {
    if n == 0 {
    } else {
      AllIdsOnce(n - 1);
      assert AllIds(n) == AllIds(n - 1) + multiset{n - 1};
    }
  }

  function Bag(s: System): multiset<nat> {
    s.pool + IdBag(s.queue) + IdBag(s.rx.mbufs) + IdBag(s.gs.mbufs) + IdBag(s.ring) + IdBag(s.leaked)
  }

  lemma FillKeepsBag(s: System, m: Mbuf)
    requires m.id in s.pool
    ensures Bag(Fill(s, m)) == Bag(s)
  {
    hide IdBag;
    IdBagSnoc(s.queue, m);
  }

  lemma TakeKeepsBag(s: System, who: Reader, n: nat)
    requires n <= |s.queue| && HandOf(s, who).mbufs == []
    ensures Bag(Take(s, who, n)) == Bag(s)
  {
    hide IdBag;
    assert s.queue == s.queue[..n] + s.queue[n..];
    IdBagConcat(s.queue[..n], s.queue[n..]);
    IdBagEmpty();
  }

  lemma IdBagEmpty()
    ensures IdBag([]) == multiset{}
  {
  }

  lemma FreeKeepsBag(s: System, who: Reader)
    requires HandOf(s, who).mbufs != []
    ensures Bag(FreeFirst(s, who)) == Bag(s)
  {
    hide IdBag;
    IdBagHead(HandOf(s, who).mbufs);
  }

  lemma RingKeepsBag(c: Config, s: System)
    requires s.rx.mbufs != []
    ensures Bag(RingFirst(c, s)) == Bag(s)
  {
    hide IdBag;
    IdBagHead(s.rx.mbufs);
    IdBagSnoc(s.ring, s.rx.mbufs[0]);
    IdBagSnoc(s.leaked, s.rx.mbufs[0]);
  }

  lemma BagKept(c: Config, s: System, step: Step)
    ensures Bag(Do(c, s, step)) == Bag(s)
  {
    hide Classify, IdBag;
    if Enabled(s, step) {
      match step
      case NicReceive(m) => FillKeepsBag(s, m);
      case Poll(who, _, n) => TakeKeepsBag(s, who, n);
      case ReadHead(who) =>
      case DisposeHead(who) =>
        FreeKeepsBag(s, who);
        if who == Rx {
          RingKeepsBag(c, s);
        }
    }
  }

  // ---------------------------------------------------------------- the events agree with the places

  /** Buffer `id` is where life stage `l` says it is. */
  ghost predicate At(s: System, id: nat, l: Life) {
    match l
    case InPool => id in s.pool
    case OnQueue => id in IdBag(s.queue)
    case Held(who, read) =>
      && id in IdBag(HandOf(s, who).mbufs)
      && (read <==> HandOf(s, who).read && HandOf(s, who).mbufs != [] && HandOf(s, who).mbufs[0].id == id)
    case InRing => id in IdBag(s.ring)
    case Lost => id in IdBag(s.leaked)
    case Bad => false
  }

  /** With one occurrence in all, the stage is the only place. */
  lemma OnlyPlace(s: System, id: nat, l: Life)
    requires Bag(s)[id] == 1 && At(s, id, l)
    ensures id in s.pool <==> l == InPool
    ensures id in IdBag(s.queue) <==> l == OnQueue
    ensures id in IdBag(s.rx.mbufs) <==> l.Held? && l.who == Rx
    ensures id in IdBag(s.gs.mbufs) <==> l.Held? && l.who == Gs
    ensures id in IdBag(s.ring) <==> l == InRing
    ensures id in IdBag(s.leaked) <==> l == Lost
  {
    hide IdBag;
  }

  lemma LifeOfSnoc(events: seq<Event>, e: Event, id: nat)
    ensures LifeOf(events + [e], id) == if e.id == id then Advance(LifeOf(events, id), e) else LifeOf(events, id)
  {
    assert (events + [e])[..|events|] == events;
  }

  lemma {:induction false} LifeOfTaken(events: seq<Event>, burst: seq<Mbuf>, who: Reader, id: nat)
    requires IdBag(burst)[id] <= 1
    ensures LifeOf(events + TakenEvents(burst, who), id) ==
      if id in IdBag(burst) then Advance(LifeOf(events, id), Taken(id, who)) else LifeOf(events, id)
    decreases |burst|
  {
    hide Advance;
    if burst == [] {
      assert events + TakenEvents(burst, who) == events;
    } else {
      var pre, m := burst[..|burst| - 1], burst[|burst| - 1];
      assert burst == pre + [m];
      IdBagSnoc(pre, m);
      LifeOfTaken(events, pre, who, id);
      LifeOfSnoc(events + TakenEvents(pre, who), Taken(m.id, who), id);
      assert events + TakenEvents(burst, who) == events + TakenEvents(pre, who) + [Taken(m.id, who)];
    }
  }

  lemma FillKeepsLife(s: System, m: Mbuf, id: nat)
    requires m.id in s.pool && Bag(s)[id] == 1 && At(s, id, LifeOf(s.events, id))
    ensures At(Fill(s, m), id, LifeOf(Fill(s, m).events, id))
  {
    hide IdBag, LifeOf;
    OnlyPlace(s, id, LifeOf(s.events, id));
    LifeOfSnoc(s.events, Filled(m.id), id);
    IdBagSnoc(s.queue, m);
  }

  lemma TakeKeepsLife(s: System, who: Reader, n: nat, id: nat)
    requires n <= |s.queue| && HandOf(s, who).mbufs == []
    requires Bag(s)[id] == 1 && At(s, id, LifeOf(s.events, id))
    ensures At(Take(s, who, n), id, LifeOf(Take(s, who, n).events, id))
  {
    hide IdBag, LifeOf;
    var burst := s.queue[..n];
    OnlyPlace(s, id, LifeOf(s.events, id));
    assert s.queue == burst + s.queue[n..];
    IdBagConcat(burst, s.queue[n..]);
    LifeOfTaken(s.events, burst, who, id);
    IdBagEmpty();
  }

  lemma MarkKeepsLife(s: System, who: Reader, id: nat)
    requires HandOf(s, who).mbufs != [] && !HandOf(s, who).read
    requires Bag(s)[id] == 1 && At(s, id, LifeOf(s.events, id))
    ensures At(MarkRead(s, who), id, LifeOf(MarkRead(s, who).events, id))
  {
    hide IdBag, LifeOf;
    var m := HandOf(s, who).mbufs[0];
    OnlyPlace(s, id, LifeOf(s.events, id));
    LifeOfSnoc(s.events, Read(m.id, who), id);
    IdBagHead(HandOf(s, who).mbufs);
  }

  lemma ReadKeepsLife(c: Config, s: System, who: Reader, id: nat)
    requires HandOf(s, who).mbufs != [] && !HandOf(s, who).read
    requires Bag(s)[id] == 1 && At(s, id, LifeOf(s.events, id))
    ensures At(ReadFirst(c, s, who), id, LifeOf(ReadFirst(c, s, who).events, id))
  {
    hide IdBag, LifeOf, DecodeAll, Track, MarkRead;
    MarkKeepsLife(s, who, id);
  }

  lemma FreeKeepsLife(s: System, who: Reader, id: nat)
    requires HandOf(s, who).mbufs != [] && HandOf(s, who).read
    requires Bag(s)[id] == 1 && At(s, id, LifeOf(s.events, id))
    ensures At(FreeFirst(s, who), id, LifeOf(FreeFirst(s, who).events, id))
  {
    hide IdBag, LifeOf;
    OnlyPlace(s, id, LifeOf(s.events, id));
    LifeOfSnoc(s.events, Freed(HandOf(s, who).mbufs[0].id, who), id);
    IdBagHead(HandOf(s, who).mbufs);
  }

  lemma RingKeepsLife(c: Config, s: System, id: nat)
    requires s.rx.mbufs != [] && s.rx.read
    requires Bag(s)[id] == 1 && At(s, id, LifeOf(s.events, id))
    ensures At(RingFirst(c, s), id, LifeOf(RingFirst(c, s).events, id))
  {
    hide IdBag, LifeOf, Bag, At;
    if |s.ring| < c.ringCapacity {
      RingedKeepsLife(c, s, id);
    } else {
      LeakedKeepsLife(c, s, id);
    }
  }

  lemma RingedKeepsLife(c: Config, s: System, id: nat)
    requires s.rx.mbufs != [] && s.rx.read && |s.ring| < c.ringCapacity
    requires Bag(s)[id] == 1 && At(s, id, LifeOf(s.events, id))
    ensures At(RingFirst(c, s), id, LifeOf(RingFirst(c, s).events, id))
  {
    hide IdBag, LifeOf;
    OnlyPlace(s, id, LifeOf(s.events, id));
    IdBagHead(s.rx.mbufs);
    LifeOfSnoc(s.events, Ringed(s.rx.mbufs[0].id), id);
    IdBagSnoc(s.ring, s.rx.mbufs[0]);
  }

  lemma LeakedKeepsLife(c: Config, s: System, id: nat)
    requires s.rx.mbufs != [] && s.rx.read && |s.ring| >= c.ringCapacity
    requires Bag(s)[id] == 1 && At(s, id, LifeOf(s.events, id))
    ensures At(RingFirst(c, s), id, LifeOf(RingFirst(c, s).events, id))
  {
    hide IdBag, LifeOf;
    OnlyPlace(s, id, LifeOf(s.events, id));
    IdBagHead(s.rx.mbufs);
    LifeOfSnoc(s.events, Leaked(s.rx.mbufs[0].id), id);
    IdBagSnoc(s.leaked, s.rx.mbufs[0]);
  }

  lemma LifeKept(c: Config, s: System, step: Step, id: nat)
    requires Bag(s)[id] == 1 && At(s, id, LifeOf(s.events, id))
    ensures At(Do(c, s, step), id, LifeOf(Do(c, s, step).events, id))
  {
    hide Classify, IdBag, LifeOf, At, Bag;
    if Enabled(s, step) {
      match step
      case NicReceive(m) => FillKeepsLife(s, m, id);
      case Poll(who, _, n) => TakeKeepsLife(s, who, n, id);
      case ReadHead(who) => ReadKeepsLife(c, s, who, id);
      case DisposeHead(who) =>
        FreeKeepsLife(s, who, id);
        if who == Rx {
          RingKeepsLife(c, s, id);
          EndKeepsLife(s, id);
        }
    }
  }

  lemma EndKeepsLife(s: System, id: nat)
    requires At(s, id, LifeOf(s.events, id))
    ensures At(s.(ended := true), id, LifeOf(s.(ended := true).events, id))
  {
  }

  /** In every run every buffer of the pool is in exactly one place, and its whole history is legal: its stage is
      never Bad and tells where the buffer is. */
  lemma {:induction false} BuffersSafe(c: Config, steps: seq<Step>)
    ensures Bag(Run(c, steps)) == AllIds(c.poolSize)
    ensures forall id: nat :: id < c.poolSize ==>
      Bag(Run(c, steps))[id] == 1 && At(Run(c, steps), id, LifeOf(Run(c, steps).events, id))
    decreases |steps|
  {
    hide Do, At, LifeOf, Bag;
    AllIdsOnce(c.poolSize);
    if steps == [] {
      InitSafe(c);
    } else {
      var pre := steps[..|steps| - 1];
      BuffersSafe(c, pre);
      BagKept(c, Run(c, pre), steps[|steps| - 1]);
      forall id: nat | id < c.poolSize
        ensures At(Run(c, steps), id, LifeOf(Run(c, steps).events, id))
      {
        LifeKept(c, Run(c, pre), steps[|steps| - 1], id);
      }
    }
  }

  lemma InitSafe(c: Config)
    ensures Bag(Init(c)) == AllIds(c.poolSize)
    ensures forall id: nat :: id < c.poolSize ==> At(Init(c), id, LifeOf(Init(c).events, id))
  {
    AllIdsOnce(c.poolSize);
  }
}
