/** The dump thread: headers, payload words and metadata words go into three separate queues, and a later drain puts
    them together again. */
module DumpThread {
  import opened Words
  import opened HeaderParser
  import opened Samples
  import opened SequenceTracker
  import opened DpdkSource
  import opened DumpText

  datatype Kind = DataPacket | MetaPacket | StrayPacket

  predicate Decodable(m: Mbuf) {
    GetControlFromHeader(HrzrOf(m)).Known?
  }

  /** How the drain treats a header: payload words, metadata words, or nothing. */
  function KindOf(h: Hrzr): Kind {
    match GetControlFromHeader(h)
    case Known(Metadata) => MetaPacket
    case Known(t) => if IsValidPacketType(t) then DataPacket else StrayPacket
    case InvalidHrzrHeader => StrayPacket
  }

  type Block = ws: seq<Word32> | |ws| == SAMPLES_PER_PACKET witness seq(366, _ => 0)

  function WordsOf(m: Mbuf): Block {
    seq(SAMPLES_PER_PACKET, i requires 0 <= i < SAMPLES_PER_PACKET => LoadU32(m.data, ALL_HEADERS + 4 * i))
  }

  /** What matters of a packet: its header, how the drain treats it, and the words of its payload. */
  datatype Item = Item(header: Hrzr, kind: Kind, words: Block)

  function ItemOf(m: Mbuf): Item {
    Item(HrzrOf(m), KindOf(HrzrOf(m)), WordsOf(m))
  }

  function Items(ms: seq<Mbuf>): (items: seq<Item>)
    ensures |items| == |ms|
  {
    seq(|ms|, i requires 0 <= i < |ms| => ItemOf(ms[i]))
  }

  predicate Coherent(items: seq<Item>) {
    forall i :: 0 <= i < |items| ==> items[i].kind == KindOf(items[i].header)
  }

  lemma ItemsCoherent(ms: seq<Mbuf>)
    ensures Coherent(Items(ms))
  {
    hide KindOf, HrzrOf, WordsOf;
  }

  function Pick(items: seq<Item>, kinds: set<Kind>): seq<Item>
    decreases |items|
  {
    if items == [] then []
    else
      var n := |items| - 1;
      if items[n].kind in kinds then Pick(items[..n], kinds) + [items[n]] else Pick(items[..n], kinds)
  }

  lemma PickSnoc(items: seq<Item>, x: Item, kinds: set<Kind>)
    ensures Pick(items + [x], kinds) == if x.kind in kinds then Pick(items, kinds) + [x] else Pick(items, kinds)
  {
    assert (items + [x])[..|items|] == items;
  }

  const PUSHED_AS_PAYLOAD: set<Kind> := {DataPacket, StrayPacket}

  function Flat(items: seq<Item>, n: nat): (ws: seq<Word32>)
    requires n <= SAMPLES_PER_PACKET
    ensures |ws| == n * |items|
    decreases |items|
  {
    if items == [] then [] else items[0].words[..n] + Flat(items[1..], n)
  }

  lemma {:induction false} FlatSnoc(items: seq<Item>, x: Item, n: nat)
    requires n <= SAMPLES_PER_PACKET
    ensures Flat(items + [x], n) == Flat(items, n) + x.words[..n]
    decreases |items|
  {
    if items == [] {
      assert [] + [x] == [x] && [x][1..] == [];
    } else {
      assert (items + [x])[1..] == items[1..] + [x];
      FlatSnoc(items[1..], x, n);
    }
  }

  function Headers(items: seq<Item>): (hs: seq<Hrzr>)
    ensures |hs| == |items|
  {
    seq(|items|, i requires 0 <= i < |items| => items[i].header)
  }

  /** The three queues. */
  datatype Lists = Lists(headers: seq<Hrzr>, payload: seq<Word32>, meta: seq<Word32>)

  /** The packets whose words go into the payload queue. */
  function PayloadPackets(items: seq<Item>): seq<Item> {
    Pick(items, PUSHED_AS_PAYLOAD)
  }

  /** The number of payload blocks, and of metadata blocks, the drain has consumed once it has written the headers of
      the given packets. */
  function Consumed(items: seq<Item>): nat {
    |Pick(items, {DataPacket})|
  }

  function ConsumedMeta(items: seq<Item>): nat {
    |Pick(items, {MetaPacket})|
  }

  lemma {:induction false} PicksGrow(items: seq<Item>, k: nat)
    requires k <= |items|
    ensures Consumed(items[..k]) <= |PayloadPackets(items[..k])|
    ensures PayloadPackets(items[..k]) <= PayloadPackets(items)
    ensures Pick(items[..k], {MetaPacket}) <= Pick(items, {MetaPacket})
    decreases |items|
  {
    if items == [] {
    } else {
      var n := |items| - 1;
      if k <= n {
        PicksGrow(items[..n], k);
        assert items[..n][..k] == items[..k];
      } else {
        assert items[..k] == items;
        PicksGrow(items[..n], n);
        assert items[..n][..n] == items[..n];
      }
    }
  }

  /** The state of the queues after the packets items have been pushed and the first k headers drained. */
  ghost predicate Listed(l: Lists, items: seq<Item>, k: nat) {
    && k <= |items|
    && Consumed(items[..k]) <= |PayloadPackets(items)|
    && ConsumedMeta(items[..k]) <= |Pick(items, {MetaPacket})|
    && l.headers == Headers(items[k..])
    && l.payload == Flat(PayloadPackets(items)[Consumed(items[..k])..], SAMPLES_PER_PACKET)
    && l.meta == Flat(Pick(items, {MetaPacket})[ConsumedMeta(items[..k])..], META_WORDS)
  }

  function PushItem(l: Lists, x: Item): Lists {
    if x.kind == MetaPacket
    then Lists(l.headers + [x.header], l.payload, l.meta + x.words[..META_WORDS])
    else Lists(l.headers + [x.header], l.payload + x.words[..SAMPLES_PER_PACKET], l.meta)
  }

  lemma PushKeepsListed(l: Lists, items: seq<Item>, k: nat, x: Item)
    requires Listed(l, items, k)
    ensures Listed(PushItem(l, x), items + [x], k)
  {
    hide Pick, Flat;
    assert (items + [x])[..k] == items[..k];
    assert (items + [x])[k..] == items[k..] + [x];
    PickSnoc(items, x, PUSHED_AS_PAYLOAD);
    PickSnoc(items, x, {MetaPacket});
    var p, q := PayloadPackets(items), Pick(items, {MetaPacket});
    FlatSnoc(p[Consumed(items[..k])..], x, SAMPLES_PER_PACKET);
    FlatSnoc(q[ConsumedMeta(items[..k])..], x, META_WORDS);
    assert (p + [x])[Consumed(items[..k])..] == p[Consumed(items[..k])..] + [x];
    assert (q + [x])[ConsumedMeta(items[..k])..] == q[ConsumedMeta(items[..k])..] + [x];
  }

  /** The number of words the drain writes after a header. */
  function Share(kind: Kind): nat {
    match kind
    case DataPacket => SAMPLES_PER_PACKET
    case MetaPacket => META_WORDS
    case StrayPacket => 0
  }

  /** The words the drain writes after header k of a history: the k-th header's share of each queue. */
  function Assigned(items: seq<Item>, k: nat): (r: Record)
    requires k < |items|
    ensures r.header == items[k].header && |r.words| == Share(items[k].kind)
  {
    var h := items[k].header;
    PicksGrow(items, k + 1);
    PicksGrow(items, k);
    PickSnoc(items[..k], items[k], {DataPacket});
    PickSnoc(items[..k], items[k], PUSHED_AS_PAYLOAD);
    assert items[..k + 1] == items[..k] + [items[k]];
    match items[k].kind
    case DataPacket => Record(h, PayloadPackets(items)[Consumed(items[..k])].words[..SAMPLES_PER_PACKET])
    case MetaPacket => Record(h, items[k].words[..META_WORDS])
    case StrayPacket => Record(h, [])
  }

  function AssignedRange(items: seq<Item>, from: nat, to: nat): (rs: seq<Record>)
    requires from <= to <= |items|
    ensures |rs| == to - from
  {
    seq(to - from, i requires 0 <= i < to - from => Assigned(items, from + i))
  }

  lemma AssignedSized(items: seq<Item>, from: nat, to: nat)
    requires from <= to <= |items| && Coherent(items)
    ensures Sized(AssignedRange(items, from, to))
  {
    hide KindOf, WordCount, Pick;
    forall i | 0 <= i < to - from
      ensures |AssignedRange(items, from, to)[i].words| == WordCount(AssignedRange(items, from, to)[i].header)
    {
      var k := from + i;
      assert AssignedRange(items, from, to)[i] == Assigned(items, k) && items[k].kind == KindOf(items[k].header);
      ShareOfHeader(items[k].header);
    }
  }

  lemma ShareOfHeader(h: Hrzr)
    ensures WordCount(h) == Share(KindOf(h))
  {
    hide GetControlFromHeader;
  }

  /** A packet of one of the kinds sits in the pick at the position its prefix has reached. */
  lemma {:induction false} PickAt(items: seq<Item>, k: nat, kinds: set<Kind>)
    requires k < |items| && items[k].kind in kinds
    ensures |Pick(items[..k], kinds)| < |Pick(items, kinds)|
    ensures Pick(items, kinds)[|Pick(items[..k], kinds)|] == items[k]
    decreases |items|
  {
    hide Pick;
    var n := |items| - 1;
    var pre := items[..n];
    assert items == pre + [items[n]];
    PickSnoc(pre, items[n], kinds);
    if k == n {
    } else {
      PickAt(pre, k, kinds);
      assert pre[..k] == items[..k];
    }
  }

  /** What a drain leaves of the queues after one header. */
  function DrainOne(l: Lists, kind: Kind): Lists
    requires l.headers != []
    requires kind == DataPacket ==> |l.payload| >= SAMPLES_PER_PACKET
    requires kind == MetaPacket ==> |l.meta| >= META_WORDS
  {
    match kind
    case DataPacket => Lists(l.headers[1..], l.payload[SAMPLES_PER_PACKET..], l.meta)
    case MetaPacket => Lists(l.headers[1..], l.payload, l.meta[META_WORDS..])
    case StrayPacket => Lists(l.headers[1..], l.payload, l.meta)
  }

  lemma FlatHead(items: seq<Item>, j: nat, n: nat)
    requires j < |items| && n <= SAMPLES_PER_PACKET
    ensures Flat(items[j..], n) == items[j].words[..n] + Flat(items[j + 1..], n)
  {
    assert items[j..][1..] == items[j + 1..];
  }

  /** No queue is ever popped while empty, and the popped words are the assigned ones. */
  lemma DrainKeepsListed(l: Lists, items: seq<Item>, k: nat)
    requires Listed(l, items, k) && k < |items|
    ensures l.headers != [] && l.headers[0] == items[k].header
    ensures items[k].kind == DataPacket ==>
      |l.payload| >= SAMPLES_PER_PACKET && Assigned(items, k).words == l.payload[..SAMPLES_PER_PACKET]
    ensures items[k].kind == MetaPacket ==>
      |l.meta| >= META_WORDS && Assigned(items, k).words == l.meta[..META_WORDS]
    ensures items[k].kind == StrayPacket ==> Assigned(items, k).words == []
    ensures Listed(DrainOne(l, items[k].kind), items, k + 1)
  {
    hide Pick, Flat;
    var x := items[k];
    assert items[k..][0] == x && items[k..][1..] == items[k + 1..];
    assert items[..k + 1] == items[..k] + [x];
    PickSnoc(items[..k], x, {DataPacket});
    PickSnoc(items[..k], x, {MetaPacket});
    PickSnoc(items[..k], x, PUSHED_AS_PAYLOAD);
    PicksGrow(items, k);
    PicksGrow(items, k + 1);
    var kind := x.kind;
    if kind == DataPacket {
      FlatHead(PayloadPackets(items), Consumed(items[..k]), SAMPLES_PER_PACKET);
    } else if kind == MetaPacket {
      PickAt(items, k, {MetaPacket});
      FlatHead(Pick(items, {MetaPacket}), ConsumedMeta(items[..k]), META_WORDS);
    }
  }

  /** Pushes one packet; the exception comes after its header has been queued. */
  method Push(l: Lists, m: Mbuf) returns (r: Lists, threw: bool)
    ensures threw <==> !Decodable(m)
    ensures !threw ==> r == PushItem(l, ItemOf(m))
  {
    hide HrzrOf, GetControlFromHeader, LoadU32;
    var h := HrzrOf(m);
    r, threw := l.(headers := l.headers + [h]), false;
    match GetControlFromHeader(h) {
      case InvalidHrzrHeader =>
        threw := true;
      case Known(t) =>
        if t == Metadata {
          for i := 0 to META_WORDS
            invariant r == Lists(l.headers + [h], l.payload, l.meta + WordsOf(m)[..i])
          {
            ghost var ws := WordsOf(m);
            assert ws[..i + 1] == ws[..i] + [ws[i]];
            r := r.(meta := r.meta + [LoadU32(m.data, ALL_HEADERS + 4 * i)]);
          }
        } else {
          for i := 0 to SAMPLES_PER_PACKET
            invariant r == Lists(l.headers + [h], l.payload + WordsOf(m)[..i], l.meta)
          {
            ghost var ws := WordsOf(m);
            assert ws[..i + 1] == ws[..i] + [ws[i]];
            r := r.(payload := r.payload + [LoadU32(m.data, ALL_HEADERS + 4 * i)]);
          }
        }
    }
  }

  /** Writes and pops the first n words of a queue. */
  method WriteWords(queue: seq<Word32>, n: nat) returns (rest: seq<Word32>, text: string)
    requires n <= |queue|
    ensures rest == queue[n..] && text == WordsText(queue[..n])
  {
    rest, text := queue, "";
    for i := 0 to n
      invariant rest == queue[i..] && text == WordsText(queue[..i])
    {
      WordsTextSnoc(queue[..i], queue[i]);
      assert queue[..i + 1] == queue[..i] + [queue[i]];
      text := text + Hex(rest[0], 8);
      rest := rest[1..];
    }
  }

  /** Writes and pops the first queued header with the words of its queue. */
  method WriteRecord(l: Lists, ghost items: seq<Item>, ghost k: nat) returns (r: Lists, text: string)
    requires l.headers != [] && k < |items| && Listed(l, items, k) && Coherent(items)
    requires GetControlFromHeader(items[k].header).Known?
    ensures Listed(r, items, k + 1)
    ensures text == RecordText(Assigned(items, k))
  {
    assert WordsText([]) == "";
    hide Listed, Assigned, HeaderText, WordsText;
    DrainKeepsListed(l, items, k);
    ghost var words := "";
    r := l;
    var h := r.headers[0];
    text := HeaderText(h);
    match GetControlFromHeader(h) {
      case InvalidHrzrHeader =>
        assert false;
      case Known(t) =>
        var rest, written;
        if IsValidPacketType(t) {
          rest, written := WriteWords(r.payload, SAMPLES_PER_PACKET);
          r, text, words := r.(payload := rest), text + written, written;
        }
        if t == Metadata {
          rest, written := WriteWords(r.meta, META_WORDS);
          r, text, words := r.(meta := rest), text + written, written;
        }
    }
    assert text == HeaderText(h) + words;
    text := text + "\n";
    r := r.(headers := r.headers[1..]);
    assert r == DrainOne(l, items[k].kind);
  }

  /** The drain loop: every queued header with its assigned words, in arrival order, until no header is left. */
  method Drain(l: Lists, ghost items: seq<Item>, ghost from: nat) returns (r: Lists, text: string)
    requires Listed(l, items, from) && Coherent(items)
    requires forall i :: 0 <= i < |items| ==> GetControlFromHeader(items[i].header).Known?
    ensures Listed(r, items, |items|)
    ensures text == Render(AssignedRange(items, from, |items|))
  {
    hide Listed, Assigned, Render, RecordText, GetControlFromHeader, Coherent;
    r, text := l, "";
    ghost var k := from;
    HeadersLeft(r, items, k);
    NothingRendered(items, from);
    while r.headers != []
      invariant from <= k <= |items| && Listed(r, items, k)
      invariant |r.headers| == |items| - k
      invariant text == Render(AssignedRange(items, from, k))
      decreases |r.headers|
    {
      assert AssignedRange(items, from, k + 1) == AssignedRange(items, from, k) + [Assigned(items, k)];
      RenderSnoc(AssignedRange(items, from, k), Assigned(items, k));
      var record;
      r, record := WriteRecord(r, items, k);
      HeadersLeft(r, items, k + 1);
      text := text + record;
      k := k + 1;
    }
  }

  lemma HeadersLeft(l: Lists, items: seq<Item>, k: nat)
    requires Listed(l, items, k)
    ensures k <= |items| && |l.headers| == |items| - k
  {
  }

  lemma NothingRendered(items: seq<Item>, from: nat)
    requires from <= |items|
    ensures Render(AssignedRange(items, from, from)) == ""
  {
  }

  datatype File = NotWritten | Written(text: string)

  /** Where the last drain of a run started, when the clock first passes the limit at packet `deadline`: every packet
      from there on drains, and every drain truncates the file. */
  function LastDrainFrom(deadline: nat, packets: nat): nat
    requires deadline < packets
  {
    if packets == deadline + 1 then 0 else packets - 1
  }

  /** The file after a run over the given packets. */
  function FileAfter(deadline: nat, items: seq<Item>): File {
    if |items| <= deadline then NotWritten
    else Written(Render(AssignedRange(items, LastDrainFrom(deadline, |items|), |items|)))
  }

  /** The number of headers drained after a run over n packets. */
  function Drained(deadline: nat, n: nat): nat {
    if n <= deadline then 0 else n
  }

  /** What the dump thread updates. */
  datatype DumpState = DumpState(tracker: Tracker, lists: Lists, file: File, freed: seq<nat>)

  /** The state after the decodable packets ms, for a thread started with the given totals and freed buffers. */
  ghost predicate Dumped(start: Tracker, freed: seq<nat>, deadline: nat, ms: seq<Mbuf>, st: DumpState) {
    && (forall m <- ms :: Decodable(m))
    && st.tracker == TrackAll(start, NumbersOf(ms))
    && Listed(st.lists, Items(ms), Drained(deadline, |ms|))
    && st.file == FileAfter(deadline, Items(ms))
    && st.freed == freed + Ids(ms)
  }

  /** One packet of the dump thread: count, push, drain when the time is over, free. */
  method DumpPacket(source: DpdkSource, stream: Stream, m: Mbuf, seqNb: int, l: Lists, file: File, index: nat,
                    deadline: nat, ghost start: Tracker, ghost freed: seq<nat>, ghost ms: seq<Mbuf>)
    returns (next: int, r: Lists, threw: bool, f: File)
    requires index == |ms|
    requires Dumped(start, freed, deadline, ms,
                    DumpState(Tracker(seqNb, source.totalPackets, source.totalPacketsLost), l, file, stream.freed))
    modifies source, stream
    ensures threw <==> !Decodable(m)
    ensures Tracker(next, source.totalPackets, source.totalPacketsLost) == TrackAll(start, NumbersOf(ms + [m]))
    ensures !threw ==> Dumped(start, freed, deadline, ms + [m],
      DumpState(Tracker(next, source.totalPackets, source.totalPacketsLost), r, f, stream.freed))
    ensures source.quit == (old(source.quit) || (!threw && index >= deadline))
    ensures stream.rxQueue == old(stream.rxQueue)
    ensures threw ==> f == file && stream.freed == old(stream.freed)
  {
    hide Listed, FileAfter, Drained, TrackAll, NumbersOf, Track, PushItem, Decodable, NumberOf, Ids, Items, ItemOf;
    hide Coherent;
    CountedSnoc(start, ms, m);
    next := source.CountPacket(m, seqNb);
    f := file;
    r, threw := Push(l, m);
    if threw {
      return;
    }
    ghost var items := Items(ms + [m]);
    ItemsSnoc(ms, m);
    PushKeepsListed(l, Items(ms), Drained(deadline, index), ItemOf(m));
    DrainDue(deadline, items, index);
    assert items[..index] == Items(ms);
    if index >= deadline {
      var text;
      AllKnown(ms + [m]);
      ItemsCoherent(ms + [m]);
      r, text := Drain(r, items, Drained(deadline, index));
      f := Written(text);
      source.quit := true;
    }
    stream.PktmbufFree(m);
    IdsSnoc(ms, m);
  }

  lemma DrainDue(deadline: nat, items: seq<Item>, index: nat)
    requires |items| == index + 1
    ensures Drained(deadline, index) <= |items|
    ensures index < deadline ==>
      Drained(deadline, index + 1) == Drained(deadline, index)
      && FileAfter(deadline, items) == FileAfter(deadline, items[..index]) == NotWritten
    ensures index >= deadline ==>
      Drained(deadline, index + 1) == |items|
      && FileAfter(deadline, items) == Written(Render(AssignedRange(items, Drained(deadline, index), |items|)))
  {
    hide Render, AssignedRange;
  }

  lemma ItemsSnoc(ms: seq<Mbuf>, m: Mbuf)
    ensures Items(ms + [m]) == Items(ms) + [ItemOf(m)]
  {
    hide ItemOf;
  }

  lemma AllKnown(ms: seq<Mbuf>)
    requires forall m <- ms :: Decodable(m)
    ensures forall i :: 0 <= i < |ms| ==> GetControlFromHeader(Items(ms)[i].header).Known?
  {
    hide GetControlFromHeader, HrzrOf, WordsOf, KindOf;
    forall i | 0 <= i < |ms|
      ensures Decodable(ms[i])
    {
      assert ms[i] in ms;
    }
  }

  /** The inner loop over one burst; `quit` is not looked at before its end. */
  method DumpBurst(source: DpdkSource, stream: Stream, mbufs: seq<Mbuf>, seqNb: int, l: Lists, file: File, index: nat,
                   deadline: nat, ghost start: Tracker, ghost freed: seq<nat>, ghost ms: seq<Mbuf>)
    returns (next: int, r: Lists, threw: bool, f: File, ghost all: seq<Mbuf>)
    requires index == |ms|
    requires Dumped(start, freed, deadline, ms,
                    DumpState(Tracker(seqNb, source.totalPackets, source.totalPacketsLost), l, file, stream.freed))
    modifies source, stream
    ensures ms <= all <= ms + mbufs && (if threw then ms < all else all == ms + mbufs)
    ensures threw ==> all != [] && !Decodable(all[|all| - 1]) && forall m <- all[..|all| - 1] :: Decodable(m)
    ensures Tracker(next, source.totalPackets, source.totalPacketsLost) == TrackAll(start, NumbersOf(all))
    ensures !threw ==> Dumped(start, freed, deadline, all,
      DumpState(Tracker(next, source.totalPackets, source.totalPacketsLost), r, f, stream.freed))
    ensures threw ==> f == FileAfter(deadline, Items(all[..|all| - 1])) && stream.freed == freed + Ids(all[..|all| - 1])
    ensures !threw ==> source.quit == (old(source.quit) || (mbufs != [] && |all| > deadline))
    ensures stream.rxQueue == old(stream.rxQueue)
  {
    hide Listed, FileAfter, Drained, TrackAll, NumbersOf, Decodable, Ids, Items;
    next, r, threw, f, all := seqNb, l, false, file, ms;
    for j := 0 to |mbufs|
      invariant all == ms + mbufs[..j]
      invariant Dumped(start, freed, deadline, all,
        DumpState(Tracker(next, source.totalPackets, source.totalPacketsLost), r, f, stream.freed))
      invariant source.quit == (old(source.quit) || (j > 0 && |all| > deadline))
      invariant stream.rxQueue == old(stream.rxQueue) && !threw
    {
      next, r, threw, f := DumpPacket(source, stream, mbufs[j], next, r, f, index + j, deadline, start, freed, all);
      assert mbufs[..j + 1] == mbufs[..j] + [mbufs[j]];
      all := all + [mbufs[j]];
      if threw {
        assert all[..|all| - 1] == ms + mbufs[..j];
        return;
      }
    }
  }

  /** One poll: a burst is taken and dumped. */
  method DumpPoll(source: DpdkSource, stream: Stream, ready: nat, seqNb: int, l: Lists, file: File, index: nat,
                  deadline: nat, ghost start: Tracker, ghost freed: seq<nat>, ghost ms: seq<Mbuf>)
    returns (next: int, r: Lists, threw: bool, f: File, packets: nat, ghost all: seq<Mbuf>, ghost abandoned: seq<Mbuf>)
    requires index == |ms|
    requires Dumped(start, freed, deadline, ms,
                    DumpState(Tracker(seqNb, source.totalPackets, source.totalPacketsLost), l, file, stream.freed))
    modifies source, stream
    ensures ms <= all && ms + old(stream.rxQueue) == all + abandoned + stream.rxQueue
    ensures |all| + |abandoned| <= |ms| + 32 && (if threw then |ms| < |all| else abandoned == [])
    ensures packets == |all| + |abandoned| - |ms|
    ensures ready >= |old(stream.rxQueue)| ==> packets == 32 || stream.rxQueue == []
    ensures threw ==> !Decodable(all[|all| - 1]) && forall m <- all[..|all| - 1] :: Decodable(m)
    ensures Tracker(next, source.totalPackets, source.totalPacketsLost) == TrackAll(start, NumbersOf(all))
    ensures !threw ==> Dumped(start, freed, deadline, all,
      DumpState(Tracker(next, source.totalPackets, source.totalPacketsLost), r, f, stream.freed))
    ensures threw ==> f == FileAfter(deadline, Items(all[..|all| - 1])) && stream.freed == freed + Ids(all[..|all| - 1])
    ensures !threw ==> source.quit == (old(source.quit) || (|ms| < |all| && |all| > deadline))
  {
    hide Dumped, FileAfter, TrackAll, NumbersOf, Decodable, Ids, Items;
    var mbufs := stream.RxBurst(BURST_SIZE, ready);
    next, r, threw, f, all := DumpBurst(source, stream, mbufs, seqNb, l, file, index, deadline, start, freed, ms);
    packets, abandoned := |mbufs|, mbufs[|all| - |ms|..];
    assert ms + mbufs == all + abandoned;
  }

  /** The dump thread: polls until a drain has set `quit` or the given polls are over, finishing the burst it is in.
      A header without a packet type ends it with an exception; that packet and the rest of its burst, already polled,
      are not freed. */
  method DumpThread(source: DpdkSource, stream: Stream, ready: seq<nat>, deadline: nat)
    returns (threw: bool, file: File, ghost taken: seq<Mbuf>, ghost abandoned: seq<Mbuf>)
    modifies source, stream
    ensures old(stream.rxQueue) == taken + abandoned + stream.rxQueue
    ensures |abandoned| < BURST_SIZE && (!threw ==> abandoned == [])
    ensures |taken| <= deadline + BURST_SIZE && (!threw ==> source.quit == (old(source.quit) || |taken| > deadline))
    ensures |taken| + |abandoned| <= 32 * |ready| && (old(source.quit) ==> taken == [])
    ensures !threw && !source.quit && AllReady(ready, |old(stream.rxQueue)|) ==>
      |taken| == 32 * |ready| || stream.rxQueue == []
    ensures threw ==> taken != [] && !Decodable(taken[|taken| - 1])
    ensures var dumped := if threw then taken[..|taken| - 1] else taken;
      && (forall m <- dumped :: Decodable(m))
      && file == FileAfter(deadline, Items(dumped))
      && stream.freed == old(stream.freed) + Ids(dumped)
    ensures var t := TrackAll(Tracker(0, old(source.totalPackets), old(source.totalPacketsLost)), NumbersOf(taken));
      source.totalPackets == t.totalPackets && source.totalPacketsLost == t.totalPacketsLost
  {
    hide Dumped, FileAfter, TrackAll, NumbersOf, Decodable, Ids, Items;
    ghost var start, freed := Tracker(0, source.totalPackets, source.totalPacketsLost), stream.freed;
    var seqNb, p, index, packets := 0, 0, 0, 0;
    var l := Lists([], [], []);
    threw, file, taken, abandoned := false, NotWritten, [], [];
    NothingDumped(deadline, start, freed);
    while p < |ready| && !source.quit
      invariant old(stream.rxQueue) == taken + stream.rxQueue && index == |taken| && !threw && abandoned == []
      invariant p <= |ready| && |taken| <= 32 * p && |taken| <= deadline + BURST_SIZE
      invariant source.quit == (old(source.quit) || |taken| > deadline) && (old(source.quit) ==> taken == [])
      invariant AllReady(ready, |old(stream.rxQueue)|) ==> |taken| == 32 * p || stream.rxQueue == []
      invariant Dumped(start, freed, deadline, taken,
        DumpState(Tracker(seqNb, source.totalPackets, source.totalPacketsLost), l, file, stream.freed))
      decreases |ready| - p
    {
      seqNb, l, threw, file, packets, taken, abandoned :=
        DumpPoll(source, stream, ready[p], seqNb, l, file, index, deadline, start, freed, taken);
      if threw {
        return;
      }
      index, p := index + packets, p + 1;
    }
    DumpedMeans(start, freed, deadline, taken,
                DumpState(Tracker(seqNb, source.totalPackets, source.totalPacketsLost), l, file, stream.freed));
  }

  lemma DumpedMeans(start: Tracker, freed: seq<nat>, deadline: nat, ms: seq<Mbuf>, st: DumpState)
    requires Dumped(start, freed, deadline, ms, st)
    ensures st.tracker == TrackAll(start, NumbersOf(ms)) && st.file == FileAfter(deadline, Items(ms))
    ensures st.freed == freed + Ids(ms) && forall m <- ms :: Decodable(m)
  {
  }

  lemma NothingDumped(deadline: nat, start: Tracker, freed: seq<nat>)
    ensures Dumped(start, freed, deadline, [], DumpState(start, Lists([], [], []), NotWritten, freed))
  {
  }

  lemma IdsSnoc(ms: seq<Mbuf>, m: Mbuf)
    ensures Ids(ms + [m]) == Ids(ms) + [m.id]
  {
  }

  // ---------------------------------------------------------------- what the dump is worth

  /** A packet's header with its own words. */
  function OwnRecord(x: Item): Record {
    match x.kind
    case DataPacket => Record(x.header, x.words[..SAMPLES_PER_PACKET])
    case MetaPacket => Record(x.header, x.words[..META_WORDS])
    case StrayPacket => Record(x.header, [])
  }

  function OwnRecords(items: seq<Item>): (rs: seq<Record>)
    ensures |rs| == |items|
  {
    seq(|items|, i requires 0 <= i < |items| => OwnRecord(items[i]))
  }

  /** The pushed words are the payload, four bytes each, least significant byte first. */
  lemma WordIsPayload(m: Mbuf, i: nat)
    requires i < 366
    ensures var p := PayloadOf(m);
      WordsOf(m)[i] == p[4 * i] as int + 0x100 * p[4 * i + 1] as int + 0x1_0000 * p[4 * i + 2] as int
                       + 0x100_0000 * p[4 * i + 3] as int
  {
  }

  /** The record a packet should have: a data packet's whole payload, the first forty bytes of a metadata packet's,
      nothing of any other's. */
  lemma RecordOfPacket(m: Mbuf)
    ensures OwnRecord(ItemOf(m)) == Record(HrzrOf(m),
      match GetControlFromHeader(HrzrOf(m))
      case Known(Data) => WordsOf(m)
      case Known(DataEndOfBurst) => WordsOf(m)
      case Known(Metadata) => WordsOf(m)[..10]
      case _ => [])
  {
    hide GetControlFromHeader, HrzrOf, WordsOf;
  }

  lemma OwnSized(items: seq<Item>)
    requires Coherent(items)
    ensures Sized(OwnRecords(items))
  {
    hide KindOf, WordCount;
    forall i | 0 <= i < |items|
      ensures |OwnRecords(items)[i].words| == WordCount(OwnRecords(items)[i].header)
    {
      ShareOfHeader(items[i].header);
    }
  }

  function Strays(items: seq<Item>): nat {
    |Pick(items, {StrayPacket})|
  }

  lemma {:induction false} PayloadsAreDataAndStrays(items: seq<Item>)
    ensures |PayloadPackets(items)| == Consumed(items) + Strays(items)
    decreases |items|
  {
    if items == [] {
    } else {
      PayloadsAreDataAndStrays(items[..|items| - 1]);
    }
  }

  /** After a drain the payload queue holds exactly the 366 words of every packet so far that was neither data nor
      metadata: those are pushed and never popped. The other two queues are empty. */
  lemma LeftAfterDrain(l: Lists, items: seq<Item>)
    requires Listed(l, items, |items|)
    ensures l.headers == [] && l.meta == [] && |l.payload| == SAMPLES_PER_PACKET * Strays(items)
  {
    hide Pick;
    PayloadsAreDataAndStrays(items);
    assert items[..|items|] == items;
  }

  /** No packet outside data and metadata comes before a data packet. */
  predicate StraysLast(items: seq<Item>) {
    forall i, j :: 0 <= i < j < |items| && items[i].kind == StrayPacket ==> items[j].kind != DataPacket
  }

  lemma {:induction false} NoStrays(items: seq<Item>)
    ensures Strays(items) == 0 <==> forall i :: 0 <= i < |items| ==> items[i].kind != StrayPacket
    decreases |items|
  {
    if items == [] {
    } else {
      NoStrays(items[..|items| - 1]);
    }
  }

  lemma {:induction false} PickFrom(items: seq<Item>, c: nat, kinds: set<Kind>) returns (p: nat)
    requires c < |Pick(items, kinds)|
    ensures p < |items| && items[p].kind in kinds && Pick(items, kinds)[c] == items[p]
    decreases |items|
  {
    var n := |items| - 1;
    if c < |Pick(items[..n], kinds)| {
      p := PickFrom(items[..n], c, kinds);
    } else {
      p := n;
    }
  }

  /** Payloads that tell the packets apart. */
  predicate DistinctPayloads(items: seq<Item>) {
    forall i, j ::
      (0 <= i < j < |items| && items[i].kind in PUSHED_AS_PAYLOAD && items[j].kind in PUSHED_AS_PAYLOAD)
      ==> items[i].words[..SAMPLES_PER_PACKET] != items[j].words[..SAMPLES_PER_PACKET]
  }

  lemma PushedAt(items: seq<Item>, k: nat)
    requires k < |items| && items[k].kind == DataPacket
    ensures var pushed, at, strays := PayloadPackets(items), |PayloadPackets(items[..k])|, Strays(items[..k]);
      strays <= at < |pushed| && pushed[at] == items[k] && at - strays == Consumed(items[..k])
  {
    hide Pick;
    PicksGrow(items, k);
    PickAt(items, k, PUSHED_AS_PAYLOAD);
    PayloadsAreDataAndStrays(items[..k]);
  }

  /** The k-th packet, a data packet with a number of stray packets before it, has the same payload words as the one
      pushed that many places earlier. */
  predicate SameWordsBack(items: seq<Item>, k: nat)
    requires k < |items| && items[k].kind == DataPacket
  {
    PushedAt(items, k);
    var pushed, at := PayloadPackets(items), |PayloadPackets(items[..k])|;
    pushed[at - Strays(items[..k])].words[..SAMPLES_PER_PACKET] == pushed[at].words[..SAMPLES_PER_PACKET]
  }

  predicate ShiftUnseen(items: seq<Item>) {
    forall k :: 0 <= k < |items| && items[k].kind == DataPacket ==> SameWordsBack(items, k)
  }

  /** Exactly then a data header gets its own words back; every other header always does. */
  lemma AssignedOwnIff(items: seq<Item>, k: nat)
    requires k < |items|
    ensures Assigned(items, k) == OwnRecord(items[k]) <==>
      (items[k].kind == DataPacket ==> SameWordsBack(items, k))
  {
    hide Pick;
    if items[k].kind == DataPacket {
      PushedAt(items, k);
    }
  }

  lemma StraysSeen(items: seq<Item>, k: nat)
    requires k < |items| && items[k].kind == DataPacket && Strays(items[..k]) != 0 && DistinctPayloads(items)
    ensures !SameWordsBack(items, k)
  {
    hide Pick;
    PushedAt(items, k);
    PicksGrow(items, k);
    var p := PickFrom(items[..k], Consumed(items[..k]), PUSHED_AS_PAYLOAD);
    assert PayloadPackets(items)[Consumed(items[..k])] == items[p];
  }

  /** With payloads that tell the packets apart the shift goes unseen only where no stray packet precedes a data
      packet. */
  lemma ShiftUnseenIff(items: seq<Item>)
    ensures StraysLast(items) ==> ShiftUnseen(items)
    ensures DistinctPayloads(items) && ShiftUnseen(items) ==> StraysLast(items)
  {
    hide DistinctPayloads, Pick;
    forall k | 0 <= k < |items| && items[k].kind == DataPacket
      ensures Strays(items[..k]) == 0 ==> SameWordsBack(items, k)
      ensures Strays(items[..k]) != 0 && DistinctPayloads(items) ==> !SameWordsBack(items, k)
      ensures Strays(items[..k]) == 0 <==> forall i :: 0 <= i < k ==> items[i].kind != StrayPacket
    {
      NoStrays(items[..k]);
      assert forall i :: 0 <= i < k ==> items[..k][i] == items[i];
      if Strays(items[..k]) == 0 {
        PushedAt(items, k);
      } else if DistinctPayloads(items) {
        StraysSeen(items, k);
      }
    }
  }

  /** Splitting into queues and putting together again are inverse exactly when every data packet has the words of the
      packet pushed as many places earlier as stray packets precede it. */
  lemma ReassemblyExactIff(items: seq<Item>)
    ensures AssignedRange(items, 0, |items|) == OwnRecords(items) <==> ShiftUnseen(items)
  {
    hide Assigned, OwnRecord, SameWordsBack;
    var a, o := AssignedRange(items, 0, |items|), OwnRecords(items);
    forall k | 0 <= k < |items|
      ensures a[k] == o[k] <==> (items[k].kind == DataPacket ==> SameWordsBack(items, k))
    {
      AssignedOwnIff(items, k);
    }
  }

  /** What the file is: nothing before the limit, everything when the limit was passed at the last packet, and only the
      last packet's line once more packets have followed. */
  lemma FileOfRun(deadline: nat, items: seq<Item>)
    ensures |items| <= deadline ==> FileAfter(deadline, items) == NotWritten
    ensures |items| == deadline + 1 ==> FileAfter(deadline, items) == Written(Render(AssignedRange(items, 0, |items|)))
    ensures |items| > deadline + 1 ==>
      FileAfter(deadline, items) == Written(RecordText(Assigned(items, |items| - 1)))
  {
    hide Render, RecordText, Assigned, AssignedRange;
    if |items| > deadline + 1 {
      LastLine(items);
    }
  }

  lemma LastLine(items: seq<Item>)
    requires items != []
    ensures var n := |items| - 1; Render(AssignedRange(items, n, n + 1)) == RecordText(Assigned(items, n))
  {
    hide RecordText, Pick;
    var r := Assigned(items, |items| - 1);
    assert AssignedRange(items, |items| - 1, |items|) == [r];
    OneLine(r);
  }

  lemma OneLine(r: Record)
    ensures Render([r]) == RecordText(r)
  {
    hide RecordText;
    assert [r][..0] == [];
  }

  /** The file ends up with every packet of the run, in order, each with its own words, exactly when the clock passed
      the limit at the very last packet of the run and the shift by stray packets goes unseen. */
  lemma FileCompleteIff(deadline: nat, items: seq<Item>)
    requires deadline < |items| && Coherent(items)
    ensures FileAfter(deadline, items) == Written(Render(OwnRecords(items)))
      <==> |items| == deadline + 1 && ShiftUnseen(items)
  {
    hide Render, Assigned, OwnRecord, ShiftUnseen, Sized, Coherent;
    var from := LastDrainFrom(deadline, |items|);
    ReassemblyExactIff(items);
    AssignedSized(items, from, |items|);
    OwnSized(items);
    if Render(AssignedRange(items, from, |items|)) == Render(OwnRecords(items)) {
      RenderInjective(AssignedRange(items, from, |items|), OwnRecords(items));
    }
  }

  /** For pairwise different payloads: exactly when the clock passed the limit at the last packet and no packet outside
      data and metadata precedes a data packet. */
  lemma DistinctFileCompleteIff(deadline: nat, items: seq<Item>)
    requires deadline < |items| && Coherent(items) && DistinctPayloads(items)
    ensures FileAfter(deadline, items) == Written(Render(OwnRecords(items)))
      <==> |items| == deadline + 1 && StraysLast(items)
  {
    hide FileAfter, Render, OwnRecords, DistinctPayloads, Coherent, ShiftUnseen, StraysLast;
    FileCompleteIff(deadline, items);
    ShiftUnseenIff(items);
  }

  /** A packet whose first header byte and first payload byte are given. */
  function Marked(b0: Byte, payload: Byte): Mbuf {
    Mbuf(0, seq(DATA_ROOM, i => if i == HRZR_OFFSET then b0 else if i == ALL_HEADERS then payload else 0), 0)
  }

  lemma MarkedItem(b0: Byte, payload: Byte)
    ensures HrzrOf(Marked(b0, payload)).b0 == b0 && WordsOf(Marked(b0, payload))[0] == payload
  {
  }

  lemma KindOfFirstByte(h: Hrzr)
    ensures h.b0 == 0x40 ==> GetControlFromHeader(h) == Known(FlowControl)
    ensures h.b0 == 0x00 ==> GetControlFromHeader(h) == Known(Data)
  {
  }

  /** A flow-control packet before a data packet: even with the clock passing at the last packet the file is wrong. */
  lemma StrayFirstSpoilsFile() returns (ms: seq<Mbuf>)
    ensures |ms| == 2 && forall m <- ms :: Decodable(m)
    ensures FileAfter(1, Items(ms)) != Written(Render(OwnRecords(Items(ms))))
  {
    hide Render, FileAfter, OwnRecords, WordsOf, HrzrOf, Marked, GetControlFromHeader, Coherent;
    var stray, data := Marked(0x40, 1), Marked(0x00, 2);
    ms := [stray, data];
    MarkedItem(0x40, 1);
    MarkedItem(0x00, 2);
    KindOfFirstByte(HrzrOf(stray));
    KindOfFirstByte(HrzrOf(data));
    var items := Items(ms);
    assert items[0] == ItemOf(stray) && items[1] == ItemOf(data);
    assert items[0].words[..SAMPLES_PER_PACKET][0] == 1 && items[1].words[..SAMPLES_PER_PACKET][0] == 2;
    ItemsCoherent(ms);
    DistinctFileCompleteIff(1, items);
  }
}
