/** From packets sent to samples accepted: the frames that the receive path finds
    drive the pipeline, packet by packet. */
module PacketLoop {
  import opened Words
  import opened Streams
  import opened Reassembly
  import opened Pipeline
  import opened Delivery
  import Listener
  import ReceivePath
  import VrlFrame
  import VrtPacket

  /** A packet as sent, with its payload converted. */
  datatype Parcel = Parcel(header: VrtPacket.Header, id: nat, samples: seq<Sample>)

  /** A packet of the buffer being processed, with the address of its payload. */
  datatype Item = Item(header: VrtPacket.Header, id: nat, at: nat)

  function Converted(ws: seq<Word>): seq<Sample> {
    seq(|ws|, j requires 0 <= j < |ws| => Convert(ws[j]))
  }

  /** The packets of a frame have their first two words in it. */
  predicate Inside(f: Received) {
    forall r | r in f.frame.packets :: r.offset + 1 < |f.words|
  }

  function ParcelAt(words: seq<Word>, r: VrlFrame.PacketRef): Parcel
    requires r.offset + 1 < |words|
  {
    var d := words[r.offset..];
    Parcel(r.header, words[r.offset + 1] % 0x100,
           if VrtPacket.PacketHere(d) then Converted(VrtPacket.Decode(d).payload) else [])
  }

  function ParcelsOf(f: Received): (ps: seq<Parcel>)
    requires Inside(f)
    ensures |ps| == |f.frame.packets|
  {
    seq(|f.frame.packets|, k requires 0 <= k < |f.frame.packets| => ParcelAt(f.words, f.frame.packets[k]))
  }

  function Parcels(frames: seq<Received>): seq<Parcel>
    requires forall f | f in frames :: Inside(f)
  {
    if frames == [] then [] else ParcelsOf(frames[0]) + Parcels(frames[1..])
  }

  /** What the packet loop computes from a frame whose first word is at byte
      `start` of the buffer. */
  function ItemAt(words: seq<Word>, r: VrlFrame.PacketRef, start: nat): Item
    requires r.offset + 1 < |words|
  {
    Item(r.header, words[r.offset + 1] % 0x100,
         start + 4 * (r.offset + VrtPacket.FieldOffset(r.header, VrtPacket.PayloadField)))
  }

  function ItemsOf(f: Received, start: nat): (items: seq<Item>)
    requires Inside(f)
    ensures |items| == |f.frame.packets|
  {
    seq(|f.frame.packets|, k requires 0 <= k < |f.frame.packets| => ItemAt(f.words, f.frame.packets[k], start))
  }

  function Items(frames: seq<Received>, start: nat): seq<Item>
    requires forall f | f in frames :: Inside(f)
  {
    if frames == [] then [] else
      ItemsOf(frames[0], start + 4 * frames[0].frame.skipped) + Items(frames[1..], start + Advance(frames[0].frame))
  }

  /** Packets a stream wants, in order: their samples. */
  function SamplesFor(ps: seq<Parcel>, i: nat): seq<Sample> {
    if ps == [] then [] else
      var last := ps[|ps| - 1];
      SamplesFor(ps[..|ps| - 1], i) + if last.header.ptype == 1 && last.id == i then last.samples else []
  }

  // ---- The loop ----------------------------------------------------------------

  /** The pipeline; how many chunks have been fetched; the packets of the current
      buffer still to be looked at; how many packets had been looked at by the
      time of the last update, and by now. */
  datatype Loop = Loop(p: State, fetched: nat, todo: seq<Item>, from: nat, to: nat)

  datatype Move = Skip | Act(a: Action)

  function Count(item: Item): nat {
    VrtPacket.PayloadSize(item.header) / 4
  }

  /** The packet loop goes on to the next packet without dispatching. */
  predicate Skippable(s: State, item: Item) {
    || item.header.ptype != 1 || item.id > |s.streams|
    || (item.id < |s.streams| && !s.streams[item.id].valid)
  }

  /** The buffer that get_buffer_list returned, once the saved tail has been put
      in front of the chunk. */
  ghost predicate Prepared(rx: seq<Byte>, tail: seq<Byte>, c: seq<Byte>) {
    && |tail| <= UDP_START_INDEX && UDP_START_INDEX + |c| <= |rx|
    && rx[UDP_START_INDEX - |tail|..UDP_START_INDEX + |c|] == tail + c
    && forall f | f in Consume(tail + c).frames :: Inside(f)
  }

  /** The main loop takes over the next chunk. */
  ghost predicate Fetches(chunks: seq<seq<Byte>>, d: Loop, rx: seq<Byte>, e: Loop) {
    && d.fetched < |chunks|
    && var tail, c := Feed([], chunks[..d.fetched]).tail, chunks[d.fetched];
    && (c == [] ==> e == d.(p := e.p, fetched := d.fetched + 1))
    && (c != [] ==>
          Prepared(rx, tail, c) &&
          e == Loop(e.p, d.fetched + 1, Items(Consume(tail + c).frames, UDP_START_INDEX - |tail|), d.from, d.to))
  }

  /** The loop's part in a step of the pipeline. */
  ghost predicate Follows(chunks: seq<seq<Byte>>, d: Loop, a: Action, e: Loop) {
    if a.Dispatch? then
      && d.todo != [] && d.todo[0].header.ptype == 1
      && a.i == d.todo[0].id && a.at == d.todo[0].at && a.n == Count(d.todo[0]) && a.number == d.todo[0].header.count
      && e == d.(p := e.p, todo := d.todo[1..], to := d.to + 1)
    else if a.Perform? && d.p.main.Draining? && d.p.main.task == Fetch && |a.buffers| == 2 && a.side < 2 then
      Fetches(chunks, d, a.buffers[a.side], e)
    else
      && (a.Drain? && a.task == Fetch ==> d.todo == [])
      && e == d.(p := e.p, from := if Updates(d.p, a) then d.to else d.from)
  }

  /** One step. A packet for which its stream has no room makes the loop go round
      without any effect, which is no step. */
  ghost predicate Moves(chunks: seq<seq<Byte>>, d: Loop, m: Move, e: Loop) {
    match m
    case Act(a) => Steps(d.p, a, e.p) && Follows(chunks, d, a, e)
    case Skip =>
      && d.p.main.Ready? && d.todo != [] && Skippable(d.p, d.todo[0])
      && e == d.(todo := d.todo[1..], to := d.to + 1)
  }

  ghost predicate LoopRun(chunks: seq<seq<Byte>>, ds: seq<Loop>, ms: seq<Move>) {
    && |ds| == |ms| + 1
    && Initial(ds[0].p) && ds[0] == Loop(ds[0].p, 0, [], 0, 0)
    && forall n | 0 <= n < |ms| :: Moves(chunks, ds[n], ms[n], ds[n + 1])
  }

  // ---- Invariant ------------------------------------------------------------------

  /** The item stands for the parcel: its address holds the parcel's payload. */
  ghost predicate Carries(rx: seq<Byte>, item: Item, p: Parcel) {
    && item.header == p.header && item.id == p.id && VrtPacket.ValidHeader(p.header)
    && (VrtPacket.WellSized(p.header) ==>
          item.at + 4 * Count(item) <= |rx| && JobSamples(rx, item.at, Count(item)) == p.samples)
  }

  ghost predicate AllCarried(rx: seq<Byte>, items: seq<Item>, ps: seq<Parcel>) {
    |items| == |ps| && forall k | 0 <= k < |items| :: Carries(rx, items[k], ps[k])
  }

  /** What each stream has accepted since the last update. */
  ghost predicate Accounted(s: State, ps: seq<Parcel>) {
    && |s.logs| == |s.streams|
    && forall i | 0 <= i < |s.streams| ::
         s.logs[i].accepted == if s.streams[i].valid then SamplesFor(ps, i) else []
  }

  ghost predicate LoopOk(ps: seq<Parcel>, d: Loop) {
    && Inv(d.p) && WellShaped(d.p) && d.from <= d.to <= |ps|
    && AllCarried(d.p.rx[d.p.mine], d.todo, ps[d.to..])
    && Accounted(d.p, ps[d.from..d.to])
    && (d.p.main.Draining? && d.p.main.task == Fetch ==> d.todo == [])
  }

  ghost predicate SameAccepted(s: State, t: State) {
    && |t.streams| == |s.streams| && |t.logs| == |s.logs| >= |s.streams|
    && t.mine == s.mine < 2 == |s.rx| == |t.rx| && t.rx[s.mine] == s.rx[s.mine]
    && forall i | 0 <= i < |s.streams| ::
         t.streams[i].valid == s.streams[i].valid && t.logs[i].accepted == s.logs[i].accepted
  }

  /** Steps that neither accept a packet, nor update, nor fetch. */
  lemma OtherStep(s: State, a: Action)
    requires WellShaped(s) && Enabled(s, a) && !a.Dispatch?
    requires a.Perform? ==> s.main.task == DoFlip
    ensures SameAccepted(s, Apply(s, a))
  {
    hide Apply, Enabled;
    if OtherThread(a) {
      OtherStepOfThreads(s, a);
    } else {
      OtherStepOfConsumer(s, a);
    }
  }

  lemma OtherStepOfThreads(s: State, a: Action)
    requires WellShaped(s) && Enabled(s, a) && !a.Dispatch? && OtherThread(a)
    requires a.Perform? ==> s.main.task == DoFlip
    ensures SameAccepted(s, Apply(s, a))
  {
    hide JobSamples, Convert, WordAt;
  }

  lemma OtherStepOfConsumer(s: State, a: Action)
    requires WellShaped(s) && Enabled(s, a) && !OtherThread(a)
    ensures SameAccepted(s, Apply(s, a))
  {
    hide CopiedOut, Delivered, ReadCount;
  }

  lemma UpdateStep(s: State, a: Action)
    requires WellShaped(s) && Enabled(s, a) && Updates(s, a)
    ensures var t := Apply(s, a);
      && t.mine == s.mine && t.rx == s.rx && |t.logs| == |t.streams|
      && forall i | 0 <= i < |t.logs| :: t.logs[i].accepted == []
  {
  }

  lemma FetchStep(s: State, a: Action)
    requires WellShaped(s) && Enabled(s, a) && a.Perform? && s.main.task == Fetch
    ensures var t := Apply(s, a);
      && t.streams == s.streams && t.logs == s.logs && t.main.Ready?
      && t.mine < 2 == |t.rx| && t.rx[t.mine] == a.buffers[a.side]
  {
  }

  lemma SamplesForMore(ps: seq<Parcel>, from: nat, to: nat, i: nat)
    requires from <= to < |ps|
    ensures SamplesFor(ps[from..to + 1], i) ==
            SamplesFor(ps[from..to], i) + if ps[to].header.ptype == 1 && ps[to].id == i then ps[to].samples else []
  {
    assert ps[from..to + 1][..to - from] == ps[from..to];
  }

  lemma NextCarried(rx: seq<Byte>, items: seq<Item>, ps: seq<Parcel>, to: nat)
    requires to <= |ps| && AllCarried(rx, items, ps[to..]) && items != []
    ensures to < |ps| && Carries(rx, items[0], ps[to]) && AllCarried(rx, items[1..], ps[to + 1..])
  {
    hide Carries;
    assert ps[to..][1..] == ps[to + 1..];
  }

  lemma SkipKeeps(ps: seq<Parcel>, d: Loop)
    requires LoopOk(ps, d) && d.p.main.Ready? && d.todo != [] && Skippable(d.p, d.todo[0])
    ensures LoopOk(ps, d.(todo := d.todo[1..], to := d.to + 1))
  {
    hide Inv, AllCarried, Accounted, Carries;
    NextCarried(d.p.rx[d.p.mine], d.todo, ps, d.to);
    SameHeader(d.p.rx[d.p.mine], d.todo[0], ps[d.to]);
    AccountedSkip(d.p, ps, d.from, d.to, d.todo[0]);
  }

  lemma SameHeader(rx: seq<Byte>, item: Item, p: Parcel)
    requires Carries(rx, item, p)
    ensures item.header == p.header && item.id == p.id
  {
  }

  lemma AccountedSkip(s: State, ps: seq<Parcel>, from: nat, to: nat, item: Item)
    requires from <= to < |ps| && Accounted(s, ps[from..to]) && Skippable(s, item)
    requires item.header == ps[to].header && item.id == ps[to].id
    ensures Accounted(s, ps[from..to + 1])
  {
    hide SamplesFor;
    forall i | 0 <= i < |s.streams|
      ensures s.logs[i].accepted == if s.streams[i].valid then SamplesFor(ps[from..to + 1], i) else []
    {
      SamplesForMore(ps, from, to, i);
    }
  }

  lemma OtherKeeps(ps: seq<Parcel>, d: Loop, a: Action)
    requires LoopOk(ps, d) && Enabled(d.p, a) && !a.Dispatch? && (a.Perform? ==> d.p.main.task == DoFlip)
    requires a.Drain? && a.task == Fetch ==> d.todo == []
    ensures LoopOk(ps, d.(p := Apply(d.p, a)))
  {
    InvStep(d.p, a);
    InvShaped(Apply(d.p, a));
    OtherStep(d.p, a);
    MainTask(d.p, a);
    hide Inv, Apply, AllCarried, Enabled;
  }

  lemma MainTask(s: State, a: Action)
    requires WellShaped(s) && Enabled(s, a)
    ensures var t := Apply(s, a); t.main.Draining? && t.main.task == Fetch ==>
      (s.main.Draining? && s.main.task == Fetch) || a == Drain(Fetch)
  {
    hide JobSamples, Convert, WordAt, CopiedOut, Delivered;
  }

  lemma UpdateKeeps(ps: seq<Parcel>, d: Loop, a: Action)
    requires LoopOk(ps, d) && Enabled(d.p, a) && Updates(d.p, a)
    ensures LoopOk(ps, d.(p := Apply(d.p, a), from := d.to))
  {
    InvStep(d.p, a);
    InvShaped(Apply(d.p, a));
    UpdateStep(d.p, a);
    MainTask(d.p, a);
    assert ps[d.to..d.to] == [];
    hide Inv, Apply, AllCarried, Enabled;
  }

  lemma Dispatched(s: State, a: Action)
    requires WellShaped(s) && Enabled(s, a) && a.Dispatch?
    ensures a.i < |s.streams| && s.streams[a.i].valid && HasRoom(s.streams[a.i], a.n)
    ensures a.at + 4 * a.n <= |s.rx[s.mine]|
    ensures var t := Apply(s, a);
      && |t.streams| == |s.streams| && |t.logs| == |s.logs| && t.mine == s.mine && t.rx == s.rx && t.main.Ready?
      && forall i | 0 <= i < |s.streams| ::
           && t.streams[i].valid == s.streams[i].valid
           && t.logs[i].accepted == s.logs[i].accepted +
                if i == a.i then JobSamples(s.rx[s.mine], a.at, a.n) else []
  {
    hide JobSamples;
    forall i | 0 <= i < |s.logs| ensures s.logs[i].accepted + [] == s.logs[i].accepted {
    }
  }

  lemma AccountedMore(s: State, t: State, ps: seq<Parcel>, from: nat, to: nat, i: nat)
    requires from <= to < |ps| && Accounted(s, ps[from..to]) && ps[to].header.ptype == 1 && ps[to].id == i
    requires i < |s.streams| == |t.streams| && |t.logs| == |s.logs| && s.streams[i].valid
    requires forall j | 0 <= j < |s.streams| ::
      && t.streams[j].valid == s.streams[j].valid
      && t.logs[j].accepted == s.logs[j].accepted + if j == i then ps[to].samples else []
    ensures Accounted(t, ps[from..to + 1])
  {
    hide SamplesFor;
    forall j | 0 <= j < |s.streams|
      ensures t.logs[j].accepted == if t.streams[j].valid then SamplesFor(ps[from..to + 1], j) else []
    {
      SamplesForMore(ps, from, to, j);
    }
  }

  /** A packet for which there is room is well sized, and its parcel is stored. */
  lemma RoomForParcel(rx: seq<Byte>, item: Item, p: Parcel, st: Stream)
    requires Carries(rx, item, p) && Shaped(st) && HasRoom(st, Count(item))
    ensures item.header == p.header && item.id == p.id
    ensures item.at + 4 * Count(item) <= |rx| && JobSamples(rx, item.at, Count(item)) == p.samples
  {
    hide VrtPacket.PayloadSize, VrtPacket.WellSized, JobSamples;
    VrtPacket.PayloadSizeExact(item.header);
  }

  lemma DispatchKeeps(ps: seq<Parcel>, d: Loop, a: Action)
    requires LoopOk(ps, d) && Enabled(d.p, a) && a.Dispatch? && d.todo != [] && d.todo[0].header.ptype == 1
    requires a.i == d.todo[0].id && a.at == d.todo[0].at && a.n == Count(d.todo[0])
    ensures LoopOk(ps, d.(p := Apply(d.p, a), todo := d.todo[1..], to := d.to + 1))
  {
    hide Inv, Apply, AllCarried, Enabled, JobSamples, Carries, Accounted, HasRoom, Count, Shaped, Updates;
    InvStep(d.p, a);
    InvShaped(Apply(d.p, a));
    Dispatched(d.p, a);
    NextCarried(d.p.rx[d.p.mine], d.todo, ps, d.to);
    RoomForParcel(d.p.rx[d.p.mine], d.todo[0], ps[d.to], d.p.streams[a.i]);
    AccountedMore(d.p, Apply(d.p, a), ps, d.from, d.to, a.i) by { assert |d.p.logs| == |d.p.streams|; }
  }

  /** The parcels of a further buffer go behind those before. */
  lemma FetchKeeps(ps: seq<Parcel>, more: seq<Parcel>, d: Loop, a: Action, items: seq<Item>)
    requires LoopOk(ps, d) && Enabled(d.p, a) && a.Perform? && d.p.main.task == Fetch
    requires AllCarried(a.buffers[a.side], items, more)
    ensures LoopOk(ps + more, d.(p := Apply(d.p, a), fetched := d.fetched + 1, todo := items))
  {
    InvStep(d.p, a);
    InvShaped(Apply(d.p, a));
    FetchStep(d.p, a);
    assert |ps[d.to..]| == 0 by { hide Inv, Carries; }
    assert (ps + more)[d.to..] == more;
    assert (ps + more)[d.from..d.to] == ps[d.from..d.to];
    hide Inv, Apply, AllCarried, Enabled, SamplesFor;
  }

  // ---- One buffer ------------------------------------------------------------------

  lemma FoundInside(g: seq<Byte>)
    requires WellFormed(g)
    ensures Inside(Found(g))
    ensures VrlFrame.Chain(ToWords(g), |g| / 4, 2, Found(g).frame.packets)
  {
    hide VrlFrame.Walk, VrlFrame.Parse, VrtPacket.HeaderOf;
    WholeFrame(g, g);
    VrlFrame.ParsedFrameFits(ToWords(g), |g|);
    assert ToWords(g)[0..] == ToWords(g);
  }

  lemma {:induction false} AllInside(gs: seq<seq<Byte>>)
    requires forall g | g in gs :: WellFormed(g)
    ensures forall f | f in FoundAll(gs) :: Inside(f)
  {
    hide WellFormed, Inside, Found;
    if gs != [] {
      FoundInside(gs[0]);
      AllInside(gs[1..]);
    }
  }

  lemma OneCarried(rx: seq<Byte>, g: seq<Byte>, start: nat, r: VrlFrame.PacketRef)
    requires WellFormed(g) && start + |g| <= |rx| && rx[start..start + |g|] == g && r in Found(g).frame.packets
    ensures r.offset + 1 < |ToWords(g)|
    ensures Carries(rx, ItemAt(ToWords(g), r, start), ParcelAt(ToWords(g), r))
  {
    hide VrlFrame.Walk, VrlFrame.Parse, VrtPacket.HeaderOf, VrtPacket.WellSized, VrtPacket.Decode, VrtPacket.PacketHere,
         VrtPacket.FieldOffset, VrtPacket.PayloadSize, Convert, WordAt, VrtPacket.ValidHeader;
    FoundInside(g);
    var ws := ToWords(g);
    VrtPacket.HeaderValid(ws[r.offset]);
    if VrtPacket.WellSized(r.header) {
      ReceivePath.PacketInFrame(ws, |g| / 4, Found(g).frame.packets, r);
      ReceivePath.PayloadWords(rx, start, start + |g|, r.offset);
    }
  }

  lemma FrameCarried(rx: seq<Byte>, g: seq<Byte>, start: nat)
    requires WellFormed(g) && start + |g| <= |rx| && rx[start..start + |g|] == g
    ensures Inside(Found(g)) && AllCarried(rx, ItemsOf(Found(g), start), ParcelsOf(Found(g)))
  {
    hide WellFormed, Carries, ItemAt, ParcelAt, Inside;
    FoundInside(g);
    var f := Found(g);
    forall k | 0 <= k < |f.frame.packets|
      ensures Carries(rx, ItemsOf(f, start)[k], ParcelsOf(f)[k])
    {
      OneCarried(rx, g, start, f.frame.packets[k]);
    }
  }

  lemma CarriedAppend(rx: seq<Byte>, a: seq<Item>, b: seq<Item>, p: seq<Parcel>, q: seq<Parcel>)
    requires AllCarried(rx, a, p) && AllCarried(rx, b, q)
    ensures AllCarried(rx, a + b, p + q)
  {
    hide Carries;
  }

  /** The packets of whole frames lying in the buffer are where the loop looks. */
  lemma {:induction false} BufferCarried(rx: seq<Byte>, gs: seq<seq<Byte>>, start: nat)
    requires forall g | g in gs :: WellFormed(g)
    requires start + |Flatten<Byte>(gs)| <= |rx| && rx[start..start + |Flatten<Byte>(gs)|] == Flatten<Byte>(gs)
    ensures forall f | f in FoundAll(gs) :: Inside(f)
    ensures AllCarried(rx, Items(FoundAll(gs), start), Parcels(FoundAll(gs)))
    decreases |gs|
  {
    hide WellFormed, AllCarried, ItemsOf, ParcelsOf, Inside, FoundAll, Items, Parcels;
    AllInside(gs);
    if gs == [] {
      NoFrames(rx, gs, start);
    } else {
      var g, rest := gs[0], Flatten<Byte>(gs[1..]);
      CutBuffer(rx, start, g, rest);
      FrameCarried(rx, g, start);
      BufferCarried(rx, gs[1..], start + |g|);
      FirstFrame(gs, start);
      var f, more := Found(g), FoundAll(gs[1..]);
      CarriedAppend(rx, ItemsOf(f, start), Items(more, start + |g|), ParcelsOf(f), Parcels(more));
    }
  }

  lemma NoFrames(rx: seq<Byte>, gs: seq<seq<Byte>>, start: nat)
    requires gs == []
    ensures FoundAll(gs) == [] && AllCarried(rx, Items(FoundAll(gs), start), Parcels(FoundAll(gs)))
  {
  }

  lemma FirstFrame(gs: seq<seq<Byte>>, start: nat)
    requires gs != [] && (forall g | g in gs :: WellFormed(g))
    ensures (forall f | f in FoundAll(gs) :: Inside(f)) && (forall f | f in FoundAll(gs[1..]) :: Inside(f))
    ensures Inside(Found(gs[0]))
    ensures Items(FoundAll(gs), start) ==
            ItemsOf(Found(gs[0]), start) + Items(FoundAll(gs[1..]), start + |gs[0]|)
    ensures Parcels(FoundAll(gs)) == ParcelsOf(Found(gs[0])) + Parcels(FoundAll(gs[1..]))
  {
    hide WellFormed, Inside, FoundAll, Found, Advance, Items, Parcels, ItemsOf, ParcelsOf;
    AllInside(gs);
    AllInside(gs[1..]);
    FoundInside(gs[0]);
    FoundPlace(gs[0]);
    FoundFirst(gs);
    FirstReceived(Found(gs[0]), FoundAll(gs[1..]), start);
  }

  lemma FoundFirst(gs: seq<seq<Byte>>)
    requires gs != [] && (forall g | g in gs :: WellFormed(g))
    ensures FoundAll(gs) == [Found(gs[0])] + FoundAll(gs[1..])
  {
    hide WellFormed, Found;
  }

  lemma FirstReceived(f: Received, more: seq<Received>, start: nat)
    requires Inside(f) && (forall g | g in more :: Inside(g)) && f.frame.skipped == 0
    ensures forall g | g in [f] + more :: Inside(g)
    ensures Items([f] + more, start) == ItemsOf(f, start) + Items(more, start + Advance(f.frame))
    ensures Parcels([f] + more) == ParcelsOf(f) + Parcels(more)
  {
    hide Inside, ItemsOf, ParcelsOf;
    assert ([f] + more)[1..] == more;
  }

  lemma FoundPlace(g: seq<Byte>)
    requires WellFormed(g)
    ensures Found(g).frame.skipped == 0 && Advance(Found(g).frame) == |g|
  {
  }

  lemma CutBuffer(rx: seq<Byte>, start: nat, g: seq<Byte>, rest: seq<Byte>)
    requires start + |g + rest| <= |rx| && rx[start..start + |g + rest|] == g + rest
    ensures rx[start..start + |g|] == g
    ensures rx[start + |g|..start + |g| + |rest|] == rest
  {
    var b := rx[start..start + |g + rest|];
    assert b[..|g|] == rx[start..start + |g|];
    assert b[|g|..] == rx[start + |g|..start + |g| + |rest|];
  }

  // ---- Whole runs --------------------------------------------------------------------

  /** The packets of the frames found in the first n chunks. */
  ghost function ParcelsBy(chunks: seq<seq<Byte>>, n: nat): seq<Parcel>
    requires n <= |chunks| && forall f | f in Feed([], chunks[..n]).frames :: Inside(f)
  {
    Parcels(Feed([], chunks[..n]).frames)
  }

  /** The frames completed by the next chunk, and the bytes they and the new tail
      are made of. */
  lemma NextFrames(fs: seq<seq<Byte>>, chunks: seq<seq<Byte>>, n: nat) returns (gs: seq<seq<Byte>>)
    requires (forall f | f in fs :: WellFormed(f)) && Flatten<Byte>(chunks) <= Flatten<Byte>(fs)
    requires n < |chunks| && chunks[n] != []
    ensures forall g | g in gs :: WellFormed(g)
    ensures var p, q := Feed([], chunks[..n]), Feed([], chunks[..n + 1]); var b := p.tail + chunks[n];
      && !p.stuck && |p.tail| < UDP_START_INDEX
      && q.frames == p.frames + Consume(b).frames && Consume(b).frames == FoundAll(gs)
      && Flatten<Byte>(gs) <= b
  {
    hide WellFormed, Feed, Consume, FoundAll;
    PartClean(fs, chunks, n);
    var p := Feed([], chunks[..n]);
    var b := p.tail + chunks[n];
    assert chunks[..n + 1] == chunks[..n] + [chunks[n]];
    ReceivePath.FeedOneMore([], chunks[..n], chunks[n]);
    // The rest of the stream, cut off behind this chunk.
    var k := |p.frames|;
    FlattenSnoc(chunks[..n], chunks[n]);
    PartClean(fs, chunks, n + 1);
    Remaining(fs, Flatten<Byte>(chunks[..n]), k, p.tail, chunks[n]);
    var t := WholeSplits(fs[k..], b);
    var j := Whole(fs[k..], |b|);
    ConsumeSplit(fs[k..], b, j, t);
    gs := fs[k..][..j];
  }

  lemma PartClean(fs: seq<seq<Byte>>, chunks: seq<seq<Byte>>, n: nat)
    requires (forall f | f in fs :: WellFormed(f)) && Flatten<Byte>(chunks) <= Flatten<Byte>(fs)
    requires n <= |chunks|
    ensures Flatten<Byte>(chunks[..n]) <= Flatten<Byte>(fs)
    ensures var p := Feed([], chunks[..n]); var k := |p.frames|;
      && !p.stuck && k <= |fs| && SplitsAt(fs, Flatten<Byte>(chunks[..n]), k, p.tail)
      && p.frames == FoundAll(fs[..k]) && |p.tail| < UDP_START_INDEX
  {
    hide WellFormed, Feed, Consume, FoundAll;
    assert chunks == chunks[..n] + chunks[n..];
    FlattenAppend(chunks[..n], chunks[n..]);
    var a, all := Flatten<Byte>(chunks[..n]), Flatten<Byte>(chunks);
    assert a == all[..|a|] == Flatten<Byte>(fs)[..|all|][..|a|];
    ChunkIndependence(fs, chunks[..n]);
  }

  lemma {:induction false} ParcelsAppend(a: seq<Received>, b: seq<Received>)
    requires forall f | f in a + b :: Inside(f)
    ensures (forall f | f in a :: Inside(f)) && (forall f | f in b :: Inside(f))
    ensures Parcels(a + b) == Parcels(a) + Parcels(b)
    decreases |a|
  {
    hide Inside, ParcelsOf;
    assert forall f | f in a :: f in a + b;
    assert forall f | f in b :: f in a + b;
    if a == [] {
      assert a + b == b;
    } else {
      assert (a + b)[1..] == a[1..] + b;
      ParcelsAppend(a[1..], b);
    }
  }

  ghost predicate CleanChunks(fs: seq<seq<Byte>>, chunks: seq<seq<Byte>>) {
    (forall f | f in fs :: WellFormed(f)) && Flatten<Byte>(chunks) <= Flatten<Byte>(fs)
  }

  /** The loop is where the frames of the chunks fetched so far have brought it. */
  ghost predicate OnCourse(chunks: seq<seq<Byte>>, d: Loop) {
    && d.fetched <= |chunks|
    && (forall f | f in Feed([], chunks[..d.fetched]).frames :: Inside(f))
    && LoopOk(ParcelsBy(chunks, d.fetched), d)
  }

  lemma InsideBy(fs: seq<seq<Byte>>, chunks: seq<seq<Byte>>, n: nat)
    requires CleanChunks(fs, chunks) && n <= |chunks|
    ensures forall f | f in Feed([], chunks[..n]).frames :: Inside(f)
  {
    hide WellFormed, Feed, FoundAll, Inside, SplitsAt;
    PartClean(fs, chunks, n);
    AllInside(fs[..|Feed([], chunks[..n]).frames|]);
  }

  lemma FrontOf(rx: seq<Byte>, start: nat, b: seq<Byte>, front: seq<Byte>)
    requires start + |b| <= |rx| && rx[start..start + |b|] == b && front <= b
    ensures rx[start..start + |front|] == front
  {
    assert rx[start..start + |front|] == rx[start..start + |b|][..|front|];
  }

  /** What the next chunk adds to the parcels, and that the buffer holds it. */
  lemma ChunkParcels(fs: seq<seq<Byte>>, chunks: seq<seq<Byte>>, n: nat, rx: seq<Byte>) returns (more: seq<Parcel>)
    requires CleanChunks(fs, chunks) && n < |chunks| && chunks[n] != []
    requires Prepared(rx, Feed([], chunks[..n]).tail, chunks[n])
    ensures forall k | k == n || k == n + 1 :: forall f | f in Feed([], chunks[..k]).frames :: Inside(f)
    ensures ParcelsBy(chunks, n + 1) == ParcelsBy(chunks, n) + more
    ensures var tail := Feed([], chunks[..n]).tail;
      AllCarried(rx, Items(Consume(tail + chunks[n]).frames, UDP_START_INDEX - |tail|), more)
  {
    hide WellFormed, Feed, Consume, FoundAll, Inside, Items, Parcels, AllCarried;
    InsideBy(fs, chunks, n);
    InsideBy(fs, chunks, n + 1);
    var gs := NextFrames(fs, chunks, n);
    var tail := Feed([], chunks[..n]).tail;
    var start := UDP_START_INDEX - |tail|;
    FrontOf(rx, start, tail + chunks[n], Flatten<Byte>(gs));
    BufferCarried(rx, gs, start);
    more := Parcels(FoundAll(gs));
    ParcelsAppend(Feed([], chunks[..n]).frames, FoundAll(gs));
  }

  lemma EmptyChunk(fs: seq<seq<Byte>>, chunks: seq<seq<Byte>>, n: nat)
    requires CleanChunks(fs, chunks) && n < |chunks| && chunks[n] == []
    ensures Feed([], chunks[..n + 1]) == Feed([], chunks[..n])
  {
    hide Feed, Consume, WellFormed;
    PartClean(fs, chunks, n);
    assert chunks[..n + 1] == chunks[..n] + [chunks[n]];
    ReceivePath.FeedOneMore([], chunks[..n], chunks[n]);
  }

  ghost predicate TakesOver(chunks: seq<seq<Byte>>, d: Loop, buffers: seq<seq<Byte>>, side: nat, e: Loop) {
    && |buffers| == 2 && side < 2 && d.p.main.Draining? && d.p.main.task == Fetch
    && Steps(d.p, Perform(buffers, side), e.p) && Fetches(chunks, d, buffers[side], e)
  }

  lemma ChunkKeeps(fs: seq<seq<Byte>>, chunks: seq<seq<Byte>>, d: Loop, buffers: seq<seq<Byte>>, side: nat, e: Loop)
    requires CleanChunks(fs, chunks) && OnCourse(chunks, d) && TakesOver(chunks, d, buffers, side, e)
    ensures OnCourse(chunks, e)
  {
    hide Feed, Consume, Parcels, AllCarried, Inside, Prepared, Items, Accounted, Inv, Apply, Enabled, CleanChunks,
         LoopOk;
    var n := d.fetched;
    var ps := ParcelsBy(chunks, n);
    if chunks[n] == [] {
      EmptyChunk(fs, chunks, n);
      NoneCarried(buffers[side]);
      assert ps + [] == ps;
      FetchesLast(ps, d, Perform(buffers, side));
      FetchKeeps(ps, [], d, Perform(buffers, side), []);
    } else {
      var more := ChunkParcels(fs, chunks, n, buffers[side]);
      FetchKeeps(ps, more, d, Perform(buffers, side), e.todo);
    }
  }

  lemma FetchesLast(ps: seq<Parcel>, d: Loop, a: Action)
    requires LoopOk(ps, d) && Enabled(d.p, a) && a.Perform? && d.p.main.task == Fetch
    ensures d.todo == []
  {
    hide Inv;
  }

  lemma NoneCarried(rx: seq<Byte>)
    ensures AllCarried(rx, [], [])
  {
  }

  lemma MoveKeeps(fs: seq<seq<Byte>>, chunks: seq<seq<Byte>>, d: Loop, m: Move, e: Loop)
    requires CleanChunks(fs, chunks) && OnCourse(chunks, d) && Moves(chunks, d, m, e)
    ensures OnCourse(chunks, e)
  {
    hide Feed, Parcels, AllCarried, Inside, Items, Accounted, Inv, Apply, Enabled, CleanChunks, Fetches;
    match m
    case Skip => SkipKeeps(ParcelsBy(chunks, d.fetched), d);
    case Act(a) =>
      PerformShape(d.p, a);
      if a.Dispatch? {
        DispatchKeeps(ParcelsBy(chunks, d.fetched), d, a);
      } else if a.Perform? && d.p.main.task == Fetch {
        assert a == Perform(a.buffers, a.side);
        ChunkKeeps(fs, chunks, d, a.buffers, a.side, e);
      } else if a.Perform? && d.p.main.task == DoUpdate {
        UpdateKeeps(ParcelsBy(chunks, d.fetched), d, a);
      } else {
        OtherKeeps(ParcelsBy(chunks, d.fetched), d, a);
      }
  }

  lemma PerformShape(s: State, a: Action)
    requires WellShaped(s) && Enabled(s, a)
    ensures a.Perform? ==> s.main.Draining? && |a.buffers| == 2 && a.side < 2
  {
  }

  lemma {:induction false} StaysOnCourse(fs: seq<seq<Byte>>, chunks: seq<seq<Byte>>,
                                         ds: seq<Loop>, ms: seq<Move>, n: nat)
    requires CleanChunks(fs, chunks) && LoopRun(chunks, ds, ms) && n < |ds|
    ensures OnCourse(chunks, ds[n])
  {
    hide Moves, CleanChunks, OnCourse, Initial;
    if n == 0 {
      StartsOnCourse(chunks, ds[0]);
    } else {
      StaysOnCourse(fs, chunks, ds, ms, n - 1);
      assert Moves(chunks, ds[n - 1], ms[n - 1], ds[n - 1 + 1]);
      MoveKeeps(fs, chunks, ds[n - 1], ms[n - 1], ds[n]);
    }
  }

  lemma StartsOnCourse(chunks: seq<seq<Byte>>, d: Loop)
    requires Initial(d.p) && d == Loop(d.p, 0, [], 0, 0)
    ensures OnCourse(chunks, d)
  {
    hide Inv;
    InitialInv(d.p);
    assert chunks[..0] == [];
    assert ParcelsBy(chunks, 0) == [];
  }

  /** Every packet sent, in the order sent. */
  ghost function Sent(fs: seq<seq<Byte>>): seq<Parcel>
    requires forall f | f in fs :: WellFormed(f)
  {
    AllInside(fs);
    Parcels(FoundAll(fs))
  }

  /** End to end. Whatever the split into chunks, the interleaving of all threads
      and the tuners set meanwhile: what a valid stream has accepted since the last
      update is the payloads, converted, of the packets for it among those looked
      at since, in the order sent, each once; what has been delivered is the start
      of that; and when everything fetched has been looked at, that is all packets
      of the frames complete by then. */
  lemma SentIsAccepted(fs: seq<seq<Byte>>, chunks: seq<seq<Byte>>, ds: seq<Loop>, ms: seq<Move>, n: nat, i: nat)
    requires CleanChunks(fs, chunks) && LoopRun(chunks, ds, ms) && n < |ds| && i < |ds[n].p.streams|
    ensures var d := ds[n];
      && d.fetched <= |chunks| && |d.p.logs| == |d.p.streams|
      && d.from <= d.to <= |Sent(fs)|
      && d.p.logs[i].accepted == (if d.p.streams[i].valid then SamplesFor(Sent(fs)[d.from..d.to], i) else [])
      && d.p.logs[i].delivered <= d.p.logs[i].accepted
    ensures var d := ds[n]; var k := |Feed([], chunks[..d.fetched]).frames|;
      && k <= |fs| && (d.todo == [] ==> Sent(fs)[..d.to] == Sent(fs[..k]))
  {
    hide Feed, Parcels, Inside, Inv, Carries, WellFormed, FoundAll, SamplesFor, SplitsAt, Initial, Moves;
    StaysOnCourse(fs, chunks, ds, ms, n);
    LookedAt(fs, chunks, ds[n]);
    DeliveredStart(ds[n].p, i);
  }

  /** The packets found so far are the first ones sent. */
  lemma LookedAt(fs: seq<seq<Byte>>, chunks: seq<seq<Byte>>, d: Loop)
    requires CleanChunks(fs, chunks) && OnCourse(chunks, d)
    ensures d.from <= d.to <= |ParcelsBy(chunks, d.fetched)| <= |Sent(fs)|
    ensures ParcelsBy(chunks, d.fetched) == Sent(fs)[..|ParcelsBy(chunks, d.fetched)|]
    ensures ParcelsBy(chunks, d.fetched)[d.from..d.to] == Sent(fs)[d.from..d.to]
    ensures var k := |Feed([], chunks[..d.fetched]).frames|;
      k <= |fs| && (d.todo == [] ==> Sent(fs)[..d.to] == Sent(fs[..k]))
  {
    hide Feed, Parcels, Inside, Inv, Carries, WellFormed, FoundAll, SplitsAt, Accounted;
    PartClean(fs, chunks, d.fetched);
    var k := |Feed([], chunks[..d.fetched]).frames|;
    var ps := ParcelsBy(chunks, d.fetched);
    SentGrows(fs, k);
    assert Sent(fs)[..|ps|] == ps;
    assert Sent(fs)[d.from..d.to] == ps[d.from..d.to];
  }

  lemma DeliveredStart(s: State, i: nat)
    requires Inv(s) && i < |s.streams|
    ensures |s.logs| == |s.streams| && s.logs[i].delivered <= s.logs[i].accepted
  {
    assert StreamOk(s.streams[i], s.logs[i]);
  }

  lemma {:induction false} SentGrows(fs: seq<seq<Byte>>, k: nat)
    requires (forall f | f in fs :: WellFormed(f)) && k <= |fs|
    ensures Sent(fs) == Sent(fs[..k]) + Sent(fs[k..])
  {
    hide WellFormed, FoundAll, Inside, Parcels;
    assert fs == fs[..k] + fs[k..];
    FoundAppend(fs[..k], fs[k..]);
    AllInside(fs);
    ParcelsAppend(FoundAll(fs[..k]), FoundAll(fs[k..]));
  }

  lemma {:induction false} FoundAppend(a: seq<seq<Byte>>, b: seq<seq<Byte>>)
    requires (forall f | f in a :: WellFormed(f)) && (forall f | f in b :: WellFormed(f))
    ensures FoundAll(a + b) == FoundAll(a) + FoundAll(b)
    decreases |a|
  {
    hide WellFormed, Found;
    if a == [] {
      assert a + b == b;
    } else {
      assert (a + b)[1..] == a[1..] + b;
      FoundAppend(a[1..], b);
    }
  }

  /** The guards of the steps exclude nothing: with an idle worker the packet next
      in turn, a data packet, can be dispatched if and only if its stream is valid
      and the buffer being written has more than its samples to spare, and a buffer
      with the tail in front of the chunk can be taken over. */
  lemma NothingHeldBack(fs: seq<seq<Byte>>, chunks: seq<seq<Byte>>, d: Loop, w: nat)
    requires CleanChunks(fs, chunks) && OnCourse(chunks, d)
    ensures WellShaped(d.p)
    ensures d.p.main.Ready? && d.todo != [] && w < |d.p.threads| && d.p.threads[w].phase.Idle? ==>
      var item, s := d.todo[0], d.p;
      Enabled(s, Dispatch(item.id, w, item.at, Count(item), item.header.count)) <==>
        && item.id < |s.streams| && s.streams[item.id].valid
        && var st := s.streams[item.id];
           st.outCount[st.outPointer] + Count(item) < |st.buff[st.outPointer]|
    ensures d.fetched < |chunks| && chunks[d.fetched] != [] ==>
      var tail, c := Feed([], chunks[..d.fetched]).tail, chunks[d.fetched];
      |tail| <= UDP_START_INDEX &&
      forall rx | |rx| >= UDP_START_INDEX + |c| && rx[UDP_START_INDEX - |tail|..UDP_START_INDEX + |c|] == tail + c ::
        Prepared(rx, tail, c)
  {
    hide Feed, Consume, Inv, WellFormed, Parcels, Carries, Accounted, Inside, FoundAll, Count, JobSamples;
    if d.todo != [] {
      var ps := ParcelsBy(chunks, d.fetched);
      NextCarried(d.p.rx[d.p.mine], d.todo, ps, d.to);
      var i := d.todo[0].id;
      if i < |d.p.streams| && HasRoom(d.p.streams[i], Count(d.todo[0])) {
        RoomForParcel(d.p.rx[d.p.mine], d.todo[0], ps[d.to], d.p.streams[i]);
      }
    }
    if d.fetched < |chunks| && chunks[d.fetched] != [] {
      ChunkReady(fs, chunks, d.fetched);
    }
  }

  lemma ChunkReady(fs: seq<seq<Byte>>, chunks: seq<seq<Byte>>, n: nat)
    requires CleanChunks(fs, chunks) && n < |chunks| && chunks[n] != []
    ensures var tail, c := Feed([], chunks[..n]).tail, chunks[n];
      && |tail| <= UDP_START_INDEX
      && forall f | f in Consume(tail + c).frames :: Inside(f)
  {
    hide Feed, Consume, WellFormed, Inside, FoundAll;
    var gs := NextFrames(fs, chunks, n);
    AllInside(gs);
  }

  /** The parcels of a frame as written: of each packet the header, the low byte of
      the stream id it carries, and its payload converted. */
  lemma {:induction false} ParcelsOfImage(f: VrlFrame.Image, k: nat)
    requires VrlFrame.ValidImage(f) && WellFormed(ToBytes(VrlFrame.EncodeFrame(f))) && k < |f.packets|
    ensures var g := Found(ToBytes(VrlFrame.EncodeFrame(f))); var p := f.packets[k];
      && Inside(g) && |ParcelsOf(g)| == |f.packets|
      && ParcelsOf(g)[k].header == p.header && ParcelsOf(g)[k].samples == Converted(p.payload)
      && (VrtPacket.HasStreamId(p.header) ==> p.streamId != [] && ParcelsOf(g)[k].id == p.streamId[0] % 0x100)
      && (VrtPacket.HasStreamId(p.header) <==> p.header.ptype in {1, 3, 4, 5})
  {
    hide VrtPacket.Decode, VrtPacket.PacketHere, VrtPacket.ValidPacket, VrtPacket.HeaderOf, VrtPacket.Encode,
         VrlFrame.Walk, WellFormed, Found, VrlFrame.EncodeFrame, Converted;
    var ws := VrlFrame.EncodeFrame(f);
    var g := Found(ToBytes(ws));
    EncodedFrameWellFormed(f);
    WordsOfBytes(ws);
    FoundInside(ToBytes(ws));
    assert g.words == ws by { FoundWords(ToBytes(ws)); }
    VrlFrame.PacketsReadBack([], f, [], k);
    assert ([] + ws + [])[0..] == ws;
    RefHeader(f.packets, 2, k);
    StreamIdOf(ws[g.frame.packets[k].offset..]);
  }

  /** The id that the loop uses is what get_stream_id returns for the packet. */
  lemma IdOfParcel(words: seq<Word>, r: VrlFrame.PacketRef)
    requires r.offset + 1 < |words| && r.header == VrtPacket.HeaderOf(words[r.offset]) && r.header.ptype == 1
    ensures var d := words[r.offset..];
      VrtPacket.GetStreamId(d).Got? && ParcelAt(words, r).id == VrtPacket.GetStreamId(d).value % 0x100
  {
    hide VrtPacket.HeaderOf, VrtPacket.Decode, VrtPacket.PacketHere;
  }

  lemma FoundWords(g: seq<Byte>)
    requires WellFormed(g)
    ensures Found(g).words == ToWords(g)
  {
  }

  lemma {:induction false} RefHeader(ps: seq<VrtPacket.Packet>, offset: nat, k: nat)
    requires k < |ps|
    ensures VrlFrame.Refs(ps, offset)[k].header == ps[k].header
    decreases k
  {
    if k > 0 {
      RefHeader(ps[1..], offset + ps[0].header.size, k - 1);
    }
  }

  lemma StreamIdOf(d: seq<Word>)
    requires VrtPacket.PacketHere(d)
    ensures VrtPacket.HasStreamId(VrtPacket.Decode(d).header) ==>
      |d| >= 2 && VrtPacket.Decode(d).streamId == [d[1]]
  {
    hide VrtPacket.HeaderOf;
    var h := VrtPacket.HeaderOf(d[0]);
    assert VrtPacket.HasStreamId(h) ==> h.size >= 2;
  }

  // ---- The other parts ---------------------------------------------------------------

  /** The chunks that a clean run of the listener hands over. */
  lemma HandedOverClean(fs: seq<seq<Byte>>, h: seq<Listener.Turn>)
    requires ReceivePath.CleanRun(fs, h)
    ensures CleanChunks(fs, ReceivePath.HandedOver(h))
  {
    hide WellFormed;
    Listener.NothingLost(h);
    var c, d := Flatten<Byte>(ReceivePath.HandedOver(h)), Listener.Datagrams(h);
    assert c == d[..|c|] == Flatten<Byte>(fs)[..|d|][..|c|];
  }

  /** The loop adds nothing to what the pipeline can do. */
  lemma {:induction false} LoopReaches(chunks: seq<seq<Byte>>, ds: seq<Loop>, ms: seq<Move>, n: nat)
    requires LoopRun(chunks, ds, ms) && n < |ds|
    ensures Reached(ds[n].p)
  {
    hide Follows, Initial, Enabled, Apply, WellShaped, Skippable;
    if n == 0 {
      assert Run([ds[0].p], []);
    } else {
      LoopReaches(chunks, ds, ms, n - 1);
      assert Moves(chunks, ds[n - 1], ms[n - 1], ds[n - 1 + 1]);
      hide Reached;
      if ms[n - 1].Act? {
        var t := Onward(ds[n - 1].p, ms[n - 1].a);
      }
    }
  }
}
