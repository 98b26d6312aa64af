// Which packets a published frame has, which worker a packet goes to, and that every frame can end.
module FrameOrder {
  import opened Basics
  import opened FramePipeline
  import opened FrameRuns

  // ---- the packets of a frame ----

  // How many packets are received.
  function Sends(es: seq<Event>): nat {
    if es == [] then 0 else (if es[0] == Push then 1 else 0) + Sends(es[1..])
  }

  // Nothing is published, and no frame is given up.
  predicate Between(es: seq<Event>) {
    forall e | e in es :: !e.Publish? && e != ClearBuffers
  }

  ghost predicate Counting(s: State) {
    && Shaped(s) && s.computed == |s.done| && s.receiver != GaveUp
    && (s.receiver == Complete ==> s.computed >= s.packet_index)
  }

  lemma CountsOn(s: State, e: Event, max: nat)
    requires Counting(s) && Enabled(s, e, max) && !e.Publish? && e != ClearBuffers
    ensures var t := Next(s, e, max);
      && Counting(t) && t.frames == s.frames && Sent(t) == Sent(s) + (if e == Push then 1 else 0)
      && (s.receiver == First ==> e == Push || t.receiver == First)
  {
  }

  lemma {:induction false} CountsAll(s: State, es: seq<Event>, max: nat)
    requires Counting(s) && Legal(s, es, max) && Between(es)
    ensures var t := Run(s, es, max);
      && Counting(t) && t.frames == s.frames && Sent(t) == Sent(s) + Sends(es)
      && (s.receiver == First ==> Sends(es) > 0 || t.receiver == First)
    decreases |es|
  {
    if es != [] {
      CountsOn(s, es[0], max);
      assert forall e | e in es[1..] :: e in es;
      CountsAll(Next(s, es[0], max), es[1..], max);
    }
  }

  lemma {:induction false} AlwaysCounted(s: State, es: seq<Event>, max: nat)
    requires Shaped(s) && s.computed == |s.done| && Legal(s, es, max)
    ensures Shaped(Run(s, es, max)) && Run(s, es, max).computed == |Run(s, es, max).done|
    decreases |es|
  {
    if es != [] { AlwaysCounted(Next(s, es[0], max), es[1..], max); }
  }

  // A run up to a frame, and on to the next.
  ghost predicate TwoFrames(threads: nat, before: seq<Event>, keep: bool, mid: seq<Event>, keep': bool, max: nat) {
    && Legal(Start(threads), before + [Publish(keep)], max) && Between(mid)
    && Legal(Run(Start(threads), before + [Publish(keep)], max), mid + [Publish(keep')], max)
  }

  lemma {:induction false} LastStep(s: State, es: seq<Event>, e: Event, max: nat)
    requires Legal(s, es + [e], max)
    ensures Legal(s, es, max) && Shaped(Run(s, es, max)) && Enabled(Run(s, es, max), e, max)
    ensures Run(s, es + [e], max) == Next(Run(s, es, max), e, max)
    decreases |es|
  {
    if es == [] {
      assert [e][1..] == [];
    } else {
      assert (es + [e])[1..] == es[1..] + [e];
      LastStep(Next(s, es[0], max), es[1..], e, max);
    }
  }

  // A packet that was kept when a frame was published is received first of all: the next frame is not
  // empty. It has at least the packets received since then.
  lemma {:induction false} KeptPacketOpensNext(threads: nat, before: seq<Event>, keep: bool, mid: seq<Event>,
                                               keep': bool, max: nat) returns (frame: seq<int>)
    requires TwoFrames(threads, before, keep, mid, keep', max)
    ensures var s := Run(Start(threads), before + [Publish(keep)], max);
            Run(s, mid + [Publish(keep')], max).frames == s.frames + [frame]
    ensures |frame| >= Sends(mid) && (keep ==> frame != [])
  {
    var s := Run(Start(threads), before + [Publish(keep)], max);
    LastStep(Start(threads), before, Publish(keep), max);
    AlwaysCounted(Start(threads), before, max);
    LastStep(s, mid, Publish(keep'), max);
    CountsAll(s, mid, max);
    frame := Run(s, mid, max).done;
  }

  // As long as no frame was given up, it has exactly those, packet 0 among them.
  lemma {:induction false} NextFrameIsExact(threads: nat, before: seq<Event>, keep: bool, mid: seq<Event>,
                                            keep': bool, max: nat) returns (frame: seq<int>)
    requires TwoFrames(threads, before, keep, mid, keep', max) && ClearBuffers !in before && max <= kPacketBufferSize
    ensures var s := Run(Start(threads), before + [Publish(keep)], max);
            Run(s, mid + [Publish(keep')], max).frames == s.frames + [frame]
    ensures |frame| == Sends(mid) && Exact(frame) && (keep ==> 0 in frame)
  {
    frame := KeptPacketOpensNext(threads, before, keep, mid, keep', max);
    StartIsRight(threads, max);
    var s := Run(Start(threads), before + [Publish(keep)], max);
    LastStep(Start(threads), before, Publish(keep), max);
    LastStep(s, mid, Publish(keep'), max);
    RightWithoutClear(Start(threads), before + [Publish(keep)], max);
    CountsAll(s, mid, max);
    FrameAfter(s, mid, frame, keep', max);
    if keep { assert Times(frame, 0) == 1; }
  }

  lemma {:induction false} FrameAfter(s: State, mid: seq<Event>, frame: seq<int>, keep: bool, max: nat)
    requires Inv(s, max) && s.receiver != GaveUp && max <= kPacketBufferSize
    requires Legal(s, mid, max) && Legal(s, mid + [Publish(keep)], max) && ClearBuffers !in mid
    requires Run(s, mid, max).frames == s.frames && Run(s, mid + [Publish(keep)], max).frames == s.frames + [frame]
    ensures |frame| == Run(s, mid, max).packet_index && Exact(frame)
  {
    LastStep(s, mid, Publish(keep), max);
    RightWithoutClear(s, mid, max);
    Barrier(Run(s, mid, max));
    SameLast(s.frames, frame, Run(s, mid, max).done);
  }

  lemma SameLast(frames: seq<seq<int>>, f: seq<int>, g: seq<int>)
    ensures frames + [f] == frames + [g] ==> f == g
  {
    assert (frames + [f])[|frames|] == f && (frames + [g])[|frames|] == g;
  }

  lemma {:induction false} RightWithoutClear(s: State, es: seq<Event>, max: nat)
    requires Inv(s, max) && s.receiver != GaveUp && Legal(s, es, max) && ClearBuffers !in es && max <= kPacketBufferSize
    ensures Inv(Run(s, es, max), max)
  {
    SettledWithoutClear(s, es, max);
    RunKeepsInv(s, es, max);
  }

  // An empty frame after another is only published if the packet at the end of that was not kept.
  lemma {:induction false} EmptyAfterDropOnly(threads: nat, before: seq<Event>, keep: bool, mid: seq<Event>,
                                              keep': bool, max: nat)
    requires TwoFrames(threads, before, keep, mid, keep', max)
    requires [] in Run(Run(Start(threads), before + [Publish(keep)], max), mid + [Publish(keep')], max).frames
    requires [] !in Run(Start(threads), before + [Publish(keep)], max).frames
    ensures !keep
  {
    var frame := KeptPacketOpensNext(threads, before, keep, mid, keep', max);
  }

  lemma StartIsRight(threads: nat, max: nat)
    ensures Inv(Start(threads), max)
  {
    NothingQueued(threads, 0);
    EmptyAccount(Start(threads));
  }

  // ---- the workers ----

  function Hands(es: seq<Event>): nat {
    if es == [] then 0 else (if es[0] == Hand then 1 else 0) + Hands(es[1..])
  }

  lemma NextTurn(n: nat, c: nat, h: nat)
    requires n > 0 && c % n == h % n
    ensures (c % n + 1) % n == (h + 1) % n
  {
    var q, r := h / n, h % n;
    assert h == q * n + r;
    if r + 1 == n {
      assert h + 1 == (q + 1) * n + 0;
      DivModUnique(h + 1, q + 1, 0, n);
      DivModUnique(n, 1, 0, n);
    } else {
      DivModUnique(h + 1, q, r + 1, n);
      DivModUnique(r + 1, 0, r + 1, n);
    }
  }

  lemma {:induction false} TurnsAre(s: State, es: seq<Event>, max: nat, h: nat)
    requires Shaped(s) && Legal(s, es, max) && |s.queues| > 0 && s.nUDPCount % |s.queues| == h % |s.queues|
    ensures |Run(s, es, max).queues| == |s.queues|
    ensures Run(s, es, max).nUDPCount % |s.queues| == (h + Hands(es)) % |s.queues|
    decreases |es|
  {
    if es != [] {
      if es[0] == Hand { NextTurn(|s.queues|, s.nUDPCount, h); }
      TurnsAre(Next(s, es[0], max), es[1..], max, if es[0] == Hand then h + 1 else h);
    }
  }

  // The packets go to the workers in turn: after h others, the next goes to worker h % n.
  lemma {:induction false} WorkersTakeTurns(threads: nat, es: seq<Event>, max: nat)
    requires Legal(Start(threads), es + [Hand], max)
    ensures Legal(Start(threads), es, max) && threads >= 2
    ensures var s, t, w := Run(Start(threads), es, max), Run(Start(threads), es + [Hand], max), Hands(es) % threads;
      && |s.queues| == |t.queues| == threads && s.parser.Some? && t.parser == None
      && (forall i: nat | i < threads && i != w :: t.queues[i] == s.queues[i])
      && t.queues[w] == Enqueue(s.queues[w], s.parser.value)
  {
    LastStep(Start(threads), es, Hand, max);
    SameWorkers(Start(threads), es, max);
    TurnsAre(Start(threads), es, max, 0);
  }

  lemma {:induction false} SameWorkers(s: State, es: seq<Event>, max: nat)
    requires Shaped(s) && Legal(s, es, max)
    ensures |Run(s, es, max).queues| == |s.queues|
    decreases |es|
  {
    if es != [] { SameWorkers(Next(s, es[0], max), es[1..], max); }
  }

  // With two workers or more the parser thread computes nothing itself, with fewer it computes all.
  lemma {:induction false} WhoComputes(threads: nat, es: seq<Event>, max: nat)
    requires Legal(Start(threads), es, max)
    ensures threads >= 2 ==> ComputeHere !in es
    ensures threads < 2 ==> Hand !in es
  {
    forall e | e in es
      ensures threads >= 2 ==> e != ComputeHere
      ensures threads < 2 ==> e != Hand
    {
      var i :| 0 <= i < |es| && es[i] == e;
      assert es[..i + 1] == es[..i] + [e];
      LegalPart(Start(threads), es, i + 1, max);
      LastStep(Start(threads), es[..i], e, max);
      SameWorkers(Start(threads), es[..i], max);
    }
  }

  lemma {:induction false} LegalPart(s: State, es: seq<Event>, i: nat, max: nat)
    requires Legal(s, es, max) && i <= |es|
    ensures Legal(s, es[..i], max)
    decreases |es|
  {
    if i > 0 {
      LegalPart(Next(s, es[0], max), es[1..], i - 1, max);
      assert es[..i][1..] == es[1..][..i - 1];
    }
  }

  // ---- first come, first served ----

  // The packets of a worker: those in its queue ascend, follow the one in its hand, and come before top.
  ghost predicate Lined(q: seq<int>, hand: Option<int>, top: int) {
    && (forall i, j | 0 <= i < j < |q| :: q[i] < q[j])
    && (forall i | 0 <= i < |q| :: q[i] < top && (hand.Some? ==> hand.value < q[i]))
    && (hand.Some? ==> hand.value < top)
  }

  // The first packet that no worker has been given.
  function Top(s: State): int {
    Sent(s) - |s.ring| - Busy(s.parser)
  }

  ghost predicate InTurn(f: seq<int>) {
    forall i | 0 <= i < |f| :: f[i] == i
  }

  // Without workers all that was given away has been computed, in order.
  ghost predicate Alone(s: State) {
    && |s.done| == Top(s) && InTurn(s.done) && (forall f | f in s.frames :: InTurn(f))
    && UnderWay(s) == Busy(s.parser)
  }

  // The ring has the last packets in order, and the parser thread the one before them.
  ghost predicate Ordered(s: State) {
    && Shaped(s) && (forall i | 0 <= i < |s.ring| :: s.ring[i] == Sent(s) - |s.ring| + i)
    && (s.parser.Some? ==> s.parser.value == Top(s))
    && (forall w: nat | w < |s.queues| :: Lined(s.queues[w], s.hands[w], Top(s)))
    && (|s.queues| < 2 ==> Alone(s))
  }

  lemma WorkersKeepOrder(s: State, e: Event, max: nat)
    requires Ordered(s) && Enabled(s, e, max) && (e == Hand || e.Take? || e.Compute?)
    requires UnderWay(s) <= kPacketBufferSize
    ensures Ordered(Next(s, e, max))
  {
    match e
    case Hand => HandKeepsOrder(s, AfterHand(s));
    case Take(w) => TakeKeepsOrder(s, w, AfterTake(s, w));
    case Compute(w) => ComputeKeepsOrder(s, w, AfterCompute(s, w));
  }

  lemma HandKeepsOrder(s: State, t: State)
    requires Ordered(s) && s.parser.Some? && |s.queues| >= 2 && UnderWay(s) <= kPacketBufferSize && t == AfterHand(s)
    ensures Ordered(t)
  {
    var c: nat := s.nUDPCount % |s.queues|;
    QueueFits(s, c);
    forall w: nat | w < |t.queues|
      ensures Lined(t.queues[w], t.hands[w], Top(t))
    {
      assert Lined(s.queues[w], s.hands[w], Top(s));
      if w == c { LinedOnHand(s.queues[w], s.hands[w], Top(s), t.queues[w]); }
    }
  }

  lemma LinedOnHand(q: seq<int>, hand: Option<int>, top: int, q': seq<int>)
    requires Lined(q, hand, top) && q' == q + [top]
    ensures Lined(q', hand, top + 1)
  {
  }

  lemma LinedOnTake(q: seq<int>, top: int, q': seq<int>, hand: Option<int>)
    requires Lined(q, None, top) && q != [] && q' == q[1..] && hand == Some(q[0])
    ensures Lined(q', hand, top)
  {
    assert forall i | 0 <= i < |q'| :: q'[i] == q[i + 1];
  }

  lemma TakeKeepsOrder(s: State, c: nat, t: State)
    requires Ordered(s) && c < |s.queues| && s.queues[c] != [] && s.hands[c] == None && t == AfterTake(s, c)
    ensures Ordered(t)
  {
    Busier(s, c);
    forall w: nat | w < |t.queues|
      ensures Lined(t.queues[w], t.hands[w], Top(t))
    {
      assert Lined(s.queues[w], s.hands[w], Top(s));
      if w == c { LinedOnTake(s.queues[w], Top(s), t.queues[w], t.hands[w]); }
    }
  }

  lemma ComputeKeepsOrder(s: State, c: nat, t: State)
    requires Ordered(s) && c < |s.hands| && s.hands[c].Some? && t == AfterCompute(s, c)
    ensures Ordered(t)
  {
    Busier(s, c);
    forall w: nat | w < |t.queues|
      ensures Lined(t.queues[w], t.hands[w], Top(t))
    {
      assert Lined(s.queues[w], s.hands[w], Top(s));
    }
  }

  lemma Busier(s: State, w: nat)
    requires Shaped(s) && w < |s.queues| && (s.queues[w] != [] || s.hands[w].Some?)
    ensures UnderWay(s) > Busy(s.parser)
  {
    QueueSizes(s.queues, w);
    HandBusy(s.hands, w);
  }

  lemma ParserKeepsOrder(s: State, e: Event, max: nat)
    requires Ordered(s) && Enabled(s, e, max) && (e == TryPop || e == ComputeHere)
    ensures Ordered(Next(s, e, max))
  {
    var t := Next(s, e, max);
    forall w: nat | w < |t.queues|
      ensures Lined(t.queues[w], t.hands[w], Top(t))
    {
      assert Lined(s.queues[w], s.hands[w], Top(s));
    }
  }

  lemma ReceiverKeepsOrder(s: State, e: Event, max: nat)
    requires Ordered(s) && Normal(s) && Enabled(s, e, max) && !OfThreads(e) && e != ClearBuffers && e != ZeroCount
    requires s.receiver == Complete ==> s.computed == s.packet_index
    ensures Ordered(Next(s, e, max))
  {
    var t := Next(s, e, max);
    if e.Publish? { Barrier(s); }
    forall w: nat | w < |t.queues|
      ensures Lined(t.queues[w], t.hands[w], Top(t))
    {
      assert Lined(s.queues[w], s.hands[w], Top(s));
      if e.Publish? && (s.queues[w] != [] || s.hands[w].Some?) { Busier(s, w); }
    }
  }

  lemma {:induction false} AlwaysOrdered(s: State, es: seq<Event>, max: nat)
    requires Inv(s, max) && s.receiver != GaveUp && Ordered(s) && max <= kPacketBufferSize
    requires Legal(s, es, max) && ClearBuffers !in es
    ensures Ordered(Run(s, es, max))
    decreases |es|
  {
    if es != [] {
      var e := es[0];
      assert e != ClearBuffers;
      StepKeepsInv(s, e, max);
      if !OfThreads(e) {
        ReceiverKeepsOrder(s, e, max);
      } else if e == TryPop || e == ComputeHere {
        ParserKeepsOrder(s, e, max);
      } else {
        WorkersKeepOrder(s, e, max);
      }
      AlwaysOrdered(Next(s, e, max), es[1..], max);
    }
  }

  // The queue ascends, and follows the packet in the worker's hand.
  ghost predicate FirstIn(q: seq<int>, hand: Option<int>) {
    && (forall i, j | 0 <= i < j < |q| :: q[i] < q[j])
    && (hand.Some? ==> forall i | 0 <= i < |q| :: hand.value < q[i])
  }

  // As long as no frame is given up: every worker computes its packets in the order in which they were
  // received, and with fewer than two workers each frame is computed in that order.
  lemma {:induction false} FirstComeFirstServed(threads: nat, es: seq<Event>, max: nat)
    requires Legal(Start(threads), es, max) && ClearBuffers !in es && max <= kPacketBufferSize
    ensures var s := Run(Start(threads), es, max);
      && |s.queues| == |s.hands| == threads
      && (forall w: nat | w < threads :: FirstIn(s.queues[w], s.hands[w]))
      && (threads < 2 ==> forall f | f in s.frames :: InTurn(f))
  {
    StartIsRight(threads, max);
    StartIsOrdered(threads);
    SameWorkers(Start(threads), es, max);
    AlwaysOrdered(Start(threads), es, max);
    OrderedServes(Run(Start(threads), es, max));
  }

  lemma OrderedServes(s: State)
    requires Ordered(s)
    ensures forall w: nat | w < |s.queues| :: FirstIn(s.queues[w], s.hands[w])
    ensures |s.queues| < 2 ==> forall f | f in s.frames :: InTurn(f)
  {
    forall w: nat | w < |s.queues|
      ensures FirstIn(s.queues[w], s.hands[w])
    {
      assert Lined(s.queues[w], s.hands[w], Top(s));
    }
  }

  lemma {:induction false} StartIsOrdered(threads: nat)
    ensures Ordered(Start(threads))
  {
    NothingQueued(threads, 0);
    EachIsEmpty(threads);
  }

  lemma {:induction false} EachIsEmpty(n: nat)
    ensures forall w: nat | w < n :: EmptyQueues(n)[w] == [] && FreeHands(n)[w] == None
  {
    if n > 0 { EachIsEmpty(n - 1); }
  }

  // ---- the ring ----

  // As long as no frame is given up, the receiver never has to wait for room.
  ghost predicate NeverBlocks(threads: nat, max: nat) {
    forall es | Legal(Start(threads), es, max) && ClearBuffers !in es :: MayPush(Run(Start(threads), es, max), max)
  }

  predicate MayPush(s: State, max: nat) {
    Shaped(s) && (s.receiver == Ready || s.receiver == First ==> Enabled(s, Push, max))
  }

  lemma {:induction false} Received(threads: nat, n: nat, max: nat) returns (es: seq<Event>, s: State)
    requires n < max && n <= 8000
    ensures Reaches(Start(threads), es, s, max)
    ensures Shaped(s) && s.receiver == Ready && s.packet_index == n == |s.ring|
  {
    if n == 0 {
      es, s := [], Start(threads);
    } else {
      var t: State;
      es, t := Received(threads, n - 1, max);
      var send := SendOne(t, max);
      s := t.(ring := t.ring + [t.packet_index], packet_index := t.packet_index + 1);
      Then(Start(threads), es, t, send, s, max);
      es := es + send;
    }
  }

  // That is so if and only if no frame may have more than 8000 packets.
  lemma NeverBlocksUpTo8000(threads: nat, max: nat)
    ensures NeverBlocks(threads, max) <==> max <= 8000
  {
    if max <= 8000 {
      forall es | Legal(Start(threads), es, max) && ClearBuffers !in es
        ensures MayPush(Run(Start(threads), es, max), max)
      {
        StartIsRight(threads, max);
        RightWithoutClear(Start(threads), es, max);
      }
    } else {
      var es, s := Received(threads, 8000, max);
      assert !MayPush(s, max);
    }
  }

  // ---- every frame can end ----

  // Whatever is under way, the threads can compute all that a frame waits for.
  lemma {:induction false} FrameCanEnd(s: State, max: nat) returns (es: seq<Event>, s': State)
    requires Normal(s) && s.receiver == Waiting && Sent(s) <= kPacketBufferSize
    ensures Reaches(s, es, s', max) && s'.receiver == Complete && s'.frames == s.frames
    decreases |s.ring|, UnderWay(s)
  {
    if UnderWay(s) > 0 {
      var first, t, x := ComputeOne(s, max);
      StillNormal(s, t);
      var rest;
      rest, s' := FrameCanEnd(t, max);
      Then(s, first, t, rest, s', max);
      es := first + rest;
    } else if s.ring != [] {
      var t := AfterPop(s);
      ByOne(s, TryPop, max);
      KeptByPop(s);
      StillNormal(s, t);
      var rest;
      rest, s' := FrameCanEnd(t, max);
      Then(s, [TryPop], t, rest, s', max);
      es := [TryPop] + rest;
    } else {
      es, s' := [Check], Next(s, Check, max);
      ByOne(s, Check, max);
    }
  }

  lemma StillNormal(s: State, t: State)
    requires Normal(s) && Keeps(s, t) && Shaped(t) && Sent(t) == Sent(s)
    requires t.computed - |t.done| == s.computed - |s.done|
    ensures Normal(t)
  {
    forall x
      ensures Places(t, x) == Once(x, Sent(t))
    {
      assert Places(t, x) == Places(s, x) == Once(x, Sent(s));
    }
  }
}
