// What the runs of the frame pipeline publish: exact frames as long as no frame has to be given up,
// and after one was given up, exactly if no packet had been left under way.
module FrameRuns {
  import opened FramePipeline

  // One run after another, none of which clears the buffers.
  ghost predicate Reaches(s: State, es: seq<Event>, s': State, max: nat) {
    Legal(s, es, max) && ClearBuffers !in es && Run(s, es, max) == s'
  }

  lemma {:induction false} RunThen(s: State, a: seq<Event>, b: seq<Event>, max: nat)
    requires Legal(s, a, max) && Legal(Run(s, a, max), b, max)
    ensures Legal(s, a + b, max) && Run(s, a + b, max) == Run(Run(s, a, max), b, max)
    decreases |a|
  {
    if a == [] {
      assert a + b == b;
    } else {
      RunThen(Next(s, a[0], max), a[1..], b, max);
      assert (a + b)[1..] == a[1..] + b;
    }
  }

  lemma Then(s: State, a: seq<Event>, t: State, b: seq<Event>, u: State, max: nat)
    requires Reaches(s, a, t, max) && Reaches(t, b, u, max)
    ensures Reaches(s, a + b, u, max)
  {
    RunThen(s, a, b, max);
  }

  lemma ByOne(s: State, e: Event, max: nat)
    requires Shaped(s) && Enabled(s, e, max) && e != ClearBuffers
    ensures Reaches(s, [e], Next(s, e, max), max)
  {
    var t := Next(s, e, max);
    assert Legal(t, [], max) && Run(t, [], max) == t;
    assert [e][1..] == [];
  }

  // ---- as long as every frame ends ----

  // The count is only set to zero after the buffers were cleared.
  lemma {:induction false} SettledWithoutClear(s: State, es: seq<Event>, max: nat)
    requires Legal(s, es, max) && ClearBuffers !in es
    requires s.receiver == GaveUp ==> s.ring == [] && UnderWay(s) == 0
    ensures Settled(s, es, max)
    decreases |es|
  {
    if es != [] {
      var e := es[0];
      assert e != ClearBuffers;
      if s.receiver == GaveUp && OfThreads(e) {
        if e.Take? { QueueSizes(s.queues, e.w); }
        if e.Compute? { HandBusy(s.hands, e.w); }
        assert false;
      }
      SettledWithoutClear(Next(s, e, max), es[1..], max);
    }
  }

  // If no frame reaches the largest number of packets, every frame published is exact.
  lemma {:induction false} FramesThatEndAreExact(threads: nat, es: seq<Event>, max: nat)
    requires Legal(Start(threads), es, max) && ClearBuffers !in es && max <= kPacketBufferSize
    ensures forall f | f in Run(Start(threads), es, max).frames :: Exact(f)
  {
    SettledWithoutClear(Start(threads), es, max);
    FramesAreExact(threads, es, max);
  }

  // ---- runs that are put together ----

  // The threads have computed x, which was under way, and nothing else has changed but the places
  // of the others.
  ghost predicate ComputedOne(s: State, s': State, x: int) {
    && Shaped(s') && |s'.queues| == |s.queues| && Keeps(s, s')
    && UnderWay(s') == UnderWay(s) - 1
    && s' == s.(parser := s'.parser, nUDPCount := s'.nUDPCount, queues := s'.queues, hands := s'.hands,
                computed := s.computed + 1, done := s.done + [x])
  }

  lemma {:induction false} SomeHand(hands: seq<Option<int>>) returns (w: nat)
    ensures BusyHands(hands) > 0 ==> w < |hands| && hands[w].Some?
    ensures BusyHands(hands) == 0 ==> forall i | 0 <= i < |hands| :: hands[i] == None
  {
    w := 0;
    if hands != [] {
      var v := SomeHand(hands[1..]);
      w := if hands[0].Some? then 0 else v + 1;
      if BusyHands(hands) == 0 {
        assert forall i | 0 < i < |hands| :: hands[i] == hands[1..][i - 1];
      }
    }
  }

  lemma {:induction false} SomeQueue(queues: seq<seq<int>>) returns (w: nat)
    ensures QueuesSize(queues) > 0 ==> w < |queues| && queues[w] != []
  {
    w := 0;
    if queues != [] {
      var v := SomeQueue(queues[1..]);
      w := if queues[0] != [] then 0 else v + 1;
    }
  }

  lemma ByParser(s: State, max: nat) returns (es: seq<Event>, s': State, x: int)
    requires Shaped(s) && s.parser.Some? && |s.queues| < 2
    ensures Reaches(s, es, s', max) && ComputedOne(s, s', x)
  {
    es, x, s' := [ComputeHere], s.parser.value, Next(s, ComputeHere, max);
    ByOne(s, ComputeHere, max);
    KeptByParser(s, s');
  }

  lemma ByWorker(s: State, w: nat, max: nat) returns (es: seq<Event>, s': State, x: int)
    requires Shaped(s) && w < |s.hands| && s.hands[w].Some?
    ensures Reaches(s, es, s', max) && ComputedOne(s, s', x)
  {
    es, x, s' := [Compute(w)], s.hands[w].value, AfterCompute(s, w);
    ByOne(s, Compute(w), max);
    KeptByCompute(s, w);
    HandChanged(s.hands, w, None, 0);
  }

  lemma FromQueue(s: State, w: nat, max: nat) returns (es: seq<Event>, s': State, x: int)
    requires Shaped(s) && w < |s.hands| && s.hands[w] == None && s.queues[w] != []
    ensures Reaches(s, es, s', max) && ComputedOne(s, s', x)
  {
    var t := AfterTake(s, w);
    ByOne(s, Take(w), max);
    KeptByTake(s, w);
    es, s', x := ByWorker(t, w, max);
    Then(s, [Take(w)], t, es, s', max);
    es := [Take(w)] + es;
  }

  lemma FromParser(s: State, max: nat) returns (es: seq<Event>, s': State, x: int)
    requires Shaped(s) && s.parser.Some? && |s.queues| >= 2 && UnderWay(s) <= kPacketBufferSize
    requires forall i | 0 <= i < |s.hands| :: s.hands[i] == None
    ensures Reaches(s, es, s', max) && ComputedOne(s, s', x)
  {
    var w: nat := s.nUDPCount % |s.queues|;
    var t := AfterHand(s);
    ByOne(s, Hand, max);
    KeptByHand(s);
    QueueFits(s, w);
    assert t.queues[w] == s.queues[w] + [s.parser.value];
    es, s', x := FromQueue(t, w, max);
    Then(s, [Hand], t, es, s', max);
    es := [Hand] + es;
  }

  // What is under way can be computed at any time.
  lemma ComputeOne(s: State, max: nat) returns (es: seq<Event>, s': State, x: int)
    requires Shaped(s) && 0 < UnderWay(s) <= kPacketBufferSize
    ensures Reaches(s, es, s', max) && ComputedOne(s, s', x)
  {
    var h := SomeHand(s.hands);
    var q := SomeQueue(s.queues);
    if BusyHands(s.hands) > 0 {
      es, s', x := ByWorker(s, h, max);
    } else if QueuesSize(s.queues) > 0 {
      es, s', x := FromQueue(s, q, max);
    } else if |s.queues| < 2 {
      es, s', x := ByParser(s, max);
    } else {
      es, s', x := FromParser(s, max);
    }
  }

  // With nothing under way, the front of the ring can be computed next.
  lemma ComputeFront(s: State, max: nat) returns (es: seq<Event>, s': State)
    requires Shaped(s) && UnderWay(s) == 0 && s.ring != []
    ensures Reaches(s, es, s', max) && Shaped(s') && UnderWay(s') == 0
    ensures s' == s.(nUDPCount := s'.nUDPCount, queues := s'.queues, hands := s'.hands,
                     ring := s.ring[1..], computed := s.computed + 1, done := s.done + [s.ring[0]])
  {
    var t, v := AfterPop(s), s.ring[0];
    var x: int;
    ByOne(s, TryPop, max);
    es, s', x := ComputeOne(t, max);
    NoneInEmpty(s'.queues, s'.hands, v);
    NoneInEmpty(t.queues, t.hands, v);
    LastOf(t.done, x, v);
    assert Places(s', v) == Places(t, v);
    Then(s, [TryPop], t, es, s', max);
    es := [TryPop] + es;
  }

  // One more packet of a frame that goes on.
  lemma SendOne(s: State, max: nat) returns (es: seq<Event>)
    requires Shaped(s) && s.receiver == Ready && s.packet_index + 1 < max && |s.ring| < kPacketBufferSize
    ensures Reaches(s, es, s.(ring := s.ring + [s.packet_index], packet_index := s.packet_index + 1), max)
  {
    var t := AfterPush(s);
    ByOne(s, Push, max);
    ByOne(t, Count, max);
    Then(s, [Push], t, [Count], AfterCount(t, max), max);
    es := [Push] + [Count];
  }

  // The frame ends, and the count agrees.
  lemma Finish(s: State, max: nat) returns (es: seq<Event>)
    requires Shaped(s) && s.receiver == Ready && s.computed == s.packet_index
    ensures Reaches(s, es, AfterPublish(s, false), max)
  {
    var t := s.(receiver := Waiting);
    var u := s.(receiver := Complete);
    ByOne(s, Split, max);
    ByOne(t, Check, max);
    ByOne(u, Publish(false), max);
    Then(s, [Split], t, [Check], u, max);
    Then(s, [Split] + [Check], u, [Publish(false)], AfterPublish(s, false), max);
    es := [Split] + [Check] + [Publish(false)];
  }

  // ---- after a frame that was given up ----

  lemma NotExact(x: int)
    ensures x != 0 ==> !Exact([x])
    ensures !Exact([0, 0])
  {
    assert Times([x], x) == 1;
    assert Times([0, 0], 0) == 2;
  }

  // The next frame has one packet, and what is computed for it is the packet left under way.
  lemma PublishStale(s: State, max: nat) returns (es: seq<Event>, s': State, x: int)
    requires Shaped(s) && s.receiver == Ready && s.packet_index == 0 && s.computed == 0 && s.done == []
    requires 0 < UnderWay(s) <= kPacketBufferSize && |s.ring| < kPacketBufferSize && max >= 2
    ensures Reaches(s, es, s', max) && Shaped(s') && UnderWay(s') == UnderWay(s) - 1
    ensures s'.receiver == Ready && s'.packet_index == 0 && s'.computed == 0 && s'.done == []
    ensures s'.ring == s.ring + [0] && s'.frames == s.frames + [[x]]
    ensures forall y :: Places(s', y) + Times([x], y) == Places(s, y) + Times([0], y)
  {
    var t: State;
    es, t, x := ComputeOne(s, max);
    assert t.done == [x];
    var send := SendOne(t, max);
    var u := t.(ring := t.ring + [0], packet_index := 1);
    Then(s, es, t, send, u, max);
    var finish := Finish(u, max);
    s' := AfterPublish(u, false);
    Then(s, es + send, u, finish, s', max);
    es := es + send + finish;
    forall y ensures Places(s', y) + Times([x], y) == Places(s, y) + Times([0], y) {
      assert Places(t, y) == Places(s, y);
      LastOf(t.ring, 0, y);
      LastOf([], x, y);
      LastOf([], 0, y);
    }
  }

  // One packet late, the ring does not run empty: two frames' first packets are published as one.
  lemma PublishTwice(s: State, max: nat) returns (es: seq<Event>, s': State)
    requires Shaped(s) && s.receiver == Ready && s.packet_index == 0 && s.computed == 0 && s.done == []
    requires UnderWay(s) == 0 && s.ring == [0] && max >= 3
    ensures Reaches(s, es, s', max) && s'.frames == s.frames + [[0, 0]]
  {
    var send := SendTwo(s, max);
    var t := s.(ring := [0, 0, 1], packet_index := 2);
    var compute, u := ComputeTwo(t, max);
    Then(s, send, t, compute, u, max);
    var finish := Finish(u, max);
    s' := AfterPublish(u, false);
    Then(s, send + compute, u, finish, s', max);
    es := send + compute + finish;
  }

  lemma SendTwo(s: State, max: nat) returns (es: seq<Event>)
    requires Shaped(s) && s.receiver == Ready && s.packet_index == 0 && s.ring == [0] && max >= 3
    ensures Reaches(s, es, s.(ring := [0, 0, 1], packet_index := 2), max)
  {
    var t := s.(ring := [0, 0], packet_index := 1);
    var first := SendOne(s, max);
    var second := SendOne(t, max);
    assert t.ring + [1] == [0, 0, 1];
    Then(s, first, t, second, s.(ring := [0, 0, 1], packet_index := 2), max);
    es := first + second;
  }

  lemma ComputeTwo(s: State, max: nat) returns (es: seq<Event>, s': State)
    requires Shaped(s) && s.ring == [0, 0, 1] && UnderWay(s) == 0 && s.done == [] && s.computed == 0
    ensures Reaches(s, es, s', max) && Shaped(s')
    ensures s'.receiver == s.receiver && s'.packet_index == s.packet_index && s'.frames == s.frames
    ensures s'.computed == 2 && s'.done == [0, 0]
  {
    var first, t := ComputeFront(s, max);
    assert t.ring == [0, 1] && t.done == [0];
    var second, u := ComputeFront(t, max);
    Then(s, first, t, second, u, max);
    es, s' := first + second, u;
  }

  // From a state in which a frame was given up with a packet still under way, there is a run that
  // publishes a wrong frame.
  lemma WrongFrame(s: State, max: nat) returns (es: seq<Event>, s': State)
    requires Inv(s, max) && s.receiver == GaveUp && UnderWay(s) > 0 && 3 <= max
    ensures Reaches(s, es, s', max) && exists f :: f in s'.frames && !Exact(f)
  {
    var zero := Next(s, ZeroCount, max);
    ByOne(s, ZeroCount, max);
    var stale, t, x := PublishStale(zero, max);
    Then(s, [ZeroCount], zero, stale, t, max);
    es, s' := [ZeroCount] + stale, t;
    NotExact(x);
    if x != 0 {
      assert [x] in t.frames;
    } else {
      var more: seq<Event>, wrong: seq<int>;
      if UnderWay(t) > 0 {
        more, s', wrong := WrongSecond(s, zero, t, max);
      } else {
        more, s' := PublishTwice(t, max);
        wrong := [0, 0];
      }
      Then(s, es, t, more, s', max);
      es := es + more;
      assert wrong in s'.frames && !Exact(wrong);
    }
  }

  // If the first was packet 0, the second is not.
  lemma WrongSecond(s: State, zero: State, t: State, max: nat) returns (es: seq<Event>, s': State, wrong: seq<int>)
    requires Inv(s, max) && s.receiver == GaveUp && 3 <= max && Shaped(t)
    requires zero == s.(computed := 0, done := [], receiver := Ready)
    requires t.receiver == Ready && t.packet_index == 0 && t.computed == 0 && t.done == [] && t.ring == [0]
    requires 0 < UnderWay(t) <= UnderWay(s)
    requires forall y :: Places(t, y) + Times([0], y) == Places(zero, y) + Times([0], y)
    ensures Reaches(t, es, s', max) && wrong in s'.frames && !Exact(wrong)
  {
    var x: int;
    es, s', x := PublishStale(t, max);
    assert Places(zero, 0) <= Places(s, 0) <= 1;
    assert Places(s', 0) + Times([x], 0) == Places(t, 0) + Times([0], 0) == Places(zero, 0) + Times([0], 0);
    assert Times(s'.ring, 0) == 2 by {
      assert s'.ring == [0, 0];
    }
    assert Times([x], 0) == 0;
    NotExact(x);
    wrong := [x];
    assert wrong in s'.frames;
  }

  ghost predicate ExactFrom(s: State, max: nat) {
    forall es | Legal(s, es, max) && ClearBuffers !in es :: forall f | f in Run(s, es, max).frames :: Exact(f)
  }

  // Once a frame was given up, the frames that follow are exact, up to the next that is given up,
  // if and only if no packet was under way.
  lemma ExactAfterGivingUp(s: State, max: nat)
    requires Inv(s, max) && s.receiver == GaveUp && 3 <= max <= kPacketBufferSize
    ensures ExactFrom(s, max) <==> UnderWay(s) == 0
  {
    if UnderWay(s) == 0 {
      forall es | Legal(s, es, max) && ClearBuffers !in es
        ensures forall f | f in Run(s, es, max).frames :: Exact(f)
      {
        SettledWithoutClear(s, es, max);
        RunKeepsInv(s, es, max);
      }
    } else {
      var es, s' := WrongFrame(s, max);
      assert Legal(s, es, max) && Run(s, es, max) == s';
    }
  }

  // ---- a frame that is given up ----

  // The first n packets of a frame are received and computed.
  lemma {:induction false} Prefix(threads: nat, n: nat, max: nat) returns (es: seq<Event>, s: State)
    requires n < max
    ensures Reaches(Start(threads), es, s, max)
    ensures Shaped(s) && s.receiver == Ready && s.packet_index == n && s.frames == []
    ensures s.ring == [] && UnderWay(s) == 0
  {
    if n == 0 {
      es, s := [], Start(threads);
      NothingQueued(threads, 0);
    } else {
      var t: State;
      es, t := Prefix(threads, n - 1, max);
      var send := SendOne(t, max);
      var u := t.(ring := [n - 1], packet_index := n);
      assert t.ring + [n - 1] == [n - 1];
      Then(Start(threads), es, t, send, u, max);
      var compute: seq<Event>;
      compute, s := ComputeFront(u, max);
      Then(Start(threads), es + send, u, compute, s, max);
      es := es + send + compute;
    }
  }

  // The last packet of a frame that reaches the limit has left the ring, but is not computed.
  lemma GiveUp(threads: nat, max: nat) returns (es: seq<Event>, s: State)
    requires 2 <= max
    ensures Reaches(Start(threads), es, s, max)
    ensures Shaped(s) && s.receiver == GivingUp && s.parser == Some(max - 1) && s.frames == []
    ensures s.ring == [] && UnderWay(s) == 1
  {
    var t: State;
    es, t := Prefix(threads, max - 1, max);
    var u := AfterPush(t);
    assert u.ring == [max - 1];
    var v := AfterPop(u);
    s := AfterCount(v, max);
    ByOne(t, Push, max);
    ByOne(u, TryPop, max);
    ByOne(v, Count, max);
    Then(Start(threads), es, t, [Push], u, max);
    Then(Start(threads), es + [Push], u, [TryPop], v, max);
    Then(Start(threads), es + [Push] + [TryPop], v, [Count], s, max);
    es := es + [Push] + [TryPop] + [Count];
  }

  // For every limit and any number of workers, one frame that reaches the limit is enough for a
  // wrong frame: its last packet is published as the whole of the next.
  lemma WrongAfterLongFrame(threads: nat, max: nat) returns (before: seq<Event>, after: seq<Event>)
    requires 2 <= max
    ensures ClearBuffers !in before && ClearBuffers !in after
    ensures Legal(Start(threads), before + [ClearBuffers] + after, max)
    ensures Run(Start(threads), before + [ClearBuffers] + after, max).frames == [[max - 1]]
    ensures !Exact([max - 1])
  {
    var s: State, t: State;
    before, s := GiveUp(threads, max);
    after, t := AfterGiveUp(s, max);
    ByClear(s, max);
    RunThen(Start(threads), before, [ClearBuffers], max);
    RunThen(Start(threads), before + [ClearBuffers], after, max);
    NotExact(max - 1);
  }

  lemma {:induction false} ByClear(s: State, max: nat)
    requires Shaped(s) && s.receiver == GivingUp
    ensures Legal(s, [ClearBuffers], max) && Run(s, [ClearBuffers], max) == AfterClear(s)
  {
    var t := AfterClear(s);
    assert Legal(t, [], max) && Run(t, [], max) == t;
    assert [ClearBuffers][1..] == [];
  }

  lemma AfterGiveUp(s: State, max: nat) returns (es: seq<Event>, t: State)
    requires Shaped(s) && s.receiver == GivingUp && s.parser.Some? && s.frames == []
    requires s.ring == [] && UnderWay(s) == 1 && max >= 2
    ensures Reaches(AfterClear(s), es, t, max) && t.frames == [[s.parser.value]]
  {
    var x: int;
    var cleared := AfterClear(s);
    var zero := cleared.(computed := 0, done := [], receiver := Ready);
    NothingQueued(|s.queues|, 0);
    ByOne(cleared, ZeroCount, max);
    es, t, x := PublishStale(zero, max);
    IsStale(s, zero, t, x);
    Then(cleared, [ZeroCount], zero, es, t, max);
    es := [ZeroCount] + es;
  }

  // Nothing else was under way.
  lemma IsStale(s: State, zero: State, t: State, x: int)
    requires s.parser.Some? && UnderWay(s) == 1
    requires zero.parser == s.parser && zero.hands == s.hands && zero.queues == EmptyQueues(|s.queues|)
    requires zero.ring == [] && zero.done == [] && t.ring == [0] && t.done == [] && UnderWay(t) == 0
    requires forall y :: Places(t, y) + Times([x], y) == Places(zero, y) + Times([0], y)
    ensures x == s.parser.value
  {
    var v := s.parser.value;
    NothingQueued(|s.queues|, v);
    NoneInEmpty(s.queues, s.hands, v);
    NoneInEmpty(t.queues, t.hands, v);
    assert t.parser == None;
    assert Places(t, v) + Times([x], v) == Places(zero, v) + Times([0], v);
    assert Times([x], v) == 1;
  }

  // How many frames a run gives up.
  function Clears(es: seq<Event>): nat {
    multiset(es)[ClearBuffers]
  }

  ghost predicate AlwaysExact(threads: nat, max: nat, n: nat) {
    forall es | Legal(Start(threads), es, max) && Clears(es) <= n ::
      forall f | f in Run(Start(threads), es, max).frames :: Exact(f)
  }

  // Runs that give up at most n frames publish only exact ones if and only if they give up none.
  lemma ExactUnlessGivenUp(threads: nat, max: nat, n: nat)
    requires 2 <= max <= kPacketBufferSize
    ensures AlwaysExact(threads, max, n) <==> n == 0
  {
    if n == 0 {
      forall es | Legal(Start(threads), es, max) && Clears(es) <= n
        ensures forall f | f in Run(Start(threads), es, max).frames :: Exact(f)
      {
        FramesThatEndAreExact(threads, es, max);
      }
    } else {
      var before, after := WrongAfterLongFrame(threads, max);
      var es := before + [ClearBuffers] + after;
      assert Clears(es) == 1;
      assert [max - 1] in Run(Start(threads), es, max).frames;
      assert Legal(Start(threads), es, max) && Clears(es) <= n;
    }
  }
}
