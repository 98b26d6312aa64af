// The packets of a frame on their way through the threads of the driver: the receiver loop of
// hesai_lidar_sdk.hpp, and the parser thread and its workers in lidar.h, as one step relation.
module FramePipeline {

  datatype Option<T> = None | Some(value: T)

  // Where the receiver stands: at the top of its loop, between ComputeXYZI and packet_index++,
  // before the first packet of a frame, in the loop that waits for the workers, past it, and on the
  // two sides of clearing the buffers after a frame that does not end.
  datatype Receiver = Ready | Pushed(first: bool) | First | Waiting | Complete | GivingUp | GaveUp

  datatype State = State(
    receiver: Receiver,
    packet_index: nat,
    // decoded_packets_buffer_
    ring: seq<int>,
    // the packet the parser thread has taken, and its turn among the workers
    parser: Option<int>,
    nUDPCount: nat,
    // handle_thread_packet_buffer_, and the packet every worker has taken
    queues: seq<seq<int>>,
    hands: seq<Option<int>>,
    // compute_packet_num, and the packets it counts
    computed: nat,
    done: seq<int>,
    // the packets computed for every frame that was published
    frames: seq<seq<int>>)

  const kPacketBufferSize := 8000

  datatype Event =
    | Push                      // ComputeXYZI(packet_index): push_back on the ring
    | Count                     // packet_index++, and the test for too long a frame
    | Split                     // scan_complete: start to wait
    | Check                     // ComputeXYZIComplete finds the count
    | Publish(keep: bool)       // it zeroes the count; the frame is sent, packet_index = 0
    | ClearBuffers              // resetFrame and ClearPacketBuffer
    | ZeroCount                 // SetComputePacketNumToZero
    | TryPop                    // the parser thread takes a packet from the ring
    | Hand                      // and gives it to a worker,
    | ComputeHere               // or computes it itself
    | Take(w: nat)              // worker w takes a packet from its queue
    | Compute(w: nat)           // and has computed it

  // handle_thread_count_ is |queues|.
  predicate Shaped(s: State) {
    |s.queues| == |s.hands|
  }

  predicate Enabled(s: State, e: Event, max: nat)
    requires Shaped(s)
  {
    match e
    case Push => (s.receiver == Ready || s.receiver == First) && |s.ring| < kPacketBufferSize
    case Count => s.receiver.Pushed?
    case Split => s.receiver == Ready
    case Check => s.receiver == Waiting && s.computed == s.packet_index
    case Publish(_) => s.receiver == Complete
    case ClearBuffers => s.receiver == GivingUp
    case ZeroCount => s.receiver == GaveUp
    case TryPop => s.parser == None && s.ring != []
    case Hand => s.parser.Some? && |s.queues| >= 2
    case ComputeHere => s.parser.Some? && |s.queues| < 2
    case Take(w) => w < |s.queues| && s.hands[w] == None && s.queues[w] != []
    case Compute(w) => w < |s.queues| && s.hands[w].Some?
  }

  // push_back, and pop_front if that made the queue too long
  function Enqueue(q: seq<int>, x: int): (r: seq<int>)
    ensures |q| >= 8000 ==> |r| == |q| && r[|q| - 1] == x && r[..|q| - 1] == q[1..]
  {
    var q' := q + [x];
    if |q'| > kPacketBufferSize then q'[1..] else q'
  }

  function EmptyQueues(n: nat): (queues: seq<seq<int>>)
    ensures |queues| == n
  {
    if n == 0 then [] else [[]] + EmptyQueues(n - 1)
  }

  function FreeHands(n: nat): (hands: seq<Option<int>>)
    ensures |hands| == n
  {
    if n == 0 then [] else [None] + FreeHands(n - 1)
  }

  function Next(s: State, e: Event, max: nat): (s': State)
    requires Shaped(s) && Enabled(s, e, max)
    ensures Shaped(s') && |s'.queues| == |s.queues|
  {
    match e
    case Push => AfterPush(s)
    case Count => AfterCount(s, max)
    case Split => s.(receiver := Waiting)
    case Check => s.(receiver := Complete)
    case Publish(keep) => AfterPublish(s, keep)
    case ClearBuffers => AfterClear(s)
    case ZeroCount => s.(computed := 0, done := [], receiver := Ready)
    case TryPop => AfterPop(s)
    case Hand => AfterHand(s)
    case ComputeHere => s.(computed := s.computed + 1, done := s.done + [s.parser.value], parser := None)
    case Take(w) => AfterTake(s, w)
    case Compute(w) => AfterCompute(s, w)
  }

  function AfterPush(s: State): State {
    s.(ring := s.ring + [s.packet_index], receiver := Pushed(s.receiver == First))
  }

  function AfterCount(s: State, max: nat): State
    requires s.receiver.Pushed?
  {
    s.(packet_index := s.packet_index + 1,
       receiver := if !s.receiver.first && s.packet_index + 1 >= max then GivingUp else Ready)
  }

  function AfterPublish(s: State, keep: bool): State {
    s.(computed := 0, done := [], frames := s.frames + [s.done], packet_index := 0,
       receiver := if keep then First else Ready)
  }

  function AfterClear(s: State): State {
    s.(packet_index := 0, ring := [], queues := EmptyQueues(|s.queues|), receiver := GaveUp)
  }

  function AfterPop(s: State): State
    requires s.ring != []
  {
    s.(parser := Some(s.ring[0]), ring := s.ring[1..])
  }

  function AfterHand(s: State): State
    requires s.parser.Some? && |s.queues| >= 2
  {
    var w := s.nUDPCount % |s.queues|;
    s.(queues := s.queues[w := Enqueue(s.queues[w], s.parser.value)], parser := None, nUDPCount := w + 1)
  }

  function AfterTake(s: State, w: nat): State
    requires Shaped(s) && w < |s.queues| && s.queues[w] != []
  {
    s.(hands := s.hands[w := Some(s.queues[w][0])], queues := s.queues[w := s.queues[w][1..]])
  }

  function AfterCompute(s: State, w: nat): State
    requires w < |s.hands| && s.hands[w].Some?
  {
    s.(computed := s.computed + 1, done := s.done + [s.hands[w].value], hands := s.hands[w := None])
  }

  function Start(threads: nat): State {
    State(Ready, 0, [], None, 0, EmptyQueues(threads), FreeHands(threads), 0, [], [])
  }

  // ---- where the packets are ----

  // How often packet x is among them.
  function Times(s: seq<int>, x: int): nat {
    multiset(s)[x]
  }

  function InHand(o: Option<int>, x: int): nat {
    if o == Some(x) then 1 else 0
  }

  function InHands(hands: seq<Option<int>>, x: int): nat {
    if hands == [] then 0 else InHand(hands[0], x) + InHands(hands[1..], x)
  }

  function InQueues(queues: seq<seq<int>>, x: int): nat {
    if queues == [] then 0 else Times(queues[0], x) + InQueues(queues[1..], x)
  }

  function Busy(o: Option<int>): nat {
    if o.Some? then 1 else 0
  }

  function BusyHands(hands: seq<Option<int>>): nat {
    if hands == [] then 0 else Busy(hands[0]) + BusyHands(hands[1..])
  }

  function QueuesSize(queues: seq<seq<int>>): nat {
    if queues == [] then 0 else |queues[0]| + QueuesSize(queues[1..])
  }

  // The packets that have left the ring and are not computed.
  function UnderWay(s: State): nat {
    Busy(s.parser) + QueuesSize(s.queues) + BusyHands(s.hands)
  }

  function Places(s: State, x: int): nat {
    Times(s.ring, x) + InHand(s.parser, x) + InQueues(s.queues, x) + InHands(s.hands, x) + Times(s.done, x)
  }

  // The packets handed over for the frame at hand.
  function Sent(s: State): nat {
    if s.receiver.Pushed? then s.packet_index + 1 else s.packet_index
  }

  function Once(x: int, n: nat): nat {
    if 0 <= x < n then 1 else 0
  }

  // Every packet sent is in one place, in flight or computed, and nothing else is.
  ghost predicate Accounted(s: State) {
    && s.computed == |s.done|
    && |s.ring| + UnderWay(s) + |s.done| == Sent(s)
    && forall x :: Places(s, x) == Once(x, Sent(s))
  }

  // At most one of every packet is left, and not too many.
  ghost predicate Scattered(s: State) {
    UnderWay(s) + |s.done| <= kPacketBufferSize && forall x :: Places(s, x) <= 1
  }

  ghost predicate Exact(frame: seq<int>) {
    forall x :: Times(frame, x) == Once(x, |frame|)
  }

  ghost predicate Inv(s: State, max: nat) {
    && Shaped(s) && s.computed == |s.done|
    && (s.receiver != GaveUp ==> Accounted(s) && Sent(s) <= (if max < 2 then 2 else max))
    && (s.receiver == Complete ==> s.computed == s.packet_index)
    && (s.receiver == Ready ==> s.packet_index == 0 || s.packet_index < max || s.packet_index == 1)
    && (s.receiver == First ==> s.packet_index == 0)
    && (s.receiver.Pushed? && s.receiver.first ==> s.packet_index == 0)
    && (s.receiver == GaveUp ==> s.ring == [] && s.packet_index == 0 && Scattered(s))
    && (forall f | f in s.frames :: Exact(f))
  }

  lemma {:induction false} QueueChanged(queues: seq<seq<int>>, w: nat, q: seq<int>, x: int)
    requires w < |queues|
    ensures InQueues(queues[w := q], x) + Times(queues[w], x) == InQueues(queues, x) + Times(q, x)
    ensures QueuesSize(queues[w := q]) + |queues[w]| == QueuesSize(queues) + |q|
  {
    if w == 0 {
      assert queues[0 := q][1..] == queues[1..];
    } else {
      assert queues[w := q][1..] == queues[1..][w - 1 := q];
      QueueChanged(queues[1..], w - 1, q, x);
    }
  }

  lemma {:induction false} HandChanged(hands: seq<Option<int>>, w: nat, o: Option<int>, x: int)
    requires w < |hands|
    ensures InHands(hands[w := o], x) + InHand(hands[w], x) == InHands(hands, x) + InHand(o, x)
    ensures BusyHands(hands[w := o]) + Busy(hands[w]) == BusyHands(hands) + Busy(o)
  {
    if w == 0 {
      assert hands[0 := o][1..] == hands[1..];
    } else {
      assert hands[w := o][1..] == hands[1..][w - 1 := o];
      HandChanged(hands[1..], w - 1, o, x);
    }
  }

  lemma {:induction false} QueueSizes(queues: seq<seq<int>>, w: nat)
    requires w < |queues|
    ensures |queues[w]| <= QueuesSize(queues)
  {
    if w > 0 { QueueSizes(queues[1..], w - 1); }
  }

  lemma {:induction false} HandBusy(hands: seq<Option<int>>, w: nat)
    requires w < |hands|
    ensures Busy(hands[w]) <= BusyHands(hands)
  {
    if w > 0 { HandBusy(hands[1..], w - 1); }
  }

  lemma {:induction false} NothingQueued(n: nat, x: int)
    ensures InQueues(EmptyQueues(n), x) == 0 && QueuesSize(EmptyQueues(n)) == 0
    ensures InHands(FreeHands(n), x) == 0 && BusyHands(FreeHands(n)) == 0
  {
    if n > 0 { NothingQueued(n - 1, x); }
  }

  lemma {:induction false} NoneInEmpty(queues: seq<seq<int>>, hands: seq<Option<int>>, x: int)
    ensures QueuesSize(queues) == 0 ==> InQueues(queues, x) == 0
    ensures BusyHands(hands) == 0 ==> InHands(hands, x) == 0
    decreases |queues| + |hands|
  {
    if queues != [] { NoneInEmpty(queues[1..], [], x); }
    if hands != [] { NoneInEmpty([], hands[1..], x); }
  }

  // ---- what every step keeps ----

  ghost predicate Normal(s: State) {
    Shaped(s) && Accounted(s)
  }

  // No packet is lost, and none is there twice that was not before.
  ghost predicate Keeps(s: State, s': State) {
    && |s'.ring| + UnderWay(s') + |s'.done| == |s.ring| + UnderWay(s) + |s.done|
    && forall x :: Places(s', x) == Places(s, x)
  }

  lemma FirstOf(s: seq<int>, x: int)
    requires s != []
    ensures Times(s, x) == Times(s[1..], x) + (if s[0] == x then 1 else 0)
  {
    assert s == [s[0]] + s[1..];
  }

  lemma LastOf(s: seq<int>, v: int, x: int)
    ensures Times(s + [v], x) == Times(s, x) + (if v == x then 1 else 0)
  {
  }

  lemma KeptByPush(s: State)
    requires Normal(s) && (s.receiver == Ready || s.receiver == First)
    ensures Accounted(AfterPush(s))
  {
    var s' := AfterPush(s);
    forall x ensures Places(s', x) == Once(x, Sent(s')) {
      LastOf(s.ring, s.packet_index, x);
      assert Places(s, x) == Once(x, Sent(s));
    }
  }

  lemma KeptByPop(s: State)
    requires s.parser == None && s.ring != []
    ensures Keeps(s, AfterPop(s))
  {
    forall x ensures Places(AfterPop(s), x) == Places(s, x) {
      FirstOf(s.ring, x);
    }
  }

  // No queue ever outgrows its limit: the branch that drops a packet is dead.
  lemma QueueFits(s: State, w: nat)
    requires w < |s.queues| && s.parser.Some? && UnderWay(s) <= kPacketBufferSize
    ensures |s.queues[w]| < kPacketBufferSize
    ensures Enqueue(s.queues[w], s.parser.value) == s.queues[w] + [s.parser.value]
  {
    QueueSizes(s.queues, w);
  }

  lemma KeptByHand(s: State)
    requires s.parser.Some? && |s.queues| >= 2 && UnderWay(s) <= kPacketBufferSize
    ensures Keeps(s, AfterHand(s))
  {
    var w := s.nUDPCount % |s.queues|;
    QueueFits(s, w);
    HandedOver(s, w, AfterHand(s));
  }

  lemma HandedOver(s: State, w: nat, s': State)
    requires s.parser.Some? && w < |s.queues|
    requires s' == s.(queues := s.queues[w := s.queues[w] + [s.parser.value]], parser := None, nUDPCount := w + 1)
    ensures Keeps(s, s')
  {
    var q, v := s.queues[w], s.parser.value;
    QueueChanged(s.queues, w, q + [v], 0);
    forall x ensures Places(s', x) == Places(s, x) {
      QueueChanged(s.queues, w, q + [v], x);
      LastOf(q, v, x);
    }
  }

  lemma KeptByParser(s: State, s': State)
    requires s.parser.Some?
    requires s' == s.(computed := s.computed + 1, done := s.done + [s.parser.value], parser := None)
    ensures Keeps(s, s')
  {
    forall x ensures Places(s', x) == Places(s, x) {
      LastOf(s.done, s.parser.value, x);
    }
  }

  lemma KeptByTake(s: State, w: nat)
    requires Shaped(s) && w < |s.queues| && s.hands[w] == None && s.queues[w] != []
    ensures Keeps(s, AfterTake(s, w))
  {
    var q := s.queues[w];
    QueueChanged(s.queues, w, q[1..], 0);
    HandChanged(s.hands, w, Some(q[0]), 0);
    forall x ensures Places(AfterTake(s, w), x) == Places(s, x) {
      FirstOf(q, x);
      QueueChanged(s.queues, w, q[1..], x);
      HandChanged(s.hands, w, Some(q[0]), x);
    }
  }

  lemma KeptByCompute(s: State, w: nat)
    requires Shaped(s) && w < |s.hands| && s.hands[w].Some?
    ensures Keeps(s, AfterCompute(s, w))
  {
    HandChanged(s.hands, w, None, 0);
    forall x ensures Places(AfterCompute(s, w), x) == Places(s, x) {
      LastOf(s.done, s.hands[w].value, x);
      HandChanged(s.hands, w, None, x);
    }
  }

  // Whatever a thread does, it keeps every packet.
  lemma ThreadsKeep(s: State, e: Event, max: nat)
    requires Shaped(s) && OfThreads(e) && Enabled(s, e, max) && UnderWay(s) <= kPacketBufferSize
    ensures Keeps(s, Next(s, e, max))
  {
    match e
    case TryPop => KeptByPop(s);
    case Hand => KeptByHand(s);
    case ComputeHere => KeptByParser(s, Next(s, e, max));
    case Take(w) => KeptByTake(s, w);
    case Compute(w) => KeptByCompute(s, w);
  }

  // The barrier: when the count agrees, every packet of the frame has been computed exactly once
  // and no packet is under way anywhere.
  lemma Barrier(s: State)
    requires Normal(s) && !s.receiver.Pushed? && s.computed == s.packet_index
    ensures s.ring == [] && UnderWay(s) == 0
    ensures Exact(s.done) && |s.done| == s.packet_index
  {
    forall x ensures Times(s.done, x) == Once(x, |s.done|) {
      NoneInEmpty(s.queues, s.hands, x);
      assert Places(s, x) == Once(x, Sent(s));
    }
  }

  lemma KeptByPublish(s: State, keep: bool)
    requires Normal(s) && s.receiver == Complete && s.computed == s.packet_index
    ensures Accounted(AfterPublish(s, keep)) && Exact(s.done)
  {
    Barrier(s);
    EmptyAccount(AfterPublish(s, keep));
  }

  lemma EmptyAccount(s: State)
    requires s.ring == [] && UnderWay(s) == 0 && s.done == [] && s.computed == 0 && Sent(s) == 0
    ensures Accounted(s)
  {
    forall x ensures Places(s, x) == Once(x, Sent(s)) {
      NoneInEmpty(s.queues, s.hands, x);
    }
  }

  // After a frame that does not end, the count is right again if and only if no packet had been
  // left under way when the count was set to zero.
  lemma ZeroCountIsRight(s: State, s': State)
    requires Shaped(s) && s.ring == [] && s.packet_index == 0
    requires s' == s.(computed := 0, done := [], receiver := Ready)
    ensures Accounted(s') <==> UnderWay(s) == 0
  {
    if UnderWay(s) == 0 { EmptyAccount(s'); }
  }

  predicate OfThreads(e: Event) {
    e.TryPop? || e.Hand? || e.ComputeHere? || e.Take? || e.Compute?
  }

  // Past the barrier the threads have nothing to do.
  lemma ThreadsRest(s: State, e: Event, max: nat)
    requires Normal(s) && !s.receiver.Pushed? && s.computed == s.packet_index && OfThreads(e)
    ensures !Enabled(s, e, max)
  {
    Barrier(s);
    if e.Take? && e.w < |s.queues| { QueueSizes(s.queues, e.w); }
    if e.Compute? && e.w < |s.queues| { HandBusy(s.hands, e.w); }
  }

  lemma ThreadsKeepInv(s: State, e: Event, max: nat)
    requires Inv(s, max) && OfThreads(e) && Enabled(s, e, max) && max <= kPacketBufferSize
    ensures Inv(Next(s, e, max), max)
  {
    if s.receiver == Complete { ThreadsRest(s, e, max); }
    ThreadsKeep(s, e, max);
    OnlyPackets(s, e, max);
    var s' := Next(s, e, max);
    if s.receiver != GaveUp {
      forall x ensures Places(s', x) == Once(x, Sent(s')) {
        assert Places(s, x) == Once(x, Sent(s));
      }
    } else {
      forall x ensures Places(s', x) <= 1 {
        assert Places(s, x) <= 1;
      }
    }
  }

  // The threads leave the receiver's state alone, and count what they compute.
  lemma OnlyPackets(s: State, e: Event, max: nat)
    requires Shaped(s) && OfThreads(e) && Enabled(s, e, max)
    ensures var s' := Next(s, e, max);
      && s'.receiver == s.receiver && s'.packet_index == s.packet_index && s'.frames == s.frames
      && s'.computed - |s'.done| == s.computed - |s.done|
      && (s.ring == [] ==> s'.ring == [])
  {
  }

  lemma PushKeepsInv(s: State, max: nat)
    requires Inv(s, max) && (s.receiver == Ready || s.receiver == First)
    ensures Inv(AfterPush(s), max)
  {
    KeptByPush(s);
  }

  lemma CountKeepsInv(s: State, max: nat)
    requires Inv(s, max) && s.receiver.Pushed?
    ensures Inv(AfterCount(s, max), max)
  {
    forall x ensures Places(AfterCount(s, max), x) == Places(s, x) {}
  }

  lemma PublishKeepsInv(s: State, keep: bool, max: nat)
    requires Inv(s, max) && s.receiver == Complete
    ensures Inv(AfterPublish(s, keep), max)
  {
    KeptByPublish(s, keep);
  }

  // The receiver only goes on to wait, or past the wait.
  lemma WaitKeepsInv(s: State, r: Receiver, max: nat)
    requires Inv(s, max) && s.receiver != GaveUp && !s.receiver.Pushed? && (r == Waiting || r == Complete)
    requires r == Complete ==> s.computed == s.packet_index
    ensures Inv(s.(receiver := r), max)
  {
    forall x ensures Places(s.(receiver := r), x) == Places(s, x) {}
  }

  lemma ZeroKeepsInv(s: State, max: nat)
    requires Inv(s, max) && s.receiver == GaveUp && UnderWay(s) == 0
    ensures Inv(s.(computed := 0, done := [], receiver := Ready), max)
  {
    ZeroCountIsRight(s, s.(computed := 0, done := [], receiver := Ready));
  }

  lemma ClearKeepsInv(s: State, max: nat)
    requires Inv(s, max) && s.receiver == GivingUp && max <= kPacketBufferSize
    ensures Inv(AfterClear(s), max)
  {
    NothingQueued(|s.queues|, 0);
    forall x ensures Places(AfterClear(s), x) <= 1 {
      NothingQueued(|s.queues|, x);
      assert Places(s, x) == Once(x, Sent(s));
    }
  }

  lemma ReceiverKeepsInv(s: State, e: Event, max: nat)
    requires Inv(s, max) && !OfThreads(e) && Enabled(s, e, max) && max <= kPacketBufferSize
    requires e == ZeroCount ==> UnderWay(s) == 0
    ensures Inv(Next(s, e, max), max)
  {
    match e
    case Push => PushKeepsInv(s, max);
    case Count => CountKeepsInv(s, max);
    case Split => WaitKeepsInv(s, Waiting, max);
    case Check => WaitKeepsInv(s, Complete, max);
    case Publish(keep) => PublishKeepsInv(s, keep, max);
    case ClearBuffers => ClearKeepsInv(s, max);
    case ZeroCount => ZeroKeepsInv(s, max);
  }

  lemma StepKeepsInv(s: State, e: Event, max: nat)
    requires Inv(s, max) && Enabled(s, e, max) && max <= kPacketBufferSize
    requires e == ZeroCount ==> UnderWay(s) == 0
    ensures Inv(Next(s, e, max), max)
  {
    if OfThreads(e) {
      ThreadsKeepInv(s, e, max);
    } else {
      ReceiverKeepsInv(s, e, max);
    }
  }

  // A push never has to wait: the ring is never full.
  lemma PushNeverBlocks(s: State, max: nat)
    requires Inv(s, max) && max <= kPacketBufferSize && (s.receiver == Ready || s.receiver == First)
    ensures Enabled(s, Push, max)
  {
  }

  // ---- whole runs ----

  function Run(s: State, es: seq<Event>, max: nat): State
    requires Legal(s, es, max)
    decreases |es|
  {
    if es == [] then s else Run(Next(s, es[0], max), es[1..], max)
  }

  predicate Legal(s: State, es: seq<Event>, max: nat)
    decreases |es|
  {
    Shaped(s) && (es != [] ==> Enabled(s, es[0], max) && Legal(Next(s, es[0], max), es[1..], max))
  }

  // Every time the count is set to zero after a frame that does not end, nothing is under way.
  predicate Settled(s: State, es: seq<Event>, max: nat)
    requires Legal(s, es, max)
    decreases |es|
  {
    es != [] ==>
      && (es[0] == ZeroCount ==> UnderWay(s) == 0)
      && Settled(Next(s, es[0], max), es[1..], max)
  }

  lemma {:induction false} RunKeepsInv(s: State, es: seq<Event>, max: nat)
    requires Inv(s, max) && Legal(s, es, max) && Settled(s, es, max) && max <= kPacketBufferSize
    ensures Inv(Run(s, es, max), max)
    decreases |es|
  {
    if es != [] {
      StepKeepsInv(s, es[0], max);
      RunKeepsInv(Next(s, es[0], max), es[1..], max);
    }
  }

  // Whatever the threads do, every frame published has all its packets, each computed once.
  lemma {:induction false} FramesAreExact(threads: nat, es: seq<Event>, max: nat)
    requires Legal(Start(threads), es, max) && Settled(Start(threads), es, max) && max <= kPacketBufferSize
    ensures forall f | f in Run(Start(threads), es, max).frames :: Exact(f)
  {
    NothingQueued(threads, 0);
    EmptyAccount(Start(threads));
    RunKeepsInv(Start(threads), es, max);
  }
}
