/** Back-pressure between neighbouring pipeline operators. A node pulls from the
    previous one whenever its inbound buffer has room; the previous node pushes
    batches while a pull is open and answers the pull when its demand is met. */
module ExecutionNode {
  type Batch = seq<int>

  datatype Option<T> = None | Some(value: T)

  /** An open pull, and whether its promise is still to be answered. */
  datatype Demand = Demand(remaining: nat, pending: bool)

  datatype ExitReason = Normal | Unreachable | Failure

  datatype Limits = Limits(minElements: nat, maxElements: nat, maxBatches: nat)

  function Size(batches: seq<Batch>): (n: nat)
  {
    if batches == [] then 0 else |batches[0]| + Size(batches[1..])
  }

  lemma {:induction false} SizePush(batches: seq<Batch>, b: Batch)
    ensures Size(batches + [b]) == Size(batches) + |b|
  {
    if batches != [] {
      assert (batches + [b])[1..] == batches[1..] + [b];
      SizePush(batches[1..], b);
    } else {
      assert ([] + [b])[1..] == [];
    }
  }

  // ----- One node

  /** The part of a node that its neighbours see. Towards the previous node: the
      inbound buffer, its size, whether a pull is in flight, and whether there is a
      previous node. Towards the next node: the open demand, and whether the
      operator's generator has ended. */
  datatype Node = Node(
    buffer: seq<Batch>,
    bufferSize: nat,
    inflight: bool,
    previous: bool,
    demand: Option<Demand>,
    atEnd: bool,
    alive: bool)
  {
    predicate MayPull(l: Limits) {
      previous && bufferSize + l.minElements <= l.maxElements && !inflight
    }

    function IssueDemand(l: Limits): (Node, Option<nat>)
    {
      if !MayPull(l) then (this, None)
      else (this.(inflight := true), Some(if |buffer| < l.maxBatches then l.maxElements - bufferSize else 0))
    }

    function PullDone(): Node {
      this.(inflight := false)
    }

    function Push(b: Batch): Node {
      this.(buffer := buffer + [b], bufferSize := bufferSize + |b|)
    }

    function Take(): Node
      requires buffer != [] && |buffer[0]| <= bufferSize
    {
      this.(buffer := buffer[1..], bufferSize := bufferSize - |buffer[0]|)
    }

    /** A pull arrives. The number tells how many promises are answered at once. */
    function Pull(size: nat): (Node, nat)
    {
      var older := if demand.Some? && demand.value.pending then 1 else 0;
      if size == 0 then (this.(demand := None), older + 1)
      else if atEnd then
        (this.(demand := if demand.Some? then Some(demand.value.(pending := false)) else None), older + 1)
      else (this.(demand := Some(Demand(size, true))), older)
    }

    predicate MayAdvance() {
      alive && demand.Some? && !atEnd
    }

    /** The generator yields an output and may end with it. Empty outputs are not
        pushed; the node quits at once if the generator ends with one. */
    function Advance(output: Batch, ends: bool): (Node, Option<Batch>, bool)
      requires MayAdvance()
    {
      if output == [] then (this.(atEnd := ends), None, ends)
      else
        var left := if demand.value.remaining <= |output| then 0 else demand.value.remaining - |output|;
        (this.(atEnd := ends, demand := Some(demand.value.(remaining := left))), Some(output), false)
    }

    /** A push was received by the next node; last tells whether the generator ended
        with it. The number tells how many promises are answered. */
    function Acked(last: bool): (Node, nat, bool)
    {
      var met := demand.Some? && demand.value.remaining == 0;
      var first := if met && demand.value.pending then 1 else 0;
      var n := if met then this.(demand := None) else this;
      var second := if last && n.demand.Some? && n.demand.value.pending then 1 else 0;
      (if second == 1 then n.(demand := Some(n.demand.value.(pending := false))) else n, first + second, last)
    }

    /** The node terminates; its destructor answers an open promise. */
    function Quit(): (Node, nat)
    {
      (this.(alive := false, demand := None), if demand.Some? && demand.value.pending then 1 else 0)
    }
  }

  class ExecNode {
    const limits: Limits
    var inboundBuffer: seq<Batch>
    var inboundBufferSize: nat
    var issueDemandInflight: bool
    var previous: bool
    var demand: Option<Demand>
    var atEnd: bool
    var alive: bool

    function Current(): Node
      reads this
    {
      Node(inboundBuffer, inboundBufferSize, issueDemandInflight, previous, demand, atEnd, alive)
    }

    /** The size of the buffer is the number of buffered elements. */
    ghost predicate Valid()
      reads this
    {
      inboundBufferSize == Size(inboundBuffer)
    }

    constructor (limits: Limits)
      ensures Valid() && this.limits == limits
      ensures Current() == Node([], 0, false, true, None, false, true)
    {
      this.limits := limits;
      inboundBuffer, inboundBufferSize, issueDemandInflight, previous := [], 0, false, true;
      demand, atEnd, alive := None, false, true;
    }

    /** The demand is all that the buffer has room for, or nothing while it has too
        many batches. */
    method IssueDemand() returns (pull: Option<nat>)
      requires Valid()
      modifies this`issueDemandInflight
      ensures Valid() && (Current(), pull) == old(Current()).IssueDemand(limits)
      ensures pull.Some? <==>
          previous && !old(issueDemandInflight) && Size(inboundBuffer) + limits.minElements <= limits.maxElements
      ensures pull.Some? && |inboundBuffer| < limits.maxBatches ==>
          pull.value + Size(inboundBuffer) == limits.maxElements
      ensures pull.Some? && |inboundBuffer| >= limits.maxBatches ==> pull.value == 0
    {
      if !previous || inboundBufferSize + limits.minElements > limits.maxElements || issueDemandInflight {
        return None;
      }
      var n := if |inboundBuffer| < limits.maxBatches then limits.maxElements - inboundBufferSize else 0;
      issueDemandInflight := true;
      return Some(n);
    }

    method PullDone()
      requires Valid()
      modifies this`issueDemandInflight
      ensures Valid() && Current() == old(Current()).PullDone()
    {
      issueDemandInflight := false;
    }

    method Push(input: Batch)
      requires Valid() && input != []
      modifies this`inboundBuffer, this`inboundBufferSize
      ensures Valid() && Current() == old(Current()).Push(input)
    {
      SizePush(inboundBuffer, input);
      inboundBufferSize := inboundBufferSize + |input|;
      inboundBuffer := inboundBuffer + [input];
    }

    /** One step of the generator that feeds the operator: nothing while the buffer is
        empty, the next batch, or the end once there is no previous node either. */
    method NextInput() returns (input: Option<Batch>, end: bool)
      requires Valid()
      modifies this`inboundBuffer, this`inboundBufferSize
      ensures Valid() && (end <==> !previous && old(inboundBuffer) == [])
      ensures input == if old(inboundBuffer) == [] then None else Some(old(inboundBuffer)[0])
      ensures old(inboundBuffer) == [] ==> Current() == old(Current())
      ensures old(inboundBuffer) != [] ==>
          |old(inboundBuffer)[0]| <= old(inboundBufferSize) && Current() == old(Current()).Take()
    {
      if !previous && inboundBuffer == [] {
        return None, true;
      }
      if inboundBuffer == [] {
        return None, false;
      }
      input, end := Some(inboundBuffer[0]), false;
      inboundBuffer := inboundBuffer[1..];
      inboundBufferSize := inboundBufferSize - |input.value|;
    }

    method Pull(batchSize: nat) returns (answers: nat)
      requires Valid()
      modifies this`demand
      ensures Valid() && (Current(), answers) == old(Current()).Pull(batchSize)
    {
      answers := 0;
      if demand.Some? {
        if demand.value.pending {
          answers := 1;
        }
        demand := Some(demand.value.(pending := false));
      }
      if batchSize == 0 {
        demand := None;
        return answers + 1;
      }
      if atEnd {
        return answers + 1;
      }
      demand := Some(Demand(batchSize, true));
    }

    method AdvanceGenerator(output: Batch, ends: bool) returns (push: Option<Batch>, quit: bool)
      requires Valid() && alive
      modifies this`atEnd, this`demand
      ensures Valid()
      ensures old(Current()).MayAdvance() ==> (Current(), push, quit) == old(Current()).Advance(output, ends)
      ensures !old(Current()).MayAdvance() ==> (Current(), push, quit) == (old(Current()), None, false)
      ensures push.Some? ==> push.value != []
    {
      if demand == None || atEnd {
        return None, false;
      }
      atEnd := ends;
      if |output| == 0 {
        return None, atEnd;
      }
      if demand.value.remaining <= |output| {
        demand := Some(demand.value.(remaining := 0));
      } else {
        demand := Some(demand.value.(remaining := demand.value.remaining - |output|));
      }
      return Some(output), false;
    }

    method PushAcked(shouldQuit: bool) returns (answers: nat, quit: bool)
      requires Valid()
      modifies this`demand
      ensures Valid() && (Current(), answers, quit) == old(Current()).Acked(shouldQuit)
    {
      answers := 0;
      if demand.Some? && demand.value.remaining == 0 {
        answers := if demand.value.pending then 1 else 0;
        demand := None;
      }
      if shouldQuit {
        if demand.Some? && demand.value.pending {
          answers := answers + 1;
          demand := Some(demand.value.(pending := false));
        }
        return answers, true;
      }
      return answers, false;
    }

    /** An exit message arrives. Before its start a node quits for any reason but the
        normal one. A source quits whoever sends the message. For other nodes, the
        graceful end of the previous node is the end of the input, and any other exit
        shuts the node down; but without a previous node, exit messages are ignored,
        whoever sends them. */
    method HandleExit(started: bool, source: bool, fromPrevious: bool, reason: ExitReason) returns (shutDown: bool)
      requires Valid()
      modifies this`previous
      ensures Valid() && Current() == old(Current()).(previous := previous)
      ensures source ==> shutDown && previous == old(previous)
      ensures !source && !old(previous) ==> !previous && (shutDown <==> !started && reason != Normal)
      ensures !source && old(previous) && fromPrevious && reason != Failure ==>
          !previous && (shutDown <==> !started && reason != Normal)
      ensures !source && old(previous) && !(fromPrevious && reason != Failure) ==> previous && shutDown
    {
      shutDown := !started && reason != Normal;
      if source {
        return true;
      }
      if !previous {
        return;
      }
      if !fromPrevious {
        return true;
      }
      if reason != Normal && reason != Unreachable {
        return true;
      }
      previous := false;
    }

    /** One round of the run loop: first the demand upstream, then the operator. */
    method RunOnce(output: Batch, ends: bool) returns (pull: Option<nat>, push: Option<Batch>, quit: bool)
      requires Valid() && alive
      modifies this`issueDemandInflight, this`atEnd, this`demand
      ensures Valid()
      ensures var (n, p) := old(Current()).IssueDemand(limits);
              && pull == p
              && (Current(), push, quit) == if n.MayAdvance() then n.Advance(output, ends) else (n, None, false)
    {
      pull := IssueDemand();
      push, quit := AdvanceGenerator(output, ends);
    }
  }

  // ----- Messages between two neighbours

  datatype Queue<M> = Empty | Front(head: M, tail: Queue<M>)

  function Enqueue<M>(q: Queue<M>, m: M): Queue<M>
  {
    if q.Empty? then Front(m, Empty) else Front(q.head, Enqueue(q.tail, m))
  }

  datatype ToConsumer = PushMessage(batch: Batch, last: bool) | PullAnswer | ExitMessage

  datatype ToProducer = PullMessage(size: nat) | PushAnswer(last: bool)

  function Answers(q: Queue<ToConsumer>): nat
  {
    if q.Empty? then 0 else (if q.head.PullAnswer? then 1 else 0) + Answers(q.tail)
  }

  function Pushed(q: Queue<ToConsumer>): seq<Batch>
  {
    if q.Empty? then [] else (if q.head.PushMessage? then [q.head.batch] else []) + Pushed(q.tail)
  }

  predicate AllFilled(q: Queue<ToConsumer>)
  {
    q.Front? ==> (q.head.PushMessage? ==> q.head.batch != []) && AllFilled(q.tail)
  }

  predicate HasExit(q: Queue<ToConsumer>)
  {
    q.Front? && (q.head.ExitMessage? || HasExit(q.tail))
  }

  predicate NoPushAfterExit(q: Queue<ToConsumer>)
  {
    q.Front? ==> if q.head.ExitMessage? then Pushed(q.tail) == [] && !HasExit(q.tail) else NoPushAfterExit(q.tail)
  }

  predicate HasLastPush(q: Queue<ToConsumer>)
  {
    q.Front? && ((q.head.PushMessage? && q.head.last) || HasLastPush(q.tail))
  }

  function Pulls(q: Queue<ToProducer>): nat
  {
    if q.Empty? then 0 else (if q.head.PullMessage? then 1 else 0) + Pulls(q.tail)
  }

  /** The acknowledgements of pushes on their way. */
  function Acks(q: Queue<ToProducer>): nat
  {
    if q.Empty? then 0 else (if q.head.PushAnswer? then 1 else 0) + Acks(q.tail)
  }

  /** The work that messages to the consumer still cause: a push causes an
      acknowledgement. */
  function Work(q: Queue<ToConsumer>): nat
  {
    if q.Empty? then 0 else (if q.head.PushMessage? then 2 else 1) + Work(q.tail)
  }

  predicate HasLastAnswer(q: Queue<ToProducer>)
  {
    q.Front? && ((q.head.PushAnswer? && q.head.last) || HasLastAnswer(q.tail))
  }

  lemma {:induction false} SendToConsumer(q: Queue<ToConsumer>, m: ToConsumer)
    ensures Answers(Enqueue(q, m)) == Answers(q) + if m.PullAnswer? then 1 else 0
    ensures Pushed(Enqueue(q, m)) == Pushed(q) + if m.PushMessage? then [m.batch] else []
    ensures AllFilled(Enqueue(q, m)) <==> AllFilled(q) && (m.PushMessage? ==> m.batch != [])
    ensures HasExit(Enqueue(q, m)) <==> HasExit(q) || m.ExitMessage?
    ensures HasLastPush(Enqueue(q, m)) <==> HasLastPush(q) || (m.PushMessage? && m.last)
    ensures NoPushAfterExit(q) && (HasExit(q) ==> m.PullAnswer?) ==> NoPushAfterExit(Enqueue(q, m))
    ensures Work(Enqueue(q, m)) == Work(q) + if m.PushMessage? then 2 else 1
  {
    if q.Front? {
      SendToConsumer(q.tail, m);
      if q.head.PushMessage? {
        assert ([q.head.batch] + Pushed(q.tail)) + (if m.PushMessage? then [m.batch] else [])
            == [q.head.batch] + (Pushed(q.tail) + if m.PushMessage? then [m.batch] else []);
      }
    }
  }

  lemma {:induction false} SendToProducer(q: Queue<ToProducer>, m: ToProducer)
    ensures Pulls(Enqueue(q, m)) == Pulls(q) + if m.PullMessage? then 1 else 0
    ensures Acks(Enqueue(q, m)) == Acks(q) + if m.PushAnswer? then 1 else 0
    ensures HasLastAnswer(Enqueue(q, m)) <==> HasLastAnswer(q) || (m.PushAnswer? && m.last)
  {
    if q.Front? {
      SendToProducer(q.tail, m);
    }
  }

  function SendAnswers(q: Queue<ToConsumer>, n: nat): Queue<ToConsumer>
  {
    if n == 0 then q else Enqueue(SendAnswers(q, n - 1), PullAnswer)
  }

  lemma {:induction false} SentAnswers(q: Queue<ToConsumer>, n: nat)
    ensures var r := SendAnswers(q, n);
            && Answers(r) == Answers(q) + n && Work(r) == Work(q) + n
            && Pushed(r) == Pushed(q) && AllFilled(r) == AllFilled(q)
            && HasExit(r) == HasExit(q) && HasLastPush(r) == HasLastPush(q)
               && (NoPushAfterExit(q) ==> NoPushAfterExit(r))
  {
    if n > 0 {
      SentAnswers(q, n - 1);
      SendToConsumer(SendAnswers(q, n - 1), PullAnswer);
    }
  }

  // ----- Two neighbours

  /** Besides the nodes and the messages in flight: the batches that the producer's
      operator yielded and that the consumer's operator received, the pulls that
      were sent and the answers that came back, whether the consumer's operator has
      seen the end of its input, what the last pull that opened a demand asked for, and
      how many elements had been yielded before it arrived. */
  datatype Link = Link(
    producer: Node,
    consumer: Node,
    toProducer: Queue<ToProducer>,
    toConsumer: Queue<ToConsumer>,
    yielded: seq<Batch>,
    received: seq<Batch>,
    sent: nat,
    answered: nat,
    sawEnd: bool,
    asked: nat,
    before: nat)

  const FRESH := Node([], 0, false, true, None, false, true)
  const START := Link(FRESH, FRESH, Empty, Empty, [], [], 0, 0, false, 0, 0)

  /** What can happen next. Either node may run at any time, and the first message
      of either queue may arrive. */
  datatype Action =
    | Issue
    | Feed
    | Produce(output: Batch, ends: bool, answerFirst: bool)
    | AtProducer(answerFirst: bool)
    | AtConsumer

  /** The exit of the producer is announced, and an open promise is answered. */
  function ProducerQuits(s: Link, answerFirst: bool): Link
  {
    var (p, n) := s.producer.Quit();
    s.(producer := p,
       toConsumer := if answerFirst then Enqueue(SendAnswers(s.toConsumer, n), ExitMessage)
                     else SendAnswers(Enqueue(s.toConsumer, ExitMessage), n))
  }

  function Issued(l: Limits, s: Link): Link
  {
    var (c, pull) := s.consumer.IssueDemand(l);
    match pull
    case None => s
    case Some(n) => s.(consumer := c, toProducer := Enqueue(s.toProducer, PullMessage(n)), sent := s.sent + 1)
  }

  function Fed(s: Link): Link
  {
    if s.consumer.buffer == [] then s.(sawEnd := s.sawEnd || !s.consumer.previous)
    else if |s.consumer.buffer[0]| <= s.consumer.bufferSize then
      s.(consumer := s.consumer.Take(), received := s.received + [s.consumer.buffer[0]])
    else s
  }

  function Produced(s: Link, output: Batch, ends: bool, answerFirst: bool): Link
  {
    if !s.producer.MayAdvance() then s
    else
      var (p, push, quit) := s.producer.Advance(output, ends);
      var s' := s.(producer := p);
      if quit then ProducerQuits(s', answerFirst)
      else match push
        case None => s'
        case Some(b) => s'.(toConsumer := Enqueue(s'.toConsumer, PushMessage(b, ends)), yielded := s'.yielded + [b])
  }

  /** A pull that reaches a dead producer is answered on its behalf. */
  function ArrivedAtProducer(s: Link, answerFirst: bool): Link
  {
    match s.toProducer
    case Empty => s
    case Front(m, rest) =>
      var s' := s.(toProducer := rest);
      if !s.producer.alive then
        if m.PullMessage? then s'.(toConsumer := Enqueue(s'.toConsumer, PullAnswer)) else s'
      else match m
        case PullMessage(n) =>
          var (p, answers) := s.producer.Pull(n);
          var opens := n > 0 && !s.producer.atEnd;
          s'.(producer := p, toConsumer := SendAnswers(s'.toConsumer, answers),
              asked := if opens then n else s.asked, before := if opens then Size(s.yielded) else s.before)
        case PushAnswer(last) =>
          var (p, answers, quit) := s.producer.Acked(last);
          var s'' := s'.(producer := p, toConsumer := SendAnswers(s'.toConsumer, answers));
          if quit then ProducerQuits(s'', answerFirst) else s''
  }

  function ArrivedAtConsumer(s: Link): Link
  {
    match s.toConsumer
    case Empty => s
    case Front(m, rest) =>
      var s' := s.(toConsumer := rest);
      match m
      case PushMessage(b, last) => s'.(consumer := s.consumer.Push(b),
        toProducer := Enqueue(s'.toProducer, PushAnswer(last)))
      case PullAnswer => s'.(consumer := s.consumer.PullDone(), answered := s'.answered + 1)
      case ExitMessage => s'.(consumer := s.consumer.(previous := false))
  }

  function Next(l: Limits, s: Link, a: Action): Link
  {
    match a
    case Issue => Issued(l, s)
    case Feed => Fed(s)
    case Produce(output, ends, answerFirst) => Produced(s, output, ends, answerFirst)
    case AtProducer(answerFirst) => ArrivedAtProducer(s, answerFirst)
    case AtConsumer => ArrivedAtConsumer(s)
  }

  datatype Run = Begin | Then(prev: Run, action: Action)

  function After(l: Limits, r: Run): Link
  {
    match r
    case Begin => START
    case Then(prev, a) => Next(l, After(l, prev), a)
  }

  // ----- What every step keeps

  function Open(p: Node): nat
  {
    if p.demand.Some? && p.demand.value.pending then 1 else 0
  }

  /** An unanswered pull is in exactly one place: on its way, open at the producer, or
      answered but not yet back. */
  predicate PullsCounted(s: Link)
  {
    && Pulls(s.toProducer) + Open(s.producer) + Answers(s.toConsumer) == (if s.consumer.inflight then 1 else 0)
    && s.sent == s.answered + (if s.consumer.inflight then 1 else 0)
  }

  predicate Pulling(s: Link)
  {
    && PullsCounted(s)
    && (s.producer.demand.Some? ==> s.producer.alive && s.producer.demand.value.pending)
  }

  predicate NoneEmpty(batches: seq<Batch>)
  {
    forall i :: 0 <= i < |batches| ==> batches[i] != []
  }

  /** Batches are neither lost, nor repeated, nor reordered. */
  predicate Streaming(s: Link)
  {
    && s.yielded == s.received + s.consumer.buffer + Pushed(s.toConsumer)
    && s.consumer.bufferSize == Size(s.consumer.buffer)
    && AllFilled(s.toConsumer) && NoneEmpty(s.consumer.buffer)
  }

  /** The exit of the producer arrives behind its last batch. Until then, a producer
      whose generator has ended waits for the answer to its last push. */
  predicate Ending(s: Link)
  {
    && NoPushAfterExit(s.toConsumer)
    && (s.producer.alive ==> s.consumer.previous && !HasExit(s.toConsumer))
    && (!s.producer.alive ==> s.consumer.previous == HasExit(s.toConsumer))
    && (!s.consumer.previous ==> Pushed(s.toConsumer) == [])
    && (s.producer.alive && s.producer.atEnd ==> HasLastPush(s.toConsumer) || HasLastAnswer(s.toProducer))
    && (s.sawEnd ==> !s.consumer.previous && s.consumer.buffer == [])
  }

  predicate Inv(s: Link)
  {
    Pulling(s) && Streaming(s) && Ending(s)
  }

  lemma IssueInv(l: Limits, s: Link)
    requires Inv(s)
    ensures Inv(Issued(l, s))
  {
    hide Size, Pushed;
    var (c, pull) := s.consumer.IssueDemand(l);
    if pull.Some? {
      SendToProducer(s.toProducer, PullMessage(pull.value));
    }
  }

  lemma FeedInv(s: Link)
    requires Inv(s)
    ensures Inv(Fed(s))
  {
    hide Pushed;
    var b := s.consumer.buffer;
    if b != [] {
      assert s.received + b == (s.received + [b[0]]) + b[1..];
      assert NoneEmpty(b[1..]);
    }
  }

  lemma QuitInv(s: Link, answerFirst: bool)
    requires PullsCounted(s) && Streaming(s) && NoPushAfterExit(s.toConsumer)
    requires s.producer.alive && s.consumer.previous && !HasExit(s.toConsumer) && !s.sawEnd
    ensures Inv(ProducerQuits(s, answerFirst))
  {
    hide Size, Pushed, SendAnswers, Enqueue;
    var (p, n) := s.producer.Quit();
    SentAnswers(s.toConsumer, n);
    SentAnswers(Enqueue(s.toConsumer, ExitMessage), n);
    SendToConsumer(s.toConsumer, ExitMessage);
    SendToConsumer(SendAnswers(s.toConsumer, n), ExitMessage);
    assert Pushed(s.toConsumer) + [] == Pushed(s.toConsumer);
  }

  lemma ProduceInv(s: Link, output: Batch, ends: bool, answerFirst: bool)
    requires Inv(s)
    ensures Inv(Produced(s, output, ends, answerFirst))
  {
    hide Size, Pushed, Enqueue, ProducerQuits;
    if s.producer.MayAdvance() {
      var (p, push, quit) := s.producer.Advance(output, ends);
      if quit {
        QuitInv(s.(producer := p), answerFirst);
      } else if push.Some? {
        SendToConsumer(s.toConsumer, PushMessage(output, ends));
        assert (s.received + s.consumer.buffer + Pushed(s.toConsumer)) + [output]
            == s.received + s.consumer.buffer + (Pushed(s.toConsumer) + [output]);
      }
    }
  }

  lemma AtProducerInv(s: Link, answerFirst: bool)
    requires Inv(s)
    ensures Inv(ArrivedAtProducer(s, answerFirst))
  {
    hide Size, Pushed, Enqueue, ProducerQuits, SendAnswers;
    if s.toProducer.Front? {
      var m, s' := s.toProducer.head, s.(toProducer := s.toProducer.tail);
      SendToConsumer(s.toConsumer, PullAnswer);
      assert Pushed(s.toConsumer) + [] == Pushed(s.toConsumer);
      if s.producer.alive {
        if m.PullMessage? {
          var (p, answers) := s.producer.Pull(m.size);
          SentAnswers(s.toConsumer, answers);
        } else {
          var (p, answers, quit) := s.producer.Acked(m.last);
          SentAnswers(s.toConsumer, answers);
          if quit {
            QuitInv(s'.(producer := p, toConsumer := SendAnswers(s'.toConsumer, answers)), answerFirst);
          }
        }
      }
    }
  }

  lemma {:induction false} NoExitNoPush(q: Queue<ToConsumer>)
    requires !HasExit(q)
    ensures NoPushAfterExit(q)
  {
    if q.Front? {
      NoExitNoPush(q.tail);
    }
  }

  lemma AtConsumerInv(s: Link)
    requires Inv(s)
    ensures Inv(ArrivedAtConsumer(s))
  {
    hide Size, Enqueue;
    if s.toConsumer.Front? {
      var m, rest, c := s.toConsumer.head, s.toConsumer.tail, s.consumer;
      if m.PushMessage? {
        SendToProducer(s.toProducer, PushAnswer(m.last));
        SizePush(c.buffer, m.batch);
        assert s.received + c.buffer + ([m.batch] + Pushed(rest)) == s.received + (c.buffer + [m.batch]) + Pushed(rest);
      } else {
        assert [] + Pushed(rest) == Pushed(rest);
        if m.ExitMessage? {
          NoExitNoPush(rest);
        }
      }
    }
  }

  lemma NextInv(l: Limits, s: Link, a: Action)
    requires Inv(s)
    ensures Inv(Next(l, s, a))
  {
    hide Inv;
    match a
    case Issue => IssueInv(l, s);
    case Feed => FeedInv(s);
    case Produce(output, ends, answerFirst) => ProduceInv(s, output, ends, answerFirst);
    case AtProducer(answerFirst) => AtProducerInv(s, answerFirst);
    case AtConsumer => AtConsumerInv(s);
  }

  lemma StartInv(s: Link)
    requires s.producer == s.consumer == Node([], 0, false, true, None, false, true)
    requires s.toProducer == Empty && s.toConsumer == Empty && s.yielded == s.received == [] && s.sent == s.answered
        && !s.sawEnd
    ensures Inv(s)
  {
  }

  lemma {:induction false} AlwaysInv(l: Limits, r: Run)
    ensures Inv(After(l, r))
  {
    hide Inv, Next;
    match r
    case Begin => StartInv(START);
    case Then(prev, a) =>
      AlwaysInv(l, prev);
      NextInv(l, After(l, prev), a);
  }

  // ----- Main results, for every interleaving

  /** At most one pull is unanswered, it is answered once, and a pull never finds an
      older one open. */
  lemma OnePull(l: Limits, r: Run)
    ensures var s := After(l, r);
            && s.answered <= s.sent <= s.answered + 1 && (s.consumer.inflight <==> s.sent == s.answered + 1)
            && Open(s.producer) + Answers(s.toConsumer) <= s.sent - s.answered
            && (s.toProducer.Front? && s.toProducer.head.PullMessage? ==> s.producer.demand == None)
            && (s.consumer.MayPull(l) ==>
               s.producer.demand == None && Answers(s.toConsumer) == 0 && Pulls(s.toProducer) == 0)
  {
    hide After;
    AlwaysInv(l, r);
    var s := After(l, r);
    if s.toProducer.Front? && s.toProducer.head.PullMessage? {
    }
  }

  /** The consumer's operator has received, in order and once each, the batches that
      the producer's operator yielded except those still buffered or on their way.
      It sees the end only when it has received all and no more can come. */
  lemma StreamFidelity(l: Limits, r: Run)
    ensures var s := After(l, r);
            && s.received <= s.yielded
            && s.yielded == s.received + s.consumer.buffer + Pushed(s.toConsumer)
            && s.consumer.bufferSize == Size(s.consumer.buffer)
            && (s.sawEnd ==>
                  s.received == s.yielded && !s.producer.alive && s.consumer.buffer == [] && Pushed(s.toConsumer) == [])
  {
    hide After;
    AlwaysInv(l, r);
    var s := After(l, r);
    assert s.received + s.consumer.buffer + Pushed(s.toConsumer)
      == s.received + (s.consumer.buffer + Pushed(s.toConsumer));
    if s.sawEnd {
      assert s.received + [] + [] == s.received;
    }
  }

  lemma {:induction false} YieldedFilled(l: Limits, r: Run)
    ensures NoneEmpty(After(l, r).yielded)
  {
    hide Size, Enqueue, SendAnswers;
    if r.Then? {
      YieldedFilled(l, r.prev);
    }
  }

  /** The nodes never wait for each other: a message is in flight, or the producer can
      yield, or the consumer can pull or has input, until the producer is gone and
      the consumer knows. */
  lemma NoDeadlock(l: Limits, r: Run)
    requires l.minElements <= l.maxElements
    ensures var s := After(l, r);
            || s.toProducer.Front? || s.toConsumer.Front? || s.consumer.buffer != []
            || s.consumer.MayPull(l) || s.producer.MayAdvance()
            || (!s.producer.alive && !s.consumer.previous)
  {
    hide After;
    AlwaysInv(l, r);
  }

  // ----- The open demand

  /** The elements yielded since the last pull that opened a demand. */
  function Since(s: Link): int
  {
    Size(s.yielded) - s.before
  }

  /** The demand left open is what the pull asked for without the elements yielded since
      it arrived. */
  predicate DemandCounted(s: Link)
  {
    && s.before <= Size(s.yielded)
    && (s.producer.demand.Some? ==>
          s.producer.demand.value.remaining == if Since(s) >= s.asked then 0 else s.asked - Since(s))
  }

  lemma NextDemandCounted(l: Limits, s: Link, a: Action)
    requires DemandCounted(s)
    ensures DemandCounted(Next(l, s, a))
  {
    hide Size, Enqueue, SendAnswers, ArrivedAtProducer;
    match a
    case Issue =>
    case Feed =>
    case Produce(output, ends, answerFirst) => SizePush(s.yielded, output);
    case AtProducer(answerFirst) => ArrivedDemandCounted(s, answerFirst);
    case AtConsumer =>
  }

  lemma ArrivedDemandCounted(s: Link, answerFirst: bool)
    requires DemandCounted(s)
    ensures DemandCounted(ArrivedAtProducer(s, answerFirst))
  {
    hide Size, Enqueue, SendAnswers;
  }

  lemma {:induction false} AlwaysDemandCounted(l: Limits, r: Run)
    ensures DemandCounted(After(l, r))
  {
    hide Inv, Next;
    match r
    case Begin =>
    case Then(prev, a) =>
      AlwaysDemandCounted(l, prev);
      NextDemandCounted(l, After(l, prev), a);
  }

  // ----- Pulls are answered

  /** A met demand waits for the acknowledgement of a push. */
  predicate MetIsPushed(s: Link)
  {
    s.producer.demand.Some? && s.producer.demand.value.remaining == 0 ==>
      Pushed(s.toConsumer) != [] || Acks(s.toProducer) > 0
  }

  lemma QuitWork(s: Link, answerFirst: bool)
    ensures var s' := ProducerQuits(s, answerFirst);
            && s'.producer.demand == None && !s'.producer.alive && s'.toProducer == s.toProducer
            && Pushed(s'.toConsumer) == Pushed(s.toConsumer)
            && Work(s'.toConsumer) == Work(s.toConsumer) + 1 + Open(s.producer)
  {
    hide Enqueue, SendAnswers;
    var (p, n) := s.producer.Quit();
    SentAnswers(s.toConsumer, n);
    SentAnswers(Enqueue(s.toConsumer, ExitMessage), n);
    SendToConsumer(s.toConsumer, ExitMessage);
    SendToConsumer(SendAnswers(s.toConsumer, n), ExitMessage);
    assert Pushed(s.toConsumer) + [] == Pushed(s.toConsumer);
  }

  lemma NextMetIsPushed(l: Limits, s: Link, a: Action)
    requires Inv(s) && MetIsPushed(s)
    ensures MetIsPushed(Next(l, s, a))
  {
    hide Size, Enqueue, ProducerQuits, SendAnswers;
    match a
    case Issue =>
      var (c, pull) := s.consumer.IssueDemand(l);
      if pull.Some? {
        SendToProducer(s.toProducer, PullMessage(pull.value));
      }
    case Feed =>
    case Produce(output, ends, answerFirst) =>
      if s.producer.MayAdvance() {
        QuitWork(s.(producer := s.producer.Advance(output, ends).0), answerFirst);
        SendToConsumer(s.toConsumer, PushMessage(output, ends));
      }
    case AtProducer(answerFirst) => ArrivedMetIsPushed(s, answerFirst);
    case AtConsumer =>
      if s.toConsumer.Front? && s.toConsumer.head.PushMessage? {
        SendToProducer(s.toProducer, PushAnswer(s.toConsumer.head.last));
      }
  }

  lemma ArrivedMetIsPushed(s: Link, answerFirst: bool)
    requires Inv(s) && MetIsPushed(s)
    ensures MetIsPushed(ArrivedAtProducer(s, answerFirst))
  {
    hide Size, Enqueue, ProducerQuits, SendAnswers;
    if s.toProducer.Front? {
      var m, s' := s.toProducer.head, s.(toProducer := s.toProducer.tail);
      SendToConsumer(s.toConsumer, PullAnswer);
      if s.producer.alive {
        if m.PullMessage? {
          SentAnswers(s.toConsumer, s.producer.Pull(m.size).1);
        } else {
          var (p, answers, quit) := s.producer.Acked(m.last);
          SentAnswers(s.toConsumer, answers);
          QuitWork(s'.(producer := p, toConsumer := SendAnswers(s'.toConsumer, answers)), answerFirst);
        }
      }
    }
  }

  lemma {:induction false} AlwaysMetIsPushed(l: Limits, r: Run)
    ensures MetIsPushed(After(l, r))
  {
    hide Inv, Next, MetIsPushed;
    match r
    case Begin => assert MetIsPushed(START) by { NothingDemanded(); }
    case Then(prev, a) =>
      AlwaysInv(l, prev);
      AlwaysMetIsPushed(l, prev);
      NextMetIsPushed(l, After(l, prev), a);
  }

  lemma NothingDemanded()
    ensures MetIsPushed(START)
  {
  }

  /** The demand left open is what its pull asked for without the elements yielded since
      that arrived. These are fewer than asked for, unless a push is on its way or not
      yet acknowledged. */
  lemma BackPressure(l: Limits, r: Run)
    ensures var s := After(l, r);
            s.producer.demand.Some? ==>
              && s.consumer.inflight && s.producer.demand.value.pending
              && s.producer.demand.value.remaining == (if Since(s) >= s.asked then 0 else s.asked - Since(s))
              && (Since(s) < s.asked || Pushed(s.toConsumer) != [] || Acks(s.toProducer) > 0)
  {
    hide After, Since, Size;
    AlwaysInv(l, r);
    AlwaysDemandCounted(l, r);
    AlwaysMetIsPushed(l, r);
  }

  /** While it is open, a demand ends if and only if the producer quits, or a push is
      acknowledged and as many elements as asked for have been yielded since. */
  lemma DemandEnds(l: Limits, r: Run, a: Action)
    requires After(l, r).producer.demand.Some?
    ensures var s, s' := After(l, r), After(l, Then(r, a));
            s'.producer.demand == None <==>
              || !s'.producer.alive
              || (a.AtProducer? && s.toProducer.Front? && s.toProducer.head.PushAnswer? && Since(s) >= s.asked)
  {
    hide After, Since, Size, Enqueue, SendAnswers;
    AlwaysInv(l, r);
    AlwaysDemandCounted(l, r);
    assert After(l, Then(r, a)) == Next(l, After(l, r), a) by { AfterThen(l, r, a); }
  }

  lemma AfterThen(l: Limits, r: Run, a: Action)
    ensures After(l, Then(r, a)) == Next(l, After(l, r), a)
  {
  }

  /** Nothing holds a producer back until a push is acknowledged: one pull can be followed
      by any number of elements. */
  lemma {:induction false} Overshoots(l: Limits, n: nat) returns (r: Run)
    requires 0 < l.maxElements && l.minElements <= l.maxElements && 0 < l.maxBatches
    ensures var s := After(l, r);
            s.sent == 1 && s.producer.MayAdvance() && s.asked == l.maxElements && Since(s) == n
  {
    if n == 0 {
      r := Then(Then(Begin, Issue), AtProducer(true));
      assert After(l, Then(Begin, Issue)).toProducer == Front(PullMessage(l.maxElements), Empty);
    } else {
      var q := Overshoots(l, n - 1);
      r := Then(q, Produce([0], false, true));
      SizePush(After(l, q).yielded, [0]);
    }
  }

  /** What the arrival of messages can still cause. */
  function Measure(s: Link): nat
  {
    2 * Pulls(s.toProducer) + Acks(s.toProducer) + Work(s.toConsumer) + Open(s.producer)
    + if s.producer.alive then 1 else 0
  }

  /** The first message of some queue arrives. */
  predicate Arrives(s: Link, a: Action)
  {
    (a.AtProducer? && s.toProducer.Front?) || (a.AtConsumer? && s.toConsumer.Front?)
  }

  /** Messages that arrive cause fewer and fewer others. */
  lemma ArrivalDecreases(l: Limits, s: Link, a: Action)
    requires Inv(s) && Arrives(s, a)
    ensures Measure(Next(l, s, a)) < Measure(s)
  {
    hide Size, Enqueue, ProducerQuits, SendAnswers, Pushed;
    if a.AtConsumer? {
      if s.toConsumer.head.PushMessage? {
        SendToProducer(s.toProducer, PushAnswer(s.toConsumer.head.last));
      }
    } else {
      var m, s' := s.toProducer.head, s.(toProducer := s.toProducer.tail);
      SendToConsumer(s.toConsumer, PullAnswer);
      if s.producer.alive {
        if m.PullMessage? {
          SentAnswers(s.toConsumer, s.producer.Pull(m.size).1);
        } else {
          var (p, answers, quit) := s.producer.Acked(m.last);
          SentAnswers(s.toConsumer, answers);
          QuitWork(s'.(producer := p, toConsumer := SendAnswers(s'.toConsumer, answers)), a.answerFirst);
        }
      }
    }
  }

  /** Some messages arrive after a run, and nothing else happens. */
  predicate Delivers(l: Limits, r: Run, first: Run)
  {
    r == first || (r.Then? && Delivers(l, r.prev, first) && Arrives(After(l, r.prev), r.action))
  }

  /** No message is on its way, and a pull that is unanswered is open at a running
      producer that has yielded fewer elements since than it asked for. So a pull is
      answered once its demand is met or the producer quits. */
  predicate Quiet(s: Link)
  {
    && s.toProducer == Empty && s.toConsumer == Empty
    && (s.consumer.inflight ==>
          s.producer.alive && s.producer.demand.Some? && s.producer.demand.value.pending
            && s.producer.demand.value.remaining == s.asked - Since(s) > 0)
  }

  /** From every state messages can go on arriving for as many steps as the measure
      says at most, and then it is quiet. */
  lemma {:induction false} BecomesQuiet(l: Limits, first: Run) returns (r: Run)
    ensures Delivers(l, r, first) && Quiet(After(l, r))
    decreases Measure(After(l, first))
  {
    hide Inv, Next, Measure, MetIsPushed;
    var s := After(l, first);
    AlwaysInv(l, first);
    if s.toProducer == Empty && s.toConsumer == Empty {
      AlwaysMetIsPushed(l, first);
      AlwaysDemandCounted(l, first);
      NothingOnItsWay(s);
      r := first;
    } else {
      var a := if s.toProducer.Front? then AtProducer(true) else AtConsumer;
      ArrivalDecreases(l, s, a);
      r := BecomesQuiet(l, Then(first, a));
      DeliversMore(l, r, first, a);
    }
  }

  lemma NothingOnItsWay(s: Link)
    requires Inv(s) && MetIsPushed(s) && DemandCounted(s) && s.toProducer == Empty && s.toConsumer == Empty
    ensures Quiet(s)
  {
  }

  lemma {:induction false} DeliversMore(l: Limits, r: Run, first: Run, a: Action)
    requires Delivers(l, r, Then(first, a)) && Arrives(After(l, first), a)
    ensures Delivers(l, r, first)
  {
    if r != Then(first, a) {
      DeliversMore(l, r.prev, first, a);
    }
  }
}
