/** The pipeline from the Flow Aggregator to the browser: a goroutine that receives and forwards (pkg/handlers/flowstream/
    grpc.go), two channels, and a loop that selects and writes (pkg/handlers/flowstream/handler.go), as interleaved steps. */
module FlowPipeline {
  import opened Wrappers

  const CAPACITY := 16

  /** What the aggregator sends: a cumulative count of dropped flows, and a batch. */
  datatype Response = Response(droppedCount: nat, flows: seq<Flow>)

  datatype Event = Event(droppedCount: nat, flows: seq<Flow>)

  /** What is written to the client. */
  datatype Out = Preamble | KeepAliveComment | Dropped(count: nat) | Flows(flows: seq<Flow>) | Failure(message: string)

  datatype End = Open | Eof | UpstreamError | Cancelled

  datatype Producer = Starting | Receiving | Sending(event: Event) | Closing | FlowsClosed | Ended

  datatype Reason = Drained | ErrorShown | ContextDone | SessionOver | WriteFailed | ClientGone

  datatype Consumer = Selecting | Stopped(reason: Reason)

  datatype State = State(
    received: seq<Response>,
    lastDropped: nat,
    producer: Producer,
    end: End,
    unsent: seq<Event>,       // the event a cancelled goroutine gave up sending, if any
    flowsCh: seq<Event>,
    errCh: seq<string>,
    errNil: bool,
    cancelled: bool,
    consumer: Consumer,
    taken: seq<Event>,        // the events the loop has taken
    written: seq<Out>)

  datatype Action =
    | StartFails(message: string) | Start
    | Receive(response: Response) | ReceiveEof | ReceiveCancelled | ReceiveError(message: string)
    | Send | SendCancelled
    | CloseFlows | CloseErrors
    | Cancel
    | SeeCancelled | KeepAlive | SessionEnds | KeepAliveFails | TakeEvent | SeeFlowsClosed | TakeError | SeeErrorsClosed | SeeClientGone

  // ---------------------------------------------------------------- what is forwarded

  /** What the goroutine makes of a response, given the count it forwarded last; None if there is nothing to forward. */
  function EventOf(lastDropped: nat, r: Response): Event {
    Event(if r.droppedCount > lastDropped then r.droppedCount else 0, r.flows)
  }

  function Forwarded(e: Event): seq<Event> {
    if e.droppedCount > 0 || e.flows != [] then [e] else []
  }

  function Later(lastDropped: nat, r: Response): nat {
    if r.droppedCount > lastDropped then r.droppedCount else lastDropped
  }

  function Emitted(e: Event): seq<Out> {
    (if e.droppedCount > 0 then [Dropped(e.droppedCount)] else []) + (if e.flows != [] then [Flows(e.flows)] else [])
  }

  // ---------------------------------------------------------------- the steps

  ghost predicate Init(s: State) {
    && s.received == [] && s.lastDropped == 0 && s.producer.Starting? && s.end.Open? && s.unsent == []
    && s.flowsCh == [] && s.errCh == [] && !s.errNil && !s.cancelled && s.consumer.Selecting? && s.taken == []
    && s.written == [Preamble]
  }

  predicate FlowsChClosed(s: State) {
    s.producer.FlowsClosed? || s.producer.Ended?
  }

  ghost predicate ProducerStep(s: State, a: Action, s': State) {
    match a
    case StartFails(message) =>
      s.producer.Starting? && s' == s.(errCh := s.errCh + [message], producer := Closing, end := UpstreamError)
    case Start =>
      s.producer.Starting? && s' == s.(producer := Receiving)
    case Receive(r) =>
      && s.producer.Receiving?
      && var e := EventOf(s.lastDropped, r);
         s' == s.(received := s.received + [r], lastDropped := Later(s.lastDropped, r),
                  producer := if Forwarded(e) == [] then Receiving else Sending(e))
    case ReceiveEof =>
      s.producer.Receiving? && s' == s.(producer := Closing, end := Eof)
    case ReceiveCancelled =>
      s.producer.Receiving? && s.cancelled && s' == s.(producer := Closing, end := Cancelled)
    case ReceiveError(message) =>
      && s.producer.Receiving? && !s.cancelled
      && s' == s.(errCh := s.errCh + [message], producer := Closing, end := UpstreamError)
    case Send =>
      && s.producer.Sending? && |s.flowsCh| < CAPACITY
      && s' == s.(flowsCh := s.flowsCh + [s.producer.event], producer := Receiving)
    case SendCancelled =>
      && s.producer.Sending? && s.cancelled
      && s' == s.(unsent := [s.producer.event], producer := Closing, end := Cancelled)
    case CloseFlows => s.producer.Closing? && s' == s.(producer := FlowsClosed)
    case CloseErrors => s.producer.FlowsClosed? && s' == s.(producer := Ended)
    case _ => false
  }

  ghost predicate ConsumerStep(s: State, a: Action, s': State) {
    && s.consumer.Selecting?
    && match a
       case SeeCancelled => s.cancelled && s' == s.(consumer := Stopped(ContextDone))
       case KeepAlive => s' == s.(written := s.written + [KeepAliveComment])
       case SessionEnds => s' == s.(consumer := Stopped(SessionOver))
       case KeepAliveFails => s' == s.(consumer := Stopped(WriteFailed))
       case TakeEvent =>
         && s.flowsCh != []
         && s' == s.(flowsCh := s.flowsCh[1..], taken := s.taken + [s.flowsCh[0]], written := s.written + Emitted(s.flowsCh[0]))
       case SeeFlowsClosed => s.flowsCh == [] && FlowsChClosed(s) && s' == s.(consumer := Stopped(Drained))
       case TakeError =>
         && !s.errNil && s.errCh != []
         && s' == s.(errCh := s.errCh[1..], written := s.written + [Failure(s.errCh[0])], consumer := Stopped(ErrorShown))
       case SeeErrorsClosed => !s.errNil && s.errCh == [] && s.producer.Ended? && s' == s.(errNil := true)
       case SeeClientGone => s' == s.(consumer := Stopped(ClientGone))
       case _ => false
  }

  ghost predicate Next(s: State, a: Action, s': State) {
    || ProducerStep(s, a, s')
    || ConsumerStep(s, a, s')
    || (a.Cancel? && s' == s.(cancelled := true))
  }

  ghost predicate IsRun(states: seq<State>, actions: seq<Action>) {
    && |states| == |actions| + 1
    && Init(states[0])
    && forall k | 0 <= k < |actions| :: Next(states[k], actions[k], states[k + 1])
  }

  // ---------------------------------------------------------------- the history as a whole

  /** The largest count received. */
  function MaxDropped(received: seq<Response>): (m: nat)
    ensures forall r <- received :: r.droppedCount <= m
    ensures m == 0 || exists r <- received :: r.droppedCount == m
  {
    if received == [] then 0
    else
      var m := MaxDropped(received[..|received| - 1]);
      var last := received[|received| - 1];
      assert received == received[..|received| - 1] + [last];
      if last.droppedCount > m then last.droppedCount else m
  }

  /** What there is to forward of all responses. */
  function ToForward(received: seq<Response>): seq<Event> {
    if received == [] then []
    else
      var before, last := received[..|received| - 1], received[|received| - 1];
      ToForward(before) + Forwarded(EventOf(MaxDropped(before), last))
  }

  function Batch(r: Response): seq<seq<Flow>> {
    if r.flows != [] then [r.flows] else []
  }

  function EventBatch(e: Event): seq<seq<Flow>> {
    if e.flows != [] then [e.flows] else []
  }

  function EventCount(e: Event): seq<nat> {
    if e.droppedCount > 0 then [e.droppedCount] else []
  }

  function Counts(events: seq<Event>): seq<nat> {
    FlatMap(EventCount, events)
  }

  predicate StrictlyIncreasing(counts: seq<nat>) {
    forall i, j | 0 <= i < j < |counts| :: counts[i] < counts[j]
  }

  lemma {:induction false} BatchesForwarded(received: seq<Response>)
    ensures FlatMap(EventBatch, ToForward(received)) == FlatMap(Batch, received)
  {
    if received != [] {
      var before, last := received[..|received| - 1], received[|received| - 1];
      BatchesForwarded(before);
      BatchesSnoc(ToForward(before), EventOf(MaxDropped(before), last));
    }
  }

  lemma BatchesSnoc(events: seq<Event>, e: Event)
    ensures FlatMap(EventBatch, events + Forwarded(e)) == FlatMap(EventBatch, events) + EventBatch(e)
  {
    if Forwarded(e) == [] {
      assert events + [] == events;
    } else {
      FlatMapSnoc(EventBatch, events, e);
    }
  }

  /** The counts increase strictly, up to m. */
  ghost predicate ClimbTo(counts: seq<nat>, m: nat) {
    StrictlyIncreasing(counts) && m == if counts == [] then 0 else counts[|counts| - 1]
  }

  lemma {:induction false} CountsForwarded(received: seq<Response>)
    ensures ClimbTo(Counts(ToForward(received)), MaxDropped(received))
  {
    if received != [] {
      var before, last := received[..|received| - 1], received[|received| - 1];
      CountsForwarded(before);
      ClimbOn(ToForward(before), MaxDropped(before), last);
    }
  }

  lemma ClimbOn(events: seq<Event>, m: nat, r: Response)
    requires ClimbTo(Counts(events), m)
    ensures ClimbTo(Counts(events + Forwarded(EventOf(m, r))), if r.droppedCount > m then r.droppedCount else m)
  {
    CountsSnoc(events, EventOf(m, r));
  }

  lemma CountsSnoc(events: seq<Event>, e: Event)
    requires StrictlyIncreasing(Counts(events))
    requires e.droppedCount == 0 || Counts(events) == [] || Counts(events)[|Counts(events)| - 1] < e.droppedCount
    ensures Counts(events + Forwarded(e)) == Counts(events) + if e.droppedCount > 0 then [e.droppedCount] else []
    ensures StrictlyIncreasing(Counts(events + Forwarded(e)))
  {
    if Forwarded(e) == [] {
      assert events + [] == events;
    } else {
      FlatMapSnoc(EventCount, events, e);
    }
  }

  /** The batches forwarded are the non-empty ones received, in order; the counts forwarded increase strictly, and the last
      one is the largest received so far. */
  lemma ToForwardIs(received: seq<Response>)
    ensures FlatMap(EventBatch, ToForward(received)) == FlatMap(Batch, received)
    ensures ClimbTo(Counts(ToForward(received)), MaxDropped(received))
  {
    BatchesForwarded(received);
    CountsForwarded(received);
  }

  // ---------------------------------------------------------------- the invariant

  function InHand(p: Producer): seq<Event> {
    if p.Sending? then [p.event] else []
  }

  /** Every event to forward is, in order: taken by the loop, in the channel, in the goroutine's hand, or given up. */
  ghost predicate Accounted(s: State) {
    && s.taken + s.flowsCh + InHand(s.producer) + s.unsent == ToForward(s.received)
    && s.lastDropped == MaxDropped(s.received)
  }

  ghost predicate Shaped(s: State) {
    && |s.flowsCh| <= CAPACITY
    && (s.end.Open? <==> s.producer.Starting? || s.producer.Receiving? || s.producer.Sending?)
    && |s.unsent| <= 1 && (s.unsent != [] ==> s.end.Cancelled?)
    && (s.errCh != [] ==> s.end.UpstreamError?) && |s.errCh| <= 1
    && (s.end.Cancelled? ==> s.cancelled)
    && (s.consumer == Stopped(ContextDone) ==> s.cancelled)
    && (s.consumer == Stopped(ErrorShown) ==> s.end.UpstreamError?)
    && (s.consumer == Stopped(Drained) ==> s.flowsCh == [] && FlowsChClosed(s))
  }

  function IsContent(o: Out): seq<Out> {
    if o.Dropped? || o.Flows? then [o] else []
  }

  /** The count that an output tells, if it tells one; and the batch. */
  function OutCount(o: Out): seq<nat> {
    if o.Dropped? then [o.count] else []
  }

  function OutBatch(o: Out): seq<seq<Flow>> {
    if o.Flows? then [o.flows] else []
  }

  /** Apart from comments and a final error, what is written is what the events taken say. */
  ghost predicate Written(s: State) {
    FlatMap(IsContent, s.written) == FlatMap(Emitted, s.taken)
  }

  lemma AccountedNext(s: State, a: Action, s': State)
    requires Accounted(s) && Shaped(s) && Next(s, a, s')
    ensures Accounted(s')
  {
    match a
    case Receive(r) => AccountedReceive(s, r, s');
    case Send => AccountedHandOver(s, s');
    case SendCancelled => AccountedHandOver(s, s');
    case TakeEvent => AccountedTake(s, s');
    case _ =>
      assert s'.taken == s.taken && s'.flowsCh == s.flowsCh && s'.unsent == s.unsent && s'.received == s.received;
      assert InHand(s'.producer) == InHand(s.producer) == [] || s'.producer == s.producer;
  }

  lemma AccountedHandOver(s: State, s': State)
    requires Accounted(s) && s.producer.Sending? && s.unsent == [] && !s'.producer.Sending?
    requires s'.received == s.received && s'.lastDropped == s.lastDropped && s'.taken == s.taken
    requires (s'.flowsCh == s.flowsCh + [s.producer.event] && s'.unsent == [])
             || (s'.flowsCh == s.flowsCh && s'.unsent == [s.producer.event])
    ensures Accounted(s')
  {
    Regroup(s.taken, s.flowsCh, [s.producer.event]);
  }

  lemma AccountedTake(s: State, s': State)
    requires Accounted(s) && s.flowsCh != []
    requires s'.taken == s.taken + [s.flowsCh[0]] && s'.flowsCh == s.flowsCh[1..]
    requires s'.received == s.received && s'.lastDropped == s.lastDropped && s'.producer == s.producer && s'.unsent == s.unsent
    ensures Accounted(s')
  {
    assert s'.taken + s'.flowsCh == s.taken + s.flowsCh;
  }

  lemma AccountedReceive(s: State, r: Response, s': State)
    requires Accounted(s) && Shaped(s) && ProducerStep(s, Receive(r), s')
    ensures Accounted(s')
  {
    assert s'.received[..|s.received|] == s.received;
    Regroup(s.taken, s.flowsCh, InHand(s'.producer));
  }

  lemma Regroup(taken: seq<Event>, queue: seq<Event>, more: seq<Event>)
    ensures taken + queue + [] + [] == taken + queue
    ensures taken + queue + more + [] == taken + queue + more == taken + queue + [] + more
    ensures taken + (queue + more) + [] + [] == taken + queue + more
  {
  }

  lemma ShapedNext(s: State, a: Action, s': State)
    requires Shaped(s) && Next(s, a, s')
    ensures Shaped(s')
  {
  }

  lemma ContentOfEmitted(e: Event)
    ensures FlatMap(IsContent, Emitted(e)) == Emitted(e)
  {
    var d, f := Dropped(e.droppedCount), Flows(e.flows);
    FlatMapOne(IsContent, d);
    FlatMapOne(IsContent, f);
    FlatMapSnoc(IsContent, [d], f);
    assert [d] + [f] == [d, f];
  }

  lemma WrittenNext(s: State, a: Action, s': State)
    requires Written(s) && Next(s, a, s')
    ensures Written(s')
  {
    match a
    case KeepAlive => FlatMapSnoc(IsContent, s.written, KeepAliveComment);
    case TakeError => FlatMapSnoc(IsContent, s.written, Failure(s.errCh[0]));
    case TakeEvent => WrittenTake(s, s.flowsCh[0]);
    case _ =>
      assert s'.written == s.written && s'.taken == s.taken;
  }

  lemma WrittenTake(s: State, e: Event)
    requires Written(s)
    ensures FlatMap(IsContent, s.written + Emitted(e)) == FlatMap(Emitted, s.taken + [e])
  {
    FlatMapConcat(IsContent, s.written, Emitted(e));
    ContentOfEmitted(e);
    FlatMapSnoc(Emitted, s.taken, e);
  }

  lemma {:induction false} RunInv(states: seq<State>, actions: seq<Action>, k: nat)
    requires IsRun(states, actions) && k <= |actions|
    ensures Accounted(states[k]) && Shaped(states[k]) && Written(states[k])
  {
    if k == 0 {
      FlatMapSnoc(IsContent, [], Preamble);
      assert [] + [Preamble] == [Preamble];
    } else {
      RunInv(states, actions, k - 1);
      AccountedNext(states[k - 1], actions[k - 1], states[k]);
      ShapedNext(states[k - 1], actions[k - 1], states[k]);
      WrittenNext(states[k - 1], actions[k - 1], states[k]);
    }
  }

  // ---------------------------------------------------------------- order and completeness

  lemma CountsAndBatchesOfEmitted(e: Event)
    ensures FlatMap(OutCount, Emitted(e)) == EventCount(e)
    ensures FlatMap(OutBatch, Emitted(e)) == EventBatch(e)
  {
    var d, f := Dropped(e.droppedCount), Flows(e.flows);
    FlatMapOne(OutCount, d);
    FlatMapOne(OutCount, f);
    FlatMapSnoc(OutCount, [d], f);
    FlatMapOne(OutBatch, d);
    FlatMapOne(OutBatch, f);
    FlatMapSnoc(OutBatch, [d], f);
    assert [d] + [f] == [d, f];
  }

  /** What the events say are their counts and their batches. */
  lemma CountsAndBatches(events: seq<Event>)
    ensures FlatMap(OutCount, FlatMap(Emitted, events)) == Counts(events)
    ensures FlatMap(OutBatch, FlatMap(Emitted, events)) == FlatMap(EventBatch, events)
  {
    forall e <- events {
      CountsAndBatchesOfEmitted(e);
    }
    FlatMapTwice(OutCount, Emitted, EventCount, events);
    FlatMapTwice(OutBatch, Emitted, EventBatch, events);
  }

  /** Comments and errors tell neither. */
  lemma CountsAndBatchesOfContent(outs: seq<Out>)
    ensures FlatMap(OutCount, FlatMap(IsContent, outs)) == FlatMap(OutCount, outs)
    ensures FlatMap(OutBatch, FlatMap(IsContent, outs)) == FlatMap(OutBatch, outs)
  {
    forall o <- outs
      ensures FlatMap(OutCount, IsContent(o)) == OutCount(o) && FlatMap(OutBatch, IsContent(o)) == OutBatch(o)
    {
      FlatMapOne(OutCount, o);
      FlatMapOne(OutBatch, o);
    }
    FlatMapTwice(OutCount, IsContent, OutCount, outs);
    FlatMapTwice(OutBatch, IsContent, OutBatch, outs);
  }

  /** At any time, the client has been sent exactly the counts and the batches of the first so many events to forward, in
      order, and of each event its count before its flows. */
  lemma DeliveredInOrder(states: seq<State>, actions: seq<Action>, k: nat)
    requires IsRun(states, actions) && k <= |actions|
    ensures var s := states[k];
            && s.taken <= ToForward(s.received)
            && FlatMap(OutCount, s.written) == Counts(s.taken)
            && FlatMap(OutBatch, s.written) == FlatMap(EventBatch, s.taken)
            && FlatMap(IsContent, s.written) ==
                 FlatMap((e: Event) => (if e.droppedCount > 0 then [Dropped(e.droppedCount)] else [])
                                       + (if e.flows != [] then [Flows(e.flows)] else []), s.taken)
  {
    RunInv(states, actions, k);
    var s := states[k];
    CountsAndBatches(s.taken);
    CountsAndBatchesOfContent(s.written);
    FlatMapSame(Emitted, (e: Event) => (if e.droppedCount > 0 then [Dropped(e.droppedCount)] else [])
                                       + (if e.flows != [] then [Flows(e.flows)] else []), s.taken);
  }

  lemma TakenIsAllExactlyWhen(s: State)
    requires Accounted(s) && InHand(s.producer) == [] && s.unsent == []
    ensures s.taken == ToForward(s.received) <==> s.flowsCh == []
  {
    assert s.taken + s.flowsCh + [] + [] == s.taken + s.flowsCh;
  }

  /** If the upstream ends with EOF, and the handler returns without a cancellation, a failed keep-alive, a failed write or a
      client that left, then the loop has taken every event. */
  lemma EofTakesEverything(states: seq<State>, actions: seq<Action>, k: nat)
    requires IsRun(states, actions) && k <= |actions|
    requires states[k].consumer.Stopped? && states[k].consumer.reason !in {SessionOver, WriteFailed, ClientGone}
    requires states[k].end.Eof? && !states[k].cancelled
    ensures states[k].taken == ToForward(states[k].received)
  {
    RunInv(states, actions, k);
    var s := states[k];
    assert s.consumer == Stopped(Drained) by {
      assert s.consumer != Stopped(ErrorShown) && s.consumer != Stopped(ContextDone);
      assert s.consumer.reason.Drained?;
    }
    TakenIsAllExactlyWhen(s);
  }

  /** So everything received has been delivered: every batch that is not empty, and every count that rises. */
  lemma EofDeliversEverything(states: seq<State>, actions: seq<Action>, k: nat)
    requires IsRun(states, actions) && k <= |actions|
    requires states[k].consumer.Stopped? && states[k].consumer.reason !in {SessionOver, WriteFailed, ClientGone}
    requires states[k].end.Eof? && !states[k].cancelled
    ensures states[k].taken == ToForward(states[k].received)
    ensures FlatMap(OutCount, states[k].written) == Counts(ToForward(states[k].received))
    ensures FlatMap(OutBatch, states[k].written) == FlatMap(Batch, states[k].received)
  {
    EofTakesEverything(states, actions, k);
    DeliveredInOrder(states, actions, k);
    ToForwardIs(states[k].received);
  }

  /** However it ends, what is not delivered fits in the channel, plus the one event in the goroutine's hand; with an
      upstream error it fits in the channel. */
  lemma AtMostTheChannelIsLost(states: seq<State>, actions: seq<Action>, k: nat)
    requires IsRun(states, actions) && k <= |actions|
    ensures |ToForward(states[k].received)| - |states[k].taken| <= 17
    ensures states[k].end.UpstreamError? || states[k].end.Eof? ==> |ToForward(states[k].received)| - |states[k].taken| <= 16
  {
    RunInv(states, actions, k);
  }

  /** The loop never waits for a goroutine that is gone. */
  lemma LoopIsNotStuck(states: seq<State>, actions: seq<Action>, k: nat)
    requires IsRun(states, actions) && k <= |actions| && states[k].consumer.Selecting? && FlowsChClosed(states[k])
    ensures exists a: Action, s' :: (a.TakeEvent? || a.SeeFlowsClosed?) && Next(states[k], a, s')
  {
    var s := states[k];
    if s.flowsCh == [] {
      assert Next(s, SeeFlowsClosed, s.(consumer := Stopped(Drained)));
    } else {
      assert Next(s, TakeEvent, s.(flowsCh := s.flowsCh[1..], taken := s.taken + [s.flowsCh[0]],
                                   written := s.written + Emitted(s.flowsCh[0])));
    }
  }

  /** After an upstream error nothing is lost if and only if the loop finds the flow channel empty when it takes the error. */
  lemma ErrorDeliversEverythingExactlyWhen(states: seq<State>, actions: seq<Action>, k: nat)
    requires IsRun(states, actions) && k < |actions| && actions[k].TakeError?
    ensures states[k + 1].taken == ToForward(states[k + 1].received) <==> states[k].flowsCh == []
    ensures states[k].flowsCh == [] ==>
              && FlatMap(OutCount, states[k + 1].written) == Counts(ToForward(states[k + 1].received))
              && FlatMap(OutBatch, states[k + 1].written) == FlatMap(Batch, states[k + 1].received)
  {
    RunInv(states, actions, k);
    DeliveredInOrder(states, actions, k + 1);
    ToForwardIs(states[k + 1].received);
    RunInv(states, actions, k + 1);
    assert Next(states[k], actions[k], states[k + 1]);
    TakingTheError(states[k], actions[k], states[k + 1]);
    TakenIsAllExactlyWhen(states[k]);
  }

  /** The goroutine has reported this error by step k. */
  ghost predicate Reported(actions: seq<Action>, k: nat, message: string) {
    exists j | 0 <= j < k && j < |actions| :: actions[j] == StartFails(message) || actions[j] == ReceiveError(message)
  }

  ghost predicate ErrorsReported(s: State, actions: seq<Action>, k: nat) {
    && (forall message <- s.errCh :: Reported(actions, k, message))
    && (s.consumer == Stopped(ErrorShown) ==>
          s.written != [] && var last := s.written[|s.written| - 1]; last.Failure? && Reported(actions, k, last.message))
  }

  lemma NothingToDoWithErrors(s: State, a: Action, s': State)
    requires Next(s, a, s') && !a.StartFails? && !a.ReceiveError? && !a.TakeError?
    ensures s'.errCh == s.errCh
    ensures s'.consumer == Stopped(ErrorShown) ==> s.consumer == Stopped(ErrorShown) && s'.written == s.written
  {
  }

  lemma ShowsTheError(s: State, s': State)
    requires Next(s, TakeError, s')
    ensures s.errCh != [] && s.errCh[0] in s.errCh && forall message <- s'.errCh :: message in s.errCh
    ensures s'.written != [] && s'.written[|s'.written| - 1] == Failure(s.errCh[0])
  {
  }

  lemma ErrorsReportedNext(s: State, actions: seq<Action>, k: nat, s': State)
    requires k < |actions| && ErrorsReported(s, actions, k) && Next(s, actions[k], s')
    ensures ErrorsReported(s', actions, k + 1)
  {
    assert forall message | Reported(actions, k, message) :: Reported(actions, k + 1, message);
    match actions[k]
    case StartFails(message) => assert Reported(actions, k + 1, message);
    case ReceiveError(message) => assert Reported(actions, k + 1, message);
    case TakeError => ShowsTheError(s, s');
    case _ =>
      NothingToDoWithErrors(s, actions[k], s');
  }

  /** When the loop has ended on an error, the last thing written is an error that the goroutine reported. */
  lemma {:induction false} ErrorIsShownLast(states: seq<State>, actions: seq<Action>, k: nat)
    requires IsRun(states, actions) && k <= |actions|
    ensures ErrorsReported(states[k], actions, k)
  {
    if k > 0 {
      ErrorIsShownLast(states, actions, k - 1);
      ErrorsReportedNext(states[k - 1], actions, k - 1, states[k]);
    }
  }

  lemma TakingTheError(s: State, a: Action, s': State)
    requires Shaped(s) && Next(s, a, s') && a.TakeError?
    ensures s'.taken == s.taken && s'.received == s.received
    ensures InHand(s.producer) == [] && s.unsent == []
  {
  }

  // ---------------------------------------------------------------- an upstream error can overtake

  ghost predicate Reachable(s: State) {
    exists states: seq<State>, actions: seq<Action> :: IsRun(states, actions) && states[|actions|] == s
  }

  lemma ReachableNext(s: State, a: Action, s': State)
    requires Reachable(s) && Next(s, a, s')
    ensures Reachable(s')
  {
    var states: seq<State>, actions: seq<Action> :| IsRun(states, actions) && states[|actions|] == s;
    assert IsRun(states + [s'], actions + [a]);
  }

  /** After an upstream error the loop may pick the error before the flows in the channel, which are then never sent. */
  lemma ErrorCanOvertakeFlows()
    ensures exists s :: Reachable(s) && s.consumer == Stopped(ErrorShown) && s.taken != ToForward(s.received)
  {
    var s := State([], 0, Starting, Open, [], [], [], false, false, Selecting, [], [Preamble]);
    var states: seq<State>, actions: seq<Action> := [s], [];
    assert IsRun(states, actions);
    var r := Response(0, [Flow("f")]);
    var s' := OneReceived(s, r);
    var last := s'.(errCh := [], written := [Preamble] + [Failure("gone")], consumer := Stopped(ErrorShown));
    ReachableNext(s', TakeError, last);
    assert [r][..0] == [];
    assert ToForward([r]) == ToForward([]) + Forwarded(EventOf(MaxDropped([]), r));
  }

  lemma OneReceived(s: State, r: Response) returns (s': State)
    requires Reachable(s) && Init(s) && r.flows != [] && r.droppedCount == 0
    ensures s' == s.(received := [r], flowsCh := [Event(0, r.flows)], errCh := ["gone"], producer := Closing, end := UpstreamError)
    ensures Reachable(s')
  {
    var e := Event(0, r.flows);
    var s1 := s.(producer := Receiving);
    var s2 := s1.(received := [r], producer := Sending(e));
    var s3 := s2.(flowsCh := [e], producer := Receiving);
    s' := s3.(errCh := ["gone"], producer := Closing, end := UpstreamError);
    ReachableNext(s, Start, s1);
    ReachableNext(s1, Receive(r), s2);
    ReachableNext(s2, Send, s3);
    ReachableNext(s3, ReceiveError("gone"), s');
  }
}
