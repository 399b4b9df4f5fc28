/** The flow stream from one end to the other: what the Flow Aggregator sends (FlowPipeline), written as server-sent events,
    cut by the network, and read by the browser's parser (SseParser). */
module EndToEnd {
  import opened Wrappers
  import C = FlowClient
  import P = FlowPipeline
  import S = SseParser

  /** json.Marshal, as far as the stream depends on it: one line of text that is not empty and does not begin with a space. */
  ghost predicate OneLineJson(encode: P.Out -> string) {
    forall o :: S.OneLine(encode(o)) && encode(o) != "" && encode(o)[0] != ' '
  }

  function EventType(o: P.Out): string {
    match o
    case Dropped(_) => "dropped"
    case Flows(_) => "flow"
    case _ => "error"
  }

  /** How StreamFlows writes it. */
  function Written(encode: P.Out -> string, o: P.Out): S.Written {
    match o
    case Preamble => S.PREAMBLE
    case KeepAliveComment => S.KEEPALIVE
    case _ => S.Message(EventType(o), encode(o))
  }

  function AsWritten(encode: P.Out -> string, outs: seq<P.Out>): seq<S.Written> {
    FlatMap(o => [Written(encode, o)], outs)
  }

  /** The event the browser should see for it. */
  function Seen(encode: P.Out -> string, o: P.Out): seq<S.SseEvent> {
    S.Sent(Written(encode, o))
  }

  function AllSeen(encode: P.Out -> string, outs: seq<P.Out>): seq<S.SseEvent> {
    FlatMap(o => Seen(encode, o), outs)
  }

  /** Events that are not the final error. */
  function DataEvents(e: S.SseEvent): seq<S.SseEvent> {
    if e.eventType == "error" then [] else [e]
  }

  /** All that the browser should see of the responses received: their batches and dropped counts, in order. */
  function Expected(encode: P.Out -> string, received: seq<P.Response>): seq<S.SseEvent> {
    AllSeen(encode, FlatMap(P.Emitted, P.ToForward(received)))
  }

  // ---------------------------------------------------------------- what is written can be read

  lemma WrittenIsReadable(encode: P.Out -> string, o: P.Out)
    requires OneLineJson(encode)
    ensures S.Plain(Written(encode, o)) && S.ReadsBack(Written(encode, o))
  {
    if o.Preamble? || o.KeepAliveComment? {
      S.ServerCommentsArePlain();
    } else {
      assert S.OneLine(encode(o));
      TypesArePlain(o);
    }
  }

  lemma TypesArePlain(o: P.Out)
    ensures S.OneLine(EventType(o)) && S.IsTrimmed(EventType(o))
  {
  }

  lemma {:induction false} AllReadable(encode: P.Out -> string, outs: seq<P.Out>)
    requires OneLineJson(encode)
    ensures forall w | w in AsWritten(encode, outs) :: S.Plain(w) && S.ReadsBack(w)
    ensures FlatMap(S.Sent, AsWritten(encode, outs)) == AllSeen(encode, outs)
  {
    if outs != [] {
      var init, last := outs[..|outs| - 1], outs[|outs| - 1];
      AllReadable(encode, init);
      WrittenIsReadable(encode, last);
      assert AsWritten(encode, outs) == AsWritten(encode, init) + [Written(encode, last)];
      FlatMapSnoc(S.Sent, AsWritten(encode, init), Written(encode, last));
    }
  }

  // ---------------------------------------------------------------- comments and the final error aside

  lemma OnlyErrorsAreErrors(o: P.Out)
    ensures EventType(o) == "error" <==> !o.Dropped? && !o.Flows?
  {
    match o
    case Dropped(_) => assert EventType(o)[0] == 'd';
    case Flows(_) => assert EventType(o)[0] == 'f';
    case _ =>
  }

  lemma DataOfOne(encode: P.Out -> string, o: P.Out)
    ensures FlatMap(DataEvents, Seen(encode, o)) == AllSeen(encode, P.IsContent(o))
  {
    if !o.Preamble? && !o.KeepAliveComment? {
      var e := S.SseEvent(EventType(o), encode(o));
      assert Seen(encode, o) == [e];
      FlatMapOne(DataEvents, e);
      OnlyErrorsAreErrors(o);
      FlatMapOne(x => Seen(encode, x), o);
    }
  }

  lemma DataOfSeen(encode: P.Out -> string, outs: seq<P.Out>)
    ensures FlatMap(DataEvents, AllSeen(encode, outs)) == AllSeen(encode, FlatMap(P.IsContent, outs))
  {
    var h := o => AllSeen(encode, P.IsContent(o));
    forall o <- outs {
      DataOfOne(encode, o);
    }
    FlatMapTwice(DataEvents, o => Seen(encode, o), h, outs);
    FlatMapTwice(o => Seen(encode, o), P.IsContent, h, outs);
  }

  // ---------------------------------------------------------------- the events of one type

  /** The data of an event, if it is of this type. */
  function DataIf(eventType: string, e: S.SseEvent): seq<string> {
    if e.eventType == eventType then [e.data] else []
  }

  function DataOfType(eventType: string, events: seq<S.SseEvent>): seq<string> {
    FlatMap(e => DataIf(eventType, e), events)
  }

  /** The counts, and the batches, as the server encodes them. */
  function EncodedCounts(encode: P.Out -> string, counts: seq<nat>): seq<string> {
    FlatMap((count: nat) => [encode(P.Dropped(count))], counts)
  }

  function EncodedBatches(encode: P.Out -> string, batches: seq<seq<Flow>>): seq<string> {
    FlatMap((flows: seq<Flow>) => [encode(P.Flows(flows))], batches)
  }

  lemma TypesDiffer()
    ensures "dropped" != "flow" && "dropped" != "error" && "flow" != "error"
  {
    assert "dropped"[0] == 'd' && "error"[0] == 'e' && "flow"[0] == 'f';
  }

  lemma DataIfSeen(encode: P.Out -> string, o: P.Out)
    ensures DataOfType("dropped", Seen(encode, o)) == EncodedCounts(encode, P.OutCount(o))
    ensures DataOfType("flow", Seen(encode, o)) == EncodedBatches(encode, P.OutBatch(o))
  {
    TypesDiffer();
    if !o.Preamble? && !o.KeepAliveComment? {
      var e := S.SseEvent(EventType(o), encode(o));
      FlatMapOne(x => DataIf("dropped", x), e);
      FlatMapOne(x => DataIf("flow", x), e);
      if o.Dropped? { FlatMapOne((count: nat) => [encode(P.Dropped(count))], o.count); }
      if o.Flows? { FlatMapOne((flows: seq<Flow>) => [encode(P.Flows(flows))], o.flows); }
    }
  }

  /** Of what is to be seen, the "dropped" events are the counts written and the "flow" events the batches. */
  lemma DataOfAllSeen(encode: P.Out -> string, outs: seq<P.Out>)
    ensures DataOfType("dropped", AllSeen(encode, outs)) == EncodedCounts(encode, FlatMap(P.OutCount, outs))
    ensures DataOfType("flow", AllSeen(encode, outs)) == EncodedBatches(encode, FlatMap(P.OutBatch, outs))
  {
    forall o <- outs {
      DataIfSeen(encode, o);
    }
    var counts := o => EncodedCounts(encode, P.OutCount(o));
    FlatMapTwice(e => DataIf("dropped", e), o => Seen(encode, o), counts, outs);
    FlatMapTwice((count: nat) => [encode(P.Dropped(count))], P.OutCount, counts, outs);
    var batches := o => EncodedBatches(encode, P.OutBatch(o));
    FlatMapTwice(e => DataIf("flow", e), o => Seen(encode, o), batches, outs);
    FlatMapTwice((flows: seq<Flow>) => [encode(P.Flows(flows))], P.OutBatch, batches, outs);
  }

  // ---------------------------------------------------------------- the result

  /** In every run of the pipeline, however the network cuts what is written: the "dropped" events that the browser has seen
      at any time are the first of the rising counts of what the aggregator sent, and the "flow" events the first of its
      batches that are not empty, in order and nothing else; and what it has seen besides errors is the first of the events
      there are to see. */
  lemma BrowserSeesWhatAggregatorSent(encode: P.Out -> string, states: seq<P.State>, actions: seq<P.Action>, k: nat, chunks: seq<string>)
    requires OneLineJson(encode) && P.IsRun(states, actions) && k <= |actions|
    requires S.Concat(chunks) <= S.Wire(AsWritten(encode, states[k].written))
    ensures var events, received := S.Feed(chunks).events, states[k].received;
            && DataOfType("dropped", events) <= EncodedCounts(encode, P.Counts(P.ToForward(received)))
            && DataOfType("flow", events) <= EncodedBatches(encode, FlatMap(P.Batch, received))
            && FlatMap(DataEvents, events) <= Expected(encode, received)
  {
    var s, events := states[k], S.Feed(chunks).events;
    P.RunInv(states, actions, k);
    P.DeliveredInOrder(states, actions, k);
    AllReadable(encode, s.written);
    S.ClientReadsWhatServerWrites(AsWritten(encode, s.written), chunks);
    WrittenIsExpected(encode, s);
    FlatMapPrefix(DataEvents, events, AllSeen(encode, s.written));
    TypedIsSent(encode, s, events);
  }

  /** What the server has written of the responses received, comments and a final error aside, is the first part of what
      there is to see. */
  lemma WrittenIsExpected(encode: P.Out -> string, s: P.State)
    requires P.Written(s) && s.taken <= P.ToForward(s.received)
    ensures FlatMap(DataEvents, AllSeen(encode, s.written)) <= Expected(encode, s.received)
    ensures s.taken == P.ToForward(s.received) ==>
              FlatMap(DataEvents, AllSeen(encode, s.written)) == Expected(encode, s.received)
  {
    DataOfSeen(encode, s.written);
    FlatMapPrefix(P.Emitted, s.taken, P.ToForward(s.received));
    FlatMapPrefix(x => Seen(encode, x), FlatMap(P.Emitted, s.taken), FlatMap(P.Emitted, P.ToForward(s.received)));
  }

  lemma TypedIsSent(encode: P.Out -> string, s: P.State, events: seq<S.SseEvent>)
    requires events <= AllSeen(encode, s.written) && s.taken <= P.ToForward(s.received)
    requires FlatMap(P.OutCount, s.written) == P.Counts(s.taken) && FlatMap(P.OutBatch, s.written) == FlatMap(P.EventBatch, s.taken)
    ensures DataOfType("dropped", events) <= EncodedCounts(encode, P.Counts(P.ToForward(s.received)))
    ensures DataOfType("flow", events) <= EncodedBatches(encode, FlatMap(P.Batch, s.received))
    ensures events == AllSeen(encode, s.written) && s.taken == P.ToForward(s.received) ==>
              && DataOfType("dropped", events) == EncodedCounts(encode, P.Counts(P.ToForward(s.received)))
              && DataOfType("flow", events) == EncodedBatches(encode, FlatMap(P.Batch, s.received))
  {
    P.ToForwardIs(s.received);
    DataOfAllSeen(encode, s.written);
    FlatMapPrefix(e => DataIf("dropped", e), events, AllSeen(encode, s.written));
    FlatMapPrefix(e => DataIf("flow", e), events, AllSeen(encode, s.written));
    FlatMapPrefix(P.EventCount, s.taken, P.ToForward(s.received));
    FlatMapPrefix(P.EventBatch, s.taken, P.ToForward(s.received));
    FlatMapPrefix((count: nat) => [encode(P.Dropped(count))], P.Counts(s.taken), P.Counts(P.ToForward(s.received)));
    FlatMapPrefix((flows: seq<Flow>) => [encode(P.Flows(flows))], FlatMap(P.EventBatch, s.taken), FlatMap(P.Batch, s.received));
  }

  /** The handler has drained the channel without a cancellation, and all it wrote has arrived. */
  ghost predicate AllArrived(encode: P.Out -> string, s: P.State, chunks: seq<string>) {
    s.consumer == P.Stopped(P.Drained) && !s.cancelled && S.Concat(chunks) == S.Wire(AsWritten(encode, s.written))
  }

  /** And all of them, with nothing left in its buffer, once the handler has returned after draining the channel without a
      cancellation, and everything written has arrived. */
  lemma BrowserSeesEverythingDrained(encode: P.Out -> string, states: seq<P.State>, actions: seq<P.Action>, k: nat, chunks: seq<string>)
    requires OneLineJson(encode) && P.IsRun(states, actions) && k <= |actions|
    requires AllArrived(encode, states[k], chunks)
    ensures var events, received := S.Feed(chunks).events, states[k].received;
            && DataOfType("dropped", events) == EncodedCounts(encode, P.Counts(P.ToForward(received)))
            && DataOfType("flow", events) == EncodedBatches(encode, FlatMap(P.Batch, received))
            && FlatMap(DataEvents, events) == Expected(encode, received)
    ensures S.Feed(chunks).remaining == ""
  {
    var s := states[k];
    P.RunInv(states, actions, k);
    P.DeliveredInOrder(states, actions, k);
    P.TakenIsAllExactlyWhen(s);
    AllReadable(encode, s.written);
    S.ClientReadsWhatServerWrites(AsWritten(encode, s.written), chunks);
    WrittenIsExpected(encode, s);
    TypedIsSent(encode, s, S.Feed(chunks).events);
  }

  // ---------------------------------------------------------------- what the client makes of it

  /** JSON.parse reads the batch of a flow event back, record by record, and the count of a dropped event. */
  ghost predicate ReadsBack(encode: P.Out -> string, decode: string -> Option<C.Payload>) {
    && (forall flows :: var p := decode(encode(P.Flows(flows))); p.Some? && p.value.flows == flows)
    && (forall count: nat :: var p := decode(encode(P.Dropped(count))); p.Some? && p.value.droppedCount == count)
  }

  function FlowsIn(decode: string -> Option<C.Payload>, data: string): seq<Flow> {
    if decode(data).Some? then decode(data).value.flows else []
  }

  function CountIn(decode: string -> Option<C.Payload>, data: string): seq<int> {
    if decode(data).Some? then [decode(data).value.droppedCount] else []
  }

  /** The flows that the client handles on these events, and the counts it tells. */
  function AllHeard(decode: string -> Option<C.Payload>, events: seq<S.SseEvent>): seq<Flow> {
    FlatMap(data => FlowsIn(decode, data), DataOfType("flow", events))
  }

  function AllTold(decode: string -> Option<C.Payload>, events: seq<S.SseEvent>): seq<int> {
    FlatMap(data => CountIn(decode, data), DataOfType("dropped", events))
  }

  lemma HeardConcat(decode: string -> Option<C.Payload>, a: seq<S.SseEvent>, b: seq<S.SseEvent>)
    ensures AllHeard(decode, a + b) == AllHeard(decode, a) + AllHeard(decode, b)
    ensures AllTold(decode, a + b) == AllTold(decode, a) + AllTold(decode, b)
  {
    FlatMapConcat(e => DataIf("flow", e), a, b);
    FlatMapConcat(e => DataIf("dropped", e), a, b);
    FlatMapConcat(data => FlowsIn(decode, data), DataOfType("flow", a), DataOfType("flow", b));
    FlatMapConcat(data => CountIn(decode, data), DataOfType("dropped", a), DataOfType("dropped", b));
  }

  lemma HeardOne(decode: string -> Option<C.Payload>, e: S.SseEvent)
    ensures AllHeard(decode, [e]) == if e.eventType == "flow" then FlowsIn(decode, e.data) else []
    ensures AllTold(decode, [e]) == if e.eventType == "dropped" then CountIn(decode, e.data) else []
  {
    FlatMapOne(x => DataIf("flow", x), e);
    FlatMapOne(x => DataIf("dropped", x), e);
    FlatMapOne(data => FlowsIn(decode, data), e.data);
    FlatMapOne(data => CountIn(decode, data), e.data);
  }

  /** The batches received, one after another. */
  function Sent(received: seq<P.Response>): seq<Flow> {
    FlatMap((r: P.Response) => r.flows, received)
  }

  lemma BatchesReadBack(encode: P.Out -> string, decode: string -> Option<C.Payload>, received: seq<P.Response>)
    requires ReadsBack(encode, decode)
    ensures FlatMap(data => FlowsIn(decode, data), EncodedBatches(encode, FlatMap(P.Batch, received))) == Sent(received)
  {
    var whole := (flows: seq<Flow>) => flows;
    var batches := FlatMap(P.Batch, received);
    forall flows <- batches
      ensures FlatMap(data => FlowsIn(decode, data), [encode(P.Flows(flows))]) == flows
    {
      FlatMapOne(data => FlowsIn(decode, data), encode(P.Flows(flows)));
    }
    FlatMapTwice(data => FlowsIn(decode, data), (flows: seq<Flow>) => [encode(P.Flows(flows))], whole, batches);
    forall r <- received
      ensures FlatMap(whole, P.Batch(r)) == r.flows
    {
      FlatMapOne(whole, r.flows);
    }
    FlatMapTwice(whole, P.Batch, (r: P.Response) => r.flows, received);
  }

  lemma {:induction false} CountsReadBack(encode: P.Out -> string, decode: string -> Option<C.Payload>, counts: seq<nat>)
    requires ReadsBack(encode, decode)
    ensures FlatMap(data => CountIn(decode, data), EncodedCounts(encode, counts)) == counts
  {
    if counts != [] {
      var init, last := counts[..|counts| - 1], counts[|counts| - 1];
      CountsReadBack(encode, decode, init);
      FlatMapSnoc(data => CountIn(decode, data), EncodedCounts(encode, init), encode(P.Dropped(last)));
    }
  }

  /** In every run and for every chunking, the flows that the client is to handle are at any time the first of those the
      aggregator sent, and the counts it is to tell the first of the rising ones; and all of them, once the channel was drained
      without a cancellation and everything written has arrived. */
  lemma HeardIsSent(encode: P.Out -> string, decode: string -> Option<C.Payload>,
                    states: seq<P.State>, actions: seq<P.Action>, k: nat, chunks: seq<string>)
    requires OneLineJson(encode) && ReadsBack(encode, decode) && P.IsRun(states, actions) && k <= |actions|
    requires S.Concat(chunks) <= S.Wire(AsWritten(encode, states[k].written))
    ensures var events, received := S.Feed(chunks).events, states[k].received;
            && AllHeard(decode, events) <= Sent(received)
            && AllTold(decode, events) <= P.Counts(P.ToForward(received))
            && (AllArrived(encode, states[k], chunks) ==>
                  AllHeard(decode, events) == Sent(received) && AllTold(decode, events) == P.Counts(P.ToForward(received)))
  {
    var events, received := S.Feed(chunks).events, states[k].received;
    BrowserSeesWhatAggregatorSent(encode, states, actions, k, chunks);
    FlatMapPrefix(data => FlowsIn(decode, data), DataOfType("flow", events), EncodedBatches(encode, FlatMap(P.Batch, received)));
    FlatMapPrefix(data => CountIn(decode, data), DataOfType("dropped", events), EncodedCounts(encode, P.Counts(P.ToForward(received))));
    BatchesReadBack(encode, decode, received);
    CountsReadBack(encode, decode, P.Counts(P.ToForward(received)));
    if AllArrived(encode, states[k], chunks) {
      BrowserSeesEverythingDrained(encode, states, actions, k, chunks);
    }
  }

  lemma ThenMore<T>(before: seq<T>, some: seq<T>, more: seq<T>)
    ensures before + some + more == before + (some + more)
  {
  }

  /** for (const event of parsed) this.handleSSEEvent(event). */
  method HandleAll(client: C.FlowStreamClient, decode: string -> Option<C.Payload>, events: seq<S.SseEvent>)
    requires client.Valid()
    modifies client`batchBuffer, client`notices, client`handled
    ensures client.Valid() && client.handled == old(client.handled) + AllHeard(decode, events)
    ensures FlatMap(C.CountOf, client.notices) == old(FlatMap(C.CountOf, client.notices)) + AllTold(decode, events)
  {
    for k := 0 to |events|
      invariant client.Valid() && client.handled == old(client.handled) + AllHeard(decode, events[..k])
      invariant FlatMap(C.CountOf, client.notices) == old(FlatMap(C.CountOf, client.notices)) + AllTold(decode, events[..k])
    {
      assert events[..k + 1] == events[..k] + [events[k]];
      HeardConcat(decode, events[..k], [events[k]]);
      HandleOne(client, decode, events[k]);
      ThenMore(old(client.handled), AllHeard(decode, events[..k]), AllHeard(decode, [events[k]]));
      ThenMore(old(FlatMap(C.CountOf, client.notices)), AllTold(decode, events[..k]), AllTold(decode, [events[k]]));
    }
    assert events[..|events|] == events;
  }

  method HandleOne(client: C.FlowStreamClient, decode: string -> Option<C.Payload>, e: S.SseEvent)
    requires client.Valid()
    modifies client`batchBuffer, client`notices, client`handled
    ensures client.Valid() && client.handled == old(client.handled) + AllHeard(decode, [e])
    ensures FlatMap(C.CountOf, client.notices) == old(FlatMap(C.CountOf, client.notices)) + AllTold(decode, [e])
  {
    HeardOne(decode, e);
    TypesDiffer();
    ghost var before := client.notices;
    client.HandleSSEEvent(e.eventType, decode(e.data));
    if client.notices != before {
      FlatMapSnoc(C.CountOf, before, client.notices[|before|]);
    }
  }

  /** One turn of the read loop of connect while the client runs: at the await, the batch interval may fire any number of
      times. */
  method ReadChunk(client: C.FlowStreamClient, decode: string -> Option<C.Payload>, buffer: string, chunk: string)
    returns (remaining: string)
    requires client.Valid() && client.running
    modifies client`batchBuffer, client`notices, client`handled
    ensures client.Valid() && remaining == S.Parse(buffer + chunk).remaining
    ensures client.handled == old(client.handled) + AllHeard(decode, S.Parse(buffer + chunk).events)
    ensures FlatMap(C.CountOf, client.notices) ==
            old(FlatMap(C.CountOf, client.notices)) + AllTold(decode, S.Parse(buffer + chunk).events)
  {
    client.OnIntervals();
    var parsed;
    parsed, remaining := S.ParseSSEBuffer(buffer + chunk);
    HandleAll(client, decode, parsed);
  }

  /** The flows to handle and the counts to tell in the first k chunks, and the text then held back. */
  ghost predicate FedUpTo(decode: string -> Option<C.Payload>, chunks: seq<string>, k: nat, heard: seq<Flow>, told: seq<int>,
                          buffer: string)
    requires k <= |chunks|
  {
    var fed := S.Feed(chunks[..k]);
    heard == AllHeard(decode, fed.events) && told == AllTold(decode, fed.events) && buffer == fed.remaining
  }

  lemma FedOneMore(decode: string -> Option<C.Payload>, chunks: seq<string>, k: nat, heard: seq<Flow>, told: seq<int>, buffer: string)
    requires k < |chunks| && FedUpTo(decode, chunks, k, heard, told, buffer)
    ensures var p := S.Parse(buffer + chunks[k]);
            FedUpTo(decode, chunks, k + 1, heard + AllHeard(decode, p.events), told + AllTold(decode, p.events), p.remaining)
  {
    assert chunks[..k + 1][..k] == chunks[..k];
    HeardConcat(decode, S.Feed(chunks[..k]).events, S.Parse(buffer + chunks[k]).events);
  }

  /** The read loop of connect. */
  method ReadStream(client: C.FlowStreamClient, decode: string -> Option<C.Payload>, chunks: seq<string>)
    requires client.Valid() && client.running
    modifies client`batchBuffer, client`notices, client`handled
    ensures client.Valid() && client.handled == old(client.handled) + AllHeard(decode, S.Feed(chunks).events)
    ensures FlatMap(C.CountOf, client.notices) == old(FlatMap(C.CountOf, client.notices)) + AllTold(decode, S.Feed(chunks).events)
  {
    var buffer := "";
    ghost var heard, told := [], [];
    for k := 0 to |chunks|
      invariant client.Valid() && client.handled == old(client.handled) + heard
      invariant FlatMap(C.CountOf, client.notices) == old(FlatMap(C.CountOf, client.notices)) + told
      invariant FedUpTo(decode, chunks, k, heard, told, buffer)
    {
      ghost var events := S.Parse(buffer + chunks[k]).events;
      ghost var more, moreTold := AllHeard(decode, events), AllTold(decode, events);
      FedOneMore(decode, chunks, k, heard, told, buffer);
      buffer := ReadChunk(client, decode, buffer, chunks[k]);
      ThenMore(old(client.handled), heard, more);
      ThenMore(old(FlatMap(C.CountOf, client.notices)), told, moreTold);
      heard, told := heard + more, told + moreTold;
    }
    assert chunks[..|chunks|] == chunks;
    client.OnIntervals();
  }

  /** From the aggregator to the callbacks: a client that reads what the server has written and is then stopped has given
      onFlows, in batches none of which is empty, exactly the first of the flows that the aggregator sent, in order, and
      onDropped the first of its rising counts; and all of them if all has arrived. What they were given before is there as
      well, before them. */
  method ReadAndStop(client: C.FlowStreamClient, encode: P.Out -> string, decode: string -> Option<C.Payload>,
                     ghost states: seq<P.State>, ghost actions: seq<P.Action>, ghost k: nat, chunks: seq<string>)
    returns (ghost delivered: seq<Flow>, ghost told: seq<int>)
    requires client.Valid() && client.running
    requires OneLineJson(encode) && ReadsBack(encode, decode) && P.IsRun(states, actions) && k <= |actions|
    requires S.Concat(chunks) <= S.Wire(AsWritten(encode, states[k].written))
    modifies client
    ensures client.Valid() && !client.running
    ensures FlatMap(C.BatchOf, client.notices) == old(client.handled) + delivered
    ensures forall n <- client.notices :: n.Flows? ==> n.batch != []
    ensures FlatMap(C.CountOf, client.notices) == old(FlatMap(C.CountOf, client.notices)) + told
    ensures delivered <= Sent(states[k].received) && told <= P.Counts(P.ToForward(states[k].received))
    ensures AllArrived(encode, states[k], chunks) ==>
              delivered == Sent(states[k].received) && told == P.Counts(P.ToForward(states[k].received))
  {
    var events := S.Feed(chunks).events;
    delivered, told := AllHeard(decode, events), AllTold(decode, events);
    HeardIsSent(encode, decode, states, actions, k, chunks);
    ReadStream(client, decode, chunks);
    StopTellsNoCount(client);
    C.NoEmptyBatch(client.notices, client.batchBuffer, client.handled);
  }

  method StopTellsNoCount(client: C.FlowStreamClient)
    requires client.Valid()
    modifies client
    ensures client.Valid() && !client.running && client.handled == old(client.handled)
    ensures FlatMap(C.BatchOf, client.notices) == client.handled
    ensures FlatMap(C.CountOf, client.notices) == old(FlatMap(C.CountOf, client.notices))
  {
    ghost var before, flushed := client.notices, if client.batchBuffer == [] then [] else [C.Flows(client.batchBuffer)];
    client.Stop();
    FlatMapConcat(C.CountOf, before, flushed);
    if flushed != [] { FlatMapOne(C.CountOf, flushed[0]); }
    FlatMapSnoc(C.CountOf, before + flushed, C.Disconnected);
  }
}
