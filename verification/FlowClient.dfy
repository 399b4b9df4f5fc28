/** The streaming client: batching and reconnecting (client/web/antrea-ui-components/src/lib/flow-stream.ts).

    JavaScript runs one piece of code at a time, so each method here is what runs between two awaits. What resumes a
    connection may come at any time and for any number of connections, which covers the connections that overlap after
    updateFilter. Callbacks are recorded as notices; they do not call the client back. */
module FlowClient {
  import opened Wrappers

  /** What a callback is told. */
  datatype Notice = Flows(batch: seq<Flow>) | Dropped(count: int) | Failed | Connected | Disconnected | AuthError | Disabled

  /** What JSON.parse finds in an event's data. */
  datatype Payload = Payload(flows: seq<Flow>, droppedCount: int)

  datatype Response = Unauthorized | NotImplemented | NotUsable | Usable

  function BatchOf(n: Notice): seq<Flow> {
    if n.Flows? then n.batch else []
  }

  function CountOf(n: Notice): seq<int> {
    if n.Dropped? then [n.count] else []
  }

  function Pow2(k: nat): nat {
    if k == 0 then 1 else 2 * Pow2(k - 1)
  }

  function Delay(attempts: nat): int {
    if 1000 * Pow2(attempts) < 30000 then 1000 * Pow2(attempts) else 30000
  }

  /** Delays double from one second up to sixteen, then stay at thirty. */
  lemma {:induction false} DelayDoubles(k: nat)
    ensures k < 4 ==> Delay(k + 1) == 2 * Delay(k)
    ensures k >= 5 ==> Delay(k) == 30000
    ensures 1000 <= Delay(k) <= Delay(k + 1) <= 30000
    ensures Delay(0) == 1000
    ensures Pow2(k) >= 1 && (k >= 5 ==> Pow2(k) >= 32)
  {
    if k > 5 {
      DelayDoubles(k - 1);
    } else {
      assert Pow2(0) == 1 && Pow2(1) == 2 && Pow2(2) == 4 && Pow2(3) == 8 && Pow2(4) == 16 && Pow2(5) == 32;
    }
  }

  function Delays(n: nat): (delays: seq<int>)
    ensures |delays| == n
  {
    if n == 0 then [] else Delays(n - 1) + [Delay(n - 1)]
  }

  /** The batches delivered, and the buffer behind them, are the flows handled, in order; and no batch is empty. */
  ghost predicate Conserved(notices: seq<Notice>, buffer: seq<Flow>, handled: seq<Flow>) {
    forall p: Seal {:trigger Unlocked(p)} :: p.BatchSeal? && Unlocked(p) ==>
      FlatMap(BatchOf, notices) + buffer == handled && forall n <- notices :: n.Flows? ==> n.batch != []
  }

  lemma ConservedFlush(notices: seq<Notice>, buffer: seq<Flow>, handled: seq<Flow>)
    requires Conserved(notices, buffer, handled)
    ensures Conserved(if buffer == [] then notices else notices + [Flows(buffer)], [], handled)
  {
    assert Unlocked(BatchSeal);
    FlatMapSnoc(BatchOf, notices, Flows(buffer));
  }

  lemma ConservedNotify(notices: seq<Notice>, buffer: seq<Flow>, handled: seq<Flow>, n: Notice)
    requires Conserved(notices, buffer, handled) && !n.Flows?
    ensures Conserved(notices + [n], buffer, handled)
  {
    assert Unlocked(BatchSeal);
    FlatMapSnoc(BatchOf, notices, n);
  }

  lemma ConservedHandle(notices: seq<Notice>, buffer: seq<Flow>, handled: seq<Flow>, more: seq<Flow>)
    requires Conserved(notices, buffer, handled)
    ensures Conserved(notices, buffer + more, handled + more)
  {
    assert Unlocked(BatchSeal);
  }

  /** With an empty buffer, everything handled has been delivered. */
  lemma AllDelivered(notices: seq<Notice>, handled: seq<Flow>)
    requires Conserved(notices, [], handled)
    ensures FlatMap(BatchOf, notices) == handled
  {
    assert Unlocked(BatchSeal);
  }

  lemma NoEmptyBatch(notices: seq<Notice>, buffer: seq<Flow>, handled: seq<Flow>)
    requires Conserved(notices, buffer, handled)
    ensures forall n <- notices :: n.Flows? ==> n.batch != []
  {
    assert Unlocked(BatchSeal);
  }

  /** What the callbacks are told when no attempt is left. */
  function GivingUp(buffer: seq<Flow>): seq<Notice> {
    [Failed] + (if buffer == [] then [] else [Flows(buffer)]) + [Disconnected]
  }

  class FlowStreamClient {
    const maxReconnectAttempts: int

    var batchBuffer: seq<Flow>
    var batchTimer: Option<nat>
    var reconnectTimer: Option<nat>
    var reconnectAttempts: nat
    var running: bool

    /** The host's intervals and timeouts that are set and not cleared. */
    var intervals: set<nat>
    var timeouts: set<nat>
    var nextTimer: nat

    /** All callbacks so far; all flows of the flow events handled so far; how often the stream was requested; and the
        delays scheduled since attempts were last counted from zero. */
    ghost var notices: seq<Notice>
    ghost var handled: seq<Flow>
    ghost var connects: nat
    ghost var delays: seq<int>

    /** What no interleaving breaks: no flow is lost, doubled or reordered, no batch is empty, the batch timer runs exactly
        while the client does, and reconnects are bounded and paced. */
    ghost predicate Valid()
      reads this
    {
      && Conserved(notices, batchBuffer, handled)
      && (running <==> batchTimer.Some?)
      && intervals == (if batchTimer.Some? then {batchTimer.value} else {})
      && (forall id <- intervals :: id < nextTimer)
      && (forall id <- timeouts :: id < nextTimer)
      && delays == Delays(reconnectAttempts)
      && (reconnectAttempts == 0 || reconnectAttempts <= maxReconnectAttempts)
    }

    constructor (maxReconnectAttempts: int)
      ensures Valid() && !running && notices == [] && handled == [] && connects == 0 && timeouts == {}
      ensures this.maxReconnectAttempts == maxReconnectAttempts
    {
      this.maxReconnectAttempts := maxReconnectAttempts;
      batchBuffer, batchTimer, reconnectTimer, reconnectAttempts, running := [], None, None, 0, false;
      intervals, timeouts, nextTimer := {}, {}, 0;
      notices, handled, connects, delays := [], [], 0, [];
      assert FlatMap(BatchOf, []) == [];
    }

    /** Calls a callback that is not onFlows. */
    ghost method Notify(n: Notice)
      requires Valid() && !n.Flows?
      modifies `notices
      ensures Valid() && notices == old(notices) + [n]
    {
      ConservedNotify(notices, batchBuffer, handled, n);
      notices := notices + [n];
    }

    method FlushBatch()
      requires Valid()
      modifies `batchBuffer, `notices
      ensures Valid() && batchBuffer == []
      ensures notices == old(notices) + if old(batchBuffer) == [] then [] else [Flows(old(batchBuffer))]
    {
      ConservedFlush(notices, batchBuffer, handled);
      if batchBuffer == [] {
        return;
      }
      var batch := batchBuffer;
      batchBuffer := [];
      notices := notices + [Flows(batch)];
    }

    method StartBatchTimer()
      requires nextTimer !in intervals
      modifies `batchTimer, `intervals, `nextTimer
      ensures batchTimer == Some(old(nextTimer)) && intervals == old(intervals) + {old(nextTimer)} && nextTimer == old(nextTimer) + 1
    {
      batchTimer, intervals, nextTimer := Some(nextTimer), intervals + {nextTimer}, nextTimer + 1;
    }

    method StopBatchTimer()
      modifies `batchTimer, `intervals
      ensures batchTimer == None
      ensures intervals == old(intervals) - if old(batchTimer).Some? then {old(batchTimer).value} else {}
    {
      if batchTimer.Some? {
        intervals, batchTimer := intervals - {batchTimer.value}, None;
      }
    }

    method ClearReconnectTimer()
      modifies `reconnectTimer, `timeouts
      ensures reconnectTimer == None
      ensures timeouts == old(timeouts) - if old(reconnectTimer).Some? then {old(reconnectTimer).value} else {}
    {
      if reconnectTimer.Some? {
        timeouts, reconnectTimer := timeouts - {reconnectTimer.value}, None;
      }
    }

    /** connect, up to its fetch. */
    method Connect()
      requires Valid()
      modifies `connects
      ensures Valid() && connects == old(connects) + if running then 1 else 0
    {
      if !running {
        return;
      }
      connects := connects + 1;
    }

    method Start()
      requires Valid()
      modifies `running, `reconnectAttempts, `batchTimer, `intervals, `nextTimer, `connects, `delays
      ensures Valid() && running
      ensures old(running) ==> unchanged(this)
      ensures !old(running) ==> reconnectAttempts == 0 && connects == old(connects) + 1
    {
      if running {
        return;
      }
      running := true;
      reconnectAttempts, delays := 0, [];
      StartBatchTimer();
      Connect();
    }

    /** Everything handled so far has been delivered when stop returns. */
    method Stop()
      requires Valid()
      modifies `running, `batchTimer, `intervals, `reconnectTimer, `timeouts, `batchBuffer, `notices
      ensures Valid() && !running && batchBuffer == [] && intervals == {}
      ensures FlatMap(BatchOf, notices) == handled
      ensures timeouts == old(timeouts) - if old(reconnectTimer).Some? then {old(reconnectTimer).value} else {}
      ensures reconnectTimer == None
      ensures notices == old(notices) + (if old(batchBuffer) == [] then [] else [Flows(old(batchBuffer))]) + [Disconnected]
    {
      running := false;
      StopBatchTimer();
      ClearReconnectTimer();
      FlushBatch();
      Notify(Disconnected);
      AllDelivered(notices, handled);
    }

    /** The buffer is flushed before it is dropped, so a change of filter loses nothing. */
    method UpdateFilter()
      requires Valid()
      modifies this
      ensures Valid() && handled == old(handled)
      ensures !old(running) ==> unchanged(this)
      ensures old(running) ==> running && batchBuffer == [] && reconnectAttempts == 0
                               && connects == old(connects) + 1 && reconnectTimer == None
                               && timeouts == old(timeouts) - if old(reconnectTimer).Some? then {old(reconnectTimer).value} else {}
      ensures old(running) ==> notices == old(notices) + if old(batchBuffer) == [] then [] else [Flows(old(batchBuffer))]
    {
      if running {
        Renew();
      }
    }

    method Renew()
      requires Valid() && running
      modifies `reconnectTimer, `timeouts, `batchBuffer, `notices, `reconnectAttempts, `connects, `delays
      ensures Valid() && batchBuffer == [] && reconnectAttempts == 0
      ensures connects == old(connects) + 1 && reconnectTimer == None
      ensures timeouts == old(timeouts) - if old(reconnectTimer).Some? then {old(reconnectTimer).value} else {}
      ensures notices == old(notices) + if old(batchBuffer) == [] then [] else [Flows(old(batchBuffer))]
    {
      ClearReconnectTimer();
      FlushBatch();
      batchBuffer := [];
      reconnectAttempts, delays := 0, [];
      Connect();
    }

    /** connect, after fetch: running tells whether the read loop goes on. */
    method OnResponse(r: Response)
      requires Valid()
      modifies this
      ensures Valid() && handled == old(handled)
      ensures r.Unauthorized? || r.NotImplemented? ==>
                !running && intervals == {} && reconnectAttempts == old(reconnectAttempts) && timeouts == old(timeouts)
                && notices == old(notices) + [if r.Unauthorized? then AuthError else Disabled, Disconnected]
      ensures r.Usable? ==>
                reconnectAttempts == 0 && running == old(running) && notices == old(notices) + [Connected] && timeouts == old(timeouts)
      ensures r.NotUsable? && !old(running) ==> unchanged(this)
      ensures r.NotUsable? && old(running) ==>
                && notices == old(notices) + [Failed, Disconnected] + (if running then [] else GivingUp(old(batchBuffer)))
                && Rescheduled(old(running), old(reconnectAttempts), old(nextTimer), old(timeouts), old(reconnectTimer))
    {
      match r
      case Unauthorized =>
        running := false;
        StopBatchTimer();
        Notify(AuthError);
        Notify(Disconnected);
      case NotImplemented =>
        running := false;
        StopBatchTimer();
        Notify(Disabled);
        Notify(Disconnected);
      case NotUsable =>
        OnFailure(false);
      case Usable =>
        reconnectAttempts, delays := 0, [];
        Notify(Connected);
    }

    /** handleSSEEvent; the payload is None where JSON.parse throws. */
    method HandleSSEEvent(eventType: string, payload: Option<Payload>)
      requires Valid()
      modifies `batchBuffer, `notices, `handled
      ensures Valid()
      ensures handled == old(handled) + if eventType == "flow" && payload.Some? then payload.value.flows else []
      ensures payload.None? || eventType !in {"dropped", "error"} ==> notices == old(notices)
      ensures eventType == "error" && payload.Some? ==> notices == old(notices) + [Failed]
      ensures eventType == "dropped" && payload.Some? ==> notices == old(notices) + [Dropped(payload.value.droppedCount)]
    {
      if payload.Some? {
        ConservedHandle(notices, batchBuffer, handled, payload.value.flows);
        if eventType == "flow" {
          if payload.value.flows != [] {
            batchBuffer := batchBuffer + payload.value.flows;
          }
          handled := handled + payload.value.flows;
        } else if eventType == "dropped" {
          Notify(Dropped(payload.value.droppedCount));
        } else if eventType == "error" {
          Notify(Failed);
        }
      }
    }

    /** The stream ends, or fails: the rest of connect. */
    method OnEnd()
      requires Valid()
      modifies this
      ensures Valid() && handled == old(handled) && connects == old(connects)
      ensures !old(running) ==> !running && notices == old(notices) + [Disconnected] && timeouts == old(timeouts)
      ensures old(running) ==>
                && notices == old(notices) + [Disconnected] + (if running then [] else GivingUp(old(batchBuffer)))
                && Rescheduled(old(running), old(reconnectAttempts), old(nextTimer), old(timeouts), old(reconnectTimer))
    {
      Notify(Disconnected);
      if running {
        ScheduleReconnect();
      }
    }

    method OnFailure(aborted: bool)
      requires Valid()
      modifies this
      ensures Valid() && handled == old(handled) && connects == old(connects)
      ensures !old(running) || aborted ==> unchanged(this)
      ensures old(running) && !aborted ==>
                && notices == old(notices) + [Failed, Disconnected] + (if running then [] else GivingUp(old(batchBuffer)))
                && Rescheduled(old(running), old(reconnectAttempts), old(nextTimer), old(timeouts), old(reconnectTimer))
    {
      if !running || aborted {
        return;
      }
      Notify(Failed);
      OnEnd();
    }

    /** One more timeout, with the next delay, while attempts are left; otherwise the client has stopped. */
    ghost predicate Rescheduled(wasRunning: bool, attempts: nat, timer: nat, pending: set<nat>, handle: Option<nat>)
      reads this
    {
      && running == (wasRunning && attempts < maxReconnectAttempts)
      && (running ==>
            && reconnectAttempts == attempts + 1
            && timeouts == pending + {timer} && reconnectTimer == Some(timer))
      && (!running ==>
            && reconnectAttempts == attempts
            && timeouts == pending - (if handle.Some? then {handle.value} else {})
            && batchBuffer == [])
    }

    method ScheduleReconnect()
      requires Valid() && running
      modifies this
      ensures Valid() && handled == old(handled) && connects == old(connects)
      ensures Rescheduled(old(running), old(reconnectAttempts), old(nextTimer), old(timeouts), old(reconnectTimer))
      ensures notices == old(notices) + if running then [] else GivingUp(old(batchBuffer))
    {
      if reconnectAttempts >= maxReconnectAttempts {
        Notify(Failed);
        Stop();
        return;
      }
      var delay := Delay(reconnectAttempts);
      delays := delays + [delay];
      reconnectAttempts := reconnectAttempts + 1;
      reconnectTimer, timeouts, nextTimer := Some(nextTimer), timeouts + {nextTimer}, nextTimer + 1;
    }

    /** A reconnect timeout fires. */
    method OnTimeout(id: nat)
      requires Valid() && id in timeouts
      modifies `timeouts, `connects
      ensures Valid() && timeouts == old(timeouts) - {id}
      ensures connects == old(connects) + if running then 1 else 0
    {
      timeouts := timeouts - {id};
      Connect();
    }

    /** The batch interval fires. */
    method OnInterval()
      requires Valid() && batchTimer.Some?
      modifies `batchBuffer, `notices
      ensures Valid() && batchBuffer == []
      ensures notices == old(notices) + if old(batchBuffer) == [] then [] else [Flows(old(batchBuffer))]
    {
      FlushBatch();
    }

    /** The batch interval fires any number of times. */
    method OnIntervals()
      requires Valid() && batchTimer.Some?
      modifies `batchBuffer, `notices
      ensures Valid() && FlatMap(CountOf, notices) == old(FlatMap(CountOf, notices))
    {
      var ticks: nat :| ticks >= 0;
      for tick := 0 to ticks
        invariant Valid() && FlatMap(CountOf, notices) == old(FlatMap(CountOf, notices))
      {
        ghost var before := notices;
        FlatMapSnoc(CountOf, before, Flows(batchBuffer));
        OnInterval();
        assert before + [] == before;
      }
    }

    /** A started client whose every request fails makes maxReconnectAttempts + 1 of them, after delays of 1, 2, 4, 8, 16 and
        then 30 seconds, and stops for good: nothing is left that could wake it. Batches may fall due at any time between. */
    method StartAndAlwaysFail()
      requires Valid() && !running && timeouts == {}
      modifies this
      ensures Valid() && !running && timeouts == {} && intervals == {}
      ensures connects == old(connects) + 1 + |delays|
      ensures delays == Delays(if maxReconnectAttempts < 0 then 0 else maxReconnectAttempts)
      ensures handled == old(handled) && FlatMap(BatchOf, notices) == handled
    {
      Start();
      OnIntervals();
      OnFailure(false);
      while running
        invariant Valid() && handled == old(handled)
        invariant connects == old(connects) + 1 + if running then reconnectAttempts - 1 else reconnectAttempts
        invariant running ==> 0 < reconnectAttempts && reconnectTimer.Some? && timeouts == {reconnectTimer.value}
        invariant !running ==> timeouts == {} && batchBuffer == [] && reconnectAttempts >= maxReconnectAttempts
        decreases maxReconnectAttempts - reconnectAttempts, running
      {
        OnIntervals();
        OnTimeout(reconnectTimer.value);
        OnIntervals();
        OnFailure(false);
      }
      AllDelivered(notices, handled);
    }
  }
}
