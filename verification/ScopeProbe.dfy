/** The cluster-scope probe: whether a namespace that should hold no RoleBindings still holds none, rechecked on every event
    there and once at start-up (pkg/handlers/access/handler.go).

    Two threads recheck: the informer's event handler, which handles one event at a time, and Run. The RoleBindings may
    change between any two steps of either. A recheck lists and stores under one lock, but as two steps. */
module ScopeProbe {
  import opened Wrappers

  datatype Thread = Handler | Runner

  datatype Pc =
    | Syncing           // Run, until the informer has synced
    | Publishing        // Run, holding the lock to set lister and synced
    | Idle
    | Wanting           // about to recheck
    | Holding           // has the lock
    | Listed(empty: bool)
    | Finished          // Run, after its own recheck

  datatype State = State(
    bindings: set<string>,   // the RoleBindings of the probe namespace in the informer's index
    pending: nat,            // events of that namespace not yet handed to the handler, counted from the change itself
    lock: Option<Thread>,
    synced: bool,            // Run has set lister and synced
    usable: bool,
    handler: Pc,
    runner: Pc,
    missed: bool)            // the last recheck failed to list, and by that left a wrong answer standing

  datatype Action =
    | Change(bindings: set<string>)   // or a resync, which leaves them as they are
    | Deliver
    | Sync
    | Publish
    | Acquire(t: Thread)
    | GiveUp                          // the handler finds no lister yet
    | List(t: Thread)
    | ListFails(t: Thread)
    | Store(t: Thread)

  function PcOf(s: State, t: Thread): Pc {
    if t.Handler? then s.handler else s.runner
  }

  function At(s: State, t: Thread, pc: Pc): State {
    if t.Handler? then s.(handler := pc) else s.(runner := pc)
  }

  function Done(t: Thread): Pc {
    if t.Handler? then Idle else Finished
  }

  ghost predicate Init(s: State) {
    s.pending == 0 && s.lock.None? && !s.synced && s.usable && s.handler.Idle? && s.runner.Syncing? && !s.missed
  }

  ghost predicate Next(s: State, a: Action, s': State) {
    match a
    case Change(bindings) => s' == s.(bindings := bindings, pending := s.pending + 1)
    case Deliver => s.pending > 0 && s.handler.Idle? && s' == s.(pending := s.pending - 1, handler := Wanting)
    case Sync => s.runner.Syncing? && s.lock.None? && s' == s.(runner := Publishing, lock := Some(Runner))
    case Publish => s.runner.Publishing? && s' == s.(synced := true, runner := Wanting, lock := None)
    case Acquire(t) => PcOf(s, t).Wanting? && s.lock.None? && s' == At(s, t, Holding).(lock := Some(t))
    case GiveUp => s.handler.Holding? && !s.synced && s' == s.(handler := Idle, lock := None)
    case List(t) => PcOf(s, t).Holding? && s.synced && s' == At(s, t, Listed(s.bindings == {}))
    case ListFails(t) => PcOf(s, t).Holding? && s.synced && s' == At(s, t, Done(t)).(lock := None, missed := s.usable != (s.bindings == {}))
    case Store(t) =>
      PcOf(s, t).Listed? && s' == At(s, t, Done(t)).(usable := PcOf(s, t).empty, lock := None, missed := false)
  }

  ghost predicate IsRun(states: seq<State>, actions: seq<Action>) {
    && |states| == |actions| + 1
    && Init(states[0])
    && forall k | 0 <= k < |actions| :: Next(states[k], actions[k], states[k + 1])
  }

  /** ClusterScopeProbeUsable. */
  function ClusterScopeProbeUsable(s: State): bool {
    if !s.synced then true else s.usable
  }

  /** No event of the probe namespace is pending, and no recheck is under way or still to come at start-up. */
  predicate Quiescent(s: State) {
    s.synced && s.pending == 0 && s.handler.Idle? && s.runner.Finished?
  }

  // ---------------------------------------------------------------- the invariant

  predicate Inside(pc: Pc) {
    pc.Publishing? || pc.Holding? || pc.Listed?
  }

  /** This thread is still going to list. */
  predicate WillList(s: State, t: Thread) {
    var pc := PcOf(s, t);
    pc.Syncing? || pc.Publishing? || pc.Wanting? || pc.Holding?
  }

  function Other(t: Thread): Thread {
    if t.Handler? then Runner else Handler
  }

  predicate LockHeld(s: State) {
    && (s.lock == Some(Handler) <==> Inside(s.handler))
    && (s.lock == Some(Runner) <==> Inside(s.runner))
    && !s.handler.Syncing? && !s.handler.Publishing? && !s.handler.Finished? && !s.runner.Idle?
    && (s.synced <==> !s.runner.Syncing? && !s.runner.Publishing?)
  }

  /** What a thread has listed is what there is, unless somebody lists after it. */
  predicate ListedIsCurrent(s: State, t: Thread) {
    PcOf(s, t).Listed? ==> PcOf(s, t).empty == (s.bindings == {}) || s.pending > 0 || WillList(s, Other(t))
  }

  /** With nobody in between listing and storing, what is stored is what there is, unless somebody still lists. */
  predicate StoredIsCurrent(s: State) {
    !s.handler.Listed? && !s.runner.Listed? ==>
      || (s.usable == (s.bindings == {}) <==> !s.missed)
      || s.pending > 0 || WillList(s, Handler) || WillList(s, Runner)
  }

  predicate Inv(s: State) {
    LockHeld(s) && ListedIsCurrent(s, Handler) && ListedIsCurrent(s, Runner) && StoredIsCurrent(s)
  }

  lemma InvNext(s: State, a: Action, s': State)
    requires Inv(s) && Next(s, a, s')
    ensures Inv(s')
  {
  }

  lemma {:induction false} RunInv(states: seq<State>, actions: seq<Action>, k: nat)
    requires IsRun(states, actions) && k <= |actions|
    ensures Inv(states[k])
  {
    if k > 0 {
      RunInv(states, actions, k - 1);
      InvNext(states[k - 1], actions[k - 1], states[k]);
    }
  }

  /** Whatever the interleaving: once the informer has synced, Run has done its own recheck and no event is pending, the
      probe reports usable exactly when its namespace holds no RoleBindings, if and only if the last recheck did not miss a
      change by failing to list. */
  lemma QuiescentConsistentExactlyWhen(states: seq<State>, actions: seq<Action>, k: nat)
    requires IsRun(states, actions) && k <= |actions| && Quiescent(states[k])
    ensures (ClusterScopeProbeUsable(states[k]) <==> states[k].bindings == {}) <==> !states[k].missed
  {
    RunInv(states, actions, k);
  }

  /** As long as listing does not fail, that is always: over all interleavings. */
  lemma QuiescentIsConsistent(states: seq<State>, actions: seq<Action>, k: nat)
    requires IsRun(states, actions) && k <= |actions| && Quiescent(states[k])
    requires forall j | 0 <= j < k :: !actions[j].ListFails?
    ensures ClusterScopeProbeUsable(states[k]) <==> states[k].bindings == {}
  {
    QuiescentConsistentExactlyWhen(states, actions, k);
    NothingMissed(states, actions, k);
  }

  lemma {:induction false} NothingMissed(states: seq<State>, actions: seq<Action>, k: nat)
    requires IsRun(states, actions) && k <= |actions|
    requires forall j | 0 <= j < k :: !actions[j].ListFails?
    ensures !states[k].missed
  {
    if k > 0 {
      NothingMissed(states, actions, k - 1);
      assert Next(states[k - 1], actions[k - 1], states[k]);
    }
  }

  /** Until then, a recheck that is owed is never lost: a wrong answer has an event pending or a thread on its way to
      listing, unless a listing failed on it. */
  lemma StaleMeansRecheckOwed(states: seq<State>, actions: seq<Action>, k: nat)
    requires IsRun(states, actions) && k <= |actions| && states[k].lock.None? && states[k].synced
    requires ClusterScopeProbeUsable(states[k]) != (states[k].bindings == {})
    ensures states[k].pending > 0 || states[k].handler.Wanting? || states[k].runner.Wanting? || states[k].missed
  {
    RunInv(states, actions, k);
  }

  // ---------------------------------------------------------------- a listing that fails

  ghost predicate Reachable(s: State) {
    exists states: seq<State>, actions: seq<Action> :: IsRun(states, actions) && states[|actions|] == s
  }

  lemma ReachableNext(s: State, a: Action, s': State)
    requires Reachable(s) && Next(s, a, s')
    ensures Reachable(s')
  {
    var states: seq<State>, actions: seq<Action> :| IsRun(states, actions) && states[|actions|] == s;
    assert IsRun(states + [s'], actions + [a]);
  }

  /** A failed listing leaves a stale answer with nothing pending that would correct it. */
  lemma FailedListingLeavesStaleAnswer()
    ensures exists s :: Reachable(s) && Quiescent(s) && ClusterScopeProbeUsable(s) && s.bindings != {}
  {
    var s0 := State({"admin"}, 0, None, false, true, Idle, Syncing, false);
    var states: seq<State>, actions: seq<Action> := [s0], [];
    assert IsRun(states, actions);
    var s1 := s0.(runner := Publishing, lock := Some(Runner));
    var s2 := s1.(synced := true, runner := Wanting, lock := None);
    var s3 := s2.(runner := Holding, lock := Some(Runner));
    var s4 := s3.(runner := Finished, lock := None, missed := true);
    ReachableNext(s0, Sync, s1);
    ReachableNext(s1, Publish, s2);
    ReachableNext(s2, Acquire(Runner), s3);
    ReachableNext(s3, ListFails(Runner), s4);
    assert "admin" in s4.bindings;
  }
}
