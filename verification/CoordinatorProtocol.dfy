/**
 * Many submitters and one writer loop over a refresh coordinator, at the grain of its locked sections and channel
 * operations.
 */
module CoordinatorProtocol {
  import opened Wrappers
  import opened Coordinator
  import Text

  /** A caller between two atomic operations: holding a batch and the snapshot it has read, or about to signal. */
  datatype Caller =
    | Holding(targets: seq<Target>, seen: nat)
    | Signaling
    | Finished

  /** Where the writer loop stands. `force` and `began` are what its refresh covers and when it started. */
  datatype Runner =
    | Stopped
    | Checking
    | Waiting
    | Ready
    | Held(seen: nat)
    | Refreshing(force: nat, began: nat)
    | Refreshed(force: nat, began: nat)
    | Rechecking(force: nat, began: nat, seen: nat)
    | BackingOff

  /**
   * `published` is every snapshot ever current; `accepted` every target whose Submit has been decided to succeed;
   * `requested` and `covered` when each forced request was made and when each successful refresh began.
   */
  datatype State = State(
    core: Core, published: seq<Marks>, callers: seq<Caller>, runner: Runner, now: nat,
    accepted: seq<Target>, requested: seq<nat>, covered: seq<nat>)

  datatype Event =
    | SubmitReads(targets: seq<Target>)
    | SubmitLocks(caller: nat)
    | Request
    | Signals(caller: nat)
    | Starts
    | Stops
    /** The writer loop's next operation; a refresh it runs publishes this snapshot, or fails. */
    | Runs(refresh: Option<Marks>)
    /** Someone else refreshes the manager. */
    | Publishes(current: Marks)

  datatype Limits = Limits(environment: string, capacity: nat)

  function Trimmed(targets: seq<Target>): seq<Target> {
    seq(|targets|, i requires 0 <= i < |targets| => TrimTarget(targets[i]))
  }

  function LockStep(l: Limits, s: State, i: nat): State
    requires i < |s.callers| && s.callers[i].Holding? && s.callers[i].seen < |s.published|
  {
    var caller := s.callers[i];
    var (core, verdict) := SubmitLocked(s.core, l.environment, l.capacity, MergeBatch(caller.targets),
                                        s.published[caller.seen]);
    s.(core := core,
       callers := s.callers[i := if verdict == Merged then Signaling else Finished],
       accepted := if verdict == QueueFull then s.accepted else s.accepted + Trimmed(caller.targets))
  }

  function RunnerStep(l: Limits, s: State, refresh: Option<Marks>): State
    requires s.published != []
  {
    var last := |s.published| - 1;
    match s.runner
    case Checking => s.(runner := if Outstanding(s.core) then Ready else Waiting)
    case Waiting => if s.core.wake then s.(core := s.core.(wake := false), runner := Ready) else s
    case Ready => s.(runner := Held(last))
    case Held(seen) =>
      if seen >= |s.published| then s
      else
        var (core, force) := BeginLocked(s.core, l.environment, s.published[seen]);
        s.(core := core, runner := match force case None => Checking case Some(f) => Refreshing(f, s.now))
    case Refreshing(force, began) =>
      (match refresh
       case None => s.(runner := BackingOff)
       case Some(current) =>
         s.(published := s.published + [current], covered := s.covered + [began], runner := Refreshed(force, began)))
    case Refreshed(force, began) => s.(runner := Rechecking(force, began, last))
    case Rechecking(force, began, seen) =>
      if seen >= |s.published| then s
      else
        var core := FinishLocked(s.core, l.environment, s.published[seen], force);
        s.(core := core, runner := if core.pending == map[] then Checking else BackingOff)
    case BackingOff => s.(runner := Checking)
    case Stopped => s
  }

  function Act(l: Limits, s: State, e: Event): State
    requires s.published != []
  {
    match e
    case SubmitReads(targets) =>
      if ValidBatch(targets) then s.(callers := s.callers + [Holding(targets, |s.published| - 1)]) else s
    case SubmitLocks(i) =>
      if i < |s.callers| && s.callers[i].Holding? && s.callers[i].seen < |s.published| then LockStep(l, s, i) else s
    case Request =>
      s.(core := s.core.(forceRequested := s.core.forceRequested + 1), requested := s.requested + [s.now],
         callers := s.callers + [Signaling])
    case Signals(i) =>
      if i < |s.callers| && s.callers[i].Signaling?
      then s.(core := s.core.(wake := true), callers := s.callers[i := Finished])
      else s
    case Starts => if s.runner.Stopped? then s.(runner := Checking) else s
    case Stops => s.(runner := Stopped)
    case Runs(refresh) => RunnerStep(l, s, refresh)
    case Publishes(current) => s.(published := s.published + [current])
  }

  function Next(l: Limits, s: State, e: Event): State
    requires s.published != []
  {
    Act(l, s, e).(now := s.now + 1)
  }

  // ----- nothing accepted is lost -----

  predicate Dominates(p: Target, t: Target) {
    p.collection == t.collection && p.minRevision >= t.minRevision && p.cursor >= t.cursor
  }

  predicate Pending(pending: map<string, Target>, t: Target) {
    t.collection in pending && Dominates(pending[t.collection], t)
  }

  predicate ReachedOnce(published: seq<Marks>, environment: string, t: Target) {
    exists i :: 0 <= i < |published| && TargetReached(published[i], environment, t)
  }

  /** The target was reached by a published snapshot, or a pending watermark covers it. */
  predicate Owned(l: Limits, published: seq<Marks>, pending: map<string, Target>, t: Target) {
    ReachedOnce(published, l.environment, t) || Pending(pending, t)
  }

  predicate AllOwned(l: Limits, published: seq<Marks>, pending: map<string, Target>, accepted: seq<Target>) {
    forall i :: 0 <= i < |accepted| ==> Owned(l, published, pending, accepted[i])
  }

  lemma {:induction false} BatchDominates(targets: seq<Target>, i: nat)
    requires i < |targets|
    ensures Pending(MergeBatch(targets), TrimTarget(targets[i]))
  {
    hide Text.Trim;
    var n := |targets| - 1;
    if i < n { BatchDominates(targets[..n], i); }
    var before, t := MergeBatch(targets[..n]), TrimTarget(targets[n]);
    BatchKeyed(targets[..n]);
    assert MergeBatch(targets) == before[t.collection := Raise(Lookup(before, t.collection), t)];
  }

  predicate Keyed(targets: map<string, Target>) {
    forall c :: c in targets ==> targets[c].collection == c
  }

  lemma {:induction false} BatchKeyed(targets: seq<Target>)
    ensures Keyed(MergeBatch(targets))
  {
    if targets != [] { BatchKeyed(targets[..|targets| - 1]); }
  }

  /** Clearing what a published snapshot has reached loses nothing. */
  lemma ClearedIsOwned(l: Limits, published: seq<Marks>, seen: nat, pending: map<string, Target>, t: Target)
    requires seen < |published| && Owned(l, published, pending, t)
    ensures Owned(l, published, Unreached(published[seen], l.environment, pending), t)
  {
    if Pending(pending, t) && TargetReached(published[seen], l.environment, pending[t.collection]) {
      assert TargetReached(published[seen], l.environment, t);
    }
  }

  lemma AllCleared(l: Limits, published: seq<Marks>, seen: nat, pending: map<string, Target>, accepted: seq<Target>)
    requires seen < |published| && AllOwned(l, published, pending, accepted)
    ensures AllOwned(l, published, Unreached(published[seen], l.environment, pending), accepted)
  {
    hide Owned;
    forall i | 0 <= i < |accepted|
      ensures Owned(l, published, Unreached(published[seen], l.environment, pending), accepted[i])
    {
      ClearedIsOwned(l, published, seen, pending, accepted[i]);
    }
  }

  lemma MorePublished(l: Limits, published: seq<Marks>, current: Marks, pending: map<string, Target>,
                      accepted: seq<Target>)
    requires AllOwned(l, published, pending, accepted)
    ensures AllOwned(l, published + [current], pending, accepted)
  {
    hide TargetReached;
    forall i | 0 <= i < |accepted| ensures Owned(l, published + [current], pending, accepted[i]) {
      if ReachedOnce(published, l.environment, accepted[i]) {
        var k :| 0 <= k < |published| && TargetReached(published[k], l.environment, accepted[i]);
        assert (published + [current])[k] == published[k];
      }
    }
  }

  /** A target of a batch is reached by the snapshot read, or is among what is left to merge. */
  lemma BatchIsOwned(l: Limits, published: seq<Marks>, seen: nat, targets: seq<Target>, i: nat)
    requires seen < |published| && i < |targets|
    ensures Owned(l, published, Unreached(published[seen], l.environment, MergeBatch(targets)), TrimTarget(targets[i]))
  {
    hide TrimTarget, MergeBatch;
    BatchDominates(targets, i);
    ClearedIsOwned(l, published, seen, MergeBatch(targets), TrimTarget(targets[i]));
  }

  lemma LockOwns(l: Limits, s: State, i: nat)
    requires i < |s.callers| && s.callers[i].Holding? && s.callers[i].seen < |s.published|
    requires AllOwned(l, s.published, s.core.pending, s.accepted)
    ensures var next := LockStep(l, s, i); AllOwned(l, next.published, next.core.pending, next.accepted)
  {
    hide Unreached, MergeBatch, MergeInto, Owned, TrimTarget;
    var next, seen, targets := LockStep(l, s, i), s.callers[i].seen, s.callers[i].targets;
    var rest := Unreached(s.published[seen], l.environment, MergeBatch(targets));
    var cleared := Unreached(s.published[seen], l.environment, s.core.pending);
    AllCleared(l, s.published, seen, s.core.pending, s.accepted);
    BatchKeyed(targets);
    UnreachedKeyed(s.published[seen], l.environment, MergeBatch(targets));
    forall j | 0 <= j < |next.accepted| ensures Owned(l, next.published, next.core.pending, next.accepted[j]) {
      if j < |s.accepted| {
        assert next.accepted[j] == s.accepted[j];
        MergeKeepsOwned(l, s.published, cleared, rest, s.accepted[j]);
      } else {
        assert next.accepted[j] == TrimTarget(targets[j - |s.accepted|]);
        BatchIsOwned(l, s.published, seen, targets, j - |s.accepted|);
        EmptyIsReached(l, s.published, rest, next.core.pending, next.accepted[j]);
        MergeKeepsOwned(l, s.published, cleared, rest, next.accepted[j]);
      }
    }
  }

  lemma MergeKeepsOwned(l: Limits, published: seq<Marks>, pending: map<string, Target>, added: map<string, Target>,
                        t: Target)
    requires Keyed(added)
    ensures Owned(l, published, pending, t) || Owned(l, published, added, t) ==>
              Owned(l, published, MergeInto(pending, added), t)
  {
    hide ReachedOnce;
  }

  lemma UnreachedKeyed(current: Marks, environment: string, targets: map<string, Target>)
    requires Keyed(targets)
    ensures Keyed(Unreached(current, environment, targets))
  {
  }

  lemma EmptyIsReached(l: Limits, published: seq<Marks>, rest: map<string, Target>, pending: map<string, Target>,
                       t: Target)
    ensures rest == map[] && Owned(l, published, rest, t) ==> Owned(l, published, pending, t)
  {
  }

  // ----- capacity -----

  lemma LockFits(l: Limits, s: State, i: nat)
    requires i < |s.callers| && s.callers[i].Holding? && s.callers[i].seen < |s.published|
    requires |s.core.pending| <= l.capacity
    ensures |LockStep(l, s, i).core.pending| <= l.capacity
  {
    hide MergeBatch, TargetReached;
    var current := s.published[s.callers[i].seen];
    var cleared, rest := Unreached(current, l.environment, s.core.pending),
        Unreached(current, l.environment, MergeBatch(s.callers[i].targets));
    UnreachedIsSmaller(current, l.environment, s.core.pending);
    MergedKeys(cleared, rest);
  }

  // ----- forced requests -----

  /** Every one of the first `force` requests was made before time `began`. */
  predicate MadeBefore(requested: seq<nat>, force: nat, began: nat) {
    force <= |requested| && forall k :: 0 <= k < force ==> requested[k] < began
  }

  predicate CoveredAfter(covered: seq<nat>, time: nat) {
    exists r :: 0 <= r < |covered| && covered[r] > time
  }

  predicate ForcedDone(s: State) {
    && s.core.forceRequested == |s.requested| && s.core.forceCompleted <= s.core.forceRequested
    && (forall k :: 0 <= k < |s.requested| ==> s.requested[k] < s.now)
    && (forall k :: 0 <= k < s.core.forceCompleted ==> CoveredAfter(s.covered, s.requested[k]))
  }

  predicate RunnerCovers(s: State) {
    match s.runner
    case Refreshing(force, began) => MadeBefore(s.requested, force, began)
    case Refreshed(force, began) => MadeBefore(s.requested, force, began) && began in s.covered
    case Rechecking(force, began, seen) => MadeBefore(s.requested, force, began) && began in s.covered
                                           && seen < |s.published|
    case Held(seen) => seen < |s.published|
    case _ => true
  }

  // ----- wake-ups -----

  predicate SomeoneSignals(callers: seq<Caller>) {
    exists i :: 0 <= i < |callers| && callers[i].Signaling?
  }

  /** A blocked writer loop with work outstanding has a token to take, or a caller about to leave one. */
  predicate NoLostWakeup(s: State) {
    s.runner.Waiting? && Outstanding(s.core) ==> s.core.wake || SomeoneSignals(s.callers)
  }

  predicate Inv(l: Limits, s: State) {
    && s.published != [] && |s.core.pending| <= l.capacity
    && AllOwned(l, s.published, s.core.pending, s.accepted)
    && ForcedDone(s) && RunnerCovers(s) && NoLostWakeup(s)
    && (forall i :: 0 <= i < |s.callers| && s.callers[i].Holding? ==> s.callers[i].seen < |s.published|)
  }

  predicate Initial(l: Limits, s: State) {
    && s.core == Core(map[], 0, 0, false) && |s.published| == 1 && s.callers == [] && s.runner == Stopped && s.now == 0
    && s.accepted == [] && s.requested == [] && s.covered == []
  }

  lemma LockKeepsInv(l: Limits, s: State, e: Event)
    requires Inv(l, s) && e.SubmitLocks?
    ensures Inv(l, Next(l, s, e))
  {
    hide AllOwned, Unreached, MergeBatch, MergeInto, CoveredAfter, MadeBefore;
    var i := e.caller;
    if i < |s.callers| && s.callers[i].Holding? {
      LockOwns(l, s, i);
      LockFits(l, s, i);
      var next := LockStep(l, s, i);
      if next.callers[i].Signaling? {
        assert SomeoneSignals(next.callers);
      } else {
        LockLeavesLess(l, s, i);
        if SomeoneSignals(s.callers) {
          var j :| 0 <= j < |s.callers| && s.callers[j].Signaling?;
          assert next.callers[j].Signaling?;
        }
      }
    }
  }

  /** A refused or already reached batch adds no work. */
  lemma LockLeavesLess(l: Limits, s: State, i: nat)
    requires i < |s.callers| && s.callers[i].Holding? && s.callers[i].seen < |s.published|
    requires LockStep(l, s, i).callers[i].Finished?
    ensures Outstanding(LockStep(l, s, i).core) ==> Outstanding(s.core)
    ensures LockStep(l, s, i).core == s.core.(pending := LockStep(l, s, i).core.pending)
    ensures LockStep(l, s, i).core.pending == s.core.pending
            || LockStep(l, s, i).core.pending
               == Unreached(s.published[s.callers[i].seen], l.environment, s.core.pending)
  {
    hide MergeBatch, TargetReached;
  }

  lemma CallerKeepsInv(l: Limits, s: State, e: Event)
    requires Inv(l, s) && (e.SubmitReads? || e.Request? || e.Signals? || e.Starts? || e.Stops? || e.Publishes?)
    ensures Inv(l, Next(l, s, e))
  {
    hide AllOwned, CoveredAfter;
    var next := Next(l, s, e);
    if e.Publishes? { MorePublished(l, s.published, e.current, s.core.pending, s.accepted); }
    if e.Request? { assert next.callers[|s.callers|].Signaling?; }
    if e.SubmitReads? && SomeoneSignals(s.callers) {
      var j :| 0 <= j < |s.callers| && s.callers[j].Signaling?;
      assert next.callers[j].Signaling? || next.callers == s.callers;
    }
    forall k | 0 <= k < s.core.forceCompleted ensures CoveredAfter(next.covered, next.requested[k]) {
      assert CoveredAfter(s.covered, s.requested[k]);
    }
  }

  lemma BeginKeepsInv(l: Limits, s: State, e: Event)
    requires Inv(l, s) && e.Runs? && s.runner.Held?
    ensures Inv(l, Next(l, s, e))
  {
    hide AllOwned, CoveredAfter, TargetReached;
    AllCleared(l, s.published, s.runner.seen, s.core.pending, s.accepted);
    UnreachedIsSmaller(s.published[s.runner.seen], l.environment, s.core.pending);
  }

  lemma RefreshKeepsInv(l: Limits, s: State, e: Event)
    requires Inv(l, s) && e.Runs? && s.runner.Refreshing?
    ensures Inv(l, Next(l, s, e))
  {
    hide AllOwned;
    var next := Next(l, s, e);
    if e.refresh.Some? {
      MorePublished(l, s.published, e.refresh.value, s.core.pending, s.accepted);
      assert next.covered[|s.covered|] == s.runner.began;
      forall k | 0 <= k < s.core.forceCompleted ensures CoveredAfter(next.covered, next.requested[k]) {
        assert CoveredAfter(s.covered, s.requested[k]);
        var r :| 0 <= r < |s.covered| && s.covered[r] > s.requested[k];
        assert next.covered[r] == s.covered[r];
      }
    }
  }

  lemma FinishKeepsInv(l: Limits, s: State, e: Event)
    requires Inv(l, s) && e.Runs? && s.runner.Rechecking?
    ensures Inv(l, Next(l, s, e))
  {
    hide AllOwned, TargetReached;
    AllCleared(l, s.published, s.runner.seen, s.core.pending, s.accepted);
    UnreachedIsSmaller(s.published[s.runner.seen], l.environment, s.core.pending);
    var next := Next(l, s, e);
    var r :| 0 <= r < |s.covered| && s.covered[r] == s.runner.began;
    forall k | 0 <= k < next.core.forceCompleted ensures CoveredAfter(next.covered, next.requested[k]) {
      if k < s.core.forceCompleted {
        assert CoveredAfter(s.covered, s.requested[k]);
      } else {
        assert s.covered[r] > s.requested[k];
      }
    }
  }

  lemma RunnerKeepsInv(l: Limits, s: State, e: Event)
    requires Inv(l, s) && e.Runs?
    ensures Inv(l, Next(l, s, e))
  {
    if s.runner.Held? {
      BeginKeepsInv(l, s, e);
    } else if s.runner.Refreshing? {
      RefreshKeepsInv(l, s, e);
    } else if s.runner.Rechecking? {
      FinishKeepsInv(l, s, e);
    } else {
      hide AllOwned, CoveredAfter;
      forall k | 0 <= k < s.core.forceCompleted
        ensures CoveredAfter(Next(l, s, e).covered, Next(l, s, e).requested[k])
      {
        assert CoveredAfter(s.covered, s.requested[k]);
      }
    }
  }

  lemma StepKeepsInv(l: Limits, s: State, e: Event)
    requires Inv(l, s)
    ensures Inv(l, Next(l, s, e))
  {
    hide Inv, Next;
    match e
    case SubmitLocks(_) => LockKeepsInv(l, s, e);
    case Runs(_) => RunnerKeepsInv(l, s, e);
    case _ => CallerKeepsInv(l, s, e);
  }

  /** Any interleaving of submitters, requesters, signals, the writer loop and other publishers. */
  function Run(l: Limits, s: State, events: seq<Event>): (r: State)
    requires Initial(l, s)
    ensures Inv(l, r)
  {
    if events == [] then s
    else
      var before := Run(l, s, events[..|events| - 1]);
      StepKeepsInv(l, before, events[|events| - 1]);
      Next(l, before, events[|events| - 1])
  }

  // ----- what holds of every interleaving -----

  /**
   * No accepted target is lost: a published snapshot has reached it, or a pending watermark still covers it; and the
   * queue never overflows.
   */
  lemma AcceptedIsNeverLost(l: Limits, s: State, events: seq<Event>, i: nat)
    requires Initial(l, s) && i < |Run(l, s, events).accepted|
    ensures var r := Run(l, s, events);
            && Owned(l, r.published, r.core.pending, r.accepted[i])
            && |r.core.pending| <= l.capacity
  {
    hide Next;
    var r := Run(l, s, events);
    assert AllOwned(l, r.published, r.core.pending, r.accepted);
  }

  /** A forced request counts as done only after a refresh that began later than the request has succeeded. */
  lemma ForcedRefreshIsReal(l: Limits, s: State, events: seq<Event>, k: nat) returns (refresh: nat)
    requires Initial(l, s) && k < Run(l, s, events).core.forceCompleted
    ensures k < |Run(l, s, events).requested| && refresh < |Run(l, s, events).covered|
    ensures Run(l, s, events).covered[refresh] > Run(l, s, events).requested[k]
  {
    hide Next;
    var r := Run(l, s, events);
    assert Inv(l, r) && CoveredAfter(r.covered, r.requested[k]);
    refresh :| 0 <= refresh < |r.covered| && r.covered[refresh] > r.requested[k];
  }

  /**
   * The writer loop never sleeps on work that nobody will announce: once no caller is about to signal, the token is
   * there.
   */
  lemma BlockedRunnerIsWoken(l: Limits, s: State, events: seq<Event>)
    requires Initial(l, s) && Run(l, s, events).runner.Waiting? && Outstanding(Run(l, s, events).core)
    requires !SomeoneSignals(Run(l, s, events).callers)
    ensures Next(l, Run(l, s, events), Runs(None)).runner == Ready
  {
    var r := Run(l, s, events);
    assert Inv(l, r);
  }
}
