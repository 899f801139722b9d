/** An order can be completed exactly when each of its steps allows it. */
module Completable {
  import opened Wrappers
  import opened Template
  import opened Effects
  import opened OrderState
  import opened Lifecycle
  import opened World
  import opened Rollback
  import opened ReleaseRun
  import opened RollbackRun
  import opened RolloutRun
  import opened Reach
  import opened FinalRun
  import opened CompensationRun
  import opened Completion
  import Text

  // ----- a step that was made was allowed -----

  lemma NotDecided(first: System, now: System, overlay: bool)
    requires Running(first, now, overlay) && now.order.steps[now.order.currentStep].effect.None?
    requires now.order.steps[now.order.currentStep].definition.Type() in {FinalType(overlay), PercentRollout}
    ensures now.world.records == first.world.records && (overlay ==> now.world == first.world)
  {
    NotDecidedYet(now.order, overlay);
  }

  lemma SameItemsDeleted(first: System, now: System)
    requires now.order.items == first.order.items && now.world.records == first.world.records
    ensures (forall i :: 0 <= i < |now.order.items| ==> !DeletesBase(AuthorityOf(now.world), now.order.items[i]))
            <==> (forall i :: 0 <= i < |first.order.items| ==>
                    !DeletesBase(AuthorityOf(first.world), first.order.items[i]))
  {
  }

  lemma PercentWasAllowed(first: System, now: System, c: Command, at: int, newRevision: nat)
    requires Running(first, now, false) && Dispatch(now, c, at, newRevision).Success? && c.action == ExecuteAction
    requires now.order.steps[now.order.currentStep].definition.Type() == PercentRollout
    ensures StepAllows(first, false, now.order.currentStep)
  {
    hide Standing, ValidSteps, ExecutePercentRollout, ApplyEffect, WellFormedItem, DeletesBase, Dispatch;
    var o, w, n := now.order, now.world, now.order.currentStep;
    PercentNext(now, c, at, newRevision);
    CurrentHasNoEffect(o);
    NotDecided(first, now, false);
    SameSteps(first.order, o, false, n);
    SliceWellFormed(o, n);
    PercentStepStored(o, w, newRevision, c.actor, at);
    SameItemsDeleted(first, now);
  }

  lemma OverlayWasAllowed(first: System, now: System, c: Command, at: int, newRevision: nat)
    requires Running(first, now, true) && Dispatch(now, c, at, newRevision).Success? && c.action == ExecuteAction
    requires now.order.steps[now.order.currentStep].definition.Type() == OverlayApply
    ensures StepAllows(first, true, now.order.currentStep)
  {
    hide Standing, ValidSteps, ExecuteOverlay, ApplyEffect, RecordEffect, WellFormedItem, Storing;
    var o, w, n := now.order, now.world, now.order.currentStep;
    var r := ExecuteOverlay(o, AuthorityOf(w), newRevision, c.actor, at);
    assert Dispatch(now, c, at, newRevision) == Configure(now, r);
    assert r.Success? && ApplyEffect(r.value.1, w).Success?;
    ExecutedOverlay(o, AuthorityOf(w), newRevision, c.actor, at);
    CurrentHasNoEffect(o);
    NotDecided(first, now, true);
    SameSteps(first.order, o, true, n);
    OverlayStepStored(o, w, newRevision, c.actor, at);
  }

  lemma CreatedStartsRollout(first: System)
    requires JustCreated(first, false)
    ensures RolloutStart(first) && CreatedHere(first) && PositiveTargets(first)
  {
  }

  lemma BaseRan(o: Order, a: Authority, newRevision: nat, actor: string, at: int)
    requires WellFormedOrder(o) && ExecuteBase(o, a, newRevision, actor, at).Success?
    ensures AtStep(o, BaseApply, Pending) && !Text.Blank(actor) && at != ZERO_TIME && a.revision < newRevision
  {
  }

  lemma BaseWasAllowed(first: System, requests: seq<Request>, c: Command, at: int, newRevision: nat)
    requires JustCreated(first, false) && ServeAll(first, requests).order.status == InProgress
    requires Dispatch(ServeAll(first, requests), c, at, newRevision).Success? && c.action == ExecuteAction
    requires var o := ServeAll(first, requests).order; o.steps[o.currentStep].definition.Type() == BaseApply
    ensures var n := ServeAll(first, requests).order.currentStep;
            n < |first.order.steps| && StepAllows(first, false, n)
  {
    hide ServeAll, Standing, ValidSteps, ExecuteBase, ApplyEffect, RecordEffect, WellFormedItem, CreatedHere,
         NeedsChange, SlicesBefore, Shape;
    var now := ServeAll(first, requests);
    RunIsRunning(first, requests, false);
    ShapeGives(now.order);
    var o, w, n := now.order, now.world, now.order.currentStep;
    var r := ExecuteBase(o, AuthorityOf(w), newRevision, c.actor, at);
    assert Dispatch(now, c, at, newRevision) == Configure(now, r);
    assert r.Success? && ApplyEffect(r.value.1, w).Success?;
    BaseRan(o, AuthorityOf(w), newRevision, c.actor, at);
    CreatedStartsRollout(first);
    BaseStepEnabled(first, requests, newRevision, c.actor, at);
    EarlierSettled(o);
    SlicesExactly(o.steps, n);
    SameSteps(first.order, o, false, n);
  }

  lemma EarlierSettled(o: Order)
    requires Shape(o) && o.status == InProgress
    ensures forall i :: 0 <= i < o.currentStep ==> Settled(o.steps[i])
  {
  }

  lemma CompareRan(s: System, c: Command, at: int, newRevision: nat)
    requires Shape(s.order) && s.order.status == InProgress && Dispatch(s, c, at, newRevision).Success?
    requires c.action == ExecuteAction
    requires s.order.steps[s.order.currentStep].definition.Type() == Compare
    ensures AtStep(s.order, Compare, Pending) && c.expectedRevision == s.order.revision && !Text.Blank(c.actor)
    ensures at != ZERO_TIME
    ensures var next := Dispatch(s, c, at, newRevision).value.system.order;
            && next.currentStep == s.order.currentStep && |next.steps| == |s.order.steps|
            && next.status == InProgress && next.items == s.order.items
            && next.steps[next.currentStep].status
               == (if Dispatch(s, c, at, newRevision).value.matched then Executed else Pending)
  {
  }

  lemma CompareWasAllowed(first: System, requests: seq<Request>, overlay: bool, c: Command, at: int, newRevision: nat)
    requires JustCreated(first, overlay) && ServeAll(first, requests).order.status == InProgress
    requires var now := ServeAll(first, requests);
             && Dispatch(now, c, at, newRevision).Success? && c.action == ExecuteAction
             && now.order.steps[now.order.currentStep].definition.Type() == Compare
             && Dispatch(now, c, at, newRevision).value.matched
    ensures var n := ServeAll(first, requests).order.currentStep;
            n < |first.order.steps| && StepAllows(first, overlay, n)
  {
    hide ServeAll, Dispatch, Standing, ValidSteps, AgreesAt, SeesNoDifference, CreatedHere;
    var now := ServeAll(first, requests);
    RunIsRunning(first, requests, overlay);
    CompareRan(now, c, at, newRevision);
    ComparisonExactly(now, c, at, newRevision);
    ComparisonToldFromStart(first, requests, overlay);
  }

  /** A review that was approved asked for some role. */
  lemma ReviewWasAllowed(s: System, c: Command, at: int, newRevision: nat)
    requires Shape(s.order) && s.order.status == InProgress && c.action == ApproveAction
    requires Dispatch(s, c, at, newRevision).Success?
    ensures s.order.steps[s.order.currentStep].definition.Type() == ManualReview
    ensures s.order.steps[s.order.currentStep].definition.requiredRoles != []
  {
  }

  lemma CompleteWasAllowed(s: System, c: Command, at: int, newRevision: nat)
    requires Shape(s.order) && s.order.status == InProgress && Dispatch(s, c, at, newRevision).Success?
    requires c.action == ExecuteAction
    requires s.order.steps[s.order.currentStep].definition.Type() == Complete
    ensures s.order.currentStep > 0 && s.order.steps[s.order.currentStep - 1].definition.Type() != ManualReview
    ensures Dispatch(s, c, at, newRevision).value.system.order.status == Succeeded
    ensures s.order.steps[s.order.currentStep].status == Pending
  {
    if s.order.currentStep > 0 { assert Settled(s.order.steps[s.order.currentStep - 1]); }
  }

  // ----- whatever a run has done was allowed -----

  ghost predicate AllowedUpTo(first: System, overlay: bool, n: nat)
    requires WellFormedOrder(first.order) && n <= |first.order.steps|
  {
    forall k :: 0 <= k < n ==> StepAllows(first, overlay, k)
  }

  lemma AllowedOneMore(first: System, overlay: bool, n: nat)
    requires WellFormedOrder(first.order) && n < |first.order.steps|
    requires AllowedUpTo(first, overlay, n) && StepAllows(first, overlay, n)
    ensures AllowedUpTo(first, overlay, n + 1)
  {
  }

  /** Reviewing and moving on: which commands finish a step. */
  lemma DecisionDone(s: System, c: Command, at: int, newRevision: nat)
    requires Shape(s.order) && s.order.status == InProgress && Dispatch(s, c, at, newRevision).Success?
    requires c.action in {AdvanceAction, ApproveAction, RejectAction}
    ensures var o, next := s.order, Dispatch(s, c, at, newRevision).value.system.order;
            && next.currentStep < |next.steps| && next.status != Succeeded
            && (next.status == InProgress && c.action != ApproveAction ==> DoneSteps(next) == DoneSteps(o))
            && (c.action == ApproveAction ==> DoneSteps(o) == o.currentStep && DoneSteps(next) == o.currentStep + 1)
  {
  }

  lemma ReviewStarted(s: System, c: Command, at: int, newRevision: nat)
    requires Shape(s.order) && s.order.status == InProgress && Dispatch(s, c, at, newRevision).Success?
    requires c.action == ExecuteAction
    requires s.order.steps[s.order.currentStep].definition.Type() == ManualReview
    ensures var o, next := s.order, Dispatch(s, c, at, newRevision).value.system.order;
            next.currentStep < |next.steps| && next.status == InProgress && DoneSteps(next) == DoneSteps(o)
  {
  }

  lemma CompleteIsLast(o: Order, overlay: bool, n: nat)
    requires Compiled(o, overlay) && n < |o.steps| && o.steps[n].definition.Type() == Complete
    ensures n == |o.steps| - 1
  {
    var defs := Definitions(o.steps);
    assert defs[n].Type() == Complete;
    CountAtLeast(defs, Complete, n);
  }

  lemma ExecutedWasAllowed(first: System, requests: seq<Request>, overlay: bool, r: Request)
    requires JustCreated(first, overlay) && ServeAll(first, requests).order.status == InProgress
    requires r.command.action == ExecuteAction
    requires Dispatch(ServeAll(first, requests), r.command, r.now, r.newRevision).Success?
    requires var now := ServeAll(first, requests);
             var next := Dispatch(now, r.command, r.now, r.newRevision).value.system.order;
             next.status == Succeeded || (next.currentStep < |next.steps| && DoneSteps(next) > DoneSteps(now.order))
    ensures var o := ServeAll(first, requests).order;
            && |first.order.steps| == |o.steps| && DoneSteps(o) == o.currentStep
            && StepAllows(first, overlay, o.currentStep)
    ensures var o, next := ServeAll(first, requests).order,
                           Dispatch(ServeAll(first, requests), r.command, r.now, r.newRevision).value.system.order;
            if next.status == Succeeded then o.currentStep == |o.steps| - 1
            else next.status == InProgress && next.currentStep < |next.steps| && DoneSteps(next) == o.currentStep + 1
  {
    hide ServeAll, Dispatch, Standing, ValidSteps, StepAllows, CreatedHere;
    var now, c := ServeAll(first, requests), r.command;
    RunIsRunning(first, requests, overlay);
    var o, n := now.order, now.order.currentStep;
    NoOtherFinal(o, overlay, n);
    match o.steps[n].definition.Type() {
      case PercentRollout =>
        ConfiguredDone(now, c, r.now, r.newRevision);
        StaysOpen(now, c, r.now, r.newRevision);
        PercentWasAllowed(first, now, c, r.now, r.newRevision);
      case OverlayApply =>
        ConfiguredDone(now, c, r.now, r.newRevision);
        StaysOpen(now, c, r.now, r.newRevision);
        OverlayWasAllowed(first, now, c, r.now, r.newRevision);
      case BaseApply =>
        ConfiguredDone(now, c, r.now, r.newRevision);
        StaysOpen(now, c, r.now, r.newRevision);
        BaseWasAllowed(first, requests, c, r.now, r.newRevision);
      case Compare =>
        CompareRan(now, c, r.now, r.newRevision);
        CompareWasAllowed(first, requests, overlay, c, r.now, r.newRevision);
      case ManualReview =>
        ReviewStarted(now, c, r.now, r.newRevision);
      case Complete =>
        CompleteWasAllowed(now, c, r.now, r.newRevision);
        CompleteIsLast(o, overlay, n);
        SameSteps(first.order, o, overlay, n);
        CompletesWhen(first, overlay, n);
    }
  }

  lemma CompletesWhen(first: System, overlay: bool, n: nat)
    requires WellFormedOrder(first.order) && 0 < n < |first.order.steps|
    requires first.order.steps[n].definition.Type() == Complete
    requires first.order.steps[n - 1].definition.Type() != ManualReview
    ensures StepAllows(first, overlay, n)
  {
  }

  lemma ReviewAllows(first: System, overlay: bool, n: nat)
    requires WellFormedOrder(first.order) && n < |first.order.steps|
    requires first.order.steps[n].definition.Type() == ManualReview
    ensures StepAllows(first, overlay, n) <==> first.order.steps[n].definition.requiredRoles != []
  {
  }

  /** The part of a run's steps that is known to have been allowed. */
  ghost predicate AllowedSoFar(first: System, overlay: bool, o: Order)
    requires WellFormedOrder(first.order)
  {
    && |o.steps| == |first.order.steps| && o.currentStep < |o.steps|
    && (o.status == InProgress ==> AllowedUpTo(first, overlay, DoneSteps(o)))
    && (o.status == Succeeded ==> AllowedUpTo(first, overlay, |o.steps|))
  }

  lemma CommandKeepsAllowed(first: System, requests: seq<Request>, overlay: bool, r: Request)
    requires JustCreated(first, overlay) && ServeAll(first, requests).order.status == InProgress
    requires AllowedSoFar(first, overlay, ServeAll(first, requests).order)
    requires Dispatch(ServeAll(first, requests), r.command, r.now, r.newRevision).Success?
    ensures AllowedSoFar(first, overlay, Dispatch(ServeAll(first, requests), r.command, r.now,
                                                  r.newRevision).value.system.order)
  {
    hide ServeAll, Dispatch, Standing, ValidSteps, StepAllows, CreatedHere, AllowedUpTo;
    var now, c := ServeAll(first, requests), r.command;
    RunIsRunning(first, requests, overlay);
    DispatchIsOneOp(now, c, r.now, r.newRevision);
    DispatchKeepsIdentity(now, c, r.now, r.newRevision);
    var o, next := now.order, Dispatch(now, c, r.now, r.newRevision).value.system.order;
    var n := o.currentStep;
    SameSteps(first.order, o, overlay, n);
    if c.action == RollbackAction {
      RollbackIdentity(now, c, r.now, r.newRevision);
    } else if c.action == ExecuteAction {
      if next.status == Succeeded || DoneSteps(next) > DoneSteps(o) {
        ExecutedWasAllowed(first, requests, overlay, r);
        AllowedOneMore(first, overlay, n);
      } else {
        StillAllowed(first, overlay, DoneSteps(o), DoneSteps(next));
      }
    } else {
      DecisionDone(now, c, r.now, r.newRevision);
      if c.action == ApproveAction {
        ReviewWasAllowed(now, c, r.now, r.newRevision);
        ReviewAllows(first, overlay, n);
        AllowedOneMore(first, overlay, n);
      }
    }
  }

  lemma StillAllowed(first: System, overlay: bool, n: nat, m: nat)
    requires WellFormedOrder(first.order) && m <= n <= |first.order.steps| && AllowedUpTo(first, overlay, n)
    ensures AllowedUpTo(first, overlay, m)
  {
  }

  lemma {:induction false} RunWasAllowed(first: System, requests: seq<Request>, overlay: bool)
    requires JustCreated(first, overlay)
    ensures AllowedSoFar(first, overlay, ServeAll(first, requests).order)
  {
    hide Dispatch, AllowedUpTo, CreatedHere, ValidSteps;
    if requests == [] {
      NothingDone(first, overlay);
    } else {
      var before, r := ServeAll(first, requests[..|requests| - 1]), requests[|requests| - 1];
      RunWasAllowed(first, requests[..|requests| - 1], overlay);
      if Dispatch(before, r.command, r.now, r.newRevision).Success? {
        StartedStatus(before, r.command, r.now, r.newRevision);
        CommandKeepsAllowed(first, requests[..|requests| - 1], overlay, r);
      }
    }
  }

  lemma NothingDone(first: System, overlay: bool)
    requires JustCreated(first, overlay)
    ensures DoneSteps(first.order) == 0 && AllowedUpTo(first, overlay, 0) && first.order.status == InProgress
  {
  }

  // ----- a step that is allowed can be made -----

  ghost predicate CanFinish(first: System, overlay: bool)
    requires WellFormedOrder(first.order)
  {
    AllowedUpTo(first, overlay, |first.order.steps|)
  }

  const ACTOR := "a"

  lemma ActorNamed()
    ensures !Text.Blank(ACTOR)
  {
    assert !Text.IsSpace(ACTOR[0]);
  }

  /** A command by some actor, at the order's revision, with the next configuration revision. */
  function Ask(now: System, action: Action, actor: string, roles: seq<string>): Request {
    Request(Do(now.order, action, actor, roles), 1, now.world.revision + 1)
  }

  /** The current step has been made. */
  ghost predicate Made(before: System, after: System) {
    && after.order.status == InProgress
    && after.order.currentStep == before.order.currentStep < |after.order.steps| == |before.order.steps|
    && after.order.steps[after.order.currentStep].status in {Executed, Approved}
  }

  lemma StoredIsMade(now: System, r: Result<(Order, Envelope), Error>, actor: string, at: int)
    requires WellFormedOrder(now.order) && now.order.status == InProgress
    requires r.Success? && ApplyEffect(r.value.1, now.world).Success?
    requires r.value.0 == RecordEffect(now.order, r.value.1, actor, at)
    ensures Configure(now, r).Success? && Made(now, Configure(now, r).value.system)
  {
    hide ApplyEffect;
  }

  lemma PendingAt(o: Order, t: StepType)
    requires WellFormedOrder(o) && o.status == InProgress && o.steps[o.currentStep].status == Pending
    requires o.steps[o.currentStep].definition.Type() == t
    ensures AtStep(o, t, Pending)
  {
  }

  lemma TargetsCurrent(first: System)
    requires JustCreated(first, false)
    ensures ItemsCurrent(first.order.items, first.world)
  {
    hide View, WellFormedItem;
    forall i | 0 <= i < |first.order.items|
      ensures var item := first.order.items[i];
              && item.expectedCollectionRevision == first.world.revision
              && BaseUnchanged(item, Lookup(first.world.records, item.key))
              && (item.after.Some? || item.key in first.world.records)
    {
      var item := first.order.items[i];
      assert ItemShape(false, item);
      if item.key in first.world.records {
        assert KeyAmong(first.order.items, item.key);
        assert item.key in TargetMap(first.order.items, first.world.records);
      }
    }
  }

  lemma NamesGiven(o: Order, revision: nat)
    requires WellFormedOrder(o) && NamesPresent(o, revision)
    ensures o.scope.region != "" && o.scope.environment != "" && o.scope.stage != ""
  {
  }

  lemma PercentMakes(first: System, requests: seq<Request>)
    requires JustCreated(first, false) && ServeAll(first, requests).order.status == InProgress
    requires AtStep(ServeAll(first, requests).order, PercentRollout, Pending)
    requires |first.order.steps| == |ServeAll(first, requests).order.steps|
    requires StepAllows(first, false, ServeAll(first, requests).order.currentStep)
    ensures var now := ServeAll(first, requests); Made(now, Serve(now, Ask(now, ExecuteAction, ACTOR, [])))
  {
    hide ServeAll, ExecutePercentRollout, ApplyEffect, RecordEffect, Configure, Standing, ValidSteps, CreatedHere,
         WellFormedItem, DeletesBase, Shape, Made;
    var now := ServeAll(first, requests);
    RunIsRunning(first, requests, false);
    ShapeGives(now.order);
    var o, w := now.order, now.world;
    SameSteps(first.order, o, false, o.currentStep);
    ActorNamed();
    CreatedStartsRollout(first);
    TargetsCurrent(first);
    NamesGiven(first.order, first.world.revision);
    PercentStepNeverStuck(first, requests, w.revision + 1, ACTOR, 1);
    var r := ExecutePercentRollout(o, AuthorityOf(w), w.revision + 1, ACTOR, 1);
    ExecutedPercent(o, AuthorityOf(w), w.revision + 1, ACTOR, 1);
    StoredIsMade(now, r, ACTOR, 1);
    var q := Ask(now, ExecuteAction, ACTOR, []);
    assert Dispatch(now, q.command, q.now, q.newRevision) == Configure(now, r);
  }

  lemma OverlayMakes(first: System, requests: seq<Request>)
    requires JustCreated(first, true) && ServeAll(first, requests).order.status == InProgress
    requires AtStep(ServeAll(first, requests).order, OverlayApply, Pending)
    requires |first.order.steps| == |ServeAll(first, requests).order.steps|
    requires StepAllows(first, true, ServeAll(first, requests).order.currentStep)
    ensures var now := ServeAll(first, requests); Made(now, Serve(now, Ask(now, ExecuteAction, ACTOR, [])))
  {
    hide ServeAll, ExecuteOverlay, ApplyEffect, RecordEffect, Configure, Standing, ValidSteps, CreatedHere,
         WellFormedItem, Storing, Shape, Made;
    var now := ServeAll(first, requests);
    RunIsRunning(first, requests, true);
    ShapeGives(now.order);
    var o, w := now.order, now.world;
    SameSteps(first.order, o, true, o.currentStep);
    ActorNamed();
    NamesGiven(first.order, first.world.revision);
    PendingNotDecided(first, now, true);
    OverlayStepEnabled(first, requests, w.revision + 1, ACTOR, 1);
    var r := ExecuteOverlay(o, AuthorityOf(w), w.revision + 1, ACTOR, 1);
    ExecutedOverlay(o, AuthorityOf(w), w.revision + 1, ACTOR, 1);
    StoredIsMade(now, r, ACTOR, 1);
    var q := Ask(now, ExecuteAction, ACTOR, []);
    assert Dispatch(now, q.command, q.now, q.newRevision) == Configure(now, r);
  }

  lemma PendingNotDecided(first: System, now: System, overlay: bool)
    requires Running(first, now, overlay) && AtStep(now.order, FinalType(overlay), Pending)
    ensures now.world.records == first.world.records && (overlay ==> now.world == first.world)
  {
    CurrentHasNoEffect(now.order);
    NotDecided(first, now, overlay);
  }

  lemma {:induction false} SlicesHaveSteps(steps: seq<StepState>, n: nat)
    requires n <= |steps| && SlicesBefore(steps, n) != []
    ensures exists k :: 0 <= k < n && steps[k].definition.Type() == PercentRollout
  {
    NoSlicesYet(steps);
    NextDefinition(steps, n - 1);
    if steps[n - 1].definition.Type() != PercentRollout { SlicesHaveSteps(steps, n - 1); }
  }

  lemma NoSlicesYet(steps: seq<StepState>)
    ensures SlicesBefore(steps, 0) == []
  {
    assert Definitions(steps)[..0] == [];
  }

  /** Before the base step, rules at the targets come from slices, whose steps needed all names. */
  lemma CleanupNamed(first: System, requests: seq<Request>)
    requires JustCreated(first, false) && CanFinish(first, false)
    requires ServeAll(first, requests).order.status == InProgress
    requires AtStep(ServeAll(first, requests).order, BaseApply, Pending)
    requires |first.order.steps| == |ServeAll(first, requests).order.steps|
    requires StepAllows(first, false, ServeAll(first, requests).order.currentStep)
    ensures BaseNamesPresent(first.order, ServeAll(first, requests).world)
  {
    hide ServeAll, Standing, ValidSteps, CreatedHere, WellFormedItem, SlicesBefore, RolledOut, DeletesBase, NeedsChange,
         Shape, Chained, Replay;
    var now := ServeAll(first, requests);
    RunIsRunning(first, requests, false);
    ShapeGives(now.order);
    var o, n := now.order, now.order.currentStep;
    SameSteps(first.order, o, false, n);
    CreatedStartsRollout(first);
    RolloutHolds(first, requests);
    NoBaseBefore(o);
    assert DoneSteps(o) == n;
    if SlicesBefore(o.steps, n) == [] {
      forall i | 0 <= i < |o.items|
        ensures o.items[i].key !in now.world.rules
      {
        assert RuleState(o, o.items[i], now.world, n);
      }
    } else {
      SlicesHaveSteps(first.order.steps, n);
      var k :| 0 <= k < n && first.order.steps[k].definition.Type() == PercentRollout;
      assert StepAllows(first, false, k);
    }
  }

  lemma BaseMakes(first: System, requests: seq<Request>)
    requires JustCreated(first, false) && CanFinish(first, false)
    requires ServeAll(first, requests).order.status == InProgress
    requires AtStep(ServeAll(first, requests).order, BaseApply, Pending)
    requires |first.order.steps| == |ServeAll(first, requests).order.steps|
    requires StepAllows(first, false, ServeAll(first, requests).order.currentStep)
    ensures var now := ServeAll(first, requests); Made(now, Serve(now, Ask(now, ExecuteAction, ACTOR, [])))
  {
    hide ServeAll, ExecuteBase, ApplyEffect, RecordEffect, Configure, Standing, ValidSteps, CreatedHere, WellFormedItem,
         NeedsChange, SlicesBefore, Shape, Made, BaseNamesPresent;
    var now := ServeAll(first, requests);
    RunIsRunning(first, requests, false);
    ShapeGives(now.order);
    var o, w := now.order, now.world;
    SameSteps(first.order, o, false, o.currentStep);
    ActorNamed();
    CreatedStartsRollout(first);
    CleanupNamed(first, requests);
    EarlierSettled(o);
    SlicesExactly(o.steps, o.currentStep);
    BaseStepEnabled(first, requests, w.revision + 1, ACTOR, 1);
    var r := ExecuteBase(o, AuthorityOf(w), w.revision + 1, ACTOR, 1);
    ExecutedBase(o, AuthorityOf(w), w.revision + 1, ACTOR, 1);
    StoredIsMade(now, r, ACTOR, 1);
    var q := Ask(now, ExecuteAction, ACTOR, []);
    assert Dispatch(now, q.command, q.now, q.newRevision) == Configure(now, r);
  }

  lemma CompareMakes(first: System, requests: seq<Request>, overlay: bool)
    requires JustCreated(first, overlay) && ServeAll(first, requests).order.status == InProgress
    requires AtStep(ServeAll(first, requests).order, Compare, Pending)
    requires |first.order.steps| == |ServeAll(first, requests).order.steps|
    requires StepAllows(first, overlay, ServeAll(first, requests).order.currentStep)
    ensures var now := ServeAll(first, requests); Made(now, Serve(now, Ask(now, ExecuteAction, ACTOR, [])))
  {
    hide ServeAll, Dispatch, Standing, ValidSteps, AgreesAt, SeesNoDifference, CreatedHere;
    var now := ServeAll(first, requests);
    RunIsRunning(first, requests, overlay);
    SameSteps(first.order, now.order, overlay, now.order.currentStep);
    ActorNamed();
    ComparisonToldFromStart(first, requests, overlay);
    var q := Ask(now, ExecuteAction, ACTOR, []);
    ComparisonExactly(now, q.command, q.now, q.newRevision);
    CompareRan(now, q.command, q.now, q.newRevision);
  }

  lemma ReviewStarts(now: System)
    requires Shape(now.order) && AtStep(now.order, ManualReview, Pending)
    ensures var next := Serve(now, Ask(now, ExecuteAction, ACTOR, []));
            && AtStep(next.order, ManualReview, Executing) && next.order.currentStep == now.order.currentStep
            && |next.order.steps| == |now.order.steps| && next.order.createdBy == now.order.createdBy
            && next.order.scope == now.order.scope
            && next.order.steps[next.order.currentStep].definition == now.order.steps[now.order.currentStep].definition
  {
    ActorNamed();
  }

  /** Someone other than the creator. */
  function Approver(o: Order): string { if o.createdBy == "a" then "b" else "a" }

  lemma ReviewApproves(now: System)
    requires Shape(now.order) && AtStep(now.order, ManualReview, Executing)
    requires now.order.steps[now.order.currentStep].definition.requiredRoles != []
    ensures var roles := now.order.steps[now.order.currentStep].definition.requiredRoles;
            Made(now, Serve(now, Ask(now, ApproveAction, Approver(now.order), roles)))
  {
    hide Text.Trim;
    var o, subject := now.order, Approver(now.order);
    var roles := o.steps[o.currentStep].definition.requiredRoles;
    assert roles[0] in roles;
    assert !Text.Blank(subject) by { assert !Text.IsSpace(subject[0]); }
    OtherSubject(o);
  }

  lemma OtherSubject(o: Order)
    ensures Text.Trim(Approver(o)) != o.createdBy
  {
    assert Text.Trim("a") == "a" && Text.Trim("b") == "b";
  }

  lemma MovesOn(now: System)
    requires Shape(now.order) && now.order.status == InProgress
    requires now.order.steps[now.order.currentStep].status in {Executed, Approved}
    requires now.order.currentStep + 1 < |now.order.steps|
    ensures var next := Serve(now, Ask(now, AdvanceAction, ACTOR, []));
            && next.order.status == InProgress && next.order.currentStep == now.order.currentStep + 1
            && |next.order.steps| == |now.order.steps| && next.order.steps[next.order.currentStep].status == Pending
  {
  }

  lemma Finishes(now: System)
    requires Shape(now.order) && AtStep(now.order, Complete, Pending)
    requires now.order.currentStep > 0 && now.order.steps[now.order.currentStep - 1].definition.Type() != ManualReview
    ensures Serve(now, Ask(now, ExecuteAction, ACTOR, [])).order.status == Succeeded
  {
    CompletionEnabled(now.order, ACTOR, 1);
  }

  /** Two further commands, one after the other. */
  lemma ServeTwo(first: System, requests: seq<Request>, a: Request, b: Request)
    requires Shape(first.order)
    ensures ServeAll(first, requests + [a] + [b]) == Serve(Serve(ServeAll(first, requests), a), b)
  {
    ServeAllLast(first, requests + [a], b);
    ServeAllLast(first, requests, a);
  }

  /** At a pending step that allows it there are commands that make the step. */
  lemma StepMakes(first: System, requests: seq<Request>, overlay: bool) returns (more: seq<Request>)
    requires JustCreated(first, overlay) && CanFinish(first, overlay)
    requires ServeAll(first, requests).order.status == InProgress
    requires var o := ServeAll(first, requests).order;
             o.steps[o.currentStep].status == Pending && o.steps[o.currentStep].definition.Type() != Complete
    ensures Made(ServeAll(first, requests), ServeAll(first, requests + more))
  {
    hide ServeAll, Serve, Standing, ValidSteps, CreatedHere, StepAllows, Made;
    var now := ServeAll(first, requests);
    RunIsRunning(first, requests, overlay);
    var o, n := now.order, now.order.currentStep;
    SameSteps(first.order, o, overlay, n);
    NoOtherFinal(o, overlay, n);
    assert StepAllows(first, overlay, n);
    var ask := Ask(now, ExecuteAction, ACTOR, []);
    ServeAllLast(first, requests, ask);
    PendingAt(o, o.steps[n].definition.Type());
    more := [ask];
    match o.steps[n].definition.Type() {
      case PercentRollout => PercentMakes(first, requests);
      case OverlayApply => OverlayMakes(first, requests);
      case BaseApply => BaseMakes(first, requests);
      case Compare => CompareMakes(first, requests, overlay);
      case ManualReview =>
        ReviewAllows(first, overlay, n);
        ReviewStarts(now);
        var started := Serve(now, ask);
        ReviewApproves(started);
        var approve := Ask(started, ApproveAction, Approver(started.order),
                           started.order.steps[n].definition.requiredRoles);
        ServeTwo(first, requests, ask, approve);
        more := [ask] + [approve];
        assert requests + more == requests + [ask] + [approve];
        MadeAlong(now, started, Serve(started, approve));
    }
  }

  lemma MadeAlong(now: System, started: System, made: System)
    requires Made(started, made) && started.order.currentStep == now.order.currentStep
    requires |started.order.steps| == |now.order.steps|
    ensures Made(now, made)
  {
  }

  /** From a pending step onwards an order whose steps all allow it can be run to its end. */
  lemma {:induction false} RunsToEnd(first: System, requests: seq<Request>, overlay: bool) returns (all: seq<Request>)
    requires JustCreated(first, overlay) && CanFinish(first, overlay)
    requires ServeAll(first, requests).order.status == InProgress
    requires var o := ServeAll(first, requests).order; o.steps[o.currentStep].status == Pending
    ensures ServeAll(first, all).order.status == Succeeded
    decreases |ServeAll(first, requests).order.steps| - ServeAll(first, requests).order.currentStep
  {
    hide ServeAll, Serve, Standing, ValidSteps, CreatedHere, StepAllows;
    var now := ServeAll(first, requests);
    RunIsRunning(first, requests, overlay);
    var o, n := now.order, now.order.currentStep;
    SameSteps(first.order, o, overlay, n);
    if o.steps[n].definition.Type() == Complete {
      assert StepAllows(first, overlay, n);
      CompletesOnly(first, overlay, n);
      PendingAt(o, Complete);
      Finishes(now);
      ServeAllLast(first, requests, Ask(now, ExecuteAction, ACTOR, []));
      all := requests + [Ask(now, ExecuteAction, ACTOR, [])];
    } else {
      LastCompletes(o, overlay);
      var more := StepMakes(first, requests, overlay);
      var made := ServeAll(first, requests + more);
      MovesOn(made);
      var advance := Ask(made, AdvanceAction, ACTOR, []);
      ServeAllLast(first, requests + more, advance);
      all := RunsToEnd(first, requests + more + [advance], overlay);
    }
  }

  lemma CompletesOnly(first: System, overlay: bool, n: nat)
    requires WellFormedOrder(first.order) && n < |first.order.steps|
    requires first.order.steps[n].definition.Type() == Complete && StepAllows(first, overlay, n)
    ensures n > 0 && first.order.steps[n - 1].definition.Type() != ManualReview
  {
  }

  lemma LastCompletes(o: Order, overlay: bool)
    requires Compiled(o, overlay)
    ensures o.steps != [] && o.steps[|o.steps| - 1].definition.Type() == Complete
  {
    var defs := Definitions(o.steps);
    assert defs[|defs| - 1].Type() == Complete;
  }

  /**
   * Some sequence of commands takes an order just created to SUCCEEDED, with no other writer, exactly when each of its
   * steps allows it: every review asks for a role and none stands right before COMPLETE; no name is blank and no
   * percentage or overlay target hides a base record; the base step has a slice to clean up or a record to
   * change; and each comparison sits where what it sees agrees.
   */
  lemma CompletableExactly(first: System, overlay: bool)
    requires JustCreated(first, overlay)
    ensures (exists requests :: ServeAll(first, requests).order.status == Succeeded) <==>
            forall n :: 0 <= n < |first.order.steps| ==> StepAllows(first, overlay, n)
  {
    hide Serve, StepAllows, CreatedHere, ValidSteps;
    if CanFinish(first, overlay) {
      assert ServeAll(first, []) == first;
      var all := RunsToEnd(first, [], overlay);
    }
    if requests :| ServeAll(first, requests).order.status == Succeeded {
      RunWasAllowed(first, requests, overlay);
    }
  }
}
