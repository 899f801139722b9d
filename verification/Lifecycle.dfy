/** The life of an order over any sequence of operations: its shape, its revision, and how long it can go on. */
module Lifecycle {
  import opened Wrappers
  import opened Catalog
  import opened Template
  import opened Effects
  import opened OrderState

  datatype Op =
    | ReviewOp(expected: nat, actor: string, at: int)
    | ApproveOp(expected: nat, principal: Principal, comment: string, at: int)
    | RejectOp(expected: nat, principal: Principal, comment: string, at: int)
    | BaseOp(authority: Authority, newRevision: nat, actor: string, at: int)
    | OverlayOp(authority: Authority, newRevision: nat, actor: string, at: int)
    | PercentOp(authority: Authority, newRevision: nat, actor: string, at: int)
    | CompareOp(expected: nat, actual: seq<Record>, actor: string, at: int)
    | AdvanceOp(expected: nat, actor: string, at: int)
    | CompleteOp(expected: nat, actor: string, at: int)
    | RollbackAllOp(expected: nat, authority: Authority, newRevision: nat, actor: string, at: int)
    | RollbackBaseOp(expected: nat, authority: Authority, newRevision: nat, actor: string, at: int)
    | RollbackOverlayOp(expected: nat, currentRevision: nat, newRevision: nat, actor: string, at: int)

  function First<A, B, E>(r: Result<(A, B), E>): Result<A, E> {
    match r
    case Success(pair) => Success(pair.0)
    case Failure(e) => Failure(e)
  }

  /** The order after an operation, when the operation succeeds. */
  ghost function Perform(o: Order, op: Op): Result<Order, Error>
    requires WellFormedOrder(o) && ReviewsHaveApproval(o)
  {
    match op
    case ReviewOp(expected, actor, at) => ExecuteManualReview(o, expected, actor, at)
    case ApproveOp(expected, principal, comment, at) => ApproveManualReview(o, expected, principal, comment, at)
    case RejectOp(expected, principal, comment, at) => RejectManualReview(o, expected, principal, comment, at)
    case BaseOp(a, newRevision, actor, at) => First(ExecuteBase(o, a, newRevision, actor, at))
    case OverlayOp(a, newRevision, actor, at) => First(ExecuteOverlay(o, a, newRevision, actor, at))
    case PercentOp(a, newRevision, actor, at) => First(ExecutePercentRollout(o, a, newRevision, actor, at))
    case CompareOp(expected, actual, actor, at) => First(ExecuteCompare(o, expected, actual, actor, at))
    case AdvanceOp(expected, actor, at) => Advance(o, expected, actor, at)
    case CompleteOp(expected, actor, at) => CompleteOrder(o, expected, actor, at)
    case RollbackAllOp(expected, a, newRevision, actor, at) =>
      First(RollbackAll(o, expected, a, newRevision, actor, at))
    case RollbackBaseOp(expected, a, newRevision, actor, at) =>
      First(RollbackBase(o, expected, a, newRevision, actor, at))
    case RollbackOverlayOp(expected, current, newRevision, actor, at) =>
      First(RollbackOverlay(o, expected, current, newRevision, actor, at))
  }

  predicate PayloadIs(e: Envelope, t: EffectType) {
    && e.effectType == t
    && (e.base.Some? <==> t == BaseType) && (e.overlay.Some? <==> t == OverlayType)
    && (e.percent.Some? <==> t == PercentType)
  }

  predicate Recorded(step: StepState, t: EffectType) {
    && (step.status == Executed <==> step.effect.Some?)
    && (step.effect.Some? ==> PayloadIs(step.effect.value, t))
  }

  /** Configuration steps, once executed, hold an effect of their own type; no other step ever holds one. */
  predicate EffectMatches(step: StepState) {
    match step.definition.Type()
    case BaseApply => Recorded(step, BaseType)
    case OverlayApply => Recorded(step, OverlayType)
    case PercentRollout => Recorded(step, PercentType)
    case _ => step.effect.None?
  }

  /** A step the order has passed: reviews end APPROVED, every other step EXECUTED. */
  predicate Settled(step: StepState) {
    && step.status == (if step.definition.Type() == ManualReview then Approved else Executed)
    && EffectMatches(step)
  }

  /** The step being worked on: reviews pass through EXECUTING to APPROVED, every other step goes to EXECUTED. */
  predicate CurrentShape(step: StepState) {
    && (step.status == Pending
        || (if step.definition.Type() == ManualReview then step.status == Executing || step.status == Approved
            else step.status == Executed))
    && EffectMatches(step)
  }

  predicate ActiveShape(o: Order)
    requires o.currentStep < |o.steps|
  {
    && o.completedAt.None?
    && (forall i :: 0 <= i < o.currentStep ==> Settled(o.steps[i]))
    && CurrentShape(o.steps[o.currentStep])
    && (forall i :: o.currentStep < i < |o.steps| ==> o.steps[i].status == Pending && o.steps[i].effect.None?)
    && (forall i :: 0 <= i < |o.items| ==> o.items[i].status == ItemPending && o.items[i].conflictKey.Some?)
  }

  predicate FinishedShape(o: Order) {
    o.completedAt.Some? && forall i :: 0 <= i < |o.items| ==> o.items[i].conflictKey.None?
  }

  predicate Shape(o: Order) {
    && WellFormedOrder(o) && ReviewsHaveApproval(o) && o.revision >= 1
    && (if o.status == InProgress then ActiveShape(o) else FinishedShape(o))
  }

  /** How many successful operations, other than mismatched comparisons, can still come. */
  function Budget(o: Order): nat
    requires o.currentStep < |o.steps|
  {
    if o.status != InProgress then 0
    else 3 * (|o.steps| - 1 - o.currentStep)
         + match o.steps[o.currentStep].status
           case Pending => 3
           case Executing => 2
           case _ => 1
  }

  /** A comparison that found differences: it is recorded, and the step stays pending. */
  ghost predicate Mismatch(o: Order, op: Op)
    requires WellFormedOrder(o) && ReviewsHaveApproval(o)
  {
    op.CompareOp? && Perform(o, op).Success? && Perform(o, op).value.steps[o.currentStep].status == Pending
  }

  /** A new order has the shape of an order in progress and a budget of three successes per step. */
  lemma NewOrderShape(overlay: bool, spec: OrderSpec)
    requires spec.template.steps != [] || !overlay
    requires NewOrder(overlay, spec).Success?
    ensures var o := NewOrder(overlay, spec).value;
            && Shape(o) && o.status == InProgress && o.revision == 1
            && Budget(o) == 3 * |o.steps|
            && (forall i :: 0 <= i < |o.steps| ==> o.steps[i].status == Pending && o.steps[i].effect.None?)
  {
    var o := NewOrder(overlay, spec).value;
    var scope := TrimScope(spec.scope);
    var collection := TargetOf(overlay, spec.items[0]).value.collection;
    forall i | 0 <= i < |o.items| ensures WellFormedItem(o.items[i], o.items[0].collection, o.scope) {
      assert AcceptsItem(overlay, spec, scope, collection, i);
    }
    forall i, j | 0 <= i < j < |o.items| ensures o.items[i].key != o.items[j].key {
      assert AcceptsItem(overlay, spec, scope, collection, i) && AcceptsItem(overlay, spec, scope, collection, j);
      assert TargetKey(overlay, spec.items[i]) != TargetKey(overlay, spec.items[j]);
    }
  }

  /** Replacing the items by settled ones keeps their identity. */
  lemma SettledItems(o: Order, items: seq<Item>)
    requires WellFormedOrder(o) && |items| == |o.items|
    requires forall i :: 0 <= i < |items| ==>
               items[i].(status := o.items[i].status, conflictKey := o.items[i].conflictKey) == o.items[i]
    ensures forall i :: 0 <= i < |items| ==> WellFormedItem(items[i], items[0].collection, o.scope)
    ensures DistinctKeys(items)
  {
    forall i | 0 <= i < |items|
      ensures items[i].key == o.items[i].key && WellFormedItem(items[i], items[0].collection, o.scope)
    {
      assert WellFormedItem(o.items[i], o.items[0].collection, o.scope);
      assert items[i].(status := o.items[i].status, conflictKey := o.items[i].conflictKey) == o.items[i];
      assert items[0].(status := o.items[0].status, conflictKey := o.items[0].conflictKey) == o.items[0];
    }
  }

  ghost predicate StepResult(o: Order, op: Op)
    requires Shape(o)
  {
    Perform(o, op).Success? ==>
      var next := Perform(o, op).value;
      && Shape(next) && next.revision == o.revision + 1
      && next.steps != [] && |next.steps| == |o.steps|
      && (if Mismatch(o, op) then Budget(next) == Budget(o) else Budget(next) < Budget(o))
  }

  lemma ReviewKeepsShape(o: Order, op: Op)
    requires Shape(o) && op.ReviewOp?
    ensures StepResult(o, op)
  {
  }

  lemma ApproveKeepsShape(o: Order, op: Op)
    requires Shape(o) && op.ApproveOp?
    ensures StepResult(o, op)
  {
  }

  lemma RejectKeepsShape(o: Order, op: Op)
    requires Shape(o) && op.RejectOp?
    ensures StepResult(o, op)
  {
    SettledItems(o, Release(o.items));
  }

  lemma RecordKeepsShape(o: Order, t: StepType, effect: Envelope, actor: string, at: int)
    requires Shape(o) && AtStep(o, t, Pending) && t != ManualReview
    requires EffectMatches(o.steps[o.currentStep].(status := Executed, effect := Some(effect)))
    ensures var next := RecordEffect(o, effect, actor, at);
            Shape(next) && next.revision == o.revision + 1 && |next.steps| == |o.steps| && Budget(next) < Budget(o)
  {
  }

  lemma BaseKeepsShape(o: Order, op: Op)
    requires Shape(o) && op.BaseOp?
    ensures StepResult(o, op)
  {
    var r := ExecuteBase(o, op.authority, op.newRevision, op.actor, op.at);
    if r.Success? { RecordKeepsShape(o, BaseApply, r.value.1, op.actor, op.at); }
  }

  lemma OverlayKeepsShape(o: Order, op: Op)
    requires Shape(o) && op.OverlayOp?
    ensures StepResult(o, op)
  {
    var r := ExecuteOverlay(o, op.authority, op.newRevision, op.actor, op.at);
    if r.Success? { RecordKeepsShape(o, OverlayApply, r.value.1, op.actor, op.at); }
  }

  lemma PercentKeepsShape(o: Order, op: Op)
    requires Shape(o) && op.PercentOp?
    ensures StepResult(o, op)
  {
    var r := ExecutePercentRollout(o, op.authority, op.newRevision, op.actor, op.at);
    if r.Success? { RecordKeepsShape(o, PercentRollout, r.value.1, op.actor, op.at); }
  }

  lemma CompareKeepsShape(o: Order, op: Op)
    requires Shape(o) && op.CompareOp?
    ensures StepResult(o, op)
  {
  }

  lemma AdvanceKeepsShape(o: Order, op: Op)
    requires Shape(o) && op.AdvanceOp?
    ensures StepResult(o, op)
  {
  }

  lemma CompleteKeepsShape(o: Order, op: Op)
    requires Shape(o) && op.CompleteOp?
    ensures StepResult(o, op)
  {
    SettledItems(o, Settle(o.items, ItemApplied));
  }

  /** Ending the order with settled items and re-marked steps gives a finished order. */
  lemma FinishKeepsShape(o: Order, steps: seq<StepState>, index: nat, items: ItemStatus, status: OrderStatus,
                         actor: string, at: int)
    requires Shape(o) && |steps| == |o.steps| && index < |steps| && status != InProgress
    requires forall i :: 0 <= i < |steps| && steps[i].status == Executing ==> steps[i].approval.Some?
    ensures var next := Finish(o.(steps := steps, items := Settle(o.items, items), currentStep := index), status,
                               actor, at);
            Shape(next) && next.revision == o.revision + 1 && Budget(next) == 0
  {
    SettledItems(o, Settle(o.items, items));
  }

  lemma ActiveBudget(o: Order)
    requires Shape(o) && o.status == InProgress
    ensures Budget(o) > 0
  {
  }

  lemma RollbackAllKeepsShape(o: Order, op: Op)
    requires Shape(o) && op.RollbackAllOp?
    ensures StepResult(o, op)
  {
    if Perform(o, op).Success? {
      ActiveBudget(o);
      FinishKeepsShape(o, MarkRolledBack(o.steps, op.actor, op.at), FirstEffect(o.steps), ItemRolledBack,
                       OrderRolledBack, op.actor, op.at);
    }
  }

  lemma RollbackOneKeepsShape(o: Order, op: Op)
    requires Shape(o) && (op.RollbackBaseOp? || op.RollbackOverlayOp?)
    ensures StepResult(o, op)
  {
    if Perform(o, op).Success? {
      ActiveBudget(o);
      var index := if op.RollbackBaseOp? then LastBaseStep(o.steps, |o.steps|).value
                   else LastOverlayStep(o.steps, |o.steps|).value;
      var step := o.steps[index].(status := RolledBack, rolledBackAt := Some(op.at), rolledBackBy := op.actor);
      FinishKeepsShape(o, o.steps[index := step], index, ItemRolledBack, OrderRolledBack, op.actor, op.at);
    }
  }

  /**
   * Every success keeps the shape, adds one to the revision, and uses up budget unless it is a mismatched comparison.
   */
  lemma EveryStepKeepsShape(o: Order, op: Op)
    requires Shape(o)
    ensures StepResult(o, op)
  {
    match op
    case ReviewOp(_, _, _) => ReviewKeepsShape(o, op);
    case ApproveOp(_, _, _, _) => ApproveKeepsShape(o, op);
    case RejectOp(_, _, _, _) => RejectKeepsShape(o, op);
    case BaseOp(_, _, _, _) => BaseKeepsShape(o, op);
    case OverlayOp(_, _, _, _) => OverlayKeepsShape(o, op);
    case PercentOp(_, _, _, _) => PercentKeepsShape(o, op);
    case CompareOp(_, _, _, _) => CompareKeepsShape(o, op);
    case AdvanceOp(_, _, _) => AdvanceKeepsShape(o, op);
    case CompleteOp(_, _, _) => CompleteKeepsShape(o, op);
    case RollbackAllOp(_, _, _, _, _) => RollbackAllKeepsShape(o, op);
    case RollbackBaseOp(_, _, _, _, _) => RollbackOneKeepsShape(o, op);
    case RollbackOverlayOp(_, _, _, _, _) => RollbackOneKeepsShape(o, op);
  }

  /** A finished order refuses every operation. */
  lemma FinishedRefusesAll(o: Order, op: Op)
    requires Shape(o) && o.status != InProgress
    ensures Perform(o, op).Failure?
  {
    EveryStepKeepsShape(o, op);
    if Perform(o, op).Success? { assert Budget(o) == 0; }
  }

  // ----- runs -----

  ghost function After(o: Order, op: Op): Order
    requires Shape(o)
    ensures Shape(After(o, op))
  {
    EveryStepKeepsShape(o, op);
    match Perform(o, op)
    case Success(next) => next
    case Failure(_) => o
  }

  /** Any sequence of operations; a refused operation leaves the order as it was. */
  ghost function Run(o: Order, ops: seq<Op>): (r: Order)
    requires Shape(o)
    ensures Shape(r)
  {
    if ops == [] then o else After(Run(o, ops[..|ops| - 1]), ops[|ops| - 1])
  }

  ghost function Successes(o: Order, ops: seq<Op>, mismatches: bool): nat
    requires Shape(o)
  {
    if ops == [] then 0
    else
      var before, last := Run(o, ops[..|ops| - 1]), ops[|ops| - 1];
      Successes(o, ops[..|ops| - 1], mismatches)
      + if Perform(before, last).Success? && Mismatch(before, last) == mismatches then 1 else 0
  }

  /**
   * Over any run the revision counts the successes, and the successes that are not mismatched comparisons
   * never exceed what the order's steps allow.
   */
  lemma {:induction false} RunIsBounded(o: Order, ops: seq<Op>)
    requires Shape(o)
    ensures Run(o, ops).revision == o.revision + Successes(o, ops, true) + Successes(o, ops, false)
    ensures Successes(o, ops, false) + Budget(Run(o, ops)) <= Budget(o)
  {
    if ops != [] {
      var before, last := Run(o, ops[..|ops| - 1]), ops[|ops| - 1];
      RunIsBounded(o, ops[..|ops| - 1]);
      EveryStepKeepsShape(before, last);
    }
  }

  /** From creation on: at most three successes per step that are not mismatched comparisons. */
  lemma ThreePerStep(overlay: bool, spec: OrderSpec, ops: seq<Op>)
    requires spec.template.steps != [] || !overlay
    requires NewOrder(overlay, spec).Success?
    ensures Shape(NewOrder(overlay, spec).value)
    ensures Successes(NewOrder(overlay, spec).value, ops, false) <= 3 * |NewOrder(overlay, spec).value.steps|
  {
    NewOrderShape(overlay, spec);
    RunIsBounded(NewOrder(overlay, spec).value, ops);
  }

  /**
   * At a pending COMPLETE with the right revision, completion succeeds exactly when a step other than a review
   * comes right before: a template that puts a review in front of COMPLETE can never finish.
   */
  lemma CompletionEnabled(o: Order, actor: string, at: int)
    requires Shape(o) && AtStep(o, Complete, Pending)
    ensures CompleteOrder(o, o.revision, actor, at).Success? <==>
            o.currentStep > 0 && o.steps[o.currentStep - 1].definition.Type() != ManualReview
  {
    if o.currentStep > 0 { assert Settled(o.steps[o.currentStep - 1]); }
  }
}
