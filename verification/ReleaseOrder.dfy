/** The release order aggregate: the object whose methods update status, steps and items in place. */
module ReleaseOrder {
  import opened Wrappers
  import opened Catalog
  import opened Overlay
  import opened Template
  import opened Effects
  import opened OrderState
  import opened Lifecycle
  import opened Planning
  import C = Compensation
  import S = OrderState
  import Text

  class Aggregate {
    const id: string
    const scope: Scope
    const createdBy: string
    var status: OrderStatus
    var revision: nat
    var currentStep: nat
    var steps: seq<StepState>
    var items: seq<Item>
    var completedAt: Option<int>
    var updatedBy: string
    var updatedAt: int

    function State(): Order
      reads this
    {
      Order(id, scope, createdBy, status, revision, currentStep, steps, items, completedAt, updatedBy, updatedAt)
    }

    ghost predicate Valid()
      reads this
    {
      Shape(State())
    }

    /** Restores an order from a state its own methods left. */
    constructor (o: Order)
      requires Shape(o)
      ensures Valid() && State() == o
    {
      id, scope, createdBy := o.id, o.scope, o.createdBy;
      status, revision, currentStep, steps, items := o.status, o.revision, o.currentStep, o.steps, o.items;
      completedAt, updatedBy, updatedAt := o.completedAt, o.updatedBy, o.updatedAt;
    }

    method Touch(actor: string, at: int)
      modifies this`revision, this`updatedBy, this`updatedAt
      ensures revision == old(revision) + 1 && updatedBy == actor && updatedAt == at
    {
      revision, updatedBy, updatedAt := revision + 1, actor, at;
    }

    method SetItems(settle: Option<ItemStatus>)
      modifies this`items
      ensures items == match settle case Some(s) => Settle(old(items), s) case None => Release(old(items))
    {
      ghost var was := items;
      for n := 0 to |items|
        invariant |items| == |was|
        invariant forall i :: 0 <= i < n ==>
                    items[i] == was[i].(status := settle.GetOr(was[i].status), conflictKey := None)
        invariant forall i :: n <= i < |items| ==> items[i] == was[i]
      {
        items := items[n := items[n].(status := settle.GetOr(items[n].status), conflictKey := None)];
      }
      assert items == match settle case Some(s) => Settle(was, s) case None => Release(was);
    }

    method ExecuteManualReview(expected: nat, actor: string, at: int) returns (r: Option<Error>)
      requires Valid()
      modifies this
      ensures match S.ExecuteManualReview(old(State()), expected, actor, at)
              case Success(next) => r == None && State() == next
              case Failure(error) => r == Some(error) && State() == old(State())
      ensures Valid()
    {
      hide Shape;
      OperationKeepsShape(State(), ReviewOp(expected, actor, at));
      if revision != expected { return Some(Aborted); }
      if !AtStep(State(), ManualReview, Pending) { return Some(Invalid); }
      if Text.Blank(actor) || at == ZERO_TIME { return Some(Invalid); }
      steps := steps[currentStep := steps[currentStep].(
        status := Executing, approval := Some(Approval(ApprovalPending, at, actor, None, "", "")))];
      Touch(actor, at);
      return None;
    }

    method ApproveManualReview(expected: nat, principal: Principal, comment: string, at: int) returns (r: Option<Error>)
      requires Valid()
      modifies this
      ensures match S.ApproveManualReview(old(State()), expected, principal, comment, at)
              case Success(next) => r == None && State() == next
              case Failure(error) => r == Some(error) && State() == old(State())
      ensures Valid()
    {
      hide Shape;
      OperationKeepsShape(State(), ApproveOp(expected, principal, comment, at));
      r := AuthorizeDecision(State(), expected, principal, at);
      if r.Some? { return; }
      var step := steps[currentStep];
      var approval := step.approval.value.(
        status := ApprovalApproved, decidedAt := Some(at), decidedBy := principal.subject, comment := comment);
      steps := steps[currentStep := step.(status := Approved, approval := Some(approval))];
      Touch(principal.subject, at);
    }

    method RejectManualReview(expected: nat, principal: Principal, comment: string, at: int) returns (r: Option<Error>)
      requires Valid()
      modifies this
      ensures match S.RejectManualReview(old(State()), expected, principal, comment, at)
              case Success(next) => r == None && State() == next
              case Failure(error) => r == Some(error) && State() == old(State())
      ensures Valid()
    {
      hide Shape;
      OperationKeepsShape(State(), RejectOp(expected, principal, comment, at));
      if Text.Blank(comment) { return Some(Invalid); }
      r := AuthorizeDecision(State(), expected, principal, at);
      if r.Some? { return; }
      var step := steps[currentStep];
      var approval := step.approval.value.(
        status := ApprovalRejected, decidedAt := Some(at), decidedBy := principal.subject, comment := comment);
      steps := steps[currentStep := step.(status := Rejected, approval := Some(approval))];
      SetItems(None);
      status, completedAt := OrderRejected, Some(at);
      Touch(principal.subject, at);
    }

    method Advance(expected: nat, actor: string, at: int) returns (r: Option<Error>)
      requires Valid()
      modifies this
      ensures match S.Advance(old(State()), expected, actor, at)
              case Success(next) => r == None && State() == next
              case Failure(error) => r == Some(error) && State() == old(State())
      ensures Valid()
    {
      hide Shape;
      OperationKeepsShape(State(), AdvanceOp(expected, actor, at));
      if revision != expected { return Some(Aborted); }
      var stepStatus := steps[currentStep].status;
      if status != InProgress || (stepStatus != Executed && stepStatus != Approved) || currentStep + 1 >= |steps| {
        return Some(Invalid);
      }
      currentStep := currentStep + 1;
      Touch(actor, at);
      return None;
    }

    method Complete(expected: nat, actor: string, at: int) returns (r: Option<Error>)
      requires Valid()
      modifies this
      ensures match S.CompleteOrder(old(State()), expected, actor, at)
              case Success(next) => r == None && State() == next
              case Failure(error) => r == Some(error) && State() == old(State())
      ensures Valid()
    {
      hide Shape, Settle, Release;
      OperationKeepsShape(State(), CompleteOp(expected, actor, at));
      if revision != expected { return Some(Aborted); }
      if !AtStep(State(), StepType.Complete, Pending) { return Some(Invalid); }
      if currentStep == 0 || steps[currentStep - 1].status != Executed { return Some(Invalid); }
      steps := steps[currentStep := steps[currentStep].(status := Executed, executedAt := Some(at),
                                                        executedBy := actor)];
      SetItems(Some(ItemApplied));
      status, completedAt := Succeeded, Some(at);
      Touch(actor, at);
      return None;
    }

    /** The last percentage effect before the current step, found by scanning backwards. */
    method FindLastPercent() returns (r: Option<PercentEffect>)
      requires currentStep < |steps|
      ensures r == LastPercent(steps, currentStep)
    {
      var n: nat := currentStep;
      while n > 0
        invariant n <= currentStep
        invariant LastPercent(steps, currentStep) == LastPercent(steps, n)
      {
        if steps[n - 1].effect.Some? && steps[n - 1].effect.value.percent.Some? {
          return steps[n - 1].effect.value.percent;
        }
        n := n - 1;
      }
      return None;
    }

    method Record(effect: Envelope, actor: string, at: int)
      requires currentStep < |steps|
      requires WellFormedOrder(State())
      modifies this
      ensures State() == RecordEffect(old(State()), effect, actor, at)
    {
      steps := steps[currentStep := steps[currentStep].(
        status := Executed, executedAt := Some(at), executedBy := actor, effect := Some(effect))];
      Touch(actor, at);
    }

    method ExecuteBase(a: Authority, newRevision: nat, actor: string, at: int) returns (r: Result<Envelope, Error>)
      requires Valid()
      modifies this
      ensures match S.ExecuteBase(old(State()), a, newRevision, actor, at)
              case Success(pair) => r == Success(pair.1) && State() == pair.0
              case Failure(error) => r == Failure(error) && State() == old(State())
      ensures Valid()
    {
      hide Shape, BaseItems, LastPercent;
      OperationKeepsShape(State(), BaseOp(a, newRevision, actor, at));
      if !AtStep(State(), BaseApply, Pending) { return Failure(Invalid); }
      if Text.Blank(actor) || at == ZERO_TIME || newRevision <= a.revision { return Failure(Invalid); }
      var percent := FindLastPercent();
      var expected := if percent.Some? then percent.value.appliedRevision else items[0].expectedCollectionRevision;
      if a.revision != expected { return Failure(Aborted); }
      var planned := PlanBaseItems(State(), a, percent.Some?);
      if planned.Failure? { return Failure(planned.error); }
      if |planned.value.0| == 0 && |planned.value.1| == 0 { return Failure(Invalid); }
      var effect := BaseEnvelope(BaseEffect(EFFECT_VERSION, items[0].collection, scope, a.revision, newRevision,
                                            planned.value.0, planned.value.1, at, actor));
      Record(effect, actor, at);
      return Success(effect);
    }

    method ExecuteOverlay(a: Authority, newRevision: nat, actor: string, at: int) returns (r: Result<Envelope, Error>)
      requires Valid()
      modifies this
      ensures match S.ExecuteOverlay(old(State()), a, newRevision, actor, at)
              case Success(pair) => r == Success(pair.1) && State() == pair.0
              case Failure(error) => r == Failure(error) && State() == old(State())
      ensures Valid()
    {
      hide Shape, OverlayItems;
      OperationKeepsShape(State(), OverlayOp(a, newRevision, actor, at));
      if !AtStep(State(), OverlayApply, Pending) { return Failure(Invalid); }
      if Text.Blank(actor) || at == ZERO_TIME || newRevision <= a.revision { return Failure(Invalid); }
      var planned := PlanOverlayItems(State(), a, newRevision, actor, at);
      if planned.Failure? { return Failure(planned.error); }
      var effect := OverlayEnvelope(OverlayEffect(EFFECT_VERSION, items[0].collection, scope, a.revision, newRevision,
                                                  planned.value, at, actor));
      Record(effect, actor, at);
      return Success(effect);
    }

    method ExecutePercentRollout(a: Authority, newRevision: nat, actor: string, at: int)
      returns (r: Result<Envelope, Error>)
      requires Valid()
      modifies this
      ensures match S.ExecutePercentRollout(old(State()), a, newRevision, actor, at)
              case Success(pair) => r == Success(pair.1) && State() == pair.0
              case Failure(error) => r == Failure(error) && State() == old(State())
      ensures Valid()
    {
      hide Shape, PercentItems, LastPercent;
      OperationKeepsShape(State(), PercentOp(a, newRevision, actor, at));
      if !AtStep(State(), PercentRollout, Pending) { return Failure(Invalid); }
      var added := steps[currentStep].definition.params.ranges;
      if scope.stage == "" || Text.Blank(actor) || at == ZERO_TIME || newRevision <= a.revision || |added| == 0 {
        return Failure(Invalid);
      }
      var percent := FindLastPercent();
      var expected := if percent.Some? then percent.value.appliedRevision else items[0].expectedCollectionRevision;
      if a.revision != expected { return Failure(Aborted); }
      var planned := PlanPercentItems(State(), a, added, newRevision, actor, at);
      if planned.Failure? { return Failure(planned.error); }
      var effect := PercentEnvelope(PercentEffect(EFFECT_VERSION, items[0].collection, scope, a.revision, newRevision,
                                                  added, planned.value, at, actor));
      Record(effect, actor, at);
      return Success(effect);
    }

    method ExecuteCompare(expected: nat, actual: seq<Record>, actor: string,
                          at: int) returns (r: Result<(CompareResult, bool), Error>)
      requires Valid()
      modifies this
      ensures match S.ExecuteCompare(old(State()), expected, actual, actor, at)
              case Success(pair) => r == Success((pair.1, pair.1.diffKeys == [])) && State() == pair.0
              case Failure(error) => r == Failure(error) && State() == old(State())
      ensures Valid()
    {
      hide Shape, DiffKeys, ActualByKey, ExpectedByKey, WellFormedItem;
      OperationKeepsShape(State(), CompareOp(expected, actual, actor, at));
      if revision != expected { return Failure(Aborted); }
      if !AtStep(State(), Compare, Pending) { return Failure(Invalid); }
      if Text.Blank(actor) || at == ZERO_TIME { return Failure(Invalid); }
      var wanted := CollectExpected(items);
      var found := CollectActual(State(), actual);
      if found.Failure? { return Failure(found.error); }
      var diffKeys := FindDifferences(State(), wanted, found.value);
      var result := CompareResult(Digest(Payload(wanted)), Digest(Payload(found.value)), diffKeys, at);
      steps := steps[currentStep := steps[currentStep].(compareResult := Some(result))];
      if |diffKeys| == 0 {
        steps := steps[currentStep := steps[currentStep].(status := Executed, executedAt := Some(at),
                                                          executedBy := actor)];
      }
      Touch(actor, at);
      return Success((result, |diffKeys| == 0));
    }

    method RollbackAll(expected: nat, a: Authority, newRevision: nat, actor: string,
                       at: int) returns (r: Result<Envelope, Error>)
      requires Valid()
      modifies this
      ensures match S.RollbackAll(old(State()), expected, a, newRevision, actor, at)
              case Success(pair) => r == Success(pair.1) && State() == pair.0
              case Failure(error) => r == Failure(error) && State() == old(State())
      ensures Valid()
    {
      hide Shape, ValidEnvelope, FirstEffect, Unwind, MarkRolledBack, EffectsValid, HasEffect;
      OperationKeepsShape(State(), RollbackAllOp(expected, a, newRevision, actor, at));
      if revision != expected { return Failure(Aborted); }
      if status != InProgress || Text.Blank(actor) || at == ZERO_TIME || newRevision <= a.revision {
        return Failure(Invalid);
      }
      var effects := CheckEffects(steps);
      if effects.Failure? { return Failure(effects.error); }
      if |effects.value| == 0 { return Failure(Invalid); }
      var unwound := PlanUnwind(steps, scope, StartUnwind(a));
      if unwound.Failure? { return Failure(unwound.error); }
      var plan := RollbackPlan(State(), unwound.value, a.revision, newRevision, actor, at);
      var valid := ValidateStepEffect(Some(plan));
      if !valid { return Failure(FailedPrecondition); }
      RollBackEffects(effects.value, actor, at);
      return Success(plan);
    }

    method RollBackEffects(indexes: seq<nat>, actor: string, at: int)
      requires forall i: nat :: i in indexes <==> i < |steps| && steps[i].effect.Some?
      requires indexes != []
      modifies this
      ensures State() == Finish(old(State()).(steps := MarkRolledBack(old(steps), actor, at),
                                              items := Settle(old(items), ItemRolledBack),
                                              currentStep := indexes[|indexes| - 1]),
                                OrderRolledBack, actor, at)
    {
      steps := MarkEffects(steps, indexes, actor, at);
      SetItems(Some(ItemRolledBack));
      currentStep := indexes[|indexes| - 1];
      status, completedAt := OrderRolledBack, Some(at);
      Touch(actor, at);
    }

    method RollBackAt(index: nat, actor: string, at: int)
      requires index < |steps|
      modifies this
      ensures State() == RollBackStep(old(State()), index, actor, at)
    {
      steps := steps[index := steps[index].(status := RolledBack, rolledBackAt := Some(at), rolledBackBy := actor)];
      SetItems(Some(ItemRolledBack));
      currentStep, status, completedAt := index, OrderRolledBack, Some(at);
      Touch(actor, at);
    }

    method RollbackBase(expected: nat, a: Authority, newRevision: nat, actor: string,
                        at: int) returns (r: Result<BaseEffect, Error>)
      requires Valid()
      modifies this
      ensures match S.RollbackBase(old(State()), expected, a, newRevision, actor, at)
              case Success(pair) => r == Success(pair.1) && State() == pair.0
              case Failure(error) => r == Failure(error) && State() == old(State())
      ensures Valid()
    {
      hide Shape, UndoAdditions, RestoreCleaned;
      OperationKeepsShape(State(), RollbackBaseOp(expected, a, newRevision, actor, at));
      if revision != expected { return Failure(Aborted); }
      if status != InProgress || Text.Blank(actor) || at == ZERO_TIME || newRevision <= a.revision {
        return Failure(Invalid);
      }
      var index: nat := |steps|;
      while index > 0 && !(steps[index - 1].effect.Some? && steps[index - 1].effect.value.base.Some?)
        invariant index <= |steps| && LastBaseStep(steps, |steps|) == LastBaseStep(steps, index)
      {
        index := index - 1;
      }
      if index == 0 { return Failure(Invalid); }
      var original := steps[index - 1].effect.value.base.value;
      if a.revision != original.appliedRevision { return Failure(Aborted); }
      var changes := PlanUndoAdditions(original.changes, original.appliedRevision, a.records);
      if changes.Failure? { return Failure(changes.error); }
      var overlayChanges := PlanRestoreCleaned(original.overlayChanges, a.rules);
      if overlayChanges.Failure? { return Failure(overlayChanges.error); }
      RollBackAt(index - 1, actor, at);
      return Success(BaseEffect(EFFECT_VERSION, original.collection, original.scope, a.revision, newRevision,
                                changes.value, overlayChanges.value, at, actor));
    }

    method RollbackOverlay(expected: nat, currentRevision: nat, newRevision: nat, actor: string,
                           at: int) returns (r: Result<OverlayEffect, Error>)
      requires Valid()
      modifies this
      ensures match S.RollbackOverlay(old(State()), expected, currentRevision, newRevision, actor, at)
              case Success(pair) => r == Success(pair.1) && State() == pair.0
              case Failure(error) => r == Failure(error) && State() == old(State())
      ensures Valid()
    {
      hide Shape, SwapRules;
      OperationKeepsShape(State(), RollbackOverlayOp(expected, currentRevision, newRevision, actor, at));
      if revision != expected { return Failure(Aborted); }
      if status != InProgress || Text.Blank(actor) || at == ZERO_TIME || currentRevision == 0
         || newRevision <= currentRevision {
        return Failure(Invalid);
      }
      var index: nat := |steps|;
      while index > 0 && !(steps[index - 1].effect.Some? && steps[index - 1].effect.value.overlay.Some?)
        invariant index <= |steps| && LastOverlayStep(steps, |steps|) == LastOverlayStep(steps, index)
      {
        index := index - 1;
      }
      if index == 0 { return Failure(Invalid); }
      var original := steps[index - 1].effect.value.overlay.value;
      if currentRevision != original.appliedRevision { return Failure(Aborted); }
      var changes := PlanSwap(original.changes);
      RollBackAt(index - 1, actor, at);
      return Success(OverlayEffect(EFFECT_VERSION, original.collection, original.scope, currentRevision, newRevision,
                                   changes, at, actor));
    }

    /** Derives the compensating items; reads the order and changes nothing. */
    method PlanCompensation(a: C.CompensationAuthority) returns (r: Result<C.CompensationPlan, Error>)
      requires WellFormedOrder(State()) && EffectsValid(steps)
      ensures r == C.PlanCompensation(State(), a)
    {
      hide ValidEnvelope, C.PlanItem;
      if status != Succeeded || a.revision == 0 { return Failure(Invalid); }
      var n: nat := |steps|;
      while n > 0 && (steps[n - 1].effect.None? || steps[n - 1].effect.value.effectType == PercentType)
        invariant n <= |steps| && C.FinalOf(steps, |steps|) == C.FinalOf(steps, n)
      {
        n := n - 1;
      }
      var final := C.FinalOf(steps, n);
      if final.None? { return Failure(Invalid); }
      var planned: seq<C.CompensationItem> := [];
      for i := 0 to |items|
        invariant C.PlanItems(final.value, a, items[..i]) == Success(planned)
      {
        assert items[..i + 1][..i] == items[..i];
        PlanItemsFailOnward(final.value, a, items, i + 1);
        var one := C.PlanItem(final.value, a, items[i]);
        if one.Failure? { return Failure(one.error); }
        planned := planned + [one.value];
      }
      assert items[..|items|] == items;
      return Success(C.CompensationPlan(if final.value.overlay then OverlayFinal else BaseFinal, planned));
    }
  }

  lemma {:induction false} PlanItemsFailOnward(f: C.Final, a: C.CompensationAuthority, items: seq<Item>, n: nat)
    requires n <= |items|
    ensures C.PlanItems(f, a, items[..n]).Failure? ==>
              C.PlanItems(f, a, items) == Failure(C.PlanItems(f, a, items[..n]).error)
    decreases |items| - n
  {
    hide C.PlanItem;
    if n == |items| {
      assert items[..n] == items;
    } else {
      assert items[..n + 1][..n] == items[..n];
      PlanItemsFailOnward(f, a, items, n + 1);
    }
  }

  /** What every method of the aggregate needs of its state: shape in, shape out. */
  lemma OperationKeepsShape(o: Order, op: Op)
    requires Shape(o)
    ensures WellFormedOrder(o) && ReviewsHaveApproval(o)
    ensures Perform(o, op).Success? ==> Shape(Perform(o, op).value)
  {
    EveryStepKeepsShape(o, op);
  }

  /** NewBaseFinalOrder (`overlay` false) and NewOverlayFinalOrder (`overlay` true). */
  method NewAggregate(overlay: bool, spec: OrderSpec) returns (r: Result<Aggregate, Error>)
    requires overlay ==> spec.template.finalEffect == OverlayFinal ==> spec.template.steps != []
    ensures match NewOrder(overlay, spec)
            case Success(o) => r.Success? && fresh(r.value) && r.value.Valid() && r.value.State() == o
            case Failure(error) => r == Failure(error)
  {
    hide AcceptsItem, Shape;
    var scope := TrimScope(spec.scope);
    if Text.Blank(spec.id) || Text.Trim(spec.compensatesOrderId) == Text.Trim(spec.id) { return Failure(Invalid); }
    if scope.region == "" || scope.environment == "" || (overlay && scope.stage == "") { return Failure(Invalid); }
    if Text.Blank(spec.createdBy) || spec.createdAt == ZERO_TIME { return Failure(Invalid); }
    if |spec.items| == 0 || |spec.items| > 500 { return Failure(Invalid); }
    if overlay && spec.template.finalEffect != OverlayFinal { return Failure(Invalid); }
    var items := BuildItems(overlay, spec, scope);
    if items.Failure? { return Failure(items.error); }
    var definitions := if overlay then spec.template.steps else BaseFinalSteps(spec.template);
    var o := Order(spec.id, scope, spec.createdBy, InProgress, 1, 0, NewSteps(definitions), items.value, None,
                   spec.createdBy, spec.createdAt);
    NewOrderShape(overlay, spec);
    var expected := NewOrder(overlay, spec).value;
    forall i | 0 <= i < |spec.items| ensures expected.items[i] == items.value[i] {
    }
    assert expected == o;
    var order := new Aggregate(o);
    return Success(order);
  }
}
