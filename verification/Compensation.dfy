/** Compensation: deriving the order that undoes a finished one, and what executing it achieves. */
module Compensation {
  import opened Wrappers
  import opened Catalog
  import opened Template
  import opened Effects
  import opened OrderState
  import opened World
  import opened Reach
  import Text

  datatype CompensationAuthority = CompensationAuthority(
    revision: nat, baseRecords: map<string, Record>, effectiveRecords: map<string, Record>)

  datatype CompensationItem = CompensationItem(
    action: ChangeAction, baseBefore: Option<Record>, effectiveBefore: Option<Record>, after: Option<Record>,
    expectedRecordRevision: nat, expectedCollectionRevision: nat)

  datatype CompensationPlan = CompensationPlan(finalEffect: FinalEffect, items: seq<CompensationItem>)

  /** The effect that decided the order's result: the newest base or overlay effect. */
  datatype Final = Final(overlay: bool, revision: nat, changed: set<string>)

  function FinalOf(steps: seq<StepState>, n: nat): Option<Final>
    requires n <= |steps| && EffectsValid(steps)
  {
    if n == 0 then None
    else if steps[n - 1].effect.None? then FinalOf(steps, n - 1)
    else
      var e := steps[n - 1].effect.value;
      if e.effectType == BaseType then
        Some(Final(false, e.base.value.appliedRevision, set c | c in e.base.value.changes :: ChangeKey(c)))
      else if e.effectType == OverlayType then Some(Final(true, e.overlay.value.appliedRevision, {}))
      else FinalOf(steps, n - 1)
  }

  predicate SameFact(actual: Option<Record>, expected: Option<Record>, revision: nat) {
    match (actual, expected)
    case (None, None) => true
    case (Some(a), Some(e)) =>
      a.collection == e.collection && a.environment == e.environment && a.key == e.key
      && a.revision == revision && EqualData(a.data, e.data)
    case _ => false
  }

  function ExpectedBase(f: Final, item: Item): Option<Record> {
    if f.overlay then item.baseBefore else item.after
  }

  function Desired(f: Final, item: Item): Option<Record> {
    if f.overlay then item.effectiveBefore else item.baseBefore
  }

  function BaseFactRevision(f: Final, item: Item): nat {
    if !f.overlay && item.key in f.changed then f.revision else item.expectedRecordRevision
  }

  function EffectiveFactRevision(f: Final, item: Item): nat {
    if f.overlay then (if item.after.Some? then f.revision else 0) else BaseFactRevision(f, item)
  }

  /** The target is still what the order left: base and effective record, data and revision. */
  predicate NotDrifted(f: Final, a: CompensationAuthority, item: Item) {
    && SameFact(Lookup(a.baseRecords, item.key), ExpectedBase(f, item), BaseFactRevision(f, item))
    && SameFact(Lookup(a.effectiveRecords, item.key), item.after, EffectiveFactRevision(f, item))
  }

  function PlanItem(f: Final, a: CompensationAuthority, item: Item): Result<CompensationItem, Error> {
    var base, effective, desired := Lookup(a.baseRecords, item.key), Lookup(a.effectiveRecords, item.key),
        Desired(f, item);
    if item.status != ItemApplied then Failure(Invalid)
    else if !NotDrifted(f, a, item) then Failure(Aborted)
    else if effective.None? && desired.None? then Failure(Invalid)
    else
      var action := if effective.None? then Add else if desired.None? then Delete else Modify;
      Success(CompensationItem(action, base, effective, desired,
                               if base.Some? then base.value.revision else 0, a.revision))
  }

  function PlanItems(f: Final, a: CompensationAuthority, items: seq<Item>): (r: Result<seq<CompensationItem>, Error>)
    ensures r.Success? ==> |r.value| == |items|
  {
    if items == [] then Success([])
    else
      var before :- PlanItems(f, a, items[..|items| - 1]);
      var last :- PlanItem(f, a, items[|items| - 1]);
      Success(before + [last])
  }

  function PlanCompensation(o: Order, a: CompensationAuthority): Result<CompensationPlan, Error>
    requires WellFormedOrder(o) && EffectsValid(o.steps)
  {
    if o.status != Succeeded || a.revision == 0 then Failure(Invalid)
    else match FinalOf(o.steps, |o.steps|)
      case None => Failure(Invalid)
      case Some(f) =>
        var items :- PlanItems(f, a, o.items);
        Success(CompensationPlan(if f.overlay then OverlayFinal else BaseFinal, items))
  }

  function SpecOfItem(item: Item): ItemSpec {
    ItemSpec(item.id, item.action, item.baseBefore, item.effectiveBefore, item.after,
             item.expectedRecordRevision, item.expectedCollectionRevision)
  }

  /** A finished order as its constructor and COMPLETE left it. */
  predicate Finished(o: Order, f: Final) {
    && WellFormedOrder(o) && EffectsValid(o.steps) && o.status == Succeeded
    && FinalOf(o.steps, |o.steps|) == Some(f)
    && (forall i :: 0 <= i < |o.items| ==>
         && o.items[i].status == ItemApplied
         && (if f.overlay then ValidOverlayShape(SpecOfItem(o.items[i])) else ValidBaseShape(SpecOfItem(o.items[i]))))
  }

  lemma {:induction false} PlanItemsMeaning(f: Final, a: CompensationAuthority, items: seq<Item>)
    requires forall i :: 0 <= i < |items| ==>
               PlanItem(f, a, items[i]).Success? || PlanItem(f, a, items[i]) == Failure(Aborted)
    ensures PlanItems(f, a, items).Success? <==> forall i :: 0 <= i < |items| ==> PlanItem(f, a, items[i]).Success?
    ensures PlanItems(f, a, items).Success? ==>
              forall i :: 0 <= i < |items| ==> PlanItem(f, a, items[i]) == Success(PlanItems(f, a, items).value[i])
    ensures PlanItems(f, a, items).Failure? ==> PlanItems(f, a, items) == Failure(Aborted)
  {
    if items != [] {
      var init := items[..|items| - 1];
      PlanItemsMeaning(f, a, init);
      assert forall i :: 0 <= i < |init| ==> init[i] == items[i];
    }
  }

  /**
   * A finished order can be compensated exactly when none of its targets has drifted; otherwise the plan is aborted.
   */
  lemma CompensationExactlyWithoutDrift(o: Order, f: Final, a: CompensationAuthority)
    requires Finished(o, f) && a.revision > 0
    ensures PlanCompensation(o, a).Success? <==> forall i :: 0 <= i < |o.items| ==> NotDrifted(f, a, o.items[i])
    ensures PlanCompensation(o, a).Failure? ==> PlanCompensation(o, a) == Failure(Aborted)
    ensures PlanCompensation(o, a).Success? ==>
              && |PlanCompensation(o, a).value.items| == |o.items|
              && forall i :: 0 <= i < |o.items| ==>
                   PlanItem(f, a, o.items[i]) == Success(PlanCompensation(o, a).value.items[i])
  {
    forall i | 0 <= i < |o.items|
      ensures if NotDrifted(f, a, o.items[i]) then PlanItem(f, a, o.items[i]).Success?
              else PlanItem(f, a, o.items[i]) == Failure(Aborted)
    {
    }
    PlanItemsMeaning(f, a, o.items);
  }

  // ----- the compensating order -----

  /** The specification CreateCompensatingRelease hands to the constructor. */
  function CompensatingSpec(o: Order, plan: CompensationPlan, id: string, itemIds: seq<string>, actor: string, at: int,
                            template: CompiledTemplate): OrderSpec
    requires |itemIds| == |plan.items|
  {
    OrderSpec(id, o.id, o.scope, actor, at,
              seq(|plan.items|, i requires 0 <= i < |plan.items| =>
                ItemSpec(itemIds[i], plan.items[i].action, plan.items[i].baseBefore, plan.items[i].effectiveBefore,
                         plan.items[i].after, plan.items[i].expectedRecordRevision,
                         plan.items[i].expectedCollectionRevision)),
              template)
  }

  /** The records the plan was made from carry positive revisions. */
  predicate PositiveRevisions(records: map<string, Record>) {
    forall k :: k in records ==> records[k].revision > 0
  }

  /** Header fields the constructors check that do not come from the plan. */
  predicate FreshHeader(o: Order, f: Final, id: string, itemIds: seq<string>, actor: string, at: int,
                        template: CompiledTemplate) {
    && !Text.Blank(id) && Text.Trim(id) != Text.Trim(o.id)
    && TrimScope(o.scope) == o.scope && o.scope.region != "" && o.scope.environment != ""
    && (f.overlay ==> o.scope.stage != "")
    && !Text.Blank(actor) && at != ZERO_TIME && |o.items| <= 500
    && |itemIds| == |o.items| && (forall i :: 0 <= i < |itemIds| ==> !Text.Blank(itemIds[i]))
    && (f.overlay ==> template.finalEffect == OverlayFinal)
  }

  lemma PlannedItemAccepted(o: Order, f: Final, a: CompensationAuthority, spec: OrderSpec, i: nat)
    requires Finished(o, f) && a.revision > 0 && PositiveRevisions(a.baseRecords)
    requires i < |o.items| == |spec.items| && !Text.Blank(spec.items[i].id)
    requires PlanItem(f, a, o.items[i]).Success?
    requires var p := PlanItem(f, a, o.items[i]).value;
             spec.items[i] == ItemSpec(spec.items[i].id, p.action, p.baseBefore, p.effectiveBefore, p.after,
                                       p.expectedRecordRevision, p.expectedCollectionRevision)
    requires spec.items[0].expectedCollectionRevision == a.revision
    ensures AcceptsItem(f.overlay, spec, o.scope, o.items[0].collection, i)
    ensures TargetOf(f.overlay, spec.items[i]).Some?
    ensures TargetKey(f.overlay, spec.items[i]) == o.items[i].key
  {
    assert WellFormedItem(o.items[i], o.items[0].collection, o.scope);
  }

  /** The planned items meet every shape rule of the constructor of the same final effect. */
  lemma CompensatingOrderConstructs(o: Order, f: Final, a: CompensationAuthority, id: string, itemIds: seq<string>,
                                    actor: string, at: int, template: CompiledTemplate)
    requires Finished(o, f) && a.revision > 0 && PositiveRevisions(a.baseRecords)
    requires FreshHeader(o, f, id, itemIds, actor, at, template)
    requires PlanCompensation(o, a).Success?
    ensures var plan := PlanCompensation(o, a).value;
            && |plan.items| == |itemIds|
            && var spec := CompensatingSpec(o, plan, id, itemIds, actor, at, template);
            var made := NewOrder(f.overlay, spec);
            && made.Success? && |made.value.items| == |o.items|
            && forall i :: 0 <= i < |o.items| ==>
                 && made.value.items[i].key == o.items[i].key
                 && made.value.items[i].collection == o.items[0].collection
                 && SpecOfItem(made.value.items[i]) == spec.items[i]
  {
    CompensationExactlyWithoutDrift(o, f, a);
    var plan := PlanCompensation(o, a).value;
    var spec := CompensatingSpec(o, plan, id, itemIds, actor, at, template);
    forall i | 0 <= i < |spec.items|
      ensures AcceptsItem(f.overlay, spec, o.scope, o.items[0].collection, i)
      ensures TargetOf(f.overlay, spec.items[i]).Some? && TargetKey(f.overlay, spec.items[i]) == o.items[i].key
    {
      PlannedItemAccepted(o, f, a, spec, i);
    }
    assert AcceptsSpec(f.overlay, spec);
  }

  // ----- executing the compensating order -----

  /** The order `c` was made from the plan that compensates `o`. */
  predicate Compensates(o: Order, f: Final, a: CompensationAuthority, c: Order) {
    && WellFormedOrder(c) && c.scope == o.scope && |c.items| == |o.items|
    && forall i :: 0 <= i < |o.items| ==>
         && PlanItem(f, a, o.items[i]).Success?
         && var p := PlanItem(f, a, o.items[i]).value;
         && c.items[i].key == o.items[i].key && c.items[i].collection == o.items[i].collection
         && c.items[i].baseBefore == p.baseBefore && c.items[i].effectiveBefore == p.effectiveBefore
         && c.items[i].after == p.after
         && c.items[i].expectedRecordRevision == p.expectedRecordRevision
         && c.items[i].expectedCollectionRevision == p.expectedCollectionRevision
  }

  /** The records of the targets are the ones the plan was made from. */
  predicate TargetsUnchanged(o: Order, a: CompensationAuthority, w: World) {
    forall i :: 0 <= i < |o.items| ==> Lookup(w.records, o.items[i].key) == Lookup(a.baseRecords, o.items[i].key)
  }

  /**
   * Executing the compensation of a BASE_FINAL order restores every target's base data, exactly unless the data
   * comparison takes the present record for the one to restore although they differ.
   */
  lemma CompensationRestoresBase(o: Order, f: Final, a: CompensationAuthority, c: Order, w: World,
                                 newRevision: nat, actor: string, at: int, i: nat)
    requires Finished(o, f) && !f.overlay && Compensates(o, f, a, c) && TargetsUnchanged(o, a, w)
    requires WellFormedWorld(w, c.items[0].collection, c.scope.environment) && i < |o.items|
    requires ExecuteBase(c, AuthorityOf(w), newRevision, actor, at).Success?
    requires ApplyEffect(ExecuteBase(c, AuthorityOf(w), newRevision, actor, at).value.1, w).Success?
    ensures var after := ApplyEffect(ExecuteBase(c, AuthorityOf(w), newRevision, actor, at).value.1, w).value;
            && (SameContent(Lookup(after.records, o.items[i].key), o.items[i].baseBefore)
                <==> !Masked(Lookup(w.records, o.items[i].key), o.items[i].baseBefore))
            && o.items[i].key !in after.rules
  {
    hide ExecuteBase, ApplyEffect, PlanItem;
    BaseStepReaches(c, w, newRevision, actor, at, i);
    assert c.items[i].after == o.items[i].baseBefore by { PlannedAfter(f, a, o.items[i]); }
  }

  lemma PlannedAfter(f: Final, a: CompensationAuthority, item: Item)
    requires PlanItem(f, a, item).Success?
    ensures PlanItem(f, a, item).value.after == Desired(f, item)
    ensures PlanItem(f, a, item).value.baseBefore == Lookup(a.baseRecords, item.key)
    ensures PlanItem(f, a, item).value.effectiveBefore == Lookup(a.effectiveRecords, item.key)
    ensures NotDrifted(f, a, item)
  {
  }

  /** The target still needs a record change, or has a rule to clean up. */
  predicate ToDo(a: Authority, item: Item) {
    BaseItemChanges(Lookup(a.records, item.key), item) != [] || item.key in a.rules
  }

  predicate SomethingToDo(a: Authority, items: seq<Item>) {
    exists i :: 0 <= i < |items| && ToDo(a, items[i])
  }

  lemma BaseItemToDo(c: Order, a: Authority, hasPercent: bool, item: Item)
    requires BaseItem(c, a, hasPercent, item).Success?
    ensures var r := BaseItem(c, a, hasPercent, item).value;
            (r.0 != [] || r.1 != []) <==> ToDo(a, item)
  {
  }

  lemma ToDoSplit(a: Authority, items: seq<Item>)
    requires items != []
    ensures SomethingToDo(a, items) <==> SomethingToDo(a, items[..|items| - 1]) || ToDo(a, items[|items| - 1])
  {
    var init := items[..|items| - 1];
    if SomethingToDo(a, init) {
      var i :| 0 <= i < |init| && ToDo(a, init[i]);
      assert items[i] == init[i];
    }
    if ToDo(a, items[|items| - 1]) { assert SomethingToDo(a, items); }
  }

  lemma {:induction false} BaseItemsTotal(c: Order, a: Authority, hasPercent: bool, items: seq<Item>)
    requires forall i :: 0 <= i < |items| ==> BaseItem(c, a, hasPercent, items[i]).Success?
    ensures BaseItems(c, a, hasPercent, items).Success?
    ensures var r := BaseItems(c, a, hasPercent, items).value;
            (r.0 != [] || r.1 != []) <==> SomethingToDo(a, items)
  {
    if items != [] {
      hide BaseItem, ToDo, SomethingToDo;
      var init, last := items[..|items| - 1], items[|items| - 1];
      BaseItemsTotal(c, a, hasPercent, init);
      assert BaseItem(c, a, hasPercent, last).Success?;
      BaseItemToDo(c, a, hasPercent, last);
      ToDoSplit(a, items);
    }
  }

  /**
   * The compensating base step executes exactly when it has something to do: the revision, record and identity
   * checks cannot refuse it while the collection is as planned.
   */
  lemma CompensationExecutes(o: Order, f: Final, a: CompensationAuthority, c: Order, w: World,
                             newRevision: nat, actor: string, at: int)
    requires Finished(o, f) && !f.overlay && Compensates(o, f, a, c) && TargetsUnchanged(o, a, w)
    requires PositiveRevisions(a.baseRecords) && a.revision == w.revision
    requires AtStep(c, BaseApply, Pending) && LastPercent(c.steps, c.currentStep).None?
    requires forall i :: 0 <= i < |c.items| && c.items[i].key in w.rules ==>
               RuleTargets(w.rules[c.items[i].key], c.items[i], c.scope)
    requires !Text.Blank(actor) && at != ZERO_TIME && w.revision < newRevision
    ensures ExecuteBase(c, AuthorityOf(w), newRevision, actor, at).Success? <==> SomethingToDo(AuthorityOf(w), c.items)
  {
    hide PlanItem, BaseItems, SomethingToDo;
    forall i | 0 <= i < |c.items| ensures BaseItem(c, AuthorityOf(w), false, c.items[i]).Success? {
      PlannedRevision(f, a, o.items[i]);
      PlannedAfter(f, a, o.items[i]);
    }
    BaseItemsTotal(c, AuthorityOf(w), false, c.items);
    PlannedRevision(f, a, o.items[0]);
  }

  lemma {:induction false} OverlayItemsTotal(c: Order, a: Authority, newRevision: nat, actor: string, at: int,
                                             items: seq<Item>)
    requires forall i :: 0 <= i < |items| ==> OverlayItem(c, a, newRevision, actor, at, items[i]).Success?
    ensures OverlayItems(c, a, newRevision, actor, at, items).Success?
  {
    hide OverlayItem;
    if items != [] { OverlayItemsTotal(c, a, newRevision, actor, at, items[..|items| - 1]); }
  }

  lemma OverlayItemPlans(c: Order, w: World, newRevision: nat, actor: string, at: int, item: Item, collection: string)
    requires WellFormedItem(item, collection, c.scope) && WellFormedWorld(w, collection, c.scope.environment)
    requires w.revision == item.expectedCollectionRevision && BaseUnchanged(item, Lookup(w.records, item.key))
    requires item.key in w.rules ==> RuleTargets(w.rules[item.key], item, c.scope)
    requires c.scope.region != "" && c.scope.environment != "" && c.scope.stage != ""
    ensures OverlayItem(c, AuthorityOf(w), newRevision, actor, at, item).Success?
  {
    if item.key in w.records { assert Belongs(w.records[item.key], collection, c.scope.environment, item.key); }
  }

  /** The compensating overlay step cannot be refused while the collection is as planned. */
  lemma CompensationOverlayExecutes(o: Order, f: Final, a: CompensationAuthority, c: Order, w: World,
                                    newRevision: nat, actor: string, at: int)
    requires Finished(o, f) && f.overlay && Compensates(o, f, a, c) && TargetsUnchanged(o, a, w)
    requires PositiveRevisions(a.baseRecords) && a.revision == w.revision
    requires WellFormedWorld(w, c.items[0].collection, c.scope.environment)
    requires AtStep(c, OverlayApply, Pending)
    requires forall i :: 0 <= i < |c.items| && c.items[i].key in w.rules ==>
               RuleTargets(w.rules[c.items[i].key], c.items[i], c.scope)
    requires c.scope.region != "" && c.scope.environment != "" && c.scope.stage != ""
    requires !Text.Blank(actor) && at != ZERO_TIME && w.revision < newRevision
    ensures ExecuteOverlay(c, AuthorityOf(w), newRevision, actor, at).Success?
  {
    hide PlanItem, OverlayItem, OverlayItems, WellFormedItem;
    forall i | 0 <= i < |c.items| ensures OverlayItem(c, AuthorityOf(w), newRevision, actor, at, c.items[i]).Success? {
      PlannedRevision(f, a, o.items[i]);
      PlannedAfter(f, a, o.items[i]);
      OverlayItemPlans(c, w, newRevision, actor, at, c.items[i], c.items[0].collection);
    }
    OverlayItemsTotal(c, AuthorityOf(w), newRevision, actor, at, c.items);
  }

  lemma PlannedRevision(f: Final, a: CompensationAuthority, item: Item)
    requires PlanItem(f, a, item).Success?
    ensures PlanItem(f, a, item).value.expectedCollectionRevision == a.revision
    ensures PlanItem(f, a, item).value.expectedRecordRevision ==
            (match Lookup(a.baseRecords, item.key) case None => 0 case Some(r) => r.revision)
  {
  }
}
