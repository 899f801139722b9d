/** Release orders acting on the stored configuration: one transaction per command, any number of commands. */
module ReleaseRun {
  import opened Wrappers
  import opened Catalog
  import opened Overlay
  import opened Template
  import opened Effects
  import opened OrderState
  import opened Lifecycle
  import opened World
  import opened Rollback

  datatype Action = ExecuteAction | AdvanceAction | ApproveAction | RejectAction | RollbackAction

  datatype Command = Command(
    orderId: string, requestId: string, expectedRevision: nat, expectedStep: string, action: Action,
    actor: string, roles: seq<string>, comment: string)

  /** The order and the configuration it changes. */
  datatype System = System(order: Order, world: World)

  /** The state after a command, and whether a comparison it ran found no difference. */
  datatype Outcome = Outcome(system: System, matched: bool)

  /** The base records of the targets, in item order. */
  function TargetRecords(items: seq<Item>, records: map<string, Record>): seq<Record> {
    if items == [] then []
    else
      var before, key := TargetRecords(items[..|items| - 1], records), items[|items| - 1].key;
      if key in records then before + [records[key]] else before
  }

  function TargetRules(items: seq<Item>, rules: map<string, Rule>): seq<Rule> {
    if items == [] then []
    else
      var before, key := TargetRules(items[..|items| - 1], rules), items[|items| - 1].key;
      if key in rules then before + [rules[key]] else before
  }

  /** What a COMPARE step looks at: base records, or their evaluation in the order's scope for its preview bucket. */
  ghost function CompareRecords(o: Order, w: World): Result<seq<Record>, Error>
    requires WellFormedOrder(o) && AtStep(o, Compare, o.steps[o.currentStep].status)
  {
    var params, base := o.steps[o.currentStep].definition.params, TargetRecords(o.items, w.records);
    match params.mode
    case CompareBase => Success(base)
    case CompareEffective =>
      match EvaluateSpec(Query(o.items[0].collection, o.scope, params.previewBucket), base,
                         TargetRules(o.items, w.rules))
      case Success(records) => Success(records)
      case Failure(_) => Failure(Internal)
  }

  ghost function Configure(s: System, r: Result<(Order, Envelope), Error>): Result<Outcome, Error> {
    var executed :- r;
    var world :- ApplyEffect(executed.1, s.world);
    Success(Outcome(System(executed.0, world), true))
  }

  function Settle1(s: System, r: Result<Order, Error>): Result<Outcome, Error> {
    match r
    case Success(order) => Success(Outcome(System(order, s.world), true))
    case Failure(e) => Failure(e)
  }

  /** The body of one command's transaction, after the idempotency and revision checks. */
  ghost function Dispatch(s: System, c: Command, now: int, newRevision: nat): Result<Outcome, Error>
    requires WellFormedOrder(s.order) && ReviewsHaveApproval(s.order)
  {
    var o, a := s.order, AuthorityOf(s.world);
    match c.action
    case AdvanceAction => Settle1(s, Advance(o, c.expectedRevision, c.actor, now))
    case ApproveAction => Settle1(s, ApproveManualReview(o, c.expectedRevision, Principal(c.actor, c.roles), c.comment,
                                                         now))
    case RejectAction => Settle1(s, RejectManualReview(o, c.expectedRevision, Principal(c.actor, c.roles), c.comment,
                                                       now))
    case RollbackAction => Configure(s, RollbackAll(o, c.expectedRevision, a, newRevision, c.actor, now))
    case ExecuteAction =>
      match o.steps[o.currentStep].definition.Type()
      case ManualReview => Settle1(s, ExecuteManualReview(o, c.expectedRevision, c.actor, now))
      case BaseApply => Configure(s, ExecuteBase(o, a, newRevision, c.actor, now))
      case OverlayApply => Configure(s, ExecuteOverlay(o, a, newRevision, c.actor, now))
      case PercentRollout => Configure(s, ExecutePercentRollout(o, a, newRevision, c.actor, now))
      case Complete => Settle1(s, CompleteOrder(o, c.expectedRevision, c.actor, now))
      case Compare =>
        if o.status != InProgress then Failure(Invalid)
        else
          var actual :- CompareRecords(o, s.world);
          var compared :- ExecuteCompare(o, c.expectedRevision, actual, c.actor, now);
          Success(Outcome(System(compared.0, s.world), compared.1.diffKeys == []))
  }

  /** Dispatching is one operation of the order's life cycle. */
  ghost function OpOf(s: System, c: Command, now: int, newRevision: nat): Op
    requires WellFormedOrder(s.order)
  {
    var o, a := s.order, AuthorityOf(s.world);
    match c.action
    case AdvanceAction => AdvanceOp(c.expectedRevision, c.actor, now)
    case ApproveAction => ApproveOp(c.expectedRevision, Principal(c.actor, c.roles), c.comment, now)
    case RejectAction => RejectOp(c.expectedRevision, Principal(c.actor, c.roles), c.comment, now)
    case RollbackAction => RollbackAllOp(c.expectedRevision, a, newRevision, c.actor, now)
    case ExecuteAction =>
      match o.steps[o.currentStep].definition.Type()
      case ManualReview => ReviewOp(c.expectedRevision, c.actor, now)
      case BaseApply => BaseOp(a, newRevision, c.actor, now)
      case OverlayApply => OverlayOp(a, newRevision, c.actor, now)
      case PercentRollout => PercentOp(a, newRevision, c.actor, now)
      case Complete => CompleteOp(c.expectedRevision, c.actor, now)
      case Compare =>
        if o.status == InProgress && CompareRecords(o, s.world).Success?
        then CompareOp(c.expectedRevision, CompareRecords(o, s.world).value, c.actor, now)
        else CompareOp(c.expectedRevision, [], c.actor, now)
  }

  lemma ConfigureFirst(s: System, r: Result<(Order, Envelope), Error>)
    ensures Configure(s, r).Success? ==> First(r) == Success(Configure(s, r).value.system.order)
  {
  }

  lemma BaseIsOneOp(s: System, c: Command, now: int, newRevision: nat)
    requires Shape(s.order) && c.action == ExecuteAction
    requires s.order.steps[s.order.currentStep].definition.Type() == BaseApply
    requires Dispatch(s, c, now, newRevision).Success?
    ensures Perform(s.order, OpOf(s, c, now, newRevision))
            == Success(Dispatch(s, c, now, newRevision).value.system.order)
  {
    hide ExecuteBase, Configure, First;
    ConfigureFirst(s, ExecuteBase(s.order, AuthorityOf(s.world), newRevision, c.actor, now));
  }

  lemma OverlayIsOneOp(s: System, c: Command, now: int, newRevision: nat)
    requires Shape(s.order) && c.action == ExecuteAction
    requires s.order.steps[s.order.currentStep].definition.Type() == OverlayApply
    requires Dispatch(s, c, now, newRevision).Success?
    ensures Perform(s.order, OpOf(s, c, now, newRevision))
            == Success(Dispatch(s, c, now, newRevision).value.system.order)
  {
    hide ExecuteOverlay, Configure, First;
    ConfigureFirst(s, ExecuteOverlay(s.order, AuthorityOf(s.world), newRevision, c.actor, now));
  }

  lemma PercentIsOneOp(s: System, c: Command, now: int, newRevision: nat)
    requires Shape(s.order) && c.action == ExecuteAction
    requires s.order.steps[s.order.currentStep].definition.Type() == PercentRollout
    requires Dispatch(s, c, now, newRevision).Success?
    ensures Perform(s.order, OpOf(s, c, now, newRevision))
            == Success(Dispatch(s, c, now, newRevision).value.system.order)
  {
    hide ExecutePercentRollout, Configure, First;
    var r := ExecutePercentRollout(s.order, AuthorityOf(s.world), newRevision, c.actor, now);
    ConfigureFirst(s, r);
    assert Dispatch(s, c, now, newRevision) == Configure(s, r);
    assert OpOf(s, c, now, newRevision) == PercentOp(AuthorityOf(s.world), newRevision, c.actor, now);
  }

  lemma CompareIsOneOp(s: System, c: Command, now: int, newRevision: nat)
    requires Shape(s.order) && c.action == ExecuteAction
    requires s.order.steps[s.order.currentStep].definition.Type() == Compare
    requires Dispatch(s, c, now, newRevision).Success?
    ensures Perform(s.order, OpOf(s, c, now, newRevision))
            == Success(Dispatch(s, c, now, newRevision).value.system.order)
  {
  }

  lemma PlainIsOneOp(s: System, c: Command, now: int, newRevision: nat)
    requires Shape(s.order) && c.action == ExecuteAction
    requires s.order.steps[s.order.currentStep].definition.Type() in {ManualReview, Complete}
    requires Dispatch(s, c, now, newRevision).Success?
    ensures Perform(s.order, OpOf(s, c, now, newRevision))
            == Success(Dispatch(s, c, now, newRevision).value.system.order)
  {
  }

  lemma RollbackIsOneOp(s: System, c: Command, now: int, newRevision: nat)
    requires Shape(s.order) && c.action == RollbackAction && Dispatch(s, c, now, newRevision).Success?
    ensures Perform(s.order, OpOf(s, c, now, newRevision))
            == Success(Dispatch(s, c, now, newRevision).value.system.order)
  {
    hide RollbackAll, Configure, First;
    ConfigureFirst(s, RollbackAll(s.order, c.expectedRevision, AuthorityOf(s.world), newRevision, c.actor, now));
  }

  lemma DecisionIsOneOp(s: System, c: Command, now: int, newRevision: nat)
    requires Shape(s.order) && c.action in {AdvanceAction, ApproveAction, RejectAction}
    requires Dispatch(s, c, now, newRevision).Success?
    ensures Perform(s.order, OpOf(s, c, now, newRevision))
            == Success(Dispatch(s, c, now, newRevision).value.system.order)
  {
  }

  lemma DispatchIsOneOp(s: System, c: Command, now: int, newRevision: nat)
    requires Shape(s.order) && Dispatch(s, c, now, newRevision).Success?
    ensures Perform(s.order, OpOf(s, c, now, newRevision))
            == Success(Dispatch(s, c, now, newRevision).value.system.order)
    ensures Shape(Dispatch(s, c, now, newRevision).value.system.order)
    ensures Dispatch(s, c, now, newRevision).value.system.order.revision == s.order.revision + 1
  {
    if c.action == RollbackAction {
      RollbackIsOneOp(s, c, now, newRevision);
    } else if c.action != ExecuteAction {
      DecisionIsOneOp(s, c, now, newRevision);
    } else {
      match s.order.steps[s.order.currentStep].definition.Type()
      case BaseApply => BaseIsOneOp(s, c, now, newRevision);
      case OverlayApply => OverlayIsOneOp(s, c, now, newRevision);
      case PercentRollout => PercentIsOneOp(s, c, now, newRevision);
      case Compare => CompareIsOneOp(s, c, now, newRevision);
      case _ => PlainIsOneOp(s, c, now, newRevision);
    }
    EveryStepKeepsShape(s.order, OpOf(s, c, now, newRevision));
  }

  // ----- planned effects fit the world they were planned on -----

  predicate DistinctChangeKeys(changes: seq<BaseChange>) {
    forall i, j :: 0 <= i < j < |changes| ==> ChangeKey(changes[i]) != ChangeKey(changes[j])
  }

  predicate DistinctRuleKeys(changes: seq<RuleChange>) {
    forall i, j :: 0 <= i < j < |changes| ==> changes[i].key != changes[j].key
  }

  lemma {:induction false} UntouchedRecord(changes: seq<BaseChange>, collection: string, environment: string,
                                           applied: nat,
                                           records: map<string, Record>, key: string)
    requires forall i :: 0 <= i < |changes| ==> ChangeKey(changes[i]) != key
    ensures Lookup(ApplyBase(changes, collection, environment, applied, records), key) == Lookup(records, key)
  {
    if changes != [] { UntouchedRecord(changes[..|changes| - 1], collection, environment, applied, records, key); }
  }

  lemma {:induction false} UntouchedRule(changes: seq<RuleChange>, rules: map<string, Rule>, key: string)
    requires forall i :: 0 <= i < |changes| ==> changes[i].key != key
    ensures Lookup(ApplyRules(changes, rules), key) == Lookup(rules, key)
  {
    if changes != [] { UntouchedRule(changes[..|changes| - 1], rules, key); }
  }

  lemma {:induction false} DistinctChangesFit(changes: seq<BaseChange>, collection: string, environment: string,
                                              applied: nat, records: map<string, Record>)
    requires DistinctChangeKeys(changes)
    requires forall i :: 0 <= i < |changes| ==> ChangeFits(changes[i], collection, environment, records)
    ensures BaseFits(changes, collection, environment, applied, records)
  {
    if changes != [] {
      DistinctChangesFit(changes[..|changes| - 1], collection, environment, applied, records);
      UntouchedRecord(changes[..|changes| - 1], collection, environment, applied, records,
                      ChangeKey(changes[|changes| - 1]));
    }
  }

  lemma {:induction false} DistinctRulesFit(changes: seq<RuleChange>, rules: map<string, Rule>)
    requires DistinctRuleKeys(changes)
    requires forall i :: 0 <= i < |changes| ==> RuleFits(changes[i], rules)
    ensures RulesFit(changes, rules)
  {
    if changes != [] {
      DistinctRulesFit(changes[..|changes| - 1], rules);
      UntouchedRule(changes[..|changes| - 1], rules, changes[|changes| - 1].key);
    }
  }

  lemma {:induction false} AppliedRule(changes: seq<RuleChange>, rules: map<string, Rule>, j: nat)
    requires j < |changes| && DistinctRuleKeys(changes)
    ensures Lookup(ApplyRules(changes, rules), changes[j].key) == changes[j].next
  {
    if j < |changes| - 1 { AppliedRule(changes[..|changes| - 1], rules, j); }
  }

  predicate KeyAmong(items: seq<Item>, key: string) {
    exists i :: 0 <= i < |items| && items[i].key == key
  }

  /** Rule changes for some of the items, each true of the rules it was planned on. */
  predicate RulesFor(items: seq<Item>, changes: seq<RuleChange>, rules: map<string, Rule>) {
    && DistinctRuleKeys(changes)
    && (forall i :: 0 <= i < |changes| ==> KeyAmong(items, changes[i].key) && RuleFits(changes[i], rules))
  }

  predicate ChangesFor(items: seq<Item>, changes: seq<BaseChange>, collection: string, environment: string,
                       records: map<string, Record>) {
    && DistinctChangeKeys(changes)
    && (forall i :: 0 <= i < |changes| ==>
          KeyAmong(items, ChangeKey(changes[i])) && ChangeFits(changes[i], collection, environment, records))
  }

  lemma LastKeyFresh(items: seq<Item>, key: string)
    requires DistinctKeys(items) && items != [] && KeyAmong(items[..|items| - 1], key)
    ensures key != items[|items| - 1].key && KeyAmong(items, key)
  {
    var i :| 0 <= i < |items| - 1 && items[..|items| - 1][i].key == key;
    assert items[i].key == key;
  }

  /** Adding at most one change, for the last item, to changes for the items before it. */
  lemma ExtendRules(items: seq<Item>, before: seq<RuleChange>, last: seq<RuleChange>, rules: map<string, Rule>)
    requires DistinctKeys(items) && items != [] && |last| <= 1
    requires RulesFor(items[..|items| - 1], before, rules)
    requires last != [] ==> last[0].key == items[|items| - 1].key && RuleFits(last[0], rules)
    ensures RulesFor(items, before + last, rules)
  {
    forall i | 0 <= i < |before| ensures before[i].key != items[|items| - 1].key && KeyAmong(items, before[i].key) {
      LastKeyFresh(items, before[i].key);
    }
    assert items[|items| - 1].key == items[|items| - 1].key;
    assert KeyAmong(items, items[|items| - 1].key);
  }

  lemma ExtendChanges(items: seq<Item>, before: seq<BaseChange>, last: seq<BaseChange>, collection: string,
                      environment: string, records: map<string, Record>)
    requires DistinctKeys(items) && items != [] && |last| <= 1
    requires ChangesFor(items[..|items| - 1], before, collection, environment, records)
    requires last != [] ==>
               ChangeKey(last[0]) == items[|items| - 1].key && ChangeFits(last[0], collection, environment, records)
    ensures ChangesFor(items, before + last, collection, environment, records)
  {
    forall i | 0 <= i < |before|
      ensures ChangeKey(before[i]) != items[|items| - 1].key && KeyAmong(items, ChangeKey(before[i]))
    {
      LastKeyFresh(items, ChangeKey(before[i]));
    }
    assert KeyAmong(items, items[|items| - 1].key);
  }

  lemma {:induction false} BaseItemsFit(o: Order, a: Authority, hasPercent: bool, items: seq<Item>, collection: string)
    requires DistinctKeys(items)
    requires forall i :: 0 <= i < |items| ==> WellFormedItem(items[i], collection, o.scope)
    requires AllBelong(a.records, collection, o.scope.environment)
    requires BaseItems(o, a, hasPercent, items).Success?
    ensures var r := BaseItems(o, a, hasPercent, items).value;
            ChangesFor(items, r.0, collection, o.scope.environment, a.records) && RulesFor(items, r.1, a.rules)
  {
    if items != [] {
      var init, last := items[..|items| - 1], items[|items| - 1];
      BaseItemsFit(o, a, hasPercent, init, collection);
      var before := BaseItems(o, a, hasPercent, init).value;
      var one := BaseItem(o, a, hasPercent, last).value;
      assert WellFormedItem(last, collection, o.scope);
      if last.key in a.records { assert Belongs(a.records[last.key], collection, o.scope.environment, last.key); }
      ExtendChanges(items, before.0, one.0, collection, o.scope.environment, a.records);
      ExtendRules(items, before.1, one.1, a.rules);
    }
  }

  lemma {:induction false} OverlayItemsFit(o: Order, a: Authority, newRevision: nat, actor: string, at: int,
                                           items: seq<Item>)
    requires DistinctKeys(items) && OverlayItems(o, a, newRevision, actor, at, items).Success?
    ensures RulesFor(items, OverlayItems(o, a, newRevision, actor, at, items).value, a.rules)
  {
    if items != [] {
      var init := items[..|items| - 1];
      OverlayItemsFit(o, a, newRevision, actor, at, init);
      ExtendRules(items, OverlayItems(o, a, newRevision, actor, at, init).value,
                  [OverlayItem(o, a, newRevision, actor, at, items[|items| - 1]).value], a.rules);
    }
  }

  lemma {:induction false} PercentItemsFit(o: Order, a: Authority, added: seq<Rollout.BucketRange>, newRevision: nat,
                                           actor: string, at: int, items: seq<Item>)
    requires DistinctKeys(items) && PercentItems(o, a, added, newRevision, actor, at, items).Success?
    ensures RulesFor(items, PercentItems(o, a, added, newRevision, actor, at, items).value, a.rules)
  {
    if items != [] {
      var init := items[..|items| - 1];
      PercentItemsFit(o, a, added, newRevision, actor, at, init);
      ExtendRules(items, PercentItems(o, a, added, newRevision, actor, at, init).value,
                  [PercentItem(o, a, added, newRevision, actor, at, items[|items| - 1]).value], a.rules);
    }
  }

  ghost predicate EffectFits(o: Order, e: Envelope, w: World)
    requires WellFormedOrder(o)
  {
    ValidEnvelope(e) ==>
      var d := DeltaOf(e);
      d.collection == o.items[0].collection && d.scope == o.scope && Fits(d, w)
  }

  lemma BaseEffectFits(o: Order, w: World, newRevision: nat, actor: string, at: int)
    requires WellFormedOrder(o) && WellFormedWorld(w, o.items[0].collection, o.scope.environment)
    requires ExecuteBase(o, AuthorityOf(w), newRevision, actor, at).Success?
    ensures EffectFits(o, ExecuteBase(o, AuthorityOf(w), newRevision, actor, at).value.1, w)
  {
    hide BaseItems;
    BaseItemsFit(o, AuthorityOf(w), LastPercent(o.steps, o.currentStep).Some?, o.items, o.items[0].collection);
    var e := PlanBase(o, AuthorityOf(w), newRevision, actor, at).value;
    DistinctChangesFit(e.changes, e.collection, o.scope.environment, newRevision, w.records);
    DistinctRulesFit(e.overlayChanges, w.rules);
  }

  lemma OverlayEffectFits(o: Order, w: World, newRevision: nat, actor: string, at: int)
    requires WellFormedOrder(o)
    requires ExecuteOverlay(o, AuthorityOf(w), newRevision, actor, at).Success?
    ensures EffectFits(o, ExecuteOverlay(o, AuthorityOf(w), newRevision, actor, at).value.1, w)
  {
    hide OverlayItems;
    OverlayItemsFit(o, AuthorityOf(w), newRevision, actor, at, o.items);
    var e := PlanOverlay(o, AuthorityOf(w), newRevision, actor, at).value;
    DistinctRulesFit(e.changes, w.rules);
  }

  lemma PercentEffectFits(o: Order, w: World, newRevision: nat, actor: string, at: int)
    requires WellFormedOrder(o)
    requires ExecutePercentRollout(o, AuthorityOf(w), newRevision, actor, at).Success?
    ensures EffectFits(o, ExecutePercentRollout(o, AuthorityOf(w), newRevision, actor, at).value.1, w)
  {
    hide PercentItems;
    var added := o.steps[o.currentStep].definition.params.ranges;
    PercentItemsFit(o, AuthorityOf(w), added, newRevision, actor, at, o.items);
    var e := PlanPercent(o, AuthorityOf(w), newRevision, actor, at).value;
    DistinctRulesFit(e.changes, w.rules);
  }

  // ----- the chain of effects along a run -----

  lemma {:induction false} SameEffects(a: seq<StepState>, b: seq<StepState>, n: nat, start: World, collection: string,
                                       scope: Scope)
    requires n <= |a| && n <= |b| && EffectsValid(a) && EffectsValid(b)
    requires forall i :: 0 <= i < n ==> a[i].effect == b[i].effect
    ensures Replay(a, n, start) == Replay(b, n, start)
    ensures Chained(a, n, start, collection, scope) <==> Chained(b, n, start, collection, scope)
  {
    if n > 0 { SameEffects(a, b, n - 1, start, collection, scope); }
  }

  lemma {:induction false} NoMoreEffects(steps: seq<StepState>, n: nat, m: nat, start: World, collection: string,
                                         scope: Scope)
    requires n <= m <= |steps| && EffectsValid(steps)
    requires forall i :: n <= i < m ==> steps[i].effect.None?
    ensures Replay(steps, m, start) == Replay(steps, n, start)
    ensures Chained(steps, m, start, collection, scope) <==> Chained(steps, n, start, collection, scope)
    decreases m - n
  {
    if n < m { NoMoreEffects(steps, n, m - 1, start, collection, scope); }
  }

  /** Until the order is rolled back, its recorded effects lead from the starting world to the present one. */
  ghost predicate Tracks(s: System, start: World) {
    && Shape(s.order)
    && WellFormedWorld(start, s.order.items[0].collection, s.order.scope.environment)
    && (s.order.status != OrderRolledBack ==>
         && EffectsValid(s.order.steps)
         && Chained(s.order.steps, |s.order.steps|, start, s.order.items[0].collection, s.order.scope)
         && Replay(s.order.steps, |s.order.steps|, start) == s.world)
  }

  /** Recording an effect that fits the present world at the first step without later effects extends the chain. */
  lemma ChainExtends(steps: seq<StepState>, n: nat, step: StepState, start: World, collection: string, scope: Scope)
    requires n < |steps| && EffectsValid(steps) && Chained(steps, |steps|, start, collection, scope)
    requires forall i :: n <= i < |steps| ==> steps[i].effect.None?
    requires step.effect.Some? && ValidEnvelope(step.effect.value)
    requires DeltaOf(step.effect.value).collection == collection && DeltaOf(step.effect.value).scope == scope
    requires Fits(DeltaOf(step.effect.value), Replay(steps, |steps|, start))
    requires WritesStorable(DeltaOf(step.effect.value).overlayChanges)
    ensures var next := steps[n := step];
            && EffectsValid(next) && Chained(next, |next|, start, collection, scope)
            && Replay(next, |next|, start) == ApplyDelta(DeltaOf(step.effect.value), Replay(steps, |steps|, start))
  {
    hide Fits, ValidEnvelope, DeltaOf, ApplyDelta;
    var next := steps[n := step];
    NoMoreEffects(steps, n, |steps|, start, collection, scope);
    SameEffects(steps, next, n, start, collection, scope);
    NoMoreEffects(next, n + 1, |next|, start, collection, scope);
  }

  lemma RecordExtendsChain(s: System, start: World, t: StepType, e: Envelope, actor: string, at: int)
    requires Tracks(s, start) && AtStep(s.order, t, Pending)
    requires ValidEnvelope(e) && EffectFits(s.order, e, s.world) && WritesStorable(DeltaOf(e).overlayChanges)
    ensures var next := RecordEffect(s.order, e, actor, at);
            && EffectsValid(next.steps)
            && Chained(next.steps, |next.steps|, start, next.items[0].collection, next.scope)
            && Replay(next.steps, |next.steps|, start) == ApplyDelta(DeltaOf(e), s.world)
  {
    hide Fits, ValidEnvelope, DeltaOf, ApplyDelta, Chained, Replay;
    var o := s.order;
    assert CurrentShape(o.steps[o.currentStep]);
    var step := o.steps[o.currentStep].(status := Executed, executedAt := Some(at), executedBy := actor,
                                        effect := Some(e));
    ChainExtends(o.steps, o.currentStep, step, start, o.items[0].collection, o.scope);
  }

  ghost predicate ConfiguredOk(s: System, start: World, r: Result<(Order, Envelope), Error>) {
    Configure(s, r).Success? ==> Tracks(Configure(s, r).value.system, start)
  }

  lemma ConfigureTracks(s: System, start: World, t: StepType, r: Result<(Order, Envelope), Error>, actor: string,
                        at: int)
    requires Tracks(s, start) && AtStep(s.order, t, Pending) && t != ManualReview
    requires r.Success?
    requires EffectMatches(s.order.steps[s.order.currentStep].(status := Executed, effect := Some(r.value.1)))
    requires r.Success? && r.value.0 == RecordEffect(s.order, r.value.1, actor, at)
    requires EffectFits(s.order, r.value.1, s.world)
    ensures ConfiguredOk(s, start, r)
  {
    if Configure(s, r).Success? {
      RecordExtendsChain(s, start, t, r.value.1, actor, at);
      RecordKeepsShape(s.order, t, r.value.1, actor, at);
    }
  }

  /** Operations that leave every recorded effect alone keep the chain. */
  lemma QuietKeepsChain(s: System, start: World, next: Order)
    requires Tracks(s, start) && Shape(next) && |next.steps| == |s.order.steps|
    requires next.scope == s.order.scope && next.items[0].collection == s.order.items[0].collection
    requires next.status != OrderRolledBack ==> s.order.status != OrderRolledBack
    requires next.status != OrderRolledBack ==> forall i :: 0 <= i < |next.steps| ==>
               next.steps[i].effect == s.order.steps[i].effect
    ensures Tracks(System(next, s.world), start)
  {
    if next.status != OrderRolledBack {
      assert EffectsValid(next.steps) by {
        forall i | 0 <= i < |next.steps| && next.steps[i].effect.Some?
          ensures ValidEnvelope(next.steps[i].effect.value)
        {
          assert next.steps[i].effect == s.order.steps[i].effect;
        }
      }
      SameEffects(s.order.steps, next.steps, |next.steps|, start, next.items[0].collection, next.scope);
    }
  }

  lemma StartedStatus(s: System, c: Command, now: int, newRevision: nat)
    requires Shape(s.order) && Dispatch(s, c, now, newRevision).Success?
    ensures s.order.status == InProgress
  {
    DispatchIsOneOp(s, c, now, newRevision);
    if s.order.status != InProgress { FinishedRefusesAll(s.order, OpOf(s, c, now, newRevision)); }
  }

  /** A command that writes no configuration leaves the recorded effects as they were. */
  lemma QuietEffects(s: System, c: Command, now: int, newRevision: nat)
    requires Shape(s.order) && Dispatch(s, c, now, newRevision).Success?
    requires c.action != RollbackAction
    requires c.action == ExecuteAction ==>
               s.order.steps[s.order.currentStep].definition.Type() in {ManualReview, Complete, Compare}
    ensures var next := Dispatch(s, c, now, newRevision).value.system;
            && next.world == s.world && next.order.scope == s.order.scope
            && |next.order.steps| == |s.order.steps|
            && next.order.items != [] && next.order.items[0].collection == s.order.items[0].collection
            && forall i :: 0 <= i < |next.order.steps| ==> next.order.steps[i].effect == s.order.steps[i].effect
  {
  }

  lemma QuietDispatchTracks(s: System, start: World, c: Command, now: int, newRevision: nat)
    requires Tracks(s, start) && Dispatch(s, c, now, newRevision).Success?
    requires c.action != RollbackAction
    requires c.action == ExecuteAction ==>
               s.order.steps[s.order.currentStep].definition.Type() in {ManualReview, Complete, Compare}
    ensures Tracks(Dispatch(s, c, now, newRevision).value.system, start)
  {
    DispatchIsOneOp(s, c, now, newRevision);
    StartedStatus(s, c, now, newRevision);
    QuietEffects(s, c, now, newRevision);
    QuietKeepsChain(s, start, Dispatch(s, c, now, newRevision).value.system.order);
  }

  lemma ConfigureDispatchTracks(s: System, start: World, c: Command, now: int, newRevision: nat)
    requires Tracks(s, start) && Dispatch(s, c, now, newRevision).Success?
    requires c.action == ExecuteAction
    requires s.order.steps[s.order.currentStep].definition.Type() in {BaseApply, OverlayApply, PercentRollout}
    ensures Tracks(Dispatch(s, c, now, newRevision).value.system, start)
  {
    StartedStatus(s, c, now, newRevision);
    var o, a := s.order, AuthorityOf(s.world);
    ReplayBelongs(o.steps, |o.steps|, start, o.items[0].collection, o.scope);
    match o.steps[o.currentStep].definition.Type() {
      case BaseApply =>
        BaseEffectFits(o, s.world, newRevision, c.actor, now);
        ConfigureTracks(s, start, BaseApply, ExecuteBase(o, a, newRevision, c.actor, now), c.actor, now);
      case OverlayApply =>
        OverlayEffectFits(o, s.world, newRevision, c.actor, now);
        ConfigureTracks(s, start, OverlayApply, ExecuteOverlay(o, a, newRevision, c.actor, now), c.actor, now);
      case PercentRollout =>
        PercentEffectFits(o, s.world, newRevision, c.actor, now);
        ConfigureTracks(s, start, PercentRollout, ExecutePercentRollout(o, a, newRevision, c.actor, now), c.actor, now);
      case _ =>
    }
  }

  /** Every successful command keeps the chain, whatever step it is at. */
  lemma DispatchTracks(s: System, start: World, c: Command, now: int, newRevision: nat)
    requires Tracks(s, start) && Dispatch(s, c, now, newRevision).Success?
    ensures Tracks(Dispatch(s, c, now, newRevision).value.system, start)
  {
    if c.action == RollbackAction {
      DispatchIsOneOp(s, c, now, newRevision);
      RollbackIdentity(s, c, now, newRevision);
    } else if c.action == ExecuteAction
              && s.order.steps[s.order.currentStep].definition.Type() in {BaseApply, OverlayApply, PercentRollout} {
      ConfigureDispatchTracks(s, start, c, now, newRevision);
    } else {
      QuietDispatchTracks(s, start, c, now, newRevision);
    }
  }

  /** What no command changes: identity, scope, the step definitions and, while the order is in progress, its items. */
  ghost predicate SameIdentity(o: Order, next: Order) {
    && next.id == o.id && next.scope == o.scope && |next.steps| == |o.steps|
    && (forall i :: 0 <= i < |o.steps| ==> next.steps[i].definition == o.steps[i].definition)
    && (next.status == InProgress ==> next.items == o.items)
  }

  lemma QuietIdentity(s: System, c: Command, now: int, newRevision: nat)
    requires Shape(s.order) && Dispatch(s, c, now, newRevision).Success?
    requires c.action != RollbackAction
    requires c.action == ExecuteAction ==>
               s.order.steps[s.order.currentStep].definition.Type() in {ManualReview, Complete, Compare}
    ensures SameIdentity(s.order, Dispatch(s, c, now, newRevision).value.system.order)
  {
  }

  lemma ConfiguredIdentity(s: System, r: Result<(Order, Envelope), Error>, actor: string, at: int)
    requires WellFormedOrder(s.order)
    requires r.Success? ==> r.value.0 == RecordEffect(s.order, r.value.1, actor, at)
    ensures Configure(s, r).Success? ==> SameIdentity(s.order, Configure(s, r).value.system.order)
  {
  }

  lemma RollbackIdentity(s: System, c: Command, now: int, newRevision: nat)
    requires Shape(s.order) && c.action == RollbackAction && Dispatch(s, c, now, newRevision).Success?
    ensures SameIdentity(s.order, Dispatch(s, c, now, newRevision).value.system.order)
    ensures Dispatch(s, c, now, newRevision).value.system.order.status == OrderRolledBack
  {
    hide ApplyEffect, Unwind, RollbackPlan, ValidEnvelope;
  }

  lemma DispatchKeepsIdentity(s: System, c: Command, now: int, newRevision: nat)
    requires Shape(s.order) && Dispatch(s, c, now, newRevision).Success?
    ensures SameIdentity(s.order, Dispatch(s, c, now, newRevision).value.system.order)
  {
    hide Configure, SameIdentity, PlanBase, PlanOverlay, PlanPercent, RecordEffect;
    var o, a := s.order, AuthorityOf(s.world);
    if c.action == RollbackAction {
      RollbackIdentity(s, c, now, newRevision);
    } else if c.action == ExecuteAction {
      match o.steps[o.currentStep].definition.Type()
      case BaseApply => ConfiguredIdentity(s, ExecuteBase(o, a, newRevision, c.actor, now), c.actor, now);
      case OverlayApply => ConfiguredIdentity(s, ExecuteOverlay(o, a, newRevision, c.actor, now), c.actor, now);
      case PercentRollout => ConfiguredIdentity(s, ExecutePercentRollout(o, a, newRevision, c.actor, now), c.actor,
                                                now);
      case _ => QuietIdentity(s, c, now, newRevision);
    } else {
      QuietIdentity(s, c, now, newRevision);
    }
  }
}
