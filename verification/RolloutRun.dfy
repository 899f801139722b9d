/** Percentage rollout over a run: what each target's rule holds after every slice, and that no slice is ever stuck. */
module RolloutRun {
  import opened Wrappers
  import opened Catalog
  import opened Rollout
  import opened Overlay
  import opened Template
  import opened Effects
  import opened OrderState
  import opened Lifecycle
  import opened World
  import opened Rollback
  import opened ReleaseRun
  import opened RollbackRun
  import Text

  function Definitions(steps: seq<StepState>): (r: seq<StepDefinition>)
    ensures |r| == |steps|
  {
    seq(|steps|, i requires 0 <= i < |steps| => steps[i].definition)
  }

  /** The slices of the percentage steps among the first `n`. */
  function SlicesBefore(steps: seq<StepState>, n: nat): seq<seq<BucketRange>>
    requires n <= |steps|
  {
    PercentSlices(Definitions(steps)[..n])
  }

  predicate BaseBefore(steps: seq<StepState>, n: nat)
    requires n <= |steps|
  {
    exists i :: 0 <= i < n && steps[i].definition.Type() == BaseApply
  }

  /**
   * Number of leading steps that are done: all before the current one, and the current one once executed or approved.
   */
  function DoneSteps(o: Order): (n: nat)
    requires o.currentStep < |o.steps|
    ensures n <= |o.steps|
  {
    if o.steps[o.currentStep].status == Executed || o.steps[o.currentStep].status == Approved
    then o.currentStep + 1 else o.currentStep
  }

  function TargetAction(base: Option<Record>, after: Option<Record>): RuleAction {
    if base.None? then AddRecord else if after.Some? then ModifyRecord else DeleteRecord
  }

  function TargetContent(after: Option<Record>): Data {
    match after case Some(r) => r.data case None => map[]
  }

  /** The target's rule is live, serves exactly the union of the slices in canonical form, and belongs to this order. */
  ghost predicate RolledOut(o: Order, item: Item, records: map<string, Record>, rules: map<string, Rule>,
                            slices: seq<seq<BucketRange>>) {
    && item.key in rules
    && var rule := rules[item.key];
    && RuleTargets(rule, item, o.scope) && rule.orderId == o.id
    && rule.activatedRevision.Some? && rule.expiredRevision.None? && item.after.Some? && o.scope.stage != ""
    && rule.ranges == Runs(UnionOf(slices))
    && rule.action == TargetAction(Lookup(records, item.key), item.after)
    && rule.content == Some(TargetContent(item.after))
  }

  /** The rule of one target after the first `n` steps. */
  ghost predicate RuleState(o: Order, item: Item, w: World, n: nat)
    requires n <= |o.steps|
  {
    if SlicesBefore(o.steps, n) == [] || BaseBefore(o.steps, n) then item.key !in w.rules
    else RolledOut(o, item, w.records, w.rules, SlicesBefore(o.steps, n))
  }

  /** The last recorded revision among percentage effects is the present one. */
  ghost predicate RevisionState(o: Order, w: World, start: World, n: nat)
    requires n <= |o.steps|
  {
    !BaseBefore(o.steps, n) ==>
      && w.records == start.records
      && match LastPercent(o.steps, n)
         case Some(e) => e.appliedRevision == w.revision
         case None => w.revision == start.revision
  }

  /** A BASE_FINAL order from a compiled template. */
  ghost predicate CompiledBaseFinal(o: Order) {
    ValidSteps(BaseFinal, Definitions(o.steps))
  }

  ghost predicate RolloutInvariant(s: System, start: World) {
    && Tracks(s, start) && CompiledBaseFinal(s.order)
    && (s.order.status == InProgress ==>
         && (forall i :: 0 <= i < |s.order.items| ==> RuleState(s.order, s.order.items[i], s.world, DoneSteps(s.order)))
         && RevisionState(s.order, s.world, start, DoneSteps(s.order)))
  }

  // ----- step lists -----

  lemma NextDefinition(steps: seq<StepState>, n: nat)
    requires n < |steps|
    ensures SlicesBefore(steps, n + 1) ==
            if steps[n].definition.Type() == PercentRollout
               then SlicesBefore(steps, n) + [steps[n].definition.params.ranges]
            else SlicesBefore(steps, n)
    ensures BaseBefore(steps, n + 1) <==> BaseBefore(steps, n) || steps[n].definition.Type() == BaseApply
  {
    assert Definitions(steps)[..n + 1][..n] == Definitions(steps)[..n];
  }

  lemma {:induction false} NoOverlaySteps(steps: seq<StepDefinition>, i: nat)
    requires i < |steps| && CountType(steps, OverlayApply) == 0
    ensures steps[i].Type() != OverlayApply
  {
    if i < |steps| - 1 { NoOverlaySteps(steps[..|steps| - 1], i); }
  }

  /** At a percentage step the new slice is disjoint from everything executed, and no base step lies before. */
  lemma NextSliceFits(o: Order, n: nat)
    requires CompiledBaseFinal(o) && n < |o.steps| && o.steps[n].definition.Type() == PercentRollout
    ensures var slice := o.steps[n].definition.params.ranges;
            && SlicesApart(SlicesBefore(o.steps, n) + [slice]) && slice != []
            && UnionOf(SlicesBefore(o.steps, n)) !! Buckets(slice)
            && UnionOf(SlicesBefore(o.steps, n + 1)) == UnionOf(SlicesBefore(o.steps, n)) + Buckets(slice)
    ensures !BaseBefore(o.steps, n)
  {
    var defs, slice := Definitions(o.steps), o.steps[n].definition.params.ranges;
    PrefixGrowing(defs, n + 1);
    NextDefinition(o.steps, n);
    ApartSplit(SlicesBefore(o.steps, n), slice);
    UnionSplit(SlicesBefore(o.steps, n), slice);
    assert defs[n].Type() == PercentRollout;
    forall i | 0 <= i < n ensures o.steps[i].definition.Type() != BaseApply {
      assert defs[i] == o.steps[i].definition;
    }
  }

  /** Expanding what has been executed so far by the next slice cannot be refused, and gives the canonical union. */
  lemma ExpansionNeverRefused(o: Order, n: nat)
    requires CompiledBaseFinal(o) && n < |o.steps| && o.steps[n].definition.Type() == PercentRollout
    ensures var slice := o.steps[n].definition.params.ranges;
            && Expand(Runs(UnionOf(SlicesBefore(o.steps, n))), slice)
               == Success(Runs(UnionOf(SlicesBefore(o.steps, n + 1))))
            && (SlicesBefore(o.steps, n) == [] ==>
                  Expand([], slice) == Success(Runs(UnionOf(SlicesBefore(o.steps, n + 1)))))
            && Normalize(Runs(UnionOf(SlicesBefore(o.steps, n + 1))))
               == Success(Runs(UnionOf(SlicesBefore(o.steps, n + 1))))
  {
    var before, slice := SlicesBefore(o.steps, n), o.steps[n].definition.params.ranges;
    var served, after := Runs(UnionOf(before)), Runs(UnionOf(SlicesBefore(o.steps, n + 1)));
    NextSliceFits(o, n);
    ApartSplit(before, slice);
    CanonicalWellFormed(served);
    CanonicalWellFormed(after);
    assert Buckets(served) == UnionOf(before);
    SplitWellFormed(served, slice);
    SplitWellFormed([], slice);
    if before == [] { assert Buckets([]) + Buckets(slice) == UnionOf(SlicesBefore(o.steps, n + 1)); }
    assert Ordered(after);
    SortOrdered(after);
  }

  // ----- one percentage step -----

  lemma {:induction false} PercentItemAt(o: Order, a: Authority, added: seq<BucketRange>, newRevision: nat,
                                         actor: string, at: int, items: seq<Item>, i: nat)
    requires i < |items| && PercentItems(o, a, added, newRevision, actor, at, items).Success?
    ensures var all := PercentItems(o, a, added, newRevision, actor, at, items).value;
            && |all| == |items| && PercentItem(o, a, added, newRevision, actor, at, items[i]) == Success(all[i])
            && all[i].key == items[i].key
  {
    hide CompileRule, Expand, BaseUnchanged, RuleTargets, TargetSpec;
    var init := items[..|items| - 1];
    if i < |init| {
      PercentItemAt(o, a, added, newRevision, actor, at, init, i);
    } else if i > 0 {
      PercentItemAt(o, a, added, newRevision, actor, at, init, i - 1);
    }
  }

  lemma RulesOfItems(o: Order, a: Authority, added: seq<BucketRange>, newRevision: nat, actor: string, at: int,
                     items: seq<Item>, i: nat)
    requires i < |items| && DistinctKeys(items) && PercentItems(o, a, added, newRevision, actor, at, items).Success?
    ensures var one := PercentItem(o, a, added, newRevision, actor, at, items[i]);
            && one.Success?
            && Lookup(ApplyRules(PercentItems(o, a, added, newRevision, actor, at, items).value, a.rules),
                      items[i].key) == one.value.next
  {
    hide PercentItem, PercentItems;
    PercentItemAt(o, a, added, newRevision, actor, at, items, i);
    PercentItemsFit(o, a, added, newRevision, actor, at, items);
    AppliedRule(PercentItems(o, a, added, newRevision, actor, at, items).value, a.rules, i);
  }

  /** The step's rule for one target serves the union of all slices so far. */
  lemma PercentTarget(o: Order, w: World, newRevision: nat, actor: string, at: int, item: Item)
    requires o.currentStep < |o.steps| && CompiledBaseFinal(o)
    requires o.steps[o.currentStep].definition.Type() == PercentRollout
    requires RuleState(o, item, w, o.currentStep) && !DeletesBase(AuthorityOf(w), item)
    requires PercentItem(o, AuthorityOf(w), o.steps[o.currentStep].definition.params.ranges, newRevision, actor, at,
                         item).Success?
    ensures var c := PercentItem(o, AuthorityOf(w), o.steps[o.currentStep].definition.params.ranges, newRevision,
                                 actor, at, item).value;
            && c.next.Some?
            && forall rules | Lookup(rules, item.key) == c.next ::
                 RolledOut(o, item, w.records, rules, SlicesBefore(o.steps, o.currentStep + 1))
  {
    hide Runs, UnionOf, SlicesBefore, BaseBefore, Normalize, Expand;
    ExpansionNeverRefused(o, o.currentStep);
    NextSliceFits(o, o.currentStep);
  }

  // ----- the base step -----

  lemma {:induction false} CleanupOfItems(o: Order, a: Authority, hasPercent: bool, items: seq<Item>, i: nat)
    requires i < |items| && DistinctKeys(items) && BaseItems(o, a, hasPercent, items).Success?
    ensures items[i].key !in ApplyRules(BaseItems(o, a, hasPercent, items).value.1, a.rules)
  {
    var init, last := items[..|items| - 1], items[|items| - 1];
    var before := BaseItems(o, a, hasPercent, init).value.1;
    var one := BaseItem(o, a, hasPercent, last).value.1;
    ApplyRulesConcat(before, one, a.rules);
    if one != [] { SingleRule(one[0], ApplyRules(before, a.rules)); assert one == [one[0]]; }
    if i < |init| {
      CleanupOfItems(o, a, hasPercent, init, i);
    } else {
      CleanupKeys(o, a, hasPercent, init);
      forall j | 0 <= j < |before| ensures before[j].key != last.key {
        var k :| 0 <= k < |init| && init[k].key == before[j].key;
        assert items[k].key != items[|items| - 1].key;
      }
      UntouchedRule(before, a.rules, last.key);
    }
  }

  lemma {:induction false} CleanupKeys(o: Order, a: Authority, hasPercent: bool, items: seq<Item>)
    requires BaseItems(o, a, hasPercent, items).Success?
    ensures forall j :: 0 <= j < |BaseItems(o, a, hasPercent, items).value.1| ==>
              KeyAmong(items, BaseItems(o, a, hasPercent, items).value.1[j].key)
  {
    if items != [] {
      var init := items[..|items| - 1];
      CleanupKeys(o, a, hasPercent, init);
      var all := BaseItems(o, a, hasPercent, items).value.1;
      var before := BaseItems(o, a, hasPercent, init).value.1;
      forall j | 0 <= j < |all| ensures KeyAmong(items, all[j].key) {
        if j < |before| {
          assert KeyAmong(init, before[j].key);
          var k :| 0 <= k < |init| && init[k].key == before[j].key;
          assert items[k].key == all[j].key;
        } else {
          assert items[|items| - 1].key == all[j].key;
        }
      }
    }
  }

  // ----- every command keeps the rollout state -----

  lemma {:induction false} SameLastPercent(a: seq<StepState>, b: seq<StepState>, n: nat)
    requires n <= |a| && n <= |b|
    requires forall i :: 0 <= i < n ==> a[i].effect == b[i].effect
    ensures LastPercent(a, n) == LastPercent(b, n)
  {
    if n > 0 { SameLastPercent(a, b, n - 1); }
  }

  /**
   * A command that writes no configuration moves past at most one step, and that one is neither a slice nor a base
   * step.
   */
  lemma QuietDone(s: System, c: Command, now: int, newRevision: nat)
    requires Shape(s.order) && Dispatch(s, c, now, newRevision).Success?
    requires c.action != RollbackAction
    requires c.action == ExecuteAction ==>
               s.order.steps[s.order.currentStep].definition.Type() in {ManualReview, Complete, Compare}
    requires Dispatch(s, c, now, newRevision).value.system.order.status == InProgress
    ensures var o, next := s.order, Dispatch(s, c, now, newRevision).value.system.order;
            && next.items == o.items && next.id == o.id && next.currentStep < |next.steps| == |o.steps|
            && (forall i :: 0 <= i < |o.steps| ==> next.steps[i].definition == o.steps[i].definition)
            && DoneSteps(o) <= DoneSteps(next) <= DoneSteps(o) + 1
            && (DoneSteps(next) > DoneSteps(o) ==>
                 o.steps[DoneSteps(o)].definition.Type() in {ManualReview, Compare})
  {
  }

  lemma QuietRollout(s: System, start: World, c: Command, now: int, newRevision: nat)
    requires RolloutInvariant(s, start) && Dispatch(s, c, now, newRevision).Success?
    requires c.action != RollbackAction
    requires c.action == ExecuteAction ==>
               s.order.steps[s.order.currentStep].definition.Type() in {ManualReview, Complete, Compare}
    requires Dispatch(s, c, now, newRevision).value.system.order.status == InProgress
    ensures RolloutInvariant(Dispatch(s, c, now, newRevision).value.system, start)
  {
    DispatchTracks(s, start, c, now, newRevision);
    StartedStatus(s, c, now, newRevision);
    QuietEffects(s, c, now, newRevision);
    QuietDone(s, c, now, newRevision);
    RolloutCarries(s.order, Dispatch(s, c, now, newRevision).value.system.order, s.world, start);
  }

  /** An order that differs only in review and comparison progress is in the same rollout state. */
  lemma RolloutCarries(o: Order, next: Order, w: World, start: World)
    requires o.currentStep < |o.steps| && next.currentStep < |next.steps| == |o.steps|
    requires next.items == o.items && next.id == o.id && next.scope == o.scope
    requires forall i :: 0 <= i < |o.steps| ==>
               next.steps[i].definition == o.steps[i].definition && next.steps[i].effect == o.steps[i].effect
    requires DoneSteps(o) <= DoneSteps(next) <= DoneSteps(o) + 1
    requires DoneSteps(next) > DoneSteps(o) ==> o.steps[DoneSteps(o)].definition.Type() in {ManualReview, Compare}
    requires Shape(next) && next.status == InProgress
    requires forall i :: 0 <= i < |o.items| ==> RuleState(o, o.items[i], w, DoneSteps(o))
    requires RevisionState(o, w, start, DoneSteps(o))
    ensures Definitions(next.steps) == Definitions(o.steps)
    ensures forall i :: 0 <= i < |next.items| ==> RuleState(next, next.items[i], w, DoneSteps(next))
    ensures RevisionState(next, w, start, DoneSteps(next))
  {
    var d, d' := DoneSteps(o), DoneSteps(next);
    assert Definitions(next.steps) == Definitions(o.steps);
    assert BaseBefore(next.steps, d) <==> BaseBefore(o.steps, d);
    SameLastPercent(o.steps, next.steps, d);
    if d' > d {
      NextDefinition(next.steps, d);
      QuietHasNoPercent(next, d);
    }
    forall i | 0 <= i < |next.items| ensures RuleState(next, next.items[i], w, d') {
      assert RuleState(o, o.items[i], w, d);
    }
  }

  lemma QuietHasNoPercent(o: Order, n: nat)
    requires Shape(o) && o.status == InProgress && n < |o.steps|
    requires o.steps[n].definition.Type() in {ManualReview, Compare}
    ensures o.steps[n].effect.None?
  {
    if n < o.currentStep { assert Settled(o.steps[n]); }
  }

  /** What a percentage command leaves behind. */
  lemma PercentNext(s: System, c: Command, now: int, newRevision: nat)
    requires Shape(s.order) && Dispatch(s, c, now, newRevision).Success?
    requires c.action == ExecuteAction && s.order.steps[s.order.currentStep].definition.Type() == PercentRollout
    ensures AtStep(s.order, PercentRollout, Pending)
    ensures var o, a := s.order, AuthorityOf(s.world);
            var added := o.steps[o.currentStep].definition.params.ranges;
            var items := PercentItems(o, a, added, newRevision, c.actor, now, o.items);
            var next := Dispatch(s, c, now, newRevision).value.system;
            && items.Success?
            && next.world == World(s.world.records, ApplyRules(items.value, s.world.rules), newRevision)
            && ExecutePercentRollout(o, a, newRevision, c.actor, now).Success?
            && ApplyEffect(ExecutePercentRollout(o, a, newRevision, c.actor, now).value.1, s.world).Success?
            && exists plan: PercentEffect ::
                 plan.appliedRevision == newRevision
                 && next.order == RecordEffect(o, PercentEnvelope(plan), c.actor, now)
  {
    hide PercentItems, ApplyRules;
    var plan := PlanPercent(s.order, AuthorityOf(s.world), newRevision, c.actor, now).value;
    assert Dispatch(s, c, now, newRevision).value.system.order
           == RecordEffect(s.order, PercentEnvelope(plan), c.actor, now);
  }

  lemma PercentRevision(o: Order, w: World, start: World, next: Order, plan: PercentEffect, actor: string, at: int)
    requires WellFormedOrder(o) && AtStep(o, PercentRollout, Pending) && CompiledBaseFinal(o)
    requires RevisionState(o, w, start, o.currentStep)
    requires next == RecordEffect(o, PercentEnvelope(plan), actor, at)
    ensures forall rules :: RevisionState(next, World(w.records, rules, plan.appliedRevision), start, o.currentStep + 1)
  {
    NextSliceFits(o, o.currentStep);
    assert Definitions(next.steps) == Definitions(o.steps);
    assert !BaseBefore(o.steps, o.currentStep);
  }

  lemma PercentKeepsRollout(s: System, start: World, c: Command, now: int, newRevision: nat)
    requires RolloutInvariant(s, start) && Dispatch(s, c, now, newRevision).Success?
    requires c.action == ExecuteAction && s.order.steps[s.order.currentStep].definition.Type() == PercentRollout
    ensures RolloutInvariant(Dispatch(s, c, now, newRevision).value.system, start)
  {
    hide Dispatch, PercentItem, PercentItems, ApplyRules, Chained, Replay, RuleState, RevisionState, ValidSteps,
         ExecutePercentRollout;
    var o, a := s.order, AuthorityOf(s.world);
    DispatchTracks(s, start, c, now, newRevision);
    PercentNext(s, c, now, newRevision);
    var added, n := o.steps[o.currentStep].definition.params.ranges, o.currentStep;
    var next := Dispatch(s, c, now, newRevision).value.system;
    var plan: PercentEffect :| plan.appliedRevision == newRevision
                               && next.order == RecordEffect(o, PercentEnvelope(plan), c.actor, now);
    assert Definitions(next.order.steps) == Definitions(o.steps);
    assert DoneSteps(o) == n && DoneSteps(next.order) == n + 1;
    PercentRevision(o, s.world, start, next.order, plan, c.actor, now);
    SliceWellFormed(o, n);
    PercentStepStored(o, s.world, newRevision, c.actor, now);
    forall i | 0 <= i < |o.items| ensures RuleState(next.order, next.order.items[i], next.world, n + 1) {
      RulesOfItems(o, a, added, newRevision, c.actor, now, o.items, i);
      PercentTarget(o, s.world, newRevision, c.actor, now, o.items[i]);
      PercentRuleState(o, next.order, o.items[i], s.world.records, next.world);
    }
  }

  lemma PercentRuleState(o: Order, next: Order, item: Item, records: map<string, Record>, w: World)
    requires o.currentStep < |o.steps| && o.steps[o.currentStep].definition.Type() == PercentRollout
    requires CompiledBaseFinal(o)
    requires |next.steps| == |o.steps| && Definitions(next.steps) == Definitions(o.steps) && next.scope == o.scope
    requires next.id == o.id
    requires w.records == records
    requires RolledOut(o, item, records, w.rules, SlicesBefore(o.steps, o.currentStep + 1))
    ensures RuleState(next, item, w, o.currentStep + 1)
  {
    hide Runs, UnionOf, Buckets, SlicesApart, ValidSteps, RuleTargets, TargetAction, TargetContent;
    NextSliceFits(o, o.currentStep);
    NextDefinition(o.steps, o.currentStep);
    BaseBeforeGrows(o.steps, next.steps, o.currentStep + 1, o.currentStep + 1);
  }

  /** What a base command leaves behind. */
  lemma BaseNext(s: System, c: Command, now: int, newRevision: nat)
    requires Shape(s.order) && Dispatch(s, c, now, newRevision).Success?
    requires c.action == ExecuteAction && s.order.steps[s.order.currentStep].definition.Type() == BaseApply
    ensures AtStep(s.order, BaseApply, Pending)
    ensures var o, a := s.order, AuthorityOf(s.world);
            var items := BaseItems(o, a, LastPercent(o.steps, o.currentStep).Some?, o.items);
            var next := Dispatch(s, c, now, newRevision).value.system;
            && items.Success?
            && next.world.rules == ApplyRules(items.value.1, s.world.rules)
            && next.order.items == o.items && next.order.currentStep == o.currentStep
            && |next.order.steps| == |o.steps| && next.order.steps[o.currentStep].status == Executed
            && (forall i :: 0 <= i < |o.steps| ==> next.order.steps[i].definition == o.steps[i].definition)
  {
    hide BaseItems, ApplyRules, ApplyBase, InsertsFresh;
  }

  lemma BaseKeepsRollout(s: System, start: World, c: Command, now: int, newRevision: nat)
    requires RolloutInvariant(s, start) && Dispatch(s, c, now, newRevision).Success?
    requires c.action == ExecuteAction && s.order.steps[s.order.currentStep].definition.Type() == BaseApply
    ensures RolloutInvariant(Dispatch(s, c, now, newRevision).value.system, start)
  {
    hide Dispatch, BaseItem, BaseItems, ApplyRules, Chained, Replay, ValidSteps, ExecuteBase;
    var o, a := s.order, AuthorityOf(s.world);
    DispatchTracks(s, start, c, now, newRevision);
    BaseNext(s, c, now, newRevision);
    var next := Dispatch(s, c, now, newRevision).value.system;
    assert Definitions(next.order.steps) == Definitions(o.steps);
    assert next.order.steps[o.currentStep].definition.Type() == BaseApply;
    assert BaseBefore(next.order.steps, o.currentStep + 1);
    forall i | 0 <= i < |o.items| ensures RuleState(next.order, next.order.items[i], next.world, o.currentStep + 1) {
      CleanupOfItems(o, a, LastPercent(o.steps, o.currentStep).Some?, o.items, i);
    }
  }

  lemma DispatchKeepsRollout(s: System, start: World, c: Command, now: int, newRevision: nat)
    requires RolloutInvariant(s, start) && Dispatch(s, c, now, newRevision).Success?
    requires Dispatch(s, c, now, newRevision).value.system.order.status == InProgress
    ensures RolloutInvariant(Dispatch(s, c, now, newRevision).value.system, start)
  {
    hide Dispatch, RuleState, RevisionState, Chained, Replay;
    if c.action == ExecuteAction {
      match s.order.steps[s.order.currentStep].definition.Type()
      case PercentRollout => PercentKeepsRollout(s, start, c, now, newRevision);
      case BaseApply => BaseKeepsRollout(s, start, c, now, newRevision);
      case OverlayApply => NoOverlaySteps(Definitions(s.order.steps), s.order.currentStep);
      case _ => QuietRollout(s, start, c, now, newRevision);
    } else if c.action == RollbackAction {
      RollbackIdentity(s, c, now, newRevision);
    } else {
      QuietRollout(s, start, c, now, newRevision);
    }
  }

  // ----- whole runs -----

  /** A new BASE_FINAL order whose targets have no rule in its scope yet. */
  ghost predicate RolloutStart(s: System) {
    && Fresh(s) && CompiledBaseFinal(s.order)
    && s.order.currentStep == 0 && s.order.steps[0].status == Pending
    && (forall i :: 0 <= i < |s.order.items| ==> s.order.items[i].key !in s.world.rules)
  }

  lemma {:induction false} RolloutHolds(s: System, requests: seq<Request>)
    requires RolloutStart(s)
    requires ServeAll(s, requests).order.status == InProgress
    ensures RolloutInvariant(ServeAll(s, requests), s.world)
  {
    RunTracks(s, requests);
    if requests == [] {
      FreshTracks(s);
      assert DoneSteps(s.order) == 0;
    } else {
      var before, r := ServeAll(s, requests[..|requests| - 1]), requests[|requests| - 1];
      if Dispatch(before, r.command, r.now, r.newRevision).Success? {
        StartedStatus(before, r.command, r.now, r.newRevision);
        RolloutHolds(s, requests[..|requests| - 1]);
        DispatchKeepsRollout(before, s.world, r.command, r.now, r.newRevision);
      } else {
        RolloutHolds(s, requests[..|requests| - 1]);
      }
    }
  }

  /**
   * The rollout chain: while the order is in progress and its base step has not run, every target's rule serves
   * exactly the canonical union of the slices executed so far, is owned by the order, and says what the target
   * should become; the records are untouched. Once the base step has run the rules are gone. Throughout, each
   * recorded effect was planned at the revision and on the rules the previous one left.
   */
  lemma RolloutChain(s: System, requests: seq<Request>, i: nat)
    requires RolloutStart(s) && ServeAll(s, requests).order.status == InProgress
    requires i < |ServeAll(s, requests).order.items|
    ensures var now := ServeAll(s, requests);
            var n := DoneSteps(now.order);
            && EffectsValid(now.order.steps)
            && Chained(now.order.steps, |now.order.steps|, s.world, now.order.items[0].collection, now.order.scope)
            && Replay(now.order.steps, |now.order.steps|, s.world) == now.world
            && RuleState(now.order, now.order.items[i], now.world, n)
            && RevisionState(now.order, now.world, s.world, n)
  {
    RolloutHolds(s, requests);
  }

  // ----- which slices commit -----

  /** The target would have its base record removed: its rule is a DELETE. */
  predicate DeletesBase(a: Authority, item: Item) {
    item.after.None? && item.key in a.records
  }

  /**
   * What the effect validator asks of an effect in a staged scope: no blank names, and a collection with a revision.
   */
  predicate NamesPresent(o: Order, revision: nat)
    requires WellFormedOrder(o)
  {
    && !Text.Blank(o.items[0].collection) && !Text.Blank(o.scope.region) && !Text.Blank(o.scope.environment)
    && !Text.Blank(o.scope.stage) && (forall i :: 0 <= i < |o.items| ==> !Text.Blank(o.items[i].key)) && 0 < revision
  }

  lemma PercentItemWrites(o: Order, a: Authority, added: seq<BucketRange>, newRevision: nat, actor: string, at: int,
                          item: Item)
    requires PercentItem(o, a, added, newRevision, actor, at, item).Success?
    ensures var c := PercentItem(o, a, added, newRevision, actor, at, item).value;
            c.key == item.key && c.next.Some? && (Storable(c.next.value) <==> !DeletesBase(a, item))
  {
    hide Expand, Normalize;
  }

  /** A planned percentage step is stored exactly when no name is blank and no target deletes a base record. */
  lemma PercentStepStored(o: Order, w: World, newRevision: nat, actor: string, at: int)
    requires WellFormedOrder(o) && ExecutePercentRollout(o, AuthorityOf(w), newRevision, actor, at).Success?
    requires WellFormed(o.steps[o.currentStep].definition.params.ranges)
    ensures var plan := ExecutePercentRollout(o, AuthorityOf(w), newRevision, actor, at).value.1;
            && (ApplyEffect(plan, w).Success? <==>
                 NamesPresent(o, w.revision) && forall i :: 0 <= i < |o.items| ==>
                   !DeletesBase(AuthorityOf(w), o.items[i]))
            && (NamesPresent(o, w.revision) && ApplyEffect(plan, w).Failure? ==>
                  ApplyEffect(plan, w) == Failure(Internal))
  {
    hide PercentItem, PercentItems, WellFormedItem, DeletesBase, Storable;
    var a, added := AuthorityOf(w), o.steps[o.currentStep].definition.params.ranges;
    var changes := PercentItems(o, a, added, newRevision, actor, at, o.items).value;
    PercentItemAt(o, a, added, newRevision, actor, at, o.items, 0);
    forall i | 0 <= i < |o.items|
      ensures changes[i].key == o.items[i].key && changes[i].next.Some?
      ensures Storable(changes[i].next.value) <==> !DeletesBase(a, o.items[i])
    {
      PercentItemAt(o, a, added, newRevision, actor, at, o.items, i);
      PercentItemWrites(o, a, added, newRevision, actor, at, o.items[i]);
    }
  }

  /** The targets are as the order was created against them. */
  predicate ItemsCurrent(items: seq<Item>, w: World) {
    forall i :: 0 <= i < |items| ==>
      && items[i].expectedCollectionRevision == w.revision
      && BaseUnchanged(items[i], Lookup(w.records, items[i].key))
      && (items[i].after.Some? || items[i].key in w.records)
  }

  lemma TargetCompiles(o: Order, item: Item, base: Option<Record>, previous: Option<Rule>, ranges: seq<BucketRange>,
                       newRevision: nat, actor: string, at: int)
    requires WellFormedItem(item, item.collection, o.scope)
    requires base.Some? ==> Belongs(base.value, item.collection, o.scope.environment, item.key)
    requires base.Some? || item.after.Some?
    requires o.scope.region != "" && o.scope.environment != "" && o.scope.stage != ""
    requires WellFormed(ranges)
    ensures var rule := CompileRule(TargetSpec(o, item, base, previous, ranges, newRevision, actor, at));
            && rule.Success? && rule.value.action == TargetAction(base, item.after)
            && rule.value.content.GetOr(map[]) == TargetContent(item.after)
  {
  }

  lemma PercentItemSucceeds(o: Order, w: World, newRevision: nat, actor: string, at: int, item: Item)
    requires o.currentStep < |o.steps| && CompiledBaseFinal(o)
    requires o.steps[o.currentStep].definition.Type() == PercentRollout
    requires RuleState(o, item, w, o.currentStep)
    requires WellFormedItem(item, item.collection, o.scope) && WellFormedWorld(w, item.collection, o.scope.environment)
    requires BaseUnchanged(item, Lookup(w.records, item.key)) && (item.after.Some? || item.key in w.records)
    requires o.scope.region != "" && o.scope.environment != "" && o.scope.stage != ""
    ensures PercentItem(o, AuthorityOf(w), o.steps[o.currentStep].definition.params.ranges, newRevision, actor, at,
                        item).Success?
  {
    hide CompileRule, SlicesBefore, WellFormed, UnionOf, Runs, WellFormedItem;
    ExpansionNeverRefused(o, o.currentStep);
    NextSliceFits(o, o.currentStep);
    var base, previous := Lookup(w.records, item.key), CloneOption(Lookup(w.rules, item.key));
    if base.Some? { assert Belongs(w.records[item.key], item.collection, o.scope.environment, item.key); }
    var grown := Runs(UnionOf(SlicesBefore(o.steps, o.currentStep + 1)));
    CanonicalWellFormed(grown);
    TargetCompiles(o, item, base, previous, grown, newRevision, actor, at);
    assert previous.Some? ==> previous.value.ranges == Runs(UnionOf(SlicesBefore(o.steps, o.currentStep)));
  }

  lemma {:induction false} PercentItemsSucceed(o: Order, w: World, newRevision: nat, actor: string, at: int,
                                               items: seq<Item>)
    requires o.currentStep < |o.steps| && CompiledBaseFinal(o)
    requires o.steps[o.currentStep].definition.Type() == PercentRollout
    requires forall i :: 0 <= i < |items| ==>
               PercentItem(o, AuthorityOf(w), o.steps[o.currentStep].definition.params.ranges, newRevision, actor, at,
                           items[i]).Success?
    ensures PercentItems(o, AuthorityOf(w), o.steps[o.currentStep].definition.params.ranges, newRevision, actor, at,
                         items).Success?
  {
    if items != [] { PercentItemsSucceed(o, w, newRevision, actor, at, items[..|items| - 1]); }
  }

  /**
   * With no other writer a pending percentage step always executes: neither the overlap check, the revision
   * check, the ownership check nor the drift check can refuse it. It commits exactly when no name is blank and
   * no target deletes a base record; a deletion is refused by storage at every attempt.
   */
  lemma PercentStepNeverStuck(s: System, requests: seq<Request>, newRevision: nat, actor: string, at: int)
    requires RolloutStart(s) && ItemsCurrent(s.order.items, s.world)
    requires s.order.scope.region != "" && s.order.scope.environment != "" && s.order.scope.stage != ""
    requires ServeAll(s, requests).order.status == InProgress
    requires AtStep(ServeAll(s, requests).order, PercentRollout, Pending)
    requires !Text.Blank(actor) && at != ZERO_TIME && ServeAll(s, requests).world.revision < newRevision
    ensures var now := ServeAll(s, requests);
            var step := ExecutePercentRollout(now.order, AuthorityOf(now.world), newRevision, actor, at);
            && step.Success?
            && (ApplyEffect(step.value.1, now.world).Success? <==>
                 && NamesPresent(s.order, now.world.revision)
                 && forall i :: 0 <= i < |s.order.items| ==> !DeletesBase(AuthorityOf(s.world), s.order.items[i]))
  {
    hide Dispatch, Serve, PercentItem, PercentItems, Chained, Replay, RuleState, ValidSteps, SlicesBefore, CompileRule,
         ApplyEffect;
    var now := ServeAll(s, requests);
    var o, w := now.order, now.world;
    RolloutHolds(s, requests);
    RunKeepsIdentity(s, requests);
    NextSliceFits(o, o.currentStep);
    assert DoneSteps(o) == o.currentStep;
    assert ItemsCurrent(o.items, s.world);
    forall i | 0 <= i < |o.items|
      ensures PercentItem(o, AuthorityOf(w), o.steps[o.currentStep].definition.params.ranges, newRevision, actor, at,
                          o.items[i]).Success?
    {
      assert WellFormedItem(o.items[i], o.items[0].collection, o.scope);
      assert RuleState(o, o.items[i], w, o.currentStep);
      PercentItemSucceeds(o, w, newRevision, actor, at, o.items[i]);
    }
    PercentItemsSucceed(o, w, newRevision, actor, at, o.items);
    SliceWellFormed(o, o.currentStep);
    PercentStepStored(o, w, newRevision, actor, at);
  }

  lemma SliceWellFormed(o: Order, n: nat)
    requires CompiledBaseFinal(o) && n < |o.steps| && o.steps[n].definition.Type() == PercentRollout
    ensures WellFormed(o.steps[n].definition.params.ranges)
  {
    NextSliceFits(o, n);
    ApartSplit(SlicesBefore(o.steps, n), o.steps[n].definition.params.ranges);
  }

  // ----- served buckets only grow -----

  lemma {:induction false} SlicesGrow(steps: seq<StepState>, m: nat, n: nat)
    requires m <= n <= |steps|
    ensures UnionOf(SlicesBefore(steps, m)) <= UnionOf(SlicesBefore(steps, n))
    decreases n - m
  {
    if m < n {
      SlicesGrow(steps, m, n - 1);
      NextDefinition(steps, n - 1);
      if steps[n - 1].definition.Type() == PercentRollout {
        UnionSplit(SlicesBefore(steps, n - 1), steps[n - 1].definition.params.ranges);
      }
    }
  }

  lemma DoneGrows(s: System, r: Request)
    requires Shape(s.order) && Serve(s, r).order.status == InProgress
    ensures s.order.status == InProgress && DoneSteps(s.order) <= DoneSteps(Serve(s, r).order)
  {
    var c := r.command;
    if Dispatch(s, c, r.now, r.newRevision).Success? {
      StartedStatus(s, c, r.now, r.newRevision);
      if c.action == ExecuteAction
         && s.order.steps[s.order.currentStep].definition.Type() in {BaseApply, OverlayApply, PercentRollout} {
        ConfiguredDone(s, c, r.now, r.newRevision);
      } else {
        QuietDone(s, c, r.now, r.newRevision);
      }
    }
  }

  lemma ConfiguredDone(s: System, c: Command, now: int, newRevision: nat)
    requires Shape(s.order) && Dispatch(s, c, now, newRevision).Success? && c.action == ExecuteAction
    requires s.order.steps[s.order.currentStep].definition.Type() in {BaseApply, OverlayApply, PercentRollout}
    ensures var next := Dispatch(s, c, now, newRevision).value.system.order;
            next.currentStep < |next.steps| && DoneSteps(s.order) == s.order.currentStep
            && DoneSteps(next) == s.order.currentStep + 1
  {
    var o, a := s.order, AuthorityOf(s.world);
    match o.steps[o.currentStep].definition.Type() {
      case BaseApply => ConfigureFirst(s, ExecuteBase(o, a, newRevision, c.actor, now));
      case OverlayApply => ConfigureFirst(s, ExecuteOverlay(o, a, newRevision, c.actor, now));
      case PercentRollout => ConfigureFirst(s, ExecutePercentRollout(o, a, newRevision, c.actor, now));
      case _ =>
    }
  }

  lemma {:induction false} RunKeepsIdentity(s: System, requests: seq<Request>)
    requires Shape(s.order) && s.order.status == InProgress
    ensures SameIdentity(s.order, ServeAll(s, requests).order)
    ensures Definitions(s.order.steps) == Definitions(ServeAll(s, requests).order.steps)
  {
    if requests != [] {
      var before, r := ServeAll(s, requests[..|requests| - 1]), requests[|requests| - 1];
      RunKeepsIdentity(s, requests[..|requests| - 1]);
      if Dispatch(before, r.command, r.now, r.newRevision).Success? {
        StartedStatus(before, r.command, r.now, r.newRevision);
        DispatchKeepsIdentity(before, r.command, r.now, r.newRevision);
      }
    }
  }

  lemma ServeAllLast(s: System, requests: seq<Request>, r: Request)
    requires Shape(s.order)
    ensures ServeAll(s, requests + [r]) == Serve(ServeAll(s, requests), r)
  {
    assert (requests + [r])[..|requests|] == requests;
  }

  lemma {:induction false} RunDoneGrows(s: System, early: seq<Request>, more: seq<Request>)
    requires Shape(s.order) && ServeAll(s, early + more).order.status == InProgress
    ensures ServeAll(s, early).order.status == InProgress
    ensures DoneSteps(ServeAll(s, early).order) <= DoneSteps(ServeAll(s, early + more).order)
    decreases |more|
  {
    hide Dispatch, Serve;
    if more == [] {
      assert early + more == early;
    } else {
      var shorter, last := more[..|more| - 1], more[|more| - 1];
      ServeAllLast(s, early + shorter, last);
      assert early + more == early + shorter + [last];
      DoneGrows(ServeAll(s, early + shorter), last);
      RunDoneGrows(s, early, shorter);
    }
  }

  lemma BaseBeforeGrows(steps: seq<StepState>, steps': seq<StepState>, m: nat, n: nat)
    requires m <= n <= |steps| && Definitions(steps) == Definitions(steps')
    ensures BaseBefore(steps', m) ==> BaseBefore(steps, n)
    ensures SlicesBefore(steps', m) == SlicesBefore(steps, m) <= SlicesBefore(steps, n)
  {
    var defs := Definitions(steps);
    if BaseBefore(steps', m) {
      var i :| 0 <= i < m && steps'[i].definition.Type() == BaseApply;
      assert defs[i] == Definitions(steps')[i];
      assert steps[i].definition.Type() == BaseApply;
    }
    PrefixSlices(defs[..n], m);
    assert defs[..n][..m] == defs[..m];
  }

  /**
   * As a run goes on, a client bucket served by a target's rule stays served until the base step makes the change
   * permanent.
   */
  lemma ServedBucketsGrow(s: System, early: seq<Request>, more: seq<Request>, i: nat)
    requires RolloutStart(s) && i < |s.order.items|
    requires ServeAll(s, early + more).order.status == InProgress
    requires !BaseBefore(ServeAll(s, early + more).order.steps, DoneSteps(ServeAll(s, early + more).order))
    ensures var key, now, later := s.order.items[i].key, ServeAll(s, early).world.rules, ServeAll(s, early
                                                                                                  + more).world.rules;
            key in now ==> key in later && Buckets(now[key].ranges) <= Buckets(later[key].ranges)
  {
    var a, b := ServeAll(s, early), ServeAll(s, early + more);
    RunDoneGrows(s, early, more);
    RunKeepsIdentity(s, early);
    RunKeepsIdentity(s, early + more);
    var m, n := DoneSteps(a.order), DoneSteps(b.order);
    RolloutChain(s, early, i);
    RolloutChain(s, early + more, i);
    BaseBeforeGrows(b.order.steps, a.order.steps, m, n);
    SlicesGrow(b.order.steps, m, n);
  }
}
