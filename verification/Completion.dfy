/** Which orders can be completed: some sequence of commands ends in SUCCEEDED exactly when every step allows it. */
module Completion {
  import opened Wrappers
  import opened Catalog
  import opened Rollout
  import opened Overlay
  import opened Template
  import opened Effects
  import opened OrderState
  import opened Lifecycle
  import opened World
  import opened Rollback
  import opened ReleaseRun
  import opened RollbackRun
  import opened RolloutRun
  import opened Reach
  import opened RolloutView
  import opened Comparison
  import opened Compensation
  import opened FinalRun
  import opened CompensationRun
  import Text

  // ----- what a comparison sees -----

  lemma {:induction false} LayerBelongs(q: Query, stage: string, rules: seq<Rule>, records: map<string, Record>)
    requires AllBelong(records, q.collection, q.scope.environment)
    ensures Layer(q, stage, rules, records).Success? ==>
              AllBelong(Layer(q, stage, rules, records).value, q.collection, q.scope.environment)
  {
    hide RangesReadable, Applies;
    if rules != [] { LayerBelongs(q, stage, rules[..|rules| - 1], records); }
  }

  lemma {:induction false} BaseBelongs(q: Query, base: seq<Record>)
    ensures AllBelong(BaseMap(q, base), q.collection, q.scope.environment)
  {
    if base != [] { BaseBelongs(q, base[..|base| - 1]); }
  }

  lemma EvaluateBelongs(q: Query, base: seq<Record>, rules: seq<Rule>)
    requires EvaluateMap(q, base, rules).Success?
    ensures AllBelong(EvaluateMap(q, base, rules).value, q.collection, q.scope.environment)
  {
    hide AllBelong;
    BaseBelongs(q, base);
    LayerBelongs(q, "", rules, BaseMap(q, base));
    if q.scope.stage != "" { LayerBelongs(q, q.scope.stage, rules, Layer(q, "", rules, BaseMap(q, base)).value); }
  }

  /** A comparison finds in an evaluated view, and in the targets' records, what they hold. */
  predicate Found(o: Order, actual: seq<Record>, records: map<string, Record>)
    requires WellFormedOrder(o)
  {
    && ActualByKey(o, actual).Success?
    && forall i :: 0 <= i < |o.items| ==>
         Lookup(ActualByKey(o, actual).value, o.items[i].key) == Lookup(records, o.items[i].key)
  }

  lemma ListingFound(o: Order, view: map<string, Record>)
    requires WellFormedOrder(o) && AllBelong(view, o.items[0].collection, o.scope.environment)
    ensures Found(o, Listing(view), view)
  {
    hide WellFormedItem, DistinctKeys, ActualByKey;
    var keys, actual := Text.InOrder(view.Keys), Listing(view);
    forall i | 0 <= i < |keys|
      ensures keys[i] in view && actual[i] == view[keys[i]] && actual[i].key == keys[i] && OwnIdentity(o, actual[i])
    {
      assert keys[i] in Text.Elements(keys);
      assert Belongs(view[keys[i]], o.items[0].collection, o.scope.environment, keys[i]);
    }
    forall j | 0 <= j < |actual| ensures SeenOnce(o, actual, j) {
      forall i | 0 <= i < j ensures actual[i].key != actual[j].key { Text.LessIrreflexive(keys[i]); }
    }
    ObservationUsable(o, actual);
    ObservationMeaning(o, actual);
    var found := ActualByKey(o, actual).value;
    forall i | 0 <= i < |o.items| ensures Lookup(found, o.items[i].key) == Lookup(view, o.items[i].key) {
      var key := o.items[i].key;
      assert IsTarget(o, key);
      if key in view {
        assert key in Text.Elements(keys);
        var j :| 0 <= j < |keys| && keys[j] == key;
        assert actual[j].key == key;
      }
    }
  }

  lemma {:induction false} RecordsCollect(o: Order, items: seq<Item>, records: map<string, Record>)
    requires WellFormedOrder(o) && AllBelong(records, o.items[0].collection, o.scope.environment)
    requires DistinctKeys(items) && forall i :: 0 <= i < |items| ==> IsTarget(o, items[i].key)
    ensures ActualByKey(o, TargetRecords(items, records)).Success?
    ensures forall k :: Lookup(ActualByKey(o, TargetRecords(items, records)).value, k)
                        == if KeyAmong(items, k) then Lookup(records, k) else None
  {
    hide WellFormedItem, IsTarget;
    if items != [] {
      hide ActualByKey, KeyAmong;
      var init, last := items[..|items| - 1], items[|items| - 1];
      RecordsCollect(o, init, records);
      LastIsNew(items);
      forall k ensures KeyAmong(items, k) <==> KeyAmong(init, k) || last.key == k { AmongLast(items, k); }
      if last.key in records {
        assert Belongs(records[last.key], o.items[0].collection, o.scope.environment, last.key);
        assert Lookup(ActualByKey(o, TargetRecords(init, records)).value, last.key) == None;
        OneCollected(o, TargetRecords(init, records), records[last.key]);
      }
    }
  }

  lemma OneCollected(o: Order, before: seq<Record>, last: Record)
    requires WellFormedOrder(o) && IsTarget(o, last.key) && OwnIdentity(o, last)
    requires ActualByKey(o, before).Success? && last.key !in ActualByKey(o, before).value
    ensures ActualByKey(o, before + [last]) == Success(ActualByKey(o, before).value[last.key := last])
  {
    assert (before + [last])[..|before|] == before;
  }

  lemma TargetsFound(o: Order, records: map<string, Record>)
    requires WellFormedOrder(o) && AllBelong(records, o.items[0].collection, o.scope.environment)
    ensures Found(o, TargetRecords(o.items, records), records)
  {
    RecordsCollect(o, o.items, records);
    forall i | 0 <= i < |o.items| ensures KeyAmong(o.items, o.items[i].key) && IsTarget(o, o.items[i].key) {}
  }

  /** The order's side of a comparison against what is there. */
  predicate AgreesWith(desired: Option<Record>, seen: Option<Record>) {
    match (desired, seen)
    case (None, None) => true
    case (Some(d), Some(s)) => EqualData(d.data, s.data)
    case _ => false
  }

  /** A comparison of this kind finds no difference in this configuration. */
  ghost predicate SeesNoDifference(o: Order, w: World, params: StepParams)
    requires WellFormedOrder(o) && params.CompareParams?
  {
    match params.mode
    case CompareBase => forall i :: 0 <= i < |o.items| ==>
                          AgreesWith(o.items[i].after, Lookup(w.records, o.items[i].key))
    case CompareEffective =>
      && View(o, w, params.previewBucket).Success?
      && forall i :: 0 <= i < |o.items| ==>
           AgreesWith(o.items[i].after, Lookup(View(o, w, params.previewBucket).value, o.items[i].key))
  }

  /** What the comparison step of this configuration looks at, by key. */
  ghost function SeenRecords(o: Order, w: World, params: StepParams): Option<map<string, Record>>
    requires WellFormedOrder(o) && params.CompareParams?
  {
    match params.mode
    case CompareBase => Some(w.records)
    case CompareEffective =>
      match View(o, w, params.previewBucket)
      case Success(view) => Some(view)
      case Failure(_) => None
  }

  lemma SeenFound(o: Order, w: World)
    requires WellFormedOrder(o) && AtStep(o, Compare, o.steps[o.currentStep].status)
    requires WellFormedWorld(w, o.items[0].collection, o.scope.environment)
    ensures var seen := SeenRecords(o, w, o.steps[o.currentStep].definition.params);
            if seen.None? then CompareRecords(o, w).Failure?
            else CompareRecords(o, w).Success? && Found(o, CompareRecords(o, w).value, seen.value)
  {
    hide WellFormedItem, Found, EvaluateMap, TargetRecords, TargetRules;
    var params := o.steps[o.currentStep].definition.params;
    if params.mode == CompareBase {
      TargetsFound(o, w.records);
    } else {
      var q := Query(o.items[0].collection, o.scope, params.previewBucket);
      var base, rules := TargetRecords(o.items, w.records), TargetRules(o.items, w.rules);
      if EvaluateMap(q, base, rules).Success? {
        EvaluateBelongs(q, base, rules);
        ListingFound(o, EvaluateMap(q, base, rules).value);
      }
    }
  }

  function Do(o: Order, action: Action, actor: string, roles: seq<string>): Command {
    Command("", "", o.revision, "", action, actor, roles, "")
  }

  /** At a pending comparison, executing it matches exactly when nothing differs. */
  lemma ComparisonExactly(s: System, c: Command, now: int, newRevision: nat)
    requires Shape(s.order) && AtStep(s.order, Compare, Pending)
    requires WellFormedWorld(s.world, s.order.items[0].collection, s.order.scope.environment)
    requires c.action == ExecuteAction && c.expectedRevision == s.order.revision && !Text.Blank(c.actor)
    requires now != ZERO_TIME
    ensures var d := Dispatch(s, c, now, newRevision);
            (d.Success? && d.value.matched) <==>
              SeesNoDifference(s.order, s.world, s.order.steps[s.order.currentStep].definition.params)
  {
    hide Shape, WellFormedItem, ActualByKey, CompareRecords, View, AgreesWith, DiffKeys;
    ShapeGives(s.order);
    var o, w := s.order, s.world;
    var params := o.steps[o.currentStep].definition.params;
    SeenFound(o, w);
    if CompareRecords(o, w).Success? {
      var actual := CompareRecords(o, w).value;
      assert ExecuteCompare(o, o.revision, actual, c.actor, now).Success?;
      MatchesExactlyWhenTargetsAgree(o, o.revision, actual, c.actor, now);
      forall i | 0 <= i < |o.items|
        ensures Agrees(o.items[i], ActualByKey(o, actual).value)
                <==> AgreesWith(o.items[i].after, Lookup(SeenRecords(o, w, params).value, o.items[i].key))
      {
        AgreeAlike(o.items[i], ActualByKey(o, actual).value, SeenRecords(o, w, params).value);
      }
    }
  }

  lemma AgreeAlike(item: Item, found: map<string, Record>, seen: map<string, Record>)
    requires Lookup(found, item.key) == Lookup(seen, item.key)
    ensures Agrees(item, found) <==> AgreesWith(item.after, Lookup(seen, item.key))
  {
  }

  lemma ShapeGives(o: Order)
    requires Shape(o)
    ensures WellFormedOrder(o) && ReviewsHaveApproval(o)
  {
  }

  // ----- what each step asks -----

  /** An order just created on this configuration; a BASE_FINAL order finds no rule at its targets. */
  ghost predicate JustCreated(first: System, overlay: bool) {
    && Start(first, overlay) && CreatedHere(first) && PositiveTargets(first)
    && first.order.currentStep == 0 && first.order.steps[0].status == Pending
    && (if overlay then OwnRules(first)
        else forall i :: 0 <= i < |first.order.items| ==> first.order.items[i].key !in first.world.rules)
  }

  predicate FinalBefore(o: Order, overlay: bool, n: nat)
    requires n <= |o.steps|
  {
    exists k :: 0 <= k < n && o.steps[k].definition.Type() == FinalType(overlay)
  }

  /**
   * The base step left the record alone because it compares equal to the desired one; the reverse comparison must
   * accept it too.
   */
  predicate KeptAgrees(before: Option<Record>, desired: Option<Record>) {
    before.Some? && desired.Some? && EqualData(before.value.data, desired.value.data) ==>
      EqualData(desired.value.data, before.value.data)
  }

  /** A comparison at step `n` finds no difference, told from the configuration the order was created on. */
  ghost predicate AgreesAt(first: System, overlay: bool, n: nat)
    requires WellFormedOrder(first.order) && n < |first.order.steps|
    requires first.order.steps[n].definition.Type() == Compare
  {
    var o, w, params := first.order, first.world, first.order.steps[n].definition.params;
    if overlay then
      (params.mode == CompareEffective && FinalBefore(o, true, n)) || SeesNoDifference(o, w, params)
    else
      forall i :: 0 <= i < |o.items| ==>
        var before, desired := Lookup(w.records, o.items[i].key), o.items[i].after;
        if FinalBefore(o, false, n) then KeptAgrees(before, desired)
        else AgreesWith(desired, before)
             || (params.mode == CompareEffective && Reached(params.previewBucket, UnionOf(SlicesBefore(o.steps, n))))
  }

  /** What step `n` asks of the order and of the configuration it was created on. */
  ghost predicate StepAllows(first: System, overlay: bool, n: nat)
    requires WellFormedOrder(first.order) && n < |first.order.steps|
  {
    var o, w := first.order, first.world;
    match o.steps[n].definition.Type()
    case ManualReview => o.steps[n].definition.requiredRoles != []
    case Compare => AgreesAt(first, overlay, n)
    case Complete => n > 0 && o.steps[n - 1].definition.Type() != ManualReview
    case PercentRollout =>
      NamesPresent(o, w.revision) && forall i :: 0 <= i < |o.items| ==> !DeletesBase(AuthorityOf(w), o.items[i])
    case OverlayApply =>
      NamesPresent(o, w.revision) && forall i :: 0 <= i < |o.items| ==> Storing(AuthorityOf(w), o.items[i])
    case BaseApply =>
      && !Text.Blank(o.items[0].collection) && !Text.Blank(o.scope.region) && !Text.Blank(o.scope.environment)
      && (SlicesBefore(o.steps, n) != [] || exists i :: 0 <= i < |o.items| && NeedsChange(first, o.items[i]))
  }

  // ----- where a run stands -----

  /** What is known of a run of `first` that is still in progress. */
  ghost predicate Running(first: System, now: System, overlay: bool) {
    && WellFormedOrder(first.order) && Shape(now.order) && now.order.status == InProgress
    && now.order.items == first.order.items && now.order.scope == first.order.scope && now.order.id == first.order.id
    && |now.order.steps| == |first.order.steps| && Definitions(now.order.steps) == Definitions(first.order.steps)
    && Compiled(now.order, overlay) && Standing(first, now, overlay)
    && WellFormedWorld(now.world, first.order.items[0].collection, first.order.scope.environment)
    && WellFormedWorld(first.world, first.order.items[0].collection, first.order.scope.environment)
    && first.world.revision <= now.world.revision && 0 < first.world.revision
    && (overlay ==> first.order.scope.stage != "")
  }

  lemma RunIsRunning(first: System, requests: seq<Request>, overlay: bool)
    requires JustCreated(first, overlay) && ServeAll(first, requests).order.status == InProgress
    ensures Running(first, ServeAll(first, requests), overlay)
  {
    hide Standing, Chained, Replay, ValidSteps, View, Dispatch;
    var now := ServeAll(first, requests);
    RunStands(first, requests, overlay);
    RunTracks(first, requests);
    RunKeepsIdentity(first, requests);
    SameCompiled(first.order, now.order, overlay);
    ReplayBelongs(now.order.steps, |now.order.steps|, first.world, now.order.items[0].collection, now.order.scope);
    assert WellFormedItem(first.order.items[0], first.order.items[0].collection, first.order.scope);
  }

  lemma SameSteps(first: Order, o: Order, overlay: bool, n: nat)
    requires |o.steps| == |first.steps| && Definitions(o.steps) == Definitions(first.steps) && n <= |o.steps|
    ensures FinalBefore(o, overlay, n) <==> FinalBefore(first, overlay, n)
    ensures SlicesBefore(o.steps, n) == SlicesBefore(first.steps, n)
    ensures forall i :: 0 <= i < |o.steps| ==> o.steps[i].definition == first.steps[i].definition
  {
    forall i | 0 <= i < |o.steps| ensures o.steps[i].definition == first.steps[i].definition {
      assert Definitions(o.steps)[i] == Definitions(first.steps)[i];
    }
  }

  /**
   * The order is decided exactly when its deciding step lies before the current one, unless that is the current one.
   */
  lemma DecidedExactly(o: Order, overlay: bool)
    requires Shape(o) && o.status == InProgress && EffectsValid(o.steps) && Compiled(o, overlay)
    requires o.steps[o.currentStep].effect.None?
    ensures FinalOf(o.steps, |o.steps|).Some? <==> FinalBefore(o, overlay, o.currentStep)
  {
    FinalExactly(o.steps, |o.steps|);
    if k :| 0 <= k < o.currentStep && o.steps[k].definition.Type() == FinalType(overlay) {
      assert Settled(o.steps[k]);
      assert Decides(o.steps[k]);
    }
    if k :| 0 <= k < |o.steps| && Decides(o.steps[k]) {
      assert k < o.currentStep;
      assert Settled(o.steps[k]);
      NoOtherFinal(o, overlay, k);
    }
  }

  lemma OverlayComparison(first: System, now: System)
    requires Running(first, now, true) && AtStep(now.order, Compare, Pending)
    ensures var n := now.order.currentStep;
            first.order.steps[n].definition.Type() == Compare
            && (SeesNoDifference(now.order, now.world, now.order.steps[n].definition.params) <==>
                  AgreesAt(first, true, n))
  {
    hide Shape, Landed, EvaluateMap, WellFormedItem, ValidSteps, AgreesWith;
    ShapeGives(now.order);
    var o, n := now.order, now.order.currentStep;
    SameSteps(first.order, o, true, n);
    CurrentHasNoEffect(o);
    DecidedExactly(o, true);
    var params := o.steps[n].definition.params;
    assert View(o, now.world, params.previewBucket) == View(first.order, now.world, params.previewBucket);
    if FinalBefore(o, true, n) {
      var f := FinalOf(o.steps, |o.steps|).value;
      LandedRecords(first.order, f, first.world, now.world);
      LandedView(first.order, f, first.world, now.world, params.previewBucket);
      forall i | 0 <= i < |o.items| && params.mode == CompareEffective
        ensures AgreesWith(o.items[i].after, Lookup(View(o, now.world, params.previewBucket).value, o.items[i].key))
      {
        ShownAgrees(View(first.order, now.world, params.previewBucket).value, o.items[i], f.revision);
      }
    }
  }

  lemma ShownAgrees(view: map<string, Record>, item: Item, revision: nat)
    requires Shows(view, item, revision)
    ensures AgreesWith(item.after, Lookup(view, item.key))
  {
  }

  lemma CurrentHasNoEffect(o: Order)
    requires Shape(o) && o.status == InProgress && o.steps[o.currentStep].status == Pending
    ensures o.steps[o.currentStep].effect.None?
  {
  }

  lemma BaseBeforeIsFinal(o: Order, n: nat)
    requires n <= |o.steps|
    ensures BaseBefore(o.steps, n) <==> FinalBefore(o, false, n)
  {
  }

  lemma KeptExactly(before: Option<Record>, desired: Option<Record>, collection: string, environment: string,
                    key: string, applied: nat)
    ensures AgreesWith(desired, WrittenRecord(before, desired, collection, environment, key, applied)) <==>
              KeptAgrees(before, desired)
  {
  }

  /** After the base step both kinds of comparison see the records it wrote. */
  lemma DecidedBaseComparison(first: System, now: System)
    requires Running(first, now, false) && AtStep(now.order, Compare, Pending)
    requires FinalBefore(now.order, false, now.order.currentStep)
    ensures var n := now.order.currentStep;
            first.order.steps[n].definition.Type() == Compare
            && (SeesNoDifference(now.order, now.world, now.order.steps[n].definition.params) <==>
                  AgreesAt(first, false, n))
  {
    hide Shape, EvaluateMap, WellFormedItem, ValidSteps, AgreesWith, KeptAgrees, View, WrittenRecord, BaseExpected,
         SlicesBefore;
    ShapeGives(now.order);
    var o, w, n := now.order, now.world, now.order.currentStep;
    SameSteps(first.order, o, false, n);
    CurrentHasNoEffect(o);
    DecidedExactly(o, false);
    var f := FinalOf(o.steps, |o.steps|).value;
    var collection, environment := first.order.items[0].collection, first.order.scope.environment;
    forall i | 0 <= i < |o.items|
      ensures o.items[i].key !in w.rules
      ensures AgreesWith(o.items[i].after, Lookup(w.records, o.items[i].key))
              <==> KeptAgrees(Lookup(first.world.records, o.items[i].key), o.items[i].after)
    {
      assert LandedBase(f, first.order.items[i], collection, environment, first.world, w);
      KeptExactly(Lookup(first.world.records, o.items[i].key), o.items[i].after, collection, environment,
                  o.items[i].key, f.revision);
    }
    BareView(o, w, o.steps[n].definition.params.previewBucket);
  }

  /** Before it a base comparison sees the starting records, and an effective one what the slices show its bucket. */
  lemma RollingComparison(first: System, requests: seq<Request>)
    requires JustCreated(first, false) && ServeAll(first, requests).order.status == InProgress
    requires AtStep(ServeAll(first, requests).order, Compare, Pending)
    requires !FinalBefore(ServeAll(first, requests).order, false, ServeAll(first, requests).order.currentStep)
    ensures var now := ServeAll(first, requests);
            var n := now.order.currentStep;
            |first.order.steps| == |now.order.steps| && first.order.steps[n].definition.Type() == Compare
            && (SeesNoDifference(now.order, now.world, now.order.steps[n].definition.params) <==>
                  AgreesAt(first, false, n))
  {
    hide ServeAll, EvaluateMap, WellFormedItem, ValidSteps, View, SlicesBefore, UnionOf, Standing, BaseBefore,
         FinalBefore, CreatedHere;
    var now := ServeAll(first, requests);
    RunIsRunning(first, requests, false);
    var o, w, n := now.order, now.world, now.order.currentStep;
    SameSteps(first.order, o, false, n);
    BaseBeforeIsFinal(o, n);
    assert DoneSteps(o) == n;
    RolloutShows(first, requests, o.steps[n].definition.params.previewBucket);
    forall d: Record, revision: nat ensures AgreesWith(Some(d), Some(d.(revision := revision))) {}
  }

  /** A comparison finds no difference where the run stands exactly when the starting configuration says so. */
  lemma ComparisonToldFromStart(first: System, requests: seq<Request>, overlay: bool)
    requires JustCreated(first, overlay) && ServeAll(first, requests).order.status == InProgress
    requires AtStep(ServeAll(first, requests).order, Compare, Pending)
    ensures var now := ServeAll(first, requests);
            var n := now.order.currentStep;
            |first.order.steps| == |now.order.steps| && first.order.steps[n].definition.Type() == Compare
            && (SeesNoDifference(now.order, now.world, now.order.steps[n].definition.params) <==>
                  AgreesAt(first, overlay, n))
  {
    hide ServeAll, SeesNoDifference, AgreesAt, CreatedHere, Standing, ValidSteps, FinalBefore;
    RunIsRunning(first, requests, overlay);
    var now := ServeAll(first, requests);
    if overlay {
      OverlayComparison(first, now);
    } else if FinalBefore(now.order, false, now.order.currentStep) {
      DecidedBaseComparison(first, now);
    } else {
      RollingComparison(first, requests);
    }
  }
}
