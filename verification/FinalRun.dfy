/** Orders run to their end: what a succeeded order has made of the configuration it started from. */
module FinalRun {
  import opened Wrappers
  import opened Catalog
  import opened Overlay
  import opened Template
  import opened Effects
  import opened OrderState
  import opened Lifecycle
  import opened World
  import opened Rollback
  import opened ReleaseRun
  import opened RollbackRun
  import opened RolloutRun
  import opened Reach
  import opened Compensation

  // ----- step lists -----

  lemma {:induction false} CountPositive(steps: seq<StepDefinition>, t: StepType)
    requires CountType(steps, t) > 0
    ensures exists i :: 0 <= i < |steps| && steps[i].Type() == t
  {
    var init, last := steps[..|steps| - 1], steps[|steps| - 1];
    if last.Type() == t {
      assert steps[|steps| - 1].Type() == t;
    } else {
      CountPositive(init, t);
      var i :| 0 <= i < |init| && init[i].Type() == t;
      assert steps[i].Type() == t;
    }
  }

  lemma {:induction false} CountAtLeast(steps: seq<StepDefinition>, t: StepType, i: nat)
    requires i < |steps| && steps[i].Type() == t
    ensures CountType(steps, t) >= 1
    ensures forall j :: i < j < |steps| && steps[j].Type() == t ==> CountType(steps, t) >= 2
  {
    if i < |steps| - 1 {
      var init := steps[..|steps| - 1];
      CountAtLeast(init, t, i);
      forall j | i < j < |steps| && steps[j].Type() == t ensures CountType(steps, t) >= 2 {
        if j < |init| { assert init[j].Type() == t; }
      }
    }
  }

  function FinalType(overlay: bool): StepType { if overlay then OverlayApply else BaseApply }

  /** The steps come from a compiled template of this final effect. */
  ghost predicate Compiled(o: Order, overlay: bool) {
    ValidSteps(if overlay then OverlayFinal else BaseFinal, Definitions(o.steps))
  }

  /** A compiled order has one deciding step; no percentage step follows it, and none of the other kind exists. */
  lemma OneFinalStep(o: Order, overlay: bool, i: nat, j: nat)
    requires Compiled(o, overlay) && i < |o.steps| && j < |o.steps|
    requires o.steps[i].definition.Type() == FinalType(overlay)
    requires o.steps[j].definition.Type() == FinalType(overlay) || o.steps[j].definition.Type() == PercentRollout
    ensures j <= i
  {
    var defs := Definitions(o.steps);
    assert defs[i] == o.steps[i].definition && defs[j] == o.steps[j].definition;
    CountAtLeast(defs, FinalType(overlay), i);
    CountAtLeast(defs, defs[j].Type(), j);
  }

  lemma NoOtherFinal(o: Order, overlay: bool, i: nat)
    requires Compiled(o, overlay) && i < |o.steps|
    ensures o.steps[i].definition.Type() != FinalType(!overlay)
    ensures overlay ==> o.steps[i].definition.Type() != PercentRollout
  {
    var defs := Definitions(o.steps);
    assert defs[i] == o.steps[i].definition;
    CountAtLeast(defs, defs[i].Type(), i);
  }

  // ----- the deciding effect -----

  lemma {:induction false} SameFinal(a: seq<StepState>, b: seq<StepState>, n: nat)
    requires n <= |a| && n <= |b| && EffectsValid(a) && EffectsValid(b)
    requires forall i :: 0 <= i < n ==> a[i].effect == b[i].effect
    ensures FinalOf(a, n) == FinalOf(b, n)
  {
    if n > 0 { SameFinal(a, b, n - 1); }
  }

  lemma {:induction false} NoLaterFinal(steps: seq<StepState>, n: nat, m: nat)
    requires n <= m <= |steps| && EffectsValid(steps)
    requires forall i :: n <= i < m ==> steps[i].effect.None?
    ensures FinalOf(steps, m) == FinalOf(steps, n)
    decreases m - n
  {
    if n < m { NoLaterFinal(steps, n, m - 1); }
  }

  predicate Decides(step: StepState) {
    step.effect.Some? && (step.effect.value.effectType == BaseType || step.effect.value.effectType == OverlayType)
  }

  lemma {:induction false} FinalExactly(steps: seq<StepState>, n: nat)
    requires n <= |steps| && EffectsValid(steps)
    ensures FinalOf(steps, n).Some? <==> exists i :: 0 <= i < n && Decides(steps[i])
  {
    if n > 0 {
      FinalExactly(steps, n - 1);
      if Decides(steps[n - 1]) { assert FinalOf(steps, n).Some?; }
    }
  }

  function FinalFrom(e: Envelope): Final
    requires ValidEnvelope(e) && (e.effectType == BaseType || e.effectType == OverlayType)
  {
    if e.effectType == BaseType
    then Final(false, e.base.value.appliedRevision, set c | c in e.base.value.changes :: ChangeKey(c))
    else Final(true, e.overlay.value.appliedRevision, {})
  }

  /**
   * Recording an effect at the first step without later ones decides the order, or, for a slice, leaves it as it was.
   */
  lemma RecordedFinal(o: Order, e: Envelope, actor: string, at: int)
    requires WellFormedOrder(o) && EffectsValid(o.steps) && ValidEnvelope(e)
    requires forall i :: o.currentStep <= i < |o.steps| ==> o.steps[i].effect.None?
    ensures var next := RecordEffect(o, e, actor, at).steps;
            && EffectsValid(next)
            && FinalOf(next, |next|) == if e.effectType == PercentType then FinalOf(o.steps, |o.steps|)
               else Some(FinalFrom(e))
  {
    hide ValidEnvelope, FinalFrom;
    var next, n := RecordEffect(o, e, actor, at).steps, o.currentStep;
    assert forall i :: 0 <= i < |next| && i != n ==> next[i] == o.steps[i];
    NoLaterFinal(next, n + 1, |next|);
    NoLaterFinal(o.steps, n, |o.steps|);
    SameFinal(o.steps, next, n);
    FinalAt(next, n);
  }

  lemma FinalAt(steps: seq<StepState>, n: nat)
    requires n < |steps| && EffectsValid(steps) && steps[n].effect.Some?
    ensures FinalOf(steps, n + 1) ==
            if steps[n].effect.value.effectType == PercentType then FinalOf(steps, n)
               else Some(FinalFrom(steps[n].effect.value))
  {
  }

  /** Before the deciding step nothing has decided the order. */
  lemma NotDecidedYet(o: Order, overlay: bool)
    requires Shape(o) && o.status == InProgress && EffectsValid(o.steps) && Compiled(o, overlay)
    requires o.steps[o.currentStep].definition.Type() in {FinalType(overlay), PercentRollout}
    requires o.steps[o.currentStep].effect.None?
    ensures FinalOf(o.steps, |o.steps|).None?
  {
    FinalExactly(o.steps, |o.steps|);
    if i :| 0 <= i < |o.steps| && Decides(o.steps[i]) {
      assert i <= o.currentStep;
      assert i < o.currentStep;
      assert Settled(o.steps[i]);
      NoOtherFinal(o, overlay, i);
      OneFinalStep(o, overlay, i, o.currentStep);
    }
  }

  // ----- what the deciding step leaves -----

  /** The base record is the one the order was made against. */
  predicate BaseExpected(item: Item, existing: Option<Record>) {
    if item.expectedRecordRevision == 0 then existing.None?
    else && existing.Some? && existing.value.revision == item.expectedRecordRevision
         && item.baseBefore.Some? && EqualData(existing.value.data, item.baseBefore.value.data)
  }

  predicate LandedBase(f: Final, item: Item, collection: string, environment: string, start: World, now: World) {
    && BaseExpected(item, Lookup(start.records, item.key))
    && Lookup(now.records, item.key)
       == WrittenRecord(Lookup(start.records, item.key), item.after, collection, environment, item.key, f.revision)
    && (item.key in f.changed <==> BaseItemChanges(Lookup(start.records, item.key), item) != [])
    && item.key !in now.rules
  }

  predicate WroteAs(o: Order, f: Final, actor: string, at: int, start: World, now: World) {
    WroteRules(o, AuthorityOf(start), f.revision, actor, at, o.items, now.rules)
  }

  /** The world `now` is what an order decided by `f` made of the world `start`. */
  ghost predicate Landed(o: Order, f: Final, start: World, now: World)
    requires WellFormedOrder(o)
  {
    && now.revision == f.revision
    && if f.overlay then
         && now.records == start.records
         && (exists actor, at :: WroteAs(o, f, actor, at, start, now))
         && (forall i :: 0 <= i < |o.items| ==> Storing(AuthorityOf(start), o.items[i]))
       else
         && (forall i :: 0 <= i < |o.items| ==>
              LandedBase(f, o.items[i], o.items[0].collection, o.scope.environment, start, now))
         && (forall key :: !KeyAmong(o.items, key) ==> Lookup(now.records, key) == Lookup(start.records, key))
  }

  lemma {:induction false} BaseItemsEach(o: Order, a: Authority, hasPercent: bool, items: seq<Item>, i: nat)
    requires i < |items| && BaseItems(o, a, hasPercent, items).Success?
    ensures BaseItem(o, a, hasPercent, items[i]).Success?
  {
    hide BaseItem;
    if i < |items| - 1 { BaseItemsEach(o, a, hasPercent, items[..|items| - 1], i); }
  }

  predicate Changes(changes: seq<BaseChange>, key: string) {
    exists j :: 0 <= j < |changes| && ChangeKey(changes[j]) == key
  }

  lemma ChangesConcat(a: seq<BaseChange>, b: seq<BaseChange>, key: string)
    ensures Changes(a + b, key) <==> Changes(a, key) || Changes(b, key)
  {
    if j :| 0 <= j < |a| && ChangeKey(a[j]) == key { assert (a + b)[j] == a[j]; }
    if j :| 0 <= j < |b| && ChangeKey(b[j]) == key { assert (a + b)[|a| + j] == b[j]; }
  }

  lemma {:induction false} ChangedExactly(o: Order, a: Authority, hasPercent: bool, items: seq<Item>, i: nat,
                                          collection: string, environment: string)
    requires i < |items| && DistinctKeys(items) && BaseItems(o, a, hasPercent, items).Success?
    requires AllBelong(a.records, collection, environment)
    requires forall j :: 0 <= j < |items| ==> SameTarget(items[j].after, collection, environment, items[j].key)
    ensures Changes(BaseItems(o, a, hasPercent, items).value.0, items[i].key)
            <==> BaseItemChanges(Lookup(a.records, items[i].key), items[i]) != []
  {
    hide BaseItem, Changes, ChangeKey;
    var init, last := items[..|items| - 1], items[|items| - 1];
    var before, one := BaseItems(o, a, hasPercent, init).value.0, BaseItem(o, a, hasPercent, last).value.0;
    BaseOne(o, a, hasPercent, last, collection, environment);
    ChangesConcat(before, one, items[i].key);
    OneChanges(one, last.key, items[i].key);
    if i < |init| {
      ChangedExactly(o, a, hasPercent, init, i, collection, environment);
      assert init[i] == items[i] && items[i].key != items[|items| - 1].key;
    } else {
      BaseKeys(o, a, hasPercent, init, collection, environment);
      NotAmong(before, init, items);
    }
  }

  lemma OneChanges(one: seq<BaseChange>, last: string, key: string)
    requires forall j :: 0 <= j < |one| ==> ChangeKey(one[j]) == last
    ensures Changes(one, key) <==> one != [] && key == last
  {
    if one != [] && key == last { assert ChangeKey(one[0]) == key; }
  }

  lemma NotAmong(before: seq<BaseChange>, init: seq<Item>, items: seq<Item>)
    requires items != [] && init == items[..|items| - 1] && DistinctKeys(items)
    requires forall j :: 0 <= j < |before| ==> KeyAmong(init, ChangeKey(before[j]))
    ensures !Changes(before, items[|items| - 1].key)
  {
    if j :| 0 <= j < |before| && ChangeKey(before[j]) == items[|items| - 1].key {
      LastKeyFresh(items, ChangeKey(before[j]));
    }
  }

  lemma BaseStepLands(o: Order, w: World, start: World, newRevision: nat, actor: string, at: int)
    requires WellFormedOrder(o) && WellFormedWorld(w, o.items[0].collection, o.scope.environment)
    requires w.records == start.records
    requires ExecuteBase(o, AuthorityOf(w), newRevision, actor, at).Success?
    requires ApplyEffect(ExecuteBase(o, AuthorityOf(w), newRevision, actor, at).value.1, w).Success?
    ensures var e := ExecuteBase(o, AuthorityOf(w), newRevision, actor, at).value.1;
            && ValidEnvelope(e) && e.effectType == BaseType && FinalFrom(e).revision == newRevision
            && Landed(o, FinalFrom(e), start, ApplyEffect(e, w).value)
  {
    hide BaseItems, BaseItem, ApplyEffect, WrittenRecord, WellFormedItem, BaseItemChanges;
    var e := ExecuteBase(o, AuthorityOf(w), newRevision, actor, at).value.1;
    var collection, hasPercent := o.items[0].collection, LastPercent(o.steps, o.currentStep).Some?;
    AppliedIsValid(e, w);
    BaseStepReaches(o, w, newRevision, actor, at, 0);
    assert forall j :: 0 <= j < |o.items| ==>
             SameTarget(o.items[j].after, collection, o.scope.environment, o.items[j].key) by {
      forall j | 0 <= j < |o.items|
        ensures SameTarget(o.items[j].after, collection, o.scope.environment, o.items[j].key)
      {
        ItemTarget(o, j);
      }
    }
    forall i | 0 <= i < |o.items|
      ensures LandedBase(FinalFrom(e), o.items[i], collection, o.scope.environment, start, ApplyEffect(e, w).value)
    {
      BaseStepReaches(o, w, newRevision, actor, at, i);
      BaseItemsEach(o, AuthorityOf(w), hasPercent, o.items, i);
      ItemExpected(o, AuthorityOf(w), hasPercent, o.items[i]);
      ChangedExactly(o, AuthorityOf(w), hasPercent, o.items, i, collection, o.scope.environment);
      ChangesSet(e.base.value.changes, o.items[i].key);
    }
  }

  lemma AppliedIsValid(e: Envelope, w: World)
    requires ApplyEffect(e, w).Success?
    ensures ValidEnvelope(e)
  {
  }

  lemma ItemTarget(o: Order, j: nat)
    requires WellFormedOrder(o) && j < |o.items|
    ensures SameTarget(o.items[j].after, o.items[0].collection, o.scope.environment, o.items[j].key)
  {
    assert WellFormedItem(o.items[j], o.items[0].collection, o.scope);
  }

  lemma ItemExpected(o: Order, a: Authority, hasPercent: bool, item: Item)
    requires BaseItem(o, a, hasPercent, item).Success?
    ensures BaseExpected(item, Lookup(a.records, item.key))
  {
  }

  lemma ChangesSet(changes: seq<BaseChange>, key: string)
    ensures key in (set c | c in changes :: ChangeKey(c)) <==> Changes(changes, key)
  {
    if c :| c in changes && ChangeKey(c) == key {
      var j :| 0 <= j < |changes| && changes[j] == c;
    }
  }

  lemma OverlayStepLands(o: Order, w: World, newRevision: nat, actor: string, at: int)
    requires WellFormedOrder(o) && ExecuteOverlay(o, AuthorityOf(w), newRevision, actor, at).Success?
    requires ApplyEffect(ExecuteOverlay(o, AuthorityOf(w), newRevision, actor, at).value.1, w).Success?
    ensures var e := ExecuteOverlay(o, AuthorityOf(w), newRevision, actor, at).value.1;
            && ValidEnvelope(e) && e.effectType == OverlayType && FinalFrom(e).revision == newRevision
            && Landed(o, FinalFrom(e), w, ApplyEffect(e, w).value)
  {
    hide OverlayItems, ApplyRules, Storing, WroteRules;
    OverlayStepStored(o, w, newRevision, actor, at);
    var written := ApplyRules(OverlayItems(o, AuthorityOf(w), newRevision, actor, at, o.items).value, w.rules);
    OverlayStepWrites(o, w, newRevision, actor, at, written);
    var e := ExecuteOverlay(o, AuthorityOf(w), newRevision, actor, at).value.1;
    assert WroteAs(o, FinalFrom(e), actor, at, w, ApplyEffect(e, w).value);
  }

  // ----- whole runs -----

  predicate ItemShape(overlay: bool, item: Item) {
    if overlay then ValidOverlayShape(SpecOfItem(item)) else ValidBaseShape(SpecOfItem(item))
  }

  /** A new order from a compiled template, over records of its own collection and environment. */
  ghost predicate Start(s: System, overlay: bool) {
    && Fresh(s) && Compiled(s.order, overlay) && (overlay ==> s.order.scope.stage != "")
    && forall i :: 0 <= i < |s.order.items| ==> ItemShape(overlay, s.order.items[i])
  }

  /** What the steps done so far have made of the starting world. */
  ghost predicate Standing(first: System, s: System, overlay: bool)
    requires WellFormedOrder(first.order)
  {
    && EffectsValid(s.order.steps)
    && match FinalOf(s.order.steps, |s.order.steps|)
       case None => s.world.records == first.world.records && (overlay ==> s.world == first.world)
       case Some(f) => f.overlay == overlay && Landed(first.order, f, first.world, s.world)
  }

  /** COMPLETE settled the items, with every earlier step done. */
  ghost predicate Ended(first: Order, o: Order) {
    && o.items == Settle(first.items, ItemApplied) && o.currentStep < |o.steps|
    && o.steps[o.currentStep].definition.Type() == Complete
    && forall i :: 0 <= i < o.currentStep ==> Settled(o.steps[i])
  }

  ghost predicate RunInvariant(first: System, s: System, overlay: bool)
    requires WellFormedOrder(first.order)
  {
    && (s.order.status == InProgress || s.order.status == Succeeded ==> Standing(first, s, overlay))
    && (s.order.status == Succeeded ==> Ended(first.order, s.order))
  }

  lemma SameOverlayItem(o: Order, o': Order, a: Authority, newRevision: nat, actor: string, at: int, item: Item)
    requires o.scope == o'.scope && o.id == o'.id
    ensures OverlayItem(o, a, newRevision, actor, at, item) == OverlayItem(o', a, newRevision, actor, at, item)
  {
    hide CompileRule;
  }

  lemma LandedCarries(o: Order, o': Order, f: Final, start: World, now: World)
    requires WellFormedOrder(o) && WellFormedOrder(o') && o.items == o'.items && o.scope == o'.scope && o.id == o'.id
    requires Landed(o, f, start, now)
    ensures Landed(o', f, start, now)
  {
    hide OverlayItem, WellFormedItem;
    if f.overlay {
      var actor, at :| WroteAs(o, f, actor, at, start, now);
      forall j | 0 <= j < |o.items|
        ensures OverlayItem(o', AuthorityOf(start), f.revision, actor, at, o'.items[j]).Success?
        ensures Lookup(now.rules, o'.items[j].key)
                == OverlayItem(o', AuthorityOf(start), f.revision, actor, at, o'.items[j]).value.next
      {
        SameOverlayItem(o, o', AuthorityOf(start), f.revision, actor, at, o.items[j]);
      }
      assert WroteAs(o', f, actor, at, start, now);
    }
  }

  lemma SameCompiled(o: Order, o': Order, overlay: bool)
    requires Compiled(o, overlay) && SameIdentity(o, o')
    ensures Compiled(o', overlay)
  {
    assert Definitions(o.steps) == Definitions(o'.steps);
  }

  lemma QuietStands(first: System, s: System, overlay: bool, c: Command, now: int, newRevision: nat)
    requires WellFormedOrder(first.order) && SameIdentity(first.order, s.order)
    requires Standing(first, s, overlay) && Shape(s.order) && Dispatch(s, c, now, newRevision).Success?
    requires c.action != RollbackAction
    requires c.action == ExecuteAction ==>
               s.order.steps[s.order.currentStep].definition.Type() in {ManualReview, Complete, Compare}
    ensures Standing(first, Dispatch(s, c, now, newRevision).value.system, overlay)
  {
    hide Dispatch, Landed, Chained, Replay, ValidEnvelope;
    QuietEffects(s, c, now, newRevision);
    var next := Dispatch(s, c, now, newRevision).value.system;
    assert EffectsValid(next.order.steps) by {
      forall i | 0 <= i < |next.order.steps| && next.order.steps[i].effect.Some?
        ensures ValidEnvelope(next.order.steps[i].effect.value)
      {
        assert next.order.steps[i].effect == s.order.steps[i].effect;
      }
    }
    SameFinal(s.order.steps, next.order.steps, |s.order.steps|);
  }

  lemma CompletionEnds(s: System, c: Command, now: int, newRevision: nat)
    requires Shape(s.order) && s.order.status == InProgress && Dispatch(s, c, now, newRevision).Success?
    requires c.action != RollbackAction
    requires c.action == ExecuteAction ==>
               s.order.steps[s.order.currentStep].definition.Type() in {ManualReview, Complete, Compare}
    ensures var next := Dispatch(s, c, now, newRevision).value.system.order;
            next.status == Succeeded ==> Ended(s.order, next)
  {
  }

  /** A configuring command leaves the world its effect makes, and records that effect. */
  lemma ConfiguredRecords(s: System, r: Result<(Order, Envelope), Error>, actor: string, at: int)
    requires WellFormedOrder(s.order) && Configure(s, r).Success?
    requires r.Success? ==> r.value.0 == RecordEffect(s.order, r.value.1, actor, at)
    ensures r.Success? && ApplyEffect(r.value.1, s.world) == Success(Configure(s, r).value.system.world)
    ensures Configure(s, r).value.system.order == RecordEffect(s.order, r.value.1, actor, at)
    ensures ValidEnvelope(r.value.1)
  {
  }

  lemma BaseStands(first: System, s: System, c: Command, now: int, newRevision: nat)
    requires Start(first, false) && SameIdentity(first.order, s.order) && s.order.status == InProgress
    requires Tracks(s, first.world) && Standing(first, s, false) && Dispatch(s, c, now, newRevision).Success?
    requires c.action == ExecuteAction && s.order.steps[s.order.currentStep].definition.Type() == BaseApply
    ensures Standing(first, Dispatch(s, c, now, newRevision).value.system, false)
  {
    hide ExecuteBase, ApplyEffect, Landed, Chained, Replay, ValidEnvelope, RecordEffect, FinalFrom;
    var o := s.order;
    var r := ExecuteBase(o, AuthorityOf(s.world), newRevision, c.actor, now);
    assert Dispatch(s, c, now, newRevision) == Configure(s, r);
    ExecutedBase(o, AuthorityOf(s.world), newRevision, c.actor, now);
    ConfiguredRecords(s, r, c.actor, now);
    SameCompiled(first.order, o, false);
    NotDecidedYet(o, false);
    ReplayBelongs(o.steps, |o.steps|, first.world, o.items[0].collection, o.scope);
    BaseStepLands(o, s.world, first.world, newRevision, c.actor, now);
    RecordedFinal(o, r.value.1, c.actor, now);
    LandedCarries(o, first.order, FinalFrom(r.value.1), first.world, Configure(s, r).value.system.world);
    FinalSide(r.value.1);
  }

  lemma FinalSide(e: Envelope)
    requires ValidEnvelope(e) && (e.effectType == BaseType || e.effectType == OverlayType)
    ensures FinalFrom(e).overlay == (e.effectType == OverlayType)
  {
  }

  lemma ExecutedBase(o: Order, a: Authority, newRevision: nat, actor: string, at: int)
    requires WellFormedOrder(o) && ExecuteBase(o, a, newRevision, actor, at).Success?
    ensures AtStep(o, BaseApply, Pending)
    ensures var r := ExecuteBase(o, a, newRevision, actor, at).value; r.0 == RecordEffect(o, r.1, actor, at)
  {
  }

  lemma ExecutedPercent(o: Order, a: Authority, newRevision: nat, actor: string, at: int)
    requires WellFormedOrder(o) && ExecutePercentRollout(o, a, newRevision, actor, at).Success?
    ensures AtStep(o, PercentRollout, Pending)
    ensures var r := ExecutePercentRollout(o, a, newRevision, actor, at).value;
            r.0 == RecordEffect(o, r.1, actor, at) && r.1.effectType == PercentType
  {
  }

  lemma ExecutedOverlay(o: Order, a: Authority, newRevision: nat, actor: string, at: int)
    requires WellFormedOrder(o) && ExecuteOverlay(o, a, newRevision, actor, at).Success?
    ensures AtStep(o, OverlayApply, Pending)
    ensures var r := ExecuteOverlay(o, a, newRevision, actor, at).value; r.0 == RecordEffect(o, r.1, actor, at)
  {
  }

  lemma OverlayStands(first: System, s: System, c: Command, now: int, newRevision: nat)
    requires Start(first, true) && SameIdentity(first.order, s.order) && s.order.status == InProgress
    requires Shape(s.order) && Standing(first, s, true) && Dispatch(s, c, now, newRevision).Success?
    requires c.action == ExecuteAction && s.order.steps[s.order.currentStep].definition.Type() == OverlayApply
    ensures Standing(first, Dispatch(s, c, now, newRevision).value.system, true)
  {
    hide ExecuteOverlay, ApplyEffect, Landed, ValidEnvelope, RecordEffect, FinalFrom;
    var o := s.order;
    var r := ExecuteOverlay(o, AuthorityOf(s.world), newRevision, c.actor, now);
    assert Dispatch(s, c, now, newRevision) == Configure(s, r);
    ExecutedOverlay(o, AuthorityOf(s.world), newRevision, c.actor, now);
    ConfiguredRecords(s, r, c.actor, now);
    SameCompiled(first.order, o, true);
    NotDecidedYet(o, true);
    OverlayStepLands(o, s.world, newRevision, c.actor, now);
    RecordedFinal(o, r.value.1, c.actor, now);
    LandedCarries(o, first.order, FinalFrom(r.value.1), first.world, Configure(s, r).value.system.world);
    FinalSide(r.value.1);
  }

  lemma PercentStands(first: System, s: System, c: Command, now: int, newRevision: nat)
    requires Start(first, false) && SameIdentity(first.order, s.order) && s.order.status == InProgress
    requires Shape(s.order) && Standing(first, s, false) && Dispatch(s, c, now, newRevision).Success?
    requires c.action == ExecuteAction && s.order.steps[s.order.currentStep].definition.Type() == PercentRollout
    ensures Standing(first, Dispatch(s, c, now, newRevision).value.system, false)
  {
    hide Landed, ValidEnvelope, FinalFrom, ExecutePercentRollout, ApplyEffect, RecordEffect;
    var o := s.order;
    var r := ExecutePercentRollout(o, AuthorityOf(s.world), newRevision, c.actor, now);
    assert Dispatch(s, c, now, newRevision) == Configure(s, r);
    ExecutedPercent(o, AuthorityOf(s.world), newRevision, c.actor, now);
    ConfiguredRecords(s, r, c.actor, now);
    SameCompiled(first.order, o, false);
    NotDecidedYet(o, false);
    RecordedFinal(o, r.value.1, c.actor, now);
    PercentKeepsRecords(r.value.1, s.world);
  }

  lemma PercentKeepsRecords(e: Envelope, w: World)
    requires ApplyEffect(e, w).Success? && e.effectType == PercentType
    ensures ApplyEffect(e, w).value.records == w.records
  {
  }

  lemma StepStands(first: System, s: System, overlay: bool, c: Command, now: int, newRevision: nat)
    requires Start(first, overlay) && SameIdentity(first.order, s.order) && s.order.status == InProgress
    requires Tracks(s, first.world) && RunInvariant(first, s, overlay) && Dispatch(s, c, now, newRevision).Success?
    ensures RunInvariant(first, Dispatch(s, c, now, newRevision).value.system, overlay)
  {
    hide Dispatch, Standing, Chained, Replay, ValidSteps, Start, ActiveShape, FinishedShape, WellFormedItem;
    if c.action == RollbackAction {
      RollbackIdentity(s, c, now, newRevision);
    } else {
      var t := s.order.steps[s.order.currentStep].definition.Type();
      StartCompiled(first, overlay);
      SameCompiled(first.order, s.order, overlay);
      NoOtherFinal(s.order, overlay, s.order.currentStep);
      if c.action == ExecuteAction && t == BaseApply {
        BaseStands(first, s, c, now, newRevision);
        BaseNext(s, c, now, newRevision);
        StaysOpen(s, c, now, newRevision);
      } else if c.action == ExecuteAction && t == OverlayApply {
        OverlayStands(first, s, c, now, newRevision);
        StaysOpen(s, c, now, newRevision);
      } else if c.action == ExecuteAction && t == PercentRollout {
        PercentStands(first, s, c, now, newRevision);
        StaysOpen(s, c, now, newRevision);
      } else {
        QuietStands(first, s, overlay, c, now, newRevision);
        CompletionEnds(s, c, now, newRevision);
      }
    }
  }

  lemma StartCompiled(first: System, overlay: bool)
    requires Start(first, overlay)
    ensures Compiled(first.order, overlay) && Shape(first.order) && first.order.status == InProgress
  {
  }

  lemma StaysOpen(s: System, c: Command, now: int, newRevision: nat)
    requires Shape(s.order) && s.order.status == InProgress && Dispatch(s, c, now, newRevision).Success?
    requires c.action == ExecuteAction
    requires s.order.steps[s.order.currentStep].definition.Type() in {BaseApply, OverlayApply, PercentRollout}
    ensures Dispatch(s, c, now, newRevision).value.system.order.status == InProgress
  {
    hide ApplyEffect, PlanBase, PlanOverlay, PlanPercent;
  }

  lemma {:induction false} RunStands(first: System, requests: seq<Request>, overlay: bool)
    requires Start(first, overlay)
    ensures RunInvariant(first, ServeAll(first, requests), overlay)
  {
    hide Dispatch, Standing, Ended, Chained, Replay, ValidSteps;
    if requests == [] {
      StartStands(first, overlay);
    } else {
      var s, r := ServeAll(first, requests[..|requests| - 1]), requests[|requests| - 1];
      RunStands(first, requests[..|requests| - 1], overlay);
      RunTracks(first, requests[..|requests| - 1]);
      RunKeepsIdentity(first, requests[..|requests| - 1]);
      if Dispatch(s, r.command, r.now, r.newRevision).Success? {
        StartedStatus(s, r.command, r.now, r.newRevision);
        StepStands(first, s, overlay, r.command, r.now, r.newRevision);
      }
    }
  }

  lemma StartStands(first: System, overlay: bool)
    requires Start(first, overlay)
    ensures RunInvariant(first, first, overlay)
  {
    FreshTracks(first);
    FinalExactly(first.order.steps, |first.order.steps|);
  }

  // ----- a run that succeeded -----

  /** The order `done` is `first` run to its end, decided by `f`, and left the world `now`. */
  ghost predicate Succeeds(first: System, done: System, f: Final)
    requires WellFormedOrder(first.order)
  {
    && Finished(done.order, f) && Landed(first.order, f, first.world, done.world)
    && done.order.scope == first.order.scope && done.order.id == first.order.id
    && done.order.items == Settle(first.order.items, ItemApplied)
    && (f.overlay ==> first.order.scope.stage != "") && 0 < done.world.revision
    && WellFormedWorld(done.world, first.order.items[0].collection, first.order.scope.environment)
  }

  lemma EndedDecided(first: Order, o: Order, overlay: bool)
    requires Compiled(o, overlay) && Ended(first, o) && EffectsValid(o.steps)
    ensures FinalOf(o.steps, |o.steps|).Some?
    ensures exists i :: 0 <= i < |o.steps| && o.steps[i].effect.Some?
  {
    var defs, t, last := Definitions(o.steps), FinalType(overlay), |o.steps| - 1;
    CountPositive(defs, t);
    var i :| 0 <= i < |defs| && defs[i].Type() == t;
    assert defs[o.currentStep].Type() == Complete;
    CountAtLeast(defs, Complete, o.currentStep);
    assert o.currentStep == last;
    assert Settled(o.steps[i]);
    assert Decides(o.steps[i]);
    FinalExactly(o.steps, |o.steps|);
  }

  /** An order run to SUCCEEDED is a finished order, and the world is what its deciding step made of the start. */
  lemma RunLands(first: System, requests: seq<Request>, overlay: bool)
    requires Start(first, overlay) && ServeAll(first, requests).order.status == Succeeded
    ensures var done := ServeAll(first, requests);
            && EffectsValid(done.order.steps)
            && FinalOf(done.order.steps, |done.order.steps|).Some?
            && var f := FinalOf(done.order.steps, |done.order.steps|).value;
            f.overlay == overlay && Succeeds(first, done, f)
  {
    hide Landed, Chained, Replay, ValidSteps, ServeAll, Settled;
    var done := ServeAll(first, requests);
    RunStands(first, requests, overlay);
    RunTracks(first, requests);
    RunKeepsIdentity(first, requests);
    SameCompiled(first.order, done.order, overlay);
    EndedDecided(first.order, done.order, overlay);
    ReplayBelongs(done.order.steps, |done.order.steps|, first.world, done.order.items[0].collection, done.order.scope);
    RevisionPositive(done.order.steps, |done.order.steps|, first.world, done.order.items[0].collection,
                     done.order.scope);
    forall i | 0 <= i < |done.order.items| ensures ItemShape(overlay, done.order.items[i]) {
      assert ItemShape(overlay, first.order.items[i]);
    }
  }
}
