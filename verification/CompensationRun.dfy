/**
 * Compensation over whole runs: a succeeded order can be compensated, and running its compensation brings back what was
 * there.
 */
module CompensationRun {
  import opened Wrappers
  import opened Catalog
  import opened Overlay
  import opened Template
  import opened Effects
  import opened OrderState
  import opened Lifecycle
  import opened World
  import opened Rollback
  import opened ReleaseRun
  import opened RollbackRun
  import opened RolloutRun
  import opened Reach
  import opened Compensation
  import opened FinalRun
  import Text

  // ----- the facts a compensation is planned on -----

  function TargetMap(items: seq<Item>, records: map<string, Record>): map<string, Record> {
    map k | k in records && KeyAmong(items, k) :: records[k]
  }

  /** What CreateCompensatingRelease loads: the targets' base records, and their evaluation in the order's scope. */
  function FactsOf(o: Order, w: World): Result<CompensationAuthority, OverlayError>
    requires WellFormedOrder(o)
  {
    var effective :- View(o, w, None);
    Success(CompensationAuthority(w.revision, TargetMap(o.items, w.records), effective))
  }

  lemma {:induction false} SameTargets(a: seq<Item>, b: seq<Item>, w: World)
    requires |a| == |b| && forall i :: 0 <= i < |a| ==> a[i].key == b[i].key
    ensures TargetRecords(a, w.records) == TargetRecords(b, w.records)
    ensures TargetRules(a, w.rules) == TargetRules(b, w.rules)
  {
    if a != [] { SameTargets(a[..|a| - 1], b[..|b| - 1], w); }
  }

  lemma LandedFact(f: Final, item: Item, collection: string, environment: string, start: World, now: World)
    requires LandedBase(f, item, collection, environment, start, now) && !f.overlay
    requires SameTarget(item.after, collection, environment, item.key)
    requires AllBelong(now.records, collection, environment)
    ensures SameFact(Lookup(now.records, item.key), item.after, BaseFactRevision(f, item))
  {
    if item.key in now.records { assert Belongs(now.records[item.key], collection, environment, item.key); }
  }

  /** A BASE_FINAL order that succeeded has drifted nowhere, whatever it changed. */
  lemma BaseNeverDrifted(first: System, done: System, f: Final)
    requires WellFormedOrder(first.order) && Succeeds(first, done, f) && !f.overlay
    ensures FactsOf(done.order, done.world).Success?
    ensures forall i :: 0 <= i < |done.order.items| ==>
              NotDrifted(f, FactsOf(done.order, done.world).value, done.order.items[i])
  {
    hide WrittenRecord, View, SameFact, WellFormedItem, BaseExpected;
    var o, w := done.order, done.world;
    forall i | 0 <= i < |o.items| ensures o.items[i].key !in w.rules {
      assert LandedBase(f, first.order.items[i], first.order.items[0].collection, first.order.scope.environment,
                        first.world, w);
    }
    BareView(o, w, None);
    forall i | 0 <= i < |o.items| ensures NotDrifted(f, FactsOf(o, w).value, o.items[i]) {
      ItemTarget(first.order, i);
      LandedFact(f, first.order.items[i], first.order.items[0].collection, first.order.scope.environment, first.world,
                 w);
      assert KeyAmong(o.items, o.items[i].key);
    }
  }

  // ----- overlay orders -----

  /** The record was, at the start, what the item says it was. */
  predicate AsCreated(item: Item, start: World) {
    SameFact(Lookup(start.records, item.key), item.baseBefore, item.expectedRecordRevision)
  }

  /** What an overlay step left shows every target as desired, to every client. */
  lemma LandedView(o: Order, f: Final, start: World, now: World, bucket: Option<int>)
    requires WellFormedOrder(o) && Landed(o, f, start, now) && f.overlay && o.scope.stage != ""
    requires WellFormedWorld(start, o.items[0].collection, o.scope.environment)
    ensures View(o, now, bucket).Success?
    ensures forall i :: 0 <= i < |o.items| ==> Shows(View(o, now, bucket).value, o.items[i], f.revision)
  {
    hide WroteRules, EvaluateMap, WellFormedItem;
    var actor, at :| WroteAs(o, f, actor, at, start, now);
    WrittenRulesEvaluate(o, AuthorityOf(start), f.revision, actor, at, now.rules, bucket);
    forall i | 0 <= i < |o.items| ensures !DeletesBase(AuthorityOf(start), o.items[i]) {
      assert Storing(AuthorityOf(start), o.items[i]);
    }
  }

  lemma OverlayView(first: System, done: System, f: Final, bucket: Option<int>)
    requires WellFormedOrder(first.order) && Succeeds(first, done, f) && f.overlay
    ensures View(first.order, done.world, bucket).Success?
    ensures View(done.order, done.world, bucket) == View(first.order, done.world, bucket)
    ensures forall i :: 0 <= i < |first.order.items| ==>
              Shows(View(first.order, done.world, bucket).value, first.order.items[i], f.revision)
  {
    hide Landed, EvaluateMap, Finished, WellFormedItem;
    LandedRecords(first.order, f, first.world, done.world);
    LandedView(first.order, f, first.world, done.world, bucket);
    SameTargets(first.order.items, done.order.items, done.world);
  }

  /**
   * An OVERLAY_FINAL order that succeeded has drifted exactly where its items misstate the records they were created
   * on.
   */
  lemma OverlayDriftExactly(first: System, done: System, f: Final, i: nat)
    requires WellFormedOrder(first.order) && Succeeds(first, done, f) && f.overlay
    requires i < |first.order.items|
    ensures FactsOf(done.order, done.world).Success?
    ensures NotDrifted(f, FactsOf(done.order, done.world).value, done.order.items[i]) <==>
              AsCreated(first.order.items[i], first.world)
  {
    hide Landed, View, WellFormedItem;
    OverlayView(first, done, f, None);
    LandedRecords(first.order, f, first.world, done.world);
    assert KeyAmong(done.order.items, done.order.items[i].key);
    assert Shows(View(first.order, done.world, None).value, first.order.items[i], f.revision);
  }

  lemma LandedRecords(o: Order, f: Final, start: World, now: World)
    requires WellFormedOrder(o) && Landed(o, f, start, now) && f.overlay
    ensures now.records == start.records && now.revision == f.revision
  {
  }

  // ----- the compensating order -----

  /** What the caller of a compensation supplies: identities, author, time and the compiled template. */
  datatype Header = Header(id: string, itemIds: seq<string>, actor: string, at: int, template: CompiledTemplate)

  function HeaderSteps(overlay: bool, h: Header): seq<StepDefinition> {
    if overlay then h.template.steps else BaseFinalSteps(h.template)
  }

  ghost predicate GoodHeader(o: Order, f: Final, h: Header) {
    && FreshHeader(o, f, h.id, h.itemIds, h.actor, h.at, h.template)
    && ValidSteps(if f.overlay then OverlayFinal else BaseFinal, HeaderSteps(f.overlay, h))
  }

  /** The order CreateCompensatingRelease makes for `o` over the world `w`. */
  function Compensating(o: Order, w: World, f: Final, h: Header): Option<Order>
    requires WellFormedOrder(o) && EffectsValid(o.steps)
  {
    var facts := FactsOf(o, w);
    if facts.Failure? then None
    else
      var plan := PlanCompensation(o, facts.value);
      if plan.Failure? || |h.itemIds| != |plan.value.items| then None
      else
        match NewOrder(f.overlay, CompensatingSpec(o, plan.value, h.id, h.itemIds, h.actor, h.at, h.template))
        case Success(c) => Some(c)
        case Failure(_) => None
  }

  lemma StepsGiven(overlay: bool, template: CompiledTemplate)
    requires ValidSteps(if overlay then OverlayFinal else BaseFinal, if overlay then template.steps
                        else BaseFinalSteps(template))
    ensures template.steps != [] || !overlay
  {
  }

  lemma NewOrderStarts(overlay: bool, spec: OrderSpec, w: World)
    requires NewOrder(overlay, spec).Success?
    requires ValidSteps(if overlay then OverlayFinal else BaseFinal, if overlay then spec.template.steps
                        else BaseFinalSteps(spec.template))
    requires var o := NewOrder(overlay, spec).value;
             && o.items != []
             && WellFormedWorld(w, o.items[0].collection, o.scope.environment)
    ensures Start(System(NewOrder(overlay, spec).value, w), overlay)
  {
    hide ValidSteps, WellFormedWorld, ItemTargets;
    StepsGiven(overlay, spec.template);
    NewOrderShape(overlay, spec);
    var o := NewOrder(overlay, spec).value;
    assert Definitions(o.steps) == if overlay then spec.template.steps else BaseFinalSteps(spec.template);
    var scope := TrimScope(spec.scope);
    var collection := TargetOf(overlay, spec.items[0]).value.collection;
    forall i | 0 <= i < |o.items| ensures ItemShape(overlay, o.items[i]) {
      assert AcceptsItem(overlay, spec, scope, collection, i);
    }
  }

  /** The item a compensation makes of a target: from what is there now to what was there before. */
  predicate UndoItem(f: Final, a: CompensationAuthority, item: Item, made: Item) {
    && made.key == item.key && made.collection == item.collection && made.after == Desired(f, item)
    && made.baseBefore == Lookup(a.baseRecords, item.key)
    && made.effectiveBefore == Lookup(a.effectiveRecords, item.key)
    && made.expectedRecordRevision == (match made.baseBefore case None => 0 case Some(r) => r.revision)
    && made.expectedCollectionRevision == a.revision
    && made.action == (if made.effectiveBefore.None? then Add else if made.after.None? then Delete else Modify)
  }

  lemma {:induction false} UndoItemPlanned(f: Final, a: CompensationAuthority, item: Item, made: Item,
                                           collection: string)
    requires PlanItem(f, a, item).Success? && item.collection == collection
    requires var p := PlanItem(f, a, item).value;
             && made.key == item.key && made.collection == collection
             && SpecOfItem(made) == ItemSpec(made.id, p.action, p.baseBefore, p.effectiveBefore, p.after,
                                             p.expectedRecordRevision, p.expectedCollectionRevision)
    ensures UndoItem(f, a, item, made)
  {
    hide NotDrifted;
  }

  lemma TargetPositive(first: System, done: System, f: Final)
    requires WellFormedOrder(first.order) && Succeeds(first, done, f)
    ensures PositiveRevisions(TargetMap(done.order.items, done.world.records))
  {
    hide Landed, Finished, WellFormedItem, PlanItem;
    forall k | k in TargetMap(done.order.items, done.world.records) ensures done.world.records[k].revision > 0 {
      var i :| 0 <= i < |done.order.items| && done.order.items[i].key == k;
      if f.overlay {
        OverlayItemPositive(first, done, f, i);
      } else {
        BaseItemPositive(first, done, f, i);
      }
    }
  }

  lemma BaseItemPositive(first: System, done: System, f: Final, i: nat)
    requires WellFormedOrder(first.order) && Succeeds(first, done, f) && !f.overlay && i < |first.order.items|
    requires first.order.items[i].key in done.world.records
    ensures done.world.records[first.order.items[i].key].revision > 0
  {
    hide Finished, WellFormedItem;
    assert LandedBase(f, first.order.items[i], first.order.items[0].collection, first.order.scope.environment,
                      first.world, done.world);
  }

  lemma OverlayItemPositive(first: System, done: System, f: Final, i: nat)
    requires WellFormedOrder(first.order) && Succeeds(first, done, f) && f.overlay && i < |first.order.items|
    requires first.order.items[i].key in done.world.records
    ensures done.world.records[first.order.items[i].key].revision > 0
  {
    hide Finished, WellFormedItem, CompileRule;
    var actor, at :| WroteAs(first.order, f, actor, at, first.world, done.world);
    assert OverlayItem(first.order, AuthorityOf(first.world), f.revision, actor, at, first.order.items[i]).Success?;
  }

  /**
   * The checks of CreateRelease: each item states the revision, the record and the view of its target as they are at
   * the start.
   */
  ghost predicate CreatedHere(first: System)
    requires WellFormedOrder(first.order)
  {
    && View(first.order, first.world, None).Success?
    && forall i :: 0 <= i < |first.order.items| ==>
         var item := first.order.items[i];
         && item.expectedCollectionRevision == first.world.revision
         && SameContent(Lookup(first.world.records, item.key), item.baseBefore)
         && item.expectedRecordRevision
            == (match Lookup(first.world.records, item.key) case None => 0 case Some(r) => r.revision)
         && SameContent(Lookup(View(first.order, first.world, None).value, item.key), item.effectiveBefore)
  }

  lemma CreatedIsAsCreated(first: System, i: nat)
    requires WellFormedOrder(first.order) && CreatedHere(first) && i < |first.order.items|
    requires WellFormedWorld(first.world, first.order.items[0].collection, first.order.scope.environment)
    ensures AsCreated(first.order.items[i], first.world)
  {
    hide View;
    var item := first.order.items[i];
    assert WellFormedItem(item, first.order.items[0].collection, first.order.scope);
    if item.key in first.world.records {
      assert Belongs(first.world.records[item.key], first.order.items[0].collection, first.order.scope.environment,
                     item.key);
    }
  }

  lemma SucceededPlans(first: System, done: System, f: Final)
    requires WellFormedOrder(first.order) && Succeeds(first, done, f) && CreatedHere(first)
    requires WellFormedWorld(first.world, first.order.items[0].collection, first.order.scope.environment)
    ensures var facts := FactsOf(done.order, done.world);
            && facts.Success? && PlanCompensation(done.order, facts.value).Success?
            && |PlanCompensation(done.order, facts.value).value.items| == |done.order.items|
            && forall i :: 0 <= i < |done.order.items| ==>
                 PlanItem(f, facts.value, done.order.items[i])
                 == Success(PlanCompensation(done.order, facts.value).value.items[i])
  {
    hide Landed, View, NotDrifted, AsCreated, CreatedHere, WellFormedItem;
    if f.overlay {
      OverlayView(first, done, f, None);
      forall i | 0 <= i < |done.order.items|
        ensures NotDrifted(f, FactsOf(done.order, done.world).value, done.order.items[i])
      {
        OverlayDriftExactly(first, done, f, i);
        CreatedIsAsCreated(first, i);
      }
    } else {
      BaseNeverDrifted(first, done, f);
    }
    CompensationExactlyWithoutDrift(done.order, f, FactsOf(done.order, done.world).value);
  }

  /**
   * An order run to SUCCEEDED can be compensated where it ended: the plan exists, the constructor accepts it, and the
   * order it makes is a new order that goes, target by target, from what is there now to what was there before.
   */
  lemma SucceededCompensates(first: System, done: System, f: Final, h: Header)
    requires WellFormedOrder(first.order) && Succeeds(first, done, f) && CreatedHere(first)
    requires WellFormedWorld(first.world, first.order.items[0].collection, first.order.scope.environment)
    requires GoodHeader(done.order, f, h)
    ensures var c := Compensating(done.order, done.world, f, h);
            && FactsOf(done.order, done.world).Success? && c.Some?
            && Start(System(c.value, done.world), f.overlay)
            && c.value.scope == first.order.scope && |c.value.items| == |first.order.items|
            && forall i :: 0 <= i < |first.order.items| ==>
                 UndoItem(f, FactsOf(done.order, done.world).value, done.order.items[i], c.value.items[i])
  {
    hide Landed, View, NotDrifted, CreatedHere, WellFormedItem, PlanItem, PlanCompensation, ValidSteps, AcceptsSpec,
         Start;
    var o, w := done.order, done.world;
    SucceededPlans(first, done, f);
    TargetPositive(first, done, f);
    var a := FactsOf(o, w).value;
    CompensatingOrderConstructs(o, f, a, h.id, h.itemIds, h.actor, h.at, h.template);
    var plan := PlanCompensation(o, a).value;
    var spec := CompensatingSpec(o, plan, h.id, h.itemIds, h.actor, h.at, h.template);
    NewOrderStarts(f.overlay, spec, w);
    var c := NewOrder(f.overlay, spec).value;
    forall i | 0 <= i < |o.items| ensures UndoItem(f, a, o.items[i], c.items[i]) {
      ItemCollection(o, i);
      UndoItemPlanned(f, a, o.items[i], c.items[i], o.items[0].collection);
    }
  }

  lemma ItemCollection(o: Order, i: nat)
    requires WellFormedOrder(o) && i < |o.items|
    ensures o.items[i].collection == o.items[0].collection
  {
    assert WellFormedItem(o.items[i], o.items[0].collection, o.scope);
  }

  /** Storage takes the compensating order exactly when the order was BASE_FINAL or only modified its targets. */
  lemma CompensationStored(first: System, done: System, f: Final, h: Header)
    requires WellFormedOrder(first.order) && Succeeds(first, done, f) && CreatedHere(first)
    requires WellFormedWorld(first.world, first.order.items[0].collection, first.order.scope.environment)
    requires GoodHeader(done.order, f, h) && InsertOrder(first.order).Success?
    ensures Compensating(done.order, done.world, f, h).Some?
    ensures InsertOrder(Compensating(done.order, done.world, f, h).value).Success? <==>
            (f.overlay ==> forall i :: 0 <= i < |first.order.items| ==> first.order.items[i].action == Modify)
  {
    hide Landed, View, CreatedHere, WellFormedItem, PlanItem, PlanCompensation, ValidSteps, Compensating, Start;
    SucceededCompensates(first, done, f, h);
    SucceededPlans(first, done, f);
    TargetPositive(first, done, f);
    var a := FactsOf(done.order, done.world).value;
    var c := Compensating(done.order, done.world, f, h).value;
    forall i | 0 <= i < |first.order.items|
      ensures StorableItem(c.items[i]) <==> (f.overlay ==> first.order.items[i].action == Modify)
    {
      assert StorableItem(first.order.items[i]);
      PlannedAfter(f, a, done.order.items[i]);
      UndoStorable(f, a, first.order.items[i], done.order.items[i], c.items[i]);
    }
  }

  lemma UndoStorable(f: Final, a: CompensationAuthority, created: Item, item: Item, made: Item)
    requires UndoItem(f, a, item, made) && NotDrifted(f, a, item) && PositiveRevisions(a.baseRecords)
    requires StorableItem(created) && ItemShape(f.overlay, item)
    requires item.(status := created.status, conflictKey := created.conflictKey) == created
    ensures StorableItem(made) <==> (f.overlay ==> created.action == Modify)
  {
  }

  // ----- compensation restores -----

  lemma WrittenContent(before: Option<Record>, desired: Option<Record>, collection: string, environment: string,
                       key: string, applied: nat)
    ensures SameContent(WrittenRecord(before, desired, collection, environment, key, applied), desired) <==>
              !Masked(before, desired)
    ensures Masked(before, desired) ==> WrittenRecord(before, desired, collection, environment, key, applied) == before
  {
  }

  /**
   * A succeeded BASE_FINAL order made its target what it desired, exactly unless the comparison masks the difference.
   */
  lemma BaseReached(first: System, done: System, f: Final, i: nat)
    requires WellFormedOrder(first.order) && Succeeds(first, done, f) && !f.overlay && i < |first.order.items|
    ensures var item := first.order.items[i];
            && (SameContent(Lookup(done.world.records, item.key), item.after) <==>
                  !Masked(Lookup(first.world.records, item.key), item.after))
            && (Masked(Lookup(first.world.records, item.key), item.after) ==>
                 Lookup(done.world.records, item.key) == Lookup(first.world.records, item.key))
            && item.key !in done.world.rules
  {
    hide Finished, WellFormedItem, WrittenRecord, BaseExpected;
    var item := first.order.items[i];
    assert LandedBase(f, item, first.order.items[0].collection, first.order.scope.environment, first.world, done.world);
    WrittenContent(Lookup(first.world.records, item.key), item.after, first.order.items[0].collection,
                   first.order.scope.environment, item.key, f.revision);
  }

  lemma SameView(o: Order, c: Order, w: World, bucket: Option<int>)
    requires WellFormedOrder(o) && WellFormedOrder(c) && c.scope == o.scope && |c.items| == |o.items|
    requires forall i :: 0 <= i < |o.items| ==> c.items[i].key == o.items[i].key
    requires c.items[0].collection == o.items[0].collection
    ensures View(c, w, bucket) == View(o, w, bucket)
  {
    SameTargets(o.items, c.items, w);
  }

  /** What the second run's order asks for at one target. */
  lemma UndoAsks(first: System, done: System, f: Final, h: Header, i: nat)
    requires WellFormedOrder(first.order) && Succeeds(first, done, f) && CreatedHere(first)
    requires WellFormedWorld(first.world, first.order.items[0].collection, first.order.scope.environment)
    requires GoodHeader(done.order, f, h) && i < |first.order.items|
    ensures Compensating(done.order, done.world, f, h).Some?
    ensures var c, item := Compensating(done.order, done.world, f, h).value, first.order.items[i];
            && Start(System(c, done.world), f.overlay) && CreatedHere(System(c, done.world))
            && |c.items| == |first.order.items|
            && (forall k :: 0 <= k < |c.items| ==> c.items[k].key == first.order.items[k].key)
            && c.items[0].collection == first.order.items[0].collection && c.scope == first.order.scope
            && c.items[i].key == item.key
            && c.items[i].after == (if f.overlay then item.effectiveBefore else item.baseBefore)
            && View(c, done.world, None) == View(first.order, done.world, None)
  {
    hide Landed, View, WellFormedItem, ValidSteps, Compensating, Start, SameContent, NewOrder, FreshHeader;
    SucceededCompensates(first, done, f, h);
    var a, c := FactsOf(done.order, done.world).value, Compensating(done.order, done.world, f, h).value;
    StartWellFormed(System(c, done.world), f.overlay);
    forall k | 0 <= k < |c.items| ensures c.items[k].key == first.order.items[k].key {
      assert UndoItem(f, a, done.order.items[k], c.items[k]);
    }
    assert UndoItem(f, a, done.order.items[0], c.items[0]);
    SameView(first.order, c, done.world, None);
    SameView(first.order, done.order, done.world, None);
    forall k | 0 <= k < |c.items|
      ensures c.items[k].expectedCollectionRevision == done.world.revision
      ensures SameContent(Lookup(done.world.records, c.items[k].key), c.items[k].baseBefore)
      ensures c.items[k].expectedRecordRevision
              == (match Lookup(done.world.records, c.items[k].key) case None => 0 case Some(r) => r.revision)
      ensures SameContent(Lookup(View(c, done.world, None).value, c.items[k].key), c.items[k].effectiveBefore)
    {
      UndoItemHere(f, a, done.order, done.world, k, c.items[k]);
    }
  }

  /** A planned item states the configuration it was planned on. */
  lemma UndoItemHere(f: Final, a: CompensationAuthority, o: Order, w: World, k: nat, made: Item)
    requires WellFormedOrder(o) && FactsOf(o, w) == Success(a) && k < |o.items| && UndoItem(f, a, o.items[k], made)
    ensures View(o, w, None).Success? && made.expectedCollectionRevision == w.revision
    ensures SameContent(Lookup(w.records, made.key), made.baseBefore)
    ensures made.expectedRecordRevision == (match Lookup(w.records, made.key) case None => 0 case Some(r) => r.revision)
    ensures SameContent(Lookup(View(o, w, None).value, made.key), made.effectiveBefore)
  {
    hide View, WellFormedItem;
    assert KeyAmong(o.items, o.items[k].key);
  }

  lemma StartWellFormed(first: System, overlay: bool)
    requires Start(first, overlay)
    ensures Shape(first.order)
    ensures WellFormedWorld(first.world, first.order.items[0].collection, first.order.scope.environment)
  {
  }

  /** The order was decided, and the caller's header is one the constructor of the same final effect can take. */
  ghost predicate Undoable(done: System, h: Header) {
    && WellFormedOrder(done.order) && EffectsValid(done.order.steps)
    && FinalOf(done.order.steps, |done.order.steps|).Some?
    && GoodHeader(done.order, FinalOf(done.order.steps, |done.order.steps|).value, h)
  }

  /** The compensating order over the world it is made for, when it can be made. */
  ghost function UndoOf(done: System, h: Header): (r: Option<System>)
    requires Undoable(done, h)
    ensures r.Some? ==> Shape(r.value.order) && r.value.world == done.world
  {
    match Compensating(done.order, done.world, FinalOf(done.order.steps, |done.order.steps|).value, h)
    case None => None
    case Some(c) => if Shape(c) then Some(System(c, done.world)) else None
  }

  /**
   * An order run to SUCCEEDED with no other writer has drifted nowhere: its compensation can be planned and
   * constructed, and the order made is again a new order whose items state the world as it is. Storage takes that order
   * exactly when the first was BASE_FINAL or only modified its targets.
   */
  lemma RunCanBeCompensated(first: System, requests: seq<Request>, overlay: bool, h: Header)
    requires Start(first, overlay) && CreatedHere(first)
    requires ServeAll(first, requests).order.status == Succeeded
    ensures var done := ServeAll(first, requests);
            && FactsOf(done.order, done.world).Success?
            && EffectsValid(done.order.steps) && FinalOf(done.order.steps, |done.order.steps|).Some?
            && (forall i :: 0 <= i < |done.order.items| ==>
                 NotDrifted(FinalOf(done.order.steps, |done.order.steps|).value, FactsOf(done.order, done.world).value,
                            done.order.items[i]))
            && PlanCompensation(done.order, FactsOf(done.order, done.world).value).Success?
            && (Undoable(done, h) ==>
                 && UndoOf(done, h).Some?
                 && Start(UndoOf(done, h).value, overlay) && CreatedHere(UndoOf(done, h).value)
                 && (InsertOrder(first.order).Success? ==>
                      (InsertOrder(UndoOf(done, h).value.order).Success? <==>
                        (overlay ==> forall i :: 0 <= i < |first.order.items| ==>
                           first.order.items[i].action == Modify))))
  {
    hide ServeAll, Landed, View, NotDrifted, CreatedHere, Compensating, GoodHeader, PlanItem, PlanCompensation,
         ValidSteps, FinalOf, ValidEnvelope, StorableItem, WellFormedItem;
    StartWellFormed(first, overlay);
    var done := ServeAll(first, requests);
    RunLands(first, requests, overlay);
    var f := FinalOf(done.order.steps, |done.order.steps|).value;
    SucceededPlans(first, done, f);
    forall i | 0 <= i < |done.order.items|
      ensures NotDrifted(f, FactsOf(done.order, done.world).value, done.order.items[i])
    {
      PlannedAfter(f, FactsOf(done.order, done.world).value, done.order.items[i]);
    }
    if Undoable(done, h) {
      UndoAsks(first, done, f, h, 0);
      if InsertOrder(first.order).Success? { CompensationStored(first, done, f, h); }
    }
  }

  /**
   * Running the compensating order of a BASE_FINAL order to its end gives every target the data it had before the first
   * order, exactly unless the data comparison takes the data to restore for the data that is there.
   */
  lemma CompensationUndoesBaseRun(first: System, requests: seq<Request>, h: Header, more: seq<Request>, i: nat)
    requires Start(first, false) && CreatedHere(first) && i < |first.order.items|
    requires ServeAll(first, requests).order.status == Succeeded && Undoable(ServeAll(first, requests), h)
    requires UndoOf(ServeAll(first, requests), h).Some?
    requires ServeAll(UndoOf(ServeAll(first, requests), h).value, more).order.status == Succeeded
    ensures var key, done := first.order.items[i].key, ServeAll(first, requests);
            var undone := ServeAll(UndoOf(done, h).value, more);
            && (SameContent(Lookup(undone.world.records, key), Lookup(first.world.records, key))
                <==> !Masked(Lookup(done.world.records, key), Lookup(first.world.records, key)))
            && (Masked(Lookup(done.world.records, key), Lookup(first.world.records, key)) ==>
                 Lookup(undone.world.records, key) == Lookup(done.world.records, key))
            && key !in undone.world.rules
  {
    hide ServeAll, Landed, View, Compensating, GoodHeader, ValidSteps, FinalOf, ValidEnvelope, WellFormedItem;
    StartWellFormed(first, false);
    var done := ServeAll(first, requests);
    RunLands(first, requests, false);
    UndoAsks(first, done, FinalOf(done.order.steps, |done.order.steps|).value, h, i);
    var second := UndoOf(done, h).value;
    var undone := ServeAll(second, more);
    RunLands(second, more, false);
    BaseReached(second, undone, FinalOf(undone.order.steps, |undone.order.steps|).value, i);
  }

  /**
   * Running the compensating order of an OVERLAY_FINAL order to its end makes every client see what was seen before the
   * first order.
   */
  lemma CompensationUndoesOverlayRun(first: System, requests: seq<Request>, h: Header, more: seq<Request>, i: nat,
                                     bucket: Option<int>)
    requires Start(first, true) && CreatedHere(first) && i < |first.order.items|
    requires ServeAll(first, requests).order.status == Succeeded && Undoable(ServeAll(first, requests), h)
    requires UndoOf(ServeAll(first, requests), h).Some?
    requires ServeAll(UndoOf(ServeAll(first, requests), h).value, more).order.status == Succeeded
    ensures var key, undone := first.order.items[i].key, ServeAll(UndoOf(ServeAll(first, requests), h).value, more);
            && undone.world.records == first.world.records
            && View(first.order, undone.world, bucket).Success?
            && SameContent(Lookup(View(first.order, undone.world, bucket).value, key),
                           Lookup(View(first.order, first.world, None).value, key))
  {
    hide ServeAll, Landed, View, Compensating, GoodHeader, ValidSteps, FinalOf, ValidEnvelope, WellFormedItem;
    StartWellFormed(first, true);
    var done := ServeAll(first, requests);
    RunLands(first, requests, true);
    var f := FinalOf(done.order.steps, |done.order.steps|).value;
    UndoAsks(first, done, f, h, i);
    LandedRecords(first.order, f, first.world, done.world);
    var second := UndoOf(done, h).value;
    RunLands(second, more, true);
    SeenAfter(first.order, second, ServeAll(second, more), i, bucket);
  }

  /** What a succeeded overlay order shows, in the terms of any order with the same targets. */
  lemma SeenAfter(o: Order, first: System, done: System, i: nat, bucket: Option<int>)
    requires WellFormedOrder(o) && WellFormedOrder(first.order) && i < |o.items| == |first.order.items|
    requires EffectsValid(done.order.steps) && FinalOf(done.order.steps, |done.order.steps|).Some?
    requires var f := FinalOf(done.order.steps, |done.order.steps|).value; f.overlay && Succeeds(first, done, f)
    requires o.scope == first.order.scope && o.items[0].collection == first.order.items[0].collection
    requires forall k :: 0 <= k < |o.items| ==> o.items[k].key == first.order.items[k].key
    ensures done.world.records == first.world.records
    ensures View(o, done.world, bucket).Success?
    ensures SameContent(Lookup(View(o, done.world, bucket).value, o.items[i].key), first.order.items[i].after)
  {
    hide Landed, View, FinalOf, ValidEnvelope, WellFormedItem;
    var f := FinalOf(done.order.steps, |done.order.steps|).value;
    OverlayView(first, done, f, bucket);
    LandedRecords(first.order, f, first.world, done.world);
    SameView(first.order, o, done.world, bucket);
    assert Shows(View(first.order, done.world, bucket).value, first.order.items[i], f.revision);
  }

  // ----- compensating the compensation -----

  lemma UndoKeys(first: System, requests: seq<Request>, overlay: bool, h: Header)
    requires Start(first, overlay) && CreatedHere(first)
    requires ServeAll(first, requests).order.status == Succeeded && Undoable(ServeAll(first, requests), h)
    requires UndoOf(ServeAll(first, requests), h).Some?
    ensures var second := UndoOf(ServeAll(first, requests), h).value;
            && Start(second, overlay) && CreatedHere(second) && |second.order.items| == |first.order.items|
            && second.order.scope == first.order.scope
            && second.order.items[0].collection == first.order.items[0].collection
            && forall i :: 0 <= i < |first.order.items| ==> second.order.items[i].key == first.order.items[i].key
  {
    hide ServeAll, Landed, View, Compensating, GoodHeader, ValidSteps, FinalOf, ValidEnvelope, WellFormedItem,
         CreatedHere, Start;
    StartWellFormed(first, overlay);
    var done := ServeAll(first, requests);
    RunLands(first, requests, overlay);
    UndoAsks(first, done, FinalOf(done.order.steps, |done.order.steps|).value, h, 0);
  }

  /** Three runs: the order, its compensation, and the compensation of that. */
  ghost predicate UndoneTwice(first: System, requests: seq<Request>, overlay: bool, h: Header, more: seq<Request>,
                              h': Header, most: seq<Request>) {
    && Start(first, overlay) && CreatedHere(first)
    && var done := ServeAll(first, requests);
    && done.order.status == Succeeded && Undoable(done, h) && UndoOf(done, h).Some?
    && var undone := ServeAll(UndoOf(done, h).value, more);
    && undone.order.status == Succeeded && Undoable(undone, h') && UndoOf(undone, h').Some?
    && ServeAll(UndoOf(undone, h').value, most).order.status == Succeeded
  }

  /** The three worlds the three runs end in. */
  ghost function Worlds(first: System, requests: seq<Request>, overlay: bool, h: Header, more: seq<Request>, h': Header,
                        most: seq<Request>): (World, World, World)
    requires UndoneTwice(first, requests, overlay, h, more, h', most)
  {
    var done := ServeAll(first, requests);
    var undone := ServeAll(UndoOf(done, h).value, more);
    (done.world, undone.world, ServeAll(UndoOf(undone, h').value, most).world)
  }

  /**
   * Compensating the compensation of a BASE_FINAL order makes every target hold the first order's After again, exactly
   * unless the data comparison masked the first change or masks the last one.
   */
  lemma CompensatingTwiceReturns(first: System, requests: seq<Request>, h: Header, more: seq<Request>, h': Header,
                                 most: seq<Request>, i: nat)
    requires UndoneTwice(first, requests, false, h, more, h', most) && i < |first.order.items|
    ensures var key, after := first.order.items[i].key, first.order.items[i].after;
            var (done, undone, redone) := Worlds(first, requests, false, h, more, h', most);
            SameContent(Lookup(redone.records, key), after) <==>
              !Masked(Lookup(first.world.records, key), after)
              && !Masked(Lookup(undone.records, key), Lookup(done.records, key))
  {
    hide ServeAll, Landed, View, Undoable, UndoOf, FinalOf, ValidEnvelope, WellFormedItem, CreatedHere, Start, Succeeds;
    StartWellFormed(first, false);
    var done := ServeAll(first, requests);
    RunLands(first, requests, false);
    BaseReached(first, done, FinalOf(done.order.steps, |done.order.steps|).value, i);
    UndoKeys(first, requests, false, h);
    CompensationUndoesBaseRun(first, requests, h, more, i);
    CompensationUndoesBaseRun(UndoOf(done, h).value, more, h', most, i);
  }

  /** For an OVERLAY_FINAL order every client sees the first order's After again, without exception. */
  lemma CompensatingOverlayTwiceReturns(first: System, requests: seq<Request>, h: Header, more: seq<Request>,
                                        h': Header, most: seq<Request>,
                                        i: nat, bucket: Option<int>)
    requires UndoneTwice(first, requests, true, h, more, h', most) && i < |first.order.items|
    ensures var (done, undone, redone) := Worlds(first, requests, true, h, more, h', most);
            && redone.records == first.world.records
            && View(first.order, redone, bucket).Success?
            && SameContent(Lookup(View(first.order, redone, bucket).value, first.order.items[i].key),
                           first.order.items[i].after)
  {
    hide ServeAll, Landed, View, Undoable, UndoOf, FinalOf, ValidEnvelope, WellFormedItem, CreatedHere, Start, Succeeds;
    StartWellFormed(first, true);
    var done := ServeAll(first, requests);
    RunLands(first, requests, true);
    UndoKeys(first, requests, true, h);
    var second := UndoOf(done, h).value;
    StartWellFormed(second, true);
    CompensationUndoesOverlayRun(first, requests, h, more, i, bucket);
    CompensationUndoesOverlayRun(second, more, h', most, i, bucket);
    SeenAfter(first.order, first, done, i, None);
    SameView(first.order, second.order, done.world, None);
    var redone := ServeAll(UndoOf(ServeAll(second, more), h').value, most);
    SameView(first.order, second.order, redone.world, bucket);
  }

  // ----- the compensating step executes -----

  lemma {:induction false} SlicesExactly(steps: seq<StepState>, n: nat)
    requires n <= |steps| && forall i :: 0 <= i < n ==> Settled(steps[i])
    ensures LastPercent(steps, n).Some? <==> SlicesBefore(steps, n) != []
  {
    if n > 0 {
      SlicesExactly(steps, n - 1);
      NextDefinition(steps, n - 1);
      assert Settled(steps[n - 1]);
    } else {
      assert Definitions(steps)[..0] == [];
    }
  }

  /** The target's record still differs from the desired one. */
  predicate NeedsChange(first: System, item: Item) {
    BaseItemChanges(Lookup(first.world.records, item.key), item) != []
  }

  /** Stored records carry positive revisions. */
  predicate PositiveTargets(first: System) {
    PositiveRevisions(TargetMap(first.order.items, first.world.records))
  }

  lemma OneBaseItem(first: System, o: Order, w: World, i: nat)
    requires RolloutStart(first) && CreatedHere(first) && PositiveTargets(first) && i < |first.order.items|
    requires o.items == first.order.items
    requires Shape(o) && o.status == InProgress && w.records == first.world.records
    requires !BaseBefore(o.steps, o.currentStep)
    requires RuleState(o, o.items[i], w, o.currentStep)
    ensures BaseItem(o, AuthorityOf(w), LastPercent(o.steps, o.currentStep).Some?, o.items[i]).Success?
    ensures o.items[i].key in w.rules <==> LastPercent(o.steps, o.currentStep).Some?
  {
    hide View, SlicesBefore, WellFormedItem;
    SlicesExactly(o.steps, o.currentStep);
    var key := o.items[i].key;
    if key in first.world.records {
      assert KeyAmong(first.order.items, key);
      assert key in TargetMap(first.order.items, first.world.records);
    }
  }

  lemma NoBaseBefore(o: Order)
    requires Shape(o) && CompiledBaseFinal(o) && o.steps[o.currentStep].definition.Type() == BaseApply
    ensures !BaseBefore(o.steps, o.currentStep)
  {
    if i :| 0 <= i < o.currentStep && o.steps[i].definition.Type() == BaseApply {
      OneFinalStep(o, false, i, o.currentStep);
    }
  }

  /**
   * At its base step an order created on this world, with no rule at its targets, is never refused by the revision,
   * record, data or ownership checks, whatever ran before: it executes exactly when a slice was rolled out or some
   * record still differs, and is stored exactly when no name it needs is blank.
   */
  lemma BaseStepEnabled(first: System, requests: seq<Request>, newRevision: nat, actor: string, at: int)
    requires RolloutStart(first) && CreatedHere(first) && PositiveTargets(first)
    requires ServeAll(first, requests).order.status == InProgress
    requires AtStep(ServeAll(first, requests).order, BaseApply, Pending)
    requires !Text.Blank(actor) && at != ZERO_TIME && ServeAll(first, requests).world.revision < newRevision
    ensures var now := ServeAll(first, requests);
            var step := ExecuteBase(now.order, AuthorityOf(now.world), newRevision, actor, at);
            && (step.Success? <==>
                 LastPercent(now.order.steps, now.order.currentStep).Some?
                 || exists i :: 0 <= i < |first.order.items| && NeedsChange(first, first.order.items[i]))
            && (step.Success? ==>
                 (ApplyEffect(step.value.1, now.world).Success? <==> BaseNamesPresent(first.order, now.world)))
  {
    hide ServeAll, Dispatch, RuleState, View, BaseItem, BaseItems, BaseItemChanges, ValidSteps, Chained, Replay,
         ValidEnvelope, WellFormedItem, ApplyEffect;
    var now := ServeAll(first, requests);
    var o, a := now.order, AuthorityOf(now.world);
    var hasPercent := LastPercent(o.steps, o.currentStep).Some?;
    RolloutHolds(first, requests);
    RunKeepsIdentity(first, requests);
    NoBaseBefore(o);
    assert DoneSteps(o) == o.currentStep;
    forall i | 0 <= i < |o.items|
      ensures BaseItem(o, a, hasPercent, o.items[i]).Success? && (o.items[i].key in now.world.rules <==> hasPercent)
    {
      OneBaseItem(first, o, now.world, i);
    }
    BaseItemsTotal(o, a, hasPercent, o.items);
    SomethingExactly(first, a, hasPercent, o.items);
    StartsAtRevision(first, o, now.world);
    if ExecuteBase(o, a, newRevision, actor, at).Success? { BaseStored(o, now.world, newRevision, actor, at); }
  }

  lemma SomethingExactly(first: System, a: Authority, hasPercent: bool, items: seq<Item>)
    requires a.records == first.world.records && items != []
    requires forall i :: 0 <= i < |items| ==> (items[i].key in a.rules <==> hasPercent)
    ensures SomethingToDo(a, items) <==> hasPercent || exists i :: 0 <= i < |items| && NeedsChange(first, items[i])
  {
    if hasPercent { assert ToDo(a, items[0]); }
    if i :| 0 <= i < |items| && NeedsChange(first, items[i]) { assert ToDo(a, items[i]); }
    if i :| 0 <= i < |items| && ToDo(a, items[i]) && !hasPercent { assert NeedsChange(first, items[i]); }
  }

  lemma StartsAtRevision(first: System, o: Order, w: World)
    requires WellFormedOrder(first.order) && CreatedHere(first) && WellFormedOrder(o) && o.items == first.order.items
    requires !BaseBefore(o.steps, o.currentStep) && RevisionState(o, w, first.world, o.currentStep)
    ensures ExpectedRevision(o) == w.revision
  {
  }

  /**
   * What the effect validator asks of a base effect: no blank name, a collection with a revision, and no blank key to
   * clean up.
   */
  predicate BaseNamesPresent(o: Order, w: World)
    requires WellFormedOrder(o)
  {
    && !Text.Blank(o.items[0].collection) && !Text.Blank(o.scope.region) && !Text.Blank(o.scope.environment)
    && 0 < w.revision && forall i :: 0 <= i < |o.items| && o.items[i].key in w.rules ==> !Text.Blank(o.items[i].key)
  }

  predicate AllValidRules(changes: seq<RuleChange>) {
    forall j :: 0 <= j < |changes| ==> ValidRuleChange(changes[j])
  }

  predicate AllValidChanges(changes: seq<BaseChange>) {
    forall j :: 0 <= j < |changes| ==> ValidBaseChange(changes[j])
  }

  lemma OneBaseChange(o: Order, a: Authority, hasPercent: bool, item: Item)
    requires BaseItem(o, a, hasPercent, item).Success?
    ensures AllValidChanges(BaseItem(o, a, hasPercent, item).value.0)
    ensures AllValidRules(BaseItem(o, a, hasPercent, item).value.1) <==> (item.key in a.rules ==> !Text.Blank(item.key))
  {
    var rules := BaseItem(o, a, hasPercent, item).value.1;
    if item.key in a.rules { assert rules[0].key == item.key && rules[0].previous.Some?; }
  }

  lemma {:induction false} BaseChangesValid(o: Order, a: Authority, hasPercent: bool, items: seq<Item>)
    requires BaseItems(o, a, hasPercent, items).Success?
    ensures AllValidChanges(BaseItems(o, a, hasPercent, items).value.0)
    ensures AllValidRules(BaseItems(o, a, hasPercent, items).value.1) <==>
            forall i :: 0 <= i < |items| && items[i].key in a.rules ==> !Text.Blank(items[i].key)
  {
    if items != [] {
      hide BaseItem, ValidBaseChange, ValidRuleChange;
      var n := |items| - 1;
      var before, one := BaseItems(o, a, hasPercent, items[..n]).value, BaseItem(o, a, hasPercent, items[n]).value;
      BaseChangesValid(o, a, hasPercent, items[..n]);
      OneBaseChange(o, a, hasPercent, items[n]);
      assert forall i :: 0 <= i < n ==> items[..n][i] == items[i];
      assert forall j :: 0 <= j < |before.1| ==> (before.1 + one.1)[j] == before.1[j];
      assert forall j :: 0 <= j < |one.1| ==> (before.1 + one.1)[|before.1| + j] == one.1[j];
    }
  }

  lemma BaseStored(o: Order, w: World, newRevision: nat, actor: string, at: int)
    requires WellFormedOrder(o) && ExecuteBase(o, AuthorityOf(w), newRevision, actor, at).Success?
    requires WellFormedWorld(w, o.items[0].collection, o.scope.environment)
    ensures var e := ExecuteBase(o, AuthorityOf(w), newRevision, actor, at).value.1;
            ApplyEffect(e, w).Success? <==> BaseNamesPresent(o, w)
  {
    hide BaseItems, InsertsFresh, WritesStorable, WellFormedItem, ValidBaseChange, ValidRuleChange, Fits;
    var e := ExecuteBase(o, AuthorityOf(w), newRevision, actor, at).value.1;
    var hasPercent := LastPercent(o.steps, o.currentStep).Some?;
    BaseEffectFits(o, w, newRevision, actor, at);
    BaseChangesValid(o, AuthorityOf(w), hasPercent, o.items);
    CleanupStored(o, AuthorityOf(w), hasPercent, o.items);
    assert ValidEnvelope(e) <==> BaseNamesPresent(o, w);
    if ValidEnvelope(e) { InsertsFit(DeltaOf(e), w); }
  }

  lemma InsertsFit(d: Delta, w: World)
    requires Fits(d, w)
    ensures InsertsFresh(d.changes, d.collection, d.scope.environment, d.appliedRevision, w.records)
  {
    FittingInsertsAreFresh(d.changes, d.collection, d.scope.environment, d.appliedRevision, w.records);
  }

  lemma {:induction false} CleanupStored(o: Order, a: Authority, hasPercent: bool, items: seq<Item>)
    requires BaseItems(o, a, hasPercent, items).Success?
    ensures WritesStorable(BaseItems(o, a, hasPercent, items).value.1)
  {
    if items != [] { CleanupStored(o, a, hasPercent, items[..|items| - 1]); }
  }

  /** The rules stored at the targets are rules for these targets in this scope. */
  predicate OwnRules(first: System) {
    forall i :: 0 <= i < |first.order.items| && first.order.items[i].key in first.world.rules ==>
      RuleTargets(first.world.rules[first.order.items[i].key], first.order.items[i], first.order.scope)
  }

  lemma OneOverlayItem(first: System, o: Order, newRevision: nat, actor: string, at: int, i: nat)
    requires Start(first, true) && CreatedHere(first) && PositiveTargets(first) && OwnRules(first)
    requires o.items == first.order.items && o.scope == first.order.scope && i < |first.order.items|
    requires first.order.scope.region != "" && first.order.scope.environment != ""
    ensures OverlayItem(o, AuthorityOf(first.world), newRevision, actor, at, o.items[i]).Success?
  {
    hide View, OverlayItem;
    var item := o.items[i];
    StartWellFormed(first, true);
    if item.key in first.world.records {
      assert KeyAmong(first.order.items, item.key);
      assert item.key in TargetMap(first.order.items, first.world.records);
    }
    assert WellFormedItem(item, first.order.items[0].collection, o.scope);
    OverlayItemPlans(o, first.world, newRevision, actor, at, item, first.order.items[0].collection);
  }

  /**
   * At its overlay step an order created on this world always executes, whatever ran before, and is stored
   * exactly when no name is blank and every target has something storable to write.
   */
  lemma OverlayStepEnabled(first: System, requests: seq<Request>, newRevision: nat, actor: string, at: int)
    requires Start(first, true) && CreatedHere(first) && PositiveTargets(first) && OwnRules(first)
    requires first.order.scope.region != "" && first.order.scope.environment != ""
    requires ServeAll(first, requests).order.status == InProgress
    requires AtStep(ServeAll(first, requests).order, OverlayApply, Pending)
    requires !Text.Blank(actor) && at != ZERO_TIME && first.world.revision < newRevision
    ensures var now := ServeAll(first, requests);
            var step := ExecuteOverlay(now.order, AuthorityOf(now.world), newRevision, actor, at);
            && now.world == first.world && step.Success?
            && (ApplyEffect(step.value.1, now.world).Success? <==>
                 && NamesPresent(first.order, first.world.revision)
                 && forall i :: 0 <= i < |first.order.items| ==>
                      Storing(AuthorityOf(first.world), first.order.items[i]))
  {
    hide ServeAll, Dispatch, View, OverlayItem, OverlayItems, ValidSteps, Chained, Replay, ValidEnvelope,
         WellFormedItem, ApplyEffect, CreatedHere, OwnRules, Storing, ValidOverlayShape, ValidBaseShape;
    StartWellFormed(first, true);
    StartCompiled(first, true);
    var now := ServeAll(first, requests);
    var o := now.order;
    RunStands(first, requests, true);
    RunTracks(first, requests);
    RunKeepsIdentity(first, requests);
    SameCompiled(first.order, o, true);
    NotDecidedYet(o, true);
    forall i | 0 <= i < |o.items|
      ensures OverlayItem(o, AuthorityOf(first.world), newRevision, actor, at, o.items[i]).Success?
    {
      OneOverlayItem(first, o, newRevision, actor, at, i);
    }
    OverlayItemsTotal(o, AuthorityOf(first.world), newRevision, actor, at, o.items);
    OverlayStepStored(o, first.world, newRevision, actor, at);
  }

  lemma SameTargetMap(a: seq<Item>, b: seq<Item>, records: map<string, Record>)
    requires |a| == |b| && forall i :: 0 <= i < |a| ==> a[i].key == b[i].key
    ensures TargetMap(a, records) == TargetMap(b, records)
  {
    forall k ensures KeyAmong(a, k) <==> KeyAmong(b, k) {
      if i :| 0 <= i < |a| && a[i].key == k { assert b[i].key == k; }
      if i :| 0 <= i < |b| && b[i].key == k { assert a[i].key == k; }
    }
  }

  lemma WrittenOwn(first: System, done: System, f: Final, i: nat)
    requires WellFormedOrder(first.order) && Succeeds(first, done, f) && f.overlay && i < |first.order.items|
    requires first.order.items[i].key in done.world.rules
    ensures RuleTargets(done.world.rules[first.order.items[i].key], first.order.items[i], first.order.scope)
  {
    hide Finished, WellFormedItem;
    var actor, at :| WroteAs(first.order, f, actor, at, first.world, done.world);
    assert OverlayItem(first.order, AuthorityOf(first.world), f.revision, actor, at, first.order.items[i]).Success?;
  }

  lemma MadeAtFirstStep(o: Order, w: World, f: Final, h: Header)
    requires WellFormedOrder(o) && EffectsValid(o.steps) && Compensating(o, w, f, h).Some?
    ensures var c := Compensating(o, w, f, h).value;
            && c.currentStep == 0
            && (c.steps != [] ==> c.steps[0].status == Pending)
  {
    hide FactsOf, PlanCompensation, AcceptsSpec;
  }

  lemma UndoStartsRollout(first: System, requests: seq<Request>, h: Header)
    requires Start(first, false) && CreatedHere(first)
    requires ServeAll(first, requests).order.status == Succeeded && Undoable(ServeAll(first, requests), h)
    requires UndoOf(ServeAll(first, requests), h).Some?
    ensures RolloutStart(UndoOf(ServeAll(first, requests), h).value)
  {
    hide ServeAll, Landed, View, ValidSteps, FinalOf, ValidEnvelope, WellFormedItem, CreatedHere, Compensating;
    StartWellFormed(first, false);
    var done := ServeAll(first, requests);
    RunLands(first, requests, false);
    UndoKeys(first, requests, false, h);
    var f, second := FinalOf(done.order.steps, |done.order.steps|).value, UndoOf(done, h).value;
    MadeAtFirstStep(done.order, done.world, f, h);
    forall i | 0 <= i < |second.order.items| ensures second.order.items[i].key !in second.world.rules {
      BaseReached(first, done, f, i);
    }
  }

  lemma UndoOwnsRules(first: System, requests: seq<Request>, h: Header)
    requires Start(first, true) && CreatedHere(first)
    requires ServeAll(first, requests).order.status == Succeeded && Undoable(ServeAll(first, requests), h)
    requires UndoOf(ServeAll(first, requests), h).Some?
    ensures OwnRules(UndoOf(ServeAll(first, requests), h).value)
  {
    hide ServeAll, Landed, View, ValidSteps, FinalOf, ValidEnvelope, WellFormedItem, CreatedHere, Compensating;
    StartWellFormed(first, true);
    var done := ServeAll(first, requests);
    RunLands(first, requests, true);
    UndoKeys(first, requests, true, h);
    var f, second := FinalOf(done.order.steps, |done.order.steps|).value, UndoOf(done, h).value;
    forall i | 0 <= i < |second.order.items| && second.order.items[i].key in second.world.rules
      ensures RuleTargets(second.world.rules[second.order.items[i].key], second.order.items[i], second.order.scope)
    {
      WrittenOwn(first, done, f, i);
      ItemCollection(first.order, i);
      ItemCollection(second.order, i);
    }
  }

  /** The compensating step of a stored overlay order only ever writes rules storage takes. */
  lemma UndoStores(first: System, requests: seq<Request>, h: Header)
    requires Start(first, true) && CreatedHere(first) && InsertOrder(first.order).Success?
    requires ServeAll(first, requests).order.status == Succeeded && Undoable(ServeAll(first, requests), h)
    requires UndoOf(ServeAll(first, requests), h).Some?
    requires InsertOrder(UndoOf(ServeAll(first, requests), h).value.order).Success?
    ensures var second := UndoOf(ServeAll(first, requests), h).value;
            forall i :: 0 <= i < |second.order.items| ==> Storing(AuthorityOf(second.world), second.order.items[i])
  {
    hide ServeAll, Landed, View, ValidSteps, FinalOf, ValidEnvelope, WellFormedItem, CreatedHere, Compensating,
         NotDrifted, PlanCompensation;
    StartWellFormed(first, true);
    var done := ServeAll(first, requests);
    RunLands(first, requests, true);
    UndoKeys(first, requests, true, h);
    RunCanBeCompensated(first, requests, true, h);
    var f, second := FinalOf(done.order.steps, |done.order.steps|).value, UndoOf(done, h).value;
    forall i | 0 <= i < |second.order.items| ensures Storing(AuthorityOf(second.world), second.order.items[i]) {
      UndoAsks(first, done, f, h, i);
      assert StorableItem(first.order.items[i]);
    }
  }

  /**
   * A compensating order starts where its own deciding step cannot be stuck: `BaseStepEnabled`, respectively
   * `OverlayStepEnabled`, applies to it.
   */
  lemma CompensationNeverStuck(first: System, requests: seq<Request>, overlay: bool, h: Header)
    requires Start(first, overlay) && CreatedHere(first)
    requires ServeAll(first, requests).order.status == Succeeded && Undoable(ServeAll(first, requests), h)
    requires UndoOf(ServeAll(first, requests), h).Some?
    ensures var second := UndoOf(ServeAll(first, requests), h).value;
            && PositiveTargets(second) && CreatedHere(second)
            && (if overlay then Start(second, true) && OwnRules(second) else RolloutStart(second))
            && (overlay && InsertOrder(first.order).Success? && InsertOrder(second.order).Success? ==>
                 forall i :: 0 <= i < |second.order.items| ==>
                               Storing(AuthorityOf(second.world), second.order.items[i]))
  {
    hide ServeAll, Landed, View, ValidSteps, FinalOf, ValidEnvelope, WellFormedItem, CreatedHere, Compensating,
         RolloutStart, OwnRules, Storing;
    StartWellFormed(first, overlay);
    var done := ServeAll(first, requests);
    RunLands(first, requests, overlay);
    UndoKeys(first, requests, overlay, h);
    TargetPositive(first, done, FinalOf(done.order.steps, |done.order.steps|).value);
    var second := UndoOf(done, h).value;
    SameTargetMap(done.order.items, second.order.items, done.world.records);
    if overlay {
      UndoOwnsRules(first, requests, h);
      if InsertOrder(first.order).Success? && InsertOrder(second.order).Success? { UndoStores(first, requests, h); }
    } else {
      UndoStartsRollout(first, requests, h);
    }
  }
}
