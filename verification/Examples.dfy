/**
 * Concrete orders: one run to its end whose compensation does nothing, one that can never commit, one that cannot be
 * compensated, and one whose comparison never matches.
 */
module Examples {
  import opened Wrappers
  import opened Catalog
  import opened Rollout
  import opened Overlay
  import opened Template
  import opened Effects
  import opened OrderState
  import opened Lifecycle
  import opened World
  import opened Rollback
  import opened ReleaseRun
  import opened RollbackRun
  import opened RolloutRun
  import opened Reach
  import opened Compensation
  import opened FinalRun
  import opened CompensationRun
  import opened Completion
  import opened Completable
  import Text

  lemma NoSteps()
    ensures Growing([]) && Codes([]) == {} && forall t :: CountType([], t) == 0
  {
  }

  /** Both built-in steps of a BASE_FINAL order without a template are a valid step list. */
  lemma DefaultStepsValid(template: CompiledTemplate)
    requires template.steps == []
    ensures ValidSteps(BaseFinal, BaseFinalSteps(template))
  {
    hide CountType, HasType, Codes, PercentSlices, Growing;
    var steps := BaseFinalSteps(template);
    NoSteps();
    assert [] + [steps[0]] == [steps[0]] && [steps[0]] + [steps[1]] == steps;
    AppendTallies([], steps[0]);
    AppendTallies([steps[0]], steps[1]);
    AppendGrowing([], steps[0]);
    AppendGrowing([steps[0]], steps[1]);
  }

  // ----- a compensation with nothing to do -----

  function MaskedBefore(): Record { Record("routes", "prod", "k", map["code" := "x", "rate" := "9"], 3) }

  function MaskedAfter(): Record { Record("routes", "prod", "k", map["code" := "x", "note" := ""], 5) }

  function MaskedEffect(): BaseEffect {
    BaseEffect(EFFECT_VERSION, "routes", Scope("cn", "prod", ""), 4, 5,
               [BaseChange(Modify, Some(MaskedBefore()), Some(MaskedAfter()))], [], 7, "a")
  }

  /** A BASE_FINAL order that replaced the rate by an empty note, at revision 5, and completed. */
  function MaskedOrder(): Order {
    var scope := Scope("cn", "prod", "");
    var apply := NewStep(StepDefinition("base-apply", [], BaseParams)).(
      status := Executed, effect := Some(BaseEnvelope(MaskedEffect())), executedAt := Some(7), executedBy := "a");
    var complete := NewStep(StepDefinition("complete", [], CompleteParams)).(status := Executed, executedAt := Some(8),
                                                                             executedBy := "a");
    var item := Item("i", Modify, "routes", "k", Some(MaskedBefore()), Some(MaskedBefore()), Some(MaskedAfter()), 3, 4,
                     ItemApplied, None);
    Order("o", scope, "a", Succeeded, 4, 1, [apply, complete], [item], Some(8), "a", 8)
  }

  function MaskedWorld(): World { World(map["k" := MaskedAfter()], map[], 5) }

  function MaskedHeader(): Header { Header("c", ["j"], "b", 9, CompiledTemplate(BaseFinal, [])) }

  lemma MaskedFinished()
    ensures WellFormedOrder(MaskedOrder()) && EffectsValid(MaskedOrder().steps)
    ensures FinalOf(MaskedOrder().steps, 2) == Some(Final(false, 5, {"k"}))
    ensures Finished(MaskedOrder(), Final(false, 5, {"k"}))
  {
    var o := MaskedOrder();
    var e := o.steps[0].effect.value;
    assert !Text.Blank("routes") by { assert !Text.IsSpace("routes"[0]); }
    assert !Text.Blank("cn") by { assert !Text.IsSpace("cn"[0]); }
    assert !Text.Blank("prod") by { assert !Text.IsSpace("prod"[0]); }
    assert !Text.Blank("a") by { assert !Text.IsSpace("a"[0]); }
    assert ValidEnvelope(e);
    assert FinalOf(o.steps, 0) == None;
    var changes := e.base.value.changes;
    assert (set c | c in changes :: ChangeKey(c)) == {"k"} by { assert changes[0] in changes; }
    assert FinalOf(o.steps, 1) == Some(Final(false, 5, {"k"}));
  }

  lemma MaskedFacts()
    requires WellFormedOrder(MaskedOrder())
    ensures var facts := FactsOf(MaskedOrder(), MaskedWorld());
            && facts.Success? && facts.value.revision == 5
            && Lookup(facts.value.baseRecords, "k") == Some(MaskedAfter())
            && Lookup(facts.value.effectiveRecords, "k") == Some(MaskedAfter())
            && PositiveRevisions(facts.value.baseRecords)
  {
    var o, w := MaskedOrder(), MaskedWorld();
    BareView(o, w, None);
    assert KeyAmong(o.items, "k") by { assert o.items[0].key == "k"; }
  }

  lemma MaskedHeaderFresh()
    ensures FreshHeader(MaskedOrder(), Final(false, 5, {"k"}), "c", ["j"], "b", 9, CompiledTemplate(BaseFinal, []))
  {
    assert !Text.Blank("c") by { assert !Text.IsSpace("c"[0]); }
    assert !Text.Blank("j") by { assert !Text.IsSpace("j"[0]); }
    assert !Text.Blank("b") by { assert !Text.IsSpace("b"[0]); }
    assert Text.Trim("cn") == "cn" && Text.Trim("prod") == "prod" && Text.Trim("") == "";
    assert Text.Trim("c") == "c" && Text.Trim("o") == "o";
  }

  /**
   * A finished order whose compensation is planned and constructed, and whose compensating base step then refuses to
   * execute: it finds nothing to change, although the data to restore differ from what is there.
   */
  lemma MaskedCompensation()
    ensures Finished(MaskedOrder(), Final(false, 5, {"k"}))
    ensures var c := Compensating(MaskedOrder(), MaskedWorld(), Final(false, 5, {"k"}), MaskedHeader());
            && c.Some? && WellFormedOrder(c.value)
            && ExecuteBase(c.value, AuthorityOf(MaskedWorld()), 6, "b", 10) == Failure(Invalid)
            && c.value.items[0].after == Some(MaskedBefore()) && MaskedBefore().data != MaskedWorld().records["k"].data
  {
    hide FactsOf, FreshHeader, ValidEnvelope, AcceptsSpec, NewOrder, PlanItem, FinalOf, PlanCompensation, Finished,
         MaskedOrder, MaskedHeader;
    var o, f, h, w := MaskedOrder(), Final(false, 5, {"k"}), MaskedHeader(), MaskedWorld();
    MaskedFinished();
    MaskedFacts();
    MaskedHeaderFresh();
    MaskedShape();
    EqualDataNotSymmetric();
    var a := FactsOf(o, w).value;
    MaskedPlans(a);
    CompensatingOrderConstructs(o, f, a, h.id, h.itemIds, h.actor, h.at, h.template);
    var spec := CompensatingSpec(o, PlanCompensation(o, a).value, h.id, h.itemIds, h.actor, h.at, h.template);
    NewOrderShape(false, spec);
    MadeAtFirstStep(o, w, f, h);
    MadeSteps(spec);
    MaskedNothing(NewOrder(false, spec).value);
  }

  lemma MaskedShape()
    ensures var o, h := MaskedOrder(), MaskedHeader();
            && |o.items| == 1 && o.items[0].key == "k" && |h.itemIds| == 1
            && h.template == CompiledTemplate(BaseFinal, [])
            && h.id == "c" && h.itemIds == ["j"] && h.actor == "b" && h.at == 9
  {
  }

  lemma MadeSteps(spec: OrderSpec)
    requires NewOrder(false, spec).Success? && spec.template.steps == []
    ensures var c := NewOrder(false, spec).value; c.currentStep == 0 && AtStep(c, BaseApply, Pending)
  {
    hide AcceptsSpec;
  }

  lemma MaskedPlans(a: CompensationAuthority)
    requires a.revision == 5 && Lookup(a.baseRecords, "k") == Some(MaskedAfter())
    requires Lookup(a.effectiveRecords, "k") == Some(MaskedAfter())
    requires Finished(MaskedOrder(), Final(false, 5, {"k"}))
    ensures var plan := PlanCompensation(MaskedOrder(), a);
            && plan.Success? && |plan.value.items| == 1
            && plan.value.items[0].after == Some(MaskedBefore())
            && plan.value.items[0].baseBefore == Some(MaskedAfter())
            && plan.value.items[0].expectedRecordRevision == 5 && plan.value.items[0].expectedCollectionRevision == 5
  {
    hide Finished, FinalOf, PlanCompensation;
    var o, f := MaskedOrder(), Final(false, 5, {"k"});
    assert NotDrifted(f, a, o.items[0]);
    CompensationExactlyWithoutDrift(o, f, a);
    PlannedAfter(f, a, o.items[0]);
    PlannedRevision(f, a, o.items[0]);
  }

  lemma MaskedNothing(c: Order)
    requires WellFormedOrder(c) && |c.items| == 1 && c.items[0].key == "k" && c.items[0].after == Some(MaskedBefore())
    requires c.items[0].expectedRecordRevision == 5 && c.items[0].baseBefore == Some(MaskedAfter())
    requires c.items[0].expectedCollectionRevision == 5 && AtStep(c, BaseApply, Pending) && c.currentStep == 0
    ensures ExecuteBase(c, AuthorityOf(MaskedWorld()), 6, "b", 10) == Failure(Invalid)
  {
    EqualDataNotSymmetric();
    var a := AuthorityOf(MaskedWorld());
    assert c.items[..0] == [];
    assert BaseItem(c, a, false, c.items[0]) == Success(([], []));
    BaseItemsTotal(c, a, false, c.items);
    assert !SomethingToDo(a, c.items);
  }

  // ----- how that order came about -----

  /** The same order as created, and the configuration it was created on. */
  function MaskedStart(): System {
    var scope := Scope("cn", "prod", "");
    var steps := [NewStep(StepDefinition("base-apply", [], BaseParams)),
                  NewStep(StepDefinition("complete", [], CompleteParams))];
    var item := Item("i", Modify, "routes", "k", Some(MaskedBefore()), Some(MaskedBefore()), Some(MaskedAfter()), 3, 4,
                     ItemPending,
                     Some(BaseConflict("routes", "prod", "k")));
    System(Order("o", scope, "a", InProgress, 1, 0, steps, [item], None, "a", 1),
           World(map["k" := MaskedBefore()], map[], 4))
  }

  lemma MaskedStartShape()
    ensures Shape(MaskedStart().order)
  {
  }

  lemma MaskedStarts()
    ensures JustCreated(MaskedStart(), false)
  {
    MaskedStartShape();
    var s := MaskedStart();
    DefaultStepsValid(CompiledTemplate(BaseFinal, []));
    assert Definitions(s.order.steps) == BaseFinalSteps(CompiledTemplate(BaseFinal, []));
    BareView(s.order, s.world, None);
  }

  lemma Named()
    ensures forall s :: s in {"routes", "cn", "prod", "beta", "a", "b", "c", "j", "k", "o"} ==> !Text.Blank(s)
  {
    forall s | s in {"routes", "cn", "prod", "beta", "a", "b", "c", "j", "k", "o"}
      ensures !Text.Blank(s)
    {
      assert !Text.IsSpace(s[0]);
    }
  }

  lemma MaskedExecutes()
    requires WellFormedOrder(MaskedStart().order)
    ensures var s := MaskedStart();
            ExecuteBase(s.order, AuthorityOf(s.world), 5, "a", 7)
            == Success((RecordEffect(s.order, BaseEnvelope(MaskedEffect()), "a", 7), BaseEnvelope(MaskedEffect())))
  {
    Named();
    EqualDataNotSymmetric();
    var o, a := MaskedStart().order, AuthorityOf(MaskedStart().world);
    var changes := [BaseChange(Modify, Some(MaskedBefore()), Some(MaskedAfter()))];
    var none: seq<RuleChange> := [];
    assert o.items[..|o.items| - 1] == [];
    assert BaseItem(o, a, false, o.items[0]) == Success((changes, none));
    assert BaseItems(o, a, false, []) == Success(([], []));
    assert [] + changes == changes && none + none == none;
    assert BaseItems(o, a, false, o.items) == Success((changes, none));
    assert PlanBase(o, a, 5, "a", 7) == Success(MaskedEffect());
  }

  lemma MaskedStores()
    ensures ApplyEffect(BaseEnvelope(MaskedEffect()), MaskedStart().world) == Success(MaskedWorld())
  {
    Named();
    var e, w := MaskedEffect(), MaskedStart().world;
    assert e.changes[..0] == [];
    assert ValidEnvelope(BaseEnvelope(e));
    SingleRuns(e.changes[0], "routes", "prod", 5, w.records);
    assert e.changes == [e.changes[0]];
    assert ApplyBaseChange(e.changes[0], "routes", "prod", 5, w.records) == map["k" := MaskedAfter()];
    assert DeltaOf(BaseEnvelope(e)).changes == e.changes && DeltaOf(BaseEnvelope(e)).overlayChanges == [];
    assert InsertsFresh(e.changes, "routes", "prod", 5, w.records);
    assert ApplyRules([], w.rules) == map[];
  }

  function MaskedRun(): seq<Request> {
    var ask := (revision: nat, action: Action, now: int, newRevision: nat) =>
      Request(Command("o", "r", revision, "", action, "a", [], ""), now, newRevision);
    [] + [ask(1, ExecuteAction, 7, 5)] + [ask(2, AdvanceAction, 8, 6)] + [ask(3, ExecuteAction, 8, 6)]
  }

  lemma MaskedFirst(s: System, r: Request)
    requires s == MaskedStart() && r == MaskedRun()[0] && Shape(s.order)
    ensures Serve(s, r) == System(RecordEffect(s.order, BaseEnvelope(MaskedEffect()), "a", 7), MaskedWorld())
  {
    hide ExecuteBase, ApplyEffect, RecordEffect;
    MaskedExecutes();
    MaskedStores();
  }

  lemma MaskedRest(s: System, advance: Request, complete: Request)
    requires Shape(s.order)
    requires s == System(RecordEffect(MaskedStart().order, BaseEnvelope(MaskedEffect()), "a", 7), MaskedWorld())
    requires advance == MaskedRun()[1] && complete == MaskedRun()[2]
    ensures Serve(Serve(s, advance), complete) == System(MaskedOrder(), MaskedWorld())
  {
    var next := Serve(s, advance);
    assert next.order == Bump(s.order.(currentStep := 1), "a", 8);
  }

  /** Three commands take the order from its creation to the finished order above. */
  lemma MaskedOrderIsARun()
    ensures JustCreated(MaskedStart(), false)
    ensures ServeAll(MaskedStart(), MaskedRun()) == System(MaskedOrder(), MaskedWorld())
  {
    hide Serve;
    MaskedStarts();
    var s, rs := MaskedStart(), MaskedRun();
    var none: seq<Request> := [];
    assert ServeAll(s, none) == s;
    ServeAllLast(s, none, rs[0]);
    ServeTwo(s, none + [rs[0]], rs[1], rs[2]);
    assert rs == none + [rs[0]] + [rs[1]] + [rs[2]];
    MaskedFirst(s, rs[0]);
    MaskedRest(Serve(s, rs[0]), rs[1], rs[2]);
  }

  // ----- overlay orders -----

  function OverlaySteps(): seq<StepDefinition> {
    [StepDefinition("overlay-apply", [], OverlayParams), StepDefinition("complete", [], CompleteParams)]
  }

  /** A new overlay order with one item, in the beta stage, over one base record or none. */
  function OverlayStart(item: Item, records: map<string, Record>): System {
    System(Order("o", Scope("cn", "prod", "beta"), "a", InProgress, 1, 0, NewSteps(OverlaySteps()), [item], None,
                 "a", 1),
           World(records, map[], 4))
  }

  function OverlayItemOf(action: ChangeAction, base: Option<Record>, after: Option<Record>, revision: nat): Item {
    Item("i", action, "routes", "k", base, base, after, revision, 4, ItemPending,
         Some(OverlayConflict("routes", Scope("cn", "prod", "beta"), "k")))
  }

  /** Hiding a base record from the stage. */
  function HidingStart(): System {
    OverlayStart(OverlayItemOf(Delete, Some(MaskedBefore()), None, 3), map["k" := MaskedBefore()])
  }

  /** Adding a record to the stage that the base does not have. */
  function AddingStart(): System {
    OverlayStart(OverlayItemOf(Add, None, Some(MaskedAfter()), 0), map[])
  }

  lemma OverlayStepsValid()
    ensures ValidSteps(OverlayFinal, OverlaySteps())
  {
    hide CountType, HasType, Codes, PercentSlices, Growing;
    var steps := OverlaySteps();
    NoSteps();
    assert [] + [steps[0]] == [steps[0]] && [steps[0]] + [steps[1]] == steps;
    AppendTallies([], steps[0]);
    AppendTallies([steps[0]], steps[1]);
    AppendGrowing([], steps[0]);
    AppendGrowing([steps[0]], steps[1]);
  }

  lemma OverlayStartShape(item: Item, records: map<string, Record>)
    requires item == HidingStart().order.items[0] || item == AddingStart().order.items[0]
    ensures Shape(OverlayStart(item, records).order)
  {
  }

  lemma OverlayStarts(s: System)
    requires s == HidingStart() || s == AddingStart()
    ensures JustCreated(s, true) && InsertOrder(s.order).Success?
  {
    hide ValidSteps, View, Shape, WellFormedOrder;
    OverlayStartShape(s.order.items[0], s.world.records);
    OverlayStepsValid();
    OverlayCreated(s);
    assert Definitions(s.order.steps) == OverlaySteps();
  }

  lemma OverlayCreated(s: System)
    requires (s == HidingStart() || s == AddingStart()) && Shape(s.order)
    ensures CreatedHere(s) && PositiveTargets(s) && InsertOrder(s.order).Success?
    ensures WellFormedOrder(s.order) && s.order.status == InProgress && !HasEffect(s.order.steps)
    ensures ItemShape(true, s.order.items[0])
    ensures WellFormedWorld(s.world, s.order.items[0].collection, s.order.scope.environment) && OwnRules(s)
  {
    hide EvaluateMap, Shape;
    BareView(s.order, s.world, None);
  }

  lemma OverlayNamed(s: System)
    requires (s == HidingStart() || s == AddingStart()) && WellFormedOrder(s.order)
    ensures NamesPresent(s.order, 4)
  {
    Named();
  }

  /**
   * A deletion that is created, stored as an order and planned, is refused by storage when its step is applied; no
   * sequence of commands completes the order.
   */
  lemma HidingNeverCommits()
    ensures JustCreated(HidingStart(), true) && InsertOrder(HidingStart().order).Success?
    ensures var s := HidingStart();
            var step := ExecuteOverlay(s.order, AuthorityOf(s.world), 5, "a", 7);
            step.Success? && ApplyEffect(step.value.1, s.world).Failure?
    ensures forall requests :: ServeAll(HidingStart(), requests).order.status != Succeeded
  {
    hide Serve, View, ExecuteOverlay, ApplyEffect, ValidSteps, CreatedHere, ServeAll;
    var s := HidingStart();
    OverlayStarts(s);
    Named();
    HidingRefused();
    ServeNothing(s);
    OverlayStepEnabled(s, [], 5, "a", 7);
    CompletableExactly(s, true);
    assert !StepAllows(s, true, 0);
  }

  lemma ServeNothing(s: System)
    requires Shape(s.order)
    ensures ServeAll(s, []) == s
  {
  }

  lemma HidingRefused()
    requires WellFormedOrder(HidingStart().order)
    ensures var s := HidingStart();
            && s.order.items[0].key in s.world.records && !Storing(AuthorityOf(s.world), s.order.items[0])
            && s.order.steps[0].definition.Type() == OverlayApply && AtStep(s.order, OverlayApply, Pending)
  {
  }

  function AddingHeader(): Header { Header("c", ["j"], "b", 9, CompiledTemplate(OverlayFinal, OverlaySteps())) }

  lemma AddingHeaderGood(o: Order, f: Final)
    requires o.id == "o" && o.scope == Scope("cn", "prod", "beta") && |o.items| == 1 && f.overlay
    ensures GoodHeader(o, f, AddingHeader())
  {
    Named();
    OverlayStepsValid();
    assert Text.Trim("cn") == "cn" && Text.Trim("prod") == "prod" && Text.Trim("beta") == "beta";
    assert Text.Trim("c") == "c" && Text.Trim("o") == "o";
  }

  lemma AddingAllowed()
    requires WellFormedOrder(AddingStart().order)
    ensures forall n :: 0 <= n < |AddingStart().order.steps| ==> StepAllows(AddingStart(), true, n)
  {
    var s := AddingStart();
    OverlayNamed(s);
    assert Storing(AuthorityOf(s.world), s.order.items[0]);
    assert s.order.steps[0].definition.Type() == OverlayApply && s.order.steps[1].definition.Type() == Complete;
  }

  /** An addition that can be completed, and whose compensation is planned and constructed but cannot be stored. */
  lemma AddingNotCompensated() returns (requests: seq<Request>)
    ensures JustCreated(AddingStart(), true) && InsertOrder(AddingStart().order).Success?
    ensures var done := ServeAll(AddingStart(), requests);
            && done.order.status == Succeeded && Undoable(done, AddingHeader()) && UndoOf(done, AddingHeader()).Some?
            && InsertOrder(UndoOf(done, AddingHeader()).value.order).Failure?
  {
    hide Serve, View, ValidSteps, CreatedHere, ServeAll, StepAllows, GoodHeader, FinalOf, Landed, Compensating,
         InsertOrder, NotDrifted, PlanCompensation;
    var s := AddingStart();
    OverlayStarts(s);
    AddingAllowed();
    CompletableExactly(s, true);
    requests :| ServeAll(s, requests).order.status == Succeeded;
    var done := ServeAll(s, requests);
    RunLands(s, requests, true);
    AddingHeaderGood(done.order, FinalOf(done.order.steps, |done.order.steps|).value);
    RunCanBeCompensated(s, requests, true, AddingHeader());
    assert s.order.items[0].action == Add;
  }

  // ----- a comparison that can never match -----

  function KeptSteps(): seq<StepDefinition> {
    [StepDefinition("percent", [], PercentParams([BucketRange(0, 9)])), StepDefinition("base-apply", [], BaseParams),
     StepDefinition("compare", [], CompareParams(CompareBase, None)), StepDefinition("complete", [], CompleteParams)]
  }

  /** A rollout whose base record compares equal to the desired one, but not the other way round. */
  function KeptStart(): System {
    var item := Item("i", Modify, "routes", "k", Some(MaskedAfter()), Some(MaskedAfter()), Some(MaskedBefore()), 5, 6,
                     ItemPending, Some(BaseConflict("routes", "prod", "k")));
    System(Order("o", Scope("cn", "prod", "beta"), "a", InProgress, 1, 0, NewSteps(KeptSteps()), [item], None, "a", 1),
           World(map["k" := MaskedAfter()], map[], 6))
  }

  lemma KeptStepsValid()
    ensures ValidSteps(BaseFinal, KeptSteps())
    ensures PercentSlices(KeptSteps()[..1]) == [[BucketRange(0, 9)]]
  {
    hide CountType, HasType, Codes, PercentSlices, Growing;
    var steps := KeptSteps();
    NoSteps();
    assert [] + [steps[0]] == steps[..1] && steps[..1] + [steps[1]] == steps[..2];
    assert steps[..2] + [steps[2]] == steps[..3] && steps[..3] + [steps[3]] == steps;
    AppendTallies([], steps[0]);
    AppendTallies(steps[..1], steps[1]);
    AppendTallies(steps[..2], steps[2]);
    AppendTallies(steps[..3], steps[3]);
    FirstSlice();
    AppendGrowing(steps[..1], steps[1]);
    AppendGrowing(steps[..2], steps[2]);
    AppendGrowing(steps[..3], steps[3]);
  }

  lemma FirstSlice()
    ensures Growing(KeptSteps()[..1]) && PercentSlices(KeptSteps()[..1]) == [[BucketRange(0, 9)]]
  {
    var step := KeptSteps()[0];
    assert KeptSteps()[..1] == [] + [step];
    AppendGrowing([], step);
  }

  lemma KeptShape()
    ensures Shape(KeptStart().order)
  {
  }

  lemma KeptStarts()
    ensures JustCreated(KeptStart(), false)
  {
    hide ValidSteps;
    KeptShape();
    KeptStepsValid();
    var s := KeptStart();
    assert Definitions(s.order.steps) == KeptSteps();
    BareView(s.order, s.world, None);
  }

  /**
   * The slice can be rolled out and the base step executes, cleaning up the rule and leaving the record alone; the
   * comparison after it differs for ever, although every other step allows completion.
   */
  lemma KeptNeverMatches()
    ensures JustCreated(KeptStart(), false)
    ensures forall n :: 0 <= n < 4 ==> (StepAllows(KeptStart(), false, n) <==> n != 2)
    ensures forall requests :: ServeAll(KeptStart(), requests).order.status != Succeeded
  {
    hide ServeAll, CreatedHere, ValidSteps, View;
    var s := KeptStart();
    KeptStarts();
    KeptAllows();
    CompletableExactly(s, false);
    assert |s.order.steps| == 4 && !StepAllows(s, false, 2);
  }

  lemma KeptAllows()
    requires WellFormedOrder(KeptStart().order)
    ensures forall n :: 0 <= n < 4 ==> (StepAllows(KeptStart(), false, n) <==> n != 2)
  {
    hide ValidSteps, AgreesAt, SlicesBefore, NeedsChange, DeletesBase;
    Named();
    KeptSlice();
    KeptDiffers();
    var s := KeptStart();
    assert s.order.steps[0].definition.Type() == PercentRollout && s.order.steps[1].definition.Type() == BaseApply;
    assert s.order.steps[2].definition.Type() == Compare && s.order.steps[3].definition.Type() == Complete;
  }

  lemma KeptSlice()
    ensures SlicesBefore(KeptStart().order.steps, 1) == [[BucketRange(0, 9)]]
  {
    hide ValidSteps, PercentSlices;
    KeptStepsValid();
    assert Definitions(KeptStart().order.steps) == KeptSteps();
  }

  lemma KeptDiffers()
    requires WellFormedOrder(KeptStart().order)
    ensures KeptStart().order.steps[2].definition.Type() == Compare && !AgreesAt(KeptStart(), false, 2)
    ensures !DeletesBase(AuthorityOf(KeptStart().world), KeptStart().order.items[0])
  {
    hide SlicesBefore, SeesNoDifference;
    EqualDataNotSymmetric();
    var s := KeptStart();
    assert s.order.steps[1].definition.Type() == BaseApply && FinalBefore(s.order, false, 2);
    assert !KeptAgrees(Lookup(s.world.records, s.order.items[0].key), s.order.items[0].after);
  }
}
