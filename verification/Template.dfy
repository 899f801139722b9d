/** Release templates: the step list of an order and the compilation that accepts or refuses it. */
module Template {
  import opened Wrappers
  import opened Rollout
  import Text

  datatype StepType = ManualReview | OverlayApply | PercentRollout | BaseApply | Compare | Complete

  datatype FinalEffect = BaseFinal | OverlayFinal | OtherFinal(name: string)

  datatype SelfApprovalPolicy = DenyProduction | Allow

  datatype CompareMode = CompareEffective | CompareBase

  datatype StepParams =
    | ReviewParams(selfApproval: SelfApprovalPolicy)
    | OverlayParams
    | PercentParams(ranges: seq<BucketRange>)
    | BaseParams
    | CompareParams(mode: CompareMode, previewBucket: Option<int>)
    | CompleteParams

  datatype StepDefinition = StepDefinition(code: string, requiredRoles: seq<string>, params: StepParams) {
    function Type(): StepType {
      match params
      case ReviewParams(_) => ManualReview
      case OverlayParams => OverlayApply
      case PercentParams(_) => PercentRollout
      case BaseParams => BaseApply
      case CompareParams(_, _) => Compare
      case CompleteParams => Complete
    }
  }

  datatype CompiledTemplate = CompiledTemplate(finalEffect: FinalEffect, steps: seq<StepDefinition>)

  /** The fields of a step's params object; `unknown` says that it holds a field no step type declares. */
  datatype RawParams = RawParams(
    policy: Option<string>, cleanup: Option<bool>, ranges: Option<seq<BucketRange>>,
    mode: Option<string>, previewBucket: Option<int>, unknown: bool)

  /** A decoded step envelope; missing or undecodable params are `None`. */
  datatype RawStep = RawStep(code: string, stepType: string, roles: seq<string>, params: Option<RawParams>)

  datatype TemplateError = InvalidTemplate

  predicate StableName(s: string) {
    s != "" && s == Text.Trim(s)
  }

  predicate ValidRoles(roles: seq<string>) {
    && (forall i :: 0 <= i < |roles| ==> StableName(roles[i]))
    && (forall i, j :: 0 <= i < j < |roles| ==> roles[i] != roles[j])
  }

  /** Strict decoding: a params object may hold only the fields its step type declares. */
  predicate NoExtraFields(p: RawParams, policy: bool, cleanup: bool, ranges: bool, compare: bool) {
    && !p.unknown
    && (p.policy.Some? ==> policy) && (p.cleanup.Some? ==> cleanup) && (p.ranges.Some? ==> ranges)
    && (p.mode.Some? || p.previewBucket.Some? ==> compare)
  }

  /** The params a step compiles to, or nothing when the step is refused on its own. */
  ghost function CompileParams(raw: RawStep): Option<StepParams> {
    var p :- raw.params;
    if raw.stepType == "MANUAL_REVIEW" then
      if raw.roles == [] || !NoExtraFields(p, true, false, false, false) then None
      else if p.policy == Some("DENY_PRODUCTION") then Some(ReviewParams(DenyProduction))
      else if p.policy == Some("ALLOW") then Some(ReviewParams(Allow))
      else None
    else if raw.stepType == "BASE_APPLY" then
      if NoExtraFields(p, false, true, false, false) && p.cleanup == Some(true) then Some(BaseParams) else None
    else if raw.stepType == "OVERLAY_APPLY" then
      if NoExtraFields(p, false, false, false, false) then Some(OverlayParams) else None
    else if raw.stepType == "PERCENT_ROLLOUT" then
      if !NoExtraFields(p, false, false, true, false) then None
      else
        match Expand([], p.ranges.GetOr([]))
        case Success(ranges) => Some(PercentParams(ranges))
        case Failure(_) => None
    else if raw.stepType == "COMPARE" then
      if !NoExtraFields(p, false, false, false, true) then None
      else if p.previewBucket.Some? && !(0 <= p.previewBucket.value <= 99) then None
      else if p.mode == Some("EFFECTIVE") then Some(CompareParams(CompareEffective, p.previewBucket))
      else if p.mode == Some("BASE") then Some(CompareParams(CompareBase, p.previewBucket))
      else None
    else if raw.stepType == "COMPLETE" then
      if NoExtraFields(p, false, false, false, false) then Some(CompleteParams) else None
    else None
  }

  ghost function CompileStep(raw: Option<RawStep>): Option<StepDefinition> {
    var step :- raw;
    if !StableName(step.code) || !ValidRoles(step.roles) then None
    else
      var params :- CompileParams(step);
      Some(StepDefinition(step.code, step.roles, params))
  }

  ghost function CompileSteps(raws: seq<Option<RawStep>>): Option<seq<StepDefinition>> {
    if raws == [] then Some([])
    else
      var before :- CompileSteps(raws[..|raws| - 1]);
      var last :- CompileStep(raws[|raws| - 1]);
      Some(before + [last])
  }

  function CountType(steps: seq<StepDefinition>, t: StepType): nat {
    if steps == [] then 0
    else CountType(steps[..|steps| - 1], t) + if steps[|steps| - 1].Type() == t then 1 else 0
  }

  /** The slices of the percentage steps, in step order. */
  function PercentSlices(steps: seq<StepDefinition>): seq<seq<BucketRange>> {
    if steps == [] then []
    else
      var before, last := PercentSlices(steps[..|steps| - 1]), steps[|steps| - 1];
      if last.params.PercentParams? then before + [last.params.ranges] else before
  }

  ghost predicate DistinctCodes(steps: seq<StepDefinition>) {
    forall i, j :: 0 <= i < j < |steps| ==> steps[i].code != steps[j].code
  }

  ghost predicate PercentBeforeBase(steps: seq<StepDefinition>) {
    forall i, j :: 0 <= i < j < |steps| && steps[i].Type() == BaseApply ==> steps[j].Type() != PercentRollout
  }

  /** The part of the promise that every prefix of a step list already keeps. */
  ghost predicate Growing(steps: seq<StepDefinition>) {
    DistinctCodes(steps) && SlicesApart(PercentSlices(steps)) && PercentBeforeBase(steps)
  }

  /** What a compiled step list promises: stable distinct codes, disjoint canonical slices, ordering and counts. */
  ghost predicate ValidSteps(finalEffect: FinalEffect, steps: seq<StepDefinition>) {
    && steps != []
    && Growing(steps)
    && CountType(steps, Complete) == 1 && steps[|steps| - 1].Type() == Complete
    && match finalEffect
       case BaseFinal => CountType(steps, BaseApply) == 1 && CountType(steps, OverlayApply) == 0
       case OverlayFinal => CountType(steps, OverlayApply) == 1 && CountType(steps, BaseApply) == 0
                            && CountType(steps, PercentRollout) == 0
       case OtherFinal(_) => false
  }

  lemma {:induction false} PrefixCompiled(raws: seq<Option<RawStep>>, n: nat)
    requires n <= |raws|
    ensures CompileSteps(raws).Some? ==>
              && |CompileSteps(raws).value| == |raws|
              && CompileSteps(raws[..n]) == Some(CompileSteps(raws).value[..n])
    decreases |raws|
  {
    if raws == [] {
      assert raws[..n] == raws;
    } else if CompileSteps(raws).Some? {
      var init := raws[..|raws| - 1];
      PrefixCompiled(init, if n < |raws| then n else n - 1);
      if n == |raws| {
        assert raws[..n] == raws;
        assert CompileSteps(raws).value[..n] == CompileSteps(raws).value;
      } else {
        assert init[..n] == raws[..n];
        assert CompileSteps(raws).value[..n] == CompileSteps(init).value[..n];
      }
    }
  }

  lemma {:induction false} PrefixSlices(steps: seq<StepDefinition>, n: nat)
    requires n <= |steps|
    ensures PercentSlices(steps[..n]) <= PercentSlices(steps)
    decreases |steps|
  {
    if n == |steps| {
      assert steps[..n] == steps;
    } else {
      PrefixSlices(steps[..|steps| - 1], n);
      assert steps[..|steps| - 1][..n] == steps[..n];
    }
  }

  lemma PrefixGrowing(steps: seq<StepDefinition>, n: nat)
    requires n <= |steps| && Growing(steps)
    ensures Growing(steps[..n])
  {
    PrefixSlices(steps, n);
    var before, all := PercentSlices(steps[..n]), PercentSlices(steps);
    forall i | 0 <= i < |before| ensures before[i] != [] && WellFormed(before[i]) { assert before[i] == all[i]; }
    forall i, j | 0 <= i < j < |before| ensures Buckets(before[i]) !! Buckets(before[j]) {
      assert before[i] == all[i] && before[j] == all[j];
    }
  }

  /** An accepted document has acceptable prefixes, so refusing a prefix refuses the document. */
  lemma PrefixAccepted(raws: seq<Option<RawStep>>, n: nat, finalEffect: FinalEffect)
    requires n <= |raws|
    ensures CompileSteps(raws).Some? && ValidSteps(finalEffect, CompileSteps(raws).value) ==>
              CompileSteps(raws[..n]).Some? && Growing(CompileSteps(raws[..n]).value)
  {
    PrefixCompiled(raws, n);
    if CompileSteps(raws).Some? && ValidSteps(finalEffect, CompileSteps(raws).value) {
      PrefixGrowing(CompileSteps(raws).value, n);
    }
  }

  function Codes(steps: seq<StepDefinition>): set<string> {
    set step | step in steps :: step.code
  }

  ghost predicate HasType(steps: seq<StepDefinition>, t: StepType) {
    exists step :: step in steps && step.Type() == t
  }

  /** When one more step keeps the promise of the steps before it. */
  lemma AppendGrowing(steps: seq<StepDefinition>, step: StepDefinition)
    requires Growing(steps)
    ensures PercentSlices(steps + [step]) ==
            if step.params.PercentParams? then PercentSlices(steps) + [step.params.ranges] else PercentSlices(steps)
    ensures Growing(steps + [step]) <==>
            && step.code !in Codes(steps)
            && (step.Type() == PercentRollout ==>
                 !HasType(steps, BaseApply) && SlicesApart(PercentSlices(steps + [step])))
  {
    var all := steps + [step];
    assert all[..|steps|] == steps && all[|steps|] == step;
    if step.code !in Codes(steps) {
      forall i, j | 0 <= i < j < |all| ensures all[i].code != all[j].code {
        if j == |steps| { assert all[i] in steps; }
      }
    } else {
      var i :| 0 <= i < |steps| && steps[i].code == step.code;
      assert all[i].code == all[|steps|].code;
    }
    if step.Type() == PercentRollout && HasType(steps, BaseApply) {
      var i :| 0 <= i < |steps| && steps[i].Type() == BaseApply;
      assert all[i].Type() == BaseApply && all[|steps|].Type() == PercentRollout;
    } else {
      forall i, j | 0 <= i < j < |all| && all[i].Type() == BaseApply ensures all[j].Type() != PercentRollout {
        if j == |steps| { assert all[i] in steps; }
      }
    }
  }

  /** The running union of the percentage slices: it grows exactly while the slices stay disjoint. */
  method GrowUnion(ghost slices: seq<seq<BucketRange>>, union: seq<BucketRange>, ranges: seq<BucketRange>)
    returns (r: Result<seq<BucketRange>, RolloutError>)
    requires ExpandAll([], slices) == Success(union)
    ensures r == ExpandAll([], slices + [ranges])
    ensures r.Success? <==> SlicesApart(slices + [ranges])
  {
    assert (slices + [ranges])[..|slices|] == slices;
    ExpandAllMeaning([], slices + [ranges]);
    r := ExpandRolloutRanges(union, ranges);
  }

  /** The variables of the compile loop. */
  datatype Progress = Progress(
    steps: seq<StepDefinition>, seenCodes: set<string>, seenBaseApply: bool, rolloutUnion: seq<BucketRange>,
    baseCount: nat, overlayCount: nat, percentCount: nat, completeCount: nat)

  ghost predicate Tallied(p: Progress) {
    && Growing(p.steps)
    && p.seenCodes == Codes(p.steps)
    && (p.seenBaseApply <==> HasType(p.steps, BaseApply))
    && ExpandAll([], PercentSlices(p.steps)) == Success(p.rolloutUnion)
    && p.baseCount == CountType(p.steps, BaseApply) && p.overlayCount == CountType(p.steps, OverlayApply)
    && p.percentCount == CountType(p.steps, PercentRollout) && p.completeCount == CountType(p.steps, Complete)
  }

  lemma AppendTallies(steps: seq<StepDefinition>, step: StepDefinition)
    ensures forall t :: CountType(steps + [step], t) == CountType(steps, t) + if step.Type() == t then 1 else 0
    ensures Codes(steps + [step]) == Codes(steps) + {step.code}
    ensures forall t :: HasType(steps + [step], t) <==> HasType(steps, t) || step.Type() == t
  {
    assert (steps + [step])[..|steps|] == steps;
    forall t ensures HasType(steps + [step], t) <==> HasType(steps, t) || step.Type() == t {
      if HasType(steps, t) {
        var s :| s in steps && s.Type() == t;
        assert s in steps + [step];
      }
      if step.Type() == t { assert step in steps + [step]; }
    }
  }

  /** The union after one more step, or nothing when its slice overlaps or comes after BASE_APPLY. */
  method NextUnion(p: Progress, step: StepDefinition) returns (r: Result<seq<BucketRange>, TemplateError>)
    requires Tallied(p) && step.code !in p.seenCodes
    ensures r.Success? <==> Growing(p.steps + [step])
    ensures r.Success? ==> ExpandAll([], PercentSlices(p.steps + [step])) == Success(r.value)
  {
    AppendGrowing(p.steps, step);
    if !step.params.PercentParams? { return Success(p.rolloutUnion); }
    if p.seenBaseApply { return Failure(InvalidTemplate); }
    var grown := GrowUnion(PercentSlices(p.steps), p.rolloutUnion, step.params.ranges);
    if grown.Failure? { return Failure(InvalidTemplate); }
    return Success(grown.value);
  }

  /** The loop body for one decoded step: refuses a repeated code, a late percentage step or an overlapping slice. */
  method TakeStep(p: Progress, step: StepDefinition) returns (r: Result<Progress, TemplateError>)
    requires Tallied(p)
    ensures r.Success? ==> Tallied(r.value) && r.value.steps == p.steps + [step]
    ensures r.Failure? ==> !Growing(p.steps + [step])
  {
    hide Growing, SlicesApart, CountType, HasType, ExpandAll, Codes, PercentSlices;
    AppendGrowing(p.steps, step);
    if step.code in p.seenCodes { return Failure(InvalidTemplate); }
    var union := NextUnion(p, step);
    if union.Failure? { return Failure(InvalidTemplate); }
    AppendTallies(p.steps, step);
    var t := step.Type();
    return Success(Progress(
      p.steps + [step], p.seenCodes + {step.code}, p.seenBaseApply || t == BaseApply, union.value,
      if t == BaseApply then p.baseCount + 1 else p.baseCount,
      if t == OverlayApply then p.overlayCount + 1 else p.overlayCount,
      if t == PercentRollout then p.percentCount + 1 else p.percentCount,
      if t == Complete then p.completeCount + 1 else p.completeCount));
  }

  lemma NothingTallied()
    ensures Tallied(Progress([], {}, false, [], 0, 0, 0, 0))
  {
  }

  lemma RefusedAtOnce(document: Option<seq<Option<RawStep>>>, finalEffect: FinalEffect)
    ensures finalEffect.OtherFinal? ==> forall steps :: !ValidSteps(finalEffect, steps)
    ensures !ValidSteps(finalEffect, [])
  {
  }

  /** The counters and the last step decide, once every prefix has been accepted. */
  lemma CountsDecide(p: Progress, finalEffect: FinalEffect)
    requires Tallied(p) && p.steps != []
    ensures ValidSteps(finalEffect, p.steps) <==>
              && p.completeCount == 1 && p.steps[|p.steps| - 1].Type() == Complete
              && match finalEffect
                 case BaseFinal => p.baseCount == 1 && p.overlayCount == 0
                 case OverlayFinal => p.overlayCount == 1 && p.baseCount == 0 && p.percentCount == 0
                 case OtherFinal(_) => false
  {
    hide Growing;
  }

  method CompileTemplate(document: Option<seq<Option<RawStep>>>, finalEffect: FinalEffect)
    returns (r: Result<CompiledTemplate, TemplateError>)
    ensures r.Success? <==> document.Some? && CompileSteps(document.value).Some?
                            && ValidSteps(finalEffect, CompileSteps(document.value).value)
    ensures r.Success? ==> r.value == CompiledTemplate(finalEffect, CompileSteps(document.value).value)
  {
    hide Tallied, Growing, ValidSteps, CountType;
    NothingTallied();
    RefusedAtOnce(document, finalEffect);
    if finalEffect.OtherFinal? || document.None? || |document.value| == 0 { return Failure(InvalidTemplate); }
    var raws := document.value;
    var p := Progress([], {}, false, [], 0, 0, 0, 0);
    for n := 0 to |raws|
      invariant CompileSteps(raws[..n]) == Some(p.steps) && |p.steps| == n
      invariant Tallied(p)
    {
      assert raws[..n + 1][..n] == raws[..n];
      PrefixAccepted(raws, n + 1, finalEffect);
      if raws[n].None? { return Failure(InvalidTemplate); }
      var compiled := CompileOne(raws[n].value);
      if compiled.Failure? { return Failure(InvalidTemplate); }
      var taken := TakeStep(p, compiled.value);
      if taken.Failure? { return Failure(InvalidTemplate); }
      p := taken.value;
    }
    assert raws[..|raws|] == raws;
    CountsDecide(p, finalEffect);
    if p.completeCount != 1 || p.steps[|p.steps| - 1].Type() != Complete { return Failure(InvalidTemplate); }
    if finalEffect == BaseFinal && (p.baseCount != 1 || p.overlayCount != 0) { return Failure(InvalidTemplate); }
    if finalEffect == OverlayFinal && (p.overlayCount != 1 || p.baseCount != 0 || p.percentCount != 0) {
      return Failure(InvalidTemplate);
    }
    return Success(CompiledTemplate(finalEffect, p.steps));
  }

  /** One step on its own: code, roles and strictly decoded params. */
  method CompileOne(raw: RawStep) returns (r: Result<StepDefinition, TemplateError>)
    ensures match CompileStep(Some(raw)) case Some(step) => r == Success(step) case None => r.Failure?
  {
    if !StableName(raw.code) || !ValidRoles(raw.roles) || raw.params.None? { return Failure(InvalidTemplate); }
    var p := raw.params.value;
    match raw.stepType {
      case "MANUAL_REVIEW" =>
        if |raw.roles| == 0 || !NoExtraFields(p, true, false, false, false) { return Failure(InvalidTemplate); }
        if p.policy == Some("DENY_PRODUCTION") {
          return Success(StepDefinition(raw.code, raw.roles, ReviewParams(DenyProduction)));
        }
        if p.policy == Some("ALLOW") { return Success(StepDefinition(raw.code, raw.roles, ReviewParams(Allow))); }
        return Failure(InvalidTemplate);
      case "BASE_APPLY" =>
        if !NoExtraFields(p, false, true, false, false) || !p.cleanup.GetOr(false) { return Failure(InvalidTemplate); }
        return Success(StepDefinition(raw.code, raw.roles, BaseParams));
      case "OVERLAY_APPLY" =>
        if !NoExtraFields(p, false, false, false, false) { return Failure(InvalidTemplate); }
        return Success(StepDefinition(raw.code, raw.roles, OverlayParams));
      case "PERCENT_ROLLOUT" =>
        if !NoExtraFields(p, false, false, true, false) { return Failure(InvalidTemplate); }
        var canonical := ExpandRolloutRanges([], p.ranges.GetOr([]));
        if canonical.Failure? { return Failure(InvalidTemplate); }
        return Success(StepDefinition(raw.code, raw.roles, PercentParams(canonical.value)));
      case "COMPARE" =>
        if !NoExtraFields(p, false, false, false, true) { return Failure(InvalidTemplate); }
        if p.mode != Some("EFFECTIVE") && p.mode != Some("BASE") { return Failure(InvalidTemplate); }
        if p.previewBucket.Some? && (p.previewBucket.value < 0 || p.previewBucket.value > 99) {
          return Failure(InvalidTemplate);
        }
        var mode := if p.mode == Some("EFFECTIVE") then CompareEffective else CompareBase;
        return Success(StepDefinition(raw.code, raw.roles, CompareParams(mode, p.previewBucket)));
      case "COMPLETE" =>
        if !NoExtraFields(p, false, false, false, false) { return Failure(InvalidTemplate); }
        return Success(StepDefinition(raw.code, raw.roles, CompleteParams));
      case _ =>
        return Failure(InvalidTemplate);
    }
  }
}
