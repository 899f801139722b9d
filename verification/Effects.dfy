/** Step effects: what an executed step changed, and the validation every stored or planned effect must pass. */
module Effects {
  import opened Wrappers
  import opened Catalog
  import opened Overlay
  import opened Rollout
  import Text

  datatype ChangeAction = Add | Modify | Delete

  datatype BaseChange = BaseChange(action: ChangeAction, before: Option<Record>, after: Option<Record>)

  datatype RuleChange = RuleChange(key: string, previous: Option<Rule>, next: Option<Rule>)

  datatype BaseEffect = BaseEffect(
    version: int, collection: string, scope: Scope, previousRevision: nat, appliedRevision: nat,
    changes: seq<BaseChange>, overlayChanges: seq<RuleChange>, executedAt: int, executedBy: string)

  datatype OverlayEffect = OverlayEffect(
    version: int, collection: string, scope: Scope, previousRevision: nat, appliedRevision: nat,
    changes: seq<RuleChange>, executedAt: int, executedBy: string)

  datatype PercentEffect = PercentEffect(
    version: int, collection: string, scope: Scope, previousRevision: nat, appliedRevision: nat,
    addedRanges: seq<BucketRange>, changes: seq<RuleChange>, executedAt: int, executedBy: string)

  datatype EffectType = BaseType | OverlayType | PercentType | OtherType(name: string)

  /** The stored union: a type tag and three payload pointers that need not agree. */
  datatype Envelope = Envelope(
    version: int, effectType: EffectType,
    overlay: Option<OverlayEffect>, percent: Option<PercentEffect>, base: Option<BaseEffect>)

  const EFFECT_VERSION := 1

  /** The zero instant: an unset time. */
  const ZERO_TIME := 0

  predicate ValidIdentity(version: int, collection: string, scope: Scope, previous: nat, applied: nat, actor: string,
                          at: int) {
    && version == EFFECT_VERSION
    && !Text.Blank(collection) && !Text.Blank(scope.region) && !Text.Blank(scope.environment)
    && !Text.Blank(actor) && at != ZERO_TIME
    && 0 < previous < applied
  }

  predicate ValidRuleChange(change: RuleChange) {
    !Text.Blank(change.key) && (change.previous.Some? || change.next.Some?)
  }

  predicate ValidRuleChanges(changes: seq<RuleChange>, allowEmpty: bool) {
    (changes != [] || allowEmpty) && forall i :: 0 <= i < |changes| ==> ValidRuleChange(changes[i])
  }

  predicate ValidBaseChange(change: BaseChange) {
    match change.action
    case Add => change.before.None? && change.after.Some?
    case Modify => change.before.Some? && change.after.Some?
    case Delete => change.before.Some? && change.after.None?
  }

  predicate ValidBaseEffect(e: BaseEffect) {
    && ValidIdentity(e.version, e.collection, e.scope, e.previousRevision, e.appliedRevision, e.executedBy,
                     e.executedAt)
    && (e.changes != [] || e.overlayChanges != [])
    && (forall i :: 0 <= i < |e.changes| ==> ValidBaseChange(e.changes[i]))
    && ValidRuleChanges(e.overlayChanges, true)
  }

  predicate ValidOverlayEffect(e: OverlayEffect) {
    && ValidIdentity(e.version, e.collection, e.scope, e.previousRevision, e.appliedRevision, e.executedBy,
                     e.executedAt)
    && !Text.Blank(e.scope.stage)
    && ValidRuleChanges(e.changes, false)
  }

  predicate ValidPercentEffect(e: PercentEffect) {
    && ValidIdentity(e.version, e.collection, e.scope, e.previousRevision, e.appliedRevision, e.executedBy,
                     e.executedAt)
    && !Text.Blank(e.scope.stage) && e.addedRanges != []
    && (forall i :: 0 <= i < |e.addedRanges| ==> InBounds(e.addedRanges[i]))
    && ValidRuleChanges(e.changes, false)
  }

  /** ValidateStepEffect: one payload, matching the tag, and valid. */
  predicate ValidEnvelope(e: Envelope) {
    && e.version == EFFECT_VERSION
    && match e.effectType
       case BaseType => e.base.Some? && e.overlay.None? && e.percent.None? && ValidBaseEffect(e.base.value)
       case OverlayType => e.overlay.Some? && e.base.None? && e.percent.None? && ValidOverlayEffect(e.overlay.value)
       case PercentType => e.percent.Some? && e.base.None? && e.overlay.None? && ValidPercentEffect(e.percent.value)
       case OtherType(_) => false
  }

  /** What one valid effect does, whatever its type. */
  datatype Delta = Delta(
    collection: string, scope: Scope, previousRevision: nat, appliedRevision: nat,
    changes: seq<BaseChange>, overlayChanges: seq<RuleChange>)

  function DeltaOf(e: Envelope): Delta
    requires ValidEnvelope(e)
  {
    match e.effectType
    case BaseType =>
      var b := e.base.value;
      Delta(b.collection, b.scope, b.previousRevision, b.appliedRevision, b.changes, b.overlayChanges)
    case OverlayType =>
      var o := e.overlay.value;
      Delta(o.collection, o.scope, o.previousRevision, o.appliedRevision, [], o.changes)
    case PercentType =>
      var p := e.percent.value;
      Delta(p.collection, p.scope, p.previousRevision, p.appliedRevision, [], p.changes)
  }

  /**
   * The validator as the code runs it: it counts the payloads first, then looks at the tag, then checks
   * the payload, and stops at the first fault.
   */
  method ValidateStepEffect(effect: Option<Envelope>) returns (ok: bool)
    ensures ok <==> effect.Some? && ValidEnvelope(effect.value)
  {
    if effect.None? || effect.value.version != EFFECT_VERSION { return false; }
    var e, payloads := effect.value, 0;
    if e.base.Some? { payloads := payloads + 1; }
    if e.overlay.Some? { payloads := payloads + 1; }
    if e.percent.Some? { payloads := payloads + 1; }
    if payloads != 1 { return false; }
    match e.effectType {
      case BaseType =>
        if e.base.None? { return false; }
        return ValidBaseEffect(e.base.value);
      case OverlayType =>
        if e.overlay.None? { return false; }
        return ValidOverlayEffect(e.overlay.value);
      case PercentType =>
        if e.percent.None? { return false; }
        return ValidPercentEffect(e.percent.value);
      case OtherType(_) =>
        return false;
    }
  }
}
