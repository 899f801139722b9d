/** The release order aggregate as a value, and what each operation on it means. */
module OrderState {
  import opened Wrappers
  import opened Catalog
  import opened Overlay
  import opened Rollout
  import opened Template
  import opened Effects
  import Text

  datatype Error = Invalid | Aborted | FailedPrecondition | Forbidden | KeyReused | Internal

  datatype OrderStatus = InProgress | Succeeded | OrderRolledBack | OrderRejected

  datatype ItemStatus = ItemPending | ItemApplied | ItemRolledBack

  datatype StepStatus = Pending | Executing | Executed | Approved | Rejected | RolledBack

  datatype ApprovalStatus = ApprovalPending | ApprovalApproved | ApprovalRejected

  datatype Principal = Principal(subject: string, roles: seq<string>)

  datatype Approval = Approval(
    status: ApprovalStatus, requestedAt: int, requestedBy: string, decidedAt: Option<int>, decidedBy: string,
    comment: string)

  datatype CompareResult = CompareResult(expected: Digest, actual: Digest, diffKeys: seq<string>, checkedAt: int)

  datatype StepState = StepState(
    definition: StepDefinition, status: StepStatus, approval: Option<Approval>, effect: Option<Envelope>,
    compareResult: Option<CompareResult>, executedAt: Option<int>, executedBy: string,
    rolledBackAt: Option<int>, rolledBackBy: string)

  /** The key that excludes a second active order on the same target; distinct targets have distinct keys. */
  datatype ConflictKey =
    | BaseConflict(collection: string, environment: string, key: string)
    | OverlayConflict(collection: string, scope: Scope, key: string)

  datatype Item = Item(
    id: string, action: ChangeAction, collection: string, key: string,
    baseBefore: Option<Record>, effectiveBefore: Option<Record>, after: Option<Record>,
    expectedRecordRevision: nat, expectedCollectionRevision: nat,
    status: ItemStatus, conflictKey: Option<ConflictKey>)

  datatype Order = Order(
    id: string, scope: Scope, createdBy: string, status: OrderStatus, revision: nat, currentStep: nat,
    steps: seq<StepState>, items: seq<Item>, completedAt: Option<int>, updatedBy: string, updatedAt: int)

  /** The facts an operation reads about the collection and exact scope of the order. */
  datatype Authority = Authority(revision: nat, records: map<string, Record>, rules: map<string, Rule>)

  // ----- well-formedness -----

  predicate SameTarget(record: Option<Record>, collection: string, environment: string, key: string) {
    record.Some? ==>
      record.value.collection == collection && record.value.environment == environment && record.value.key == key
  }

  predicate WellFormedItem(item: Item, collection: string, scope: Scope) {
    && item.collection == collection && collection != "" && item.key != ""
    && SameTarget(item.baseBefore, collection, scope.environment, item.key)
    && SameTarget(item.effectiveBefore, collection, scope.environment, item.key)
    && SameTarget(item.after, collection, scope.environment, item.key)
    && item.expectedCollectionRevision > 0
  }

  predicate DistinctKeys(items: seq<Item>) {
    forall i, j :: 0 <= i < j < |items| ==> items[i].key != items[j].key
  }

  /** What the constructors establish and every restore checks or inherits: steps, items, one target per item. */
  predicate WellFormedOrder(o: Order) {
    && o.currentStep < |o.steps| && o.items != []
    && (forall i :: 0 <= i < |o.items| ==> WellFormedItem(o.items[i], o.items[0].collection, o.scope))
    && DistinctKeys(o.items)
  }

  // ----- construction -----

  function NewStep(definition: StepDefinition): StepState {
    StepState(definition, Pending, None, None, None, None, "", None, "")
  }

  /** A template without steps (the zero template) stands for BASE_APPLY followed by COMPLETE. */
  function BaseFinalSteps(template: CompiledTemplate): seq<StepDefinition> {
    if template.steps == []
    then [StepDefinition("base-apply", [], BaseParams), StepDefinition("complete", [], CompleteParams)]
    else template.steps
  }

  function NewSteps(definitions: seq<StepDefinition>): seq<StepState> {
    seq(|definitions|, i requires 0 <= i < |definitions| => NewStep(definitions[i]))
  }

  datatype ItemSpec = ItemSpec(
    id: string, action: ChangeAction, baseBefore: Option<Record>, effectiveBefore: Option<Record>,
    after: Option<Record>,
    expectedRecordRevision: nat, expectedCollectionRevision: nat)

  datatype OrderSpec = OrderSpec(
    id: string, compensatesOrderId: string, scope: Scope, createdBy: string, createdAt: int,
    items: seq<ItemSpec>, template: CompiledTemplate)

  function TrimScope(scope: Scope): Scope {
    Scope(Text.Trim(scope.region), Text.Trim(scope.environment), Text.Trim(scope.stage))
  }

  function BaseTarget(item: ItemSpec): Option<Record> {
    if item.action == Delete then
      if item.effectiveBefore.Some? then item.effectiveBefore else item.baseBefore
    else item.after
  }

  predicate ValidBaseShape(item: ItemSpec) {
    match item.action
    case Add => item.baseBefore.None? && item.effectiveBefore.None? && item.after.Some?
                && item.expectedRecordRevision == 0
    case Modify => item.baseBefore.Some? && item.effectiveBefore.Some? && item.after.Some?
                   && item.expectedRecordRevision > 0
    case Delete => item.baseBefore.Some? && item.effectiveBefore.Some? && item.after.None?
                   && item.expectedRecordRevision > 0
  }

  function OverlayTarget(item: ItemSpec): Option<Record> {
    if item.after.Some? then item.after else item.effectiveBefore
  }

  predicate ValidOverlayShape(item: ItemSpec) {
    && item.expectedCollectionRevision > 0
    && (item.baseBefore.None? <==> item.expectedRecordRevision == 0)
    && match item.action
       case Add => item.effectiveBefore.None? && item.after.Some?
       case Modify => item.effectiveBefore.Some? && item.after.Some?
       case Delete => item.effectiveBefore.Some? && item.after.None?
  }

  /** The per-item checks both constructors make once they know the target. */
  predicate ItemTargets(item: ItemSpec, target: Option<Record>, collection: string, scope: Scope) {
    && !Text.Blank(item.id) && target.Some? && target.value.collection != "" && target.value.key != ""
    && target.value.collection == collection && target.value.environment == scope.environment
    && SameTarget(item.baseBefore, collection, scope.environment, target.value.key)
    && SameTarget(item.effectiveBefore, collection, scope.environment, target.value.key)
    && SameTarget(item.after, collection, scope.environment, target.value.key)
  }

  function TargetOf(overlay: bool, item: ItemSpec): Option<Record> {
    if overlay then OverlayTarget(item) else BaseTarget(item)
  }

  function TargetKey(overlay: bool, item: ItemSpec): string {
    match TargetOf(overlay, item)
    case Some(target) => target.key
    case None => ""
  }

  predicate AcceptsItem(overlay: bool, spec: OrderSpec, scope: Scope, collection: string, i: nat)
    requires i < |spec.items|
  {
    var item := spec.items[i];
    && ItemTargets(item, TargetOf(overlay, item), collection, scope)
    && (if overlay then ValidOverlayShape(item)
        else ValidBaseShape(item) && item.expectedCollectionRevision > 0
             && item.expectedCollectionRevision == spec.items[0].expectedCollectionRevision)
  }

  predicate AcceptsSpec(overlay: bool, spec: OrderSpec) {
    var scope := TrimScope(spec.scope);
    && !Text.Blank(spec.id) && Text.Trim(spec.compensatesOrderId) != Text.Trim(spec.id)
    && scope.region != "" && scope.environment != "" && (overlay ==> scope.stage != "")
    && !Text.Blank(spec.createdBy) && spec.createdAt != ZERO_TIME
    && 0 < |spec.items| <= 500
    && (overlay ==> spec.template.finalEffect == OverlayFinal)
    && TargetOf(overlay, spec.items[0]).Some?
    && var collection := TargetOf(overlay, spec.items[0]).value.collection;
    && (forall i :: 0 <= i < |spec.items| ==> AcceptsItem(overlay, spec, scope, collection, i))
    && (forall i, j :: 0 <= i < j < |spec.items| ==>
          TargetKey(overlay, spec.items[i]) != TargetKey(overlay, spec.items[j]))
  }

  function NewItem(overlay: bool, item: ItemSpec, collection: string, scope: Scope): Item
    requires TargetOf(overlay, item).Some?
  {
    var key := TargetOf(overlay, item).value.key;
    Item(item.id, item.action, collection, key, item.baseBefore, item.effectiveBefore, item.after,
         item.expectedRecordRevision, item.expectedCollectionRevision, ItemPending,
         Some(if overlay then OverlayConflict(collection, scope, key) else BaseConflict(collection, scope.environment,
                 key)))
  }

  /** NewBaseFinalOrder (`overlay` false) and NewOverlayFinalOrder (`overlay` true). */
  function NewOrder(overlay: bool, spec: OrderSpec): Result<Order, Error> {
    if !AcceptsSpec(overlay, spec) then Failure(Invalid)
    else
      var scope := TrimScope(spec.scope);
      var collection := TargetOf(overlay, spec.items[0]).value.collection;
      var definitions := if overlay then spec.template.steps else BaseFinalSteps(spec.template);
      var items := seq(|spec.items|, i requires 0 <= i < |spec.items| =>
        assert AcceptsItem(overlay, spec, scope, collection, i);
        NewItem(overlay, spec.items[i], collection, scope));
      Success(Order(spec.id, scope, spec.createdBy, InProgress, 1, 0, NewSteps(definitions), items, None,
                    spec.createdBy, spec.createdAt))
  }

  // ----- shared pieces of the operations -----

  predicate AtStep(o: Order, t: StepType, status: StepStatus)
    requires o.currentStep < |o.steps|
  {
    o.status == InProgress && o.steps[o.currentStep].definition.Type() == t && o.steps[o.currentStep].status == status
  }

  function Bump(o: Order, actor: string, at: int): Order {
    o.(revision := o.revision + 1, updatedBy := actor, updatedAt := at)
  }

  function SetStep(o: Order, step: StepState): Order
    requires o.currentStep < |o.steps|
  {
    o.(steps := o.steps[o.currentStep := step])
  }

  /** Every item settled: its status set and its conflict key released. */
  function Settle(items: seq<Item>, status: ItemStatus): (r: seq<Item>)
    ensures |r| == |items|
  {
    seq(|items|, i requires 0 <= i < |items| => items[i].(status := status, conflictKey := None))
  }

  function Release(items: seq<Item>): (r: seq<Item>)
    ensures |r| == |items|
  {
    seq(|items|, i requires 0 <= i < |items| => items[i].(conflictKey := None))
  }

  function Finish(o: Order, status: OrderStatus, actor: string, at: int): Order {
    Bump(o.(status := status, completedAt := Some(at)), actor, at)
  }

  // ----- manual review -----

  function ExecuteManualReview(o: Order, expected: nat, actor: string, at: int): Result<Order, Error>
    requires WellFormedOrder(o)
  {
    if o.revision != expected then Failure(Aborted)
    else if !AtStep(o, ManualReview, Pending) then Failure(Invalid)
    else if Text.Blank(actor) || at == ZERO_TIME then Failure(Invalid)
    else
      var step := o.steps[o.currentStep].(
        status := Executing, approval := Some(Approval(ApprovalPending, at, actor, None, "", "")));
      Success(Bump(SetStep(o, step), actor, at))
  }

  predicate HasRequiredRole(actual: seq<string>, required: seq<string>) {
    exists i :: 0 <= i < |required| && required[i] in actual
  }

  function AuthorizeDecision(o: Order, expected: nat, principal: Principal, at: int): Option<Error>
    requires WellFormedOrder(o)
  {
    if o.revision != expected then Some(Aborted)
    else if !AtStep(o, ManualReview, Executing) then Some(Invalid)
    else if Text.Blank(principal.subject) || at == ZERO_TIME then Some(Invalid)
    else
      var step := o.steps[o.currentStep].definition;
      if !HasRequiredRole(principal.roles, step.requiredRoles) then Some(Forbidden)
      else if step.params.selfApproval == DenyProduction && o.scope.environment == "production"
              && Text.Trim(principal.subject) == o.createdBy
      then Some(Forbidden)
      else None
  }

  function Decide(o: Order, step: StepStatus, status: ApprovalStatus, subject: string, comment: string, at: int): Order
    requires WellFormedOrder(o) && o.steps[o.currentStep].approval.Some?
  {
    var approval := o.steps[o.currentStep].approval.value.(
      status := status, decidedAt := Some(at), decidedBy := subject, comment := comment);
    SetStep(o, o.steps[o.currentStep].(status := step, approval := Some(approval)))
  }

  function ApproveManualReview(o: Order, expected: nat, principal: Principal, comment: string,
                               at: int): Result<Order, Error>
    requires WellFormedOrder(o) && ReviewsHaveApproval(o)
  {
    match AuthorizeDecision(o, expected, principal, at)
    case Some(error) => Failure(error)
    case None => Success(Bump(Decide(o, Approved, ApprovalApproved, principal.subject, comment, at), principal.subject,
                              at))
  }

  function RejectManualReview(o: Order, expected: nat, principal: Principal, comment: string,
                              at: int): Result<Order, Error>
    requires WellFormedOrder(o) && ReviewsHaveApproval(o)
  {
    if Text.Blank(comment) then Failure(Invalid)
    else match AuthorizeDecision(o, expected, principal, at)
      case Some(error) => Failure(error)
      case None =>
        var decided := Decide(o, Rejected, ApprovalRejected, principal.subject, comment, at);
        Success(Finish(decided.(items := Release(o.items)), OrderRejected, principal.subject, at))
  }

  /** A review that is being executed has an approval to decide. */
  predicate ReviewsHaveApproval(o: Order) {
    forall i :: 0 <= i < |o.steps| && o.steps[i].status == Executing ==> o.steps[i].approval.Some?
  }

  // ----- executing a configuration step -----

  function LastPercent(steps: seq<StepState>, n: nat): Option<PercentEffect>
    requires n <= |steps|
  {
    if n == 0 then None
    else if steps[n - 1].effect.Some? && steps[n - 1].effect.value.percent.Some? then steps[n - 1].effect.value.percent
    else LastPercent(steps, n - 1)
  }

  /** The collection revision a base or percentage step insists on. */
  function ExpectedRevision(o: Order): nat
    requires WellFormedOrder(o)
  {
    match LastPercent(o.steps, o.currentStep)
    case Some(effect) => effect.appliedRevision
    case None => o.items[0].expectedCollectionRevision
  }

  function RecordEffect(o: Order, effect: Envelope, actor: string, at: int): Order
    requires WellFormedOrder(o)
  {
    var step := o.steps[o.currentStep].(
      status := Executed, executedAt := Some(at), executedBy := actor, effect := Some(effect));
    Bump(SetStep(o, step), actor, at)
  }

  function CloneOption(rule: Option<Rule>): Option<Rule> {
    match rule case None => None case Some(r) => Some(Clone(r))
  }

  predicate RuleTargets(rule: Rule, item: Item, scope: Scope) {
    rule.collection == item.collection && rule.key == item.key && rule.scope == scope
  }

  function BaseItemChanges(existing: Option<Record>, item: Item): seq<BaseChange> {
    match (existing, item.after)
    case (None, Some(after)) => [BaseChange(Add, None, Some(after))]
    case (Some(before), None) => [BaseChange(Delete, Some(before), None)]
    case (Some(before), Some(after)) =>
      if EqualData(before.data, after.data) then [] else [BaseChange(Modify, Some(before), Some(after))]
    case (None, None) => []
  }

  /** One target of a base step: its record change, if any, and the rule it cleans up, if any. */
  function BaseItem(o: Order, a: Authority, hasPercent: bool, item: Item)
    : Result<(seq<BaseChange>, seq<RuleChange>), Error>
  {
    var existing := Lookup(a.records, item.key);
    if item.expectedRecordRevision == 0 && existing.Some? then Failure(Aborted)
    else if item.expectedRecordRevision != 0
            && (existing.None? || existing.value.revision != item.expectedRecordRevision || item.baseBefore.None?
                || !EqualData(existing.value.data, item.baseBefore.value.data))
    then Failure(Aborted)
    else
      var rule := CloneOption(Lookup(a.rules, item.key));
      if hasPercent && (rule.None? || rule.value.orderId != o.id) then Failure(Aborted)
      else if rule.Some? && !RuleTargets(rule.value, item, o.scope) then Failure(Invalid)
      else Success((BaseItemChanges(existing, item),
                    if rule.Some? then [RuleChange(item.key, rule, None)] else []))
  }

  function BaseItems(o: Order, a: Authority, hasPercent: bool, items: seq<Item>)
    : Result<(seq<BaseChange>, seq<RuleChange>), Error>
  {
    if items == [] then Success(([], []))
    else
      var before :- BaseItems(o, a, hasPercent, items[..|items| - 1]);
      var last :- BaseItem(o, a, hasPercent, items[|items| - 1]);
      Success((before.0 + last.0, before.1 + last.1))
  }

  function PlanBase(o: Order, a: Authority, newRevision: nat, actor: string, at: int): Result<BaseEffect, Error>
    requires WellFormedOrder(o)
  {
    if !AtStep(o, BaseApply, Pending) then Failure(Invalid)
    else if Text.Blank(actor) || at == ZERO_TIME || newRevision <= a.revision then Failure(Invalid)
    else if a.revision != ExpectedRevision(o) then Failure(Aborted)
    else
      var changes :- BaseItems(o, a, LastPercent(o.steps, o.currentStep).Some?, o.items);
      if changes.0 == [] && changes.1 == [] then Failure(Invalid)
      else Success(BaseEffect(EFFECT_VERSION, o.items[0].collection, o.scope, a.revision, newRevision,
                              changes.0, changes.1, at, actor))
  }

  function BaseEnvelope(effect: BaseEffect): Envelope {
    Envelope(EFFECT_VERSION, BaseType, None, None, Some(effect))
  }

  function OverlayEnvelope(effect: OverlayEffect): Envelope {
    Envelope(EFFECT_VERSION, OverlayType, Some(effect), None, None)
  }

  function PercentEnvelope(effect: PercentEffect): Envelope {
    Envelope(EFFECT_VERSION, PercentType, None, Some(effect), None)
  }

  function ExecuteBase(o: Order, a: Authority, newRevision: nat, actor: string, at: int)
    : Result<(Order, Envelope), Error>
    requires WellFormedOrder(o)
  {
    var effect :- PlanBase(o, a, newRevision, actor, at);
    Success((RecordEffect(o, BaseEnvelope(effect), actor, at), BaseEnvelope(effect)))
  }

  /** The rule specification of one target: identity and authorship survive from the rule it replaces. */
  function TargetSpec(o: Order, item: Item, base: Option<Record>, previous: Option<Rule>, ranges: seq<BucketRange>,
                      newRevision: nat, actor: string, at: int): RuleSpec
  {
    RuleSpec(
      if previous.Some? then previous.value.id else item.id,
      item.collection, o.scope, item.key, base, item.after, ranges, newRevision, o.id, Some(newRevision), None,
      Provenance(None, None, Some(at), None,
                 if previous.Some? then previous.value.provenance.createdAt else at,
                 if previous.Some? then previous.value.provenance.createdBy else actor, at, actor))
  }

  predicate BaseUnchanged(item: Item, base: Option<Record>) {
    if item.expectedRecordRevision == 0 then base.None?
    else base.Some? && base.value.revision == item.expectedRecordRevision
  }

  function OverlayItem(o: Order, a: Authority, newRevision: nat, actor: string, at: int,
                       item: Item): Result<RuleChange, Error> {
    var base := Lookup(a.records, item.key);
    var previous := CloneOption(Lookup(a.rules, item.key));
    if a.revision != item.expectedCollectionRevision || !BaseUnchanged(item, base) then Failure(Aborted)
    else if previous.Some? && !RuleTargets(previous.value, item, o.scope) then Failure(Invalid)
    else if base.None? && item.after.None? then Success(RuleChange(item.key, previous, None))
    else match CompileRule(TargetSpec(o, item, base, previous, [], newRevision, actor, at))
      case Failure(_) => Failure(Invalid)
      case Success(rule) => Success(RuleChange(item.key, previous, Some(Clone(rule))))
  }

  function OverlayItems(o: Order, a: Authority, newRevision: nat, actor: string, at: int,
                        items: seq<Item>): Result<seq<RuleChange>, Error> {
    if items == [] then Success([])
    else
      var before :- OverlayItems(o, a, newRevision, actor, at, items[..|items| - 1]);
      var last :- OverlayItem(o, a, newRevision, actor, at, items[|items| - 1]);
      Success(before + [last])
  }

  function PlanOverlay(o: Order, a: Authority, newRevision: nat, actor: string, at: int): Result<OverlayEffect, Error>
    requires WellFormedOrder(o)
  {
    if !AtStep(o, OverlayApply, Pending) then Failure(Invalid)
    else if Text.Blank(actor) || at == ZERO_TIME || newRevision <= a.revision then Failure(Invalid)
    else
      var changes :- OverlayItems(o, a, newRevision, actor, at, o.items);
      Success(OverlayEffect(EFFECT_VERSION, o.items[0].collection, o.scope, a.revision, newRevision, changes, at,
                            actor))
  }

  function ExecuteOverlay(o: Order, a: Authority, newRevision: nat, actor: string, at: int)
    : Result<(Order, Envelope), Error>
    requires WellFormedOrder(o)
  {
    var effect :- PlanOverlay(o, a, newRevision, actor, at);
    Success((RecordEffect(o, OverlayEnvelope(effect), actor, at), OverlayEnvelope(effect)))
  }

  ghost function PercentItem(o: Order, a: Authority, added: seq<BucketRange>, newRevision: nat, actor: string, at: int,
                             item: Item)
    : Result<RuleChange, Error>
  {
    var base := Lookup(a.records, item.key);
    var previous := CloneOption(Lookup(a.rules, item.key));
    if !BaseUnchanged(item, base) then Failure(Aborted)
    else if previous.Some? && !RuleTargets(previous.value, item, o.scope) then Failure(Invalid)
    else if previous.Some? && previous.value.orderId != o.id then Failure(Aborted)
    else
      match Expand(if previous.Some? then previous.value.ranges else [], added)
      case Failure(_) => Failure(Invalid)
      case Success(ranges) =>
        match CompileRule(TargetSpec(o, item, base, previous, ranges, newRevision, actor, at))
        case Failure(_) => Failure(Invalid)
        case Success(rule) =>
          if previous.Some? && (previous.value.action != rule.action
                                || !EqualData(previous.value.content.GetOr(map[]), rule.content.GetOr(map[])))
                                   then Failure(Aborted)
          else Success(RuleChange(item.key, previous, Some(Clone(rule))))
  }

  ghost function PercentItems(o: Order, a: Authority, added: seq<BucketRange>, newRevision: nat, actor: string, at: int,
                              items: seq<Item>)
    : Result<seq<RuleChange>, Error>
  {
    if items == [] then Success([])
    else
      var before :- PercentItems(o, a, added, newRevision, actor, at, items[..|items| - 1]);
      var last :- PercentItem(o, a, added, newRevision, actor, at, items[|items| - 1]);
      Success(before + [last])
  }

  ghost function PlanPercent(o: Order, a: Authority, newRevision: nat, actor: string,
                             at: int): Result<PercentEffect, Error>
    requires WellFormedOrder(o)
  {
    if !AtStep(o, PercentRollout, Pending) then Failure(Invalid)
    else
      var added := o.steps[o.currentStep].definition.params.ranges;
      if o.scope.stage == "" || Text.Blank(actor) || at == ZERO_TIME || newRevision <= a.revision
         || added == []
      then Failure(Invalid)
      else if a.revision != ExpectedRevision(o) then Failure(Aborted)
      else
        var changes :- PercentItems(o, a, added, newRevision, actor, at, o.items);
        Success(PercentEffect(EFFECT_VERSION, o.items[0].collection, o.scope, a.revision, newRevision, added, changes,
                              at, actor))
  }

  ghost function ExecutePercentRollout(o: Order, a: Authority, newRevision: nat, actor: string, at: int)
    : Result<(Order, Envelope), Error>
    requires WellFormedOrder(o)
  {
    var effect :- PlanPercent(o, a, newRevision, actor, at);
    Success((RecordEffect(o, PercentEnvelope(effect), actor, at), PercentEnvelope(effect)))
  }

  // ----- comparing -----

  /** The targets' observed records by key; a foreign identity or a repeated key is an error. */
  function ActualByKey(o: Order, actual: seq<Record>): Result<map<string, Record>, Error>
    requires WellFormedOrder(o)
  {
    if actual == [] then Success(map[])
    else
      var before :- ActualByKey(o, actual[..|actual| - 1]);
      var last := actual[|actual| - 1];
      if !IsTarget(o, last.key) then Success(before)
      else if last.collection != o.items[0].collection || last.environment != o.scope.environment then Failure(Invalid)
      else if last.key in before then Failure(Invalid)
      else Success(before[last.key := last])
  }

  predicate IsTarget(o: Order, key: string) {
    exists i :: 0 <= i < |o.items| && o.items[i].key == key
  }

  function ExpectedByKey(items: seq<Item>): map<string, Record> {
    if items == [] then map[]
    else
      var before, last := ExpectedByKey(items[..|items| - 1]), items[|items| - 1];
      Put(before - {last.key}, last.key, last.after)
  }

  predicate Differs(expected: Option<Record>, actual: Option<Record>) {
    expected.Some? != actual.Some?
    || (expected.Some? && actual.Some? && !EqualData(expected.value.data, actual.value.data))
  }

  ghost function DiffKeys(o: Order, actual: map<string, Record>): set<string> {
    set i | 0 <= i < |o.items| && Differs(o.items[i].after, Lookup(actual, o.items[i].key)) :: o.items[i].key
  }

  ghost function CompareOutcome(o: Order, actual: seq<Record>, at: int): Result<CompareResult, Error>
    requires WellFormedOrder(o)
  {
    var found :- ActualByKey(o, actual);
    Success(CompareResult(Digest(Payload(ExpectedByKey(o.items))), Digest(Payload(found)),
                          Text.InOrder(DiffKeys(o, found)), at))
  }

  ghost function ExecuteCompare(o: Order, expected: nat, actual: seq<Record>, actor: string, at: int)
    : Result<(Order, CompareResult), Error>
    requires WellFormedOrder(o)
  {
    if o.revision != expected then Failure(Aborted)
    else if !AtStep(o, Compare, Pending) then Failure(Invalid)
    else if Text.Blank(actor) || at == ZERO_TIME then Failure(Invalid)
    else
      var result :- CompareOutcome(o, actual, at);
      var checked := o.steps[o.currentStep].(compareResult := Some(result));
      var step := if result.diffKeys == []
                  then checked.(status := Executed, executedAt := Some(at), executedBy := actor) else checked;
      Success((Bump(SetStep(o, step), actor, at), result))
  }

  // ----- moving on -----

  function Advance(o: Order, expected: nat, actor: string, at: int): Result<Order, Error>
    requires WellFormedOrder(o)
  {
    var status := o.steps[o.currentStep].status;
    if o.revision != expected then Failure(Aborted)
    else if o.status != InProgress || (status != Executed && status != Approved)
            || o.currentStep + 1 >= |o.steps|
    then Failure(Invalid)
    else Success(Bump(o.(currentStep := o.currentStep + 1), actor, at))
  }

  function CompleteOrder(o: Order, expected: nat, actor: string, at: int): Result<Order, Error>
    requires WellFormedOrder(o)
  {
    if o.revision != expected then Failure(Aborted)
    else if !AtStep(o, Complete, Pending) then Failure(Invalid)
    else if o.currentStep == 0 || o.steps[o.currentStep - 1].status != Executed then Failure(Invalid)
    else
      var step := o.steps[o.currentStep].(status := Executed, executedAt := Some(at), executedBy := actor);
      Success(Finish(SetStep(o, step).(items := Settle(o.items, ItemApplied)), Succeeded, actor, at))
  }

  // ----- rolling back -----

  function InverseBase(changes: seq<BaseChange>, applied: nat, records: map<string, Record>)
    : Result<(seq<BaseChange>, map<string, Record>), Error>
    decreases |changes|
  {
    if changes == [] then Success(([], records))
    else
      var first :- InverseBaseChange(changes[|changes| - 1], applied, records);
      var rest :- InverseBase(changes[..|changes| - 1], applied, first.1);
      Success(([first.0] + rest.0, rest.1))
  }

  /** The record must still be what the change left: same data, stamped with the revision that applied it. */
  predicate StillApplied(current: Option<Record>, after: Record, applied: nat) {
    current.Some? && current.value.revision == applied && EqualData(current.value.data, after.data)
  }

  function InverseBaseChange(source: BaseChange, applied: nat, records: map<string, Record>)
    : Result<(BaseChange, map<string, Record>), Error>
  {
    match source.action
    case Add =>
      if source.after.None? then Failure(FailedPrecondition)
      else
        var key := source.after.value.key;
        if !StillApplied(Lookup(records, key), source.after.value, applied) then Failure(Aborted)
        else Success((BaseChange(Delete, Some(records[key]), None), records - {key}))
    case Modify =>
      if source.before.None? || source.after.None? then Failure(FailedPrecondition)
      else
        var key := source.after.value.key;
        if !StillApplied(Lookup(records, key), source.after.value, applied) then Failure(Aborted)
        else Success((BaseChange(Modify, Some(records[key]), source.before), records[key := source.before.value]))
    case Delete =>
      if source.before.None? || source.before.value.key in records then Failure(Aborted)
      else Success((BaseChange(Add, None, source.before), records[source.before.value.key := source.before.value]))
  }

  function InverseRules(changes: seq<RuleChange>, rules: map<string, Rule>)
    : Result<(seq<RuleChange>, map<string, Rule>), Error>
    decreases |changes|
  {
    if changes == [] then Success(([], rules))
    else
      var last := changes[|changes| - 1];
      var current := Lookup(rules, last.key);
      if current != last.next then Failure(Aborted)
      else
        var rest :- InverseRules(changes[..|changes| - 1], Put(rules, last.key, CloneOption(last.previous)));
        Success(([RuleChange(last.key, CloneOption(current), CloneOption(last.previous))] + rest.0, rest.1))
  }

  /**
   * What the backward walk has gathered: the facts as they were before the effects undone so far, and the inverse
   * batch.
   */
  datatype Unwound = Unwound(
    records: map<string, Record>, rules: map<string, Rule>, changes: seq<BaseChange>, overlayChanges: seq<RuleChange>,
    hasBase: bool, expected: nat, collection: string)

  function UnwindEffect(e: Envelope, scope: Scope, u: Unwound): Result<Unwound, Error>
    requires ValidEnvelope(e)
  {
    var d := DeltaOf(e);
    var records :- InverseBase(d.changes, d.appliedRevision, u.records);
    var rules :- InverseRules(d.overlayChanges, u.rules);
    if d.appliedRevision != u.expected then Failure(Aborted)
    else
      var collection := if u.collection == "" then d.collection else u.collection;
      if d.collection != collection || d.scope != scope then Failure(FailedPrecondition)
      else Success(Unwound(records.1, rules.1, u.changes + records.0, u.overlayChanges + rules.0,
                           u.hasBase || e.effectType == BaseType, d.previousRevision, collection))
  }

  predicate EffectsValid(steps: seq<StepState>) {
    forall i :: 0 <= i < |steps| && steps[i].effect.Some? ==> ValidEnvelope(steps[i].effect.value)
  }

  predicate HasEffect(steps: seq<StepState>) {
    exists i :: 0 <= i < |steps| && steps[i].effect.Some?
  }

  /** Newest effect first, over the first `n` steps. */
  function Unwind(steps: seq<StepState>, n: nat, scope: Scope, u: Unwound): Result<Unwound, Error>
    requires n <= |steps| && EffectsValid(steps)
  {
    if n == 0 then Success(u)
    else if steps[n - 1].effect.None? then Unwind(steps, n - 1, scope, u)
    else
      var next :- UnwindEffect(steps[n - 1].effect.value, scope, u);
      Unwind(steps, n - 1, scope, next)
  }

  function StartUnwind(a: Authority): Unwound {
    Unwound(a.records, map k | k in a.rules :: Clone(a.rules[k]), [], [], false, a.revision, "")
  }

  function RollbackPlan(o: Order, u: Unwound, previous: nat, newRevision: nat, actor: string, at: int): Envelope {
    if u.hasBase
    then BaseEnvelope(BaseEffect(EFFECT_VERSION, u.collection, o.scope, previous, newRevision, u.changes,
                                 u.overlayChanges, at, actor))
    else OverlayEnvelope(OverlayEffect(EFFECT_VERSION, u.collection, o.scope, previous, newRevision, u.overlayChanges,
                                       at, actor))
  }

  function MarkRolledBack(steps: seq<StepState>, actor: string, at: int): (r: seq<StepState>)
    ensures |r| == |steps|
  {
    seq(|steps|, i requires 0 <= i < |steps| =>
      if steps[i].effect.Some?
      then steps[i].(status := RolledBack, rolledBackAt := Some(at), rolledBackBy := actor)
      else steps[i])
  }

  /** The oldest step with an effect. */
  function FirstEffect(steps: seq<StepState>): (n: nat)
    ensures n <= |steps| && (HasEffect(steps) ==> n < |steps|)
  {
    if steps == [] then 0
    else if steps[0].effect.Some? then 0
    else
      assert HasEffect(steps) ==> HasEffect(steps[1..]) by {
        if HasEffect(steps) {
          var i :| 0 <= i < |steps| && steps[i].effect.Some?;
          assert steps[1..][i - 1].effect.Some?;
        }
      }
      FirstEffect(steps[1..]) + 1
  }

  function RollbackAll(o: Order, expected: nat, a: Authority, newRevision: nat, actor: string, at: int)
    : Result<(Order, Envelope), Error>
    requires WellFormedOrder(o)
  {
    if o.revision != expected then Failure(Aborted)
    else if o.status != InProgress || Text.Blank(actor) || at == ZERO_TIME
            || newRevision <= a.revision
    then Failure(Invalid)
    else if !EffectsValid(o.steps) then Failure(FailedPrecondition)
    else if !HasEffect(o.steps) then Failure(Invalid)
    else
      var u :- Unwind(o.steps, |o.steps|, o.scope, StartUnwind(a));
      var plan := RollbackPlan(o, u, a.revision, newRevision, actor, at);
      if !ValidEnvelope(plan) then Failure(FailedPrecondition)
      else
        var undone := o.(steps := MarkRolledBack(o.steps, actor, at), items := Settle(o.items, ItemRolledBack),
                         currentStep := FirstEffect(o.steps));
        Success((Finish(undone, OrderRolledBack, actor, at), plan))
  }

  // ----- the single-effect rollbacks -----

  function LastBaseStep(steps: seq<StepState>, n: nat): (r: Option<nat>)
    requires n <= |steps|
    ensures r.Some? ==> r.value < n && steps[r.value].effect.Some? && steps[r.value].effect.value.base.Some?
  {
    if n == 0 then None
    else if steps[n - 1].effect.Some? && steps[n - 1].effect.value.base.Some? then Some(n - 1)
    else LastBaseStep(steps, n - 1)
  }

  function LastOverlayStep(steps: seq<StepState>, n: nat): (r: Option<nat>)
    requires n <= |steps|
    ensures r.Some? ==> r.value < n && steps[r.value].effect.Some? && steps[r.value].effect.value.overlay.Some?
  {
    if n == 0 then None
    else if steps[n - 1].effect.Some? && steps[n - 1].effect.value.overlay.Some? then Some(n - 1)
    else LastOverlayStep(steps, n - 1)
  }

  /** Additions only, newest first, each checked against the authority as loaded. */
  function UndoAdditions(changes: seq<BaseChange>, applied: nat,
                         records: map<string, Record>): Result<seq<BaseChange>, Error>
    decreases |changes|
  {
    if changes == [] then Success([])
    else
      var last := changes[|changes| - 1];
      if !last.action.Add? || last.after.None? then Failure(Invalid)
      else if !StillApplied(Lookup(records, last.after.value.key), last.after.value, applied) then Failure(Aborted)
      else
        var rest :- UndoAdditions(changes[..|changes| - 1], applied, records);
        Success([BaseChange(Delete, Some(records[last.after.value.key]), None)] + rest)
  }

  function RestoreCleaned(changes: seq<RuleChange>, rules: map<string, Rule>): Result<seq<RuleChange>, Error>
    decreases |changes|
  {
    if changes == [] then Success([])
    else
      var last := changes[|changes| - 1];
      if last.key in rules then Failure(Aborted)
      else
        var rest :- RestoreCleaned(changes[..|changes| - 1], rules);
        Success([RuleChange(last.key, None, CloneOption(last.previous))] + rest)
  }

  function SwapRules(changes: seq<RuleChange>): seq<RuleChange>
    decreases |changes|
  {
    if changes == [] then []
    else
      var last := changes[|changes| - 1];
      [RuleChange(last.key, CloneOption(last.next), CloneOption(last.previous))] + SwapRules(changes[..|changes| - 1])
  }

  function RollBackStep(o: Order, index: nat, actor: string, at: int): Order
    requires index < |o.steps|
  {
    var step := o.steps[index].(status := RolledBack, rolledBackAt := Some(at), rolledBackBy := actor);
    Finish(o.(steps := o.steps[index := step], items := Settle(o.items, ItemRolledBack), currentStep := index),
           OrderRolledBack, actor, at)
  }

  function RollbackBase(o: Order, expected: nat, a: Authority, newRevision: nat, actor: string, at: int)
    : Result<(Order, BaseEffect), Error>
    requires WellFormedOrder(o)
  {
    if o.revision != expected then Failure(Aborted)
    else if o.status != InProgress || Text.Blank(actor) || at == ZERO_TIME
            || newRevision <= a.revision
    then Failure(Invalid)
    else match LastBaseStep(o.steps, |o.steps|)
      case None => Failure(Invalid)
      case Some(index) =>
        var original := o.steps[index].effect.value.base.value;
        if a.revision != original.appliedRevision then Failure(Aborted)
        else
          var changes :- UndoAdditions(original.changes, original.appliedRevision, a.records);
          var overlayChanges :- RestoreCleaned(original.overlayChanges, a.rules);
          Success((RollBackStep(o, index, actor, at),
                   BaseEffect(EFFECT_VERSION, original.collection, original.scope, a.revision, newRevision,
                              changes, overlayChanges, at, actor)))
  }

  function RollbackOverlay(o: Order, expected: nat, currentRevision: nat, newRevision: nat, actor: string,
                           at: int): Result<(Order, OverlayEffect), Error>
    requires WellFormedOrder(o)
  {
    if o.revision != expected then Failure(Aborted)
    else if o.status != InProgress || Text.Blank(actor) || at == ZERO_TIME || currentRevision == 0
            || newRevision <= currentRevision
    then Failure(Invalid)
    else match LastOverlayStep(o.steps, |o.steps|)
      case None => Failure(Invalid)
      case Some(index) =>
        var original := o.steps[index].effect.value.overlay.value;
        if currentRevision != original.appliedRevision then Failure(Aborted)
        else Success((RollBackStep(o, index, actor, at),
                      OverlayEffect(EFFECT_VERSION, original.collection, original.scope, currentRevision, newRevision,
                                    SwapRules(original.changes), at, actor)))
  }
}
