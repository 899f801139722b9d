/** Overlay rules: compiling a base-relative rule, and evaluating rules over base records. */
module Overlay {
  import opened Wrappers
  import opened Catalog
  import opened Rollout
  import Text

  datatype Scope = Scope(region: string, environment: string, stage: string)

  datatype RuleAction = AddRecord | ModifyRecord | DeleteRecord | UnknownAction(name: string)

  /** Timestamps and authorship; no evaluation reads them. */
  datatype Provenance = Provenance(
    effectiveFrom: Option<int>, effectiveUntil: Option<int>, activatedAt: Option<int>, expiredAt: Option<int>,
    createdAt: int, createdBy: string, updatedAt: int, updatedBy: string)

  datatype Rule = Rule(
    id: string, collection: string, scope: Scope, key: string, action: RuleAction, content: Option<Data>,
    ranges: seq<BucketRange>, revision: nat, orderId: string,
    activatedRevision: Option<nat>, expiredRevision: Option<nat>, provenance: Provenance)

  /** A copy of a rule: a nil content map becomes an empty one. */
  function Clone(rule: Rule): Rule {
    rule.(content := Some(rule.content.GetOr(map[])))
  }

  function Clones(rules: seq<Rule>): (r: seq<Rule>)
    ensures |r| == |rules|
  {
    seq(|rules|, i requires 0 <= i < |rules| => Clone(rules[i]))
  }

  datatype Query = Query(collection: string, scope: Scope, bucket: Option<int>)

  datatype OverlayError = InvalidSpec | Invariant

  // ----- compiling a rule -----

  datatype RuleSpec = RuleSpec(
    id: string, collection: string, scope: Scope, key: string, base: Option<Record>, desired: Option<Record>,
    ranges: seq<BucketRange>, revision: nat, orderId: string,
    activatedRevision: Option<nat>, expiredRevision: Option<nat>, provenance: Provenance)

  predicate MatchesTarget(record: Record, spec: RuleSpec) {
    record.collection == spec.collection && record.environment == spec.scope.environment && record.key == spec.key
  }

  /** The action is derived from which of base and desired state exist, never given by the caller. */
  function CompileRule(spec: RuleSpec): Result<Rule, OverlayError> {
    if spec.collection == "" || spec.scope.region == "" || spec.scope.environment == "" || spec.scope.stage == ""
       || spec.key == ""
    then Failure(InvalidSpec)
    else if spec.base.None? && spec.desired.None? then Failure(InvalidSpec)
    else if spec.base.Some? && !MatchesTarget(spec.base.value, spec) then Failure(InvalidSpec)
    else if spec.desired.Some? && !MatchesTarget(spec.desired.value, spec) then Failure(InvalidSpec)
    else
      var ranges := Normalize(spec.ranges);
      if ranges.Failure? then Failure(InvalidSpec)
      else
        var (action, content) :=
          if spec.base.None? then (AddRecord, Some(spec.desired.value.data))
          else if spec.desired.Some? then (ModifyRecord, Some(spec.desired.value.data))
          else (DeleteRecord, None);
        Success(Rule(spec.id, spec.collection, spec.scope, spec.key, action, content, ranges.value, spec.revision,
                     spec.orderId, spec.activatedRevision, spec.expiredRevision, spec.provenance))
  }

  // ----- evaluating rules -----

  /** The rule belongs to the layer being evaluated and is live. */
  predicate InLayer(q: Query, stage: string, rule: Rule) {
    && rule.collection == q.collection
    && rule.scope == Scope(q.scope.region, q.scope.environment, stage)
    && rule.activatedRevision.Some? && rule.expiredRevision.None?
  }

  /** A rule without ranges serves everyone; a percentage rule serves the preview bucket it covers. */
  predicate ServesBucket(bucket: Option<int>, ranges: seq<BucketRange>) {
    ranges == [] || (bucket.Some? && Covers(ranges, bucket.value))
  }

  predicate Applies(q: Query, stage: string, rule: Rule) {
    InLayer(q, stage, rule) && ServesBucket(q.bucket, rule.ranges)
  }

  /** A percentage rule consulted for a bucket must have well-formed ranges. */
  predicate RangesReadable(q: Query, stage: string, rule: Rule) {
    InLayer(q, stage, rule) && rule.ranges != [] && q.bucket.Some? ==> WellFormed(rule.ranges)
  }

  function ApplyRule(q: Query, stage: string, records: map<string, Record>, rule: Rule)
    : Result<map<string, Record>, OverlayError>
  {
    if !RangesReadable(q, stage, rule) then Failure(Invariant)
    else if !Applies(q, stage, rule) then Success(records)
    else match rule.action
      case AddRecord =>
        if rule.content.None? || rule.key in records then Failure(Invariant)
        else Success(records[rule.key := Record(q.collection, q.scope.environment, rule.key, rule.content.value,
                                                rule.revision)])
      case ModifyRecord =>
        if rule.content.None? || rule.key !in records then Failure(Invariant)
        else Success(records[rule.key := records[rule.key].(data := rule.content.value, revision := rule.revision)])
      case DeleteRecord =>
        if rule.content.Some? || rule.key !in records then Failure(Invariant)
        else Success(records - {rule.key})
      case UnknownAction(_) => Failure(Invariant)
  }

  /** One layer: the rules in list order. */
  function Layer(q: Query, stage: string, rules: seq<Rule>, records: map<string, Record>)
    : Result<map<string, Record>, OverlayError>
  {
    if rules == [] then Success(records)
    else
      var before :- Layer(q, stage, rules[..|rules| - 1], records);
      ApplyRule(q, stage, before, rules[|rules| - 1])
  }

  /** Base records of the queried collection and environment, by key; a later record replaces an earlier one. */
  function BaseMap(q: Query, base: seq<Record>): map<string, Record> {
    if base == [] then map[]
    else
      var before, last := BaseMap(q, base[..|base| - 1]), base[|base| - 1];
      if last.collection == q.collection && last.environment == q.scope.environment
      then before[last.key := last]
      else before
  }

  /** Environment-wide layer first, then the queried stage. */
  function EvaluateMap(q: Query, base: seq<Record>, rules: seq<Rule>): Result<map<string, Record>, OverlayError> {
    var wide :- Layer(q, "", rules, BaseMap(q, base));
    if q.scope.stage == "" then Success(wide) else Layer(q, q.scope.stage, rules, wide)
  }

  /** The records of a map in strictly increasing key order. */
  ghost function Listing(records: map<string, Record>): (r: seq<Record>)
    ensures |r| == |Text.InOrder(records.Keys)|
  {
    var keys := Text.InOrder(records.Keys);
    seq(|keys|, i requires 0 <= i < |keys| => assert keys[i] in Text.Elements(keys); records[keys[i]])
  }

  ghost function EvaluateSpec(q: Query, base: seq<Record>, rules: seq<Rule>): Result<seq<Record>, OverlayError> {
    var records :- EvaluateMap(q, base, rules);
    Success(Listing(records))
  }

  method Evaluate(q: Query, base: seq<Record>, rules: seq<Rule>) returns (r: Result<seq<Record>, OverlayError>)
    ensures r == EvaluateSpec(q, base, rules)
  {
    var records: map<string, Record> := map[];
    for n := 0 to |base|
      invariant records == BaseMap(q, base[..n])
    {
      assert base[..n + 1][..n] == base[..n];
      if base[n].collection == q.collection && base[n].environment == q.scope.environment {
        records := records[base[n].key := base[n]];
      }
    }
    assert base[..|base|] == base;
    records :- EvaluateLayer(q, "", rules, records);
    if q.scope.stage != "" {
      records :- EvaluateLayer(q, q.scope.stage, rules, records);
    }
    var keys := Text.SortNames(records.Keys);
    Text.StrictlySortedUnique(keys, Text.InOrder(records.Keys));
    var effective: seq<Record> := [];
    for n := 0 to |keys|
      invariant |effective| == n
      invariant forall i :: 0 <= i < n ==> keys[i] in records && effective[i] == records[keys[i]]
    {
      assert keys[n] in Text.Elements(keys);
      effective := effective + [records[keys[n]]];
    }
    assert effective == Listing(records);
    r := Success(effective);
  }

  /** Whether a rule reaches the preview bucket; malformed ranges are an error once a bucket is given. */
  method ServesPreview(bucket: Option<int>, ranges: seq<BucketRange>) returns (r: Result<bool, OverlayError>)
    ensures r == if ranges != [] && bucket.Some? && !WellFormed(ranges) then Failure(Invariant)
                 else Success(ServesBucket(bucket, ranges))
  {
    if |ranges| == 0 { return Success(true); }
    if bucket.None? { return Success(false); }
    var canonical := NormalizeRanges(ranges);
    if canonical.Failure? { return Failure(Invariant); }
    SameCover(ranges, canonical.value, bucket.value);
    for i := 0 to |canonical.value|
      invariant forall k :: 0 <= k < i ==> !Contains(canonical.value[k], bucket.value)
    {
      if canonical.value[i].start <= bucket.value <= canonical.value[i].end {
        assert Contains(canonical.value[i], bucket.value);
        return Success(true);
      }
    }
    return Success(false);
  }

  method EvaluateLayer(q: Query, stage: string, rules: seq<Rule>, start: map<string, Record>)
    returns (r: Result<map<string, Record>, OverlayError>)
    ensures r == Layer(q, stage, rules, start)
  {
    var records := start;
    for n := 0 to |rules|
      invariant Layer(q, stage, rules[..n], start) == Success(records)
    {
      var rule := rules[n];
      assert rules[..n + 1][..n] == rules[..n];
      LayerFailsOnward(q, stage, rules, start, n + 1);
      if !InLayer(q, stage, rule) { continue; }
      var served := ServesPreview(q.bucket, rule.ranges);
      if served.Failure? { return Failure(Invariant); }
      if !served.value { continue; }
      if (rule.action.DeleteRecord? && rule.content.Some?)
         || ((rule.action.AddRecord? || rule.action.ModifyRecord?) && rule.content.None?) {
        return Failure(Invariant);
      }
      match rule.action {
        case AddRecord =>
          if rule.key in records { return Failure(Invariant); }
          records := records[rule.key := Record(q.collection, q.scope.environment, rule.key, rule.content.value,
                                                rule.revision)];
        case ModifyRecord =>
          if rule.key !in records { return Failure(Invariant); }
          records := records[rule.key := records[rule.key].(data := rule.content.value, revision := rule.revision)];
        case DeleteRecord =>
          if rule.key !in records { return Failure(Invariant); }
          records := records - {rule.key};
        case UnknownAction(_) =>
          return Failure(Invariant);
      }
    }
    assert rules[..|rules|] == rules;
    r := Success(records);
  }

  lemma SameCover(a: seq<BucketRange>, c: seq<BucketRange>, b: int)
    requires multiset(a) == multiset(c)
    ensures Covers(a, b) <==> Covers(c, b)
  {
    if Covers(a, b) {
      var i :| 0 <= i < |a| && Contains(a[i], b);
      assert a[i] in multiset(c);
      assert a[i] in c;
    }
    if Covers(c, b) {
      var i :| 0 <= i < |c| && Contains(c[i], b);
      assert c[i] in multiset(a);
      assert c[i] in a;
    }
  }

  lemma {:induction false} LayerFailsOnward(q: Query, stage: string, rules: seq<Rule>, start: map<string, Record>,
                                            n: nat)
    requires n <= |rules|
    ensures Layer(q, stage, rules[..n], start).Failure? ==> Layer(q, stage, rules, start) == Failure(Invariant)
    decreases |rules| - n
  {
    LayerError(q, stage, rules[..n], start);
    if n < |rules| {
      assert rules[..n + 1][..n] == rules[..n];
      LayerFailsOnward(q, stage, rules, start, n + 1);
    } else {
      assert rules[..n] == rules;
    }
  }

  lemma {:induction false} LayerError(q: Query, stage: string, rules: seq<Rule>, start: map<string, Record>)
    ensures Layer(q, stage, rules, start).Failure? ==> Layer(q, stage, rules, start) == Failure(Invariant)
  {
    if rules != [] { LayerError(q, stage, rules[..|rules| - 1], start); }
  }

  /** Every record is stored under its own key. */
  predicate WellKeyed(records: map<string, Record>) {
    forall k :: k in records ==> records[k].key == k
  }

  lemma {:induction false} LayerWellKeyed(q: Query, stage: string, rules: seq<Rule>, records: map<string, Record>)
    requires WellKeyed(records)
    ensures Layer(q, stage, rules, records).Success? ==> WellKeyed(Layer(q, stage, rules, records).value)
  {
    if rules != [] { LayerWellKeyed(q, stage, rules[..|rules| - 1], records); }
  }

  lemma {:induction false} BaseWellKeyed(q: Query, base: seq<Record>)
    ensures WellKeyed(BaseMap(q, base))
  {
    if base != [] { BaseWellKeyed(q, base[..|base| - 1]); }
  }

  /** The evaluated records come in strictly increasing key order, one per key. */
  lemma EvaluateKeyOrder(q: Query, base: seq<Record>, rules: seq<Rule>)
    requires EvaluateSpec(q, base, rules).Success?
    ensures var out := EvaluateSpec(q, base, rules).value;
            forall i, j :: 0 <= i < j < |out| ==> Text.Less(out[i].key, out[j].key)
  {
    BaseWellKeyed(q, base);
    LayerWellKeyed(q, "", rules, BaseMap(q, base));
    var wide := Layer(q, "", rules, BaseMap(q, base)).value;
    LayerWellKeyed(q, q.scope.stage, rules, wide);
    var records := EvaluateMap(q, base, rules).value;
    var keys := Text.InOrder(records.Keys);
    forall i | 0 <= i < |keys| ensures Listing(records)[i].key == keys[i] {
      assert keys[i] in Text.Elements(keys);
    }
  }

  // ----- compile, then evaluate -----

  function FindSpec(specs: seq<RuleSpec>, key: string): Option<RuleSpec> {
    if specs == [] then None
    else if specs[|specs| - 1].key == key then Some(specs[|specs| - 1])
    else FindSpec(specs[..|specs| - 1], key)
  }

  /** What the effective view should hold at a key: the desired state if a served spec targets it, else the base. */
  function TargetAt(q: Query, specs: seq<RuleSpec>, base: map<string, Record>, key: string): Option<Record> {
    match FindSpec(specs, key)
    case None => Lookup(base, key)
    case Some(spec) =>
      if !ServesBucket(q.bucket, spec.ranges) then Lookup(base, key)
      else if spec.desired.None? then None
      else Some(spec.desired.value.(revision := spec.revision))
  }

  /** Live specs of the queried collection and full scope, each compiled against the base record at its own key. */
  ghost predicate CompiledFrom(q: Query, specs: seq<RuleSpec>, base: map<string, Record>, rules: seq<Rule>) {
    && |rules| == |specs|
    && (forall i, j :: 0 <= i < j < |specs| ==> specs[i].key != specs[j].key)
    && (forall i :: 0 <= i < |specs| ==>
         && specs[i].collection == q.collection && specs[i].scope == q.scope
         && specs[i].activatedRevision.Some? && specs[i].expiredRevision.None?
         && specs[i].base == Lookup(base, specs[i].key)
         && CompileRule(specs[i]) == Success(rules[i]))
  }

  lemma FindSpecLast(specs: seq<RuleSpec>, n: nat, key: string)
    requires n < |specs|
    requires forall i, j :: 0 <= i < j < |specs| ==> specs[i].key != specs[j].key
    ensures FindSpec(specs[..n + 1], key) ==
            if specs[n].key == key then Some(specs[n]) else FindSpec(specs[..n], key)
  {
    assert specs[..n + 1][..n] == specs[..n];
  }

  lemma {:induction false} FindSpecAbsent(specs: seq<RuleSpec>, key: string)
    requires forall i :: 0 <= i < |specs| ==> specs[i].key != key
    ensures FindSpec(specs, key) == None
  {
    if specs != [] { FindSpecAbsent(specs[..|specs| - 1], key); }
  }

  lemma {:induction false} FindSpecPresent(specs: seq<RuleSpec>, i: nat)
    requires i < |specs|
    requires forall i, j :: 0 <= i < j < |specs| ==> specs[i].key != specs[j].key
    ensures FindSpec(specs, specs[i].key) == Some(specs[i])
  {
    if i != |specs| - 1 { FindSpecPresent(specs[..|specs| - 1], i); }
  }

  /** The stage layer applies each compiled rule at its own key and nowhere else. */
  lemma {:induction false} LayerReachesTarget(q: Query, specs: seq<RuleSpec>, base: map<string, Record>,
                                              rules: seq<Rule>, n: nat)
    requires CompiledFrom(q, specs, base, rules) && n <= |specs|
    ensures var layered := Layer(q, q.scope.stage, rules[..n], base);
            && layered.Success?
            && forall k :: Lookup(layered.value, k) == TargetAt(q, specs[..n], base, k)
    decreases n
  {
    hide CompileRule, ApplyRule, ServesBucket;
    if n > 0 {
      var m := n - 1;
      LayerReachesTarget(q, specs, base, rules, m);
      assert rules[..n][..m] == rules[..m];
      var before := Layer(q, q.scope.stage, rules[..m], base).value;
      FindSpecAbsent(specs[..m], specs[m].key);
      assert Lookup(before, specs[m].key) == specs[m].base;
      CompiledStep(q, specs[m], rules[m], before);
      var after := ApplyRule(q, q.scope.stage, before, rules[m]).value;
      forall k ensures Lookup(after, k) == TargetAt(q, specs[..n], base, k) {
        FindSpecLast(specs, m, k);
        assert Lookup(before, k) == TargetAt(q, specs[..m], base, k);
      }
    }
  }

  /** One compiled rule, applied to a view that agrees with its base, writes the desired state at its key only. */
  lemma CompiledStep(q: Query, spec: RuleSpec, rule: Rule, before: map<string, Record>)
    requires spec.collection == q.collection && spec.scope == q.scope
    requires spec.activatedRevision.Some? && spec.expiredRevision.None?
    requires CompileRule(spec) == Success(rule) && Lookup(before, spec.key) == spec.base
    ensures var after := ApplyRule(q, q.scope.stage, before, rule);
            && after.Success?
            && forall k :: Lookup(after.value, k) ==
                 if k != spec.key || !ServesBucket(q.bucket, spec.ranges) then Lookup(before, k)
                 else if spec.desired.None? then None
                 else Some(spec.desired.value.(revision := spec.revision))
  {
    NormalizedSameService(q, spec, rule);
  }

  lemma NormalizedSameService(q: Query, spec: RuleSpec, rule: Rule)
    requires CompileRule(spec) == Success(rule)
    ensures ServesBucket(q.bucket, spec.ranges) <==> ServesBucket(q.bucket, rule.ranges)
    ensures WellFormed(rule.ranges)
  {
    var sorted := SortRanges(spec.ranges);
    assert rule.ranges == sorted;
    assert |multiset(sorted)| == |multiset(spec.ranges)|;
    PermutationWellFormed(spec.ranges, sorted);
    if q.bucket.Some? { SameCover(spec.ranges, sorted, q.bucket.value); }
  }

  lemma {:induction false} OtherLayerSkips(q: Query, stage: string, rules: seq<Rule>, base: map<string, Record>)
    requires forall i :: 0 <= i < |rules| ==> rules[i].scope.stage != stage
    ensures Layer(q, stage, rules, base) == Success(base)
  {
    if rules != [] { OtherLayerSkips(q, stage, rules[..|rules| - 1], base); }
  }

  /**
   * Rules compiled against the base state evaluate without error to the base with each served key
   * replaced by its desired state and every other key untouched.
   */
  lemma CompileThenEvaluate(q: Query, base: seq<Record>, specs: seq<RuleSpec>, rules: seq<Rule>)
    requires q.scope.stage != ""
    requires CompiledFrom(q, specs, BaseMap(q, base), rules)
    ensures EvaluateMap(q, base, rules).Success?
    ensures forall k :: Lookup(EvaluateMap(q, base, rules).value, k) == TargetAt(q, specs, BaseMap(q, base), k)
  {
    OtherLayerSkips(q, "", rules, BaseMap(q, base));
    LayerReachesTarget(q, specs, BaseMap(q, base), rules, |specs|);
    assert rules[..|rules|] == rules && specs[..|specs|] == specs;
  }

  /** The order in which the compiled rules arrive does not change the effective view. */
  lemma RuleOrderIrrelevant(q: Query, base: seq<Record>, specs: seq<RuleSpec>, rules: seq<Rule>,
                            specs': seq<RuleSpec>, rules': seq<Rule>)
    requires q.scope.stage != ""
    requires CompiledFrom(q, specs, BaseMap(q, base), rules) && CompiledFrom(q, specs', BaseMap(q, base), rules')
    requires Text.Elements(specs) == Text.Elements(specs')
    ensures EvaluateSpec(q, base, rules) == EvaluateSpec(q, base, rules')
  {
    CompileThenEvaluate(q, base, specs, rules);
    CompileThenEvaluate(q, base, specs', rules');
    var a, c := EvaluateMap(q, base, rules).value, EvaluateMap(q, base, rules').value;
    forall k ensures Lookup(a, k) == Lookup(c, k) {
      SameSpecFound(specs, specs', k);
    }
    assert forall k :: k in a <==> Lookup(a, k).Some?;
    assert forall k :: k in c <==> Lookup(c, k).Some?;
    assert a == c;
  }

  lemma SameSpecFound(specs: seq<RuleSpec>, specs': seq<RuleSpec>, key: string)
    requires forall i, j :: 0 <= i < j < |specs| ==> specs[i].key != specs[j].key
    requires forall i, j :: 0 <= i < j < |specs'| ==> specs'[i].key != specs'[j].key
    requires Text.Elements(specs) == Text.Elements(specs')
    ensures FindSpec(specs, key) == FindSpec(specs', key)
  {
    if i :| 0 <= i < |specs| && specs[i].key == key {
      assert specs[i] in Text.Elements(specs');
      var j :| 0 <= j < |specs'| && specs'[j] == specs[i];
      FindSpecPresent(specs, i);
      FindSpecPresent(specs', j);
    } else {
      forall j | 0 <= j < |specs'| ensures specs'[j].key != key {
        assert specs'[j] in Text.Elements(specs);
      }
      FindSpecAbsent(specs, key);
      FindSpecAbsent(specs', key);
    }
  }

  // ----- copies of rules -----

  ghost predicate SomeDeleteApplies(q: Query, stage: string, rules: seq<Rule>) {
    exists i :: 0 <= i < |rules| && rules[i].action.DeleteRecord? && Applies(q, stage, rules[i])
  }

  lemma {:induction false} ClonedLayer(q: Query, stage: string, rules: seq<Rule>, records: map<string, Record>)
    requires Layer(q, stage, rules, records).Success?
    ensures Layer(q, stage, Clones(rules), records) ==
            if SomeDeleteApplies(q, stage, rules) then Failure(Invariant) else Layer(q, stage, rules, records)
  {
    if rules != [] {
      var init, last := rules[..|rules| - 1], rules[|rules| - 1];
      ClonedLayer(q, stage, init, records);
      assert Clones(rules)[..|rules| - 1] == Clones(init);
      SomeDeleteSplit(q, stage, init, last);
      assert rules == init + [last];
    }
  }

  lemma SomeDeleteSplit(q: Query, stage: string, init: seq<Rule>, last: Rule)
    ensures SomeDeleteApplies(q, stage, init + [last]) <==>
            SomeDeleteApplies(q, stage, init) || (last.action.DeleteRecord? && Applies(q, stage, last))
  {
    var rules := init + [last];
    assert rules[|init|] == last;
    if SomeDeleteApplies(q, stage, init) {
      var i :| 0 <= i < |init| && init[i].action.DeleteRecord? && Applies(q, stage, init[i]);
      assert rules[i] == init[i];
    }
  }

  /**
   * Evaluating copies of rules gives the same view unless one of the applied rules deletes its record:
   * the copy of a DELETE rule carries an empty content map, and evaluation refuses it.
   */
  lemma EvaluateClones(q: Query, base: seq<Record>, rules: seq<Rule>)
    requires EvaluateMap(q, base, rules).Success?
    ensures EvaluateMap(q, base, Clones(rules)) ==
            if SomeDeleteApplies(q, "", rules) || SomeDeleteApplies(q, q.scope.stage, rules)
            then Failure(Invariant) else EvaluateMap(q, base, rules)
  {
    ClonedLayer(q, "", rules, BaseMap(q, base));
    var wide := Layer(q, "", rules, BaseMap(q, base)).value;
    if q.scope.stage != "" { ClonedLayer(q, q.scope.stage, rules, wide); }
  }

  /** A concrete deletion that evaluates as compiled but is refused once copied. */
  lemma ClonedDeleteRefused()
    ensures var scope := Scope("cn", "test", "gray");
            var record := Record("routes", "test", "k", map["code" := "k"], 1);
            var spec := RuleSpec("r", "routes", scope, "k", Some(record), None, [], 2, "o", Some(2), None,
                                 Provenance(None, None, None, None, 1, "a", 1, "a"));
            var q := Query("routes", scope, None);
            && CompileRule(spec).Success?
            && EvaluateMap(q, [record], [CompileRule(spec).value]) == Success(map[])
            && EvaluateMap(q, [record], [Clone(CompileRule(spec).value)]) == Failure(Invariant)
  {
    var scope := Scope("cn", "test", "gray");
    var record := Record("routes", "test", "k", map["code" := "k"], 1);
    var spec := RuleSpec("r", "routes", scope, "k", Some(record), None, [], 2, "o", Some(2), None,
                         Provenance(None, None, None, None, 1, "a", 1, "a"));
    var q := Query("routes", scope, None);
    var rule := CompileRule(spec).value;
    var base := [record];
    assert base[..0] == [] && BaseMap(q, base) == map["k" := record];
    var rules := [rule];
    assert rules[..0] == [];
    CompileThenEvaluate(q, base, [spec], rules);
    var out := EvaluateMap(q, base, rules).value;
    assert forall k :: Lookup(out, k) == None by {
      forall k ensures Lookup(out, k) == None {
        assert [spec][..0] == [];
        assert FindSpec([spec], k) == if k == "k" then Some(spec) else None;
        assert Lookup(out, k) == TargetAt(q, [spec], BaseMap(q, base), k);
      }
    }
    assert forall k :: k in out ==> Lookup(out, k).Some?;
    assert out == map[];
    EvaluateClones(q, base, rules);
    assert SomeDeleteApplies(q, scope.stage, rules) by { assert rules[0].action.DeleteRecord?; }
    assert Clones(rules) == [Clone(rule)];
  }

  // ----- when evaluation succeeds -----

  /** At most one rule per scope and key, as the rule table keeps them. */
  predicate DistinctTargets(rules: seq<Rule>) {
    forall i, j :: 0 <= i < j < |rules| ==> rules[i].scope != rules[j].scope || rules[i].key != rules[j].key
  }

  /** The rule can be read, and if it applies it finds its key present or absent as its action needs. */
  predicate RuleEvaluates(q: Query, stage: string, rule: Rule, present: bool) {
    && RangesReadable(q, stage, rule)
    && (Applies(q, stage, rule) ==>
         match rule.action
         case AddRecord => rule.content.Some? && !present
         case ModifyRecord => rule.content.Some? && present
         case DeleteRecord => rule.content.None? && present
         case UnknownAction(_) => false)
  }

  predicate Adds(q: Query, stage: string, rules: seq<Rule>, key: string) {
    exists i :: 0 <= i < |rules| && Applies(q, stage, rules[i]) && rules[i].action.AddRecord? && rules[i].key == key
  }

  predicate Removes(q: Query, stage: string, rules: seq<Rule>, key: string) {
    exists i :: 0 <= i < |rules| && Applies(q, stage, rules[i]) && rules[i].action.DeleteRecord? && rules[i].key == key
  }

  predicate Speaks(q: Query, stage: string, rules: seq<Rule>, key: string) {
    exists i :: 0 <= i < |rules| && Applies(q, stage, rules[i]) && rules[i].key == key
  }

  lemma LayerSplit(q: Query, stage: string, init: seq<Rule>, last: Rule, key: string)
    ensures var rules := init + [last];
            && (Adds(q, stage, rules, key) <==>
                  Adds(q, stage, init, key) || (Applies(q, stage, last) && last.action.AddRecord? && last.key == key))
            && (Removes(q, stage, rules, key) <==>
                  Removes(q, stage, init, key)
                  || (Applies(q, stage, last) && last.action.DeleteRecord? && last.key == key))
            && (Speaks(q, stage, rules, key) <==>
                  Speaks(q, stage, init, key) || (Applies(q, stage, last) && last.key == key))
  {
    hide Applies;
    var rules := init + [last];
    assert rules[|init|] == last;
    assert forall i :: 0 <= i < |init| ==> rules[i] == init[i];
    assert forall i :: 0 <= i < |rules| ==> i == |init| || rules[i] == init[i];
  }

  /** A layer of rules with distinct keys: each rule succeeds or fails on the records the layer started from. */
  lemma {:induction false} LayerExactly(q: Query, stage: string, rules: seq<Rule>, records: map<string, Record>)
    requires DistinctTargets(rules)
    ensures Layer(q, stage, rules, records).Success? <==>
              forall i :: 0 <= i < |rules| ==> RuleEvaluates(q, stage, rules[i], rules[i].key in records)
    ensures Layer(q, stage, rules, records).Success? ==>
              forall k :: k in Layer(q, stage, rules, records).value <==>
                (k in records && !Removes(q, stage, rules, k)) || Adds(q, stage, rules, k)
  {
    hide RangesReadable, Adds, Removes, Speaks, Applies, InLayer;
    if rules == [] {
      NothingApplies(q, stage);
    } else {
      var init, last := rules[..|rules| - 1], rules[|rules| - 1];
      assert rules == init + [last];
      assert forall i :: 0 <= i < |init| ==> rules[i] == init[i];
      LayerExactly(q, stage, init, records);
      forall k
        ensures (Adds(q, stage, init, k) || Removes(q, stage, init, k)) ==> Speaks(q, stage, init, k)
      {
        SpeaksUp(q, stage, init, k);
      }
      if Applies(q, stage, last) { LastSpeaksAlone(q, stage, init, last); }
      if Layer(q, stage, init, records).Success? {
        LastRule(q, stage, Layer(q, stage, init, records).value, last, last.key in records);
        if Layer(q, stage, rules, records).Success? {
          forall k
            ensures k in Layer(q, stage, rules, records).value <==>
                      (k in records && !Removes(q, stage, rules, k)) || Adds(q, stage, rules, k)
          {
            LayerSplit(q, stage, init, last, k);
          }
        }
      }
    }
  }

  lemma NothingApplies(q: Query, stage: string)
    ensures forall k :: !Adds(q, stage, [], k) && !Removes(q, stage, [], k)
  {
  }

  lemma SpeaksUp(q: Query, stage: string, rules: seq<Rule>, key: string)
    ensures Adds(q, stage, rules, key) || Removes(q, stage, rules, key) ==> Speaks(q, stage, rules, key)
  {
    hide Applies;
  }

  lemma LastSpeaksAlone(q: Query, stage: string, init: seq<Rule>, last: Rule)
    requires DistinctTargets(init + [last]) && Applies(q, stage, last)
    ensures !Speaks(q, stage, init, last.key)
  {
    var rules := init + [last];
    assert rules[|init|] == last;
    forall i | 0 <= i < |init| && Applies(q, stage, init[i])
      ensures init[i].key != last.key
    {
      assert rules[i] == init[i];
    }
  }

  lemma LastRule(q: Query, stage: string, before: map<string, Record>, rule: Rule, present: bool)
    requires Applies(q, stage, rule) ==> (present <==> rule.key in before)
    ensures ApplyRule(q, stage, before, rule).Success? <==> RuleEvaluates(q, stage, rule, present)
    ensures ApplyRule(q, stage, before, rule).Success? ==>
              forall k :: k in ApplyRule(q, stage, before, rule).value <==>
                if Applies(q, stage, rule) && rule.key == k then !rule.action.DeleteRecord? else k in before
  {
    hide RangesReadable, Applies;
  }

  /**
   * Evaluation succeeds exactly when every rule of the environment-wide layer fits the base records, and every rule of
   * the queried stage fits what that layer leaves.
   */
  lemma EvaluatesExactly(q: Query, base: seq<Record>, rules: seq<Rule>)
    requires DistinctTargets(rules)
    ensures var records := BaseMap(q, base);
            EvaluateMap(q, base, rules).Success? <==>
              && (forall i :: 0 <= i < |rules| ==> RuleEvaluates(q, "", rules[i], rules[i].key in records))
              && (q.scope.stage != "" ==> forall i :: 0 <= i < |rules| ==>
                   RuleEvaluates(q, q.scope.stage, rules[i],
                                 (rules[i].key in records && !Removes(q, "", rules, rules[i].key))
                                 || Adds(q, "", rules, rules[i].key)))
  {
    hide RuleEvaluates, Adds, Removes, DistinctTargets;
    LayerExactly(q, "", rules, BaseMap(q, base));
    if Layer(q, "", rules, BaseMap(q, base)).Success? {
      LayerExactly(q, q.scope.stage, rules, Layer(q, "", rules, BaseMap(q, base)).value);
    }
  }

  /**
   * Records of the queried collection and environment with distinct keys are all in the base map, and nothing else is.
   */
  lemma {:induction false} BaseMapOfListed(q: Query, base: seq<Record>)
    requires forall i :: 0 <= i < |base| ==>
               base[i].collection == q.collection && base[i].environment == q.scope.environment
    ensures forall k :: k in BaseMap(q, base) <==> exists i :: 0 <= i < |base| && base[i].key == k
  {
    if base != [] {
      var n := |base| - 1;
      BaseMapOfListed(q, base[..n]);
      assert forall i :: 0 <= i < n ==> base[..n][i] == base[i];
      assert forall i :: 0 <= i < |base| ==> i == n || base[i] == base[..n][i];
    }
  }
}
