/** The loops inside the release operations: what one step plans for its targets, and the inverse batches. */
module Planning {
  import opened Wrappers
  import opened Catalog
  import opened Overlay
  import opened Rollout
  import opened Effects
  import opened OrderState
  import Text

  // ----- the targets of a configuration step -----

  method PlanBaseItems(o: Order, a: Authority, hasPercent: bool) returns (r: Result<(seq<BaseChange>, seq<RuleChange>),
          Error>)
    ensures r == BaseItems(o, a, hasPercent, o.items)
  {
    hide BaseItem;
    var changes: seq<BaseChange>, overlayChanges: seq<RuleChange> := [], [];
    for n := 0 to |o.items|
      invariant BaseItems(o, a, hasPercent, o.items[..n]) == Success((changes, overlayChanges))
    {
      assert o.items[..n + 1][..n] == o.items[..n];
      BaseItemsFailOnward(o, a, hasPercent, o.items, n + 1);
      var one := PlanBaseItem(o, a, hasPercent, o.items[n]);
      if one.Failure? { return Failure(one.error); }
      changes, overlayChanges := changes + one.value.0, overlayChanges + one.value.1;
    }
    assert o.items[..|o.items|] == o.items;
    return Success((changes, overlayChanges));
  }

  method PlanOverlayItems(o: Order, a: Authority, newRevision: nat, actor: string,
                          at: int) returns (r: Result<seq<RuleChange>, Error>)
    ensures r == OverlayItems(o, a, newRevision, actor, at, o.items)
  {
    hide OverlayItem;
    var changes: seq<RuleChange> := [];
    for n := 0 to |o.items|
      invariant OverlayItems(o, a, newRevision, actor, at, o.items[..n]) == Success(changes)
    {
      assert o.items[..n + 1][..n] == o.items[..n];
      OverlayItemsFailOnward(o, a, newRevision, actor, at, o.items, n + 1);
      var one := PlanOverlayItem(o, a, newRevision, actor, at, o.items[n]);
      if one.Failure? { return Failure(one.error); }
      changes := changes + [one.value];
    }
    assert o.items[..|o.items|] == o.items;
    return Success(changes);
  }

  method PlanPercentItems(o: Order, a: Authority, added: seq<BucketRange>, newRevision: nat, actor: string, at: int)
    returns (r: Result<seq<RuleChange>, Error>)
    ensures r == PercentItems(o, a, added, newRevision, actor, at, o.items)
  {
    hide PercentItem;
    var changes: seq<RuleChange> := [];
    for n := 0 to |o.items|
      invariant PercentItems(o, a, added, newRevision, actor, at, o.items[..n]) == Success(changes)
    {
      assert o.items[..n + 1][..n] == o.items[..n];
      PercentItemsFailOnward(o, a, added, newRevision, actor, at, o.items, n + 1);
      var one := PlanPercentItem(o, a, added, newRevision, actor, at, o.items[n]);
      if one.Failure? { return Failure(one.error); }
      changes := changes + [one.value];
    }
    assert o.items[..|o.items|] == o.items;
    return Success(changes);
  }

  method PlanBaseItem(o: Order, a: Authority, hasPercent: bool,
                      item: Item) returns (r: Result<(seq<BaseChange>, seq<RuleChange>), Error>)
    ensures r == BaseItem(o, a, hasPercent, item)
  {
    var existing := Lookup(a.records, item.key);
    if item.expectedRecordRevision == 0 {
      if existing.Some? { return Failure(Aborted); }
    } else if existing.None? || existing.value.revision != item.expectedRecordRevision || item.baseBefore.None?
              || !EqualData(existing.value.data, item.baseBefore.value.data) {
      return Failure(Aborted);
    }
    var changes: seq<BaseChange>, overlayChanges: seq<RuleChange> := [], [];
    if existing.None? && item.after.Some? {
      changes := [BaseChange(Add, None, item.after)];
    } else if existing.Some? && item.after.None? {
      changes := [BaseChange(Delete, existing, None)];
    } else if existing.Some? && item.after.Some? && !EqualData(existing.value.data, item.after.value.data) {
      changes := [BaseChange(Modify, existing, item.after)];
    }
    var rule := CloneOption(Lookup(a.rules, item.key));
    if hasPercent {
      if rule.None? || rule.value.orderId != o.id { return Failure(Aborted); }
    }
    if rule.Some? {
      if rule.value.collection != item.collection || rule.value.key != item.key || rule.value.scope != o.scope {
        return Failure(Invalid);
      }
      overlayChanges := [RuleChange(item.key, rule, None)];
    }
    return Success((changes, overlayChanges));
  }

  method PlanOverlayItem(o: Order, a: Authority, newRevision: nat, actor: string, at: int,
                         item: Item) returns (r: Result<RuleChange, Error>)
    ensures r == OverlayItem(o, a, newRevision, actor, at, item)
  {
    if a.revision != item.expectedCollectionRevision { return Failure(Aborted); }
    var base := Lookup(a.records, item.key);
    if item.expectedRecordRevision == 0 {
      if base.Some? { return Failure(Aborted); }
    } else if base.None? || base.value.revision != item.expectedRecordRevision {
      return Failure(Aborted);
    }
    var previous := CloneOption(Lookup(a.rules, item.key));
    if previous.Some? && !RuleTargets(previous.value, item, o.scope) { return Failure(Invalid); }
    var next: Option<Rule> := None;
    if base.Some? || item.after.Some? {
      var compiled := CompileRule(TargetSpec(o, item, base, previous, [], newRevision, actor, at));
      if compiled.Failure? { return Failure(Invalid); }
      next := Some(Clone(compiled.value));
    }
    return Success(RuleChange(item.key, previous, next));
  }

  method PlanPercentItem(o: Order, a: Authority, added: seq<BucketRange>, newRevision: nat, actor: string, at: int,
                         item: Item)
    returns (r: Result<RuleChange, Error>)
    ensures r == PercentItem(o, a, added, newRevision, actor, at, item)
  {
    var base := Lookup(a.records, item.key);
    if item.expectedRecordRevision == 0 {
      if base.Some? { return Failure(Aborted); }
    } else if base.None? || base.value.revision != item.expectedRecordRevision {
      return Failure(Aborted);
    }
    var previous := CloneOption(Lookup(a.rules, item.key));
    if previous.Some? {
      if !RuleTargets(previous.value, item, o.scope) { return Failure(Invalid); }
      if previous.value.orderId != o.id { return Failure(Aborted); }
    }
    var currentRanges := if previous.Some? then previous.value.ranges else [];
    var ranges := ExpandRolloutRanges(currentRanges, added);
    if ranges.Failure? { return Failure(Invalid); }
    var compiled := CompileRule(TargetSpec(o, item, base, previous, ranges.value, newRevision, actor, at));
    if compiled.Failure? { return Failure(Invalid); }
    if previous.Some? && (previous.value.action != compiled.value.action
                          || !EqualData(previous.value.content.GetOr(map[]), compiled.value.content.GetOr(map[]))) {
      return Failure(Aborted);
    }
    return Success(RuleChange(item.key, previous, Some(Clone(compiled.value))));
  }

  lemma {:induction false} BaseItemsFailOnward(o: Order, a: Authority, hasPercent: bool, items: seq<Item>, n: nat)
    requires n <= |items|
    ensures BaseItems(o, a, hasPercent, items[..n]).Failure? ==>
              BaseItems(o, a, hasPercent, items) == BaseItems(o, a, hasPercent, items[..n])
    decreases |items| - n
  {
    hide BaseItem;
    if n == |items| {
      assert items[..n] == items;
    } else {
      assert items[..n + 1][..n] == items[..n];
      BaseItemsFailOnward(o, a, hasPercent, items, n + 1);
    }
  }

  lemma {:induction false} OverlayItemsFailOnward(o: Order, a: Authority, newRevision: nat, actor: string, at: int,
                                                  items: seq<Item>, n: nat)
    requires n <= |items|
    ensures OverlayItems(o, a, newRevision, actor, at, items[..n]).Failure? ==>
              OverlayItems(o, a, newRevision, actor, at, items)
              == OverlayItems(o, a, newRevision, actor, at, items[..n])
    decreases |items| - n
  {
    hide OverlayItem;
    if n == |items| {
      assert items[..n] == items;
    } else {
      assert items[..n + 1][..n] == items[..n];
      OverlayItemsFailOnward(o, a, newRevision, actor, at, items, n + 1);
    }
  }

  lemma {:induction false} PercentItemsFailOnward(o: Order, a: Authority, added: seq<BucketRange>, newRevision: nat,
                                                  actor: string, at: int, items: seq<Item>, n: nat)
    requires n <= |items|
    ensures PercentItems(o, a, added, newRevision, actor, at, items[..n]).Failure? ==>
              PercentItems(o, a, added, newRevision, actor, at, items)
              == PercentItems(o, a, added, newRevision, actor, at, items[..n])
    decreases |items| - n
  {
    hide PercentItem;
    if n == |items| {
      assert items[..n] == items;
    } else {
      assert items[..n + 1][..n] == items[..n];
      PercentItemsFailOnward(o, a, added, newRevision, actor, at, items, n + 1);
    }
  }

  // ----- comparing the targets -----

  method CollectActual(o: Order, actual: seq<Record>) returns (r: Result<map<string, Record>, Error>)
    requires WellFormedOrder(o)
    ensures r == ActualByKey(o, actual)
  {
    var targets := TargetKeys(o);
    var found: map<string, Record> := map[];
    for n := 0 to |actual|
      invariant ActualByKey(o, actual[..n]) == Success(found)
    {
      assert actual[..n + 1][..n] == actual[..n];
      ActualFailsOnward(o, actual, n + 1);
      var record := actual[n];
      if record.key !in targets { continue; }
      if record.collection != o.items[0].collection || record.environment != o.scope.environment {
        return Failure(Invalid);
      }
      if record.key in found { return Failure(Invalid); }
      found := found[record.key := record];
    }
    assert actual[..|actual|] == actual;
    return Success(found);
  }

  method TargetKeys(o: Order) returns (keys: set<string>)
    ensures forall k :: k in keys <==> IsTarget(o, k)
  {
    keys := {};
    for n := 0 to |o.items|
      invariant forall k :: k in keys <==> exists i :: 0 <= i < n && o.items[i].key == k
    {
      keys := keys + {o.items[n].key};
    }
  }

  lemma {:induction false} ActualFailsOnward(o: Order, actual: seq<Record>, n: nat)
    requires WellFormedOrder(o) && n <= |actual|
    ensures ActualByKey(o, actual[..n]).Failure? ==> ActualByKey(o, actual) == ActualByKey(o, actual[..n])
    decreases |actual| - n
  {
    hide WellFormedOrder;
    if n == |actual| {
      assert actual[..n] == actual;
    } else {
      assert actual[..n + 1][..n] == actual[..n];
      ActualFailsOnward(o, actual, n + 1);
    }
  }

  method CollectExpected(items: seq<Item>) returns (expected: map<string, Record>)
    requires DistinctKeys(items)
    ensures expected == ExpectedByKey(items)
  {
    expected := map[];
    for n := 0 to |items|
      invariant expected == ExpectedByKey(items[..n])
      invariant forall k :: k in expected ==> exists i :: 0 <= i < n && items[i].key == k
    {
      assert items[..n + 1][..n] == items[..n];
      assert items[n].key !in expected;
      assert expected - {items[n].key} == expected;
      if items[n].after.Some? {
        expected := expected[items[n].key := items[n].after.value];
      }
    }
    assert items[..|items|] == items;
  }

  /** The target keys whose two sides differ, in increasing order. */
  method FindDifferences(o: Order, expected: map<string, Record>, actual: map<string, Record>)
    returns (diffKeys: seq<string>)
    requires WellFormedOrder(o) && expected == ExpectedByKey(o.items)
    ensures diffKeys == Text.InOrder(DiffKeys(o, actual))
  {
    hide WellFormedItem;
    var found: set<string> := {};
    for n := 0 to |o.items|
      invariant found == DiffKeys(o.(items := o.items[..n]), actual)
    {
      var key := o.items[n].key;
      ExpectedAt(o.items, n);
      var before := found;
      if Differs(Lookup(expected, key), Lookup(actual, key)) { found := found + {key}; }
      DiffKeysStep(o, actual, n);
    }
    assert o.(items := o.items[..|o.items|]) == o;
    diffKeys := Text.SortNames(found);
    Text.StrictlySortedUnique(diffKeys, Text.InOrder(found));
  }

  lemma DiffKeysStep(o: Order, actual: map<string, Record>, n: nat)
    requires n < |o.items|
    ensures DiffKeys(o.(items := o.items[..n + 1]), actual)
            == DiffKeys(o.(items := o.items[..n]), actual)
               + (if Differs(o.items[n].after, Lookup(actual, o.items[n].key)) then {o.items[n].key} else {})
  {
    var key := o.items[n].key;
    var upTo, before := o.(items := o.items[..n + 1]), o.(items := o.items[..n]);
    forall k | k in DiffKeys(upTo, actual)
      ensures k in DiffKeys(before, actual) || (k == key && Differs(o.items[n].after, Lookup(actual, key)))
    {
      var i :| 0 <= i < n + 1 && Differs(upTo.items[i].after, Lookup(actual, upTo.items[i].key))
               && upTo.items[i].key == k;
      if i < n { assert before.items[i] == upTo.items[i]; }
    }
    forall k | k in DiffKeys(before, actual) ensures k in DiffKeys(upTo, actual) {
      var i :| 0 <= i < n && Differs(before.items[i].after, Lookup(actual, before.items[i].key))
               && before.items[i].key == k;
      assert before.items[i] == upTo.items[i];
    }
    assert upTo.items[n] == o.items[n];
  }

  lemma {:induction false} ExpectedAt(items: seq<Item>, i: nat)
    requires DistinctKeys(items) && i < |items|
    ensures Lookup(ExpectedByKey(items), items[i].key) == items[i].after
  {
    var n := |items| - 1;
    assert items[i].key == items[n].key ==> i == n;
    if i < n {
      ExpectedAt(items[..n], i);
    }
  }

  // ----- the inverse batches -----

  /** The outcome of a backward walk that had already gathered `done`. */
  function Prefixed<A, B>(done: seq<A>, rest: Result<(seq<A>, B), Error>): Result<(seq<A>, B), Error> {
    match rest
    case Success(found) => Success((done + found.0, found.1))
    case Failure(error) => Failure(error)
  }

  function PrefixedList<A>(done: seq<A>, rest: Result<seq<A>, Error>): Result<seq<A>, Error> {
    match rest
    case Success(found) => Success(done + found)
    case Failure(error) => Failure(error)
  }

  method PlanInverseBase(changes: seq<BaseChange>, applied: nat, start: map<string, Record>)
    returns (r: Result<(seq<BaseChange>, map<string, Record>), Error>)
    ensures r == InverseBase(changes, applied, start)
  {
    hide InverseBaseChange;
    var records, done: seq<BaseChange>, n := start, [], |changes|;
    assert changes[..n] == changes;
    PrefixedNothing(InverseBase(changes, applied, start));
    while n > 0
      invariant 0 <= n <= |changes|
      invariant InverseBase(changes, applied, start) == Prefixed(done, InverseBase(changes[..n], applied, records))
    {
      n := n - 1;
      assert changes[..n + 1][..n] == changes[..n] && changes[..n + 1][n] == changes[n];
      var one := InverseBaseChange(changes[n], applied, records);
      if one.Failure? { return Failure(one.error); }
      PrefixedTwice(done, [one.value.0], InverseBase(changes[..n], applied, one.value.1));
      done, records := done + [one.value.0], one.value.1;
    }
    assert done + [] == done;
    return Success((done, records));
  }

  lemma PrefixedNothing<A, B>(rest: Result<(seq<A>, B), Error>)
    ensures Prefixed([], rest) == rest
  {
    if rest.Success? { assert [] + rest.value.0 == rest.value.0; }
  }

  lemma PrefixedListNothing<A>(rest: Result<seq<A>, Error>)
    ensures PrefixedList([], rest) == rest
  {
    if rest.Success? { assert [] + rest.value == rest.value; }
  }

  lemma PrefixedTwice<A, B>(done: seq<A>, next: seq<A>, rest: Result<(seq<A>, B), Error>)
    ensures Prefixed(done, Prefixed(next, rest)) == Prefixed(done + next, rest)
  {
    if rest.Success? { assert done + (next + rest.value.0) == done + next + rest.value.0; }
  }

  lemma PrefixedListTwice<A>(done: seq<A>, next: seq<A>, rest: Result<seq<A>, Error>)
    ensures PrefixedList(done, PrefixedList(next, rest)) == PrefixedList(done + next, rest)
  {
    if rest.Success? { assert done + (next + rest.value) == done + next + rest.value; }
  }

  method PlanInverseRules(changes: seq<RuleChange>, start: map<string, Rule>)
    returns (r: Result<(seq<RuleChange>, map<string, Rule>), Error>)
    ensures r == InverseRules(changes, start)
  {
    var rules, done: seq<RuleChange>, n := start, [], |changes|;
    assert changes[..n] == changes;
    PrefixedNothing(InverseRules(changes, start));
    while n > 0
      invariant 0 <= n <= |changes|
      invariant InverseRules(changes, start) == Prefixed(done, InverseRules(changes[..n], rules))
    {
      n := n - 1;
      assert changes[..n + 1][..n] == changes[..n] && changes[..n + 1][n] == changes[n];
      var original := changes[n];
      var current := Lookup(rules, original.key);
      if current != original.next { return Failure(Aborted); }
      var change := RuleChange(original.key, CloneOption(current), CloneOption(original.previous));
      rules := Put(rules, original.key, CloneOption(original.previous));
      PrefixedTwice(done, [change], InverseRules(changes[..n], rules));
      done := done + [change];
    }
    assert done + [] == done;
    return Success((done, rules));
  }

  method PlanUndoAdditions(changes: seq<BaseChange>, applied: nat, records: map<string, Record>)
    returns (r: Result<seq<BaseChange>, Error>)
    ensures r == UndoAdditions(changes, applied, records)
  {
    var done: seq<BaseChange>, n := [], |changes|;
    assert changes[..n] == changes;
    PrefixedListNothing(UndoAdditions(changes, applied, records));
    while n > 0
      invariant 0 <= n <= |changes|
      invariant UndoAdditions(changes, applied, records)
                == PrefixedList(done, UndoAdditions(changes[..n], applied, records))
    {
      n := n - 1;
      assert changes[..n + 1][..n] == changes[..n] && changes[..n + 1][n] == changes[n];
      var source := changes[n];
      if !source.action.Add? || source.after.None? { return Failure(Invalid); }
      var key := source.after.value.key;
      if !StillApplied(Lookup(records, key), source.after.value, applied) { return Failure(Aborted); }
      var change := BaseChange(Delete, Some(records[key]), None);
      PrefixedListTwice(done, [change], UndoAdditions(changes[..n], applied, records));
      done := done + [change];
    }
    assert done + [] == done;
    return Success(done);
  }

  method PlanRestoreCleaned(changes: seq<RuleChange>, rules: map<string, Rule>)
    returns (r: Result<seq<RuleChange>, Error>)
    ensures r == RestoreCleaned(changes, rules)
  {
    var done: seq<RuleChange>, n := [], |changes|;
    assert changes[..n] == changes;
    PrefixedListNothing(RestoreCleaned(changes, rules));
    while n > 0
      invariant 0 <= n <= |changes|
      invariant RestoreCleaned(changes, rules) == PrefixedList(done, RestoreCleaned(changes[..n], rules))
    {
      n := n - 1;
      assert changes[..n + 1][..n] == changes[..n] && changes[..n + 1][n] == changes[n];
      if changes[n].key in rules { return Failure(Aborted); }
      var change := RuleChange(changes[n].key, None, CloneOption(changes[n].previous));
      PrefixedListTwice(done, [change], RestoreCleaned(changes[..n], rules));
      done := done + [change];
    }
    assert done + [] == done;
    return Success(done);
  }

  method PlanSwap(changes: seq<RuleChange>) returns (swapped: seq<RuleChange>)
    ensures swapped == SwapRules(changes)
  {
    swapped := [];
    assert changes[..|changes|] == changes && swapped + SwapRules(changes) == SwapRules(changes);
    for n := 0 to |changes|
      invariant swapped + SwapRules(changes[..|changes| - n]) == SwapRules(changes)
    {
      var m := |changes| - 1 - n;
      assert changes[..m + 1][..m] == changes[..m];
      var source := changes[m];
      swapped := swapped + [RuleChange(source.key, CloneOption(source.next), CloneOption(source.previous))];
    }
  }

  /** The backward walk over the effects, newest first. */
  method PlanUnwind(steps: seq<StepState>, scope: Scope, start: Unwound) returns (r: Result<Unwound, Error>)
    requires EffectsValid(steps)
    ensures r == Unwind(steps, |steps|, scope, start)
  {
    hide ValidEnvelope;
    var u, n: nat := start, |steps|;
    while n > 0
      invariant n <= |steps|
      invariant Unwind(steps, |steps|, scope, start) == Unwind(steps, n, scope, u)
    {
      n := n - 1;
      if steps[n].effect.None? { continue; }
      var next := PlanUnwindEffect(steps[n].effect.value, scope, u);
      if next.Failure? { return Failure(next.error); }
      u := next.value;
    }
    return Success(u);
  }

  method PlanUnwindEffect(e: Envelope, scope: Scope, u: Unwound) returns (r: Result<Unwound, Error>)
    requires ValidEnvelope(e)
    ensures r == UnwindEffect(e, scope, u)
  {
    hide ValidEnvelope;
    var d := DeltaOf(e);
    var records := PlanInverseBase(d.changes, d.appliedRevision, u.records);
    if records.Failure? { return Failure(records.error); }
    var rules := PlanInverseRules(d.overlayChanges, u.rules);
    if rules.Failure? { return Failure(rules.error); }
    if d.appliedRevision != u.expected { return Failure(Aborted); }
    var collection := if u.collection == "" then d.collection else u.collection;
    if d.collection != collection || d.scope != scope { return Failure(FailedPrecondition); }
    return Success(Unwound(records.value.1, rules.value.1, u.changes + records.value.0, u.overlayChanges
                           + rules.value.0,
                           u.hasBase || e.effectType == BaseType, d.previousRevision, collection));
  }

  /** The indexes of the steps that hold an effect, newest first, each effect validated. */
  method CheckEffects(steps: seq<StepState>) returns (r: Result<seq<nat>, Error>)
    ensures r == if EffectsValid(steps) then Success(EffectIndexes(steps, |steps|)) else Failure(FailedPrecondition)
    ensures r.Success? ==>
              && (r.value != [] <==> HasEffect(steps))
              && (forall i: nat :: i in r.value <==> i < |steps| && steps[i].effect.Some?)
              && (r.value != [] ==> r.value[|r.value| - 1] == FirstEffect(steps))
  {
    hide ValidEnvelope;
    var indexes: seq<nat>, n: nat := [], |steps|;
    assert indexes + EffectIndexes(steps, n) == EffectIndexes(steps, n);
    while n > 0
      invariant n <= |steps|
      invariant EffectIndexes(steps, |steps|) == indexes + EffectIndexes(steps, n)
      invariant forall i :: n <= i < |steps| && steps[i].effect.Some? ==> ValidEnvelope(steps[i].effect.value)
    {
      n := n - 1;
      if steps[n].effect.Some? {
        var valid := ValidateStepEffect(steps[n].effect);
        if !valid { return Failure(FailedPrecondition); }
        indexes := indexes + [n];
      }
    }
    assert indexes + [] == indexes;
    IndexesOfEffects(steps, |steps|);
    LastIndexIsFirstEffect(steps);
    return Success(indexes);
  }

  function EffectIndexes(steps: seq<StepState>, n: nat): seq<nat>
    requires n <= |steps|
  {
    if n == 0 then []
    else if steps[n - 1].effect.Some? then [n - 1] + EffectIndexes(steps, n - 1)
    else EffectIndexes(steps, n - 1)
  }

  lemma {:induction false} IndexesOfEffects(steps: seq<StepState>, n: nat)
    requires n <= |steps|
    ensures forall i: nat :: i in EffectIndexes(steps, n) <==> i < n && steps[i].effect.Some?
    ensures EffectIndexes(steps, n) != [] ==>
              forall i: nat :: i in EffectIndexes(steps, n) ==>
                EffectIndexes(steps, n)[|EffectIndexes(steps, n)| - 1] <= i
  {
    if n > 0 {
      IndexesOfEffects(steps, n - 1);
      var rest := EffectIndexes(steps, n - 1);
      if rest != [] { assert rest[|rest| - 1] in rest; }
    }
  }

  lemma {:induction false} FirstEffectIsOldest(steps: seq<StepState>)
    ensures forall i :: 0 <= i < FirstEffect(steps) ==> steps[i].effect.None?
    ensures FirstEffect(steps) < |steps| ==> steps[FirstEffect(steps)].effect.Some?
  {
    if steps != [] && steps[0].effect.None? {
      FirstEffectIsOldest(steps[1..]);
      forall i | 0 <= i < FirstEffect(steps) ensures steps[i].effect.None? {
        if i > 0 { assert steps[1..][i - 1] == steps[i]; }
      }
    }
  }

  /** Undoing newest first ends at the oldest step with an effect. */
  lemma LastIndexIsFirstEffect(steps: seq<StepState>)
    ensures HasEffect(steps) <==> EffectIndexes(steps, |steps|) != []
    ensures HasEffect(steps) ==>
              EffectIndexes(steps, |steps|)[|EffectIndexes(steps, |steps|)| - 1] == FirstEffect(steps)
  {
    IndexesOfEffects(steps, |steps|);
    FirstEffectIsOldest(steps);
    var indexes := EffectIndexes(steps, |steps|);
    if HasEffect(steps) {
      var i :| 0 <= i < |steps| && steps[i].effect.Some?;
      assert i in indexes;
    }
    if indexes != [] {
      assert indexes[|indexes| - 1] in indexes;
      assert FirstEffect(steps) in indexes;
    }
  }

  method MarkEffects(steps: seq<StepState>, indexes: seq<nat>, actor: string, at: int) returns (marked: seq<StepState>)
    requires forall i: nat :: i in indexes <==> i < |steps| && steps[i].effect.Some?
    ensures marked == MarkRolledBack(steps, actor, at)
  {
    marked := steps;
    for n := 0 to |indexes|
      invariant |marked| == |steps|
      invariant forall i :: 0 <= i < |steps| ==>
                  marked[i] == if i in indexes[..n]
                  then steps[i].(status := RolledBack, rolledBackAt := Some(at), rolledBackBy := actor)
                               else steps[i]
    {
      var index := indexes[n];
      assert index in indexes;
      assert indexes[..n + 1] == indexes[..n] + [index];
      marked := marked[index := marked[index].(status := RolledBack, rolledBackAt := Some(at), rolledBackBy := actor)];
    }
    assert indexes[..|indexes|] == indexes;
  }

  // ----- the items of a new order -----

  /** Checks the item specifications in order, stopping at the first fault, and builds the items. */
  method BuildItems(overlay: bool, spec: OrderSpec, scope: Scope) returns (r: Result<seq<Item>, Error>)
    requires spec.items != []
    ensures r.Success? <==>
              && TargetOf(overlay, spec.items[0]).Some?
              && (forall i :: 0 <= i < |spec.items| ==>
                    AcceptsItem(overlay, spec, scope, TargetOf(overlay, spec.items[0]).value.collection, i))
              && (forall i, j :: 0 <= i < j < |spec.items| ==>
                    TargetKey(overlay, spec.items[i]) != TargetKey(overlay, spec.items[j]))
    ensures r.Success? ==>
              |r.value| == |spec.items|
              && forall i :: 0 <= i < |spec.items| ==>
                   && TargetOf(overlay, spec.items[i]).Some?
                   && r.value[i] == NewItem(overlay, spec.items[i], TargetOf(overlay, spec.items[0]).value.collection,
                                            scope)
    ensures r.Failure? ==> r.error == Invalid
  {
    hide ItemTargets, ValidOverlayShape, ValidBaseShape, AcceptsItem, NewItem;
    var items: seq<Item>, seen: set<string>, collection := [], {}, "";
    for n := 0 to |spec.items|
      invariant |items| == n
      invariant n > 0 ==>
                  && TargetOf(overlay, spec.items[0]).Some?
                  && collection == TargetOf(overlay, spec.items[0]).value.collection
      invariant n == 0 ==> collection == ""
      invariant forall i :: 0 <= i < n ==> AcceptsItem(overlay, spec, scope, collection, i)
      invariant forall i :: 0 <= i < n ==> TargetOf(overlay, spec.items[i]).Some?
      invariant forall i :: 0 <= i < n ==> items[i] == NewItem(overlay, spec.items[i], collection, scope)
      invariant forall i :: 0 <= i < n ==> TargetKey(overlay, spec.items[i]) in seen
      invariant forall k :: k in seen ==> exists i :: 0 <= i < n && TargetKey(overlay, spec.items[i]) == k
      invariant forall i, j :: 0 <= i < j < n ==> TargetKey(overlay, spec.items[i]) != TargetKey(overlay, spec.items[j])
    {
      var target := TargetOf(overlay, spec.items[n]);
      if target.None? {
        assert !AcceptsItem(overlay, spec, scope, collection, n) by {
          AcceptedHasTarget(overlay, spec, scope, collection, n);
        }
        return Failure(Invalid);
      }
      if n == 0 { collection := target.value.collection; }
      if !AcceptsItem(overlay, spec, scope, collection, n) { return Failure(Invalid); }
      if target.value.key in seen { return Failure(Invalid); }
      seen := seen + {target.value.key};
      items := items + [NewItem(overlay, spec.items[n], collection, scope)];
    }
    return Success(items);
  }

  lemma AcceptedHasTarget(overlay: bool, spec: OrderSpec, scope: Scope, collection: string, i: nat)
    requires i < |spec.items|
    ensures AcceptsItem(overlay, spec, scope, collection, i) ==> TargetOf(overlay, spec.items[i]).Some?
  {
  }
}
