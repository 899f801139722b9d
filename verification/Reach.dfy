/** What applying a base or an overlay step makes of its targets. */
module Reach {
  import opened Wrappers
  import opened Catalog
  import opened Overlay
  import opened Rollout
  import opened OrderState
  import opened World
  import opened Rollback
  import opened ReleaseRun
  import opened RolloutRun

  // ----- base steps -----

  /** The data comparison takes the present record for the desired one although their data differ. */
  predicate Masked(before: Option<Record>, desired: Option<Record>) {
    && before.Some? && desired.Some?
    && EqualData(before.value.data, desired.value.data) && before.value.data != desired.value.data
  }

  /** What the record becomes: the desired data under the new revision, or untouched when it already compares equal. */
  function WrittenRecord(before: Option<Record>, desired: Option<Record>, collection: string, environment: string,
                         key: string, applied: nat): Option<Record> {
    match (before, desired)
    case (_, None) => None
    case (None, Some(d)) => Some(Record(collection, environment, key, d.data, applied))
    case (Some(b), Some(d)) => if EqualData(b.data, d.data) then Some(b)
                               else Some(b.(data := d.data, revision := applied))
  }

  lemma OneItemWrites(before: Option<Record>, item: Item, collection: string, environment: string, applied: nat,
                      records: map<string, Record>)
    requires Lookup(records, item.key) == before
    requires SameTarget(before, collection, environment, item.key)
    requires SameTarget(item.after, collection, environment, item.key)
    ensures Lookup(ApplyBase(BaseItemChanges(before, item), collection, environment, applied, records), item.key)
            == WrittenRecord(before, item.after, collection, environment, item.key, applied)
  {
    var changes := BaseItemChanges(before, item);
    if changes != [] {
      SingleRuns(changes[0], collection, environment, applied, records); assert changes == [changes[0]];
    }
  }

  lemma {:induction false} BaseKeys(o: Order, a: Authority, hasPercent: bool, items: seq<Item>, collection: string,
                                    environment: string)
    requires BaseItems(o, a, hasPercent, items).Success?
    requires AllBelong(a.records, collection, environment)
    requires forall i :: 0 <= i < |items| ==> SameTarget(items[i].after, collection, environment, items[i].key)
    ensures forall j :: 0 <= j < |BaseItems(o, a, hasPercent, items).value.0| ==>
              KeyAmong(items, ChangeKey(BaseItems(o, a, hasPercent, items).value.0[j]))
  {
    if items != [] {
      var init, last := items[..|items| - 1], items[|items| - 1];
      BaseKeys(o, a, hasPercent, init, collection, environment);
      var all, before := BaseItems(o, a, hasPercent, items).value.0, BaseItems(o, a, hasPercent, init).value.0;
      var one := BaseItem(o, a, hasPercent, last).value.0;
      if last.key in a.records { assert Belongs(a.records[last.key], collection, environment, last.key); }
      assert one != [] ==> ChangeKey(one[0]) == last.key;
      forall j | 0 <= j < |all| ensures KeyAmong(items, ChangeKey(all[j])) {
        if j < |before| {
          assert KeyAmong(init, ChangeKey(before[j]));
          var k :| 0 <= k < |init| && init[k].key == ChangeKey(before[j]);
          assert items[k].key == ChangeKey(all[j]);
        } else {
          assert items[|items| - 1].key == ChangeKey(all[j]);
        }
      }
    }
  }

  /** Each target's record becomes what its own change writes; the changes of other targets do not touch it. */
  lemma {:induction false} RecordOfItem(o: Order, a: Authority, hasPercent: bool, items: seq<Item>, i: nat,
                                        collection: string, environment: string, applied: nat)
    requires i < |items| && DistinctKeys(items) && BaseItems(o, a, hasPercent, items).Success?
    requires AllBelong(a.records, collection, environment)
    requires forall j :: 0 <= j < |items| ==> SameTarget(items[j].after, collection, environment, items[j].key)
    ensures Lookup(ApplyBase(BaseItems(o, a, hasPercent, items).value.0, collection, environment, applied, a.records),
                   items[i].key)
            == WrittenRecord(Lookup(a.records, items[i].key), items[i].after, collection, environment, items[i].key,
                             applied)
  {
    hide BaseItem;
    var init, last := items[..|items| - 1], items[|items| - 1];
    var before := BaseItems(o, a, hasPercent, init).value.0;
    var one := BaseItem(o, a, hasPercent, last).value.0;
    var middle := ApplyBase(before, collection, environment, applied, a.records);
    ApplyBaseConcat(before, one, collection, environment, applied, a.records);
    BaseOne(o, a, hasPercent, last, collection, environment);
    if i < |init| {
      RecordOfItem(o, a, hasPercent, init, i, collection, environment, applied);
      UntouchedRecord(one, collection, environment, applied, middle, items[i].key);
    } else {
      BaseKeys(o, a, hasPercent, init, collection, environment);
      forall j | 0 <= j < |before| ensures ChangeKey(before[j]) != last.key {
        var k :| 0 <= k < |init| && init[k].key == ChangeKey(before[j]);
        assert items[k].key != items[|items| - 1].key;
      }
      UntouchedRecord(before, collection, environment, applied, a.records, last.key);
      OneItemWrites(Lookup(a.records, last.key), last, collection, environment, applied, middle);
    }
  }

  lemma BaseOne(o: Order, a: Authority, hasPercent: bool, item: Item, collection: string, environment: string)
    requires BaseItem(o, a, hasPercent, item).Success?
    requires AllBelong(a.records, collection, environment) && SameTarget(item.after, collection, environment, item.key)
    ensures BaseItem(o, a, hasPercent, item).value.0 == BaseItemChanges(Lookup(a.records, item.key), item)
    ensures forall j :: 0 <= j < |BaseItem(o, a, hasPercent, item).value.0| ==>
              ChangeKey(BaseItem(o, a, hasPercent, item).value.0[j]) == item.key
    ensures SameTarget(Lookup(a.records, item.key), collection, environment, item.key)
  {
    if item.key in a.records { assert Belongs(a.records[item.key], collection, environment, item.key); }
  }

  /**
   * A base step brings every target to its desired data, exactly unless the comparison masks a difference;
   * it removes every target's rule and leaves all other records alone.
   */
  lemma BaseStepReaches(o: Order, w: World, newRevision: nat, actor: string, at: int, i: nat)
    requires WellFormedOrder(o) && WellFormedWorld(w, o.items[0].collection, o.scope.environment) && i < |o.items|
    requires ExecuteBase(o, AuthorityOf(w), newRevision, actor, at).Success?
    requires ApplyEffect(ExecuteBase(o, AuthorityOf(w), newRevision, actor, at).value.1, w).Success?
    ensures var after := ApplyEffect(ExecuteBase(o, AuthorityOf(w), newRevision, actor, at).value.1, w).value;
            var item := o.items[i];
            && Lookup(after.records, item.key)
               == WrittenRecord(Lookup(w.records, item.key), item.after, o.items[0].collection, o.scope.environment,
                                item.key, newRevision)
            && (SameContent(Lookup(after.records, item.key), item.after) <==>
                  !Masked(Lookup(w.records, item.key), item.after))
            && item.key !in after.rules
            && after.revision == newRevision
            && forall key :: !KeyAmong(o.items, key) ==> Lookup(after.records, key) == Lookup(w.records, key)
  {
    hide BaseItems, BaseItem, ApplyBase, ApplyRules, InsertsFresh;
    var a, hasPercent, collection := AuthorityOf(w), LastPercent(o.steps, o.currentStep).Some?, o.items[0].collection;
    assert forall j :: 0 <= j < |o.items| ==>
             SameTarget(o.items[j].after, collection, o.scope.environment, o.items[j].key) by {
      forall j | 0 <= j < |o.items|
        ensures SameTarget(o.items[j].after, collection, o.scope.environment, o.items[j].key)
      {
        assert WellFormedItem(o.items[j], collection, o.scope);
      }
    }
    RecordOfItem(o, a, hasPercent, o.items, i, collection, o.scope.environment, newRevision);
    CleanupOfItems(o, a, hasPercent, o.items, i);
    BaseKeys(o, a, hasPercent, o.items, collection, o.scope.environment);
    var changes := BaseItems(o, a, hasPercent, o.items).value.0;
    forall key | !KeyAmong(o.items, key)
      ensures Lookup(ApplyBase(changes, collection, o.scope.environment, newRevision, w.records), key)
              == Lookup(w.records, key)
    {
      UntouchedRecord(changes, collection, o.scope.environment, newRevision, w.records, key);
    }
  }

  // ----- overlay steps -----

  lemma {:induction false} OverlayItemAt(o: Order, a: Authority, newRevision: nat, actor: string, at: int,
                                         items: seq<Item>, i: nat)
    requires i < |items| && OverlayItems(o, a, newRevision, actor, at, items).Success?
    ensures var all := OverlayItems(o, a, newRevision, actor, at, items).value;
            && |all| == |items| && OverlayItem(o, a, newRevision, actor, at, items[i]) == Success(all[i])
            && all[i].key == items[i].key
  {
    hide CompileRule, BaseUnchanged, RuleTargets, TargetSpec;
    var init := items[..|items| - 1];
    if i < |init| {
      OverlayItemAt(o, a, newRevision, actor, at, init, i);
    } else if i > 0 {
      OverlayItemAt(o, a, newRevision, actor, at, init, i - 1);
    }
  }

  lemma OverlayRuleOfItem(o: Order, a: Authority, newRevision: nat, actor: string, at: int, items: seq<Item>, i: nat)
    requires i < |items| && DistinctKeys(items) && OverlayItems(o, a, newRevision, actor, at, items).Success?
    ensures OverlayItem(o, a, newRevision, actor, at, items[i]).Success?
    ensures Lookup(ApplyRules(OverlayItems(o, a, newRevision, actor, at, items).value, a.rules), items[i].key)
            == OverlayItem(o, a, newRevision, actor, at, items[i]).value.next
  {
    hide OverlayItem, OverlayItems;
    OverlayItemAt(o, a, newRevision, actor, at, items, i);
    OverlayItemsFit(o, a, newRevision, actor, at, items);
    AppliedRule(OverlayItems(o, a, newRevision, actor, at, items).value, a.rules, i);
  }

  /** The target has a desired state, or at least a rule to remove; it does not ask for a base record to be hidden. */
  predicate Storing(a: Authority, item: Item) {
    item.after.Some? || (item.key !in a.records && item.key in a.rules)
  }

  lemma OverlayItemWrites(o: Order, a: Authority, newRevision: nat, actor: string, at: int, item: Item)
    requires OverlayItem(o, a, newRevision, actor, at, item).Success?
    ensures var c := OverlayItem(o, a, newRevision, actor, at, item).value;
            && c.key == item.key
            && ((c.previous.Some? || c.next.Some?) && (c.next.Some? ==> Storable(c.next.value)) <==> Storing(a, item))
            && (c.next.Some? ==> (Storable(c.next.value) <==> !DeletesBase(a, item)))
            && (c.next.None? ==> !DeletesBase(a, item))
  {
    hide Normalize;
  }

  /**
   * A planned overlay step is stored exactly when no name is blank and every target has something storable to write.
   */
  lemma OverlayStepStored(o: Order, w: World, newRevision: nat, actor: string, at: int)
    requires WellFormedOrder(o) && ExecuteOverlay(o, AuthorityOf(w), newRevision, actor, at).Success?
    ensures var plan := ExecuteOverlay(o, AuthorityOf(w), newRevision, actor, at).value.1;
            ApplyEffect(plan, w).Success? <==>
              NamesPresent(o, w.revision) && forall i :: 0 <= i < |o.items| ==> Storing(AuthorityOf(w), o.items[i])
  {
    hide OverlayItem, OverlayItems, WellFormedItem, DeletesBase, Storing, Storable;
    var a := AuthorityOf(w);
    var changes := OverlayItems(o, a, newRevision, actor, at, o.items).value;
    OverlayItemAt(o, a, newRevision, actor, at, o.items, 0);
    forall i | 0 <= i < |o.items|
      ensures changes[i].key == o.items[i].key
      ensures
        && (changes[i].previous.Some? || changes[i].next.Some?)
        && (changes[i].next.Some? ==> Storable(changes[i].next.value))
        <==> Storing(a, o.items[i])
    {
      OverlayItemAt(o, a, newRevision, actor, at, o.items, i);
      OverlayItemWrites(o, a, newRevision, actor, at, o.items[i]);
    }
  }

  // ----- evaluating what an overlay step wrote -----

  /** The specifications an overlay step compiles, one per target that has a base record or a desired state. */
  function OverlaySpecs(o: Order, a: Authority, newRevision: nat, actor: string, at: int,
                        items: seq<Item>): seq<RuleSpec> {
    if items == [] then []
    else
      var before, last := OverlaySpecs(o, a, newRevision, actor, at, items[..|items| - 1]), items[|items| - 1];
      var base, previous := Lookup(a.records, last.key), CloneOption(Lookup(a.rules, last.key));
      if base.None? && last.after.None? then before
      else before + [TargetSpec(o, last, base, previous, [], newRevision, actor, at)]
  }

  function CompiledRules(specs: seq<RuleSpec>): (r: seq<Rule>)
    requires forall i :: 0 <= i < |specs| ==> CompileRule(specs[i]).Success?
    ensures |r| == |specs|
  {
    seq(|specs|, i requires 0 <= i < |specs| => CompileRule(specs[i]).value)
  }

  /** The rules an overlay step left at its targets. */
  predicate WroteRules(o: Order, a: Authority, newRevision: nat, actor: string, at: int, items: seq<Item>,
                       rules: map<string, Rule>) {
    forall j :: 0 <= j < |items| ==>
      && OverlayItem(o, a, newRevision, actor, at, items[j]).Success?
      && Lookup(rules, items[j].key) == OverlayItem(o, a, newRevision, actor, at, items[j]).value.next
  }

  lemma {:induction false} WrittenRulesAreClones(o: Order, a: Authority, newRevision: nat, actor: string, at: int,
                                                 items: seq<Item>, rules: map<string, Rule>)
    requires WroteRules(o, a, newRevision, actor, at, items, rules)
    ensures var specs := OverlaySpecs(o, a, newRevision, actor, at, items);
            && (forall i :: 0 <= i < |specs| ==> CompileRule(specs[i]).Success?)
            && TargetRules(items, rules) == Clones(CompiledRules(specs))
  {
    if items != [] {
      hide CompileRule, BaseUnchanged, RuleTargets, TargetSpec;
      var init, last := items[..|items| - 1], items[|items| - 1];
      assert forall j :: 0 <= j < |init| ==> init[j] == items[j];
      WrittenRulesAreClones(o, a, newRevision, actor, at, init, rules);
      var specs, before := OverlaySpecs(o, a, newRevision, actor, at, items),
          OverlaySpecs(o, a, newRevision, actor, at, init);
      assert OverlayItem(o, a, newRevision, actor, at, last).Success?;
      if specs != before {
        assert CompiledRules(specs) == CompiledRules(before) + [CompileRule(specs[|before|]).value];
        assert Clones(CompiledRules(specs))
               == Clones(CompiledRules(before)) + [Clone(CompileRule(specs[|before|]).value)];
      }
    }
  }

  lemma {:induction false} BaseMapOfTargets(q: Query, items: seq<Item>, records: map<string, Record>, key: string)
    requires AllBelong(records, q.collection, q.scope.environment)
    ensures Lookup(BaseMap(q, TargetRecords(items, records)), key) == if KeyAmong(items, key)
            then Lookup(records, key) else None
  {
    if items != [] {
      var init, last := items[..|items| - 1], items[|items| - 1];
      BaseMapOfTargets(q, init, records, key);
      AmongLast(items, key);
      if last.key in records {
        assert Belongs(records[last.key], q.collection, q.scope.environment, last.key);
        var all := TargetRecords(items, records);
        assert all[..|all| - 1] == TargetRecords(init, records);
      }
    }
  }

  lemma AmongLast(items: seq<Item>, key: string)
    requires items != []
    ensures KeyAmong(items, key) <==> KeyAmong(items[..|items| - 1], key) || items[|items| - 1].key == key
  {
    var init := items[..|items| - 1];
    if KeyAmong(init, key) {
      var i :| 0 <= i < |init| && init[i].key == key;
      assert items[i].key == key;
    }
    if items[|items| - 1].key == key { assert KeyAmong(items, key); }
  }

  /** Each spec targets one of the items, no two the same, with the fields an overlay step gives it. */
  predicate SpecsFor(o: Order, a: Authority, newRevision: nat, items: seq<Item>, specs: seq<RuleSpec>) {
    && (forall i :: 0 <= i < |specs| ==> KeyAmong(items, specs[i].key))
    && (forall i, j :: 0 <= i < j < |specs| ==> specs[i].key != specs[j].key)
    && (forall i :: 0 <= i < |specs| ==>
         && specs[i].scope == o.scope && specs[i].ranges == []
         && specs[i].activatedRevision == Some(newRevision) && specs[i].expiredRevision == None
         && specs[i].revision == newRevision
         && specs[i].base == Lookup(a.records, specs[i].key))
  }

  lemma {:induction false} SpecsOfTargets(o: Order, a: Authority, newRevision: nat, actor: string, at: int,
                                          items: seq<Item>)
    requires DistinctKeys(items)
    ensures SpecsFor(o, a, newRevision, items, OverlaySpecs(o, a, newRevision, actor, at, items))
  {
    if items != [] {
      var init, last := items[..|items| - 1], items[|items| - 1];
      SpecsOfTargets(o, a, newRevision, actor, at, init);
      var before := OverlaySpecs(o, a, newRevision, actor, at, init);
      forall i | 0 <= i < |before| ensures before[i].key != last.key && KeyAmong(items, before[i].key) {
        LastKeyFresh(items, before[i].key);
      }
      AmongLast(items, last.key);
    }
  }

  lemma {:induction false} SpecOfTarget(o: Order, a: Authority, newRevision: nat, actor: string, at: int,
                                        items: seq<Item>, i: nat)
    requires i < |items| && DistinctKeys(items)
    ensures var found := FindSpec(OverlaySpecs(o, a, newRevision, actor, at, items), items[i].key);
            if Lookup(a.records, items[i].key).None? && items[i].after.None? then found.None?
            else
              && found.Some? && found.value.desired == items[i].after && found.value.ranges == []
              && found.value.revision == newRevision
              && found.value.collection == items[i].collection
  {
    var init, last := items[..|items| - 1], items[|items| - 1];
    var before, all := OverlaySpecs(o, a, newRevision, actor, at, init),
        OverlaySpecs(o, a, newRevision, actor, at, items);
    var skipped := Lookup(a.records, last.key).None? && last.after.None?;
    assert skipped ==> all == before;
    assert !skipped ==> all[..|all| - 1] == before && all[|all| - 1].key == last.key;
    if i < |init| {
      assert items[i] == init[i] && items[i].key != items[|items| - 1].key;
      SpecOfTarget(o, a, newRevision, actor, at, init, i);
    } else if skipped {
      SpecsOfTargets(o, a, newRevision, actor, at, init);
      forall j | 0 <= j < |before| ensures before[j].key != last.key {
        assert KeyAmong(init, before[j].key);
        LastKeyFresh(items, before[j].key);
      }
      FindSpecAbsent(before, last.key);
    }
  }

  lemma {:induction false} DeletingSpec(o: Order, a: Authority, newRevision: nat, actor: string, at: int,
                                        items: seq<Item>)
    ensures var specs := OverlaySpecs(o, a, newRevision, actor, at, items);
            (exists i :: 0 <= i < |specs| && specs[i].desired.None? && specs[i].base.Some?) <==>
            (exists i :: 0 <= i < |items| && DeletesBase(a, items[i]))
  {
    if items != [] {
      var init, last := items[..|items| - 1], items[|items| - 1];
      DeletingSpec(o, a, newRevision, actor, at, init);
      var specs, before := OverlaySpecs(o, a, newRevision, actor, at, items),
          OverlaySpecs(o, a, newRevision, actor, at, init);
      if i :| 0 <= i < |init| && DeletesBase(a, init[i]) {
        assert DeletesBase(a, items[i]);
        var j :| 0 <= j < |before| && before[j].desired.None? && before[j].base.Some?;
        assert specs[j] == before[j];
      }
      if j :| 0 <= j < |specs| && specs[j].desired.None? && specs[j].base.Some? {
        if j < |before| {
          assert before[j] == specs[j];
          var i :| 0 <= i < |init| && DeletesBase(a, init[i]);
          assert DeletesBase(a, items[i]);
        } else {
          assert DeletesBase(a, last);
          assert DeletesBase(a, items[|items| - 1]);
        }
      }
      if DeletesBase(a, last) { assert specs[|before|].desired.None? && specs[|before|].base.Some?; }
    }
  }

  lemma CompiledDeletes(q: Query, specs: seq<RuleSpec>, rules: seq<Rule>, base: map<string, Record>)
    requires CompiledFrom(q, specs, base, rules)
    requires forall i :: 0 <= i < |specs| ==> specs[i].ranges == []
    ensures SomeDeleteApplies(q, q.scope.stage, rules) <==>
              exists i :: 0 <= i < |specs| && specs[i].desired.None? && specs[i].base.Some?
  {
    forall i | 0 <= i < |specs|
      ensures rules[i].action.DeleteRecord? && Applies(q, q.scope.stage, rules[i]) <==>
                specs[i].desired.None? && specs[i].base.Some?
    {
      NormalizedSameService(q, specs[i], rules[i]);
    }
  }

  /**
   * What an overlay step wrote at its targets evaluates for every client, exactly unless one target deletes a base
   * record.
   */
  lemma WrittenRulesEvaluate(o: Order, a: Authority, newRevision: nat, actor: string, at: int, rules: map<string, Rule>,
                             bucket: Option<int>)
    requires WellFormedOrder(o) && o.scope.stage != ""
    requires AllBelong(a.records, o.items[0].collection, o.scope.environment)
    requires WroteRules(o, a, newRevision, actor, at, o.items, rules)
    ensures var q := Query(o.items[0].collection, o.scope, bucket);
            var view := EvaluateMap(q, TargetRecords(o.items, a.records), TargetRules(o.items, rules));
            && (view.Success? <==> forall i :: 0 <= i < |o.items| ==> !DeletesBase(a, o.items[i]))
            && (view.Success? ==> forall i :: 0 <= i < |o.items| ==>
                  Lookup(view.value, o.items[i].key) ==
                  (match o.items[i].after case None => None case Some(d) => Some(d.(revision := newRevision))))
  {
    hide WroteRules, EvaluateMap, CompileRule, TargetRules, TargetRecords, OverlaySpecs, BaseMap;
    var q := Query(o.items[0].collection, o.scope, bucket);
    var base, specs := TargetRecords(o.items, a.records), OverlaySpecs(o, a, newRevision, actor, at, o.items);
    WrittenRulesAreClones(o, a, newRevision, actor, at, o.items, rules);
    SpecsOfTargets(o, a, newRevision, actor, at, o.items);
    var compiled := CompiledRules(specs);
    forall i | 0 <= i < |specs|
      ensures specs[i].collection == q.collection && specs[i].base == Lookup(BaseMap(q, base), specs[i].key)
    {
      BaseMapOfTargets(q, o.items, a.records, specs[i].key);
      var k :| 0 <= k < |o.items| && o.items[k].key == specs[i].key;
      SpecOfTarget(o, a, newRevision, actor, at, o.items, k);
      FindSpecPresent(specs, i);
      assert WellFormedItem(o.items[k], o.items[0].collection, o.scope);
    }
    assert CompiledFrom(q, specs, BaseMap(q, base), compiled);
    CompileThenEvaluate(q, base, specs, compiled);
    NoWideDelete(q, specs, compiled, BaseMap(q, base));
    EvaluateClones(q, base, compiled);
    CompiledDeletes(q, specs, compiled, BaseMap(q, base));
    DeletingSpec(o, a, newRevision, actor, at, o.items);
    forall i | 0 <= i < |o.items|
      ensures TargetAt(q, specs, BaseMap(q, base), o.items[i].key) ==
              match o.items[i].after case None => None case Some(d) => Some(d.(revision := newRevision))
    {
      SpecOfTarget(o, a, newRevision, actor, at, o.items, i);
      BaseMapOfTargets(q, o.items, a.records, o.items[i].key);
    }
  }

  lemma NoWideDelete(q: Query, specs: seq<RuleSpec>, rules: seq<Rule>, base: map<string, Record>)
    requires CompiledFrom(q, specs, base, rules) && q.scope.stage != ""
    ensures !SomeDeleteApplies(q, "", rules)
  {
    forall i | 0 <= i < |rules| ensures !Applies(q, "", rules[i]) {
      assert CompileRule(specs[i]) == Success(rules[i]);
    }
  }

  /** What the stored records and rules of the order's targets show a client of its scope. */
  function View(o: Order, w: World, bucket: Option<int>): Result<map<string, Record>, OverlayError>
    requires WellFormedOrder(o)
  {
    EvaluateMap(Query(o.items[0].collection, o.scope, bucket), TargetRecords(o.items, w.records),
                TargetRules(o.items, w.rules))
  }

  /** The view shows exactly the desired record at the target, stamped with the revision that wrote it. */
  predicate Shows(view: map<string, Record>, item: Item, revision: nat) {
    Lookup(view, item.key) == match item.after case None => None case Some(d) => Some(d.(revision := revision))
  }

  /**
   * OVERLAY_APPLY, end to end: the step commits exactly when no name is blank and every target has something storable
   * to write, so never when one deletes a base record. Then the effective view of every client evaluates and shows each
   * target as desired, and the base records are as they were. Written all the same, the rules would evaluate
   * exactly when no target deletes a base record.
   */
  lemma OverlayStepReaches(o: Order, w: World, newRevision: nat, actor: string, at: int, bucket: Option<int>)
    requires WellFormedOrder(o) && o.scope.stage != ""
    requires WellFormedWorld(w, o.items[0].collection, o.scope.environment)
    requires ExecuteOverlay(o, AuthorityOf(w), newRevision, actor, at).Success?
    ensures var a := AuthorityOf(w);
            var stored := ApplyEffect(ExecuteOverlay(o, a, newRevision, actor, at).value.1, w);
            && (stored.Success? <==>
                 NamesPresent(o, w.revision) && forall i :: 0 <= i < |o.items| ==> Storing(a, o.items[i]))
            && (stored.Success? ==>
                 && stored.value.records == w.records && stored.value.revision == newRevision
                 && View(o, stored.value, bucket).Success?
                 && forall i :: 0 <= i < |o.items| ==>
                      Shows(View(o, stored.value, bucket).value, o.items[i], newRevision))
    ensures var written := ApplyRules(OverlayItems(o, AuthorityOf(w), newRevision, actor, at, o.items).value, w.rules);
            View(o, w.(rules := written), bucket).Success? <==>
              forall i :: 0 <= i < |o.items| ==> !DeletesBase(AuthorityOf(w), o.items[i])
  {
    hide OverlayItem, EvaluateMap, TargetRules, TargetRecords, WellFormedItem, NamesPresent;
    var a := AuthorityOf(w);
    var written := ApplyRules(OverlayItems(o, a, newRevision, actor, at, o.items).value, w.rules);
    OverlayStepWrites(o, w, newRevision, actor, at, written);
    WrittenRulesEvaluate(o, a, newRevision, actor, at, written, bucket);
    OverlayStepStored(o, w, newRevision, actor, at);
    if forall i :: 0 <= i < |o.items| ==> Storing(a, o.items[i]) {
      forall i | 0 <= i < |o.items| ensures !DeletesBase(a, o.items[i]) { assert Storing(a, o.items[i]); }
    }
  }

  lemma OverlayStepWrites(o: Order, w: World, newRevision: nat, actor: string, at: int, written: map<string, Rule>)
    requires WellFormedOrder(o) && OverlayItems(o, AuthorityOf(w), newRevision, actor, at, o.items).Success?
    requires written == ApplyRules(OverlayItems(o, AuthorityOf(w), newRevision, actor, at, o.items).value, w.rules)
    ensures WroteRules(o, AuthorityOf(w), newRevision, actor, at, o.items, written)
  {
    hide OverlayItem, OverlayItems, ApplyRules, WellFormedItem;
    forall j | 0 <= j < |o.items|
      ensures OverlayItem(o, AuthorityOf(w), newRevision, actor, at, o.items[j]).Success?
      ensures Lookup(written, o.items[j].key)
              == OverlayItem(o, AuthorityOf(w), newRevision, actor, at, o.items[j]).value.next
    {
      OverlayRuleOfItem(o, AuthorityOf(w), newRevision, actor, at, o.items, j);
    }
  }

  lemma {:induction false} NoTargetRules(items: seq<Item>, rules: map<string, Rule>)
    requires forall i :: 0 <= i < |items| ==> items[i].key !in rules
    ensures TargetRules(items, rules) == []
  {
    if items != [] { NoTargetRules(items[..|items| - 1], rules); }
  }

  /** Without rules at its targets an order's view is their base records. */
  lemma BareView(o: Order, w: World, bucket: Option<int>)
    requires WellFormedOrder(o) && WellFormedWorld(w, o.items[0].collection, o.scope.environment)
    requires forall i :: 0 <= i < |o.items| ==> o.items[i].key !in w.rules
    ensures View(o, w, bucket).Success?
    ensures forall i :: 0 <= i < |o.items| ==>
              Lookup(View(o, w, bucket).value, o.items[i].key) == Lookup(w.records, o.items[i].key)
  {
    NoTargetRules(o.items, w.rules);
    var q := Query(o.items[0].collection, o.scope, bucket);
    forall i | 0 <= i < |o.items|
      ensures Lookup(BaseMap(q, TargetRecords(o.items, w.records)), o.items[i].key) == Lookup(w.records, o.items[i].key)
    {
      BaseMapOfTargets(q, o.items, w.records, o.items[i].key);
    }
  }
}
