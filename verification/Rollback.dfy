/** Rolling back: the inverse batch restores the world the order started from. */
module Rollback {
  import opened Wrappers
  import opened Catalog
  import opened Overlay
  import opened Effects
  import opened OrderState
  import opened World
  import Text

  // ----- undoing one effect -----

  /** Same records but for the revisions they carry. */
  predicate Alike(a: map<string, Record>, b: map<string, Record>) {
    a.Keys == b.Keys && forall k :: k in a && k in b ==> a[k].(revision := b[k].revision) == b[k]
  }

  /** The change is well-defined where it runs: it finds what it says it finds, revisions aside. */
  predicate ChangeRuns(c: BaseChange, collection: string, environment: string, records: map<string, Record>) {
    && ValidBaseChange(c)
    && (c.after.Some? ==> Belongs(c.after.value, collection, environment, ChangeKey(c)))
    && c.before.Some? == (ChangeKey(c) in records)
    && (c.before.Some? ==> c.before.value.(revision := records[ChangeKey(c)].revision) == records[ChangeKey(c)])
  }

  predicate BatchRuns(changes: seq<BaseChange>, collection: string, environment: string, applied: nat,
                      records: map<string, Record>) {
    changes == []
    || (BatchRuns(changes[..|changes| - 1], collection, environment, applied, records)
        && ChangeRuns(changes[|changes| - 1], collection, environment,
                      ApplyBase(changes[..|changes| - 1], collection, environment, applied, records)))
  }

  lemma {:induction false} BatchRunsConcat(a: seq<BaseChange>, b: seq<BaseChange>, collection: string,
                                           environment: string, applied: nat, records: map<string, Record>)
    requires BatchRuns(a, collection, environment, applied, records)
    requires BatchRuns(b, collection, environment, applied, ApplyBase(a, collection, environment, applied, records))
    ensures BatchRuns(a + b, collection, environment, applied, records)
  {
    if b == [] {
      assert a + b == a;
    } else {
      assert (a + b)[..|a + b| - 1] == a + b[..|b| - 1];
      BatchRunsConcat(a, b[..|b| - 1], collection, environment, applied, records);
      ApplyBaseConcat(a, b[..|b| - 1], collection, environment, applied, records);
    }
  }

  /**
   * Undoing fitting changes on the records they produced succeeds, recovers the records before them exactly, and
   * yields a batch that runs on any alike records and brings back alike ones.
   */
  lemma {:induction false} UndoBase(changes: seq<BaseChange>, collection: string, environment: string, applied: nat,
                                    before: map<string, Record>, actual: map<string, Record>, newRevision: nat)
    requires BaseFits(changes, collection, environment, applied, before)
    requires AllBelong(before, collection, environment)
    requires Alike(actual, ApplyBase(changes, collection, environment, applied, before))
    ensures var r := InverseBase(changes, applied, ApplyBase(changes, collection, environment, applied, before));
            && r.Success? && r.value.1 == before && |r.value.0| == |changes|
            && BatchRuns(r.value.0, collection, environment, newRevision, actual)
            && Alike(ApplyBase(r.value.0, collection, environment, newRevision, actual), before)
    decreases |changes|
  {
    if changes != [] {
      var init, last := changes[..|changes| - 1], changes[|changes| - 1];
      var middle := ApplyBase(init, collection, environment, applied, before);
      var after := ApplyBase(changes, collection, environment, applied, before);
      ApplyBaseBelongs(init, collection, environment, applied, before);
      UndoChange(last, collection, environment, applied, middle, actual, newRevision);
      var first := InverseBaseChange(last, applied, after).value.0;
      var stepped := ApplyBaseChange(first, collection, environment, newRevision, actual);
      UndoBase(init, collection, environment, applied, before, stepped, newRevision);
      var rest := InverseBase(init, applied, middle).value.0;
      SingleRuns(first, collection, environment, newRevision, actual);
      BatchRunsConcat([first], rest, collection, environment, newRevision, actual);
      ApplyBaseConcat([first], rest, collection, environment, newRevision, actual);
    }
  }

  lemma SingleRuns(c: BaseChange, collection: string, environment: string, applied: nat, records: map<string, Record>)
    ensures ApplyBase([c], collection, environment, applied, records)
            == ApplyBaseChange(c, collection, environment, applied, records)
    ensures BatchRuns([c], collection, environment, applied, records) <==>
              ChangeRuns(c, collection, environment, records)
  {
    assert [c][..0] == [];
  }

  lemma UndoChange(c: BaseChange, collection: string, environment: string, applied: nat,
                   before: map<string, Record>, actual: map<string, Record>, newRevision: nat)
    requires ChangeFits(c, collection, environment, before)
    requires AllBelong(before, collection, environment)
    requires Alike(actual, ApplyBaseChange(c, collection, environment, applied, before))
    ensures var r := InverseBaseChange(c, applied, ApplyBaseChange(c, collection, environment, applied, before));
            && r.Success? && r.value.1 == before
            && ChangeRuns(r.value.0, collection, environment, actual)
            && Alike(ApplyBaseChange(r.value.0, collection, environment, newRevision, actual), before)
  {
    var key := ChangeKey(c);
    var after := ApplyBaseChange(c, collection, environment, applied, before);
    match c.action {
      case Add =>
        assert after - {key} == before;
      case Modify =>
        assert after[key := before[key]] == before;
      case Delete =>
        assert after[key := before[key]] == before;
    }
  }

  predicate RuleBatchRuns(changes: seq<RuleChange>, rules: map<string, Rule>) {
    changes == []
    || (RuleBatchRuns(changes[..|changes| - 1], rules)
        && ValidRuleOrMissing(changes[|changes| - 1])
        && RuleFits(changes[|changes| - 1], ApplyRules(changes[..|changes| - 1], rules)))
  }

  predicate ValidRuleOrMissing(c: RuleChange) { c.previous.Some? || c.next.Some? }

  lemma {:induction false} RuleBatchConcat(a: seq<RuleChange>, b: seq<RuleChange>, rules: map<string, Rule>)
    requires RuleBatchRuns(a, rules) && RuleBatchRuns(b, ApplyRules(a, rules))
    ensures RuleBatchRuns(a + b, rules)
  {
    if b == [] {
      assert a + b == a;
    } else {
      assert (a + b)[..|a + b| - 1] == a + b[..|b| - 1];
      RuleBatchConcat(a, b[..|b| - 1], rules);
      ApplyRulesConcat(a, b[..|b| - 1], rules);
    }
  }

  /** The same for rules: exact recovery, up to the copy that turns a nil content map into an empty one. */
  lemma {:induction false} UndoRules(changes: seq<RuleChange>, before: map<string, Rule>, actual: map<string, Rule>)
    requires RulesFit(changes, before)
    requires forall i :: 0 <= i < |changes| ==> ValidRuleChange(changes[i])
    requires CloneRules(actual) == CloneRules(ApplyRules(changes, before))
    ensures var r := InverseRules(changes, CloneRules(ApplyRules(changes, before)));
            && r.Success? && r.value.1 == CloneRules(before) && |r.value.0| == |changes|
            && (forall i :: 0 <= i < |changes| ==> ValidRuleChange(r.value.0[i]))
            && RuleBatchRuns(r.value.0, actual)
            && CloneRules(ApplyRules(r.value.0, actual)) == CloneRules(before)
    decreases |changes|
  {
    hide RuleFits, ValidRuleChange, ValidRuleOrMissing, CloneRules;
    if changes != [] {
      var init, last := changes[..|changes| - 1], changes[|changes| - 1];
      var middle := ApplyRules(init, before);
      var after := ApplyRules(changes, before);
      UndoneIsValid(last);
      UndoRule(last, middle, actual);
      var first := UndoneRule(last);
      var stepped := Put(actual, last.key, first.next);
      UndoRules(init, before, stepped);
      var rest := InverseRules(init, CloneRules(middle)).value.0;
      SingleRule(first, actual);
      RuleBatchConcat([first], rest, actual);
      ApplyRulesConcat([first], rest, actual);
    }
  }

  function UndoneRule(c: RuleChange): RuleChange {
    RuleChange(c.key, CloneOption(c.next), CloneOption(c.previous))
  }

  lemma UndoneIsValid(c: RuleChange)
    requires ValidRuleChange(c)
    ensures ValidRuleChange(UndoneRule(c)) && ValidRuleOrMissing(UndoneRule(c))
  {
  }

  lemma UndoRule(c: RuleChange, before: map<string, Rule>, actual: map<string, Rule>)
    requires RuleFits(c, before)
    requires CloneRules(actual) == CloneRules(Put(before, c.key, c.next))
    ensures Lookup(CloneRules(Put(before, c.key, c.next)), c.key) == c.next
    ensures Put(CloneRules(Put(before, c.key, c.next)), c.key, CloneOption(c.previous)) == CloneRules(before)
    ensures RuleFits(UndoneRule(c), actual)
    ensures CloneRules(Put(actual, c.key, UndoneRule(c).next)) == CloneRules(before)
  {
    ClonePut(before, c.key, c.next);
    ClonePut(actual, c.key, UndoneRule(c).next);
    assert CloneOption(Lookup(actual, c.key)) == Lookup(CloneRules(actual), c.key);
    PutBack(CloneRules(before), c.key, c.next);
    assert CloneOption(c.previous) == Lookup(CloneRules(before), c.key);
  }

  lemma PutBack(rules: map<string, Rule>, key: string, rule: Option<Rule>)
    ensures Put(Put(rules, key, rule), key, Lookup(rules, key)) == rules
    ensures Lookup(Put(rules, key, rule), key) == rule
  {
  }

  lemma SingleRule(c: RuleChange, rules: map<string, Rule>)
    ensures ApplyRules([c], rules) == Put(rules, c.key, c.next)
    ensures RuleBatchRuns([c], rules) <==> ValidRuleOrMissing(c) && RuleFits(c, rules)
  {
    assert [c][..0] == [];
    assert ApplyRules([c][..0], rules) == rules;
    assert RuleBatchRuns([c][..0], rules);
  }

  lemma ClonePut(rules: map<string, Rule>, key: string, rule: Option<Rule>)
    ensures CloneRules(Put(rules, key, rule)) == Put(CloneRules(rules), key, CloneOption(rule))
  {
  }

  // ----- undoing the chain of effects -----

  /** The world after the effects of the first `n` steps. */
  function Replay(steps: seq<StepState>, n: nat, start: World): World
    requires n <= |steps| && EffectsValid(steps)
  {
    if n == 0 then start
    else if steps[n - 1].effect.None? then Replay(steps, n - 1, start)
    else ApplyDelta(DeltaOf(steps[n - 1].effect.value), Replay(steps, n - 1, start))
  }

  /**
   * Each effect of the first `n` steps was planned on the world the earlier ones left, for this collection and scope,
   * and stored.
   */
  predicate Chained(steps: seq<StepState>, n: nat, start: World, collection: string, scope: Scope)
    requires n <= |steps| && EffectsValid(steps)
  {
    n == 0
    || (Chained(steps, n - 1, start, collection, scope)
        && (steps[n - 1].effect.Some? ==>
             var d := DeltaOf(steps[n - 1].effect.value);
             && d.collection == collection && d.scope == scope
             && Fits(d, Replay(steps, n - 1, start)) && WritesStorable(d.overlayChanges)))
  }

  lemma {:induction false} ReplayBelongs(steps: seq<StepState>, n: nat, start: World, collection: string, scope: Scope)
    requires n <= |steps| && EffectsValid(steps) && Chained(steps, n, start, collection, scope)
    requires WellFormedWorld(start, collection, scope.environment)
    ensures WellFormedWorld(Replay(steps, n, start), collection, scope.environment)
    ensures start.revision <= Replay(steps, n, start).revision
  {
    if n > 0 {
      ReplayBelongs(steps, n - 1, start, collection, scope);
      if steps[n - 1].effect.Some? {
        var d := DeltaOf(steps[n - 1].effect.value);
        ApplyBaseBelongs(d.changes, collection, scope.environment, d.appliedRevision,
                         Replay(steps, n - 1, start).records);
      }
    }
  }

  /** The record half of the walk: the batch so far runs on the actual records and leads to those of `sim`. */
  predicate WalkedRecords(changes: seq<BaseChange>, sim: map<string, Record>, actual: map<string, Record>,
                          collection: string, environment: string, newRevision: nat)
  {
    && BatchRuns(changes, collection, environment, newRevision, actual)
    && Alike(ApplyBase(changes, collection, environment, newRevision, actual), sim)
  }

  /** The rule half. */
  predicate WalkedRules(changes: seq<RuleChange>, sim: map<string, Rule>, actual: map<string, Rule>) {
    && RuleBatchRuns(changes, actual)
    && (forall i :: 0 <= i < |changes| ==> ValidRuleChange(changes[i]))
    && CloneRules(ApplyRules(changes, actual)) == CloneRules(sim)
  }

  lemma WalkRecords(done: seq<BaseChange>, changes: seq<BaseChange>, before: map<string, Record>,
                    actual: map<string, Record>,
                    collection: string, environment: string, applied: nat, newRevision: nat)
    requires AllBelong(before, collection, environment)
    requires BaseFits(changes, collection, environment, applied, before)
    requires WalkedRecords(done, ApplyBase(changes, collection, environment, applied, before), actual, collection,
                           environment, newRevision)
    ensures var r := InverseBase(changes, applied, ApplyBase(changes, collection, environment, applied, before));
            && r.Success? && r.value.1 == before && |r.value.0| == |changes|
            && WalkedRecords(done + r.value.0, before, actual, collection, environment, newRevision)
  {
    var now := ApplyBase(done, collection, environment, newRevision, actual);
    UndoBase(changes, collection, environment, applied, before, now, newRevision);
    var undo := InverseBase(changes, applied, ApplyBase(changes, collection, environment, applied, before)).value.0;
    BatchRunsConcat(done, undo, collection, environment, newRevision, actual);
    ApplyBaseConcat(done, undo, collection, environment, newRevision, actual);
  }

  lemma WalkRules(done: seq<RuleChange>, changes: seq<RuleChange>, before: map<string, Rule>, actual: map<string, Rule>)
    requires RulesFit(changes, before)
    requires forall i :: 0 <= i < |changes| ==> ValidRuleChange(changes[i])
    requires WalkedRules(done, ApplyRules(changes, before), actual)
    ensures var r := InverseRules(changes, CloneRules(ApplyRules(changes, before)));
            && r.Success? && r.value.1 == CloneRules(before) && |r.value.0| == |changes|
            && WalkedRules(done + r.value.0, before, actual)
  {
    UndoRules(changes, before, ApplyRules(done, actual));
    var undo := InverseRules(changes, CloneRules(ApplyRules(changes, before))).value.0;
    RuleBatchConcat(done, undo, actual);
    ApplyRulesConcat(done, undo, actual);
  }

  /** What the walk has gathered so far, against the world `sim` it has walked back to. */
  predicate Walked(u: Unwound, sim: World, actual: World, collection: string, scope: Scope, newRevision: nat) {
    && u.records == sim.records && u.rules == CloneRules(sim.rules) && u.expected == sim.revision
    && WalkedRecords(u.changes, sim.records, actual.records, collection, scope.environment, newRevision)
    && WalkedRules(u.overlayChanges, sim.rules, actual.rules)
    && PlanContent(u, collection, scope)
  }

  /** The batch is not empty once an effect has been undone, and is an overlay batch only in a staged scope. */
  predicate PlanContent(u: Unwound, collection: string, scope: Scope) {
    && (u.collection == "" || u.collection == collection)
    && (!u.hasBase ==> u.changes == [])
    && (u.collection != "" ==> (u.changes != [] || u.overlayChanges != []) && (u.hasBase || !Text.Blank(scope.stage)))
  }

  lemma UnwindOne(e: Envelope, before: World, actual: World, u: Unwound, collection: string, scope: Scope,
                  newRevision: nat)
    requires ValidEnvelope(e) && Fits(DeltaOf(e), before)
    requires DeltaOf(e).collection == collection && DeltaOf(e).scope == scope
    requires WellFormedWorld(before, collection, scope.environment)
    requires Walked(u, ApplyDelta(DeltaOf(e), before), actual, collection, scope, newRevision)
    ensures var r := UnwindEffect(e, scope, u);
            && r.Success? && Walked(r.value, before, actual, collection, scope, newRevision)
            && r.value.collection == collection
  {
    var d := DeltaOf(e);
    WalkRecords(u.changes, d.changes, before.records, actual.records, collection, scope.environment, d.appliedRevision,
                newRevision);
    ValidDelta(e);
    WalkRules(u.overlayChanges, d.overlayChanges, before.rules, actual.rules);
  }

  lemma ValidDelta(e: Envelope)
    requires ValidEnvelope(e)
    ensures var d := DeltaOf(e);
            && d.collection != "" && (d.changes != [] || d.overlayChanges != [])
            && (e.effectType != BaseType ==> d.changes == [] && !Text.Blank(d.scope.stage))
            && (forall i :: 0 <= i < |d.changes| ==> ValidBaseChange(d.changes[i]))
            && (forall i :: 0 <= i < |d.overlayChanges| ==> ValidRuleChange(d.overlayChanges[i]))
  {
  }

  lemma WalkedCollection(u: Unwound, sim: World, actual: World, collection: string, scope: Scope, newRevision: nat)
    requires Walked(u, sim, actual, collection, scope, newRevision)
    ensures u.collection == "" || u.collection == collection
  {
  }

  lemma {:induction false} UnwindSucceeds(steps: seq<StepState>, n: nat, start: World, actual: World, u: Unwound,
                                          collection: string, scope: Scope, newRevision: nat)
    requires n <= |steps| && EffectsValid(steps) && Chained(steps, n, start, collection, scope)
    requires WellFormedWorld(start, collection, scope.environment)
    requires Walked(u, Replay(steps, n, start), actual, collection, scope, newRevision)
    ensures var r := Unwind(steps, n, scope, u);
            && r.Success? && Walked(r.value, start, actual, collection, scope, newRevision)
            && (u.collection != "" || (exists i :: 0 <= i < n && steps[i].effect.Some?) ==>
                  r.value.collection == collection)
    decreases n
  {
    hide Walked, Fits, ValidEnvelope, DeltaOf, UnwindEffect, ApplyDelta, WellFormedWorld;
    WalkedCollection(u, Replay(steps, n, start), actual, collection, scope, newRevision);
    if n > 0 {
      if steps[n - 1].effect.None? {
        UnwindSucceeds(steps, n - 1, start, actual, u, collection, scope, newRevision);
      } else {
        ReplayBelongs(steps, n - 1, start, collection, scope);
        ValidDelta(steps[n - 1].effect.value);
        UnwindOne(steps[n - 1].effect.value, Replay(steps, n - 1, start), actual, u, collection, scope, newRevision);
        var next := UnwindEffect(steps[n - 1].effect.value, scope, u).value;
        assert next.collection != "";
        UnwindSucceeds(steps, n - 1, start, actual, next, collection, scope, newRevision);
      }
    }
  }
}
