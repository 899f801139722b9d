/** Rolling back one effect: when the single-step rollbacks succeed, and that they then plan the same inverse batch. */
module SingleRollback {
  import opened Wrappers
  import opened Catalog
  import opened Overlay
  import opened Effects
  import opened OrderState
  import opened World
  import opened Rollback
  import opened RollbackRun
  import Text

  /** Swapping the two sides of every rule change is the inverse walk, wherever that walk meets no drift. */
  lemma {:induction false} SwapIsInverse(changes: seq<RuleChange>, rules: map<string, Rule>)
    requires InverseRules(changes, rules).Success?
    ensures SwapRules(changes) == InverseRules(changes, rules).value.0
  {
    if changes != [] {
      var last := changes[|changes| - 1];
      SwapIsInverse(changes[..|changes| - 1], Put(rules, last.key, CloneOption(last.previous)));
    }
  }

  /**
   * RollbackOverlay: at the revision its effect left, the compensation is well-defined at every change and gives back
   * every rule, copies of nil contents aside; its rules can be stored exactly when none it replaced was a DELETE rule.
   */
  lemma OverlayRollbackRestores(o: Order, index: nat, before: World, newRevision: nat, actor: string, at: int)
    requires WellFormedOrder(o) && o.status == InProgress && !Text.Blank(actor) && at != ZERO_TIME
    requires LastOverlayStep(o.steps, |o.steps|) == Some(index) && ValidEnvelope(o.steps[index].effect.value)
    requires o.steps[index].effect.value.effectType == OverlayType
    requires Fits(DeltaOf(o.steps[index].effect.value), before)
    requires DeltaOf(o.steps[index].effect.value).appliedRevision < newRevision
    ensures var d := DeltaOf(o.steps[index].effect.value);
            var after := ApplyDelta(d, before);
            var r := RollbackOverlay(o, o.revision, after.revision, newRevision, actor, at);
            && r.Success? && RuleBatchRuns(r.value.1.changes, after.rules)
            && (WritesStorable(r.value.1.changes) <==> PreviousRewritable(d.overlayChanges))
            && CloneRules(ApplyRules(r.value.1.changes, after.rules)) == CloneRules(before.rules)
  {
    var d := DeltaOf(o.steps[index].effect.value);
    UndoRules(d.overlayChanges, before.rules, ApplyRules(d.overlayChanges, before.rules));
    SwapIsInverse(d.overlayChanges, CloneRules(ApplyRules(d.overlayChanges, before.rules)));
    InverseRulesShape(d.overlayChanges, CloneRules(ApplyRules(d.overlayChanges, before.rules)));
  }

  predicate OnlyAdds(changes: seq<BaseChange>) {
    forall i :: 0 <= i < |changes| ==> changes[i].action.Add?
  }

  predicate OnlyRemoves(changes: seq<RuleChange>) {
    forall i :: 0 <= i < |changes| ==> changes[i].next.None?
  }

  /** Additions that fit add different keys, and stay as added. */
  lemma {:induction false} AddedStay(changes: seq<BaseChange>, collection: string, environment: string, applied: nat,
                                     before: map<string, Record>, i: nat)
    requires BaseFits(changes, collection, environment, applied, before) && OnlyAdds(changes) && i < |changes|
    ensures ChangeKey(changes[i]) in ApplyBase(changes, collection, environment, applied, before)
  {
    var n := |changes| - 1;
    if i < n { AddedStay(changes[..n], collection, environment, applied, before, i); }
  }

  lemma {:induction false} AdditionsUndo(changes: seq<BaseChange>, collection: string, environment: string,
                                         applied: nat,
                                         before: map<string, Record>, records: map<string, Record>)
    requires BaseFits(changes, collection, environment, applied, before) && AllBelong(before, collection, environment)
    requires OnlyAdds(changes)
    requires var after := ApplyBase(changes, collection, environment, applied, before);
             forall i :: 0 <= i < |changes| ==>
                           Lookup(records, ChangeKey(changes[i])) == Lookup(after, ChangeKey(changes[i]))
    ensures var after := ApplyBase(changes, collection, environment, applied, before);
            && InverseBase(changes, applied, after).Success?
            && UndoAdditions(changes, applied, records) == Success(InverseBase(changes, applied, after).value.0)
    decreases |changes|
  {
    if changes != [] {
      var n := |changes| - 1;
      var init, last := changes[..n], changes[n];
      var middle, after := ApplyBase(init, collection, environment, applied, before),
          ApplyBase(changes, collection, environment, applied, before);
      ApplyBaseBelongs(init, collection, environment, applied, before);
      UndoChange(last, collection, environment, applied, middle, after, applied);
      forall i | 0 <= i < n
        ensures init[i] == changes[i] && Lookup(records, ChangeKey(init[i])) == Lookup(middle, ChangeKey(init[i]))
      {
        AddedStay(init, collection, environment, applied, before, i);
      }
      AdditionsUndo(init, collection, environment, applied, before, records);
    }
  }

  lemma {:induction false} OtherChangeRefused(changes: seq<BaseChange>, applied: nat, records: map<string, Record>)
    requires !OnlyAdds(changes)
    ensures UndoAdditions(changes, applied, records).Failure?
    decreases |changes|
  {
    var n := |changes| - 1;
    if changes[n].action.Add? {
      var i :| 0 <= i < |changes| && !changes[i].action.Add?;
      assert changes[..n][i] == changes[i];
      OtherChangeRefused(changes[..n], applied, records);
    }
  }

  lemma {:induction false} RemovedStayAway(changes: seq<RuleChange>, before: map<string, Rule>, i: nat)
    requires OnlyRemoves(changes) && i < |changes|
    ensures changes[i].key !in ApplyRules(changes, before)
  {
    var n := |changes| - 1;
    if i < n { RemovedStayAway(changes[..n], before, i); }
  }

  /** Rules cleaned up once each come back through the inverse walk and through the plain restore alike. */
  lemma {:induction false} RestoreIsInverse(changes: seq<RuleChange>, simulated: map<string, Rule>,
                                            rules: map<string, Rule>)
    requires OnlyRemoves(changes) && InverseRules(changes, simulated).Success?
    requires forall i :: 0 <= i < |changes| ==> changes[i].key !in rules
    ensures RestoreCleaned(changes, rules) == Success(InverseRules(changes, simulated).value.0)
    decreases |changes|
  {
    if changes != [] {
      var n := |changes| - 1;
      var init := changes[..n];
      assert forall i :: 0 <= i < n ==> init[i] == changes[i];
      RestoreIsInverse(init, Put(simulated, changes[n].key, CloneOption(changes[n].previous)), rules);
    }
  }

  /**
   * RollbackBase: for a base effect that only cleaned rules up, at the revision it left, the rollback succeeds exactly
   * when the effect only added records; then it gives back every record's data and every rule.
   */
  lemma BaseRollbackRestores(o: Order, index: nat, before: World, newRevision: nat, actor: string, at: int)
    requires WellFormedOrder(o) && o.status == InProgress && !Text.Blank(actor) && at != ZERO_TIME
    requires LastBaseStep(o.steps, |o.steps|) == Some(index) && ValidEnvelope(o.steps[index].effect.value)
    requires o.steps[index].effect.value.effectType == BaseType
    requires var d := DeltaOf(o.steps[index].effect.value);
             && Fits(d, before) && WellFormedWorld(before, d.collection, d.scope.environment)
             && OnlyRemoves(d.overlayChanges) && d.appliedRevision < newRevision
    ensures var d := DeltaOf(o.steps[index].effect.value);
            var after := ApplyDelta(d, before);
            var r := RollbackBase(o, o.revision, AuthorityOf(after), newRevision, actor, at);
            && (r.Success? <==> OnlyAdds(d.changes))
            && (r.Success? ==>
                 && BatchRuns(r.value.1.changes, d.collection, d.scope.environment, newRevision, after.records)
                 && Alike(ApplyBase(r.value.1.changes, d.collection, d.scope.environment, newRevision, after.records),
                          before.records)
                 && CloneRules(ApplyRules(r.value.1.overlayChanges, after.rules)) == CloneRules(before.rules))
  {
    var d := DeltaOf(o.steps[index].effect.value);
    var after := ApplyDelta(d, before);
    if OnlyAdds(d.changes) {
      AdditionsUndo(d.changes, d.collection, d.scope.environment, d.appliedRevision, before.records, after.records);
      UndoBase(d.changes, d.collection, d.scope.environment, d.appliedRevision, before.records, after.records,
               newRevision);
      UndoRules(d.overlayChanges, before.rules, after.rules);
      forall i | 0 <= i < |d.overlayChanges| ensures d.overlayChanges[i].key !in after.rules {
        RemovedStayAway(d.overlayChanges, before.rules, i);
      }
      RestoreIsInverse(d.overlayChanges, CloneRules(after.rules), after.rules);
    } else {
      OtherChangeRefused(d.changes, d.appliedRevision, after.records);
    }
  }
}
