/**
 * Rollback as the inverse of a whole run: whatever an order has executed so far, ROLLBACK takes the configuration back.
 */
module RollbackRun {
  import opened Wrappers
  import opened Catalog
  import opened Overlay
  import opened Effects
  import opened OrderState
  import opened Lifecycle
  import opened World
  import opened Rollback
  import opened ReleaseRun
  import Text

  /** A command with the time and the configuration revision its transaction was given. */
  datatype Request = Request(command: Command, now: int, newRevision: nat)

  ghost function Serve(s: System, r: Request): (next: System)
    requires Shape(s.order)
    ensures Shape(next.order)
  {
    match Dispatch(s, r.command, r.now, r.newRevision)
    case Success(outcome) =>
      DispatchIsOneOp(s, r.command, r.now, r.newRevision);
      outcome.system
    case Failure(_) => s
  }

  /** Any number of commands, with no other writer; a refused command changes nothing. */
  ghost function ServeAll(s: System, requests: seq<Request>): (next: System)
    requires Shape(s.order)
    ensures Shape(next.order)
  {
    if requests == [] then s else Serve(ServeAll(s, requests[..|requests| - 1]), requests[|requests| - 1])
  }

  /** An order in progress that has not executed anything yet, over records of its own collection and environment. */
  ghost predicate Fresh(s: System) {
    && Shape(s.order) && s.order.status == InProgress && !HasEffect(s.order.steps)
    && WellFormedWorld(s.world, s.order.items[0].collection, s.order.scope.environment)
  }

  lemma FreshTracks(s: System)
    requires Fresh(s)
    ensures Tracks(s, s.world)
  {
    NoMoreEffects(s.order.steps, 0, |s.order.steps|, s.world, s.order.items[0].collection, s.order.scope);
  }

  lemma {:induction false} RunTracks(s: System, requests: seq<Request>)
    requires Fresh(s)
    ensures Tracks(ServeAll(s, requests), s.world)
  {
    if requests == [] {
      FreshTracks(s);
    } else {
      var before, r := ServeAll(s, requests[..|requests| - 1]), requests[|requests| - 1];
      RunTracks(s, requests[..|requests| - 1]);
      if Dispatch(before, r.command, r.now, r.newRevision).Success? {
        DispatchTracks(before, s.world, r.command, r.now, r.newRevision);
      }
    }
  }

  lemma {:induction false} RunnableInsertsAreFresh(changes: seq<BaseChange>, collection: string, environment: string,
                                                   applied: nat, records: map<string, Record>)
    requires BatchRuns(changes, collection, environment, applied, records)
    ensures InsertsFresh(changes, collection, environment, applied, records)
  {
    if changes != [] { RunnableInsertsAreFresh(changes[..|changes| - 1], collection, environment, applied, records); }
  }

  lemma {:induction false} RunnableChangesValid(changes: seq<BaseChange>, collection: string, environment: string,
                                                applied: nat, records: map<string, Record>)
    requires BatchRuns(changes, collection, environment, applied, records)
    ensures forall i :: 0 <= i < |changes| ==> ValidBaseChange(changes[i])
  {
    if changes != [] { RunnableChangesValid(changes[..|changes| - 1], collection, environment, applied, records); }
  }

  /** What a rollback of `s` should have restored, given the world the order started from. */
  ghost predicate Restored(after: World, start: World, newRevision: nat) {
    && Alike(after.records, start.records)
    && CloneRules(after.rules) == CloneRules(start.rules)
    && start.revision < after.revision == newRevision
  }

  ghost predicate RollbackRequest(s: System, r: Request) {
    && r.command.action == RollbackAction && r.command.expectedRevision == s.order.revision
    && !Text.Blank(r.command.actor) && r.now != ZERO_TIME && s.world.revision < r.newRevision
  }

  lemma UnwindFromTracks(s: System, start: World, newRevision: nat)
    requires Tracks(s, start) && s.order.status == InProgress && HasEffect(s.order.steps)
    ensures var r := Unwind(s.order.steps, |s.order.steps|, s.order.scope, StartUnwind(AuthorityOf(s.world)));
            && r.Success? && r.value.collection == s.order.items[0].collection
            && Walked(r.value, start, s.world, s.order.items[0].collection, s.order.scope, newRevision)
  {
    var o := s.order;
    var u := StartUnwind(AuthorityOf(s.world));
    assert Walked(u, s.world, s.world, o.items[0].collection, o.scope, newRevision);
    UnwindSucceeds(o.steps, |o.steps|, start, s.world, u, o.items[0].collection, o.scope, newRevision);
  }

  lemma PlanIsValid(o: Order, u: Unwound, start: World, actual: World, r: Request)
    requires WellFormedOrder(o) && Walked(u, start, actual, o.items[0].collection, o.scope, r.newRevision)
    requires u.collection == o.items[0].collection
    requires EffectsValid(o.steps) && Chained(o.steps, |o.steps|, start, o.items[0].collection, o.scope)
    requires HasEffect(o.steps)
    requires 0 < actual.revision < r.newRevision && !Text.Blank(r.command.actor) && r.now != ZERO_TIME
    ensures var plan := RollbackPlan(o, u, actual.revision, r.newRevision, r.command.actor, r.now);
            && ValidEnvelope(plan)
            && DeltaOf(plan)
               == Delta(u.collection, o.scope, actual.revision, r.newRevision, u.changes, u.overlayChanges)
  {
    var i :| 0 <= i < |o.steps| && o.steps[i].effect.Some?;
    ChainedDelta(o.steps, i, |o.steps|, start, o.items[0].collection, o.scope);
    EffectIdentity(o.steps[i].effect.value);
    RunnableChangesValid(u.changes, u.collection, o.scope.environment, r.newRevision, actual.records);
  }

  lemma {:induction false} ChainedDelta(steps: seq<StepState>, i: nat, n: nat, start: World, collection: string,
                                        scope: Scope)
    requires i < n <= |steps| && EffectsValid(steps) && Chained(steps, n, start, collection, scope)
    requires steps[i].effect.Some?
    ensures DeltaOf(steps[i].effect.value).collection == collection && DeltaOf(steps[i].effect.value).scope == scope
  {
    if i < n - 1 { ChainedDelta(steps, i, n - 1, start, collection, scope); }
  }

  lemma EffectIdentity(e: Envelope)
    requires ValidEnvelope(e)
    ensures var d := DeltaOf(e);
            && !Text.Blank(d.collection) && !Text.Blank(d.scope.region) && !Text.Blank(d.scope.environment)
            && 0 < d.previousRevision < d.appliedRevision
  {
  }

  lemma {:induction false} RevisionPositive(steps: seq<StepState>, n: nat, start: World, collection: string,
                                            scope: Scope)
    requires n <= |steps| && EffectsValid(steps) && Chained(steps, n, start, collection, scope)
    requires exists i :: 0 <= i < n && steps[i].effect.Some?
    ensures 0 < Replay(steps, n, start).revision
  {
    if steps[n - 1].effect.Some? {
      EffectIdentity(steps[n - 1].effect.value);
    } else {
      RevisionPositive(steps, n - 1, start, collection, scope);
    }
  }

  // ----- what storage takes back -----

  function Keys(changes: seq<RuleChange>): set<string> {
    set c | c in changes :: c.key
  }

  /** The keys whose rules the effects of the first `n` steps changed. */
  function Touched(steps: seq<StepState>, n: nat): set<string>
    requires n <= |steps| && EffectsValid(steps)
  {
    if n == 0 then {}
    else if steps[n - 1].effect.None? then Touched(steps, n - 1)
    else Touched(steps, n - 1) + Keys(DeltaOf(steps[n - 1].effect.value).overlayChanges)
  }

  /** None of the keys has a DELETE rule: a copy of each of their rules can be stored. */
  predicate CanRewrite(keys: set<string>, rules: map<string, Rule>) {
    forall k :: k in keys && k in rules ==> Rewritable(rules[k])
  }

  predicate PreviousRewritable(changes: seq<RuleChange>) {
    forall i :: 0 <= i < |changes| && changes[i].previous.Some? ==> Rewritable(changes[i].previous.value)
  }

  ghost predicate EffectsRewritable(steps: seq<StepState>, n: nat)
    requires n <= |steps| && EffectsValid(steps)
  {
    forall i :: 0 <= i < n && steps[i].effect.Some? ==>
                  PreviousRewritable(DeltaOf(steps[i].effect.value).overlayChanges)
  }

  lemma AppendChange(init: seq<RuleChange>, last: RuleChange)
    ensures Keys(init + [last]) == Keys(init) + {last.key}
    ensures PreviousRewritable(init + [last]) <==>
            PreviousRewritable(init) && (last.previous.Some? ==> Rewritable(last.previous.value))
    ensures WritesStorable(init + [last]) <==> WritesStorable(init) && (last.next.Some? ==> Storable(last.next.value))
  {
    var all := init + [last];
    assert all[|init|] == last;
    assert forall i :: 0 <= i < |init| ==> all[i] == init[i];
  }

  /** Stored changes find a DELETE rule only where one was before the first of them; they leave none behind. */
  lemma {:induction false} StoredChanges(changes: seq<RuleChange>, rules: map<string, Rule>)
    requires RulesFit(changes, rules) && WritesStorable(changes)
    ensures PreviousRewritable(changes) <==> CanRewrite(Keys(changes), rules)
    ensures CanRewrite(Keys(changes), ApplyRules(changes, rules))
    ensures forall k :: k !in Keys(changes) ==> Lookup(ApplyRules(changes, rules), k) == Lookup(rules, k)
  {
    if changes != [] {
      var init, last := changes[..|changes| - 1], changes[|changes| - 1];
      assert changes == init + [last];
      AppendChange(init, last);
      StoredChanges(init, rules);
    }
  }

  lemma LastEffectRewritable(steps: seq<StepState>, n: nat)
    requires 0 < n <= |steps| && EffectsValid(steps)
    ensures EffectsRewritable(steps, n) <==>
            && EffectsRewritable(steps, n - 1)
            && (steps[n - 1].effect.Some? ==> PreviousRewritable(DeltaOf(steps[n - 1].effect.value).overlayChanges))
  {
  }

  /** The same over the effects of a run. */
  lemma {:induction false} StoredEffects(steps: seq<StepState>, n: nat, start: World, collection: string, scope: Scope)
    requires n <= |steps| && EffectsValid(steps) && Chained(steps, n, start, collection, scope)
    ensures EffectsRewritable(steps, n) <==> CanRewrite(Touched(steps, n), start.rules)
    ensures CanRewrite(Touched(steps, n), Replay(steps, n, start).rules)
    ensures forall k :: k !in Touched(steps, n) ==> Lookup(Replay(steps, n, start).rules, k) == Lookup(start.rules, k)
  {
    if n > 0 {
      StoredEffects(steps, n - 1, start, collection, scope);
      LastEffectRewritable(steps, n);
      if steps[n - 1].effect.Some? {
        var before, changes := Replay(steps, n - 1, start).rules, DeltaOf(steps[n - 1].effect.value).overlayChanges;
        StoredChanges(changes, before);
        RewriteBoth(Touched(steps, n - 1), Keys(changes), start.rules, before);
      }
    }
  }

  lemma RewriteBoth(earlier: set<string>, now: set<string>, start: map<string, Rule>, before: map<string, Rule>)
    requires CanRewrite(earlier, before)
    requires forall k :: k !in earlier ==> Lookup(before, k) == Lookup(start, k)
    ensures CanRewrite(earlier + now, start) <==> CanRewrite(earlier, start) && CanRewrite(now - earlier, start)
    ensures CanRewrite(now, before) <==> CanRewrite(now - earlier, start)
  {
    forall k | k !in earlier ensures (k in before <==> k in start) && (k in start ==> before[k] == start[k]) {
      assert Lookup(before, k) == Lookup(start, k);
    }
  }

  lemma {:induction false} InverseRulesShape(changes: seq<RuleChange>, rules: map<string, Rule>)
    requires InverseRules(changes, rules).Success?
    ensures var inverse := InverseRules(changes, rules).value.0;
            && (WritesStorable(inverse) <==> PreviousRewritable(changes)) && Keys(inverse) == Keys(changes)
    decreases |changes|
  {
    hide WritesStorable, PreviousRewritable, Keys, Storable, Rewritable;
    NothingStored();
    if changes != [] {
      var init, last := changes[..|changes| - 1], changes[|changes| - 1];
      assert changes == init + [last];
      AppendChange(init, last);
      var put := Put(rules, last.key, CloneOption(last.previous));
      InverseRulesShape(init, put);
      var first := RuleChange(last.key, CloneOption(Lookup(rules, last.key)), CloneOption(last.previous));
      AppendChange([], first);
      assert [] + [first] == [first];
      BothStorable([first], InverseRules(init, put).value.0);
      if last.previous.Some? { RewritableExact(last.previous.value); }
    }
  }

  lemma BothStorable(a: seq<RuleChange>, b: seq<RuleChange>)
    ensures WritesStorable(a + b) <==> WritesStorable(a) && WritesStorable(b)
    ensures Keys(a + b) == Keys(a) + Keys(b)
  {
    assert forall i :: 0 <= i < |a| ==> (a + b)[i] == a[i];
    assert forall i :: 0 <= i < |b| ==> (a + b)[|a| + i] == b[i];
  }

  lemma UnwindEffectShape(e: Envelope, scope: Scope, u: Unwound)
    requires ValidEnvelope(e) && UnwindEffect(e, scope, u).Success?
    ensures var r := UnwindEffect(e, scope, u).value;
            && (WritesStorable(r.overlayChanges) <==>
                  WritesStorable(u.overlayChanges) && PreviousRewritable(DeltaOf(e).overlayChanges))
            && Keys(r.overlayChanges) == Keys(u.overlayChanges) + Keys(DeltaOf(e).overlayChanges)
  {
    hide WritesStorable, PreviousRewritable, Keys, InverseRules, InverseBase, ValidEnvelope, DeltaOf;
    var d := DeltaOf(e);
    InverseRulesShape(d.overlayChanges, u.rules);
    BothStorable(u.overlayChanges, InverseRules(d.overlayChanges, u.rules).value.0);
  }

  lemma {:induction false} UnwindShape(steps: seq<StepState>, n: nat, scope: Scope, u: Unwound)
    requires n <= |steps| && EffectsValid(steps) && Unwind(steps, n, scope, u).Success?
    ensures var r := Unwind(steps, n, scope, u).value;
            && (WritesStorable(r.overlayChanges) <==> WritesStorable(u.overlayChanges) && EffectsRewritable(steps, n))
            && Keys(r.overlayChanges) == Keys(u.overlayChanges) + Touched(steps, n)
    decreases n
  {
    hide WritesStorable, PreviousRewritable, Keys, UnwindEffect, ValidEnvelope, DeltaOf, EffectsRewritable;
    if n == 0 {
      NoEffectYet(steps);
    } else {
      LastEffectRewritable(steps, n);
      if steps[n - 1].effect.None? {
        UnwindShape(steps, n - 1, scope, u);
      } else {
        UnwindEffectShape(steps[n - 1].effect.value, scope, u);
        UnwindShape(steps, n - 1, scope, UnwindEffect(steps[n - 1].effect.value, scope, u).value);
      }
    }
  }

  lemma NoEffectYet(steps: seq<StepState>)
    requires EffectsValid(steps)
    ensures EffectsRewritable(steps, 0)
  {
  }

  /**
   * After any run of an order with no other writer, if the order is still in progress and has executed something,
   * RollbackAll succeeds, its batch is well-defined at every change, and applying it gives back every record's
   * data, every rule, and nothing more, under a revision above all earlier ones. Storage takes the batch exactly
   * when no rule the order changed was a DELETE rule before it.
   */
  lemma RollbackRestores(s: System, start: World, r: Request)
    requires Tracks(s, start) && s.order.status == InProgress && HasEffect(s.order.steps)
    requires RollbackRequest(s, r)
    ensures var plan := RollbackAll(s.order, s.order.revision, AuthorityOf(s.world), r.newRevision, r.command.actor,
                                    r.now);
            && plan.Success? && ValidEnvelope(plan.value.1)
            && var d := DeltaOf(plan.value.1);
            && d.previousRevision == s.world.revision && d.appliedRevision == r.newRevision
            && BatchRuns(d.changes, d.collection, d.scope.environment, r.newRevision, s.world.records)
            && RuleBatchRuns(d.overlayChanges, s.world.rules)
            && Keys(d.overlayChanges) == Touched(s.order.steps, |s.order.steps|)
            && Restored(ApplyDelta(d, s.world), start, r.newRevision)
            && ApplyEffect(plan.value.1, s.world)
               == if CanRewrite(Touched(s.order.steps, |s.order.steps|), start.rules)
               then Success(ApplyDelta(d, s.world))
                  else Failure(Internal)
  {
    hide Chained, Replay, CanRewrite, WritesStorable, EffectsRewritable;
    var o := s.order;
    UnwindFromTracks(s, start, r.newRevision);
    var u := Unwind(o.steps, |o.steps|, o.scope, StartUnwind(AuthorityOf(s.world))).value;
    RevisionPositive(o.steps, |o.steps|, start, o.items[0].collection, o.scope);
    ReplayBelongs(o.steps, |o.steps|, start, o.items[0].collection, o.scope);
    PlanIsValid(o, u, start, s.world, r);
    RunnableInsertsAreFresh(u.changes, u.collection, o.scope.environment, r.newRevision, s.world.records);
    NothingStored();
    UnwindShape(o.steps, |o.steps|, o.scope, StartUnwind(AuthorityOf(s.world)));
    StoredEffects(o.steps, |o.steps|, start, o.items[0].collection, o.scope);
  }

  lemma NothingStored()
    ensures WritesStorable([]) && PreviousRewritable([]) && Keys([]) == {}
  {
  }

  /** The same, from a new order and over every sequence of commands. */
  lemma RollbackUndoesRun(s: System, requests: seq<Request>, r: Request)
    requires Fresh(s)
    requires ServeAll(s, requests).order.status == InProgress && HasEffect(ServeAll(s, requests).order.steps)
    requires RollbackRequest(ServeAll(s, requests), r)
    ensures var before := ServeAll(s, requests);
            var done := Dispatch(before, r.command, r.now, r.newRevision);
            && EffectsValid(before.order.steps)
            && (if CanRewrite(Touched(before.order.steps, |before.order.steps|), s.world.rules)
                then done.Success? && done.value.system.order.status == OrderRolledBack
                     && Restored(done.value.system.world, s.world, r.newRevision)
                else done == Failure(Internal))
  {
    hide RollbackAll, ApplyEffect, BatchRuns, RuleBatchRuns, Restored, Chained, Replay, ValidEnvelope, DeltaOf,
         ApplyDelta, Serve, CanRewrite, Touched, Keys;
    var before := ServeAll(s, requests);
    RunTracks(s, requests);
    RollbackRestores(before, s.world, r);
    assert Dispatch(before, r.command, r.now, r.newRevision)
           == Configure(before, RollbackAll(before.order, before.order.revision, AuthorityOf(before.world),
                                            r.newRevision, r.command.actor, r.now));
    if Dispatch(before, r.command, r.now, r.newRevision).Success? {
      RollbackIdentity(before, r.command, r.now, r.newRevision);
    }
  }

  // ----- exact rules -----

  /** A nil content map among the rules at these keys comes back as an empty one. */
  predicate NoNilContent(keys: set<string>, rules: map<string, Rule>) {
    forall k :: k in keys && k in rules ==> rules[k].content.Some?
  }

  lemma {:induction false} BatchWritesCopies(changes: seq<RuleChange>, rules: map<string, Rule>)
    requires RuleBatchRuns(changes, rules)
    ensures NoNilContent(Keys(changes), ApplyRules(changes, rules))
    ensures forall k :: k !in Keys(changes) ==> Lookup(ApplyRules(changes, rules), k) == Lookup(rules, k)
  {
    if changes != [] {
      var init, last := changes[..|changes| - 1], changes[|changes| - 1];
      assert changes == init + [last];
      AppendChange(init, last);
      BatchWritesCopies(init, rules);
    }
  }

  lemma SameUpToCopies(keys: set<string>, after: map<string, Rule>, start: map<string, Rule>)
    requires CloneRules(after) == CloneRules(start) && NoNilContent(keys, after)
    requires forall k :: k !in keys ==> Lookup(after, k) == Lookup(start, k)
    ensures after == start <==> NoNilContent(keys, start)
  {
    assert after.Keys == CloneRules(after).Keys == CloneRules(start).Keys == start.Keys;
    if NoNilContent(keys, start) {
      forall k | k in after ensures after[k] == start[k] {
        assert CloneRules(after)[k] == CloneRules(start)[k];
        if k !in keys { assert Lookup(after, k) == Lookup(start, k); }
      }
    }
  }

  /** A stored rollback gives every rule back field for field, exactly when no rule it rewrote had a nil content map. */
  lemma RollbackRestoresRulesExactly(s: System, requests: seq<Request>, r: Request)
    requires Fresh(s)
    requires ServeAll(s, requests).order.status == InProgress && HasEffect(ServeAll(s, requests).order.steps)
    requires RollbackRequest(ServeAll(s, requests), r)
    ensures var before := ServeAll(s, requests);
            var done := Dispatch(before, r.command, r.now, r.newRevision);
            && EffectsValid(before.order.steps)
            && (done.Success? ==>
                 (done.value.system.world.rules == s.world.rules
                  <==> NoNilContent(Touched(before.order.steps, |before.order.steps|), s.world.rules)))
  {
    hide RollbackAll, ApplyEffect, BatchRuns, RuleBatchRuns, Alike, Chained, Replay, ValidEnvelope, DeltaOf, Serve,
         CanRewrite, Touched, Keys, NoNilContent;
    var before := ServeAll(s, requests);
    RunTracks(s, requests);
    RollbackRestores(before, s.world, r);
    var o := before.order;
    StoredEffects(o.steps, |o.steps|, s.world, o.items[0].collection, o.scope);
    var plan := RollbackAll(o, o.revision, AuthorityOf(before.world), r.newRevision, r.command.actor, r.now).value.1;
    BatchWritesCopies(DeltaOf(plan).overlayChanges, before.world.rules);
    SameUpToCopies(Touched(o.steps, |o.steps|), ApplyDelta(DeltaOf(plan), before.world).rules, s.world.rules);
  }
}
