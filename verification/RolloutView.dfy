/** What clients see while a percentage rollout is under way. */
module RolloutView {
  import opened Wrappers
  import opened Catalog
  import opened Rollout
  import opened Overlay
  import opened Template
  import opened OrderState
  import opened World
  import opened Rollback
  import opened ReleaseRun
  import opened RollbackRun
  import opened RolloutRun
  import opened Reach

  lemma SlicesStayApart(o: Order, n: nat)
    requires CompiledBaseFinal(o) && n <= |o.steps|
    ensures SlicesApart(SlicesBefore(o.steps, n))
  {
    PrefixGrowing(Definitions(o.steps), n);
  }

  /** A rule serving the union of some slices reaches exactly the buckets of that union. */
  lemma UnionServes(slices: seq<seq<BucketRange>>, bucket: Option<int>)
    requires SlicesApart(slices) && slices != []
    ensures WellFormed(Runs(UnionOf(slices)))
    ensures ServesBucket(bucket, Runs(UnionOf(slices))) <==> bucket.Some? && bucket.value in UnionOf(slices)
  {
    var ranges, union := Runs(UnionOf(slices)), UnionOf(slices);
    CanonicalWellFormed(ranges);
    assert WellFormed(slices[0]) && slices[0] != [];
    assert Contains(slices[0][0], slices[0][0].start) && Covers(slices[0], slices[0][0].start);
    assert slices[0][0].start in union;
    assert slices[0][0].start in Buckets(ranges);
    if bucket.Some? { assert bucket.value in Buckets(ranges) <==> bucket.value in union; }
  }

  predicate Reached(bucket: Option<int>, union: set<int>) {
    bucket.Some? && bucket.value in union
  }

  /**
   * What a target shows: its desired record under the rule's revision where the slice reaches, and the base record
   * elsewhere.
   */
  function ShownRecord(item: Item, rules: map<string, Rule>, reached: bool, base: Option<Record>): Option<Record> {
    if reached && item.after.Some? && item.key in rules
    then Some(item.after.value.(revision := rules[item.key].revision))
    else base
  }

  /** A target's record and desired record are its own. */
  predicate OwnTarget(q: Query, item: Item, base: map<string, Record>) {
    && item.collection == q.collection && SameTarget(item.after, q.collection, q.scope.environment, item.key)
    && (item.key in base ==> Belongs(base[item.key], q.collection, q.scope.environment, item.key))
  }

  lemma OneRuleShows(q: Query, o: Order, item: Item, w: World, slices: seq<seq<BucketRange>>,
                     before: map<string, Record>)
    requires q.scope == o.scope && SlicesApart(slices) && slices != []
    requires RolledOut(o, item, w.records, w.rules, slices) && OwnTarget(q, item, before)
    requires Lookup(before, item.key) == Lookup(w.records, item.key)
    ensures var r := ApplyRule(q, q.scope.stage, before, w.rules[item.key]);
            && r.Success?
            && forall k :: Lookup(r.value, k) ==
                 if k == item.key then ShownRecord(item, w.rules, Reached(q.bucket, UnionOf(slices)), Lookup(before, k))
                 else Lookup(before, k)
  {
    hide Runs, UnionOf, SlicesApart, WellFormed;
    UnionServes(slices, q.bucket);
  }

  lemma {:induction false} RulesShow(q: Query, o: Order, items: seq<Item>, w: World, slices: seq<seq<BucketRange>>,
                                     base: map<string, Record>)
    requires q.scope == o.scope && SlicesApart(slices) && slices != [] && DistinctKeys(items)
    requires forall i :: 0 <= i < |items| ==>
               && RolledOut(o, items[i], w.records, w.rules, slices) && OwnTarget(q, items[i], base)
               && Lookup(base, items[i].key) == Lookup(w.records, items[i].key)
    ensures var r := Layer(q, q.scope.stage, TargetRules(items, w.rules), base);
            && r.Success?
            && (forall i :: 0 <= i < |items| ==>
                 Lookup(r.value, items[i].key)
                 == ShownRecord(items[i], w.rules, Reached(q.bucket, UnionOf(slices)), Lookup(base, items[i].key)))
            && (forall k :: !KeyAmong(items, k) ==> Lookup(r.value, k) == Lookup(base, k))
  {
    hide RolledOut, SlicesApart, UnionOf, ApplyRule, ShownRecord, Reached;
    if items != [] {
      var n := |items| - 1;
      var init, last := items[..n], items[n];
      assert forall i :: 0 <= i < n ==> init[i] == items[i];
      RulesShow(q, o, init, w, slices, base);
      var before := Layer(q, q.scope.stage, TargetRules(init, w.rules), base).value;
      InRules(o, last, w, slices);
      LastIsNew(items);
      assert Lookup(before, last.key) == Lookup(base, last.key);
      OneRuleShows(q, o, last, w, slices, before);
      var all := TargetRules(items, w.rules);
      assert all[..|all| - 1] == TargetRules(init, w.rules) && all[|all| - 1] == w.rules[last.key];
      forall k | !KeyAmong(items, k) ensures k != last.key && !KeyAmong(init, k) { AmongLast(items, k); }
    }
  }

  lemma InRules(o: Order, item: Item, w: World, slices: seq<seq<BucketRange>>)
    requires RolledOut(o, item, w.records, w.rules, slices)
    ensures item.key in w.rules && w.rules[item.key].scope == o.scope && o.scope.stage != "" && item.after.Some?
  {
  }

  lemma LastIsNew(items: seq<Item>)
    requires items != [] && DistinctKeys(items)
    ensures !KeyAmong(items[..|items| - 1], items[|items| - 1].key)
    ensures forall i :: 0 <= i < |items| - 1 ==> items[i].key != items[|items| - 1].key
  {
  }

  lemma {:induction false} TargetRulesScoped(items: seq<Item>, rules: map<string, Rule>, scope: Scope)
    requires forall i :: 0 <= i < |items| && items[i].key in rules ==> rules[items[i].key].scope == scope
    ensures forall j :: 0 <= j < |TargetRules(items, rules)| ==> TargetRules(items, rules)[j].scope == scope
  {
    if items != [] { TargetRulesScoped(items[..|items| - 1], rules, scope); }
  }

  /** Rolled-out targets evaluate for every client, and show what the union of the slices decides. */
  lemma RolledOutView(o: Order, w: World, slices: seq<seq<BucketRange>>, bucket: Option<int>)
    requires WellFormedOrder(o) && WellFormedWorld(w, o.items[0].collection, o.scope.environment)
    requires SlicesApart(slices) && slices != []
    requires forall i :: 0 <= i < |o.items| ==> RolledOut(o, o.items[i], w.records, w.rules, slices)
    ensures View(o, w, bucket).Success?
    ensures forall i :: 0 <= i < |o.items| ==>
              Lookup(View(o, w, bucket).value, o.items[i].key)
              == ShownRecord(o.items[i], w.rules, Reached(bucket, UnionOf(slices)), Lookup(w.records, o.items[i].key))
  {
    hide RolledOut, SlicesApart, UnionOf, Layer, ShownRecord, Reached, TargetRules, TargetRecords, BaseMap;
    var q := Query(o.items[0].collection, o.scope, bucket);
    var base := BaseMap(q, TargetRecords(o.items, w.records));
    forall i | 0 <= i < |o.items|
      ensures Lookup(base, o.items[i].key) == Lookup(w.records, o.items[i].key) && OwnTarget(q, o.items[i], base)
      ensures o.items[i].key in w.rules && w.rules[o.items[i].key].scope == o.scope && o.scope.stage != ""
    {
      BaseMapOfTargets(q, o.items, w.records, o.items[i].key);
      assert WellFormedItem(o.items[i], o.items[0].collection, o.scope);
      if o.items[i].key in w.records {
        assert Belongs(w.records[o.items[i].key], o.items[0].collection, o.scope.environment, o.items[i].key);
      }
      InRules(o, o.items[i], w, slices);
    }
    TargetRulesScoped(o.items, w.rules, o.scope);
    OtherLayerSkips(q, "", TargetRules(o.items, w.rules), base);
    RulesShow(q, o, o.items, w, slices, base);
  }

  /**
   * What clients see during a rollout: until the base step every client's view evaluates, and shows each target as
   * desired exactly if the client's bucket is in the union of the slices executed so far; everyone else still sees
   * the base record the order started from.
   */
  lemma RolloutShows(s: System, requests: seq<Request>, bucket: Option<int>)
    requires RolloutStart(s) && ServeAll(s, requests).order.status == InProgress
    requires !BaseBefore(ServeAll(s, requests).order.steps, DoneSteps(ServeAll(s, requests).order))
    ensures var now := ServeAll(s, requests);
            var reached := Reached(bucket, UnionOf(SlicesBefore(now.order.steps, DoneSteps(now.order))));
            && View(now.order, now.world, bucket).Success?
            && now.world.records == s.world.records
            && forall i :: 0 <= i < |now.order.items| ==>
                 var item := now.order.items[i];
                 var shown := Lookup(View(now.order, now.world, bucket).value, item.key);
                 if reached then shown.Some? && item.after.Some? && item.key in now.world.rules
                                 && shown.value == item.after.value.(revision := now.world.rules[item.key].revision)
                 else shown == Lookup(s.world.records, item.key)
  {
    hide ServeAll, View, RolledOut, SlicesApart, SlicesBefore, ValidSteps, Chained, Replay, WellFormedItem;
    var now := ServeAll(s, requests);
    var o, w, n := now.order, now.world, DoneSteps(now.order);
    RolloutHolds(s, requests);
    ReplayBelongs(o.steps, |o.steps|, s.world, o.items[0].collection, o.scope);
    var slices := SlicesBefore(o.steps, n);
    SlicesStayApart(o, n);
    if slices == [] {
      forall i | 0 <= i < |o.items| ensures o.items[i].key !in w.rules { assert RuleState(o, o.items[i], w, n); }
      BareView(o, w, bucket);
    } else {
      forall i | 0 <= i < |o.items|
        ensures RolledOut(o, o.items[i], w.records, w.rules, slices) && o.items[i].key in w.rules
        ensures o.items[i].after.Some?
      {
        assert RuleState(o, o.items[i], w, n);
        InRules(o, o.items[i], w, slices);
      }
      RolledOutView(o, w, slices, bucket);
    }
  }
}
