/** When a published snapshot can be served to a client. */
module Serving {
  import opened Catalog
  import opened Overlay
  import opened Snapshot
  import opened Composition
  import opened ConfigServer
  import opened DeltaRuns
  import opened DeltaSync
  import Text

  /**
   * A published rule, being a copy, evaluates only as an addition where the key is absent or a modification where it is
   * present.
   */
  predicate ServedRule(q: Query, stage: string, rule: Rule, present: bool) {
    && RangesReadable(q, stage, rule)
    && (Applies(q, stage, rule) ==> (rule.action.AddRecord? && !present) || (rule.action.ModifyRecord? && present))
  }

  /**
   * The rules of one published collection fit its records, layer by layer, and no record ends up under the empty key.
   */
  predicate CollectionServable(view: View, q: Query) {
    && (forall i :: 0 <= i < |view.rules| ==> ServedRule(q, "", view.rules[i], view.rules[i].key in view.records))
    && !Adds(q, "", view.rules, "")
    && (q.scope.stage != "" ==>
         && (forall i :: 0 <= i < |view.rules| ==>
              ServedRule(q, q.scope.stage, view.rules[i],
                         view.rules[i].key in view.records || Adds(q, "", view.rules, view.rules[i].key)))
         && !Adds(q, q.scope.stage, view.rules, ""))
  }

  lemma CopyEvaluates(q: Query, stage: string, rule: Rule, present: bool)
    requires Clone(rule) == rule
    ensures RuleEvaluates(q, stage, rule, present) <==> ServedRule(q, stage, rule, present)
  {
    hide RangesReadable, Applies;
  }

  lemma PublishedBase(codec: Codec, environment: string, name: string, view: View, q: Query)
    requires GoodView(codec, environment, name, view) && q.collection == name && q.scope.environment == environment
    ensures BaseMap(q, RecordList(view)).Keys == view.records.Keys && "" !in view.records
  {
    var base := RecordList(view);
    forall i | 0 <= i < |base|
      ensures view.ordered[i] in view.records && base[i].key == view.ordered[i] && base[i].collection == q.collection
      ensures base[i].environment == q.scope.environment
    {
      assert view.ordered[i] in Text.Elements(view.ordered);
      assert GoodRecord(codec, environment, view, view.ordered[i]);
    }
    BaseMapOfListed(q, base);
    forall k ensures k in BaseMap(q, base) <==> k in view.records {
      if k in view.records {
        assert k in Text.Elements(view.ordered);
        var i :| 0 <= i < |base| && view.ordered[i] == k;
        assert base[i].key == k;
      }
    }
    forall k | k in view.records ensures k != "" { assert GoodRecord(codec, environment, view, k); }
  }

  /** What evaluating copies leaves in each layer. */
  lemma CopiesRemoveNothing(q: Query, stage: string, rules: seq<Rule>, records: map<string, Record>)
    requires DistinctTargets(rules) && Layer(q, stage, rules, records).Success?
    requires forall i :: 0 <= i < |rules| ==> Clone(rules[i]) == rules[i]
    ensures forall k :: k in Layer(q, stage, rules, records).value <==> k in records || Adds(q, stage, rules, k)
  {
    hide Adds, Applies, RangesReadable;
    LayerExactly(q, stage, rules, records);
    forall k ensures !Removes(q, stage, rules, k) {
      if i :| 0 <= i < |rules| && Applies(q, stage, rules[i]) && rules[i].action.DeleteRecord? && rules[i].key == k {
        assert RuleEvaluates(q, stage, rules[i], rules[i].key in records);
        assert Clone(rules[i]) == rules[i];
      }
    }
  }

  lemma LayerOfCopies(q: Query, stage: string, rules: seq<Rule>, records: map<string, Record>)
    requires DistinctTargets(rules) && forall i :: 0 <= i < |rules| ==> Clone(rules[i]) == rules[i]
    ensures Layer(q, stage, rules, records).Success? <==>
              forall i :: 0 <= i < |rules| ==> ServedRule(q, stage, rules[i], rules[i].key in records)
    ensures Layer(q, stage, rules, records).Success? ==>
              forall k :: k in Layer(q, stage, rules, records).value <==> k in records || Adds(q, stage, rules, k)
  {
    hide Adds, ServedRule, RuleEvaluates, DistinctTargets;
    LayerExactly(q, stage, rules, records);
    forall i | 0 <= i < |rules|
      ensures RuleEvaluates(q, stage, rules[i], rules[i].key in records) <==>
                ServedRule(q, stage, rules[i], rules[i].key in records)
    {
      CopyEvaluates(q, stage, rules[i], rules[i].key in records);
    }
    if Layer(q, stage, rules, records).Success? { CopiesRemoveNothing(q, stage, rules, records); }
  }

  lemma OneCollectionExactly(codec: Codec, s: Snapshot, r: Request, bucket: int, n: string)
    requires WellBuilt(codec, s.environment, s) && ViewListed(s, n) && r.environment == s.environment
    requires DistinctTargets(s.collections[n].rules)
    ensures PayloadOf(s, r, bucket, n).Success? <==> CollectionServable(s.collections[n], QueryFor(r, bucket, n))
  {
    hide GoodView, OptionsResolve, AuthorizedOf, ServedRule, Adds, RecordList, DistinctTargets;
    var view, q := s.collections[n], QueryFor(r, bucket, n);
    assert GoodView(codec, s.environment, n, view);
    PublishedBase(codec, s.environment, n, view, q);
    ViewCopies(codec, s.environment, n, view);
    var base := BaseMap(q, RecordList(view));
    LayerOfCopies(q, "", view.rules, base);
    forall i | 0 <= i < |view.rules| ensures view.rules[i].key in base <==> view.rules[i].key in view.records {}
    if Layer(q, "", view.rules, base).Success? {
      var wide := Layer(q, "", view.rules, base).value;
      LayerOfCopies(q, q.scope.stage, view.rules, wide);
    }
  }

  lemma ViewCopies(codec: Codec, environment: string, name: string, view: View)
    requires GoodView(codec, environment, name, view)
    ensures forall i :: 0 <= i < |view.rules| ==> Clone(view.rules[i]) == view.rules[i]
  {
  }

  /**
   * A published snapshot can be served to a client exactly when, in every collection it may see, each rule that
   * applies to the client is an addition of an absent key or a modification of a present one, has readable ranges, and
   * leaves no record under the empty key. In particular a published deletion that applies is never servable.
   */
  lemma ServableExactly(codec: Codec, s: Snapshot, r: Request, bucket: int)
    requires WellBuilt(codec, s.environment, s) && r.environment == s.environment
    requires forall n :: n in Visible(s, r.consumer) ==> DistinctTargets(s.collections[n].rules)
    ensures AllListed(s)
    ensures Servable(s, r, bucket) <==>
              forall n :: n in Visible(s, r.consumer) ==> CollectionServable(s.collections[n], QueryFor(r, bucket, n))
  {
    hide PayloadOf, CollectionServable, WellBuilt, DistinctTargets;
    WellBuiltIsListed(codec, s);
    forall n | n in Visible(s, r.consumer)
      ensures PayloadOf(s, r, bucket, n).Success? <==> CollectionServable(s.collections[n], QueryFor(r, bucket, n))
    {
      OneCollectionExactly(codec, s, r, bucket, n);
    }
  }

  lemma {:induction false} ClonedDeleteStopsLayer(q: Query, stage: string, rules: seq<Rule>,
                                                  records: map<string, Record>, i: nat)
    requires i < |rules| && Applies(q, stage, rules[i]) && rules[i].action == DeleteRecord && rules[i].content.Some?
    ensures Layer(q, stage, rules, records).Failure?
  {
    hide Applies, RangesReadable;
    if i < |rules| - 1 { ClonedDeleteStopsLayer(q, stage, rules[..|rules| - 1], records, i); }
  }

  /**
   * Publication copies rules, and a copy of a deletion has an empty content map instead of none. A published deletion
   * that applies to a client's scope and bucket therefore makes the whole snapshot unservable to that client.
   */
  lemma PublishedDeleteStopsDelivery(codec: Codec, s: Snapshot, r: Request, bucket: int, n: string, i: nat)
    requires WellBuilt(codec, s.environment, s) && n in Visible(s, r.consumer)
    requires i < |s.collections[n].rules| && s.collections[n].rules[i].action == DeleteRecord
    requires Applies(QueryFor(r, bucket, n), r.stage, s.collections[n].rules[i])
    ensures AllListed(s) && !Servable(s, r, bucket)
  {
    hide Applies, OptionsResolve, AuthorizedOf;
    WellBuiltIsListed(codec, s);
    var q, view := QueryFor(r, bucket, n), s.collections[n];
    assert GoodView(codec, s.environment, n, view) && ViewListed(s, n);
    assert Clone(view.rules[i]) == view.rules[i];
    var base := BaseMap(q, RecordList(view));
    if r.stage == "" {
      ClonedDeleteStopsLayer(q, "", view.rules, base, i);
    } else if Layer(q, "", view.rules, base).Success? {
      ClonedDeleteStopsLayer(q, r.stage, view.rules, Layer(q, "", view.rules, base).value, i);
    }
    assert PayloadOf(s, r, bucket, n).Failure?;
  }
}
