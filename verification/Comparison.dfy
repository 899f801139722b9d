/** What COMPARE establishes: when it matches, and how the match relates to the two digests it records. */
module Comparison {
  import opened Wrappers
  import opened Catalog
  import opened OrderState
  import opened Planning
  import Text

  /** What was observed of one target: its record, if the observation contains one. */
  ghost predicate Observes(o: Order, actual: seq<Record>, found: map<string, Record>)
    requires o.items != []
  {
    && (forall k :: k in found <==> IsTarget(o, k) && exists i :: 0 <= i < |actual| && actual[i].key == k)
    && (forall i :: 0 <= i < |actual| && IsTarget(o, actual[i].key) ==>
         && actual[i].key in found && found[actual[i].key] == actual[i]
         && actual[i].collection == o.items[0].collection && actual[i].environment == o.scope.environment)
  }

  lemma {:induction false} ObservationMeaning(o: Order, actual: seq<Record>)
    requires WellFormedOrder(o) && ActualByKey(o, actual).Success?
    ensures Observes(o, actual, ActualByKey(o, actual).value)
  {
    hide WellFormedOrder, IsTarget;
    if actual != [] {
      var n := |actual| - 1;
      var init := actual[..n];
      ObservationMeaning(o, init);
      assert forall i :: 0 <= i < n ==> init[i] == actual[i];
      assert forall i :: 0 <= i < |actual| ==> i == n || actual[i] == init[i];
    }
  }

  predicate OwnIdentity(o: Order, record: Record)
    requires o.items != []
  {
    IsTarget(o, record.key) ==> record.collection == o.items[0].collection && record.environment == o.scope.environment
  }

  predicate SeenOnce(o: Order, actual: seq<Record>, j: nat)
    requires j < |actual|
  {
    IsTarget(o, actual[j].key) ==> forall i :: 0 <= i < j ==> actual[i].key != actual[j].key
  }

  /** An observation is usable exactly when each target is seen at most once and under the order's own identity. */
  lemma {:induction false} ObservationUsable(o: Order, actual: seq<Record>)
    requires WellFormedOrder(o)
    ensures ActualByKey(o, actual).Success? <==>
              forall i :: 0 <= i < |actual| ==> OwnIdentity(o, actual[i]) && SeenOnce(o, actual, i)
  {
    hide WellFormedOrder, IsTarget;
    if actual != [] {
      var n := |actual| - 1;
      var init := actual[..n];
      ObservationUsable(o, init);
      forall i | 0 <= i < n ensures init[i] == actual[i] && (SeenOnce(o, init, i) <==> SeenOnce(o, actual, i)) {
        assert forall k :: 0 <= k < i ==> init[k] == actual[k];
      }
      if ActualByKey(o, init).Success? {
        ObservationMeaning(o, init);
        assert IsTarget(o, actual[n].key) ==>
                 (SeenOnce(o, actual, n) <==> actual[n].key !in ActualByKey(o, init).value);
      }
    }
  }

  /** A target agrees when both sides are absent, or both are present and the comparison accepts their data. */
  predicate Agrees(item: Item, found: map<string, Record>) {
    match (item.after, Lookup(found, item.key))
    case (None, None) => true
    case (Some(expected), Some(actual)) => EqualData(expected.data, actual.data)
    case _ => false
  }

  /** A comparison matches exactly when every target agrees; otherwise it lists, in order, exactly those that do not. */
  lemma MatchesExactlyWhenTargetsAgree(o: Order, expected: nat, actual: seq<Record>, actor: string, at: int)
    requires WellFormedOrder(o) && ExecuteCompare(o, expected, actual, actor, at).Success?
    ensures ActualByKey(o, actual).Success?
    ensures var diff := ExecuteCompare(o, expected, actual, actor, at).value.1.diffKeys;
            var found := ActualByKey(o, actual).value;
            && Text.StrictlySorted(diff)
            && (forall i :: 0 <= i < |o.items| ==> (o.items[i].key in diff <==> !Agrees(o.items[i], found)))
            && (forall k :: k in diff ==> IsTarget(o, k))
            && (diff == [] <==> forall i :: 0 <= i < |o.items| ==> Agrees(o.items[i], found))
  {
    hide WellFormedItem;
    var found := ActualByKey(o, actual).value;
    var diff := Text.InOrder(DiffKeys(o, found));
    forall k ensures k in diff <==> k in DiffKeys(o, found) {
      assert k in diff <==> k in Text.Elements(diff);
    }
    forall i | 0 <= i < |o.items| ensures o.items[i].key in diff <==> !Agrees(o.items[i], found) {
      assert Agrees(o.items[i], found) <==> !Differs(o.items[i].after, Lookup(found, o.items[i].key));
      if o.items[i].key in diff {
        var j :| 0 <= j < |o.items| && Differs(o.items[j].after, Lookup(found, o.items[j].key))
                 && o.items[j].key == o.items[i].key;
        assert i == j;
      }
    }
    if diff != [] {
      assert diff[0] in diff;
      var j :| 0 <= j < |o.items| && Differs(o.items[j].after, Lookup(found, o.items[j].key))
               && o.items[j].key == diff[0];
    }
  }

  lemma {:induction false} ExpectedKeys(items: seq<Item>, k: string)
    requires k in ExpectedByKey(items)
    ensures exists i :: 0 <= i < |items| && items[i].key == k
  {
    var n := |items| - 1;
    if k != items[n].key {
      ExpectedKeys(items[..n], k);
      var i :| 0 <= i < n && items[..n][i].key == k;
      assert items[i].key == k;
    }
  }

  /** The data each side holds for a target, as the digests see it. */
  predicate SameData(item: Item, found: map<string, Record>) {
    match (item.after, Lookup(found, item.key))
    case (None, None) => true
    case (Some(expected), Some(actual)) => expected.data == actual.data
    case _ => false
  }

  /** The recorded digests are equal exactly when every target's data is identical. */
  lemma DigestsEqualExactlyOnSameData(o: Order, actual: seq<Record>)
    requires WellFormedOrder(o) && ActualByKey(o, actual).Success?
    ensures var found := ActualByKey(o, actual).value;
            Digest(Payload(ExpectedByKey(o.items))) == Digest(Payload(found))
            <==> forall i :: 0 <= i < |o.items| ==> SameData(o.items[i], found)
  {
    hide WellFormedItem;
    var found, expected := ActualByKey(o, actual).value, ExpectedByKey(o.items);
    ObservationMeaning(o, actual);
    forall i | 0 <= i < |o.items|
      ensures Lookup(expected, o.items[i].key) == o.items[i].after
    {
      ExpectedAt(o.items, i);
    }
    if forall i :: 0 <= i < |o.items| ==> SameData(o.items[i], found) {
      forall k ensures Lookup(Payload(expected), k) == Lookup(Payload(found), k) {
        if k in expected || k in found {
          if k in expected { ExpectedKeys(o.items, k); }
          assert IsTarget(o, k);
          var i :| 0 <= i < |o.items| && o.items[i].key == k;
          assert SameData(o.items[i], found);
        }
      }
      SamePayload(Payload(expected), Payload(found));
    }
    if Payload(expected) == Payload(found) {
      forall i | 0 <= i < |o.items| ensures SameData(o.items[i], found) {
        var k := o.items[i].key;
        assert k in expected <==> k in Payload(found);
        if k in expected { assert Payload(expected)[k] == Payload(found)[k]; }
      }
    }
  }

  lemma SamePayload<V>(a: map<string, V>, b: map<string, V>)
    requires forall k :: Lookup(a, k) == Lookup(b, k)
    ensures a == b
  {
    assert forall k :: k in a <==> Lookup(a, k).Some?;
    assert forall k :: k in b <==> Lookup(b, k).Some?;
    forall k | k in a ensures k in b && a[k] == b[k] {
      assert Lookup(a, k) == Lookup(b, k);
    }
  }

  /**
   * Equal digests always match. A match means equal digests exactly when no expected field is missing from
   * what was observed: the comparison reads a missing field as empty, the digest does not.
   */
  lemma MatchAgainstDigests(o: Order, actual: seq<Record>)
    requires WellFormedOrder(o) && ActualByKey(o, actual).Success?
    ensures var found := ActualByKey(o, actual).value;
            var sameDigest := Digest(Payload(ExpectedByKey(o.items))) == Digest(Payload(found));
            var matched := forall i :: 0 <= i < |o.items| ==> Agrees(o.items[i], found);
            && (sameDigest ==> matched)
            && (matched ==> (sameDigest <==>
                 forall i :: 0 <= i < |o.items| && o.items[i].after.Some? && o.items[i].key in found ==>
                   o.items[i].after.value.data.Keys <= found[o.items[i].key].data.Keys))
  {
    hide WellFormedItem, IsTarget, ActualByKey, ExpectedByKey;
    var found := ActualByKey(o, actual).value;
    DigestsEqualExactlyOnSameData(o, actual);
    forall i | 0 <= i < |o.items|
      ensures SameData(o.items[i], found) ==> Agrees(o.items[i], found)
      ensures Agrees(o.items[i], found) ==>
                (SameData(o.items[i], found) <==>
                 (o.items[i].after.Some? && o.items[i].key in found ==>
                    o.items[i].after.value.data.Keys <= found[o.items[i].key].data.Keys))
    {
      if o.items[i].after.Some? && o.items[i].key in found {
        EqualDataExact(o.items[i].after.value.data, found[o.items[i].key].data);
      }
    }
  }
}
