/**
 * Partial refresh: every dependency group is published as loaded or kept as it was, and the composition never fails.
 */
module Composition {
  import opened Wrappers
  import opened Catalog
  import opened Overlay
  import opened Dependencies
  import opened Snapshot
  import Text

  // ----- snapshots a build can have made -----

  ghost predicate GoodRecord(codec: Codec, environment: string, view: View, k: string)
    requires k in view.records
  {
    var r := view.records[k];
    && r.key == k && k != "" && r.collection == view.definition.name && r.environment == environment
    && 0 < r.revision <= view.version
    && codec.canon(view.definition, environment, r.data) == Some(Canonical(k, r.data))
  }

  ghost predicate GoodView(codec: Codec, environment: string, name: string, view: View) {
    && name != "" && view.definition.name == name && view.version > 0
    && (forall k :: k in view.records ==> GoodRecord(codec, environment, view, k))
    && view.ordered == Text.InOrder(view.records.Keys) && view.digest == Digest(Payload(view.records))
    && (forall i :: 0 <= i < |view.rules| ==>
         AcceptsRule(environment, name, view.version, view.rules[i]) && Clone(view.rules[i]) == view.rules[i])
    && Text.StrictlySorted(view.consumers)
    && (forall i :: 0 <= i < |view.consumers| ==>
          view.consumers[i] != "" && Text.Trim(view.consumers[i]) == view.consumers[i])
  }

  ghost predicate WellBuilt(codec: Codec, environment: string, s: Snapshot) {
    && s.environment == environment
    && (forall n :: n in s.collections ==> GoodView(codec, environment, n, s.collections[n]))
    && (forall c :: c in s.models ==> s.models[c].code == c && s.models[c].collection in s.collections)
    && OptionsResolve(codec, s.collections, s.models)
    && s.authorized == AuthorizedOf(s.collections)
  }

  lemma RecordsAreGood(codec: Codec, environment: string, input: Input)
    requires Idempotent(codec) && AcceptsInput(codec, environment, input)
    ensures forall k :: k in ViewOf(codec, environment, input).records ==>
              GoodRecord(codec, environment, ViewOf(codec, environment, input), k)
  {
    var view := ViewOf(codec, environment, input);
    RecordsMeaning(codec, environment, input, input.records);
    forall k | k in view.records ensures GoodRecord(codec, environment, view, k) {
      var i :| 0 <= i < |input.records| && input.records[i].key == k;
      assert AcceptsRecord(codec, environment, input, input.records[i]);
    }
  }

  lemma ConsumersAreGood(consumers: seq<string>)
    requires AcceptsConsumers(consumers)
    ensures var sorted := Text.InOrder(TrimmedSet(consumers));
            forall i :: 0 <= i < |sorted| ==> sorted[i] != "" && Text.Trim(sorted[i]) == sorted[i]
  {
    hide Text.Trim;
    var sorted := Text.InOrder(TrimmedSet(consumers));
    forall i | 0 <= i < |sorted| ensures sorted[i] != "" && Text.Trim(sorted[i]) == sorted[i] {
      assert sorted[i] in Text.Elements(sorted);
      var j :| 0 <= j < |consumers| && Text.Trim(consumers[j]) == sorted[i];
      Text.TrimIdempotent(consumers[j]);
    }
  }

  lemma ViewIsGood(codec: Codec, environment: string, input: Input)
    requires Idempotent(codec) && AcceptsInput(codec, environment, input)
    ensures GoodView(codec, environment, input.definition.name, ViewOf(codec, environment, input))
  {
    hide GoodRecord, RecordsOf, AcceptsConsumers, TrimmedSet, AcceptsRecord, Text.Trim;
    RecordsAreGood(codec, environment, input);
    ConsumersAreGood(input.consumers);
    var view := ViewOf(codec, environment, input);
    forall i | 0 <= i < |view.rules|
      ensures AcceptsRule(environment, input.definition.name, view.version, view.rules[i])
      ensures Clone(view.rules[i]) == view.rules[i]
    {
      assert AcceptsRule(environment, input.definition.name, input.version, input.rules[i]);
    }
  }

  /** What a build publishes satisfies everything a later refresh relies on. */
  lemma AcceptedIsWellBuilt(codec: Codec, identity: Identity, environment: string, inputs: seq<Input>)
    requires Idempotent(codec) && Accepts(codec, environment, inputs)
    ensures WellBuilt(codec, environment, SnapshotOf(codec, identity, environment, inputs))
  {
    hide GoodView, ViewOf, OptionsResolve, AuthorizedOf, DistinctCodes;
    ViewsMeaning(codec, environment, inputs);
    ModelsMeaning(inputs);
    var s := SnapshotOf(codec, identity, environment, inputs);
    forall n | n in s.collections ensures GoodView(codec, environment, n, s.collections[n]) {
      var i :| 0 <= i < |inputs| && inputs[i].definition.name == n;
      ViewIsGood(codec, environment, inputs[i]);
    }
    forall c | c in s.models ensures s.models[c].code == c && s.models[c].collection in s.collections {
      var i, k :| 0 <= i < |inputs| && 0 <= k < |inputs[i].models| && inputs[i].models[k] == s.models[c];
      assert AcceptsInput(codec, environment, inputs[i]);
    }
  }

  // ----- the previous view as an input -----

  ghost function CodesOf(s: Snapshot, name: string): set<string> {
    set c | c in s.models && s.models[c].collection == name
  }

  ghost function PreviousModels(s: Snapshot, name: string): (r: seq<Model>)
    ensures |r| == |Text.InOrder(CodesOf(s, name))|
  {
    var codes := Text.InOrder(CodesOf(s, name));
    seq(|codes|, i requires 0 <= i < |codes| => assert codes[i] in Text.Elements(codes); s.models[codes[i]])
  }

  ghost function RecordList(view: View): seq<Record>
    requires view.ordered == Text.InOrder(view.records.Keys)
  {
    seq(|view.ordered|, i requires 0 <= i < |view.ordered| =>
      assert view.ordered[i] in Text.Elements(view.ordered); view.records[view.ordered[i]])
  }

  ghost function PreviousInput(s: Snapshot, name: string): Input
    requires name in s.collections && s.collections[name].ordered == Text.InOrder(s.collections[name].records.Keys)
  {
    var view := s.collections[name];
    Input(view.definition, PreviousModels(s, name), view.consumers, view.version, view.cursor, RecordList(view),
          Clones(view.rules))
  }

  lemma ListedRecords(codec: Codec, environment: string, name: string, view: View, input: Input)
    requires GoodView(codec, environment, name, view)
    requires input.definition == view.definition && input.version == view.version && input.records == RecordList(view)
    ensures (forall i :: 0 <= i < |input.records| ==> AcceptsRecord(codec, environment, input, input.records[i]))
    ensures DistinctRecords(input.records)
    ensures RecordsOf(codec, environment, view.definition, RecordList(view)) == view.records
  {
    var ordered, records := view.ordered, input.records;
    forall i | 0 <= i < |records|
      ensures ordered[i] in view.records && AcceptsRecord(codec, environment, input, records[i])
      ensures records[i].key == ordered[i]
      ensures CanonicalRecord(codec, environment, view.definition, records[i]) == view.records[ordered[i]]
    {
      assert ordered[i] in Text.Elements(ordered);
      assert GoodRecord(codec, environment, view, ordered[i]);
    }
    forall i, j | 0 <= i < j < |records| ensures records[i].key != records[j].key {
      assert Text.Less(ordered[i], ordered[j]);
      Text.LessIrreflexive(ordered[i]);
    }
    RecordsMeaning(codec, environment, input, records);
    var built := RecordsOf(codec, environment, view.definition, records);
    forall k | k in view.records ensures k in built && built[k] == view.records[k] {
      assert k in Text.Elements(ordered);
      var i :| 0 <= i < |ordered| && ordered[i] == k;
      assert built[records[i].key] == view.records[ordered[i]];
    }
    forall k | k in built ensures k in view.records {
      var i :| 0 <= i < |records| && records[i].key == k;
    }
  }

  lemma TrimmedStay(consumers: seq<string>)
    requires Text.StrictlySorted(consumers)
    requires forall i :: 0 <= i < |consumers| ==> consumers[i] != "" && Text.Trim(consumers[i]) == consumers[i]
    ensures AcceptsConsumers(consumers) && Text.InOrder(TrimmedSet(consumers)) == consumers
  {
    hide Text.Trim;
    forall i, j | 0 <= i < j < |consumers| ensures consumers[i] != consumers[j] { Text.LessIrreflexive(consumers[i]); }
    forall x | x in Text.Elements(consumers) ensures x in TrimmedSet(consumers) {
      var i :| 0 <= i < |consumers| && consumers[i] == x;
      assert Text.Trim(consumers[i]) == x;
    }
    assert TrimmedSet(consumers) == Text.Elements(consumers);
    Text.StrictlySortedUnique(consumers, Text.InOrder(TrimmedSet(consumers)));
  }

  lemma PreviousModelsMeaning(codec: Codec, environment: string, s: Snapshot, name: string)
    requires WellBuilt(codec, environment, s)
    ensures OwnCodes(PreviousModels(s, name))
    ensures forall i :: 0 <= i < |PreviousModels(s, name)| ==>
              var m := PreviousModels(s, name)[i]; m.collection == name && m.code in s.models && s.models[m.code] == m
    ensures forall c :: c in s.models && s.models[c].collection == name ==> s.models[c] in PreviousModels(s, name)
  {
    hide GoodView, OptionsResolve, AuthorizedOf;
    var codes, models := Text.InOrder(CodesOf(s, name)), PreviousModels(s, name);
    forall i | 0 <= i < |codes| ensures codes[i] in s.models && models[i] == s.models[codes[i]]
    && models[i].code == codes[i] && models[i].collection == name {
      assert codes[i] in Text.Elements(codes);
    }
    forall i, j | 0 <= i < j < |codes| ensures codes[i] != codes[j] { Text.LessIrreflexive(codes[i]); }
    forall c | c in s.models && s.models[c].collection == name ensures s.models[c] in models {
      assert c in Text.Elements(codes);
      var i :| 0 <= i < |codes| && codes[i] == c;
      assert models[i] == s.models[c];
    }
  }

  /** Round trip: rebuilding the input taken from a published view gives that very view. */
  lemma PreviousInputRebuilds(codec: Codec, environment: string, s: Snapshot, name: string)
    requires WellBuilt(codec, environment, s) && name in s.collections
    ensures s.collections[name].ordered == Text.InOrder(s.collections[name].records.Keys)
    ensures AcceptsInput(codec, environment, PreviousInput(s, name))
    ensures ViewOf(codec, environment, PreviousInput(s, name)) == s.collections[name]
  {
    hide OptionsResolve, AuthorizedOf, PreviousModels, GoodRecord, AcceptsRecord, DistinctRecords, RecordList,
         RecordsOf, TrimmedSet, AcceptsConsumers, Text.Trim;
    var view := s.collections[name];
    assert GoodView(codec, environment, name, view);
    var input := PreviousInput(s, name);
    ListedRecords(codec, environment, name, view, input);
    TrimmedStay(view.consumers);
    PreviousModelsMeaning(codec, environment, s, name);
    assert Clones(Clones(view.rules)) == view.rules && Clones(view.rules) == view.rules;
  }

  // ----- inputs of a group -----

  function InputsFor(names: seq<string>, inputs: map<string, Input>): seq<Input> {
    if names == [] then []
    else
      var before, last := InputsFor(names[..|names| - 1], inputs), names[|names| - 1];
      if last in inputs then before + [inputs[last]] else before
  }

  predicate KeyedByName(inputs: map<string, Input>) {
    forall n :: n in inputs ==> inputs[n].definition.name == n
  }

  lemma {:induction false} InputsForMeaning(names: seq<string>, inputs: map<string, Input>)
    requires NoRepeats(names) && KeyedByName(inputs)
    ensures DistinctNames(InputsFor(names, inputs))
    ensures forall n :: n in names && n in inputs ==> inputs[n] in InputsFor(names, inputs)
    ensures forall x :: x in InputsFor(names, inputs) ==>
              x.definition.name in names && Lookup(inputs, x.definition.name) == Some(x)
  {
    if names != [] {
      InputsForMeaning(names[..|names| - 1], inputs);
    }
  }

  ghost function PreviousMap(s: Snapshot): map<string, Input> {
    map n | n in s.collections
    && s.collections[n].ordered == Text.InOrder(s.collections[n].records.Keys) :: PreviousInput(s, n)
  }
}
