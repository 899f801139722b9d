/** Published snapshots of an environment: what a build accepts, and what it makes of the accepted inputs. */
module Snapshot {
  import opened Wrappers
  import opened Catalog
  import opened Overlay
  import opened Dependencies
  import Text

  datatype FieldDef = FieldDef(kind: string, sensitive: bool)

  datatype Definition = Definition(name: string, delivered: bool, fields: map<string, FieldDef>)

  datatype Canonical = Canonical(key: string, data: Data)

  /** The catalog's scalar rules: canonicalizing a record's data, and whether a value fits a field kind. */
  datatype Codec = Codec(canon: (Definition, string, Data) -> Option<Canonical>, scalar: (string, string) -> bool)

  /** Canonical data canonicalizes to itself. */
  ghost predicate Idempotent(codec: Codec) {
    forall d, e, x :: codec.canon(d, e, x).Some? ==>
                        codec.canon(d, e, codec.canon(d, e, x).value.data) == codec.canon(d, e, x)
  }

  datatype Input = Input(
    definition: Definition, models: seq<Model>, consumers: seq<string>, version: nat, cursor: nat,
    records: seq<Record>, rules: seq<Rule>)

  datatype View = View(
    definition: Definition, version: nat, cursor: nat, digest: Digest, records: map<string, Record>,
    ordered: seq<string>, rules: seq<Rule>, consumers: seq<string>)

  datatype Seed = Seed(epoch: string, server: string, snapshot: string)

  datatype Identity = Identity(seed: Seed, generation: nat, publishedAt: int)

  datatype Snapshot = Snapshot(
    identity: Identity, environment: string, collections: map<string, View>, models: map<string, Model>,
    authorized: map<string, seq<string>>)

  // ----- one collection -----

  predicate AcceptsRecord(codec: Codec, environment: string, input: Input, record: Record) {
    && record.collection == input.definition.name && record.environment == environment
    && 0 < record.revision <= input.version
    && codec.canon(input.definition, environment, record.data).Some?
    && codec.canon(input.definition, environment, record.data).value.key == record.key && record.key != ""
  }

  predicate DistinctRecords(records: seq<Record>) {
    forall i, j :: 0 <= i < j < |records| ==> records[i].key != records[j].key
  }

  predicate AcceptsRule(environment: string, name: string, version: nat, rule: Rule) {
    rule.collection == name && rule.scope.environment == environment && 0 < rule.revision <= version
  }

  predicate AcceptsConsumers(consumers: seq<string>) {
    && (forall i :: 0 <= i < |consumers| ==> Text.Trim(consumers[i]) != "")
    && (forall i, j :: 0 <= i < j < |consumers| ==> Text.Trim(consumers[i]) != Text.Trim(consumers[j]))
  }

  predicate AcceptsInput(codec: Codec, environment: string, input: Input) {
    && input.definition.name != "" && input.version > 0
    && (forall i :: 0 <= i < |input.records| ==> AcceptsRecord(codec, environment, input, input.records[i]))
    && DistinctRecords(input.records)
    && (forall i :: 0 <= i < |input.rules| ==>
          AcceptsRule(environment, input.definition.name, input.version, input.rules[i]))
    && AcceptsConsumers(input.consumers)
    && (forall i :: 0 <= i < |input.models| ==> input.models[i].collection == input.definition.name)
  }

  function CanonicalRecord(codec: Codec, environment: string, definition: Definition, record: Record): Record {
    match codec.canon(definition, environment, record.data)
    case Some(c) => Record(definition.name, environment, c.key, c.data, record.revision)
    case None => record
  }

  function RecordsOf(codec: Codec, environment: string, definition: Definition,
                     records: seq<Record>): map<string, Record> {
    if records == [] then map[]
    else
      var last := CanonicalRecord(codec, environment, definition, records[|records| - 1]);
      RecordsOf(codec, environment, definition, records[..|records| - 1])[last.key := last]
  }

  function TrimmedSet(consumers: seq<string>): set<string> {
    set i | 0 <= i < |consumers| :: Text.Trim(consumers[i])
  }

  ghost function ViewOf(codec: Codec, environment: string, input: Input): View {
    var records := RecordsOf(codec, environment, input.definition, input.records);
    View(input.definition, input.version, input.cursor, Digest(Payload(records)), records, Text.InOrder(records.Keys),
         Clones(input.rules), Text.InOrder(TrimmedSet(input.consumers)))
  }

  // ----- an environment -----

  predicate DistinctNames(inputs: seq<Input>) {
    forall i, j :: 0 <= i < j < |inputs| ==> inputs[i].definition.name != inputs[j].definition.name
  }

  predicate OwnCodes(models: seq<Model>) {
    forall k, l :: 0 <= k < l < |models| ==> models[k].code != models[l].code
  }

  predicate Apart(left: seq<Model>, right: seq<Model>) {
    forall k, l :: 0 <= k < |left| && 0 <= l < |right| ==> left[k].code != right[l].code
  }

  predicate DistinctCodes(inputs: seq<Input>) {
    && (forall i :: 0 <= i < |inputs| ==> OwnCodes(inputs[i].models))
    && (forall i, j :: 0 <= i < j < |inputs| ==> Apart(inputs[i].models, inputs[j].models))
  }

  /** Everything `Accepts` asks but the option sources, which can only be checked at the end. */
  ghost predicate Legal(codec: Codec, environment: string, inputs: seq<Input>) {
    && (forall i :: 0 <= i < |inputs| ==> AcceptsInput(codec, environment, inputs[i]))
    && DistinctNames(inputs) && DistinctCodes(inputs)
  }

  predicate PlainField(view: View, name: string) {
    name in view.definition.fields && !view.definition.fields[name].sensitive
  }

  predicate FilterFits(codec: Codec, view: View, filter: Filter) {
    PlainField(view, filter.field) && codec.scalar(view.definition.fields[filter.field].kind, filter.value)
  }

  predicate SourceResolves(codec: Codec, views: map<string, View>, source: OptionSource) {
    && source.collection in views
    && PlainField(views[source.collection], source.valueField)
    && PlainField(views[source.collection], source.labelField)
    && forall f :: 0 <= f < |source.filters| ==> FilterFits(codec, views[source.collection], source.filters[f])
  }

  predicate ModelResolves(codec: Codec, views: map<string, View>, model: Model) {
    forall k :: 0 <= k < |model.sources| ==> SourceResolves(codec, views, model.sources[k])
  }

  /** validateOptionDependencies */
  predicate OptionsResolve(codec: Codec, views: map<string, View>, models: map<string, Model>) {
    forall code :: code in models ==> ModelResolves(codec, views, models[code])
  }

  ghost function ViewsOf(codec: Codec, environment: string, inputs: seq<Input>): map<string, View> {
    if inputs == [] then map[]
    else
      var last := inputs[|inputs| - 1];
      ViewsOf(codec, environment, inputs[..|inputs| - 1])[last.definition.name := ViewOf(codec, environment, last)]
  }

  function MergeModels(models: map<string, Model>, added: seq<Model>): map<string, Model> {
    if added == [] then models
    else MergeModels(models, added[..|added| - 1])[added[|added| - 1].code := added[|added| - 1]]
  }

  function ModelsOf(inputs: seq<Input>): map<string, Model> {
    if inputs == [] then map[] else MergeModels(ModelsOf(inputs[..|inputs| - 1]), inputs[|inputs| - 1].models)
  }

  function NamesFor(views: map<string, View>, consumer: string): set<string> {
    set n | n in views && views[n].definition.delivered && consumer in views[n].consumers
  }

  ghost function Consumers(views: map<string, View>): set<string> {
    set n, c | n in views && views[n].definition.delivered && c in views[n].consumers :: c
  }

  ghost function AuthorizedOf(views: map<string, View>): map<string, seq<string>> {
    map c | c in Consumers(views) :: Text.InOrder(NamesFor(views, c))
  }

  ghost predicate Accepts(codec: Codec, environment: string, inputs: seq<Input>) {
    && (forall i :: 0 <= i < |inputs| ==> AcceptsInput(codec, environment, inputs[i]))
    && DistinctNames(inputs) && DistinctCodes(inputs)
    && OptionsResolve(codec, ViewsOf(codec, environment, inputs), ModelsOf(inputs))
  }

  ghost function SnapshotOf(codec: Codec, identity: Identity, environment: string, inputs: seq<Input>): Snapshot {
    var views := ViewsOf(codec, environment, inputs);
    Snapshot(identity, environment, views, ModelsOf(inputs), AuthorizedOf(views))
  }

  // ----- what the maps of a build hold -----

  lemma {:induction false} RecordsMeaning(codec: Codec, environment: string, input: Input, records: seq<Record>)
    requires DistinctRecords(records)
    requires forall i :: 0 <= i < |records| ==> AcceptsRecord(codec, environment, input, records[i])
    ensures forall k :: k in RecordsOf(codec, environment, input.definition, records) ==>
              exists i :: 0 <= i < |records| && records[i].key == k
    ensures forall i :: 0 <= i < |records| ==>
              && records[i].key in RecordsOf(codec, environment, input.definition, records)
              && RecordsOf(codec, environment, input.definition, records)[records[i].key]
                 == CanonicalRecord(codec, environment, input.definition, records[i])
  {
    if records != [] {
      var init := records[..|records| - 1];
      RecordsMeaning(codec, environment, input, init);
      assert forall i :: 0 <= i < |init| ==> init[i] == records[i];
      assert AcceptsRecord(codec, environment, input, records[|records| - 1]);
    }
  }

  lemma {:induction false} ViewsMeaning(codec: Codec, environment: string, inputs: seq<Input>)
    requires DistinctNames(inputs)
    ensures forall n :: n in ViewsOf(codec, environment, inputs) ==>
              exists i :: 0 <= i < |inputs| && inputs[i].definition.name == n
    ensures forall i :: 0 <= i < |inputs| ==>
              && inputs[i].definition.name in ViewsOf(codec, environment, inputs)
              && ViewsOf(codec, environment, inputs)[inputs[i].definition.name] == ViewOf(codec, environment, inputs[i])
  {
    hide ViewOf;
    if inputs != [] {
      var init := inputs[..|inputs| - 1];
      ViewsMeaning(codec, environment, init);
      assert forall i :: 0 <= i < |init| ==> init[i] == inputs[i];
    }
  }

  lemma {:induction false} MergeMeaning(models: map<string, Model>, added: seq<Model>)
    requires OwnCodes(added)
    ensures forall c :: c in MergeModels(models, added) ==>
              (c in models && MergeModels(models, added)[c] == models[c])
              || exists k :: 0 <= k < |added| && added[k].code == c && MergeModels(models, added)[c] == added[k]
    ensures forall k :: 0 <= k < |added| ==>
              added[k].code in MergeModels(models, added) && MergeModels(models, added)[added[k].code] == added[k]
    ensures forall c :: c in models && (forall k :: 0 <= k < |added| ==> added[k].code != c) ==>
              c in MergeModels(models, added) && MergeModels(models, added)[c] == models[c]
  {
    if added != [] {
      var init := added[..|added| - 1];
      MergeMeaning(models, init);
      assert forall k :: 0 <= k < |init| ==> init[k] == added[k];
    }
  }

  predicate HoldsModel(inputs: seq<Input>, model: Model) {
    exists i, k :: 0 <= i < |inputs| && 0 <= k < |inputs[i].models| && inputs[i].models[k] == model
  }

  lemma {:induction false} ModelsMeaning(inputs: seq<Input>)
    requires DistinctCodes(inputs)
    ensures forall c :: c in ModelsOf(inputs) ==>
              ModelsOf(inputs)[c].code == c && HoldsModel(inputs, ModelsOf(inputs)[c])
    ensures forall i, k :: 0 <= i < |inputs| && 0 <= k < |inputs[i].models| ==>
              Lookup(ModelsOf(inputs), inputs[i].models[k].code) == Some(inputs[i].models[k])
  {
    hide Apart;
    if inputs != [] {
      var n := |inputs| - 1;
      var init, before, last := inputs[..n], ModelsOf(inputs[..n]), inputs[n].models;
      assert forall i :: 0 <= i < n ==> init[i] == inputs[i];
      ModelsMeaning(init);
      assert OwnCodes(inputs[n].models);
      MergeMeaning(before, last);
      forall c | c in ModelsOf(inputs)
        ensures ModelsOf(inputs)[c].code == c && HoldsModel(inputs, ModelsOf(inputs)[c])
      {
        if k :| 0 <= k < |last| && last[k].code == c {
          assert inputs[n].models[k] == last[k];
        } else {
          var i, k :| 0 <= i < n && 0 <= k < |init[i].models| && init[i].models[k] == before[c];
          assert inputs[i].models[k] == before[c];
        }
      }
      forall i, k | 0 <= i < |inputs| && 0 <= k < |inputs[i].models|
        ensures Lookup(ModelsOf(inputs), inputs[i].models[k].code) == Some(inputs[i].models[k])
      {
        if i < n {
          assert init[i].models[k] == inputs[i].models[k];
          CodeElsewhere(inputs, i, n, k);
        }
      }
    }
  }

  lemma CodeElsewhere(inputs: seq<Input>, i: nat, n: nat, k: nat)
    requires DistinctCodes(inputs) && i < n < |inputs| && k < |inputs[i].models|
    ensures forall l :: 0 <= l < |inputs[n].models| ==> inputs[n].models[l].code != inputs[i].models[k].code
  {
    assert Apart(inputs[i].models, inputs[n].models);
  }
}
