/** buildSnapshot: the loops that check the inputs and fill the maps of a candidate. */
module SnapshotBuild {
  import opened Wrappers
  import opened Catalog
  import opened Overlay
  import opened Dependencies
  import opened Snapshot
  import Text

  predicate AcceptsRecords(codec: Codec, environment: string, input: Input, records: seq<Record>) {
    (forall i :: 0 <= i < |records| ==> AcceptsRecord(codec, environment, input, records[i]))
    && DistinctRecords(records)
  }

  lemma RecordsStep(codec: Codec, environment: string, input: Input, records: seq<Record>, n: nat)
    requires n < |records| && AcceptsRecords(codec, environment, input, records[..n])
    ensures AcceptsRecords(codec, environment, input, records[..n + 1]) <==>
              AcceptsRecord(codec, environment, input, records[n])
              && records[n].key !in RecordsOf(codec, environment, input.definition, records[..n])
    ensures AcceptsRecords(codec, environment, input, records) ==>
              AcceptsRecords(codec, environment, input, records[..n + 1])
  {
    hide AcceptsRecord, RecordsOf;
    forall i | 0 <= i < n ensures records[..n][i] == records[i] == records[..n + 1][i] {}
    RecordsMeaning(codec, environment, input, records[..n]);
    forall i | 0 <= i < n ensures records[i].key in RecordsOf(codec, environment, input.definition, records[..n]) {
      assert records[..n][i].key == records[i].key;
    }
  }

  method BuildRecords(codec: Codec, environment: string, input: Input) returns (r: Option<map<string, Record>>)
    ensures r.Some? <==> AcceptsRecords(codec, environment, input, input.records)
    ensures r.Some? ==> r.value == RecordsOf(codec, environment, input.definition, input.records)
  {
    hide AcceptsRecord, AcceptsRecords;
    var records: map<string, Record> := map[];
    NoRecords(codec, environment, input);
    for n := 0 to |input.records|
      invariant AcceptsRecords(codec, environment, input, input.records[..n])
      invariant records == RecordsOf(codec, environment, input.definition, input.records[..n])
    {
      var source := input.records[n];
      assert input.records[..n + 1][..n] == input.records[..n];
      RecordsStep(codec, environment, input, input.records, n);
      if !AcceptsRecord(codec, environment, input, source) { return None; }
      if source.key in records { return None; }
      var canonical := CanonicalRecord(codec, environment, input.definition, source);
      records := records[canonical.key := canonical];
    }
    assert input.records[..|input.records|] == input.records;
    return Some(records);
  }

  lemma NoRecords(codec: Codec, environment: string, input: Input)
    ensures AcceptsRecords(codec, environment, input, [])
  {
  }

  /** Trimmed consumers in the order given; an empty or repeated one is refused. */
  method TrimConsumers(consumers: seq<string>) returns (r: Option<seq<string>>)
    ensures r.Some? <==> AcceptsConsumers(consumers)
    ensures r.Some? ==> NoRepeats(r.value) && Text.Elements(r.value) == TrimmedSet(consumers)
  {
    hide Text.Trim;
    var trimmed: seq<string> := [];
    for n := 0 to |consumers|
      invariant |trimmed| == n && forall i :: 0 <= i < n ==> trimmed[i] == Text.Trim(consumers[i]) && trimmed[i] != ""
      invariant NoRepeats(trimmed)
    {
      var consumer := Text.Trim(consumers[n]);
      if consumer == "" { return None; }
      if consumer in trimmed {
        var i :| 0 <= i < n && trimmed[i] == consumer;
        assert Text.Trim(consumers[i]) == Text.Trim(consumers[n]);
        return None;
      }
      trimmed := trimmed + [consumer];
    }
    assert Text.Elements(trimmed) == TrimmedSet(consumers) by {
      forall x | x in TrimmedSet(consumers) ensures x in trimmed {
        var i :| 0 <= i < |consumers| && Text.Trim(consumers[i]) == x;
        assert trimmed[i] == x;
      }
    }
    return Some(trimmed);
  }

  method BuildView(codec: Codec, environment: string, input: Input) returns (r: Option<View>)
    ensures r.Some? <==> AcceptsInput(codec, environment, input)
    ensures r.Some? ==> r.value == ViewOf(codec, environment, input)
  {
    hide AcceptsRecord, AcceptsConsumers, AcceptsRule, RecordsOf, TrimmedSet;
    if input.definition.name == "" || input.version == 0 { return None; }
    var records := BuildRecords(codec, environment, input);
    if records.None? { return None; }
    var ordered := Text.SortNames(records.value.Keys);
    Text.StrictlySortedUnique(ordered, Text.InOrder(records.value.Keys));
    for n := 0 to |input.rules|
      invariant forall i :: 0 <= i < n ==>
                  AcceptsRule(environment, input.definition.name, input.version, input.rules[i])
    {
      if !AcceptsRule(environment, input.definition.name, input.version, input.rules[n]) { return None; }
    }
    var trimmed := TrimConsumers(input.consumers);
    if trimmed.None? { return None; }
    var consumers := SortDistinct(trimmed.value);
    Text.StrictlySortedUnique(consumers, Text.InOrder(TrimmedSet(input.consumers)));
    for n := 0 to |input.models|
      invariant forall i :: 0 <= i < n ==> input.models[i].collection == input.definition.name
    {
      if input.models[n].collection != input.definition.name { return None; }
    }
    return Some(View(input.definition, input.version, input.cursor, Digest(Payload(records.value)), records.value,
                     ordered, Clones(input.rules), consumers));
  }

  method AddModels(models: map<string, Model>, added: seq<Model>) returns (r: Option<map<string, Model>>)
    ensures r.Some? <==> OwnCodes(added) && forall k :: 0 <= k < |added| ==> added[k].code !in models
    ensures r.Some? ==> r.value == MergeModels(models, added)
  {
    var out := models;
    for n := 0 to |added|
      invariant OwnCodes(added[..n]) && forall k :: 0 <= k < n ==> added[k].code !in models
      invariant out == MergeModels(models, added[..n])
    {
      assert added[..n + 1][..n] == added[..n];
      assert forall k :: 0 <= k < n ==> added[..n][k] == added[k];
      MergeMeaning(models, added[..n]);
      if added[n].code in out {
        if added[n].code !in models {
          var k :| 0 <= k < n && added[..n][k].code == added[n].code;
          assert added[k].code == added[n].code;
        }
        return None;
      }
      out := out[added[n].code := added[n]];
    }
    assert added[..|added|] == added;
    return Some(out);
  }

  // ----- who may read what -----

  /** Every consumer's collections so far, unsorted. */
  ghost predicate Listed(authorized: map<string, seq<string>>, views: map<string, View>) {
    && authorized.Keys == Consumers(views)
    && forall c :: c in authorized ==> NoRepeats(authorized[c]) && Text.Elements(authorized[c]) == NamesFor(views, c)
  }

  /** Each listed consumer gets the name once more. */
  function WithName(authorized: map<string, seq<string>>, name: string,
                    consumers: seq<string>): map<string, seq<string>> {
    if consumers == [] then authorized
    else
      var before, c := WithName(authorized, name, consumers[..|consumers| - 1]), consumers[|consumers| - 1];
      before[c := (if c in before then before[c] else []) + [name]]
  }

  lemma InitNoRepeats(names: seq<string>)
    requires names != [] && NoRepeats(names)
    ensures NoRepeats(names[..|names| - 1]) && names[|names| - 1] !in names[..|names| - 1]
    ensures forall c :: c in names <==> c in names[..|names| - 1] || c == names[|names| - 1]
  {
    assert names == names[..|names| - 1] + [names[|names| - 1]];
  }

  lemma {:induction false} WithNameMeaning(authorized: map<string, seq<string>>, name: string, consumers: seq<string>,
                                           c: string)
    requires NoRepeats(consumers)
    ensures c in WithName(authorized, name, consumers) <==> c in authorized || c in consumers
    ensures c in WithName(authorized, name, consumers) ==>
              WithName(authorized, name, consumers)[c]
              == (if c in authorized then authorized[c] else []) + (if c in consumers then [name] else [])
  {
    if consumers == [] {
      if c in authorized { assert authorized[c] + [] == authorized[c]; }
    } else {
      var n := |consumers| - 1;
      InitNoRepeats(consumers);
      hide NoRepeats;
      WithNameMeaning(authorized, name, consumers[..n], c);
    }
  }

  method Authorize(authorized: map<string, seq<string>>, name: string, consumers: seq<string>)
    returns (r: map<string, seq<string>>)
    requires NoRepeats(consumers)
    ensures r.Keys == authorized.Keys + Text.Elements(consumers)
    ensures forall c :: c in r ==>
              r[c] == (if c in authorized then authorized[c] else []) + (if c in consumers then [name] else [])
  {
    hide NoRepeats;
    r := authorized;
    for n := 0 to |consumers|
      invariant r == WithName(authorized, name, consumers[..n])
    {
      var c := consumers[n];
      assert consumers[..n + 1][..n] == consumers[..n];
      r := r[c := (if c in r then r[c] else []) + [name]];
    }
    assert consumers[..|consumers|] == consumers;
    hide WithName;
    forall c ensures c in r <==> c in authorized || c in consumers { WithNameMeaning(authorized, name, consumers, c); }
    forall c | c in r
      ensures r[c] == (if c in authorized then authorized[c] else []) + (if c in consumers then [name] else [])
    {
      WithNameMeaning(authorized, name, consumers, c);
    }
  }

  lemma ConsumersGrow(views: map<string, View>, view: View, name: string)
    requires name !in views
    ensures Consumers(views[name := view])
            == Consumers(views) + (if view.definition.delivered then Text.Elements(view.consumers) else {})
  {
    var all := views[name := view];
    forall c | c in Consumers(views) ensures c in Consumers(all) {
      var n :| n in views && views[n].definition.delivered && c in views[n].consumers;
      assert all[n] == views[n];
    }
    assert all[name] == view;
    forall c | c in Consumers(all) ensures c in Consumers(views) || (view.definition.delivered && c in view.consumers) {
      var n :| n in all && all[n].definition.delivered && c in all[n].consumers;
      if n != name { assert all[n] == views[n]; }
    }
  }

  lemma NamesGrow(views: map<string, View>, view: View, name: string, c: string)
    requires name !in views
    ensures NamesFor(views[name := view], c)
            == NamesFor(views, c) + (if view.definition.delivered && c in view.consumers then {name} else {})
    ensures name !in NamesFor(views, c)
    ensures c !in Consumers(views) ==> NamesFor(views, c) == {}
  {
  }

  lemma AppendName(names: seq<string>, name: string)
    requires NoRepeats(names) && name !in names
    ensures NoRepeats(names + [name]) && Text.Elements(names + [name]) == Text.Elements(names) + {name}
  {
  }

  lemma ListedGrows(authorized: map<string, seq<string>>, next: map<string, seq<string>>, views: map<string, View>,
                    view: View, name: string)
    requires Listed(authorized, views) && name !in views
    requires if !view.definition.delivered then next == authorized
             else next.Keys == authorized.Keys + Text.Elements(view.consumers)
                  && forall c :: c in next ==>
                       next[c] == (if c in authorized then authorized[c] else [])
                       + (if c in view.consumers then [name] else [])
    ensures Listed(next, views[name := view])
  {
    hide NamesFor, Consumers, NoRepeats;
    var all := views[name := view];
    ConsumersGrow(views, view, name);
    forall c | c in next ensures NoRepeats(next[c]) && Text.Elements(next[c]) == NamesFor(all, c) {
      NamesGrow(views, view, name, c);
      ListedOne(authorized, views, c);
      var before := if c in authorized then authorized[c] else [];
      assert name !in before by { assert name !in Text.Elements(before); }
      AppendName(before, name);
      assert before + [] == before;
    }
  }

  lemma ListedOne(authorized: map<string, seq<string>>, views: map<string, View>, c: string)
    requires Listed(authorized, views)
    ensures var before := if c in authorized then authorized[c] else [];
            NoRepeats(before) && Text.Elements(before) == NamesFor(views, c)
  {
    if c !in authorized { NamesEmpty(views, c); }
  }

  lemma NamesEmpty(views: map<string, View>, c: string)
    requires c !in Consumers(views)
    ensures NamesFor(views, c) == {}
  {
  }

  method SortAuthorized(authorized: map<string, seq<string>>, ghost views: map<string, View>)
    returns (r: map<string, seq<string>>)
    requires Listed(authorized, views)
    ensures r == AuthorizedOf(views)
  {
    hide NamesFor, Consumers;
    r := authorized;
    var left := authorized.Keys;
    while left != {}
      invariant r.Keys == authorized.Keys && left <= authorized.Keys
      invariant forall c :: c in left ==> r[c] == authorized[c]
      invariant forall c :: c in authorized.Keys - left ==> r[c] == Text.InOrder(NamesFor(views, c))
      decreases left
    {
      var c :| c in left;
      var names := SortDistinct(r[c]);
      Text.StrictlySortedUnique(names, Text.InOrder(NamesFor(views, c)));
      r := r[c := names];
      left := left - {c};
    }
  }

  method ValidateOptions(codec: Codec, views: map<string, View>, models: map<string, Model>) returns (ok: bool)
    ensures ok <==> OptionsResolve(codec, views, models)
  {
    hide ModelResolves;
    var left := models.Keys;
    while left != {}
      invariant left <= models.Keys
      invariant forall code :: code in models.Keys - left ==> ModelResolves(codec, views, models[code])
      decreases left
    {
      var code :| code in left;
      if !ModelResolves(codec, views, models[code]) { return false; }
      left := left - {code};
    }
    return true;
  }

  datatype Maps = Maps(views: map<string, View>, models: map<string, Model>, authorized: map<string, seq<string>>)

  ghost predicate Built(codec: Codec, environment: string, inputs: seq<Input>, maps: Maps) {
    && Legal(codec, environment, inputs)
    && maps.views == ViewsOf(codec, environment, inputs) && maps.models == ModelsOf(inputs)
    && Listed(maps.authorized, maps.views)
  }

  lemma NothingBuilt(codec: Codec, environment: string)
    ensures Built(codec, environment, [], Maps(map[], map[], map[]))
  {
    NobodyListed();
  }

  lemma LegalPrefix(codec: Codec, environment: string, inputs: seq<Input>, n: nat)
    requires n <= |inputs| && Legal(codec, environment, inputs)
    ensures Legal(codec, environment, inputs[..n])
  {
    hide AcceptsInput, OwnCodes, Apart;
    forall i | 0 <= i < n ensures inputs[..n][i] == inputs[i] {}
  }

  lemma LegalStep(codec: Codec, environment: string, inputs: seq<Input>, n: nat)
    requires n < |inputs| && Legal(codec, environment, inputs[..n])
    ensures Legal(codec, environment, inputs[..n + 1]) <==>
              && AcceptsInput(codec, environment, inputs[n])
              && inputs[n].definition.name !in ViewsOf(codec, environment, inputs[..n])
              && OwnCodes(inputs[n].models)
              && forall k :: 0 <= k < |inputs[n].models| ==> inputs[n].models[k].code !in ModelsOf(inputs[..n])
  {
    hide AcceptsInput, DistinctCodes, ViewsOf, ModelsOf, OwnCodes;
    ViewsMeaning(codec, environment, inputs[..n]);
    CodesAdded(inputs, n, ModelsOf(inputs[..n]));
    forall i | 0 <= i < n ensures inputs[..n][i] == inputs[i] == inputs[..n + 1][i] {}
    forall i | 0 <= i < n ensures inputs[i].definition.name in ViewsOf(codec, environment, inputs[..n]) {
      assert inputs[..n][i].definition.name == inputs[i].definition.name;
    }
  }

  /** The next input joins the candidate, or refuses the build. */
  method AddInput(codec: Codec, environment: string, ghost inputs: seq<Input>, ghost n: nat, input: Input,
                  maps: Maps) returns (r: Option<Maps>)
    requires n < |inputs| && inputs[n] == input && Built(codec, environment, inputs[..n], maps)
    ensures r.Some? <==> Legal(codec, environment, inputs[..n + 1])
    ensures r.Some? ==> Built(codec, environment, inputs[..n + 1], r.value)
  {
    hide AcceptsInput, ViewOf, Listed, OwnCodes, Legal;
    var name := input.definition.name;
    LegalStep(codec, environment, inputs, n);
    if name in maps.views { return None; }
    var view := BuildView(codec, environment, input);
    if view.None? { return None; }
    var listed := maps.authorized;
    ViewParts(codec, environment, input);
    if input.definition.delivered { listed := Authorize(listed, name, view.value.consumers); }
    ListedGrows(maps.authorized, listed, maps.views, view.value, name);
    var models := AddModels(maps.models, input.models);
    if models.None? { return None; }
    assert inputs[..n + 1][..n] == inputs[..n];
    return Some(Maps(maps.views[name := view.value], models.value, listed));
  }

  /** One candidate from all inputs, or nothing. */
  method BuildSnapshot(codec: Codec, identity: Identity, environment: string,
                       inputs: seq<Input>) returns (r: Option<Snapshot>)
    ensures r.Some? <==> Accepts(codec, environment, inputs)
    ensures r.Some? ==> r.value == SnapshotOf(codec, identity, environment, inputs)
  {
    hide AcceptsInput, OptionsResolve, Listed, DistinctNames, DistinctCodes, ViewsOf, ModelsOf, AuthorizedOf;
    var maps := Maps(map[], map[], map[]);
    NothingBuilt(codec, environment);
    for n := 0 to |inputs|
      invariant Built(codec, environment, inputs[..n], maps)
    {
      var more := AddInput(codec, environment, inputs, n, inputs[n], maps);
      if more.None? {
        if Legal(codec, environment, inputs) { LegalPrefix(codec, environment, inputs, n + 1); }
        return None;
      }
      maps := more.value;
    }
    assert inputs[..|inputs|] == inputs;
    var authorized := SortAuthorized(maps.authorized, maps.views);
    var resolved := ValidateOptions(codec, maps.views, maps.models);
    if !resolved { return None; }
    return Some(Snapshot(identity, environment, maps.views, maps.models, authorized));
  }

  lemma NobodyListed()
    ensures Listed(map[], map[])
  {
  }

  lemma ViewParts(codec: Codec, environment: string, input: Input)
    ensures NoRepeats(ViewOf(codec, environment, input).consumers)
    ensures ViewOf(codec, environment, input).definition == input.definition
  {
    var consumers := ViewOf(codec, environment, input).consumers;
    forall i, j | 0 <= i < j < |consumers| ensures consumers[i] != consumers[j] { Text.LessIrreflexive(consumers[i]); }
  }

  /** A new input's models clash with nothing exactly when none of their codes is taken. */
  lemma CodesAdded(inputs: seq<Input>, n: nat, models: map<string, Model>)
    requires n < |inputs| && DistinctCodes(inputs[..n]) && models == ModelsOf(inputs[..n])
    ensures DistinctCodes(inputs[..n + 1]) <==>
              OwnCodes(inputs[n].models) && forall k :: 0 <= k < |inputs[n].models| ==>
                inputs[n].models[k].code !in models
  {
    hide OwnCodes;
    var added := inputs[n].models;
    ModelsMeaning(inputs[..n]);
    forall i | 0 <= i < n ensures inputs[..n][i] == inputs[i] == inputs[..n + 1][i] {}
    if forall k :: 0 <= k < |added| ==> added[k].code !in models {
      forall i | 0 <= i < n ensures Apart(inputs[i].models, added) {
        forall k, l | 0 <= k < |inputs[i].models| && 0 <= l < |added|
          ensures inputs[i].models[k].code != added[l].code
        {
          assert inputs[..n][i].models[k] == inputs[i].models[k];
        }
      }
    }
    if DistinctCodes(inputs[..n + 1]) {
      forall i | 0 <= i < n ensures Apart(inputs[..n][i].models, added) {
        assert Apart(inputs[..n + 1][i].models, inputs[..n + 1][n].models);
      }
    }
  }
}
