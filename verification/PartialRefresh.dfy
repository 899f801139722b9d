/** Composing a candidate from dependency groups: the groups, what each contributes, and why the composition builds. */
module PartialRefresh {
  import opened Wrappers
  import opened Components
  import opened Dependencies
  import opened Snapshot
  import opened Composition
  import Text

  function IncomingModels(incoming: map<string, Input>): set<Model> {
    set n, m | n in incoming && m in incoming[n].models :: m
  }

  /** Every model of the previous snapshot and of the inputs just loaded. */
  function AllModels(s: Snapshot, incoming: map<string, Input>): set<Model> {
    s.models.Values + IncomingModels(incoming)
  }

  ghost function GroupNodes(s: Snapshot, incoming: map<string, Input>, failures: set<string>): set<string> {
    NodesOf(s.collections.Keys + incoming.Keys + failures, AllModels(s, incoming))
  }

  ghost function PartialGroups(s: Snapshot, incoming: map<string, Input>, failures: set<string>): seq<seq<string>> {
    Groups(LinkedBy(AllModels(s, incoming)), GroupNodes(s, incoming, failures))
  }

  ghost predicate Ready(codec: Codec, environment: string, s: Snapshot, incoming: map<string, Input>) {
    Idempotent(codec) && WellBuilt(codec, environment, s) && KeyedByName(incoming) && "" !in incoming
  }

  predicate LoadFailed(group: seq<string>, failures: set<string>) {
    exists i :: 0 <= i < |group| && group[i] in failures
  }

  /** A group fails when one of its collections did not load, or when its inputs do not build on their own. */
  ghost predicate Fails(codec: Codec, environment: string, incoming: map<string, Input>, failures: set<string>,
                        group: seq<string>) {
    LoadFailed(group, failures) || !Accepts(codec, environment, InputsFor(group, incoming))
  }

  ghost function Contribution(codec: Codec, environment: string, s: Snapshot, incoming: map<string, Input>,
                              failures: set<string>,
                              group: seq<string>): seq<Input>
  {
    if Fails(codec, environment, incoming, failures, group) then InputsFor(group, PreviousMap(s))
       else InputsFor(group, incoming)
  }

  ghost function Composed(codec: Codec, environment: string, s: Snapshot, incoming: map<string, Input>,
                          failures: set<string>,
                          groups: seq<seq<string>>): seq<Input>
  {
    if groups == [] then []
    else Composed(codec, environment, s, incoming, failures, groups[..|groups| - 1])
         + Contribution(codec, environment, s, incoming, failures, groups[|groups| - 1])
  }

  // ----- a group kept as it was -----

  lemma PreviousMapIsTotal(codec: Codec, environment: string, s: Snapshot)
    requires WellBuilt(codec, environment, s)
    ensures PreviousMap(s).Keys == s.collections.Keys && KeyedByName(PreviousMap(s))
    ensures forall n :: n in s.collections ==>
              && s.collections[n].ordered == Text.InOrder(s.collections[n].records.Keys)
              && PreviousMap(s)[n] == PreviousInput(s, n)
  {
    hide OptionsResolve, AuthorizedOf, PreviousModels, RecordList;
    forall n | n in s.collections
      ensures s.collections[n].ordered == Text.InOrder(s.collections[n].records.Keys)
      ensures s.collections[n].definition.name == n
    {
      assert GoodView(codec, environment, n, s.collections[n]);
    }
  }

  /** The option sources of a group's previous models stay inside the group. */
  predicate KeepsSources(s: Snapshot, group: seq<string>) {
    forall c, k :: c in s.models && s.models[c].collection in group && 0 <= k < |s.models[c].sources| ==>
      (s.models[c].sources[k].collection in s.collections ==> s.models[c].sources[k].collection in group)
  }

  lemma KeptViews(codec: Codec, environment: string, s: Snapshot, group: seq<string>, n: string)
    requires WellBuilt(codec, environment, s) && NoRepeats(group) && n in group
    ensures Lookup(ViewsOf(codec, environment, InputsFor(group, PreviousMap(s))), n) == Lookup(s.collections, n)
  {
    hide ViewOf, OptionsResolve, AuthorizedOf;
    var previous, inputs := PreviousMap(s), InputsFor(group, PreviousMap(s));
    PreviousMapIsTotal(codec, environment, s);
    InputsForMeaning(group, previous);
    ViewsMeaning(codec, environment, inputs);
    forall i | 0 <= i < |inputs| ensures inputs[i].definition.name in s.collections { assert inputs[i] in inputs; }
    if n in s.collections {
      PreviousInputRebuilds(codec, environment, s, n);
      assert previous[n] in inputs;
      var i :| 0 <= i < |inputs| && inputs[i] == previous[n];
    }
  }

  lemma KeptCodes(codec: Codec, environment: string, s: Snapshot, group: seq<string>)
    requires WellBuilt(codec, environment, s) && NoRepeats(group)
    ensures DistinctCodes(InputsFor(group, PreviousMap(s)))
    ensures forall m :: HoldsModel(InputsFor(group, PreviousMap(s)), m) <==>
              m in s.models.Values && m.collection in group
  {
    hide ViewOf, OptionsResolve, AuthorizedOf, GoodView, PreviousModels;
    var previous, inputs := PreviousMap(s), InputsFor(group, PreviousMap(s));
    PreviousMapIsTotal(codec, environment, s);
    InputsForMeaning(group, previous);
    forall i | 0 <= i < |inputs|
      ensures inputs[i].definition.name in s.collections && inputs[i].definition.name in group
      ensures inputs[i].models == PreviousModels(s, inputs[i].definition.name)
      ensures OwnCodes(inputs[i].models)
    {
      assert inputs[i] in inputs;
      PreviousModelsMeaning(codec, environment, s, inputs[i].definition.name);
    }
    forall i, j | 0 <= i < j < |inputs| ensures Apart(inputs[i].models, inputs[j].models) {
      PreviousModelsMeaning(codec, environment, s, inputs[i].definition.name);
      PreviousModelsMeaning(codec, environment, s, inputs[j].definition.name);
    }
    forall m ensures HoldsModel(inputs, m) <==> m in s.models.Values && m.collection in group {
      if HoldsModel(inputs, m) {
        var i, k :| 0 <= i < |inputs| && 0 <= k < |inputs[i].models| && inputs[i].models[k] == m;
        PreviousModelsMeaning(codec, environment, s, inputs[i].definition.name);
      }
      if m in s.models.Values && m.collection in group {
        var c :| c in s.models && s.models[c] == m;
        assert previous[m.collection] in inputs;
        var i :| 0 <= i < |inputs| && inputs[i] == previous[m.collection];
        PreviousModelsMeaning(codec, environment, s, m.collection);
        var k :| 0 <= k < |inputs[i].models| && inputs[i].models[k] == m;
      }
    }
  }

  /** The previous views of a group build on their own. */
  lemma KeptGroupBuilds(codec: Codec, environment: string, s: Snapshot, group: seq<string>)
    requires WellBuilt(codec, environment, s) && NoRepeats(group) && KeepsSources(s, group)
    ensures Accepts(codec, environment, InputsFor(group, PreviousMap(s)))
  {
    hide AcceptsInput, DistinctCodes, DistinctNames, GoodView, AuthorizedOf, OptionsResolve, ViewsOf, ModelsOf,
         PreviousMap, KeepsSources, HoldsModel;
    var inputs := InputsFor(group, PreviousMap(s));
    PreviousMapIsTotal(codec, environment, s);
    InputsForMeaning(group, PreviousMap(s));
    KeptCodes(codec, environment, s, group);
    ModelsMeaning(inputs);
    forall i | 0 <= i < |inputs| ensures AcceptsInput(codec, environment, inputs[i]) {
      assert inputs[i] in inputs;
      PreviousInputRebuilds(codec, environment, s, inputs[i].definition.name);
    }
    KeptOptions(codec, environment, s, group);
  }

  lemma KeptOptions(codec: Codec, environment: string, s: Snapshot, group: seq<string>)
    requires WellBuilt(codec, environment, s) && NoRepeats(group) && KeepsSources(s, group)
    ensures OptionsResolve(codec, ViewsOf(codec, environment, InputsFor(group, PreviousMap(s))),
                           ModelsOf(InputsFor(group, PreviousMap(s))))
  {
    hide DistinctCodes, GoodView, AuthorizedOf, ViewsOf, ModelsOf, SourceResolves, PreviousMap, InputsFor, HoldsModel,
         WellBuilt, NoRepeats, KeepsSources;
    var inputs := InputsFor(group, PreviousMap(s));
    KeptCodes(codec, environment, s, group);
    ModelsMeaning(inputs);
    var views, models := ViewsOf(codec, environment, inputs), ModelsOf(inputs);
    forall code | code in models ensures ModelResolves(codec, views, models[code]) {
      var m := models[code];
      assert HoldsModel(inputs, m);
      var c :| c in s.models && s.models[c] == m;
      forall k | 0 <= k < |m.sources| ensures SourceResolves(codec, views, m.sources[k]) {
        SourceIsKept(codec, environment, s, group, c, k);
      }
    }
  }

  lemma SourceIsKept(codec: Codec, environment: string, s: Snapshot, group: seq<string>, c: string, k: nat)
    requires WellBuilt(codec, environment, s) && NoRepeats(group) && KeepsSources(s, group)
    requires c in s.models && s.models[c].collection in group && k < |s.models[c].sources|
    ensures SourceResolves(codec, ViewsOf(codec, environment, InputsFor(group, PreviousMap(s))), s.models[c].sources[k])
  {
    hide GoodView, AuthorizedOf, ViewsOf, PreviousMap, InputsFor;
    var source := s.models[c].sources[k];
    assert ModelResolves(codec, s.collections, s.models[c]) && SourceResolves(codec, s.collections, source);
    KeptViews(codec, environment, s, group, source.collection);
  }

  // ----- groups follow the links -----

  lemma SourceIsLinked(s: Snapshot, incoming: map<string, Input>, c: string, k: nat)
    requires c in s.models && k < |s.models[c].sources| && s.models[c].collection != ""
    requires s.models[c].sources[k].collection != ""
    ensures Linked(AllModels(s, incoming), s.models[c].collection, s.models[c].sources[k].collection)
  {
    var m := s.models[c];
    assert m in AllModels(s, incoming) && Reads(m, m.sources[k].collection);
    assert Uses(AllModels(s, incoming), m.collection, m.sources[k].collection);
  }

  lemma GroupKeepsSources(codec: Codec, environment: string, s: Snapshot, incoming: map<string, Input>,
                          failures: set<string>, g: nat)
    requires Ready(codec, environment, s, incoming) && g < |PartialGroups(s, incoming, failures)|
    ensures NoRepeats(PartialGroups(s, incoming, failures)[g])
    ensures KeepsSources(s, PartialGroups(s, incoming, failures)[g])
  {
    hide OptionsResolve, AuthorizedOf, AllModels, Linked;
    var all, nodes := AllModels(s, incoming), GroupNodes(s, incoming, failures);
    var rel, group := LinkedBy(all), PartialGroups(s, incoming, failures)[g];
    LinkedSymmetric(all);
    SortedHasNoRepeats(rel, nodes, g);
    forall c, k | c in s.models && s.models[c].collection in group && 0 <= k < |s.models[c].sources|
                  && s.models[c].sources[k].collection in s.collections
      ensures s.models[c].sources[k].collection in group
    {
      var a, b := s.models[c].collection, s.models[c].sources[k].collection;
      assert GoodView(codec, environment, a, s.collections[a]) && GoodView(codec, environment, b, s.collections[b]);
      SourceIsLinked(s, incoming, c, k);
      ConnectedByEdge(rel, a, b);
      GroupsAreClosed(rel, nodes, g, a, b);
    }
  }

  lemma SortedHasNoRepeats(rel: Relation, nodes: set<string>, g: nat)
    requires Symmetric(rel) && g < |Groups(rel, nodes)|
    ensures NoRepeats(Groups(rel, nodes)[g])
  {
    var group := Groups(rel, nodes)[g];
    if group != [] { GroupsAreComponents(rel, nodes, g, g, group[0], group[0]); }
    forall i, j | 0 <= i < j < |group| ensures group[i] != group[j] { Text.LessIrreflexive(group[i]); }
  }

  /** Every group's contribution builds on its own, whether loaded or kept. */
  lemma ContributionBuilds(codec: Codec, environment: string, s: Snapshot, incoming: map<string, Input>,
                           failures: set<string>, g: nat)
    requires Ready(codec, environment, s, incoming) && g < |PartialGroups(s, incoming, failures)|
    ensures Accepts(codec, environment, Contribution(codec, environment, s, incoming, failures,
                                                     PartialGroups(s, incoming, failures)[g]))
    ensures NoRepeats(PartialGroups(s, incoming, failures)[g])
  {
    hide Accepts, KeepsSources, NoRepeats, WellBuilt;
    var group := PartialGroups(s, incoming, failures)[g];
    GroupKeepsSources(codec, environment, s, incoming, failures, g);
    if Fails(codec, environment, incoming, failures, group) { KeptGroupBuilds(codec, environment, s, group); }
  }

  /** Where a contributed input comes from. */
  lemma ContributedInput(codec: Codec, environment: string, s: Snapshot, incoming: map<string, Input>,
                         failures: set<string>, g: nat, x: Input)
    requires Ready(codec, environment, s, incoming) && g < |PartialGroups(s, incoming, failures)|
    requires x in Contribution(codec, environment, s, incoming, failures, PartialGroups(s, incoming, failures)[g])
    ensures x.definition.name in PartialGroups(s, incoming, failures)[g]
    ensures AcceptsInput(codec, environment, x)
    ensures forall k :: 0 <= k < |x.models| ==>
              x.models[k] in AllModels(s, incoming) && x.models[k].collection == x.definition.name
  {
    hide Accepts, Fails, OptionsResolve, AuthorizedOf, GoodView, PreviousModels, AllModels, Groups;
    var group := PartialGroups(s, incoming, failures)[g];
    ContributionBuilds(codec, environment, s, incoming, failures, g);
    PreviousMapIsTotal(codec, environment, s);
    InputsForMeaning(group, PreviousMap(s));
    InputsForMeaning(group, incoming);
    AcceptsEach(codec, environment, Contribution(codec, environment, s, incoming, failures, group), x);
    forall k | 0 <= k < |x.models| ensures x.models[k] in AllModels(s, incoming) {
      ModelIsKnown(codec, environment, s, incoming, x, k);
    }
  }

  lemma AcceptsEach(codec: Codec, environment: string, inputs: seq<Input>, x: Input)
    requires Accepts(codec, environment, inputs) && x in inputs
    ensures AcceptsInput(codec, environment, x)
  {
  }

  lemma ModelIsKnown(codec: Codec, environment: string, s: Snapshot, incoming: map<string, Input>, x: Input, k: nat)
    requires WellBuilt(codec, environment, s) && k < |x.models|
    requires Lookup(PreviousMap(s), x.definition.name) == Some(x) || Lookup(incoming, x.definition.name) == Some(x)
    ensures x.models[k] in AllModels(s, incoming)
  {
    hide OptionsResolve, AuthorizedOf, GoodView;
    if Lookup(incoming, x.definition.name) == Some(x) {
      assert x.models[k] in incoming[x.definition.name].models;
      assert x.models[k] in IncomingModels(incoming);
    } else {
      PreviousMapIsTotal(codec, environment, s);
      PreviousModelsMeaning(codec, environment, s, x.definition.name);
    }
  }

  predicate Cross(x: Input, y: Input) {
    x.definition.name != y.definition.name && Apart(x.models, y.models)
  }

  /** Inputs of different groups cannot clash: a shared model code would have put their collections together. */
  lemma DifferentGroupsCross(codec: Codec, environment: string, s: Snapshot, incoming: map<string, Input>,
                             failures: set<string>,
                             g: nat, h: nat, x: Input, y: Input)
    requires Ready(codec, environment, s, incoming) && g < h < |PartialGroups(s, incoming, failures)|
    requires x in Contribution(codec, environment, s, incoming, failures, PartialGroups(s, incoming, failures)[g])
    requires y in Contribution(codec, environment, s, incoming, failures, PartialGroups(s, incoming, failures)[h])
    ensures Cross(x, y)
  {
    hide Contribution, WellBuilt, AllModels, Groups, AcceptsInput;
    var all, nodes := AllModels(s, incoming), GroupNodes(s, incoming, failures);
    var rel, a, b := LinkedBy(all), x.definition.name, y.definition.name;
    ContributedInput(codec, environment, s, incoming, failures, g, x);
    ContributedInput(codec, environment, s, incoming, failures, h, y);
    NamesAreReal(codec, environment, x);
    NamesAreReal(codec, environment, y);
    LinkedSymmetric(all);
    GroupsAreComponents(rel, nodes, g, h, a, b);
    ConnectedToItself(rel, a);
    forall k, l | 0 <= k < |x.models| && 0 <= l < |y.models| ensures x.models[k].code != y.models[l].code {
      if x.models[k].code == y.models[l].code {
        assert SharesCode(all, x.models[k].code, a, b);
        assert rel(a, b);
        ConnectedByEdge(rel, a, b);
        assert false;
      }
    }
  }

  lemma NamesAreReal(codec: Codec, environment: string, x: Input)
    requires AcceptsInput(codec, environment, x)
    ensures x.definition.name != ""
  {
  }

  lemma {:induction false} ComposedHolds(codec: Codec, environment: string, s: Snapshot, incoming: map<string, Input>,
                                         failures: set<string>,
                                         groups: seq<seq<string>>, x: Input)
    ensures x in Composed(codec, environment, s, incoming, failures, groups) <==>
              exists g :: 0 <= g < |groups| && x in Contribution(codec, environment, s, incoming, failures, groups[g])
  {
    hide Contribution;
    if groups != [] {
      var n := |groups| - 1;
      ComposedHolds(codec, environment, s, incoming, failures, groups[..n], x);
      assert forall g :: 0 <= g < n ==> groups[..n][g] == groups[g];
    }
  }

  lemma LegalJoin(codec: Codec, environment: string, left: seq<Input>, right: seq<Input>)
    requires Legal(codec, environment, left) && Legal(codec, environment, right)
    requires forall i, j :: 0 <= i < |left| && 0 <= j < |right| ==> Cross(left[i], right[j])
    ensures Legal(codec, environment, left + right)
  {
    hide AcceptsInput, OwnCodes, Apart;
    var all := left + right;
    forall i, j | 0 <= i < j < |all|
      ensures all[i].definition.name != all[j].definition.name && Apart(all[i].models, all[j].models)
    {
      if i < |left| <= j { assert Cross(left[i], right[j - |left|]); }
    }
  }

  lemma {:induction false} ComposedIsLegal(codec: Codec, environment: string, s: Snapshot, incoming: map<string, Input>,
                                           failures: set<string>, n: nat)
    requires Ready(codec, environment, s, incoming) && n <= |PartialGroups(s, incoming, failures)|
    ensures Legal(codec, environment, Composed(codec, environment, s, incoming, failures,
                                               PartialGroups(s, incoming, failures)[..n]))
  {
    hide Contribution, Ready, PartialGroups, AcceptsInput, DistinctNames, DistinctCodes, Cross;
    var groups := PartialGroups(s, incoming, failures);
    if n == 0 {
      NothingIsLegal(codec, environment);
    } else {
      ComposedIsLegal(codec, environment, s, incoming, failures, n - 1);
      assert groups[..n][..n - 1] == groups[..n - 1];
      var left, right := Composed(codec, environment, s, incoming, failures, groups[..n - 1]),
                         Contribution(codec, environment, s, incoming, failures, groups[n - 1]);
      ContributionBuilds(codec, environment, s, incoming, failures, n - 1);
      forall i, j | 0 <= i < |left| && 0 <= j < |right| ensures Cross(left[i], right[j]) {
        ComposedHolds(codec, environment, s, incoming, failures, groups[..n - 1], left[i]);
        assert left[i] in left && right[j] in right;
        var g :| 0 <= g < n - 1
                 && left[i] in Contribution(codec, environment, s, incoming, failures, groups[..n - 1][g]);
        DifferentGroupsCross(codec, environment, s, incoming, failures, g, n - 1, left[i], right[j]);
      }
      LegalJoin(codec, environment, left, right);
    }
  }

  lemma NothingIsLegal(codec: Codec, environment: string)
    ensures Legal(codec, environment, [])
  {
  }

  // ----- the composition -----

  /** What a set of views, or of models, says about one group. */
  function ViewsIn(views: map<string, View>, group: seq<string>): map<string, View> {
    map n | n in views && n in group :: views[n]
  }

  function ModelsIn(models: map<string, Model>, group: seq<string>): map<string, Model> {
    map c | c in models && models[c].collection in group :: models[c]
  }

  ghost function AllComposed(codec: Codec, environment: string, s: Snapshot, incoming: map<string, Input>,
                             failures: set<string>): seq<Input> {
    Composed(codec, environment, s, incoming, failures, PartialGroups(s, incoming, failures))
  }

  lemma AllComposedIsLegal(codec: Codec, environment: string, s: Snapshot, incoming: map<string, Input>,
                           failures: set<string>)
    requires Ready(codec, environment, s, incoming)
    ensures Legal(codec, environment, AllComposed(codec, environment, s, incoming, failures))
  {
    var groups := PartialGroups(s, incoming, failures);
    assert groups[..|groups|] == groups;
    ComposedIsLegal(codec, environment, s, incoming, failures, |groups|);
  }

  /** An input of the composition whose collection is in a group comes from that group's contribution. */
  lemma ComposedInGroup(codec: Codec, environment: string, s: Snapshot, incoming: map<string, Input>,
                        failures: set<string>, g: nat, x: Input)
    requires Ready(codec, environment, s, incoming) && g < |PartialGroups(s, incoming, failures)|
    requires x.definition.name in PartialGroups(s, incoming, failures)[g]
    ensures x in AllComposed(codec, environment, s, incoming, failures)
            <==> x in Contribution(codec, environment, s, incoming, failures, PartialGroups(s, incoming, failures)[g])
  {
    hide Contribution, Ready, Groups;
    var groups := PartialGroups(s, incoming, failures);
    ComposedHolds(codec, environment, s, incoming, failures, groups, x);
    if x in AllComposed(codec, environment, s, incoming, failures) {
      var h :| 0 <= h < |groups| && x in Contribution(codec, environment, s, incoming, failures, groups[h]);
      ContributedInput(codec, environment, s, incoming, failures, h, x);
      var rel, name := LinkedBy(AllModels(s, incoming)), x.definition.name;
      LinkedSymmetric(AllModels(s, incoming));
      ConnectedToItself(rel, name);
      GroupsAreComponents(rel, GroupNodes(s, incoming, failures), g, h, name, name);
    }
  }

  lemma LegalLookup(codec: Codec, environment: string, inputs: seq<Input>, n: string)
    requires Legal(codec, environment, inputs)
    ensures n in ViewsOf(codec, environment, inputs) <==> exists x :: x in inputs && x.definition.name == n
    ensures forall x :: x in inputs && x.definition.name == n ==>
              Lookup(ViewsOf(codec, environment, inputs), n) == Some(ViewOf(codec, environment, x))
  {
    hide ViewOf, AcceptsInput;
    ViewsMeaning(codec, environment, inputs);
    if n in ViewsOf(codec, environment, inputs) {
      var i :| 0 <= i < |inputs| && inputs[i].definition.name == n;
      assert inputs[i] in inputs;
    }
  }

  lemma AcceptsIsLegal(codec: Codec, environment: string, inputs: seq<Input>)
    requires Accepts(codec, environment, inputs)
    ensures Legal(codec, environment, inputs)
  {
  }

  lemma ComposedView(codec: Codec, environment: string, s: Snapshot, incoming: map<string, Input>,
                     failures: set<string>, g: nat, n: string)
    requires Ready(codec, environment, s, incoming) && g < |PartialGroups(s, incoming, failures)|
    requires n in PartialGroups(s, incoming, failures)[g]
    ensures Lookup(ViewsOf(codec, environment, AllComposed(codec, environment, s, incoming, failures)), n)
            == Lookup(ViewsOf(codec, environment, Contribution(codec, environment, s, incoming, failures,
                                                               PartialGroups(s, incoming, failures)[g])), n)
  {
    hide Contribution, Ready, PartialGroups, AllComposed, Legal, ViewsOf, ViewOf, Accepts;
    var all := AllComposed(codec, environment, s, incoming, failures);
    var part := Contribution(codec, environment, s, incoming, failures, PartialGroups(s, incoming, failures)[g]);
    AllComposedIsLegal(codec, environment, s, incoming, failures);
    ContributionBuilds(codec, environment, s, incoming, failures, g);
    AcceptsIsLegal(codec, environment, part);
    LegalLookup(codec, environment, all, n);
    LegalLookup(codec, environment, part, n);
    forall x: Input | x.definition.name == n ensures x in all <==> x in part {
      ComposedInGroup(codec, environment, s, incoming, failures, g, x);
    }
  }

  predicate Holds(inputs: seq<Input>, x: Input, m: Model) {
    x in inputs && m in x.models
  }

  lemma HoldsMeaning(inputs: seq<Input>, m: Model)
    ensures HoldsModel(inputs, m) <==> exists x :: Holds(inputs, x, m)
  {
    if HoldsModel(inputs, m) {
      var i, k :| 0 <= i < |inputs| && 0 <= k < |inputs[i].models| && inputs[i].models[k] == m;
      assert Holds(inputs, inputs[i], m);
    }
    if x :| Holds(inputs, x, m) {
      var i :| 0 <= i < |inputs| && inputs[i] == x;
      var k :| 0 <= k < |x.models| && x.models[k] == m;
      assert inputs[i].models[k] == m;
    }
  }

  lemma LegalModel(codec: Codec, environment: string, inputs: seq<Input>, m: Model)
    requires Legal(codec, environment, inputs)
    ensures Lookup(ModelsOf(inputs), m.code) == Some(m) <==> HoldsModel(inputs, m)
  {
    hide AcceptsInput;
    ModelsMeaning(inputs);
  }

  lemma ComposedModel(codec: Codec, environment: string, s: Snapshot, incoming: map<string, Input>,
                      failures: set<string>, g: nat, m: Model)
    requires Ready(codec, environment, s, incoming) && g < |PartialGroups(s, incoming, failures)|
    ensures HoldsModel(Contribution(codec, environment, s, incoming, failures,
                                    PartialGroups(s, incoming, failures)[g]), m)
            <==>
            && HoldsModel(AllComposed(codec, environment, s, incoming, failures), m)
            && m.collection in PartialGroups(s, incoming, failures)[g]
  {
    hide Contribution, Ready, PartialGroups, AllComposed, AcceptsInput, HoldsModel, Composed;
    var groups := PartialGroups(s, incoming, failures);
    var all, part := AllComposed(codec, environment, s, incoming, failures),
        Contribution(codec, environment, s, incoming, failures, groups[g]);
    HoldsMeaning(all, m);
    HoldsMeaning(part, m);
    if x :| Holds(part, x, m) {
      ContributedInput(codec, environment, s, incoming, failures, g, x);
      ComposedInGroup(codec, environment, s, incoming, failures, g, x);
      assert Holds(all, x, m);
    }
    if HoldsModel(all, m) && m.collection in groups[g] {
      var x :| Holds(all, x, m);
      AllComposedIsLegal(codec, environment, s, incoming, failures);
      OwnedByName(codec, environment, all, x, m);
      ComposedInGroup(codec, environment, s, incoming, failures, g, x);
      assert Holds(part, x, m);
    }
  }

  lemma OwnedByName(codec: Codec, environment: string, inputs: seq<Input>, x: Input, m: Model)
    requires Legal(codec, environment, inputs) && Holds(inputs, x, m)
    ensures m.collection == x.definition.name
  {
    var i :| 0 <= i < |inputs| && inputs[i] == x;
    assert AcceptsInput(codec, environment, inputs[i]);
  }

  /**
   * The composition always builds: from a previous snapshot that a build published, whatever loaded, whatever
   * failed, and whatever the new inputs contain.
   */
  lemma CompositionNeverFails(codec: Codec, environment: string, s: Snapshot, incoming: map<string, Input>,
                              failures: set<string>)
    requires Ready(codec, environment, s, incoming)
    ensures Accepts(codec, environment, AllComposed(codec, environment, s, incoming, failures))
  {
    hide Ready, PartialGroups, AllComposed, AcceptsInput, ViewsOf, ModelsOf, ModelResolves, HoldsModel;
    var all := AllComposed(codec, environment, s, incoming, failures);
    AllComposedIsLegal(codec, environment, s, incoming, failures);
    ModelsMeaning(all);
    forall code | code in ModelsOf(all)
      ensures ModelResolves(codec, ViewsOf(codec, environment, all), ModelsOf(all)[code])
    {
      ComposedModelResolves(codec, environment, s, incoming, failures, ModelsOf(all)[code]);
    }
  }

  lemma ComposedModelResolves(codec: Codec, environment: string, s: Snapshot, incoming: map<string, Input>,
                              failures: set<string>, m: Model)
    requires Ready(codec, environment, s, incoming)
    requires HoldsModel(AllComposed(codec, environment, s, incoming, failures), m)
    ensures ModelResolves(codec, ViewsOf(codec, environment, AllComposed(codec, environment, s, incoming, failures)), m)
  {
    hide Ready, PartialGroups, ViewsOf, ModelsOf, HoldsModel, Contribution, AcceptsInput, DistinctCodes, DistinctNames;
    var groups := PartialGroups(s, incoming, failures);
    var all := AllComposed(codec, environment, s, incoming, failures);
    HoldsMeaning(all, m);
    var x :| Holds(all, x, m);
    ComposedHolds(codec, environment, s, incoming, failures, groups, x);
    var g :| 0 <= g < |groups| && x in Contribution(codec, environment, s, incoming, failures, groups[g]);
    var part := Contribution(codec, environment, s, incoming, failures, groups[g]);
    assert Holds(part, x, m);
    HoldsMeaning(part, m);
    ContributionBuilds(codec, environment, s, incoming, failures, g);
    AcceptsIsLegal(codec, environment, part);
    LegalModel(codec, environment, part, m);
    assert ModelResolves(codec, ViewsOf(codec, environment, part), m);
    forall k | 0 <= k < |m.sources| ensures SourceResolves(codec, ViewsOf(codec, environment, all), m.sources[k]) {
      var c := m.sources[k].collection;
      assert SourceResolves(codec, ViewsOf(codec, environment, part), m.sources[k]);
      PartNamesInGroup(codec, environment, s, incoming, failures, g, c);
      ComposedView(codec, environment, s, incoming, failures, g, c);
    }
  }

  lemma PartNamesInGroup(codec: Codec, environment: string, s: Snapshot, incoming: map<string, Input>,
                         failures: set<string>, g: nat, n: string)
    requires Ready(codec, environment, s, incoming) && g < |PartialGroups(s, incoming, failures)|
    requires n in ViewsOf(codec, environment, Contribution(codec, environment, s, incoming, failures,
                                                           PartialGroups(s, incoming, failures)[g]))
    ensures n in PartialGroups(s, incoming, failures)[g]
  {
    hide Ready, PartialGroups, ViewsOf, Contribution, Accepts, Legal;
    var part := Contribution(codec, environment, s, incoming, failures, PartialGroups(s, incoming, failures)[g]);
    ContributionBuilds(codec, environment, s, incoming, failures, g);
    AcceptsIsLegal(codec, environment, part);
    LegalLookup(codec, environment, part, n);
    var x :| x in part && x.definition.name == n;
    ContributedInput(codec, environment, s, incoming, failures, g, x);
  }

  /**
   * Restricted to any dependency group, the composed candidate is exactly the previous view when the group failed,
   * and exactly the incoming build otherwise: views and models, never a mix.
   */
  lemma GroupIsIncomingOrPrevious(codec: Codec, identity: Identity, environment: string, s: Snapshot,
                                  incoming: map<string, Input>,
                                  failures: set<string>, g: nat)
    requires Ready(codec, environment, s, incoming) && g < |PartialGroups(s, incoming, failures)|
    ensures var group := PartialGroups(s, incoming, failures)[g];
            var candidate := SnapshotOf(codec, identity, environment,
                                        AllComposed(codec, environment, s, incoming, failures));
            var source := if Fails(codec, environment, incoming, failures, group) then s
                          else SnapshotOf(codec, identity, environment, InputsFor(group, incoming));
            ViewsIn(candidate.collections, group) == ViewsIn(source.collections, group)
            && ModelsIn(candidate.models, group) == ModelsIn(source.models, group)
  {
    hide Ready, PartialGroups, AllComposed, ViewsOf, ModelsOf, Fails, HoldsModel, AuthorizedOf, InputsFor, PreviousMap;
    var group := PartialGroups(s, incoming, failures)[g];
    var all, part := AllComposed(codec, environment, s, incoming, failures),
        Contribution(codec, environment, s, incoming, failures, group);
    var candidate := SnapshotOf(codec, identity, environment, all);
    var source := if Fails(codec, environment, incoming, failures, group) then s
                  else SnapshotOf(codec, identity, environment, InputsFor(group, incoming));
    forall n | n in group ensures Lookup(candidate.collections, n) == Lookup(source.collections, n) {
      ComposedView(codec, environment, s, incoming, failures, g, n);
      SourceViews(codec, identity, environment, s, incoming, failures, g, n);
    }
    SameViews(candidate.collections, source.collections, group);
    forall m: Model | m.collection in group
      ensures Lookup(candidate.models, m.code) == Some(m) <==> Lookup(source.models, m.code) == Some(m)
    {
      ComposedModel(codec, environment, s, incoming, failures, g, m);
      AllComposedIsLegal(codec, environment, s, incoming, failures);
      LegalModel(codec, environment, all, m);
      SourceModels(codec, identity, environment, s, incoming, failures, g, m);
    }
    AllComposedIsLegal(codec, environment, s, incoming, failures);
    SourceCodes(codec, identity, environment, s, incoming, failures, g);
    CodesMatch(codec, environment, all);
    SameModels(candidate.models, source.models, group);
  }

  lemma SourceViews(codec: Codec, identity: Identity, environment: string, s: Snapshot, incoming: map<string, Input>,
                    failures: set<string>, g: nat, n: string)
    requires Ready(codec, environment, s, incoming) && g < |PartialGroups(s, incoming, failures)|
    requires n in PartialGroups(s, incoming, failures)[g]
    ensures var group := PartialGroups(s, incoming, failures)[g];
            Lookup(ViewsOf(codec, environment, Contribution(codec, environment, s, incoming, failures, group)), n)
            == Lookup(if Fails(codec, environment, incoming, failures, group) then s.collections
                      else ViewsOf(codec, environment, InputsFor(group, incoming)), n)
  {
    hide PartialGroups, ViewsOf, Fails, WellBuilt, InputsFor, PreviousMap;
    var group := PartialGroups(s, incoming, failures)[g];
    ContributionBuilds(codec, environment, s, incoming, failures, g);
    if Fails(codec, environment, incoming, failures, group) { KeptViews(codec, environment, s, group, n); }
  }

  lemma SourceModels(codec: Codec, identity: Identity, environment: string, s: Snapshot, incoming: map<string, Input>,
                     failures: set<string>, g: nat, m: Model)
    requires Ready(codec, environment, s, incoming) && g < |PartialGroups(s, incoming, failures)|
    requires m.collection in PartialGroups(s, incoming, failures)[g]
    ensures var group := PartialGroups(s, incoming, failures)[g];
            HoldsModel(Contribution(codec, environment, s, incoming, failures, group), m)
            <==> Lookup(if Fails(codec, environment, incoming, failures, group) then s.models
                        else ModelsOf(InputsFor(group, incoming)), m.code) == Some(m)
  {
    hide PartialGroups, Fails, InputsFor, PreviousMap, HoldsModel, OptionsResolve, GoodView, AuthorizedOf, ModelsOf,
         Accepts, DistinctCodes;
    var group := PartialGroups(s, incoming, failures)[g];
    ContributionBuilds(codec, environment, s, incoming, failures, g);
    if Fails(codec, environment, incoming, failures, group) {
      KeptCodes(codec, environment, s, group);
    } else {
      AcceptsIsLegal(codec, environment, InputsFor(group, incoming));
      LegalModel(codec, environment, InputsFor(group, incoming), m);
    }
  }

  predicate CodesAgree(models: map<string, Model>) {
    forall c :: c in models ==> models[c].code == c
  }

  lemma CodesMatch(codec: Codec, environment: string, inputs: seq<Input>)
    requires Legal(codec, environment, inputs)
    ensures CodesAgree(ModelsOf(inputs))
  {
    hide AcceptsInput;
    ModelsMeaning(inputs);
  }

  lemma SourceCodes(codec: Codec, identity: Identity, environment: string, s: Snapshot, incoming: map<string, Input>,
                    failures: set<string>, g: nat)
    requires Ready(codec, environment, s, incoming) && g < |PartialGroups(s, incoming, failures)|
    ensures var group := PartialGroups(s, incoming, failures)[g];
            CodesAgree(if Fails(codec, environment, incoming, failures, group) then s.models
                       else ModelsOf(InputsFor(group, incoming)))
  {
    hide PartialGroups, InputsFor, OptionsResolve, GoodView, AuthorizedOf, ModelsOf, Accepts;
    var group := PartialGroups(s, incoming, failures)[g];
    if !Fails(codec, environment, incoming, failures, group) {
      AcceptsIsLegal(codec, environment, InputsFor(group, incoming));
      CodesMatch(codec, environment, InputsFor(group, incoming));
    }
  }

  lemma SameViews(left: map<string, View>, right: map<string, View>, group: seq<string>)
    requires forall n :: n in group ==> Lookup(left, n) == Lookup(right, n)
    ensures ViewsIn(left, group) == ViewsIn(right, group)
  {
    var l, r := ViewsIn(left, group), ViewsIn(right, group);
    forall n | n in group ensures n in l <==> n in r { assert Lookup(left, n) == Lookup(right, n); }
    forall n | n in l ensures n in r && l[n] == r[n] { assert Lookup(left, n) == Lookup(right, n); }
    assert l.Keys == r.Keys;
  }

  lemma SameModels(left: map<string, Model>, right: map<string, Model>, group: seq<string>)
    requires CodesAgree(left) && CodesAgree(right)
    requires forall m: Model :: m.collection in group ==>
               (Lookup(left, m.code) == Some(m) <==> Lookup(right, m.code) == Some(m))
    ensures ModelsIn(left, group) == ModelsIn(right, group)
  {
    var l, r := ModelsIn(left, group), ModelsIn(right, group);
    forall c | c in l ensures c in r && l[c] == r[c] { assert Lookup(left, left[c].code) == Some(left[c]); }
    forall c | c in r ensures c in l && l[c] == r[c] { assert Lookup(right, right[c].code) == Some(right[c]); }
    assert l.Keys == r.Keys;
  }
}
