/** The snapshot manager: builds a complete candidate, then swaps the published value in one step. */
module SnapshotManager {
  import opened Wrappers
  import opened Catalog
  import opened Overlay
  import opened Dependencies
  import opened Snapshot
  import opened SnapshotBuild
  import opened Composition
  import opened PartialRefresh
  import Text

  /** What the source loaded: inputs, and the collections that failed, each with whether it carries an error. */
  datatype Load = Load(inputs: seq<Input>, failures: map<string, bool>)

  datatype RefreshError = NoEnvironment | SourceFailed | InitialFailures | BuildRefused | BadLoad | AllGroupsFailed

  // ----- the previous snapshot as inputs -----

  method ModelsOfCollection(s: Snapshot, name: string) returns (models: seq<Model>)
    ensures models == PreviousModels(s, name)
  {
    var codes := Text.SortNames(set c | c in s.models && s.models[c].collection == name);
    Text.StrictlySortedUnique(codes, Text.InOrder(CodesOf(s, name)));
    models := [];
    for n := 0 to |codes|
      invariant |models| == n
      invariant forall i :: 0 <= i < n ==> codes[i] in s.models && models[i] == s.models[codes[i]]
    {
      assert codes[n] in Text.Elements(codes);
      models := models + [s.models[codes[n]]];
    }
  }

  method PreviousInputs(ghost codec: Codec, ghost environment: string, s: Snapshot,
                        group: seq<string>) returns (inputs: seq<Input>)
    requires WellBuilt(codec, environment, s)
    ensures inputs == InputsFor(group, PreviousMap(s))
  {
    hide WellBuilt, PreviousModels;
    PreviousMapIsTotal(codec, environment, s);
    inputs := [];
    for n := 0 to |group|
      invariant inputs == InputsFor(group[..n], PreviousMap(s))
    {
      assert group[..n + 1][..n] == group[..n];
      if group[n] !in s.collections { continue; }
      var view := s.collections[group[n]];
      var models := ModelsOfCollection(s, group[n]);
      var records: seq<Record> := [];
      for k := 0 to |view.ordered|
        invariant |records| == k
        invariant forall i :: 0 <= i < k ==>
                    view.ordered[i] in view.records && records[i] == view.records[view.ordered[i]]
      {
        assert view.ordered[k] in Text.Elements(view.ordered);
        records := records + [view.records[view.ordered[k]]];
      }
      assert records == RecordList(view);
      inputs := inputs
      + [Input(view.definition, models, view.consumers, view.version, view.cursor, records, Clones(view.rules))];
    }
    assert group[..|group|] == group;
  }

  method SelectInputs(group: seq<string>, incoming: map<string, Input>) returns (inputs: seq<Input>)
    ensures inputs == InputsFor(group, incoming)
  {
    inputs := [];
    for n := 0 to |group|
      invariant inputs == InputsFor(group[..n], incoming)
    {
      assert group[..n + 1][..n] == group[..n];
      if group[n] in incoming { inputs := inputs + [incoming[group[n]]]; }
    }
    assert group[..|group|] == group;
  }

  // ----- the load -----

  predicate GoodNames(inputs: seq<Input>) {
    DistinctNames(inputs) && forall i :: 0 <= i < |inputs| ==> inputs[i].definition.name != ""
  }

  function ByName(inputs: seq<Input>): map<string, Input> {
    if inputs == [] then map[]
    else ByName(inputs[..|inputs| - 1])[inputs[|inputs| - 1].definition.name := inputs[|inputs| - 1]]
  }

  predicate GoodFailures(failures: map<string, bool>) {
    forall n :: n in failures ==> Text.Trim(n) != "" && failures[n]
  }

  function FailedNames(failures: map<string, bool>): set<string> {
    set n | n in failures :: Text.Trim(n)
  }

  lemma {:induction false} ByNameMeaning(inputs: seq<Input>)
    ensures KeyedByName(ByName(inputs))
    ensures forall n :: n in ByName(inputs) <==> exists i :: 0 <= i < |inputs| && inputs[i].definition.name == n
  {
    if inputs != [] {
      var init := inputs[..|inputs| - 1];
      ByNameMeaning(init);
      assert forall i :: 0 <= i < |init| ==> init[i] == inputs[i];
      forall n | n in ByName(inputs) ensures exists i :: 0 <= i < |inputs| && inputs[i].definition.name == n {
        if n == inputs[|inputs| - 1].definition.name {
        } else {
          var i :| 0 <= i < |init| && init[i].definition.name == n;
          assert inputs[i].definition.name == n;
        }
      }
    }
  }

  method IndexInputs(inputs: seq<Input>) returns (r: Option<map<string, Input>>)
    ensures r.Some? <==> GoodNames(inputs)
    ensures r.Some? ==> r.value == ByName(inputs)
  {
    var incoming: map<string, Input> := map[];
    for n := 0 to |inputs|
      invariant GoodNames(inputs[..n]) && incoming == ByName(inputs[..n])
    {
      var name := inputs[n].definition.name;
      assert inputs[..n + 1][..n] == inputs[..n];
      forall i | 0 <= i < n ensures inputs[..n][i] == inputs[i] == inputs[..n + 1][i] {}
      ByNameMeaning(inputs[..n]);
      if name == "" { return None; }
      if name in incoming {
        var i :| 0 <= i < n && inputs[..n][i].definition.name == name;
        assert inputs[i].definition.name == inputs[n].definition.name;
        return None;
      }
      incoming := incoming[name := inputs[n]];
    }
    assert inputs[..|inputs|] == inputs;
    return Some(incoming);
  }

  /** All models of the previous snapshot and of the inputs, in whatever order the maps are iterated. */
  method ListModels(s: Snapshot, incoming: map<string, Input>) returns (models: seq<Model>)
    ensures Text.Elements(models) == AllModels(s, incoming)
  {
    models := [];
    var codes := s.models.Keys;
    while codes != {}
      invariant codes <= s.models.Keys
      invariant forall m :: m in models <==> exists c :: c in s.models && c !in codes && s.models[c] == m
      decreases codes
    {
      var c :| c in codes;
      models := models + [s.models[c]];
      codes := codes - {c};
    }
    var names := incoming.Keys;
    while names != {}
      invariant names <= incoming.Keys
      invariant forall m :: m in models <==>
                  m in s.models.Values || exists n :: n in incoming && n !in names && m in incoming[n].models
      decreases names
    {
      var n :| n in names;
      models := models + incoming[n].models;
      names := names - {n};
    }
  }

  // ----- the partial candidate -----

  ghost function FailedGroups(codec: Codec, environment: string, incoming: map<string, Input>, failures: set<string>,
                              groups: seq<seq<string>>)
    : seq<seq<string>>
  {
    if groups == [] then []
    else
      var before, last := FailedGroups(codec, environment, incoming, failures, groups[..|groups| - 1]),
          groups[|groups| - 1];
      if Fails(codec, environment, incoming, failures, last) then before + [last] else before
  }

  method BuildGroup(codec: Codec, identity: Identity, environment: string, s: Snapshot, incoming: map<string, Input>,
                    failures: set<string>,
                    group: seq<string>) returns (failed: bool, inputs: seq<Input>)
    requires WellBuilt(codec, environment, s)
    ensures failed <==> Fails(codec, environment, incoming, failures, group)
    ensures inputs == Contribution(codec, environment, s, incoming, failures, group)
  {
    hide WellBuilt, Accepts, PreviousMap;
    failed := LoadFailed(group, failures);
    inputs := SelectInputs(group, incoming);
    NothingIsAccepted(codec, environment);
    if !failed && |inputs| > 0 {
      var built := BuildSnapshot(codec, identity, environment, inputs);
      failed := built.None?;
    }
    if failed { inputs := PreviousInputs(codec, environment, s, group); }
  }

  lemma NothingIsAccepted(codec: Codec, environment: string)
    ensures Accepts(codec, environment, [])
  {
  }

  /**
   * The composed candidate, or an error: only malformed names, malformed failures, or the failure of every group
   * stop a refresh. The final build is never the reason.
   */
  method BuildPartial(codec: Codec, seed: Seed, s: Snapshot, now: int, environment: string, load: Load)
    returns (r: Result<(Snapshot, seq<seq<string>>), RefreshError>)
    requires Idempotent(codec) && WellBuilt(codec, environment, s)
    ensures !GoodNames(load.inputs) || !GoodFailures(load.failures) ==> r == Failure(BadLoad)
    ensures GoodNames(load.inputs) && GoodFailures(load.failures) ==>
              var incoming, failures := ByName(load.inputs), FailedNames(load.failures);
              var groups := PartialGroups(s, incoming, failures);
              var failed := FailedGroups(codec, environment, incoming, failures, groups);
              r == if |failed| == |groups| then Failure(AllGroupsFailed)
                   else Success((SnapshotOf(codec, Identity(seed, s.identity.generation + 1, now), environment,
                                            AllComposed(codec, environment, s, incoming, failures)), failed))
  {
    hide WellBuilt, Fails, Contribution, PartialGroups, Accepts, Idempotent, SnapshotOf, GoodNames;
    var identity := Identity(seed, s.identity.generation + 1, now);
    var indexed := IndexInputs(load.inputs);
    if indexed.None? || !GoodFailures(load.failures) { return Failure(BadLoad); }
    var incoming, failures := indexed.value, FailedNames(load.failures);
    NamesMakeReady(codec, environment, s, load.inputs);
    var models := ListModels(s, incoming);
    var groups := DependencyGroups(s.collections.Keys + incoming.Keys + failures, models);
    assert groups == PartialGroups(s, incoming, failures) by { GroupsAsMeant(s, incoming, failures, models); }
    var accepted: seq<Input>, failedGroups: seq<seq<string>>, successful := [], [], 0;
    for n := 0 to |groups|
      invariant accepted == Composed(codec, environment, s, incoming, failures, groups[..n])
      invariant failedGroups == FailedGroups(codec, environment, incoming, failures, groups[..n])
      invariant successful == n - |failedGroups|
    {
      assert groups[..n + 1][..n] == groups[..n];
      var failed, inputs := BuildGroup(codec, identity, environment, s, incoming, failures, groups[n]);
      accepted := accepted + inputs;
      if failed { failedGroups := failedGroups + [groups[n]]; } else { successful := successful + 1; }
    }
    assert groups[..|groups|] == groups;
    if successful == 0 { return Failure(AllGroupsFailed); }
    CompositionNeverFails(codec, environment, s, incoming, failures);
    var candidate := BuildSnapshot(codec, identity, environment, accepted);
    return Success((candidate.value, failedGroups));
  }

  lemma NamesMakeReady(codec: Codec, environment: string, s: Snapshot, inputs: seq<Input>)
    requires Idempotent(codec) && WellBuilt(codec, environment, s) && GoodNames(inputs)
    ensures Ready(codec, environment, s, ByName(inputs))
  {
    ByNameMeaning(inputs);
  }

  lemma GroupsAsMeant(s: Snapshot, incoming: map<string, Input>, failures: set<string>, models: seq<Model>)
    requires Text.Elements(models) == AllModels(s, incoming)
    ensures PartialGroups(s, incoming, failures)
            == Components.Groups(LinkedBy(Text.Elements(models)), NodesOf(s.collections.Keys + incoming.Keys
                                                                          + failures, Text.Elements(models)))
  {
  }

  // ----- the manager -----

  class Manager {
    const codec: Codec
    const seed: Seed
    var current: Snapshot
    var published: seq<Snapshot>
    var lastFailedGroups: seq<seq<string>>
    var lastRefreshFailed: bool

    ghost predicate Valid()
      reads this
    {
      Idempotent(codec) && (current.identity.generation == 0 || WellBuilt(codec, current.environment, current))
    }

    constructor (codec: Codec, seed: Seed, now: int)
      requires Idempotent(codec)
      ensures Valid() && current == Snapshot(Identity(seed, 0, now), "", map[], map[], map[]) && published == []
    {
      this.codec, this.seed := codec, seed;
      current := Snapshot(Identity(seed, 0, now), "", map[], map[], map[]);
      published, lastFailedGroups, lastRefreshFailed := [], [], false;
    }

    /**
     * Refresh: on any error the published value stays; on success it is replaced at once by a snapshot of the next
     * generation that any later refresh can build on.
     */
    method Refresh(environment: string, source: Result<Load, RefreshError>,
                   now: int) returns (r: Result<seq<seq<string>>, RefreshError>)
      requires Valid()
      modifies this
      ensures Valid()
      ensures r.Failure? ==> current == old(current) && published == old(published)
      ensures r.Success? ==>
                && current.identity == Identity(seed, old(current).identity.generation + 1, now)
                && current.environment == Text.Trim(environment) && WellBuilt(codec, current.environment, current)
                && published == old(published) + [current] && lastFailedGroups == r.value && !lastRefreshFailed
      ensures r.Failure? && Text.Trim(environment) != "" ==> lastRefreshFailed && lastFailedGroups == []
      ensures r.Success? ==> source.Success? && if Initial(old(current), Text.Trim(environment))
              then source.value.failures == map[] && r.value == []
                   && current == SnapshotOf(codec, current.identity, Text.Trim(environment), source.value.inputs)
              else current == SnapshotOf(codec, current.identity, Text.Trim(environment),
                     AllComposed(codec, Text.Trim(environment), old(current), ByName(source.value.inputs),
                                 FailedNames(source.value.failures)))
    {
      hide WellBuilt, Idempotent, Accepts, SnapshotOf, AllComposed, GoodNames, GoodFailures, FailedGroups, FailedNames,
           ByName;
      var env := Text.Trim(environment);
      if env == "" { return Failure(NoEnvironment); }
      lastFailedGroups, lastRefreshFailed := [], true;
      if source.Failure? { return Failure(SourceFailed); }
      var load, previous := source.value, current;
      if Initial(previous, env) {
        if load.failures != map[] { return Failure(InitialFailures); }
        var identity := Identity(seed, previous.identity.generation + 1, now);
        var candidate := BuildSnapshot(codec, identity, env, load.inputs);
        if candidate.None? { return Failure(BuildRefused); }
        AcceptedIsWellBuilt(codec, identity, env, load.inputs);
        SnapshotParts(codec, identity, env, load.inputs);
        Publish(candidate.value);
        return Success([]);
      }
      var partialBuild := BuildPartial(codec, seed, previous, now, env, load);
      if partialBuild.Failure? { return Failure(partialBuild.error); }
      ComposedIsWellBuilt(codec, Identity(seed, previous.identity.generation + 1, now), env, previous, load);
      Publish(partialBuild.value.0);
      lastFailedGroups := partialBuild.value.1;
      return Success(partialBuild.value.1);
    }

    method Publish(candidate: Snapshot)
      modifies this`current, this`published, this`lastRefreshFailed
      ensures current == candidate && published == old(published) + [candidate] && !lastRefreshFailed
    {
      current, published, lastRefreshFailed := candidate, published + [candidate], false;
    }
  }

  predicate Initial(previous: Snapshot, environment: string) {
    previous.identity.generation == 0 || previous.environment != environment
  }

  lemma SnapshotParts(codec: Codec, identity: Identity, environment: string, inputs: seq<Input>)
    ensures SnapshotOf(codec, identity, environment, inputs).identity == identity
    ensures SnapshotOf(codec, identity, environment, inputs).environment == environment
  {
  }

  lemma ComposedIsWellBuilt(codec: Codec, identity: Identity, environment: string, s: Snapshot, load: Load)
    requires Idempotent(codec) && WellBuilt(codec, environment, s) && GoodNames(load.inputs)
    requires GoodFailures(load.failures)
    ensures var all := AllComposed(codec, environment, s, ByName(load.inputs), FailedNames(load.failures));
            var next := SnapshotOf(codec, identity, environment, all);
            WellBuilt(codec, environment, next) && next.identity == identity && next.environment == environment
  {
    hide WellBuilt, Idempotent, Accepts, AllComposed;
    var all := AllComposed(codec, environment, s, ByName(load.inputs), FailedNames(load.failures));
    NamesMakeReady(codec, environment, s, load.inputs);
    CompositionNeverFails(codec, environment, s, ByName(load.inputs), FailedNames(load.failures));
    AcceptedIsWellBuilt(codec, identity, environment, all);
  }
}
