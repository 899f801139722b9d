/** Dependency groups of collections: which must be published together. */
module Dependencies {
  import opened Text
  import opened Components

  datatype Filter = Filter(field: string, value: string)

  /** An option source of kind COLLECTION; fields without one do not matter here. */
  datatype OptionSource = OptionSource(collection: string, valueField: string, labelField: string, filters: seq<Filter>)

  datatype Model = Model(code: string, collection: string, sources: seq<OptionSource>)

  // ----- what the graph means -----

  predicate Reads(m: Model, name: string) {
    exists k :: 0 <= k < |m.sources| && m.sources[k].collection == name
  }

  predicate Uses(models: set<Model>, a: string, b: string) {
    exists m :: m in models && m.collection == a && Reads(m, b)
  }

  predicate SharesCode(models: set<Model>, code: string, a: string, b: string) {
    exists m, n ::
      && m in models && n in models && m.code == code && n.code == code
      && m.collection == a && n.collection == b
  }

  ghost predicate Shares(models: set<Model>, a: string, b: string) {
    exists code :: SharesCode(models, code, a, b)
  }

  /** Two collections must go together: one reads its options from the other, or both have owned the same model. */
  ghost predicate Linked(models: set<Model>, a: string, b: string) {
    a != "" && b != "" && (Uses(models, a, b) || Uses(models, b, a) || Shares(models, a, b))
  }

  ghost function LinkedBy(models: set<Model>): Relation {
    (a, b) => Linked(models, a, b)
  }

  function Owners(models: set<Model>): set<string> {
    set m | m in models :: m.collection
  }

  ghost function SourceNames(models: set<Model>): set<string> {
    set m, k | m in models && 0 <= k < |m.sources| :: m.sources[k].collection
  }

  ghost function NodesOf(starts: set<string>, models: set<Model>): set<string> {
    starts + Owners(models) + SourceNames(models) - {""}
  }

  lemma LinkedSymmetric(models: set<Model>)
    ensures Symmetric(LinkedBy(models))
  {
    forall a, b | Linked(models, a, b) ensures Linked(models, b, a) {
      if Shares(models, a, b) {
        var code :| SharesCode(models, code, a, b);
        assert SharesCode(models, code, b, a);
      }
    }
  }

  // ----- what the code builds -----

  type Edges = map<string, set<string>>

  function WithNode(edges: Edges, name: string): Edges {
    if name != "" && name !in edges then edges[name := {}] else edges
  }

  function WithEdge(edges: Edges, left: string, right: string): Edges {
    var e := WithNode(WithNode(edges, left), right);
    if left != "" && right != "" && left != right
    then e[left := e[left] + {right}][right := e[right] + {left}]
    else e
  }

  function WithSources(edges: Edges, owner: string, sources: seq<OptionSource>): Edges {
    if sources == [] then edges
    else WithEdge(WithSources(edges, owner, sources[..|sources| - 1]), owner, sources[|sources| - 1].collection)
  }

  datatype Building = Building(edges: Edges, owners: map<string, string>)

  function OwnerOf(owners: map<string, string>, code: string): string {
    if code in owners then owners[code] else ""
  }

  /** A model met under a second owner links it to the first one; a star, not a clique. */
  function WithOwner(b: Building, m: Model): Building {
    var edges, existing := WithNode(b.edges, m.collection), OwnerOf(b.owners, m.code);
    if existing != "" && existing != m.collection then Building(WithEdge(edges, existing, m.collection), b.owners)
    else Building(edges, b.owners[m.code := m.collection])
  }

  function WithModel(b: Building, m: Model): Building {
    var owned := WithOwner(b, m);
    Building(WithSources(owned.edges, m.collection, m.sources), owned.owners)
  }

  function WithModels(b: Building, models: seq<Model>): Building {
    if models == [] then b else WithModel(WithModels(b, models[..|models| - 1]), models[|models| - 1])
  }

  predicate Edge(edges: Edges, a: string, b: string) {
    a in edges && b in edges[a]
  }

  ghost function EdgeRelation(edges: Edges): Relation {
    (a, b) => Edge(edges, a, b)
  }

  // ----- the graph built is the graph meant -----

  ghost predicate Proper(edges: Edges) {
    && "" !in edges
    && (forall a, b :: Edge(edges, a, b) ==> b in edges && Edge(edges, b, a))
  }

  predicate Grown(edges: Edges, next: Edges) {
    forall a :: a in edges ==> a in next && edges[a] <= next[a]
  }

  lemma NodeAdded(edges: Edges, name: string)
    requires Proper(edges)
    ensures var next := WithNode(edges, name);
            && Proper(next) && Grown(edges, next) && next.Keys == edges.Keys + ({name} - {""})
            && forall a, b :: Edge(next, a, b) <==> Edge(edges, a, b)
  {
    var next := WithNode(edges, name);
    forall a, b ensures Edge(next, a, b) <==> Edge(edges, a, b) {}
  }

  lemma EdgeAdded(edges: Edges, left: string, right: string)
    requires Proper(edges)
    ensures var next := WithEdge(edges, left, right);
            && Proper(next) && Grown(edges, next) && next.Keys == edges.Keys + ({left, right} - {""})
            && (left != "" && right != "" && left != right ==> Edge(next, left, right))
            && forall a, b :: Edge(next, a, b) ==> Edge(edges, a, b) || Between(left, right, a, b)
  {
    NodeAdded(edges, left);
    NodeAdded(WithNode(edges, left), right);
    var e, next := WithNode(WithNode(edges, left), right), WithEdge(edges, left, right);
    hide WithNode;
    forall a, b ensures Edge(next, a, b) <==> Edge(e, a, b) || (left != right && Between(left, right, a, b)) {}
  }

  function Named(sources: seq<OptionSource>): set<string> {
    set k | 0 <= k < |sources| :: sources[k].collection
  }

  lemma NothingNamed()
    ensures Named([]) == {}
  {
  }

  lemma NamedStep(sources: seq<OptionSource>)
    requires sources != []
    ensures Named(sources) == Named(sources[..|sources| - 1]) + {sources[|sources| - 1].collection}
  {
    var n := |sources| - 1;
    forall k | 0 <= k < n ensures sources[..n][k] == sources[k] {}
    forall x | x in Named(sources) ensures x in Named(sources[..n]) + {sources[n].collection} {
      var k :| 0 <= k <= n && sources[k].collection == x;
      if k < n { assert sources[..n][k].collection == x; }
    }
  }

  lemma {:induction false} SourcesKeepProper(edges: Edges, owner: string, sources: seq<OptionSource>)
    requires Proper(edges)
    ensures var next := WithSources(edges, owner, sources);
            && Proper(next) && Grown(edges, next)
            && next.Keys == edges.Keys + ((if sources == [] then {} else {owner}) + Named(sources) - {""})
  {
    hide WithEdge, Proper, Named;
    if sources == [] {
      NothingNamed();
    } else {
      var n := |sources| - 1;
      NamedStep(sources);
      SourcesKeepProper(edges, owner, sources[..n]);
      EdgeAdded(WithSources(edges, owner, sources[..n]), owner, sources[n].collection);
    }
  }

  lemma {:induction false} SourcesAdded(edges: Edges, owner: string, sources: seq<OptionSource>)
    requires Proper(edges)
    ensures var next := WithSources(edges, owner, sources);
            && (forall k ::
                  0 <= k < |sources| && owner != "" && sources[k].collection != "" && sources[k].collection != owner ==>
                  Edge(next, owner, sources[k].collection))
            && (forall a, b :: Edge(next, a, b) ==>
                  Edge(edges, a, b) || exists k :: 0 <= k < |sources| && Between(owner, sources[k].collection, a, b))
  {
    hide WithEdge, Proper;
    if sources != [] {
      var n := |sources| - 1;
      SourcesAdded(edges, owner, sources[..n]);
      SourcesKeepProper(edges, owner, sources[..n]);
      EdgeAdded(WithSources(edges, owner, sources[..n]), owner, sources[n].collection);
      assert forall k :: 0 <= k < n ==> sources[..n][k] == sources[k];
    }
  }

  predicate Between(owner: string, source: string, a: string, b: string) {
    owner != "" && source != "" && ((a == owner && b == source) || (a == source && b == owner))
  }

  /** Every model met so far is linked to the owner recorded for its code. */
  predicate OwnersKnown(b: Building, models: seq<Model>) {
    forall i :: 0 <= i < |models| && models[i].collection != "" ==>
      var owner := OwnerOf(b.owners, models[i].code);
      owner != "" && (owner == models[i].collection || Edge(b.edges, owner, models[i].collection))
  }

  predicate SourcesKnown(edges: Edges, models: seq<Model>) {
    forall i, k :: 0 <= i < |models| && 0 <= k < |models[i].sources| ==>
                     SourceKnown(edges, models[i].collection, models[i].sources[k].collection)
  }

  predicate SourceKnown(edges: Edges, owner: string, source: string) {
    owner != "" && source != "" && source != owner ==> Edge(edges, owner, source)
  }

  /** A recorded owner has owned that code. */
  predicate OwnersReal(b: Building, models: seq<Model>) {
    forall code :: code in b.owners && b.owners[code] != "" ==>
      exists i :: 0 <= i < |models| && models[i].code == code && models[i].collection == b.owners[code]
  }

  ghost predicate EdgesReal(edges: Edges, models: seq<Model>) {
    forall a, b :: Edge(edges, a, b) ==> Linked(Elements(models), a, b)
  }

  ghost predicate Sound(b: Building, starts: set<string>, models: seq<Model>) {
    && Proper(b.edges) && b.edges.Keys == NodesOf(starts, Elements(models))
    && OwnersKnown(b, models) && SourcesKnown(b.edges, models) && OwnersReal(b, models) && EdgesReal(b.edges, models)
  }

  lemma MoreModelsLinkMore(models: set<Model>, more: set<Model>, a: string, b: string)
    requires models <= more && Linked(models, a, b)
    ensures Linked(more, a, b)
  {
    if Shares(models, a, b) {
      var code :| SharesCode(models, code, a, b);
      assert SharesCode(more, code, a, b);
    }
  }

  lemma OwnerAdded(b: Building, m: Model)
    requires Proper(b.edges)
    ensures var next := WithOwner(b, m);
            && Proper(next.edges) && Grown(b.edges, next.edges)
            && (m.collection != "" ==> OwnerOf(next.owners, m.code) != "")
            && (OwnerOf(b.owners, m.code) in b.edges || OwnerOf(b.owners, m.code) == "" ==>
                  next.edges.Keys == b.edges.Keys + ({m.collection} - {""}))
            && (m.collection != "" ==>
                  OwnerOf(next.owners, m.code) == m.collection
                  || Edge(next.edges, OwnerOf(next.owners, m.code), m.collection))
            && (forall code :: OwnerOf(b.owners, code) != "" ==> OwnerOf(next.owners, code) == OwnerOf(b.owners, code))
            && (forall code :: code in next.owners && code != m.code ==>
                  code in b.owners && next.owners[code] == b.owners[code])
            && (OwnerOf(b.owners, m.code) == "" ==> m.code in next.owners && next.owners[m.code] == m.collection)
            && (forall x, y :: Edge(next.edges, x, y) ==>
                  Edge(b.edges, x, y)
                  || (OwnerOf(b.owners, m.code) != "" && Between(OwnerOf(b.owners, m.code), m.collection, x, y)))
  {
    hide WithEdge;
    NodeAdded(b.edges, m.collection);
    EdgeAdded(WithNode(b.edges, m.collection), OwnerOf(b.owners, m.code), m.collection);
  }

  ghost predicate NewEdges(edges: Edges, next: Edges, owner: string, m: Model) {
    forall x, y :: Edge(next, x, y) ==>
      Edge(edges, x, y) || (owner != "" && Between(owner, m.collection, x, y))
      || exists k :: 0 <= k < |m.sources| && Between(m.collection, m.sources[k].collection, x, y)
  }

  lemma EdgesStayReal(edges: Edges, next: Edges, owners: map<string, string>, models: seq<Model>, m: Model)
    requires EdgesReal(edges, models) && OwnersReal(Building(edges, owners), models)
    requires NewEdges(edges, next, OwnerOf(owners, m.code), m)
    ensures EdgesReal(next, models + [m])
  {
    var all := Elements(models + [m]);
    var owner := OwnerOf(owners, m.code);
    assert m in all by { assert (models + [m])[|models|] == m; }
    forall x, y | Edge(next, x, y) ensures Linked(all, x, y) {
      if Edge(edges, x, y) {
        assert Elements(models) <= all;
        MoreModelsLinkMore(Elements(models), all, x, y);
      } else if owner != "" && Between(owner, m.collection, x, y) {
        var i :| 0 <= i < |models| && models[i].code == m.code && models[i].collection == owner;
        assert (models + [m])[i] in all;
        assert SharesCode(all, m.code, owner, m.collection) && SharesCode(all, m.code, m.collection, owner);
      } else {
        var k :| 0 <= k < |m.sources| && Between(m.collection, m.sources[k].collection, x, y);
        assert Reads(m, m.sources[k].collection);
        assert Uses(all, m.collection, m.sources[k].collection);
      }
    }
  }

  lemma KnownStays(b: Building, next: Building, models: seq<Model>, m: Model)
    requires OwnersKnown(b, models) && SourcesKnown(b.edges, models) && Grown(b.edges, next.edges)
    requires forall code :: OwnerOf(b.owners, code) != "" ==> OwnerOf(next.owners, code) == OwnerOf(b.owners, code)
    requires OwnersKnown(next, [m]) && SourcesKnown(next.edges, [m])
    ensures OwnersKnown(next, models + [m]) && SourcesKnown(next.edges, models + [m])
  {
    var all := models + [m];
    forall i | 0 <= i < |all|
      ensures all[i] == if i < |models| then models[i] else [m][0]
    {
    }
    forall i, k | 0 <= i < |all| && 0 <= k < |all[i].sources|
      ensures SourceKnown(next.edges, all[i].collection, all[i].sources[k].collection)
    {
      if i < |models| {
        assert SourceKnown(b.edges, models[i].collection, models[i].sources[k].collection);
      } else {
        assert SourceKnown(next.edges, [m][0].collection, [m][0].sources[k].collection);
      }
    }
  }

  lemma RealOwnersStay(b: Building, next: Building, models: seq<Model>, m: Model)
    requires OwnersReal(b, models)
    requires forall code :: code in next.owners && code != m.code ==>
               code in b.owners && next.owners[code] == b.owners[code]
    requires m.code in next.owners ==>
               next.owners[m.code] == m.collection || (m.code in b.owners && next.owners[m.code] == b.owners[m.code])
    ensures OwnersReal(next, models + [m])
  {
    var all := models + [m];
    forall code | code in next.owners && next.owners[code] != ""
      ensures exists i :: 0 <= i < |all| && all[i].code == code && all[i].collection == next.owners[code]
    {
      if code in b.owners && next.owners[code] == b.owners[code] {
        var i :| 0 <= i < |models| && models[i].code == code && models[i].collection == b.owners[code];
        assert all[i] == models[i];
      } else {
        assert all[|models|] == m;
      }
    }
  }

  lemma NodesGrow(starts: set<string>, models: seq<Model>, m: Model)
    ensures NodesOf(starts, Elements(models + [m]))
            == NodesOf(starts, Elements(models)) + ({m.collection} - {""}) + (Named(m.sources) - {""})
  {
    assert Elements(models + [m]) == Elements(models) + {m};
  }

  lemma OwnerIsNode(b: Building, starts: set<string>, models: seq<Model>, code: string)
    requires Sound(b, starts, models)
    ensures OwnerOf(b.owners, code) == "" || OwnerOf(b.owners, code) in b.edges
  {
    if OwnerOf(b.owners, code) != "" {
      var i :| 0 <= i < |models| && models[i].code == code && models[i].collection == b.owners[code];
      assert models[i] in Elements(models);
      assert models[i].collection in Owners(Elements(models));
    }
  }

  lemma SourcesOfModel(edges: Edges, m: Model)
    requires Proper(edges) && (m.collection == "" || m.collection in edges)
    ensures var next := WithSources(edges, m.collection, m.sources);
            && Proper(next) && Grown(edges, next) && SourcesKnown(next, [m])
            && next.Keys == edges.Keys + (Named(m.sources) - {""})
            && (forall a, b :: Edge(next, a, b) ==>
                  Edge(edges, a, b)
                  || exists k :: 0 <= k < |m.sources| && Between(m.collection, m.sources[k].collection, a, b))
  {
    SourcesKeepProper(edges, m.collection, m.sources);
    SourcesAdded(edges, m.collection, m.sources);
    var next := WithSources(edges, m.collection, m.sources);
    forall k | 0 <= k < |m.sources| ensures SourceKnown(next, m.collection, m.sources[k].collection) {}
  }

  lemma ModelAdded(b: Building, starts: set<string>, models: seq<Model>, m: Model)
    requires Sound(b, starts, models)
    ensures Sound(WithModel(b, m), starts, models + [m])
  {
    hide WithOwner, WithSources, NodesOf, EdgesReal, OwnersReal, SourcesKnown;
    var owned, next := WithOwner(b, m), WithModel(b, m);
    OwnerIsNode(b, starts, models, m.code);
    OwnerAdded(b, m);
    SourcesOfModel(owned.edges, m);
    NodesGrow(starts, models, m);
    assert OwnersKnown(next, [m]);
    KnownStays(b, next, models, m);
    RealOwnersStay(b, next, models, m);
    EdgesStayReal(b.edges, next.edges, b.owners, models, m);
  }

  lemma {:induction false} ModelsAdded(starts: set<string>, models: seq<Model>, edges: Edges)
    requires edges == map n | n in starts - {""} :: {}
    ensures Sound(WithModels(Building(edges, map[]), models), starts, models)
  {
    if models == [] {
      assert Elements(models) == {};
    } else {
      var n := |models| - 1;
      ModelsAdded(starts, models[..n], edges);
      ModelAdded(WithModels(Building(edges, map[]), models[..n]), starts, models[..n], models[n]);
      assert models == models[..n] + [models[n]];
    }
  }

  /** Paths along the built edges are exactly paths along the meant links, whatever order the models came in. */
  lemma BuiltConnectsWhatIsLinked(b: Building, starts: set<string>, models: seq<Model>)
    requires Sound(b, starts, models)
    ensures SameConnections(EdgeRelation(b.edges), LinkedBy(Elements(models)))
    ensures Symmetric(EdgeRelation(b.edges))
  {
    var all, built, meant := Elements(models), EdgeRelation(b.edges), LinkedBy(Elements(models));
    forall x, y | built(x, y) ensures Connected(meant, x, y) { ConnectedByEdge(meant, x, y); }
    forall x, y | meant(x, y) ensures Connected(built, x, y) { LinkIsPath(b, starts, models, x, y); }
    forall x, y ensures Connected(built, x, y) <==> Connected(meant, x, y) { SameConnectivity(built, meant, x, y); }
  }

  lemma KnownEdgeConnects(b: Building, x: string, y: string)
    requires Proper(b.edges) && (x == y || Edge(b.edges, x, y))
    ensures Connected(EdgeRelation(b.edges), x, y) && Connected(EdgeRelation(b.edges), y, x)
  {
    if x == y { ConnectedToItself(EdgeRelation(b.edges), x); }
    else {
      ConnectedByEdge(EdgeRelation(b.edges), x, y);
      ConnectedByEdge(EdgeRelation(b.edges), y, x);
    }
  }

  lemma UseIsPath(b: Building, starts: set<string>, models: seq<Model>, x: string, y: string)
    requires Sound(b, starts, models) && x != "" && y != "" && Uses(Elements(models), x, y)
    ensures Connected(EdgeRelation(b.edges), x, y) && Connected(EdgeRelation(b.edges), y, x)
  {
    var m :| m in Elements(models) && m.collection == x && Reads(m, y);
    var i :| 0 <= i < |models| && models[i] == m;
    var k :| 0 <= k < |m.sources| && m.sources[k].collection == y;
    assert SourceKnown(b.edges, models[i].collection, models[i].sources[k].collection);
    KnownEdgeConnects(b, x, y);
  }

  lemma LinkIsPath(b: Building, starts: set<string>, models: seq<Model>, x: string, y: string)
    requires Sound(b, starts, models) && Linked(Elements(models), x, y)
    ensures Connected(EdgeRelation(b.edges), x, y)
  {
    hide Connected;
    if Uses(Elements(models), x, y) {
      UseIsPath(b, starts, models, x, y);
    } else if Uses(Elements(models), y, x) {
      UseIsPath(b, starts, models, y, x);
    } else {
      var code :| SharesCode(Elements(models), code, x, y);
      var m, n :| m in Elements(models) && n in Elements(models) && m.code == code && n.code == code
                  && m.collection == x && n.collection == y;
      var i :| 0 <= i < |models| && models[i] == m;
      var j :| 0 <= j < |models| && models[j] == n;
      var owner := OwnerOf(b.owners, code);
      KnownEdgeConnects(b, owner, x);
      KnownEdgeConnects(b, owner, y);
      ConnectedTransitive(EdgeRelation(b.edges), x, owner, y);
    }
  }

  // ----- the code -----

  class Graph {
    var edges: Edges
    var owners: map<string, string>

    constructor ()
      ensures edges == map[] && owners == map[]
    {
      edges, owners := map[], map[];
    }

    method AddNode(name: string)
      modifies this`edges
      ensures edges == WithNode(old(edges), name)
    {
      if name != "" && name !in edges { edges := edges[name := {}]; }
    }

    method AddEdge(left: string, right: string)
      modifies this`edges
      ensures edges == WithEdge(old(edges), left, right)
    {
      AddNode(left);
      AddNode(right);
      if left != "" && right != "" && left != right {
        edges := edges[left := edges[left] + {right}];
        edges := edges[right := edges[right] + {left}];
      }
    }

    method AddModels(models: seq<Model>)
      modifies this
      ensures Building(edges, owners) == WithModels(Building(old(edges), old(owners)), models)
    {
      hide WithNode, WithEdge;
      ghost var start := Building(edges, owners);
      for n := 0 to |models|
        invariant Building(edges, owners) == WithModels(start, models[..n])
      {
        assert models[..n + 1][..n] == models[..n];
        var model := models[n];
        AddNode(model.collection);
        var existing := OwnerOf(owners, model.code);
        if existing != "" && existing != model.collection {
          AddEdge(existing, model.collection);
        } else {
          owners := owners[model.code := model.collection];
        }
        ghost var owned := Building(edges, owners);
        for k := 0 to |model.sources|
          invariant owners == owned.owners
          invariant edges == WithSources(owned.edges, model.collection, model.sources[..k])
        {
          assert model.sources[..k + 1][..k] == model.sources[..k];
          AddEdge(model.collection, model.sources[k].collection);
        }
        assert model.sources[..|model.sources|] == model.sources;
        assert owned == WithOwner(WithModels(start, models[..n]), model);
      }
      assert models[..|models|] == models;
    }
  }

  predicate NoRepeats(names: seq<string>) {
    forall i, j :: 0 <= i < j < |names| ==> names[i] != names[j]
  }

  method SortDistinct(names: seq<string>) returns (r: seq<string>)
    requires NoRepeats(names)
    ensures StrictlySorted(r) && Elements(r) == Elements(names)
  {
    r := [];
    for n := 0 to |names|
      invariant StrictlySorted(r) && Elements(r) == Elements(names[..n])
    {
      assert names[n] !in r by { assert names[n] !in Elements(names[..n]); }
      r := InsertSorted(r, names[n]);
      assert names[..n + 1] == names[..n] + [names[n]];
    }
    assert names[..|names|] == names;
  }

  /** What breadth-first search has found: the processed prefix is closed, everything found is reachable and new. */
  ghost predicate Searching(edges: Edges, visited: set<string>, name: string, group: seq<string>, queue: seq<string>,
                            seen: set<string>) {
    var found := group + queue;
    && NoRepeats(found) && seen == visited + Elements(found) && Elements(found) !! visited && name in found
    && (forall x :: x in found ==> x in edges && Connected(EdgeRelation(edges), name, x))
    && (forall x, y :: x in group && Edge(edges, x, y) ==> y in seen)
  }

  lemma FoundOne(edges: Edges, visited: set<string>, name: string, group: seq<string>, queue: seq<string>,
                 seen: set<string>,
                 current: string, y: string)
    requires Proper(edges) && Searching(edges, visited, name, group, queue, seen)
    requires current in group + queue && Edge(edges, current, y) && y !in seen
    ensures Searching(edges, visited, name, group, queue + [y], seen + {y})
  {
    var found, next := group + queue, group + (queue + [y]);
    assert next == found + [y];
    assert y !in found by { assert y !in Elements(found); }
    ConnectedByEdge(EdgeRelation(edges), current, y);
    ConnectedTransitive(EdgeRelation(edges), name, current, y);
    assert Elements(next) == Elements(found) + {y};
  }

  /** The neighbours of `current`, in name order: each one not seen before joins the queue. */
  method Visit(edges: Edges, ghost visited: set<string>, ghost name: string, ghost group: seq<string>, current: string,
               queue: seq<string>, seen: set<string>) returns (queue': seq<string>, seen': set<string>)
    requires Proper(edges) && Searching(edges, visited, name, group, [current] + queue, seen)
    ensures Searching(edges, visited, name, group + [current], queue', seen')
    ensures seen <= seen' <= edges.Keys + visited && (seen' == seen ==> queue' == queue)
  {
    hide Connected;
    assert (group + ([current] + queue))[|group|] == current;
    var neighbors := SortNames(edges[current]);
    queue', seen' := queue, seen;
    for n := 0 to |neighbors|
      invariant Searching(edges, visited, name, group, [current] + queue', seen')
      invariant seen <= seen' <= edges.Keys + visited && (seen' == seen ==> queue' == queue)
      invariant forall i :: 0 <= i < n ==> neighbors[i] in seen'
    {
      var y := neighbors[n];
      assert y in Elements(neighbors);
      if y !in seen' {
        assert current in group + ([current] + queue');
        FoundOne(edges, visited, name, group, [current] + queue', seen', current, y);
        assert [current] + queue' + [y] == [current] + (queue' + [y]);
        queue', seen' := queue' + [y], seen' + {y};
      }
    }
    assert group + [current] + queue' == group + ([current] + queue');
    forall y | Edge(edges, current, y) ensures y in seen' { assert y in Elements(neighbors); }
  }

  /** One component: breadth-first search from a name that no earlier group has reached. */
  method Explore(edges: Edges, visited: set<string>, name: string) returns (group: seq<string>)
    requires Proper(edges) && name in edges && name !in visited && ClosedUnder(EdgeRelation(edges), visited)
    ensures group == InOrder(Component(EdgeRelation(edges), edges.Keys, name))
  {
    hide Connected, Searching;
    var seen, queue := visited + {name}, [name];
    group := [];
    StartSearch(edges, visited, name);
    while |queue| > 0
      invariant Searching(edges, visited, name, group, queue, seen)
      decreases edges.Keys + visited - seen, |queue|
    {
      var current := queue[0];
      assert queue == [current] + queue[1..];
      ghost var before := seen;
      queue, seen := Visit(edges, visited, name, group, current, queue[1..], seen);
      group := group + [current];
    }
    SearchEnds(edges, visited, name, group, seen);
    group := SortDistinct(group);
    StrictlySortedUnique(group, InOrder(Component(EdgeRelation(edges), edges.Keys, name)));
  }

  lemma StartSearch(edges: Edges, visited: set<string>, name: string)
    requires name in edges && name !in visited
    ensures Searching(edges, visited, name, [], [name], visited + {name})
  {
    ConnectedToItself(EdgeRelation(edges), name);
    assert [] + [name] == [name] && Elements([name]) == {name};
  }

  lemma SearchEnds(edges: Edges, visited: set<string>, name: string, group: seq<string>, seen: set<string>)
    requires Proper(edges) && ClosedUnder(EdgeRelation(edges), visited)
    requires Searching(edges, visited, name, group, [], seen)
    ensures NoRepeats(group) && Elements(group) == Component(EdgeRelation(edges), edges.Keys, name)
  {
    var rel := EdgeRelation(edges);
    assert group + [] == group;
    assert ClosedUnder(rel, Elements(group)) by {
      forall x, y | x in Elements(group) && rel(x, y) ensures y in Elements(group) {
        assert Edge(edges, x, y) && Edge(edges, y, x) && rel(y, x);
        assert y !in visited;
      }
    }
    forall y | y in edges && Connected(rel, name, y) ensures y in Elements(group) {
      ClosedKeepsConnected(rel, Elements(group), name, y);
    }
  }

  /** The nodes reached from the first `n` names. */
  ghost function ReachedFrom(rel: Relation, nodes: set<string>, names: seq<string>, n: nat): set<string>
    requires n <= |names|
  {
    set y, i | y in nodes && 0 <= i < n && Connected(rel, names[i], y) :: y
  }

  lemma ReachedIsClosed(edges: Edges, names: seq<string>, n: nat)
    requires Proper(edges) && n <= |names|
    ensures ClosedUnder(EdgeRelation(edges), ReachedFrom(EdgeRelation(edges), edges.Keys, names, n))
  {
    var rel := EdgeRelation(edges);
    var reached := ReachedFrom(rel, edges.Keys, names, n);
    forall x, y | x in reached && rel(x, y) ensures y in reached {
      var i :| 0 <= i < n && Connected(rel, names[i], x);
      assert Edge(edges, x, y);
      ConnectedByEdge(rel, x, y);
      ConnectedTransitive(rel, names[i], x, y);
    }
  }

  lemma ReachedGrows(rel: Relation, nodes: set<string>, names: seq<string>, n: nat)
    requires Symmetric(rel) && n < |names| && Elements(names) == nodes
    ensures names[n] in ReachedFrom(rel, nodes, names, n) <==> !Leads(rel, names, n)
    ensures ReachedFrom(rel, nodes, names, n + 1) == ReachedFrom(rel, nodes, names, n) + Component(rel, nodes, names[n])
    ensures !Leads(rel, names, n) ==> ReachedFrom(rel, nodes, names, n + 1) == ReachedFrom(rel, nodes, names, n)
  {
    assert names[n] in Elements(names);
    if !Leads(rel, names, n) {
      var i :| 0 <= i < n && Connected(rel, names[i], names[n]);
      forall y | y in nodes && Connected(rel, names[n], y) ensures Connected(rel, names[i], y) {
        ConnectedTransitive(rel, names[i], names[n], y);
      }
    }
  }

  /** The groups of a graph already built. */
  method ListGroups(edges: Edges) returns (groups: seq<seq<string>>)
    requires Proper(edges) && Symmetric(EdgeRelation(edges))
    ensures groups == Groups(EdgeRelation(edges), edges.Keys)
  {
    hide Connected, Leads, Component, ReachedFrom, Symmetric;
    var names := SortNames(edges.Keys);
    StrictlySortedUnique(names, InOrder(edges.Keys));
    ghost var rel := EdgeRelation(edges);
    var visited: set<string> := {};
    groups := [];
    NothingReached(rel, edges.Keys, names);
    for n := 0 to |names|
      invariant visited == ReachedFrom(rel, edges.Keys, names, n)
      invariant groups == GroupsUpTo(rel, names, n)
    {
      assert names[n] in Elements(names);
      ReachedGrows(rel, edges.Keys, names, n);
      if names[n] in visited { continue; }
      ReachedIsClosed(edges, names, n);
      var group := Explore(edges, visited, names[n]);
      groups := groups + [group];
      visited := visited + Elements(group);
    }
  }

  lemma NothingReached(rel: Relation, nodes: set<string>, names: seq<string>)
    ensures ReachedFrom(rel, nodes, names, 0) == {}
  {
  }

  /**
   * dependencyGroups: exactly the components of the links between collections, as a function of the set of names
   * and the set of models. The order in which maps are iterated cannot be seen in the result.
   */
  method DependencyGroups(starts: set<string>, models: seq<Model>) returns (groups: seq<seq<string>>)
    ensures groups == Groups(LinkedBy(Elements(models)), NodesOf(starts, Elements(models)))
  {
    var graph := new Graph();
    var left := starts;
    while left != {}
      invariant left <= starts && graph.owners == map[] && fresh(graph)
      invariant graph.edges == map n | n in starts - left - {""} :: {}
      decreases left
    {
      var name :| name in left;
      graph.AddNode(name);
      left := left - {name};
    }
    assert starts - {} - {""} == starts - {""};
    ModelsAdded(starts, models, graph.edges);
    graph.AddModels(models);
    ghost var b := Building(graph.edges, graph.owners);
    BuiltConnectsWhatIsLinked(b, starts, models);
    groups := ListGroups(graph.edges);
    GroupsDependOnConnections(EdgeRelation(graph.edges), LinkedBy(Elements(models)), InOrder(graph.edges.Keys),
                              |InOrder(graph.edges.Keys)|);
  }
}
