/** Connected components of a symmetric relation on names, as sorted groups in order of their least names. */
module Components {
  import opened Text

  /** A relation on names; edges are undirected when the relation is symmetric. */
  type Relation = (string, string) -> bool

  ghost predicate Path(rel: Relation, p: seq<string>) {
    p != [] && forall i :: 0 <= i < |p| - 1 ==> rel(p[i], p[i + 1])
  }

  ghost predicate Joins(rel: Relation, p: seq<string>, a: string, b: string) {
    Path(rel, p) && p[0] == a && p[|p| - 1] == b
  }

  ghost predicate Connected(rel: Relation, a: string, b: string) {
    exists p :: Joins(rel, p, a, b)
  }

  ghost predicate Symmetric(rel: Relation) {
    forall a, b :: rel(a, b) ==> rel(b, a)
  }

  ghost predicate ClosedUnder(rel: Relation, s: set<string>) {
    forall a, b :: a in s && rel(a, b) ==> b in s
  }

  lemma ConnectedToItself(rel: Relation, a: string)
    ensures Connected(rel, a, a)
  {
    assert Joins(rel, [a], a, a);
  }

  lemma ConnectedByEdge(rel: Relation, a: string, b: string)
    requires rel(a, b)
    ensures Connected(rel, a, b)
  {
    assert Joins(rel, [a, b], a, b);
  }

  lemma ConnectedTransitive(rel: Relation, a: string, b: string, c: string)
    requires Connected(rel, a, b) && Connected(rel, b, c)
    ensures Connected(rel, a, c)
  {
    var p :| Joins(rel, p, a, b);
    var q :| Joins(rel, q, b, c);
    var r := p + q[1..];
    forall i | 0 <= i < |r| - 1 ensures rel(r[i], r[i + 1]) {
      if i >= |p| - 1 {
        assert r[i] == q[i - |p| + 1] && r[i + 1] == q[i - |p| + 2];
      }
    }
    assert Joins(rel, r, a, c);
  }

  lemma {:induction false} PathBack(rel: Relation, p: seq<string>, a: string, b: string)
    requires Symmetric(rel) && Joins(rel, p, a, b)
    ensures Connected(rel, b, a)
    decreases |p|
  {
    if |p| == 1 {
      ConnectedToItself(rel, a);
    } else {
      assert Joins(rel, p[1..], p[1], b);
      PathBack(rel, p[1..], p[1], b);
      assert rel(p[0], p[1]);
      ConnectedByEdge(rel, p[1], a);
      ConnectedTransitive(rel, b, p[1], a);
    }
  }

  lemma ConnectedSymmetric(rel: Relation, a: string, b: string)
    requires Symmetric(rel) && Connected(rel, a, b)
    ensures Connected(rel, b, a)
  {
    var p :| Joins(rel, p, a, b);
    PathBack(rel, p, a, b);
  }

  lemma {:induction false} PathStays(rel: Relation, s: set<string>, p: seq<string>)
    requires ClosedUnder(rel, s) && Path(rel, p) && p[0] in s
    ensures p[|p| - 1] in s
  {
    if |p| > 1 {
      assert Path(rel, p[..|p| - 1]);
      PathStays(rel, s, p[..|p| - 1]);
      assert rel(p[|p| - 2], p[|p| - 1]);
    }
  }

  /** A set closed under the relation is closed under paths. */
  lemma ClosedKeepsConnected(rel: Relation, s: set<string>, a: string, b: string)
    requires ClosedUnder(rel, s) && a in s && Connected(rel, a, b)
    ensures b in s
  {
    var p :| Joins(rel, p, a, b);
    PathStays(rel, s, p);
  }

  lemma {:induction false} LiftPath(rel: Relation, other: Relation, p: seq<string>)
    requires Path(rel, p) && forall a, b :: rel(a, b) ==> Connected(other, a, b)
    ensures Connected(other, p[0], p[|p| - 1])
  {
    if |p| == 1 {
      ConnectedToItself(other, p[0]);
    } else {
      assert Path(rel, p[..|p| - 1]);
      LiftPath(rel, other, p[..|p| - 1]);
      assert rel(p[|p| - 2], p[|p| - 1]);
      ConnectedTransitive(other, p[0], p[|p| - 2], p[|p| - 1]);
    }
  }

  /** Two relations, each inside the connectivity of the other, have the same connectivity. */
  lemma SameConnectivity(rel: Relation, other: Relation, a: string, b: string)
    requires forall x, y :: rel(x, y) ==> Connected(other, x, y)
    requires forall x, y :: other(x, y) ==> Connected(rel, x, y)
    ensures Connected(rel, a, b) <==> Connected(other, a, b)
  {
    if Connected(rel, a, b) {
      var p :| Joins(rel, p, a, b);
      LiftPath(rel, other, p);
    }
    if Connected(other, a, b) {
      var p :| Joins(other, p, a, b);
      LiftPath(other, rel, p);
    }
  }

  ghost function Component(rel: Relation, nodes: set<string>, x: string): set<string> {
    set y | y in nodes && Connected(rel, x, y)
  }

  /** No earlier name of the listing lies in the component of its `n`th name. */
  ghost predicate Leads(rel: Relation, names: seq<string>, n: nat)
    requires n < |names|
  {
    forall i :: 0 <= i < n ==> !Connected(rel, names[i], names[n])
  }

  /** The groups of the first `n` names: one for each name that leads its component, the group in name order. */
  ghost function GroupsUpTo(rel: Relation, names: seq<string>, n: nat): seq<seq<string>>
    requires n <= |names|
  {
    if n == 0 then []
    else
      var before := GroupsUpTo(rel, names, n - 1);
      if Leads(rel, names, n - 1) then before + [InOrder(Component(rel, Elements(names), names[n - 1]))] else before
  }

  /** The components as the code lists them; a function of the nodes and of connectivity alone. */
  ghost function Groups(rel: Relation, nodes: set<string>): seq<seq<string>> {
    GroupsUpTo(rel, InOrder(nodes), |InOrder(nodes)|)
  }

  ghost predicate SameConnections(rel: Relation, other: Relation) {
    forall a, b :: Connected(rel, a, b) <==> Connected(other, a, b)
  }

  lemma {:induction false} GroupsDependOnConnections(rel: Relation, other: Relation, names: seq<string>, n: nat)
    requires SameConnections(rel, other) && n <= |names|
    ensures GroupsUpTo(rel, names, n) == GroupsUpTo(other, names, n)
  {
    if n > 0 {
      GroupsDependOnConnections(rel, other, names, n - 1);
      assert Component(rel, Elements(names), names[n - 1]) == Component(other, Elements(names), names[n - 1]);
    }
  }

  // ----- what the groups are -----

  lemma {:induction false} EveryGroupIsComponent(rel: Relation, names: seq<string>, n: nat, g: nat) returns (i: nat)
    requires n <= |names| && g < |GroupsUpTo(rel, names, n)|
    ensures i < n && Leads(rel, names, i)
    ensures GroupsUpTo(rel, names, n)[g] == InOrder(Component(rel, Elements(names), names[i]))
    ensures |GroupsUpTo(rel, names, i)| == g
  {
    if g < |GroupsUpTo(rel, names, n - 1)| {
      i := EveryGroupIsComponent(rel, names, n - 1, g);
    } else {
      i := n - 1;
    }
  }

  lemma {:induction false} LeaderHasGroup(rel: Relation, names: seq<string>, n: nat, i: nat) returns (g: nat)
    requires i < n <= |names| && Leads(rel, names, i)
    ensures g < |GroupsUpTo(rel, names, n)|
    ensures GroupsUpTo(rel, names, n)[g] == InOrder(Component(rel, Elements(names), names[i]))
  {
    if i == n - 1 {
      g := |GroupsUpTo(rel, names, n - 1)|;
    } else {
      g := LeaderHasGroup(rel, names, n - 1, i);
    }
  }

  lemma {:induction false} SomeNameLeads(rel: Relation, names: seq<string>, i: nat) returns (l: nat)
    requires Symmetric(rel) && i < |names|
    ensures l <= i && Leads(rel, names, l) && Connected(rel, names[l], names[i])
  {
    if Leads(rel, names, i) {
      ConnectedToItself(rel, names[i]);
      l := i;
    } else {
      var j :| 0 <= j < i && Connected(rel, names[j], names[i]);
      l := SomeNameLeads(rel, names, j);
      ConnectedTransitive(rel, names[l], names[j], names[i]);
    }
  }

  lemma InGroup(rel: Relation, nodes: set<string>, x: string, y: string)
    ensures y in InOrder(Component(rel, nodes, x)) <==> y in nodes && Connected(rel, x, y)
  {
    assert y in InOrder(Component(rel, nodes, x)) <==> y in Elements(InOrder(Component(rel, nodes, x)));
  }

  /** Every node is in a group. */
  lemma GroupsCover(rel: Relation, nodes: set<string>, x: string) returns (g: nat)
    requires Symmetric(rel) && x in nodes
    ensures g < |Groups(rel, nodes)| && x in Groups(rel, nodes)[g]
  {
    var names := InOrder(nodes);
    assert x in Elements(names);
    var i :| 0 <= i < |names| && names[i] == x;
    var l := SomeNameLeads(rel, names, i);
    g := LeaderHasGroup(rel, names, |names|, l);
    InGroup(rel, nodes, names[l], x);
  }

  /**
   * Groups hold nodes only, sorted; two nodes share a group exactly when a path joins them; different groups are
   * disjoint.
   */
  lemma GroupsAreComponents(rel: Relation, nodes: set<string>, g: nat, h: nat, x: string, y: string)
    requires Symmetric(rel) && g < |Groups(rel, nodes)| && h < |Groups(rel, nodes)|
    requires x in Groups(rel, nodes)[g] && y in Groups(rel, nodes)[h]
    ensures x in nodes && y in nodes && StrictlySorted(Groups(rel, nodes)[g])
    ensures Connected(rel, x, y) <==> g == h
  {
    var names := InOrder(nodes);
    var i := EveryGroupIsComponent(rel, names, |names|, g);
    var j := EveryGroupIsComponent(rel, names, |names|, h);
    InGroup(rel, nodes, names[i], x);
    InGroup(rel, nodes, names[j], y);
    if g == h {
      InGroup(rel, nodes, names[i], y);
      ConnectedSymmetric(rel, names[i], x);
      ConnectedTransitive(rel, x, names[i], y);
    }
    if Connected(rel, x, y) {
      ConnectedTransitive(rel, names[i], x, y);
      ConnectedSymmetric(rel, names[j], y);
      ConnectedTransitive(rel, names[i], y, names[j]);
      ConnectedSymmetric(rel, names[i], names[j]);
      assert i == j;
    }
  }

  /** A group is closed: whatever a member is related to, if it is a node, is a member too. */
  lemma GroupsAreClosed(rel: Relation, nodes: set<string>, g: nat, x: string, y: string)
    requires Symmetric(rel) && g < |Groups(rel, nodes)| && x in Groups(rel, nodes)[g] && y in nodes
    requires Connected(rel, x, y)
    ensures y in Groups(rel, nodes)[g]
  {
    var h := GroupsCover(rel, nodes, y);
    GroupsAreComponents(rel, nodes, g, h, x, y);
  }
}
