/** Grouping look-alike transactions with a path-compressing union-find (accounting/ledger/duplicates.py). */
module Duplicates {

  // ---------- the forest ----------

  /** Parents lead strictly downhill, so every path upward ends. */
  ghost predicate Forest(parent: map<string, string>, height: string -> nat) {
    forall n :: n in parent && parent[n] != n ==> height(parent[n]) < height(n)
  }

  function ParentOf(parent: map<string, string>, node: string): string {
    if node in parent then parent[node] else node
  }

  /** The representative of a node's group. */
  ghost function Root(parent: map<string, string>, height: string -> nat, node: string): string
    requires Forest(parent, height)
    decreases height(node)
  {
    if ParentOf(parent, node) == node then node else Root(parent, height, ParentOf(parent, node))
  }

  lemma {:induction false} RootIsRoot(parent: map<string, string>, height: string -> nat, node: string)
    requires Forest(parent, height)
    ensures var root := Root(parent, height, node);
      ParentOf(parent, root) == root && height(root) <= height(node) && (root == node || height(root) < height(node))
    decreases height(node)
  {
    if ParentOf(parent, node) != node {
      RootIsRoot(parent, height, ParentOf(parent, node));
    }
  }

  /** Pointing a node straight at its root keeps the forest and everybody's root. */
  lemma {:induction false} CompressKeepsRoots(parent: map<string, string>, height: string -> nat, node: string,
                                              other: string)
    requires Forest(parent, height) && ParentOf(parent, node) != Root(parent, height, node)
    ensures Forest(parent[node := Root(parent, height, node)], height)
    ensures Root(parent[node := Root(parent, height, node)], height, other) == Root(parent, height, other)
    decreases height(other)
  {
    var root := Root(parent, height, node);
    var after := parent[node := root];
    RootIsRoot(parent, height, node);
    if other == node {
      assert Root(after, height, root) == root;
    } else if ParentOf(parent, other) != other {
      CompressKeepsRoots(parent, height, node, ParentOf(parent, other));
    }
  }

  /** Heights once the group of `lower` hangs under `upper`. */
  ghost function Raised(parent: map<string, string>, height: string -> nat, lower: string, upper: string): string -> nat
    requires Forest(parent, height)
  {
    (n: string) => if Root(parent, height, n) == lower then height(n) + height(upper) + 1 else height(n)
  }

  lemma RaisedIsForest(parent: map<string, string>, height: string -> nat, lower: string, upper: string)
    requires Forest(parent, height) && lower != upper
    requires ParentOf(parent, lower) == lower && ParentOf(parent, upper) == upper
    ensures Forest(parent[lower := upper], Raised(parent, height, lower, upper))
  {
  }

  lemma {:induction false} UnionMovesRoots(parent: map<string, string>, height: string -> nat, lower: string,
                                           upper: string, node: string)
    requires Forest(parent, height) && lower != upper
    requires ParentOf(parent, lower) == lower && ParentOf(parent, upper) == upper
    requires Forest(parent[lower := upper], Raised(parent, height, lower, upper))
    ensures Root(parent[lower := upper], Raised(parent, height, lower, upper), node)
         == if Root(parent, height, node) == lower then upper else Root(parent, height, node)
    decreases height(node)
  {
    var after, raised := parent[lower := upper], Raised(parent, height, lower, upper);
    if node == lower {
      assert Root(after, raised, upper) == upper;
    } else if ParentOf(parent, node) != node {
      UnionMovesRoots(parent, height, lower, upper, ParentOf(parent, node));
    }
  }

  class UnionFind {
    var parent: map<string, string>
    ghost var height: string -> nat

    ghost predicate Valid()
      reads this
    {
      Forest(parent, height)
    }

    ghost function RootOf(node: string): string
      reads this
      requires Valid()
    {
      Root(parent, height, node)
    }

    constructor ()
      ensures Valid() && parent == map[]
      ensures forall n :: RootOf(n) == n
    {
      parent := map[];
      height := n => 0;
    }

    /** The representative, flattening the path to it; nobody changes groups. */
    method Find(start: string) returns (root: string)
      requires Valid()
      modifies this`parent
      ensures Valid() && root == old(RootOf(start)) && RootOf(root) == root
      ensures forall n :: RootOf(n) == old(RootOf(n))
      ensures ParentOf(parent, start) == root
    {
      root := start;
      while ParentOf(parent, root) != root
        invariant RootOf(root) == RootOf(start)
        decreases height(root)
      {
        root := parent[root];
      }
      var node := start;
      while ParentOf(parent, node) != root
        invariant Valid() && RootOf(node) == root == old(RootOf(start))
        invariant ParentOf(parent, root) == root
        invariant forall n :: RootOf(n) == old(RootOf(n))
        invariant node == start || ParentOf(parent, start) == root
        decreases height(node)
      {
        RootIsRoot(parent, height, node);
        forall n ensures Forest(parent[node := root], height)
                 ensures Root(parent[node := root], height, n) == Root(parent, height, n) {
          CompressKeepsRoots(parent, height, node, n);
        }
        parent, node := parent[node := root], ParentOf(parent, node);
      }
    }

    /** The first node's whole group takes the second one's representative. */
    method Union(a: string, b: string)
      requires Valid()
      modifies this
      ensures Valid()
      ensures forall n :: RootOf(n) == if old(RootOf(n)) == old(RootOf(a)) then old(RootOf(b)) else old(RootOf(n))
    {
      var rootA := Find(a);
      var rootB := Find(b);
      RootIsRoot(parent, height, a);
      RootIsRoot(parent, height, b);
      if rootA != rootB {
        RaisedIsForest(parent, height, rootA, rootB);
        forall n ensures Root(parent[rootA := rootB], Raised(parent, height, rootA, rootB), n)
          == if Root(parent, height, n) == rootA then rootB else Root(parent, height, n)
        {
          UnionMovesRoots(parent, height, rootA, rootB, n);
        }
        parent, height := parent[rootA := rootB], Raised(parent, height, rootA, rootB);
      }
    }
  }

  // ---------- connected components ----------

  /** Two transactions that look like one event, on one account, and how sure that is. */
  datatype Edge = Edge(account: string, a: string, b: string, certainty: real)

  predicate Touches(edge: Edge, n: string, m: string) {
    (edge.a == n && edge.b == m) || (edge.a == m && edge.b == n)
  }

  predicate Adjacent(edges: seq<Edge>, n: string, m: string) {
    exists k :: 0 <= k < |edges| && Touches(edges[k], n, m)
  }

  /** A chain of look-alikes. */
  predicate Path(edges: seq<Edge>, path: seq<string>) {
    path != [] && forall k :: 0 <= k < |path| - 1 ==> Adjacent(edges, path[k], path[k + 1])
  }

  ghost predicate Connected(edges: seq<Edge>, n: string, m: string) {
    exists path :: Path(edges, path) && path[0] == n && path[|path| - 1] == m
  }

  /** The representative each node has once every edge has been merged in order. */
  function Label(edges: seq<Edge>, n: string): string {
    if edges == [] then n
    else
      var front, edge := edges[..|edges| - 1], edges[|edges| - 1];
      if Label(front, n) == Label(front, edge.a) then Label(front, edge.b) else Label(front, n)
  }

  lemma ConnectedSelf(edges: seq<Edge>, n: string)
    ensures Connected(edges, n, n)
  {
    assert Path(edges, [n]);
  }

  lemma ConnectedThen(edges: seq<Edge>, n: string, m: string, o: string)
    requires Connected(edges, n, m) && Connected(edges, m, o)
    ensures Connected(edges, n, o)
  {
    var p :| Path(edges, p) && p[0] == n && p[|p| - 1] == m;
    var q :| Path(edges, q) && q[0] == m && q[|q| - 1] == o;
    var whole := p + q[1..];
    forall k | 0 <= k < |whole| - 1 ensures Adjacent(edges, whole[k], whole[k + 1]) {
      if k < |p| - 1 {
        assert Adjacent(edges, p[k], p[k + 1]);
      } else {
        assert Adjacent(edges, q[k - |p| + 1], q[k - |p| + 2]);
      }
    }
    assert Path(edges, whole);
  }

  lemma ConnectedMore(edges: seq<Edge>, edge: Edge, n: string, m: string)
    requires Connected(edges, n, m)
    ensures Connected(edges + [edge], n, m)
  {
    var p :| Path(edges, p) && p[0] == n && p[|p| - 1] == m;
    forall k | 0 <= k < |p| - 1 ensures Adjacent(edges + [edge], p[k], p[k + 1]) {
      assert Adjacent(edges, p[k], p[k + 1]);
      var e :| 0 <= e < |edges| && Touches(edges[e], p[k], p[k + 1]);
      assert (edges + [edge])[e] == edges[e];
    }
    assert Path(edges + [edge], p);
  }

  lemma ConnectedByEdge(edges: seq<Edge>, k: nat)
    requires k < |edges|
    ensures Connected(edges, edges[k].a, edges[k].b) && Connected(edges, edges[k].b, edges[k].a)
  {
    var a, b := edges[k].a, edges[k].b;
    assert Touches(edges[k], a, b) && Touches(edges[k], b, a);
    assert Path(edges, [a, b]) && Path(edges, [b, a]);
  }

  /** A node is connected to its label, both ways. */
  lemma {:induction false} LabelIsConnected(edges: seq<Edge>, n: string)
    ensures Connected(edges, n, Label(edges, n)) && Connected(edges, Label(edges, n), n)
  {
    if edges == [] {
      ConnectedSelf(edges, n);
    } else {
      var front, edge := edges[..|edges| - 1], edges[|edges| - 1];
      assert edges == front + [edge];
      LabelIsConnected(front, n);
      ConnectedMore(front, edge, n, Label(front, n));
      ConnectedMore(front, edge, Label(front, n), n);
      if Label(front, n) == Label(front, edge.a) {
        LabelIsConnected(front, edge.a);
        LabelIsConnected(front, edge.b);
        ConnectedMore(front, edge, Label(front, n), edge.a);
        ConnectedMore(front, edge, edge.a, Label(front, n));
        ConnectedMore(front, edge, edge.b, Label(front, edge.b));
        ConnectedMore(front, edge, Label(front, edge.b), edge.b);
        ConnectedByEdge(edges, |edges| - 1);
        ConnectedThen(edges, n, Label(front, n), edge.a);
        ConnectedThen(edges, n, edge.a, edge.b);
        ConnectedThen(edges, n, edge.b, Label(front, edge.b));
        ConnectedThen(edges, Label(front, edge.b), edge.b, edge.a);
        ConnectedThen(edges, Label(front, edge.b), edge.a, Label(front, n));
        ConnectedThen(edges, Label(front, edge.b), Label(front, n), n);
      }
    }
  }

  lemma {:induction false} EdgeSharesLabel(edges: seq<Edge>, k: nat)
    requires k < |edges|
    ensures Label(edges, edges[k].a) == Label(edges, edges[k].b)
  {
    var front := edges[..|edges| - 1];
    if k < |edges| - 1 {
      EdgeSharesLabel(front, k);
    }
  }

  lemma {:induction false} PathSharesLabel(edges: seq<Edge>, path: seq<string>)
    requires Path(edges, path)
    ensures Label(edges, path[0]) == Label(edges, path[|path| - 1])
  {
    if |path| > 1 {
      assert Adjacent(edges, path[0], path[1]);
      var k :| 0 <= k < |edges| && Touches(edges[k], path[0], path[1]);
      EdgeSharesLabel(edges, k);
      forall i | 0 <= i < |path[1..]| - 1 ensures Adjacent(edges, path[1..][i], path[1..][i + 1]) {
        assert Adjacent(edges, path[i + 1], path[i + 2]);
      }
      PathSharesLabel(edges, path[1..]);
    }
  }

  /** Merging edge by edge puts exactly the nodes a chain of look-alikes connects under one representative. */
  lemma LabelsAreComponents(edges: seq<Edge>, n: string, m: string)
    ensures Label(edges, n) == Label(edges, m) <==> Connected(edges, n, m)
  {
    if Connected(edges, n, m) {
      var path :| Path(edges, path) && path[0] == n && path[|path| - 1] == m;
      PathSharesLabel(edges, path);
    }
    if Label(edges, n) == Label(edges, m) {
      LabelIsConnected(edges, n);
      LabelIsConnected(edges, m);
      ConnectedThen(edges, n, Label(edges, n), m);
    }
  }

  // ---------- the groups ----------

  datatype Group = Group(account: string, certainty: real, transactions: set<string>)

  /** The nodes of the edges whose group has this representative. */
  function Members(edges: seq<Edge>, labels: string -> string, root: string): set<string> {
    if edges == [] then {}
    else
      var edge := edges[|edges| - 1];
      Members(edges[..|edges| - 1], labels, root) + if labels(edge.a) == root then {edge.a, edge.b} else {}
  }

  function MinReal(a: real, b: real): real {
    if a <= b then a else b
  }

  predicate IsLeastCertainty(edges: seq<Edge>, labels: string -> string, root: string, c: real) {
    && (exists k :: 0 <= k < |edges| && labels(edges[k].a) == root && edges[k].certainty == c)
    && (forall k :: 0 <= k < |edges| && labels(edges[k].a) == root ==> c <= edges[k].certainty)
  }

  /** The account of the last edge of a group. */
  predicate IsLastAccount(edges: seq<Edge>, labels: string -> string, root: string, account: string) {
    exists k :: 0 <= k < |edges| && labels(edges[k].a) == root && edges[k].account == account
      && forall j :: k < j < |edges| ==> labels(edges[j].a) != root
  }

  predicate GroupOf(edges: seq<Edge>, labels: string -> string, root: string, group: Group) {
    && group.transactions == Members(edges, labels, root)
    && IsLeastCertainty(edges, labels, root, group.certainty)
    && IsLastAccount(edges, labels, root, group.account)
  }

  function Roots(edges: seq<Edge>, labels: string -> string): set<string> {
    set k | 0 <= k < |edges| :: labels(edges[k].a)
  }

  function Labels(edges: seq<Edge>): string -> string {
    (n: string) => Label(edges, n)
  }

  lemma RootsSnoc(edges: seq<Edge>, edge: Edge, labels: string -> string)
    ensures Roots(edges + [edge], labels) == Roots(edges, labels) + {labels(edge.a)}
  {
    var more := edges + [edge];
    forall root | root in Roots(edges, labels) ensures root in Roots(more, labels) {
      var k :| 0 <= k < |edges| && labels(edges[k].a) == root;
      assert more[k] == edges[k];
    }
    assert more[|edges|] == edge;
  }

  lemma GroupSnoc(edges: seq<Edge>, edge: Edge, labels: string -> string, root: string, group: Group)
    requires GroupOf(edges, labels, root, group)
    ensures GroupOf(edges + [edge], labels, root,
              if labels(edge.a) != root then group
              else Group(edge.account, MinReal(edge.certainty, group.certainty), group.transactions + {edge.a, edge.b}))
  {
    var more := edges + [edge];
    assert more[..|edges|] == edges && more[|edges|] == edge;
    assert forall k :: 0 <= k < |edges| ==> more[k] == edges[k];
    var k :| 0 <= k < |edges| && labels(edges[k].a) == root && edges[k].certainty == group.certainty;
    assert more[k].certainty == group.certainty;
    var l :| 0 <= l < |edges| && labels(edges[l].a) == root && edges[l].account == group.account
      && forall j :: l < j < |edges| ==> labels(edges[j].a) != root;
    assert more[l].account == group.account;
  }

  lemma FirstOfGroup(edges: seq<Edge>, edge: Edge, labels: string -> string)
    requires labels(edge.a) !in Roots(edges, labels)
    ensures GroupOf(edges + [edge], labels, labels(edge.a), Group(edge.account, edge.certainty, {edge.a, edge.b}))
  {
    var more := edges + [edge];
    assert more[..|edges|] == edges && more[|edges|] == edge;
    forall k | 0 <= k < |edges| ensures labels(edges[k].a) != labels(edge.a) && more[k] == edges[k] {
      assert labels(edges[k].a) in Roots(edges, labels);
    }
    NoMembers(edges, labels, labels(edge.a));
  }

  lemma {:induction false} NoMembers(edges: seq<Edge>, labels: string -> string, root: string)
    requires forall k :: 0 <= k < |edges| ==> labels(edges[k].a) != root
    ensures Members(edges, labels, root) == {}
  {
    if edges != [] {
      NoMembers(edges[..|edges| - 1], labels, root);
    }
  }

  predicate Grouped(edges: seq<Edge>, labels: string -> string, groups: map<string, Group>) {
    && groups.Keys == Roots(edges, labels)
    && forall root :: root in groups ==> GroupOf(edges, labels, root, groups[root])
  }

  /** The group of an edge's representative, with the edge added. */
  function WithEdge(groups: map<string, Group>, root: string, edge: Edge): map<string, Group> {
    groups[root := if root in groups
                   then Group(edge.account, MinReal(edge.certainty, groups[root].certainty),
                              groups[root].transactions + {edge.a, edge.b})
                   else Group(edge.account, edge.certainty, {edge.a, edge.b})]
  }

  lemma GroupedSnoc(edges: seq<Edge>, edge: Edge, labels: string -> string, groups: map<string, Group>)
    requires Grouped(edges, labels, groups)
    ensures Grouped(edges + [edge], labels, WithEdge(groups, labels(edge.a), edge))
  {
    var next := WithEdge(groups, labels(edge.a), edge);
    RootsSnoc(edges, edge, labels);
    forall root | root in next ensures GroupOf(edges + [edge], labels, root, next[root]) {
      if root in groups {
        GroupSnoc(edges, edge, labels, root, groups[root]);
      } else {
        FirstOfGroup(edges, edge, labels);
      }
    }
  }

  lemma GroupedNext(edges: seq<Edge>, k: nat, labels: string -> string, groups: map<string, Group>)
    requires k < |edges| && Grouped(edges[..k], labels, groups)
    ensures Grouped(edges[..k + 1], labels, WithEdge(groups, labels(edges[k].a), edges[k]))
  {
    GroupedSnoc(edges[..k], edges[k], labels, groups);
    assert edges[..k + 1] == edges[..k] + [edges[k]];
  }

  /** Merge the two ends of every edge. */
  method UnionAll(edges: seq<Edge>) returns (unionFind: UnionFind)
    ensures fresh(unionFind) && unionFind.Valid()
    ensures forall n :: unionFind.RootOf(n) == Label(edges, n)
  {
    unionFind := new UnionFind();
    for k := 0 to |edges|
      invariant fresh(unionFind) && unionFind.Valid()
      invariant forall n :: unionFind.RootOf(n) == Label(edges[..k], n)
    {
      assert edges[..k + 1][..k] == edges[..k] && edges[..k + 1][k] == edges[k];
      unionFind.Union(edges[k].a, edges[k].b);
    }
    assert edges[..|edges|] == edges;
  }

  /** Every edge's group, by representative. */
  method GroupByRoot(edges: seq<Edge>) returns (groups: map<string, Group>)
    ensures Grouped(edges, Labels(edges), groups)
  {
    var unionFind := UnionAll(edges);
    groups := map[];
    ghost var labels := Labels(edges);
    for k := 0 to |edges|
      invariant fresh(unionFind) && unionFind.Valid()
      invariant forall n :: unionFind.RootOf(n) == labels(n)
      invariant Grouped(edges[..k], labels, groups)
    {
      var root := unionFind.Find(edges[k].a);
      GroupedNext(edges, k, labels, groups);
      groups := WithEdge(groups, root, edges[k]);
    }
    assert edges[..|edges|] == edges;
  }

  lemma {:induction false} MembersAre(edges: seq<Edge>, labels: string -> string, root: string, n: string)
    requires forall k :: 0 <= k < |edges| ==> labels(edges[k].a) == labels(edges[k].b)
    ensures n in Members(edges, labels, root)
            <==> labels(n) == root && exists k :: 0 <= k < |edges| && (edges[k].a == n || edges[k].b == n)
  {
    if edges != [] {
      var front, last := edges[..|edges| - 1], |edges| - 1;
      MembersAre(front, labels, root, n);
      assert (exists k :: 0 <= k < |edges| && (edges[k].a == n || edges[k].b == n))
        <==> ((exists k :: 0 <= k < |front| && (front[k].a == n || front[k].b == n))
              || edges[last].a == n || edges[last].b == n);
    }
  }

  /** A node some edge mentions. */
  predicate Mentioned(edges: seq<Edge>, n: string) {
    exists k :: 0 <= k < |edges| && (edges[k].a == n || edges[k].b == n)
  }

  lemma EdgesShareLabels(edges: seq<Edge>)
    ensures forall k :: 0 <= k < |edges| ==> Labels(edges)(edges[k].a) == Labels(edges)(edges[k].b)
  {
    forall k | 0 <= k < |edges| ensures Labels(edges)(edges[k].a) == Labels(edges)(edges[k].b) {
      EdgeSharesLabel(edges, k);
    }
  }

  /**
   * A group is a whole connected component: it holds just the transactions a chain of edges connects to its members.
   */
  lemma GroupsAreComponents(edges: seq<Edge>, groups: map<string, Group>, root: string, n: string, m: string)
    requires Grouped(edges, Labels(edges), groups) && root in groups && n in groups[root].transactions
    ensures m in groups[root].transactions <==> Connected(edges, n, m) && Mentioned(edges, m)
  {
    EdgesShareLabels(edges);
    assert GroupOf(edges, Labels(edges), root, groups[root]);
    MembersAre(edges, Labels(edges), root, n);
    MembersAre(edges, Labels(edges), root, m);
    LabelsAreComponents(edges, n, m);
  }

  /** No transaction is suggested in two groups, and every one an edge mentions is suggested. */
  lemma GroupsPartition(edges: seq<Edge>, groups: map<string, Group>, n: string)
    requires Grouped(edges, Labels(edges), groups)
    ensures forall r :: r in groups ==> (n in groups[r].transactions <==> r == Label(edges, n) && Mentioned(edges, n))
    ensures Mentioned(edges, n) ==> Label(edges, n) in groups
  {
    EdgesShareLabels(edges);
    forall r | r in groups ensures n in groups[r].transactions <==> r == Label(edges, n) && Mentioned(edges, n) {
      assert GroupOf(edges, Labels(edges), r, groups[r]);
      MembersAre(edges, Labels(edges), r, n);
    }
    if Mentioned(edges, n) {
      var k :| 0 <= k < |edges| && (edges[k].a == n || edges[k].b == n);
      assert Labels(edges)(edges[k].a) in Roots(edges, Labels(edges));
    }
  }

  /** An edge joins two different transactions, so a group has at least two. */
  lemma GroupsHaveTwo(edges: seq<Edge>, groups: map<string, Group>, root: string)
    requires Grouped(edges, Labels(edges), groups) && root in groups
    requires forall k :: 0 <= k < |edges| ==> edges[k].a != edges[k].b
    ensures |groups[root].transactions| >= 2
  {
    EdgesShareLabels(edges);
    var labels := Labels(edges);
    assert GroupOf(edges, labels, root, groups[root]);
    var k :| 0 <= k < |edges| && labels(edges[k].a) == root;
    MembersAre(edges, labels, root, edges[k].a);
    MembersAre(edges, labels, root, edges[k].b);
    TwoMembers(groups[root].transactions, edges[k].a, edges[k].b);
  }

  lemma TwoMembers<T>(s: set<T>, a: T, b: T)
    requires a in s && b in s && a != b
    ensures |s| >= 2
  {
    assert {a, b} <= s;
    assert s == {a, b} + (s - {a, b});
  }
}
