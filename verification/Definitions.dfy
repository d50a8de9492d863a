/** Pipeline definitions: the DAG, its validation, its descendants and what it computes. */
module Definitions {
  import opened Model

  /** How a node's input is made: from the pipeline input, from one predecessor's output, or from
      two. A mapper that fails, panics or cannot decode its argument yields None. */
  datatype Mapper =
    | FromInput(start: Json -> Option<Json>)
    | FromOne(previous: string, map1: Json -> Option<Json>)
    | FromTwo(first: string, second: string, map2: (Json, Json) -> Option<Json>)

  /** `wired` says that the node was declared with a mapper, a retry policy, and predecessors of
      the same pipeline. */
  datatype NodeDef = NodeDef(
    key: string,
    taskName: string,
    taskVersion: int,
    maxAttempts: int,
    mapper: Mapper,
    wired: bool)

  datatype DefError =
    | EmptyName
    | BadVersion
    | BadNode(key: string)
    | EmptyKey
    | DuplicateKey(key: string)
    | UnknownDependency(key: string, dependency: string)

  function Deps(n: NodeDef): seq<string> {
    match n.mapper
    case FromInput(_) => []
    case FromOne(previous, _) => [previous]
    case FromTwo(first, second, _) => [first, second]
  }

  predicate TaskValid(n: NodeDef) {
    n.wired && n.taskName != "" && n.taskVersion > 0 && n.maxAttempts > 0
  }

  function KeysOf(nodes: seq<NodeDef>): set<string> {
    set i | 0 <= i < |nodes| :: nodes[i].key
  }

  /** Declaration order is a topological order: keys are distinct and non-empty and every
      dependency points back. */
  predicate Topological(nodes: seq<NodeDef>) {
    forall i :: 0 <= i < |nodes| ==> Placed(nodes, i)
  }

  predicate Placed(nodes: seq<NodeDef>, i: nat)
    requires i < |nodes|
  {
    && TaskValid(nodes[i])
    && nodes[i].key != ""
    && nodes[i].key !in KeysOf(nodes[..i])
    && (forall d :: d in Deps(nodes[i]) ==> d in KeysOf(nodes[..i]))
  }

  // ---------------------------------------------------------------------------------------------
  // Validation

  predicate IsSpace(c: char) {
    || '\t' <= c <= '\r' || c == ' ' || c == '\U{85}' || c == '\U{A0}' || c == '\U{1680}'
    || '\U{2000}' <= c <= '\U{200A}' || c == '\U{2028}' || c == '\U{2029}' || c == '\U{202F}'
    || c == '\U{205F}' || c == '\U{3000}'
  }

  function Trim(s: string): string {
    if s != "" && IsSpace(s[0]) then Trim(s[1..])
    else if s != "" && IsSpace(s[|s| - 1]) then Trim(s[..|s| - 1])
    else s
  }

  /** Trimming takes off the spaces at both ends and nothing else. */
  lemma {:induction false} TrimMeans(s: string) returns (i: nat, j: nat)
    ensures i <= j <= |s| && Trim(s) == s[i..j]
    ensures (forall k :: 0 <= k < i ==> IsSpace(s[k])) && (forall k :: j <= k < |s| ==> IsSpace(s[k]))
    ensures i < j ==> !IsSpace(s[i]) && !IsSpace(s[j - 1])
    decreases |s|
  {
    if s != "" && IsSpace(s[0]) {
      i, j := TrimMeans(s[1..]);
      assert s[1..][i..j] == s[i + 1..j + 1];
      assert forall k :: 0 < k < |s| ==> s[k] == s[1..][k - 1];
      i, j := i + 1, j + 1;
    } else if s != "" && IsSpace(s[|s| - 1]) {
      i, j := TrimMeans(s[..|s| - 1]);
      assert s[..|s| - 1][i..j] == s[i..j];
    } else {
      i, j := 0, |s|;
      assert s[0..|s|] == s;
    }
  }

  function Trimmed(n: NodeDef): NodeDef {
    n.(key := Trim(n.key))
  }

  function TrimAll(nodes: seq<NodeDef>): seq<NodeDef> {
    seq(|nodes|, i requires 0 <= i < |nodes| => Trimmed(nodes[i]))
  }

  method FirstUnknown(deps: seq<string>, seen: set<string>) returns (unknown: Option<string>)
    ensures unknown.Some? ==> unknown.value in deps && unknown.value !in seen
    ensures unknown.None? ==> forall d :: d in deps ==> d in seen
  {
    for d := 0 to |deps|
      invariant forall e :: 0 <= e < d ==> deps[e] in seen
    {
      if deps[d] !in seen {
        return Some(deps[d]);
      }
    }
    unknown := None;
  }

  /** What is wrong with a node that follows nodes with the given keys. */
  method PlaceError(node: NodeDef, seen: set<string>) returns (err: Option<DefError>)
    ensures err.None? <==> node.key != "" && node.key !in seen && forall d :: d in Deps(node) ==> d in seen
  {
    if node.key == "" {
      return Some(EmptyKey);
    }
    if node.key in seen {
      return Some(DuplicateKey(node.key));
    }
    var unknown := FirstUnknown(Deps(node), seen);
    err := if unknown.Some? then Some(UnknownDependency(node.key, unknown.value)) else None;
  }

  class Definition {
    const name: string
    const version: int
    var nodes: seq<NodeDef>

    constructor (name: string, version: int, nodes: seq<NodeDef>)
      ensures this.name == name && this.version == version && this.nodes == nodes
    {
      this.name := name;
      this.version := version;
      this.nodes := nodes;
    }

    /** Accepts exactly the definitions whose nodes, with their keys trimmed, are declared in
        topological order. The keys are trimmed in place, also those before a rejected node. */
    method Validate() returns (err: Option<DefError>)
      modifies this`nodes
      ensures err.None? <==> name != "" && version > 0 && Topological(TrimAll(old(nodes)))
      ensures err.None? ==> nodes == TrimAll(old(nodes))
      ensures exists m :: 0 <= m <= |old(nodes)| && PartlyTrimmed(old(nodes), nodes, m)
    {
      NoneTrimmed(nodes);
      if name == "" {
        return Some(EmptyName);
      }
      if version <= 0 {
        return Some(BadVersion);
      }
      err := ValidateNodes();
    }

    method ValidateNodes() returns (err: Option<DefError>)
      modifies this`nodes
      ensures err.None? <==> Topological(TrimAll(old(nodes)))
      ensures err.None? ==> nodes == TrimAll(old(nodes))
      ensures exists m :: 0 <= m <= |old(nodes)| && PartlyTrimmed(old(nodes), nodes, m)
    {
      ghost var was, trimmed := nodes, TrimAll(nodes);
      NoneTrimmed(nodes);
      var seen: set<string> := {};
      for i := 0 to |nodes|
        invariant |nodes| == |was| && PartlyTrimmed(was, nodes, i)
        invariant seen == KeysOf(trimmed[..i])
        invariant forall j :: 0 <= j < i ==> Placed(trimmed, j)
      {
        var node := nodes[i];
        NextTrimmed(was, nodes, i);
        if !TaskValid(node) {
          assert !Placed(trimmed, i);
          return Some(BadNode(node.key));
        }
        node := Trimmed(node);
        nodes := nodes[i := node];
        err := PlaceError(node, seen);
        if err.Some? {
          assert !Placed(trimmed, i);
          return;
        }
        seen := seen + {node.key};
        KeysOfExtend(trimmed, i);
      }
      AllTrimmed(was, nodes);
      err := None;
    }
  }

  /** The keys of the first m nodes have been trimmed. */
  ghost predicate PartlyTrimmed(was: seq<NodeDef>, nodes: seq<NodeDef>, m: nat)
    requires m <= |was|
  {
    nodes == TrimAll(was)[..m] + was[m..]
  }

  lemma NoneTrimmed(nodes: seq<NodeDef>)
    ensures PartlyTrimmed(nodes, nodes, 0)
  {
    assert nodes == TrimAll(nodes)[..0] + nodes[0..];
  }

  lemma NextTrimmed(was: seq<NodeDef>, nodes: seq<NodeDef>, i: nat)
    requires i < |was| && PartlyTrimmed(was, nodes, i)
    ensures nodes[i] == was[i] && PartlyTrimmed(was, nodes[i := Trimmed(nodes[i])], i + 1)
  {
    assert nodes[i := Trimmed(nodes[i])] == TrimAll(was)[..i + 1] + was[i + 1..];
  }

  lemma AllTrimmed(was: seq<NodeDef>, nodes: seq<NodeDef>)
    requires PartlyTrimmed(was, nodes, |was|)
    ensures nodes == TrimAll(was)
  {
  }

  lemma KeysOfExtend(nodes: seq<NodeDef>, i: nat)
    requires i < |nodes|
    ensures KeysOf(nodes[..i + 1]) == KeysOf(nodes[..i]) + {nodes[i].key}
  {
    var more := nodes[..i + 1];
    forall k | k in KeysOf(nodes[..i]) + {nodes[i].key}
      ensures k in KeysOf(more)
    {
      if k == nodes[i].key {
        assert more[i].key == k;
      } else {
        var j :| 0 <= j < i && nodes[..i][j].key == k;
        assert more[j].key == k;
      }
    }
    forall k | k in KeysOf(more)
      ensures k in KeysOf(nodes[..i]) + {nodes[i].key}
    {
      var j :| 0 <= j < i + 1 && more[j].key == k;
      if j < i {
        assert nodes[..i][j].key == k;
      }
    }
  }

  // ---------------------------------------------------------------------------------------------
  // Descendants

  ghost predicate Edge(nodes: seq<NodeDef>, a: string, b: string) {
    exists i :: 0 <= i < |nodes| && nodes[i].key == b && a in Deps(nodes[i])
  }

  ghost predicate IsPath(nodes: seq<NodeDef>, path: seq<string>) {
    |path| >= 2 && forall i :: 0 <= i < |path| - 1 ==> Edge(nodes, path[i], path[i + 1])
  }

  /** Reachable by one or more dependency edges. */
  ghost predicate Reaches(nodes: seq<NodeDef>, a: string, b: string) {
    exists path: seq<string> :: IsPath(nodes, path) && path[0] == a && path[|path| - 1] == b
  }

  lemma ReachesOneMore(nodes: seq<NodeDef>, a: string, b: string, c: string)
    requires a == b || Reaches(nodes, a, b)
    requires Edge(nodes, b, c)
    ensures Reaches(nodes, a, c)
  {
    if a == b {
      assert IsPath(nodes, [b, c]);
    } else {
      var path :| IsPath(nodes, path) && path[0] == a && path[|path| - 1] == b;
      assert IsPath(nodes, path + [c]);
    }
  }

  predicate Touches(n: NodeDef, affected: set<string>) {
    exists d :: d in Deps(n) && d in affected
  }

  /** What one pass over the nodes in declaration order collects. */
  function Descendants(nodes: seq<NodeDef>, root: string): seq<string> {
    if nodes == [] then []
    else
      var before := Descendants(nodes[..|nodes| - 1], root);
      var n := nodes[|nodes| - 1];
      if n.key != root && Touches(n, Members(before) + {root}) then before + [n.key] else before
  }

  function Members(keys: seq<string>): set<string> {
    set k | k in keys
  }

  method DescendantKeys(nodes: seq<NodeDef>, root: string) returns (result: seq<string>, found: bool)
    ensures result == Descendants(nodes, root)
    ensures found <==> root in KeysOf(nodes)
  {
    var affected := {root};
    found := false;
    result := [];
    for i := 0 to |nodes|
      invariant result == Descendants(nodes[..i], root)
      invariant affected == Members(result) + {root}
      invariant found <==> root in KeysOf(nodes[..i])
    {
      var node := nodes[i];
      KeysOfExtend(nodes, i);
      assert nodes[..i + 1][..i] == nodes[..i];
      if node.key == root {
        found := true;
        continue;
      }
      var deps := Deps(node);
      var hit := false;
      var d := 0;
      while d < |deps| && !hit
        invariant 0 <= d <= |deps|
        invariant hit <==> exists e :: 0 <= e < d && deps[e] in affected
      {
        hit := deps[d] in affected;
        d := d + 1;
      }
      assert hit <==> Touches(node, affected);
      if hit {
        affected := affected + {node.key};
        result := result + [node.key];
      }
    }
    assert nodes[..|nodes|] == nodes;
  }

  /** The place of a key in declaration order. */
  function Position(nodes: seq<NodeDef>, k: string): (i: nat)
    requires k in KeysOf(nodes)
    ensures i < |nodes| && nodes[i].key == k
  {
    if nodes[|nodes| - 1].key == k then |nodes| - 1
    else
      assert nodes[..|nodes|] == nodes;
      KeysOfExtend(nodes, |nodes| - 1);
      Position(nodes[..|nodes| - 1], k)
  }

  lemma KeyAt(nodes: seq<NodeDef>, i: nat)
    requires i < |nodes|
    ensures nodes[i].key in KeysOf(nodes)
  {
  }

  lemma DistinctKeys(nodes: seq<NodeDef>)
    requires Topological(nodes)
    ensures forall i, j :: 0 <= i < j < |nodes| ==> nodes[i].key != nodes[j].key
  {
    forall i, j | 0 <= i < j < |nodes|
      ensures nodes[i].key != nodes[j].key
    {
      assert Placed(nodes, j);
      assert nodes[..j][i].key == nodes[i].key;
    }
  }

  lemma PositionUnique(nodes: seq<NodeDef>, i: nat)
    requires Topological(nodes) && i < |nodes|
    ensures nodes[i].key in KeysOf(nodes) && Position(nodes, nodes[i].key) == i
  {
    KeyAt(nodes, i);
    DistinctKeys(nodes);
  }

  lemma EdgeGoesForward(nodes: seq<NodeDef>, a: string, b: string)
    requires Topological(nodes) && Edge(nodes, a, b)
    ensures a in KeysOf(nodes) && b in KeysOf(nodes)
    ensures Position(nodes, a) < Position(nodes, b)
  {
    var i :| 0 <= i < |nodes| && nodes[i].key == b && a in Deps(nodes[i]);
    assert Placed(nodes, i);
    var j :| 0 <= j < i && nodes[..i][j].key == a;
    PositionUnique(nodes, i);
    PositionUnique(nodes, j);
  }

  lemma {:induction false} PathGoesForward(nodes: seq<NodeDef>, path: seq<string>)
    requires Topological(nodes) && IsPath(nodes, path)
    ensures path[0] in KeysOf(nodes) && path[|path| - 1] in KeysOf(nodes)
    ensures Position(nodes, path[0]) < Position(nodes, path[|path| - 1])
  {
    var n := |path|;
    EdgeGoesForward(nodes, path[n - 2], path[n - 1]);
    if n > 2 {
      PathGoesForward(nodes, path[..n - 1]);
    }
  }

  /** A validated definition has no cycles. */
  lemma Acyclic(nodes: seq<NodeDef>, a: string, b: string)
    requires Topological(nodes) && Reaches(nodes, a, b)
    ensures a != b
  {
    var path :| IsPath(nodes, path) && path[0] == a && path[|path| - 1] == b;
    PathGoesForward(nodes, path);
  }

  lemma {:induction false} DescendantsAreKeys(nodes: seq<NodeDef>, root: string, k: string)
    requires k in Descendants(nodes, root)
    ensures k in KeysOf(nodes) && k != root
    decreases |nodes|
  {
    var n := |nodes| - 1;
    KeysOfExtend(nodes, n);
    assert nodes[..|nodes|] == nodes;
    if k in Descendants(nodes[..n], root) {
      DescendantsAreKeys(nodes[..n], root, k);
    }
  }

  lemma {:induction false} DescendantsGrow(nodes: seq<NodeDef>, root: string, i: nat, k: string)
    requires i <= |nodes| && k in Descendants(nodes[..i], root)
    ensures k in Descendants(nodes, root)
    decreases |nodes|
  {
    if i == |nodes| {
      assert nodes[..i] == nodes;
    } else {
      var n := |nodes| - 1;
      assert nodes[..n][..i] == nodes[..i];
      DescendantsGrow(nodes[..n], root, i, k);
    }
  }

  lemma CollectedWhenVisited(nodes: seq<NodeDef>, root: string, a: string, i: nat)
    requires i < |nodes| && nodes[i].key != root && a in Deps(nodes[i])
    requires a == root || a in Descendants(nodes[..i], root)
    ensures nodes[i].key in Descendants(nodes[..i + 1], root)
  {
    assert nodes[..i + 1][..i] == nodes[..i];
    assert a in Members(Descendants(nodes[..i], root)) + {root};
    assert Touches(nodes[i], Members(Descendants(nodes[..i], root)) + {root});
  }

  lemma DescendsOneStep(nodes: seq<NodeDef>, root: string, a: string, b: string)
    requires Topological(nodes) && Edge(nodes, a, b) && b != root
    requires a == root || a in Descendants(nodes, root)
    ensures b in Descendants(nodes, root)
  {
    var i :| 0 <= i < |nodes| && nodes[i].key == b && a in Deps(nodes[i]);
    if a != root {
      assert Placed(nodes, i);
      DescendantsWithin(nodes, root, a, i);
    }
    CollectedWhenVisited(nodes, root, a, i);
    DescendantsGrow(nodes, root, i + 1, b);
  }

  /** A key collected at all is collected when its own node is visited. */
  lemma {:induction false} DescendantsWithin(nodes: seq<NodeDef>, root: string, a: string, i: nat)
    requires Topological(nodes) && i <= |nodes|
    requires a in Descendants(nodes, root) && a in KeysOf(nodes[..i])
    ensures a in Descendants(nodes[..i], root)
    decreases |nodes|
  {
    if i == |nodes| {
      assert nodes[..i] == nodes;
    } else {
      var n := |nodes| - 1;
      TopologicalPrefix(nodes, n);
      assert nodes[..n][..i] == nodes[..i];
      assert Placed(nodes, n);
      KeysGrow(nodes, i, n);
      DescendantsWithin(nodes[..n], root, a, i);
    }
  }

  lemma KeysGrow(nodes: seq<NodeDef>, i: nat, j: nat)
    requires i <= j <= |nodes|
    ensures KeysOf(nodes[..i]) <= KeysOf(nodes[..j])
  {
    forall k | k in KeysOf(nodes[..i])
      ensures k in KeysOf(nodes[..j])
    {
      var m :| 0 <= m < i && nodes[..i][m].key == k;
      assert nodes[..j][m].key == k;
    }
  }

  lemma TopologicalPrefix(nodes: seq<NodeDef>, n: nat)
    requires Topological(nodes) && n <= |nodes|
    ensures Topological(nodes[..n])
  {
    forall i | 0 <= i < n
      ensures Placed(nodes[..n], i)
    {
      assert Placed(nodes, i);
      assert nodes[..n][..i] == nodes[..i];
    }
  }

  lemma {:induction false} PathIsCollected(nodes: seq<NodeDef>, path: seq<string>)
    requires Topological(nodes) && IsPath(nodes, path)
    ensures path[|path| - 1] in Descendants(nodes, path[0])
  {
    var n := |path|;
    PathGoesForward(nodes, path);
    if n > 2 {
      PathIsCollected(nodes, path[..n - 1]);
    }
    DescendsOneStep(nodes, path[0], path[n - 2], path[n - 1]);
  }

  lemma EdgeInPrefix(nodes: seq<NodeDef>, n: nat, a: string, b: string)
    requires n <= |nodes| && Edge(nodes[..n], a, b)
    ensures Edge(nodes, a, b)
  {
    var i :| 0 <= i < n && nodes[..n][i].key == b && a in Deps(nodes[..n][i]);
    assert nodes[i].key == b;
  }

  lemma {:induction false} CollectedIsReached(nodes: seq<NodeDef>, root: string, k: string)
    requires k in Descendants(nodes, root)
    ensures Reaches(nodes, root, k)
    decreases |nodes|
  {
    var n := |nodes| - 1;
    var before := Descendants(nodes[..n], root);
    if k in before {
      CollectedIsReached(nodes[..n], root, k);
      var path :| IsPath(nodes[..n], path) && path[0] == root && path[|path| - 1] == k;
      LongerDefinition(nodes, n, path);
    } else {
      var d :| d in Deps(nodes[n]) && d in Members(before) + {root};
      assert Edge(nodes, d, k);
      if d == root {
        assert IsPath(nodes, [root, k]);
      } else {
        CollectedIsReached(nodes[..n], root, d);
        var path :| IsPath(nodes[..n], path) && path[0] == root && path[|path| - 1] == d;
        LongerDefinition(nodes, n, path);
        assert IsPath(nodes, path + [k]);
      }
    }
  }

  lemma LongerDefinition(nodes: seq<NodeDef>, n: nat, path: seq<string>)
    requires n <= |nodes| && IsPath(nodes[..n], path)
    ensures IsPath(nodes, path)
  {
    forall i | 0 <= i < |path| - 1
      ensures Edge(nodes, path[i], path[i + 1])
    {
      assert Edge(nodes[..n], path[i], path[i + 1]);
      EdgeInPrefix(nodes, n, path[i], path[i + 1]);
    }
  }

  /** One pass in declaration order is the transitive closure: on a validated definition the
      collected keys are exactly those reachable from the root, and the root is not among them. */
  lemma DescendantsAreReachable(nodes: seq<NodeDef>, root: string, k: string)
    requires Topological(nodes)
    ensures k in Descendants(nodes, root) <==> Reaches(nodes, root, k)
    ensures root !in Descendants(nodes, root)
  {
    if k in Descendants(nodes, root) {
      CollectedIsReached(nodes, root, k);
    }
    if Reaches(nodes, root, k) {
      var path :| IsPath(nodes, path) && path[0] == root && path[|path| - 1] == k;
      PathIsCollected(nodes, path);
    }
    if root in Descendants(nodes, root) {
      DescendantsAreKeys(nodes, root, root);
    }
  }

  /** They come in declaration order, so without duplicates. */
  lemma {:induction false} DescendantsInOrder(nodes: seq<NodeDef>, root: string, i: nat, j: nat)
    requires Topological(nodes) && i < j < |Descendants(nodes, root)|
    ensures
      var keys := Descendants(nodes, root);
      && keys[i] in KeysOf(nodes) && keys[j] in KeysOf(nodes)
      && Position(nodes, keys[i]) < Position(nodes, keys[j])
    decreases |nodes|
  {
    var n := |nodes| - 1;
    var keys := Descendants(nodes, root);
    var before := Descendants(nodes[..n], root);
    TopologicalPrefix(nodes, n);
    DescendantsAreKeys(nodes[..n], root, keys[i]);
    PositionInPrefix(nodes, n, keys[i]);
    if j < |before| {
      DescendantsInOrder(nodes[..n], root, i, j);
      PositionInPrefix(nodes, n, keys[j]);
    } else {
      PositionUnique(nodes, n);
    }
  }

  lemma PositionInPrefix(nodes: seq<NodeDef>, n: nat, k: string)
    requires Topological(nodes) && n <= |nodes| && k in KeysOf(nodes[..n])
    ensures k in KeysOf(nodes) && Position(nodes, k) == Position(nodes[..n], k)
  {
    var i := Position(nodes[..n], k);
    assert nodes[i].key == k;
    PositionUnique(nodes, i);
  }

  // ---------------------------------------------------------------------------------------------
  // What a definition computes

  /** A missing output reads as absent. */
  function Lookup(outputs: map<string, Json>, k: string): Json {
    if k in outputs then outputs[k] else ""
  }

  function BuildInput(n: NodeDef, initial: Json, outputs: map<string, Json>): Option<Json> {
    match n.mapper
    case FromInput(start) => start(initial)
    case FromOne(previous, map1) => map1(Lookup(outputs, previous))
    case FromTwo(first, second, map2) => map2(Lookup(outputs, first), Lookup(outputs, second))
  }

  /** The mapper makes this input of the run input and the outputs of the nodes it names, in the order
      it names them. */
  predicate Makes(n: NodeDef, initial: Json, outputs: map<string, Json>, input: Json) {
    match n.mapper
    case FromInput(start) => start(initial) == Some(input)
    case FromOne(previous, map1) => previous in outputs && map1(outputs[previous]) == Some(input)
    case FromTwo(first, second, map2) =>
      first in outputs && second in outputs && map2(outputs[first], outputs[second]) == Some(input)
  }

  /** A node's input depends on the run input and its dependencies' outputs alone, and is what its
      mapper makes of them. */
  lemma InputFromDependencies(n: NodeDef, initial: Json, a: map<string, Json>, b: map<string, Json>)
    requires forall d :: d in Deps(n) ==> d in a && d in b && a[d] == b[d]
    ensures BuildInput(n, initial, a) == BuildInput(n, initial, b)
    ensures BuildInput(n, initial, a).Some? ==> Makes(n, initial, b, BuildInput(n, initial, a).value)
    ensures BuildInput(n, initial, a).None? ==> forall input :: !Makes(n, initial, b, input)
  {
    match n.mapper
    case FromInput(_) =>
    case FromOne(previous, _) => assert previous in Deps(n);
    case FromTwo(first, second, _) => assert first in Deps(n) && second in Deps(n);
  }

  /** Handlers as functions of task key and input. */
  type Handlers = (TaskKey, Json) -> Json

  /** The outputs of the DAG by recursive evaluation. A node with a failing mapper, or with a
      dependency that has no output, has none itself. */
  function Evaluate(nodes: seq<NodeDef>, handlers: Handlers, initial: Json): map<string, Json> {
    if nodes == [] then map[]
    else
      var n := nodes[|nodes| - 1];
      var before := Evaluate(nodes[..|nodes| - 1], handlers, initial);
      if (forall d :: d in Deps(n) ==> d in before) && BuildInput(n, initial, before).Some? then
        before[n.key := handlers(TaskKey(n.taskName, n.taskVersion), BuildInput(n, initial, before).value)]
      else before
  }
}
