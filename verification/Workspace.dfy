/** Workspace dependency graph: validation, cycle detection and start order. */
module Workspace {
  import opened Prelude

  type Port = n: nat | n < 0x1_0000

  datatype Service = Service(dependsOn: seq<string>, port: Port)

  datatype Config = Config(workspace: string, services: IndexMap<Service>)

  datatype ConfigError =
    | EmptyWorkspaceName
    | NoServices
    | UnknownDependency(service: string, dep: string)
    | SelfDependency(service: string)
    | CircularDependencies
    | DuplicatePort(existing: string, service: string, port: Port)

  // ----- The graph ---------------------------------------------------------

  ghost predicate DependsOn(c: Config, u: string, v: string) {
    u in c.services.at && v in c.services.at[u].dependsOn
  }

  /** Every name mentioned by the workspace, as a service or as a dependency. */
  ghost function Nodes(c: Config): set<string> {
    c.services.at.Keys + set u, v | u in c.services.at.Keys && v in c.services.at[u].dependsOn :: v
  }

  ghost predicate IsPath(c: Config, p: seq<string>) {
    |p| > 0 && forall i :: 0 <= i < |p| - 1 ==> DependsOn(c, p[i], p[i + 1])
  }

  ghost predicate IsCycle(c: Config, p: seq<string>) {
    |p| >= 2 && IsPath(c, p) && p[0] == p[|p| - 1]
  }

  ghost predicate HasCycle(c: Config) {
    exists p :: IsCycle(c, p)
  }

  /** Each name in `order` comes after everything it depends on. */
  ghost predicate DependencyFirst(c: Config, order: seq<string>) {
    forall i, v :: 0 <= i < |order| && DependsOn(c, order[i], v) ==> v in order[..i]
  }

  /** A start sequence can be stopped after any number of services without a
      running service missing one of its dependencies. */
  ghost predicate EveryPrefixClosed(c: Config, order: seq<string>) {
    forall k, u, v :: 0 <= k <= |order| && u in order[..k] && DependsOn(c, u, v) ==> v in order[..k]
  }

  lemma DependencyFirstIsPrefixClosed(c: Config, order: seq<string>)
    requires DependencyFirst(c, order)
    ensures EveryPrefixClosed(c, order)
  {
    forall k, u, v | 0 <= k <= |order| && u in order[..k] && DependsOn(c, u, v)
      ensures v in order[..k]
    {
      var i :| 0 <= i < k && order[..k][i] == u;
      assert order[i] == u;
      var j :| 0 <= j < i && order[..i][j] == v;
      assert order[..k][j] == v;
    }
  }

  /** A dependency-first listing that repeats nothing and covers a node on `p` bounds
      how far along `p` one can walk. */
  lemma {:induction false} PathsDescend(c: Config, order: seq<string>, p: seq<string>, i: nat)
    requires DependencyFirst(c, order) && IsPath(c, p)
    requires i < |order| && order[i] == p[0]
    ensures exists j :: 0 <= j <= i && order[j] == p[|p| - 1] && (|p| > 1 ==> j < i)
    decreases |p|
  {
    if |p| > 1 {
      assert DependsOn(c, p[0], p[1]);
      var j :| 0 <= j < i && order[..i][j] == p[1];
      assert order[j] == p[1..][0];
      PathsDescend(c, order, p[1..], j);
    }
  }

  /** A workspace whose names can be listed dependency-first has no cycle. */
  lemma ListedMeansAcyclic(c: Config, order: seq<string>)
    requires DependencyFirst(c, order) && Distinct(order)
    requires c.services.at.Keys <= Elements(order)
    ensures !HasCycle(c)
  {
    forall p | IsCycle(c, p)
      ensures false
    {
      assert DependsOn(c, p[0], p[1]);
      assert p[0] in Elements(order);
      var i :| 0 <= i < |order| && order[i] == p[0];
      PathsDescend(c, order, p, i);
    }
  }

  /** A step from the end of a path back onto the path closes a cycle. */
  lemma BackEdgeClosesCycle(c: Config, stack: seq<string>, dep: string)
    requires IsPath(c, stack) && DependsOn(c, stack[|stack| - 1], dep) && dep in stack
    ensures HasCycle(c)
  {
    var k :| 0 <= k < |stack| && stack[k] == dep;
    var p := stack[k..] + [dep];
    forall i | 0 <= i < |p| - 1
      ensures DependsOn(c, p[i], p[i + 1])
    {
      if i < |p| - 2 {
        assert DependsOn(c, stack[k + i], stack[k + i + 1]);
      }
    }
    assert IsCycle(c, p);
  }

  lemma PathGrows(c: Config, stack: seq<string>, dep: string)
    requires IsPath(c, stack) && DependsOn(c, stack[|stack| - 1], dep)
    ensures IsPath(c, stack + [dep])
  {
    var p := stack + [dep];
    forall i | 0 <= i < |p| - 1
      ensures DependsOn(c, p[i], p[i + 1])
    {
      if i < |p| - 2 {
        assert DependsOn(c, stack[i], stack[i + 1]);
      }
    }
  }

  // ----- Cycle detection ---------------------------------------------------

  /** What the two colour sets mean between calls: `stack` is the path being explored,
      `done` the names already left, in the order they were left. */
  ghost predicate Coloured(c: Config, visited: set<string>, stack: seq<string>, done: seq<string>) {
    && visited == Elements(stack) + Elements(done)
    && Elements(stack) !! Elements(done)
    && visited <= Nodes(c)
    && Distinct(done)
    && (stack != [] ==> IsPath(c, stack))
  }

  method DfsCycle(c: Config, node: string, visited: HashSet<string>, inStack: HashSet<string>,
                  ghost stack: seq<string>, ghost done: seq<string>)
    returns (found: bool, ghost left: seq<string>)
    requires visited != inStack
    requires Coloured(c, visited.elems, stack, done) && DependencyFirst(c, done)
    requires inStack.elems == Elements(stack)
    requires node !in visited.elems && node in Nodes(c) && IsPath(c, stack + [node])
    modifies visited, inStack
    ensures found ==> HasCycle(c)
    ensures !found ==>
              && inStack.elems == old(inStack.elems)
              && Coloured(c, visited.elems, stack, left) && DependencyFirst(c, left)
              && done <= left && node in left
    decreases Nodes(c) - visited.elems
  {
    visited.Insert(node);
    inStack.Insert(node);
    left := done;
    ghost var here := stack + [node];
    assert Elements(here) == Elements(stack) + {node};

    if node in c.services.at {
      var deps := c.services.at[node].dependsOn;
      for i := 0 to |deps|
        invariant Coloured(c, visited.elems, here, left) && DependencyFirst(c, left)
        invariant inStack.elems == Elements(here)
        invariant old(visited.elems) < visited.elems
        invariant done <= left
        invariant forall k :: 0 <= k < i ==> deps[k] in left
      {
        var dep := deps[i];
        assert DependsOn(c, node, dep);
        if !visited.Contains(dep) {
          PathGrows(c, here, dep);
          var hit;
          hit, left := DfsCycle(c, dep, visited, inStack, here, left);
          if hit {
            found := true;
            return;
          }
        } else if inStack.Contains(dep) {
          BackEdgeClosesCycle(c, here, dep);
          found := true;
          return;
        }
      }
    }

    inStack.Remove(node);
    found := false;
    Finish(c, visited.elems, stack, node, left);
    left := left + [node];
  }

  /** Leaving `node` moves it from the path to the end of the finished list. */
  lemma Finish(c: Config, visited: set<string>, stack: seq<string>, node: string, done: seq<string>)
    requires Coloured(c, visited, stack + [node], done) && node !in stack
    ensures Coloured(c, visited, stack, done + [node])
    ensures Elements(stack + [node]) - {node} == Elements(stack)
    ensures DependencyFirst(c, done) && (forall v :: DependsOn(c, node, v) ==> v in done)
            ==> DependencyFirst(c, done + [node])
  {
    var s := stack + [node];
    assert Elements(s) == Elements(stack) + {node};
    assert node in Elements(s);
    assert Elements(done + [node]) == Elements(done) + {node};
    if stack != [] {
      forall i | 0 <= i < |stack| - 1
        ensures DependsOn(c, stack[i], stack[i + 1])
      {
        assert DependsOn(c, s[i], s[i + 1]);
      }
    }
    forall i | 0 <= i < |done + [node]|
      ensures (done + [node])[..i] == done[..i]
    {
    }
    assert (done + [node])[..|done|] == done;
  }

  /** The check the workspace parser runs: true exactly when the dependency graph has a cycle. */
  method HasCircularDeps(c: Config) returns (circular: bool)
    ensures circular <==> HasCycle(c)
  {
    var visited := new HashSet<string>();
    var inStack := new HashSet<string>();
    ghost var done: seq<string> := [];
    var names := c.services.keys;
    for i := 0 to |names|
      invariant Coloured(c, visited.elems, [], done) && DependencyFirst(c, done)
      invariant inStack.elems == {}
      invariant forall k :: 0 <= k < i ==> names[k] in done
    {
      var name := names[i];
      if !visited.Contains(name) {
        assert name in Elements(names);
        assert IsPath(c, [] + [name]);
        var found;
        found, done := DfsCycle(c, name, visited, inStack, [], done);
        if found {
          return true;
        }
      }
    }
    ListedMeansAcyclic(c, done);
    return false;
  }

  // ----- Start order -------------------------------------------------------

  /** Whatever a listed name depends on has been visited. */
  ghost predicate Explored(c: Config, listed: seq<string>, visited: set<string>) {
    forall u, v :: u in listed && DependsOn(c, u, v) ==> v in visited
  }

  method TopoVisit(c: Config, node: string, visited: HashSet<string>, order: Vec<string>,
                   ghost stack: seq<string>)
    requires Coloured(c, visited.elems, stack, order.items)
    requires Explored(c, order.items, visited.elems)
    requires !HasCycle(c) ==> DependencyFirst(c, order.items)
    requires node !in visited.elems && node in Nodes(c) && IsPath(c, stack + [node])
    modifies visited, order
    ensures Coloured(c, visited.elems, stack, order.items)
    ensures Explored(c, order.items, visited.elems)
    ensures !HasCycle(c) ==> DependencyFirst(c, order.items)
    ensures old(order.items) <= order.items && node in order.items
    ensures old(visited.elems) <= visited.elems
    decreases Nodes(c) - visited.elems
  {
    visited.Insert(node);
    ghost var here := stack + [node];
    assert Elements(here) == Elements(stack) + {node};

    if node in c.services.at {
      var deps := c.services.at[node].dependsOn;
      for i := 0 to |deps|
        invariant Coloured(c, visited.elems, here, order.items)
        invariant Explored(c, order.items, visited.elems)
        invariant !HasCycle(c) ==> DependencyFirst(c, order.items)
        invariant old(visited.elems) < visited.elems
        invariant old(order.items) <= order.items
        invariant forall k :: 0 <= k < i ==> deps[k] in visited.elems
        invariant !HasCycle(c) ==> forall k :: 0 <= k < i ==> deps[k] in order.items
      {
        var dep := deps[i];
        assert DependsOn(c, node, dep);
        if !visited.Contains(dep) {
          PathGrows(c, here, dep);
          TopoVisit(c, dep, visited, order, here);
        } else if dep in here {
          BackEdgeClosesCycle(c, here, dep);
        }
      }
    }

    Finish(c, visited.elems, stack, node, order.items);
    order.Push(node);
  }

  /** Lists every name of the workspace once. On an acyclic workspace each name comes
      after its dependencies, so the list can be started front to back and stopped anywhere. */
  method TopologicalOrder(c: Config) returns (names: seq<string>)
    ensures Distinct(names) && Elements(names) == Nodes(c)
    ensures !HasCycle(c) ==> DependencyFirst(c, names) && EveryPrefixClosed(c, names)
  {
    var visited := new HashSet<string>();
    var order := new Vec<string>();
    var keys := c.services.keys;
    for i := 0 to |keys|
      invariant Coloured(c, visited.elems, [], order.items)
      invariant Explored(c, order.items, visited.elems)
      invariant !HasCycle(c) ==> DependencyFirst(c, order.items)
      invariant forall k :: 0 <= k < i ==> keys[k] in order.items
    {
      var name := keys[i];
      if !visited.Contains(name) {
        assert name in Elements(keys);
        assert IsPath(c, [] + [name]);
        TopoVisit(c, name, visited, order, []);
      }
    }
    names := order.items;
    forall n | n in Nodes(c)
      ensures n in Elements(names)
    {
      if n in c.services.at.Keys {
        assert n in Elements(keys);
      } else {
        var u :| u in c.services.at.Keys && n in c.services.at[u].dependsOn;
        assert u in Elements(keys);
        assert DependsOn(c, u, n);
      }
    }
    if !HasCycle(c) {
      DependencyFirstIsPrefixClosed(c, names);
    }
  }

  // ----- Validation --------------------------------------------------------

  ghost predicate DepsKnown(c: Config) {
    forall u, v :: DependsOn(c, u, v) ==> v in c.services.at
  }

  ghost predicate PortsDistinct(c: Config) {
    forall u, v :: u in c.services.at && v in c.services.at && u != v ==>
      c.services.at[u].port != c.services.at[v].port
  }

  /** What an accepted workspace file guarantees. */
  ghost predicate ValidWorkspace(c: Config) {
    c.workspace != "" && c.services.keys != [] && DepsKnown(c) && !HasCycle(c) && PortsDistinct(c)
  }

  /** What a reported error tells the author of the file. */
  ghost predicate Justified(c: Config, e: ConfigError) {
    match e
    case EmptyWorkspaceName => c.workspace == ""
    case NoServices => c.services.keys == []
    case UnknownDependency(s, d) => DependsOn(c, s, d) && d !in c.services.at
    case SelfDependency(s) => DependsOn(c, s, s)
    case CircularDependencies => DepsKnown(c) && HasCycle(c) && (forall u :: !DependsOn(c, u, u))
    case DuplicatePort(a, b, p) =>
      a != b && a in c.services.at && b in c.services.at &&
      c.services.at[a].port == p == c.services.at[b].port
  }

  lemma SelfLoopIsCycle(c: Config, u: string)
    requires DependsOn(c, u, u)
    ensures HasCycle(c)
  {
    assert IsCycle(c, [u, u]);
  }

  method CheckReferences(c: Config) returns (r: Result<(), ConfigError>)
    ensures r.Ok? <==> DepsKnown(c) && forall u :: !DependsOn(c, u, u)
    ensures r.Err? ==> Justified(c, r.error) && (r.error.UnknownDependency? || r.error.SelfDependency?)
  {
    var names := c.services.keys;
    for i := 0 to |names|
      invariant forall k, v :: 0 <= k < i && DependsOn(c, names[k], v) ==> v in c.services.at && v != names[k]
    {
      var name := names[i];
      assert name in Elements(names);
      var deps := c.services.at[name].dependsOn;
      for j := 0 to |deps|
        invariant forall k :: 0 <= k < j ==> deps[k] in c.services.at && deps[k] != name
      {
        var dep := deps[j];
        assert DependsOn(c, name, dep);
        if dep !in c.services.at {
          return Err(UnknownDependency(name, dep));
        }
        if dep == name {
          return Err(SelfDependency(name));
        }
      }
    }
    forall u, v | DependsOn(c, u, v)
      ensures v in c.services.at && v != u
    {
      assert u in Elements(names);
    }
    return Ok(());
  }

  method CheckPorts(c: Config) returns (r: Result<(), ConfigError>)
    ensures r.Ok? <==> PortsDistinct(c)
    ensures r.Err? ==> Justified(c, r.error) && r.error.DuplicatePort?
  {
    var names := c.services.keys;
    var ports: map<Port, string> := map[];
    for i := 0 to |names|
      invariant forall k :: 0 <= k < i ==>
        names[k] in c.services.at && c.services.at[names[k]].port in ports &&
        ports[c.services.at[names[k]].port] == names[k]
      invariant forall p :: p in ports ==>
        ports[p] in names[..i] && ports[p] in c.services.at && c.services.at[ports[p]].port == p
    {
      var name := names[i];
      assert name in Elements(names);
      var port := c.services.at[name].port;
      if port in ports {
        return Err(DuplicatePort(ports[port], name, port));
      }
      ports := ports[port := name];
    }
    forall u, v | u in c.services.at && v in c.services.at && u != v
      ensures c.services.at[u].port != c.services.at[v].port
    {
      assert u in Elements(names) && v in Elements(names);
    }
    return Ok(());
  }

  /** Accepts exactly the valid workspaces, and every rejection names a real fault. */
  method ValidateWorkspace(c: Config) returns (r: Result<(), ConfigError>)
    ensures r.Ok? <==> ValidWorkspace(c)
    ensures r.Err? ==> Justified(c, r.error)
  {
    if c.workspace == "" {
      return Err(EmptyWorkspaceName);
    }
    if |c.services.keys| == 0 {
      return Err(NoServices);
    }
    r := CheckReferences(c);
    if r.Err? {
      if r.error.SelfDependency? {
        SelfLoopIsCycle(c, r.error.service);
      }
      return;
    }
    var circular := HasCircularDeps(c);
    if circular {
      return Err(CircularDependencies);
    }
    r := CheckPorts(c);
  }

  /** For an accepted workspace the start order is a permutation of the services in
      which every prefix is closed under dependencies. */
  method StartOrderOfValidated(c: Config) returns (r: Result<seq<string>, ConfigError>)
    ensures r.Ok? <==> ValidWorkspace(c)
    ensures r.Ok? ==>
              && Distinct(r.value) && Elements(r.value) == Elements(c.services.keys)
              && |r.value| == |c.services.keys|
              && DependencyFirst(c, r.value) && EveryPrefixClosed(c, r.value)
  {
    var v := ValidateWorkspace(c);
    if v.Err? {
      return Err(v.error);
    }
    var names := TopologicalOrder(c);
    assert Nodes(c) == c.services.at.Keys by {
      forall u, v | u in c.services.at.Keys && v in c.services.at[u].dependsOn
        ensures v in c.services.at.Keys
      {
        assert DependsOn(c, u, v);
      }
    }
    SameLength(names, c.services.keys);
    return Ok(names);
  }

  lemma SameLength(a: seq<string>, b: seq<string>)
    requires Distinct(a) && Distinct(b) && Elements(a) == Elements(b)
    ensures |a| == |b|
  {
    DistinctCardinality(a);
    DistinctCardinality(b);
  }

  lemma {:induction false} DistinctCardinality(a: seq<string>)
    requires Distinct(a)
    ensures |Elements(a)| == |a|
  {
    if a == [] {
    } else {
      var n := |a| - 1;
      DistinctCardinality(a[..n]);
      assert Elements(a) == Elements(a[..n]) + {a[n]};
    }
  }
}
