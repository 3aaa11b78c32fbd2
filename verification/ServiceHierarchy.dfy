/** The service tree: registration by path, priority order, traversal.

    The nodes live in one growing sequence, a node's index standing for its shared pointer;
    registration inserts into a child list in place and appends the new node. Index order
    is therefore registration order.
  */
module ServiceHierarchy {
  import opened Wrappers
  import opened Text

  datatype ServiceType = RealTime | NonRealTime | Container
  datatype ServiceNode = ServiceNode(name: string, serviceType: ServiceType, priority: nat, enabled: bool)
  datatype TreeNode = TreeNode(data: ServiceNode, children: seq<nat>, parent: Option<nat>)

  const ROOT_DATA := ServiceNode("root", Container, 0, true)

  /** Higher priority first; among equals, the one registered earlier. */
  predicate Before(nodes: seq<TreeNode>, a: nat, b: nat)
    requires a < |nodes| && b < |nodes|
  {
    || nodes[a].data.priority > nodes[b].data.priority
    || (nodes[a].data.priority == nodes[b].data.priority && a < b)
  }

  ghost predicate Children(nodes: seq<TreeNode>, p: nat)
    requires p < |nodes|
  {
    var cs := nodes[p].children;
    && (forall k :: 0 <= k < |cs| ==> p < cs[k] < |nodes| && nodes[cs[k]].parent == Some(p))
    && (forall j, k :: 0 <= j < k < |cs| ==> Before(nodes, cs[j], cs[k]))
  }

  ghost predicate ValidTree(nodes: seq<TreeNode>) {
    && nodes != [] && nodes[0].parent == None
    && (forall p :: 0 <= p < |nodes| ==> Children(nodes, p))
    && (forall i :: 0 < i < |nodes| ==>
          nodes[i].parent.Some? && nodes[i].parent.value < i && i in nodes[nodes[i].parent.value].children)
  }

  // ---------------------------------------------------------------- registration

  /** Where `position(|c| c.priority < priority)` inserts. */
  function InsertAt(nodes: seq<TreeNode>, cs: seq<nat>, priority: nat): (k: nat)
    requires forall i :: 0 <= i < |cs| ==> cs[i] < |nodes|
    ensures k <= |cs|
    ensures forall i :: 0 <= i < k ==> nodes[cs[i]].data.priority >= priority
    ensures k < |cs| ==> nodes[cs[k]].data.priority < priority
  {
    if cs == [] || nodes[cs[0]].data.priority < priority then 0
    else 1 + InsertAt(nodes, cs[1..], priority)
  }

  function Added(nodes: seq<TreeNode>, p: nat, data: ServiceNode): seq<TreeNode>
    requires ValidTree(nodes) && p < |nodes|
  {
    var cs := nodes[p].children;
    assert Children(nodes, p);
    var k := InsertAt(nodes, cs, data.priority);
    nodes[p := nodes[p].(children := cs[..k] + [|nodes|] + cs[k..])] + [TreeNode(data, [], Some(p))]
  }

  /** Every old child stands on the right side of the new one. */
  lemma NewChildFits(nodes: seq<TreeNode>, p: nat, data: ServiceNode, i: nat)
    requires ValidTree(nodes) && p < |nodes| && i < |nodes[p].children|
    ensures Children(nodes, p)
    ensures var k := InsertAt(nodes, nodes[p].children, data.priority);
            var c := nodes[p].children[i];
            if i < k then nodes[c].data.priority >= data.priority else nodes[c].data.priority < data.priority
  {
    assert Children(nodes, p);
    var cs := nodes[p].children;
    var k := InsertAt(nodes, cs, data.priority);
    if i > k {
      assert Before(nodes, cs[k], cs[i]);
    }
  }

  lemma NewListAt(nodes: seq<TreeNode>, p: nat, data: ServiceNode, i: nat)
    requires ValidTree(nodes) && p < |nodes| && i <= |nodes[p].children|
    ensures Children(nodes, p)
    ensures var cs, cs' := nodes[p].children, Added(nodes, p, data)[p].children;
            var k := InsertAt(nodes, cs, data.priority);
            |cs'| == |cs| + 1 && cs'[i] == if i < k then cs[i] else if i == k then |nodes| else cs[i - 1]
  {
    assert Children(nodes, p);
  }

  lemma DataStays(nodes: seq<TreeNode>, p: nat, data: ServiceNode, i: nat)
    requires ValidTree(nodes) && p < |nodes| && i <= |nodes|
    ensures |Added(nodes, p, data)| == |nodes| + 1
    ensures Added(nodes, p, data)[i].data == if i < |nodes| then nodes[i].data else data
  {
  }

  /** The same question about the old list and the new child. */
  lemma PairWasInOrder(nodes: seq<TreeNode>, p: nat, data: ServiceNode, i: nat, j: nat)
    requires ValidTree(nodes) && p < |nodes| && i < j <= |nodes[p].children|
    ensures Children(nodes, p)
    ensures var cs := nodes[p].children; var k := InsertAt(nodes, cs, data.priority);
            if i == k then nodes[cs[j - 1]].data.priority < data.priority
            else if j == k then nodes[cs[i]].data.priority >= data.priority
            else Before(nodes, cs[if i < k then i else i - 1], cs[if j < k then j else j - 1])
  {
    assert Children(nodes, p);
    var k := InsertAt(nodes, nodes[p].children, data.priority);
    if i == k {
      NewChildFits(nodes, p, data, j - 1);
    } else if j == k {
      NewChildFits(nodes, p, data, i);
    }
  }

  lemma PairInOrder(nodes: seq<TreeNode>, p: nat, data: ServiceNode, i: nat, j: nat)
    requires ValidTree(nodes) && p < |nodes| && i < j <= |nodes[p].children|
    ensures var nodes' := Added(nodes, p, data); var cs' := nodes'[p].children;
            j < |cs'| && cs'[i] < |nodes'| && cs'[j] < |nodes'| && Before(nodes', cs'[i], cs'[j])
  {
    NewListAt(nodes, p, data, i);
    NewListAt(nodes, p, data, j);
    PairWasInOrder(nodes, p, data, i, j);
    DataStays(nodes, p, data, Added(nodes, p, data)[p].children[i]);
    DataStays(nodes, p, data, Added(nodes, p, data)[p].children[j]);
  }

  /** The parent's list stays in order around the new child. */
  lemma InsertKeepsOrder(nodes: seq<TreeNode>, p: nat, data: ServiceNode)
    requires ValidTree(nodes) && p < |nodes|
    ensures Children(Added(nodes, p, data), p)
  {
    var nodes' := Added(nodes, p, data);
    var cs' := nodes'[p].children;
    forall i | 0 <= i < |cs'|
      ensures p < cs'[i] < |nodes'| && nodes'[cs'[i]].parent == Some(p)
    {
      NewListAt(nodes, p, data, i);
    }
    forall i, j | 0 <= i < j < |cs'|
      ensures Before(nodes', cs'[i], cs'[j])
    {
      PairInOrder(nodes, p, data, i, j);
    }
  }

  lemma ParentsStayListed(nodes: seq<TreeNode>, p: nat, data: ServiceNode, i: nat)
    requires ValidTree(nodes) && p < |nodes| && 0 < i <= |nodes|
    ensures var nodes' := Added(nodes, p, data);
            nodes'[i].parent.Some? && nodes'[i].parent.value < i && i in nodes'[nodes'[i].parent.value].children
  {
  }

  lemma OthersKeepChildren(nodes: seq<TreeNode>, p: nat, data: ServiceNode, q: nat)
    requires ValidTree(nodes) && p < |nodes| && q <= |nodes| && q != p
    ensures Children(Added(nodes, p, data), q)
  {
    var nodes' := Added(nodes, p, data);
    if q < |nodes| {
      assert Children(nodes, q) && nodes'[q] == nodes[q];
      var cs := nodes[q].children;
      forall j, k | 0 <= j < k < |cs|
        ensures Before(nodes', cs[j], cs[k])
      {
        assert Before(nodes, cs[j], cs[k]);
      }
    }
  }

  /** Adding a child keeps the tree. */
  lemma AddedIsValid(nodes: seq<TreeNode>, p: nat, data: ServiceNode)
    requires ValidTree(nodes) && p < |nodes|
    ensures ValidTree(Added(nodes, p, data))
  {
    var nodes' := Added(nodes, p, data);
    forall q | 0 <= q < |nodes'|
      ensures Children(nodes', q)
    {
      if q == p {
        InsertKeepsOrder(nodes, p, data);
      } else {
        OthersKeepChildren(nodes, p, data, q);
      }
    }
    forall i | 0 < i < |nodes'|
      ensures nodes'[i].parent.Some? && nodes'[i].parent.value < i && i in nodes'[nodes'[i].parent.value].children
    {
      ParentsStayListed(nodes, p, data, i);
    }
  }

  function NonEmpty(parts: seq<string>): seq<string> {
    if parts == [] then []
    else (if parts[0] == "" then [] else [parts[0]]) + NonEmpty(parts[1..])
  }

  /** `find_child`: the first child of this name, in priority order. */
  function ChildNamed(nodes: seq<TreeNode>, cs: seq<nat>, name: string): (c: Option<nat>)
    requires forall i :: 0 <= i < |cs| ==> cs[i] < |nodes|
    ensures c.Some? ==> c.value in cs && nodes[c.value].data.name == name
    ensures c.None? ==> forall i :: 0 <= i < |cs| ==> nodes[cs[i]].data.name != name
  {
    if cs == [] then None
    else if nodes[cs[0]].data.name == name then Some(cs[0])
    else ChildNamed(nodes, cs[1..], name)
  }

  /** A component equal to the current node's own name is skipped. */
  function Resolve(nodes: seq<TreeNode>, current: nat, parts: seq<string>): (r: Option<nat>)
    requires ValidTree(nodes) && current < |nodes|
    ensures r.Some? ==> r.value < |nodes|
    decreases |parts|
  {
    if parts == [] then Some(current)
    else if nodes[current].data.name == parts[0] then Resolve(nodes, current, parts[1..])
    else
      assert Children(nodes, current);
      var c := ChildNamed(nodes, nodes[current].children, parts[0]);
      if c.None? then None else Resolve(nodes, c.value, parts[1..])
  }

  /** `rsplit_once('/')`: everything before the last slash. */
  function ParentPath(path: string): string {
    if path == "" then ""
    else if path[|path| - 1] == '/' then path[..|path| - 1]
    else ParentPath(path[..|path| - 1])
  }

  function ParentOf(nodes: seq<TreeNode>, path: string): (p: Option<nat>)
    requires ValidTree(nodes)
    ensures p.Some? ==> p.value < |nodes|
  {
    if ParentPath(path) == "" then Some(0)
    else Resolve(nodes, 0, NonEmpty(Split(ParentPath(path), "/")))
  }

  /** The last component names nothing: only what comes before the last slash is looked up. */
  lemma LastComponentIsIgnored(nodes: seq<TreeNode>, dir: string, x: string, y: string)
    requires ValidTree(nodes) && '/' !in x && '/' !in y
    ensures ParentOf(nodes, dir + "/" + x) == ParentOf(nodes, dir + "/" + y)
  {
    ParentPathCutsLast(dir, x);
    ParentPathCutsLast(dir, y);
  }

  lemma {:induction false} ParentPathCutsLast(dir: string, x: string)
    requires '/' !in x
    ensures ParentPath(dir + "/" + x) == dir
    decreases |x|
  {
    var path := dir + "/" + x;
    if x == "" {
      assert path[..|path| - 1] == dir;
    } else {
      assert path[|path| - 1] == x[|x| - 1];
      assert path[..|path| - 1] == dir + "/" + x[..|x| - 1];
      ParentPathCutsLast(dir, x[..|x| - 1]);
    }
  }

  /** A path without a slash, or with none but a leading one, has the root as its parent. */
  lemma {:induction false} PlainPathIsBelowRoot(nodes: seq<TreeNode>, x: string)
    requires ValidTree(nodes) && '/' !in x
    ensures ParentPath(x) == "" && ParentOf(nodes, x) == Some(0) && ParentOf(nodes, "/" + x) == Some(0)
    decreases |x|
  {
    ParentPathCutsLast("", x);
    assert "" + "/" + x == "/" + x;
    if x != "" {
      PlainPathIsBelowRoot(nodes, x[..|x| - 1]);
    }
  }

  // ---------------------------------------------------------------- every sequence of registrations

  /** A registration: the tree after it. */
  function Registered(nodes: seq<TreeNode>, path: string, service: ServiceNode): seq<TreeNode>
    requires ValidTree(nodes)
  {
    if ParentOf(nodes, path).Some? then Added(nodes, ParentOf(nodes, path).value, service) else nodes
  }

  lemma RegisteredIsValid(nodes: seq<TreeNode>, path: string, service: ServiceNode)
    requires ValidTree(nodes)
    ensures ValidTree(Registered(nodes, path, service))
  {
    if ParentOf(nodes, path).Some? {
      AddedIsValid(nodes, ParentOf(nodes, path).value, service);
    }
  }

  /** The tree after any sequence of registrations, from the root on: always a valid one. */
  ghost function RegisteredAll(regs: seq<(string, ServiceNode)>): (nodes: seq<TreeNode>)
    ensures ValidTree(nodes)
  {
    if regs == [] then [TreeNode(ROOT_DATA, [], None)]
    else
      var before := RegisteredAll(regs[..|regs| - 1]);
      var (path, service) := regs[|regs| - 1];
      RegisteredIsValid(before, path, service);
      Registered(before, path, service)
  }

  /** The services whose registration succeeded, in order. */
  ghost function Successes(regs: seq<(string, ServiceNode)>): seq<ServiceNode> {
    if regs == [] then []
    else
      var before := regs[..|regs| - 1];
      var (path, service) := regs[|regs| - 1];
      Successes(before) + if ParentOf(RegisteredAll(before), path).Some? then [service] else []
  }

  /** The tree holds the root and exactly the services of the successful registrations, each
      success adding one node and each failure none. */
  lemma {:induction false} NodesAreSuccesses(regs: seq<(string, ServiceNode)>)
    ensures |RegisteredAll(regs)| == 1 + |Successes(regs)| && RegisteredAll(regs)[0].data == ROOT_DATA
    ensures forall i :: 0 <= i < |Successes(regs)| ==> RegisteredAll(regs)[i + 1].data == Successes(regs)[i]
    decreases |regs|
  {
    if regs != [] {
      var before := regs[..|regs| - 1];
      NodesAreSuccesses(before);
      var nodes := RegisteredAll(before);
      var (path, service) := regs[|regs| - 1];
      if ParentOf(nodes, path).Some? {
        forall i | 0 <= i <= |nodes|
          ensures RegisteredAll(regs)[i].data == if i < |nodes| then nodes[i].data else service
        {
          DataStays(nodes, ParentOf(nodes, path).value, service, i);
        }
      }
    }
  }

  lemma RegistrationKeepsNode(nodes: seq<TreeNode>, path: string, service: ServiceNode, i: nat)
    requires ValidTree(nodes) && i < |nodes|
    ensures var nodes' := Registered(nodes, path, service);
            |nodes| <= |nodes'| && nodes'[i].data == nodes[i].data && nodes'[i].parent == nodes[i].parent
  {
  }

  /** Whatever is registered in whatever order, the tree stays valid, children sorted with ties in
      registration order, and a node, once there, keeps its data and its parent. */
  lemma {:induction false} RegistrationsKeepTheTree(regs: seq<(string, ServiceNode)>, k: nat, i: nat)
    requires k <= |regs| && i < |RegisteredAll(regs[..k])|
    ensures ValidTree(RegisteredAll(regs)) && |RegisteredAll(regs[..k])| <= |RegisteredAll(regs)|
    ensures RegisteredAll(regs)[i].data == RegisteredAll(regs[..k])[i].data
    ensures RegisteredAll(regs)[i].parent == RegisteredAll(regs[..k])[i].parent
    decreases |regs|
  {
    if k == |regs| {
      assert regs[..k] == regs;
    } else {
      var before := regs[..|regs| - 1];
      assert before[..k] == regs[..k];
      RegistrationsKeepTheTree(before, k, i);
      RegistrationKeepsNode(RegisteredAll(before), regs[|regs| - 1].0, regs[|regs| - 1].1, i);
    }
  }

  // ---------------------------------------------------------------- finding what was registered

  /** `find`: from the root along the whole path. */
  function Found(nodes: seq<TreeNode>, path: string): Option<nat>
    requires ValidTree(nodes)
  {
    Resolve(nodes, 0, NonEmpty(Split(path, "/")))
  }

  lemma {:induction false} NonEmptyConcat(a: seq<string>, b: seq<string>)
    ensures NonEmpty(a + b) == NonEmpty(a) + NonEmpty(b)
    decreases |a|
  {
    if a == [] {
      assert a + b == b;
    } else {
      assert (a + b)[1..] == a[1..] + b;
      NonEmptyConcat(a[1..], b);
    }
  }

  lemma ComponentsOf(dir: string, name: string)
    ensures NonEmpty(Split(dir + "/" + name, "/")) == NonEmpty(Split(dir, "/")) + NonEmpty(Split(name, "/"))
  {
    SplitAtChar(dir, '/', name);
    NonEmptyConcat(Split(dir, "/"), Split(name, "/"));
  }

  /** A plain name is its own one component. */
  lemma PlainName(name: string)
    requires name != "" && '/' !in name
    ensures NonEmpty(Split(name, "/")) == [name]
  {
    SplitWithout(name, '/');
    assert [name][1..] == [];
  }

  /** No component is empty or has a slash. */
  lemma {:induction false} ComponentsArePlain(parts: seq<string>, c: char)
    requires forall i :: 0 <= i < |parts| ==> c !in parts[i]
    ensures forall part :: part in NonEmpty(parts) ==> part != "" && c !in part
    decreases |parts|
  {
    if parts != [] {
      ComponentsArePlain(parts[1..], c);
    }
  }

  /** A search ends where it began or at a node named by one of its components. */
  lemma {:induction false} ResolvedIsNamed(nodes: seq<TreeNode>, current: nat, parts: seq<string>)
    requires ValidTree(nodes) && current < |nodes| && Resolve(nodes, current, parts).Some?
    ensures var r := Resolve(nodes, current, parts).value; r == current || nodes[r].data.name in parts
    decreases |parts|
  {
    if parts != [] {
      assert Children(nodes, current);
      var next := if nodes[current].data.name == parts[0] then current
                  else ChildNamed(nodes, nodes[current].children, parts[0]).value;
      ResolvedIsNamed(nodes, next, parts[1..]);
    }
  }

  lemma {:induction false} ResolveInTwo(nodes: seq<TreeNode>, current: nat, a: seq<string>, b: seq<string>)
    requires ValidTree(nodes) && current < |nodes|
    requires Resolve(nodes, current, a).Some?
    ensures Resolve(nodes, current, a + b) == Resolve(nodes, Resolve(nodes, current, a).value, b)
    decreases |a|
  {
    if a == [] {
      assert a + b == b;
    } else {
      assert (a + b)[1..] == a[1..] + b;
      assert Children(nodes, current);
      var next := if nodes[current].data.name == a[0] then current
                  else ChildNamed(nodes, nodes[current].children, a[0]).value;
      ResolveInTwo(nodes, next, a[1..], b);
    }
  }

  /** A search never goes up. */
  lemma {:induction false} ResolveGoesDown(nodes: seq<TreeNode>, current: nat, parts: seq<string>)
    requires ValidTree(nodes) && current < |nodes| && Resolve(nodes, current, parts).Some?
    ensures current <= Resolve(nodes, current, parts).value
    decreases |parts|
  {
    if parts != [] {
      assert Children(nodes, current);
      var next := if nodes[current].data.name == parts[0] then current
                  else ChildNamed(nodes, nodes[current].children, parts[0]).value;
      ResolveGoesDown(nodes, next, parts[1..]);
    }
  }

  lemma {:induction false} SameNamesSameChild(nodes: seq<TreeNode>, nodes': seq<TreeNode>, cs: seq<nat>, name: string)
    requires forall i :: 0 <= i < |cs| ==> cs[i] < |nodes| && cs[i] < |nodes'|
    requires forall i :: 0 <= i < |cs| ==> nodes'[cs[i]].data == nodes[cs[i]].data
    ensures ChildNamed(nodes', cs, name) == ChildNamed(nodes, cs, name)
    decreases |cs|
  {
    if cs != [] {
      SameNamesSameChild(nodes, nodes', cs[1..], name);
    }
  }

  /** The way to the parent is not disturbed by its new child. */
  lemma {:induction false} WayToParentStays(nodes: seq<TreeNode>, p: nat, data: ServiceNode, current: nat,
      parts: seq<string>)
    requires ValidTree(nodes) && p < |nodes| && ValidTree(Added(nodes, p, data)) && current < |nodes|
    requires Resolve(nodes, current, parts) == Some(p)
    ensures Resolve(Added(nodes, p, data), current, parts) == Some(p)
    decreases |parts|
  {
    var nodes' := Added(nodes, p, data);
    assert nodes'[current].data == nodes[current].data;
    if parts != [] {
      if nodes[current].data.name == parts[0] {
        WayToParentStays(nodes, p, data, current, parts[1..]);
      } else {
        assert Children(nodes, current);
        var c := ChildNamed(nodes, nodes[current].children, parts[0]).value;
        ResolveGoesDown(nodes, c, parts[1..]);
        assert nodes'[current] == nodes[current];
        SameNamesSameChild(nodes, nodes', nodes[current].children, parts[0]);
        WayToParentStays(nodes, p, data, c, parts[1..]);
      }
    }
  }

  /** A search in a list stops at the first of that name. */
  lemma {:induction false} FirstOfName(nodes: seq<TreeNode>, cs: seq<nat>, name: string, k: nat)
    requires forall i :: 0 <= i < |cs| ==> cs[i] < |nodes|
    requires forall i, j :: 0 <= i < j < |cs| ==> cs[i] != cs[j]
    requires k < |cs| && nodes[cs[k]].data.name == name
    ensures ChildNamed(nodes, cs, name) == Some(cs[k]) <==> forall i :: 0 <= i < k ==> nodes[cs[i]].data.name != name
    decreases |cs|
  {
    if k > 0 {
      if nodes[cs[0]].data.name != name {
        FirstOfName(nodes, cs[1..], name, k - 1);
      }
    }
  }

  /** Some child of p hides a new child of this name: it has the name and is not of lower priority. */
  ghost predicate Hidden(nodes: seq<TreeNode>, p: nat, data: ServiceNode)
    requires ValidTree(nodes) && p < |nodes|
  {
    assert Children(nodes, p);
    exists c :: c in nodes[p].children && nodes[c].data.name == data.name && nodes[c].data.priority >= data.priority
  }

  lemma HiddenIff(nodes: seq<TreeNode>, p: nat, data: ServiceNode)
    requires ValidTree(nodes) && p < |nodes|
    ensures Children(nodes, p)
    ensures var cs := nodes[p].children;
            var k := InsertAt(nodes, cs, data.priority);
            Hidden(nodes, p, data) <==> exists i :: 0 <= i < k && nodes[cs[i]].data.name == data.name
  {
    assert Children(nodes, p);
    forall i | 0 <= i < |nodes[p].children|
      ensures i < InsertAt(nodes, nodes[p].children, data.priority) <==>
          nodes[nodes[p].children[i]].data.priority >= data.priority
    {
      NewChildFits(nodes, p, data, i);
    }
  }

  lemma ChildrenAreDistinct(nodes: seq<TreeNode>, p: nat, i: nat, j: nat)
    requires p < |nodes| && Children(nodes, p) && i < j < |nodes[p].children|
    ensures nodes[p].children[i] != nodes[p].children[j]
  {
    assert Before(nodes, nodes[p].children[i], nodes[p].children[j]);
  }

  lemma NewChildFoundIff(nodes: seq<TreeNode>, p: nat, data: ServiceNode)
    requires ValidTree(nodes) && p < |nodes| && ValidTree(Added(nodes, p, data))
    ensures Children(Added(nodes, p, data), p)
    ensures ChildNamed(Added(nodes, p, data), Added(nodes, p, data)[p].children, data.name) == Some(|nodes|)
       <==> !Hidden(nodes, p, data)
  {
    var nodes' := Added(nodes, p, data);
    var cs' := nodes'[p].children;
    assert Children(nodes', p);
    HiddenIff(nodes, p, data);
    var k := InsertAt(nodes, nodes[p].children, data.priority);
    forall i, j | 0 <= i < j < |cs'|
      ensures cs'[i] != cs'[j]
    {
      ChildrenAreDistinct(nodes', p, i, j);
    }
    NewListAt(nodes, p, data, k);
    FirstOfName(nodes', cs', data.name, k);
    forall i | 0 <= i < k
      ensures nodes'[cs'[i]].data == nodes[nodes[p].children[i]].data
    {
      NewListAt(nodes, p, data, i);
    }
  }

  predicate Plain(name: string) { name != "" && '/' !in name }

  /** A node whose name is no component is never found. */
  lemma OddNameIsNotFound(nodes: seq<TreeNode>, path: string, i: nat)
    requires ValidTree(nodes) && 0 < i < |nodes| && !Plain(nodes[i].data.name)
    ensures Found(nodes, path) != Some(i)
  {
    SplitOnChar(path, '/');
    ComponentsArePlain(Split(path, "/"), '/');
    if Found(nodes, path).Some? {
      ResolvedIsNamed(nodes, 0, NonEmpty(Split(path, "/")));
    }
  }

  lemma PlainNameIsFoundIff(nodes: seq<TreeNode>, path: string, service: ServiceNode)
    requires ValidTree(nodes) && ParentOf(nodes, path).Some? && Plain(service.name)
    requires ValidTree(Registered(nodes, path, service))
    ensures Found(Registered(nodes, path, service), ParentPath(path) + "/" + service.name) == Some(|nodes|)
       <==> && nodes[ParentOf(nodes, path).value].data.name != service.name
            && !Hidden(nodes, ParentOf(nodes, path).value, service)
  {
    var p := ParentOf(nodes, path).value;
    var nodes' := Added(nodes, p, service);
    var parts := NonEmpty(Split(ParentPath(path), "/"));
    ComponentsOf(ParentPath(path), service.name);
    PlainName(service.name);
    if ParentPath(path) == "" {
      assert parts == [];
    }
    WayToParentStays(nodes, p, service, 0, parts);
    ResolveInTwo(nodes', 0, parts, [service.name]);
    NewChildFoundIff(nodes, p, service);
    assert [service.name][1..] == [];
  }

  /** Looking up parent path and name finds the service just registered if and only if its name is
      not empty and has no slash, differs from its parent's, and no sibling of that name has the
      same or a higher priority. */
  lemma RegisteredIsFoundIff(nodes: seq<TreeNode>, path: string, service: ServiceNode)
    requires ValidTree(nodes) && ParentOf(nodes, path).Some?
    ensures ValidTree(Registered(nodes, path, service))
    ensures Found(Registered(nodes, path, service), ParentPath(path) + "/" + service.name) == Some(|nodes|)
       <==> && Plain(service.name)
            && nodes[ParentOf(nodes, path).value].data.name != service.name
            && !Hidden(nodes, ParentOf(nodes, path).value, service)
  {
    RegisteredIsValid(nodes, path, service);
    if Plain(service.name) {
      PlainNameIsFoundIff(nodes, path, service);
    } else {
      DataStays(nodes, ParentOf(nodes, path).value, service, |nodes|);
      OddNameIsNotFound(Registered(nodes, path, service), ParentPath(path) + "/" + service.name, |nodes|);
    }
  }

  /** Registering at the path of a node puts the service below that very node if and only if the path ends in a
      slash or repeats the node's own name. */
  lemma LandsAtPathIff(nodes: seq<TreeNode>, dir: string, x: string)
    requires ValidTree(nodes) && '/' !in x && ParentOf(nodes, dir + "/" + x).Some?
    ensures Found(nodes, dir + "/" + x) == ParentOf(nodes, dir + "/" + x)
       <==> x == "" || nodes[ParentOf(nodes, dir + "/" + x).value].data.name == x
  {
    var p := ParentOf(nodes, dir + "/" + x).value;
    var parts := NonEmpty(Split(dir, "/"));
    ParentPathCutsLast(dir, x);
    ComponentsOf(dir, x);
    if dir == "" {
      assert parts == [];
    }
    ResolveInTwo(nodes, 0, parts, NonEmpty(Split(x, "/")));
    if x != "" {
      PlainName(x);
      assert [x][1..] == [];
      assert Children(nodes, p);
    }
  }

  // ---------------------------------------------------------------- traversal

  /** The visits of a depth-first traversal: nodes with their depths, parents first. */
  ghost function Preorder(nodes: seq<TreeNode>, i: nat, depth: nat): seq<(nat, nat)>
    requires ValidTree(nodes) && i < |nodes|
    decreases |nodes| - i, |nodes[i].children| + 1
  {
    [(i, depth)] + Forest(nodes, i, |nodes[i].children|, depth + 1)
  }

  /** The visits below the first k children of i. */
  ghost function Forest(nodes: seq<TreeNode>, i: nat, k: nat, depth: nat): seq<(nat, nat)>
    requires ValidTree(nodes) && i < |nodes| && k <= |nodes[i].children|
    decreases |nodes| - i, k
  {
    if k == 0 then []
    else
      assert Children(nodes, i);
      Forest(nodes, i, k - 1, depth) + Preorder(nodes, nodes[i].children[k - 1], depth)
  }

  /** j is i or below it, by parent links. */
  ghost predicate Under(nodes: seq<TreeNode>, j: nat, i: nat)
    requires ValidTree(nodes) && j < |nodes|
    decreases j
  {
    j == i || (j > 0 && Under(nodes, nodes[j].parent.value, i))
  }

  /** The number of parent links up to the root. */
  ghost function Depth(nodes: seq<TreeNode>, j: nat): nat
    requires ValidTree(nodes) && j < |nodes|
    decreases j
  {
    if j == 0 then 0 else 1 + Depth(nodes, nodes[j].parent.value)
  }

  ghost function Visits(s: seq<(nat, nat)>, j: nat): nat {
    if s == [] then 0 else (if s[0].0 == j then 1 else 0) + Visits(s[1..], j)
  }

  lemma {:induction false} VisitsConcat(a: seq<(nat, nat)>, b: seq<(nat, nat)>, j: nat)
    ensures Visits(a + b, j) == Visits(a, j) + Visits(b, j)
    decreases |a|
  {
    if a == [] {
      assert a + b == b;
    } else {
      assert (a + b)[1..] == a[1..] + b;
      VisitsConcat(a[1..], b, j);
    }
  }

  lemma {:induction false} UnderIsLater(nodes: seq<TreeNode>, j: nat, i: nat)
    requires ValidTree(nodes) && j < |nodes| && Under(nodes, j, i)
    ensures i <= j
    decreases j
  {
    if j != i {
      UnderIsLater(nodes, nodes[j].parent.value, i);
    }
  }

  lemma {:induction false} AllUnderRoot(nodes: seq<TreeNode>, j: nat)
    requires ValidTree(nodes) && j < |nodes|
    ensures Under(nodes, j, 0)
    decreases j
  {
    if j > 0 {
      AllUnderRoot(nodes, nodes[j].parent.value);
    }
  }

  /** The nodes above j form a chain. */
  lemma {:induction false} UnderIsChain(nodes: seq<TreeNode>, j: nat, a: nat, b: nat)
    requires ValidTree(nodes) && j < |nodes| && Under(nodes, j, a) && Under(nodes, j, b) && a <= b
    ensures b < |nodes| && Under(nodes, b, a)
    decreases j
  {
    UnderIsLater(nodes, j, b);
    if j != b {
      UnderIsChain(nodes, nodes[j].parent.value, a, b);
    }
  }

  /** At most one child of i leads to j. */
  lemma OneWayDown(nodes: seq<TreeNode>, i: nat, j: nat, k: nat, l: nat)
    requires ValidTree(nodes) && i < |nodes| && j < |nodes|
    requires k < l < |nodes[i].children|
    ensures Children(nodes, i)
    ensures !(Under(nodes, j, nodes[i].children[k]) && Under(nodes, j, nodes[i].children[l]))
  {
    assert Children(nodes, i);
    var a, b := nodes[i].children[k], nodes[i].children[l];
    assert Before(nodes, a, b);
    if Under(nodes, j, a) && Under(nodes, j, b) {
      var lo, hi := if a < b then a else b, if a < b then b else a;
      UnderIsChain(nodes, j, lo, hi);
      UnderIsLater(nodes, i, lo);
    }
  }

  /** If j is properly below i, some child of i leads to it. */
  lemma {:induction false} SomeWayDown(nodes: seq<TreeNode>, i: nat, j: nat) returns (k: nat)
    requires ValidTree(nodes) && i < |nodes| && j < |nodes| && j != i && Under(nodes, j, i)
    ensures k < |nodes[i].children| && Under(nodes, j, nodes[i].children[k])
    decreases j
  {
    var p := nodes[j].parent.value;
    if p == i {
      k :| 0 <= k < |nodes[i].children| && nodes[i].children[k] == j;
    } else {
      k := SomeWayDown(nodes, i, p);
      assert Children(nodes, i);
    }
  }

  // ---------------------------------------------------------------- every node once, at its depth

  /** The children among the first k that lead to j. */
  ghost function WaysDown(nodes: seq<TreeNode>, i: nat, j: nat, k: nat): nat
    requires ValidTree(nodes) && i < |nodes| && j < |nodes| && k <= |nodes[i].children|
  {
    if k == 0 then 0
    else WaysDown(nodes, i, j, k - 1) + (if Under(nodes, j, nodes[i].children[k - 1]) then 1 else 0)
  }

  lemma {:induction false} NoWayDown(nodes: seq<TreeNode>, i: nat, j: nat, k: nat)
    requires ValidTree(nodes) && i < |nodes| && j < |nodes| && k <= |nodes[i].children|
    requires forall l :: 0 <= l < k ==> !Under(nodes, j, nodes[i].children[l])
    ensures WaysDown(nodes, i, j, k) == 0
  {
    if k > 0 {
      NoWayDown(nodes, i, j, k - 1);
    }
  }

  lemma {:induction false} ExactlyOneWayDown(nodes: seq<TreeNode>, i: nat, j: nat, l: nat, k: nat)
    requires ValidTree(nodes) && i < |nodes| && j < |nodes|
    requires l < k <= |nodes[i].children| && Under(nodes, j, nodes[i].children[l])
    ensures WaysDown(nodes, i, j, k) == 1
    decreases k
  {
    if k - 1 == l {
      forall m | 0 <= m < l
        ensures !Under(nodes, j, nodes[i].children[m])
      {
        OneWayDown(nodes, i, j, m, l);
      }
      NoWayDown(nodes, i, j, l);
    } else {
      OneWayDown(nodes, i, j, l, k - 1);
      ExactlyOneWayDown(nodes, i, j, l, k - 1);
    }
  }

  lemma WaysDownIsUnder(nodes: seq<TreeNode>, i: nat, j: nat)
    requires ValidTree(nodes) && i < |nodes| && j < |nodes|
    ensures (if i == j then 1 else 0) + WaysDown(nodes, i, j, |nodes[i].children|)
         == if Under(nodes, j, i) then 1 else 0
  {
    var cs := nodes[i].children;
    assert Children(nodes, i);
    if i != j && Under(nodes, j, i) {
      var l := SomeWayDown(nodes, i, j);
      ExactlyOneWayDown(nodes, i, j, l, |cs|);
    } else {
      forall l | 0 <= l < |cs|
        ensures !Under(nodes, j, cs[l])
      {
        if Under(nodes, j, cs[l]) {
          UnderIsLater(nodes, j, cs[l]);
          UnderPassesUp(nodes, j, cs[l]);
        }
      }
      NoWayDown(nodes, i, j, |cs|);
    }
  }

  lemma {:induction false} UnderPassesUp(nodes: seq<TreeNode>, j: nat, c: nat)
    requires ValidTree(nodes) && j < |nodes| && 0 < c < |nodes| && Under(nodes, j, c)
    ensures Under(nodes, j, nodes[c].parent.value)
    decreases j
  {
    if j != c {
      UnderPassesUp(nodes, nodes[j].parent.value, c);
    }
  }

  lemma {:induction false} PreorderCounts(nodes: seq<TreeNode>, i: nat, depth: nat, j: nat)
    requires ValidTree(nodes) && i < |nodes| && j < |nodes|
    ensures Visits(Preorder(nodes, i, depth), j) == if Under(nodes, j, i) then 1 else 0
    decreases |nodes| - i, |nodes[i].children| + 1
  {
    var k := |nodes[i].children|;
    VisitsConcat([(i, depth)], Forest(nodes, i, k, depth + 1), j);
    ForestCounts(nodes, i, k, depth + 1, j);
    WaysDownIsUnder(nodes, i, j);
  }

  lemma {:induction false} ForestCounts(nodes: seq<TreeNode>, i: nat, k: nat, depth: nat, j: nat)
    requires ValidTree(nodes) && i < |nodes| && j < |nodes| && k <= |nodes[i].children|
    ensures Visits(Forest(nodes, i, k, depth), j) == WaysDown(nodes, i, j, k)
    decreases |nodes| - i, k
  {
    if k > 0 {
      assert Children(nodes, i);
      var c := nodes[i].children[k - 1];
      ForestCounts(nodes, i, k - 1, depth, j);
      PreorderCounts(nodes, c, depth, j);
      VisitsConcat(Forest(nodes, i, k - 1, depth), Preorder(nodes, c, depth), j);
    }
  }

  ghost predicate AtDepths(nodes: seq<TreeNode>, visits: seq<(nat, nat)>, shift: int)
    requires ValidTree(nodes)
  {
    forall v :: v in visits ==> v.0 < |nodes| && v.1 == Depth(nodes, v.0) + shift
  }

  lemma {:induction false} PreorderDepths(nodes: seq<TreeNode>, i: nat, depth: nat)
    requires ValidTree(nodes) && i < |nodes|
    ensures AtDepths(nodes, Preorder(nodes, i, depth), depth - Depth(nodes, i))
    decreases |nodes| - i, |nodes[i].children| + 1
  {
    ForestDepths(nodes, i, |nodes[i].children|, depth + 1);
  }

  lemma {:induction false} ForestDepths(nodes: seq<TreeNode>, i: nat, k: nat, depth: nat)
    requires ValidTree(nodes) && i < |nodes| && k <= |nodes[i].children|
    ensures AtDepths(nodes, Forest(nodes, i, k, depth), depth - Depth(nodes, i) - 1)
    decreases |nodes| - i, k
  {
    if k > 0 {
      assert Children(nodes, i);
      var c := nodes[i].children[k - 1];
      ForestDepths(nodes, i, k - 1, depth);
      PreorderDepths(nodes, c, depth);
      assert Depth(nodes, c) == Depth(nodes, i) + 1;
    }
  }

  /** A traversal from the root visits every node exactly once, at its depth. */
  lemma TraversalVisitsOnceAtDepth(nodes: seq<TreeNode>, j: nat)
    requires ValidTree(nodes) && j < |nodes|
    ensures Visits(Preorder(nodes, 0, 0), j) == 1
    ensures AtDepths(nodes, Preorder(nodes, 0, 0), 0)
  {
    PreorderCounts(nodes, 0, 0, j);
    AllUnderRoot(nodes, j);
    PreorderDepths(nodes, 0, 0);
  }

  // ---------------------------------------------------------------- in order

  /** a comes before b: it is above it, or leads down through an earlier child of the same node. */
  ghost predicate Earlier(nodes: seq<TreeNode>, a: nat, b: nat)
    requires ValidTree(nodes)
  {
    && a < |nodes| && b < |nodes|
    && ((a != b && Under(nodes, b, a)) || exists i: nat, k: nat, l: nat :: ThroughChildren(nodes, a, b, i, k, l))
  }

  ghost predicate ThroughChildren(nodes: seq<TreeNode>, a: nat, b: nat, i: nat, k: nat, l: nat)
    requires ValidTree(nodes) && a < |nodes| && b < |nodes|
  {
    && i < |nodes| && k < l < |nodes[i].children|
    && Under(nodes, a, nodes[i].children[k]) && Under(nodes, b, nodes[i].children[l])
  }

  ghost predicate InOrder(nodes: seq<TreeNode>, visits: seq<(nat, nat)>)
    requires ValidTree(nodes)
  {
    forall x, y :: 0 <= x < y < |visits| ==> Earlier(nodes, visits[x].0, visits[y].0)
  }

  ghost predicate AllUnder(nodes: seq<TreeNode>, visits: seq<(nat, nat)>, i: nat)
    requires ValidTree(nodes)
  {
    forall v :: v in visits ==> v.0 < |nodes| && Under(nodes, v.0, i)
  }

  /** A visit below the first k children leads through one of them. */
  ghost predicate AllThrough(nodes: seq<TreeNode>, visits: seq<(nat, nat)>, i: nat, k: nat)
    requires ValidTree(nodes) && i < |nodes| && k <= |nodes[i].children|
  {
    forall v :: v in visits ==> v.0 < |nodes| && exists l :: 0 <= l < k && Under(nodes, v.0, nodes[i].children[l])
  }

  lemma {:induction false} PreorderInOrder(nodes: seq<TreeNode>, i: nat, depth: nat)
    requires ValidTree(nodes) && i < |nodes|
    ensures InOrder(nodes, Preorder(nodes, i, depth)) && AllUnder(nodes, Preorder(nodes, i, depth), i)
    decreases |nodes| - i, |nodes[i].children| + 1
  {
    var k := |nodes[i].children|;
    var below := Forest(nodes, i, k, depth + 1);
    ForestInOrder(nodes, i, k, depth + 1);
    assert Children(nodes, i);
    forall v | v in below
      ensures v.0 < |nodes| && v.0 != i && Under(nodes, v.0, i)
    {
      var l :| 0 <= l < k && Under(nodes, v.0, nodes[i].children[l]);
      UnderIsLater(nodes, v.0, nodes[i].children[l]);
      UnderPassesUp(nodes, v.0, nodes[i].children[l]);
    }
  }

  lemma {:induction false} ForestInOrder(nodes: seq<TreeNode>, i: nat, k: nat, depth: nat)
    requires ValidTree(nodes) && i < |nodes| && k <= |nodes[i].children|
    ensures InOrder(nodes, Forest(nodes, i, k, depth)) && AllThrough(nodes, Forest(nodes, i, k, depth), i, k)
    decreases |nodes| - i, k
  {
    if k > 0 {
      var c := nodes[i].children[k - 1];
      assert i < c < |nodes| by {
        assert Children(nodes, i);
      }
      ForestInOrder(nodes, i, k - 1, depth);
      PreorderInOrder(nodes, c, depth);
      NextChildInOrder(nodes, i, k - 1, Forest(nodes, i, k - 1, depth), Preorder(nodes, c, depth));
    }
  }

  lemma NextChildInOrder(nodes: seq<TreeNode>, i: nat, k: nat, a: seq<(nat, nat)>, b: seq<(nat, nat)>)
    requires ValidTree(nodes) && i < |nodes| && k < |nodes[i].children|
    requires InOrder(nodes, a) && InOrder(nodes, b)
    requires AllThrough(nodes, a, i, k) && AllUnder(nodes, b, nodes[i].children[k])
    ensures InOrder(nodes, a + b) && AllThrough(nodes, a + b, i, k + 1)
  {
    forall x, y | 0 <= x < |a| && 0 <= y < |b|
      ensures Earlier(nodes, a[x].0, b[y].0)
    {
      assert a[x] in a && b[y] in b;
      var l :| 0 <= l < k && Under(nodes, a[x].0, nodes[i].children[l]);
      assert ThroughChildren(nodes, a[x].0, b[y].0, i, l, k);
    }
    assert forall x :: 0 <= x < |b| ==> (a + b)[|a| + x] == b[x];
    assert forall v :: v in a + b ==> v in a || v in b;
  }

  /** A traversal visits a node before everything below it, and everything below a child before everything below
      a later sibling, so by falling priority and, at the same one, by time of registration. */
  lemma TraversalIsInOrder(nodes: seq<TreeNode>, x: nat, y: nat)
    requires ValidTree(nodes) && x < y < |Preorder(nodes, 0, 0)|
    ensures Earlier(nodes, Preorder(nodes, 0, 0)[x].0, Preorder(nodes, 0, 0)[y].0)
  {
    PreorderInOrder(nodes, 0, 0);
  }

  // ---------------------------------------------------------------- selections

  /** The visited nodes that satisfy p, in visiting order. */
  ghost function Selected(nodes: seq<TreeNode>, visits: seq<(nat, nat)>, p: TreeNode -> bool): seq<ServiceNode> {
    if visits == [] then []
    else
      var i := visits[0].0;
      (if i < |nodes| && p(nodes[i]) then [nodes[i].data] else []) + Selected(nodes, visits[1..], p)
  }

  lemma {:induction false} SelectedConcat(nodes: seq<TreeNode>, a: seq<(nat, nat)>, b: seq<(nat, nat)>,
      p: TreeNode -> bool)
    ensures Selected(nodes, a + b, p) == Selected(nodes, a, p) + Selected(nodes, b, p)
    decreases |a|
  {
    if a == [] {
      assert a + b == b;
    } else {
      assert (a + b)[1..] == a[1..] + b;
      SelectedConcat(nodes, a[1..], b, p);
    }
  }

  predicate Leaf(n: TreeNode) { n.children == [] }

  function Matches(t: ServiceType): TreeNode -> bool {
    (n: TreeNode) => n.data.serviceType == t && n.data.enabled
  }

  ghost function SelectedFrom(nodes: seq<TreeNode>, i: nat, p: TreeNode -> bool): seq<ServiceNode>
    requires ValidTree(nodes) && i < |nodes|
  {
    Selected(nodes, Preorder(nodes, i, 0), p)
  }

  /** The selection below the first k children. */
  ghost function SelectedBelow(nodes: seq<TreeNode>, i: nat, k: nat, p: TreeNode -> bool): seq<ServiceNode>
    requires ValidTree(nodes) && i < |nodes| && k <= |nodes[i].children|
  {
    Selected(nodes, Forest(nodes, i, k, 1), p)
  }

  lemma SelectedAtNode(nodes: seq<TreeNode>, i: nat, p: TreeNode -> bool)
    requires ValidTree(nodes) && i < |nodes|
    ensures SelectedFrom(nodes, i, p)
         == (if p(nodes[i]) then [nodes[i].data] else []) + SelectedBelow(nodes, i, |nodes[i].children|, p)
  {
    assert ([(i, 0)] + Forest(nodes, i, |nodes[i].children|, 1))[1..] == Forest(nodes, i, |nodes[i].children|, 1);
  }

  lemma SelectedNextChild(nodes: seq<TreeNode>, i: nat, k: nat, p: TreeNode -> bool)
    requires ValidTree(nodes) && i < |nodes| && k < |nodes[i].children|
    ensures nodes[i].children[k] < |nodes|
    ensures SelectedBelow(nodes, i, k + 1, p) ==
        SelectedBelow(nodes, i, k, p) + SelectedFrom(nodes, nodes[i].children[k], p)
  {
    assert Children(nodes, i);
    var c := nodes[i].children[k];
    SelectedConcat(nodes, Forest(nodes, i, k, 1), Preorder(nodes, c, 1), p);
    SelectionIgnoresDepth(nodes, c, 1, 0, p);
  }

  /** What a collector has added to `prefix` after node i and its first k children. */
  ghost predicate Collected(nodes: seq<TreeNode>, i: nat, k: nat, p: TreeNode -> bool,
                            prefix: seq<ServiceNode>, out: seq<ServiceNode>)
    requires ValidTree(nodes) && i < |nodes|
  {
    && k <= |nodes[i].children|
    && out == prefix + ((if p(nodes[i]) then [nodes[i].data] else []) + SelectedBelow(nodes, i, k, p))
  }

  lemma StartsCollecting(nodes: seq<TreeNode>, i: nat, p: TreeNode -> bool, prefix: seq<ServiceNode>)
    requires ValidTree(nodes) && i < |nodes|
    ensures Collected(nodes, i, 0, p, prefix, prefix + if p(nodes[i]) then [nodes[i].data] else [])
  {
    assert SelectedBelow(nodes, i, 0, p) == [];
  }

  lemma CollectsNextChild(nodes: seq<TreeNode>, i: nat, k: nat, p: TreeNode -> bool,
                          prefix: seq<ServiceNode>, out: seq<ServiceNode>)
    requires ValidTree(nodes) && i < |nodes| && k < |nodes[i].children|
    requires Collected(nodes, i, k, p, prefix, out)
    ensures nodes[i].children[k] < |nodes|
    ensures Collected(nodes, i, k + 1, p, prefix, out + SelectedFrom(nodes, nodes[i].children[k], p))
  {
    SelectedNextChild(nodes, i, k, p);
    Regroup(prefix, if p(nodes[i]) then [nodes[i].data] else [],
            SelectedBelow(nodes, i, k, p), SelectedFrom(nodes, nodes[i].children[k], p));
  }

  lemma Regroup<T>(a: seq<T>, b: seq<T>, c: seq<T>, d: seq<T>)
    ensures a + (b + c) + d == a + (b + (c + d))
  {
  }

  lemma CollectsAll(nodes: seq<TreeNode>, i: nat, p: TreeNode -> bool, prefix: seq<ServiceNode>)
    requires ValidTree(nodes) && i < |nodes|
    ensures Collected(nodes, i, |nodes[i].children|, p, prefix, prefix + SelectedFrom(nodes, i, p))
  {
    SelectedAtNode(nodes, i, p);
  }

  /** Depths only label the visits. */
  lemma {:induction false} SelectionIgnoresDepth(nodes: seq<TreeNode>, i: nat, d: nat, e: nat, p: TreeNode -> bool)
    requires ValidTree(nodes) && i < |nodes|
    ensures Selected(nodes, Preorder(nodes, i, d), p) == Selected(nodes, Preorder(nodes, i, e), p)
    decreases |nodes| - i, |nodes[i].children| + 1
  {
    var k := |nodes[i].children|;
    BelowIgnoresDepth(nodes, i, k, d + 1, e + 1, p);
    assert ([(i, d)] + Forest(nodes, i, k, d + 1))[1..] == Forest(nodes, i, k, d + 1);
    assert ([(i, e)] + Forest(nodes, i, k, e + 1))[1..] == Forest(nodes, i, k, e + 1);
  }

  lemma {:induction false} BelowIgnoresDepth(nodes: seq<TreeNode>, i: nat, k: nat, d: nat, e: nat, p: TreeNode -> bool)
    requires ValidTree(nodes) && i < |nodes| && k <= |nodes[i].children|
    ensures Selected(nodes, Forest(nodes, i, k, d), p) == Selected(nodes, Forest(nodes, i, k, e), p)
    decreases |nodes| - i, k
  {
    if k > 0 {
      assert Children(nodes, i);
      var c := nodes[i].children[k - 1];
      BelowIgnoresDepth(nodes, i, k - 1, d, e, p);
      SelectionIgnoresDepth(nodes, c, d, e, p);
      SelectedConcat(nodes, Forest(nodes, i, k - 1, d), Preorder(nodes, c, d), p);
      SelectedConcat(nodes, Forest(nodes, i, k - 1, e), Preorder(nodes, c, e), p);
    }
  }

  // ---------------------------------------------------------------- what a selection has

  /** The first n nodes that satisfy p and have this data. */
  ghost function Having(nodes: seq<TreeNode>, p: TreeNode -> bool, d: ServiceNode, n: nat): set<nat>
    requires n <= |nodes|
  {
    set j: nat | j < n && p(nodes[j]) && nodes[j].data == d
  }

  /** How often the visits come to one of them. */
  ghost function HitsOn(nodes: seq<TreeNode>, visits: seq<(nat, nat)>, p: TreeNode -> bool, d: ServiceNode, n: nat): nat
    requires n <= |nodes|
  {
    if n == 0 then 0
    else HitsOn(nodes, visits, p, d, n - 1)
         + if p(nodes[n - 1]) && nodes[n - 1].data == d then Visits(visits, n - 1) else 0
  }

  lemma {:induction false} HitsOnNext(nodes: seq<TreeNode>, visits: seq<(nat, nat)>, p: TreeNode -> bool,
      d: ServiceNode, n: nat)
    requires n <= |nodes| && visits != [] && visits[0].0 < |nodes|
    ensures HitsOn(nodes, visits, p, d, n) == HitsOn(nodes, visits[1..], p, d, n)
        + var i := visits[0].0; if i < n && p(nodes[i]) && nodes[i].data == d then 1 else 0
    decreases n
  {
    if n > 0 {
      HitsOnNext(nodes, visits, p, d, n - 1);
    }
  }

  lemma {:induction false} NoVisitsNoHits(nodes: seq<TreeNode>, p: TreeNode -> bool, d: ServiceNode, n: nat)
    requires n <= |nodes|
    ensures HitsOn(nodes, [], p, d, n) == 0
  {
    if n > 0 {
      NoVisitsNoHits(nodes, p, d, n - 1);
    }
  }

  lemma {:induction false} SelectedHits(nodes: seq<TreeNode>, visits: seq<(nat, nat)>, p: TreeNode -> bool,
      d: ServiceNode)
    requires forall v :: v in visits ==> v.0 < |nodes|
    ensures multiset(Selected(nodes, visits, p))[d] == HitsOn(nodes, visits, p, d, |nodes|)
    decreases |visits|
  {
    if visits == [] {
      NoVisitsNoHits(nodes, p, d, |nodes|);
    } else {
      SelectedHits(nodes, visits[1..], p, d);
      HitsOnNext(nodes, visits, p, d, |nodes|);
    }
  }

  lemma {:induction false} HitsAreHaving(nodes: seq<TreeNode>, visits: seq<(nat, nat)>, p: TreeNode -> bool,
      d: ServiceNode, n: nat)
    requires n <= |nodes| && forall j :: 0 <= j < n ==> Visits(visits, j) == 1
    ensures HitsOn(nodes, visits, p, d, n) == |Having(nodes, p, d, n)|
    decreases n
  {
    if n > 0 {
      HitsAreHaving(nodes, visits, p, d, n - 1);
      OneMoreHaving(nodes, p, d, n - 1);
    }
  }

  lemma OneMoreHaving(nodes: seq<TreeNode>, p: TreeNode -> bool, d: ServiceNode, n: nat)
    requires n < |nodes|
    ensures |Having(nodes, p, d, n + 1)|
         == |Having(nodes, p, d, n)| + if p(nodes[n]) && nodes[n].data == d then 1 else 0
  {
    OneMore(Having(nodes, p, d, n), Having(nodes, p, d, n + 1), n, p(nodes[n]) && nodes[n].data == d);
  }

  lemma SelectionIsComplete(nodes: seq<TreeNode>, p: TreeNode -> bool, d: ServiceNode)
    requires ValidTree(nodes)
    ensures multiset(SelectedFrom(nodes, 0, p))[d] == |Having(nodes, p, d, |nodes|)|
  {
    PreorderDepths(nodes, 0, 0);
    SelectedHits(nodes, Preorder(nodes, 0, 0), p, d);
    forall j | 0 <= j < |nodes|
      ensures Visits(Preorder(nodes, 0, 0), j) == 1
    {
      TraversalVisitsOnceAtDepth(nodes, j);
    }
    HitsAreHaving(nodes, Preorder(nodes, 0, 0), p, d, |nodes|);
  }

  /** Asked at the root, the collector by type gives every enabled service of the type as often as it is
      registered, and no other service. */
  lemma EnabledOfTypeIff(nodes: seq<TreeNode>, t: ServiceType, d: ServiceNode)
    requires ValidTree(nodes)
    ensures multiset(SelectedFrom(nodes, 0, Matches(t)))[d]
         == if d.serviceType == t && d.enabled then |set j: nat | j < |nodes| && nodes[j].data == d| else 0
  {
    SelectionIsComplete(nodes, Matches(t), d);
    var having := Having(nodes, Matches(t), d, |nodes|);
    if d.serviceType == t && d.enabled {
      assert having == set j: nat | j < |nodes| && nodes[j].data == d;
    } else {
      assert having == {};
    }
  }

  /** And the collector of leaves every service below which nothing is registered. */
  lemma LeavesAreParentsOfNone(nodes: seq<TreeNode>, d: ServiceNode)
    requires ValidTree(nodes)
    ensures multiset(SelectedFrom(nodes, 0, Leaf))[d]
         == |set j: nat | j < |nodes| && nodes[j].data == d && ParentOfNone(nodes, j)|
  {
    SelectionIsComplete(nodes, Leaf, d);
    forall j: nat | j < |nodes|
      ensures Leaf(nodes[j]) <==> ParentOfNone(nodes, j)
    {
      assert Children(nodes, j);
      if !Leaf(nodes[j]) {
        assert nodes[nodes[j].children[0]].parent == Some(j);
      }
    }
    assert Having(nodes, Leaf, d, |nodes|) ==
        set j: nat | j < |nodes| && nodes[j].data == d && ParentOfNone(nodes, j);
  }

  ghost predicate ParentOfNone(nodes: seq<TreeNode>, j: nat) {
    forall i :: 0 <= i < |nodes| ==> nodes[i].parent != Some(j)
  }

  // ---------------------------------------------------------------- the hierarchy object

  class Hierarchy {
    var nodes: seq<TreeNode>

    ghost predicate Valid()
      reads this
    {
      ValidTree(nodes)
    }

    constructor ()
      ensures Valid() && nodes == [TreeNode(ServiceNode("root", Container, 0, true), [], None)]
    {
      nodes := [TreeNode(ROOT_DATA, [], None)];
    }

    /** Insert before the first child of lower priority. */
    method AddChild(p: nat, data: ServiceNode)
      requires Valid() && p < |nodes|
      modifies this
      ensures Valid() && nodes == Added(old(nodes), p, data)
    {
      var cs := nodes[p].children;
      var pos := 0;
      assert Children(nodes, p);
      ghost var wanted := InsertAt(nodes, cs, data.priority);
      while pos < |cs| && nodes[cs[pos]].data.priority >= data.priority
        invariant pos <= |cs|
        invariant forall i :: 0 <= i < pos ==> nodes[cs[i]].data.priority >= data.priority
      {
        pos := pos + 1;
      }
      assert pos == wanted;
      AddedIsValid(nodes, p, data);
      nodes := nodes[p := nodes[p].(children := cs[..pos] + [|nodes|] + cs[pos..])] + [TreeNode(data, [], Some(p))];
    }

    method FindByPath(start: nat, path: string) returns (found: Option<nat>)
      requires Valid() && start < |nodes|
      ensures found == Resolve(nodes, start, NonEmpty(Split(path, "/")))
    {
      var parts := NonEmpty(Split(path, "/"));
      var current: nat := start;
      for i := 0 to |parts|
        invariant current < |nodes|
        invariant Resolve(nodes, start, parts) == Resolve(nodes, current, parts[i..])
      {
        assert parts[i..][1..] == parts[i + 1..];
        if nodes[current].data.name == parts[i] {
          continue;
        }
        assert Children(nodes, current);
        var c := ChildNamed(nodes, nodes[current].children, parts[i]);
        if c.None? {
          return None;
        }
        current := c.value;
      }
      found := Some(current);
    }

    /** A success adds exactly one node, below the node its parent path leads to; a failure none. */
    method Register(path: string, service: ServiceNode) returns (ok: bool)
      requires Valid()
      modifies this
      ensures Valid()
      ensures ok <==> ParentOf(old(nodes), path).Some?
      ensures nodes == Registered(old(nodes), path, service) && |nodes| == |old(nodes)| + (if ok then 1 else 0)
    {
      var parent := Some(0);
      if ParentPath(path) != "" {
        parent := FindByPath(0, ParentPath(path));
      }
      if parent.None? {
        return false;
      }
      AddChild(parent.value, service);
      ok := true;
    }

    method TraverseFrom(i: nat, depth: nat, visited: seq<(nat, nat)>) returns (out: seq<(nat, nat)>)
      requires Valid() && i < |nodes|
      ensures out == visited + Preorder(nodes, i, depth)
      decreases |nodes| - i
    {
      out := visited + [(i, depth)];
      assert Children(nodes, i);
      for k := 0 to |nodes[i].children|
        invariant out == visited + ([(i, depth)] + Forest(nodes, i, k, depth + 1))
      {
        out := TraverseFrom(nodes[i].children[k], depth + 1, out);
      }
    }

    method CollectByType(i: nat, t: ServiceType, services: seq<ServiceNode>) returns (out: seq<ServiceNode>)
      requires Valid() && i < |nodes|
      ensures out == services + SelectedFrom(nodes, i, Matches(t))
      decreases |nodes| - i
    {
      out := services;
      if nodes[i].data.serviceType == t && nodes[i].data.enabled {
        out := out + [nodes[i].data];
      }
      StartsCollecting(nodes, i, Matches(t), services);
      assert Children(nodes, i);
      for k := 0 to |nodes[i].children|
        invariant Collected(nodes, i, k, Matches(t), services, out)
      {
        ghost var before := out;
        out := CollectByType(nodes[i].children[k], t, out);
        CollectsNextChild(nodes, i, k, Matches(t), services, before);
      }
      CollectsAll(nodes, i, Matches(t), services);
    }

    method CollectLeaves(i: nat, leaves: seq<ServiceNode>) returns (out: seq<ServiceNode>)
      requires Valid() && i < |nodes|
      ensures out == leaves + SelectedFrom(nodes, i, Leaf)
      decreases |nodes| - i
    {
      StartsCollecting(nodes, i, Leaf, leaves);
      if nodes[i].children == [] {
        CollectsAll(nodes, i, Leaf, leaves);
        return leaves + [nodes[i].data];
      }
      out := leaves;
      assert Children(nodes, i);
      for k := 0 to |nodes[i].children|
        invariant Collected(nodes, i, k, Leaf, leaves, out)
      {
        ghost var before := out;
        out := CollectLeaves(nodes[i].children[k], out);
        CollectsNextChild(nodes, i, k, Leaf, leaves, before);
      }
      CollectsAll(nodes, i, Leaf, leaves);
    }
  }
}
