/** The backend's operations on a loaded channel (esconfd/esconf-backend-perchannel-xml.c), on the
    linked tree. */
module Backend {
  import opened Base
  import opened Values
  import opened Names
  import opened TreeModel
  import opened TreeOrder
  import opened Subtrees
  import opened Replay
  import opened Locks
  import opened Proptree

  // ---------- names of nodes ----------

  /** `esconf_proptree_build_propname`: collects components on the way up, then joins them. */
  method BuildPropname(c: EsconfChannel, node: GNode) returns (buf: string)
    requires c.Valid() && c.Has(node)
    ensures buf == BuildName(node.path)
  {
    var components: Path := [];
    var cur: GNode? := node;
    while cur != null
      invariant cur != null ==> c.Has(cur) && Climbed(node.path) == Climbed(cur.path) + components
      invariant cur == null ==> Climbed(node.path) == components
      decreases if cur == null then 0 else |cur.path| + 1
    {
      ghost var p := cur.path;
      assert c.Placed(p) && c.Placed([]);
      if |cur.name| == 1 {
        cur := null;
      } else {
        components := [cur.name] + components;
        if p != [] {
          assert c.Placed(Parent(p));
        }
        cur := cur.parent;
      }
    }
    buf := "";
    for i := 0 to |components|
      invariant buf == Join(components[..i])
    {
      buf := buf + "/" + components[i];
      assert components[..i + 1][..i] == components[..i];
    }
    assert components[..|components|] == components;
  }

  // ---------- set, get, exists ----------

  /** A name the backend front end lets through, short enough for the path buffers. */
  predicate Acceptable(property: string) {
    ScansClean(property) && |property| < MAX_PROP_PATH
  }

  method AddChanged(c: EsconfChannel, name: string)
    requires c.Valid()
    modifies c`changed
    ensures c.Valid() && c.changed == old(c.changed) + [name]
  {
    c.changed := c.changed + [name];
  }

  /** The property-changed callback, and `esconf_backend_perchannel_xml_schedule_save`. */
  method Announce(c: EsconfChannel, property: string)
    requires c.Valid()
    modifies c`changed, c`dirty
    ensures c.Valid() && c.changed == old(c.changed) + [property] && c.dirty
  {
    AddChanged(c, property);
    ScheduleSave(c);
  }

  /** `esconf_backend_perchannel_xml_set`. */
  method Set(c: EsconfChannel, property: string, value: Value) returns (ok: bool)
    requires c.Valid() && Acceptable(property)
    modifies c`nodes, c`tree, c`order, c`Repr, c`changed, c`dirty, c.Repr`children, c.Repr`value
    ensures c.Valid() && fresh(c.Repr - old(c.Repr))
    ensures var r := SetValue(old(c.tree), Components(property), value);
      && ok == r.ok && c.tree == r.tree
      && c.changed == old(c.changed) + (if r.notified then [property] else [])
      && c.dirty == (old(c.dirty) || r.notified)
  {
    AcceptedName(property);
    var changed;
    ok, changed := PutUserValue(c, property, value);
    if changed {
      Announce(c, property);
    }
  }

  method PutUserValue(c: EsconfChannel, property: string, value: Value) returns (ok: bool, changed: bool)
    requires c.Valid() && Acceptable(property) && PropNameIsValid(property) && Components(property) != []
    modifies c`nodes, c`tree, c`order, c`Repr, c.Repr`children, c.Repr`value
    ensures c.Valid() && fresh(c.Repr - old(c.Repr))
    ensures var r := SetValue(old(c.tree), Components(property), value);
      ok == r.ok && c.tree == r.tree && changed == r.notified
  {
    var curProp := c.LookupNode(property);
    if curProp != null {
      c.NodeIs(Components(property));
      ok, changed := UpdateNode(c, curProp, value);
    } else {
      var node := c.AddProperty(property, Some(value), false);
      ok, changed := true, true;
    }
  }

  method UpdateNode(c: EsconfChannel, curProp: GNode, value: Value) returns (ok: bool, changed: bool)
    requires c.Valid() && c.Has(curProp) && curProp.path != []
    modifies c`tree, curProp`value
    ensures c.Valid()
    ensures var r := SetValue(old(c.tree), curProp.path, value);
      ok == r.ok && c.tree == r.tree && changed == r.notified
  {
    c.IsRoot(curProp);
    if curProp.locked {
      return false, false;
    }
    if IsEqual(if curProp.value.Some? then curProp.value else curProp.system, Some(value)) {
      return true, false;
    }
    c.PutValue(curProp, Some(value));
    ok, changed := true, true;
  }

  /** `esconf_backend_perchannel_xml_get`. */
  method Get(c: EsconfChannel, property: string) returns (value: Option<Value>)
    requires c.Valid() && Acceptable(property)
    ensures value == GetValue(c.tree, Components(property))
  {
    AcceptedName(property);
    var curProp := c.LookupNode(property);
    value := None;
    if curProp != null {
      assert c.Placed(Components(property));
      if curProp.value.Some? {
        value := curProp.value;
      } else if curProp.system.Some? {
        value := curProp.system;
      }
    }
  }

  /** `esconf_backend_perchannel_xml_exists`: exactly when a get would succeed. */
  method Exists(c: EsconfChannel, property: string) returns (exists_: bool)
    requires c.Valid() && Acceptable(property)
    ensures exists_ <==> GetValue(c.tree, Components(property)).Some?
  {
    AcceptedName(property);
    var prop := c.LookupNode(property);
    if prop != null {
      assert c.Placed(Components(property));
    }
    exists_ := prop != null && (prop.value.Some? || prop.system.Some?);
  }

  /** `esconf_backend_perchannel_xml_is_property_locked`. */
  method IsPropertyLocked(c: EsconfChannel, property: string) returns (locked: bool)
    requires c.Valid() && Acceptable(property)
    ensures locked == ReportedLocked(c.tree, c.locked, Components(property))
  {
    AcceptedName(property);
    var prop: GNode? := null;
    if !c.locked {
      prop := c.LookupNode(property);
      if prop != null {
        c.NodeIs(Components(property));
        c.IsRoot(prop);
      }
    }
    locked := c.locked || (prop != null && prop.locked);
  }

  // ---------- recursive reset ----------

  /** Every path of the tree has at most `h` components. */
  ghost predicate Bounded(c: EsconfChannel, h: nat)
    reads c`nodes
  {
    forall p :: p in c.nodes ==> |p| <= h
  }

  /** First pass, in post-order, with `nodes_do_prop_reset` at every node: user values go, and each
      of them is announced once. */
  method ResetValues(c: EsconfChannel, node: GNode, ghost h: nat) returns (ghost visited: seq<Path>)
    requires c.Valid() && c.Has(node) && Bounded(c, h)
    modifies c`tree, c`changed, c.Repr`value
    ensures c.Valid() && c.tree == ClearBelow(old(c.tree), node.path)
    ensures c.changed == old(c.changed) + BuildNames(visited)
    ensures Visits(old(c.tree), node.path, visited)
    decreases h - |node.path|, 1
  {
    ghost var p, t0, announced := node.path, c.tree, c.changed;
    c.NodeIs(p);
    ghost var below := ResetKids(c, node, h);
    visited := WithSelf(t0, p, below);
    SelfReset(c.order, t0, p, announced, below);
    ResetOwnValue(c, node);
  }

  /** The nodes that announce themselves, the node itself last. */
  ghost function WithSelf(t: Tree, p: Path, below: seq<Path>): seq<Path>
    requires p in t
  {
    if t[p].user.Some? then below + [p] else below
  }

  lemma SelfReset(o: Order, t: Tree, p: Path, announced: seq<string>, below: seq<Path>)
    requires Shaped(o) && t.Keys == o.Keys && p in o && VisitsKids(t, p, o[p], below)
    ensures Visits(t, p, WithSelf(t, p, below))
    ensures var t1 := ClearKids(t, p, o[p]);
      p in t1 && t1[p] == t[p] && ClearBelow(t, p) == if t[p].user.Some? then t1[p := t1[p].(user := None)] else t1
    ensures announced + BuildNames(WithSelf(t, p, below)) ==
      announced + BuildNames(below) + if t[p].user.Some? then [BuildName(p)] else []
  {
    ClearSelf(o, t, p);
    VisitsSelf(o, t, p, below);
    if t[p].user.Some? {
      OneMoreName(announced, below, p);
    }
  }

  lemma MoreNames(changed: seq<string>, a: seq<Path>, b: seq<Path>)
    ensures changed + BuildNames(a) + BuildNames(b) == changed + BuildNames(a + b)
  {
    BuildNamesAppend(a, b);
    assert changed + BuildNames(a) + BuildNames(b) == changed + (BuildNames(a) + BuildNames(b));
  }

  lemma OneMoreName(changed: seq<string>, visited: seq<Path>, p: Path)
    ensures changed + BuildNames(visited) + [BuildName(p)] == changed + BuildNames(visited + [p])
  {
    BuildNamesAppend(visited, [p]);
    assert BuildNames([p]) == [BuildName(p)];
    assert changed + BuildNames(visited) + [BuildName(p)] == changed + (BuildNames(visited) + [BuildName(p)]);
  }

  /** `nodes_do_prop_reset`. */
  method ResetOwnValue(c: EsconfChannel, node: GNode)
    requires c.Valid() && c.Has(node)
    modifies c`tree, c`changed, node`value
    ensures c.Valid()
    ensures var d := old(c.tree)[node.path];
      if d.user.Some? then
        c.tree == old(c.tree)[node.path := d.(user := None)] && c.changed == old(c.changed) + [BuildName(node.path)]
      else c.tree == old(c.tree) && c.changed == old(c.changed)
  {
    c.IsRoot(node);
    if node.value.Some? {
      c.PutValue(node, None);
      var name := BuildPropname(c, node);
      AddChanged(c, name);
    }
  }

  method ResetKids(c: EsconfChannel, node: GNode, ghost h: nat) returns (ghost visited: seq<Path>)
    requires c.Valid() && c.Has(node) && Bounded(c, h)
    modifies c`tree, c`changed, c.Repr`value
    ensures c.Valid() && c.tree == ClearKids(old(c.tree), node.path, c.order[node.path])
    ensures c.changed == old(c.changed) + BuildNames(visited)
    ensures VisitsKids(old(c.tree), node.path, c.order[node.path], visited)
    decreases h - |node.path|, 0
  {
    ghost var p, names, t0, announced := node.path, c.order[node.path], c.tree, c.changed;
    c.ChildrenOf(node);
    visited := [];
    NoKidsReset(t0, p, announced);
    assert names[..0] == [];
    for i := 0 to |node.children|
      invariant c.Valid() && KidsReset(t0, c.tree, p, names[..i], announced, c.changed, visited)
    {
      c.ChildrenOf(node);
      ghost var t1, changed := c.tree, c.changed;
      ghost var more := ResetValues(c, node.children[i], h);
      KidReset(t0, t1, p, names, i, announced, changed, visited, more);
      visited := visited + more;
    }
    assert names[..|names|] == names;
  }

  /** The children `names` have lost their user values, each announced once. */
  ghost predicate KidsReset(t0: Tree, t: Tree, p: Path, names: seq<string>,
                            announced: seq<string>, changed: seq<string>, visited: seq<Path>)
  {
    && t == ClearKids(t0, p, names) && VisitsKids(t0, p, names, visited)
    && changed == announced + BuildNames(visited)
  }

  lemma NoKidsReset(t: Tree, p: Path, announced: seq<string>)
    ensures KidsReset(t, t, p, [], announced, announced, [])
  {
    assert forall q :: !UnderOne(p, [], q);
    assert announced + BuildNames([]) == announced;
  }

  lemma KidReset(t0: Tree, t1: Tree, p: Path, names: seq<string>, i: nat,
                 announced: seq<string>, changed: seq<string>, visited: seq<Path>, more: seq<Path>)
    requires i < |names| && DistinctNames(names)
    requires KidsReset(t0, t1, p, names[..i], announced, changed, visited)
    requires Visits(t1, p + [names[i]], more)
    ensures KidsReset(t0, ClearBelow(t1, p + [names[i]]), p, names[..i + 1],
                      announced, changed + BuildNames(more), visited + more)
  {
    assert names[..i + 1] == names[..i] + [names[i]];
    ClearNext(t0, p, names[..i], names[i]);
    VisitsNext(t0, p, names[..i], names[i], visited, more);
    MoreNames(announced, visited, more);
  }

  function BuildNames(paths: seq<Path>): seq<string> {
    seq(|paths|, i requires 0 <= i < |paths| => BuildName(paths[i]))
  }

  lemma BuildNamesAppend(a: seq<Path>, b: seq<Path>)
    ensures BuildNames(a + b) == BuildNames(a) + BuildNames(b)
  {
  }

  ghost predicate VisitsKids(t: Tree, p: Path, names: seq<string>, visited: seq<Path>) {
    && (forall q :: q in visited <==> q in t && UnderOne(p, names, q) && t[q].user.Some?)
    && (forall i, j :: 0 <= i < j < |visited| ==> visited[i] != visited[j])
  }

  lemma NoRepeats(a: seq<Path>, b: seq<Path>)
    requires forall i, j :: 0 <= i < j < |a| ==> a[i] != a[j]
    requires forall i, j :: 0 <= i < j < |b| ==> b[i] != b[j]
    requires forall q :: q in a ==> q !in b
    ensures forall i, j :: 0 <= i < j < |a + b| ==> (a + b)[i] != (a + b)[j]
  {
    forall i, j | 0 <= i < j < |a + b|
      ensures (a + b)[i] != (a + b)[j]
    {
      if i < |a| <= j {
        assert (a + b)[i] in a && (a + b)[j] == b[j - |a|] && b[j - |a|] in b;
      }
    }
  }

  lemma VisitsNext(t: Tree, p: Path, names: seq<string>, name: string, visited: seq<Path>, more: seq<Path>)
    requires name !in names && VisitsKids(t, p, names, visited)
    requires Visits(ClearKids(t, p, names), p + [name], more)
    ensures VisitsKids(t, p, names + [name], visited + more)
  {
    forall q
      ensures q in visited + more <==> q in t && UnderOne(p, names + [name], q) && t[q].user.Some?
      ensures q in visited ==> q !in more
    {
      UnderOneMore(p, names, name, q);
      if UnderOne(p, names, q) {
        SiblingsApart(p, names, name, q);
      }
    }
    NoRepeats(visited, more);
  }

  lemma VisitsSelf(o: Order, t: Tree, p: Path, visited: seq<Path>)
    requires Shaped(o) && t.Keys == o.Keys && p in o && VisitsKids(t, p, o[p], visited)
    ensures Visits(t, p, if t[p].user.Some? then visited + [p] else visited)
  {
    NotUnderSelf(p, o[p]);
    forall q | q in t
      ensures Below(p, q) <==> q == p || UnderOne(p, o[p], q)
    {
      BelowNode(o, t, p, q);
    }
    NoRepeats(visited, [p]);
  }

  /** Second pass, in post-order, with `nodes_clean_up` at every node: nodes that carry nothing and
      have no child left are unlinked while the traversal is under way. */
  method CleanUpNodes(c: EsconfChannel, node: GNode, ghost h: nat)
    requires c.Valid() && c.Has(node) && node != c.root && Bounded(c, h)
    modifies c`nodes, c`tree, c`order, c.Repr`children
    ensures c.Valid() && c.Repr == old(c.Repr) && c.tree == CleanUp(old(c.tree), node.path)
    ensures Fewer(old(c.nodes), c.nodes)
    decreases h - |node.path|, 1
  {
    ghost var p, t0, o0 := node.path, c.tree, c.order;
    c.IsRoot(node);
    CleanUpKids(c, node, h);
    CleanSelf(o0, t0, p);
    UnlinkDangling(c, node);
  }

  /** `nodes_clean_up` on one node. */
  method UnlinkDangling(c: EsconfChannel, node: GNode)
    requires c.Valid() && c.Has(node) && node != c.root
    modifies c`nodes, c`tree, c`order, c.Repr`children
    ensures c.Valid() && c.Repr == old(c.Repr) && Fewer(old(c.nodes), c.nodes)
    ensures var t, p := old(c.tree), node.path;
      c.tree == if Carries(t[p]) || HasChild(t, p) then t else t - {p}
  {
    c.IsRoot(node);
    if node.children == [] && node.value.None? && node.system.None? && !node.locked {
      var i := c.IndexInParent(node);
      c.RemoveLeaf(node, node.parent);
    }
  }

  /** `kids` are the nodes of the children `names` of `p`. */
  ghost predicate KidsAre(nodes: map<Path, GNode>, repr: set<object>, p: Path, names: seq<string>, kids: seq<GNode>) {
    && |kids| == |names| && DistinctNames(names)
    && forall i :: 0 <= i < |kids| ==>
         kids[i].path == p + [names[i]] && kids[i] in repr
         && p + [names[i]] in nodes && nodes[p + [names[i]]] == kids[i]
  }

  /** No node has been added or replaced. */
  ghost predicate Fewer(nodes: map<Path, GNode>, nodes': map<Path, GNode>) {
    forall q :: q in nodes' ==> q in nodes && nodes'[q] == nodes[q]
  }

  lemma KidsListed(c: EsconfChannel, node: GNode)
    requires c.Valid() && c.Has(node)
    ensures KidsAre(c.nodes, c.Repr, node.path, c.order[node.path], node.children)
    ensures c.tree == CleanKids(c.tree, node.path, [])
  {
    c.ChildrenOf(node);
    NoKids(c.tree, node.path);
  }

  lemma NoKids(t: Tree, p: Path)
    ensures CleanKids(t, p, []) == t
  {
    assert forall q :: !UnderOne(p, [], q);
  }

  method CleanUpKids(c: EsconfChannel, node: GNode, ghost h: nat)
    requires c.Valid() && c.Has(node) && Bounded(c, h)
    modifies c`nodes, c`tree, c`order, c.Repr`children
    ensures c.Valid() && c.Repr == old(c.Repr) && c.Has(node)
    ensures c.tree == CleanKids(old(c.tree), node.path, old(c.order)[node.path])
    ensures Fewer(old(c.nodes), c.nodes)
    decreases h - |node.path|, 0
  {
    ghost var p, names, t0, n0 := node.path, c.order[node.path], c.tree, c.nodes;
    var kids := node.children;
    KidsListed(c, node);
    assert names[..0] == [];
    for i := 0 to |kids|
      invariant c.Valid() && c.Repr == old(c.Repr) && c.tree == CleanKids(t0, p, names[..i])
      invariant Fewer(n0, c.nodes)
    {
      LaterKidStays(c, t0, n0, p, names, i, kids[i]);
      CleanNext(t0, p, names[..i], names[i]);
      CleanUpNodes(c, kids[i], h);
    }
    assert names[..|names|] == names;
    SelfStays(c, t0, n0, p, names);
  }

  lemma SelfStays(c: EsconfChannel, t0: Tree, n0: map<Path, GNode>, p: Path, names: seq<string>)
    requires c.Valid() && c.tree == CleanKids(t0, p, names) && Fewer(n0, c.nodes) && p in t0 && p in n0
    requires n0[p].path == p && n0[p] in c.Repr
    ensures c.Has(n0[p])
  {
    NotUnderSelf(p, names);
  }

  /** Cleaning the first `i` children leaves the next one in place. */
  lemma LaterKidStays(c: EsconfChannel, t0: Tree, n0: map<Path, GNode>, p: Path, names: seq<string>, i: nat,
                      kid: GNode)
    requires i < |names| && DistinctNames(names) && kid.path == p + [names[i]] && kid in c.Repr
    requires kid.path in t0 && kid.path in n0 && n0[kid.path] == kid
    requires c.Valid() && c.tree == CleanKids(t0, p, names[..i]) && Fewer(n0, c.nodes)
    ensures names[i] !in names[..i] && names[..i + 1] == names[..i] + [names[i]]
    ensures c.Has(kid) && kid != c.root
  {
    LaterNameStays(t0, p, names, i);
    assert kid.path in c.nodes && c.nodes[kid.path] == kid;
    c.IsRoot(kid);
  }

  lemma LaterNameStays(t: Tree, p: Path, names: seq<string>, i: nat)
    requires DistinctNames(names) && i < |names| && p + [names[i]] in t
    ensures names[i] !in names[..i] && names[..i + 1] == names[..i] + [names[i]]
    ensures p + [names[i]] in CleanKids(t, p, names[..i])
  {
    if UnderOne(p, names[..i], p + [names[i]]) {
      SiblingsApart(p, names[..i], names[i], p + [names[i]]);
    }
  }

  // ---------- reset ----------

  datatype ResetOutcome = Done | PropertyNotFound

  /** `esconf_backend_perchannel_xml_reset` on one property. */
  method Reset(c: EsconfChannel, property: string) returns (r: ResetOutcome)
    requires c.Valid() && c.RootIsBlank() && Acceptable(property)
    modifies c`nodes, c`tree, c`order, c`changed, c`dirty, c.Repr
    ensures c.Valid() && c.Repr == old(c.Repr)
    ensures var o := ResetOne(old(c.tree), Components(property));
      && (r == Done <==> o.ok) && c.tree == o.tree
      && c.changed == old(c.changed) + (if o.ok then [property] else [])
      && c.dirty == (old(c.dirty) || o.ok)
  {
    AcceptedName(property);
    var ok := c.ResetSingle(property);
    if !ok {
      return PropertyNotFound;
    }
    Announce(c, property);
    r := Done;
  }

  /** `esconf_backend_perchannel_xml_reset` on a property and everything below it: two passes over
      the subtree. */
  method ResetRecursive(c: EsconfChannel, property: string) returns (r: ResetOutcome, ghost visited: seq<Path>)
    requires c.Valid() && Acceptable(property)
    modifies c`nodes, c`tree, c`order, c`changed, c`dirty, c.Repr
    ensures c.Valid() && c.Repr == old(c.Repr)
    ensures var o := ResetBelow(old(c.tree), Components(property));
      && (r == Done <==> o.ok) && c.tree == o.tree
      && c.changed == old(c.changed) + BuildNames(visited)
      && (o.ok ==> Visits(old(c.tree), Components(property), visited))
      && (!o.ok ==> visited == [])
      && c.dirty == (old(c.dirty) || o.ok)
  {
    AcceptedName(property);
    visited := [];
    var top := c.LookupNode(property);
    if top == null {
      r := PropertyNotFound;
    } else {
      c.NodeIs(Components(property));
      c.IsRoot(top);
      visited := ResetSubtree(c, top);
      r := Done;
    }
  }

  method ResetSubtree(c: EsconfChannel, top: GNode) returns (ghost visited: seq<Path>)
    requires c.Valid() && c.Has(top) && top != c.root
    modifies c`nodes, c`tree, c`order, c`changed, c`dirty, c.Repr
    ensures c.Valid() && c.Repr == old(c.Repr) && c.dirty
    ensures c.tree == CleanUp(ClearBelow(old(c.tree), top.path), top.path)
    ensures c.changed == old(c.changed) + BuildNames(visited) && Visits(old(c.tree), top.path, visited)
  {
    ghost var t := c.tree;
    visited := TwoPasses(c, top);
    assert Visits(t, top.path, visited);
    ScheduleSave(c);
  }

  /** The values go first, then the nodes. */
  method TwoPasses(c: EsconfChannel, top: GNode) returns (ghost visited: seq<Path>)
    requires c.Valid() && c.Has(top) && top != c.root
    modifies c`nodes, c`tree, c`order, c`changed, c.Repr
    ensures c.Valid() && c.Repr == old(c.Repr)
    ensures c.tree == CleanUp(ClearBelow(old(c.tree), top.path), top.path)
    ensures c.changed == old(c.changed) + BuildNames(visited) && Visits(old(c.tree), top.path, visited)
  {
    ghost var h := Height(c);
    visited := ResetValues(c, top, h);
    CleanUpNodes(c, top, h);
  }

  method ScheduleSave(c: EsconfChannel)
    requires c.Valid()
    modifies c`dirty
    ensures c.Valid() && c.dirty && c.tree == old(c.tree)
    ensures c.changed == old(c.changed) && c.Repr == old(c.Repr)
  {
    c.dirty := true;
  }

  /** Some bound on the depth of the tree. */
  ghost method Height(c: EsconfChannel) returns (h: nat)
    ensures Bounded(c, h)
  {
    h := 0;
    ghost var rest := c.nodes.Keys;
    while rest != {}
      invariant rest <= c.nodes.Keys
      invariant forall p :: p in c.nodes && p !in rest ==> |p| <= h
      decreases |rest|
    {
      var p :| p in rest;
      h := if |p| > h then |p| else h;
      rest := rest - {p};
    }
  }
}
