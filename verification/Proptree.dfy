/** The property tree of a channel as linked nodes, updated in place
    (esconfd/esconf-backend-perchannel-xml.c). */
module Proptree {
  import opened Base
  import opened Values
  import opened Names
  import opened TreeModel
  import opened TreeOrder

  /** A GNode together with the EsconfProperty it carries. */
  class GNode {
    const name: string
    /** Where the node hangs; nodes are never moved. */
    ghost const path: Path
    var value: Option<Value>
    var system: Option<Value>
    var locked: bool
    var parent: GNode?
    var children: seq<GNode>

    constructor (name: string, value: Option<Value>, locked: bool, parent: GNode?, ghost path: Path)
      ensures this.name == name && this.path == path
      ensures this.value == value && this.system == None && this.locked == locked
      ensures this.parent == parent && children == []
    {
      this.name := name;
      this.path := path;
      this.value := value;
      this.system := None;
      this.locked := locked;
      this.parent := parent;
      this.children := [];
    }
  }

  ghost predicate Extends(a: map<Path, GNode>, b: map<Path, GNode>) {
    forall p :: p in a ==> p in b && b[p] == a[p]
  }

  /** `n` with these links is the node at `p`: it has its name, its parent, and its children in order. */
  ghost predicate Linked(nodes: map<Path, GNode>, order: Order, p: Path, n: GNode, parent: GNode?, children: seq<GNode>)
    requires p in order
  {
    && n.path == p
    && (p == [] ==> parent == null)
    && (p != [] ==> Parent(p) in nodes && parent == nodes[Parent(p)] && n.name == p[|p| - 1])
    && |children| == |order[p]|
    && forall i :: 0 <= i < |children| ==>
         p + [order[p][i]] in nodes && children[i] == nodes[p + [order[p][i]]]
  }

  /** The links of the nodes after `node` has been appended to the children of `p`. */
  lemma AppendLinks(nodes: map<Path, GNode>, order: Order, p: Path, node: GNode,
                    q: Path, n: GNode, parent: GNode?, children: seq<GNode>)
    requires p in order && q in order && node.path == p + [node.name] && node.path !in nodes && node.path !in order
    requires Linked(nodes, order, q, n, parent, children)
    ensures Linked(nodes[node.path := node], AppendChild(order, p, node.name), q, n, parent,
                   if q == p then children + [node] else children)
  {
    var order' := AppendChild(order, p, node.name);
    assert order'[q] == if q == p then order[q] + [node.name] else order[q];
  }

  /** The links of the nodes after the `i`-th child of `p` has been taken out. */
  lemma RemoveLinks(nodes: map<Path, GNode>, order: Order, p: Path, i: nat,
                    q: Path, n: GNode, parent: GNode?, children: seq<GNode>)
    requires Shaped(order) && p in order && i < |order[p]| && p + [order[p][i]] in order && order[p + [order[p][i]]] == []
    requires nodes.Keys == order.Keys && q in order && q != p + [order[p][i]]
    requires Linked(nodes, order, q, n, parent, children)
    ensures q in RemoveChild(order, p, i)
    ensures Linked(nodes - {p + [order[p][i]]}, RemoveChild(order, p, i), q, n, parent,
                   if q == p then children[..i] + children[i + 1..] else children)
  {
    var order' := RemoveChild(order, p, i);
    RemoveShaped(order, p, i);
    assert NodeShaped(order', q);
    if q != [] {
      assert Parent(q) in order';
    }
  }

  /** EsconfChannel: the tree below `root`, the lock of the whole channel, and whether it must be
      saved.  `changed` collects the names handed to the property-changed callback. */
  class EsconfChannel {
    var root: GNode
    var locked: bool
    var dirty: bool
    var changed: seq<string>
    /** Every node of the tree, by its path. */
    ghost var nodes: map<Path, GNode>
    /** The objects of the tree, dead ones included. */
    ghost var Repr: set<GNode>
    /** The value of the tree, and the order of its siblings. */
    ghost var tree: Tree
    ghost var order: Order

    ghost predicate Valid()
      reads `root, `nodes, `tree, `order, `Repr, Repr
    {
      && Shaped(order) && order.Keys == nodes.Keys == tree.Keys
      && nodes[[]] == root && root.name == "/"
      && (forall p {:trigger Placed(p)} :: p in nodes ==> Placed(p))
    }

    /** The node at `p`: its contents, its parent, and its children in order. */
    ghost predicate Placed(p: Path)
      requires Shaped(order) && order.Keys == nodes.Keys == tree.Keys && p in nodes
      reads `root, `nodes, `tree, `order, `Repr, Repr
    {
      var n := nodes[p];
      n in Repr && tree[p] == Data(n.value, n.system, n.locked) && Linked(nodes, order, p, n, n.parent, n.children)
    }

    /** `node` is a node of this tree. */
    ghost predicate Has(node: GNode)
      reads `nodes, `tree, `Repr
    {
      node in Repr && node.path in nodes && nodes[node.path] == node
    }

    constructor ()
      ensures Valid() && fresh(Repr) && tree == EMPTY_TREE && !locked && !dirty && changed == []
    {
      var r := new GNode("/", None, false, null, []);
      root := r;
      locked, dirty := false, false;
      changed := [];
      nodes := map[[] := r];
      Repr := {r};
      tree := EMPTY_TREE;
      order := EMPTY_ORDER;
    }

    // ---------- lookup ----------

    /** The inner loop of `esconf_proptree_lookup_node`. */
    method FindChild(parent: GNode, part: string) returns (node: GNode?)
      requires Valid() && Has(parent)
      ensures node != null <==> parent.path + [part] in nodes
      ensures node != null ==> node == nodes[parent.path + [part]]
    {
      ghost var p := parent.path;
      assert Placed(p);
      var i := 0;
      while i < |parent.children|
        invariant 0 <= i <= |parent.children|
        invariant forall j :: 0 <= j < i ==> order[p][j] != part
      {
        assert Placed(p + [order[p][i]]);
        if parent.children[i].name == part {
          return parent.children[i];
        }
        i := i + 1;
      }
      ChildIsListed(order, p, part);
      node := null;
    }

    /** `esconf_proptree_lookup_node`: walks down one component at a time. */
    method LookupNode(name: string) returns (found: GNode?)
      requires Valid()
      ensures !PropNameIsValid(name) ==> found == null
      ensures PropNameIsValid(name) ==> (found != null <==> Components(name) in nodes)
      ensures found != null ==> found == nodes[Components(name)]
    {
      if !PropNameIsValid(name) {
        return null;
      }
      found := Descend(Components(name));
    }

    method Descend(parts: Path) returns (found: GNode?)
      requires Valid() && parts != []
      ensures found != null <==> parts in nodes
      ensures found != null ==> found == nodes[parts]
    {
      found := null;
      var parent := root;
      var i := 0;
      while i < |parts|
        invariant 0 <= i <= |parts| && parts[..i] in nodes && parent == nodes[parts[..i]]
        invariant found == if i == |parts| then parent else null
      {
        assert Placed(parts[..i]);
        assert parts[..i + 1] == parts[..i] + [parts[i]];
        var node := FindChild(parent, parts[i]);
        if node == null {
          NotBelowMissing(parts, i + 1);
          return;
        }
        if i + 1 == |parts| {
          found := node;
        }
        parent := node;
        i := i + 1;
      }
      assert parts[..|parts|] == parts;
    }

    lemma NotBelowMissing(parts: Path, i: nat)
      requires Valid() && i <= |parts| && parts[..i] !in nodes
      ensures parts !in nodes
    {
      ShapedIsClosed(order, tree);
      if parts in nodes {
        AncestorsIn(tree, parts, i);
      }
    }

    // ---------- single-node updates ----------

    method PutValue(node: GNode, value: Option<Value>)
      requires Valid() && Has(node)
      modifies node`value, this`tree
      ensures Valid() && node.value == value
      ensures tree == old(tree)[node.path := old(tree)[node.path].(user := value)]
    {
      node.value := value;
      tree := tree[node.path := tree[node.path].(user := value)];
      forall p | p in nodes
        ensures Placed(p)
      {
        assert old(Placed(p));
      }
    }

    /** Sets everything a node carries. */
    method PutData(node: GNode, d: Data)
      requires Valid() && Has(node)
      modifies node`value, node`system, node`locked, this`tree
      ensures Valid() && tree == old(tree)[node.path := d]
    {
      node.value := d.user;
      node.system := d.system;
      node.locked := d.locked;
      tree := tree[node.path := d];
      forall p | p in nodes
        ensures Placed(p)
      {
        assert old(Placed(p));
      }
    }

    /** A new, empty tree. */
    method Discard()
      modifies this`root, this`nodes, this`tree, this`order, this`Repr
      ensures Valid() && tree == EMPTY_TREE && fresh(Repr)
    {
      var r := new GNode("/", None, false, null, []);
      root := r;
      nodes := map[[] := r];
      Repr := {r};
      tree := EMPTY_TREE;
      order := EMPTY_ORDER;
    }

    /** g_node_append_data: a new node becomes the last child of `parent`. */
    method AppendData(parent: GNode, name: string, value: Option<Value>, locked: bool) returns (node: GNode)
      requires Valid() && Has(parent)
      requires SlashFree(name) && parent.path + [name] !in nodes
      modifies this`nodes, this`tree, this`order, this`Repr, parent`children
      ensures Valid() && Has(node) && fresh(node) && node.path == parent.path + [name]
      ensures nodes == old(nodes)[node.path := node] && Repr == old(Repr) + {node}
      ensures tree == old(tree)[node.path := Data(value, None, locked)]
    {
      node := new GNode(name, value, locked, parent, parent.path + [name]);
      Append(parent, node);
    }

    method Append(parent: GNode, node: GNode)
      requires Valid() && Has(parent)
      requires SlashFree(node.name) && node.path == parent.path + [node.name] && node.path !in nodes
      requires node.parent == parent && node.children == [] && node !in Repr
      modifies this`nodes, this`tree, this`order, this`Repr, parent`children
      ensures Valid() && nodes == old(nodes)[node.path := node] && Repr == old(Repr) + {node}
      ensures tree == old(tree)[node.path := Data(node.value, node.system, node.locked)]
    {
      parent.children := parent.children + [node];
      nodes := nodes[node.path := node];
      Repr := Repr + {node};
      tree := tree[node.path := Data(node.value, node.system, node.locked)];
      order := AppendChild(order, parent.path, node.name);
      Appended(parent, node);
    }

    /** Appending a child keeps every node in its place. */
    twostate lemma Appended(parent: GNode, new node: GNode)
      requires old(Valid()) && old(Has(parent)) && SlashFree(node.name)
      requires node.path == parent.path + [node.name] && node.path !in old(nodes)
      requires node.parent == parent && node.children == [] && node !in old(Repr)
      requires nodes == old(nodes)[node.path := node] && Repr == old(Repr) + {node} && root == old(root)
      requires tree == old(tree)[node.path := Data(node.value, node.system, node.locked)]
      requires order == AppendChild(old(order), parent.path, node.name)
      requires parent.children == old(parent.children) + [node]
      requires unchanged(parent`value, parent`system, parent`locked, parent`parent)
      requires forall n :: n in old(Repr) && n != parent ==> unchanged(n)
      ensures Valid()
    {
      ghost var p := parent.path;
      ParentOf(p, node.name);
      AppendShaped(old(order), p, node.name);
      forall q | q in nodes
        ensures Placed(q)
      {
        if q != node.path {
          assert old(Placed(q));
          AppendLinks(old(nodes), old(order), p, node, q, nodes[q], nodes[q].parent, old(nodes[q].children));
        }
      }
    }

    /** Where a node stands among its siblings. */
    method IndexInParent(node: GNode) returns (i: nat)
      requires Valid() && Has(node) && node != root
      ensures node.parent != null && Has(node.parent) && node.path != []
      ensures i < |node.parent.children| == |order[node.parent.path]| && node.parent.children[i] == node
      ensures node.path == node.parent.path + [order[node.parent.path][i]]
      ensures |order[node.path]| == |node.children|
    {
      ghost var p := node.path;
      assert Placed(p) && NodeShaped(order, p);
      ghost var q := Parent(p);
      assert Placed(q) && p == q + [p[|p| - 1]];
      ghost var k :| 0 <= k < |order[q]| && order[q][k] == p[|p| - 1];
      assert node.parent.children[k] == node;
      i :| 0 <= i < |node.parent.children| && node.parent.children[i] == node;
      assert Placed(q + [order[q][i]]);
    }

    /** g_node_unlink and esconf_proptree_destroy of a node without children. */
    method RemoveLeaf(node: GNode, parent: GNode)
      requires Valid() && Has(node) && node != root && node.children == [] && node.parent == parent
      modifies this`nodes, this`tree, this`order, parent`children
      ensures Valid()
      ensures Repr == old(Repr)
      ensures nodes == old(nodes) - {node.path} && tree == old(tree) - {node.path}
    {
      var i := IndexInParent(node);
      ghost var p, q := node.path, parent.path;
      RemoveShaped(order, q, i);
      parent.children := parent.children[..i] + parent.children[i + 1..];
      nodes := nodes - {p};
      tree := tree - {p};
      order := RemoveChild(order, q, i);
      assert order.Keys == nodes.Keys;
      forall r | r in nodes
        ensures Placed(r)
      {
        assert old(Placed(r));
        RemoveLinks(old(nodes), old(order), q, i, r, nodes[r], nodes[r].parent, old(nodes[r].children));
      }
    }

    // ---------- adding ----------

    /** `esconf_proptree_add_property`: finds or recursively creates the parent, then appends.  The
        property must not be there yet, and its name must fit the buffer. */
    method AddProperty(name: string, value: Option<Value>, locked: bool) returns (node: GNode)
      requires Valid() && PropNameIsValid(name) && |name| < MAX_PROP_PATH && Components(name) !in nodes
      modifies this`nodes, this`tree, this`order, this`Repr, Repr`children
      ensures Valid() && Has(node) && node.path == Components(name)
      ensures tree == AddNode(old(tree), Components(name), Data(value, None, locked))
      ensures fresh(Repr - old(Repr)) && old(Repr) <= Repr
      ensures Extends(old(nodes), nodes)
      decreases |name|, 1
    {
      var i := LastSlash(name);
      ghost var p := Components(name);
      CutLast(name);
      var parent := EnsureParent(name);
      assert parent.path + [name[i + 1..]] == p;
      node := AppendData(parent, name[i + 1..], value, locked);
    }

    method EnsureParent(name: string) returns (parent: GNode)
      requires Valid() && PropNameIsValid(name) && |name| < MAX_PROP_PATH && Components(name) !in nodes
      modifies this`nodes, this`tree, this`order, this`Repr, Repr`children
      ensures Valid() && Has(parent) && parent.path == Parent(Components(name))
      ensures tree == WithParent(old(tree), Components(name)) && Components(name) !in nodes
      ensures fresh(Repr - old(Repr)) && old(Repr) <= Repr
      ensures Extends(old(nodes), nodes)
      decreases |name|, 0
    {
      ShapedIsClosed(order, tree);
      CutName(tree, name);
      var i := LastSlash(name);
      if i == 0 {
        NodeIs([]);
        return root;
      }
      var found := LookupNode(name[..i]);
      if found == null {
        parent := AddProperty(name[..i], None, false);
      } else {
        NodeIs(Components(name[..i]));
        parent := found;
      }
    }

    /** The node filed under a path is the node of that path. */
    lemma NodeIs(p: Path)
      requires Valid() && p in nodes
      ensures Has(nodes[p]) && nodes[p].path == p
    {
      assert Placed(p);
    }

    /** The name up to its last '/', and what becomes of the tree if its node is ensured. */
    static lemma CutName(t: Tree, name: string)
      requires Closed(t) && PropNameIsValid(name) && Components(name) !in t
      ensures Components(name) != [] && LastSlash(name) >= 0
      ensures var i, p := LastSlash(name), Components(name);
        if i == 0 then Parent(p) == [] && WithParent(t, p) == t
        else
          && PropNameIsValid(name[..i]) && Components(name[..i]) == Parent(p) && Parent(p) != []
          && WithParent(t, p) == (if Parent(p) in t then t else AddNode(t, Parent(p), BLANK))
          && p !in WithParent(t, p)
    {
      CutLast(name);
      ParentIsNew(t, Components(name));
    }

    /** Adding a missing parent does not add the node itself. */
    static lemma ParentIsNew(t: Tree, p: Path)
      requires Closed(t) && p != [] && p !in t
      ensures Parent(p) != [] && Parent(p) !in t ==> p !in AddNode(t, Parent(p), BLANK)
    {
      if Parent(p) != [] && Parent(p) !in t {
        AddNodeMeaning(t, Parent(p), BLANK);
      }
    }

    // ---------- single reset ----------

    /** `esconf_proptree_reset`: takes the user value away; a node that has nothing else goes, and
        with it its parents as long as they have no value and no children. */
    method ResetSingle(name: string) returns (ok: bool)
      requires Valid() && RootIsBlank()
      modifies this`nodes, this`tree, this`order, Repr
      ensures Valid() && Repr == old(Repr)
      ensures !PropNameIsValid(name) ==> !ok && tree == old(tree)
      ensures PropNameIsValid(name) ==>
        var r := ResetOne(old(tree), Components(name)); ok == r.ok && tree == r.tree
    {
      var node := LookupNode(name);
      if node == null {
        return false;
      }
      assert Placed(Components(name));
      IsRoot(node);
      if node.value.None? {
        return false;
      }
      if node.children != [] || node.system.Some? {
        PutValue(node, None);
      } else {
        var i := IndexInParent(node);
        var parent := node.parent;
        ParentOf(parent.path, order[parent.path][i]);
        RemoveLeaf(node, parent);
        PruneUp(parent);
      }
      ok := true;
    }

    ghost predicate RootIsBlank()
      reads `nodes, `tree, `Repr
    {
      [] in tree && tree[[]] == BLANK
    }

    /** The loop that removes emptied parents. */
    method PruneUp(start: GNode)
      requires Valid() && Has(start)
      modifies this`nodes, this`tree, this`order, Repr`children
      ensures Valid() && Repr == old(Repr)
      ensures tree == Prune(old(tree), start.path)
    {
      var parent: GNode? := start;
      while parent != null
        invariant Valid() && Repr == old(Repr)
        invariant parent != null ==> Has(parent) && Prune(old(tree), start.path) == Prune(tree, parent.path)
        invariant parent == null ==> Prune(old(tree), start.path) == tree
        decreases if parent == null then 0 else |parent.path| + 1
      {
        parent := PruneStep(parent);
      }
    }

    /** One round of the loop: the node goes and its parent is next, or the loop is over. */
    method PruneStep(node: GNode) returns (next: GNode?)
      requires Valid() && Has(node)
      modifies this`nodes, this`tree, this`order, Repr`children
      ensures Valid() && Repr == old(Repr)
      ensures next == null ==> tree == Prune(old(tree), node.path)
      ensures next != null ==>
        Has(next) && |next.path| < |node.path| && Prune(tree, next.path) == Prune(old(tree), node.path)
    {
      IsRoot(node);
      ghost var p := node.path;
      if node.value.None? && node.system.None? && node.children == [] && node.name != "/" {
        var i := IndexInParent(node);
        next := node.parent;
        ParentOf(next.path, order[next.path][i]);
        RemoveLeaf(node, next);
      } else {
        next := null;
      }
    }

    lemma ChildCount(node: GNode)
      requires Valid() && Has(node)
      ensures |node.children| == |order[node.path]|
    {
      assert Placed(node.path);
    }

    /** The children of a node are nodes of the tree, one component below it. */
    lemma ChildrenOf(node: GNode)
      requires Valid() && Has(node)
      ensures |node.children| == |order[node.path]| && DistinctNames(order[node.path])
      ensures forall i {:trigger node.children[i]} :: 0 <= i < |node.children| ==>
        && Has(node.children[i]) && node.children[i].path == node.path + [order[node.path][i]]
        && node.children[i] != root
    {
      assert Placed(node.path) && NodeShaped(order, node.path) && Placed([]);
      forall i | 0 <= i < |node.children|
        ensures Placed(node.path + [order[node.path][i]])
      {
      }
    }

    /** The root is the only node named "/", and a node lists children exactly when it has some. */
    lemma IsRoot(node: GNode)
      requires Valid() && Has(node)
      ensures node.name == "/" <==> node.path == []
      ensures node.path == [] <==> node == root
      ensures HasChild(tree, node.path) <==> node.children != []
      ensures tree[node.path] == Data(node.value, node.system, node.locked)
    {
      assert Placed(node.path) && NodeShaped(order, node.path) && Placed([]);
      assert "/"[0] == '/' && !SlashFree("/");
      ShapedIsClosed(order, tree);
    }
  }
}
