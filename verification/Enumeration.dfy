/** Listing a subtree with one shared path buffer
    (esconfd/esconf-backend-perchannel-xml.c, `esconf_proptree_node_to_hash_table` and get_all). */
module Enumeration {
  import opened Base
  import opened Values
  import opened Names
  import opened TreeModel
  import opened TreeOrder
  import opened Subtrees
  import opened FlatMaps
  import opened Proptree
  import opened Backend

  class PropsHash {
    var entries: map<string, Value>

    constructor ()
      ensures entries == map[]
    {
      entries := map[];
    }
  }

  /** The `cur_path` buffer shared by the whole traversal. */
  class PathBuffer {
    var text: string

    constructor (text: string)
      ensures this.text == text
    {
      this.text := text;
    }

    /** g_strlcat into a buffer of MAX_PROP_PATH bytes. */
    method Append(s: string)
      modifies this
      ensures text == Truncated(old(text) + s)
    {
      text := Truncated(text + s);
    }

    /** Cuts the text at its last '/', if it has one. */
    method Strip()
      modifies this
      ensures text == if LastSlash(old(text)) >= 0 then old(text)[..LastSlash(old(text))] else old(text)
    {
      var p := LastSlash(text);
      if p >= 0 {
        text := text[..p];
      }
    }
  }

  function Truncated(s: string): string {
    if |s| < MAX_PROP_PATH then s else s[..MAX_PROP_PATH - 1]
  }

  /** Every name of the tree fits the buffer. */
  ghost predicate NamesFit(t: Tree) {
    forall p :: p in t ==> AllSlashFree(p) && |Join(p)| < MAX_PROP_PATH
  }

  /** The buffer while the node at `p` is visited: the name of its parent. */
  function BufferAt(p: Path): string {
    if p == [] then "" else Join(Parent(p))
  }

  /** `esconf_proptree_node_to_hash_table`: enters the effective values of the subtree under their
      full names, and leaves the shared buffer as it found it. */
  method NodeToHashTable(c: EsconfChannel, node: GNode, table: PropsHash, curPath: PathBuffer, ghost h: nat)
    requires c.Valid() && RootBlank(c.tree) && c.Has(node) && Bounded(c, h) && NamesFit(c.tree)
    requires curPath.text == BufferAt(node.path)
    modifies table, curPath
    ensures curPath.text == old(curPath.text)
    ensures table.entries == old(table.entries) + Listing(c.tree, node.path)
    decreases h - |node.path|, 3
  {
    EnterOwn(c, node, table, curPath);
    EnterBelow(c, node, table, curPath, h);
    ListingParts(c.order, c.tree, node.path, old(table.entries));
  }

  lemma MergeAssociates<K, V>(a: map<K, V>, b: map<K, V>, c: map<K, V>)
    ensures (a + b) + c == a + (b + c)
  {
  }

  lemma ListingParts(o: Order, t: Tree, p: Path, entries: map<string, Value>)
    requires Shaped(o) && t.Keys == o.Keys && p in o && AllSlashFree(p)
    requires [] in t && t[[]] == BLANK
    ensures entries + OwnEntry(t, p) + ListingKids(t, p, o[p]) == entries + Listing(t, p)
  {
    ListingSelf(o, t, p);
    MergeAssociates(entries, OwnEntry(t, p), ListingKids(t, p, o[p]));
  }

  lemma ListingMore(t: Tree, p: Path, names: seq<string>, name: string, entries: map<string, Value>)
    ensures entries + ListingKids(t, p, names) + Listing(t, p + [name]) == entries + ListingKids(t, p, names + [name])
  {
    ListingNext(t, p, names, name);
    MergeAssociates(entries, ListingKids(t, p, names), Listing(t, p + [name]));
  }

  /** The part for nodes with children: the node's name is added to the buffer and cut off again;
      for the root there is nothing to add, and nothing to cut. */
  method EnterBelow(c: EsconfChannel, node: GNode, table: PropsHash, curPath: PathBuffer, ghost h: nat)
    requires c.Valid() && RootBlank(c.tree) && c.Has(node) && Bounded(c, h) && NamesFit(c.tree)
    requires curPath.text == BufferAt(node.path)
    modifies table, curPath
    ensures curPath.text == old(curPath.text)
    ensures table.entries == old(table.entries) + ListingKids(c.tree, node.path, c.order[node.path])
    decreases h - |node.path|, 2
  {
    NoKidsYet(c.tree, node.path, table.entries);
    c.ChildrenOf(node);
    if node.children != [] {
      EnterName(c, node, curPath);
      EnterKids(c, node, table, curPath, h);
      LeaveName(c, node, curPath);
    }
  }

  method EnterName(c: EsconfChannel, node: GNode, curPath: PathBuffer)
    requires c.Valid() && c.Has(node) && NamesFit(c.tree) && curPath.text == BufferAt(node.path)
    modifies curPath
    ensures curPath.text == Join(node.path)
  {
    NodeName(c, node);
    if node.name == "" || node.name[0] != '/' {
      curPath.Append("/");
      curPath.Append(node.name);
    }
  }

  method LeaveName(c: EsconfChannel, node: GNode, curPath: PathBuffer)
    requires c.Valid() && c.Has(node) && NamesFit(c.tree) && curPath.text == Join(node.path)
    modifies curPath
    ensures curPath.text == BufferAt(node.path)
  {
    NodeName(c, node);
    curPath.Strip();
  }

  /** Adding the name of a node to its buffer fits, and cutting at the last slash undoes it. */
  lemma NodeName(c: EsconfChannel, node: GNode)
    requires c.Valid() && c.Has(node) && NamesFit(c.tree)
    ensures var p := node.path;
      && (node.name != "" && node.name[0] == '/' <==> p == [])
      && (p != [] ==> Truncated(Truncated(BufferAt(p) + "/") + node.name) == Join(p))
      && (p != [] ==> LastSlash(Join(p)) == |BufferAt(p)| && Join(p)[..|BufferAt(p)|] == BufferAt(p))
      && (p == [] ==> BufferAt(p) == Join(p) == "" && LastSlash(Join(p)) == -1)
  {
    var p := node.path;
    assert c.Placed(p) && c.Placed([]) && NodeShaped(c.order, p);
    if p != [] {
      LastSlashOf(Join(Parent(p)), node.name);
    }
  }

  method EnterOwn(c: EsconfChannel, node: GNode, table: PropsHash, curPath: PathBuffer)
    requires c.Valid() && RootBlank(c.tree) && c.Has(node) && NamesFit(c.tree)
    requires curPath.text == BufferAt(node.path)
    modifies table
    ensures table.entries == old(table.entries) + OwnEntry(c.tree, node.path)
  {
    assert c.Placed(node.path);
    c.IsRoot(node);
    if node.value.Some? {
      table.entries := table.entries[curPath.text + "/" + node.name := node.value.value];
    } else if node.system.Some? {
      table.entries := table.entries[curPath.text + "/" + node.name := node.system.value];
    }
  }

  method EnterKids(c: EsconfChannel, node: GNode, table: PropsHash, curPath: PathBuffer, ghost h: nat)
    requires c.Valid() && RootBlank(c.tree) && c.Has(node) && Bounded(c, h) && NamesFit(c.tree)
    requires curPath.text == Join(node.path)
    modifies table, curPath
    ensures curPath.text == old(curPath.text)
    ensures table.entries == old(table.entries) + ListingKids(c.tree, node.path, c.order[node.path])
    decreases h - |node.path|, 1
  {
    ghost var t, p, names, e := c.tree, node.path, c.order[node.path], table.entries;
    c.ChildrenOf(node);
    NoKidsYet(t, p, e);
    for i := 0 to |node.children|
      invariant curPath.text == Join(node.path)
      invariant table.entries == e + ListingKids(t, p, names[..i])
    {
      EnterKid(c, node, i, table, curPath, e, h);
    }
    assert names[..|names|] == names;
  }

  lemma NoKidsYet(t: Tree, p: Path, e: map<string, Value>)
    ensures e + ListingKids(t, p, []) == e
  {
    assert ListingKids(t, p, []) == map[];
  }

  method EnterKid(c: EsconfChannel, node: GNode, i: nat, table: PropsHash, curPath: PathBuffer,
                  ghost e: map<string, Value>, ghost h: nat)
    requires c.Valid() && RootBlank(c.tree) && c.Has(node) && Bounded(c, h) && NamesFit(c.tree)
    requires i < |node.children| == |c.order[node.path]|
    requires curPath.text == Join(node.path)
    requires table.entries == e + ListingKids(c.tree, node.path, c.order[node.path][..i])
    modifies table, curPath
    ensures curPath.text == old(curPath.text)
    ensures table.entries == e + ListingKids(c.tree, node.path, c.order[node.path][..i + 1])
    decreases h - |node.path|, 0
  {
    ghost var p, names, t := node.path, c.order[node.path], c.tree;
    c.ChildrenOf(node);
    ParentOf(p, names[i]);
    assert names[..i + 1] == names[..i] + [names[i]];
    ListingMore(t, p, names[..i], names[i], e);
    NodeToHashTable(c, node.children[i], table, curPath, h);
  }

  /** `esconf_backend_perchannel_xml_get_all`: "" and "/" mean the whole channel. */
  method GetAll(c: EsconfChannel, base: string) returns (r: Option<PropsHash>)
    requires c.Valid() && RootBlank(c.tree) && NamesFit(c.tree)
    requires base == "" || base == "/" || Acceptable(base)
    ensures r.None? <==> |base| > 1 && Components(base) !in c.tree
    ensures r.Some? ==>
      fresh(r.value) && r.value.entries == Listing(c.tree, if |base| > 1 then Components(base) else [])
  {
    ghost var h := Height(c);
    var propsTree, curPath := FindBase(c, base);
    if propsTree == null {
      return None;
    }
    var table := new PropsHash();
    ghost var all := Listing(c.tree, propsTree.path);
    NodeToHashTable(c, propsTree, table, curPath, h);
    FromEmpty(all);
    r := Some(table);
  }

  lemma FromEmpty<K, V>(m: map<K, V>)
    ensures map[] + m == m
  {
  }

  /** Where the enumeration starts, and the buffer it starts with: the name up to its last '/'. */
  method FindBase(c: EsconfChannel, base: string) returns (node: GNode?, curPath: PathBuffer)
    requires c.Valid() && (base == "" || base == "/" || Acceptable(base))
    ensures fresh(curPath)
    ensures node == null <==> |base| > 1 && Components(base) !in c.tree
    ensures node != null ==> c.Has(node) && curPath.text == BufferAt(node.path)
    ensures node != null ==> node.path == if |base| > 1 then Components(base) else []
  {
    if |base| > 1 {
      StartOf(base);
      node := c.LookupNode(base);
      if node != null {
        assert c.Placed(Components(base));
      }
      curPath := new PathBuffer(base);
      curPath.Strip();
    } else {
      assert c.Placed([]);
      node := c.root;
      curPath := new PathBuffer("");
    }
  }

  lemma StartOf(base: string)
    requires Acceptable(base)
    ensures PropNameIsValid(base) && LastSlash(base) >= 0 && Components(base) != []
    ensures base[..LastSlash(base)] == BufferAt(Components(base))
  {
    AcceptedName(base);
    JoinOfComponents(base[..LastSlash(base)]);
  }
}
