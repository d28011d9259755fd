/** The property tree of a channel as a map from paths to node contents, and what each operation
    does to it (esconfd/esconf-backend-perchannel-xml.c).  The heap tree in `Proptree` is proved
    against these functions. */
module TreeModel {
  import opened Base
  import opened Values
  import opened Names

  /** EsconfProperty without its name: user value, system default, lock. */
  datatype Data = Data(user: Option<Value>, system: Option<Value>, locked: bool)

  const BLANK := Data(None, None, false)

  type Tree = map<Path, Data>

  /** The tree of a channel without properties: the root node "/" has the empty path. */
  const EMPTY_TREE: Tree := map[[] := BLANK]

  function Parent(p: Path): Path
    requires p != []
  {
    p[..|p| - 1]
  }

  /** A tree: the root is there, and with every other node its parent. */
  predicate Closed(t: Tree) {
    [] in t && forall p {:trigger Parent(p)} :: p in t && p != [] ==> Parent(p) in t
  }

  /** Every node but the root has a valid name. */
  predicate ValidNodes(t: Tree) {
    forall p :: p in t && p != [] ==> ValidPath(p)
  }

  function EffectiveOf(d: Data): Option<Value> {
    FirstOf(d.user, d.system)
  }

  predicate HasValue(d: Data) {
    d.user.Some? || d.system.Some?
  }

  ghost predicate HasChild(t: Tree, p: Path) {
    exists name: string :: p + [name] in t
  }

  /** `q` is `p` or lies below it. */
  predicate Below(p: Path, q: Path) {
    p <= q
  }

  predicate StrictlyBelow(p: Path, q: Path) {
    p <= q && p != q
  }

  // ---------- operations ----------

  /** `esconf_proptree_add_property`: missing ancestors are created blank. */
  function AddNode(t: Tree, p: Path, d: Data): Tree
    requires p != []
    decreases |p|, 1
  {
    WithParent(t, p)[p := d]
  }

  function WithParent(t: Tree, p: Path): Tree
    requires p != []
    decreases |p|, 0
  {
    if |p| == 1 || Parent(p) in t then t else AddNode(t, Parent(p), BLANK)
  }

  datatype Result = Result(tree: Tree, ok: bool, notified: bool)

  /** `esconf_backend_perchannel_xml_set` on the tree of its channel. */
  function SetValue(t: Tree, p: Path, v: Value): Result
    requires p != []
  {
    if p in t then
      if t[p].locked then Result(t, false, false)
      else if IsEqual(EffectiveOf(t[p]), Some(v)) then Result(t, true, false)
      else Result(t[p := t[p].(user := Some(v))], true, true)
    else Result(AddNode(t, p, Data(Some(v), None, false)), true, true)
  }

  /** `esconf_backend_perchannel_xml_get`. */
  function GetValue(t: Tree, p: Path): Option<Value> {
    if p in t then EffectiveOf(t[p]) else None
  }

  /** The upward loop of `esconf_proptree_reset`: nodes without value and children go, whatever
      their lock; the root stays. */
  ghost function Prune(t: Tree, p: Path): Tree
    decreases |p|
  {
    if p == [] || p !in t || HasValue(t[p]) || HasChild(t, p) then t
    else Prune(t - {p}, Parent(p))
  }

  ghost function ResetOne(t: Tree, p: Path): Result {
    if p !in t || p == [] || t[p].user.None? then Result(t, false, false)
    else if HasChild(t, p) || t[p].system.Some? then Result(t[p := t[p].(user := None)], true, true)
    else Result(Prune(t - {p}, Parent(p)), true, true)
  }

  /** First pass of a recursive reset: the user values at and below `base` go. */
  function ClearBelow(t: Tree, base: Path): Tree {
    map p | p in t :: if Below(base, p) then t[p].(user := None) else t[p]
  }

  /** A node is kept by the clean-up if it, or a node below it, has a value or a lock. */
  ghost predicate Needed(t: Tree, p: Path) {
    exists q :: q in t && Below(p, q) && (HasValue(t[q]) || t[q].locked)
  }

  /** Second pass: what is not needed goes. */
  ghost function CleanUp(t: Tree, base: Path): Tree {
    map p | p in t && (Below(base, p) ==> Needed(t, p)) :: t[p]
  }

  ghost function ResetBelow(t: Tree, base: Path): Result {
    if base !in t then Result(t, false, false) else Result(CleanUp(ClearBelow(t, base), base), true, true)
  }

  /** A set announces exactly the sets that go through and would not compare equal, and then the value is
      there; otherwise nothing changes.  A reset announces exactly the loss of a user value. */
  lemma OnlyChangesNotify(t: Tree, p: Path, v: Value)
    requires p != []
    ensures var r := SetValue(t, p, v);
      && (r.notified <==> r.ok && !IsEqual(GetValue(t, p), Some(v)))
      && (r.ok <==> !(p in t && t[p].locked))
      && (if r.notified then GetValue(r.tree, p) == Some(v) else r.tree == t)
    ensures var r := ResetOne(t, p);
      && (r.notified <==> r.ok) && (r.ok <==> p in t && t[p].user.Some?) && (!r.ok ==> r.tree == t)
  {
    assert !IsEqual(None, Some(v));
  }

  // ---------- what adding does ----------

  /** Adding with its recursive parent creation changes the contents of exactly one path; the other
      new paths are the missing ancestors, and they are blank. */
  lemma {:induction false} AddNodeMeaning(t: Tree, p: Path, d: Data)
    requires Closed(t) && p != [] && p !in t
    ensures var t' := AddNode(t, p, d);
      && Closed(t') && t'[p] == d
      && (forall q :: q in t ==> q in t' && t'[q] == t[q])
      && (forall q :: q in t' && q !in t && q != p ==> StrictlyBelow(q, p) && t'[q] == BLANK)
    decreases |p|
  {
    if |p| > 1 && Parent(p) !in t {
      AddNodeMeaning(t, Parent(p), BLANK);
    }
  }

  // ---------- what pruning does ----------

  lemma ChildHasParent(t: Tree, p: Path)
    requires Closed(t)
    ensures HasChild(t, p) <==> exists q :: q in t && q != [] && Parent(q) == p
  {
    if HasChild(t, p) {
      var name: string :| p + [name] in t;
      assert Parent(p + [name]) == p;
    }
    if q :| q in t && q != [] && Parent(q) == p {
      assert q == p + [q[|q| - 1]];
    }
  }

  lemma RemoveLeafClosed(t: Tree, p: Path)
    requires Closed(t) && p != [] && !HasChild(t, p)
    ensures Closed(t - {p})
  {
    ChildHasParent(t, p);
  }

  /** The links of a chain going up from `p`, excluding its first `k` components. */
  predicate OnChain(q: Path, p: Path, k: nat) {
    Below(q, p) && k < |q|
  }

  /** Pruning removes exactly a chain of ancestors: each removed node had no value and no child
      outside the chain, and the chain is maximal. */
  lemma {:induction false} PruneMeaning(t: Tree, p: Path) returns (k: nat)
    requires Closed(t)
    ensures k <= |p| && Closed(Prune(t, p))
    ensures forall q :: q in Prune(t, p) <==> q in t && !OnChain(q, p, k)
    ensures forall q :: q in Prune(t, p) ==> Prune(t, p)[q] == t[q]
    ensures forall q :: q in t && OnChain(q, p, k) ==> q != [] && !HasValue(t[q])
    ensures forall q :: q in t && OnChain(q, p, k) ==> forall r :: r in t && StrictlyBelow(q, r) ==> Below(r, p)
    ensures var top := p[..k]; top == [] || top !in t || HasValue(t[top]) || HasChild(Prune(t, p), top)
    decreases |p|
  {
    if p == [] || p !in t || HasValue(t[p]) || HasChild(t, p) {
      k := |p|;
      assert p[..k] == p;
    } else {
      RemoveLeafClosed(t, p);
      NothingBelow(t, p);
      k := PruneMeaning(t - {p}, Parent(p));
      AboveParent(p);
      assert p[..k] == Parent(p)[..k];
    }
  }

  lemma AboveParent(p: Path)
    requires p != []
    ensures forall q :: Below(q, p) <==> q == p || Below(q, Parent(p))
  {
    forall q
      ensures Below(q, p) <==> q == p || Below(q, Parent(p))
    {
      if q <= p && q != p {
        assert q == Parent(p)[..|q|];
      }
    }
  }

  lemma BelowMeansChild(t: Tree, p: Path, q: Path)
    requires Closed(t) && q in t && StrictlyBelow(p, q)
    ensures HasChild(t, p)
  {
    AncestorsIn(t, q, |p| + 1);
    assert q[..|p| + 1] == p + [q[|p|]];
  }

  /** Below a node without children there is nothing. */
  lemma NothingBelow(t: Tree, p: Path)
    requires Closed(t) && !HasChild(t, p)
    ensures forall q :: q in t ==> !StrictlyBelow(p, q)
  {
    forall q | q in t
      ensures !StrictlyBelow(p, q)
    {
      if StrictlyBelow(p, q) {
        BelowMeansChild(t, p, q);
      }
    }
  }

  lemma {:induction false} AncestorsIn(t: Tree, q: Path, n: nat)
    requires Closed(t) && q in t && n <= |q|
    ensures q[..n] in t
    decreases |q|
  {
    if n == |q| {
      assert q[..n] == q;
    } else {
      AncestorsIn(t, Parent(q), n);
      assert Parent(q)[..n] == q[..n];
    }
  }

  // ---------- shape ----------

  /** Every node below the root that has no children has a value. */
  ghost predicate NoDanglingLeaf(t: Tree) {
    forall p :: p in t && p != [] && !HasChild(t, p) ==> HasValue(t[p])
  }

  lemma SetKeepsShape(t: Tree, p: Path, v: Value)
    requires Closed(t) && p != [] && NoDanglingLeaf(t)
    ensures Closed(SetValue(t, p, v).tree) && NoDanglingLeaf(SetValue(t, p, v).tree)
  {
    var t' := SetValue(t, p, v).tree;
    if p !in t {
      AddNodeMeaning(t, p, Data(Some(v), None, false));
      forall q | q in t' && q != []
        ensures HasChild(t', q) || HasValue(t'[q])
      {
        if q in t {
          assert forall name: string :: q + [name] in t ==> q + [name] in t';
        } else if q != p {
          BelowMeansChild(t', q, p);
        }
      }
    } else {
      assert forall q :: HasChild(t, q) ==> HasChild(t', q) by {
        assert t.Keys == t'.Keys;
      }
    }
  }

  /** Single reset prunes exactly what would otherwise dangle. */
  lemma ResetKeepsShape(t: Tree, p: Path)
    requires Closed(t) && NoDanglingLeaf(t)
    ensures Closed(ResetOne(t, p).tree) && NoDanglingLeaf(ResetOne(t, p).tree)
  {
    var r := ResetOne(t, p);
    if r.ok {
      if HasChild(t, p) || t[p].system.Some? {
        assert forall q :: HasChild(t, q) ==> HasChild(r.tree, q) by {
          assert t.Keys == r.tree.Keys;
        }
      } else {
        RemoveLeafClosed(t, p);
        PruneRemovesDangling(t, p);
      }
    }
  }

  lemma PruneRemovesDangling(t: Tree, p: Path)
    requires Closed(t) && NoDanglingLeaf(t) && p in t && p != [] && !HasChild(t, p)
    ensures Closed(Prune(t - {p}, Parent(p))) && NoDanglingLeaf(Prune(t - {p}, Parent(p)))
  {
    RemoveLeafClosed(t, p);
    var t1 := t - {p};
    var k := PruneMeaning(t1, Parent(p));
    var t' := Prune(t1, Parent(p));
    forall q | q in t' && q != [] && !HasValue(t'[q])
      ensures HasChild(t', q)
    {
      var name: string :| q + [name] in t;
      if q + [name] !in t' {
        EndOfChain(q, name, p, k);
      }
    }
  }

  /** A node that stays although the chain takes its child is the one where the chain ends. */
  lemma EndOfChain(q: Path, name: string, p: Path, k: nat)
    requires p != [] && k <= |Parent(p)| && !OnChain(q, Parent(p), k)
    requires q + [name] == p || OnChain(q + [name], Parent(p), k)
    ensures q == Parent(p)[..k]
  {
    assert q + [name] <= p;
    assert q == p[..|q|] == Parent(p)[..|q|];
  }
}
