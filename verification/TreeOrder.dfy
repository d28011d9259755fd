/** The order of siblings: for every path of a tree, the names of its children from first to last. */
module TreeOrder {
  import opened Names
  import opened TreeModel

  type Order = map<Path, seq<string>>

  const EMPTY_ORDER: Order := map[[] := []]

  predicate DistinctNames(names: seq<string>) {
    forall i, j :: 0 <= i < j < |names| ==> names[i] != names[j]
  }

  /** The order lists every node once, under its parent, and siblings have different names. */
  ghost predicate Shaped(o: Order) {
    [] in o && forall p {:trigger NodeShaped(o, p)} :: p in o ==> NodeShaped(o, p)
  }

  ghost predicate NodeShaped(o: Order, p: Path)
    requires p in o
  {
    && (p != [] ==> Parent(p) in o && p[|p| - 1] in o[Parent(p)] && SlashFree(p[|p| - 1]))
    && (forall i :: 0 <= i < |o[p]| ==> p + [o[p][i]] in o)
    && DistinctNames(o[p])
  }

  function AppendChild(o: Order, p: Path, name: string): Order
    requires p in o
  {
    o[p := o[p] + [name]][p + [name] := []]
  }

  function RemoveAt(names: seq<string>, i: nat): seq<string>
    requires i < |names|
  {
    names[..i] + names[i + 1..]
  }

  function RemoveChild(o: Order, p: Path, i: nat): Order
    requires p in o && i < |o[p]|
  {
    o[p := RemoveAt(o[p], i)] - {p + [o[p][i]]}
  }

  lemma ParentOf(p: Path, name: string)
    ensures Parent(p + [name]) == p && p + [name] != p && p + [name] != []
    ensures (p + [name])[|p + [name]| - 1] == name
  {
  }

  lemma ChildIsListed(o: Order, p: Path, name: string)
    requires Shaped(o) && p in o
    ensures p + [name] in o <==> name in o[p]
  {
    assert NodeShaped(o, p);
    ParentOf(p, name);
    if p + [name] in o {
      assert NodeShaped(o, p + [name]);
    }
  }

  lemma AppendShaped(o: Order, p: Path, name: string)
    requires Shaped(o) && p in o && p + [name] !in o && SlashFree(name)
    ensures Shaped(AppendChild(o, p, name))
  {
    var o' := AppendChild(o, p, name);
    ParentOf(p, name);
    assert NodeShaped(o, p);
    assert name !in o[p];
    assert o'[p][|o[p]|] == name;
    forall q | q in o'
      ensures NodeShaped(o', q)
    {
      if q in o {
        assert NodeShaped(o, q);
      }
    }
  }

  lemma RemoveShaped(o: Order, p: Path, i: nat)
    requires Shaped(o) && p in o && i < |o[p]| && p + [o[p][i]] in o && o[p + [o[p][i]]] == []
    ensures Shaped(RemoveChild(o, p, i))
  {
    var name := o[p][i];
    var o' := RemoveChild(o, p, i);
    ParentOf(p, name);
    assert NodeShaped(o, p);
    assert [] in o';
    forall q | q in o'
      ensures NodeShaped(o', q)
    {
      assert NodeShaped(o, q);
      if q == p {
        RemoveAtKeeps(o[p], i);
        forall j | 0 <= j < |o'[p]|
          ensures p + [o'[p][j]] in o'
        {
          ParentOf(p, o'[p][j]);
        }
      } else {
        forall j | 0 <= j < |o'[q]|
          ensures q + [o'[q][j]] in o'
        {
          ParentOf(q, o'[q][j]);
        }
      }
      if q != [] && Parent(q) == p {
        assert q == p + [q[|q| - 1]];
        RemoveAtKeeps(o[p], i);
      }
    }
  }

  lemma RemoveAtKeeps(names: seq<string>, i: nat)
    requires DistinctNames(names) && i < |names|
    ensures DistinctNames(RemoveAt(names, i))
    ensures forall name :: name in RemoveAt(names, i) <==> name in names && name != names[i]
  {
    var rest := RemoveAt(names, i);
    forall name | name in names && name != names[i]
      ensures name in rest
    {
      var j :| 0 <= j < |names| && names[j] == name;
      assert rest[if j < i then j else j - 1] == name;
    }
  }

  lemma ShapedIsClosed(o: Order, t: Tree)
    requires Shaped(o) && t.Keys == o.Keys
    ensures Closed(t)
    ensures forall p :: p in o ==> (o[p] == [] <==> !HasChild(t, p))
  {
    forall p | p in o
      ensures p != [] ==> Parent(p) in o
      ensures o[p] == [] <==> !HasChild(t, p)
    {
      assert NodeShaped(o, p);
      if o[p] != [] {
        assert p + [o[p][0]] in t;
      }
      if HasChild(t, p) {
        var name: string :| p + [name] in t;
        ParentOf(p, name);
        assert NodeShaped(o, p + [name]);
      }
    }
  }
}
