/** Visiting a subtree child by child, on the value of the tree. */
module Subtrees {
  import opened Base
  import opened Values
  import opened Names
  import opened TreeModel
  import opened TreeOrder

  /** `q` lies in the subtree of one of the children `names` of `p`. */
  ghost predicate UnderOne(p: Path, names: seq<string>, q: Path) {
    exists i :: 0 <= i < |names| && Below(p + [names[i]], q)
  }

  lemma UnderOneMore(p: Path, names: seq<string>, name: string, q: Path)
    ensures UnderOne(p, names + [name], q) <==> UnderOne(p, names, q) || Below(p + [name], q)
  {
    var more := names + [name];
    if UnderOne(p, names, q) {
      var i :| 0 <= i < |names| && Below(p + [names[i]], q);
      assert more[i] == names[i];
    }
    if Below(p + [name], q) {
      assert more[|names|] == name;
    }
  }

  lemma SiblingsApart(p: Path, names: seq<string>, name: string, q: Path)
    requires name !in names && UnderOne(p, names, q)
    ensures !Below(p + [name], q)
  {
    var i :| 0 <= i < |names| && Below(p + [names[i]], q);
    assert q[|p|] == names[i];
  }

  /** What is at or below a node is the node itself or below one of its children. */
  lemma BelowNode(o: Order, t: Tree, p: Path, q: Path)
    requires Shaped(o) && t.Keys == o.Keys && p in o && q in o
    ensures Below(p, q) <==> q == p || UnderOne(p, o[p], q)
  {
    if Below(p, q) && q != p {
      UnderChild(o, t, p, q);
    }
    if UnderOne(p, o[p], q) {
      var i :| 0 <= i < |o[p]| && Below(p + [o[p][i]], q);
      assert q[..|p|] == (p + [o[p][i]])[..|p|] == p;
    }
  }

  lemma UnderChild(o: Order, t: Tree, p: Path, q: Path)
    requires Shaped(o) && t.Keys == o.Keys && p in o && q in o && StrictlyBelow(p, q)
    ensures UnderOne(p, o[p], q)
  {
    ShapedIsClosed(o, t);
    var name := q[|p|];
    AncestorsIn(t, q, |p| + 1);
    assert q[..|p| + 1] == p + [name];
    ChildIsListed(o, p, name);
    var i :| 0 <= i < |o[p]| && o[p][i] == name;
    assert Below(p + [o[p][i]], q);
  }

  // ---------- first pass of a recursive reset ----------

  ghost function ClearKids(t: Tree, p: Path, names: seq<string>): Tree {
    map q | q in t :: if UnderOne(p, names, q) then t[q].(user := None) else t[q]
  }

  lemma ClearNext(t: Tree, p: Path, names: seq<string>, name: string)
    ensures ClearBelow(ClearKids(t, p, names), p + [name]) == ClearKids(t, p, names + [name])
  {
    forall q | q in t
      ensures ClearBelow(ClearKids(t, p, names), p + [name])[q] == ClearKids(t, p, names + [name])[q]
    {
      UnderOneMore(p, names, name, q);
    }
  }

  lemma ClearSelf(o: Order, t: Tree, p: Path)
    requires Shaped(o) && t.Keys == o.Keys && p in o
    ensures var t1 := ClearKids(t, p, o[p]);
      && t1[p] == t[p] && ClearBelow(t, p) == t1[p := t1[p].(user := None)]
  {
    forall q | q in t
      ensures Below(p, q) <==> q == p || UnderOne(p, o[p], q)
    {
      BelowNode(o, t, p, q);
    }
    assert !UnderOne(p, o[p], p);
  }

  // ---------- second pass ----------

  ghost function CleanKids(t: Tree, p: Path, names: seq<string>): Tree {
    map q | q in t && (UnderOne(p, names, q) ==> Needed(t, q)) :: t[q]
  }

  lemma CleanNext(t: Tree, p: Path, names: seq<string>, name: string)
    requires name !in names
    ensures CleanUp(CleanKids(t, p, names), p + [name]) == CleanKids(t, p, names + [name])
  {
    var t1 := CleanKids(t, p, names);
    forall q | q in t
      ensures q in CleanUp(t1, p + [name]) <==> q in CleanKids(t, p, names + [name])
    {
      UnderOneMore(p, names, name, q);
      if Below(p + [name], q) {
        forall r | r in t && Below(q, r)
          ensures r in t1 && t1[r] == t[r]
        {
          assert Below(p + [name], r);
          if UnderOne(p, names, r) {
            SiblingsApart(p, names, name, r);
          }
        }
        assert Needed(t1, q) <==> Needed(t, q);
      }
    }
  }

  /** With the children's subtrees cleaned, the node is needed if it carries something itself or
      still has a child. */
  lemma CleanSelf(o: Order, t: Tree, p: Path)
    requires Shaped(o) && t.Keys == o.Keys && p in o && p != []
    ensures var t1 := CleanKids(t, p, o[p]);
      && p in t1 && t1[p] == t[p]
      && CleanUp(t, p) == if Carries(t[p]) || HasChild(t1, p) then t1 else t1 - {p}
  {
    var t1 := CleanKids(t, p, o[p]);
    NotUnderSelf(p, o[p]);
    NeededByChild(o, t, p);
    forall q | q in t
      ensures q in CleanUp(t, p) <==> q in (if Needed(t, p) then t1 else t1 - {p})
    {
      BelowNode(o, t, p, q);
    }
  }

  lemma NotUnderSelf(p: Path, names: seq<string>)
    ensures !UnderOne(p, names, p)
  {
  }

  predicate Carries(d: Data) {
    HasValue(d) || d.locked
  }

  lemma NeededByChild(o: Order, t: Tree, p: Path)
    requires Shaped(o) && t.Keys == o.Keys && p in o
    ensures Needed(t, p) <==> Carries(t[p]) || HasChild(CleanKids(t, p, o[p]), p)
  {
    if Carries(t[p]) {
      assert Below(p, p);
    } else if Needed(t, p) {
      var q :| q in t && Below(p, q) && Carries(t[q]);
      KeptChild(o, t, p, q);
    } else if HasChild(CleanKids(t, p, o[p]), p) {
      ChildKept(o, t, p);
    }
  }

  lemma KeptChild(o: Order, t: Tree, p: Path, q: Path)
    requires Shaped(o) && t.Keys == o.Keys && p in o
    requires q in t && StrictlyBelow(p, q) && Carries(t[q])
    ensures HasChild(CleanKids(t, p, o[p]), p)
  {
    ShapedIsClosed(o, t);
    var child := p + [q[|p|]];
    AncestorsIn(t, q, |p| + 1);
    assert q[..|p| + 1] == child && Below(child, q);
    assert Needed(t, child);
    assert p + [q[|p|]] in CleanKids(t, p, o[p]);
  }

  lemma ChildKept(o: Order, t: Tree, p: Path)
    requires Shaped(o) && t.Keys == o.Keys && p in o
    requires HasChild(CleanKids(t, p, o[p]), p)
    ensures Needed(t, p)
  {
    var name: string :| p + [name] in CleanKids(t, p, o[p]);
    assert Below(p, p + [name]);
    BelowNode(o, t, p, p + [name]);
    var q :| q in t && Below(p + [name], q) && Carries(t[q]);
    assert Below(p, q);
  }

  // ---------- enumeration ----------

  function NamesOf(t: Tree): set<string> {
    set p | p in t :: Join(p)
  }

  /** What a listing of the subtree of `base` says about name `s`. */
  function Listed(t: Tree, base: Path, s: string): Option<Value> {
    if s == [] || s[0] != '/' then None
    else
      var q := Components(s);
      if q in t && Below(base, q) then EffectiveOf(t[q]) else None
  }

  /** The listing: the effective values at and below `base`, under their full names. */
  function Listing(t: Tree, base: Path): map<string, Value> {
    map s | s in NamesOf(t) && Listed(t, base, s).Some? :: Listed(t, base, s).value
  }

  ghost function ListedKids(t: Tree, p: Path, names: seq<string>, s: string): Option<Value> {
    if s == [] || s[0] != '/' then None
    else
      var q := Components(s);
      if q in t && UnderOne(p, names, q) then EffectiveOf(t[q]) else None
  }

  ghost function ListingKids(t: Tree, p: Path, names: seq<string>): map<string, Value> {
    map s | s in NamesOf(t) && ListedKids(t, p, names, s).Some? :: ListedKids(t, p, names, s).value
  }

  lemma ListingNext(t: Tree, p: Path, names: seq<string>, name: string)
    ensures ListingKids(t, p, names) + Listing(t, p + [name]) == ListingKids(t, p, names + [name])
  {
    forall s | s in NamesOf(t)
      ensures ListedKids(t, p, names + [name], s) ==
        if Listed(t, p + [name], s).Some? then Listed(t, p + [name], s) else ListedKids(t, p, names, s)
    {
      if s != [] && s[0] == '/' {
        UnderOneMore(p, names, name, Components(s));
      }
    }
  }

  /** A node's own entry. */
  function OwnEntry(t: Tree, p: Path): map<string, Value>
    requires p in t
  {
    match EffectiveOf(t[p])
    case Some(v) => map[Join(p) := v]
    case None => map[]
  }

  lemma ListedSelf(o: Order, t: Tree, p: Path, s: string)
    requires Shaped(o) && t.Keys == o.Keys && p in o && AllSlashFree(p)
    requires [] in t && t[[]] == BLANK
    ensures Listed(t, p, s) == if s == Join(p) then EffectiveOf(t[p]) else ListedKids(t, p, o[p], s)
    ensures s == Join(p) ==> ListedKids(t, p, o[p], s) == None
  {
    ComponentsOfJoin(p);
    JoinStartsWithSlash(p);
    NotUnderSelf(p, o[p]);
    if s != [] && s[0] == '/' {
      JoinOfComponents(s);
      if Components(s) in t {
        BelowNode(o, t, p, Components(s));
      }
    }
  }

  /** A listing is the node's own entry and the listings of its children. */
  lemma ListingSelf(o: Order, t: Tree, p: Path)
    requires Shaped(o) && t.Keys == o.Keys && p in o && AllSlashFree(p)
    requires [] in t && t[[]] == BLANK
    ensures OwnEntry(t, p) + ListingKids(t, p, o[p]) == Listing(t, p)
  {
    assert Join(p) in NamesOf(t);
    forall s
      ensures s in OwnEntry(t, p) + ListingKids(t, p, o[p]) <==> s in Listing(t, p)
      ensures s in Listing(t, p) ==> (OwnEntry(t, p) + ListingKids(t, p, o[p]))[s] == Listing(t, p)[s]
    {
      ListedSelf(o, t, p, s);
      Entered(t, p, o[p], s);
    }
  }

  /** Membership in the maps of a listing. */
  lemma Entered(t: Tree, p: Path, names: seq<string>, s: string)
    requires p in t
    ensures s in Listing(t, p) <==> Listed(t, p, s).Some?
    ensures s in ListingKids(t, p, names) <==> ListedKids(t, p, names, s).Some?
    ensures s in OwnEntry(t, p) <==> s == Join(p) && EffectiveOf(t[p]).Some?
  {
    if s != [] && s[0] == '/' && Components(s) in t {
      JoinOfComponents(s);
    }
  }

  /** A listing holds exactly the names at or below `base` for which a get succeeds, with the value
      of that get. */
  lemma ListingIsPointwise(t: Tree, base: Path, s: string)
    requires s != [] && s[0] == '/'
    ensures s in Listing(t, base) <==> Below(base, Components(s)) && GetValue(t, Components(s)).Some?
    ensures s in Listing(t, base) ==> GetValue(t, Components(s)) == Some(Listing(t, base)[s])
  {
    JoinOfComponents(s);
  }
}
