/** The tree simulates two flat maps, one of user values and one of system defaults. */
module FlatMaps {
  import opened Base
  import opened Values
  import opened Names
  import opened TreeModel

  function UserMap(t: Tree): map<Path, Value> {
    map p | p in t && t[p].user.Some? :: t[p].user.value
  }

  function SystemMap(t: Tree): map<Path, Value> {
    map p | p in t && t[p].system.Some? :: t[p].system.value
  }

  function LockedSet(t: Tree): set<Path> {
    set p | p in t && t[p].locked
  }

  // ---------- the flat specification ----------

  datatype Maps = Maps(user: map<Path, Value>, system: map<Path, Value>, locked: set<Path>)

  function MapsOf(t: Tree): Maps {
    Maps(UserMap(t), SystemMap(t), LockedSet(t))
  }

  function Effective(m: Maps, p: Path): Option<Value> {
    FirstOf(Lookup(m.user, p), Lookup(m.system, p))
  }

  datatype Op =
    | Set(p: Path, v: Value)
    | Reset(p: Path)
    | ResetAll(base: Path)

  /** What one operation does to the two maps.  System entries never change; locks never appear,
      and only a property without any value at or below it can lose its lock. */
  ghost predicate FlatStep(m: Maps, op: Op, ok: bool, m': Maps) {
    && m'.system == m.system && m'.locked <= m.locked
    && (forall q :: q in m.locked && q !in m'.locked ==>
          forall r :: r in m'.user.Keys + m'.system.Keys ==> !Below(q, r))
    && match op
       case Set(p, v) =>
         && (ok <==> p !in m.locked) && m'.locked == m.locked
         && m'.user == if !ok || IsEqual(Effective(m, p), Some(v)) then m.user else m.user[p := v]
       case Reset(p) =>
         (ok <==> p in m.user) && m'.user == m.user - {p}
       case ResetAll(base) =>
         && m'.locked == m.locked
         && (ok ==> m'.user == map p | p in m.user && !Below(base, p) :: m.user[p])
         && (!ok ==> m'.user == m.user && forall p :: p in m.user.Keys + m.system.Keys ==> !Below(base, p))
  }

  // ---------- the tree takes flat steps ----------

  ghost function Apply(t: Tree, op: Op): Result
    requires op.Set? ==> op.p != []
  {
    match op
    case Set(p, v) => SetValue(t, p, v)
    case Reset(p) => ResetOne(t, p)
    case ResetAll(base) => ResetBelow(t, base)
  }

  lemma GetIsEffective(t: Tree, p: Path)
    ensures GetValue(t, p) == Effective(MapsOf(t), p)
  {
  }

  /** The root never carries anything. */
  predicate RootBlank(t: Tree) {
    [] in t && t[[]] == BLANK
  }

  lemma SetIsFlat(t: Tree, p: Path, v: Value)
    requires Closed(t) && p != []
    ensures var r := SetValue(t, p, v); Closed(r.tree) && FlatStep(MapsOf(t), Set(p, v), r.ok, MapsOf(r.tree))
    ensures RootBlank(t) ==> RootBlank(SetValue(t, p, v).tree)
  {
    GetIsEffective(t, p);
    if p in t {
      UserChange(t, p, Some(v));
    } else {
      AddIsFlat(t, p, v);
      assert !IsEqual(None, Some(v));
    }
  }

  lemma AddIsFlat(t: Tree, p: Path, v: Value)
    requires Closed(t) && p != [] && p !in t
    ensures var t' := AddNode(t, p, Data(Some(v), None, false));
      && Closed(t') && (RootBlank(t) ==> RootBlank(t'))
      && MapsOf(t') == MapsOf(t).(user := UserMap(t)[p := v])
  {
    AddNodeMeaning(t, p, Data(Some(v), None, false));
    var t' := AddNode(t, p, Data(Some(v), None, false));
    NoNewDefaults(t, t');
    assert UserMap(t') == UserMap(t)[p := v];
  }

  /** New nodes without default and lock. */
  lemma NoNewDefaults(t: Tree, t': Tree)
    requires forall q :: q in t ==> q in t' && t'[q] == t[q]
    requires forall q :: q in t' && q !in t ==> t'[q].system == None && !t'[q].locked
    ensures SystemMap(t') == SystemMap(t) && LockedSet(t') == LockedSet(t)
  {
  }

  /** A new user value, or none, on a node that is there. */
  lemma UserChange(t: Tree, p: Path, v: Option<Value>)
    requires Closed(t) && p in t
    ensures var t' := t[p := t[p].(user := v)];
      && Closed(t') && (p != [] && RootBlank(t) ==> RootBlank(t'))
      && MapsOf(t') == MapsOf(t).(user := if v.Some? then UserMap(t)[p := v.value] else UserMap(t) - {p})
  {
    var t' := t[p := t[p].(user := v)];
    assert SystemMap(t') == SystemMap(t);
    assert LockedSet(t') == LockedSet(t);
    assert UserMap(t') == if v.Some? then UserMap(t)[p := v.value] else UserMap(t) - {p};
  }

  lemma ResetIsFlat(t: Tree, p: Path)
    requires Closed(t) && RootBlank(t)
    ensures var r := ResetOne(t, p); Closed(r.tree) && FlatStep(MapsOf(t), Reset(p), r.ok, MapsOf(r.tree))
    ensures RootBlank(ResetOne(t, p).tree)
  {
    var r := ResetOne(t, p);
    if !r.ok {
      assert UserMap(t) - {p} == UserMap(t);
    } else if HasChild(t, p) || t[p].system.Some? {
      UserChange(t, p, None);
    } else {
      RemoveLeafClosed(t, p);
      NothingBelow(t, p);
      var t1, t' := t - {p}, r.tree;
      PruneIsFlat(t1, Parent(p));
      assert UserMap(t1) == UserMap(t) - {p};
      assert SystemMap(t1) == SystemMap(t);
      forall q, s | q in LockedSet(t) && q !in LockedSet(t') && s in UserMap(t').Keys + SystemMap(t').Keys
        ensures !Below(q, s)
      {
        assert s in t && s != p && !StrictlyBelow(p, s);
        if q != p {
          assert q in t1 && q !in t';
        }
      }
    }
  }

  /** Pruning takes no value away, and locks only where nothing is left. */
  lemma PruneIsFlat(t: Tree, p: Path)
    requires Closed(t)
    ensures var t' := Prune(t, p);
      && Closed(t') && UserMap(t') == UserMap(t) && SystemMap(t') == SystemMap(t)
      && LockedSet(t') <= LockedSet(t)
      && (RootBlank(t) ==> RootBlank(t'))
      && (forall q :: q in t' ==> q in t && t'[q] == t[q])
      && forall q :: q in t && q !in t' ==>
           forall r :: r in UserMap(t').Keys + SystemMap(t').Keys ==> !Below(q, r)
  {
    var k := PruneMeaning(t, p);
    var t' := Prune(t, p);
    forall q, r | q in t && q !in t' && r in UserMap(t').Keys + SystemMap(t').Keys
      ensures !Below(q, r)
    {
      assert OnChain(q, p, k);
      assert StrictlyBelow(q, r) && Below(r, p) ==> OnChain(r, p, k);
    }
  }

  /** One recursive reset: every user value at or below the node goes, and nothing else; the nodes
      of the subtree that stay are those with a system default or a lock at or below them. */
  lemma ResetBelowMeaning(t: Tree, base: Path)
    requires Closed(t) && base in t
    ensures var t' := ResetBelow(t, base).tree;
      && (base != [] ==> Closed(t'))
      && (forall p :: p in t && !Below(base, p) ==> p in t' && t'[p] == t[p])
      && (forall p :: p in t' ==> p in t)
      && (forall p :: p in t && Below(base, p) ==>
            (p in t' <==> exists q :: q in t && Below(p, q) && (t[q].system.Some? || t[q].locked)))
      && (forall p :: p in t' && Below(base, p) ==> t'[p] == t[p].(user := None))
  {
    var t1 := ClearBelow(t, base);
    var t' := ResetBelow(t, base).tree;
    forall p | p in t && Below(base, p)
      ensures p in t' <==> exists q :: q in t && Below(p, q) && (t[q].system.Some? || t[q].locked)
    {
      assert forall q :: q in t && Below(p, q) ==> Below(base, q);
    }
    if base != [] {
      assert Below(base, []) ==> base == [];
      forall p | p in t' && p != []
        ensures Parent(p) in t'
      {
        if Below(base, Parent(p)) {
          assert Below(base, p);
          var q :| q in t1 && Below(p, q) && (HasValue(t1[q]) || t1[q].locked);
          assert Below(Parent(p), q);
        }
      }
    }
  }

  lemma AncestorIn(t: Tree, base: Path, p: Path)
    requires Closed(t) && p in t && Below(base, p)
    ensures base in t
  {
    AncestorsIn(t, p, |base|);
    assert p[..|base|] == base;
  }

  lemma ResetBelowMaps(t: Tree, base: Path)
    requires Closed(t) && RootBlank(t) && base != [] && base in t
    ensures var t' := ResetBelow(t, base).tree;
      && Closed(t') && RootBlank(t') && SystemMap(t') == SystemMap(t) && LockedSet(t') == LockedSet(t)
      && UserMap(t') == map p | p in UserMap(t) && !Below(base, p) :: UserMap(t)[p]
  {
    var t' := ResetBelow(t, base).tree;
    ResetBelowMeaning(t, base);
    forall p | p in t && (t[p].system.Some? || t[p].locked)
      ensures p in t' && t'[p].system == t[p].system && t'[p].locked == t[p].locked
    {
      assert Below(p, p);
    }
  }

  lemma ResetBelowIsFlat(t: Tree, base: Path)
    requires Closed(t) && RootBlank(t) && base != []
    ensures var r := ResetBelow(t, base); Closed(r.tree) && FlatStep(MapsOf(t), ResetAll(base), r.ok, MapsOf(r.tree))
    ensures RootBlank(ResetBelow(t, base).tree)
  {
    var t' := ResetBelow(t, base).tree;
    if base in t {
      ResetBelowMaps(t, base);
    } else {
      forall p | p in t
        ensures !Below(base, p)
      {
        if Below(base, p) {
          AncestorIn(t, base, p);
        }
      }
    }
  }

  // ---------- whole runs ----------

  predicate GoodOp(op: Op) {
    match op
    case Set(p, _) => p != []
    case Reset(_) => true
    case ResetAll(base) => base != []
  }

  predicate GoodOps(ops: seq<Op>) {
    forall i :: 0 <= i < |ops| ==> GoodOp(ops[i])
  }

  lemma ApplyIsFlat(t: Tree, op: Op)
    requires Closed(t) && RootBlank(t) && GoodOp(op)
    ensures var r := Apply(t, op);
      Closed(r.tree) && RootBlank(r.tree) && FlatStep(MapsOf(t), op, r.ok, MapsOf(r.tree))
  {
    match op
    case Set(p, v) => SetIsFlat(t, p, v);
    case Reset(p) => ResetIsFlat(t, p);
    case ResetAll(base) => ResetBelowIsFlat(t, base);
  }

  ghost function TreeRun(t: Tree, ops: seq<Op>): Tree
    requires GoodOps(ops)
    decreases |ops|
  {
    if ops == [] then t else TreeRun(Apply(t, ops[0]).tree, ops[1..])
  }

  /** The return values of the operations of a run. */
  ghost function TreeAnswers(t: Tree, ops: seq<Op>): seq<bool>
    requires GoodOps(ops)
    decreases |ops|
  {
    if ops == [] then []
    else [Apply(t, ops[0]).ok] + TreeAnswers(Apply(t, ops[0]).tree, ops[1..])
  }

  /** The flat maps can take a run of steps with these answers. */
  ghost predicate FlatRun(m: Maps, ops: seq<Op>, answers: seq<bool>, m': Maps)
    decreases |ops|
  {
    if ops == [] then answers == [] && m' == m
    else answers != [] && exists m1 :: FlatStep(m, ops[0], answers[0], m1) && FlatRun(m1, ops[1..], answers[1..], m')
  }

  /** Refinement: every run of the tree is a run of the two flat maps, with the same answers. */
  lemma {:induction false} TreeRefinesMaps(t: Tree, ops: seq<Op>)
    requires Closed(t) && RootBlank(t) && GoodOps(ops)
    ensures Closed(TreeRun(t, ops)) && RootBlank(TreeRun(t, ops))
    ensures FlatRun(MapsOf(t), ops, TreeAnswers(t, ops), MapsOf(TreeRun(t, ops)))
    decreases |ops|
  {
    if ops != [] {
      ApplyIsFlat(t, ops[0]);
      var t1 := Apply(t, ops[0]).tree;
      TreeRefinesMaps(t1, ops[1..]);
      assert TreeAnswers(t, ops)[1..] == TreeAnswers(t1, ops[1..]);
      assert FlatStep(MapsOf(t), ops[0], TreeAnswers(t, ops)[0], MapsOf(t1));
    }
  }

  /** No run of sets and resets changes a system default or adds a lock. */
  lemma {:induction false} RunKeepsDefaults(t: Tree, ops: seq<Op>)
    requires Closed(t) && RootBlank(t) && GoodOps(ops)
    ensures SystemMap(TreeRun(t, ops)) == SystemMap(t) && LockedSet(TreeRun(t, ops)) <= LockedSet(t)
    decreases |ops|
  {
    if ops != [] {
      ApplyIsFlat(t, ops[0]);
      RunKeepsDefaults(Apply(t, ops[0]).tree, ops[1..]);
    }
  }

  // ---------- locks ----------

  /** No locked property has a user value: so it is after loading, and so it stays. */
  predicate LocksClean(m: Maps) {
    m.locked !! m.user.Keys
  }

  lemma FlatStepKeepsLocks(m: Maps, op: Op, ok: bool, m': Maps)
    requires LocksClean(m) && FlatStep(m, op, ok, m')
    ensures LocksClean(m')
    ensures forall p :: p in m.locked && p in m.system ==>
      p in m'.locked && p in m'.system && Effective(m', p) == Effective(m, p)
  {
    forall p | p in m.locked && p in m.system
      ensures p in m'.locked && p in m'.system && Effective(m', p) == Effective(m, p)
    {
      assert Below(p, p);
    }
  }

  /** Locked means fixed: through every run of sets and resets, a locked property with a system
      default keeps its lock and its effective value. */
  lemma {:induction false} LockedIsFixed(t: Tree, ops: seq<Op>, p: Path)
    requires Closed(t) && RootBlank(t) && GoodOps(ops)
    requires LocksClean(MapsOf(t)) && p in LockedSet(t) && p in SystemMap(t)
    ensures var t' := TreeRun(t, ops);
      && p in LockedSet(t') && GetValue(t', p) == GetValue(t, p) == Some(SystemMap(t)[p])
      && LocksClean(MapsOf(t'))
    decreases |ops|
  {
    GetIsEffective(t, p);
    if ops != [] {
      var t1 := Apply(t, ops[0]).tree;
      ApplyIsFlat(t, ops[0]);
      FlatStepKeepsLocks(MapsOf(t), ops[0], Apply(t, ops[0]).ok, MapsOf(t1));
      GetIsEffective(t1, p);
      LockedIsFixed(t1, ops[1..], p);
    }
  }

  lemma {:induction false} ShapeOverRuns(t: Tree, ops: seq<Op>)
    requires Closed(t) && RootBlank(t) && GoodOps(ops) && NoDanglingLeaf(t)
    requires forall i :: 0 <= i < |ops| ==> !ops[i].ResetAll?
    ensures NoDanglingLeaf(TreeRun(t, ops))
    decreases |ops|
  {
    if ops != [] {
      match ops[0] {
        case Set(p, v) => SetKeepsShape(t, p, v);
        case Reset(p) => ResetKeepsShape(t, p);
        case ResetAll(_) => assert false;
      }
      ApplyIsFlat(t, ops[0]);
      ShapeOverRuns(Apply(t, ops[0]).tree, ops[1..]);
    }
  }
}
