/** When a lock survives sets and resets: the exact condition. */
module Locks {
  import opened Base
  import opened Values
  import opened Names
  import opened TreeModel
  import opened FlatMaps

  /** Some node at or below `p` has a system default. */
  ghost predicate DefaultBelow(t: Tree, p: Path) {
    exists q :: q in t && Below(p, q) && t[q].system.Some?
  }

  /** Nothing at or below `p` has a value. */
  predicate Bare(t: Tree, p: Path) {
    forall q :: q in t && Below(p, q) ==> !HasValue(t[q])
  }

  function PathOf(op: Op): Path {
    match op
    case Set(p, _) => p
    case Reset(p) => p
    case ResetAll(base) => base
  }

  /** Operations under valid names. */
  predicate ValidOps(ops: seq<Op>) {
    forall i :: 0 <= i < |ops| ==> ValidPath(PathOf(ops[i]))
  }

  // ---------- with a default the lock stays ----------

  /** Through every run of sets and resets the lock stays as long as a default lies below it, and
      defaults never go. */
  lemma {:induction false} DefaultKeepsLock(t: Tree, ops: seq<Op>, p: Path)
    requires Closed(t) && RootBlank(t) && GoodOps(ops) && p in LockedSet(t) && DefaultBelow(t, p)
    ensures p in LockedSet(TreeRun(t, ops))
    decreases |ops|
  {
    if ops != [] {
      var t1 := Apply(t, ops[0]).tree;
      ApplyIsFlat(t, ops[0]);
      var q :| q in t && Below(p, q) && t[q].system.Some?;
      assert q in SystemMap(t) && q in SystemMap(t1);
      assert p in LockedSet(t1);
      DefaultKeepsLock(t1, ops[1..], p);
    }
  }

  // ---------- without one it can be pruned away ----------

  lemma {:induction false} RunAppend(t: Tree, a: seq<Op>, b: seq<Op>)
    requires GoodOps(a) && GoodOps(b)
    ensures GoodOps(a + b) && TreeRun(t, a + b) == TreeRun(TreeRun(t, a), b)
    decreases |a|
  {
    if a == [] {
      assert a + b == b;
    } else {
      RunAppend(Apply(t, a[0]).tree, a[1..], b);
      assert (a + b)[0] == a[0] && (a + b)[1..] == a[1..] + b;
    }
  }

  lemma {:induction false} LongestOf(paths: set<Path>) returns (q: Path)
    requires paths != {}
    ensures q in paths && forall r :: r in paths ==> |r| <= |q|
    decreases |paths|
  {
    q :| q in paths;
    var rest := paths - {q};
    if rest != {} {
      var r := LongestOf(rest);
      q := if |r| > |q| then r else q;
    }
  }

  lemma DeepestLeaf(t: Tree, p: Path) returns (q: Path)
    requires p in t
    ensures q in t && Below(p, q) && !HasChild(t, q)
  {
    var paths := set r | r in t && Below(p, r);
    assert p in paths;
    q := LongestOf(paths);
    forall name: string
      ensures q + [name] !in t
    {
      assert |q + [name]| > |q| && Below(p, q + [name]);
      assert q + [name] !in paths;
    }
  }

  /** A value is set below the leaf `q` and reset again. */
  function Visit(q: Path): seq<Op> {
    [Set(q + ["x"], One(Bool(true)))] + [Reset(q + ["x"])]
  }

  /** The reset prunes upwards, the leaf first. */
  lemma VisitPrunes(t: Tree, q: Path)
    requires Closed(t) && RootBlank(t) && q in t && q != [] && !HasChild(t, q) && !HasValue(t[q])
    ensures GoodOps(Visit(q)) && TreeRun(t, Visit(q)) == Prune(t, q)
    ensures q !in Prune(t, q)
  {
    var x, v := q + ["x"], One(Bool(true));
    assert Parent(x) == q;
    assert x !in t by {
      assert !HasChild(t, q);
    }
    var t1 := t[x := Data(Some(v), None, false)];
    assert WithParent(t, x) == t;
    assert AddNode(t, x, Data(Some(v), None, false)) == t1;
    assert Apply(t, Set(x, v)).tree == t1;
    forall name: string
      ensures x + [name] !in t1
    {
      assert Parent(x + [name]) == x;
    }
    assert t1 - {x} == t;
    assert ResetOne(t1, x).tree == Prune(t, q);
    assert TreeRun(t1, [Reset(x)]) == ResetOne(t1, x).tree;
    RemoveLeafClosed(t, q);
    PruneIsFlat(t - {q}, Parent(q));
  }

  lemma Smaller(t': Tree, t: Tree, q: Path)
    requires (forall r :: r in t' ==> r in t) && q in t && q !in t'
    ensures |t'.Keys| < |t.Keys|
  {
    assert t'.Keys <= t.Keys - {q};
    SubsetIsSmaller(t'.Keys, t.Keys - {q});
  }

  /** A branch without values disappears leaf by leaf. */
  lemma {:induction false} BareBranchGoes(t: Tree, p: Path) returns (ops: seq<Op>)
    requires Closed(t) && RootBlank(t) && ValidNodes(t) && ValidPath(p) && Bare(t, p)
    ensures GoodOps(ops) && ValidOps(ops) && p !in TreeRun(t, ops)
    decreases |t.Keys|
  {
    if p !in t {
      ops := [];
    } else {
      var q := DeepestLeaf(t, p);
      VisitPrunes(t, q);
      PruneIsFlat(t, q);
      var t' := Prune(t, q);
      Smaller(t', t, q);
      var rest := BareBranchGoes(t', p);
      RunAppend(t, Visit(q), rest);
      assert ValidComponent("x");
      assert ValidPath(q + ["x"]);
      ops := Visit(q) + rest;
    }
  }

  /** A recursive reset first: what is left at and below `p` carries at most locks. */
  lemma LockGoes(t: Tree, p: Path) returns (ops: seq<Op>)
    requires Closed(t) && RootBlank(t) && ValidNodes(t) && p in LockedSet(t) && !DefaultBelow(t, p)
    ensures GoodOps(ops) && ValidOps(ops) && p !in TreeRun(t, ops)
  {
    var t1 := Apply(t, ResetAll(p)).tree;
    ApplyIsFlat(t, ResetAll(p));
    ResetBelowMeaning(t, p);
    assert Bare(t1, p);
    var rest := BareBranchGoes(t1, p);
    assert TreeRun(t, [ResetAll(p)]) == t1;
    RunAppend(t, [ResetAll(p)], rest);
    ops := [ResetAll(p)] + rest;
  }

  /** A lock survives every run of sets and resets if and only if a system default lies at its node
      or below it. */
  lemma LockSurvivesExactly(t: Tree, p: Path)
    requires Closed(t) && RootBlank(t) && ValidNodes(t) && p in LockedSet(t)
    ensures (forall ops :: GoodOps(ops) && ValidOps(ops) ==> p in LockedSet(TreeRun(t, ops))) <==> DefaultBelow(t, p)
  {
    if DefaultBelow(t, p) {
      forall ops | GoodOps(ops) && ValidOps(ops)
        ensures p in LockedSet(TreeRun(t, ops))
      {
        DefaultKeepsLock(t, ops, p);
      }
    } else {
      var ops := LockGoes(t, p);
    }
  }

  // ---------- what clients are told ----------

  /** `esconf_backend_perchannel_xml_is_property_locked`: in a locked channel, any name. */
  function ReportedLocked(t: Tree, channelLocked: bool, p: Path): bool {
    channelLocked || (p in t && t[p].locked)
  }

  /** Some valid name that the tree does not mention. */
  lemma UnmentionedName(t: Tree) returns (p: Path)
    requires [] in t
    ensures ValidPath(p) && p !in t
  {
    var q := LongestOf(t.Keys);
    p := seq(|q| + 1, _ => "aa");
    assert ValidComponent("aa");
  }

  /** A set asks the node only.  So the report tells which sets are refused, for all names, exactly if
      the channel is not locked. */
  lemma LockReportIsExact(t: Tree, channelLocked: bool)
    requires [] in t
    ensures (forall p, v :: ValidPath(p) ==> (ReportedLocked(t, channelLocked, p) <==> !SetValue(t, p, v).ok)) <==>
      !channelLocked
  {
    if channelLocked {
      var p := UnmentionedName(t);
      assert SetValue(t, p, One(Bool(true))).ok;
    }
  }
}
