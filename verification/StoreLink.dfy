/** The property tree of a channel is the store of the protocol: sets and resets on the tree are the
    daemon's steps there, with names in place of paths. */
module StoreLink {
  import opened Base
  import opened Values
  import opened CacheModel
  import opened Names
  import opened TreeModel
  import opened FlatMaps
  import opened Subtrees
  import opened Protocol
  import R = Replay

  /** The contents of the node called `s`. */
  function NodeAt(t: Tree, s: string): Data {
    if s != [] && s[0] == '/' && Components(s) in t then t[Components(s)] else BLANK
  }

  function StoreOf(t: Tree): Store {
    Store(
      map s | s in NamesOf(t) && NodeAt(t, s).user.Some? :: NodeAt(t, s).user.value,
      map s | s in NamesOf(t) && NodeAt(t, s).system.Some? :: NodeAt(t, s).system.value,
      set s | s in NamesOf(t) && NodeAt(t, s).locked)
  }

  lemma Stored(t: Tree, s: string)
    ensures var d := StoreOf(t);
      && (s in d.user <==> NodeAt(t, s).user.Some?) && (s in d.user ==> NodeAt(t, s).user == Some(d.user[s]))
      && (s in d.system <==> NodeAt(t, s).system.Some?) && (s in d.system ==> NodeAt(t, s).system == Some(d.system[s]))
      && (s in d.locked <==> NodeAt(t, s).locked)
  {
    if s != [] && s[0] == '/' && Components(s) in t {
      JoinOfComponents(s);
    }
  }

  lemma NodeOf(t: Tree, p: Path)
    requires AllSlashFree(p) && p != []
    ensures Join(p) != [] && Join(p)[0] == '/' && Components(Join(p)) == p
    ensures NodeAt(t, Join(p)) == if p in t then t[p] else BLANK
  {
    JoinStartsWithSlash(p);
    ComponentsOfJoin(p);
  }

  /** A get on the tree is a get on the store. */
  lemma GetIsStoreGet(t: Tree, p: Path)
    requires AllSlashFree(p) && p != []
    ensures Protocol.Effective(StoreOf(t), Join(p)) == GetValue(t, p)
  {
    NodeOf(t, p);
    Stored(t, Join(p));
  }

  /** What the idle callback sends about a property of the tree is what it sends from the store. */
  lemma SentIsSignals(t: Tree, p: Path)
    requires AllSlashFree(p) && p != []
    ensures match R.Sent(t, Join(p))
      case Silence => Signals(StoreOf(t), Join(p)) == []
      case Removed => Signals(StoreOf(t), Join(p)) == [PropertyRemoved(Join(p))]
      case Changed(v) =>
        var signals := Signals(StoreOf(t), Join(p));
        && |signals| == 1 && signals[0].PropertyChanged?
        && signals[0].name == Join(p) && FromVariant(signals[0].variant) == v
  {
    GetIsStoreGet(t, p);
    NodeOf(t, p);
    var e := GetValue(t, p);
    if e.Some? && Convertible(e.value) {
      assert FromVariant(ToVariant(e.value).value) == Image(e.value);
    }
  }

  /** A listing of a subtree is what the protocol's GetAllProperties answers about its names. */
  lemma ListingIsGetAll(t: Tree, base: Path)
    ensures var l := Listing(t, base);
      GetAll(StoreOf(t), l.Keys) ==
        map s | s in l && SentInHash(l[s]).Some? :: FromVariant(SentInHash(l[s]).value)
  {
    var l, d := Listing(t, base), StoreOf(t);
    forall s | s in l
      ensures Protocol.Effective(d, s) == Some(l[s]) && s in d.user.Keys + d.system.Keys
    {
      Stored(t, s);
    }
  }

  lemma SetAnswers(t: Tree, p: Path, v: Value)
    requires AllSlashFree(p) && p != []
    ensures var r, d := SetValue(t, p, v), StoreOf(t);
      StoreSet(d, Join(p), v) ==
        StoreOutcome(if r.notified then d.(user := d.user[Join(p) := v]) else d, r.ok, r.notified)
  {
    GetIsStoreGet(t, p);
    NodeOf(t, p);
    Stored(t, Join(p));
    assert !IsEqual(None, Some(v));
  }

  /** A set on the tree is a set on the store, with the same answer and the same announcement. */
  lemma SetIsStoreSet(t: Tree, p: Path, v: Value)
    requires Closed(t) && AllSlashFree(p) && p != []
    ensures var r := SetValue(t, p, v);
      StoreSet(StoreOf(t), Join(p), v) == StoreOutcome(StoreOf(r.tree), r.ok, r.notified)
  {
    var r, d := SetValue(t, p, v), StoreOf(t);
    SetAnswers(t, p, v);
    var user := if r.notified then d.user[Join(p) := v] else d.user;
    forall s
      ensures s in user <==> s in StoreOf(r.tree).user
      ensures s in user ==> user[s] == StoreOf(r.tree).user[s]
      ensures s in d.system <==> s in StoreOf(r.tree).system
      ensures s in d.system ==> d.system[s] == StoreOf(r.tree).system[s]
      ensures s in d.locked <==> s in StoreOf(r.tree).locked
    {
      Stored(t, s);
      Stored(r.tree, s);
      SetAt(t, p, v, s);
    }
    SameStore(d.(user := user), StoreOf(r.tree));
  }

  lemma SameStore(d: Store, e: Store)
    requires forall s :: s in d.user <==> s in e.user
    requires forall s :: s in d.user ==> d.user[s] == e.user[s]
    requires forall s :: s in d.system <==> s in e.system
    requires forall s :: s in d.system ==> d.system[s] == e.system[s]
    requires forall s :: s in d.locked <==> s in e.locked
    ensures d == e
  {
  }

  lemma SetAt(t: Tree, p: Path, v: Value, s: string)
    requires Closed(t) && AllSlashFree(p) && p != []
    ensures var r := SetValue(t, p, v);
      NodeAt(r.tree, s) == if r.notified && s == Join(p) then NodeAt(t, s).(user := Some(v)) else NodeAt(t, s)
  {
    NodeOf(t, p);
    NodeOf(SetValue(t, p, v).tree, p);
    if s != [] && s[0] == '/' {
      JoinOfComponents(s);
      SetElsewhere(t, p, v, Components(s));
    }
  }

  lemma SetElsewhere(t: Tree, p: Path, v: Value, q: Path)
    requires Closed(t) && p != []
    ensures var t' := SetValue(t, p, v).tree;
      q != p ==> (if q in t' then t'[q] else BLANK) == if q in t then t[q] else BLANK
  {
    if p !in t {
      AddNodeMeaning(t, p, Data(Some(v), None, false));
    }
  }

  // ---------- resets ----------

  function Target(op: Op): Path
    requires !op.Set?
  {
    if op.Reset? then op.p else op.base
  }

  /** A reset of a valid name, with the order in which a recursive one visits the user values. */
  ghost predicate GoodReset(t: Tree, op: Op, order: seq<Path>) {
    && Closed(t) && RootBlank(t) && ValidNodes(t) && !op.Set? && ValidPath(Target(op))
    && (op.ResetAll? ==> R.Visits(t, op.base, order))
  }

  function JoinAll(paths: seq<Path>): seq<Name> {
    seq(|paths|, i requires 0 <= i < |paths| => Join(paths[i]))
  }

  /** The names of the user values a reset takes away. */
  ghost function Gone(t: Tree, op: Op, order: seq<Path>): seq<Name>
    requires !op.Set?
  {
    if op.ResetAll? then JoinAll(order) else if Apply(t, op).ok then [Join(op.p)] else []
  }

  /** They are the names of the user values at the target, or at and below it. */
  lemma GoneAreUsers(t: Tree, op: Op, order: seq<Path>, s: string)
    requires GoodReset(t, op, order)
    ensures s in Gone(t, op, order) <==>
      s != [] && s[0] == '/' && NodeAt(t, s).user.Some? &&
      (if op.Reset? then Components(s) == op.p else Below(op.base, Components(s)))
  {
    if s in Gone(t, op, order) {
      OnlyUsersGo(t, op, order, s);
    } else if s != [] && s[0] == '/' && NodeAt(t, s).user.Some? {
      UserGoes(t, op, order, s);
    }
  }

  lemma OnlyUsersGo(t: Tree, op: Op, order: seq<Path>, s: string)
    requires GoodReset(t, op, order) && s in Gone(t, op, order)
    ensures s != [] && s[0] == '/' && NodeAt(t, s).user.Some?
    ensures if op.Reset? then Components(s) == op.p else Below(op.base, Components(s))
  {
    var p := Target(op);
    if op.ResetAll? {
      var i :| 0 <= i < |order| && Join(order[i]) == s;
      p := order[i];
      assert p in order;
    }
    UserNamed(t, p);
  }

  lemma UserNamed(t: Tree, p: Path)
    requires RootBlank(t) && ValidNodes(t) && p in t && t[p].user.Some?
    ensures var s := Join(p); s != [] && s[0] == '/' && NodeAt(t, s).user.Some? && Components(s) == p
  {
    ValidPathSlashFree(p);
    NodeOf(t, p);
  }

  lemma UserGoes(t: Tree, op: Op, order: seq<Path>, s: string)
    requires GoodReset(t, op, order)
    requires s != [] && s[0] == '/' && NodeAt(t, s).user.Some?
    ensures (if op.Reset? then Components(s) == op.p else Below(op.base, Components(s))) ==>
      s in Gone(t, op, order)
  {
    var q := Components(s);
    JoinOfComponents(s);
    if op.ResetAll? && Below(op.base, q) {
      var i :| 0 <= i < |order| && order[i] == q;
      assert Gone(t, op, order)[i] == s;
    }
  }

  /** What a reset does to the node called `s`. */
  lemma ResetAt(t: Tree, op: Op, order: seq<Path>, s: string)
    requires GoodReset(t, op, order)
    ensures var d, d', gone := NodeAt(t, s), NodeAt(Apply(t, op).tree, s), Gone(t, op, order);
      && d'.user == (if s in gone then None else d.user) && d'.system == d.system
      && (d'.locked ==> d.locked) && (s in gone ==> d.user.Some?)
  {
    var t' := Apply(t, op).tree;
    ApplyIsFlat(t, op);
    GoneAreUsers(t, op, order, s);
    if s != [] && s[0] == '/' {
      var q := Components(s);
      assert q in UserMap(t) <==> NodeAt(t, s).user.Some?;
      assert q in UserMap(t') <==> NodeAt(t', s).user.Some?;
      assert q in SystemMap(t) <==> NodeAt(t, s).system.Some?;
      assert q in SystemMap(t') <==> NodeAt(t', s).system.Some?;
      assert q in LockedSet(t) <==> NodeAt(t, s).locked;
      assert q in LockedSet(t') <==> NodeAt(t', s).locked;
    }
  }

  /** Names at or below the target, and names the protocol says it covers. */
  lemma TargetCovers(t: Tree, op: Op, order: seq<Path>, s: string)
    requires GoodReset(t, op, order) && op.ResetAll?
    ensures s in Gone(t, op, order) <==> s in StoreOf(t).user && Covers(Join(op.base), s)
  {
    GoneAreUsers(t, op, order, s);
    Stored(t, s);
    if s != [] && s[0] == '/' && Components(s) in t {
      JoinOfComponents(s);
      AcceptedTarget(op.base);
      CoversIsPrefix(op.base, Components(s));
    }
  }

  lemma AcceptedTarget(p: Path)
    requires ValidPath(p)
    ensures AllSlashFree(p) && ScansClean(Join(p)) && Join(p) != "/"
  {
    ValidPathSlashFree(p);
    ValidPathScansClean(p);
  }

  /** A recursive reset announces the rebuilt names, a single one the name it was given. */
  lemma AnnouncedNames(t: Tree, op: Op, order: seq<Path>)
    requires GoodReset(t, op, order)
    ensures R.Announced(t, op, order) == ResetAnnounced(op.ResetAll?, Gone(t, op, order))
  {
    if op.ResetAll? {
      forall i | 0 <= i < |order|
        ensures order[i] in t && order[i] != []
      {
        assert order[i] in order;
      }
      RebuiltNames(order);
      if order != [] {
        AncestorIn(t, op.base, order[0]);
      }
    }
  }

  /** The names rebuilt from nodes are those rebuilt from their names. */
  lemma RebuiltNames(order: seq<Path>)
    requires forall i :: 0 <= i < |order| ==> ValidPath(order[i])
    ensures RebuiltAll(JoinAll(order)) == seq(|order|, i requires 0 <= i < |order| => BuildName(order[i]))
  {
    forall i | 0 <= i < |order|
      ensures Rebuilt(Join(order[i])) == BuildName(order[i])
    {
      ValidPathSlashFree(order[i]);
      JoinStartsWithSlash(order[i]);
      ComponentsOfJoin(order[i]);
    }
  }

  /** A reset on the tree is a reset of the protocol's store, with the same announcements: single
      resets find and take one user value, recursive ones take all that the name covers; locks
      only shrink. */
  lemma ResetIsStoreReset(t: Tree, op: Op, order: seq<Path>)
    requires GoodReset(t, op, order)
    ensures var d, d', gone := StoreOf(t), StoreOf(Apply(t, op).tree), Gone(t, op, order);
      && CanReset(d, Join(Target(op)), op.ResetAll?, gone, d'.locked)
      && d' == StoreReset(d, gone, d'.locked)
      && R.Announced(t, op, order) == ResetAnnounced(op.ResetAll?, gone)
      && (op.Reset? ==> (Apply(t, op).ok <==> Join(op.p) in d.user))
  {
    AnnouncedNames(t, op, order);
    ResetTakes(t, op, order);
    ResetAllowed(t, op, order);
  }

  lemma ResetTakes(t: Tree, op: Op, order: seq<Path>)
    requires GoodReset(t, op, order)
    ensures var d, d' := StoreOf(t), StoreOf(Apply(t, op).tree);
      d' == StoreReset(d, Gone(t, op, order), d'.locked) && d'.locked <= d.locked
  {
    var t', gone := Apply(t, op).tree, Gone(t, op, order);
    var d, d' := StoreOf(t), StoreOf(t');
    forall s
      ensures s in d.user && s !in gone <==> s in d'.user
      ensures s in d'.user ==> d.user[s] == d'.user[s]
      ensures s in d.system <==> s in d'.system
      ensures s in d.system ==> d.system[s] == d'.system[s]
      ensures s in d'.locked ==> s in d.locked
    {
      ResetAt(t, op, order, s);
      Stored(t, s);
      Stored(t', s);
    }
    ResetStore(d, gone, d');
  }

  lemma ResetAllowed(t: Tree, op: Op, order: seq<Path>)
    requires GoodReset(t, op, order)
    ensures var d, gone := StoreOf(t), Gone(t, op, order);
      && CanReset(d, Join(Target(op)), op.ResetAll?, gone, {})
      && (op.Reset? ==> (Apply(t, op).ok <==> Join(op.p) in d.user))
  {
    if op.Reset? {
      AcceptedTarget(op.p);
      NodeOf(t, op.p);
      Stored(t, Join(op.p));
    } else {
      forall s
        ensures s in Gone(t, op, order) <==> s in StoreOf(t).user && Covers(Join(op.base), s)
      {
        TargetCovers(t, op, order, s);
      }
    }
  }

  lemma ResetStore(d: Store, gone: seq<Name>, d': Store)
    requires forall s :: s in d.user && s !in gone <==> s in d'.user
    requires forall s :: s in d'.user ==> d.user[s] == d'.user[s]
    requires forall s :: s in d.system <==> s in d'.system
    requires forall s :: s in d.system ==> d.system[s] == d'.system[s]
    ensures d' == StoreReset(d, gone, d'.locked)
  {
  }

  /** The store of a loaded tree is one the protocol may start with. */
  lemma StoreStarts(t: Tree)
    requires LocksClean(MapsOf(t))
    ensures StoreOf(t).locked !! StoreOf(t).user.Keys
  {
    forall s | s in StoreOf(t).locked
      ensures s !in StoreOf(t).user
    {
      Stored(t, s);
      assert Components(s) in LockedSet(t) && Components(s) !in UserMap(t);
    }
  }

  // ---------- a reset of the whole channel ----------

  lemma NamesListed(names: set<Name>) returns (list: seq<Name>)
    ensures forall p :: p in list <==> p in names
  {
    list := [];
    var rest := names;
    while rest != {}
      invariant rest <= names && forall p :: p in list <==> p in names && p !in rest
      decreases |rest|
    {
      var p :| p in rest;
      list, rest := list + [p], rest - {p};
    }
  }

  /** What dropping the tree and reading the system files again does to the node called `s`. */
  lemma ReloadAt(t: Tree, base: Tree, s: string)
    requires SystemMap(t) == SystemMap(base) && UserMap(base) == map[] && LockedSet(t) <= LockedSet(base)
    ensures var d, d' := NodeAt(t, s), NodeAt(base, s);
      d'.user == None && d'.system == d.system && (d.locked ==> d'.locked)
  {
    if s != [] && s[0] == '/' {
      var p := Components(s);
      assert p !in UserMap(base);
      assert p in SystemMap(t) <==> p in t && t[p].system.Some?;
      assert p in SystemMap(base) <==> p in base && base[p].system.Some?;
      assert p in LockedSet(t) ==> p in LockedSet(base);
    }
  }

  /** A reset of the whole channel leaves the tree `base` of the system files.  To the store that is a
      recursive reset of "/", which takes all user values, and then the return of the missing locks. */
  lemma ChannelResetIsStoreReset(t: Tree, base: Tree) returns (gone: seq<Name>)
    requires SystemMap(t) == SystemMap(base) && UserMap(base) == map[] && LockedSet(t) <= LockedSet(base)
    ensures var d := StoreOf(t);
      var d1 := StoreReset(d, gone, d.locked);
      && CanReset(d, "/", true, gone, d.locked) && d1.user == map[]
      && StoreOf(base) == d1.(locked := d1.locked + (StoreOf(base).locked - d1.locked))
  {
    var d := StoreOf(t);
    gone := NamesListed(d.user.Keys);
    var d1 := StoreReset(d, gone, d.locked);
    forall s
      ensures s !in StoreOf(base).user
      ensures s in d.system <==> s in StoreOf(base).system
      ensures s in d.system ==> d.system[s] == StoreOf(base).system[s]
      ensures s in d.locked ==> s in StoreOf(base).locked
    {
      ReloadAt(t, base, s);
      Stored(t, s);
      Stored(base, s);
    }
    SameStore(d1.(locked := StoreOf(base).locked), StoreOf(base));
  }
}
