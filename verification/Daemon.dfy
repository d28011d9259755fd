/** The daemon over one backend and one channel (esconfd/esconf-daemon.c): it carries out the
    requests of clients on the linked tree and queues an idle callback for every announced name. */
module Daemon {
  import opened Base
  import opened Values
  import opened CacheModel
  import opened Names
  import opened TreeModel
  import opened FlatMaps
  import opened Protocol
  import opened StoreLink
  import opened Proptree
  import B = Backend

  /** Every node but the root has a valid name that fits the path buffers. */
  ghost predicate NamesGood(t: Tree) {
    forall p :: p in t && p != [] ==> ValidPath(p) && |Join(p)| < MAX_PROP_PATH
  }

  predicate NamesShort(names: seq<Name>) {
    forall i :: 0 <= i < |names| ==> |names[i]| < MAX_PROP_PATH
  }

  class EsconfDaemon {
    const channel: EsconfChannel
    /** The properties of the idle callbacks that have not run yet. */
    var idles: seq<Name>

    ghost predicate Valid()
      reads this, channel`root, channel`nodes, channel`Repr, channel`tree, channel`order, channel`changed, channel.Repr
    {
      && channel.Valid() && RootBlank(channel.tree) && NamesGood(channel.tree) && channel.changed == []
      && NamesShort(idles)
    }

    /** What clients can observe of the channel. */
    ghost function Store(): Store
      reads channel`tree
    {
      StoreOf(channel.tree)
    }

    constructor (channel: EsconfChannel)
      requires channel.Valid() && RootBlank(channel.tree) && NamesGood(channel.tree) && channel.changed == []
      ensures this.channel == channel && Valid() && idles == []
    {
      this.channel := channel;
      idles := [];
    }

    /** `esconf_daemon_backend_property_changed`, for each name the backend has handed over. */
    method QueueIdles()
      requires channel.Valid() && RootBlank(channel.tree) && NamesGood(channel.tree)
      requires NamesShort(idles) && NamesShort(channel.changed)
      modifies this, channel`changed
      ensures Valid() && idles == old(idles) + old(channel.changed)
    {
      idles := idles + channel.changed;
      channel.changed := [];
    }

    /** `esconf_set_property`: the variant becomes a value, the backend sets it, and the reply is
        success or an error. */
    method SetProperty(property: Name, variant: Variant) returns (ok: bool)
      requires Valid() && B.Acceptable(property)
      modifies this, channel`nodes, channel`tree, channel`order, channel`Repr, channel`changed, channel`dirty
      modifies channel.Repr`children, channel.Repr`value
      ensures Valid() && fresh(channel.Repr - old(channel.Repr))
      ensures var r := StoreSet(old(Store()), property, FromVariant(variant));
        ok == r.ok && Store() == r.store && idles == old(idles) + (if r.changed then [property] else [])
    {
      var value := GVariantToGValue(variant);
      ok := SetInBackend(property, value);
      ghost var store := Store();
      QueueIdles();
      assert Store() == store;
    }

    method SetInBackend(property: Name, value: Value) returns (ok: bool)
      requires Valid() && B.Acceptable(property)
      modifies channel`nodes, channel`tree, channel`order, channel`Repr, channel`changed, channel`dirty
      modifies channel.Repr`children, channel.Repr`value
      ensures channel.Valid() && RootBlank(channel.tree) && NamesGood(channel.tree)
      ensures fresh(channel.Repr - old(channel.Repr))
      ensures var r := StoreSet(old(Store()), property, value);
        ok == r.ok && Store() == r.store && channel.changed == if r.changed then [property] else []
      ensures NamesShort(channel.changed)
    {
      TreeClosed(channel);
      SetLinks(channel.tree, property, value);
      ok := B.Set(channel, property, value);
    }

    /** `esconf_get_property`. */
    method GetProperty(property: Name) returns (r: Fetch)
      requires Valid() && B.Acceptable(property)
      ensures r == Protocol.Get(Store(), property)
    {
      GetLinks(channel.tree, property);
      var value := B.Get(channel, property);
      if value.None? {
        return NotFound;
      }
      var val := GValueToGVariant(value.value);
      r := if val.Some? then Found(FromVariant(val.value)) else Failed;
    }

    /** `esconf_daemon_emit_property_changed_idled`: the signal carries the value of this moment. */
    method EmitPropertyChangedIdled(i: nat) returns (signals: seq<Message>)
      requires Valid() && i < |idles|
      modifies this`idles
      ensures Valid() && idles == old(idles)[..i] + old(idles)[i + 1..]
      ensures signals == Signals(Store(), old(idles)[i])
    {
      var property := idles[i];
      Dequeued(idles, i);
      signals := SignalFor(property);
      idles := idles[..i] + idles[i + 1..];
    }

    method SignalFor(property: Name) returns (signals: seq<Message>)
      requires Valid() && |property| < MAX_PROP_PATH
      ensures signals == Signals(Store(), property)
    {
      var value := Peek(property);
      if value.Some? {
        var val := GValueToGVariant(value.value);
        signals := if val.Some? then [PropertyChanged(property, val.value)] else [];
      } else {
        signals := [PropertyRemoved(property)];
      }
    }

    /** `esconf_backend_get`: a name that is not valid has no value. */
    method Peek(property: Name) returns (value: Option<Value>)
      requires Valid() && |property| < MAX_PROP_PATH
      ensures value == Protocol.Effective(Store(), property)
    {
      value := None;
      GetLinks(channel.tree, property);
      var valid := IsValid(property);
      if valid {
        value := B.Get(channel, property);
      }
    }

    /** `esconf_reset_property`: the backend resets one property, or a subtree.  The store loses the
        user values of `gone`; a recursive reset announces them under their rebuilt names. */
    method ResetProperty(property: Name, recursive: bool) returns (ok: bool, ghost gone: seq<Name>)
      requires Valid() && B.Acceptable(property)
      modifies this, channel`nodes, channel`tree, channel`order, channel`changed, channel`dirty, channel.Repr
      ensures Valid() && channel.Repr == old(channel.Repr)
      ensures CanReset(old(Store()), property, recursive, gone, Store().locked)
      ensures Store() == StoreReset(old(Store()), gone, Store().locked)
      ensures idles == old(idles) + ResetAnnounced(recursive, gone)
      ensures ok <==> if recursive then Components(property) in old(channel.tree) else property in old(Store()).user
    {
      if recursive {
        ok, gone := ResetSubtree(property);
      } else {
        ok, gone := ResetOneProperty(property);
      }
      QueueIdles();
    }

    method ResetOneProperty(property: Name) returns (ok: bool, ghost gone: seq<Name>)
      requires Valid() && B.Acceptable(property)
      modifies channel`nodes, channel`tree, channel`order, channel`changed, channel`dirty, channel.Repr
      ensures channel.Valid() && channel.Repr == old(channel.Repr)
      ensures Cleared(old(channel.tree), channel.tree, property, false, gone)
      ensures channel.changed == ResetAnnounced(false, gone) && NamesShort(channel.changed)
      ensures ok <==> property in old(Store()).user
    {
      ghost var t0 := channel.tree;
      TreeClosed(channel);
      gone := ResetOneLinks(t0, property);
      var r := B.Reset(channel, property);
      ok := r == B.Done;
    }

    method ResetSubtree(property: Name) returns (ok: bool, ghost gone: seq<Name>)
      requires Valid() && B.Acceptable(property)
      modifies channel`nodes, channel`tree, channel`order, channel`changed, channel`dirty, channel.Repr
      ensures channel.Valid() && channel.Repr == old(channel.Repr)
      ensures Cleared(old(channel.tree), channel.tree, property, true, gone)
      ensures channel.changed == ResetAnnounced(true, gone) && NamesShort(channel.changed)
      ensures ok <==> Components(property) in old(channel.tree)
    {
      ghost var t0 := channel.tree;
      TreeClosed(channel);
      var r;
      ghost var visited;
      r, visited := B.ResetRecursive(channel, property);
      ok := r == B.Done;
      gone := ResetSubtreeLinks(t0, property, visited);
    }
  }

  /** What a reset that took the user values of `gone` leaves. */
  ghost predicate Cleared(t: Tree, t': Tree, property: Name, recursive: bool, gone: seq<Name>) {
    && RootBlank(t') && NamesGood(t')
    && CanReset(StoreOf(t), property, recursive, gone, StoreOf(t').locked)
    && StoreOf(t') == StoreReset(StoreOf(t), gone, StoreOf(t').locked)
  }

  lemma Dequeued(names: seq<Name>, i: nat)
    requires NamesShort(names) && i < |names|
    ensures NamesShort(names[..i] + names[i + 1..])
  {
  }

  lemma ResetLinks(t: Tree, op: Op, property: Name, visited: seq<Path>)
    requires Closed(t) && RootBlank(t) && NamesGood(t) && B.Acceptable(property)
    requires op == Op.Reset(Components(property)) || op == ResetAll(Components(property))
    requires op.ResetAll? ==> R.Visits(t, op.base, visited)
    ensures var gone := Gone(t, op, visited);
      && Cleared(t, Apply(t, op).tree, property, op.ResetAll?, gone)
      && ResetAnnounced(op.ResetAll?, gone) == R.Announced(t, op, visited)
      && NamesShort(R.Announced(t, op, visited))
      && (op.Reset? ==> (Apply(t, op).ok <==> property in StoreOf(t).user))
  {
    AcceptedName(property);
    ApplyIsFlat(t, op);
    ResetShrinks(t, op);
    ResetIsStoreReset(t, op, visited);
    AnnouncedShort(t, op, visited);
  }

  lemma ResetOneLinks(t: Tree, property: Name) returns (gone: seq<Name>)
    requires Closed(t) && RootBlank(t) && NamesGood(t) && B.Acceptable(property)
    ensures var o := ResetOne(t, Components(property));
      && Cleared(t, o.tree, property, false, gone) && (o.ok <==> property in StoreOf(t).user)
      && [] + (if o.ok then [property] else []) == ResetAnnounced(false, gone)
      && NamesShort(ResetAnnounced(false, gone))
  {
    AcceptedName(property);
    ResetLinks(t, Op.Reset(Components(property)), property, []);
    gone := Gone(t, Op.Reset(Components(property)), []);
  }

  lemma ResetSubtreeLinks(t: Tree, property: Name, visited: seq<Path>) returns (gone: seq<Name>)
    requires Closed(t) && RootBlank(t) && NamesGood(t) && B.Acceptable(property)
    requires var o := ResetBelow(t, Components(property));
      if o.ok then R.Visits(t, Components(property), visited) else visited == []
    ensures Cleared(t, ResetBelow(t, Components(property)).tree, property, true, gone)
    ensures [] + B.BuildNames(visited) == ResetAnnounced(true, gone) && NamesShort(ResetAnnounced(true, gone))
  {
    var op := ResetAll(Components(property));
    AcceptedName(property);
    if !Apply(t, op).ok {
      NothingToVisit(t, op.base);
    }
    ResetLinks(t, op, property, visited);
    gone := Gone(t, op, visited);
    assert R.Announced(t, op, visited) == B.BuildNames(visited);
  }

  lemma NothingToVisit(t: Tree, base: Path)
    requires Closed(t) && base !in t
    ensures R.Visits(t, base, [])
  {
    forall p | p in t
      ensures !Below(base, p)
    {
      if Below(base, p) {
        AncestorIn(t, base, p);
      }
    }
  }

  lemma ResetShrinks(t: Tree, op: Op)
    requires Closed(t) && GoodOp(op) && !op.Set?
    ensures forall p :: p in Apply(t, op).tree ==> p in t
  {
    match op {
      case Reset(p) =>
        if p in t && p != [] && !HasChild(t, p) {
          RemoveLeafClosed(t, p);
          var k := PruneMeaning(t - {p}, Parent(p));
        }
      case ResetAll(base) =>
        if base in t {
          ResetBelowMeaning(t, base);
        }
    }
  }

  /** A rebuilt name is the end of the name it was rebuilt from. */
  lemma {:induction false} RebuiltShorter(p: Path)
    ensures |BuildName(p)| <= |Join(p)|
  {
    if p != [] && |p[|p| - 1]| != 1 {
      var front := p[..|p| - 1];
      RebuiltShorter(front);
      assert Climbed(p)[..|Climbed(p)| - 1] == Climbed(front);
    }
  }

  lemma AnnouncedShort(t: Tree, op: Op, visited: seq<Path>)
    requires NamesGood(t) && RootBlank(t) && !op.Set? && GoodOp(op)
    requires op.ResetAll? ==> R.Visits(t, op.base, visited)
    ensures NamesShort(R.Announced(t, op, visited))
  {
    forall i | 0 <= i < |visited| && op.ResetAll?
      ensures |BuildName(visited[i])| < MAX_PROP_PATH
    {
      assert visited[i] in visited;
      RebuiltShorter(visited[i]);
    }
  }

  lemma TreeClosed(c: EsconfChannel)
    requires c.Valid()
    ensures Closed(c.tree)
  {
    TreeOrder.ShapedIsClosed(c.order, c.tree);
  }

  lemma {:induction false} PrefixGood(p: Path, q: Path)
    requires ValidPath(p) && q <= p && q != []
    ensures ValidPath(q) && |Join(q)| <= |Join(p)|
    decreases |p|
  {
    if q != p {
      var front := p[..|p| - 1];
      forall i | 0 <= i < |front|
        ensures ValidComponent(front[i])
      {
        assert front[i] == p[i];
      }
      assert q == p[..|q|] == front[..|q|];
      PrefixGood(front, q);
    }
  }

  lemma SetLinks(t: Tree, property: Name, v: Value)
    requires Closed(t) && NamesGood(t) && B.Acceptable(property)
    ensures Components(property) != []
    ensures var r := SetValue(t, Components(property), v);
      && StoreSet(StoreOf(t), property, v) == StoreOutcome(StoreOf(r.tree), r.ok, r.notified)
      && NamesGood(r.tree) && (RootBlank(t) ==> RootBlank(r.tree))
  {
    var p := Components(property);
    AcceptedName(property);
    ValidPathSlashFree(p);
    SetIsStoreSet(t, p, v);
    SetIsFlat(t, p, v);
    SetNames(t, p, v);
  }

  lemma SetNames(t: Tree, p: Path, v: Value)
    requires Closed(t) && NamesGood(t) && ValidPath(p) && |Join(p)| < MAX_PROP_PATH
    ensures NamesGood(SetValue(t, p, v).tree)
  {
    if p !in t {
      AddNodeMeaning(t, p, Data(Some(v), None, false));
      forall q | q in SetValue(t, p, v).tree && q != [] && q !in t
        ensures ValidPath(q) && |Join(q)| < MAX_PROP_PATH
      {
        PrefixGood(p, q);
      }
    }
  }

  /** A name that is not valid names no node. */
  lemma GetLinks(t: Tree, property: Name)
    requires NamesGood(t) && RootBlank(t)
    ensures Protocol.Effective(StoreOf(t), property) ==
      if ScansClean(property) then GetValue(t, Components(property)) else None
  {
    Stored(t, property);
    if ScansClean(property) {
      AcceptedName(property);
      assert property[0] == '/';
    } else if property != [] && property[0] == '/' && Components(property) in t {
      JoinOfComponents(property);
      ValidPathScansClean(Components(property));
    }
  }
}
