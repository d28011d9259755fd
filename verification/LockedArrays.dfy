/** A saved array with items on a path that the system layer locks: reading the file stops there, or
    the items end up in another array.  Either way the file does not give back what was saved. */
module LockedArrays {
  import opened Base
  import opened Values
  import opened Names
  import opened TreeModel
  import opened TreeOrder
  import opened Subtrees
  import opened FlatMaps
  import opened XmlText
  import opened XmlSpec
  import opened XmlInvariants
  import opened XmlDoc
  import opened XmlRuns
  import opened Layers
  import opened Rejects
  import opened TreeFile
  import opened RoundTrip

  // ---------- values only grow ----------

  /** The same value, or an array with more items. */
  predicate Grown(a: Option<Value>, b: Option<Value>) {
    a == b || (a.Some? && b.Some? && a.value.Array? && b.value.Array? && |a.value.items| <= |b.value.items|)
  }

  /** A user file is being read inside the properties `prefix`. */
  predicate InFile(s: State, prefix: Path) {
    Within(s, prefix) && Sound(s) && !s.system && !s.locked
  }

  lemma OpenLeavesUsers(t: Tree, p: Path, q: Path)
    requires Closed(t) && p != [] && q != p && OpenProperty(t, p, false, false).Some?
    ensures UserAt(OpenProperty(t, p, false, false).value, q) == UserAt(t, q)
  {
    if p !in t {
      AddNodeMeaning(t, p, BLANK);
    }
  }

  /** The opening tag touches its own node only. */
  lemma BegunLeaves(env: Env, s: State, e: Entry, q: Path)
    requires GoodEntry(env, e) && e.lock == None && Closed(s.tree) && !s.system && !s.locked && q != e.path
    ensures UserAt(Begun(env, s, e).tree, q) == UserAt(s.tree, q)
  {
    if OpenProperty(s.tree, e.path, false, false).Some? {
      OpenLeavesUsers(s.tree, e.path, q);
    }
  }

  /** The items go to the open array; without one the file stops. */
  lemma OpenArrayGrows(env: Env, s: State, items: seq<Item>, q: Path)
    requires s.verdict == Going && s.elem == ElemProperty && Sound(s) && !s.system && GoodItems(env, items)
    ensures var s' := Run(env, s, ItemEvents(items));
      s'.verdict == Going ==>
        && Grown(UserAt(s.tree, q), UserAt(s'.tree, q))
        && s'.elem == s.elem && s'.path == s.path && s'.list == s.list && s'.system == s.system && s'.locked == s.locked
  {
    if items != [] {
      if s.list.None? {
        assert ItemEvents(items) + [] == ItemEvents(items);
        StrayItems(env, s, items, []);
      } else {
        var p := Components(s.list.value);
        ItemsRun(env, s, p, s.tree[p].user.value.items, items);
      }
    }
  }

  function Head(e: PropElem): seq<Event> {
    [Start("property", ElemAttrs(e))] + PayloadEvents(e.payload)
  }

  /** Opening tag and items of an element. */
  lemma HeadGrows(env: Env, s: State, prefix: Path, e: PropElem, q: Path)
    requires InFile(s, prefix) && GoodElem(env, prefix, false, e)
    ensures var s' := Run(env, s, Head(e));
      s'.verdict == Going ==>
        InFile(s', prefix + [e.name]) && (q != prefix + [e.name] ==> Grown(UserAt(s.tree, q), UserAt(s'.tree, q)))
  {
    var start := Start("property", ElemAttrs(e));
    RunOne(env, s, start);
    RunConcat(env, s, [start], PayloadEvents(e.payload));
    RunSound(env, s, Head(e));
    RunSound(env, s, [start]);
    StartRuns(env, s, prefix, e);
    FullName(prefix, e.name);
    if q != prefix + [e.name] {
      BegunLeaves(env, s, EntryOf(env, prefix, e), q);
    }
    if e.payload.Items? {
      OpenArrayGrows(env, Step(env, s, start), e.payload.items, q);
    }
  }

  /** A whole element, whatever it meets on the way: other values only grow. */
  lemma {:induction false} ElemGrows(env: Env, s: State, prefix: Path, e: PropElem, q: Path)
    requires InFile(s, prefix) && GoodElem(env, prefix, false, e)
    ensures var s' := Run(env, s, ElemEvents(e));
      s'.verdict == Going ==>
        && InFile(s', prefix) && s'.list == None
        && (!Below(prefix + [e.name], q) ==> Grown(UserAt(s.tree, q), UserAt(s'.tree, q)))
    decreases e
  {
    var p := prefix + [e.name];
    RunConcat(env, s, Head(e), PropsEvents(e.children));
    RunConcat(env, s, Head(e) + PropsEvents(e.children), [End]);
    HeadGrows(env, s, prefix, e, q);
    var s1 := Run(env, s, Head(e));
    if s1.verdict == Going {
      PropsGrow(env, s1, p, e.children, q);
      EndGrows(env, Run(env, s1, PropsEvents(e.children)), prefix, e.name);
    } else {
      Stopped(env, s1, PropsEvents(e.children));
      Stopped(env, s1, [End]);
    }
  }

  lemma EndGrows(env: Env, s: State, prefix: Path, name: string)
    requires s.verdict == Going ==> InFile(s, prefix + [name])
    ensures var s' := Run(env, s, [End]);
      && s'.tree == s.tree && s'.verdict == s.verdict
      && (s'.verdict == Going ==> InFile(s', prefix) && s'.list == None)
  {
    RunOne(env, s, End);
    if s.verdict == Going {
      EndRuns(env, s, prefix, name);
    }
  }

  lemma {:induction false} PropsGrow(env: Env, s: State, prefix: Path, ps: Props, q: Path)
    requires InFile(s, prefix) && GoodProps(env, prefix, false, ps)
    ensures var s' := Run(env, s, PropsEvents(ps));
      s'.verdict == Going ==>
        && InFile(s', prefix) && s'.list == (if ps.NoProps? then s.list else None)
        && (!StrictlyBelow(prefix, q) ==> Grown(UserAt(s.tree, q), UserAt(s'.tree, q)))
    decreases ps
  {
    if ps.More? {
      PropsGrow(env, s, prefix, ps.front, q);
      var s1 := Run(env, s, PropsEvents(ps.front));
      RunConcat(env, s, PropsEvents(ps.front), ElemEvents(ps.last));
      if s1.verdict == Going {
        ElemGrows(env, s1, prefix, ps.last, q);
        if Below(prefix + [ps.last.name], q) {
          assert q[..|prefix|] == prefix;
        }
      } else {
        Stopped(env, s1, ElemEvents(ps.last));
      }
    }
  }

  // ---------- what was saved ----------

  /** The user value at `p` is an array with items, and `base` locks the path. */
  predicate ItemsOnLock(env: Env, base: Tree, t: Tree, p: Path) {
    p in t && LockedAt(base, p) && Written(env, t[p].user).Items? && Written(env, t[p].user).items != []
  }

  /** At `r` there is an array with more items than were written. */
  predicate Overfull(env: Env, t: Tree, s: State, r: Path) {
    && r in t && Written(env, t[r].user).Items?
    && UserAt(s.tree, r).Some? && UserAt(s.tree, r).value.Array?
    && |UserAt(s.tree, r).value.items| > |Written(env, t[r].user).items|
  }

  /** The open array is that of an element around the current one, and has the items written for it. */
  predicate ListIn(env: Env, t: Tree, s: State, prefix: Path) {
    s.list.Some? && s.verdict == Going ==>
      && PropNameIsValid(s.list.value)
      && var a := Components(s.list.value);
      && Below(a, prefix) && a in t && Written(env, t[a].user).Items?
      && UserAt(s.tree, a).Some? && UserAt(s.tree, a).value.Array?
      && |UserAt(s.tree, a).value.items| >= |Written(env, t[a].user).items|
  }

  ghost predicate SameLocks(base: Tree, s: State) {
    forall q :: LockedAt(s.tree, q) == LockedAt(base, q)
  }

  lemma RunKeepsLocks(env: Env, base: Tree, s: State, events: seq<Event>)
    requires Sound(s) && !s.system && SameLocks(base, s)
    ensures SameLocks(base, Run(env, s, events))
  {
    forall q
      ensures LockedAt(Run(env, s, events).tree, q) == LockedAt(base, q)
    {
      UserRunKeepsLayer(env, s, events, q);
    }
  }

  // ---------- the harm is done ----------

  /** The element of a node whose array the lock passes over: the file stops, or the array around it
      takes the items. */
  lemma OwnItemsLeak(env: Env, t: Tree, base: Tree, s: State, p: Path, e: PropElem)
    requires p != [] && InFile(s, Parent(p)) && GoodElem(env, Parent(p), false, e) && e.name == p[|p| - 1]
    requires ListIn(env, t, s, Parent(p)) && SameLocks(base, s) && LockedAt(base, p)
    requires e.payload.Items? && e.payload.items != []
    ensures var s' := Run(env, s, Head(e));
      s'.verdict == Going ==> s.list.Some? && Overfull(env, t, s', Components(s.list.value))
  {
    assert Parent(p) + [e.name] == p;
    LockedTag(env, s, Parent(p), e);
    LooseItemsLeak(env, t, s.(elem := ElemProperty, path := Join(p)), Parent(p), e.payload.items);
  }

  /** The tag is passed over, and the items come next. */
  lemma LockedTag(env: Env, s: State, prefix: Path, e: PropElem)
    requires InFile(s, prefix) && GoodElem(env, prefix, false, e) && LockedAt(s.tree, prefix + [e.name])
    ensures Run(env, s, Head(e)) ==
      Run(env, s.(elem := ElemProperty, path := Join(prefix + [e.name])), PayloadEvents(e.payload))
  {
    var start := Start("property", ElemAttrs(e));
    RunOne(env, s, start);
    RunConcat(env, s, [start], PayloadEvents(e.payload));
    PassedOver(env, s, prefix, e);
  }

  /** Items behind the tag of an element that was passed over. */
  lemma LooseItemsLeak(env: Env, t: Tree, s: State, prefix: Path, items: seq<Item>)
    requires s.verdict == Going && s.elem == ElemProperty && !s.system && ListIn(env, t, s, prefix)
    requires s.list.Some? ==> HasList(s.tree, s.list.value, false)
    requires items != [] && GoodItems(env, items)
    ensures var s' := Run(env, s, ItemEvents(items));
      s'.verdict == Going ==> s.list.Some? && Overfull(env, t, s', Components(s.list.value))
  {
    if s.list.None? {
      assert ItemEvents(items) + [] == ItemEvents(items);
      StrayItems(env, s, items, []);
    } else {
      var a := Components(s.list.value);
      ItemsRun(env, s, a, s.tree[a].user.value.items, items);
    }
  }

  /** Otherwise the element opens its own array, or leaves the open one as it is. */
  lemma HeadKeepsList(env: Env, t: Tree, base: Tree, s: State, p: Path, e: PropElem)
    requires p != [] && InFile(s, Parent(p)) && GoodElem(env, Parent(p), false, e) && e.name == p[|p| - 1]
    requires p in t && e.payload == Written(env, t[p].user)
    requires ListIn(env, t, s, Parent(p)) && SameLocks(base, s) && !ItemsOnLock(env, base, t, p)
    ensures ListIn(env, t, Run(env, s, Head(e)), p)
  {
    var start := Start("property", ElemAttrs(e));
    assert Parent(p) + [e.name] == p;
    RunOne(env, s, start);
    RunConcat(env, s, [start], PayloadEvents(e.payload));
    StartRuns(env, s, Parent(p), e);
    if OpenProperty(s.tree, p, false, false).Some? && e.payload.Items? {
      OwnListIn(env, t, s, p, e);
    } else {
      assert PayloadEvents(e.payload) == [];
      OuterListIn(env, t, s, p, e);
    }
  }

  lemma OwnListIn(env: Env, t: Tree, s: State, p: Path, e: PropElem)
    requires p != [] && InFile(s, Parent(p)) && GoodElem(env, Parent(p), false, e) && Parent(p) + [e.name] == p
    requires p in t && e.payload == Written(env, t[p].user) && e.payload.Items?
    requires OpenProperty(s.tree, p, false, false).Some?
    ensures ListIn(env, t, Run(env, Begun(env, s, EntryOf(env, Parent(p), e)), ItemEvents(e.payload.items)), p)
  {
    FullName(Parent(p), e.name);
    var s1 := Begun(env, s, EntryOf(env, Parent(p), e));
    assert s1.list == Some(Join(p)) && p in s1.tree && s1.tree[p].user == Some(Array([]));
    ItemsRun(env, s1, p, [], e.payload.items);
  }

  lemma OuterListIn(env: Env, t: Tree, s: State, p: Path, e: PropElem)
    requires p != [] && InFile(s, Parent(p)) && GoodElem(env, Parent(p), false, e) && Parent(p) + [e.name] == p
    requires ListIn(env, t, s, Parent(p))
    requires OpenProperty(s.tree, p, false, false).None? || !e.payload.Items?
    ensures ListIn(env, t, Begun(env, s, EntryOf(env, Parent(p), e)), p)
  {
    if s.list.Some? {
      var a := Components(s.list.value);
      assert |a| < |p| && a == p[..|a|];
      BegunLeaves(env, s, EntryOf(env, Parent(p), e), a);
    }
  }

  /** The surplus is at `r`: further out than the element of `p`, or inside it. */
  predicate HarmAt(env: Env, t: Tree, s: State, p: Path, r: Path) {
    s.verdict == Going ==> Overfull(env, t, s, r) && (StrictlyBelow(r, p) || Below(p, r))
  }

  /** `r` lies at or below one of the first `n` children of `p`. */
  predicate UnderFirst(o: Order, p: Path, n: nat, r: Path)
    requires p in o && n <= |o[p]|
  {
    Below(p, r) && |p| < |r| && r[|p|] in o[p][..n]
  }

  predicate HarmUnder(env: Env, o: Order, t: Tree, s: State, p: Path, n: nat, r: Path)
    requires p in o && n <= |o[p]|
  {
    s.verdict == Going ==> Overfull(env, t, s, r) && (Below(r, p) || UnderFirst(o, p, n, r))
  }

  /** The tree being written, all of whose texts convert. */
  ghost predicate Saving(env: Env, o: Order, t: Tree, h: nat) {
    Writing(o, t, h) && NamesLoad(t) && TextsLoad(env, t)
  }

  lemma NodeIsGood(env: Env, o: Order, t: Tree, p: Path, h: nat)
    requires Saving(env, o, t, h) && p in o && p != []
    ensures GoodElem(env, Parent(p), false, NodeElem(env, o, t, p, h))
  {
    var e := NodeElem(env, o, t, p, h);
    NodeFaithful(env, o, t, p, h);
    GoodIsNamed(env, Parent(p), e);
    var es := Entries(env, Parent(p), e);
    forall i | 0 <= i < |es|
      ensures GoodEntry(env, es[i])
    {
      assert FaithfulEntry(env, t, es[i]);
    }
  }

  lemma KidsAreGood(env: Env, o: Order, t: Tree, p: Path, n: nat, h: nat)
    requires Saving(env, o, t, h) && p in o && n <= |o[p]|
    ensures GoodProps(env, p, false, NodeProps(env, o, t, p, n, h))
  {
    var ps := NodeProps(env, o, t, p, n, h);
    PropsFaithful(env, o, t, p, n, h);
    GoodPropsAreNamed(env, p, ps);
    var es := EntriesAll(env, p, ps);
    forall i | 0 <= i < |es|
      ensures GoodEntry(env, es[i])
    {
      assert FaithfulEntry(env, t, es[i]);
    }
  }

  /** What holds between elements while the file is read. */
  ghost predicate Midway(env: Env, base: Tree, t: Tree, s: State, prefix: Path) {
    InFile(s, prefix) && SameLocks(base, s) && ListIn(env, t, s, prefix)
  }

  lemma LeakStays(env: Env, o: Order, t: Tree, s: State, p: Path, a: Path, h: nat)
    requires Saving(env, o, t, h) && p in o && InFile(s, p) && Overfull(env, t, s, a) && Below(a, p)
    ensures HarmUnder(env, o, t, Run(env, s, KidsText(env, o, t, p, |o[p]|, h)), p, |o[p]|, a)
  {
    KidsAreGood(env, o, t, p, |o[p]|, h);
    PropsGrow(env, s, p, NodeProps(env, o, t, p, |o[p]|, h), a);
  }

  lemma KidsThenEnd(env: Env, o: Order, t: Tree, s: State, p: Path, h: nat, r: Path)
    requires Saving(env, o, t, h) && p in o && p != [] && InFile(s, p)
    requires HarmUnder(env, o, t, Run(env, s, KidsText(env, o, t, p, |o[p]|, h)), p, |o[p]|, r)
    ensures HarmAt(env, t, Run(env, Run(env, s, KidsText(env, o, t, p, |o[p]|, h)), [End]), p, r)
  {
    KidsAreGood(env, o, t, p, |o[p]|, h);
    PropsGrow(env, s, p, NodeProps(env, o, t, p, |o[p]|, h), []);
    HarmAfterEnd(env, o, t, Run(env, s, KidsText(env, o, t, p, |o[p]|, h)), p, r);
  }

  lemma HarmAfterEnd(env: Env, o: Order, t: Tree, s: State, p: Path, r: Path)
    requires p in o && p != [] && (s.verdict == Going ==> InFile(s, p)) && HarmUnder(env, o, t, s, p, |o[p]|, r)
    ensures HarmAt(env, t, Run(env, s, [End]), p, r)
  {
    assert p == Parent(p) + [p[|p| - 1]];
    EndGrows(env, s, Parent(p), p[|p| - 1]);
  }

  /** Head, children and end of an element. */
  lemma NodeParts(env: Env, o: Order, t: Tree, s: State, p: Path, h: nat)
    requires Writing(o, t, h) && p in o && p != []
    ensures var e := NodeElem(env, o, t, p, h);
      Run(env, s, ElemEvents(e)) ==
        Run(env, Run(env, Run(env, s, Head(e)), KidsText(env, o, t, p, |o[p]|, h)), [End])
  {
    var e, kids := NodeElem(env, o, t, p, h), KidsText(env, o, t, p, |o[p]|, h);
    RunConcat(env, s, Head(e), kids);
    RunConcat(env, s, Head(e) + kids, [End]);
  }

  /** After the head of an element the harm is done, or what holds between elements holds inside. */
  ghost predicate HeadRead(env: Env, base: Tree, t: Tree, s: State, p: Path) {
    s.verdict == Going ==>
      && InFile(s, p) && SameLocks(base, s)
      && if ItemsOnLock(env, base, t, p) then exists a :: Below(a, p) && Overfull(env, t, s, a)
         else ListIn(env, t, s, p)
  }

  lemma HeadHarm(env: Env, t: Tree, base: Tree, s: State, p: Path, e: PropElem)
    requires p != [] && Midway(env, base, t, s, Parent(p)) && GoodElem(env, Parent(p), false, e)
    requires e.name == p[|p| - 1] && p in t && e.payload == Written(env, t[p].user)
    ensures HeadRead(env, base, t, Run(env, s, Head(e)), p)
  {
    assert Parent(p) + [e.name] == p;
    HeadGrows(env, s, Parent(p), e, []);
    RunKeepsLocks(env, base, s, Head(e));
    if ItemsOnLock(env, base, t, p) {
      OwnItemsLeak(env, t, base, s, p, e);
    } else {
      HeadKeepsList(env, t, base, s, p, e);
    }
  }

  /** One array with items on a lock, at `q`, leaves a surplus at some `r`. */
  lemma {:induction false} NodeHarm(env: Env, o: Order, t: Tree, base: Tree, s: State, p: Path, h: nat, q: Path)
    returns (r: Path)
    requires Saving(env, o, t, h) && p in o && p != [] && Midway(env, base, t, s, Parent(p))
    requires Below(p, q) && ItemsOnLock(env, base, t, q)
    ensures HarmAt(env, t, Run(env, s, NodeText(env, o, t, p, h)), p, r)
    decreases h - |p|, 1, 0
  {
    var s1, kids := Run(env, s, Head(NodeElem(env, o, t, p, h))), KidsText(env, o, t, p, |o[p]|, h);
    NodeParts(env, o, t, s, p, h);
    NodeIsGood(env, o, t, p, h);
    HeadHarm(env, t, base, s, p, NodeElem(env, o, t, p, h));
    if s1.verdict != Going {
      Stopped(env, s1, kids);
      Stopped(env, s1, [End]);
      r := p;
    } else {
      if ItemsOnLock(env, base, t, p) {
        r :| Below(r, p) && Overfull(env, t, s1, r);
        LeakStays(env, o, t, s1, p, r, h);
      } else {
        InSomeKid(o, t, p, q);
        r := KidsHarm(env, o, t, base, s1, p, |o[p]|, h, q);
      }
      KidsThenEnd(env, o, t, s1, p, h, r);
    }
  }

  lemma KidsParts(env: Env, o: Order, t: Tree, s: State, p: Path, n: nat, h: nat)
    requires Writing(o, t, h) && p in o && 0 < n <= |o[p]| && p + [o[p][n - 1]] in o
    ensures Run(env, s, KidsText(env, o, t, p, n, h)) ==
      Run(env, Run(env, s, KidsText(env, o, t, p, n - 1, h)), NodeText(env, o, t, p + [o[p][n - 1]], h))
  {
    RunConcat(env, s, KidsText(env, o, t, p, n - 1, h), NodeText(env, o, t, p + [o[p][n - 1]], h));
  }

  /** Behind the first children, the open array is closed, or there were none. */
  lemma FrontGoes(env: Env, o: Order, t: Tree, base: Tree, s: State, p: Path, n: nat, h: nat)
    requires Saving(env, o, t, h) && p in o && n <= |o[p]| && Midway(env, base, t, s, p)
    ensures var s1 := Run(env, s, KidsText(env, o, t, p, n, h));
      s1.verdict == Going ==> Midway(env, base, t, s1, p)
  {
    KidsAreGood(env, o, t, p, n, h);
    PropsGrow(env, s, p, NodeProps(env, o, t, p, n, h), []);
    RunKeepsLocks(env, base, s, KidsText(env, o, t, p, n, h));
  }

  lemma InSomeKid(o: Order, t: Tree, p: Path, q: Path)
    requires Shaped(o) && o.Keys == t.Keys && p in o && q in t && StrictlyBelow(p, q)
    ensures UnderFirst(o, p, |o[p]|, q)
  {
    UnderChild(o, t, p, q);
    var i :| 0 <= i < |o[p]| && Below(p + [o[p][i]], q);
    assert q[|p|] == o[p][i] && o[p][..|o[p]|] == o[p];
  }

  lemma {:induction false} KidsHarm(env: Env, o: Order, t: Tree, base: Tree, s: State, p: Path, n: nat, h: nat, q: Path)
    returns (r: Path)
    requires Saving(env, o, t, h) && p in o && n <= |o[p]| && Midway(env, base, t, s, p)
    requires UnderFirst(o, p, n, q) && ItemsOnLock(env, base, t, q)
    ensures HarmUnder(env, o, t, Run(env, s, KidsText(env, o, t, p, n, h)), p, n, r)
    decreases h - |p|, 0, n
  {
    LastOrFront(o, p, n, q);
    ChildIn(o, p, n - 1);
    var s1 := Run(env, s, KidsText(env, o, t, p, n - 1, h));
    FrontGoes(env, o, t, base, s, p, n - 1, h);
    if s1.verdict != Going {
      FrontStops(env, o, t, s, s1, p, n, h);
      r := p;
    } else if UnderFirst(o, p, n - 1, q) {
      r := KidsHarm(env, o, t, base, s, p, n - 1, h, q);
      SurvivesLast(env, o, t, s, s1, p, n, h, r);
    } else {
      r := NodeHarm(env, o, t, base, s1, p + [o[p][n - 1]], h, q);
      LastHarms(env, o, t, s, s1, p, n, h, r);
    }
  }

  lemma LastOrFront(o: Order, p: Path, n: nat, q: Path)
    requires p in o && n <= |o[p]| && UnderFirst(o, p, n, q)
    ensures n > 0 && (UnderFirst(o, p, n - 1, q) || Below(p + [o[p][n - 1]], q))
  {
    assert o[p][..n] == o[p][..n - 1] + [o[p][n - 1]];
  }

  lemma FrontStops(env: Env, o: Order, t: Tree, s: State, s1: State, p: Path, n: nat, h: nat)
    requires Writing(o, t, h) && p in o && 0 < n <= |o[p]| && p + [o[p][n - 1]] in o
    requires s1 == Run(env, s, KidsText(env, o, t, p, n - 1, h)) && s1.verdict != Going
    ensures Run(env, s, KidsText(env, o, t, p, n, h)).verdict != Going
  {
    KidsParts(env, o, t, s, p, n, h);
    Stopped(env, s1, NodeText(env, o, t, p + [o[p][n - 1]], h));
  }

  lemma NextApart(o: Order, p: Path, n: nat, r: Path)
    requires Shaped(o) && p in o && 0 < n <= |o[p]| && (Below(r, p) || UnderFirst(o, p, n - 1, r))
    ensures !Below(p + [o[p][n - 1]], r) && (Below(r, p) || UnderFirst(o, p, n, r))
  {
    assert NodeShaped(o, p);
    assert o[p][..n] == o[p][..n - 1] + [o[p][n - 1]];
  }

  /** The surplus found so far is not touched by the next sibling. */
  lemma SurvivesLast(env: Env, o: Order, t: Tree, s: State, s1: State, p: Path, n: nat, h: nat, r: Path)
    requires Saving(env, o, t, h) && p in o && 0 < n <= |o[p]| && p + [o[p][n - 1]] in o
    requires s1 == Run(env, s, KidsText(env, o, t, p, n - 1, h)) && s1.verdict == Going && InFile(s1, p)
    requires HarmUnder(env, o, t, s1, p, n - 1, r)
    ensures HarmUnder(env, o, t, Run(env, s, KidsText(env, o, t, p, n, h)), p, n, r)
  {
    var child := p + [o[p][n - 1]];
    KidsParts(env, o, t, s, p, n, h);
    ChildIn(o, p, n - 1);
    NodeIsGood(env, o, t, child, h);
    NextApart(o, p, n, r);
    ElemGrows(env, s1, p, NodeElem(env, o, t, child, h), r);
  }

  lemma LastHarms(env: Env, o: Order, t: Tree, s: State, s1: State, p: Path, n: nat, h: nat, r: Path)
    requires Writing(o, t, h) && p in o && 0 < n <= |o[p]| && p + [o[p][n - 1]] in o
    requires s1 == Run(env, s, KidsText(env, o, t, p, n - 1, h))
    requires HarmAt(env, t, Run(env, s1, NodeText(env, o, t, p + [o[p][n - 1]], h)), p + [o[p][n - 1]], r)
    ensures HarmUnder(env, o, t, Run(env, s, KidsText(env, o, t, p, n, h)), p, n, r)
  {
    KidsParts(env, o, t, s, p, n, h);
    var child := p + [o[p][n - 1]];
    if StrictlyBelow(r, child) {
      assert r == child[..|r|] == p[..|r|];
    } else if Below(child, r) {
      assert r[|p|] == child[|p|] == o[p][..n][n - 1] && r[..|p|] == p;
    }
  }

  // ---------- the file ----------

  lemma OverfullDiffers(env: Env, t: Tree, s: State, r: Path)
    requires Overfull(env, t, s, r) && GoodPayload(env, Written(env, t[r].user))
    requires PayloadValue(env, Written(env, t[r].user)) == t[r].user
    ensures GetValue(s.tree, r) != GetValue(t, r)
  {
  }

  /** The opening tag, the properties, the end tag. */
  lemma FileParts(env: Env, o: Order, t: Tree, h: nat, channel: string, base: Tree)
    requires Writing(o, t, h) && channel != ""
    ensures var s1 := Fresh(base, false, false).(elem := ElemChannel);
      Reloaded(env, o, t, h, channel, base) == Run(env, Run(env, s1, KidsText(env, o, t, [], |o[[]]|, h)), [End])
  {
    var d, s0 := TreeDoc(env, o, t, h, channel), Fresh(base, false, false);
    var start, kids := Start("channel", ChannelAttrs(d)), KidsText(env, o, t, [], |o[[]]|, h);
    ChannelRuns(env, base, false, false, d);
    RunOne(env, s0, start);
    RunConcat(env, s0, [start], kids);
    RunConcat(env, s0, [start] + kids, [End]);
  }

  lemma ReadingStarts(env: Env, t: Tree, base: Tree)
    requires TreeOk(base, true)
    ensures Midway(env, base, t, Fresh(base, false, false).(elem := ElemChannel), [])
  {
  }

  lemma EndKeepsTree(env: Env, s: State)
    ensures Run(env, s, [End]).tree == s.tree && Run(env, s, [End]).verdict == s.verdict
  {
    RunOne(env, s, End);
  }

  /** A saved array with items on a path that `base` locks never comes back harmlessly: reading the
      file stops with an error, or some effective value has changed. */
  lemma ItemsOnLockHarm(env: Env, o: Order, t: Tree, h: nat, channel: string, base: Tree, p: Path)
    requires Saving(env, o, t, h) && RootBlank(t) && channel != "" && TreeOk(base, true)
    requires forall q :: q in t ==> PayloadValue(env, Written(env, t[q].user)) == t[q].user
    requires ItemsOnLock(env, base, t, p)
    ensures var s := Reloaded(env, o, t, h, channel, base);
      s.verdict == Going ==> exists r :: GetValue(s.tree, r) != GetValue(t, r)
  {
    var s1 := Fresh(base, false, false).(elem := ElemChannel);
    var s2 := Run(env, s1, KidsText(env, o, t, [], |o[[]]|, h));
    FileParts(env, o, t, h, channel, base);
    ReadingStarts(env, t, base);
    InSomeKid(o, t, [], p);
    var r := KidsHarm(env, o, t, base, s1, [], |o[[]]|, h, p);
    EndKeepsTree(env, s2);
    if s2.verdict == Going {
      OverfullDiffers(env, t, s2, r);
    }
  }

  lemma ArrayIsOnLock(env: Env, base: Tree, t: Tree) returns (p: Path)
    requires !NoItemsOnLock(base, t) && TextsLoad(env, t)
    requires forall q :: q in t ==> PayloadValue(env, Written(env, t[q].user)) == t[q].user
    ensures ItemsOnLock(env, base, t, p)
  {
    p :| p in t && LockedAt(base, p) && t[p].user.Some? && !t[p].user.value.One? && t[p].user != Some(Array([]));
    assert GoodPayload(env, Written(env, t[p].user));
  }

  /** What a client can ask for: over the same system layer, without channel lock, the file parses and gives back all
      effective values exactly if every user value on a path that `base` locks equals the system default
      there and is not an array with items. */
  lemma EffectiveRead(env: Env, o: Order, t: Tree, h: nat, channel: string, base: Tree)
    requires Writing(o, t, h) && NamesLoad(t) && RootBlank(t) && channel != ""
    requires forall q :: q in t ==> AllInRange(t[q].user) && Storable(env, t[q].user)
    requires TreeOk(base, true) && SystemMap(base) == SystemMap(t)
    ensures var s := Reloaded(env, o, t, h, channel, base);
      s.verdict == Going && (forall p :: GetValue(s.tree, p) == GetValue(t, p)) <==>
        AllSameAsDefault(base, t) && NoItemsOnLock(base, t)
  {
    EffectiveValues(env, o, t, h, channel, base);
    AllLoad(env, t);
    if !NoItemsOnLock(base, t) {
      var p := ArrayIsOnLock(env, base, t);
      ItemsOnLockHarm(env, o, t, h, channel, base, p);
    }
  }

  // ---------- all files of a channel ----------

  /** What it takes for all effective values to come back.  In a locked channel no user value does, so
      each has to hide nothing; elsewhere that goes for the locked paths, without arrays that have items. */
  predicate EffectivesComeBack(c: Loaded, t: Tree) {
    if c.locked then forall p :: p in t ==> SameAsDefault(t, p)
    else AllSameAsDefault(c.tree, t) && NoItemsOnLock(c.tree, t)
  }

  lemma LockedEffectives(base: Tree, t: Tree)
    requires UserMap(base) == map[] && SystemMap(base) == SystemMap(t)
    ensures (forall p :: GetValue(base, p) == GetValue(t, p)) <==> forall p :: p in t ==> SameAsDefault(t, p)
  {
    forall p
      ensures GetValue(base, p) == GetValue(t, p) <==> (p in t ==> SameAsDefault(t, p))
    {
      NoUser(base, p);
      SystemMapAt(base, t, p);
    }
  }

  /** Behind any system files with the same defaults, the saved file parses, if it is read, and loading
      the channel gives back all effective values, exactly if `EffectivesComeBack` holds. */
  lemma EffectiveRoundTrip(env: Env, o: Order, t: Tree, h: nat, channel: string, files: seq<seq<Event>>)
    requires Writing(o, t, h) && NamesLoad(t) && RootBlank(t) && channel != ""
    requires LoadSystem(env, files).locked || forall q :: q in t ==> AllInRange(t[q].user) && Storable(env, t[q].user)
    requires SystemMap(LoadSystem(env, files).tree) == SystemMap(t)
    ensures var c, file := LoadSystem(env, files), SavedFile(env, o, t, h, channel);
      var t' := Load(env, files, Some(file)).tree;
      UserParses(env, c, file) && (forall p :: GetValue(t', p) == GetValue(t, p)) <==> EffectivesComeBack(c, t)
  {
    var c := LoadSystem(env, files);
    LoadSystemSound(env, files);
    if c.locked {
      LockedChannelLoads(env, files, Some(SavedFile(env, o, t, h, channel)));
      LockedEffectives(c.tree, t);
    } else {
      EffectiveRead(env, o, t, h, channel, c.tree);
    }
  }
}
