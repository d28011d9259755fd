/** Parsing a well-formed document is putting its entries into the tree, one after the other. */
module XmlRuns {
  import opened Base
  import opened Values
  import opened Names
  import opened TreeModel
  import opened XmlText
  import opened XmlSpec
  import opened XmlDoc

  /** Inside the channel, with the properties `prefix` open. */
  predicate Within(s: State, prefix: Path) {
    && s.verdict == Going && GoodPath(prefix) && s.path == Join(prefix)
    && s.elem == (if prefix == [] then ElemChannel else ElemProperty)
    && !(s.locked && !s.system)
  }

  /** What the opening tag of an element sets its node to: an array is still without its items. */
  function FirstValue(env: Env, p: Payload): Option<Value>
    requires GoodPayload(env, p)
  {
    if p.Items? then Some(Array([])) else PayloadValue(env, p)
  }

  function Filled(env: Env, s: State, p: Path, payload: Payload): State
    requires GoodPayload(env, payload) && p in s.tree
  {
    s.(elem := ElemProperty, path := Join(p), tree := PutLayer(s.tree, p, s.system, FirstValue(env, payload)),
       list := if payload.Items? then Some(Join(p)) else s.list)
  }

  function Begun(env: Env, s: State, e: Entry): State
    requires GoodEntry(env, e)
  {
    match OpenProperty(s.tree, e.path, s.locked, s.system)
    case None => s.(elem := ElemProperty, path := Join(e.path))
    case Some(t1) => Filled(env, s.(tree := LockProperty(t1, e.path, e.lock, s.locked)), e.path, e.payload)
  }

  function EntryOf(env: Env, prefix: Path, e: PropElem): Entry {
    Entry(prefix + [e.name], e.payload, Directive(env, e.locked, e.unlocked))
  }

  lemma PutSame(t: Tree, p: Path, system: bool, v: Option<Value>)
    requires p in t && Layer(t[p], system) == v
    ensures PutLayer(t, p, system, v) == t
  {
  }

  lemma PutTwice(t: Tree, p: Path, system: bool, v: Option<Value>, w: Option<Value>)
    requires p in t
    ensures var t' := PutLayer(t, p, system, v);
      p in t' && Layer(t'[p], system) == v && PutLayer(t', p, system, w) == PutLayer(t, p, system, w)
  {
  }

  lemma ReadRuns(env: Env, s: State, p: Path, payload: Payload, f: Fields)
    requires PropNameIsValid(Join(p)) && Components(Join(p)) == p && p in s.tree
    requires GoodPayload(env, payload) && Layer(s.tree[p], s.system) == None
    requires f.type_ == Some(TypeName(PayloadType(payload)))
    requires f.text == if payload.Basic? then Some(payload.item.text) else None
    ensures ReadProperty(env, s, Join(p), f) == Filled(env, s, p, payload)
  {
    TypeNamesRead(PayloadType(payload));
    PutSame(s.tree, p, s.system, None);
  }

  lemma OpeningStep(env: Env, s: State, attrs: seq<Attr>)
    requires s.verdict == Going && (s.elem == ElemChannel || s.elem == ElemProperty)
    ensures Step(env, s, Start("property", attrs)) == PropertyStep(env, s, attrs)
  {
  }

  lemma StartRuns(env: Env, s: State, prefix: Path, e: PropElem)
    requires Within(s, prefix) && GoodElem(env, prefix, s.system, e)
    ensures Step(env, s, Start("property", ElemAttrs(e))) == Begun(env, s, EntryOf(env, prefix, e))
  {
    OpeningStep(env, s, ElemAttrs(e));
    TagEnters(env, s, prefix, e);
    ElemAttrsRead(e);
    FullName(prefix, e.name);
    PropertyRuns(env, s, prefix + [e.name], e, FieldsOf(ElemAttrs(e)));
  }

  /** The checks of the handler pass. */
  lemma TagEnters(env: Env, s: State, prefix: Path, e: PropElem)
    requires Within(s, prefix) && GoodElem(env, prefix, s.system, e)
    ensures PropNameIsValid(Join(prefix + [e.name]))
    ensures PropertyStep(env, s, ElemAttrs(e)) ==
      EnterProperty(env, s, Join(prefix + [e.name]), FieldsOf(ElemAttrs(e)))
  {
    ElemAttrsRead(e);
    TypeNamesRead(PayloadType(e.payload));
    FullName(prefix, e.name);
    assert e.name != "";
  }

  lemma PropertyRuns(env: Env, s: State, p: Path, e: PropElem, f: Fields)
    requires PropNameIsValid(Join(p)) && Components(Join(p)) == p && p != [] && GoodPayload(env, e.payload)
    requires s.system || (e.locked == "" && e.unlocked == "")
    requires f.type_ == Some(TypeName(PayloadType(e.payload)))
    requires f.text == if e.payload.Basic? then Some(e.payload.item.text) else None
    requires Text(f.locked) == e.locked && Text(f.unlocked) == e.unlocked
    ensures var entry := Entry(p, e.payload, Directive(env, e.locked, e.unlocked));
      Begun(env, s, entry) == EnterProperty(env, s, Join(p), f)
  {
    var d := Directive(env, e.locked, e.unlocked);
    var t1 := OpenProperty(s.tree, p, s.locked, s.system);
    if t1.Some? {
      ReadRuns(env, s.(tree := LockProperty(t1.value, p, d, s.locked)), p, e.payload, f);
    }
  }

  lemma FullName(prefix: Path, name: string)
    requires GoodPath(prefix) && GoodName(name)
    ensures var p := prefix + [name];
      && GoodPath(p) && Join(p) == Join(prefix) + "/" + name
      && PropNameIsValid(Join(p)) && Components(Join(p)) == p
  {
    var p := prefix + [name];
    assert p[..|p| - 1] == prefix;
    GoodPathJoins(p);
  }

  lemma AppendOne(t: Tree, name: string, system: bool, xs: seq<Scalar>, x: Scalar)
    requires HasList(t, name, system)
    ensures var p := Components(name); var t' := PutLayer(t, p, system, Some(Array(xs)));
      HasList(t', name, system) && AppendItem(t', name, system, x) == PutLayer(t, p, system, Some(Array(xs + [x])))
  {
    PutTwice(t, Components(name), system, Some(Array(xs)), Some(Array(xs + [x])));
  }

  /** The array at `p` has these items. */
  function WithItems(s: State, p: Path, xs: seq<Scalar>): State
    requires p in s.tree
  {
    s.(tree := PutLayer(s.tree, p, s.system, Some(Array(xs))))
  }

  /** An array is open at `p`. */
  predicate ArrayOpen(s: State, p: Path) {
    && s.verdict == Going && s.elem == ElemProperty && s.list.Some?
    && HasList(s.tree, s.list.value, s.system) && p == Components(s.list.value)
  }

  lemma OneMoreItem(env: Env, s: State, p: Path, xs: seq<Scalar>, item: Item)
    requires ArrayOpen(s, p) && ItemRead(env, item).Some?
    ensures Run(env, WithItems(s, p, xs), [Start("value", ItemAttrs(item)), End])
      == WithItems(s, p, xs + [ItemRead(env, item).value])
  {
    AppendOne(s.tree, s.list.value, s.system, xs, ItemRead(env, item).value);
    ItemRuns(env, WithItems(s, p, xs), item);
  }

  lemma ItemsGrow(env: Env, before: seq<Scalar>, items: seq<Item>)
    requires GoodItems(env, items) && items != []
    ensures var n := |items| - 1;
      before + ItemsValue(env, items) == before + ItemsValue(env, items[..n]) + [ItemRead(env, items[n]).value]
  {
  }

  /** The items are appended to the open array, one by one. */
  lemma {:induction false} ItemsRun(env: Env, s: State, p: Path, before: seq<Scalar>, items: seq<Item>)
    requires ArrayOpen(s, p) && GoodItems(env, items) && Layer(s.tree[p], s.system) == Some(Array(before))
    ensures Run(env, s, ItemEvents(items)) == WithItems(s, p, before + ItemsValue(env, items))
  {
    if items == [] {
      assert before + ItemsValue(env, items) == before;
      PutSame(s.tree, p, s.system, Some(Array(before)));
    } else {
      var n := |items| - 1;
      var front := items[..n];
      ItemsRun(env, s, p, before, front);
      OneMoreItem(env, s, p, before + ItemsValue(env, front), items[n]);
      ItemsGrow(env, before, items);
      RunConcat(env, s, ItemEvents(front), [Start("value", ItemAttrs(items[n])), End]);
    }
  }

  lemma ItemRuns(env: Env, s: State, item: Item)
    requires s.verdict == Going && s.elem == ElemProperty && s.list.Some? && ItemRead(env, item).Some?
    requires HasList(s.tree, s.list.value, s.system)
    ensures Run(env, s, [Start("value", ItemAttrs(item)), End]) ==
      s.(tree := AppendItem(s.tree, s.list.value, s.system, ItemRead(env, item).value))
  {
    ItemAttrsRead(item);
    TypeNamesRead(BasicType(item.kind));
    var start := Start("value", ItemAttrs(item));
    assert [start, End] == [start] + [End];
    RunConcat(env, s, [start], [End]);
    RunOne(env, s, start);
    RunOne(env, Step(env, s, start), End);
  }

  /** The open array behind the payload: its own, unless the element is passed over. */
  function NextList(s: State, e: Entry): Option<string>
    requires e.path != []
  {
    if e.payload.Items? && OpenProperty(s.tree, e.path, s.locked, s.system).Some? then Some(Join(e.path)) else s.list
  }

  /** The whole payload: opening tag and items. */
  lemma PayloadRuns(env: Env, s: State, prefix: Path, e: PropElem)
    requires Within(s, prefix) && GoodElem(env, prefix, s.system, e)
    requires Harmless(s.tree, s.system, EntryOf(env, prefix, e))
    ensures GoodEntry(env, EntryOf(env, prefix, e))
    ensures var s' := Run(env, s, [Start("property", ElemAttrs(e))] + PayloadEvents(e.payload));
      && Within(s', prefix + [e.name])
      && s' == s.(elem := ElemProperty, path := Join(prefix + [e.name]), list := NextList(s, EntryOf(env, prefix, e)),
                  tree := PutEntry(env, s.tree, s.locked, s.system, EntryOf(env, prefix, e)))
  {
    var entry := EntryOf(env, prefix, e);
    var start := Start("property", ElemAttrs(e));
    FullName(prefix, e.name);
    StartRuns(env, s, prefix, e);
    RunOne(env, s, start);
    RunConcat(env, s, [start], PayloadEvents(e.payload));
    ContentRuns(env, s, entry);
  }

  /** The items, after the opening tag. */
  lemma ContentRuns(env: Env, s: State, e: Entry)
    requires s.verdict == Going && GoodEntry(env, e) && Harmless(s.tree, s.system, e) && !(s.locked && !s.system)
    requires PropNameIsValid(Join(e.path)) && Components(Join(e.path)) == e.path
    ensures var s' := Run(env, Begun(env, s, e), PayloadEvents(e.payload));
      s' == s.(elem := ElemProperty, path := Join(e.path), list := NextList(s, e),
               tree := PutEntry(env, s.tree, s.locked, s.system, e))
  {
    var t1 := OpenProperty(s.tree, e.path, s.locked, s.system);
    if t1.Some? && e.payload.Items? {
      var t2 := LockProperty(t1.value, e.path, e.lock, s.locked);
      PutTwice(t2, e.path, s.system, Some(Array([])), PayloadValue(env, e.payload));
      assert [] + ItemsValue(env, e.payload.items) == ItemsValue(env, e.payload.items);
      ItemsRun(env, Begun(env, s, e), e.path, [], e.payload.items);
    }
  }

  lemma EndRuns(env: Env, s: State, prefix: Path, name: string)
    requires Within(s, prefix + [name])
    ensures Within(Step(env, s, End), prefix)
    ensures Step(env, s, End) ==
      s.(elem := if prefix == [] then ElemChannel else ElemProperty, path := Join(prefix), list := None)
  {
    var p := prefix + [name];
    assert p[..|p| - 1] == prefix;
    assert GoodName(p[|p| - 1]);
    assert GoodPath(prefix) by {
      forall i | 0 <= i < |prefix|
        ensures GoodName(prefix[i])
      {
        assert GoodName(p[i]);
      }
    }
    LastSlashOf(Join(prefix), name);
    assert s.path[..|Join(prefix)|] == Join(prefix);
    JoinStartsWithSlash(prefix);
  }

  // ---------- whole documents ----------

  /** Sub-lists of harmless entries are harmless, and stay so while other entries are put. */
  lemma HarmlessParts(t: Tree, system: bool, a: seq<Entry>, b: seq<Entry>)
    requires AllHarmless(t, system, a + b)
    ensures AllHarmless(t, system, a) && AllHarmless(t, system, b)
  {
    forall i | 0 <= i < |a|
      ensures Harmless(t, system, a[i])
    {
      assert (a + b)[i] == a[i];
    }
    forall i | 0 <= i < |b|
      ensures Harmless(t, system, b[i])
    {
      assert (a + b)[|a| + i] == b[i];
    }
  }

  /** Reading a user file locks nothing. */
  lemma PutLocksNothing(env: Env, t: Tree, e: Entry, q: Path)
    requires GoodEntry(env, e) && e.lock == None && Closed(t)
    ensures Closed(PutEntry(env, t, false, false, e))
    ensures var t' := PutEntry(env, t, false, false, e);
      q in t' && t'[q].locked <==> q in t && t[q].locked
  {
    if e.path !in t {
      AddNodeMeaning(t, e.path, BLANK);
    }
  }

  lemma {:induction false} PutAllLocksNothing(env: Env, t: Tree, es: seq<Entry>)
    requires GoodEntries(env, es) && Closed(t) && forall i :: 0 <= i < |es| ==> es[i].lock == None
    ensures var t' := PutAll(env, t, false, false, es);
      Closed(t') && forall q :: q in t' && t'[q].locked <==> q in t && t[q].locked
  {
    if es != [] {
      var n := |es| - 1;
      PutAllLocksNothing(env, t, es[..n]);
      forall q
        ensures var t' := PutAll(env, t, false, false, es); q in t' && t'[q].locked <==> q in t && t[q].locked
      {
        PutLocksNothing(env, PutAll(env, t, false, false, es[..n]), es[n], q);
      }
      PutLocksNothing(env, PutAll(env, t, false, false, es[..n]), es[n], []);
    }
  }

  lemma {:induction false} UserEntriesUnlocked(env: Env, prefix: Path, e: PropElem)
    requires GoodElem(env, prefix, false, e)
    ensures forall i :: 0 <= i < |Entries(env, prefix, e)| ==> Entries(env, prefix, e)[i].lock == None
    decreases e
  {
    UserPropsUnlocked(env, prefix + [e.name], e.children);
  }

  lemma {:induction false} UserPropsUnlocked(env: Env, prefix: Path, ps: Props)
    requires GoodProps(env, prefix, false, ps)
    ensures forall i :: 0 <= i < |EntriesAll(env, prefix, ps)| ==> EntriesAll(env, prefix, ps)[i].lock == None
    decreases ps
  {
    if ps.More? {
      UserPropsUnlocked(env, prefix, ps.front);
      UserEntriesUnlocked(env, prefix, ps.last);
    }
  }

  /** The remaining entries of a file are as harmless after the first ones as before. */
  lemma StillHarmless(env: Env, s: State, a: seq<Entry>, b: seq<Entry>)
    requires GoodEntries(env, a) && Closed(s.tree) && !(s.locked && !s.system)
    requires AllHarmless(s.tree, s.system, b)
    requires !s.system ==> forall i :: 0 <= i < |a| ==> a[i].lock == None
    ensures AllHarmless(PutAll(env, s.tree, s.locked, s.system, a), s.system, b)
  {
    if !s.system {
      PutAllLocksNothing(env, s.tree, a);
      forall i | 0 <= i < |b|
        ensures Harmless(PutAll(env, s.tree, s.locked, s.system, a), s.system, b[i])
      {
        assert Harmless(s.tree, s.system, b[i]);
      }
    }
  }

  lemma PutKeepsClosed(env: Env, t: Tree, locked: bool, system: bool, e: Entry)
    requires GoodEntry(env, e) && Closed(t)
    ensures Closed(PutEntry(env, t, locked, system, e))
  {
    if e.path !in t {
      AddNodeMeaning(t, e.path, Data(None, None, locked));
    }
  }

  lemma {:induction false} PutAllKeepsClosed(env: Env, t: Tree, locked: bool, system: bool, es: seq<Entry>)
    requires GoodEntries(env, es) && Closed(t)
    ensures Closed(PutAll(env, t, locked, system, es))
  {
    if es != [] {
      var n := |es| - 1;
      PutAllKeepsClosed(env, t, locked, system, es[..n]);
      PutKeepsClosed(env, PutAll(env, t, locked, system, es[..n]), locked, system, es[n]);
    }
  }

  lemma PutOne(env: Env, t: Tree, locked: bool, system: bool, e: Entry)
    requires GoodEntry(env, e)
    ensures GoodEntries(env, [e]) && PutAll(env, t, locked, system, [e]) == PutEntry(env, t, locked, system, e)
  {
    assert [e][..0] == [];
    assert PutAll(env, t, locked, system, []) == t;
  }

  /** Parsing an element, with everything in it, puts its entries. */
  lemma {:induction false} ElemRuns(env: Env, s: State, prefix: Path, e: PropElem)
    requires Within(s, prefix) && GoodElem(env, prefix, s.system, e) && Closed(s.tree)
    requires AllHarmless(s.tree, s.system, Entries(env, prefix, e))
    ensures GoodEntries(env, Entries(env, prefix, e))
    ensures Run(env, s, ElemEvents(e)) ==
      s.(list := None, tree := PutAll(env, s.tree, s.locked, s.system, Entries(env, prefix, e)))
    decreases e
  {
    var p := prefix + [e.name];
    var entry, rest := EntryOf(env, prefix, e), EntriesAll(env, p, e.children);
    var head := [Start("property", ElemAttrs(e))] + PayloadEvents(e.payload);
    ElemEntriesGood(env, prefix, s.system, e);
    PropsEntriesGood(env, p, s.system, e.children);
    HarmlessParts(s.tree, s.system, [entry], rest);
    assert [entry][0] == entry;
    PayloadRuns(env, s, prefix, e);
    var s1 := Run(env, s, head);
    PutOne(env, s.tree, s.locked, s.system, entry);
    PutKeepsClosed(env, s.tree, s.locked, s.system, entry);
    StillHarmless(env, s, [entry], rest);
    PropsRun(env, s1, p, e.children);
    var s2 := Run(env, s1, PropsEvents(e.children));
    EndRuns(env, s2, prefix, e.name);
    RunOne(env, s2, End);
    RunConcat(env, s, head, PropsEvents(e.children));
    RunConcat(env, s, head + PropsEvents(e.children), [End]);
    PutAllConcat(env, s.tree, s.locked, s.system, [entry], rest);
  }

  lemma {:induction false} PropsRun(env: Env, s: State, prefix: Path, ps: Props)
    requires Within(s, prefix) && GoodProps(env, prefix, s.system, ps) && Closed(s.tree)
    requires AllHarmless(s.tree, s.system, EntriesAll(env, prefix, ps))
    ensures GoodEntries(env, EntriesAll(env, prefix, ps))
    ensures Run(env, s, PropsEvents(ps)) ==
      s.(list := if ps.NoProps? then s.list else None,
         tree := PutAll(env, s.tree, s.locked, s.system, EntriesAll(env, prefix, ps)))
    decreases ps
  {
    PropsEntriesGood(env, prefix, s.system, ps);
    if ps.More? {
      var front, last := EntriesAll(env, prefix, ps.front), Entries(env, prefix, ps.last);
      HarmlessParts(s.tree, s.system, front, last);
      PropsRun(env, s, prefix, ps.front);
      var s1 := Run(env, s, PropsEvents(ps.front));
      PutAllKeepsClosed(env, s.tree, s.locked, s.system, front);
      if !s.system {
        UserPropsUnlocked(env, prefix, ps.front);
      }
      StillHarmless(env, s, front, last);
      ElemRuns(env, s1, prefix, ps.last);
      RunConcat(env, s, PropsEvents(ps.front), ElemEvents(ps.last));
      PutAllConcat(env, s.tree, s.locked, s.system, front, last);
    }
  }

  // ---------- files ----------

  /** What the lock policy makes of the opening tag of a file: the tree and channel lock to go on
      with, or nothing if the file is refused. */
  function Policy(env: Env, t: Tree, locked: bool, system: bool, d: Doc): Option<(Tree, bool)> {
    match Directive(env, d.locked, d.unlocked)
    case None => Some((t, locked))
    case Some(lock) =>
      if !system || (locked && !lock) then None
      else if !locked && lock then Some((EMPTY_TREE, true))
      else Some((t, locked))
  }

  lemma ChannelRuns(env: Env, t: Tree, locked: bool, system: bool, d: Doc)
    requires d.name != ""
    ensures var s := Fresh(t, locked, system);
      Step(env, s, Start("channel", ChannelAttrs(d))) ==
        match Policy(env, t, locked, system, d)
        case None => s.(verdict := ParseError)
        case Some(r) => s.(elem := ElemChannel, tree := r.0, locked := r.1)
  {
    ChannelAttrsRead(d);
    assert "1.0"[0] == '1' && "1.0"[1] == '.';
  }

  predicate GoodDoc(env: Env, system: bool, d: Doc) {
    d.name != "" && GoodProps(env, [], system, d.props)
  }

  function DocEntries(env: Env, d: Doc): seq<Entry> {
    EntriesAll(env, [], d.props)
  }

  /** A refused file leaves everything as it is; an accepted one puts its entries. */
  lemma FileRuns(env: Env, t: Tree, locked: bool, system: bool, d: Doc)
    requires GoodDoc(env, system, d) && Closed(t) && !(locked && !system)
    requires AllHarmless(t, system, DocEntries(env, d))
    ensures GoodEntries(env, DocEntries(env, d))
    ensures var s := Fresh(t, locked, system);
      Run(env, s, FileEvents(d)) ==
        match Policy(env, t, locked, system, d)
        case None => s.(verdict := ParseError)
        case Some(r) => s.(tree := PutAll(env, r.0, r.1, system, DocEntries(env, d)), locked := r.1)
  {
    var s := Fresh(t, locked, system);
    var start, rest := Start("channel", ChannelAttrs(d)), PropsEvents(d.props) + [End];
    PropsEntriesGood(env, [], system, d.props);
    ChannelRuns(env, t, locked, system, d);
    RunOne(env, s, start);
    RunConcat(env, s, [start], rest);
    assert FileEvents(d) == [start] + rest;
    match Policy(env, t, locked, system, d) {
      case None => Stopped(env, Step(env, s, start), rest);
      case Some(r) =>
        EmptyTreeClosed();
        BodyRuns(env, s.(elem := ElemChannel, tree := r.0, locked := r.1), d.props);
    }
  }

  lemma BodyRuns(env: Env, s: State, ps: Props)
    requires s == Fresh(s.tree, s.locked, s.system).(elem := ElemChannel)
    requires GoodProps(env, [], s.system, ps) && Closed(s.tree) && !(s.locked && !s.system)
    requires AllHarmless(s.tree, s.system, EntriesAll(env, [], ps))
    ensures GoodEntries(env, EntriesAll(env, [], ps))
    ensures Run(env, s, PropsEvents(ps) + [End]) ==
      Fresh(PutAll(env, s.tree, s.locked, s.system, EntriesAll(env, [], ps)), s.locked, s.system)
  {
    PropsRun(env, s, [], ps);
    RunConcat(env, s, PropsEvents(ps), [End]);
    RunOne(env, Run(env, s, PropsEvents(ps)), End);
  }

  lemma EmptyTreeClosed()
    ensures Closed(EMPTY_TREE)
  {
  }
}
