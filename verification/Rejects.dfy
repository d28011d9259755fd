/** User files with a text that does not convert: they are read up to that text. */
module Rejects {
  import opened Base
  import opened Values
  import opened Names
  import opened TreeModel
  import opened XmlText
  import opened XmlSpec
  import opened XmlDoc
  import opened XmlRuns

  /** An element of a user file whose names are fine; nothing is said about its texts. */
  predicate NamedElem(prefix: Path, e: PropElem)
    decreases e
  {
    && GoodName(e.name) && |Join(prefix + [e.name])| < MAX_PROP_PATH && e.locked == "" && e.unlocked == ""
    && NamedProps(prefix + [e.name], e.children)
  }

  predicate NamedProps(prefix: Path, ps: Props)
    decreases ps
  {
    match ps
    case NoProps => true
    case More(front, last) => NamedProps(prefix, front) && NamedElem(prefix, last)
  }

  lemma GoodParts(env: Env, a: seq<Entry>, b: seq<Entry>)
    ensures GoodEntries(env, a + b) <==> GoodEntries(env, a) && GoodEntries(env, b)
  {
    if GoodEntries(env, a + b) {
      forall i | 0 <= i < |a|
        ensures GoodEntry(env, a[i])
      {
        assert (a + b)[i] == a[i];
      }
      forall i | 0 <= i < |b|
        ensures GoodEntry(env, b[i])
      {
        assert (a + b)[|a| + i] == b[i];
      }
    }
  }

  lemma {:induction false} GoodIsNamed(env: Env, prefix: Path, e: PropElem)
    requires NamedElem(prefix, e)
    ensures GoodElem(env, prefix, false, e) <==> GoodEntries(env, Entries(env, prefix, e))
    decreases e
  {
    var own := EntryOf(env, prefix, e);
    GoodPropsAreNamed(env, prefix + [e.name], e.children);
    GoodParts(env, [own], EntriesAll(env, prefix + [e.name], e.children));
    assert [own][0] == own;
  }

  lemma {:induction false} GoodPropsAreNamed(env: Env, prefix: Path, ps: Props)
    requires NamedProps(prefix, ps)
    ensures GoodProps(env, prefix, false, ps) <==> GoodEntries(env, EntriesAll(env, prefix, ps))
    decreases ps
  {
    if ps.More? {
      GoodPropsAreNamed(env, prefix, ps.front);
      GoodIsNamed(env, prefix, ps.last);
      GoodParts(env, EntriesAll(env, prefix, ps.front), Entries(env, prefix, ps.last));
    }
  }

  // ---------- where parsing stops ----------

  /** The entry says something only where nothing is locked. */
  predicate Clear(t: Tree, e: Entry) {
    e.path in t && t[e.path].locked ==> e.payload.Branch?
  }

  predicate AllClear(t: Tree, es: seq<Entry>) {
    forall i :: 0 <= i < |es| ==> Clear(t, es[i])
  }

  lemma ClearIsHarmless(t: Tree, es: seq<Entry>)
    requires AllClear(t, es)
    ensures AllHarmless(t, false, es)
  {
    forall i | 0 <= i < |es|
      ensures Harmless(t, false, es[i])
    {
      assert Clear(t, es[i]);
    }
  }

  lemma ClearParts(t: Tree, a: seq<Entry>, b: seq<Entry>)
    requires AllClear(t, a + b)
    ensures AllClear(t, a) && AllClear(t, b)
  {
    forall i | 0 <= i < |a|
      ensures Clear(t, a[i])
    {
      assert (a + b)[i] == a[i];
    }
    forall i | 0 <= i < |b|
      ensures Clear(t, b[i])
    {
      assert (a + b)[|a| + i] == b[i];
    }
  }

  lemma StillClear(env: Env, t: Tree, a: seq<Entry>, b: seq<Entry>)
    requires GoodEntries(env, a) && Closed(t) && AllClear(t, b) && forall i :: 0 <= i < |a| ==> a[i].lock == None
    ensures AllClear(PutAll(env, t, false, false, a), b)
  {
    PutAllLocksNothing(env, t, a);
    forall i | 0 <= i < |b|
      ensures Clear(PutAll(env, t, false, false, a), b[i])
    {
      assert Clear(t, b[i]);
    }
  }

  /** A user file that is being read, in a channel that is not locked. */
  predicate Reading(s: State, prefix: Path) {
    Within(s, prefix) && !s.system && !s.locked && Closed(s.tree)
  }

  lemma TextStops(env: Env, s: State, prefix: Path, e: PropElem)
    requires Reading(s, prefix) && NamedElem(prefix, e) && Clear(s.tree, EntryOf(env, prefix, e))
    requires e.payload.Basic? && ItemRead(env, e.payload.item).None?
    ensures Step(env, s, Start("property", ElemAttrs(e))).verdict == ParseError
  {
    NamedTagEnters(env, s, prefix, e);
    ElemAttrsRead(e);
    TypeNamesRead(PayloadType(e.payload));
    var t1 := OpenProperty(s.tree, prefix + [e.name], false, false);
    TextRefused(env, s.(tree := t1.value), Join(prefix + [e.name]), FieldsOf(ElemAttrs(e)), e.payload.item);
  }

  /** The checks on the opening tag pass, whatever the texts are. */
  lemma NamedTagEnters(env: Env, s: State, prefix: Path, e: PropElem)
    requires Reading(s, prefix) && GoodName(e.name) && |Join(prefix + [e.name])| < MAX_PROP_PATH
    ensures PropNameIsValid(Join(prefix + [e.name])) && Components(Join(prefix + [e.name])) == prefix + [e.name]
    ensures Step(env, s, Start("property", ElemAttrs(e))) ==
      EnterProperty(env, s, Join(prefix + [e.name]), FieldsOf(ElemAttrs(e)))
  {
    OpeningStep(env, s, ElemAttrs(e));
    ElemAttrsRead(e);
    TypeNamesRead(PayloadType(e.payload));
    FullName(prefix, e.name);
  }

  lemma TextRefused(env: Env, s: State, full: string, f: Fields, item: Item)
    requires PropNameIsValid(full) && Components(full) in s.tree
    requires Text(f.locked) == "" && Text(f.unlocked) == "" && f.text == Some(item.text)
    requires TypeFromString(Text(f.type_)) == BasicType(item.kind) && ItemRead(env, item).None?
    ensures FillProperty(env, s, full, f).verdict == ParseError
  {
  }

  lemma {:induction false} ItemsStop(env: Env, s: State, p: Path, before: seq<Scalar>, items: seq<Item>)
    requires s.verdict == Going && s.elem == ElemProperty && s.list.Some? && !GoodItems(env, items)
    requires HasList(s.tree, s.list.value, s.system) && p == Components(s.list.value)
    requires Layer(s.tree[p], s.system) == Some(Array(before))
    ensures Run(env, s, ItemEvents(items)).verdict == ParseError
  {
    var n := |items| - 1;
    var front := items[..n];
    var tail := [Start("value", ItemAttrs(items[n])), End];
    RunConcat(env, s, ItemEvents(front), tail);
    if GoodItems(env, front) {
      ItemsRun(env, s, p, before, front);
      LastBad(env, items);
      ItemStops(env, Run(env, s, ItemEvents(front)), items[n]);
    } else {
      ItemsStop(env, s, p, before, front);
      Stopped(env, Run(env, s, ItemEvents(front)), tail);
    }
  }

  lemma LastBad(env: Env, items: seq<Item>)
    requires items != [] && GoodItems(env, items[..|items| - 1]) && !GoodItems(env, items)
    ensures ItemRead(env, items[|items| - 1]).None?
  {
    var n := |items| - 1;
    forall i | 0 <= i < n
      ensures ItemRead(env, items[i]).Some?
    {
      assert items[..n][i] == items[i];
    }
  }

  lemma ItemStops(env: Env, s: State, item: Item)
    requires s.verdict == Going && s.elem == ElemProperty && s.list.Some? && ItemRead(env, item).None?
    requires HasList(s.tree, s.list.value, s.system)
    ensures Run(env, s, [Start("value", ItemAttrs(item)), End]).verdict == ParseError
  {
    ItemAttrsRead(item);
    TypeNamesRead(BasicType(item.kind));
    var start := Start("value", ItemAttrs(item));
    assert [start, End] == [start] + [End];
    RunConcat(env, s, [start], [End]);
    RunOne(env, s, start);
    Stopped(env, Step(env, s, start), [End]);
  }

  lemma PayloadStops(env: Env, s: State, prefix: Path, e: PropElem)
    requires Reading(s, prefix) && NamedElem(prefix, e) && Clear(s.tree, EntryOf(env, prefix, e))
    requires !GoodPayload(env, e.payload)
    ensures Run(env, s, [Start("property", ElemAttrs(e))] + PayloadEvents(e.payload)).verdict == ParseError
  {
    var start := Start("property", ElemAttrs(e));
    RunOne(env, s, start);
    RunConcat(env, s, [start], PayloadEvents(e.payload));
    if e.payload.Basic? {
      TextStops(env, s, prefix, e);
    } else {
      var bare := e.(payload := Items([]), children := NoProps);
      assert ElemAttrs(bare) == ElemAttrs(e);
      StartRuns(env, s, prefix, bare);
      FullName(prefix, e.name);
      ItemsStop(env, Begun(env, s, EntryOf(env, prefix, bare)), prefix + [e.name], [], e.payload.items);
    }
  }

  lemma {:induction false} ElemStops(env: Env, s: State, prefix: Path, e: PropElem)
    requires Reading(s, prefix) && NamedElem(prefix, e) && AllClear(s.tree, Entries(env, prefix, e))
    requires !GoodElem(env, prefix, false, e)
    ensures Run(env, s, ElemEvents(e)).verdict == ParseError
    decreases e
  {
    var entry, rest := EntryOf(env, prefix, e), EntriesAll(env, prefix + [e.name], e.children);
    var head := [Start("property", ElemAttrs(e))] + PayloadEvents(e.payload);
    ClearParts(s.tree, [entry], rest);
    assert [entry][0] == entry;
    RunConcat(env, s, head, PropsEvents(e.children));
    RunConcat(env, s, head + PropsEvents(e.children), [End]);
    if GoodPayload(env, e.payload) {
      ChildrenStop(env, s, prefix, e);
    } else {
      PayloadStops(env, s, prefix, e);
      Stopped(env, Run(env, s, head), PropsEvents(e.children));
    }
    Stopped(env, Run(env, s, head + PropsEvents(e.children)), [End]);
  }

  lemma {:induction false} ChildrenStop(env: Env, s: State, prefix: Path, e: PropElem)
    requires Reading(s, prefix) && NamedElem(prefix, e) && GoodPayload(env, e.payload)
    requires Clear(s.tree, EntryOf(env, prefix, e))
    requires AllClear(s.tree, EntriesAll(env, prefix + [e.name], e.children))
    requires !GoodProps(env, prefix + [e.name], false, e.children)
    ensures var s1 := Run(env, s, [Start("property", ElemAttrs(e))] + PayloadEvents(e.payload));
      Run(env, s1, PropsEvents(e.children)).verdict == ParseError
    decreases e.children, 1
  {
    var entry, bare := EntryOf(env, prefix, e), e.(children := NoProps);
    PayloadRuns(env, s, prefix, bare);
    PutOne(env, s.tree, false, false, entry);
    PutKeepsClosed(env, s.tree, false, false, entry);
    StillClear(env, s.tree, [entry], EntriesAll(env, prefix + [e.name], e.children));
    var s1 := Run(env, s, [Start("property", ElemAttrs(e))] + PayloadEvents(e.payload));
    PropsStop(env, s1, prefix + [e.name], e.children);
  }

  lemma {:induction false} PropsStop(env: Env, s: State, prefix: Path, ps: Props)
    requires Reading(s, prefix) && NamedProps(prefix, ps) && AllClear(s.tree, EntriesAll(env, prefix, ps))
    requires !GoodProps(env, prefix, false, ps)
    ensures Run(env, s, PropsEvents(ps)).verdict == ParseError
    decreases ps, 0
  {
    var front, last := EntriesAll(env, prefix, ps.front), Entries(env, prefix, ps.last);
    ClearParts(s.tree, front, last);
    RunConcat(env, s, PropsEvents(ps.front), ElemEvents(ps.last));
    if GoodProps(env, prefix, false, ps.front) {
      ClearIsHarmless(s.tree, front);
      PropsRun(env, s, prefix, ps.front);
      PutAllKeepsClosed(env, s.tree, false, false, front);
      UserPropsUnlocked(env, prefix, ps.front);
      StillClear(env, s.tree, front, last);
      ElemStops(env, Run(env, s, PropsEvents(ps.front)), prefix, ps.last);
    } else {
      PropsStop(env, s, prefix, ps.front);
      Stopped(env, Run(env, s, PropsEvents(ps.front)), ElemEvents(ps.last));
    }
  }

  /** A user file with good names, nowhere against a lock, parses exactly if all its texts convert. */
  lemma UserFileParses(env: Env, t: Tree, d: Doc)
    requires Closed(t) && d.name != "" && d.locked == "" && d.unlocked == ""
    requires NamedProps([], d.props) && AllClear(t, DocEntries(env, d))
    ensures Run(env, Fresh(t, false, false), FileEvents(d)).verdict == Going <==> GoodEntries(env, DocEntries(env, d))
  {
    GoodPropsAreNamed(env, [], d.props);
    ClearIsHarmless(t, DocEntries(env, d));
    if GoodEntries(env, DocEntries(env, d)) {
      FileRuns(env, t, false, false, d);
    } else {
      var s, start := Fresh(t, false, false), Start("channel", ChannelAttrs(d));
      ChannelRuns(env, t, false, false, d);
      RunOne(env, s, start);
      RunConcat(env, s, [start], PropsEvents(d.props));
      RunConcat(env, s, [start] + PropsEvents(d.props), [End]);
      PropsStop(env, Step(env, s, start), [], d.props);
      Stopped(env, Run(env, s, [start] + PropsEvents(d.props)), [End]);
    }
  }
}
