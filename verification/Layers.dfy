/** Loading a channel: system files in order, then the user file, under the lock policy
    (esconfd/esconf-backend-perchannel-xml.c, `esconf_backend_perchannel_xml_load_channel`). */
module Layers {
  import opened Base
  import opened Values
  import opened Names
  import opened TreeModel
  import opened FlatMaps
  import opened XmlText
  import opened XmlSpec
  import opened XmlInvariants
  import opened XmlDoc
  import opened XmlRuns

  // ---------- the two layers ----------

  function UserAt(t: Tree, p: Path): Option<Value> {
    if p in t then t[p].user else None
  }

  function SystemAt(t: Tree, p: Path): Option<Value> {
    if p in t then t[p].system else None
  }

  predicate LockedAt(t: Tree, p: Path) {
    p in t && t[p].locked
  }

  /** The last entry about `p`. */
  function LastMention(es: seq<Entry>, p: Path): (r: Option<Payload>) {
    if es == [] then None
    else if es[|es| - 1].path == p then Some(es[|es| - 1].payload)
    else LastMention(es[..|es| - 1], p)
  }

  /** The last lock directive about `p`. */
  function LastLock(es: seq<Entry>, p: Path): Option<bool> {
    if es == [] then None
    else if es[|es| - 1].path == p && es[|es| - 1].lock.Some? then es[|es| - 1].lock
    else LastLock(es[..|es| - 1], p)
  }

  lemma {:induction false} MentionIsEntry(env: Env, es: seq<Entry>, p: Path)
    requires GoodEntries(env, es)
    ensures LastMention(es, p).Some? ==> GoodPayload(env, LastMention(es, p).value)
    ensures LastMention(es, p).Some? <==> exists i :: 0 <= i < |es| && es[i].path == p
  {
    if es != [] && es[|es| - 1].path != p {
      MentionIsEntry(env, es[..|es| - 1], p);
    }
  }

  /** What the entries say about `p`, or what was there before. */
  function Said(env: Env, es: seq<Entry>, p: Path, before: Option<Value>): Option<Value>
    requires GoodEntries(env, es)
  {
    MentionIsEntry(env, es, p);
    match LastMention(es, p)
    case Some(payload) => PayloadValue(env, payload)
    case None => before
  }

  lemma PutAt(env: Env, t: Tree, locked: bool, system: bool, e: Entry, q: Path)
    requires GoodEntry(env, e) && Closed(t)
    ensures var t' := PutEntry(env, t, locked, system, e);
      && Closed(t')
      && (q != e.path ==> UserAt(t', q) == UserAt(t, q) && SystemAt(t', q) == SystemAt(t, q)
                          && LockedAt(t', q) == LockedAt(t, q))
      && (q == e.path && system ==> UserAt(t', q) == None && SystemAt(t', q) == PayloadValue(env, e.payload))
      && (q == e.path && !system && !locked ==>
            && SystemAt(t', q) == SystemAt(t, q)
            && UserAt(t', q) == if LockedAt(t, q) then UserAt(t, q) else PayloadValue(env, e.payload))
      && (q == e.path && !locked && (system || e.lock.None?) ==>
            LockedAt(t', q) == if e.lock.Some? then e.lock.value else LockedAt(t, q))
      && (q == e.path && locked && LockedAt(t, q) ==> LockedAt(t', q))
  {
    if e.path !in t {
      AddNodeMeaning(t, e.path, Data(None, None, locked));
    }
  }

  /** Last mention wins in the system layer, and no user value is left where a system file
      mentions the path; in a channel that is not locked the last directive decides the lock. */
  lemma {:induction false} SystemLayer(env: Env, t: Tree, locked: bool, es: seq<Entry>, p: Path)
    requires GoodEntries(env, es) && Closed(t)
    ensures var t' := PutAll(env, t, locked, true, es);
      && SystemAt(t', p) == Said(env, es, p, SystemAt(t, p))
      && UserAt(t', p) == (if LastMention(es, p).Some? then None else UserAt(t, p))
      && (!locked ==> LockedAt(t', p) == if LastLock(es, p).Some? then LastLock(es, p).value else LockedAt(t, p))
      && (locked && LockedAt(t, p) ==> LockedAt(t', p))
  {
    if es != [] {
      var n := |es| - 1;
      SystemLayer(env, t, locked, es[..n], p);
      PutAllKeepsClosed(env, t, locked, true, es[..n]);
      PutAt(env, PutAll(env, t, locked, true, es[..n]), locked, true, es[n], p);
    }
  }

  /** Last mention wins in the user layer, except on locked nodes; nothing else changes. */
  lemma {:induction false} UserLayer(env: Env, t: Tree, es: seq<Entry>, p: Path)
    requires GoodEntries(env, es) && Closed(t) && forall i :: 0 <= i < |es| ==> es[i].lock == None
    ensures var t' := PutAll(env, t, false, false, es);
      && UserAt(t', p) == (if LockedAt(t, p) then UserAt(t, p) else Said(env, es, p, UserAt(t, p)))
      && SystemAt(t', p) == SystemAt(t, p) && LockedAt(t', p) == LockedAt(t, p)
  {
    if es != [] {
      var n := |es| - 1;
      UserLayer(env, t, es[..n], p);
      PutAllKeepsClosed(env, t, false, false, es[..n]);
      PutAt(env, PutAll(env, t, false, false, es[..n]), false, false, es[n], p);
    }
  }

  // ---------- loading ----------

  datatype Loaded = Loaded(tree: Tree, locked: bool)

  function LoadFile(env: Env, c: Loaded, system: bool, file: seq<Event>): Loaded {
    var s := Run(env, Fresh(c.tree, c.locked, system), file);
    Loaded(s.tree, s.locked)
  }

  /** The system files in the order in which they are read: least important first (the XDG Base
      Directory Specification, section "Environment variables"). */
  function LoadSystem(env: Env, files: seq<seq<Event>>): Loaded {
    if files == [] then Loaded(EMPTY_TREE, false)
    else LoadFile(env, LoadSystem(env, files[..|files| - 1]), true, files[|files| - 1])
  }

  /** A locked channel never reads the user file. */
  function Load(env: Env, files: seq<seq<Event>>, user: Option<seq<Event>>): Loaded {
    var c := LoadSystem(env, files);
    if !c.locked && user.Some? then LoadFile(env, c, false, user.value) else c
  }

  /** Whatever the files contain: loading gives a tree, system files give no user values, and no
      locked node has one. */
  lemma {:induction false} LoadSystemSound(env: Env, files: seq<seq<Event>>)
    ensures TreeOk(LoadSystem(env, files).tree, true)
  {
    if files != [] {
      var front, last := files[..|files| - 1], files[|files| - 1];
      LoadSystemSound(env, front);
      RunSound(env, Fresh(LoadSystem(env, front).tree, LoadSystem(env, front).locked, true), last);
    }
  }

  lemma LoadSound(env: Env, files: seq<seq<Event>>, user: Option<seq<Event>>)
    ensures var c := Load(env, files, user);
      Closed(c.tree) && RootBlank(c.tree) && LocksClean(MapsOf(c.tree)) && (c.locked ==> UserMap(c.tree) == map[])
  {
    LoadSystemSound(env, files);
    var c := LoadSystem(env, files);
    SoundMeans(c.tree, true);
    if !c.locked && user.Some? {
      var s := Fresh(c.tree, false, false);
      RunSound(env, s, user.value);
      LockOfUserFile(env, s, user.value);
      SoundMeans(Run(env, s, user.value).tree, false);
    }
  }

  lemma {:induction false} LockOfUserFile(env: Env, s: State, events: seq<Event>)
    requires Sound(s) && !s.system
    ensures !Run(env, s, events).locked
  {
    RunSound(env, s, events);
  }

  /** Locked means fixed, from loading on: a property that some set of files locks with a system
      default keeps that value through all sets and resets. */
  lemma LoadedLocksHold(env: Env, files: seq<seq<Event>>, user: Option<seq<Event>>, ops: seq<Op>, p: Path)
    requires GoodOps(ops)
    requires LockedAt(Load(env, files, user).tree, p) && SystemAt(Load(env, files, user).tree, p).Some?
    ensures var t := Load(env, files, user).tree;
      GetValue(TreeRun(t, ops), p) == SystemAt(t, p) && LockedAt(TreeRun(t, ops), p)
  {
    LoadSound(env, files, user);
    LockedIsFixed(Load(env, files, user).tree, ops, p);
  }

  // ---------- the lock policy ----------

  /** A file that turns the channel locked discards everything before it. */
  lemma LockingFileStartsAnew(env: Env, t1: Tree, t2: Tree, attrs: seq<Attr>, rest: seq<Event>)
    requires DirectiveOf(env, FieldsOf(attrs)) == Some(true)
    requires ChannelStep(env, Fresh(t1, false, true), attrs).verdict == Going
    ensures var file := [Start("channel", attrs)] + rest;
      LoadFile(env, Loaded(t1, false), true, file) == LoadFile(env, Loaded(t2, false), true, file)
    ensures ChannelStep(env, Fresh(t1, false, true), attrs).tree == EMPTY_TREE
    ensures ChannelStep(env, Fresh(t1, false, true), attrs).locked
  {
    var start := Start("channel", attrs);
    RunConcat(env, Fresh(t1, false, true), [start], rest);
    RunConcat(env, Fresh(t2, false, true), [start], rest);
    RunOne(env, Fresh(t1, false, true), start);
    RunOne(env, Fresh(t2, false, true), start);
  }

  /** Once the channel is locked, a file with a directive that does not lock contributes nothing. */
  lemma UnlockingFileIsIgnored(env: Env, t: Tree, attrs: seq<Attr>, rest: seq<Event>)
    requires DirectiveOf(env, FieldsOf(attrs)) == Some(false)
    ensures LoadFile(env, Loaded(t, true), true, [Start("channel", attrs)] + rest) == Loaded(t, true)
  {
    var start := Start("channel", attrs);
    RunConcat(env, Fresh(t, true, true), [start], rest);
    RunOne(env, Fresh(t, true, true), start);
    Stopped(env, Step(env, Fresh(t, true, true), start), rest);
  }

  /** An array in the user file on a locked node stops the file: exactly the harmless elements
      parse. */
  lemma LockedArrayStops(env: Env, s: State, prefix: Path, e: PropElem)
    requires Within(s, prefix) && !s.system && s.list == None && Closed(s.tree)
    requires GoodElem(env, prefix, false, e) && e.children == NoProps
    ensures Run(env, s, ElemEvents(e)).verdict == Going <==> Harmless(s.tree, false, EntryOf(env, prefix, e))
  {
    assert Entries(env, prefix, e) == [EntryOf(env, prefix, e)];
    if Harmless(s.tree, false, EntryOf(env, prefix, e)) {
      ElemRuns(env, s, prefix, e);
    } else {
      HarmfulStops(env, s, prefix, e);
    }
  }

  lemma HarmfulStops(env: Env, s: State, prefix: Path, e: PropElem)
    requires Within(s, prefix) && !s.system && s.list == None
    requires GoodElem(env, prefix, false, e) && !Harmless(s.tree, false, EntryOf(env, prefix, e))
    ensures Run(env, s, ElemEvents(e)).verdict == ParseError
  {
    var start := Start("property", ElemAttrs(e));
    var rest := PropsEvents(e.children) + [End];
    assert ElemEvents(e) == [start] + (ItemEvents(e.payload.items) + rest);
    PassedOver(env, s, prefix, e);
    StopsThere(env, s, start, e.payload.items, rest);
  }

  /** Inside an open array it is worse: the items are taken for items of that array. */
  lemma LockedArrayLeaks(env: Env, s: State, prefix: Path, e: PropElem, before: seq<Scalar>)
    requires Within(s, prefix) && !s.system && GoodElem(env, prefix, false, e) && e.children == NoProps
    requires !Harmless(s.tree, false, EntryOf(env, prefix, e))
    requires s.list.Some? && HasList(s.tree, s.list.value, false)
    requires Layer(s.tree[Components(s.list.value)], false) == Some(Array(before))
    ensures Run(env, s, ElemEvents(e)) ==
      s.(list := None, tree := PutLayer(s.tree, Components(s.list.value), false,
                                        Some(Array(before + ItemsValue(env, e.payload.items)))))
  {
    var start, items := Start("property", ElemAttrs(e)), ItemEvents(e.payload.items);
    assert ElemEvents(e) == [start] + items + [End];
    PassedOver(env, s, prefix, e);
    RunOne(env, s, start);
    RunConcat(env, s, [start], items);
    RunConcat(env, s, [start] + items, [End]);
    ItemsRun(env, Step(env, s, start), Components(s.list.value), before, e.payload.items);
    var s2 := Run(env, s, [start] + items);
    FullName(prefix, e.name);
    EndRuns(env, s2, prefix, e.name);
    RunOne(env, s2, End);
  }

  lemma StopsThere(env: Env, s: State, start: Event, items: seq<Item>, rest: seq<Event>)
    requires var s1 := Step(env, s, start);
      s1.verdict == Going && s1.elem == ElemProperty && s1.list == None
    requires items != []
    ensures Run(env, s, [start] + (ItemEvents(items) + rest)).verdict == ParseError
  {
    RunOne(env, s, start);
    RunConcat(env, s, [start], ItemEvents(items) + rest);
    StrayItems(env, Step(env, s, start), items, rest);
  }

  lemma PassedOver(env: Env, s: State, prefix: Path, e: PropElem)
    requires Within(s, prefix) && !s.system
    requires GoodElem(env, prefix, false, e) && LockedAt(s.tree, prefix + [e.name])
    ensures Step(env, s, Start("property", ElemAttrs(e))) ==
      s.(elem := ElemProperty, path := Join(prefix + [e.name]))
  {
    StartRuns(env, s, prefix, e);
  }

  lemma {:induction false} StrayItems(env: Env, s: State, items: seq<Item>, rest: seq<Event>)
    requires s.verdict == Going && s.elem == ElemProperty && s.list == None && items != []
    ensures Run(env, s, ItemEvents(items) + rest).verdict == ParseError
  {
    var n := |items| - 1;
    var start := Start("value", ItemAttrs(items[n]));
    assert ItemEvents(items) + rest == ItemEvents(items[..n]) + ([start] + ([End] + rest));
    if n == 0 {
      assert ItemEvents(items[..n]) == [];
      assert ItemEvents(items) + rest == [start] + ([End] + rest);
      StrayTag(env, s, start, [End] + rest);
    } else {
      StrayItems(env, s, items[..n], [start] + ([End] + rest));
    }
  }

  lemma StrayTag(env: Env, s: State, start: Event, rest: seq<Event>)
    requires s.verdict == Going && s.elem == ElemProperty && s.list == None
    requires start.Start? && start.element == "value"
    ensures Run(env, s, [start] + rest).verdict == ParseError
  {
    RunConcat(env, s, [start], rest);
    RunOne(env, s, start);
    Stopped(env, Step(env, s, start), rest);
  }

  // ---------- the load as a fold ----------

  datatype Kept = Kept(entries: seq<Entry>, locked: bool)

  /** What one more file does to the entries that count. */
  function KeepDoc(env: Env, before: Kept, d: Doc): Kept {
    match Directive(env, d.locked, d.unlocked)
    case None => Kept(before.entries + DocEntries(env, d), before.locked)
    case Some(lock) =>
      if before.locked && !lock then before
      else if lock && !before.locked then Kept(DocEntries(env, d), true)
      else Kept(before.entries + DocEntries(env, d), before.locked)
  }

  /** The entries that count, file by file. */
  function KeptEntries(env: Env, docs: seq<Doc>): Kept {
    if docs == [] then Kept([], false)
    else KeepDoc(env, KeptEntries(env, docs[..|docs| - 1]), docs[|docs| - 1])
  }

  function FilesOf(docs: seq<Doc>): seq<seq<Event>> {
    seq(|docs|, i requires 0 <= i < |docs| => FileEvents(docs[i]))
  }

  predicate GoodDocs(env: Env, docs: seq<Doc>) {
    forall i :: 0 <= i < |docs| ==> GoodDoc(env, true, docs[i])
  }

  lemma {:induction false} SaidConcat(env: Env, a: seq<Entry>, b: seq<Entry>, p: Path, before: Option<Value>)
    requires GoodEntries(env, a) && GoodEntries(env, b)
    ensures GoodEntries(env, a + b)
    ensures Said(env, a + b, p, before) == Said(env, b, p, Said(env, a, p, before))
  {
    if b == [] {
      assert a + b == a;
    } else {
      var n := |b| - 1;
      SaidConcat(env, a, b[..n], p, before);
      assert (a + b)[..|a + b| - 1] == a + b[..n];
    }
  }

  lemma {:induction false} KeptLocked(env: Env, docs: seq<Doc>)
    ensures KeptEntries(env, docs).locked <==>
      exists i :: 0 <= i < |docs| && Directive(env, docs[i].locked, docs[i].unlocked) == Some(true)
  {
    if docs != [] {
      KeptLocked(env, docs[..|docs| - 1]);
    }
  }

  /** Loading the system files is a fold over their entries: the last mention of a path decides its
      system default; the channel is locked exactly if some file locks it. */
  lemma {:induction false} SystemLoadIsFold(env: Env, docs: seq<Doc>, p: Path)
    requires GoodDocs(env, docs)
    ensures GoodEntries(env, KeptEntries(env, docs).entries)
    ensures var c, kept := LoadSystem(env, FilesOf(docs)), KeptEntries(env, docs);
      && c.locked == kept.locked
      && SystemAt(c.tree, p) == Said(env, kept.entries, p, None) && UserAt(c.tree, p) == None
    ensures Closed(LoadSystem(env, FilesOf(docs)).tree)
  {
    LoadSystemSound(env, FilesOf(docs));
    if docs != [] {
      var n := |docs| - 1;
      SystemLoadIsFold(env, docs[..n], p);
      assert FilesOf(docs)[..n] == FilesOf(docs[..n]);
      FoldStep(env, LoadSystem(env, FilesOf(docs[..n])), KeptEntries(env, docs[..n]), docs[n], p);
    }
  }

  lemma FoldStep(env: Env, c: Loaded, kept: Kept, d: Doc, p: Path)
    requires GoodDoc(env, true, d) && Closed(c.tree) && GoodEntries(env, kept.entries)
    requires c.locked == kept.locked && SystemAt(c.tree, p) == Said(env, kept.entries, p, None)
    ensures GoodEntries(env, KeepDoc(env, kept, d).entries)
    ensures var c', kept' := LoadFile(env, c, true, FileEvents(d)), KeepDoc(env, kept, d);
      c'.locked == kept'.locked && SystemAt(c'.tree, p) == Said(env, kept'.entries, p, None)
  {
    PropsEntriesGood(env, [], true, d.props);
    SystemStep(env, c, d, p);
    SaidConcat(env, kept.entries, DocEntries(env, d), p, None);
  }

  lemma {:induction false} LockConcat(a: seq<Entry>, b: seq<Entry>, p: Path)
    ensures LastLock(a + b, p) == if LastLock(b, p).Some? then LastLock(b, p) else LastLock(a, p)
  {
    if b == [] {
      assert a + b == a;
    } else {
      var n := |b| - 1;
      LockConcat(a, b[..n], p);
      assert (a + b)[..|a + b| - 1] == a + b[..n];
    }
  }

  /** In a channel that no file locks, a property is locked exactly if the last lock directive about
      it says so. */
  lemma {:induction false} LocksAreFold(env: Env, docs: seq<Doc>, p: Path)
    requires GoodDocs(env, docs) && !LoadSystem(env, FilesOf(docs)).locked
    ensures LockedAt(LoadSystem(env, FilesOf(docs)).tree, p) <==>
      LastLock(KeptEntries(env, docs).entries, p) == Some(true)
  {
    SystemLoadIsFold(env, docs, p);
    if docs != [] {
      var n := |docs| - 1;
      assert FilesOf(docs)[..n] == FilesOf(docs[..n]);
      SystemLoadIsFold(env, docs[..n], p);
      LocksAreFold(env, docs[..n], p);
      var before := LoadSystem(env, FilesOf(docs[..n]));
      FileRuns(env, before.tree, false, true, docs[n]);
      SystemLayer(env, before.tree, false, DocEntries(env, docs[n]), p);
      LockConcat(KeptEntries(env, docs[..n]).entries, DocEntries(env, docs[n]), p);
    }
  }

  // ---------- a locked channel ----------

  predicate AllLocked(t: Tree) {
    forall p :: p in t && p != [] ==> t[p].locked
  }

  lemma PutLocksNode(env: Env, t: Tree, e: Entry)
    requires GoodEntry(env, e) && Closed(t) && AllLocked(t) && Parent(e.path) in t
    ensures var t' := PutEntry(env, t, true, true, e);
      Closed(t') && AllLocked(t') && e.path in t' && forall q :: q in t ==> q in t'
  {
    PutKeepsClosed(env, t, true, true, e);
    assert WithParent(t, e.path) == t;
    assert AddNode(t, e.path, Data(None, None, true)) == t[e.path := Data(None, None, true)];
  }

  /** In a locked channel the nodes of an element are made under the node around it, each with a lock. */
  lemma {:induction false} ElemLocksAll(env: Env, t: Tree, prefix: Path, e: PropElem)
    requires GoodElem(env, prefix, true, e) && Closed(t) && AllLocked(t) && prefix in t
    ensures GoodEntries(env, Entries(env, prefix, e))
    ensures var t' := PutAll(env, t, true, true, Entries(env, prefix, e));
      Closed(t') && AllLocked(t') && forall q :: q in t ==> q in t'
    decreases e
  {
    var p := prefix + [e.name];
    var entry, rest := EntryOf(env, prefix, e), EntriesAll(env, p, e.children);
    ElemEntriesGood(env, prefix, true, e);
    PropsEntriesGood(env, p, true, e.children);
    assert Parent(p) == prefix;
    PutOne(env, t, true, true, entry);
    PutLocksNode(env, t, entry);
    PropsLockAll(env, PutEntry(env, t, true, true, entry), p, e.children);
    PutAllConcat(env, t, true, true, [entry], rest);
  }

  lemma {:induction false} PropsLockAll(env: Env, t: Tree, prefix: Path, ps: Props)
    requires GoodProps(env, prefix, true, ps) && Closed(t) && AllLocked(t) && prefix in t
    ensures GoodEntries(env, EntriesAll(env, prefix, ps))
    ensures var t' := PutAll(env, t, true, true, EntriesAll(env, prefix, ps));
      Closed(t') && AllLocked(t') && forall q :: q in t ==> q in t'
    decreases ps
  {
    PropsEntriesGood(env, prefix, true, ps);
    if ps.More? {
      var front, last := EntriesAll(env, prefix, ps.front), Entries(env, prefix, ps.last);
      PropsLockAll(env, t, prefix, ps.front);
      ElemLocksAll(env, PutAll(env, t, true, true, front), prefix, ps.last);
      PutAllConcat(env, t, true, true, front, last);
    }
  }

  /** In a channel that some file locks, every property is locked. */
  lemma {:induction false} LockedChannelLocksAll(env: Env, docs: seq<Doc>)
    requires GoodDocs(env, docs) && LoadSystem(env, FilesOf(docs)).locked
    ensures AllLocked(LoadSystem(env, FilesOf(docs)).tree)
  {
    var n := |docs| - 1;
    assert FilesOf(docs)[..n] == FilesOf(docs[..n]);
    var before := LoadSystem(env, FilesOf(docs[..n]));
    SystemLoadIsFold(env, docs[..n], []);
    if before.locked {
      LockedChannelLocksAll(env, docs[..n]);
    }
    FileLocksAll(env, before, docs[n]);
  }

  lemma FileLocksAll(env: Env, c: Loaded, d: Doc)
    requires GoodDoc(env, true, d) && Closed(c.tree) && (c.locked ==> AllLocked(c.tree))
    ensures var c' := LoadFile(env, c, true, FileEvents(d)); c'.locked ==> AllLocked(c'.tree)
  {
    FileRuns(env, c.tree, c.locked, true, d);
    EmptyTreeClosed();
    if c.locked {
      PropsLockAll(env, c.tree, [], d.props);
    } else {
      PropsLockAll(env, EMPTY_TREE, [], d.props);
    }
  }

  /** So in a locked channel every system default that the files give holds through every run, whatever
      the user file says. */
  lemma LockedChannelHolds(env: Env, docs: seq<Doc>, user: Option<seq<Event>>, ops: seq<Op>, p: Path)
    requires GoodDocs(env, docs) && LoadSystem(env, FilesOf(docs)).locked && GoodOps(ops)
    ensures GoodEntries(env, KeptEntries(env, docs).entries)
    ensures var t, default := Load(env, FilesOf(docs), user).tree, Said(env, KeptEntries(env, docs).entries, p, None);
      default.Some? ==> GetValue(TreeRun(t, ops), p) == default && LockedAt(TreeRun(t, ops), p)
  {
    SystemLoadIsFold(env, docs, p);
    LockedChannelLocksAll(env, docs);
    LoadSound(env, FilesOf(docs), user);
    if Said(env, KeptEntries(env, docs).entries, p, None).Some? {
      LoadedLocksHold(env, FilesOf(docs), user, ops, p);
    }
  }

  lemma SystemStep(env: Env, c: Loaded, d: Doc, p: Path)
    requires GoodDoc(env, true, d) && Closed(c.tree) && GoodEntries(env, DocEntries(env, d))
    ensures var c' := LoadFile(env, c, true, FileEvents(d));
      match Policy(env, c.tree, c.locked, true, d)
      case None => c' == c
      case Some(r) =>
        c'.locked == r.1 && SystemAt(c'.tree, p) == Said(env, DocEntries(env, d), p, SystemAt(r.0, p))
  {
    FileRuns(env, c.tree, c.locked, true, d);
    match Policy(env, c.tree, c.locked, true, d) {
      case None =>
      case Some(r) =>
        EmptyTreeClosed();
        SystemLayer(env, r.0, r.1, DocEntries(env, d), p);
    }
  }

  /** The user file supplies user values, by last mention, except on locked nodes; a locked channel
      has none, and a user file with lock attributes is refused. */
  lemma UserLoadIsFold(env: Env, docs: seq<Doc>, user: Doc, p: Path)
    requires GoodDocs(env, docs) && GoodDoc(env, false, user)
    requires AllHarmless(LoadSystem(env, FilesOf(docs)).tree, false, DocEntries(env, user))
    ensures GoodEntries(env, DocEntries(env, user))
    ensures var c, c' := LoadSystem(env, FilesOf(docs)), Load(env, FilesOf(docs), Some(FileEvents(user)));
      && SystemAt(c'.tree, p) == SystemAt(c.tree, p) && LockedAt(c'.tree, p) == LockedAt(c.tree, p)
      && UserAt(c'.tree, p) ==
         if c.locked || LockedAt(c.tree, p) || Directive(env, user.locked, user.unlocked).Some? then None
         else Said(env, DocEntries(env, user), p, None)
  {
    PropsEntriesGood(env, [], false, user.props);
    SystemLoadIsFold(env, docs, p);
    var c := LoadSystem(env, FilesOf(docs));
    if !c.locked {
      FileRuns(env, c.tree, false, false, user);
      UserPropsUnlocked(env, [], user.props);
      UserLayer(env, c.tree, DocEntries(env, user), p);
    }
  }
}
