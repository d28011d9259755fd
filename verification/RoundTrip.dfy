/** Writing a tree and loading the file again (esconfd/esconf-backend-perchannel-xml.c,
    `esconf_backend_perchannel_xml_write_node` and `..._flush_channel`). */
module RoundTrip {
  import opened Base
  import opened Values
  import opened Names
  import opened TreeModel
  import opened TreeOrder
  import opened Subtrees
  import opened FlatMaps
  import opened Locks
  import opened XmlText
  import opened XmlSpec
  import opened XmlInvariants
  import opened XmlDoc
  import opened XmlRuns
  import opened Layers
  import opened Rejects
  import opened TreeFile

  // ---------- every node is mentioned once ----------

  lemma {:induction false} MentionConcat(a: seq<Entry>, b: seq<Entry>, q: Path)
    ensures LastMention(a + b, q) == if LastMention(b, q).Some? then LastMention(b, q) else LastMention(a, q)
  {
    if b == [] {
      assert a + b == a;
    } else {
      var n := |b| - 1;
      MentionConcat(a, b[..n], q);
      assert (a + b)[..|a + b| - 1] == a + b[..n];
    }
  }

  lemma MentionOne(e: Entry, q: Path)
    ensures LastMention([e], q) == if q == e.path then Some(e.payload) else None
  {
    assert LastMention([e][..0], q) == None;
  }

  lemma {:induction false} NodeMentions(env: Env, o: Order, t: Tree, p: Path, h: nat, q: Path)
    requires Writing(o, t, h) && p in o && p != []
    ensures LastMention(Entries(env, Parent(p), NodeElem(env, o, t, p, h)), q) ==
      if q in t && Below(p, q) then Some(Written(env, t[q].user)) else None
    decreases h - |p|, 1, 0
  {
    var e := NodeElem(env, o, t, p, h);
    var own := Entry(Parent(p) + [e.name], e.payload, Directive(env, e.locked, e.unlocked));
    assert Parent(p) + [e.name] == p;
    PropsMention(env, o, t, p, |o[p]|, h, q);
    assert o[p][..|o[p]|] == o[p];
    MentionConcat([own], EntriesAll(env, p, e.children), q);
    MentionOne(own, q);
    if q in t {
      BelowNode(o, t, p, q);
    }
  }

  lemma PropsEntries(env: Env, o: Order, t: Tree, p: Path, n: nat, h: nat)
    requires Writing(o, t, h) && p in o && 0 < n <= |o[p]| && p + [o[p][n - 1]] in o
    ensures EntriesAll(env, p, NodeProps(env, o, t, p, n, h)) ==
      EntriesAll(env, p, NodeProps(env, o, t, p, n - 1, h))
      + Entries(env, p, NodeElem(env, o, t, p + [o[p][n - 1]], h))
  {
  }

  lemma {:induction false} PropsMention(env: Env, o: Order, t: Tree, p: Path, n: nat, h: nat, q: Path)
    requires Writing(o, t, h) && p in o && n <= |o[p]|
    ensures LastMention(EntriesAll(env, p, NodeProps(env, o, t, p, n, h)), q) ==
      if q in t && UnderOne(p, o[p][..n], q) then Some(Written(env, t[q].user)) else None
    decreases h - |p|, 0, n
  {
    if n > 0 {
      var child := p + [o[p][n - 1]];
      ChildIn(o, p, n - 1);
      NodeMentions(env, o, t, child, h, q);
      PropsMention(env, o, t, p, n - 1, h, q);
      PropsEntries(env, o, t, p, n, h);
      MentionConcat(EntriesAll(env, p, NodeProps(env, o, t, p, n - 1, h)), Entries(env, p, NodeElem(env, o, t, child, h)), q);
      assert o[p][..n] == o[p][..n - 1] + [o[p][n - 1]];
      UnderOneMore(p, o[p][..n - 1], o[p][n - 1], q);
    }
  }

  // ---------- the entries are those of the tree ----------

  /** Names that the parser takes. */
  ghost predicate NamesLoad(t: Tree) {
    forall p :: p in t ==> GoodPath(p) && |Join(p)| < MAX_PROP_PATH
  }

  /** The entry is about a node, with the written form of its user value and no lock. */
  predicate FaithfulEntry(env: Env, t: Tree, e: Entry) {
    e.path in t && e.path != [] && e.lock == None && e.payload == Written(env, t[e.path].user)
  }

  predicate Faithful(env: Env, t: Tree, es: seq<Entry>) {
    forall i :: 0 <= i < |es| ==> FaithfulEntry(env, t, es[i])
  }

  lemma FaithfulConcat(env: Env, t: Tree, a: seq<Entry>, b: seq<Entry>)
    requires Faithful(env, t, a) && Faithful(env, t, b)
    ensures Faithful(env, t, a + b)
  {
  }

  /** The element and everything in it have good names, and are about their nodes. */
  predicate ElemFits(env: Env, t: Tree, prefix: Path, e: PropElem)
    decreases e
  {
    && GoodName(e.name) && |Join(prefix + [e.name])| < MAX_PROP_PATH && e.locked == "" && e.unlocked == ""
    && prefix + [e.name] in t && e.payload == Written(env, t[prefix + [e.name]].user)
    && PropsFit(env, t, prefix + [e.name], e.children)
  }

  predicate PropsFit(env: Env, t: Tree, prefix: Path, ps: Props)
    decreases ps
  {
    match ps
    case NoProps => true
    case More(front, last) => PropsFit(env, t, prefix, front) && ElemFits(env, t, prefix, last)
  }

  lemma {:induction false} FittingElem(env: Env, t: Tree, prefix: Path, e: PropElem)
    requires ElemFits(env, t, prefix, e)
    ensures NamedElem(prefix, e) && Faithful(env, t, Entries(env, prefix, e))
    decreases e
  {
    FittingProps(env, t, prefix + [e.name], e.children);
    var own := EntryOf(env, prefix, e);
    assert FaithfulEntry(env, t, own);
    FaithfulConcat(env, t, [own], EntriesAll(env, prefix + [e.name], e.children));
  }

  lemma {:induction false} FittingProps(env: Env, t: Tree, prefix: Path, ps: Props)
    requires PropsFit(env, t, prefix, ps)
    ensures NamedProps(prefix, ps) && Faithful(env, t, EntriesAll(env, prefix, ps))
    decreases ps
  {
    if ps.More? {
      FittingProps(env, t, prefix, ps.front);
      FittingElem(env, t, prefix, ps.last);
      FaithfulConcat(env, t, EntriesAll(env, prefix, ps.front), Entries(env, prefix, ps.last));
    }
  }

  lemma {:induction false} NodeFits(env: Env, o: Order, t: Tree, p: Path, h: nat)
    requires Writing(o, t, h) && p in o && p != [] && NamesLoad(t)
    ensures ElemFits(env, t, Parent(p), NodeElem(env, o, t, p, h))
    decreases h - |p|, 1, 0
  {
    KidsFit(env, o, t, p, |o[p]|, h);
    assert Parent(p) + [p[|p| - 1]] == p && GoodName(p[|p| - 1]);
  }

  lemma {:induction false} KidsFit(env: Env, o: Order, t: Tree, p: Path, n: nat, h: nat)
    requires Writing(o, t, h) && p in o && n <= |o[p]| && NamesLoad(t)
    ensures PropsFit(env, t, p, NodeProps(env, o, t, p, n, h))
    decreases h - |p|, 0, n
  {
    if n > 0 {
      ChildIn(o, p, n - 1);
      NodeFits(env, o, t, p + [o[p][n - 1]], h);
      KidsFit(env, o, t, p, n - 1, h);
    }
  }

  lemma NodeFaithful(env: Env, o: Order, t: Tree, p: Path, h: nat)
    requires Writing(o, t, h) && p in o && p != [] && NamesLoad(t)
    ensures var e := NodeElem(env, o, t, p, h);
      NamedElem(Parent(p), e) && Faithful(env, t, Entries(env, Parent(p), e))
  {
    NodeFits(env, o, t, p, h);
    FittingElem(env, t, Parent(p), NodeElem(env, o, t, p, h));
  }

  lemma PropsFaithful(env: Env, o: Order, t: Tree, p: Path, n: nat, h: nat)
    requires Writing(o, t, h) && p in o && n <= |o[p]| && NamesLoad(t)
    ensures var ps := NodeProps(env, o, t, p, n, h);
      NamedProps(p, ps) && Faithful(env, t, EntriesAll(env, p, ps))
  {
    KidsFit(env, o, t, p, n, h);
    FittingProps(env, t, p, NodeProps(env, o, t, p, n, h));
  }

  /** The whole file: every node but the root is mentioned, with its own value and no other. */
  lemma DocMentions(env: Env, o: Order, t: Tree, h: nat, channel: string, q: Path)
    requires Writing(o, t, h) && NamesLoad(t)
    ensures var d := TreeDoc(env, o, t, h, channel);
      && NamedProps([], d.props) && Faithful(env, t, DocEntries(env, d))
      && LastMention(DocEntries(env, d), q) == if q in t && q != [] then Some(Written(env, t[q].user)) else None
  {
    PropsFaithful(env, o, t, [], |o[[]]|, h);
    PropsMention(env, o, t, [], |o[[]]|, h, q);
    assert o[[]][..|o[[]]|] == o[[]];
    NotUnderSelf([], o[[]]);
    if q in t {
      BelowNode(o, t, [], q);
    }
  }

  /** The written text of every user value converts. */
  ghost predicate TextsLoad(env: Env, t: Tree) {
    forall p :: p in t ==> GoodPayload(env, Written(env, t[p].user))
  }

  lemma TextsOfDoc(env: Env, o: Order, t: Tree, h: nat, channel: string)
    requires Writing(o, t, h) && NamesLoad(t) && RootBlank(t)
    ensures GoodEntries(env, DocEntries(env, TreeDoc(env, o, t, h, channel))) <==> TextsLoad(env, t)
  {
    var es := DocEntries(env, TreeDoc(env, o, t, h, channel));
    DocMentions(env, o, t, h, channel, []);
    if GoodEntries(env, es) {
      forall p | p in t
        ensures GoodPayload(env, Written(env, t[p].user))
      {
        DocMentions(env, o, t, h, channel, p);
        MentionIsEntry(env, es, p);
      }
    }
  }

  // ---------- save and load ----------

  /** Reading the saved tree over `base`, the tree that system files without channel lock give. */
  ghost function Reloaded(env: Env, o: Order, t: Tree, h: nat, channel: string, base: Tree): State
    requires Writing(o, t, h)
  {
    Run(env, Fresh(base, false, false), FileEvents(TreeDoc(env, o, t, h, channel)))
  }

  /** No user value on a path that `base` locks is an array with items. */
  predicate NoItemsOnLock(base: Tree, t: Tree) {
    forall p :: p in t && LockedAt(base, p) && t[p].user.Some? ==> t[p].user.value.One? || t[p].user == Some(Array([]))
  }

  /** If the texts convert, the reloaded user layer is, path by path, what the texts read as, except
      that locked paths stay without user value; the system layer and the locks are those of `base`. */
  lemma SaveThenRead(env: Env, o: Order, t: Tree, h: nat, channel: string, base: Tree, p: Path)
    requires Writing(o, t, h) && NamesLoad(t) && RootBlank(t) && channel != ""
    requires Closed(base) && UserMap(base) == map[] && TextsLoad(env, t) && NoItemsOnLock(base, t)
    ensures var s := Reloaded(env, o, t, h, channel, base);
      && s.verdict == Going && SystemAt(s.tree, p) == SystemAt(base, p) && LockedAt(s.tree, p) == LockedAt(base, p)
      && UserAt(s.tree, p) ==
         if p !in t || LockedAt(base, p) then None else PayloadValue(env, Written(env, t[p].user))
  {
    var d := TreeDoc(env, o, t, h, channel);
    var es := DocEntries(env, d);
    TextsOfDoc(env, o, t, h, channel);
    DocMentions(env, o, t, h, channel, p);
    GoodPropsAreNamed(env, [], d.props);
    forall i | 0 <= i < |es|
      ensures Harmless(base, false, es[i])
    {
      assert FaithfulEntry(env, t, es[i]);
    }
    FileRuns(env, base, false, false, d);
    UserLayer(env, base, es, p);
    NoUser(base, p);
  }

  lemma NoUser(t: Tree, p: Path)
    requires UserMap(t) == map[]
    ensures UserAt(t, p) == None
  {
    assert p !in UserMap(t);
  }

  // ---------- what a user file cannot change ----------

  predicate SameLayer(t: Tree, t': Tree, q: Path) {
    LockedAt(t', q) == LockedAt(t, q) && SystemAt(t', q) == SystemAt(t, q)
  }

  lemma PropertyKeepsLayer(env: Env, s: State, attrs: seq<Attr>, q: Path)
    requires Sound(s) && !s.system
    ensures SameLayer(s.tree, PropertyStep(env, s, attrs).tree, q)
  {
    var full := s.path + "/" + Text(FieldsOf(attrs).name);
    if |full| < MAX_PROP_PATH && PropNameIsValid(full) {
      var p := Components(full);
      JoinOfComponents(full);
      if OpenProperty(s.tree, p, s.locked, s.system).Some? {
        OpenKeepsLayer(s.tree, p, q);
        FillKeepsLayer(env, s.(tree := OpenProperty(s.tree, p, s.locked, s.system).value), full, FieldsOf(attrs), q);
      }
    }
  }

  lemma OpenKeepsLayer(t: Tree, p: Path, q: Path)
    requires Closed(t) && p != [] && OpenProperty(t, p, false, false).Some?
    ensures SameLayer(t, OpenProperty(t, p, false, false).value, q)
  {
    if p !in t {
      AddNodeMeaning(t, p, BLANK);
    }
  }

  lemma PutKeepsLayer(t: Tree, p: Path, v: Option<Value>, q: Path)
    requires p in t
    ensures SameLayer(t, PutLayer(t, p, false, v), q)
  {
  }

  lemma ReadKeepsLayer(env: Env, s: State, full: string, f: Fields, q: Path)
    requires PropNameIsValid(full) && Components(full) in s.tree && !s.system
    ensures SameLayer(s.tree, ReadProperty(env, s, full, f).tree, q)
  {
    var p := Components(full);
    match TypeFromString(Text(f.type_)) {
      case ArrayType => PutKeepsLayer(s.tree, p, Some(Array([])), q);
      case BasicType(k) =>
        PutKeepsLayer(s.tree, p, Some(One(InitialScalar(k))), q);
        if f.text.Some? && ScalarFromText(env, k, f.text.value).Some? {
          PutKeepsLayer(s.tree, p, Some(One(ScalarFromText(env, k, f.text.value).value)), q);
        }
      case _ =>
    }
  }

  lemma FillKeepsLayer(env: Env, s: State, full: string, f: Fields, q: Path)
    requires PropNameIsValid(full) && Components(full) in s.tree && !s.system
    ensures SameLayer(s.tree, FillProperty(env, s, full, f).tree, q)
  {
    if DirectiveOf(env, f).None? {
      assert s.(tree := LockProperty(s.tree, Components(full), None, s.locked)) == s;
      ReadKeepsLayer(env, s, full, f, q);
    }
  }

  lemma ValueKeepsLayer(env: Env, s: State, attrs: seq<Attr>, q: Path)
    requires s.list.Some? && !s.system
    ensures SameLayer(s.tree, ValueStep(env, s, attrs).tree, q)
  {
  }

  lemma UserStepKeepsLayer(env: Env, s: State, e: Event, q: Path)
    requires Sound(s) && !s.system
    ensures SameLayer(s.tree, Step(env, s, e).tree, q)
  {
    if e.Start? && e.element == "property" {
      PropertyKeepsLayer(env, s, e.attrs, q);
    } else if e.Start? && s.list.Some? {
      ValueKeepsLayer(env, s, e.attrs, q);
    }
  }

  /** A user file changes neither locks nor system defaults, whatever it contains. */
  lemma {:induction false} UserRunKeepsLayer(env: Env, s: State, events: seq<Event>, q: Path)
    requires Sound(s) && !s.system
    ensures SameLayer(s.tree, Run(env, s, events).tree, q)
    decreases |events|
  {
    if events != [] {
      var n := |events| - 1;
      UserRunKeepsLayer(env, s, events[..n], q);
      RunSound(env, s, events[..n]);
      UserStepKeepsLayer(env, Run(env, s, events[..n]), events[n], q);
    }
  }

  /** So a user value on a path that `base` locks does not come back. */
  lemma LockedIsNotReloaded(env: Env, base: Tree, events: seq<Event>, p: Path)
    requires TreeOk(base, true)
    ensures var t' := Run(env, Fresh(base, false, false), events).tree;
      SystemAt(t', p) == SystemAt(base, p) && (LockedAt(base, p) ==> UserAt(t', p) == None)
  {
    RunSound(env, Fresh(base, false, false), events);
    UserRunKeepsLayer(env, Fresh(base, false, false), events, p);
  }

  // ---------- the round trip ----------

  /** No user value lies on a path that `base` locks. */
  predicate ClearOf(base: Tree, t: Tree) {
    forall p :: p in t && LockedAt(base, p) ==> t[p].user == None
  }

  lemma SaveAndReadClear(env: Env, o: Order, t: Tree, h: nat, channel: string, base: Tree)
    requires Writing(o, t, h) && Writable(env, t) && NamesLoad(t) && RootBlank(t) && channel != ""
    requires (forall p :: p in t ==> AllInRange(t[p].user)) && TreeOk(base, true) && ClearOf(base, t)
    ensures var s := Reloaded(env, o, t, h, channel, base);
      s.verdict == Going && UserMap(s.tree) == UserMap(t) <==> forall p :: p in t ==> Storable(env, t[p].user)
  {
    var d := TreeDoc(env, o, t, h, channel);
    var s := Reloaded(env, o, t, h, channel, base);
    DocMentions(env, o, t, h, channel, []);
    assert AllClear(base, DocEntries(env, d));
    UserFileParses(env, base, d);
    TextsOfDoc(env, o, t, h, channel);
    SoundMeans(base, true);
    forall p | p in t
      ensures Storable(env, t[p].user) <==>
        GoodPayload(env, Written(env, t[p].user))
        && PayloadValue(env, Written(env, t[p].user)) == t[p].user
    {
      PayloadRoundTrip(env, t[p].user);
    }
    if TextsLoad(env, t) {
      forall p
        ensures UserAt(s.tree, p) ==
          if p !in t || LockedAt(base, p) then None else PayloadValue(env, Written(env, t[p].user))
      {
        SaveThenRead(env, o, t, h, channel, base, p);
      }
      SameUsers(s.tree, t);
    }
  }

  /** Over the tree `base` that the system files give, reading the saved file gives back the user map
      exactly if every user value is storable and none lies on a path that `base` locks;
      otherwise the file does not parse or the user map comes back different. */
  lemma SaveAndRead(env: Env, o: Order, t: Tree, h: nat, channel: string, base: Tree)
    requires Writing(o, t, h) && Writable(env, t) && NamesLoad(t) && RootBlank(t) && channel != ""
    requires (forall p :: p in t ==> AllInRange(t[p].user)) && TreeOk(base, true)
    ensures var s := Reloaded(env, o, t, h, channel, base);
      s.verdict == Going && UserMap(s.tree) == UserMap(t) <==>
        (forall p :: p in t ==> Storable(env, t[p].user)) && ClearOf(base, t)
  {
    if ClearOf(base, t) {
      SaveAndReadClear(env, o, t, h, channel, base);
    } else {
      var p :| p in t && LockedAt(base, p) && t[p].user.Some?;
      LockedIsNotReloaded(env, base, FileEvents(TreeDoc(env, o, t, h, channel)), p);
      SameUsers(Reloaded(env, o, t, h, channel, base).tree, t);
      assert UserAt(t, p) != None;
    }
  }

  lemma SameUsers(a: Tree, b: Tree)
    ensures UserMap(a) == UserMap(b) <==> forall p :: UserAt(a, p) == UserAt(b, p)
  {
    UserMapAt(a);
    UserMapAt(b);
    forall p
      ensures UserMap(a) == UserMap(b) ==> UserAt(a, p) == UserAt(b, p)
    {
      assert UserMap(a) == UserMap(b) ==> (p in UserMap(a) <==> p in UserMap(b));
    }
    if forall p :: UserAt(a, p) == UserAt(b, p) {
      forall p
        ensures p in UserMap(a) <==> p in UserMap(b)
        ensures p in UserMap(a) ==> UserMap(a)[p] == UserMap(b)[p]
      {
        assert UserAt(a, p) == UserAt(b, p);
      }
      assert UserMap(a) == UserMap(b);
    }
  }

  lemma UserMapAt(t: Tree)
    ensures forall p :: p in UserMap(t) <==> UserAt(t, p).Some?
    ensures forall p :: p in UserMap(t) ==> UserMap(t)[p] == UserAt(t, p).value
  {
  }

  /** The user value on a path that `base` locks hides nothing. */
  predicate SameAsDefault(t: Tree, p: Path) {
    p in t && t[p].user.Some? ==> t[p].user == t[p].system
  }

  predicate AllSameAsDefault(base: Tree, t: Tree) {
    forall p :: p in t && LockedAt(base, p) ==> SameAsDefault(t, p)
  }

  /** What a client can ask for comes back unchanged only if every user value on a locked path equals
      the system default there; and then it does, if none of them is an array with items. */
  lemma EffectiveValues(env: Env, o: Order, t: Tree, h: nat, channel: string, base: Tree)
    requires Writing(o, t, h) && NamesLoad(t) && RootBlank(t) && channel != ""
    requires forall q :: q in t ==> AllInRange(t[q].user) && Storable(env, t[q].user)
    requires TreeOk(base, true) && SystemMap(base) == SystemMap(t)
    ensures var s := Reloaded(env, o, t, h, channel, base);
      && ((forall p :: GetValue(s.tree, p) == GetValue(t, p)) ==> AllSameAsDefault(base, t))
      && (NoItemsOnLock(base, t) ==>
            s.verdict == Going && (AllSameAsDefault(base, t) ==> forall p :: GetValue(s.tree, p) == GetValue(t, p)))
  {
    var s := Reloaded(env, o, t, h, channel, base);
    AllLoad(env, t);
    SoundMeans(base, true);
    if NoItemsOnLock(base, t) {
      SaveThenRead(env, o, t, h, channel, base, []);
    }
    forall p
      ensures GetValue(s.tree, p) == GetValue(t, p) ==> (LockedAt(base, p) ==> SameAsDefault(t, p))
      ensures NoItemsOnLock(base, t) && (LockedAt(base, p) ==> SameAsDefault(t, p)) ==>
        GetValue(s.tree, p) == GetValue(t, p)
    {
      SystemMapAt(base, t, p);
      LockedIsNotReloaded(env, base, FileEvents(TreeDoc(env, o, t, h, channel)), p);
      if NoItemsOnLock(base, t) {
        SaveThenRead(env, o, t, h, channel, base, p);
      }
    }
  }

  lemma SystemMapAt(a: Tree, b: Tree, p: Path)
    requires SystemMap(a) == SystemMap(b)
    ensures SystemAt(a, p) == SystemAt(b, p)
  {
    assert p in SystemMap(a) <==> SystemAt(a, p).Some?;
    assert p in SystemMap(b) <==> SystemAt(b, p).Some?;
  }

  lemma AllLoad(env: Env, t: Tree)
    requires forall q :: q in t ==> AllInRange(t[q].user) && Storable(env, t[q].user)
    ensures TextsLoad(env, t) && forall q :: q in t ==> PayloadValue(env, Written(env, t[q].user)) == t[q].user
  {
    forall q | q in t
      ensures GoodPayload(env, Written(env, t[q].user))
      ensures PayloadValue(env, Written(env, t[q].user)) == t[q].user
    {
      PayloadRoundTrip(env, t[q].user);
    }
  }

  // ---------- how a user value gets onto such a path ----------

  lemma {:induction false} RunKeepsLocksClean(t: Tree, ops: seq<Op>)
    requires Closed(t) && RootBlank(t) && GoodOps(ops) && LocksClean(MapsOf(t))
    ensures LocksClean(MapsOf(TreeRun(t, ops)))
    decreases |ops|
  {
    if ops != [] {
      var r := Apply(t, ops[0]);
      ApplyIsFlat(t, ops[0]);
      FlatStepKeepsLocks(MapsOf(t), ops[0], r.ok, MapsOf(r.tree));
      RunKeepsLocksClean(r.tree, ops[1..]);
    }
  }

  /** Every run of sets and resets from the loaded system layer leads to a tree whose user values are
      clear of the locks, if and only if every lock has a system default at or below it.  If not, the
      lock is pruned away, the property set, and the saved value refused by the reloaded lock. */
  lemma RunsAvoidLocks(base: Tree)
    requires TreeOk(base, true) && ValidNodes(base)
    ensures (forall ops :: GoodOps(ops) && ValidOps(ops) ==> ClearOf(base, TreeRun(base, ops))) <==>
      forall p :: p in LockedSet(base) ==> DefaultBelow(base, p)
  {
    SoundMeans(base, true);
    if forall p :: p in LockedSet(base) ==> DefaultBelow(base, p) {
      forall ops | GoodOps(ops) && ValidOps(ops)
        ensures ClearOf(base, TreeRun(base, ops))
      {
        LocksStayClear(base, ops);
      }
    } else {
      var p :| p in LockedSet(base) && !DefaultBelow(base, p);
      var ops := SetBehindLock(base, p, One(Bool(true)));
      assert !ClearOf(base, TreeRun(base, ops));
    }
  }

  lemma LocksStayClear(base: Tree, ops: seq<Op>)
    requires TreeOk(base, true) && GoodOps(ops)
    requires forall p :: p in LockedSet(base) ==> DefaultBelow(base, p)
    ensures ClearOf(base, TreeRun(base, ops))
  {
    SoundMeans(base, true);
    RunKeepsLocksClean(base, ops);
    var t := TreeRun(base, ops);
    forall p | p in t && LockedAt(base, p)
      ensures t[p].user == None
    {
      assert p in LockedSet(base);
      DefaultKeepsLock(base, ops, p);
      assert p in LockedSet(t) && p !in UserMap(t);
    }
  }

  /** The failing run, for any lock without a default. */
  lemma SetBehindLock(base: Tree, p: Path, v: Value) returns (ops: seq<Op>)
    requires Closed(base) && RootBlank(base) && ValidNodes(base) && p in LockedSet(base) && !DefaultBelow(base, p)
    ensures GoodOps(ops) && ValidOps(ops)
    ensures UserAt(TreeRun(base, ops), p) == Some(v) && LockedAt(base, p)
  {
    var before := LockGoes(base, p);
    var t, op := TreeRun(base, before), Set(p, v);
    TreeRefinesMaps(base, before);
    AddNodeMeaning(t, p, Data(Some(v), None, false));
    assert TreeRun(t, [op]) == Apply(t, op).tree;
    RunAppend(base, before, [op]);
    ops := before + [op];
  }

  // ---------- the round trip through all files of a channel ----------

  /** The file that is written for the tree. */
  ghost function SavedFile(env: Env, o: Order, t: Tree, h: nat, channel: string): seq<Event>
    requires Writing(o, t, h)
  {
    FileEvents(TreeDoc(env, o, t, h, channel))
  }

  /** The user file parses; one that is never read does no harm. */
  predicate UserParses(env: Env, c: Loaded, user: seq<Event>) {
    c.locked || Run(env, Fresh(c.tree, false, false), user).verdict == Going
  }

  /** A locked channel is what its system files say, whatever is in the user file. */
  lemma LockedChannelLoads(env: Env, files: seq<seq<Event>>, user: Option<seq<Event>>)
    requires LoadSystem(env, files).locked
    ensures Load(env, files, user) == LoadSystem(env, files) && UserMap(LoadSystem(env, files).tree) == map[]
  {
    LoadSystemSound(env, files);
    SoundMeans(LoadSystem(env, files).tree, true);
  }

  /** Path by path, what is left of the user values after saving and loading. */
  lemma SaveThenLoad(env: Env, o: Order, t: Tree, h: nat, channel: string, files: seq<seq<Event>>, p: Path)
    requires Writing(o, t, h) && NamesLoad(t) && RootBlank(t) && channel != ""
    requires var c := LoadSystem(env, files); c.locked || (TextsLoad(env, t) && NoItemsOnLock(c.tree, t))
    ensures var c, file := LoadSystem(env, files), SavedFile(env, o, t, h, channel);
      var t' := Load(env, files, Some(file)).tree;
      && UserParses(env, c, file) && SystemAt(t', p) == SystemAt(c.tree, p) && LockedAt(t', p) == LockedAt(c.tree, p)
      && UserAt(t', p) == if c.locked || p !in t || LockedAt(c.tree, p) then None
                          else PayloadValue(env, Written(env, t[p].user))
  {
    var c := LoadSystem(env, files);
    LoadSystemSound(env, files);
    SoundMeans(c.tree, true);
    if c.locked {
      NoUser(c.tree, p);
    } else {
      SaveThenRead(env, o, t, h, channel, c.tree, p);
    }
  }

  /** The system defaults of a channel stay those of its system files, through its user file and every
      run of sets and resets. */
  lemma RunsKeepSystemLayer(env: Env, files: seq<seq<Event>>, user: Option<seq<Event>>, ops: seq<Op>)
    requires GoodOps(ops)
    ensures SystemMap(TreeRun(Load(env, files, user).tree, ops)) == SystemMap(LoadSystem(env, files).tree)
  {
    var c, t := LoadSystem(env, files), Load(env, files, user).tree;
    LoadSound(env, files, user);
    LoadSystemSound(env, files);
    RunKeepsDefaults(t, ops);
    forall p
      ensures SystemAt(t, p) == SystemAt(c.tree, p)
    {
      if !c.locked && user.Some? {
        UserRunKeepsLayer(env, Fresh(c.tree, false, false), user.value, p);
      }
    }
    SameSystems(t, c.tree);
  }

  lemma SameSystems(a: Tree, b: Tree)
    requires forall p :: SystemAt(a, p) == SystemAt(b, p)
    ensures SystemMap(a) == SystemMap(b)
  {
    forall p
      ensures p in SystemMap(a) <==> p in SystemMap(b)
      ensures p in SystemMap(a) ==> SystemMap(a)[p] == SystemMap(b)[p]
    {
      assert SystemAt(a, p) == SystemAt(b, p);
    }
  }

  /** What a user map has to be like to come back: empty in a locked channel, whose user file is not
      read, and otherwise storable and clear of the locks. */
  predicate ComesBack(env: Env, c: Loaded, t: Tree) {
    if c.locked then UserMap(t) == map[]
    else (forall p :: p in t ==> Storable(env, t[p].user)) && ClearOf(c.tree, t)
  }

  /** Round trip: behind any system files, the saved file parses, if it is read, and loading the channel
      gives back the user map, exactly if `ComesBack` holds. */
  lemma SaveAndLoad(env: Env, o: Order, t: Tree, h: nat, channel: string, files: seq<seq<Event>>)
    requires Writing(o, t, h) && Writable(env, t) && NamesLoad(t) && RootBlank(t) && channel != ""
    requires forall p :: p in t ==> AllInRange(t[p].user)
    ensures var c, file := LoadSystem(env, files), SavedFile(env, o, t, h, channel);
      UserParses(env, c, file) && UserMap(Load(env, files, Some(file)).tree) == UserMap(t) <==> ComesBack(env, c, t)
  {
    LoadSystemSound(env, files);
    if LoadSystem(env, files).locked {
      LockedChannelLoads(env, files, Some(SavedFile(env, o, t, h, channel)));
    } else {
      SaveAndRead(env, o, t, h, channel, LoadSystem(env, files).tree);
    }
  }

  /** In a locked channel a name that no file mentions can be set all the same; the set succeeds, the
      value is nowhere against a node's lock, and it does not come back, whatever the file says. */
  lemma LockedChannelForgets(env: Env, files: seq<seq<Event>>, p: Path, v: Value, user: Option<seq<Event>>)
    requires LoadSystem(env, files).locked && p != [] && p !in LoadSystem(env, files).tree
    ensures var c := LoadSystem(env, files);
      var r := SetValue(c.tree, p, v);
      && r.ok && UserMap(r.tree) == map[p := v] && SystemMap(r.tree) == SystemMap(c.tree) && ClearOf(c.tree, r.tree)
      && GetValue(r.tree, p) == Some(v) && GetValue(Load(env, files, user).tree, p) == None
      && UserMap(Load(env, files, user).tree) == map[]
  {
    var c := LoadSystem(env, files);
    LockedChannelLoads(env, files, user);
    LoadSystemSound(env, files);
    AddIsFlat(c.tree, p, v);
    AddNodeMeaning(c.tree, p, Data(Some(v), None, false));
  }

  /** The user values are where the reloaded channel takes them. */
  predicate ClearOfLocks(c: Loaded, t: Tree) {
    if c.locked then UserMap(t) == map[] else ClearOf(c.tree, t)
  }

  /** Every run of sets and resets from the loaded system files leads to user values that the reloaded
      channel takes, if and only if the channel is not locked and every lock has a system default at or
      below it. */
  lemma RunsStayClear(env: Env, files: seq<seq<Event>>)
    requires ValidNodes(LoadSystem(env, files).tree)
    ensures var c := LoadSystem(env, files);
      (forall ops :: GoodOps(ops) && ValidOps(ops) ==> ClearOfLocks(c, TreeRun(c.tree, ops))) <==>
        !c.locked && forall p :: p in LockedSet(c.tree) ==> DefaultBelow(c.tree, p)
  {
    var c := LoadSystem(env, files);
    LoadSystemSound(env, files);
    if c.locked {
      var p := UnmentionedName(c.tree);
      var ops := [Set(p, One(Bool(true)))];
      LockedChannelForgets(env, files, p, One(Bool(true)), None);
      assert TreeRun(c.tree, ops) == SetValue(c.tree, p, One(Bool(true))).tree;
      assert p in UserMap(TreeRun(c.tree, ops));
      assert ValidPath(PathOf(ops[0])) && !ClearOfLocks(c, TreeRun(c.tree, ops));
    } else {
      RunsAvoidLocks(c.tree);
      assert forall ops | GoodOps(ops) ::
        ClearOfLocks(c, TreeRun(c.tree, ops)) == ClearOf(c.tree, TreeRun(c.tree, ops));
    }
  }
}
