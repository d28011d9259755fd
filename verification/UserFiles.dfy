/** User files against the locks of the system layer: which of them parse, and what user values they
    leave (esconfd/esconf-backend-perchannel-xml.c). */
module UserFiles {
  import opened Base
  import opened Values
  import opened Names
  import opened TreeModel
  import opened XmlText
  import opened XmlSpec
  import opened XmlInvariants
  import opened XmlDoc
  import opened XmlRuns
  import opened Layers
  import opened Rejects
  import opened RoundTrip
  import opened LockedArrays

  // ---------- which files parse ----------

  /** The names are components and the paths fit; nothing is said about texts and lock attributes. */
  predicate LegalElem(prefix: Path, e: PropElem)
    decreases e
  {
    GoodName(e.name) && |Join(prefix + [e.name])| < MAX_PROP_PATH && LegalProps(prefix + [e.name], e.children)
  }

  predicate LegalProps(prefix: Path, ps: Props)
    decreases ps
  {
    match ps
    case NoProps => true
    case More(front, last) => LegalProps(prefix, front) && LegalElem(prefix, last)
  }

  predicate HasItems(p: Payload) {
    p.Items? && p.items != []
  }

  /** The element by itself.  On a locked node it is passed over, whatever it says, but its items are
      not: they need an array that is still open, and must convert. */
  predicate OwnParses(env: Env, base: Tree, open: Option<Path>, p: Path, e: PropElem) {
    if LockedAt(base, p) then HasItems(e.payload) ==> open.Some? && GoodItems(env, e.payload.items)
    else Directive(env, e.locked, e.unlocked) == None && GoodPayload(env, e.payload)
  }

  /** The array that is open inside the element. */
  function OpenInside(base: Tree, open: Option<Path>, p: Path, payload: Payload): Option<Path> {
    if payload.Items? && !LockedAt(base, p) then Some(p) else open
  }

  /** The end of a property closes the array, whoever opened it: only a first child inherits it. */
  function OpenBehind(open: Option<Path>, front: Props): Option<Path> {
    if front.NoProps? then open else None
  }

  predicate ElemParses(env: Env, base: Tree, open: Option<Path>, prefix: Path, e: PropElem)
    decreases e
  {
    var p := prefix + [e.name];
    OwnParses(env, base, open, p, e) && PropsParse(env, base, OpenInside(base, open, p, e.payload), p, e.children)
  }

  predicate PropsParse(env: Env, base: Tree, open: Option<Path>, prefix: Path, ps: Props)
    decreases ps
  {
    match ps
    case NoProps => true
    case More(front, last) =>
      PropsParse(env, base, open, prefix, front) && ElemParses(env, base, OpenBehind(open, front), prefix, last)
  }

  predicate FileParses(env: Env, base: Tree, d: Doc) {
    Directive(env, d.locked, d.unlocked) == None && PropsParse(env, base, None, [], d.props)
  }

  // ---------- what they leave ----------

  /** A property gets its value, or an open array gets the items of an element that was passed over. */
  datatype Act = Put(path: Path, value: Option<Value>) | Extend(path: Path, items: seq<Scalar>)

  function OwnActs(env: Env, base: Tree, open: Option<Path>, p: Path, e: PropElem): seq<Act>
    requires OwnParses(env, base, open, p, e)
  {
    if !LockedAt(base, p) then [Put(p, PayloadValue(env, e.payload))]
    else if HasItems(e.payload) then [Extend(open.value, ItemsValue(env, e.payload.items))]
    else []
  }

  function ElemActs(env: Env, base: Tree, open: Option<Path>, prefix: Path, e: PropElem): seq<Act>
    requires ElemParses(env, base, open, prefix, e)
    decreases e
  {
    var p := prefix + [e.name];
    OwnActs(env, base, open, p, e) + PropsActs(env, base, OpenInside(base, open, p, e.payload), p, e.children)
  }

  function PropsActs(env: Env, base: Tree, open: Option<Path>, prefix: Path, ps: Props): seq<Act>
    requires PropsParse(env, base, open, prefix, ps)
    decreases ps
  {
    match ps
    case NoProps => []
    case More(front, last) =>
      PropsActs(env, base, open, prefix, front) + ElemActs(env, base, OpenBehind(open, front), prefix, last)
  }

  function Longer(v: Option<Value>, items: seq<Scalar>): Option<Value> {
    if v.Some? && v.value.Array? then Some(Array(v.value.items + items)) else v
  }

  /** The user value at `q`, act by act. */
  function Told(acts: seq<Act>, q: Path, before: Option<Value>): Option<Value> {
    if acts == [] then before
    else
      var told := Told(acts[..|acts| - 1], q, before);
      match acts[|acts| - 1]
      case Put(path, value) => if path == q then value else told
      case Extend(path, items) => if path == q then Longer(told, items) else told
  }

  lemma {:induction false} ToldConcat(a: seq<Act>, b: seq<Act>, q: Path, before: Option<Value>)
    ensures Told(a + b, q, before) == Told(b, q, Told(a, q, before))
  {
    if b == [] {
      assert a + b == a;
    } else {
      ToldConcat(a, b[..|b| - 1], q, before);
      assert (a + b)[..|a + b| - 1] == a + b[..|b| - 1];
    }
  }

  lemma ToldOne(act: Act, q: Path, before: Option<Value>)
    ensures Told([act], q, before) ==
      match act
      case Put(path, value) => if path == q then value else before
      case Extend(path, items) => if path == q then Longer(before, items) else before
  {
    assert [act][..0] == [];
    assert Told([], q, before) == before;
  }

  // ---------- reading an element ----------

  /** A user file is being read inside the properties `prefix`, over the locks of `base`. */
  ghost predicate At(base: Tree, s: State, prefix: Path) {
    Reading(s, prefix) && Sound(s) && SameLocks(base, s)
  }

  function OpenOf(s: State): Option<Path> {
    if s.list.Some? && PropNameIsValid(s.list.value) then Some(Components(s.list.value)) else None
  }

  lemma TagPassedOver(env: Env, s: State, prefix: Path, e: PropElem)
    requires Reading(s, prefix) && GoodName(e.name) && |Join(prefix + [e.name])| < MAX_PROP_PATH
    requires LockedAt(s.tree, prefix + [e.name])
    ensures Step(env, s, Start("property", ElemAttrs(e))) ==
      s.(elem := ElemProperty, path := Join(prefix + [e.name]))
  {
    NamedTagEnters(env, s, prefix, e);
  }

  /** The items of an element that was passed over. */
  lemma LooseItems(env: Env, s: State, items: seq<Item>, q: Path)
    requires s.verdict == Going && s.elem == ElemProperty && Sound(s) && !s.system && items != []
    ensures var s' := Run(env, s, ItemEvents(items));
      && (s'.verdict == Going <==> OpenOf(s).Some? && GoodItems(env, items))
      && (s'.verdict == Going ==>
            && s' == s.(tree := s'.tree)
            && UserAt(s'.tree, q) ==
               if OpenOf(s) == Some(q) then Longer(UserAt(s.tree, q), ItemsValue(env, items)) else UserAt(s.tree, q))
  {
    if s.list.None? {
      assert ItemEvents(items) + [] == ItemEvents(items);
      StrayItems(env, s, items, []);
    } else {
      var a := Components(s.list.value);
      var before := s.tree[a].user.value.items;
      if GoodItems(env, items) {
        ItemsRun(env, s, a, before, items);
      } else {
        ItemsStop(env, s, a, before, items);
      }
    }
  }

  /** Reading the head of an element: opening tag and items. */
  ghost predicate HeadGives(env: Env, base: Tree, s: State, p: Path, e: PropElem, q: Path) {
    var s', open := Run(env, s, Head(e)), OpenOf(s);
    && (s'.verdict == Going <==> OwnParses(env, base, open, p, e))
    && (OwnParses(env, base, open, p, e) ==>
          && Within(s', p) && !s'.locked && OpenOf(s') == OpenInside(base, open, p, e.payload)
          && UserAt(s'.tree, q) == Told(OwnActs(env, base, open, p, e), q, UserAt(s.tree, q)))
  }

  lemma LockedHead(env: Env, base: Tree, s: State, prefix: Path, e: PropElem, q: Path)
    requires At(base, s, prefix) && LegalElem(prefix, e) && LockedAt(base, prefix + [e.name])
    ensures HeadGives(env, base, s, prefix + [e.name], e, q)
  {
    var start, s0 := Start("property", ElemAttrs(e)), UserAt(s.tree, q);
    FullName(prefix, e.name);
    TagPassedOver(env, s, prefix, e);
    RunOne(env, s, start);
    RunConcat(env, s, [start], PayloadEvents(e.payload));
    RunSound(env, s, [start]);
    if HasItems(e.payload) {
      LooseItems(env, Step(env, s, start), e.payload.items, q);
      if OwnParses(env, base, OpenOf(s), prefix + [e.name], e) {
        ToldOne(Extend(OpenOf(s).value, ItemsValue(env, e.payload.items)), q, s0);
      }
    }
  }

  lemma OpenHead(env: Env, base: Tree, s: State, prefix: Path, e: PropElem, q: Path)
    requires At(base, s, prefix) && LegalElem(prefix, e) && !LockedAt(base, prefix + [e.name])
    ensures HeadGives(env, base, s, prefix + [e.name], e, q)
  {
    var bare, start := e.(children := NoProps), Start("property", ElemAttrs(e));
    assert Head(bare) == Head(e);
    if Directive(env, e.locked, e.unlocked).Some? {
      LockRefused(env, s, prefix, e);
      RunOne(env, s, start);
      RunConcat(env, s, [start], PayloadEvents(e.payload));
      Stopped(env, Step(env, s, start), PayloadEvents(e.payload));
    } else if !GoodPayload(env, e.payload) {
      PayloadStops(env, s, prefix, bare);
    } else {
      PayloadRuns(env, s, prefix, bare);
      FullName(prefix, e.name);
      PutAt(env, s.tree, false, false, EntryOf(env, prefix, bare), q);
      ToldOne(Put(prefix + [e.name], PayloadValue(env, e.payload)), q, UserAt(s.tree, q));
    }
  }

  lemma LockRefused(env: Env, s: State, prefix: Path, e: PropElem)
    requires Reading(s, prefix) && LegalElem(prefix, e) && !LockedAt(s.tree, prefix + [e.name])
    requires Directive(env, e.locked, e.unlocked).Some?
    ensures Step(env, s, Start("property", ElemAttrs(e))).verdict == ParseError
  {
    NamedTagEnters(env, s, prefix, e);
    ElemAttrsRead(e);
  }

  lemma HeadReads(env: Env, base: Tree, s: State, prefix: Path, e: PropElem, q: Path)
    requires At(base, s, prefix) && LegalElem(prefix, e)
    ensures HeadGives(env, base, s, prefix + [e.name], e, q)
    ensures Run(env, s, Head(e)).verdict == Going ==> At(base, Run(env, s, Head(e)), prefix + [e.name])
  {
    RunSound(env, s, Head(e));
    RunKeepsLocks(env, base, s, Head(e));
    if LockedAt(base, prefix + [e.name]) {
      LockedHead(env, base, s, prefix, e, q);
    } else {
      OpenHead(env, base, s, prefix, e, q);
    }
  }

  // ---------- reading a file ----------

  lemma EndReads(env: Env, base: Tree, s: State, prefix: Path, name: string)
    requires s.verdict == Going ==> At(base, s, prefix + [name])
    ensures var s' := Run(env, s, [End]);
      && s'.tree == s.tree && s'.verdict == s.verdict
      && (s.verdict == Going ==> At(base, s', prefix) && OpenOf(s') == None)
  {
    RunOne(env, s, End);
    if s.verdict == Going {
      EndRuns(env, s, prefix, name);
      RunSound(env, s, [End]);
    }
  }

  /** A whole element parses exactly if the rules above say so, and then leaves the acts above. */
  lemma {:induction false} ElemReads(env: Env, base: Tree, s: State, prefix: Path, e: PropElem, q: Path)
    requires At(base, s, prefix) && LegalElem(prefix, e)
    ensures var s', open := Run(env, s, ElemEvents(e)), OpenOf(s);
      && (s'.verdict == Going <==> ElemParses(env, base, open, prefix, e))
      && (s'.verdict == Going ==>
            && At(base, s', prefix) && OpenOf(s') == None
            && UserAt(s'.tree, q) == Told(ElemActs(env, base, open, prefix, e), q, UserAt(s.tree, q)))
    decreases e
  {
    var p := prefix + [e.name];
    var s1 := Run(env, s, Head(e));
    RunConcat(env, s, Head(e), PropsEvents(e.children));
    RunConcat(env, s, Head(e) + PropsEvents(e.children), [End]);
    HeadReads(env, base, s, prefix, e, q);
    if s1.verdict == Going {
      PropsRead(env, base, s1, p, e.children, q);
      EndReads(env, base, Run(env, s1, PropsEvents(e.children)), prefix, e.name);
      if ElemParses(env, base, OpenOf(s), prefix, e) {
        ToldConcat(OwnActs(env, base, OpenOf(s), p, e), PropsActs(env, base, OpenOf(s1), p, e.children),
                   q, UserAt(s.tree, q));
      }
    } else {
      Stopped(env, s1, PropsEvents(e.children));
      Stopped(env, s1, [End]);
    }
  }

  lemma {:induction false} PropsRead(env: Env, base: Tree, s: State, prefix: Path, ps: Props, q: Path)
    requires At(base, s, prefix) && LegalProps(prefix, ps)
    ensures var s', open := Run(env, s, PropsEvents(ps)), OpenOf(s);
      && (s'.verdict == Going <==> PropsParse(env, base, open, prefix, ps))
      && (s'.verdict == Going ==>
            && At(base, s', prefix) && OpenOf(s') == OpenBehind(open, ps)
            && UserAt(s'.tree, q) == Told(PropsActs(env, base, open, prefix, ps), q, UserAt(s.tree, q)))
    decreases ps
  {
    if ps.More? {
      var open, s1 := OpenOf(s), Run(env, s, PropsEvents(ps.front));
      RunConcat(env, s, PropsEvents(ps.front), ElemEvents(ps.last));
      PropsRead(env, base, s, prefix, ps.front, q);
      if s1.verdict == Going {
        ElemReads(env, base, s1, prefix, ps.last, q);
        if PropsParse(env, base, open, prefix, ps) {
          ToldConcat(PropsActs(env, base, open, prefix, ps.front),
                     ElemActs(env, base, OpenOf(s1), prefix, ps.last), q, UserAt(s.tree, q));
        }
      } else {
        Stopped(env, s1, ElemEvents(ps.last));
      }
    }
  }

  /** A user file whose names fit parses exactly if neither the channel nor an element that is not
      passed over carries a lock directive, the texts of the elements that are not passed over convert,
      and every array with items on a locked node stands inside an open array and converts as well. */
  lemma UserFileReads(env: Env, base: Tree, d: Doc, q: Path)
    requires TreeOk(base, true) && d.name != "" && LegalProps([], d.props)
    ensures var s := Run(env, Fresh(base, false, false), FileEvents(d));
      && (s.verdict == Going <==> FileParses(env, base, d))
      && (s.verdict == Going ==> UserAt(s.tree, q) == Told(PropsActs(env, base, None, [], d.props), q, None))
  {
    var s0, start, rest := Fresh(base, false, false), Start("channel", ChannelAttrs(d)), PropsEvents(d.props);
    var s1 := Step(env, s0, start);
    ChannelRuns(env, base, false, false, d);
    RunOne(env, s0, start);
    RunConcat(env, s0, [start], rest);
    RunConcat(env, s0, [start] + rest, [End]);
    if s1.verdict == Going {
      PropsRead(env, base, s1, [], d.props, q);
      EndKeepsTree(env, Run(env, s1, rest));
    } else {
      Stopped(env, s1, rest);
      Stopped(env, s1, [End]);
    }
  }

  /** Behind any system files: the user layer of a user file that parses is what its acts tell, with the
      items of locked arrays at the end of the arrays around them. */
  lemma UserLoadIsActs(env: Env, files: seq<seq<Event>>, user: Doc, q: Path)
    requires user.name != "" && LegalProps([], user.props)
    ensures var c, c' := LoadSystem(env, files), Load(env, files, Some(FileEvents(user)));
      && SystemAt(c'.tree, q) == SystemAt(c.tree, q) && LockedAt(c'.tree, q) == LockedAt(c.tree, q)
      && (c.locked ==> UserAt(c'.tree, q) == None)
      && (!c.locked && FileParses(env, c.tree, user) ==>
            UserAt(c'.tree, q) == Told(PropsActs(env, c.tree, None, [], user.props), q, None))
  {
    LoadSystemSound(env, files);
    var c := LoadSystem(env, files);
    if !c.locked {
      UserFileReads(env, c.tree, user, q);
      UserRunKeepsLayer(env, Fresh(c.tree, false, false), FileEvents(user), q);
    }
  }
}
