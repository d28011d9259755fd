/** What every parse keeps, whatever the events: the parser's string is a stack, the open array
    exists, and locked nodes hold no user value. */
module XmlInvariants {
  import opened Base
  import opened Values
  import opened Names
  import opened TreeModel
  import opened FlatMaps
  import opened XmlText
  import opened XmlSpec

  // ---------- the string as a stack ----------

  /** The elements that are open, outermost first. */
  datatype Frame = InChannel | InProperty(name: string) | InValue | InOther

  function FrameOf(element: string, attrs: seq<Attr>): Frame {
    if element == "channel" then InChannel
    else if element == "property" then InProperty(Text(FindAttr(attrs, "name")))
    else if element == "value" then InValue
    else InOther
  }

  function Frames(events: seq<Event>): seq<Frame> {
    if events == [] then []
    else
      var n := |events| - 1;
      var before := Frames(events[..n]);
      match events[n]
      case Start(element, attrs) => before + [FrameOf(element, attrs)]
      case End => if before == [] then [] else before[..|before| - 1]
  }

  /** Every end closes an open element. */
  predicate WellNested(events: seq<Event>) {
    forall i :: 0 <= i < |events| && events[i].End? ==> Frames(events[..i]) != []
  }

  function OpenNames(frames: seq<Frame>): Path {
    if frames == [] then []
    else
      var n := |frames| - 1;
      OpenNames(frames[..n]) + if frames[n].InProperty? then [frames[n].name] else []
  }

  /** The property names of a file contain no '/'. */
  predicate SlashFreeNames(events: seq<Event>) {
    forall i :: 0 <= i < |events| && events[i].Start? && events[i].element == "property" ==>
      SlashFree(Text(FindAttr(events[i].attrs, "name")))
  }

  /** A channel and properties inside it. */
  predicate Properties(frames: seq<Frame>) {
    frames != [] &&
    var n := |frames| - 1;
    if n == 0 then frames[n] == InChannel
    else frames[n].InProperty? && SlashFree(frames[n].name) && Properties(frames[..n])
  }

  predicate Mirrors(s: State, frames: seq<Frame>) {
    if frames == [] then s.elem == ElemNone && s.path == ""
    else
      var n := |frames| - 1;
      && s.path == Join(OpenNames(frames))
      && if frames[n] == InValue then s.elem == ElemValue && n >= 2 && Properties(frames[..n])
         else s.elem == (if n == 0 then ElemChannel else ElemProperty) && Properties(frames)
  }

  lemma Push(frames: seq<Frame>, f: Frame)
    ensures (frames + [f])[..|frames|] == frames
    ensures OpenNames(frames + [f]) == if f.InProperty? then OpenNames(frames) + [f.name] else OpenNames(frames)
    ensures f.InProperty? ==> Join(OpenNames(frames + [f])) == Join(OpenNames(frames)) + "/" + f.name
  {
    assert (frames + [f])[..|frames|] == frames;
    var names := OpenNames(frames);
    if f.InProperty? {
      assert (names + [f.name])[..|names|] == names;
    } else {
      assert names + [] == names;
    }
  }

  lemma {:induction false} NamesOfProperties(frames: seq<Frame>)
    requires Properties(frames)
    ensures |OpenNames(frames)| == |frames| - 1 && AllSlashFree(OpenNames(frames))
  {
    if |frames| > 1 {
      var n := |frames| - 1;
      NamesOfProperties(frames[..n]);
    } else {
      assert OpenNames(frames[..0]) == [];
    }
  }

  lemma PropertyGoes(env: Env, s: State, attrs: seq<Attr>)
    requires PropertyStep(env, s, attrs).verdict == Going
    ensures var s' := PropertyStep(env, s, attrs);
      s'.elem == ElemProperty && s'.path == s.path + "/" + Text(FindAttr(attrs, "name"))
  {
    var f := FieldsOf(attrs);
    var full := s.path + "/" + Text(f.name);
    if |full| < MAX_PROP_PATH && PropNameIsValid(full) {
      var t := OpenProperty(s.tree, Components(full), s.locked, s.system);
      if t.Some? {
        FillGoes(env, s.(tree := t.value), full, f);
      }
    }
  }

  lemma FillGoes(env: Env, s: State, full: string, f: Fields)
    requires PropNameIsValid(full) && Components(full) in s.tree
    ensures var s' := FillProperty(env, s, full, f);
      s'.verdict == Going ==> s'.elem == ElemProperty && s'.path == full
  {
    ReadGoes(env, s.(tree := LockProperty(s.tree, Components(full), DirectiveOf(env, f), s.locked)), full, f);
  }

  lemma ReadGoes(env: Env, s: State, full: string, f: Fields)
    requires PropNameIsValid(full) && Components(full) in s.tree
    ensures var s' := ReadProperty(env, s, full, f);
      s'.verdict == Going ==> s'.elem == ElemProperty && s'.path == full
  {
  }

  /** Where a successful start of an element leads. */
  lemma StartGoes(env: Env, s: State, element: string, attrs: seq<Attr>)
    requires StartStep(env, s, element, attrs).verdict == Going
    ensures var s' := StartStep(env, s, element, attrs);
      match s.elem
      case ElemNone => element == "channel" && s'.elem == ElemChannel && s'.path == s.path
      case ElemValue => false
      case _ =>
        if element == "property" then
          s'.elem == ElemProperty && s'.path == s.path + "/" + Text(FindAttr(attrs, "name"))
        else element == "value" && s.elem == ElemProperty && s'.elem == ElemValue && s'.path == s.path
  {
    if s.elem != ElemNone && element == "property" {
      PropertyGoes(env, s, attrs);
    }
  }

  lemma StartMirrors(env: Env, s: State, frames: seq<Frame>, element: string, attrs: seq<Attr>)
    requires Mirrors(s, frames) && StartStep(env, s, element, attrs).verdict == Going
    requires element == "property" ==> SlashFree(Text(FindAttr(attrs, "name")))
    ensures Mirrors(StartStep(env, s, element, attrs), frames + [FrameOf(element, attrs)])
  {
    StartGoes(env, s, element, attrs);
    Pushed(s, StartStep(env, s, element, attrs), frames, FrameOf(element, attrs));
  }

  lemma Pushed(s: State, s': State, frames: seq<Frame>, f: Frame)
    requires Mirrors(s, frames)
    requires match s.elem
      case ElemNone => f == InChannel && s'.elem == ElemChannel && s'.path == s.path
      case ElemValue => false
      case _ =>
        || (f.InProperty? && SlashFree(f.name) && s'.elem == ElemProperty && s'.path == s.path + "/" + f.name)
        || (f == InValue && s.elem == ElemProperty && s'.elem == ElemValue && s'.path == s.path)
    ensures Mirrors(s', frames + [f])
  {
    Push(frames, f);
    assert OpenNames([]) == [] && Join([]) == "";
  }

  lemma EndMirrors(s: State, frames: seq<Frame>)
    requires Mirrors(s, frames) && frames != []
    ensures Mirrors(EndStep(s), frames[..|frames| - 1])
  {
    var n := |frames| - 1;
    var rest := frames[..n];
    assert frames == rest + [frames[n]];
    Push(rest, frames[n]);
    match frames[n] {
      case InProperty(name) => EndProperty(s, rest, name);
      case InValue => EndValue(s, rest);
      case _ =>
    }
  }

  lemma EndValue(s: State, rest: seq<Frame>)
    requires s.elem == ElemValue && |rest| >= 2 && Properties(rest) && s.path == Join(OpenNames(rest))
    ensures Mirrors(EndStep(s), rest)
  {
  }

  lemma EndProperty(s: State, rest: seq<Frame>, name: string)
    requires Properties(rest) && s.elem == ElemProperty && SlashFree(name)
    requires s.path == Join(OpenNames(rest)) + "/" + name
    ensures Mirrors(EndStep(s), rest)
  {
    var front := Join(OpenNames(rest));
    LastSlashOf(front, name);
    assert s.path[..|front|] == front;
    NamesOfProperties(rest);
    JoinStartsWithSlash(OpenNames(rest));
  }

  /** The parser's string is a faithful stack: as long as a well-nested file with '/'-free property
      names parses, `path` is the '/'-join of the names of the open properties, and inside the
      channel, outside a <value>, `elem` is CHANNEL exactly when no property is open. */
  lemma {:induction false} StringIsAStack(env: Env, t: Tree, locked: bool, system: bool, events: seq<Event>)
    requires WellNested(events) && SlashFreeNames(events)
    requires Run(env, Fresh(t, locked, system), events).verdict == Going
    ensures var s, frames := Run(env, Fresh(t, locked, system), events), Frames(events);
      && Mirrors(s, frames) && s.path == Join(OpenNames(frames))
      && (frames == [] <==> s.elem == ElemNone)
      && (frames != [] ==> (s.elem == ElemChannel <==> OpenNames(frames) == []))
    decreases |events|
  {
    if events == [] {
      assert OpenNames([]) == [] && Join([]) == "";
    } else {
      var n := |events| - 1;
      var before := Run(env, Fresh(t, locked, system), events[..n]);
      WellNestedPrefix(events);
      StringIsAStack(env, t, locked, system, events[..n]);
      match events[n] {
        case Start(element, attrs) => StartMirrors(env, before, Frames(events[..n]), element, attrs);
        case End => EndMirrors(before, Frames(events[..n]));
      }
      MirroredNames(Run(env, Fresh(t, locked, system), events), Frames(events));
    }
  }

  lemma WellNestedPrefix(events: seq<Event>)
    requires WellNested(events) && events != []
    ensures WellNested(events[..|events| - 1])
    ensures events[|events| - 1].End? ==> Frames(events[..|events| - 1]) != []
  {
    var front := events[..|events| - 1];
    forall i | 0 <= i < |front| && front[i].End?
      ensures Frames(front[..i]) != []
    {
      assert front[..i] == events[..i];
    }
  }

  lemma MirroredNames(s: State, frames: seq<Frame>)
    requires Mirrors(s, frames)
    ensures s.path == Join(OpenNames(frames)) && (frames == [] <==> s.elem == ElemNone)
    ensures frames != [] ==> (s.elem == ElemChannel <==> OpenNames(frames) == [])
  {
    assert OpenNames([]) == [] && Join([]) == "";
    if frames != [] {
      var n := |frames| - 1;
      var rest := frames[..n];
      if frames[n] == InValue {
        assert frames == rest + [InValue];
        Push(rest, InValue);
        NamesOfProperties(rest);
      } else {
        NamesOfProperties(frames);
      }
    }
  }

  /** Without the condition on names it is not: an element is undone by its end exactly if its name
      has no '/'. */
  lemma EndUndoesStart(env: Env, s: State, attrs: seq<Attr>)
    requires PropertyStep(env, s, attrs).verdict == Going
    ensures EndStep(PropertyStep(env, s, attrs)).path == s.path <==> SlashFree(Text(FindAttr(attrs, "name")))
  {
    var name := Text(FindAttr(attrs, "name"));
    PropertyGoes(env, s, attrs);
    LastSlashCut(s.path, name);
  }

  lemma LastSlashCut(front: string, name: string)
    ensures var full := front + "/" + name;
      LastSlash(full) >= 0 && (full[..LastSlash(full)] == front <==> SlashFree(name))
  {
    var full := front + "/" + name;
    assert full[|front|] == '/';
    if SlashFree(name) {
      LastSlashOf(front, name);
    } else {
      var i :| 0 <= i < |name| && name[i] == '/';
      assert full[|front| + 1 + i] == '/';
    }
  }

  // ---------- the tree under construction ----------

  /** Where a system file is read there are no user values, and otherwise none on locked nodes. */
  predicate CleanNode(d: Data, system: bool) {
    system || d.locked ==> d.user == None
  }

  predicate TreeOk(t: Tree, system: bool) {
    Closed(t) && RootBlank(t) && forall p :: p in t ==> CleanNode(t[p], system)
  }

  /** The open array is there, in the layer that is being read. */
  predicate ListOk(s: State) {
    s.list.Some? ==>
      && HasList(s.tree, s.list.value, s.system) && |s.list.value| <= |s.path|
      && (!s.system ==> !s.tree[Components(s.list.value)].locked)
      && (s.elem == ElemProperty || s.elem == ElemValue)
  }

  predicate Sound(s: State) {
    TreeOk(s.tree, s.system) && ListOk(s) && !(s.locked && !s.system)
  }

  /** One step, or several, that stay in one file. */
  predicate Keeps(s: State, s': State) {
    Sound(s') && s'.system == s.system
  }

  lemma PutKeeps(t: Tree, p: Path, system: bool, v: Option<Value>)
    requires TreeOk(t, system) && p in t && p != [] && (!system ==> !t[p].locked)
    ensures TreeOk(PutLayer(t, p, system, v), system)
  {
  }

  /** Opening a property touches its own node only, apart from new blank ancestors. */
  lemma OpenKeeps(t: Tree, p: Path, locked: bool, system: bool)
    requires TreeOk(t, system) && p != [] && OpenProperty(t, p, locked, system).Some? && !(locked && !system)
    ensures var t' := OpenProperty(t, p, locked, system).value;
      && TreeOk(t', system)
      && (forall q :: q in t && q != p ==> q in t' && t'[q] == t[q])
      && (!system ==> !t'[p].locked)
  {
    if p !in t {
      AddNodeMeaning(t, p, Data(None, None, locked));
    }
  }

  lemma LockKeeps(t: Tree, p: Path, d: Option<bool>, locked: bool)
    requires TreeOk(t, true) && p in t && p != []
    ensures TreeOk(LockProperty(t, p, d, locked), true)
  {
  }

  lemma ItemSound(env: Env, s: State, k: Kind, text: string)
    requires Sound(s) && s.list.Some?
    ensures Keeps(s, ReadItem(env, s, k, text))
  {
    var p, r := Components(s.list.value), ScalarFromText(env, k, text);
    if r.Some? {
      PutKeeps(s.tree, p, s.system, Some(Array(Layer(s.tree[p], s.system).value.items + [r.value])));
    }
  }

  lemma ValueSound(env: Env, s: State, attrs: seq<Attr>)
    requires Sound(s) && s.list.Some?
    ensures Keeps(s, ValueStep(env, s, attrs))
  {
    var f := FieldsOf(attrs);
    if f.type_.Some? && f.text.Some? && TypeFromString(f.type_.value).BasicType? {
      ItemSound(env, s, TypeFromString(f.type_.value).kind, f.text.value);
    }
  }

  /** The state once the node of a property is open, and the list of an outer array intact. */
  predicate Opened(s: State, full: string) {
    && Sound(s) && PropNameIsValid(full) && Components(full) in s.tree && Components(full) != []
    && (!s.system ==> !s.tree[Components(full)].locked)
    && |s.path| < |full| && (s.list.Some? ==> Components(s.list.value) != Components(full))
  }

  lemma ReadSound(env: Env, s: State, full: string, f: Fields)
    requires Opened(s, full)
    ensures Keeps(s, ReadProperty(env, s, full, f))
  {
    var p := Components(full);
    PutKeeps(s.tree, p, s.system, Some(Array([])));
    match TypeFromString(Text(f.type_)) {
      case BasicType(k) =>
        PutKeeps(s.tree, p, s.system, Some(One(InitialScalar(k))));
        if f.text.Some? && ScalarFromText(env, k, f.text.value).Some? {
          PutKeeps(s.tree, p, s.system, Some(One(ScalarFromText(env, k, f.text.value).value)));
        }
      case _ =>
    }
  }

  lemma FillSound(env: Env, s: State, full: string, f: Fields)
    requires Opened(s, full)
    ensures Keeps(s, FillProperty(env, s, full, f))
  {
    var d := DirectiveOf(env, f);
    if d.None? || s.system {
      var s1 := s.(tree := LockProperty(s.tree, Components(full), d, s.locked));
      if d.Some? {
        LockKeeps(s.tree, Components(full), d, s.locked);
      }
      ReadSound(env, s1, full, f);
    }
  }

  lemma PropertySound(env: Env, s: State, attrs: seq<Attr>)
    requires Sound(s)
    ensures Keeps(s, PropertyStep(env, s, attrs))
  {
    var f := FieldsOf(attrs);
    var full := s.path + "/" + Text(f.name);
    if |full| < MAX_PROP_PATH && PropNameIsValid(full) {
      EnterSound(env, s, full, f);
    }
  }

  lemma EnterSound(env: Env, s: State, full: string, f: Fields)
    requires Sound(s) && PropNameIsValid(full) && |s.path| < |full|
    ensures Keeps(s, EnterProperty(env, s, full, f))
  {
    ListElsewhere(s, full);
    var t := OpenProperty(s.tree, Components(full), s.locked, s.system);
    if t.Some? {
      OpenKeeps(s.tree, Components(full), s.locked, s.system);
      FillSound(env, s.(tree := t.value), full, f);
    }
  }

  /** The open array is that of another, shorter path. */
  lemma ListElsewhere(s: State, full: string)
    requires ListOk(s) && PropNameIsValid(full) && |s.path| < |full|
    ensures Components(full) != [] && (s.list.Some? ==> Components(s.list.value) != Components(full))
  {
    JoinOfComponents(full);
    if s.list.Some? {
      JoinOfComponents(s.list.value);
    }
  }

  lemma SoundStep(env: Env, s: State, e: Event)
    requires Sound(s)
    ensures Keeps(s, Step(env, s, e))
  {
    if s.verdict == Going && e.Start? {
      if s.elem == ElemChannel || s.elem == ElemProperty {
        if e.element == "property" {
          PropertySound(env, s, e.attrs);
        } else if s.elem == ElemProperty && s.list.Some? {
          ValueSound(env, s, e.attrs);
        }
      }
    }
  }

  /** Whatever a file contains, reading it keeps the tree a tree, leaves no user value on a locked
      node, and no user value at all if it is a system file. */
  lemma {:induction false} RunSound(env: Env, s: State, events: seq<Event>)
    requires Sound(s)
    ensures Keeps(s, Run(env, s, events))
    decreases |events|
  {
    if events != [] {
      RunSound(env, s, events[..|events| - 1]);
      SoundStep(env, Run(env, s, events[..|events| - 1]), events[|events| - 1]);
    }
  }

  lemma SoundMeans(t: Tree, system: bool)
    requires TreeOk(t, system)
    ensures LocksClean(MapsOf(t)) && (system ==> UserMap(t) == map[])
  {
  }
}
