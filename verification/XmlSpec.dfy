/** The parser of channel files as a state machine over element events
    (esconfd/esconf-backend-perchannel-xml.c, `esconf_xml_handle_*`, start and end of elements). */
module XmlSpec {
  import opened Base
  import opened Values
  import opened Names
  import opened TreeModel
  import opened XmlText

  datatype Attr = Attr(key: string, text: string)

  datatype Event = Start(element: string, attrs: seq<Attr>) | End

  datatype Elem = ElemNone | ElemChannel | ElemProperty | ElemValue

  /** `Undefined`: the program aborts, passes NULL where a string is expected, or truncates a path. */
  datatype Verdict = Going | ParseError | Undefined

  /** XmlParserState and the channel it fills.  `list` is the name of the array property whose items
      are being read. */
  datatype State = State(
    elem: Elem, path: string, list: Option<string>, system: bool,
    tree: Tree, locked: bool, verdict: Verdict)

  function Fresh(t: Tree, locked: bool, system: bool): State {
    State(ElemNone, "", None, system, t, locked, Going)
  }

  // ---------- attributes ----------

  /** The last attribute with this name. */
  function FindAttr(attrs: seq<Attr>, key: string): Option<string> {
    if attrs == [] then None
    else if attrs[|attrs| - 1].key == key then Some(attrs[|attrs| - 1].text)
    else FindAttr(attrs[..|attrs| - 1], key)
  }

  predicate OnlyKeys(attrs: seq<Attr>, keys: set<string>) {
    forall i :: 0 <= i < |attrs| ==> attrs[i].key in keys
  }

  /** NULL and "" mean the same to most of the handlers. */
  function Text(o: Option<string>): string {
    if o.Some? then o.value else ""
  }

  datatype Fields = Fields(
    name: Option<string>, version: Option<string>, type_: Option<string>, text: Option<string>,
    locked: Option<string>, unlocked: Option<string>)

  function FieldsOf(attrs: seq<Attr>): Fields {
    Fields(FindAttr(attrs, "name"), FindAttr(attrs, "version"), FindAttr(attrs, "type"), FindAttr(attrs, "value"),
           FindAttr(attrs, "locked"), FindAttr(attrs, "unlocked"))
  }

  const CHANNEL_KEYS := {"name", "version", "locked", "unlocked"}
  const PROPERTY_KEYS := {"name", "type", "value", "locked", "unlocked"}
  const VALUE_KEYS := {"type", "value"}

  /** The lock directive of an element: "unlocked" counts before "locked". */
  function Directive(env: Env, locked: string, unlocked: string): Option<bool> {
    if unlocked != "" then Some(!env.inList(unlocked))
    else if locked != "" then Some(env.inList(locked))
    else None
  }

  function DirectiveOf(env: Env, f: Fields): Option<bool> {
    Directive(env, Text(f.locked), Text(f.unlocked))
  }

  // ---------- <channel> ----------

  /** The text up to the first '.' is the major version. */
  predicate VersionOk(version: string) {
    |version| >= 1 && version[0] == '1' && (|version| == 1 || version[1] == '.')
  }

  function ChannelStep(env: Env, s: State, attrs: seq<Attr>): State {
    var f := FieldsOf(attrs);
    var d := DirectiveOf(env, f);
    if !OnlyKeys(attrs, CHANNEL_KEYS) || Text(f.name) == "" || !VersionOk(Text(f.version)) then
      s.(verdict := ParseError)
    else EnterChannel(s, d)
  }

  /** The lock policy: a directive that locks the channel drops what was read before, one that does
      not is an error once the channel is locked. */
  function EnterChannel(s: State, d: Option<bool>): State {
    if d.None? then s.(elem := ElemChannel)
    else if !s.system || (s.locked && !d.value) then s.(verdict := ParseError)
    else if !s.locked && d.value then s.(elem := ElemChannel, tree := EMPTY_TREE, locked := true)
    else s.(elem := ElemChannel)
  }

  // ---------- <property> ----------

  function Layer(d: Data, system: bool): Option<Value> {
    if system then d.system else d.user
  }

  function PutLayer(t: Tree, p: Path, system: bool, v: Option<Value>): Tree
    requires p in t
  {
    t[p := if system then t[p].(system := v) else t[p].(user := v)]
  }

  /** The node the element is about, emptied or newly made; `None` if the element is passed over. */
  function OpenProperty(t: Tree, p: Path, locked: bool, system: bool): (r: Option<Tree>)
    requires p != []
    ensures r.Some? ==> p in r.value && r.value[p].user == None && (system ==> r.value[p].system == None)
  {
    if locked then
      Some(if p in t then t[p := t[p].(user := None, system := None)] else AddNode(t, p, Data(None, None, true)))
    else if p !in t then Some(AddNode(t, p, BLANK))
    else if t[p].locked && !system then None
    else Some(t[p := t[p].(user := None, system := if system then None else t[p].system)])
  }

  function LockProperty(t: Tree, p: Path, d: Option<bool>, locked: bool): (r: Tree)
    requires p in t
    ensures p in r && r[p].user == t[p].user && r[p].system == t[p].system
  {
    if d.None? then t else t[p := t[p].(locked := locked || d.value)]
  }

  function PropertyStep(env: Env, s: State, attrs: seq<Attr>): State {
    var f := FieldsOf(attrs);
    if !OnlyKeys(attrs, PROPERTY_KEYS) || Text(f.name) == "" || Text(f.type_) == "" then s.(verdict := ParseError)
    else
      var full := s.path + "/" + Text(f.name);
      if |full| >= MAX_PROP_PATH || (s.locked && !s.system) || !PropNameIsValid(full) then s.(verdict := Undefined)
      else EnterProperty(env, s, full, f)
  }

  function EnterProperty(env: Env, s: State, full: string, f: Fields): State
    requires PropNameIsValid(full)
  {
    match OpenProperty(s.tree, Components(full), s.locked, s.system)
    case None => s.(elem := ElemProperty, path := full)
    case Some(t) => FillProperty(env, s.(tree := t), full, f)
  }

  /** A lock directive outside a system file is an error that leaves the node behind. */
  function FillProperty(env: Env, s: State, full: string, f: Fields): State
    requires PropNameIsValid(full) && Components(full) in s.tree
  {
    var d := DirectiveOf(env, f);
    if d.Some? && !s.system then s.(verdict := ParseError)
    else ReadProperty(env, s.(tree := LockProperty(s.tree, Components(full), d, s.locked)), full, f)
  }

  function ReadProperty(env: Env, s: State, full: string, f: Fields): State
    requires PropNameIsValid(full) && Components(full) in s.tree
  {
    var inside := s.(elem := ElemProperty, path := full);
    match TypeFromString(Text(f.type_))
    case InvalidType => s.(verdict := ParseError)
    case EmptyType => inside
    case ArrayType =>
      inside.(tree := PutLayer(s.tree, Components(full), s.system, Some(Array([]))), list := Some(full))
    case BasicType(k) =>
      if f.text.None? then s.(verdict := Undefined) else ReadBasic(env, s, full, k, f.text.value)
  }

  /** A text that does not convert leaves the initial value of its type behind. */
  function ReadBasic(env: Env, s: State, full: string, k: Kind, text: string): State
    requires PropNameIsValid(full) && Components(full) in s.tree
  {
    match ScalarFromText(env, k, text)
    case None =>
      s.(tree := PutLayer(s.tree, Components(full), s.system, Some(One(InitialScalar(k)))), verdict := ParseError)
    case Some(x) =>
      s.(tree := PutLayer(s.tree, Components(full), s.system, Some(One(x))), elem := ElemProperty, path := full)
  }

  // ---------- <value> ----------

  predicate HasList(t: Tree, name: string, system: bool) {
    PropNameIsValid(name) && Components(name) in t
    && Layer(t[Components(name)], system).Some? && Layer(t[Components(name)], system).value.Array?
  }

  function AppendItem(t: Tree, name: string, system: bool, x: Scalar): Tree
    requires HasList(t, name, system)
  {
    var p := Components(name);
    PutLayer(t, p, system, Some(Array(Layer(t[p], system).value.items + [x])))
  }

  function ValueStep(env: Env, s: State, attrs: seq<Attr>): State
    requires s.list.Some?
  {
    if !OnlyKeys(attrs, VALUE_KEYS) then s.(verdict := ParseError) else ReadItemTag(env, s, FieldsOf(attrs))
  }

  function ReadItemTag(env: Env, s: State, f: Fields): State
    requires s.list.Some?
  {
    if f.type_.None? then s.(verdict := Undefined)
    else if !TypeFromString(f.type_.value).BasicType? then s.(verdict := ParseError)
    else if f.text.None? || !HasList(s.tree, s.list.value, s.system) then s.(verdict := Undefined)
    else ReadItem(env, s, TypeFromString(f.type_.value).kind, f.text.value)
  }

  function ReadItem(env: Env, s: State, k: Kind, text: string): State
    requires s.list.Some? && HasList(s.tree, s.list.value, s.system)
  {
    match ScalarFromText(env, k, text)
    case None => s.(verdict := ParseError)
    case Some(x) => s.(tree := AppendItem(s.tree, s.list.value, s.system, x), elem := ElemValue)
  }

  // ---------- start and end of elements ----------

  function StartStep(env: Env, s: State, element: string, attrs: seq<Attr>): State {
    match s.elem
    case ElemNone => if element != "channel" then s.(verdict := ParseError) else ChannelStep(env, s, attrs)
    case ElemChannel =>
      if element == "property" then PropertyStep(env, s, attrs) else s.(verdict := ParseError)
    case ElemProperty =>
      if element == "property" then PropertyStep(env, s, attrs)
      else if s.list.Some? && element == "value" then ValueStep(env, s, attrs)
      else s.(verdict := ParseError)
    case ElemValue => s.(verdict := ParseError)
  }

  function EndStep(s: State): State {
    match s.elem
    case ElemNone => s
    case ElemChannel => s.(elem := ElemNone, path := "")
    case ElemValue => s.(elem := ElemProperty)
    case ElemProperty =>
      var i := LastSlash(s.path);
      if i < 0 then s.(list := None, elem := ElemChannel)
      else s.(list := None, path := s.path[..i], elem := if i == 0 then ElemChannel else ElemProperty)
  }

  /** Parsing stops at the first error. */
  function Step(env: Env, s: State, e: Event): State {
    if s.verdict != Going then s
    else
      match e
      case Start(element, attrs) => StartStep(env, s, element, attrs)
      case End => EndStep(s)
  }

  function Run(env: Env, s: State, events: seq<Event>): State {
    if events == [] then s
    else Step(env, Run(env, s, events[..|events| - 1]), events[|events| - 1])
  }

  lemma {:induction false} RunConcat(env: Env, s: State, a: seq<Event>, b: seq<Event>)
    ensures Run(env, s, a + b) == Run(env, Run(env, s, a), b)
  {
    if b == [] {
      assert a + b == a;
    } else {
      var n := |b| - 1;
      RunConcat(env, s, a, b[..n]);
      assert (a + b)[..|a + b| - 1] == a + b[..n];
    }
  }

  lemma {:induction false} Stopped(env: Env, s: State, events: seq<Event>)
    requires s.verdict != Going
    ensures Run(env, s, events) == s
  {
    if events != [] {
      Stopped(env, s, events[..|events| - 1]);
    }
  }

  lemma RunOne(env: Env, s: State, e: Event)
    ensures Run(env, s, [e]) == Step(env, s, e)
  {
    assert [e][..0] == [];
    assert Run(env, s, []) == s;
  }
}
