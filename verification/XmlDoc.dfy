/** Channel files as documents: what parsing a well-formed file does to the tree, element by
    element (esconfd/esconf-backend-perchannel-xml.c). */
module XmlDoc {
  import opened Base
  import opened Names
  import opened TreeModel
  import opened XmlText
  import opened XmlSpec

  datatype PropElem = PropElem(name: string, payload: Payload, locked: string, unlocked: string, children: Props)

  /** Sibling elements, last one outermost. */
  datatype Props = NoProps | More(front: Props, last: PropElem)

  datatype Doc = Doc(name: string, locked: string, unlocked: string, props: Props)

  // ---------- documents as events ----------

  function LockAttrs(locked: string, unlocked: string): seq<Attr> {
    (if locked != "" then [Attr("locked", locked)] else [])
    + (if unlocked != "" then [Attr("unlocked", unlocked)] else [])
  }

  function PayloadType(p: Payload): Type {
    match p
    case Branch => EmptyType
    case Basic(item) => BasicType(item.kind)
    case Items(_) => ArrayType
  }

  function PayloadAttrs(p: Payload): seq<Attr> {
    [Attr("type", TypeName(PayloadType(p)))] + if p.Basic? then [Attr("value", p.item.text)] else []
  }

  function ElemAttrs(e: PropElem): seq<Attr> {
    [Attr("name", e.name)] + PayloadAttrs(e.payload) + LockAttrs(e.locked, e.unlocked)
  }

  function ItemAttrs(item: Item): seq<Attr> {
    [Attr("type", KindName(item.kind)), Attr("value", item.text)]
  }

  function ItemEvents(items: seq<Item>): seq<Event> {
    if items == [] then []
    else
      var n := |items| - 1;
      ItemEvents(items[..n]) + [Start("value", ItemAttrs(items[n])), End]
  }

  function PayloadEvents(p: Payload): seq<Event> {
    if p.Items? then ItemEvents(p.items) else []
  }

  function ElemEvents(e: PropElem): seq<Event> {
    [Start("property", ElemAttrs(e))] + PayloadEvents(e.payload) + PropsEvents(e.children) + [End]
  }

  function PropsEvents(ps: Props): seq<Event> {
    match ps
    case NoProps => []
    case More(front, last) => PropsEvents(front) + ElemEvents(last)
  }

  function ChannelAttrs(d: Doc): seq<Attr> {
    [Attr("name", d.name), Attr("version", "1.0")] + LockAttrs(d.locked, d.unlocked)
  }

  function FileEvents(d: Doc): seq<Event> {
    [Start("channel", ChannelAttrs(d))] + PropsEvents(d.props) + [End]
  }

  // ---------- documents as lists of entries ----------

  /** One property element: where, what, and its lock directive. */
  datatype Entry = Entry(path: Path, payload: Payload, lock: Option<bool>)

  function Entries(env: Env, prefix: Path, e: PropElem): seq<Entry>
    decreases e
  {
    [Entry(prefix + [e.name], e.payload, Directive(env, e.locked, e.unlocked))]
    + EntriesAll(env, prefix + [e.name], e.children)
  }

  function EntriesAll(env: Env, prefix: Path, ps: Props): seq<Entry>
    decreases ps
  {
    match ps
    case NoProps => []
    case More(front, last) => EntriesAll(env, prefix, front) + Entries(env, prefix, last)
  }

  predicate GoodEntry(env: Env, e: Entry) {
    e.path != [] && GoodPayload(env, e.payload)
  }

  predicate GoodEntries(env: Env, es: seq<Entry>) {
    forall i :: 0 <= i < |es| ==> GoodEntry(env, es[i])
  }

  /** What an element does to the tree. */
  function PutEntry(env: Env, t: Tree, locked: bool, system: bool, e: Entry): Tree
    requires GoodEntry(env, e)
  {
    match OpenProperty(t, e.path, locked, system)
    case None => t
    case Some(t1) =>
      PutLayer(LockProperty(t1, e.path, e.lock, locked), e.path, system, PayloadValue(env, e.payload))
  }

  function PutAll(env: Env, t: Tree, locked: bool, system: bool, es: seq<Entry>): Tree
    requires GoodEntries(env, es)
  {
    if es == [] then t
    else
      var n := |es| - 1;
      PutEntry(env, PutAll(env, t, locked, system, es[..n]), locked, system, es[n])
  }

  lemma {:induction false} PutAllConcat(env: Env, t: Tree, locked: bool, system: bool, a: seq<Entry>, b: seq<Entry>)
    requires GoodEntries(env, a) && GoodEntries(env, b)
    ensures GoodEntries(env, a + b)
    ensures PutAll(env, t, locked, system, a + b) == PutAll(env, PutAll(env, t, locked, system, a), locked, system, b)
  {
    if b == [] {
      assert a + b == a;
    } else {
      var n := |b| - 1;
      PutAllConcat(env, t, locked, system, a, b[..n]);
      assert (a + b)[..|a + b| - 1] == a + b[..n];
    }
  }

  // ---------- good documents ----------

  predicate GoodName(c: string) {
    c != "" && SlashFree(c)
  }

  predicate GoodPath(p: Path) {
    forall i :: 0 <= i < |p| ==> GoodName(p[i])
  }

  /** The element parses: its name is a component, its path fits, its texts convert, and only system
      files carry lock directives. */
  predicate GoodElem(env: Env, prefix: Path, system: bool, e: PropElem)
    decreases e
  {
    && GoodName(e.name) && |Join(prefix + [e.name])| < MAX_PROP_PATH && GoodPayload(env, e.payload)
    && (system || (e.locked == "" && e.unlocked == ""))
    && GoodProps(env, prefix + [e.name], system, e.children)
  }

  predicate GoodProps(env: Env, prefix: Path, system: bool, ps: Props)
    decreases ps
  {
    match ps
    case NoProps => true
    case More(front, last) => GoodProps(env, prefix, system, front) && GoodElem(env, prefix, system, last)
  }

  lemma {:induction false} ElemEntriesGood(env: Env, prefix: Path, system: bool, e: PropElem)
    requires GoodElem(env, prefix, system, e)
    ensures GoodEntries(env, Entries(env, prefix, e))
    decreases e, 0
  {
    PropsEntriesGood(env, prefix + [e.name], system, e.children);
  }

  lemma {:induction false} PropsEntriesGood(env: Env, prefix: Path, system: bool, ps: Props)
    requires GoodProps(env, prefix, system, ps)
    ensures GoodEntries(env, EntriesAll(env, prefix, ps))
    decreases ps, 0
  {
    if ps.More? {
      PropsEntriesGood(env, prefix, system, ps.front);
      ElemEntriesGood(env, prefix, system, ps.last);
    }
  }

  /** In a user file, an array on a locked node would be trouble (see `LockedArrayStops`). */
  predicate Harmless(t: Tree, system: bool, e: Entry) {
    !system && e.path in t && t[e.path].locked ==> !(e.payload.Items? && e.payload.items != [])
  }

  predicate AllHarmless(t: Tree, system: bool, es: seq<Entry>) {
    forall i :: 0 <= i < |es| ==> Harmless(t, system, es[i])
  }

  // ---------- reading the attributes ----------

  lemma FindLast(attrs: seq<Attr>, a: Attr, key: string)
    ensures FindAttr(attrs + [a], key) == if a.key == key then Some(a.text) else FindAttr(attrs, key)
  {
    assert (attrs + [a])[..|attrs|] == attrs;
  }

  lemma FindLock(attrs: seq<Attr>, locked: string, unlocked: string, key: string)
    ensures var r := FindAttr(attrs + LockAttrs(locked, unlocked), key);
      && (key != "locked" && key != "unlocked" ==> r == FindAttr(attrs, key))
      && (FindAttr(attrs, key) == None && key == "locked" ==> Text(r) == locked)
      && (FindAttr(attrs, key) == None && key == "unlocked" ==> Text(r) == unlocked)
  {
    var a1 := if locked != "" then attrs + [Attr("locked", locked)] else attrs;
    FindLast(attrs, Attr("locked", locked), key);
    FindLast(a1, Attr("unlocked", unlocked), key);
    assert attrs + LockAttrs(locked, unlocked) == if unlocked != "" then a1 + [Attr("unlocked", unlocked)] else a1;
  }

  lemma PayloadAttrsRead(name: string, p: Payload, key: string)
    ensures FindAttr([Attr("name", name)] + PayloadAttrs(p), key) ==
      if key == "value" && p.Basic? then Some(p.item.text)
      else if key == "type" then Some(TypeName(PayloadType(p)))
      else if key == "name" then Some(name)
      else None
  {
    var a0: seq<Attr> := [];
    var named := Attr("name", name);
    var typed := Attr("type", TypeName(PayloadType(p)));
    FindLast(a0, named, key);
    assert a0 + [named] == [named];
    FindLast([named], typed, key);
    if p.Basic? {
      FindLast([named] + [typed], Attr("value", p.item.text), key);
      assert [named] + PayloadAttrs(p) == [named] + [typed] + [Attr("value", p.item.text)];
    } else {
      assert [named] + PayloadAttrs(p) == [named] + [typed];
    }
  }

  /** What the handler of <property> collects from an element. */
  lemma ElemAttrsRead(e: PropElem)
    ensures var f := FieldsOf(ElemAttrs(e));
      && OnlyKeys(ElemAttrs(e), PROPERTY_KEYS)
      && f.name == Some(e.name) && f.type_ == Some(TypeName(PayloadType(e.payload)))
      && f.text == (if e.payload.Basic? then Some(e.payload.item.text) else None)
      && Text(f.locked) == e.locked && Text(f.unlocked) == e.unlocked
  {
    var attrs := [Attr("name", e.name)] + PayloadAttrs(e.payload);
    FindLock(attrs, e.locked, e.unlocked, "name");
    FindLock(attrs, e.locked, e.unlocked, "type");
    FindLock(attrs, e.locked, e.unlocked, "value");
    FindLock(attrs, e.locked, e.unlocked, "locked");
    FindLock(attrs, e.locked, e.unlocked, "unlocked");
    PayloadAttrsRead(e.name, e.payload, "name");
    PayloadAttrsRead(e.name, e.payload, "type");
    PayloadAttrsRead(e.name, e.payload, "value");
    PayloadAttrsRead(e.name, e.payload, "locked");
    PayloadAttrsRead(e.name, e.payload, "unlocked");
  }

  lemma ItemAttrsRead(item: Item)
    ensures var f := FieldsOf(ItemAttrs(item));
      && OnlyKeys(ItemAttrs(item), VALUE_KEYS)
      && f.type_ == Some(KindName(item.kind)) && f.text == Some(item.text)
  {
    var a, b := Attr("type", KindName(item.kind)), Attr("value", item.text);
    assert ItemAttrs(item) == [a] + [b] && [a] == [] + [a];
    FindLast([a], b, "type");
    FindLast([a], b, "value");
    FindLast([], a, "type");
  }

  lemma ChannelAttrsRead(d: Doc)
    ensures var f := FieldsOf(ChannelAttrs(d));
      && OnlyKeys(ChannelAttrs(d), CHANNEL_KEYS)
      && f.name == Some(d.name) && f.version == Some("1.0")
      && Text(f.locked) == d.locked && Text(f.unlocked) == d.unlocked
  {
    var a, b := Attr("name", d.name), Attr("version", "1.0");
    var attrs := [a, b];
    assert attrs == [a] + [b] && [a] == [] + [a];
    FindLock(attrs, d.locked, d.unlocked, "name");
    FindLock(attrs, d.locked, d.unlocked, "version");
    FindLock(attrs, d.locked, d.unlocked, "locked");
    FindLock(attrs, d.locked, d.unlocked, "unlocked");
    forall key
      ensures FindAttr(attrs, key) ==
        if key == "version" then Some("1.0") else if key == "name" then Some(d.name) else None
    {
      FindLast([a], b, key);
      FindLast([], a, key);
    }
  }

  // ---------- names ----------

  lemma {:induction false} GoodPathJoins(p: Path)
    requires GoodPath(p) && p != []
    ensures PropNameIsValid(Join(p)) && AllSlashFree(p) && Components(Join(p)) == p
    ensures Join(p)[|Join(p)| - 1] != '/'
  {
    var n := |p| - 1;
    var front, last := Join(p[..n]), p[n];
    var s := Join(p);
    assert s == front + "/" + last && GoodName(last);
    assert s[|s| - 1] == last[|last| - 1];
    forall i | 0 <= i < |p|
      ensures SlashFree(p[i])
    {
      assert GoodName(p[i]);
    }
    ComponentsOfJoin(p);
    if n > 0 {
      GoodPathJoins(p[..n]);
    }
    forall i | 1 <= i < |s|
      ensures !(s[i] == '/' && s[i - 1] == '/')
    {
      if i < |front| {
        assert s[i] == front[i] && s[i - 1] == front[i - 1];
      } else if i > |front| {
        assert s[i] == last[i - |front| - 1];
      }
    }
  }
}
