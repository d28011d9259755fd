/** Which tags the parser accepts, in terms of their attributes (esconfd/esconf-backend-perchannel-xml.c,
    `esconf_xml_handle_channel`, `..._property`, `..._value`). */
module Tags {
  import opened Base
  import opened Values
  import opened Names
  import opened TreeModel
  import opened XmlText
  import opened XmlSpec

  // ---------- attributes ----------

  /** `a` stands at `i`, and no attribute of its name behind it. */
  predicate IsLast(attrs: seq<Attr>, i: int, a: Attr) {
    0 <= i < |attrs| && attrs[i] == a && forall j :: i < j < |attrs| ==> attrs[j].key != a.key
  }

  /** Of several attributes with the same name the last one counts. */
  lemma {:induction false} LastAttrCounts(attrs: seq<Attr>, key: string)
    ensures FindAttr(attrs, key) == None <==> forall i :: 0 <= i < |attrs| ==> attrs[i].key != key
    ensures FindAttr(attrs, key).Some? ==> exists i :: IsLast(attrs, i, Attr(key, FindAttr(attrs, key).value))
  {
    if attrs != [] {
      var n := |attrs| - 1;
      LastAttrCounts(attrs[..n], key);
      if attrs[n].key == key {
        assert IsLast(attrs, n, attrs[n]);
      } else if FindAttr(attrs, key).Some? {
        var a := Attr(key, FindAttr(attrs, key).value);
        var i :| IsLast(attrs[..n], i, a);
        assert IsLast(attrs, i, a);
      }
    }
  }

  /** An attribute that is missing and one that is empty mean the same. */
  function Given(attrs: seq<Attr>, key: string): string {
    Text(FindAttr(attrs, key))
  }

  /** The attributes lock for this user: "unlocked" names those who are exempt, and counts alone if it is
      there; "locked" names those who are meant. */
  predicate LocksUser(env: Env, locked: string, unlocked: string) {
    || (unlocked != "" && !env.inList(unlocked))
    || (unlocked == "" && locked != "" && env.inList(locked))
  }

  predicate Carries(locked: string, unlocked: string) {
    locked != "" || unlocked != ""
  }

  lemma DirectiveMeaning(env: Env, locked: string, unlocked: string)
    ensures Directive(env, locked, unlocked).Some? <==> Carries(locked, unlocked)
    ensures Directive(env, locked, unlocked) == Some(true) <==> LocksUser(env, locked, unlocked)
  {
  }

  // ---------- <channel> ----------

  /** Only versions "1" and "1.x", for any x, are read. */
  lemma VersionMeaning(version: string)
    ensures VersionOk(version) <==> version == "1" || "1." <= version
  {
    if VersionOk(version) && |version| > 1 {
      assert version[..2] == "1.";
    }
    if |version| == 1 {
      assert version == [version[0]];
    }
  }

  /** When the lock attributes of a channel tag are in order: they stand in a system file, and do not take
      back the lock of an earlier file. */
  predicate ChannelLockOk(env: Env, s: State, locked: string, unlocked: string) {
    Carries(locked, unlocked) ==> s.system && (s.locked ==> LocksUser(env, locked, unlocked))
  }

  /** A channel tag is accepted exactly if its attributes are known, it has a name and a version that is
      read, and its lock attributes are in order.  It locks the channel, and drops what was read before,
      exactly if it locks it for this user and no earlier file did; otherwise the tree stays. */
  lemma ChannelTagAccepted(env: Env, s: State, attrs: seq<Attr>)
    requires s.verdict == Going && s.elem == ElemNone
    ensures var s' := Step(env, s, Start("channel", attrs));
      var locks := LocksUser(env, Given(attrs, "locked"), Given(attrs, "unlocked"));
      && (s'.verdict == Going <==>
            && (forall i :: 0 <= i < |attrs| ==> attrs[i].key in {"name", "version", "locked", "unlocked"})
            && Given(attrs, "name") != ""
            && (Given(attrs, "version") == "1" || "1." <= Given(attrs, "version"))
            && ChannelLockOk(env, s, Given(attrs, "locked"), Given(attrs, "unlocked")))
      && (s'.verdict != Going ==> s' == s.(verdict := ParseError))
      && (s'.verdict == Going ==>
            s' == if locks && !s.locked then s.(elem := ElemChannel, locked := true, tree := EMPTY_TREE)
                  else s.(elem := ElemChannel))
  {
    VersionMeaning(Given(attrs, "version"));
    DirectiveMeaning(env, Given(attrs, "locked"), Given(attrs, "unlocked"));
  }

  // ---------- <property> ----------

  /** In a user file of an unlocked channel, a locked node is passed over. */
  predicate TagIgnored(s: State, p: Path) {
    !s.locked && !s.system && p in s.tree && s.tree[p].locked
  }

  /** The type of a property tag, and the value it needs. */
  predicate ContentOk(env: Env, type_: string, value: Option<string>) {
    match TypeFromString(type_)
    case InvalidType => false
    case BasicType(k) => value.Some? && ScalarFromText(env, k, value.value).Some?
    case _ => true
  }

  /** Only a system file may set a lock, and the value has to fit. */
  predicate ReadOk(env: Env, s: State, attrs: seq<Attr>) {
    && (Carries(Given(attrs, "locked"), Given(attrs, "unlocked")) ==> s.system)
    && ContentOk(env, Given(attrs, "type"), FindAttr(attrs, "value"))
  }

  /** A property tag whose full name is in order is accepted exactly if its attributes are known, it has a
      name and a type, and, unless the node is passed over, `ReadOk` holds. */
  lemma PropertyTagAccepted(env: Env, s: State, attrs: seq<Attr>)
    requires s.verdict == Going && (s.elem == ElemChannel || s.elem == ElemProperty) && !(s.locked && !s.system)
    requires var full := s.path + "/" + Given(attrs, "name"); PropNameIsValid(full) && |full| < MAX_PROP_PATH
    ensures var s' := Step(env, s, Start("property", attrs));
      var full := s.path + "/" + Given(attrs, "name");
      && (s'.verdict == Going <==>
            && (forall i :: 0 <= i < |attrs| ==> attrs[i].key in {"name", "type", "value", "locked", "unlocked"})
            && Given(attrs, "name") != "" && Given(attrs, "type") != ""
            && (TagIgnored(s, Components(full)) || ReadOk(env, s, attrs)))
      && (s'.verdict == Going ==> s'.elem == ElemProperty && s'.path == full)
      && (s'.verdict == Going && TagIgnored(s, Components(full)) ==> s'.tree == s.tree && s'.list == s.list)
  {
    var f := FieldsOf(attrs);
    DirectiveMeaning(env, Text(f.locked), Text(f.unlocked));
    EnterAccepted(env, s, s.path + "/" + Text(f.name), f);
  }

  predicate FieldsOk(env: Env, s: State, f: Fields) {
    (DirectiveOf(env, f).Some? ==> s.system) && ContentOk(env, Text(f.type_), f.text)
  }

  lemma EnterAccepted(env: Env, s: State, full: string, f: Fields)
    requires PropNameIsValid(full) && s.verdict == Going
    ensures var s' := EnterProperty(env, s, full, f);
      && (s'.verdict == Going <==> TagIgnored(s, Components(full)) || FieldsOk(env, s, f))
      && (s'.verdict == Going ==> s'.elem == ElemProperty && s'.path == full)
      && (TagIgnored(s, Components(full)) ==> s'.tree == s.tree && s'.list == s.list)
  {
    var t := OpenProperty(s.tree, Components(full), s.locked, s.system);
    if t.Some? {
      FillAccepted(env, s.(tree := t.value), full, f);
    }
  }

  lemma FillAccepted(env: Env, s: State, full: string, f: Fields)
    requires PropNameIsValid(full) && Components(full) in s.tree && s.verdict == Going
    ensures var s' := FillProperty(env, s, full, f);
      && (s'.verdict == Going <==> FieldsOk(env, s, f))
      && (s'.verdict == Going ==> s'.elem == ElemProperty && s'.path == full)
  {
    var t := LockProperty(s.tree, Components(full), DirectiveOf(env, f), s.locked);
    ReadAccepted(env, s.(tree := t), full, f);
  }

  lemma ReadAccepted(env: Env, s: State, full: string, f: Fields)
    requires PropNameIsValid(full) && Components(full) in s.tree && s.verdict == Going
    ensures var s' := ReadProperty(env, s, full, f);
      && (s'.verdict == Going <==> ContentOk(env, Text(f.type_), f.text))
      && (s'.verdict == Going ==> s'.elem == ElemProperty && s'.path == full)
  {
  }

  /** A property tag that is refused behind its opening leaves its node behind, emptied; a text that does
      not convert leaves the zero of its type there. */
  lemma RefusedLeavesNode(env: Env, s: State, full: string, f: Fields)
    requires PropNameIsValid(full) && s.verdict == Going && !TagIgnored(s, Components(full)) && !FieldsOk(env, s, f)
    requires !(s.locked && !s.system)
    ensures var s', p, type_ := EnterProperty(env, s, full, f), Components(full), TypeFromString(Text(f.type_));
      && p in s'.tree
      && Layer(s'.tree[p], s.system) ==
         if (DirectiveOf(env, f).Some? ==> s.system) && type_.BasicType? && f.text.Some?
         then Some(One(InitialScalar(type_.kind))) else None
  {
    var t := OpenProperty(s.tree, Components(full), s.locked, s.system);
    if t.Some? && (DirectiveOf(env, f).Some? ==> s.system) {
      RefusedText(env, s.(tree := LockProperty(t.value, Components(full), DirectiveOf(env, f), s.locked)), full, f);
    }
  }

  lemma RefusedText(env: Env, s: State, full: string, f: Fields)
    requires PropNameIsValid(full) && Components(full) in s.tree && Layer(s.tree[Components(full)], s.system) == None
    requires !ContentOk(env, Text(f.type_), f.text)
    ensures var s', p, type_ := ReadProperty(env, s, full, f), Components(full), TypeFromString(Text(f.type_));
      && p in s'.tree
      && Layer(s'.tree[p], s.system) ==
         if type_.BasicType? && f.text.Some? then Some(One(InitialScalar(type_.kind))) else None
  {
  }

  // ---------- <value>, and where tags may stand ----------

  /** An item is accepted exactly inside an open array, with known attributes, a basic type and a value
      that converts. */
  lemma ValueTagAccepted(env: Env, s: State, attrs: seq<Attr>)
    requires s.verdict == Going && (s.list.Some? ==> HasList(s.tree, s.list.value, s.system))
    ensures Step(env, s, Start("value", attrs)).verdict == Going <==>
      && s.elem == ElemProperty && s.list.Some?
      && (forall i :: 0 <= i < |attrs| ==> attrs[i].key in {"type", "value"})
      && ItemOk(env, FieldsOf(attrs))
  {
    if s.list.Some? && HasList(s.tree, s.list.value, s.system) {
      ItemAccepted(env, s, FieldsOf(attrs));
    }
  }

  predicate ItemOk(env: Env, f: Fields) {
    TypeFromString(Text(f.type_)).BasicType? && ContentOk(env, Text(f.type_), f.text)
  }

  lemma ItemAccepted(env: Env, s: State, f: Fields)
    requires s.verdict == Going && s.list.Some? && HasList(s.tree, s.list.value, s.system)
    ensures ReadItemTag(env, s, f).verdict == Going <==> ItemOk(env, f)
  {
  }

  /** A channel stands outermost, properties stand in the channel or in a property, items in a property;
      nothing else is accepted anywhere. */
  lemma TagsHaveTheirPlaces(env: Env, s: State, element: string, attrs: seq<Attr>)
    requires s.verdict == Going && Step(env, s, Start(element, attrs)).verdict == Going
    ensures match s.elem
      case ElemNone => element == "channel"
      case ElemChannel => element == "property"
      case ElemProperty => element == "property" || element == "value"
      case ElemValue => false
  {
  }
}
