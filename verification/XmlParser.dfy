/** The parser of channel files, filling the linked tree in place
    (esconfd/esconf-backend-perchannel-xml.c). */
module XmlParser {
  import opened Base
  import opened Values
  import opened Names
  import opened TreeModel
  import opened FlatMaps
  import opened XmlText
  import opened XmlSpec
  import opened XmlInvariants
  import opened Proptree

  /** The loop over the attributes that every handler starts with. */
  method CollectAttrs(attrs: seq<Attr>, keys: set<string>) returns (known: bool, f: Fields)
    ensures known == OnlyKeys(attrs, keys) && (known ==> f == FieldsOf(attrs))
  {
    f := Fields(None, None, None, None, None, None);
    var i := 0;
    while i < |attrs|
      invariant 0 <= i <= |attrs| && OnlyKeys(attrs[..i], keys) && f == FieldsOf(attrs[..i])
    {
      var a := attrs[i];
      assert attrs[..i + 1][..i] == attrs[..i] && attrs[..i + 1][i] == a;
      if a.key !in keys {
        return false, f;
      }
      f := match a.key
        case "name" => f.(name := Some(a.text))
        case "version" => f.(version := Some(a.text))
        case "type" => f.(type_ := Some(a.text))
        case "value" => f.(text := Some(a.text))
        case "locked" => f.(locked := Some(a.text))
        case "unlocked" => f.(unlocked := Some(a.text))
        case _ => f;
      i := i + 1;
    }
    assert attrs[..|attrs|] == attrs;
    known := true;
  }

  lemma EmptyTreeOk()
    ensures TreeOk(EMPTY_TREE, true)
  {
  }

  /** XmlParserState. */
  class Parser {
    const env: Env
    const channel: EsconfChannel
    const isSystemFile: bool
    var curElem: Elem
    var curPath: string
    var listProperty: Option<string>
    var listValue: GNode?
    var verdict: Verdict

    ghost function Now(): State
      reads this, channel`tree, channel`locked
    {
      State(curElem, curPath, listProperty, isSystemFile, channel.tree, channel.locked, verdict)
    }

    ghost predicate Valid()
      reads this, channel`root, channel`nodes, channel`Repr, channel`tree, channel`order, channel`locked, channel.Repr
    {
      channel.Valid() && ListHeld() && Sound(Now())
    }

    constructor (env: Env, channel: EsconfChannel, isSystemFile: bool)
      requires channel.Valid() && TreeOk(channel.tree, isSystemFile) && !(channel.locked && !isSystemFile)
      ensures this.env == env && this.channel == channel && Valid()
      ensures Now() == Fresh(channel.tree, channel.locked, isSystemFile)
    {
      this.env, this.channel, this.isSystemFile := env, channel, isSystemFile;
      curElem, curPath := ElemNone, "";
      listProperty, listValue, verdict := None, null, Going;
    }

    /** An error is reported: GMarkup stops. */
    method Fail(v: Verdict)
      requires channel.Valid() && v != Going
      modifies this`verdict
      ensures channel.Valid() && ListHeld() && Now() == old(Now()).(verdict := v)
      ensures channel.Repr == old(channel.Repr)
    {
      verdict := v;
    }

    /** `esconf_xml_handle_channel`. */
    method HandleChannel(attrs: seq<Attr>)
      requires channel.Valid() && verdict == Going && listProperty == None
      modifies this, channel`root, channel`nodes, channel`Repr, channel`tree, channel`order, channel`locked
      ensures channel.Valid() && ListHeld() && fresh(channel.Repr - old(channel.Repr))
      ensures Now() == ChannelStep(env, old(Now()), attrs)
    {
      var known, f := CollectAttrs(attrs, CHANNEL_KEYS);
      if !known || Text(f.name) == "" || !VersionOk(Text(f.version)) {
        Fail(ParseError);
        return;
      }
      EnterChannelTag(DirectiveOf(env, f));
    }

    method EnterChannelTag(lock: Option<bool>)
      requires channel.Valid() && verdict == Going && listProperty == None
      modifies this, channel`root, channel`nodes, channel`Repr, channel`tree, channel`order, channel`locked
      ensures channel.Valid() && ListHeld() && fresh(channel.Repr - old(channel.Repr))
      ensures Now() == EnterChannel(old(Now()), lock)
    {
      if lock.Some? {
        if !isSystemFile || (channel.locked && !lock.value) {
          verdict := ParseError;
          return;
        }
        if !channel.locked && lock.value {
          channel.Discard();
          channel.locked := true;
        }
      }
      curElem := ElemChannel;
    }

    /** First part of `esconf_xml_handle_property`: the node, emptied or new, or null if the element
        is passed over. */
    method OpenNode(fullpath: string) returns (prop: GNode?)
      requires channel.Valid() && PropNameIsValid(fullpath) && |fullpath| < MAX_PROP_PATH
      modifies channel`nodes, channel`Repr, channel`tree, channel`order
      modifies channel.Repr`value, channel.Repr`system, channel.Repr`locked, channel.Repr`children
      ensures channel.Valid() && fresh(channel.Repr - old(channel.Repr)) && old(channel.Repr) <= channel.Repr
      ensures Extends(old(channel.nodes), channel.nodes)
      ensures match OpenProperty(old(channel.tree), Components(fullpath), channel.locked, isSystemFile)
        case None => prop == null && channel.tree == old(channel.tree)
        case Some(t) => prop != null && channel.Has(prop) && prop.path == Components(fullpath) && channel.tree == t
    {
      prop := channel.LookupNode(fullpath);
      if prop == null {
        prop := channel.AddProperty(fullpath, None, channel.locked);
      } else {
        assert channel.Placed(Components(fullpath));
        channel.IsRoot(prop);
        if !channel.locked && prop.locked && !isSystemFile {
          return null;
        }
        channel.PutData(prop, Data(None, if channel.locked || isSystemFile then None else prop.system, prop.locked));
      }
    }

    /** The open array's value is the one `listValue` points into. */
    ghost predicate ListHeld()
      reads this, channel`nodes, channel`Repr, channel`tree
    {
      verdict == Going && listProperty.Some? ==>
        && listValue != null && channel.Has(listValue)
        && PropNameIsValid(listProperty.value) && listValue.path == Components(listProperty.value)
    }

    /** Sets the value in the layer that is being read. */
    method SetLayer(node: GNode, v: Option<Value>)
      requires channel.Valid() && ListHeld() && channel.Has(node)
      modifies channel`tree, node`value, node`system, node`locked
      ensures channel.Valid() && ListHeld() && channel.tree == PutLayer(old(channel.tree), node.path, isSystemFile, v)
    {
      channel.IsRoot(node);
      var value, system := if isSystemFile then node.value else v, if isSystemFile then v else node.system;
      channel.PutData(node, Data(value, system, node.locked));
    }

    method Enter(fullpath: string)
      requires channel.Valid() && ListHeld()
      modifies this`curPath, this`curElem
      ensures channel.Valid() && ListHeld() && Now() == old(Now()).(elem := ElemProperty, path := fullpath)
    {
      MoveTo(ElemProperty, fullpath);
    }

    method MoveTo(elem: Elem, path: string)
      requires channel.Valid() && ListHeld()
      modifies this`curPath, this`curElem
      ensures channel.Valid() && ListHeld() && Now() == old(Now()).(elem := elem, path := path)
    {
      curPath := path;
      curElem := elem;
    }

    /** Type and value of a property: the last part of `esconf_xml_handle_property`. */
    method ReadNode(prop: GNode, fullpath: string, f: Fields)
      requires channel.Valid() && ListHeld() && channel.Has(prop)
      requires PropNameIsValid(fullpath) && prop.path == Components(fullpath)
      modifies this, channel`tree, prop`value, prop`system, prop`locked
      ensures channel.Valid() && ListHeld()
      ensures Now() == ReadProperty(env, old(Now()), fullpath, f)
    {
      match TypeFromString(Text(f.type_)) {
        case InvalidType =>
          Fail(ParseError);
        case EmptyType =>
          Enter(fullpath);
        case ArrayType =>
          ReadArray(prop, fullpath);
        case BasicType(k) =>
          if f.text.None? {
            Fail(Undefined);
          } else {
            ReadText(prop, fullpath, k, f.text.value);
          }
      }
    }

    method ReadArray(prop: GNode, fullpath: string)
      requires channel.Valid() && ListHeld() && channel.Has(prop)
      requires PropNameIsValid(fullpath) && prop.path == Components(fullpath)
      modifies this`curPath, this`curElem, this`listProperty, this`listValue
      modifies channel`tree, prop`value, prop`system, prop`locked
      ensures channel.Valid() && ListHeld()
      ensures Now() == old(Now()).(elem := ElemProperty, path := fullpath, list := Some(fullpath),
        tree := PutLayer(old(channel.tree), prop.path, isSystemFile, Some(Array([]))))
    {
      SetLayer(prop, Some(Array([])));
      OpenList(prop, fullpath);
      Enter(fullpath);
    }

    method OpenList(prop: GNode, fullpath: string)
      requires channel.Valid() && channel.Has(prop) && PropNameIsValid(fullpath) && prop.path == Components(fullpath)
      modifies this`listProperty, this`listValue
      ensures channel.Valid() && ListHeld() && Now() == old(Now()).(list := Some(fullpath))
    {
      listProperty := Some(fullpath);
      listValue := prop;
    }

    method ReadText(prop: GNode, fullpath: string, k: Kind, text: string)
      requires channel.Valid() && ListHeld() && channel.Has(prop)
      requires PropNameIsValid(fullpath) && prop.path == Components(fullpath)
      modifies this`curPath, this`curElem, this`verdict, channel`tree, prop`value, prop`system, prop`locked
      ensures channel.Valid() && ListHeld()
      ensures Now() == ReadBasic(env, old(Now()), fullpath, k, text)
    {
      var x := ScalarFromText(env, k, text);
      SetLayer(prop, Some(One(if x.Some? then x.value else InitialScalar(k))));
      if x.None? {
        Fail(ParseError);
      } else {
        Enter(fullpath);
      }
    }

    /** The lock attributes of a property: the middle part. */
    method FillNode(prop: GNode, fullpath: string, f: Fields)
      requires channel.Valid() && ListHeld() && channel.Has(prop) && RootBlank(channel.tree)
      requires PropNameIsValid(fullpath) && prop.path == Components(fullpath)
      requires channel.tree[prop.path].user == None
      modifies this, channel`nodes, channel`tree, channel`order, channel.Repr
      ensures channel.Valid() && ListHeld() && channel.Repr == old(channel.Repr)
      ensures Now() == FillProperty(env, old(Now()), fullpath, f)
    {
      var lock := DirectiveOf(env, f);
      if lock.Some? && !isSystemFile {
        RefuseLock(prop, fullpath);
      } else {
        SetLock(prop, lock);
        ReadNode(prop, fullpath, f);
      }
    }

    /** The reset on this error finds no user value, and does nothing. */
    method RefuseLock(prop: GNode, fullpath: string)
      requires channel.Valid() && channel.Has(prop) && RootBlank(channel.tree)
      requires PropNameIsValid(fullpath) && prop.path == Components(fullpath)
      requires channel.tree[prop.path].user == None
      modifies this`verdict, channel`nodes, channel`tree, channel`order, channel.Repr
      ensures channel.Valid() && channel.Repr == old(channel.Repr)
      ensures channel.tree == old(channel.tree) && verdict == ParseError
    {
      var found := channel.ResetSingle(fullpath);
      verdict := ParseError;
    }

    method SetLock(node: GNode, lock: Option<bool>)
      requires channel.Valid() && ListHeld() && channel.Has(node)
      modifies channel`tree, node`value, node`system, node`locked
      ensures channel.Valid() && ListHeld()
      ensures channel.tree == LockProperty(old(channel.tree), node.path, lock, channel.locked)
    {
      if lock.Some? {
        channel.IsRoot(node);
        channel.PutData(node, Data(node.value, node.system, channel.locked || lock.value));
      }
    }

    /** `esconf_xml_handle_property`. */
    method HandleProperty(attrs: seq<Attr>)
      requires Valid() && verdict == Going
      modifies this, channel`nodes, channel`Repr, channel`tree, channel`order, channel.Repr
      ensures channel.Valid() && ListHeld() && fresh(channel.Repr - old(channel.Repr))
      ensures Now() == PropertyStep(env, old(Now()), attrs)
    {
      var known, f := CollectAttrs(attrs, PROPERTY_KEYS);
      if !known || Text(f.name) == "" || Text(f.type_) == "" {
        Fail(ParseError);
        return;
      }
      var fullpath := curPath + "/" + Text(f.name);
      if |fullpath| >= MAX_PROP_PATH || (channel.locked && !isSystemFile) || !PropNameIsValid(fullpath) {
        Fail(Undefined);
        return;
      }
      EnterNode(fullpath, f);
    }

    method EnterNode(fullpath: string, f: Fields)
      requires Valid() && PropNameIsValid(fullpath) && |fullpath| < MAX_PROP_PATH
      modifies this, channel`nodes, channel`Repr, channel`tree, channel`order, channel.Repr
      ensures channel.Valid() && ListHeld() && fresh(channel.Repr - old(channel.Repr))
      ensures Now() == EnterProperty(env, old(Now()), fullpath, f)
    {
      OpenedRoot(Now(), fullpath);
      var prop := OpenNode(fullpath);
      if prop == null {
        Enter(fullpath);
      } else {
        FillNode(prop, fullpath, f);
      }
    }

    /** `esconf_xml_handle_value`. */
    method HandleValue(attrs: seq<Attr>)
      requires channel.Valid() && ListHeld() && verdict == Going && listProperty.Some?
      requires HasList(channel.tree, listProperty.value, isSystemFile)
      modifies this`curElem, this`verdict
      modifies channel`tree, channel.Repr`value, channel.Repr`system, channel.Repr`locked
      ensures channel.Valid() && ListHeld() && channel.Repr == old(channel.Repr)
      ensures Now() == ValueStep(env, old(Now()), attrs)
    {
      var known, f := CollectAttrs(attrs, VALUE_KEYS);
      if !known {
        Fail(ParseError);
        return;
      }
      ReadItemTag(f);
    }

    /** The attributes of the item. */
    method ReadItemTag(f: Fields)
      requires channel.Valid() && ListHeld() && verdict == Going && listProperty.Some?
      requires HasList(channel.tree, listProperty.value, isSystemFile)
      modifies this`curElem, this`verdict
      modifies channel`tree, channel.Repr`value, channel.Repr`system, channel.Repr`locked
      ensures channel.Valid() && ListHeld()
      ensures Now() == XmlSpec.ReadItemTag(env, old(Now()), f)
    {
      if f.type_.None? {
        Fail(Undefined);
        return;
      }
      var valueType := TypeFromString(f.type_.value);
      if !valueType.BasicType? {
        Fail(ParseError);
        return;
      }
      if f.text.None? {
        Fail(Undefined);
        return;
      }
      AddItem(valueType.kind, f.text.value);
    }

    /** Converts the text of an item and adds it to the open array. */
    method AddItem(k: Kind, text: string)
      requires channel.Valid() && ListHeld() && verdict == Going && listProperty.Some?
      requires HasList(channel.tree, listProperty.value, isSystemFile)
      modifies this`curElem, this`verdict
      modifies channel`tree, channel.Repr`value, channel.Repr`system, channel.Repr`locked
      ensures channel.Valid() && ListHeld()
      ensures Now() == ReadItem(env, old(Now()), k, text)
    {
      var x := ScalarFromText(env, k, text);
      if x.None? {
        Fail(ParseError);
        return;
      }
      AppendToList(x.value);
      curElem := ElemValue;
    }

    /** g_ptr_array_add. */
    method AppendToList(x: Scalar)
      requires channel.Valid() && ListHeld() && verdict == Going && listProperty.Some?
      requires HasList(channel.tree, listProperty.value, isSystemFile)
      modifies channel`tree, channel.Repr`value, channel.Repr`system, channel.Repr`locked
      ensures channel.Valid() && ListHeld()
      ensures channel.tree == AppendItem(old(channel.tree), listProperty.value, isSystemFile, x)
    {
      channel.IsRoot(listValue);
      var arr := if isSystemFile then listValue.system.value else listValue.value.value;
      SetLayer(listValue, Some(Array(arr.items + [x])));
    }

    /** `esconf_backend_perchannel_xml_start_elem`. */
    method StartElem(element: string, attrs: seq<Attr>)
      requires Valid() && verdict == Going
      modifies this, channel`root, channel`nodes, channel`Repr, channel`tree, channel`order, channel`locked
      modifies channel.Repr
      ensures channel.Valid() && ListHeld() && fresh(channel.Repr - old(channel.Repr))
      ensures Now() == StartStep(env, old(Now()), element, attrs)
    {
      match curElem {
        case ElemNone =>
          if element != "channel" {
            Fail(ParseError);
          } else {
            HandleChannel(attrs);
          }
        case ElemChannel =>
          if element == "property" {
            HandleProperty(attrs);
          } else {
            Fail(ParseError);
          }
        case ElemProperty =>
          if element == "property" {
            HandleProperty(attrs);
          } else if listProperty.Some? && listValue != null && element == "value" {
            HandleValue(attrs);
          } else {
            Fail(ParseError);
          }
        case ElemValue =>
          Fail(ParseError);
      }
    }

    /** `esconf_backend_perchannel_xml_end_elem`. */
    method EndElem()
      requires channel.Valid() && ListHeld() && verdict == Going
      modifies this
      ensures channel.Valid() && ListHeld() && Now() == EndStep(old(Now()))
    {
      match curElem {
        case ElemChannel =>
          MoveTo(ElemNone, "");
        case ElemProperty =>
          EndProperty();
        case ElemValue =>
          MoveTo(ElemProperty, curPath);
        case ElemNone =>
      }
    }

    /** The last component leaves the path, and the array is closed. */
    method EndProperty()
      requires channel.Valid() && verdict == Going && curElem == ElemProperty
      modifies this
      ensures channel.Valid() && ListHeld() && Now() == EndStep(old(Now()))
    {
      listProperty := None;
      listValue := null;
      var p := LastSlash(curPath);
      curElem := if p > 0 then ElemProperty else ElemChannel;
      if p >= 0 {
        curPath := curPath[..p];
      }
    }

    /** One element event. */
    method Handle(e: Event)
      requires Valid() && verdict == Going
      modifies this, channel`root, channel`nodes, channel`Repr, channel`tree, channel`order, channel`locked
      modifies channel.Repr
      ensures Valid() && fresh(channel.Repr - old(channel.Repr))
      ensures Now() == Step(env, old(Now()), e)
    {
      SoundStep(env, Now(), e);
      match e {
        case Start(element, attrs) => StartElem(element, attrs);
        case End => EndElem();
      }
    }
  }

  lemma OpenedRoot(s: State, full: string)
    requires Sound(s) && PropNameIsValid(full)
    ensures Components(full) != []
    ensures var r := OpenProperty(s.tree, Components(full), s.locked, s.system); r.Some? ==> RootBlank(r.value)
  {
    if OpenProperty(s.tree, Components(full), s.locked, s.system).Some? {
      OpenKeeps(s.tree, Components(full), s.locked, s.system);
    }
  }
}
