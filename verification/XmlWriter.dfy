/** Writing the linked tree as element events (esconfd/esconf-backend-perchannel-xml.c,
    `esconf_format_xml_tag`, `..._write_node`, `..._flush_channel`). */
module XmlWriter {
  import opened Base
  import opened Values
  import opened TreeModel
  import opened TreeOrder
  import opened XmlText
  import opened XmlSpec
  import opened XmlDoc
  import opened TreeFile
  import opened FlatMaps
  import opened Proptree
  import opened Backend

  /** The file being written. */
  class Output {
    var events: seq<Event>

    constructor ()
      ensures events == []
    {
      events := [];
    }

    method Append(more: seq<Event>)
      modifies this
      ensures events == old(events) + more
    {
      events := events + more;
    }
  }

  /** The array loops of `esconf_format_xml_tag`; for the other types it is a case analysis. */
  method FormatXmlTag(env: Env, value: Option<Value>) returns (r: Option<Payload>)
    ensures r == PayloadOf(env, value)
  {
    match value {
      case Some(Array(arr)) =>
        var items: seq<Item> := [];
        for i := 0 to |arr|
          invariant ItemsOf(env, arr[..i]) == Some(items)
        {
          assert arr[..i + 1][..i] == arr[..i];
          var item := ItemOf(env, arr[i]);
          if item.None? {
            NoItems(env, arr, i + 1);
            return None;
          }
          items := items + [item.value];
        }
        assert arr[..|arr|] == arr;
        r := Some(Items(items));
      case Some(StrV(strlist)) =>
        var items: seq<Item> := [];
        for i := 0 to |strlist|
          invariant items == StringItems(strlist[..i])
        {
          items := items + [Item(KString, strlist[i])];
        }
        assert strlist[..|strlist|] == strlist;
        r := Some(Items(items));
      case Some(One(s)) =>
        var item := ItemOf(env, s);
        r := Some(if item.Some? then Basic(item.value) else Branch);
      case None =>
        r := Some(Branch);
    }
  }

  /** One unwritable item makes the array unwritable. */
  lemma {:induction false} NoItems(env: Env, scalars: seq<Scalar>, i: nat)
    requires i <= |scalars| && ItemsOf(env, scalars[..i]) == None
    ensures ItemsOf(env, scalars) == None
    decreases |scalars|
  {
    var n := |scalars| - 1;
    if i < |scalars| {
      assert scalars[..n][..i] == scalars[..i];
      NoItems(env, scalars[..n], i);
    } else {
      assert scalars[..i] == scalars;
    }
  }

  /** `esconf_backend_perchannel_xml_write_node`: element, items, children, end.  A value of a type
      the formatter does not know is unset on the way. */
  method WriteNode(env: Env, c: EsconfChannel, node: GNode, fp: Output, ghost h: nat) returns (ok: bool)
    requires c.Valid() && c.Has(node) && node != c.root && Writing(c.order, c.tree, h)
    modifies fp, c`tree, c.Repr`value
    ensures c.Valid() && SameTexts(env, old(c.tree), c.tree)
    ensures ok <==> WritableBelow(env, old(c.tree), node.path)
    ensures ok ==> c.tree == Strip(old(c.tree), node.path)
    ensures node.path in c.order && node.path != []
    ensures ok ==> fp.events == old(fp.events) + NodeText(env, c.order, old(c.tree), node.path, h)
    decreases h - |node.path|, 4
  {
    ghost var p, t0, e0 := node.path, c.tree, fp.events;
    NodeStart(env, c, node);
    HeadWritten(env, c.order, t0, p);
    ok := WriteParts(env, c, node, fp, h);
    if ok {
      NodeWritten(env, c.order, t0, p, h, e0, fp.events);
    }
  }

  method WriteParts(env: Env, c: EsconfChannel, node: GNode, fp: Output, ghost h: nat) returns (ok: bool)
    requires c.Valid() && c.Has(node) && node != c.root && Writing(c.order, c.tree, h)
    requires node.path in c.order && node.path != [] && node.name == node.path[|node.path| - 1]
    requires node.value == c.tree[node.path].user
    modifies fp, c`tree, c.Repr`value
    ensures c.Valid() && SameTexts(env, old(c.tree), c.tree)
    ensures ok <==> PayloadOf(env, old(node.value)).Some? &&
                    WritableKids(env, Headed(old(c.tree), node.path), node.path, c.order[node.path])
    ensures ok ==> c.tree == StripKids(Headed(old(c.tree), node.path), node.path, c.order[node.path])
    ensures ok ==>
      fp.events == old(fp.events) + HeadText(node.name, Written(env, old(node.value)))
                   + RestText(env, c.order, Headed(old(c.tree), node.path), node.path, h)
    decreases h - |node.path|, 3
  {
    ghost var t0 := c.tree;
    ok := WriteHead(env, c, node, fp);
    ghost var t1 := c.tree;
    if ok {
      ok := WriteRest(env, c, node, fp, h);
      SameTextsTransitive(env, t0, t1, c.tree);
    }
  }

  /** Children and end. */
  method WriteRest(env: Env, c: EsconfChannel, node: GNode, fp: Output, ghost h: nat) returns (ok: bool)
    requires c.Valid() && c.Has(node) && Writing(c.order, c.tree, h)
    modifies fp, c`tree, c.Repr`value
    ensures c.Valid() && SameTexts(env, old(c.tree), c.tree)
    ensures ok <==> WritableKids(env, old(c.tree), node.path, c.order[node.path])
    ensures ok ==> c.tree == StripKids(old(c.tree), node.path, c.order[node.path])
    ensures ok ==> fp.events == old(fp.events) + RestText(env, c.order, old(c.tree), node.path, h)
    decreases h - |node.path|, 2
  {
    ok := WriteKids(env, c, node, fp, h);
    if ok {
      fp.Append([End]);
    }
  }

  method WriteHead(env: Env, c: EsconfChannel, node: GNode, fp: Output) returns (ok: bool)
    requires c.Valid() && c.Has(node) && node != c.root
    modifies fp, c`tree, node`value
    ensures c.Valid() && SameTexts(env, old(c.tree), c.tree)
    ensures ok <==> PayloadOf(env, old(node.value)).Some?
    ensures ok ==> c.tree == Headed(old(c.tree), node.path)
    ensures ok ==> fp.events == old(fp.events) + HeadText(node.name, Written(env, old(node.value)))
  {
    var tag := FormatXmlTag(env, node.value);
    if tag.None? {
      return false;
    }
    fp.Append(HeadText(node.name, tag.value));
    UnsetUnknown(env, c, node);
    ok := true;
  }

  lemma NodeStart(env: Env, c: EsconfChannel, node: GNode)
    requires c.Valid() && c.Has(node) && node != c.root
    ensures var p := node.path;
      && p in c.order && p != [] && node.name == p[|p| - 1] && node.value == c.tree[p].user
      && (WritableBelow(env, c.tree, p) <==>
            PayloadOf(env, node.value).Some? && WritableKids(env, c.tree, p, c.order[p]))
  {
    c.IsRoot(node);
    assert c.Placed(node.path);
    WritableSelf(env, c.order, c.tree, node.path);
  }

  /** g_value_unset on a value of a type the formatter does not know. */
  method UnsetUnknown(env: Env, c: EsconfChannel, node: GNode)
    requires c.Valid() && c.Has(node)
    modifies c`tree, node`value
    ensures c.Valid() && c.tree == old(c.tree)[node.path := Stripped(old(c.tree)[node.path])]
    ensures SameTexts(env, old(c.tree), c.tree)
  {
    c.IsRoot(node);
    if Unknown(node.value) {
      c.PutValue(node, None);
    } else {
      assert c.tree == c.tree[node.path := Stripped(c.tree[node.path])];
    }
  }

  method WriteKids(env: Env, c: EsconfChannel, node: GNode, fp: Output, ghost h: nat) returns (ok: bool)
    requires c.Valid() && c.Has(node) && Writing(c.order, c.tree, h)
    modifies fp, c`tree, c.Repr`value
    ensures c.Valid() && SameTexts(env, old(c.tree), c.tree)
    ensures ok <==> WritableKids(env, old(c.tree), node.path, c.order[node.path])
    ensures ok ==> c.tree == StripKids(old(c.tree), node.path, c.order[node.path])
    ensures ok ==> fp.events == old(fp.events) + KidsText(env, c.order, old(c.tree), node.path, |c.order[node.path]|, h)
    decreases h - |node.path|, 1
  {
    ghost var t0, before := c.tree, fp.events;
    c.ChildCount(node);
    KidsTextStart(env, c.order, t0, node.path, h, before);
    for i := 0 to |node.children|
      invariant c.Valid() && KidsDone(env, c.order, t0, c.tree, node.path, i, h, before, fp.events)
    {
      var written := WriteKid(env, c, node, i, fp, t0, before, h);
      if !written {
        return false;
      }
    }
    AllKidsDone(env, c.order, t0, c.tree, node.path, h, before, fp.events);
    ok := true;
  }

  method WriteKid(env: Env, c: EsconfChannel, node: GNode, i: nat, fp: Output,
                  ghost t0: Tree, ghost before: seq<Event>, ghost h: nat) returns (ok: bool)
    requires c.Valid() && c.Has(node) && Writing(c.order, c.tree, h)
    requires i < |node.children| == |c.order[node.path]|
    requires Writing(c.order, t0, h)
    requires KidsDone(env, c.order, t0, c.tree, node.path, i, h, before, fp.events)
    modifies fp, c`tree, c.Repr`value
    ensures c.Valid() && SameTexts(env, t0, c.tree)
    ensures !ok ==> !WritableKids(env, t0, node.path, c.order[node.path])
    ensures ok ==> KidsDone(env, c.order, t0, c.tree, node.path, i + 1, h, before, fp.events)
    decreases h - |node.path|, 0
  {
    ghost var p, t1, written := node.path, c.tree, fp.events;
    c.ChildrenOf(node);
    ChildIn(c.order, p, i);
    ok := WriteNode(env, c, node.children[i], fp, h);
    NextKid(env, c.order, t0, t1, c.tree, p, i, h, before, written, fp.events, ok);
  }

  /** `esconf_backend_perchannel_xml_flush_channel`, input and output errors aside: the channel counts
      as saved even if the formatter gave up. */
  method FlushChannel(env: Env, c: EsconfChannel, channelName: string)
    returns (ok: bool, file: seq<Event>, ghost h: nat)
    requires c.Valid() && RootBlank(c.tree)
    modifies c`tree, c`dirty, c.Repr`value
    ensures c.Valid() && !c.dirty && Writing(c.order, old(c.tree), h)
    ensures SameTexts(env, old(c.tree), c.tree)
    ensures ok <==> Writable(env, old(c.tree))
    ensures ok ==> file == FileEvents(TreeDoc(env, c.order, old(c.tree), h, channelName))
    ensures ok ==> c.tree == Strip(old(c.tree), [])
  {
    h := Height(c);
    ok, file := WriteFile(env, c, channelName, h);
    MarkClean(c);
  }

  method MarkClean(c: EsconfChannel)
    requires c.Valid()
    modifies c`dirty
    ensures c.Valid() && !c.dirty && c.tree == old(c.tree) && c.order == old(c.order)
  {
    c.dirty := false;
  }

  method WriteFile(env: Env, c: EsconfChannel, channelName: string, ghost h: nat) returns (ok: bool, file: seq<Event>)
    requires c.Valid() && RootBlank(c.tree) && Writing(c.order, c.tree, h)
    modifies c`tree, c.Repr`value
    ensures c.Valid() && SameTexts(env, old(c.tree), c.tree)
    ensures ok <==> Writable(env, old(c.tree))
    ensures ok ==> file == FileEvents(TreeDoc(env, c.order, old(c.tree), h, channelName))
    ensures ok ==> c.tree == Strip(old(c.tree), [])
  {
    RootIs(c);
    WholeTree(env, c.order, c.tree, h, channelName);
    var fp := OpenFile(channelName);
    ok := WriteRest(env, c, c.root, fp, h);
    file := fp.events;
  }

  /** The opening tag of the channel. */
  function ChannelHead(channelName: string): seq<Event> {
    [Start("channel", [Attr("name", channelName), Attr("version", "1.0")])]
  }

  method OpenFile(channelName: string) returns (fp: Output)
    ensures fresh(fp) && fp.events == ChannelHead(channelName)
  {
    fp := new Output();
    fp.Append(ChannelHead(channelName));
  }

  lemma RootIs(c: EsconfChannel)
    requires c.Valid()
    ensures c.Has(c.root) && c.root.path == []
  {
    c.NodeIs([]);
  }

  lemma WholeTree(env: Env, o: Order, t: Tree, h: nat, channel: string)
    requires Writing(o, t, h) && RootBlank(t)
    ensures Writable(env, t) <==> WritableKids(env, t, [], o[[]])
    ensures StripKids(t, [], o[[]]) == Strip(t, [])
    ensures ChannelHead(channel) + RestText(env, o, t, [], h) == FileEvents(TreeDoc(env, o, t, h, channel))
  {
    WritableSelf(env, o, t, []);
    StripSelf(o, t, []);
    assert t[[] := Stripped(t[[]])] == t;
    var attrs := [Attr("name", channel), Attr("version", "1.0")];
    assert attrs + LockAttrs("", "") == attrs;
  }
}
