/** The file that a tree is written to, as a document
    (esconfd/esconf-backend-perchannel-xml.c, `esconf_backend_perchannel_xml_write_node`). */
module TreeFile {
  import opened Base
  import opened Values
  import opened Names
  import opened TreeModel
  import opened TreeOrder
  import opened Subtrees
  import opened XmlText
  import opened XmlSpec
  import opened XmlDoc

  // ---------- the document of a tree ----------

  /** What the writer needs: ordered siblings, and a depth bound. */
  ghost predicate Writing(o: Order, t: Tree, h: nat) {
    Shaped(o) && o.Keys == t.Keys && forall p :: p in o ==> |p| <= h
  }

  /** The formatter gives up on no user value. */
  ghost predicate Writable(env: Env, t: Tree) {
    forall p :: p in t ==> PayloadOf(env, t[p].user).Some?
  }

  function Written(env: Env, v: Option<Value>): Payload {
    match PayloadOf(env, v)
    case Some(payload) => payload
    case None => Branch
  }

  /** The element of the node at `p`; only user values are written. */
  ghost function NodeElem(env: Env, o: Order, t: Tree, p: Path, h: nat): PropElem
    requires Writing(o, t, h) && p in o && p != []
    decreases h - |p|, 1, 0
  {
    PropElem(p[|p| - 1], Written(env, t[p].user), "", "", NodeProps(env, o, t, p, |o[p]|, h))
  }

  /** The elements of its first `n` children. */
  ghost function NodeProps(env: Env, o: Order, t: Tree, p: Path, n: nat, h: nat): Props
    requires Writing(o, t, h) && p in o && n <= |o[p]|
    decreases h - |p|, 0, n
  {
    if n == 0 then NoProps
    else
      assert NodeShaped(o, p);
      More(NodeProps(env, o, t, p, n - 1, h), NodeElem(env, o, t, p + [o[p][n - 1]], h))
  }

  ghost function TreeDoc(env: Env, o: Order, t: Tree, h: nat, channel: string): Doc
    requires Writing(o, t, h)
  {
    Doc(channel, "", "", NodeProps(env, o, t, [], |o[[]]|, h))
  }

  lemma ChildIn(o: Order, p: Path, i: nat)
    requires Shaped(o) && p in o && i < |o[p]|
    ensures var child := p + [o[p][i]]; child in o && child != [] && Parent(child) == p
  {
    assert NodeShaped(o, p);
    ParentOf(p, o[p][i]);
  }

  /** The document depends on the written form of the user values only. */
  ghost predicate SameTexts(env: Env, t: Tree, t': Tree) {
    t.Keys == t'.Keys && forall p :: p in t ==> PayloadOf(env, t[p].user) == PayloadOf(env, t'[p].user)
  }

  lemma SameTextsTransitive(env: Env, t: Tree, t1: Tree, t2: Tree)
    requires SameTexts(env, t, t1) && SameTexts(env, t1, t2)
    ensures SameTexts(env, t, t2)
  {
  }

  lemma {:induction false} SameElem(env: Env, o: Order, t: Tree, t': Tree, p: Path, h: nat)
    requires Writing(o, t, h) && SameTexts(env, t, t') && p in o && p != []
    ensures NodeElem(env, o, t, p, h) == NodeElem(env, o, t', p, h)
    decreases h - |p|, 1, 0
  {
    SameProps(env, o, t, t', p, |o[p]|, h);
  }

  lemma {:induction false} SameProps(env: Env, o: Order, t: Tree, t': Tree, p: Path, n: nat, h: nat)
    requires Writing(o, t, h) && SameTexts(env, t, t') && p in o && n <= |o[p]|
    ensures NodeProps(env, o, t, p, n, h) == NodeProps(env, o, t', p, n, h)
    decreases h - |p|, 0, n
  {
    if n > 0 {
      ChildIn(o, p, n - 1);
      SameElem(env, o, t, t', p + [o[p][n - 1]], h);
      SameProps(env, o, t, t', p, n - 1, h);
    }
  }

  // ---------- what writing does to the tree ----------

  /** A value of a type the writer does not know. */
  predicate Unknown(v: Option<Value>) {
    v.Some? && v.value.One? && (v.value.scalar.Int16? || v.value.scalar.UInt16?)
  }

  /** The writer takes such a value away when it comes across it. */
  function Stripped(d: Data): Data {
    if Unknown(d.user) then d.(user := None) else d
  }

  ghost function Strip(t: Tree, base: Path): Tree {
    map p | p in t :: if Below(base, p) then Stripped(t[p]) else t[p]
  }

  /** Writing a file takes away the top-level 16-bit user values, and nothing else. */
  lemma FileStrips(t: Tree, q: Path)
    requires q in t
    ensures var d, d' := t[q], Strip(t, [])[q];
      && Strip(t, []).Keys == t.Keys && d'.system == d.system && d'.locked == d.locked
      && d'.user == match d.user
         case Some(One(s)) => if KindOf(s) == KUInt16 || KindOf(s) == KInt16 then None else d.user
         case _ => d.user
  {
  }

  ghost function StripKids(t: Tree, p: Path, names: seq<string>): Tree {
    map q | q in t :: if UnderOne(p, names, q) then Stripped(t[q]) else t[q]
  }

  lemma StripNext(t: Tree, p: Path, names: seq<string>, name: string)
    ensures Strip(StripKids(t, p, names), p + [name]) == StripKids(t, p, names + [name])
  {
    forall q | q in t
      ensures Strip(StripKids(t, p, names), p + [name])[q] == StripKids(t, p, names + [name])[q]
    {
      UnderOneMore(p, names, name, q);
    }
  }

  lemma StripSelf(o: Order, t: Tree, p: Path)
    requires Shaped(o) && t.Keys == o.Keys && p in o
    ensures StripKids(t[p := Stripped(t[p])], p, o[p]) == Strip(t, p)
  {
    var t1 := t[p := Stripped(t[p])];
    NotUnderSelf(p, o[p]);
    forall q | q in t
      ensures StripKids(t1, p, o[p])[q] == Strip(t, p)[q]
    {
      BelowNode(o, t, p, q);
    }
  }

  lemma StrippedReads(env: Env, d: Data)
    ensures PayloadOf(env, Stripped(d).user) == PayloadOf(env, d.user)
  {
  }

  /** Everything at and below a node, or below some of its children, can be written. */
  ghost predicate WritableBelow(env: Env, t: Tree, p: Path) {
    forall q :: q in t && Below(p, q) ==> PayloadOf(env, t[q].user).Some?
  }

  ghost predicate WritableKids(env: Env, t: Tree, p: Path, names: seq<string>) {
    forall q :: q in t && UnderOne(p, names, q) ==> PayloadOf(env, t[q].user).Some?
  }

  lemma WritableNext(env: Env, t: Tree, t': Tree, p: Path, names: seq<string>, name: string)
    requires SameTexts(env, t, t')
    ensures WritableKids(env, t, p, names + [name]) <==>
      WritableKids(env, t, p, names) && WritableBelow(env, t', p + [name])
  {
    forall q
      ensures UnderOne(p, names + [name], q) <==> UnderOne(p, names, q) || Below(p + [name], q)
    {
      UnderOneMore(p, names, name, q);
    }
  }

  lemma WritableSelf(env: Env, o: Order, t: Tree, p: Path)
    requires Shaped(o) && t.Keys == o.Keys && p in o
    ensures WritableBelow(env, t, p) <==> PayloadOf(env, t[p].user).Some? && WritableKids(env, t, p, o[p])
  {
    forall q | q in t
      ensures Below(p, q) <==> q == p || UnderOne(p, o[p], q)
    {
      BelowNode(o, t, p, q);
    }
  }

  // ---------- the text of a node, part by part ----------

  ghost function NodeText(env: Env, o: Order, t: Tree, p: Path, h: nat): seq<Event>
    requires Writing(o, t, h) && p in o && p != []
  {
    ElemEvents(NodeElem(env, o, t, p, h))
  }

  ghost function KidsText(env: Env, o: Order, t: Tree, p: Path, n: nat, h: nat): seq<Event>
    requires Writing(o, t, h) && p in o && n <= |o[p]|
  {
    PropsEvents(NodeProps(env, o, t, p, n, h))
  }

  /** The opening tag of a node and the items of its value. */
  function HeadText(name: string, payload: Payload): seq<Event> {
    [Start("property", [Attr("name", name)] + PayloadAttrs(payload))] + PayloadEvents(payload)
  }

  /** Its children and the end tag. */
  ghost function RestText(env: Env, o: Order, t: Tree, p: Path, h: nat): seq<Event>
    requires Writing(o, t, h) && p in o
  {
    KidsText(env, o, t, p, |o[p]|, h) + [End]
  }

  /** The tree once the head of a node is written. */
  function Headed(t: Tree, p: Path): Tree
    requires p in t
  {
    t[p := Stripped(t[p])]
  }

  /** Taking away the node's own value changes neither texts nor what can be written, and stripping
      the children then completes the node. */
  lemma HeadWritten(env: Env, o: Order, t: Tree, p: Path)
    requires Shaped(o) && o.Keys == t.Keys && p in o
    ensures var t1 := Headed(t, p);
      && SameTexts(env, t, t1) && StripKids(t1, p, o[p]) == Strip(t, p)
      && (WritableKids(env, t1, p, o[p]) <==> WritableKids(env, t, p, o[p]))
  {
    StrippedReads(env, t[p]);
    StripSelf(o, t, p);
  }

  /** Head, children and end make up the text of the node. */
  lemma NodeWritten(env: Env, o: Order, t: Tree, p: Path, h: nat, before: seq<Event>, after: seq<Event>)
    requires Writing(o, t, h) && p in o && p != []
    requires after == before + HeadText(p[|p| - 1], Written(env, t[p].user)) + RestText(env, o, Headed(t, p), p, h)
    ensures after == before + NodeText(env, o, t, p, h)
  {
    HeadWritten(env, o, t, p);
    SameProps(env, o, t, Headed(t, p), p, |o[p]|, h);
    TextParts(before, p[|p| - 1], Written(env, t[p].user), NodeProps(env, o, t, p, |o[p]|, h));
  }

  lemma TextParts(before: seq<Event>, name: string, payload: Payload, children: Props)
    ensures before + HeadText(name, payload) + (PropsEvents(children) + [End])
      == before + ElemEvents(PropElem(name, payload, "", "", children))
  {
    var attrs := [Attr("name", name)] + PayloadAttrs(payload);
    assert attrs + LockAttrs("", "") == attrs;
  }

  /** The first `i` children of a node are written, and stripped. */
  ghost predicate KidsDone(env: Env, o: Order, t0: Tree, t: Tree, p: Path, i: nat, h: nat,
                           before: seq<Event>, events: seq<Event>)
    requires Writing(o, t0, h) && p in o && i <= |o[p]|
  {
    && t == StripKids(t0, p, o[p][..i]) && SameTexts(env, t0, t) && WritableKids(env, t0, p, o[p][..i])
    && events == before + KidsText(env, o, t0, p, i, h)
  }

  lemma KidsTextStart(env: Env, o: Order, t: Tree, p: Path, h: nat, before: seq<Event>)
    requires Writing(o, t, h) && p in o
    ensures KidsDone(env, o, t, t, p, 0, h, before, before)
  {
    assert o[p][..0] == [];
  }

  lemma KidsTextNext(env: Env, o: Order, t: Tree, t1: Tree, p: Path, i: nat, h: nat, before: seq<Event>)
    requires Writing(o, t, h) && SameTexts(env, t, t1) && p in o && i < |o[p]|
    ensures p + [o[p][i]] in o
    ensures before + KidsText(env, o, t, p, i, h) + NodeText(env, o, t1, p + [o[p][i]], h)
      == before + KidsText(env, o, t, p, i + 1, h)
  {
    ChildIn(o, p, i);
    SameElem(env, o, t, t1, p + [o[p][i]], h);
    KidsTextGrows(env, o, t, p, i, h);
    assert before + (KidsText(env, o, t, p, i, h) + NodeText(env, o, t, p + [o[p][i]], h))
      == before + KidsText(env, o, t, p, i, h) + NodeText(env, o, t, p + [o[p][i]], h);
  }

  lemma KidsTextGrows(env: Env, o: Order, t: Tree, p: Path, i: nat, h: nat)
    requires Writing(o, t, h) && p in o && i < |o[p]| && p + [o[p][i]] in o
    ensures KidsText(env, o, t, p, i + 1, h) == KidsText(env, o, t, p, i, h) + NodeText(env, o, t, p + [o[p][i]], h)
  {
  }

  /** Writing one more child, or failing at it. */
  lemma NextKid(env: Env, o: Order, t0: Tree, t1: Tree, t2: Tree, p: Path, i: nat, h: nat, before: seq<Event>,
                written: seq<Event>, written': seq<Event>, ok: bool)
    requires Writing(o, t0, h) && p in o && i < |o[p]| && p + [o[p][i]] in o && p + [o[p][i]] != []
    requires KidsDone(env, o, t0, t1, p, i, h, before, written) && SameTexts(env, t1, t2)
    requires ok <==> WritableBelow(env, t1, p + [o[p][i]])
    requires ok ==> t2 == Strip(t1, p + [o[p][i]]) && written' == written + NodeText(env, o, t1, p + [o[p][i]], h)
    ensures ok ==> KidsDone(env, o, t0, t2, p, i + 1, h, before, written')
    ensures !ok ==> !WritableKids(env, t0, p, o[p])
  {
    var names := o[p];
    assert names[..i + 1] == names[..i] + [names[i]];
    KidsTextNext(env, o, t0, t1, p, i, h, before);
    StripNext(t0, p, names[..i], names[i]);
    WritableNext(env, t0, t1, p, names[..i], names[i]);
    if WritableKids(env, t0, p, names) {
      WritableFewer(env, t0, p, names, i + 1);
    }
  }

  lemma AllKidsDone(env: Env, o: Order, t0: Tree, t: Tree, p: Path, h: nat, before: seq<Event>, written: seq<Event>)
    requires Writing(o, t0, h) && p in o && KidsDone(env, o, t0, t, p, |o[p]|, h, before, written)
    ensures WritableKids(env, t0, p, o[p]) && t == StripKids(t0, p, o[p])
    ensures written == before + KidsText(env, o, t0, p, |o[p]|, h)
  {
    assert o[p][..|o[p]|] == o[p];
  }

  lemma WritableFewer(env: Env, t: Tree, p: Path, names: seq<string>, i: nat)
    requires i <= |names| && WritableKids(env, t, p, names)
    ensures WritableKids(env, t, p, names[..i])
  {
    forall q | q in t && UnderOne(p, names[..i], q)
      ensures UnderOne(p, names, q)
    {
      var k :| 0 <= k < i && Below(p + [names[..i][k]], q);
      assert Below(p + [names[k]], q);
    }
  }
}
