/** Loading channel files into the linked tree (esconfd/esconf-backend-perchannel-xml.c). */
module Loader {
  import opened Base
  import opened XmlText
  import opened XmlSpec
  import opened XmlInvariants
  import opened XmlParser
  import opened Layers
  import opened Proptree

  /** `esconf_backend_perchannel_xml_merge_file`, on the element events of the file. */
  method MergeFile(env: Env, c: EsconfChannel, events: seq<Event>, isSystemFile: bool) returns (verdict: Verdict)
    requires c.Valid() && TreeOk(c.tree, isSystemFile) && !(c.locked && !isSystemFile)
    modifies c`root, c`nodes, c`Repr, c`tree, c`order, c`locked, c.Repr
    ensures c.Valid() && fresh(c.Repr - old(c.Repr)) && TreeOk(c.tree, isSystemFile)
    ensures !(c.locked && !isSystemFile)
    ensures Loaded(c.tree, c.locked) == LoadFile(env, Loaded(old(c.tree), old(c.locked)), isSystemFile, events)
    ensures verdict == Run(env, Fresh(old(c.tree), old(c.locked), isSystemFile), events).verdict
  {
    var parser := new Parser(env, c, isSystemFile);
    ParseEvents(parser, events);
    verdict := parser.verdict;
  }

  /** g_markup_parse_context_parse: event by event, up to the first error. */
  method ParseEvents(parser: Parser, events: seq<Event>)
    requires parser.Valid()
    modifies parser, parser.channel`root, parser.channel`nodes, parser.channel`Repr, parser.channel`tree
    modifies parser.channel`order, parser.channel`locked, parser.channel.Repr
    ensures parser.Valid() && fresh(parser.channel.Repr - old(parser.channel.Repr))
    ensures parser.Now() == Run(parser.env, old(parser.Now()), events)
  {
    ghost var s0, nodes := parser.Now(), parser.channel.Repr;
    var i := 0;
    while i < |events| && parser.verdict == Going
      invariant 0 <= i <= |events| && parser.Valid() && fresh(parser.channel.Repr - nodes)
      invariant parser.Now() == Run(parser.env, s0, events[..i])
    {
      ParseNext(parser, s0, events, i);
      i := i + 1;
    }
    RestIgnored(parser.env, s0, events, i);
  }

  method ParseNext(parser: Parser, ghost s0: State, events: seq<Event>, i: nat)
    requires parser.Valid() && parser.verdict == Going
    requires i < |events| && parser.Now() == Run(parser.env, s0, events[..i])
    modifies parser, parser.channel`root, parser.channel`nodes, parser.channel`Repr, parser.channel`tree
    modifies parser.channel`order, parser.channel`locked, parser.channel.Repr
    ensures parser.Valid() && fresh(parser.channel.Repr - old(parser.channel.Repr))
    ensures parser.Now() == Run(parser.env, s0, events[..i + 1])
  {
    OneMoreEvent(parser.env, s0, events, i);
    parser.Handle(events[i]);
  }

  lemma OneMoreEvent(env: Env, s: State, events: seq<Event>, i: nat)
    requires i < |events|
    ensures Run(env, s, events[..i + 1]) == Step(env, Run(env, s, events[..i]), events[i])
  {
    assert events[..i + 1][..i] == events[..i];
  }

  lemma RestIgnored(env: Env, s: State, events: seq<Event>, i: nat)
    requires i <= |events| && (i == |events| || Run(env, s, events[..i]).verdict != Going)
    ensures Run(env, s, events) == Run(env, s, events[..i])
  {
    assert events == events[..i] + events[i..];
    RunConcat(env, s, events[..i], events[i..]);
    if i < |events| {
      Stopped(env, Run(env, s, events[..i]), events[i..]);
    }
  }

  /** `esconf_backend_perchannel_xml_load_channel`: `files` are the system files in the order in which
      they are read, the user file left out. */
  method LoadChannel(env: Env, files: seq<seq<Event>>, userFile: Option<seq<Event>>) returns (c: EsconfChannel)
    ensures fresh(c) && fresh(c.Repr) && c.Valid() && !c.dirty && c.changed == []
    ensures Loaded(c.tree, c.locked) == Load(env, files, userFile)
  {
    c := LoadSystemFiles(env, files);
    if !c.locked && userFile.Some? {
      var verdict := MergeFile(env, c, userFile.value, false);
    }
  }

  method LoadSystemFiles(env: Env, files: seq<seq<Event>>) returns (c: EsconfChannel)
    ensures fresh(c) && fresh(c.Repr) && c.Valid() && !c.dirty && c.changed == []
    ensures Loaded(c.tree, c.locked) == LoadSystem(env, files) && TreeOk(c.tree, true)
  {
    c := new EsconfChannel();
    EmptyTreeOk();
    for i := 0 to |files|
      invariant c.Valid() && fresh(c.Repr) && TreeOk(c.tree, true) && !c.dirty && c.changed == []
      invariant Loaded(c.tree, c.locked) == LoadSystem(env, files[..i])
    {
      assert files[..i + 1][..i] == files[..i];
      var verdict := MergeFile(env, c, files[i], true);
    }
    assert files[..|files|] == files;
  }
}
