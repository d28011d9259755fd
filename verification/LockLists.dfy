/** The lock policy in terms of the attributes "locked" and "unlocked" and the lists they hold
    (esconfd/esconf-backend-perchannel-xml.c). */
module LockLists {
  import opened Base
  import opened Names
  import opened XmlText
  import opened XmlSpec
  import opened Tags
  import opened XmlDoc
  import opened XmlRuns
  import opened Layers

  // ---------- the channel ----------

  /** The channel is locked exactly if some system file locks it for this user. */
  lemma ChannelLockedFor(env: Env, docs: seq<Doc>)
    requires GoodDocs(env, docs)
    ensures LoadSystem(env, FilesOf(docs)).locked <==>
      exists i :: 0 <= i < |docs| && LocksUser(env, docs[i].locked, docs[i].unlocked)
  {
    SystemLoadIsFold(env, docs, []);
    KeptLocked(env, docs);
    forall i | 0 <= i < |docs|
      ensures Directive(env, docs[i].locked, docs[i].unlocked) == Some(true) <==>
        LocksUser(env, docs[i].locked, docs[i].unlocked)
    {
      DirectiveMeaning(env, docs[i].locked, docs[i].unlocked);
    }
  }

  // ---------- properties ----------

  /** A property element and its lock attributes. */
  datatype Mention = Mention(path: Path, locked: string, unlocked: string)

  function ElemMentions(prefix: Path, e: PropElem): seq<Mention>
    decreases e
  {
    [Mention(prefix + [e.name], e.locked, e.unlocked)] + PropsMentions(prefix + [e.name], e.children)
  }

  function PropsMentions(prefix: Path, ps: Props): seq<Mention>
    decreases ps
  {
    match ps
    case NoProps => []
    case More(front, last) => PropsMentions(prefix, front) + ElemMentions(prefix, last)
  }

  /** All elements of all files, in the order in which they are read. */
  function FilesMentions(docs: seq<Doc>): seq<Mention> {
    if docs == [] then []
    else FilesMentions(docs[..|docs| - 1]) + PropsMentions([], docs[|docs| - 1].props)
  }

  /** The last mention of `p` that carries a lock attribute. */
  function LastCarrying(ms: seq<Mention>, p: Path): Option<Mention> {
    if ms == [] then None
    else
      var m := ms[|ms| - 1];
      if m.path == p && Carries(m.locked, m.unlocked) then Some(m) else LastCarrying(ms[..|ms| - 1], p)
  }

  predicate LockedFor(env: Env, m: Option<Mention>) {
    m.Some? && LocksUser(env, m.value.locked, m.value.unlocked)
  }

  lemma {:induction false} CarryingConcat(a: seq<Mention>, b: seq<Mention>, p: Path)
    ensures LastCarrying(a + b, p) == if LastCarrying(b, p).Some? then LastCarrying(b, p) else LastCarrying(a, p)
  {
    if b == [] {
      assert a + b == a;
    } else {
      CarryingConcat(a, b[..|b| - 1], p);
      assert (a + b)[..|a + b| - 1] == a + b[..|b| - 1];
    }
  }

  /** The entries of a part of a file and its mentions say the same about `p`. */
  predicate Agree(env: Env, es: seq<Entry>, ms: seq<Mention>, p: Path) {
    && (LastLock(es, p).Some? <==> LastCarrying(ms, p).Some?)
    && (LastLock(es, p) == Some(true) <==> LockedFor(env, LastCarrying(ms, p)))
  }

  lemma AgreeConcat(env: Env, a: seq<Entry>, b: seq<Entry>, x: seq<Mention>, y: seq<Mention>, p: Path)
    requires Agree(env, a, x, p) && Agree(env, b, y, p)
    ensures Agree(env, a + b, x + y, p)
  {
    LockConcat(a, b, p);
    CarryingConcat(x, y, p);
  }

  lemma OneAgrees(env: Env, prefix: Path, e: PropElem, p: Path)
    ensures Agree(env, [EntryOf(env, prefix, e)], [Mention(prefix + [e.name], e.locked, e.unlocked)], p)
  {
    DirectiveMeaning(env, e.locked, e.unlocked);
    assert LastLock([EntryOf(env, prefix, e)][..0], p) == None;
    assert LastCarrying([Mention(prefix + [e.name], e.locked, e.unlocked)][..0], p) == None;
  }

  lemma {:induction false} ElemAgrees(env: Env, prefix: Path, e: PropElem, p: Path)
    ensures Agree(env, Entries(env, prefix, e), ElemMentions(prefix, e), p)
    decreases e
  {
    OneAgrees(env, prefix, e, p);
    PropsAgree(env, prefix + [e.name], e.children, p);
    AgreeConcat(env, [EntryOf(env, prefix, e)], EntriesAll(env, prefix + [e.name], e.children),
                [Mention(prefix + [e.name], e.locked, e.unlocked)], PropsMentions(prefix + [e.name], e.children), p);
  }

  lemma {:induction false} PropsAgree(env: Env, prefix: Path, ps: Props, p: Path)
    ensures Agree(env, EntriesAll(env, prefix, ps), PropsMentions(prefix, ps), p)
    decreases ps
  {
    if ps.More? {
      PropsAgree(env, prefix, ps.front, p);
      ElemAgrees(env, prefix, ps.last, p);
      AgreeConcat(env, EntriesAll(env, prefix, ps.front), Entries(env, prefix, ps.last),
                  PropsMentions(prefix, ps.front), ElemMentions(prefix, ps.last), p);
    }
  }

  /** As long as no file locks the channel, all entries count. */
  lemma {:induction false} FilesAgree(env: Env, docs: seq<Doc>, p: Path)
    requires forall i :: 0 <= i < |docs| ==> !LocksUser(env, docs[i].locked, docs[i].unlocked)
    ensures !KeptEntries(env, docs).locked
    ensures Agree(env, KeptEntries(env, docs).entries, FilesMentions(docs), p)
  {
    if docs != [] {
      var n := |docs| - 1;
      var d := docs[n];
      FilesAgree(env, docs[..n], p);
      DirectiveMeaning(env, d.locked, d.unlocked);
      PropsAgree(env, [], d.props, p);
      AgreeConcat(env, KeptEntries(env, docs[..n]).entries, DocEntries(env, d),
                  FilesMentions(docs[..n]), PropsMentions([], d.props), p);
    }
  }

  /** In a channel that no file locks for this user, a property is locked exactly if the last element
      about it that carries a lock attribute locks it for this user. */
  lemma PropertyLockedFor(env: Env, docs: seq<Doc>, p: Path)
    requires GoodDocs(env, docs)
    requires forall i :: 0 <= i < |docs| ==> !LocksUser(env, docs[i].locked, docs[i].unlocked)
    ensures LockedAt(LoadSystem(env, FilesOf(docs)).tree, p) <==> LockedFor(env, LastCarrying(FilesMentions(docs), p))
  {
    ChannelLockedFor(env, docs);
    LocksAreFold(env, docs, p);
    FilesAgree(env, docs, p);
  }

  // ---------- users who are not meant ----------

  /** No "unlocked" attribute, and the user in no "locked" list. */
  predicate Spares(env: Env, locked: string, unlocked: string) {
    unlocked == "" && (locked != "" ==> !env.inList(locked))
  }

  lemma {:induction false} LastIsMention(ms: seq<Mention>, p: Path)
    ensures LastCarrying(ms, p).Some? ==> LastCarrying(ms, p).value in ms
  {
    if ms != [] {
      LastIsMention(ms[..|ms| - 1], p);
    }
  }

  /** A user outside every "locked" list, where no file has an "unlocked" one, finds nothing locked. */
  lemma SparedUser(env: Env, docs: seq<Doc>, p: Path)
    requires GoodDocs(env, docs)
    requires forall i :: 0 <= i < |docs| ==> Spares(env, docs[i].locked, docs[i].unlocked)
    requires forall m :: m in FilesMentions(docs) ==> Spares(env, m.locked, m.unlocked)
    ensures !LoadSystem(env, FilesOf(docs)).locked && !LockedAt(LoadSystem(env, FilesOf(docs)).tree, p)
  {
    forall i | 0 <= i < |docs|
      ensures !LocksUser(env, docs[i].locked, docs[i].unlocked)
    {
      assert Spares(env, docs[i].locked, docs[i].unlocked);
    }
    ChannelLockedFor(env, docs);
    PropertyLockedFor(env, docs, p);
    LastIsMention(FilesMentions(docs), p);
  }
}
