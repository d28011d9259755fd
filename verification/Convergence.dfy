/** Whatever the order of events, a cache that has nothing outstanding agrees with the daemon. */
module Convergence {
  import opened Base
  import opened Values
  import opened Names
  import opened CacheModel
  import opened Protocol
  import opened Queues

  // ---------- the invariant ----------

  predicate AllConvertible(m: map<Name, Value>) {
    forall p :: p in m ==> Convertible(m[p])
  }

  predicate StoreOk(d: Store) {
    d.locked !! d.user.Keys && AllConvertible(d.user) && AllConvertible(d.system)
  }

  /** Whatever may become a user value lies under a name that a recursive reset announces right. */
  predicate NamesOk(s: System) {
    && (forall p :: p in s.store.user ==> Announceable(p))
    && (forall i :: 0 <= i < |s.requests| ==> Announceable(s.requests[i].name))
  }

  /** Calls are numbered in the order they were sent, and answered in that order. */
  predicate IdsOk(s: System) {
    && (forall i :: 0 <= i < |s.requests| ==> s.requests[i].id < s.nextId)
    && (forall i, j :: 0 <= i < j < |s.requests| ==> s.requests[i].id < s.requests[j].id)
    && (forall m :: m in s.inbox && m.Reply? ==> m.id < s.nextId)
    && (forall m, i :: m in s.inbox && m.Reply? && 0 <= i < |s.requests| ==> m.id < s.requests[i].id)
  }

  predicate CacheAgrees(s: System, p: Name) {
    p in s.cache.props ==>
      Convertible(s.cache.props[p]) && Some(Image(s.cache.props[p])) == Seen(s.store, p)
  }

  /** Once `msgs` and the idle callbacks are through, `p` will be right: a signal with the current
      value is still coming, or none is coming and `now` holds. */
  predicate Settled(s: System, p: Name, msgs: seq<Message>, now: bool) {
    p in s.idles ||
    match LastSignal(msgs, p)
    case Some(value) => value == Seen(s.store, p)
    case None => now
  }

  /** Calls owed to a property: all cancelled but the last. */
  predicate Burst(calls: seq<Owed>) {
    calls != [] && !calls[|calls| - 1].cancelled &&
    forall i :: 0 <= i < |calls| - 1 ==> calls[i].cancelled
  }

  /** The live call of a property with an old item: not handled yet, accepted, or refused.  Only
      the signals behind the reply will be listened to. */
  predicate LiveCallOk(s: System, p: Name, o: OldRecord, id: nat) {
    match FindRequest(s.requests, p, id)
    case Some(variant) =>
      && FindReply(s.inbox, p, id).None?
      && o.variant == Some(variant)
      && (p in s.cache.props ==>
            Convertible(s.cache.props[p]) && Image(s.cache.props[p]) == FromVariant(variant))
    case None =>
      match FindReply(s.inbox, p, id)
      case Some(true) =>
        p !in s.store.locked && Settled(s, p, Behind(s.inbox, p, id), CacheAgrees(s, p))
      case Some(false) =>
        FixedOption(o.item) && Settled(s, p, Behind(s.inbox, p, id), o.item == Seen(s.store, p))
      case None => false
  }

  predicate FixedOption(v: Option<Value>) {
    v.Some? ==> Fixed(v.value)
  }

  /** The invariant of one property.  A locked property has always been locked, so it was never
      announced, and what the cache had for it before a burst came from the daemon. */
  predicate PropertyOk(s: System, p: Name) {
    && (p in s.store.locked ==> p !in s.idles && LastSignal(s.inbox, p).None?)
    && (p in s.cache.props ==> Convertible(s.cache.props[p]))
    && if p !in s.cache.pending then
         && OwedTo(s, p) == [] && Settled(s, p, s.inbox, CacheAgrees(s, p))
         && (p in s.store.locked ==> FixedOption(Lookup(s.cache.props, p)))
       else
         var o, calls := s.cache.pending[p], OwedTo(s, p);
         && Burst(calls) && o.live && o.count == |calls| && calls[|calls| - 1].id < s.nextId
         && (p in s.store.locked ==> FixedOption(o.item) && o.item == Seen(s.store, p))
         && LiveCallOk(s, p, o, calls[|calls| - 1].id)
  }

  ghost predicate Inv(s: System) {
    && StoreOk(s.store) && NamesOk(s) && IdsOk(s)
    && (forall p :: p in s.owed ==> s.owed[p] != [])
    && (forall p :: PropertyOk(s, p))
  }

  /** The condition of the theorem: what this client sets has a variant form, no name that is set has a
      component of one character, and no lock comes back by a reset of the whole channel. */
  predicate Admissible(step: Step) {
    && (step.LocalSet? ==> Convertible(step.v) && Announceable(step.p))
    && (step.RemoteSet? ==> Announceable(step.p))
    && !step.LocksReturn?
  }

  // ---------- small facts ----------

  lemma FetchIsSeen(d: Store, p: Name)
    requires StoreOk(d)
    ensures match Get(d, p)
      case Found(v) => Fixed(v) && Convertible(v) && Image(v) == v && Seen(d, p) == Some(v)
      case NotFound => Seen(d, p) == None
      case Failed => false
  {
    if Effective(d, p).Some? {
      ImageIsAProjection(Effective(d, p).value);
    }
  }

  /** A reset of some user values leaves every other property alone, and announces the rest. */
  lemma ResetSeen(d: Store, gone: seq<Name>, locked: set<Name>, p: Name)
    requires p !in gone
    ensures Seen(StoreReset(d, gone, locked), p) == Seen(d, p)
  {
  }

  /** A set that is not announced changes nothing that can be seen; one that is refused neither. */
  lemma SetSeen(d: Store, q: Name, v: Value, p: Name)
    requires StoreOk(d) && Convertible(v) && Fixed(v)
    ensures var r := StoreSet(d, q, v);
      && StoreOk(r.store) && r.store.locked == d.locked && r.store.system == d.system
      && (r.ok <==> q !in d.locked)
      && (r.changed ==> r.ok)
      && (p != q || !r.changed ==> Seen(r.store, p) == Seen(d, p))
      && (r.ok ==> Seen(r.store, q) == Some(v))
  {
    FixedIsConvertible(v);
    if IsEqual(Effective(d, q), Some(v)) {
      IsEqualMeaning(Effective(d, q).value, v);
    }
  }

  /** The signal an idle callback sends shows the value of that moment. */
  lemma SignalShows(d: Store, q: Name, msgs: seq<Message>, p: Name)
    requires StoreOk(d)
    ensures |Signals(d, q)| == 1 && !Signals(d, q)[0].Reply?
    ensures LastSignal(msgs + Signals(d, q), p) == if p == q then Some(Seen(d, p)) else LastSignal(msgs, p)
  {
    LastSignalAppend(msgs, Signals(d, q)[0], p);
  }

  // ---------- one step, seen from one property ----------

  /** Steps that only touch the store and the idle queue, as long as every visible change of `p`
      is announced. */
  lemma StoreStep(s: System, s': System, p: Name)
    requires PropertyOk(s, p)
    requires s' == s.(store := s'.store, idles := s'.idles)
    requires p in s.idles ==> p in s'.idles
    requires Seen(s'.store, p) == Seen(s.store, p) || p in s'.idles
    requires p in s'.store.locked ==> p in s.store.locked && p !in s'.idles
    ensures PropertyOk(s', p)
  {
  }

  /** What handling the oldest request does to the store, and that only a reply is sent. */
  lemma Handled(s: System, p: Name)
    requires Inv(s) && s.requests != []
    ensures var s', q, v := HandleStep(s), s.requests[0], FromVariant(s.requests[0].variant);
      && s'.inbox == s.inbox + [Reply(q.name, q.id, q.name !in s.store.locked)]
      && s'.store.locked == s.store.locked
      && (Seen(s'.store, p) == Seen(s.store, p) || p in s'.idles)
      && (p in s.idles ==> p in s'.idles) && (p in s'.idles && p !in s.idles ==> p !in s.store.locked)
      && (q.name !in s.store.locked ==> Seen(s'.store, q.name) == Some(v))
      && LastSignal(s'.inbox, p) == LastSignal(s.inbox, p)
  {
    var q := s.requests[0];
    VariantIsFixed(q.variant);
    SetSeen(s.store, q.name, FromVariant(q.variant), p);
    LastSignalAppend(s.inbox, HandleStep(s).inbox[|s.inbox|], p);
  }

  /** Without an old item nothing but the store and the idle queue matters. */
  lemma HandledElsewhere(s: System, p: Name)
    requires Inv(s) && s.requests != [] && p !in s.cache.pending
    ensures PropertyOk(HandleStep(s), p)
  {
    Handled(s, p);
    assert PropertyOk(s, p);
  }

  /** The request was the live call of `p`: it was accepted, or refused. */
  lemma HandledLive(s: System, p: Name, id: nat)
    requires Inv(s) && s.requests != [] && p in s.cache.pending && OwedTo(s, p) != []
    requires id == OwedTo(s, p)[|OwedTo(s, p)| - 1].id
    requires s.requests[0].name == p && s.requests[0].id == id
    ensures PropertyOk(HandleStep(s), p)
  {
    Handled(s, p);
    Answered(s, p, id);
    assert PropertyOk(s, p);
  }

  /** A handled call is out of the requests, and its reply is the last message. */
  lemma Answered(s: System, p: Name, id: nat)
    requires IdsOk(s) && s.requests != [] && s.requests[0].name == p && s.requests[0].id == id
    ensures var s' := HandleStep(s);
      && FindRequest(s'.requests, p, id) == None
      && FindReply(s'.inbox, p, id) == Some(StoreSet(s.store, p, FromVariant(s.requests[0].variant)).ok)
      && Behind(s'.inbox, p, id) == []
  {
    FindRequestNeedsId(s.requests[1..], p, id);
    FindReplyNeedsId(s.inbox, p, id);
    ReplyAppend(s.inbox, HandleStep(s).inbox[|s.inbox|], p, id);
  }

  /** It was another call, so the live call of `p` stays where it is. */
  lemma HandledOther(s: System, p: Name, id: nat)
    requires Inv(s) && s.requests != [] && p in s.cache.pending && OwedTo(s, p) != []
    requires id == OwedTo(s, p)[|OwedTo(s, p)| - 1].id
    requires !(s.requests[0].name == p && s.requests[0].id == id)
    ensures PropertyOk(HandleStep(s), p)
  {
    Handled(s, p);
    OtherAnswered(s, p, id);
    assert PropertyOk(s, p);
  }

  lemma OtherAnswered(s: System, p: Name, id: nat)
    requires s.requests != [] && !(s.requests[0].name == p && s.requests[0].id == id)
    ensures var s' := HandleStep(s);
      && FindRequest(s'.requests, p, id) == FindRequest(s.requests, p, id)
      && FindReply(s'.inbox, p, id) == FindReply(s.inbox, p, id)
      && (FindReply(s.inbox, p, id).Some? ==>
            LastSignal(Behind(s'.inbox, p, id), p) == LastSignal(Behind(s.inbox, p, id), p))
  {
    var reply := HandleStep(s).inbox[|s.inbox|];
    ReplyAppend(s.inbox, reply, p, id);
    LastSignalAppend(Behind(s.inbox, p, id), reply, p);
  }

  lemma HandleStepAt(s: System, p: Name)
    requires Inv(s) && s.requests != []
    ensures PropertyOk(HandleStep(s), p)
  {
    assert PropertyOk(s, p);
    if p !in s.cache.pending {
      HandledElsewhere(s, p);
    } else {
      var calls, q := OwedTo(s, p), s.requests[0];
      var id := calls[|calls| - 1].id;
      if q.name == p && q.id == id {
        HandledLive(s, p, id);
      } else {
        HandledOther(s, p, id);
      }
    }
  }

  lemma VariantIsFixed(variant: Variant)
    ensures Fixed(FromVariant(variant)) && Convertible(FromVariant(variant))
  {
    FixedIsConvertible(FromVariant(variant));
  }

  /** What an idle callback sends, and that `p` needs no more idle callback after its own. */
  lemma IdleSends(s: System, i: nat, p: Name) returns (m: Message)
    requires Inv(s) && i < |s.idles|
    ensures var s', q := Next(s, DaemonIdle(i)), s.idles[i];
      && Signals(s.store, q) == [m] && !m.Reply?
      && s' == s.(idles := s'.idles, inbox := s.inbox + [m])
      && LastSignal(s'.inbox, p) == (if p == q then Some(Seen(s.store, p)) else LastSignal(s.inbox, p))
      && (p != q && p in s.idles ==> p in s'.idles) && (p !in s.idles ==> p !in s'.idles)
      && (p in s.store.locked ==> p !in s.idles)
  {
    var q := s.idles[i];
    SignalShows(s.store, q, s.inbox, p);
    m := Signals(s.store, q)[0];
    assert PropertyOk(s, p);
    KeptElsewhere(s.idles, i, p);
  }

  lemma KeptElsewhere(names: seq<Name>, i: nat, p: Name)
    requires i < |names|
    ensures p != names[i] && p in names ==> p in names[..i] + names[i + 1..]
    ensures p !in names ==> p !in names[..i] + names[i + 1..]
  {
    if p != names[i] && p in names {
      var j :| 0 <= j < |names| && names[j] == p;
      assert (names[..i] + names[i + 1..])[if j < i then j else j - 1] == p;
    }
  }

  lemma IdleStepAt(s: System, i: nat, p: Name)
    requires Inv(s) && i < |s.idles|
    ensures PropertyOk(Next(s, DaemonIdle(i)), p)
  {
    var m := IdleSends(s, i, p);
    assert PropertyOk(s, p);
    if p in s.cache.pending {
      var calls := OwedTo(s, p);
      SignalBehind(s.store, s.idles[i], s.inbox, m, p, calls[|calls| - 1].id);
    }
  }

  /** A new signal is behind every reply. */
  lemma SignalBehind(d: Store, q: Name, inbox: seq<Message>, m: Message, p: Name, id: nat)
    requires StoreOk(d) && Signals(d, q) == [m] && !m.Reply?
    ensures FindReply(inbox + [m], p, id) == FindReply(inbox, p, id)
    ensures FindReply(inbox, p, id).Some? ==>
      LastSignal(Behind(inbox + [m], p, id), p) ==
        if p == q then Some(Seen(d, p)) else LastSignal(Behind(inbox, p, id), p)
  {
    SignalShows(d, q, Behind(inbox, p, id), p);
    ReplyAppend(inbox, m, p, id);
  }

  /** What a lookup brings in agrees with the daemon. */
  lemma LookupAt(s: System, q: Name, p: Name)
    requires Inv(s) && CanAsk(s, q)
    ensures PropertyOk(s.(cache := AfterLookup(s.cache, q, Get(s.store, q))), p)
  {
    FetchIsSeen(s.store, q);
    assert PropertyOk(s, p);
  }

  lemma PrefetchAt(s: System, scope: set<Name>, p: Name)
    requires Inv(s) && s.requests == []
    ensures PropertyOk(Next(s, LocalPrefetch(scope)), p)
  {
    FetchIsSeen(s.store, p);
    if Effective(s.store, p).Some? {
      SentTheSame(Effective(s.store, p).value);
    }
    assert PropertyOk(s, p);
  }

  /** Dropping a property from the cache is always safe. */
  lemma EvictAt(s: System, props: map<Name, Value>, p: Name)
    requires PropertyOk(s, p)
    requires p in props ==> p in s.cache.props && props[p] == s.cache.props[p]
    ensures PropertyOk(s.(cache := s.cache.(props := props)), p)
  {
  }

  /** The call of a set is found at the end of the queue, and not answered yet. */
  lemma SentLast(s: System, p: Name, v: Value)
    requires IdsOk(s) && Set(s.cache, p, v, Get(s.store, p)).sent.Some?
    ensures var s', sent := LocalSetStep(s, p, v), Set(s.cache, p, v, Get(s.store, p)).sent;
      && FindRequest(s'.requests, p, s.nextId) == sent && FindReply(s'.inbox, p, s.nextId) == None
  {
    var variant := Set(s.cache, p, v, Get(s.store, p)).sent.value;
    FindRequestNeedsId(s.requests, p, s.nextId);
    FindRequestAppend(s.requests, Request(p, variant, s.nextId), p, s.nextId);
    FindReplyNeedsId(s.inbox, p, s.nextId);
  }

  /** A set that goes ahead, seen from its own property. */
  lemma SentAt(s: System, p: Name, v: Value)
    requires Inv(s) && CanAsk(s, p) && Convertible(v)
    requires Set(s.cache, p, v, Get(s.store, p)).sent.Some?
    ensures PropertyOk(LocalSetStep(s, p, v), p)
  {
    var fetch := Get(s.store, p);
    SentLast(s, p, v);
    SetGoesAhead(s.cache, p, v, fetch);
    assert PropertyOk(s, p);
    if p in s.store.locked && p !in s.cache.pending {
      LockedItem(s, p);
    }
  }

  /** For a locked property without an old item, the cache after a lookup has what the daemon has. */
  lemma LockedItem(s: System, p: Name)
    requires Inv(s) && p in s.store.locked && p !in s.cache.pending
    ensures var item := Lookup(AfterLookup(s.cache, p, Get(s.store, p)).props, p);
      FixedOption(item) && item == Seen(s.store, p)
  {
    FetchIsSeen(s.store, p);
    assert PropertyOk(s, p);
    if p in s.cache.props {
      ImageIsAProjection(s.cache.props[p]);
    }
  }

  /** A set that compares equal is a lookup. */
  lemma UnsentAt(s: System, q: Name, v: Value, p: Name)
    requires Inv(s) && CanAsk(s, q) && Convertible(v)
    requires Set(s.cache, q, v, Get(s.store, q)).sent.None?
    ensures PropertyOk(LocalSetStep(s, q, v), p)
  {
    FetchIsSeen(s.store, q);
    LookupAt(s, q, p);
    var s' := s.(cache := AfterLookup(s.cache, q, Get(s.store, q)));
    assert LocalSetStep(s, q, v) == s'.(owed := SetOwed(s.owed, q, OwedTo(s, q)));
  }

  lemma SetAt(s: System, q: Name, v: Value, p: Name)
    requires Inv(s) && CanAsk(s, q) && Convertible(v)
    ensures PropertyOk(LocalSetStep(s, q, v), p)
  {
    var fetch := Get(s.store, q);
    if Set(s.cache, q, v, fetch).sent.None? {
      UnsentAt(s, q, v, p);
    } else if p == q {
      SentAt(s, p, v);
    } else {
      assert PropertyOk(s, p);
      SetGoesAhead(s.cache, q, v, fetch);
      SentElsewhere(s, LocalSetStep(s, q, v), p);
    }
  }

  /** A request for another property at the end of the queue. */
  lemma SentElsewhere(s: System, s': System, p: Name)
    requires PropertyOk(s, p) && s.nextId <= s'.nextId
    requires |s'.requests| == |s.requests| + 1 && s'.requests[..|s.requests|] == s.requests
    requires s'.requests[|s.requests|].name != p
    requires s'.store == s.store && s'.idles == s.idles && s'.inbox == s.inbox && OwedTo(s', p) == OwedTo(s, p)
    requires Lookup(s'.cache.props, p) == Lookup(s.cache.props, p)
    requires Lookup(s'.cache.pending, p) == Lookup(s.cache.pending, p)
    ensures PropertyOk(s', p)
  {
    if p in s.cache.pending {
      var calls := OwedTo(s, p);
      var last := s'.requests[|s.requests|];
      assert s'.requests == s.requests + [last];
      FindRequestAppend(s.requests, last, p, calls[|calls| - 1].id);
    }
  }

  lemma CallbackAt(s: System, q: Name, p: Name)
    requires Inv(s) && Enabled(s, CancelledCallback(q))
    ensures PropertyOk(Next(s, CancelledCallback(q)), p)
  {
    assert PropertyOk(s, p) && PropertyOk(s, q);
  }

  /** The reply that ends a burst: an accepted value stays, a refused one makes room for the value
      from before. */
  lemma BurstEnds(s: System, p: Name)
    requires Inv(s) && Enabled(s, Receive)
    requires s.inbox[0].Reply? && Awaited(s, s.inbox[0]) && s.inbox[0].name == p
    ensures PropertyOk(ReceiveStep(s), p)
  {
    var m := s.inbox[0];
    assert PropertyOk(s, p);
    LastSignalPop(s.inbox, p);
    var o := s.cache.pending[p];
    assert FindReply(s.inbox, p, m.id) == Some(m.ok) && Behind(s.inbox, p, m.id) == s.inbox[1..];
    if !m.ok && p in s.cache.props && o.item.Some? {
      FixedIsConvertible(o.item.value);
      IsEqualMeaning(s.cache.props[p], o.item.value);
    }
  }

  /** A message that leaves the old items alone. */
  lemma MessageAt(s: System, s': System, p: Name)
    requires PropertyOk(s, p) && s.inbox != []
    requires s' == s.(inbox := s.inbox[1..], cache := s'.cache, owed := s'.owed)
    requires OwedTo(s', p) == OwedTo(s, p)
    requires Lookup(s'.cache.pending, p) == Lookup(s.cache.pending, p)
    requires Lookup(s'.cache.props, p) == Lookup(s.cache.props, p)
    requires !SignalAbout(s.inbox[0], p)
    requires s.inbox[0].Reply? ==> !(s.inbox[0].name == p && Awaited(s, s.inbox[0]))
    ensures PropertyOk(s', p)
  {
    LastSignalPop(s.inbox, p);
  }

  lemma SignalAt(s: System, p: Name)
    requires Inv(s) && s.inbox != [] && SignalAbout(s.inbox[0], p)
    ensures PropertyOk(ReceiveStep(s), p)
  {
    var m := s.inbox[0];
    assert PropertyOk(s, p);
    LastSignalPop(s.inbox, p);
    if m.PropertyChanged? {
      var v := FromVariant(m.variant);
      VariantIsFixed(m.variant);
      FixedIsConvertible(v);
      if p in s.cache.props {
        IsEqualMeaning(s.cache.props[p], v);
      }
    }
  }

  lemma ReceiveAt(s: System, p: Name)
    requires Inv(s) && Enabled(s, Receive)
    ensures PropertyOk(ReceiveStep(s), p)
  {
    var m := s.inbox[0];
    assert PropertyOk(s, p) && PropertyOk(s, m.name);
    if SignalAbout(m, p) {
      SignalAt(s, p);
    } else if m.Reply? && Awaited(s, m) && m.name == p {
      BurstEnds(s, p);
    } else {
      MessageAt(s, ReceiveStep(s), p);
    }
  }

  // ---------- every step, every run ----------

  lemma StepAt(s: System, step: Step, p: Name)
    requires Inv(s) && Enabled(s, step) && Admissible(step)
    ensures PropertyOk(Next(s, step), p)
  {
    assert PropertyOk(s, p);
    match step
    case LocalLookup(q) => LookupAt(s, q, p);
    case LocalSet(q, v) => SetAt(s, q, v, p);
    case LocalReset(base, recursive, ok, gone, locked) =>
      var s' := Next(s, RemoteReset(base, recursive, gone, locked));
      ResetAt(s, base, recursive, gone, locked, p);
      EvictAt(s', AfterReset(s.cache, base, recursive, ok).props, p);
    case LocalPrefetch(scope) => PrefetchAt(s, scope, p);
    case RemoteSet(q, v) =>
      SetSeen(s.store, q, v, p);
      StoreStep(s, Next(s, step), p);
    case RemoteReset(base, recursive, gone, locked) => ResetAt(s, base, recursive, gone, locked, p);
    case LocksReturn(_) =>
    case DaemonHandle => HandleStepAt(s, p);
    case DaemonIdle(i) => IdleStepAt(s, i, p);
    case CancelledCallback(q) => CallbackAt(s, q, p);
    case Receive => ReceiveAt(s, p);
  }

  /** A reset of names without short components announces what it takes away. */
  lemma AnnouncesGone(s: System, base: Name, recursive: bool, gone: seq<Name>, locked: set<Name>)
    requires NamesOk(s) && CanReset(s.store, base, recursive, gone, locked)
    ensures ResetAnnounced(recursive, gone) == gone && forall p :: p in gone ==> p in s.store.user
  {
    if recursive {
      forall i | 0 <= i < |gone|
        ensures Announceable(gone[i])
      {
        assert gone[i] in gone;
      }
      RebuiltTheSame(gone);
    }
  }

  lemma ResetAt(s: System, base: Name, recursive: bool, gone: seq<Name>, locked: set<Name>, p: Name)
    requires Inv(s) && Enabled(s, RemoteReset(base, recursive, gone, locked))
    ensures PropertyOk(Next(s, RemoteReset(base, recursive, gone, locked)), p)
  {
    assert PropertyOk(s, p);
    AnnouncesGone(s, base, recursive, gone, locked);
    if p !in gone {
      ResetSeen(s.store, gone, locked, p);
    }
    StoreStep(s, Next(s, RemoteReset(base, recursive, gone, locked)), p);
  }

  lemma StepKeepsStore(s: System, step: Step)
    requires Inv(s) && Enabled(s, step)
    ensures StoreOk(Next(s, step).store)
  {
    match step
    case RemoteSet(q, v) => SetSeen(s.store, q, v, q);
    case DaemonHandle =>
      VariantIsFixed(s.requests[0].variant);
      SetSeen(s.store, s.requests[0].name, FromVariant(s.requests[0].variant), s.requests[0].name);
    case _ =>
  }

  lemma StepKeepsNames(s: System, step: Step)
    requires NamesOk(s) && Enabled(s, step) && Admissible(step)
    ensures NamesOk(Next(s, step))
  {
    match step
    case LocalSet(p, v) => SetKeepsNames(s, p, v);
    case _ =>
  }

  lemma SetKeepsNames(s: System, p: Name, v: Value)
    requires NamesOk(s) && Announceable(p)
    ensures NamesOk(LocalSetStep(s, p, v))
  {
  }

  /** A longer inbox without further replies. */
  lemma SignalsKeepIds(s: System, s': System, signals: seq<Message>)
    requires IdsOk(s) && s'.requests == s.requests && s'.nextId == s.nextId && s'.inbox == s.inbox + signals
    requires forall m :: m in signals ==> !m.Reply?
    ensures IdsOk(s')
  {
  }

  /** A shorter inbox. */
  lemma PopKeepsIds(s: System, s': System)
    requires IdsOk(s) && s.inbox != []
    requires s'.requests == s.requests && s'.nextId == s.nextId && s'.inbox == s.inbox[1..]
    ensures IdsOk(s')
  {
  }

  /** A new request under the next number. */
  lemma SendKeepsIds(s: System, s': System, q: Request)
    requires IdsOk(s) && q.id == s.nextId
    requires s'.requests == s.requests + [q] && s'.nextId == s.nextId + 1 && s'.inbox == s.inbox
    ensures IdsOk(s')
  {
  }

  lemma SameIds(s: System, s': System)
    requires IdsOk(s) && s'.requests == s.requests && s'.nextId == s.nextId && s'.inbox == s.inbox
    ensures IdsOk(s')
  {
  }

  lemma HandleKeepsIds(s: System)
    requires IdsOk(s) && s.requests != []
    ensures IdsOk(HandleStep(s))
  {
    var s' := HandleStep(s);
    forall m, i | m in s'.inbox && m.Reply? && 0 <= i < |s'.requests|
      ensures m.id < s'.requests[i].id
    {
      assert s'.requests[i] == s.requests[i + 1];
    }
  }

  lemma SetKeepsIds(s: System, p: Name, v: Value)
    requires IdsOk(s)
    ensures IdsOk(LocalSetStep(s, p, v))
  {
    var s' := LocalSetStep(s, p, v);
    match Set(s.cache, p, v, Get(s.store, p)).sent
    case Some(variant) => SendKeepsIds(s, s', Request(p, variant, s.nextId));
    case None => SameIds(s, s');
  }

  lemma StepKeepsIds(s: System, step: Step)
    requires IdsOk(s) && Enabled(s, step)
    ensures IdsOk(Next(s, step))
  {
    match step
    case DaemonHandle => HandleKeepsIds(s);
    case DaemonIdle(i) => SignalsKeepIds(s, Next(s, step), Signals(s.store, s.idles[i]));
    case Receive => PopKeepsIds(s, Next(s, step));
    case LocalSet(p, v) => SetKeepsIds(s, p, v);
    case _ => SameIds(s, Next(s, step));
  }

  lemma StepKeepsOwed(s: System, step: Step)
    requires Enabled(s, step)
    requires forall p :: p in s.owed ==> s.owed[p] != []
    ensures forall p :: p in Next(s, step).owed ==> Next(s, step).owed[p] != []
  {
  }

  lemma StepPreserves(s: System, step: Step)
    requires Inv(s) && Enabled(s, step) && Admissible(step)
    ensures Inv(Next(s, step))
  {
    StepKeepsStore(s, step);
    StepKeepsNames(s, step);
    StepKeepsIds(s, step);
    StepKeepsOwed(s, step);
    forall p ensures PropertyOk(Next(s, step), p) {
      StepAt(s, step, p);
    }
  }

  predicate AllAdmissible(steps: seq<Step>) {
    forall i :: 0 <= i < |steps| ==> Admissible(steps[i])
  }

  lemma {:induction false} RunPreserves(s: System, steps: seq<Step>)
    requires Inv(s) && Runs(s, steps) && AllAdmissible(steps)
    ensures Inv(Run(s, steps))
    decreases |steps|
  {
    if steps != [] {
      StepPreserves(s, steps[0]);
      RunPreserves(Next(s, steps[0]), steps[1..]);
    }
  }

  lemma InitialInv(s: System)
    requires Initial(s) && StoreOk(s.store) && NamesOk(s)
    ensures Inv(s)
  {
    forall p ensures PropertyOk(s, p) {
    }
  }

  lemma QuiescentIsCoherent(s: System)
    requires Inv(s) && Quiescent(s)
    ensures Coherent(s) && s.cache.pending == map[]
  {
    forall p | p in s.cache.props
      ensures CacheAgrees(s, p)
    {
      assert PropertyOk(s, p);
    }
    forall p ensures p !in s.cache.pending {
      assert PropertyOk(s, p);
    }
  }

  /** Convergence: along every run whose local sets have a variant form and whose names have no
      one-character component, every quiescent state is coherent. */
  lemma Converges(s: System, steps: seq<Step>)
    requires Initial(s) && StoreOk(s.store) && NamesOk(s) && Runs(s, steps) && AllAdmissible(steps)
    ensures Quiescent(Run(s, steps)) ==> Coherent(Run(s, steps))
  {
    InitialInv(s);
    RunPreserves(s, steps);
    if Quiescent(Run(s, steps)) {
      QuiescentIsCoherent(Run(s, steps));
    }
  }
}
