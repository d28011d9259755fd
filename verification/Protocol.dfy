/** One client cache, the daemon and other clients, as a state machine.

    The bus is three queues: requests of this client on their way to the daemon, the daemon's idle
    callbacks, and the messages (replies and signals) on their way to this client.  Synchronous
    calls are answered at once, after the requests sent before them and ahead of the messages
    still queued at the client.  Names are valid property names of one channel. */
module Protocol {
  import opened Base
  import opened Values
  import opened Names
  import opened CacheModel

  // ---------- the daemon's store ----------

  /** User values, system defaults, and the properties whose node is locked. */
  datatype Store = Store(user: map<Name, Value>, system: map<Name, Value>, locked: set<Name>)

  /** User value, else system default. */
  function Effective(d: Store, p: Name): Option<Value> {
    FirstOf(Lookup(d.user, p), Lookup(d.system, p))
  }

  /** `esconf_backend_perchannel_xml_set`: refused on a locked property, nothing to do if the
      effective value compares equal. */
  datatype StoreOutcome = StoreOutcome(store: Store, ok: bool, changed: bool)

  function StoreSet(d: Store, p: Name, v: Value): StoreOutcome {
    if p in d.locked then StoreOutcome(d, false, false)
    else if IsEqual(Effective(d, p), Some(v)) then StoreOutcome(d, true, false)
    else StoreOutcome(d.(user := d.user[p := v]), true, true)
  }

  /** What a reset may take away: a single one the user value of `base`, a recursive one all user
      values that `base` covers.  No lock appears, unless it comes back by `LocksReturn`. */
  predicate CanReset(d: Store, base: Name, recursive: bool, gone: seq<Name>, locked: set<Name>) {
    && locked <= d.locked
    && (!recursive ==> gone == if base in d.user then [base] else [])
    && (recursive ==>
          && (forall p :: p in gone ==> p in d.user && Covers(base, p))
          && (forall p :: p in d.user && Covers(base, p) ==> p in gone))
  }

  /** The names a reset announces: a single one the name it was given, a recursive one the names
      rebuilt from the nodes. */
  function ResetAnnounced(recursive: bool, gone: seq<Name>): seq<Name> {
    if recursive then RebuiltAll(gone) else gone
  }

  /** A reset takes the user values of `gone` away; pruning may take locks with it. */
  function StoreReset(d: Store, gone: seq<Name>, locked: set<Name>): Store {
    Store(map p | p in d.user && p !in gone :: d.user[p], d.system, locked)
  }

  /** The answer of GetProperty: a value without a variant form is an error, not an absence. */
  function Get(d: Store, p: Name): Fetch {
    match Effective(d, p)
    case None => NotFound
    case Some(v) => if Convertible(v) then Found(Image(v)) else Failed
  }

  /** The answer of GetAllProperties, restricted to the names `scope`. */
  function GetAll(d: Store, scope: set<Name>): map<Name, Value> {
    map p | p in d.user.Keys + d.system.Keys && p in scope && SentInHash(Effective(d, p).value).Some?
      :: FromVariant(SentInHash(Effective(d, p).value).value)
  }

  // ---------- messages ----------

  datatype Request = Request(name: Name, variant: Variant, id: nat)

  datatype Message =
    | Reply(name: Name, id: nat, ok: bool)
    | PropertyChanged(name: Name, variant: Variant)
    | PropertyRemoved(name: Name)

  /** What the idle callback sends: the value of that moment, or a removal; nothing at all if the
      value has no variant form. */
  function Signals(d: Store, p: Name): seq<Message> {
    match Effective(d, p)
    case None => [PropertyRemoved(p)]
    case Some(v) =>
      match ToVariant(v)
      case Some(variant) => [PropertyChanged(p, variant)]
      case None => []
  }

  /** A callback still owed to the client: the call it belongs to, and whether that call was
      cancelled by a later set. */
  datatype Owed = Owed(id: nat, cancelled: bool)

  // ---------- the system ----------

  /** `shown` remembers the last value whose call was sent, `log` the requests of this client the
      daemon has handled; both are only observed. */
  datatype System = System(
    cache: CacheState,
    owed: map<Name, seq<Owed>>,
    requests: seq<Request>,
    store: Store,
    idles: seq<Name>,
    inbox: seq<Message>,
    nextId: nat,
    shown: map<Name, Value>,
    log: seq<(Name, Variant)>)

  /** A reset of the whole channel, with the base "" or "/", drops the daemon's tree: it is a recursive
      reset, and then the system files are read again and bring back the locks that pruning had taken
      away, which is `LocksReturn`. */
  datatype Step =
    | LocalLookup(p: Name)
    | LocalSet(p: Name, v: Value)
    | LocalReset(base: Name, recursive: bool, ok: bool, gone: seq<Name>, locked: set<Name>)
    | LocalPrefetch(scope: set<Name>)
    | RemoteSet(p: Name, v: Value)
    | RemoteReset(base: Name, recursive: bool, gone: seq<Name>, locked: set<Name>)
    | LocksReturn(back: set<Name>)
    | DaemonHandle
    | DaemonIdle(i: nat)
    | CancelledCallback(p: Name)
    | Receive

  function OwedTo(s: System, p: Name): seq<Owed> {
    if p in s.owed then s.owed[p] else []
  }

  function SetOwed(owed: map<Name, seq<Owed>>, p: Name, calls: seq<Owed>): map<Name, seq<Owed>> {
    if calls == [] then owed - {p} else owed[p := calls]
  }

  /** All calls owed to `p` are cancelled. */
  function CancelAll(calls: seq<Owed>): seq<Owed> {
    seq(|calls|, i requires 0 <= i < |calls| => calls[i].(cancelled := true))
  }

  /** The reply that `m` carries is awaited: it belongs to a call still owed and not cancelled. */
  predicate Awaited(s: System, m: Message)
    requires m.Reply?
  {
    var calls := OwedTo(s, m.name);
    calls != [] && calls[|calls| - 1] == Owed(m.id, false)
  }

  /** A lookup that has to ask the daemon waits for the requests sent before it. */
  predicate CanAsk(s: System, p: Name) {
    p in s.cache.props || s.requests == []
  }

  /** When a step can happen.  Synchronous calls wait for the requests ahead of them; callbacks run
      in call order, so the reply of a live call is taken only after the callbacks of the cancelled
      calls before it. */
  predicate Enabled(s: System, step: Step) {
    match step
    case LocalLookup(p) => CanAsk(s, p)
    case LocalSet(p, v) => CanAsk(s, p)
    case LocalReset(base, recursive, ok, gone, locked) =>
      && s.requests == [] && CanReset(s.store, base, recursive, gone, locked)
      && (!recursive ==> (ok <==> gone != []))
    case LocalPrefetch(_) => s.requests == []
    case RemoteSet(_, v) => Convertible(v) && Fixed(v)
    case RemoteReset(base, recursive, gone, locked) => CanReset(s.store, base, recursive, gone, locked)
    case LocksReturn(_) => s.store.user == map[]
    case DaemonHandle => s.requests != []
    case DaemonIdle(i) => i < |s.idles|
    case CancelledCallback(p) => OwedTo(s, p) != [] && OwedTo(s, p)[0].cancelled && p in s.cache.pending
    case Receive =>
      s.inbox != [] &&
      (s.inbox[0].Reply? && Awaited(s, s.inbox[0]) ==>
         |OwedTo(s, s.inbox[0].name)| == 1 && s.inbox[0].name in s.cache.pending)
  }

  /** The set call of this client. */
  function LocalSetStep(s: System, p: Name, v: Value): System {
    var r := Set(s.cache, p, v, Get(s.store, p));
    var calls := OwedTo(s, p);
    var calls' := if r.cancelled then CancelAll(calls) else calls;
    match r.sent
    case None => s.(cache := r.cache, owed := SetOwed(s.owed, p, calls'))
    case Some(variant) =>
      s.(cache := r.cache,
         owed := SetOwed(s.owed, p, calls' + [Owed(s.nextId, false)]),
         requests := s.requests + [Request(p, variant, s.nextId)],
         nextId := s.nextId + 1,
         shown := s.shown[p := v])
  }

  function Announce(s: System, changed: bool, p: Name): seq<Name> {
    if changed then s.idles + [p] else s.idles
  }

  /** The daemon takes the oldest request and answers it. */
  function HandleStep(s: System): System
    requires s.requests != []
  {
    var q := s.requests[0];
    var r := StoreSet(s.store, q.name, FromVariant(q.variant));
    s.(requests := s.requests[1..],
       store := r.store,
       idles := Announce(s, r.changed, q.name),
       inbox := s.inbox + [Reply(q.name, q.id, r.ok)],
       log := s.log + [(q.name, q.variant)])
  }

  /** The client takes the oldest message.  A reply whose call was cancelled has no effect of its
      own: its callback runs with the cancellation instead. */
  function ReceiveStep(s: System): System
    requires Enabled(s, Receive)
  {
    var m := s.inbox[0];
    var s' := s.(inbox := s.inbox[1..]);
    match m
    case PropertyChanged(p, variant) => s'.(cache := Changed(s.cache, p, FromVariant(variant)))
    case PropertyRemoved(p) => s'.(cache := Removed(s.cache, p))
    case Reply(p, _, ok) =>
      if Awaited(s, m)
      then s'.(cache := Replied(s.cache, p, ok), owed := SetOwed(s.owed, p, OwedTo(s, p)[1..]))
      else s'
  }

  function Next(s: System, step: Step): System
    requires Enabled(s, step)
  {
    match step
    case LocalLookup(p) => s.(cache := AfterLookup(s.cache, p, Get(s.store, p)))
    case LocalSet(p, v) => LocalSetStep(s, p, v)
    case LocalReset(base, recursive, ok, gone, locked) =>
      s.(store := StoreReset(s.store, gone, locked),
         idles := s.idles + ResetAnnounced(recursive, gone),
         cache := AfterReset(s.cache, base, recursive, ok))
    case LocalPrefetch(scope) => s.(cache := AfterPrefetch(s.cache, Some(GetAll(s.store, scope))))
    case RemoteSet(p, v) =>
      var r := StoreSet(s.store, p, v);
      s.(store := r.store, idles := Announce(s, r.changed, p))
    case RemoteReset(base, recursive, gone, locked) =>
      s.(store := StoreReset(s.store, gone, locked), idles := s.idles + ResetAnnounced(recursive, gone))
    case LocksReturn(back) => s.(store := s.store.(locked := s.store.locked + back))
    case DaemonHandle => HandleStep(s)
    case DaemonIdle(i) =>
      s.(idles := s.idles[..i] + s.idles[i + 1..], inbox := s.inbox + Signals(s.store, s.idles[i]))
    case CancelledCallback(p) =>
      s.(cache := Replied(s.cache, p, false), owed := SetOwed(s.owed, p, OwedTo(s, p)[1..]))
    case Receive => ReceiveStep(s)
  }

  // ---------- runs ----------

  /** A client that has just connected to a daemon with some store. */
  predicate Initial(s: System) {
    && s.cache == EMPTY_CACHE && s.owed == map[] && s.requests == [] && s.idles == [] && s.inbox == []
    && s.nextId == 0 && s.shown == map[] && s.log == []
    && s.store.locked !! s.store.user.Keys
  }

  predicate Runs(s: System, steps: seq<Step>)
    decreases |steps|
  {
    steps == [] || (Enabled(s, steps[0]) && Runs(Next(s, steps[0]), steps[1..]))
  }

  function Run(s: System, steps: seq<Step>): System
    requires Runs(s, steps)
    decreases |steps|
  {
    if steps == [] then s else Run(Next(s, steps[0]), steps[1..])
  }

  lemma RunFirst(s: System, step: Step, rest: seq<Step>)
    requires Enabled(s, step) && Runs(Next(s, step), rest)
    ensures Runs(s, [step] + rest) && Run(s, [step] + rest) == Run(Next(s, step), rest)
  {
    assert ([step] + rest)[1..] == rest;
  }

  /** No call, reply, signal or idle callback is outstanding. */
  predicate Quiescent(s: System) {
    s.requests == [] && s.idles == [] && s.inbox == [] && s.owed == map[]
  }

  /** What `p` looks like from outside the daemon. */
  function Seen(d: Store, p: Name): Option<Value> {
    match Effective(d, p)
    case Some(v) => if Convertible(v) then Some(Image(v)) else None
    case None => None
  }

  /** Every cached property is the daemon's effective value as the bus carries it. */
  ghost predicate Coherent(s: System) {
    forall p :: p in s.cache.props ==>
      && Convertible(s.cache.props[p]) && Some(Image(s.cache.props[p])) == Seen(s.store, p)
  }
}
