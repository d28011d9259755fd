/** The runs that do not converge, and the exact condition under which there are none. */
module Divergence {
  import opened Base
  import opened Values
  import opened Names
  import opened CacheModel
  import opened Protocol
  import opened Relocking

  function Number(n: int): Value {
    One(Int(n))
  }

  /** A client that has just connected to a daemon without user values and locks. */
  function Fresh(system: map<Name, Value>): System {
    System(EMPTY_CACHE, map[], [], Store(map[], system, {}), [], [], 0, map[], [])
  }

  // ---------- the start of every such run ----------

  /** Another client sets `p` to `n` and this client hears of it. */
  function Hear(p: Name, n: int): seq<Step> {
    [RemoteSet(p, Number(n)), DaemonIdle(0), Receive]
  }

  function Heard(p: Name, n: int, system: map<Name, Value>): System {
    Fresh(system).(cache := CacheState(map[p := Number(n)], map[], 0),
                   store := Store(map[p := Number(n)], system, {}))
  }

  lemma Hears(p: Name, n: int, system: map<Name, Value>, rest: seq<Step>)
    requires p in system ==> !Convertible(system[p])
    requires Runs(Heard(p, n, system), rest)
    ensures Runs(Fresh(system), Hear(p, n) + rest)
    ensures Run(Fresh(system), Hear(p, n) + rest) == Run(Heard(p, n, system), rest)
  {
    var s1 := Next(Fresh(system), RemoteSet(p, Number(n)));
    assert s1.store.user == map[p := Number(n)] && s1.idles == [p];
    var s2 := Next(s1, DaemonIdle(0));
    assert s2.inbox == [PropertyChanged(p, VBasic(VInt32(n)))] && s2.idles == [];
    assert Next(s2, Receive) == Heard(p, n, system);
    RunFirst(s2, Receive, rest);
    RunFirst(s1, DaemonIdle(0), [Receive] + rest);
    RunFirst(Fresh(system), RemoteSet(p, Number(n)), [DaemonIdle(0)] + ([Receive] + rest));
    assert Hear(p, n) + rest == [RemoteSet(p, Number(n))] + ([DaemonIdle(0)] + ([Receive] + rest));
  }

  // ---------- a value that cannot be sent ----------

  function FailedSet(p: Name, v: Value): seq<Step> {
    [LocalSet(p, v)] + ([RemoteSet(p, Number(2))] + ([DaemonIdle(0)] + ([Receive] + [])))
  }

  /** What the failed set leaves: an old item that no callback is owed to. */
  function Stuck(p: Name, user: map<Name, Value>): System {
    var s := Heard(p, 1, map[]);
    s.(cache := Claim(s.cache, p), store := Store(user, map[], {}))
  }

  lemma FailedSetSticks(p: Name, v: Value)
    requires !Convertible(v)
    ensures Next(Heard(p, 1, map[]), LocalSet(p, v)) == Stuck(p, map[p := Number(1)])
  {
  }

  /** From then on announcements are ignored. */
  lemma StuckIgnores(p: Name)
    ensures var rest := [RemoteSet(p, Number(2))] + ([DaemonIdle(0)] + ([Receive] + []));
      && Runs(Stuck(p, map[p := Number(1)]), rest)
      && Run(Stuck(p, map[p := Number(1)]), rest) == Stuck(p, map[p := Number(2)])
  {
    var s4 := Stuck(p, map[p := Number(1)]);
    var s5 := Stuck(p, map[p := Number(2)]).(idles := [p]);
    assert Next(s4, RemoteSet(p, Number(2))) == s5;
    var s6 := Stuck(p, map[p := Number(2)]).(inbox := [PropertyChanged(p, VBasic(VInt32(2)))]);
    assert Next(s5, DaemonIdle(0)) == s6;
    assert Next(s6, Receive) == Stuck(p, map[p := Number(2)]);
    RunFirst(s6, Receive, []);
    RunFirst(s5, DaemonIdle(0), [Receive] + []);
    RunFirst(s4, RemoteSet(p, Number(2)), [DaemonIdle(0)] + ([Receive] + []));
  }

  /** An old item without callbacks, and a cached value behind it. */
  predicate IsStuck(s: System, p: Name) {
    p in s.cache.props && p in s.cache.pending && OwedTo(s, p) == []
  }

  /** The steps that can change what is cached for a stuck property: another set of it, a reset by
      this client that evicts it, and the news that it is gone. */
  predicate Touches(s: System, step: Step, p: Name) {
    match step
    case LocalSet(q, _) => q == p
    case LocalReset(base, recursive, ok, _, _) => ok && Evicted(base, recursive, p)
    case Receive => s.inbox != [] && s.inbox[0] == PropertyRemoved(p)
    case _ => false
  }

  predicate Untouched(s: System, steps: seq<Step>, p: Name)
    requires Runs(s, steps)
    decreases |steps|
  {
    steps == [] || (!Touches(s, steps[0], p) && Untouched(Next(s, steps[0]), steps[1..], p))
  }

  lemma StuckStep(s: System, step: Step, p: Name)
    requires IsStuck(s, p) && Enabled(s, step) && !Touches(s, step, p)
    ensures IsStuck(Next(s, step), p) && Next(s, step).cache.props[p] == s.cache.props[p]
  {
    match step
    case LocalSet(q, v) => StuckSet(s, q, v, p);
    case Receive => StuckReceive(s, p);
    case _ =>
  }

  lemma StuckSet(s: System, q: Name, v: Value, p: Name)
    requires IsStuck(s, p) && q != p
    ensures IsStuck(LocalSetStep(s, q, v), p) && LocalSetStep(s, q, v).cache.props[p] == s.cache.props[p]
  {
  }

  lemma StuckReceive(s: System, p: Name)
    requires IsStuck(s, p) && Enabled(s, Receive) && !Touches(s, Receive, p)
    ensures IsStuck(ReceiveStep(s), p) && ReceiveStep(s).cache.props[p] == s.cache.props[p]
  {
  }

  /** A stuck property keeps its cached value, whatever the daemon has and announces. */
  lemma {:induction false} StuckStays(s: System, steps: seq<Step>, p: Name)
    requires IsStuck(s, p) && Runs(s, steps) && Untouched(s, steps, p)
    ensures IsStuck(Run(s, steps), p) && Run(s, steps).cache.props[p] == s.cache.props[p]
    decreases |steps|
  {
    if steps != [] {
      StuckStep(s, steps[0], p);
      StuckStays(Next(s, steps[0]), steps[1..], p);
    }
  }

  /** The set that fails leaves the cache wrong, and no run puts it right without another set,
      reset or removal of the property. */
  lemma UnconvertibleSetDiverges(p: Name, v: Value)
    requires !Convertible(v)
    ensures var steps, s := Hear(p, 1) + FailedSet(p, v), Fresh(map[]);
      Runs(s, steps) && Quiescent(Run(s, steps)) && !Coherent(Run(s, steps))
    ensures var t := Run(Fresh(map[]), Hear(p, 1) + FailedSet(p, v));
      forall rest :: Runs(t, rest) && Untouched(t, rest, p) ==>
        Lookup(Run(t, rest).cache.props, p) == Some(Number(1))
  {
    FailedSetSticks(p, v);
    StuckIgnores(p);
    RunFirst(Heard(p, 1, map[]), LocalSet(p, v), [RemoteSet(p, Number(2))] + ([DaemonIdle(0)] + ([Receive] + [])));
    Hears(p, 1, map[], FailedSet(p, v));
    var s7 := Stuck(p, map[p := Number(2)]);
    assert p in s7.cache.props && s7.cache.props[p] == Number(1) && Seen(s7.store, p) == Some(Number(2));
    forall rest | Runs(s7, rest) && Untouched(s7, rest, p)
      ensures Lookup(Run(s7, rest).cache.props, p) == Some(Number(1))
    {
      StuckStays(s7, rest, p);
    }
  }

  // ---------- a default that cannot be sent ----------

  function GiveUp(p: Name): seq<Step> {
    [RemoteReset(p, false, [p], {})] + ([DaemonIdle(0)] + [])
  }

  /** A default without variant form is announced to nobody, so the old value stays cached. */
  lemma UnconvertibleDefaultDiverges(p: Name, d: Value)
    requires !Convertible(d)
    ensures var steps, s := Hear(p, 1) + GiveUp(p), Fresh(map[p := d]);
      Runs(s, steps) && Quiescent(Run(s, steps)) && !Coherent(Run(s, steps))
  {
    var s3 := Heard(p, 1, map[p := d]);
    var s4 := Next(s3, RemoteReset(p, false, [p], {}));
    assert s4.idles == [p] && Effective(s4.store, p) == Some(d);
    var s5 := Next(s4, DaemonIdle(0));
    assert s5.idles == [] && s5.inbox == [];
    RunFirst(s4, DaemonIdle(0), []);
    RunFirst(s3, RemoteReset(p, false, [p], {}), [DaemonIdle(0)] + []);
    Hears(p, 1, map[p := d], GiveUp(p));
    assert p in s5.cache.props && Seen(s5.store, p) == None;
  }

  // ---------- a name that is announced as another ----------

  function Misannounced(p: Name): seq<Step> {
    [RemoteReset(p, true, [p], {})] + ([DaemonIdle(0)] + ([Receive] + []))
  }

  /** Another client's recursive reset removes `p`, but the removal is announced under a name cut
      off at the component of one character. */
  lemma ShortNameDiverges(p: Name)
    requires ScansClean(p) && !Announceable(p)
    ensures var steps, s := Hear(p, 1) + Misannounced(p), Fresh(map[]);
      Runs(s, steps) && Quiescent(Run(s, steps)) && !Coherent(Run(s, steps))
  {
    RebuiltIsExact(p);
    var s3 := Heard(p, 1, map[]);
    var q := Rebuilt(p);
    assert RebuiltAll([p]) == [q];
    var s4 := s3.(store := Store(map[], map[], {}), idles := [q]);
    assert Next(s3, RemoteReset(p, true, [p], {})) == s4;
    var s5 := s4.(idles := [], inbox := [PropertyRemoved(q)]);
    assert Next(s4, DaemonIdle(0)) == s5;
    assert Next(s5, Receive) == s5.(inbox := []);
    RunFirst(s5, Receive, []);
    RunFirst(s4, DaemonIdle(0), [Receive] + []);
    RunFirst(s3, RemoteReset(p, true, [p], {}), [DaemonIdle(0)] + ([Receive] + []));
    Hears(p, 1, map[], Misannounced(p));
    assert p in s5.cache.props && Seen(s5.store, p) == None;
  }

  // ---------- a lock that comes back ----------

  /** Another client resets the whole channel, and the lock of `p` comes back. */
  function Relock(p: Name): seq<Step> {
    [RemoteReset("/", true, [p], {})] + ([LocksReturn({p})] + ([DaemonIdle(0)] + []))
  }

  /** The store after that: nothing but the lock. */
  function OnlyLock(p: Name): Store {
    Store(map[], map[], {p})
  }

  function Relocked(p: Name, n: int): System {
    Heard(p, n, map[]).(store := OnlyLock(p), inbox := [PropertyRemoved(p)])
  }

  function Emptied(p: Name, n: int): System {
    Heard(p, n, map[]).(store := Store(map[], map[], {}), idles := [p])
  }

  lemma ChannelReset(p: Name, n: int)
    requires Announceable(p) && ScansClean(p)
    ensures Enabled(Heard(p, n, map[]), RemoteReset("/", true, [p], {}))
    ensures Next(Heard(p, n, map[]), RemoteReset("/", true, [p], {})) == Emptied(p, n)
  {
    RebuiltIsExact(p);
    assert RebuiltAll([p]) == [p];
    assert Next(Heard(p, n, map[]), RemoteReset("/", true, [p], {})).store == Emptied(p, n).store;
  }

  lemma LockComesBack(p: Name, n: int, rest: seq<Step>)
    requires Announceable(p) && ScansClean(p) && Runs(Relocked(p, n), rest)
    ensures Runs(Heard(p, n, map[]), Relock(p) + rest)
    ensures Run(Heard(p, n, map[]), Relock(p) + rest) == Run(Relocked(p, n), rest)
  {
    var s0 := Heard(p, n, map[]);
    var s1 := Emptied(p, n);
    ChannelReset(p, n);
    var s2 := s1.(store := OnlyLock(p));
    assert Next(s1, LocksReturn({p})) == s2;
    assert Next(s2, DaemonIdle(0)) == Relocked(p, n);
    RunFirst(s2, DaemonIdle(0), rest);
    RunFirst(s1, LocksReturn({p}), [DaemonIdle(0)] + rest);
    RunFirst(s0, RemoteReset("/", true, [p], {}), [LocksReturn({p})] + ([DaemonIdle(0)] + rest));
    assert Relock(p) + rest ==
      [RemoteReset("/", true, [p], {})] + ([LocksReturn({p})] + ([DaemonIdle(0)] + rest));
  }

  /** This client sets the property, hears that it is gone, and sets it again before the first callback
      has run; both sets are refused. */
  function SetTwice(p: Name, v: Value): seq<Step> {
    [LocalSet(p, v)] + ([Receive] + ([DaemonHandle] + SetAgain(p, v)))
  }

  function SetAgain(p: Name, v: Value): seq<Step> {
    [LocalSet(p, v)] + ([CancelledCallback(p)] + ([Receive] + ([DaemonHandle] + ([Receive] + []))))
  }

  /** During the burst, whose old item remembers `n`. */
  function InBurst(p: Name, n: int, v: Value, variant: Variant, calls: seq<Owed>, cached: bool,
                   requests: seq<Request>, inbox: seq<Message>, handled: nat): System
  {
    Relocked(p, n).(
      cache := CacheState(if cached then map[p := v] else map[],
                          map[p := OldRecord(0, Some(Number(n)), |calls|, Some(variant), true)], 1),
      owed := map[p := calls],
      requests := requests,
      inbox := inbox,
      nextId := if calls == [] then 0 else calls[|calls| - 1].id + 1,
      shown := map[p := v],
      log := seq(handled, _ => (p, variant)))
  }

  /** After the first set has been refused, the property is out of the cache. */
  function FirstRefused(p: Name, n: int, v: Value, variant: Variant): System {
    InBurst(p, n, v, variant, [Owed(0, false)], false, [], [Reply(p, 0, false)], 1)
  }

  function FirstSent(p: Name, n: int, v: Value, variant: Variant): System {
    InBurst(p, n, v, variant, [Owed(0, false)], true, [Request(p, variant, 0)], [PropertyRemoved(p)], 0)
  }

  lemma FirstSet(p: Name, n: int, v: Value, variant: Variant)
    requires v != Number(n) && ToVariant(v) == Some(variant)
    ensures Next(Relocked(p, n), LocalSet(p, v)) == FirstSent(p, n, v, variant)
  {
    var s := Relocked(p, n);
    var r := Set(s.cache, p, v, Get(s.store, p));
    assert OwedTo(s, p) == [] && !r.cancelled && r.sent == Some(variant);
    assert r.cache == FirstSent(p, n, v, variant).cache;
    assert [] + [Owed(0, false)] == [Owed(0, false)];
  }

  lemma FirstSetRefused(p: Name, n: int, v: Value, variant: Variant, rest: seq<Step>)
    requires v != Number(n) && ToVariant(v) == Some(variant) && Runs(FirstRefused(p, n, v, variant), rest)
    ensures var steps := [LocalSet(p, v)] + ([Receive] + ([DaemonHandle] + rest));
      Runs(Relocked(p, n), steps) && Run(Relocked(p, n), steps) == Run(FirstRefused(p, n, v, variant), rest)
  {
    var s0, s1 := Relocked(p, n), FirstSent(p, n, v, variant);
    FirstSet(p, n, v, variant);
    var s2 := InBurst(p, n, v, variant, [Owed(0, false)], false, [Request(p, variant, 0)], [], 0);
    assert Next(s1, Receive) == s2;
    assert Next(s2, DaemonHandle) == FirstRefused(p, n, v, variant);
    RunFirst(s2, DaemonHandle, rest);
    RunFirst(s1, Receive, [DaemonHandle] + rest);
    RunFirst(s0, LocalSet(p, v), [Receive] + ([DaemonHandle] + rest));
  }

  /** The second set, before the callback of the first. */
  function SecondSent(p: Name, n: int, v: Value, variant: Variant): System {
    InBurst(p, n, v, variant, [Owed(1, false)], true, [Request(p, variant, 1)], [Reply(p, 0, false)], 1)
  }

  function SecondWaits(p: Name, n: int, v: Value, variant: Variant): System {
    InBurst(p, n, v, variant, [Owed(0, true), Owed(1, false)], true, [Request(p, variant, 1)], [Reply(p, 0, false)], 1)
  }

  lemma SecondSet(p: Name, n: int, v: Value, variant: Variant)
    requires ToVariant(v) == Some(variant)
    ensures Next(FirstRefused(p, n, v, variant), LocalSet(p, v)) == SecondWaits(p, n, v, variant)
  {
    var s := FirstRefused(p, n, v, variant);
    var r := Set(s.cache, p, v, Get(s.store, p));
    assert Get(s.store, p) == NotFound && r.cancelled && r.sent == Some(variant);
    assert r.cache == SecondWaits(p, n, v, variant).cache;
    assert CancelAll([Owed(0, false)]) == [Owed(0, true)];
    assert [Owed(0, true)] + [Owed(1, false)] == [Owed(0, true), Owed(1, false)];
    assert [] + [Request(p, variant, 1)] == [Request(p, variant, 1)];
  }

  lemma SecondSetSent(p: Name, n: int, v: Value, variant: Variant, rest: seq<Step>)
    requires ToVariant(v) == Some(variant) && Runs(SecondSent(p, n, v, variant), rest)
    ensures var s, steps := FirstRefused(p, n, v, variant), [LocalSet(p, v)] + ([CancelledCallback(p)] + rest);
      Runs(s, steps) && Run(s, steps) == Run(SecondSent(p, n, v, variant), rest)
  {
    var s0, s1 := FirstRefused(p, n, v, variant), SecondWaits(p, n, v, variant);
    SecondSet(p, n, v, variant);
    assert Next(s1, CancelledCallback(p)) == SecondSent(p, n, v, variant);
    RunFirst(s1, CancelledCallback(p), rest);
    RunFirst(s0, LocalSet(p, v), [CancelledCallback(p)] + rest);
  }

  /** The rollback puts back what the daemon has dropped long ago. */
  lemma SecondSetRefused(p: Name, n: int, v: Value, variant: Variant)
    requires ToVariant(v) == Some(variant)
    ensures var s, steps := SecondSent(p, n, v, variant), [Receive] + ([DaemonHandle] + ([Receive] + []));
      && Runs(s, steps) && Quiescent(Run(s, steps))
      && p in Run(s, steps).cache.props && Run(s, steps).store == OnlyLock(p)
  {
    var s0 := SecondSent(p, n, v, variant);
    var s1 := InBurst(p, n, v, variant, [Owed(1, false)], true, [Request(p, variant, 1)], [], 1);
    assert Next(s0, Receive) == s1;
    var s2 := InBurst(p, n, v, variant, [Owed(1, false)], true, [], [Reply(p, 1, false)], 2);
    assert Next(s1, DaemonHandle) == s2;
    RunFirst(s2, Receive, []);
    RunFirst(s1, DaemonHandle, [Receive] + []);
    RunFirst(s0, Receive, [DaemonHandle] + ([Receive] + []));
  }

  function OtherNumber(v: Value): int {
    if v == Number(1) then 2 else 1
  }

  /** A lock that had been pruned away comes back with a reset of the whole channel.  This client, which
      has the property cached, sets it twice to a value that can be sent, and is left with the value from
      before the reset. */
  lemma ReturningLockDiverges(p: Name, v: Value)
    requires ScansClean(p) && Announceable(p) && Convertible(v)
    ensures var s, steps := Fresh(map[]), Hear(p, OtherNumber(v)) + (Relock(p) + SetTwice(p, v));
      Runs(s, steps) && Quiescent(Run(s, steps)) && !Coherent(Run(s, steps))
  {
    var n, variant := OtherNumber(v), ToVariant(v).value;
    SecondSetRefused(p, n, v, variant);
    SecondSetSent(p, n, v, variant, [Receive] + ([DaemonHandle] + ([Receive] + [])));
    FirstSetRefused(p, n, v, variant, SetAgain(p, v));
    LockComesBack(p, n, SetTwice(p, v));
    Hears(p, n, map[], Relock(p) + SetTwice(p, v));
    assert Seen(OnlyLock(p), p) == None;
  }

  // ---------- the condition is exact ----------

  predicate StepWithin(local: iset<Value>, names: iset<Name>, relocked: iset<Name>, step: Step) {
    match step
    case LocalSet(p, v) => p in names && v in local
    case RemoteSet(p, _) => p in names
    case LocksReturn(back) => forall p :: p in back ==> p in relocked
    case _ => true
  }

  predicate SetsWithin(local: iset<Value>, names: iset<Name>, relocked: iset<Name>, steps: seq<Step>) {
    forall i :: 0 <= i < |steps| ==> StepWithin(local, names, relocked, steps[i])
  }

  lemma WithinConcat(local: iset<Value>, names: iset<Name>, relocked: iset<Name>, a: seq<Step>, b: seq<Step>)
    requires SetsWithin(local, names, relocked, a) && SetsWithin(local, names, relocked, b)
    ensures SetsWithin(local, names, relocked, a + b)
  {
  }

  /** A run that sets properties of `names`, locally to values of `local`, from a daemon that has values
      of `stored` for some of them; a reset of the whole channel brings back locks of `relocked` only. */
  ghost predicate RunWithin(local: iset<Value>, stored: iset<Value>, names: iset<Name>, relocked: iset<Name>,
                            s: System, steps: seq<Step>)
  {
    && Initial(s) && Runs(s, steps) && SetsWithin(local, names, relocked, steps)
    && (forall p :: p in s.store.user ==> p in names && s.store.user[p] in stored)
    && (forall p :: p in s.store.system ==> p in names && s.store.system[p] in stored)
  }

  ghost predicate AlwaysConverges(local: iset<Value>, stored: iset<Value>, names: iset<Name>, relocked: iset<Name>) {
    forall s, steps :: RunWithin(local, stored, names, relocked, s, steps) && Quiescent(Run(s, steps)) ==>
      Coherent(Run(s, steps))
  }

  /** What a caller has to see to. */
  ghost predicate AllCanTravel(local: iset<Value>, stored: iset<Value>, names: iset<Name>) {
    && (forall v :: v in local ==> Convertible(v))
    && (forall v :: v in stored ==> Convertible(v))
    && (forall p :: p in names ==> Announceable(p))
  }

  /** Nothing is set locally, or no lock comes back on a property that is set. */
  ghost predicate LocksStayAway(local: iset<Value>, names: iset<Name>, relocked: iset<Name>) {
    (forall v :: v !in local) || (forall p :: p in names ==> p !in relocked)
  }

  /** Convergence holds for all runs over a set of valid names if and only if there are no names at
      all, or all values that may be set locally or stored have a variant form, no name has a component
      of one character, and no lock comes back where this client sets something. */
  lemma ConvergenceIsExact(local: iset<Value>, stored: iset<Value>, names: iset<Name>, relocked: iset<Name>)
    requires forall p :: p in names ==> ScansClean(p)
    ensures AlwaysConverges(local, stored, names, relocked) <==>
      (forall p :: p !in names) || (AllCanTravel(local, stored, names) && LocksStayAway(local, names, relocked))
  {
    if (forall p :: p !in names) || (AllCanTravel(local, stored, names) && LocksStayAway(local, names, relocked)) {
      forall s, steps | RunWithin(local, stored, names, relocked, s, steps) && Quiescent(Run(s, steps))
        ensures Coherent(Run(s, steps))
      {
        ConvergesApart(s, steps, if forall v :: v !in local then iset{} else names);
      }
    } else {
      var p :| p in names;
      SomeRunDiverges(local, stored, names, relocked, p);
    }
  }

  lemma SomeRunDiverges(local: iset<Value>, stored: iset<Value>, names: iset<Name>, relocked: iset<Name>, p: Name)
    requires (forall q :: q in names ==> ScansClean(q)) && p in names
    requires !AllCanTravel(local, stored, names) || !LocksStayAway(local, names, relocked)
    ensures !AlwaysConverges(local, stored, names, relocked)
  {
    if v :| v in local && !Convertible(v) {
      SetRefutes(local, stored, names, relocked, p, v);
    } else if d :| d in stored && !Convertible(d) {
      DefaultRefutes(local, stored, names, relocked, p, d);
    } else if q :| q in names && !Announceable(q) {
      NameRefutes(local, stored, names, relocked, q);
    } else {
      var v :| v in local;
      var q :| q in names && q in relocked;
      LockRefutes(local, stored, names, relocked, q, v);
    }
  }

  lemma SetRefutes(local: iset<Value>, stored: iset<Value>, names: iset<Name>, relocked: iset<Name>, p: Name, v: Value)
    requires p in names && v in local && !Convertible(v)
    ensures !AlwaysConverges(local, stored, names, relocked)
  {
    UnconvertibleSetDiverges(p, v);
    WithinConcat(local, names, relocked, Hear(p, 1), FailedSet(p, v));
    assert RunWithin(local, stored, names, relocked, Fresh(map[]), Hear(p, 1) + FailedSet(p, v));
  }

  lemma DefaultRefutes(local: iset<Value>, stored: iset<Value>, names: iset<Name>, relocked: iset<Name>,
                       p: Name, d: Value)
    requires p in names && d in stored && !Convertible(d)
    ensures !AlwaysConverges(local, stored, names, relocked)
  {
    UnconvertibleDefaultDiverges(p, d);
    WithinConcat(local, names, relocked, Hear(p, 1), GiveUp(p));
    assert RunWithin(local, stored, names, relocked, Fresh(map[p := d]), Hear(p, 1) + GiveUp(p));
  }

  lemma NameRefutes(local: iset<Value>, stored: iset<Value>, names: iset<Name>, relocked: iset<Name>, p: Name)
    requires p in names && ScansClean(p) && !Announceable(p)
    ensures !AlwaysConverges(local, stored, names, relocked)
  {
    ShortNameDiverges(p);
    WithinConcat(local, names, relocked, Hear(p, 1), Misannounced(p));
    assert RunWithin(local, stored, names, relocked, Fresh(map[]), Hear(p, 1) + Misannounced(p));
  }

  lemma LockRefutes(local: iset<Value>, stored: iset<Value>, names: iset<Name>, relocked: iset<Name>, p: Name, v: Value)
    requires p in names && p in relocked && v in local && ScansClean(p) && Announceable(p) && Convertible(v)
    ensures !AlwaysConverges(local, stored, names, relocked)
  {
    ReturningLockDiverges(p, v);
    WithinConcat(local, names, relocked, Relock(p), SetTwice(p, v));
    WithinConcat(local, names, relocked, Hear(p, OtherNumber(v)), Relock(p) + SetTwice(p, v));
    assert RunWithin(local, stored, names, relocked, Fresh(map[]), Hear(p, OtherNumber(v)) + (Relock(p) + SetTwice(p, v)));
  }
}
