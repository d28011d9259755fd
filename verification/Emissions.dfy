/** What the application hears: an observer of the emissions knows the cache, and in the end the
    daemon. */
module Emissions {
  import opened Base
  import opened Values
  import opened CacheModel
  import opened Protocol
  import opened Convergence

  /** What a step tells the application. */
  function EmittedBy(s: System, step: Step): Option<Emission>
    requires Enabled(s, step)
  {
    match step
    case LocalSet(p, v) => Set(s.cache, p, v, Get(s.store, p)).emitted
    case CancelledCallback(p) => ReplyEmission(s.cache, p, false)
    case Receive =>
      (match s.inbox[0]
       case PropertyChanged(p, variant) => ChangedEmission(s.cache, p, FromVariant(variant))
       case PropertyRemoved(p) => Some(Emission(p, None))
       case Reply(p, _, ok) => if Awaited(s, s.inbox[0]) then ReplyEmission(s.cache, p, ok) else None)
    case _ => None
  }

  /** The observer takes an emission at its word. */
  function Heed(heard: map<Name, Value>, e: Option<Emission>): map<Name, Value> {
    match e
    case Some(Emission(p, Some(v))) => heard[p := v]
    case Some(Emission(p, None)) => heard - {p}
    case None => heard
  }

  /** Nothing is told when the cache asks the daemon and keeps the answer, or forgets after a reset. */
  predicate Silent(s: System, step: Step, p: Name) {
    match step
    case LocalLookup(q) => q == p && p !in s.cache.props
    case LocalSet(q, _) => q == p && p !in s.cache.props
    case LocalReset(base, recursive, ok, _, _) => ok && Evicted(base, recursive, p)
    case LocalPrefetch(_) => s.cache.props == map[]
    case _ => false
  }

  /** Every step: what is told is so, and an entry that changes is told, unless the step is silent
      about it. */
  lemma StepTells(s: System, step: Step)
    requires Enabled(s, step)
    ensures var s', e := Next(s, step), EmittedBy(s, step);
      && (e.Some? ==> Lookup(s'.cache.props, e.value.name) == e.value.value)
      && forall p :: Lookup(s'.cache.props, p) != Lookup(s.cache.props, p) ==>
           (e.Some? && e.value.name == p) || Silent(s, step, p)
  {
    match step {
      case LocalSet(p, v) => SetTells(s.cache, p, v, Get(s.store, p));
      case CancelledCallback(p) => ReplyTells(s.cache, p, false);
      case Receive => ReceiveTells(s);
      case _ =>
    }
  }

  lemma ReceiveTells(s: System)
    requires Enabled(s, Receive)
    ensures Told(s.cache.props, ReceiveStep(s).cache.props, EmittedBy(s, Receive))
  {
    match s.inbox[0] {
      case PropertyChanged(p, variant) => ChangedTells(s.cache, p, FromVariant(variant));
      case PropertyRemoved(p) => RemovedTells(s.cache, p);
      case Reply(p, _, ok) =>
        if Awaited(s, s.inbox[0]) {
          ReplyTells(s.cache, p, ok);
        }
    }
  }

  /** The names for which the observer is up to date: told about, and not touched in silence since. */
  ghost predicate UpToDate(s: System, steps: seq<Step>, p: Name, known: bool)
    requires Runs(s, steps)
    decreases |steps|
  {
    if steps == [] then known
    else
      var e := EmittedBy(s, steps[0]);
      UpToDate(Next(s, steps[0]), steps[1..], p,
               (e.Some? && e.value.name == p) || (known && !Silent(s, steps[0], p)))
  }

  /** The observer after a run. */
  function Observed(s: System, steps: seq<Step>, heard: map<Name, Value>): map<Name, Value>
    requires Runs(s, steps)
    decreases |steps|
  {
    if steps == [] then heard
    else Observed(Next(s, steps[0]), steps[1..], Heed(heard, EmittedBy(s, steps[0])))
  }

  /** Over every run: what the observer has heard last about a name is what the cache holds for it, until
      the cache asks the daemon about it or forgets it. */
  lemma {:induction false} ObserverKnows(s: System, steps: seq<Step>, heard: map<Name, Value>, p: Name, known: bool)
    requires Runs(s, steps) && (known ==> Lookup(heard, p) == Lookup(s.cache.props, p))
    ensures UpToDate(s, steps, p, known) ==> Lookup(Observed(s, steps, heard), p) == Lookup(Run(s, steps).cache.props, p)
    decreases |steps|
  {
    if steps != [] {
      StepTells(s, steps[0]);
      var e := EmittedBy(s, steps[0]);
      ObserverKnows(Next(s, steps[0]), steps[1..], Heed(heard, e), p,
                    (e.Some? && e.value.name == p) || (known && !Silent(s, steps[0], p)));
    }
  }

  /** So once nothing is outstanding, what the application heard last is what the daemon has. */
  lemma ApplicationConverges(s: System, steps: seq<Step>, p: Name)
    requires Initial(s) && StoreOk(s.store) && NamesOk(s) && Runs(s, steps) && AllAdmissible(steps)
    requires Quiescent(Run(s, steps)) && UpToDate(s, steps, p, false)
    ensures var heard, t := Observed(s, steps, map[]), Run(s, steps);
      p in heard ==> Convertible(heard[p]) && Some(Image(heard[p])) == Seen(t.store, p)
  {
    Converges(s, steps);
    ObserverKnows(s, steps, map[], p, false);
    assert p in Run(s, steps).cache.props ==> CacheAgrees(Run(s, steps), p);
  }
}
