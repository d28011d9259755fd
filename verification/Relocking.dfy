/** Locks that a reset of the whole channel brings back do no harm where this client sets nothing: such
    a run is, but for those locks, a run without their return. */
module Relocking {
  import opened Base
  import opened Values
  import opened Names
  import opened CacheModel
  import opened Protocol
  import opened Convergence

  function KeptLocks(locked: set<Name>, keep: iset<Name>): set<Name> {
    set p | p in locked && p in keep
  }

  /** The same system with the locks of `keep` only. */
  function Cut(s: System, keep: iset<Name>): System {
    s.(store := s.store.(locked := KeptLocks(s.store.locked, keep)))
  }

  /** Values and names are as for convergence, locks of `keep` do not come back, and this client sets
      properties of `keep` only. */
  predicate Apart(step: Step, keep: iset<Name>) {
    match step
    case LocalSet(p, v) => p in keep && Convertible(v) && Announceable(p)
    case RemoteSet(p, _) => Announceable(p)
    case LocksReturn(back) => forall p :: p in back ==> p !in keep
    case _ => true
  }

  predicate AllApart(steps: seq<Step>, keep: iset<Name>) {
    forall i :: 0 <= i < |steps| ==> Apart(steps[i], keep)
  }

  predicate RequestsKept(s: System, keep: iset<Name>) {
    forall i :: 0 <= i < |s.requests| ==> s.requests[i].name in keep
  }

  /** The steps that do to the cut system what `step` does: a set refused by a lock that is cut off, and
      the return of such locks, disappear. */
  function Imitation(s: System, step: Step, keep: iset<Name>): seq<Step> {
    match step
    case RemoteSet(p, _) => if p in s.store.locked && p !in keep then [] else [step]
    case LocalReset(base, recursive, ok, gone, locked) =>
      [LocalReset(base, recursive, ok, gone, KeptLocks(locked, keep))]
    case RemoteReset(base, recursive, gone, locked) => [RemoteReset(base, recursive, gone, KeptLocks(locked, keep))]
    case LocksReturn(_) => []
    case _ => [step]
  }

  predicate Imitated(s: System, step: Step, keep: iset<Name>)
    requires Enabled(s, step)
  {
    var t, steps := Cut(s, keep), Imitation(s, step, keep);
    Runs(t, steps) && Run(t, steps) == Cut(Next(s, step), keep) && AllAdmissible(steps)
  }

  lemma StepImitated(s: System, step: Step, keep: iset<Name>)
    requires Enabled(s, step) && Apart(step, keep) && RequestsKept(s, keep)
    ensures Imitated(s, step, keep) && RequestsKept(Next(s, step), keep)
  {
    StepKeepsRequests(s, step, keep);
    match step {
      case LocksReturn(back) => assert KeptLocks(s.store.locked + back, keep) == KeptLocks(s.store.locked, keep);
      case RemoteSet(p, v) => SetImitated(s, p, v, keep);
      case LocalReset(_, _, _, _, _) => ResetImitated(s, step, keep);
      case RemoteReset(_, _, _, _) => ResetImitated(s, step, keep);
      case DaemonHandle => HandleImitated(s, keep);
      case _ => RestImitated(s, step, keep);
    }
  }

  lemma StepKeepsRequests(s: System, step: Step, keep: iset<Name>)
    requires Enabled(s, step) && Apart(step, keep) && RequestsKept(s, keep)
    ensures RequestsKept(Next(s, step), keep)
  {
  }

  lemma SetImitated(s: System, p: Name, v: Value, keep: iset<Name>)
    requires Enabled(s, RemoteSet(p, v)) && Apart(RemoteSet(p, v), keep)
    ensures Imitated(s, RemoteSet(p, v), keep)
  {
    if p !in s.store.locked || p in keep {
      OneStep(Cut(s, keep), RemoteSet(p, v));
    }
  }

  lemma ResetImitated(s: System, step: Step, keep: iset<Name>)
    requires Enabled(s, step) && (step.LocalReset? || step.RemoteReset?)
    ensures Imitated(s, step, keep)
  {
    OneStep(Cut(s, keep), Imitation(s, step, keep)[0]);
  }

  lemma HandleImitated(s: System, keep: iset<Name>)
    requires Enabled(s, DaemonHandle) && RequestsKept(s, keep)
    ensures Imitated(s, DaemonHandle, keep)
  {
    OneStep(Cut(s, keep), DaemonHandle);
  }

  /** The other steps do not look at locks. */
  lemma RestImitated(s: System, step: Step, keep: iset<Name>)
    requires Enabled(s, step) && Apart(step, keep)
    requires step.LocalLookup? || step.LocalSet? || step.LocalPrefetch? || step.DaemonIdle? ||
             step.CancelledCallback? || step.Receive?
    ensures Imitated(s, step, keep)
  {
    SameAnswers(s.store, KeptLocks(s.store.locked, keep));
    OneStep(Cut(s, keep), step);
  }

  lemma SameAnswers(d: Store, locked: set<Name>)
    ensures forall p :: Get(d, p) == Get(d.(locked := locked), p)
    ensures forall p :: Signals(d, p) == Signals(d.(locked := locked), p)
    ensures forall scope :: GetAll(d, scope) == GetAll(d.(locked := locked), scope)
  {
  }

  lemma OneStep(s: System, step: Step)
    requires Enabled(s, step)
    ensures Runs(s, [step]) && Run(s, [step]) == Next(s, step)
  {
    RunFirst(s, step, []);
    assert [step] + [] == [step];
  }

  lemma {:induction false} RunConcat(s: System, a: seq<Step>, b: seq<Step>)
    requires Runs(s, a) && Runs(Run(s, a), b)
    ensures Runs(s, a + b) && Run(s, a + b) == Run(Run(s, a), b)
    decreases |a|
  {
    if a == [] {
      assert a + b == b;
    } else {
      RunConcat(Next(s, a[0]), a[1..], b);
      assert (a + b)[1..] == a[1..] + b;
    }
  }

  lemma {:induction false} RunImitated(s: System, steps: seq<Step>, keep: iset<Name>) returns (steps': seq<Step>)
    requires Runs(s, steps) && AllApart(steps, keep) && RequestsKept(s, keep)
    ensures Runs(Cut(s, keep), steps') && Run(Cut(s, keep), steps') == Cut(Run(s, steps), keep)
    ensures AllAdmissible(steps')
    decreases |steps|
  {
    if steps == [] {
      steps' := [];
    } else {
      StepImitated(s, steps[0], keep);
      var rest := RunImitated(Next(s, steps[0]), steps[1..], keep);
      RunConcat(Cut(s, keep), Imitation(s, steps[0], keep), rest);
      steps' := Imitation(s, steps[0], keep) + rest;
    }
  }

  /** Convergence with locks that come back, as long as they are not on properties this client sets. */
  lemma ConvergesApart(s: System, steps: seq<Step>, keep: iset<Name>)
    requires Initial(s) && StoreOk(s.store) && NamesOk(s) && Runs(s, steps) && AllApart(steps, keep)
    ensures Quiescent(Run(s, steps)) ==> Coherent(Run(s, steps))
  {
    var steps' := RunImitated(s, steps, keep);
    Converges(Cut(s, keep), steps');
    assert Quiescent(Run(s, steps)) ==> Quiescent(Cut(Run(s, steps), keep));
    if Coherent(Cut(Run(s, steps), keep)) {
      CutIsCoherent(Run(s, steps), keep);
    }
  }

  lemma CutIsCoherent(s: System, keep: iset<Name>)
    requires Coherent(Cut(s, keep))
    ensures Coherent(s)
  {
    forall p | p in s.cache.props
      ensures Some(Image(s.cache.props[p])) == Seen(s.store, p)
      ensures Convertible(s.cache.props[p])
    {
      assert p in Cut(s, keep).cache.props;
      assert Seen(Cut(s, keep).store, p) == Seen(s.store, p);
    }
  }
}
