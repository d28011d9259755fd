/** What the application sees while overlapping sets of one property are under way, and after. */
module Bursts {
  import opened Base
  import opened Values
  import opened CacheModel
  import opened Protocol
  import opened Lifetime

  /** A burst is running on `p`: the cache shows `shown`, and `item` is what it had before. */
  predicate InBurst(s: System, p: Name, item: Option<Value>, shown: Value) {
    && p in s.cache.pending && s.cache.pending[p].item == item
    && Lookup(s.cache.props, p) == Some(shown)
  }

  /** The step neither removes `p` from the cache nor resets it. */
  predicate Undisturbed(s: System, step: Step, p: Name) {
    && (step.LocalReset? && step.ok ==> !Evicted(step.base, step.recursive, p))
    && (step.Receive? && s.inbox != [] ==> s.inbox[0] != PropertyRemoved(p))
  }

  /** A cached INT16 zero compares equal to every INT16, so no other takes its place. */
  predicate Hides(shown: Value, v: Value) {
    shown == One(Int16(0)) && v.One? && v.scalar.Int16?
  }

  /** What the cache shows after a step of the burst: the value set, if it could be sent. */
  function LastShown(step: Step, p: Name, shown: Value): Value {
    if step.LocalSet? && step.p == p && Convertible(step.v) && !Hides(shown, step.v) then step.v else shown
  }

  /** How a burst ends: its last callback decides between the value shown and what was there before; a
      cancelled call has failed. */
  predicate Ends(s: System, step: Step, p: Name, item: Option<Value>, shown: Value, s': System) {
    && CallbackOf(s, step) == Some(p) && p !in s'.cache.pending
    && var ok := step.Receive? && s.inbox[0].ok;
      Lookup(s'.cache.props, p) ==
        if ok || (item.Some? && Hides(shown, item.value)) then Some(shown) else item
  }

  lemma BurstStarts(s: System, p: Name, v: Value)
    requires CanAsk(s, p) && p !in s.cache.pending
    requires Set(s.cache, p, v, Get(s.store, p)).sent.Some?
    ensures InBurst(LocalSetStep(s, p, v), p, Lookup(AfterLookup(s.cache, p, Get(s.store, p)).props, p), v)
  {
    SetGoesAhead(s.cache, p, v, Get(s.store, p));
  }

  lemma BurstSet(s: System, q: Name, v: Value, p: Name, item: Option<Value>, shown: Value)
    requires CanAsk(s, q) && InBurst(s, p, item, shown)
    ensures InBurst(LocalSetStep(s, q, v), p, item, LastShown(LocalSet(q, v), p, shown))
  {
    var fetch := Get(s.store, q);
    IsEqualMeaning(shown, v);
    if Set(s.cache, q, v, fetch).sent.Some? {
      SetGoesAhead(s.cache, q, v, fetch);
    }
  }

  lemma BurstCallback(s: System, step: Step, p: Name, item: Option<Value>, shown: Value)
    requires ItemsOk(s) && Enabled(s, step) && CallbackOf(s, step).Some? && InBurst(s, p, item, shown)
    ensures InBurst(Next(s, step), p, item, shown) || Ends(s, step, p, item, shown, Next(s, step))
  {
    assert ItemOk(s, p);
    if item.Some? {
      IsEqualMeaning(shown, item.value);
    }
  }

  /** One step of a burst. */
  lemma BurstStep(s: System, step: Step, p: Name, item: Option<Value>, shown: Value)
    requires ItemsOk(s) && Enabled(s, step) && Undisturbed(s, step, p) && InBurst(s, p, item, shown)
    ensures InBurst(Next(s, step), p, item, LastShown(step, p, shown))
         || Ends(s, step, p, item, shown, Next(s, step))
  {
    if step.LocalSet? {
      BurstSet(s, step.p, step.v, p, item, shown);
    } else if CallbackOf(s, step).Some? {
      BurstCallback(s, step, p, item, shown);
    }
  }

  /** A run during which the burst goes on. */
  predicate BurstRun(s: System, steps: seq<Step>, p: Name)
    decreases |steps|
  {
    steps == [] ||
    (Enabled(s, steps[0]) && Undisturbed(s, steps[0], p) && p in Next(s, steps[0]).cache.pending
     && BurstRun(Next(s, steps[0]), steps[1..], p))
  }

  function LastSet(steps: seq<Step>, p: Name, shown: Value): Value
    decreases |steps|
  {
    if steps == [] then shown else LastSet(steps[1..], p, LastShown(steps[0], p, shown))
  }

  lemma {:induction false} BurstRunRuns(s: System, steps: seq<Step>, p: Name)
    requires BurstRun(s, steps, p)
    ensures Runs(s, steps)
    decreases |steps|
  {
    if steps != [] {
      BurstRunRuns(Next(s, steps[0]), steps[1..], p);
    }
  }

  /** However many sets overlap: as long as the burst goes on, the cache shows the last value set that
      could be sent, whatever signals arrive; and the step that ends it is the last callback, where
      success keeps that value and failure restores the value, or the absence, from before.  Only an
      INT16 zero stands in the way of other INT16 values. */
  lemma {:induction false} BurstOutcome(s: System, steps: seq<Step>, p: Name, item: Option<Value>, shown: Value)
    requires ItemsOk(s) && BurstRun(s, steps, p) && InBurst(s, p, item, shown)
    ensures Runs(s, steps)
    ensures var t, value := Run(s, steps), LastSet(steps, p, shown);
      && InBurst(t, p, item, value)
      && forall last :: Enabled(t, last) && Undisturbed(t, last, p) ==>
           || InBurst(Next(t, last), p, item, LastShown(last, p, value))
           || Ends(t, last, p, item, value, Next(t, last))
    decreases |steps|
  {
    BurstRunRuns(s, steps, p);
    if steps == [] {
      forall last | Enabled(s, last) && Undisturbed(s, last, p)
        ensures InBurst(Next(s, last), p, item, LastShown(last, p, shown))
             || Ends(s, last, p, item, shown, Next(s, last))
      {
        BurstStep(s, last, p, item, shown);
      }
    } else {
      BurstStep(s, steps[0], p, item, shown);
      StepKeepsItems(s, steps[0]);
      BurstOutcome(Next(s, steps[0]), steps[1..], p, item, LastShown(steps[0], p, shown));
    }
  }
}
