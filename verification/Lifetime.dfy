/** The life of old items while the cache lives: created by the first set of a burst, freed by its
    last callback, or leaked. */
module Lifetime {
  import opened Base
  import opened Values
  import opened CacheModel
  import opened Protocol

  // ---------- what callbacks do to old items ----------

  /** The property whose callback a step runs. */
  function CallbackOf(s: System, step: Step): Option<Name> {
    match step
    case CancelledCallback(p) => Some(p)
    case Receive =>
      if s.inbox != [] && s.inbox[0].Reply? && Awaited(s, s.inbox[0]) then Some(s.inbox[0].name) else None
    case _ => None
  }

  /** The old item, by its serial number, that meets this fate in a step. */
  function Ended(s: System, step: Step, fate: Fate): seq<nat> {
    match CallbackOf(s, step)
    case Some(p) =>
      if p in s.cache.pending && ReplyFate(s.cache, p) == fate then [s.cache.pending[p].serial] else []
    case None => []
  }

  function AllEnded(s: System, steps: seq<Step>, fate: Fate): seq<nat>
    requires Runs(s, steps)
    decreases |steps|
  {
    if steps == [] then [] else Ended(s, steps[0], fate) + AllEnded(Next(s, steps[0]), steps[1..], fate)
  }

  function FreedIn(s: System, steps: seq<Step>): seq<nat>
    requires Runs(s, steps)
  {
    AllEnded(s, steps, Freed)
  }

  /** Closing callbacks that found their property out of the cache. */
  function LeakedIn(s: System, steps: seq<Step>): seq<nat>
    requires Runs(s, steps)
  {
    AllEnded(s, steps, Leaked)
  }

  // ---------- the invariant ----------

  predicate Distinct(xs: seq<nat>) {
    forall i, j :: 0 <= i < j < |xs| ==> xs[i] != xs[j]
  }

  /** Serial numbers tell old items apart. */
  predicate SerialsOk(c: CacheState) {
    && (forall p :: p in c.pending ==> c.pending[p].serial < c.next)
    && (forall p, q :: p in c.pending && q in c.pending && p != q ==> c.pending[p].serial != c.pending[q].serial)
  }

  predicate Filed(c: CacheState, serial: nat) {
    exists p :: p in c.pending && c.pending[p].serial == serial
  }

  /** The last call is not cancelled. */
  predicate Live(calls: seq<Owed>) {
    calls != [] && !calls[|calls| - 1].cancelled
  }

  /** The count of an old item is the number of callbacks owed to it; it is filed as pending exactly
      if its last call was not cancelled, and then it has the variant of the last value sent. */
  predicate ItemOk(s: System, p: Name) {
    && (p in s.owed ==> s.owed[p] != [])
    && if p !in s.cache.pending then OwedTo(s, p) == []
       else
         var o := s.cache.pending[p];
         && o.count == |OwedTo(s, p)| && (o.live <==> Live(OwedTo(s, p)))
         && (o.live ==> p in s.shown && Convertible(s.shown[p]) && o.variant == ToVariant(s.shown[p]))
  }

  ghost predicate ItemsOk(s: System) {
    SerialsOk(s.cache) && forall p :: ItemOk(s, p)
  }

  lemma InitialItems(s: System)
    requires Initial(s)
    ensures ItemsOk(s)
  {
  }

  lemma ClaimKeepsSerials(c: CacheState, c': CacheState, p: Name)
    requires SerialsOk(c)
    requires c'.pending - {p} == c.pending - {p}
    requires p in c.pending ==> p in c'.pending && c'.pending[p].serial == c.pending[p].serial && c'.next == c.next
    requires p !in c.pending && p in c'.pending ==> c'.pending[p].serial == c.next && c'.next == c.next + 1
    requires p !in c.pending && p !in c'.pending ==> c'.next == c.next
    ensures SerialsOk(c')
    ensures forall n: nat :: Filed(c', n) <==> Filed(c, n) || (c.next <= n < c'.next)
  {
    forall q | q in c'.pending && q != p
      ensures q in c.pending && c'.pending[q] == c.pending[q]
    {
      assert q in c'.pending - {p} && (c'.pending - {p})[q] == (c.pending - {p})[q];
    }
    forall q | q in c.pending
      ensures q in c'.pending && c'.pending[q].serial == c.pending[q].serial
    {
      if q != p {
        assert q in c.pending - {p} && (c'.pending - {p})[q] == (c.pending - {p})[q];
      }
    }
  }

  lemma SetKeepsSerials(c: CacheState, p: Name, v: Value, fetch: Fetch)
    requires SerialsOk(c)
    ensures var c' := Set(c, p, v, fetch).cache;
      SerialsOk(c') && c.next <= c'.next && forall n: nat :: Filed(c', n) <==> Filed(c, n) || (c.next <= n < c'.next)
  {
    if Set(c, p, v, fetch).sent.Some? {
      SetGoesAhead(c, p, v, fetch);
    }
    ClaimKeepsSerials(c, Set(c, p, v, fetch).cache, p);
  }

  lemma SetKeepsItem(s: System, q: Name, v: Value, p: Name)
    requires ItemOk(s, p)
    ensures ItemOk(LocalSetStep(s, q, v), p)
  {
    var fetch := Get(s.store, q);
    if Set(s.cache, q, v, fetch).sent.Some? {
      SetGoesAhead(s.cache, q, v, fetch);
      if p != q {
        var c, c' := s.cache, Set(s.cache, q, v, fetch).cache;
        assert p in c'.pending <==> p in c'.pending - {q};
        assert p in c.pending <==> p in c.pending - {q};
        assert p in c.pending ==> (c'.pending - {q})[p] == (c.pending - {q})[p];
      }
    }
  }

  /** What a step may do to the serial numbers: the ones filed afterwards are those filed before and
      the new ones, without the one that ended. */
  ghost predicate EndsWell(s: System, step: Step)
    requires Enabled(s, step)
  {
    var s', freed, leaked := Next(s, step), Ended(s, step, Freed), Ended(s, step, Leaked);
    && SerialsOk(s'.cache) && s.cache.next <= s'.cache.next
    && |freed + leaked| <= 1
    && (forall n: nat :: n in freed + leaked ==> Filed(s.cache, n))
    && (forall n: nat :: Filed(s'.cache, n) <==>
          (Filed(s.cache, n) || (s.cache.next <= n < s'.cache.next)) && n !in freed + leaked)
  }

  lemma CallbackKeepsItems(s: System, step: Step)
    requires ItemsOk(s) && Enabled(s, step) && CallbackOf(s, step).Some?
    ensures EndsWell(s, step) && forall p :: ItemOk(Next(s, step), p)
  {
    var q := CallbackOf(s, step).value;
    assert ItemOk(s, q);
    CallbackEnds(s, step, q);
    forall p ensures ItemOk(Next(s, step), p) {
      assert ItemOk(s, p);
    }
  }

  lemma CallbackEnds(s: System, step: Step, q: Name)
    requires SerialsOk(s.cache) && ItemOk(s, q) && Enabled(s, step) && CallbackOf(s, step) == Some(q)
    ensures EndsWell(s, step)
  {
    assert q in s.cache.pending;
    var ok := if step.Receive? then s.inbox[0].ok else false;
    RepliedEnds(s.cache, q, ok);
    CallbackReplies(s, step, q, ok);
    EndedAre(s, step, q);
  }

  lemma CallbackReplies(s: System, step: Step, q: Name, ok: bool)
    requires Enabled(s, step) && CallbackOf(s, step) == Some(q) && q in s.cache.pending
    requires ok == if step.Receive? then s.inbox[0].ok else false
    ensures Next(s, step).cache == Replied(s.cache, q, ok)
  {
  }

  lemma EndedAre(s: System, step: Step, q: Name)
    requires CallbackOf(s, step) == Some(q) && q in s.cache.pending
    ensures var o := s.cache.pending[q];
      Ended(s, step, Freed) + Ended(s, step, Leaked) == if o.count > 1 then [] else [o.serial]
  {
  }

  lemma RepliedEnds(c: CacheState, p: Name, ok: bool)
    requires SerialsOk(c) && p in c.pending
    ensures var c', o := Replied(c, p, ok), c.pending[p];
      && SerialsOk(c') && c'.next == c.next && Filed(c, o.serial)
      && forall n: nat :: Filed(c', n) <==> Filed(c, n) && (o.count > 1 || n != o.serial)
  {
    var c' := Replied(c, p, ok);
    assert forall q :: q in c'.pending ==> q in c.pending && c'.pending[q].serial == c.pending[q].serial;
    assert forall q :: q in c.pending && q != p ==> q in c'.pending;
  }

  lemma StepKeepsItems(s: System, step: Step)
    requires ItemsOk(s) && Enabled(s, step)
    ensures ItemsOk(Next(s, step)) && EndsWell(s, step)
  {
    if step.LocalSet? {
      SetKeepsSerials(s.cache, step.p, step.v, Get(s.store, step.p));
      forall p ensures ItemOk(Next(s, step), p) {
        assert ItemOk(s, p);
        SetKeepsItem(s, step.p, step.v, p);
      }
    } else if CallbackOf(s, step).Some? {
      CallbackKeepsItems(s, step);
    } else {
      OtherKeepItems(s, step);
    }
  }

  lemma OtherStepsLeaveItems(s: System, step: Step)
    requires Enabled(s, step) && !step.LocalSet? && CallbackOf(s, step).None?
    ensures var s' := Next(s, step);
      && s'.cache.pending == s.cache.pending && s'.cache.next == s.cache.next
      && s'.owed == s.owed && s'.shown == s.shown
  {
  }

  lemma OtherKeepItems(s: System, step: Step)
    requires ItemsOk(s) && Enabled(s, step) && !step.LocalSet? && CallbackOf(s, step).None?
    ensures ItemsOk(Next(s, step)) && EndsWell(s, step)
  {
    OtherStepsLeaveItems(s, step);
    var s' := Next(s, step);
    forall p ensures ItemOk(s', p) {
      assert ItemOk(s, p);
    }
  }

  lemma {:induction false} RunKeepsItems(s: System, steps: seq<Step>)
    requires ItemsOk(s) && Runs(s, steps)
    ensures ItemsOk(Run(s, steps)) && s.cache.next <= Run(s, steps).cache.next
    decreases |steps|
  {
    if steps != [] {
      StepKeepsItems(s, steps[0]);
      RunKeepsItems(Next(s, steps[0]), steps[1..]);
    }
  }

  lemma EndedFirst(s: System, step: Step, rest: seq<Step>)
    requires Enabled(s, step) && Runs(Next(s, step), rest)
    ensures Runs(s, [step] + rest) && Run(s, [step] + rest) == Run(Next(s, step), rest)
    ensures FreedIn(s, [step] + rest) == Ended(s, step, Freed) + FreedIn(Next(s, step), rest)
    ensures LeakedIn(s, [step] + rest) == Ended(s, step, Leaked) + LeakedIn(Next(s, step), rest)
  {
    assert ([step] + rest)[1..] == rest;
  }

  // ---------- every old item is filed, freed or leaked ----------

  lemma DistinctAppend(xs: seq<nat>, ys: seq<nat>)
    requires |xs| <= 1 && Distinct(ys) && forall n: nat :: n in xs ==> n !in ys
    ensures Distinct(xs + ys)
  {
    var zs := xs + ys;
    forall i, j | 0 <= i < j < |zs|
      ensures zs[i] != zs[j]
    {
      assert zs[j] == ys[j - |xs|];
      if i < |xs| {
        assert zs[i] in xs && zs[j] in ys;
      }
    }
  }

  /** How the serial numbers are shared out over a run. */
  ghost predicate SharedOut(c: CacheState, c': CacheState, freed: seq<nat>, leaked: seq<nat>) {
    && Distinct(freed) && Distinct(leaked)
    && (forall n: nat :: n in freed ==> n !in leaked && !Filed(c', n))
    && (forall n: nat :: n in leaked ==> !Filed(c', n))
    && (forall n: nat :: Filed(c, n) || c.next <= n < c'.next <==> Filed(c', n) || n in freed || n in leaked)
  }

  lemma {:induction false} RunSharesOut(s: System, steps: seq<Step>)
    requires ItemsOk(s) && Runs(s, steps)
    ensures SharedOut(s.cache, Run(s, steps).cache, FreedIn(s, steps), LeakedIn(s, steps))
    decreases |steps|
  {
    if steps != [] {
      var s1 := Next(s, steps[0]);
      StepKeepsItems(s, steps[0]);
      RunKeepsItems(s1, steps[1..]);
      RunSharesOut(s1, steps[1..]);
      SharedOutStep(s, steps[0], Run(s1, steps[1..]).cache, FreedIn(s1, steps[1..]), LeakedIn(s1, steps[1..]));
    }
  }

  lemma SharedOutStep(s: System, step: Step, c: CacheState, freed: seq<nat>, leaked: seq<nat>)
    requires SerialsOk(s.cache) && Enabled(s, step) && EndsWell(s, step) && Next(s, step).cache.next <= c.next
    requires SharedOut(Next(s, step).cache, c, freed, leaked)
    ensures SharedOut(s.cache, c, Ended(s, step, Freed) + freed, Ended(s, step, Leaked) + leaked)
  {
    var c1, x, y := Next(s, step).cache, Ended(s, step, Freed), Ended(s, step, Leaked);
    forall n | n in x + y
      ensures n !in freed && n !in leaked && !Filed(c, n)
    {
      assert !Filed(c1, n) && n < s.cache.next;
    }
    DistinctAppend(x, freed);
    DistinctAppend(y, leaked);
    assert forall n: nat :: n in x && n in y ==> |x + y| == 2;
  }

  /** In every run each old item ever created is in exactly one place: filed under its property,
      freed, once, by the callback that brought its count to zero, or leaked by a closing callback
      that found its property out of the cache. */
  lemma FreedUnlessLeaked(s: System, steps: seq<Step>, n: nat)
    requires Initial(s) && Runs(s, steps) && n < Run(s, steps).cache.next
    ensures Filed(Run(s, steps).cache, n) || n in FreedIn(s, steps) <==> n !in LeakedIn(s, steps)
    ensures !(Filed(Run(s, steps).cache, n) && n in FreedIn(s, steps))
    ensures Distinct(FreedIn(s, steps)) && Distinct(LeakedIn(s, steps))
  {
    InitialItems(s);
    RunSharesOut(s, steps);
  }

  /** In every reachable state the count of an old item is the number of callbacks owed to it, it is
      filed as pending exactly if its last call was not cancelled, and items without a count have no
      callback left. */
  lemma LifetimeOk(s: System, steps: seq<Step>, p: Name)
    requires Initial(s) && Runs(s, steps)
    ensures var t := Run(s, steps);
      && (p in t.owed ==> p in t.cache.pending)
      && (p in t.cache.pending ==>
            && t.cache.pending[p].count == |OwedTo(t, p)| && (t.cache.pending[p].live <==> Live(OwedTo(t, p)))
            && t.cache.pending[p].serial !in FreedIn(s, steps) && t.cache.pending[p].serial !in LeakedIn(s, steps))
  {
    InitialItems(s);
    RunKeepsItems(s, steps);
    RunSharesOut(s, steps);
    var t := Run(s, steps);
    assert ItemOk(t, p);
    if p in t.cache.pending {
      assert Filed(t.cache, t.cache.pending[p].serial);
    }
  }

  // ---------- when nothing leaks ----------

  /** The steps that take a property out of the cache although an old item waits for it: the news
      that it is gone, and a reset by this client. */
  ghost predicate Drops(s: System, step: Step) {
    match step
    case Receive => s.inbox != [] && s.inbox[0].PropertyRemoved? && s.inbox[0].name in s.cache.pending
    case LocalReset(base, recursive, ok, _, _) =>
      ok && exists p :: p in s.cache.pending && Evicted(base, recursive, p)
    case _ => false
  }

  ghost predicate NeverDrops(s: System, steps: seq<Step>)
    requires Runs(s, steps)
    decreases |steps|
  {
    steps == [] || (!Drops(s, steps[0]) && NeverDrops(Next(s, steps[0]), steps[1..]))
  }

  /** What callbacks will want to decide about is in the cache. */
  predicate AwaitedAreCached(s: System) {
    forall p :: p in s.cache.pending && OwedTo(s, p) != [] ==> p in s.cache.props
  }

  lemma StepLeaksNothing(s: System, step: Step)
    requires ItemsOk(s) && AwaitedAreCached(s) && Enabled(s, step) && !Drops(s, step)
    ensures Ended(s, step, Leaked) == [] && AwaitedAreCached(Next(s, step))
  {
    if CallbackOf(s, step).Some? {
      var q := CallbackOf(s, step).value;
      assert ItemOk(s, q) && q in s.cache.pending;
    } else if step.LocalSet? {
      SetKeepsCached(s, step.p, step.v);
    }
  }

  lemma SetKeepsCached(s: System, q: Name, v: Value)
    requires ItemsOk(s) && AwaitedAreCached(s)
    ensures AwaitedAreCached(LocalSetStep(s, q, v))
  {
    var s' := LocalSetStep(s, q, v);
    forall p | p in s'.cache.pending && OwedTo(s', p) != []
      ensures p in s'.cache.props
    {
      assert ItemOk(s, p);
    }
  }

  /** As long as no property leaves the cache while it has an old item, nothing leaks. */
  lemma {:induction false} NoDropNoLeak(s: System, steps: seq<Step>)
    requires ItemsOk(s) && AwaitedAreCached(s) && Runs(s, steps) && NeverDrops(s, steps)
    ensures LeakedIn(s, steps) == []
    decreases |steps|
  {
    if steps != [] {
      StepKeepsItems(s, steps[0]);
      StepLeaksNothing(s, steps[0]);
      NoDropNoLeak(Next(s, steps[0]), steps[1..]);
    }
  }

  lemma FreedUnlessDropped(s: System, steps: seq<Step>, n: nat)
    requires Initial(s) && Runs(s, steps) && NeverDrops(s, steps) && n < Run(s, steps).cache.next
    ensures Filed(Run(s, steps).cache, n) || n in FreedIn(s, steps)
  {
    InitialItems(s);
    NoDropNoLeak(s, steps);
    FreedUnlessLeaked(s, steps, n);
  }
}
