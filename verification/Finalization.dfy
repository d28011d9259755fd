/** What finalization repeats and leaves behind, and what the callbacks do that run after it. */
module Finalization {
  import opened Base
  import opened Values
  import opened CacheModel
  import opened Protocol
  import opened Lifetime
  import opened Divergence
  import Cache

  // ---------- the calls finalization repeats ----------

  /** The synchronous calls of finalization, in the order `order`. */
  function FinalLog(log: seq<(Name, Variant)>, calls: map<Name, Option<Variant>>, order: seq<Name>)
    : seq<(Name, Variant)>
  {
    if order == [] then log
    else
      var front := FinalLog(log, calls, order[..|order| - 1]);
      var p := order[|order| - 1];
      if p in calls && calls[p].Some? then front + [(p, calls[p].value)] else front
  }

  function LastLogged(log: seq<(Name, Variant)>, p: Name): Option<Variant> {
    if log == [] then None
    else if log[|log| - 1].0 == p then Some(log[|log| - 1].1)
    else LastLogged(log[..|log| - 1], p)
  }

  lemma {:induction false} FinalLogLast(log: seq<(Name, Variant)>, calls: map<Name, Option<Variant>>,
                                        order: seq<Name>, p: Name)
    requires p in calls && calls[p].Some?
    ensures p in order ==> LastLogged(FinalLog(log, calls, order), p) == calls[p]
    ensures p !in order ==> LastLogged(FinalLog(log, calls, order), p) == LastLogged(log, p)
  {
    if order != [] {
      var n := |order| - 1;
      FinalLogLast(log, calls, order[..n], p);
      var front := FinalLog(log, calls, order[..n]);
      var q := order[n];
      assert order == order[..n] + [q];
      if q in calls && calls[q].Some? {
        assert (front + [(q, calls[q].value)])[..|front|] == front;
      }
    }
  }

  /** No pending write is lost: whatever was cancelled before, once the requests already sent are
      handled and finalization has repeated the pending calls, in any order, the last request of this
      client that the daemon handled for a property with a pending call carries the last value sent. */
  lemma NoWriteIsLost(s: System, steps: seq<Step>, order: seq<Name>, p: Name)
    requires Initial(s) && Runs(s, steps) && Run(s, steps).requests == []
    requires var calls := FinalCalls(Run(s, steps).cache); forall q :: q in calls <==> q in order
    requires p in Run(s, steps).cache.pending && Run(s, steps).cache.pending[p].live
    ensures var t := Run(s, steps);
      && p in t.shown
      && LastLogged(FinalLog(t.log, FinalCalls(t.cache), order), p) == ToVariant(t.shown[p])
  {
    InitialItems(s);
    RunKeepsItems(s, steps);
    var t := Run(s, steps);
    assert ItemOk(t, p);
    assert p in FinalCalls(t.cache);
    FinalLogLast(t.log, FinalCalls(t.cache), order, p);
  }

  // ---------- what is left ----------

  /** An old item as its callbacks find it. */
  datatype LateItem = LateItem(serial: nat, count: int, cancelled: bool)

  /** What is left when the cache is gone: the old items, the callbacks still owed to them, the serial
      numbers given back so far, and the properties whose callback reached for the cache. */
  datatype Remains = Remains(items: map<Name, LateItem>, owed: map<Name, seq<Owed>>, freed: seq<nat>,
                             strays: set<Name>)

  /** Finalization cancels exactly the items whose call is pending. */
  function AfterFinalize(s: System, steps: seq<Step>): Remains
    requires Runs(s, steps)
  {
    var t := Run(s, steps);
    Remains(map p | p in t.cache.pending :: LateItem(t.cache.pending[p].serial, t.cache.pending[p].count, t.cache.pending[p].live),
            t.owed, FreedIn(s, steps), {})
  }

  predicate RemainsOk(r: Remains) {
    && (forall p :: p in r.owed ==> p in r.items && r.owed[p] != [] && r.items[p].count == |r.owed[p]|)
    && (forall p, q :: p in r.items && q in r.items && p != q ==> r.items[p].serial != r.items[q].serial)
    && (forall p :: p in r.items ==> r.items[p].serial !in r.freed)
    && Distinct(r.freed)
  }

  lemma FinalizeLeavesRemains(s: System, steps: seq<Step>)
    requires Initial(s) && Runs(s, steps)
    ensures RemainsOk(AfterFinalize(s, steps))
  {
    var t, r := Run(s, steps), AfterFinalize(s, steps);
    forall p
      ensures p in r.owed ==> p in r.items && r.owed[p] != [] && r.items[p].count == |r.owed[p]|
      ensures p in r.items ==> r.items[p].serial !in r.freed
    {
      LifetimeOk(s, steps, p);
      InitialItems(s);
      RunKeepsItems(s, steps);
      assert ItemOk(t, p);
    }
    InitialItems(s);
    RunKeepsItems(s, steps);
    RunSharesOut(s, steps);
  }

  /** A late callback counts; the last one frees its item if the cancellable tells it to stop there,
      and goes on to the tables of the cache if not. */
  function Late(r: Remains, p: Name): Remains
    requires RemainsOk(r) && p in r.owed
  {
    var o := r.items[p];
    if o.count > 1 then
      r.(items := r.items[p := o.(count := o.count - 1)], owed := r.owed[p := r.owed[p][1..]])
    else if o.cancelled then Remains(r.items - {p}, r.owed - {p}, r.freed + [o.serial], r.strays)
    else Remains(r.items - {p}, r.owed - {p}, r.freed, r.strays + {p})
  }

  lemma LateOk(r: Remains, p: Name)
    requires RemainsOk(r) && p in r.owed
    ensures RemainsOk(Late(r, p))
    ensures Late(r, p).freed != r.freed ==> r.items[p].count == 1 && |r.owed[p]| == 1
  {
  }

  predicate LateRuns(r: Remains, order: seq<Name>)
    decreases |order|
  {
    RemainsOk(r) && (order == [] || (order[0] in r.owed && LateRuns(Late(r, order[0]), order[1..])))
  }

  function LateRun(r: Remains, order: seq<Name>): Remains
    requires LateRuns(r, order)
    decreases |order|
  {
    if order == [] then r else LateRun(Late(r, order[0]), order[1..])
  }

  // ---------- what the late callbacks will have done ----------

  /** Freed already, or to be freed by the last callback of a cancelled item. */
  predicate WillBeFreed(r: Remains, n: nat) {
    n in r.freed || exists p :: p in r.owed && p in r.items && r.items[p].cancelled && r.items[p].serial == n
  }

  /** The callbacks of `p` have reached for the cache, or will. */
  predicate WillStray(r: Remains, p: Name) {
    p in r.strays || (p in r.owed && p in r.items && !r.items[p].cancelled)
  }

  lemma LateKeepsFate(r: Remains, p: Name)
    requires RemainsOk(r) && p in r.owed
    ensures forall n :: WillBeFreed(Late(r, p), n) <==> WillBeFreed(r, n)
    ensures forall q :: WillStray(Late(r, p), q) <==> WillStray(r, q)
  {
    var r', o := Late(r, p), r.items[p];
    forall n
      ensures WillBeFreed(r', n) <==> WillBeFreed(r, n)
    {
      if o.count <= 1 && o.cancelled {
        assert r'.freed[|r.freed|] == o.serial;
        assert n in r'.freed <==> n in r.freed || n == o.serial;
      }
      if q :| q in r.owed && q in r.items && r.items[q].cancelled && r.items[q].serial == n {
        assert q in r'.owed ==> r'.items[q].serial == n && r'.items[q].cancelled;
      }
    }
  }

  lemma {:induction false} LateRunFates(r: Remains, order: seq<Name>)
    requires LateRuns(r, order)
    ensures var r' := LateRun(r, order);
      && RemainsOk(r')
      && (forall n :: WillBeFreed(r', n) <==> WillBeFreed(r, n))
      && (forall p :: WillStray(r', p) <==> WillStray(r, p))
    decreases |order|
  {
    if order != [] {
      LateKeepsFate(r, order[0]);
      LateRunFates(Late(r, order[0]), order[1..]);
    }
  }

  /** When the last callback has run, in whatever order: every old item ever created has been freed
      exactly once over the life of the cache and after it, except the leaked ones and those whose
      last set could not be sent; and exactly the callbacks of the latter have reached for the cache. */
  lemma InTheEnd(s: System, steps: seq<Step>, order: seq<Name>)
    requires Initial(s) && Runs(s, steps)
    requires LateRuns(AfterFinalize(s, steps), order) && LateRun(AfterFinalize(s, steps), order).owed == map[]
    ensures var t, r := Run(s, steps), LateRun(AfterFinalize(s, steps), order);
      && Distinct(r.freed)
      && (forall n: nat :: n < t.cache.next ==> (n in r.freed <==> n !in LeakedIn(s, steps) && !Abandoned(t.cache, n)))
      && (forall p :: p in r.strays <==> p in t.owed && !t.cache.pending[p].live)
  {
    var t, r0, r := Run(s, steps), AfterFinalize(s, steps), LateRun(AfterFinalize(s, steps), order);
    LateRunFates(r0, order);
    forall n: nat | n < t.cache.next
      ensures n in r.freed <==> n !in LeakedIn(s, steps) && !Abandoned(t.cache, n)
    {
      FreedUnlessLeaked(s, steps, n);
      assert n in r.freed <==> WillBeFreed(r0, n);
      LiveAreFreed(s, steps, n);
    }
    forall p
      ensures p in r.strays <==> p in t.owed && !t.cache.pending[p].live
    {
      assert WillStray(r, p) <==> WillStray(r0, p);
    }
  }

  /** The last set of this item's property could not be sent. */
  predicate Abandoned(c: CacheState, n: nat) {
    exists p :: p in c.pending && c.pending[p].serial == n && !c.pending[p].live
  }

  lemma LiveAreFreed(s: System, steps: seq<Step>, n: nat)
    requires Initial(s) && Runs(s, steps)
    ensures var t := Run(s, steps);
      WillBeFreed(AfterFinalize(s, steps), n) <==>
        n in FreedIn(s, steps) || (Filed(t.cache, n) && !Abandoned(t.cache, n))
  {
    InitialItems(s);
    RunKeepsItems(s, steps);
    var t, r := Run(s, steps), AfterFinalize(s, steps);
    if p :| p in t.cache.pending && t.cache.pending[p].serial == n {
      assert ItemOk(t, p);
      assert p in r.items && r.items[p].serial == n;
    }
  }

  // ---------- when no late callback reaches for the cache ----------

  predicate AllLive(c: CacheState) {
    forall p :: p in c.pending ==> c.pending[p].live
  }

  predicate SetsFrom(local: iset<Value>, steps: seq<Step>) {
    forall i :: 0 <= i < |steps| && steps[i].LocalSet? ==> steps[i].v in local
  }

  lemma StepKeepsLive(s: System, step: Step)
    requires ItemsOk(s) && AllLive(s.cache) && Enabled(s, step)
    requires step.LocalSet? ==> Convertible(step.v)
    ensures AllLive(Next(s, step).cache)
  {
    if step.LocalSet? {
      SetKeepsLive(s.cache, step.p, step.v, Get(s.store, step.p));
    } else if CallbackOf(s, step).None? {
      OtherStepsLeaveItems(s, step);
    }
  }

  lemma SetKeepsLive(c: CacheState, p: Name, v: Value, fetch: Fetch)
    requires AllLive(c) && Convertible(v)
    ensures AllLive(Set(c, p, v, fetch).cache)
  {
    var c' := Set(c, p, v, fetch).cache;
    assert forall q :: q in c'.pending && q != p ==> q in c.pending && c'.pending[q] == c.pending[q];
  }

  lemma {:induction false} RunKeepsLive(local: iset<Value>, s: System, steps: seq<Step>)
    requires ItemsOk(s) && AllLive(s.cache) && Runs(s, steps) && SetsFrom(local, steps)
    requires forall v :: v in local ==> Convertible(v)
    ensures AllLive(Run(s, steps).cache)
    decreases |steps|
  {
    if steps != [] {
      StepKeepsItems(s, steps[0]);
      StepKeepsLive(s, steps[0]);
      RunKeepsLive(local, Next(s, steps[0]), steps[1..]);
    }
  }

  lemma StepOwesNothing(s: System, step: Step)
    requires s.owed == map[] && Enabled(s, step) && (step.LocalSet? ==> !Convertible(step.v))
    ensures Next(s, step).owed == map[]
  {
  }

  lemma {:induction false} RunOwesNothing(local: iset<Value>, s: System, steps: seq<Step>)
    requires s.owed == map[] && Runs(s, steps) && SetsFrom(local, steps)
    requires forall v :: v in local ==> !Convertible(v)
    ensures Run(s, steps).owed == map[]
    decreases |steps|
  {
    if steps != [] {
      StepOwesNothing(s, steps[0]);
      RunOwesNothing(local, Next(s, steps[0]), steps[1..]);
    }
  }

  ghost predicate FinalizesSafely(local: iset<Value>) {
    forall s, steps, order ::
      Initial(s) && Runs(s, steps) && SetsFrom(local, steps) && LateRuns(AfterFinalize(s, steps), order) ==>
        LateRun(AfterFinalize(s, steps), order).strays == {}
  }

  /** A set that cannot be sent cancels the call before it and leaves its item in no table that
      finalization looks at. */
  function SentThenNot(p: Name, v: Value, w: Value): seq<Step> {
    [LocalSet(p, v)] + ([LocalSet(p, w)] + [])
  }

  lemma SentThenNotStrays(p: Name, v: Value, w: Value)
    requires Convertible(v) && !Convertible(w)
    ensures var s, steps := Fresh(map[]), SentThenNot(p, v, w);
      && Runs(s, steps) && LateRuns(AfterFinalize(s, steps), [p])
      && LateRun(AfterFinalize(s, steps), [p]).strays == {p}
  {
    var s1 := Next(Fresh(map[]), LocalSet(p, v));
    assert s1.cache.props == map[p := v] && OwedTo(s1, p) == [Owed(0, false)];
    if IsEqual(Some(v), Some(w)) {
      IsEqualMeaning(v, w);
    }
    var s2 := Next(s1, LocalSet(p, w));
    assert OwedTo(s2, p) == [Owed(0, true)];
    RunFirst(s1, LocalSet(p, w), []);
    RunFirst(Fresh(map[]), LocalSet(p, v), [LocalSet(p, w)] + []);
    FinalizeLeavesRemains(Fresh(map[]), SentThenNot(p, v, w));
    var r := AfterFinalize(Fresh(map[]), SentThenNot(p, v, w));
    assert r.items[p].count == 1 && !r.items[p].cancelled && r.owed.Keys == {p};
    LateOk(r, p);
    assert [p][1..] == [];
  }

  /** The last callbacks of all items stop at their cancellables, in all runs, if and only if the
      values set locally can all be sent, or none of them can. */
  lemma SafetyIsExact(local: iset<Value>)
    ensures FinalizesSafely(local) <==>
      (forall v :: v in local ==> Convertible(v)) || (forall v :: v in local ==> !Convertible(v))
  {
    if (forall v :: v in local ==> Convertible(v)) || (forall v :: v in local ==> !Convertible(v)) {
      forall s, steps, order | Initial(s) && Runs(s, steps) && SetsFrom(local, steps) && LateRuns(AfterFinalize(s, steps), order)
        ensures LateRun(AfterFinalize(s, steps), order).strays == {}
      {
        NoStrays(local, s, steps, order);
      }
    } else {
      var v :| v in local && Convertible(v);
      var w :| w in local && !Convertible(w);
      SentThenNotStrays("/p", v, w);
      assert Initial(Fresh(map[])) && SetsFrom(local, SentThenNot("/p", v, w));
    }
  }

  lemma NoStrays(local: iset<Value>, s: System, steps: seq<Step>, order: seq<Name>)
    requires (forall v :: v in local ==> Convertible(v)) || (forall v :: v in local ==> !Convertible(v))
    requires Initial(s) && Runs(s, steps) && SetsFrom(local, steps) && LateRuns(AfterFinalize(s, steps), order)
    ensures LateRun(AfterFinalize(s, steps), order).strays == {}
  {
    var r0, r := AfterFinalize(s, steps), LateRun(AfterFinalize(s, steps), order);
    InitialItems(s);
    if forall v :: v in local ==> Convertible(v) {
      RunKeepsLive(local, s, steps);
    } else {
      RunOwesNothing(local, s, steps);
    }
    LateRunFates(r0, order);
    forall p ensures p !in r.strays {
      assert WillStray(r, p) <==> WillStray(r0, p);
    }
  }

  // ---------- the same on the cache object ----------

  /** Finalization of a cache in a state some run has reached, and then all callbacks owed to one
      property whose call is pending, whatever they report: they leave the dead cache alone and tell
      the application nothing, and the last of them frees the item. */
  method FinalizeThenReply(cache: Cache.EsconfCache, p: Name, oks: seq<bool>, ghost s: System, ghost steps: seq<Step>)
    returns (sent: map<Name, Option<Variant>>)
    requires cache.Valid() && p in cache.oldProperties
    requires Initial(s) && Runs(s, steps) && cache.model == Run(s, steps).cache
    requires cache.model.pending[p].live && |oks| == |OwedTo(Run(s, steps), p)|
    modifies cache, cache.pendingCalls.Keys, cache.oldProperties[p]
    ensures sent == FinalCalls(old(cache.model))
    ensures cache.properties == map[] && cache.pendingCalls == map[] && cache.oldProperties == map[]
    ensures old(cache.oldProperties[p]).frees == 1 && old(cache.oldProperties[p]).count == 0
  {
    LifetimeOk(s, steps, p);
    var oldItem := cache.oldProperties[p];
    sent := cache.Finalize();
    assert Cache.LeftBehind(oldItem, old(cache.model).pending[p]);
    LateReplies(cache, oldItem, oks);
  }

  /** All callbacks of one item whose cancellable was cancelled. */
  method LateReplies(cache: Cache.EsconfCache, oldItem: Cache.OldItem, oks: seq<bool>)
    requires oldItem.cancellable != null && oldItem.cancellable.cancelled
    requires oldItem.count == |oks| >= 1 && oldItem.frees == 0
    modifies cache, oldItem, oldItem.cancellable
    ensures unchanged(cache) && oldItem.frees == 1 && oldItem.count == 0
  {
    for i := 0 to |oks|
      invariant unchanged(cache) && oldItem.cancellable == old(oldItem.cancellable)
      invariant oldItem.cancellable != null && oldItem.cancellable.cancelled
      invariant oldItem.count == |oks| - i && oldItem.frees == if i == |oks| then 1 else 0
    {
      var emitted;
      ghost var fate;
      emitted, fate := Cache.SetPropertyReplyHandler(cache, oldItem, oks[i]);
      assert emitted.None?;
    }
  }
}
