/** Left to themselves, the queues drain: every delivery brings the end nearer, and as long as
    anything is outstanding some delivery is possible. */
module Progress {
  import opened Base
  import opened CacheModel
  import opened Protocol
  import opened Convergence

  /** The steps that only move what is already under way. */
  predicate IsDelivery(step: Step) {
    step.DaemonHandle? || step.DaemonIdle? || step.CancelledCallback? || step.Receive?
  }

  predicate AllDeliveries(steps: seq<Step>) {
    forall i :: 0 <= i < |steps| ==> IsDelivery(steps[i])
  }

  function OwedCallbacks(s: System): set<(Name, int)> {
    set p, i | p in s.owed && 0 <= i < |s.owed[p]| :: (p, i)
  }

  /** A request may become a reply and an idle callback, an idle callback a signal. */
  function Measure(s: System): nat {
    4 * |s.requests| + 2 * |s.idles| + |s.inbox| + |OwedCallbacks(s)|
  }

  lemma PopShrinksOwed(s: System, s': System, p: Name)
    requires OwedTo(s, p) != [] && s'.owed == SetOwed(s.owed, p, OwedTo(s, p)[1..])
    ensures |OwedCallbacks(s')| < |OwedCallbacks(s)|
  {
    var last := (p, |OwedTo(s, p)| - 1);
    assert last in OwedCallbacks(s) && last !in OwedCallbacks(s');
    SubsetIsSmaller(OwedCallbacks(s'), OwedCallbacks(s));
  }

  /** Every delivery decreases the measure, so no schedule of deliveries goes on forever. */
  lemma DeliveryDecreases(s: System, step: Step)
    requires Inv(s) && Enabled(s, step) && IsDelivery(step)
    ensures Measure(Next(s, step)) < Measure(s)
  {
    var s' := Next(s, step);
    match step
    case DaemonHandle => assert OwedCallbacks(s') == OwedCallbacks(s);
    case DaemonIdle(i) =>
      SignalShows(s.store, s.idles[i], [], "");
      assert OwedCallbacks(s') == OwedCallbacks(s);
    case CancelledCallback(p) => PopShrinksOwed(s, s', p);
    case Receive =>
      var m := s.inbox[0];
      if m.Reply? && Awaited(s, m) {
        PopShrinksOwed(s, s', m.name);
      } else {
        assert OwedCallbacks(s') == OwedCallbacks(s);
      }
  }

  /** A callback is owed only while its request or its reply is still on the way. */
  lemma NothingOwed(s: System)
    requires Inv(s) && s.requests == [] && s.inbox == []
    ensures s.owed == map[]
  {
    forall p ensures p !in s.owed {
      assert PropertyOk(s, p);
    }
  }

  /** While something is outstanding, something can be delivered. */
  lemma DeliveryPossible(s: System) returns (step: Step)
    requires Inv(s) && !Quiescent(s)
    ensures Enabled(s, step) && IsDelivery(step)
  {
    if s.requests != [] {
      step := DaemonHandle;
    } else if s.idles != [] {
      step := DaemonIdle(0);
    } else {
      if s.inbox == [] {
        NothingOwed(s);
      }
      var m := s.inbox[0];
      assert PropertyOk(s, m.name);
      if m.Reply? && Awaited(s, m) && |OwedTo(s, m.name)| > 1 {
        step := CancelledCallback(m.name);
      } else {
        step := Receive;
      }
    }
  }

  lemma {:induction false} Drain(s: System) returns (steps: seq<Step>)
    requires Inv(s)
    ensures Runs(s, steps) && AllDeliveries(steps) && Quiescent(Run(s, steps)) && Coherent(Run(s, steps))
    decreases Measure(s)
  {
    if Quiescent(s) {
      steps := [];
      QuiescentIsCoherent(s);
    } else {
      var step := DeliveryPossible(s);
      DeliveryDecreases(s, step);
      StepPreserves(s, step);
      var rest := Drain(Next(s, step));
      RunFirst(s, step, rest);
      steps := [step] + rest;
    }
  }

  /** From every reachable state deliveries alone lead to a quiescent state, and it is coherent. */
  lemma EventuallyCoherent(s: System, steps: seq<Step>)
    requires Initial(s) && StoreOk(s.store) && NamesOk(s) && Runs(s, steps) && AllAdmissible(steps)
    ensures var t := Run(s, steps);
      exists rest :: Runs(t, rest) && AllDeliveries(rest) && Quiescent(Run(t, rest)) && Coherent(Run(t, rest))
  {
    InitialInv(s);
    RunPreserves(s, steps);
    var rest := Drain(Run(s, steps));
  }

  /** Deliveries take no more steps than the measure allows. */
  lemma {:induction false} DeliveriesAreBounded(s: System, steps: seq<Step>)
    requires Inv(s) && Runs(s, steps) && AllDeliveries(steps)
    ensures |steps| <= Measure(s)
    decreases |steps|
  {
    if steps != [] {
      DeliveryDecreases(s, steps[0]);
      StepPreserves(s, steps[0]);
      DeliveriesAreBounded(Next(s, steps[0]), steps[1..]);
    }
  }
}
