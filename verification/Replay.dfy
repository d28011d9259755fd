/** Change notifications and what an observer can make of them: the backend announces names, the
    daemon's idle callback sends the value of a later moment (esconfd/esconf-daemon.c and
    esconfd/esconf-backend-perchannel-xml.c). */
module Replay {
  import opened Base
  import opened Values
  import opened Names
  import opened TreeModel
  import opened FlatMaps

  // ---------- daemon and observer ----------

  datatype Watch = Watch(tree: Tree, idles: seq<string>, seen: map<string, Value>)

  datatype Event =
    | Do(op: Op, order: seq<Path>)
    | Emit(i: nat)

  /** The user values at or below `base`, in the order the traversal visits them. */
  ghost predicate Visits(t: Tree, base: Path, order: seq<Path>) {
    && (forall p :: p in order <==> p in t && Below(base, p) && t[p].user.Some?)
    && (forall i, j :: 0 <= i < j < |order| ==> order[i] != order[j])
  }

  ghost predicate Enabled(w: Watch, e: Event) {
    match e
    case Do(op, order) =>
      && GoodOp(op)
      && (op.Set? ==> Convertible(op.v) && Fixed(op.v))
      && (op.ResetAll? ==> Visits(w.tree, op.base, order))
    case Emit(i) => i < |w.idles|
  }

  /** The names an operation announces: the one it was given, or one for each user value a
      recursive reset removes. */
  ghost function Announced(t: Tree, op: Op, order: seq<Path>): seq<string>
    requires GoodOp(op)
  {
    if !Apply(t, op).notified then []
    else match op
      case Set(p, _) => [Join(p)]
      case Reset(p) => [Join(p)]
      case ResetAll(_) => seq(|order|, i requires 0 <= i < |order| => BuildName(order[i]))
  }

  /** The value the daemon reports under a name. */
  function Reported(t: Tree, s: string): Option<Value> {
    if s == [] || s[0] != '/' then None
    else match GetValue(t, Components(s))
      case Some(v) => if Convertible(v) then Some(Image(v)) else None
      case None => None
  }

  datatype Signal = Changed(value: Value) | Removed | Silence

  /** What the idle callback sends: nothing for a value that has no variant form. */
  function Sent(t: Tree, s: string): Signal {
    if s == [] || s[0] != '/' then Removed
    else match GetValue(t, Components(s))
      case Some(v) => if Convertible(v) then Changed(Image(v)) else Silence
      case None => Removed
  }

  /** The observer applies the signal. */
  function Observe(seen: map<string, Value>, s: string, signal: Signal): map<string, Value> {
    match signal
    case Changed(v) => seen[s := v]
    case Removed => seen - {s}
    case Silence => seen
  }

  ghost function Next(w: Watch, e: Event): Watch
    requires Enabled(w, e)
  {
    match e
    case Do(op, order) => w.(tree := Apply(w.tree, op).tree, idles := w.idles + Announced(w.tree, op, order))
    case Emit(i) =>
      var s := w.idles[i];
      w.(idles := w.idles[..i] + w.idles[i + 1..], seen := Observe(w.seen, s, Sent(w.tree, s)))
  }

  ghost predicate Runs(w: Watch, events: seq<Event>)
    decreases |events|
  {
    events == [] || (Enabled(w, events[0]) && Runs(Next(w, events[0]), events[1..]))
  }

  ghost function Run(w: Watch, events: seq<Event>): Watch
    requires Runs(w, events)
    decreases |events|
  {
    if events == [] then w else Run(Next(w, events[0]), events[1..])
  }

  /** The observer holds the daemon's effective values. */
  ghost predicate Faithful(w: Watch) {
    forall s: string :: Observed(w, s) == Reported(w.tree, s)
  }

  function Observed(w: Watch, s: string): Option<Value> {
    if s in w.seen then Some(w.seen[s]) else None
  }

  // ---------- the invariant ----------

  /** Trees whose values can travel. */
  ghost predicate Observable(t: Tree) {
    && Closed(t) && RootBlank(t)
    && (forall p :: p in t && t[p].user.Some? ==> ValidPath(p) && Convertible(t[p].user.value))
    && (forall p :: p in t && t[p].system.Some? ==> Convertible(t[p].system.value))
  }

  /** The user values lie under names that announce themselves. */
  ghost predicate LongUsers(t: Tree) {
    forall p :: p in t && t[p].user.Some? ==> LongNames(p)
  }

  ghost predicate Inv(w: Watch) {
    Observable(w.tree) && LongUsers(w.tree) && forall s: string :: s in w.idles || Observed(w, s) == Reported(w.tree, s)
  }

  /** The condition of the theorem: names that are set have no one-character component. */
  predicate Admissible(e: Event) {
    e.Do? && e.op.Set? ==> ValidPath(e.op.p) && LongNames(e.op.p)
  }

  lemma ReportedUnchanged(t: Tree, t': Tree, s: string)
    requires s != [] && s[0] == '/' ==> GetValue(t', Components(s)) == GetValue(t, Components(s))
    ensures Reported(t', s) == Reported(t, s)
  {
  }

  /** Every visible change of an operation is announced under the right name, except where a
      recursive reset removes a value whose name has a component of one character. */
  lemma ChangesAreAnnounced(t: Tree, op: Op, order: seq<Path>, s: string)
    requires Observable(t) && GoodOp(op) && (op.ResetAll? ==> Visits(t, op.base, order))
    ensures s in Announced(t, op, order) || Reported(Apply(t, op).tree, s) == Reported(t, s) || Missed(t, op, s)
  {
    if s != [] && s[0] == '/' && Apply(t, op).notified {
      var q := Components(s);
      JoinOfComponents(s);
      if ValueStays(t, op, q) {
        SameValue(t, op, q);
        ReportedUnchanged(t, Apply(t, op).tree, s);
      } else if op.ResetAll? {
        var i :| 0 <= i < |order| && order[i] == q;
        BuildNameIsExact(q);
        assert Announced(t, op, order)[i] == BuildName(q);
      }
    }
  }

  /** The node called `s` loses its user value to a recursive reset, and its name is rebuilt wrongly. */
  predicate Missed(t: Tree, op: Op, s: string) {
    && op.ResetAll? && s != [] && s[0] == '/'
    && var q := Components(s);
      Below(op.base, q) && q in t && t[q].user.Some? && !LongNames(q)
  }

  /** The operation does not touch the user value at `q`. */
  predicate ValueStays(t: Tree, op: Op, q: Path) {
    match op
    case Set(p, _) => q != p
    case Reset(p) => q != p
    case ResetAll(base) => !(Below(base, q) && q in t && t[q].user.Some?)
  }

  lemma SameValue(t: Tree, op: Op, q: Path)
    requires Closed(t) && RootBlank(t) && GoodOp(op) && ValueStays(t, op, q)
    ensures GetValue(Apply(t, op).tree, q) == GetValue(t, q)
  {
    ApplyIsFlat(t, op);
    GetIsEffective(t, q);
    GetIsEffective(Apply(t, op).tree, q);
    assert q in UserMap(t) <==> q in UserMap(Apply(t, op).tree);
  }

  lemma OpKeepsObservable(t: Tree, op: Op)
    requires Observable(t) && GoodOp(op)
    requires op.Set? ==> Convertible(op.v) && ValidPath(op.p)
    ensures Observable(Apply(t, op).tree)
    ensures LongUsers(t) && (op.Set? ==> LongNames(op.p)) ==> LongUsers(Apply(t, op).tree)
  {
    ApplyIsFlat(t, op);
    var t' := Apply(t, op).tree;
    forall p | p in t'
      ensures t'[p].user.Some? ==> ValidPath(p) && Convertible(t'[p].user.value)
      ensures LongUsers(t) && (op.Set? ==> LongNames(op.p)) && t'[p].user.Some? ==> LongNames(p)
      ensures t'[p].system.Some? ==> Convertible(t'[p].system.value)
    {
      assert t'[p].user.Some? ==> p in UserMap(t');
      assert t'[p].system.Some? ==> p in SystemMap(t');
    }
  }

  lemma StepPreserves(w: Watch, e: Event)
    requires Inv(w) && Enabled(w, e) && Admissible(e)
    ensures Inv(Next(w, e))
  {
    var w' := Next(w, e);
    match e {
      case Do(op, order) =>
        OpKeepsObservable(w.tree, op);
        forall s: string
          ensures s in w'.idles || Observed(w', s) == Reported(w'.tree, s)
        {
          ChangesAreAnnounced(w.tree, op, order, s);
        }
      case Emit(i) =>
        forall s: string
          ensures s in w'.idles || Observed(w', s) == Reported(w'.tree, s)
        {
          if s in w.idles && s != w.idles[i] {
            var j :| 0 <= j < |w.idles| && w.idles[j] == s;
            assert j < i || w'.idles[j - 1] == s;
            assert j > i || w'.idles[j] == s;
          }
        }
    }
  }

  /** An observer that knows the effective values and hears nothing yet. */
  ghost predicate Initial(w: Watch) {
    w.idles == [] && Faithful(w)
  }

  predicate AllAdmissible(events: seq<Event>) {
    forall i :: 0 <= i < |events| ==> Admissible(events[i])
  }

  lemma {:induction false} RunPreserves(w: Watch, events: seq<Event>)
    requires Inv(w) && Runs(w, events) && AllAdmissible(events)
    ensures Inv(Run(w, events))
    decreases |events|
  {
    if events != [] {
      StepPreserves(w, events[0]);
      RunPreserves(Next(w, events[0]), events[1..]);
    }
  }

  /** Signal replay: whenever the idle queue is empty, the observer holds the daemon's effective
      values, although every signal carried the value of its emission. */
  lemma ReplayIsFaithful(w: Watch, events: seq<Event>)
    requires Initial(w) && Observable(w.tree) && LongUsers(w.tree) && Runs(w, events) && AllAdmissible(events)
    ensures Run(w, events).idles == [] ==> Faithful(Run(w, events))
  {
    RunPreserves(w, events);
  }

  // ---------- runs that mislead the observer ----------

  lemma RunFirst(w: Watch, e: Event, rest: seq<Event>)
    requires Enabled(w, e) && Runs(Next(w, e), rest)
    ensures Runs(w, [e] + rest) && Run(w, [e] + rest) == Run(Next(w, e), rest)
  {
    assert ([e] + rest)[1..] == rest;
  }

  /** A tree with one property, and its ancestors blank. */
  function OneNode(p: Path, d: Data): Tree
    requires p != []
  {
    AddNode(EMPTY_TREE, p, d)
  }

  /** Something is known of one property. */
  function Knowing(p: Path, d: Data, seen: map<string, Value>): Watch
    requires p != []
  {
    Watch(OneNode(p, d), [], seen)
  }

  lemma OneNodeMeaning(p: Path, d: Data)
    requires ValidPath(p)
    ensures var t := OneNode(p, d);
      && Closed(t) && RootBlank(t) && p in t && t[p] == d
      && (forall q :: q in t && q != p ==> t[q] == BLANK)
    ensures Join(p) != [] && Join(p)[0] == '/' && Components(Join(p)) == p
  {
    AddNodeMeaning(EMPTY_TREE, p, d);
    ValidPathSlashFree(p);
    ComponentsOfJoin(p);
    JoinStartsWithSlash(p);
  }

  lemma OneNodeReports(p: Path, d: Data, s: string)
    requires ValidPath(p)
    ensures Reported(OneNode(p, d), s) ==
      if s == Join(p) && EffectiveOf(d).Some? && Convertible(EffectiveOf(d).value)
      then Some(Image(EffectiveOf(d).value)) else None
  {
    OneNodeMeaning(p, d);
    if s != [] && s[0] == '/' {
      JoinOfComponents(s);
    }
  }

  /** Setting another value tells the observer. */
  lemma SetIsSeen(p: Path, d: Data, v: Value)
    requires ValidPath(p) && Fixed(v) && d.user == None && !d.locked && !IsEqual(d.system, Some(v))
    ensures var w, e := Knowing(p, d, map[]), Do(Set(p, v), []);
      && Enabled(w, e) && Enabled(Next(w, e), Emit(0))
      && Next(Next(w, e), Emit(0)) == Knowing(p, d.(user := Some(v)), map[Join(p) := v])
  {
    FixedIsConvertible(v);
    OneNodeMeaning(p, d);
    OneNodeMeaning(p, d.(user := Some(v)));
    var w1 := Next(Knowing(p, d, map[]), Do(Set(p, v), []));
    assert w1.tree == OneNode(p, d.(user := Some(v))) && w1.idles == [Join(p)];
  }

  /** A default without variant form comes back, and the idle callback sends nothing. */
  function BackToDefault(p: Path): seq<Event> {
    [Do(Reset(p), [])] + ([Emit(0)] + [])
  }

  lemma UnsendableDefaultFails(p: Path, v: Value, d: Value)
    requires ValidPath(p) && Fixed(v) && !Convertible(d)
    ensures var w := Knowing(p, Data(Some(v), Some(d), false), map[Join(p) := v]);
      && Initial(w) && Runs(w, BackToDefault(p))
      && Run(w, BackToDefault(p)).idles == [] && !Faithful(Run(w, BackToDefault(p)))
  {
    var w := Knowing(p, Data(Some(v), Some(d), false), map[Join(p) := v]);
    FixedIsConvertible(v);
    OneNodeMeaning(p, Data(Some(v), Some(d), false));
    forall s: string
      ensures Observed(w, s) == Reported(w.tree, s)
    {
      OneNodeReports(p, Data(Some(v), Some(d), false), s);
    }
    var w1 := Next(w, Do(Reset(p), []));
    assert w1.idles == [Join(p)] && GetValue(w1.tree, p) == Some(d) && w1.seen == w.seen;
    var w2 := Next(w1, Emit(0));
    assert w2.idles == [] && w2.seen == w.seen && w2.tree == w1.tree;
    RunFirst(w1, Emit(0), []);
    RunFirst(w, Do(Reset(p), []), [Emit(0)] + []);
    Misled(w2, p, v);
  }

  lemma Misled(w: Watch, p: Path, v: Value)
    requires Join(p) in w.seen && w.seen[Join(p)] == v && Reported(w.tree, Join(p)) == None
    ensures !Faithful(w)
  {
    assert Observed(w, Join(p)) == Some(v);
  }

  /** A recursive reset announces the property under another name. */
  function Misannounced(p: Path): seq<Event> {
    [Do(ResetAll(p), [p])] + ([Emit(0)] + [])
  }

  lemma ShortReset(p: Path, v: Value)
    requires ValidPath(p) && !LongNames(p) && Fixed(v)
    ensures var w, e := Knowing(p, Data(Some(v), None, false), map[Join(p) := v]), Do(ResetAll(p), [p]);
      && Enabled(w, e) && Next(w, e).idles == [BuildName(p)] && Next(w, e).seen == w.seen
      && GetValue(Next(w, e).tree, p) == None
  {
    OneNodeVisits(p, v);
    OneNodeGoes(p, v);
    var w := Knowing(p, Data(Some(v), None, false), map[Join(p) := v]);
    var w1 := Next(w, Do(ResetAll(p), [p]));
    assert w1.idles == [BuildName(p)];
  }

  lemma OneNodeVisits(p: Path, v: Value)
    requires ValidPath(p)
    ensures Visits(OneNode(p, Data(Some(v), None, false)), p, [p])
  {
    OneNodeMeaning(p, Data(Some(v), None, false));
  }

  lemma OneNodeGoes(p: Path, v: Value)
    requires ValidPath(p)
    ensures var r := ResetBelow(OneNode(p, Data(Some(v), None, false)), p); r.notified && GetValue(r.tree, p) == None
  {
    OneNodeMeaning(p, Data(Some(v), None, false));
    ResetBelowMeaning(OneNode(p, Data(Some(v), None, false)), p);
  }

  lemma ShortStoredFails(p: Path, v: Value)
    requires ValidPath(p) && !LongNames(p) && Fixed(v)
    ensures var w := Knowing(p, Data(Some(v), None, false), map[Join(p) := v]);
      && Initial(w) && Runs(w, Misannounced(p))
      && Run(w, Misannounced(p)).idles == [] && !Faithful(Run(w, Misannounced(p)))
  {
    var w := Knowing(p, Data(Some(v), None, false), map[Join(p) := v]);
    FixedIsConvertible(v);
    forall s: string
      ensures Observed(w, s) == Reported(w.tree, s)
    {
      OneNodeReports(p, Data(Some(v), None, false), s);
    }
    OneNodeMeaning(p, Data(Some(v), None, false));
    BuildNameIsExact(p);
    ShortReset(p, v);
    var w1 := Next(w, Do(ResetAll(p), [p]));
    var w2 := Next(w1, Emit(0));
    RunFirst(w1, Emit(0), []);
    RunFirst(w, Do(ResetAll(p), [p]), [Emit(0)] + []);
    ElsewhereKept(w1, p, v);
    Misled(w2, p, v);
  }

  /** A signal under another name does not reach the property. */
  lemma ElsewhereKept(w: Watch, p: Path, v: Value)
    requires |w.idles| == 1 && w.idles[0] != Join(p) && w.seen == map[Join(p) := v]
    ensures Next(w, Emit(0)).idles == [] && Next(w, Emit(0)).tree == w.tree
    ensures Join(p) in Next(w, Emit(0)).seen && Next(w, Emit(0)).seen[Join(p)] == v
  {
  }

  // ---------- the condition is exact ----------

  /** The observer hears of a set first. */
  function AfterSet(p: Path, v: Value, rest: seq<Event>): seq<Event> {
    [Do(Set(p, v), [])] + ([Emit(0)] + rest)
  }

  lemma SetFirst(p: Path, d: Data, v: Value, rest: seq<Event>)
    requires ValidPath(p) && Fixed(v) && d.user == None && !d.locked && !IsEqual(d.system, Some(v))
    requires d.system.Some? ==> !Convertible(d.system.value)
    requires Runs(Knowing(p, d.(user := Some(v)), map[Join(p) := v]), rest)
    ensures var w := Knowing(p, d, map[]);
      && Initial(w) && Runs(w, AfterSet(p, v, rest))
      && Run(w, AfterSet(p, v, rest)) == Run(Knowing(p, d.(user := Some(v)), map[Join(p) := v]), rest)
  {
    var w := Knowing(p, d, map[]);
    forall s: string
      ensures Observed(w, s) == Reported(w.tree, s)
    {
      OneNodeReports(p, d, s);
    }
    SetIsSeen(p, d, v);
    RunFirst(Next(w, Do(Set(p, v), [])), Emit(0), rest);
    RunFirst(w, Do(Set(p, v), []), [Emit(0)] + rest);
  }

  /** All sets go to paths in `names`. */
  predicate SetsWithin(names: iset<Path>, events: seq<Event>) {
    forall i :: 0 <= i < |events| && events[i].Do? && events[i].op.Set? ==> events[i].op.p in names
  }

  /** The values of a tree are of `stored`, and lie under `names`. */
  ghost predicate StoredWithin(stored: iset<Value>, names: iset<Path>, t: Tree) {
    && Closed(t) && RootBlank(t)
    && (forall p :: p in t && t[p].user.Some? ==> p in names && t[p].user.value in stored)
    && (forall p :: p in t && t[p].system.Some? ==> p in names && t[p].system.value in stored)
  }

  /** A run that sets properties of `names` only, from a tree with values of `stored` for some of them,
      which the observer knows. */
  ghost predicate Within(stored: iset<Value>, names: iset<Path>, w: Watch, events: seq<Event>) {
    Initial(w) && StoredWithin(stored, names, w.tree) && Runs(w, events) && SetsWithin(names, events)
  }

  ghost predicate AlwaysFaithful(stored: iset<Value>, names: iset<Path>) {
    forall w, events :: Within(stored, names, w, events) && Run(w, events).idles == [] ==> Faithful(Run(w, events))
  }

  /** Replay is faithful for all runs over a set of valid names if and only if there are no names at
      all, or all values stored have a variant form and no name has a one-character component. */
  lemma ReplayIsExact(stored: iset<Value>, names: iset<Path>)
    requires forall p :: p in names ==> ValidPath(p)
    ensures AlwaysFaithful(stored, names) <==>
      (forall p :: p !in names) ||
      ((forall v :: v in stored ==> Convertible(v)) && (forall p :: p in names ==> LongNames(p)))
  {
    if (forall p :: p !in names) ||
       ((forall v :: v in stored ==> Convertible(v)) && (forall p :: p in names ==> LongNames(p)))
    {
      forall w, events | Within(stored, names, w, events) && Run(w, events).idles == []
        ensures Faithful(Run(w, events))
      {
        ReplayIsFaithful(w, events);
      }
    } else if d :| d in stored && !Convertible(d) {
      var p :| p in names;
      DefaultRefutes(stored, names, p, d);
    } else {
      var p :| p in names && !LongNames(p);
      NameRefutes(stored, names, p);
    }
  }

  lemma Refutes(stored: iset<Value>, names: iset<Path>, w: Watch, events: seq<Event>)
    requires Within(stored, names, w, events) && Run(w, events).idles == [] && !Faithful(Run(w, events))
    ensures !AlwaysFaithful(stored, names)
  {
  }

  const TOLD := One(Bool(true))

  lemma DefaultRefutes(stored: iset<Value>, names: iset<Path>, p: Path, d: Value)
    requires p in names && ValidPath(p) && d in stored && !Convertible(d)
    ensures !AlwaysFaithful(stored, names)
  {
    UnsendableDefaultFails(p, TOLD, d);
    SetFirst(p, Data(None, Some(d), false), TOLD, BackToDefault(p));
    OneNodeWithin(stored, names, p, Data(None, Some(d), false));
    OneSet(names, p, TOLD, Do(Reset(p), []));
    Refutes(stored, names, Knowing(p, Data(None, Some(d), false), map[]), AfterSet(p, TOLD, BackToDefault(p)));
  }

  lemma NameRefutes(stored: iset<Value>, names: iset<Path>, p: Path)
    requires p in names && ValidPath(p) && !LongNames(p)
    ensures !AlwaysFaithful(stored, names)
  {
    ShortStoredFails(p, TOLD);
    SetFirst(p, BLANK, TOLD, Misannounced(p));
    OneNodeWithin(stored, names, p, BLANK);
    OneSet(names, p, TOLD, Do(ResetAll(p), [p]));
    Refutes(stored, names, Knowing(p, BLANK, map[]), AfterSet(p, TOLD, Misannounced(p)));
  }

  lemma OneNodeWithin(stored: iset<Value>, names: iset<Path>, p: Path, d: Data)
    requires p in names && ValidPath(p) && d.user == None && (d.system.Some? ==> d.system.value in stored)
    ensures StoredWithin(stored, names, OneNode(p, d))
  {
    OneNodeMeaning(p, d);
  }

  lemma OneSet(names: iset<Path>, p: Path, v: Value, e: Event)
    requires p in names && e.Do? && !e.op.Set?
    ensures SetsWithin(names, AfterSet(p, v, [e] + ([Emit(0)] + [])))
  {
  }
}
