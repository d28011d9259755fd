/** What travels on the bus: the number, text or truth of a value, in the narrowest D-Bus type that
    holds its C type (common/esconf-gvaluefuncs.c; the integer types of the D-Bus Specification,
    section "Basic types"). */
module Bus {
  import opened Base
  import opened Values
  import opened XmlText

  // ---------- contents ----------

  /** What a scalar says, whatever its type. */
  datatype Content = Number(n: int) | Real(r: real) | Text(s: string) | Truth(b: bool)

  function ContentOf(s: Scalar): Content {
    match s
    case String(x) => Text(x)
    case UChar(n) => Number(n)
    case Char(n) => Number(n)
    case UInt16(n) => Number(n)
    case Int16(n) => Number(n)
    case UInt(n) => Number(n)
    case Int(n) => Number(n)
    case UInt64(n) => Number(n)
    case Int64(n) => Number(n)
    case Float(r) => Real(r)
    case Double(r) => Real(r)
    case Bool(b) => Truth(b)
  }

  function ContentOnBus(v: BasicVariant): Content {
    match v
    case VString(x) => Text(x)
    case VDouble(r) => Real(r)
    case VBoolean(b) => Truth(b)
    case VByte(n) => Number(n)
    case VInt16(n) => Number(n)
    case VUInt16(n) => Number(n)
    case VInt32(n) => Number(n)
    case VUInt32(n) => Number(n)
    case VInt64(n) => Number(n)
    case VUInt64(n) => Number(n)
  }

  // ---------- integer types ----------

  /** The numbers from `low` on, below `high`. */
  datatype Interval = Interval(low: int, high: int)

  predicate Holds(i: Interval, n: int) {
    i.low <= n < i.high
  }

  predicate Contains(i: Interval, j: Interval) {
    i.low <= j.low && j.high <= i.high
  }

  function Unsigned(limit: int): Interval {
    Interval(0, limit)
  }

  function Signed(limit: int): Interval {
    Interval(-limit, limit)
  }

  /** The numbers of a C type. */
  function KindInterval(k: Kind): Option<Interval> {
    match k
    case KUChar => Some(Unsigned(TWO_8))
    case KChar => Some(Signed(TWO_7))
    case KUInt16 => Some(Unsigned(TWO_16))
    case KInt16 => Some(Signed(TWO_15))
    case KUInt => Some(Unsigned(TWO_32))
    case KInt => Some(Signed(TWO_31))
    case KUInt64 => Some(Unsigned(TWO_64))
    case KInt64 => Some(Signed(TWO_63))
    case _ => None
  }

  /** The numbers of a D-Bus type. */
  function BusInterval(v: BasicVariant): Option<Interval> {
    match v
    case VByte(_) => Some(Unsigned(TWO_8))
    case VInt16(_) => Some(Signed(TWO_15))
    case VUInt16(_) => Some(Unsigned(TWO_16))
    case VInt32(_) => Some(Signed(TWO_31))
    case VUInt32(_) => Some(Unsigned(TWO_32))
    case VInt64(_) => Some(Signed(TWO_63))
    case VUInt64(_) => Some(Unsigned(TWO_64))
    case _ => None
  }

  /** The number, if there is one, is one of the type. */
  predicate FitsBus(v: BasicVariant) {
    BusInterval(v).Some? ==> ContentOnBus(v).Number? && Holds(BusInterval(v).value, ContentOnBus(v).n)
  }

  /** `v` has the narrowest of the D-Bus types that hold the interval. */
  ghost predicate Narrowest(v: BasicVariant, i: Interval) {
    BusInterval(v).Some? && Contains(BusInterval(v).value, i) &&
    forall w: BasicVariant :: BusInterval(w).Some? && Contains(BusInterval(w).value, i) ==>
      Contains(BusInterval(w).value, BusInterval(v).value)
  }

  lemma RangeIsInterval(s: Scalar)
    ensures InRange(s) <==> (KindInterval(KindOf(s)).Some? ==> Holds(KindInterval(KindOf(s)).value, ContentOf(s).n))
  {
  }

  // ---------- one value ----------

  /** Everything but FLOAT can be sent.  What is sent says the same as the value; a number goes in the
      narrowest D-Bus type for its C type, and fits it. */
  lemma ScalarSent(s: Scalar)
    requires InRange(s)
    ensures ScalarToVariant(s).None? <==> KindOf(s) == KFloat
    ensures ScalarToVariant(s).Some? ==>
      var v := ScalarToVariant(s).value;
      && ContentOnBus(v) == ContentOf(s) && FitsBus(v)
      && match KindInterval(KindOf(s))
         case Some(i) => Narrowest(v, i)
         case None => BusInterval(v).None?
  {
    RangeIsInterval(s);
  }

  /** The type in which a value arrives: the bus knows no CHAR, and 16-bit integers are widened. */
  function ArrivalKind(k: Kind): Kind {
    if k == KChar || k == KInt16 then KInt else if k == KUInt16 then KUInt else k
  }

  /** `t` is what becomes of `s` on the bus. */
  predicate Arrived(s: Scalar, t: Scalar) {
    KindOf(t) == ArrivalKind(KindOf(s)) && ContentOf(t) == ContentOf(s)
  }

  /** What arrives says the same as what was sent, and is a value of its type. */
  lemma ScalarArrives(s: Scalar)
    requires InRange(s) && ScalarToVariant(s).Some?
    ensures var t := ScalarFromVariant(ScalarToVariant(s).value); Arrived(s, t) && InRange(t)
  {
  }

  // ---------- arrays ----------

  /** The items that can be sent, in order. */
  function WithoutFloats(items: seq<Scalar>): seq<Scalar> {
    if items == [] then []
    else if KindOf(items[0]) == KFloat then WithoutFloats(items[1..])
    else [items[0]] + WithoutFloats(items[1..])
  }

  lemma {:induction false} WithoutFloatsConcat(a: seq<Scalar>, b: seq<Scalar>)
    ensures WithoutFloats(a + b) == WithoutFloats(a) + WithoutFloats(b)
  {
    if a == [] {
      assert a + b == b;
    } else {
      WithoutFloatsConcat(a[1..], b);
      assert (a + b)[1..] == a[1..] + b && (a + b)[0] == a[0];
      assert [a[0]] + (WithoutFloats(a[1..]) + WithoutFloats(b)) == [a[0]] + WithoutFloats(a[1..]) + WithoutFloats(b);
    }
  }

  lemma {:induction false} KeepsOthers(items: seq<Scalar>)
    ensures (forall i :: 0 <= i < |items| ==> KindOf(items[i]) != KFloat) ==> WithoutFloats(items) == items
    ensures WithoutFloats(items) == [] <==> forall i :: 0 <= i < |items| ==> KindOf(items[i]) == KFloat
  {
    if items != [] {
      KeepsOthers(items[1..]);
      assert items == [items[0]] + items[1..];
    }
  }

  /** The elements of a sent array are its items without the FLOATs, one for one. */
  lemma {:induction false} ItemsSent(items: seq<Scalar>)
    ensures var kept, elements := WithoutFloats(items), ItemsToVariant(items);
      && |elements| == |kept|
      && forall i :: 0 <= i < |kept| ==> ScalarToVariant(kept[i]) == Some(elements[i])
  {
    if items != [] {
      var n := |items| - 1;
      ItemsSent(items[..n]);
      assert items == items[..n] + [items[n]];
      WithoutFloatsConcat(items[..n], [items[n]]);
      assert WithoutFloats([]) == [] && [items[n]][1..] == [];
      assert WithoutFloats([items[n]]) == if KindOf(items[n]) == KFloat then [] else [items[n]];
    }
  }

  /** Which values can be sent: not FLOAT, and not an array of nothing but FLOATs. */
  lemma SendableExactly(v: Value)
    ensures Convertible(v) <==>
      match v
      case One(s) => KindOf(s) != KFloat
      case Array(items) => items == [] || exists i :: 0 <= i < |items| && KindOf(items[i]) != KFloat
      case StrV(_) => true
    ensures SentInHash(v).None? <==> v.One? && KindOf(v.scalar) == KFloat
  {
    if v.Array? {
      ItemsSent(v.items);
      KeepsOthers(v.items);
    }
  }

  /** What arrives at the other end: the same contents, item by item, in the types of the bus. */
  lemma ValueArrives(v: Value)
    requires AllInRange(Some(v)) && Convertible(v)
    ensures match v
      case One(s) =>
        Image(v).One? && Arrived(s, Image(v).scalar)
      case Array(items) =>
        var kept := WithoutFloats(items);
        && Image(v).Array? && |Image(v).items| == |kept|
        && forall i :: 0 <= i < |kept| ==>
             Arrived(kept[i], Image(v).items[i])
      case StrV(strings) => Image(v) == v
  {
    match v {
      case One(s) => ScalarArrives(s);
      case Array(items) =>
        ItemsSent(items);
        KeptInRange(items);
        var kept := WithoutFloats(items);
        forall i | 0 <= i < |kept|
          ensures Arrived(kept[i], Image(v).items[i])
        {
          ScalarArrives(kept[i]);
        }
      case StrV(_) =>
    }
  }

  lemma {:induction false} KeptInRange(items: seq<Scalar>)
    requires forall i :: 0 <= i < |items| ==> InRange(items[i])
    ensures forall i :: 0 <= i < |WithoutFloats(items)| ==> InRange(WithoutFloats(items)[i])
  {
    if items != [] {
      KeptInRange(items[1..]);
    }
  }
}
