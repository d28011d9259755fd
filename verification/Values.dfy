/** GValues, their comparison, and their passage through GVariant on the bus
    (common/esconf-gvaluefuncs.c). */
module Values {
  import opened Base

  /** The contents of an initialised GValue of a basic type.  `Float` and `Double` are reals:
      rounding is not part of this model. */
  datatype Scalar =
    | String(s: string)
    | UChar(uchar: int)
    | Char(char_: int)
    | UInt16(uint16: int)
    | Int16(int16: int)
    | UInt(uint: int)
    | Int(int_: int)
    | UInt64(uint64: int)
    | Int64(int64: int)
    | Float(float: real)
    | Double(double: real)
    | Bool(b: bool)

  /** An initialised GValue: a basic type, a G_TYPE_PTR_ARRAY of basic values, or a G_TYPE_STRV. */
  datatype Value =
    | One(scalar: Scalar)
    | Array(items: seq<Scalar>)
    | StrV(strings: seq<string>)

  // ---------- comparison ----------

  /** Same type and same contents, except that two INT16 values are compared through the UINT16
      getter of the second one, which refuses the type and yields 0. */
  predicate ScalarIsEqual(a: Scalar, b: Scalar) {
    match (a, b)
    case (Int16(x), Int16(_)) => x == 0
    case _ => a == b
  }

  /** `_esconf_gvalue_is_equal`; `None` is a GValue that was never initialised. */
  predicate IsEqual(a: Option<Value>, b: Option<Value>) {
    match (a, b)
    case (None, None) => true
    case (Some(One(x)), Some(One(y))) => ScalarIsEqual(x, y)
    case _ => false
  }

  /** A value for which `IsEqual` tells equal contents from different ones. */
  predicate Comparable(v: Value) {
    v.One? && !v.scalar.Int16?
  }

  /** What the comparison really decides: it is equality on every basic type but INT16; arrays and
      string vectors are never equal, not even to themselves; INT16 looks at the left value only. */
  lemma IsEqualMeaning(v: Value, w: Value)
    ensures Comparable(v) ==> (IsEqual(Some(v), Some(w)) <==> v == w)
    ensures !v.One? ==> !IsEqual(Some(v), Some(w))
    ensures v.One? && v.scalar.Int16? ==>
      (IsEqual(Some(v), Some(w)) <==> w.One? && w.scalar.Int16? && v.scalar.int16 == 0)
    ensures IsEqual(Some(v), Some(v)) <==> Comparable(v) || v == One(Int16(0))
    ensures IsEqual(None, None) && !IsEqual(None, Some(v)) && !IsEqual(Some(v), None)
  {
    if v.One? && w.One? && v.scalar.Int16? {
      assert ScalarIsEqual(v.scalar, w.scalar) <==> w.scalar.Int16? && v.scalar.int16 == 0;
    }
  }

  // ---------- GVariant ----------

  datatype BasicVariant =
    | VString(s: string)
    | VByte(n: int)
    | VInt16(n: int)
    | VUInt16(n: int)
    | VInt32(n: int)
    | VUInt32(n: int)
    | VInt64(n: int)
    | VUInt64(n: int)
    | VDouble(r: real)
    | VBoolean(b: bool)

  /** A basic variant, an "av" of basic variants, or an "as". */
  datatype Variant =
    | VBasic(basic: BasicVariant)
    | VArray(elements: seq<BasicVariant>)
    | VStrings(strings: seq<string>)

  /** `esconf_basic_gvalue_to_gvariant`: CHAR travels as int16; FLOAT has no variant. */
  function ScalarToVariant(s: Scalar): Option<BasicVariant> {
    match s
    case String(x) => Some(VString(x))
    case UChar(n) => Some(VByte(n))
    case Char(n) => Some(VInt16(n))
    case UInt16(n) => Some(VUInt16(n))
    case Int16(n) => Some(VInt16(n))
    case UInt(n) => Some(VUInt32(n))
    case Int(n) => Some(VInt32(n))
    case UInt64(n) => Some(VUInt64(n))
    case Int64(n) => Some(VInt64(n))
    case Double(r) => Some(VDouble(r))
    case Bool(b) => Some(VBoolean(b))
    case Float(_) => None
  }

  /** `esconf_basic_gvariant_to_gvalue`: 16-bit integers arrive as 32-bit ones. */
  function ScalarFromVariant(v: BasicVariant): Scalar {
    match v
    case VString(x) => String(x)
    case VByte(n) => UChar(n)
    case VInt16(n) => Int(n)
    case VUInt16(n) => UInt(n)
    case VInt32(n) => Int(n)
    case VUInt32(n) => UInt(n)
    case VInt64(n) => Int64(n)
    case VUInt64(n) => UInt64(n)
    case VDouble(r) => Double(r)
    case VBoolean(b) => Bool(b)
  }

  /** The elements that have a variant, in order; the others are dropped. */
  function ItemsToVariant(items: seq<Scalar>): (r: seq<BasicVariant>)
  {
    if items == [] then []
    else
      var rest := ItemsToVariant(items[..|items| - 1]);
      match ScalarToVariant(items[|items| - 1])
      case Some(v) => rest + [v]
      case None => rest
  }

  function ItemsFromVariant(elements: seq<BasicVariant>): (r: seq<Scalar>) {
    seq(|elements|, i requires 0 <= i < |elements| => ScalarFromVariant(elements[i]))
  }

  /** `esconf_gvalue_to_gvariant`.  A non-empty array of which no element has a variant leaves the
      builder without an element type, and no variant comes out. */
  function ToVariant(v: Value): Option<Variant> {
    match v
    case One(s) =>
      (match ScalarToVariant(s)
       case Some(b) => Some(VBasic(b))
       case None => None)
    case Array(items) =>
      var elements := ItemsToVariant(items);
      if items != [] && elements == [] then None else Some(VArray(elements))
    case StrV(strings) => Some(VStrings(strings))
  }

  /** `esconf_hash_to_gvariant` on one entry: an array is sent even if none of its elements is. */
  function SentInHash(v: Value): Option<Variant> {
    match v
    case Array(items) => Some(VArray(ItemsToVariant(items)))
    case _ => ToVariant(v)
  }

  lemma SentTheSame(v: Value)
    ensures ToVariant(v).Some? ==> SentInHash(v) == ToVariant(v)
    ensures ToVariant(v).None? && SentInHash(v).Some? ==> v.Array? && SentInHash(v) == Some(VArray([]))
  {
  }

  /** `esconf_gvariant_to_gvalue` on variants this program produces. */
  function FromVariant(v: Variant): Value {
    match v
    case VBasic(b) => One(ScalarFromVariant(b))
    case VArray(elements) => Array(ItemsFromVariant(elements))
    case VStrings(strings) => StrV(strings)
  }

  /** The array loop of `esconf_gvalue_to_gvariant`. */
  method GValueToGVariant(v: Value) returns (r: Option<Variant>)
    ensures r == ToVariant(v)
  {
    if v.Array? {
      if |v.items| == 0 {
        return Some(VArray([]));
      }
      var builder: seq<BasicVariant> := [];
      for i := 0 to |v.items|
        invariant builder == ItemsToVariant(v.items[..i])
      {
        assert v.items[..i + 1][..i] == v.items[..i];
        var element := ScalarToVariant(v.items[i]);
        if element.Some? {
          builder := builder + [element.value];
        }
      }
      assert v.items[..|v.items|] == v.items;
      r := if builder == [] then None else Some(VArray(builder));
    } else if v.StrV? {
      r := Some(VStrings(v.strings));
    } else {
      var basic := ScalarToVariant(v.scalar);
      r := if basic.Some? then Some(VBasic(basic.value)) else None;
    }
  }

  /** The array loop of `esconf_gvariant_to_gvalue`. */
  method GVariantToGValue(v: Variant) returns (r: Value)
    ensures r == FromVariant(v)
  {
    if v.VArray? {
      var arr: seq<Scalar> := [];
      var idx := 0;
      while idx < |v.elements|
        invariant 0 <= idx <= |v.elements|
        invariant arr == ItemsFromVariant(v.elements[..idx])
      {
        arr := arr + [ScalarFromVariant(v.elements[idx])];
        idx := idx + 1;
      }
      assert v.elements[..idx] == v.elements;
      r := Array(arr);
    } else if v.VStrings? {
      r := StrV(v.strings);
    } else {
      r := One(ScalarFromVariant(v.basic));
    }
  }

  // ---------- what a value becomes on the way through the bus ----------

  predicate Convertible(v: Value) {
    ToVariant(v).Some?
  }

  /** The value another process sees when `v` is sent to it. */
  function Image(v: Value): Value
    requires Convertible(v)
  {
    FromVariant(ToVariant(v).value)
  }

  /** The types the bus keeps. */
  predicate FixedScalar(s: Scalar) {
    !s.Char? && !s.UInt16? && !s.Int16? && !s.Float?
  }

  predicate FixedItems(items: seq<Scalar>) {
    forall i :: 0 <= i < |items| ==> FixedScalar(items[i])
  }

  /** Caller-checkable: the value contains no CHAR, no 16-bit integer and no FLOAT. */
  predicate Fixed(v: Value) {
    match v
    case One(s) => FixedScalar(s)
    case Array(items) => FixedItems(items)
    case StrV(_) => true
  }

  lemma {:induction false} ItemsImage(items: seq<Scalar>)
    ensures |ItemsToVariant(items)| <= |items|
    ensures FixedItems(ItemsFromVariant(ItemsToVariant(items)))
    ensures FixedItems(items) <==> ItemsFromVariant(ItemsToVariant(items)) == items
    ensures FixedItems(items) ==> |ItemsToVariant(items)| == |items|
  {
    if items != [] {
      var n := |items| - 1;
      var front, last := items[..n], items[n];
      ItemsImage(front);
      assert items == front + [last];
      var image := ItemsFromVariant(ItemsToVariant(items));
      var frontImage := ItemsFromVariant(ItemsToVariant(front));
      match ScalarToVariant(last) {
        case Some(v) =>
          assert image == frontImage + [ScalarFromVariant(v)];
          assert FixedScalar(last) <==> ScalarFromVariant(v) == last;
          if image == items {
            assert frontImage == image[..n] == front;
          }
        case None =>
          assert image == frontImage;
          assert !FixedItems(items);
      }
    }
  }

  /** Passing through the bus is idempotent, and it is the identity exactly on fixed values. */
  lemma ImageIsAProjection(v: Value)
    requires Convertible(v)
    ensures Fixed(Image(v)) && Convertible(Image(v)) && Image(Image(v)) == Image(v)
    ensures Image(v) == v <==> Fixed(v)
  {
    if v.Array? {
      ItemsImage(v.items);
      var w := Image(v);
      ItemsImage(w.items);
    }
  }

  lemma FixedIsConvertible(v: Value)
    requires Fixed(v)
    ensures Convertible(v) && Image(v) == v
  {
    if v.Array? {
      ItemsImage(v.items);
    }
  }
}
