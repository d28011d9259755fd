/** Values as the attribute values of the channel files: type names, reading
    (common/esconf-gvaluefuncs.c) and writing (`esconf_format_xml_tag` in
    esconfd/esconf-backend-perchannel-xml.c). */
module XmlText {
  import opened Base
  import opened Values
  import opened IntText

  /** What comes from outside: whether the user is in a list of a lock attribute, printf("%f"), and
      g_ascii_strtod on a whole text. */
  datatype Env = Env(inList: string -> bool, printReal: real -> string, parseReal: string -> Option<real>)

  datatype Kind =
    | KString | KUChar | KChar | KUInt16 | KInt16 | KUInt | KInt | KUInt64 | KInt64 | KFloat | KDouble | KBool

  datatype Type = BasicType(kind: Kind) | ArrayType | EmptyType | InvalidType

  /** `_esconf_gtype_from_string`. */
  function TypeFromString(s: string): Type {
    if s == "empty" then EmptyType
    else if s == "string" then BasicType(KString)
    else if s == "int" then BasicType(KInt)
    else if s == "double" then BasicType(KDouble)
    else if s == "bool" then BasicType(KBool)
    else if s == "array" then ArrayType
    else if s == "uint" then BasicType(KUInt)
    else if s == "uchar" then BasicType(KUChar)
    else if s == "char" then BasicType(KChar)
    else if s == "uint16" then BasicType(KUInt16)
    else if s == "int16" then BasicType(KInt16)
    else if s == "uint64" then BasicType(KUInt64)
    else if s == "int64" then BasicType(KInt64)
    else if s == "float" then BasicType(KFloat)
    else InvalidType
  }

  /** `_esconf_string_from_gtype` on the types a value can have. */
  function KindName(k: Kind): string {
    match k
    case KString => "string"
    case KUChar => "uchar"
    case KChar => "char"
    case KUInt16 => "uint16"
    case KInt16 => "int16"
    case KUInt => "uint"
    case KInt => "int"
    case KUInt64 => "uint64"
    case KInt64 => "int64"
    case KFloat => "float"
    case KDouble => "double"
    case KBool => "bool"
  }

  function TypeName(t: Type): string
    requires !t.InvalidType?
  {
    match t
    case BasicType(k) => KindName(k)
    case ArrayType => "array"
    case EmptyType => "empty"
  }

  lemma TypeNamesRead(t: Type)
    requires !t.InvalidType?
    ensures TypeName(t) != "" && TypeFromString(TypeName(t)) == t
  {
    if t.BasicType? {
      match t.kind {
        case KString => case KUChar => case KChar => case KUInt16 => case KInt16 => case KUInt =>
        case KInt => case KUInt64 => case KInt64 => case KFloat => case KDouble => case KBool =>
      }
    }
  }

  /** The names of the format, */
  lemma TypeNamesAre()
    ensures TypeFromString("empty") == EmptyType && TypeFromString("array") == ArrayType
    ensures TypeFromString("string") == BasicType(KString) && TypeFromString("bool") == BasicType(KBool)
    ensures TypeFromString("uchar") == BasicType(KUChar) && TypeFromString("char") == BasicType(KChar)
    ensures TypeFromString("uint16") == BasicType(KUInt16) && TypeFromString("int16") == BasicType(KInt16)
    ensures TypeFromString("uint") == BasicType(KUInt) && TypeFromString("int") == BasicType(KInt)
    ensures TypeFromString("uint64") == BasicType(KUInt64) && TypeFromString("int64") == BasicType(KInt64)
    ensures TypeFromString("float") == BasicType(KFloat) && TypeFromString("double") == BasicType(KDouble)
  {
  }

  /** and no others. */
  lemma OtherTypeNames(s: string)
    ensures TypeFromString(s) != InvalidType ==>
      s in {"empty", "array", "string", "bool", "uchar", "char", "uint16", "int16", "uint", "int", "uint64", "int64",
            "float", "double"}
  {
  }

  function KindOf(s: Scalar): Kind {
    match s
    case String(_) => KString
    case UChar(_) => KUChar
    case Char(_) => KChar
    case UInt16(_) => KUInt16
    case Int16(_) => KInt16
    case UInt(_) => KUInt
    case Int(_) => KInt
    case UInt64(_) => KUInt64
    case Int64(_) => KInt64
    case Float(_) => KFloat
    case Double(_) => KDouble
    case Bool(_) => KBool
  }

  /** The value fits the C type it stands for. */
  predicate InRange(s: Scalar) {
    match s
    case UChar(n) => 0 <= n < TWO_8
    case Char(n) => -TWO_7 <= n < TWO_7
    case UInt16(n) => 0 <= n < TWO_16
    case Int16(n) => -TWO_15 <= n < TWO_15
    case UInt(n) => 0 <= n < TWO_32
    case Int(n) => -TWO_31 <= n < TWO_31
    case UInt64(n) => 0 <= n < TWO_64
    case Int64(n) => -TWO_63 <= n < TWO_63
    case _ => true
  }

  // ---------- reading ----------

  /** The smallest positive normalised and the largest finite single-precision number. */
  const MIN_FLOAT := 1.0 / 85070591730234615865843651857942052864.0
  const MAX_FLOAT := 340282346638528859811704183484516925440.0

  /** g_value_init: what a value holds before, and after a failed, conversion. */
  function InitialScalar(k: Kind): Scalar {
    match k
    case KString => String("")
    case KUChar => UChar(0)
    case KChar => Char(0)
    case KUInt16 => UInt16(0)
    case KInt16 => Int16(0)
    case KUInt => UInt(0)
    case KInt => Int(0)
    case KUInt64 => UInt64(0)
    case KInt64 => Int64(0)
    case KFloat => Float(0.0)
    case KDouble => Double(0.0)
    case KBool => Bool(false)
  }

  /** `_esconf_gvalue_from_string` on the basic types. */
  function ScalarFromText(env: Env, k: Kind, text: string): (r: Option<Scalar>)
    ensures r.Some? ==> KindOf(r.value) == k && InRange(r.value)
  {
    match k
    case KString => Some(String(text))
    case KUChar => (match ReadUnsigned(text, TWO_8 - 1) case Some(n) => Some(UChar(n)) case None => None)
    case KChar => (match ReadSigned(text, -TWO_7, TWO_7 - 1) case Some(n) => Some(Char(n)) case None => None)
    case KUInt => (match ReadUnsigned(text, TWO_32 - 1) case Some(n) => Some(UInt(n)) case None => None)
    case KInt => (match ReadSigned(text, -TWO_31, TWO_31 - 1) case Some(n) => Some(Int(n)) case None => None)
    case KUInt16 => (match ReadSigned(text, 0, TWO_16 - 1) case Some(n) => Some(UInt16(n)) case None => None)
    case KInt16 => (match ReadSigned(text, -TWO_15, TWO_15 - 1) case Some(n) => Some(Int16(n)) case None => None)
    case KUInt64 => (match ReadUInt64(text) case Some(n) => Some(UInt64(n)) case None => None)
    case KInt64 => (match ReadInt64(text) case Some(n) => Some(Int64(n)) case None => None)
    case KFloat =>
      (match env.parseReal(text)
       case Some(r) => if r < MIN_FLOAT || r > MAX_FLOAT then None else Some(Float(r))
       case None => None)
    case KDouble => (match env.parseReal(text) case Some(r) => Some(Double(r)) case None => None)
    case KBool => if text == "true" then Some(Bool(true)) else if text == "false" then Some(Bool(false)) else None
  }

  // ---------- writing ----------

  /** The text of a value in a file.  CHAR is fetched with the getter of UCHAR, which refuses it and
      yields 0; the 16-bit types are unknown to the writer. */
  function ScalarText(env: Env, s: Scalar): Option<string> {
    match s
    case String(x) => Some(x)
    case UChar(n) => Some(PrintInt(n))
    case Char(_) => Some(PrintInt(0))
    case UInt(n) => Some(PrintInt(n))
    case Int(n) => Some(PrintInt(n))
    case UInt64(n) => Some(PrintInt(n))
    case Int64(n) => Some(PrintInt(n))
    case Float(r) => Some(env.printReal(r))
    case Double(r) => Some(env.printReal(r))
    case Bool(b) => Some(if b then "true" else "false")
    case UInt16(_) => None
    case Int16(_) => None
  }

  /** The values a file keeps: not the 16-bit integers, of CHAR only 0, and of the reals those whose
      text reads back, which for FLOAT must be positive. */
  predicate StorableScalar(env: Env, s: Scalar) {
    match s
    case UInt16(_) => false
    case Int16(_) => false
    case Char(n) => n == 0
    case Float(r) => MIN_FLOAT <= r <= MAX_FLOAT && env.parseReal(env.printReal(r)) == Some(r)
    case Double(r) => env.parseReal(env.printReal(r)) == Some(r)
    case _ => true
  }

  /** Reading the text of a scalar gives it back. */
  predicate ReadsBack(env: Env, s: Scalar) {
    ScalarText(env, s).Some? && ScalarFromText(env, KindOf(s), ScalarText(env, s).value) == Some(s)
  }

  lemma BytesReadBack(env: Env, s: Scalar)
    requires InRange(s) && (s.UChar? || s.Char?)
    ensures ReadsBack(env, s) <==> StorableScalar(env, s)
  {
    match s {
      case UChar(n) => ReadPrinted(n, 0, TWO_8 - 1);
      case Char(n) => ReadPrinted(0, -TWO_7, TWO_7 - 1);
    }
  }

  lemma WordsReadBack(env: Env, s: Scalar)
    requires InRange(s) && (s.UInt? || s.Int?)
    ensures ReadsBack(env, s)
  {
    match s {
      case UInt(n) => ReadPrinted(n, 0, TWO_32 - 1);
      case Int(n) => ReadPrinted(n, -TWO_31, TWO_31 - 1);
    }
  }

  lemma UInt64ReadsBack(env: Env, n: int, text: string)
    requires 0 <= n < TWO_64 && text == PrintInt(n) && ReadUInt64(text) == Some(n)
    ensures ReadsBack(env, UInt64(n))
  {
  }

  lemma Int64ReadsBack(env: Env, n: int, text: string)
    requires -TWO_63 <= n < TWO_63 && text == PrintInt(n) && ReadInt64(text) == Some(n)
    ensures ReadsBack(env, Int64(n))
  {
  }

  lemma LongsReadBack(env: Env, s: Scalar)
    requires InRange(s) && (s.UInt64? || s.Int64?)
    ensures ReadsBack(env, s)
  {
    match s {
      case UInt64(n) =>
        ReadPrinted(n, 0, 0);
        UInt64ReadsBack(env, n, PrintInt(n));
      case Int64(n) =>
        ReadPrinted(n, 0, 0);
        Int64ReadsBack(env, n, PrintInt(n));
    }
  }

  lemma RestReadsBack(env: Env, s: Scalar)
    requires s.String? || s.Bool? || s.Float? || s.Double? || s.UInt16? || s.Int16?
    ensures ReadsBack(env, s) <==> StorableScalar(env, s)
  {
  }

  lemma ScalarTextReads(env: Env, s: Scalar)
    requires InRange(s)
    ensures ReadsBack(env, s) <==> StorableScalar(env, s)
  {
    match s {
      case UChar(_) => BytesReadBack(env, s);
      case Char(_) => BytesReadBack(env, s);
      case UInt(_) => WordsReadBack(env, s);
      case Int(_) => WordsReadBack(env, s);
      case UInt64(_) => LongsReadBack(env, s);
      case Int64(_) => LongsReadBack(env, s);
      case _ => RestReadsBack(env, s);
    }
  }

  /** The <value> children of an array, or the attribute value of a basic type. */
  datatype Item = Item(kind: Kind, text: string)

  datatype Payload = Branch | Basic(item: Item) | Items(items: seq<Item>)

  function ItemOf(env: Env, s: Scalar): Option<Item> {
    match ScalarText(env, s)
    case Some(text) => Some(Item(KindOf(s), text))
    case None => None
  }

  function ItemsOf(env: Env, scalars: seq<Scalar>): Option<seq<Item>> {
    if scalars == [] then Some([])
    else
      var n := |scalars| - 1;
      match (ItemsOf(env, scalars[..n]), ItemOf(env, scalars[n]))
      case (Some(front), Some(last)) => Some(front + [last])
      case _ => None
  }

  function StringItems(strings: seq<string>): seq<Item> {
    seq(|strings|, i requires 0 <= i < |strings| => Item(KString, strings[i]))
  }

  /** `esconf_format_xml_tag`; `None` when it gives up.  A 16-bit integer becomes a branch, but makes
      an array that contains it unwritable. */
  function PayloadOf(env: Env, v: Option<Value>): Option<Payload> {
    match v
    case None => Some(Branch)
    case Some(One(s)) => (match ItemOf(env, s) case Some(item) => Some(Basic(item)) case None => Some(Branch))
    case Some(Array(scalars)) => (match ItemsOf(env, scalars) case Some(items) => Some(Items(items)) case None => None)
    case Some(StrV(strings)) => Some(Items(StringItems(strings)))
  }

  // ---------- the round trip of one value ----------

  function ItemRead(env: Env, item: Item): Option<Scalar> {
    ScalarFromText(env, item.kind, item.text)
  }

  predicate GoodItems(env: Env, items: seq<Item>) {
    forall i :: 0 <= i < |items| ==> ItemRead(env, items[i]).Some?
  }

  predicate GoodPayload(env: Env, p: Payload) {
    match p
    case Branch => true
    case Basic(item) => ItemRead(env, item).Some?
    case Items(items) => GoodItems(env, items)
  }

  function ItemsValue(env: Env, items: seq<Item>): seq<Scalar>
    requires GoodItems(env, items)
  {
    seq(|items|, i requires 0 <= i < |items| => ItemRead(env, items[i]).value)
  }

  function PayloadValue(env: Env, p: Payload): Option<Value>
    requires GoodPayload(env, p)
  {
    match p
    case Branch => None
    case Basic(item) => Some(One(ItemRead(env, item).value))
    case Items(items) => Some(Array(ItemsValue(env, items)))
  }

  predicate AllInRange(v: Option<Value>) {
    match v
    case Some(One(s)) => InRange(s)
    case Some(Array(items)) => forall i :: 0 <= i < |items| ==> InRange(items[i])
    case _ => true
  }

  /** The user values that survive being written and read. */
  predicate Storable(env: Env, v: Option<Value>) {
    match v
    case None => true
    case Some(One(s)) => StorableScalar(env, s)
    case Some(Array(items)) => forall i :: 0 <= i < |items| ==> StorableScalar(env, items[i])
    case Some(StrV(_)) => false
  }

  lemma {:induction false} ItemsRead(env: Env, scalars: seq<Scalar>)
    requires forall i :: 0 <= i < |scalars| ==> InRange(scalars[i])
    ensures (forall i :: 0 <= i < |scalars| ==> StorableScalar(env, scalars[i])) <==>
      var items := ItemsOf(env, scalars);
      items.Some? && GoodItems(env, items.value) && ItemsValue(env, items.value) == scalars
    ensures ItemsOf(env, scalars).Some? ==> |ItemsOf(env, scalars).value| == |scalars|
  {
    if scalars != [] {
      var n := |scalars| - 1;
      ItemsRead(env, scalars[..n]);
      ScalarTextReads(env, scalars[n]);
      assert scalars == scalars[..n] + [scalars[n]];
      var items := ItemsOf(env, scalars);
      if items.Some? && GoodItems(env, items.value) && ItemsValue(env, items.value) == scalars {
        var front := ItemsOf(env, scalars[..n]).value;
        assert front == items.value[..n];
        assert ItemsValue(env, front) == scalars[..n];
        assert ItemsValue(env, items.value)[n] == scalars[n];
      }
    }
  }

  /** Exactly the storable values are written to something that reads back as the same value. */
  lemma PayloadRoundTrip(env: Env, v: Option<Value>)
    requires AllInRange(v)
    ensures Storable(env, v) <==>
      var p := PayloadOf(env, v);
      p.Some? && GoodPayload(env, p.value) && PayloadValue(env, p.value) == v
  {
    match v {
      case None =>
      case Some(One(s)) => ScalarTextReads(env, s);
      case Some(Array(items)) => ItemsRead(env, items);
      case Some(StrV(_)) =>
    }
  }

  /** A string vector is written as an array of strings, and reads back as one. */
  lemma StringVectorReads(env: Env, strings: seq<string>)
    ensures var p, v := PayloadOf(env, Some(StrV(strings))), Some(Array(Strings(strings)));
      p.Some? && GoodPayload(env, p.value) && PayloadValue(env, p.value) == v && Storable(env, v)
  {
    assert ItemsValue(env, StringItems(strings)) == Strings(strings);
  }

  function Strings(strings: seq<string>): seq<Scalar> {
    seq(|strings|, i requires 0 <= i < |strings| => String(strings[i]))
  }

  /** The writer gives up exactly on arrays with a 16-bit integer; a 16-bit integer by itself is written
      as a branch. */
  lemma GivesUpExactly(env: Env, v: Option<Value>)
    ensures PayloadOf(env, v) == None <==>
      v.Some? && v.value.Array? && exists i :: 0 <= i < |v.value.items| && IsShort(v.value.items[i])
    ensures PayloadOf(env, v) == Some(Branch) <==> v.None? || (v.value.One? && IsShort(v.value.scalar))
  {
    if v.Some? && v.value.Array? {
      ItemsGiveUp(env, v.value.items);
    }
  }

  predicate IsShort(s: Scalar) {
    KindOf(s) == KUInt16 || KindOf(s) == KInt16
  }

  lemma {:induction false} ItemsGiveUp(env: Env, scalars: seq<Scalar>)
    ensures ItemsOf(env, scalars) == None <==> exists i :: 0 <= i < |scalars| && IsShort(scalars[i])
  {
    if scalars != [] {
      var n := |scalars| - 1;
      ItemsGiveUp(env, scalars[..n]);
      assert ItemOf(env, scalars[n]).None? <==> IsShort(scalars[n]);
    }
  }
}
