/** Structs as array properties (esconf/esconf-channel.c, `esconf_channel_set_structv` and
    `esconf_channel_get_structv`). */
module StructLayout {
  import opened Base
  import opened Values
  import opened XmlText
  import opened Alignment

  // ---------- the caller's memory ----------

  /** A byte of a struct: part of the representation of a value, or anything else. */
  datatype Byte = Junk | Part(value: Scalar, index: nat)

  /** Sizes of the C types, and their alignments as exponents of two. */
  datatype Platform = Platform(size: Kind -> nat, log: Kind -> nat)

  predicate Sane(pf: Platform) {
    forall k: Kind :: pf.size(k) >= 1 && pf.log(k) <= 64
  }

  function Align(pf: Platform, k: Kind): nat {
    Pow2(pf.log(k))
  }

  predicate Holds(mem: seq<Byte>, off: nat, s: Scalar, size: nat) {
    off + size <= |mem| && forall i :: 0 <= i < size ==> mem[off + i] == Part(s, i)
  }

  /** What a read of type `k` yields; `None` if the bytes are not those of one such value. */
  function ReadAt(mem: seq<Byte>, off: nat, k: Kind, size: nat): (r: Option<Scalar>)
    requires size >= 1 && off + size <= |mem|
    ensures r.Some? ==> KindOf(r.value) == k && Holds(mem, off, r.value, size)
  {
    match mem[off]
    case Part(s, _) => if KindOf(s) == k && Holds(mem, off, s, size) then Some(s) else None
    case Junk => None
  }

  function WriteAt(mem: seq<Byte>, off: nat, s: Scalar, size: nat): (r: seq<Byte>)
    requires off + size <= |mem|
    ensures |r| == |mem| && Holds(r, off, s, size)
    ensures forall i :: 0 <= i < |mem| && !(off <= i < off + size) ==> r[i] == mem[i]
  {
    seq(|mem|, i requires 0 <= i < |mem| => if off <= i < off + size then Part(s, i - off) else mem[i])
  }

  // ---------- layout ----------

  /** The end of the first `n` members. */
  function EndOf(pf: Platform, types: seq<Kind>, n: nat): nat
    requires n <= |types|
    decreases n, 0
  {
    if n == 0 then 0 else OffsetOf(pf, types, n - 1) + pf.size(types[n - 1])
  }

  function OffsetOf(pf: Platform, types: seq<Kind>, i: nat): nat
    requires i < |types|
    decreases i, 1
  {
    AlignUp(EndOf(pf, types, i), pf.log(types[i]))
  }

  /** The struct fits into the address space. */
  predicate Fits(pf: Platform, types: seq<Kind>) {
    forall i :: 0 <= i < |types| ==> EndOf(pf, types, i) + Align(pf, types[i]) <= TWO_64
  }

  /** Each offset is the least multiple of the member's alignment that is not below the end of the member
      before it; the first one is 0. */
  lemma OffsetIsLeast(pf: Platform, types: seq<Kind>, i: nat, m: nat)
    requires i < |types|
    ensures var off, align := OffsetOf(pf, types, i), Align(pf, types[i]);
      var before := if i == 0 then 0 else OffsetOf(pf, types, i - 1) + pf.size(types[i - 1]);
      off >= before && off % align == 0 && (m >= before && m % align == 0 ==> off <= m)
  {
    AlignUpBounds(EndOf(pf, types, i), pf.log(types[i]));
    AlignUpIsLeast(EndOf(pf, types, i), pf.log(types[i]), m);
  }

  /** Members lie in order and never overlap. */
  lemma {:induction false} MembersApart(pf: Platform, types: seq<Kind>, i: nat, j: nat)
    requires i < j <= |types|
    ensures OffsetOf(pf, types, i) + pf.size(types[i]) <= EndOf(pf, types, j)
    ensures j < |types| ==> OffsetOf(pf, types, i) + pf.size(types[i]) <= OffsetOf(pf, types, j)
    decreases j
  {
    if j < |types| {
      AlignUpBounds(EndOf(pf, types, j), pf.log(types[j]));
    }
    if i + 1 < j {
      MembersApart(pf, types, i, j - 1);
      AlignUpBounds(EndOf(pf, types, j - 1), pf.log(types[j - 1]));
    }
  }

  // ---------- what set and get do ----------

  /** The member lies in the struct and is initialised. */
  predicate Ready(pf: Platform, types: seq<Kind>, mem: seq<Byte>, i: nat)
    requires i < |types|
  {
    var off, size := OffsetOf(pf, types, i), pf.size(types[i]);
    size >= 1 && off + size <= |mem| && ReadAt(mem, off, types[i], size).Some?
  }

  function MemberAt(pf: Platform, types: seq<Kind>, mem: seq<Byte>, i: nat): Scalar
    requires i < |types| && Ready(pf, types, mem, i)
  {
    ReadAt(mem, OffsetOf(pf, types, i), types[i], pf.size(types[i])).value
  }

  predicate Initialised(pf: Platform, types: seq<Kind>, mem: seq<Byte>) {
    forall i {:trigger Ready(pf, types, mem, i)} :: 0 <= i < |types| ==> Ready(pf, types, mem, i)
  }

  /** The values of the first `n` members. */
  function Members(pf: Platform, types: seq<Kind>, mem: seq<Byte>, n: nat): (r: seq<Scalar>)
    requires n <= |types| && Initialised(pf, types, mem)
    ensures |r| == n
  {
    if n == 0 then []
    else
      assert Ready(pf, types, mem, n - 1);
      Members(pf, types, mem, n - 1) + [MemberAt(pf, types, mem, n - 1)]
  }

  lemma {:induction false} MembersAre(pf: Platform, types: seq<Kind>, mem: seq<Byte>, n: nat, i: nat)
    requires i < n <= |types| && Initialised(pf, types, mem)
    ensures Ready(pf, types, mem, i) && Members(pf, types, mem, n)[i] == MemberAt(pf, types, mem, i)
    ensures KindOf(Members(pf, types, mem, n)[i]) == types[i]
  {
    assert Ready(pf, types, mem, n - 1);
    if i < n - 1 {
      MembersAre(pf, types, mem, n - 1, i);
    }
  }

  /** The type that the value of a member must have: 16-bit integers are expected as 32-bit ones. */
  function ExpectedKind(k: Kind): Kind {
    match k
    case KUInt16 => KUInt
    case KInt16 => KInt
    case _ => k
  }

  /** What is stored for it: the 16-bit integers are truncated. */
  function StoredAs(k: Kind, s: Scalar): Scalar {
    match (k, s)
    case (KUInt16, UInt(n)) => UInt16(n % TWO_16)
    case (KInt16, Int(n)) => Int16((n + TWO_15) % TWO_16 - TWO_15)
    case _ => s
  }

  /** A 16-bit member gets the number of its range that is the same modulo 2^16; other members get the
      value as it is. */
  lemma TruncationMeaning(k: Kind, s: Scalar)
    requires KindOf(s) == ExpectedKind(k)
    ensures KindOf(StoredAs(k, s)) == k
    ensures k != KUInt16 && k != KInt16 ==> StoredAs(k, s) == s
    ensures k == KUInt16 ==> InRange(StoredAs(k, s)) && (s.uint - StoredAs(k, s).uint16) % TWO_16 == 0
    ensures k == KInt16 ==> InRange(StoredAs(k, s)) && (s.int_ - StoredAs(k, s).int16) % TWO_16 == 0
  {
  }

  /** The members up to the first one of the wrong type. */
  function Accepted(types: seq<Kind>, arr: seq<Scalar>, n: nat): (r: nat)
    requires n <= |types| == |arr|
    ensures r <= n && (r < n ==> KindOf(arr[r]) != ExpectedKind(types[r]))
    ensures forall i :: 0 <= i < r ==> KindOf(arr[i]) == ExpectedKind(types[i])
  {
    if n == 0 then 0
    else
      var m := Accepted(types, arr, n - 1);
      if m < n - 1 || KindOf(arr[n - 1]) != ExpectedKind(types[n - 1]) then m else n
  }

  function Filled(pf: Platform, types: seq<Kind>, arr: seq<Scalar>, mem: seq<Byte>, n: nat): (r: seq<Byte>)
    requires n <= |types| == |arr| && EndOf(pf, types, |types|) <= |mem|
    ensures |r| == |mem|
  {
    if n == 0 then mem
    else
      MembersApart(pf, types, n - 1, |types|);
      WriteAt(Filled(pf, types, arr, mem, n - 1), OffsetOf(pf, types, n - 1),
              StoredAs(types[n - 1], arr[n - 1]), pf.size(types[n - 1]))
  }

  lemma WriteKeeps(mem: seq<Byte>, off: nat, s: Scalar, size: nat, o: nat, held: Scalar, n: nat)
    requires off + size <= |mem| && Holds(mem, o, held, n) && o + n <= off
    ensures Holds(WriteAt(mem, off, s, size), o, held, n)
  {
  }

  /** Later members do not touch earlier ones. */
  lemma {:induction false} FilledHolds(pf: Platform, types: seq<Kind>, arr: seq<Scalar>, mem: seq<Byte>, n: nat, i: nat)
    requires i < n <= |types| == |arr| && EndOf(pf, types, |types|) <= |mem|
    ensures Holds(Filled(pf, types, arr, mem, n), OffsetOf(pf, types, i), StoredAs(types[i], arr[i]), pf.size(types[i]))
  {
    MembersApart(pf, types, n - 1, |types|);
    var before := Filled(pf, types, arr, mem, n - 1);
    var off, size, s := OffsetOf(pf, types, n - 1), pf.size(types[n - 1]), StoredAs(types[n - 1], arr[n - 1]);
    assert Filled(pf, types, arr, mem, n) == WriteAt(before, off, s, size);
    if i < n - 1 {
      FilledHolds(pf, types, arr, mem, n - 1, i);
      MembersApart(pf, types, i, n - 1);
      WriteKeeps(before, off, s, size, OffsetOf(pf, types, i), StoredAs(types[i], arr[i]), pf.size(types[i]));
    }
  }

  /** Bytes of no member stay. */
  lemma {:induction false} FilledElsewhere(pf: Platform, types: seq<Kind>, arr: seq<Scalar>, mem: seq<Byte>, n: nat,
                                          j: nat)
    requires n <= |types| == |arr| && EndOf(pf, types, |types|) <= |mem| && j < |mem|
    requires forall i :: 0 <= i < n ==>
      !(OffsetOf(pf, types, i) <= j < OffsetOf(pf, types, i) + pf.size(types[i]))
    ensures Filled(pf, types, arr, mem, n)[j] == mem[j]
  {
    if n > 0 {
      MembersApart(pf, types, n - 1, |types|);
      FilledElsewhere(pf, types, arr, mem, n - 1, j);
    }
  }

  // ---------- the loops ----------

  /** Reads a member through a pointer of its type. */
  method Load(mem: array<Byte>, off: nat, k: Kind, size: nat) returns (s: Scalar)
    requires size >= 1 && off + size <= mem.Length && ReadAt(mem[..], off, k, size).Some?
    ensures ReadAt(mem[..], off, k, size) == Some(s)
  {
    s := mem[off].value;
  }

  /** Writes a member through a pointer of its type. */
  method Put(mem: array<Byte>, off: nat, s: Scalar, size: nat)
    requires off + size <= mem.Length
    modifies mem
    ensures mem[..] == WriteAt(old(mem[..]), off, s, size)
  {
    for i := 0 to size
      invariant forall j :: 0 <= j < mem.Length ==>
        mem[j] == if off <= j < off + i then Part(s, j - off) else old(mem[..])[j]
    {
      mem[off + i] := Part(s, i);
    }
  }

  /** `esconf_channel_set_structv`: the array that is handed to the cache. */
  method SetStructv(pf: Platform, mem: array<Byte>, types: seq<Kind>) returns (arr: seq<Scalar>)
    requires Sane(pf) && Fits(pf, types) && Initialised(pf, types, mem[..])
    ensures arr == Members(pf, types, mem[..], |types|)
  {
    arr := [];
    var curOffset := 0;
    for i := 0 to |types|
      invariant curOffset == EndOf(pf, types, i) && arr == Members(pf, types, mem[..], i)
    {
      assert Ready(pf, types, mem[..], i);
      var s;
      s, curOffset := GetStructVal(pf, mem, types, i, curOffset);
      arr := arr + [s];
    }
  }

  /** One member: the offset is aligned, the member read, and the offset moved past it. */
  method GetStructVal(pf: Platform, mem: array<Byte>, types: seq<Kind>, i: nat, curOffset: nat)
    returns (s: Scalar, next: nat)
    requires Sane(pf) && i < |types| && curOffset == EndOf(pf, types, i)
    requires curOffset + Align(pf, types[i]) <= TWO_64 && Ready(pf, types, mem[..], i)
    ensures s == MemberAt(pf, types, mem[..], i) && next == EndOf(pf, types, i + 1)
  {
    AlignValRoundsUp(curOffset, pf.log(types[i]));
    var off := AlignVal(curOffset, Pow2(pf.log(types[i])));
    s := Load(mem, off, types[i], pf.size(types[i]));
    next := off + pf.size(types[i]);
  }

  /** `esconf_channel_get_structv` on the array that the cache has: members are stored until one has
      the wrong type. */
  method GetStructv(pf: Platform, mem: array<Byte>, types: seq<Kind>, arr: seq<Scalar>) returns (ok: bool)
    requires Sane(pf) && Fits(pf, types) && EndOf(pf, types, |types|) <= mem.Length
    modifies mem
    ensures |arr| != |types| || arr == [] ==> !ok && mem[..] == old(mem[..])
    ensures |arr| == |types| && arr != [] ==>
      (ok <==> Accepted(types, arr, |arr|) == |arr|)
      && mem[..] == Filled(pf, types, arr, old(mem[..]), Accepted(types, arr, |arr|))
  {
    if |arr| == 0 || |arr| != |types| {
      return false;
    }
    ghost var mem0 := mem[..];
    var curOffset := 0;
    for i := 0 to |types|
      invariant curOffset == EndOf(pf, types, i)
      invariant Accepted(types, arr, i) == i && mem[..] == Filled(pf, types, arr, mem0, i)
    {
      if KindOf(arr[i]) != ExpectedKind(types[i]) {
        AcceptedStops(types, arr, i);
        return false;
      }
      AlignValRoundsUp(curOffset, pf.log(types[i]));
      MembersApart(pf, types, i, |types|);
      curOffset := AlignVal(curOffset, Pow2(pf.log(types[i])));
      Put(mem, curOffset, StoredAs(types[i], arr[i]), pf.size(types[i]));
      curOffset := curOffset + pf.size(types[i]);
    }
    ok := true;
  }

  lemma AcceptedStops(types: seq<Kind>, arr: seq<Scalar>, i: nat)
    requires i < |types| == |arr| && Accepted(types, arr, i) == i && KindOf(arr[i]) != ExpectedKind(types[i])
    ensures Accepted(types, arr, |arr|) == i
  {
    AcceptedFrom(types, arr, i, |arr|);
  }

  lemma {:induction false} AcceptedFrom(types: seq<Kind>, arr: seq<Scalar>, i: nat, n: nat)
    requires i < n <= |types| == |arr| && Accepted(types, arr, i) == i && KindOf(arr[i]) != ExpectedKind(types[i])
    ensures Accepted(types, arr, n) == i
  {
    if i < n - 1 {
      AcceptedFrom(types, arr, i, n - 1);
    }
  }

  // ---------- round trips ----------

  /** Getting `arr` gives back the members `s` of the struct. */
  ghost predicate GivesBack(pf: Platform, types: seq<Kind>, s: seq<Scalar>, arr: seq<Scalar>)
    requires |s| == |types|
  {
    && |arr| == |types| && types != [] && Accepted(types, arr, |arr|) == |arr|
    && forall i :: 0 <= i < |types| ==> StoredAs(types[i], arr[i]) == s[i]
  }

  lemma HeldReads(mem: seq<Byte>, off: nat, s: Scalar, size: nat)
    requires size >= 1 && Holds(mem, off, s, size)
    ensures ReadAt(mem, off, KindOf(s), size) == Some(s)
  {
    assert mem[off + 0] == Part(s, 0);
  }

  /** Then every member of the target struct reads as it was set. */
  lemma GivenBackReads(pf: Platform, types: seq<Kind>, s: seq<Scalar>, arr: seq<Scalar>, mem: seq<Byte>, i: nat)
    requires Sane(pf) && |s| == |types| && GivesBack(pf, types, s, arr) && EndOf(pf, types, |types|) <= |mem|
    requires i < |types| && forall j :: 0 <= j < |s| ==> KindOf(s[j]) == types[j]
    ensures OffsetOf(pf, types, i) + pf.size(types[i]) <= |mem|
    ensures var filled := Filled(pf, types, arr, mem, |types|);
      ReadAt(filled, OffsetOf(pf, types, i), types[i], pf.size(types[i])) == Some(s[i])
  {
    FilledHolds(pf, types, arr, mem, |types|, i);
    MembersApart(pf, types, i, |types|);
    HeldReads(Filled(pf, types, arr, mem, |types|), OffsetOf(pf, types, i), s[i], pf.size(types[i]));
  }

  /** The client that set the struct still has the array as it was set: it gets everything back
      exactly if no member has 16 bits. */
  lemma LocalRoundTrip(pf: Platform, types: seq<Kind>, s: seq<Scalar>)
    requires |s| == |types| && types != [] && forall i :: 0 <= i < |s| ==> KindOf(s[i]) == types[i]
    ensures GivesBack(pf, types, s, s) <==> forall i :: 0 <= i < |types| ==> types[i] != KUInt16 && types[i] != KInt16
  {
    if forall i :: 0 <= i < |types| ==> types[i] != KUInt16 && types[i] != KInt16 {
      AllAccepted(types, s, |types|);
    } else {
      var i :| 0 <= i < |types| && (types[i] == KUInt16 || types[i] == KInt16);
      assert KindOf(s[i]) != ExpectedKind(types[i]);
    }
  }

  lemma {:induction false} AllAccepted(types: seq<Kind>, arr: seq<Scalar>, n: nat)
    requires n <= |types| == |arr|
    ensures Accepted(types, arr, n) == n <==> forall i :: 0 <= i < n ==> KindOf(arr[i]) == ExpectedKind(types[i])
  {
    if n > 0 {
      AllAccepted(types, arr, n - 1);
    }
  }

  /** The set itself goes through exactly if some member is not a FLOAT. */
  lemma {:induction false} StructIsSent(types: seq<Kind>, s: seq<Scalar>)
    requires |s| == |types| && types != [] && forall i :: 0 <= i < |s| ==> KindOf(s[i]) == types[i]
    ensures Convertible(Array(s)) <==> exists i :: 0 <= i < |types| && types[i] != KFloat
    decreases |s|
  {
    var n := |s| - 1;
    if n > 0 {
      StructIsSent(types[..n], s[..n]);
      assert types[n] == KindOf(s[n]);
    } else {
      assert ItemsToVariant(s[..0]) == [];
      assert types[0] == KindOf(s[0]);
    }
  }

  /** Through the daemon the 16-bit integers become 32-bit ones, and come back; CHAR becomes INT,
      and FLOAT gets lost: everything comes back exactly if there is neither. */
  lemma DaemonRoundTrip(pf: Platform, types: seq<Kind>, s: seq<Scalar>)
    requires |s| == |types| && types != []
    requires forall i :: 0 <= i < |s| ==> KindOf(s[i]) == types[i] && InRange(s[i])
    ensures GivesBack(pf, types, s, ItemsFromVariant(ItemsToVariant(s))) <==>
      forall i :: 0 <= i < |types| ==> types[i] != KChar && types[i] != KFloat
  {
    var arr := ItemsFromVariant(ItemsToVariant(s));
    TravelLength(s);
    if |arr| == |s| {
      TravelItems(s);
      AllAccepted(types, arr, |types|);
      forall i | 0 <= i < |types|
        ensures KindOf(arr[i]) == ExpectedKind(types[i]) <==> types[i] != KChar && types[i] != KFloat
        ensures types[i] != KChar && types[i] != KFloat ==> StoredAs(types[i], arr[i]) == s[i]
      {
        Travels(s[i]);
      }
    }
  }

  lemma Travels(s: Scalar)
    requires InRange(s) && ScalarToVariant(s).Some?
    ensures var k, x := KindOf(s), ScalarFromVariant(ScalarToVariant(s).value);
      (KindOf(x) == ExpectedKind(k) <==> k != KChar) && (k != KChar ==> StoredAs(k, x) == s) && k != KFloat
  {
  }

  lemma {:induction false} TravelLength(s: seq<Scalar>)
    ensures |ItemsToVariant(s)| <= |s|
    ensures |ItemsToVariant(s)| == |s| <==> forall i :: 0 <= i < |s| ==> KindOf(s[i]) != KFloat
  {
    if s != [] {
      TravelLength(s[..|s| - 1]);
    }
  }

  lemma {:induction false} TravelItems(s: seq<Scalar>)
    requires |ItemsToVariant(s)| == |s|
    ensures forall i :: 0 <= i < |s| ==> ScalarToVariant(s[i]) == Some(ItemsToVariant(s)[i])
  {
    if s != [] {
      TravelLength(s[..|s| - 1]);
      TravelItems(s[..|s| - 1]);
    }
  }

  /** Set and get together: after a set from `source` and a get of what travelled through the daemon
      into `target`, each member of the target reads as in the source, whatever else it holds. */
  lemma SetThenGet(pf: Platform, types: seq<Kind>, source: seq<Byte>, target: seq<Byte>, i: nat)
    requires Sane(pf) && Initialised(pf, types, source) && EndOf(pf, types, |types|) <= |target| && i < |types|
    requires forall j :: 0 <= j < |types| ==> types[j] != KChar && types[j] != KFloat
    requires forall j :: 0 <= j < |types| ==> InRange(Members(pf, types, source, |types|)[j])
    ensures var arr := ItemsFromVariant(ItemsToVariant(Members(pf, types, source, |types|)));
      |arr| == |types| && Accepted(types, arr, |arr|) == |arr|
      && Ready(pf, types, Filled(pf, types, arr, target, |types|), i) && Ready(pf, types, source, i)
      && MemberAt(pf, types, Filled(pf, types, arr, target, |types|), i) == MemberAt(pf, types, source, i)
  {
    var s := Members(pf, types, source, |types|);
    forall j | 0 <= j < |types|
      ensures KindOf(s[j]) == types[j]
    {
      MembersAre(pf, types, source, |types|, j);
    }
    MembersAre(pf, types, source, |types|, i);
    DaemonRoundTrip(pf, types, s);
    GivenBackReads(pf, types, s, ItemsFromVariant(ItemsToVariant(s)), target, i);
  }
}
