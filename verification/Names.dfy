/** Property names as strings and as paths (esconfd/esconf-backend.c, and the name handling of
    esconfd/esconf-backend-perchannel-xml.c). */
module Names {
  import opened Base

  /** The size of the buffers that hold names, terminator included. */
  const MAX_PROP_PATH := 4096

  /** The components of a name, outermost first. */
  type Path = seq<string>

  predicate SlashFree(s: string) {
    forall i :: 0 <= i < |s| ==> s[i] != '/'
  }

  predicate AllSlashFree(p: Path) {
    forall i :: 0 <= i < |p| ==> SlashFree(p[i])
  }

  /** The component path written as a name: "/c1/c2/...". */
  function Join(p: Path): string {
    if p == [] then "" else Join(p[..|p| - 1]) + "/" + p[|p| - 1]
  }

  /** Position of the last '/' (`strrchr`, `g_strrstr`), or -1. */
  function LastSlash(s: string): (i: int)
    ensures -1 <= i < |s|
    ensures i >= 0 ==> s[i] == '/'
    ensures forall j :: i < j < |s| ==> s[j] != '/'
  {
    if s == [] then -1
    else if s[|s| - 1] == '/' then |s| - 1
    else LastSlash(s[..|s| - 1])
  }

  /** A string that is empty or starts with '/', cut at its slashes. */
  function Components(s: string): Path
    requires s == [] || s[0] == '/'
    decreases |s|
  {
    if s == [] then []
    else
      var i := LastSlash(s);
      Components(s[..i]) + [s[i + 1..]]
  }

  // ---------- joining and cutting are inverse ----------

  lemma {:induction false} LastSlashOf(front: string, last: string)
    requires SlashFree(last)
    ensures LastSlash(front + "/" + last) == |front|
  {
    var s := front + "/" + last;
    assert s[|front|] == '/';
    forall j | |front| < j < |s|
      ensures s[j] != '/'
    {
      assert s[j] == last[j - |front| - 1];
    }
  }

  lemma JoinStartsWithSlash(p: Path)
    ensures p != [] ==> Join(p) != [] && Join(p)[0] == '/'
    ensures p == [] <==> Join(p) == []
  {
    if p != [] {
      JoinStartsWithSlash(p[..|p| - 1]);
    }
  }

  lemma {:induction false} ComponentsOfJoin(p: Path)
    requires AllSlashFree(p)
    ensures Join(p) == [] || Join(p)[0] == '/'
    ensures Components(Join(p)) == p
  {
    JoinStartsWithSlash(p);
    if p != [] {
      var front, last := p[..|p| - 1], p[|p| - 1];
      ComponentsOfJoin(front);
      JoinStartsWithSlash(front);
      LastSlashOf(Join(front), last);
      assert Join(p)[..|Join(front)|] == Join(front);
      assert Join(p)[|Join(front)| + 1..] == last;
      assert p == front + [last];
    }
  }

  lemma {:induction false} JoinOfComponents(s: string)
    requires s == [] || s[0] == '/'
    ensures Join(Components(s)) == s && AllSlashFree(Components(s))
    decreases |s|
  {
    if s != [] {
      var i := LastSlash(s);
      JoinOfComponents(s[..i]);
      JoinOneMore(Components(s[..i]), s[i + 1..]);
      assert s == s[..i] + "/" + s[i + 1..];
    }
  }

  lemma JoinOneMore(p: Path, c: string)
    ensures Join(p + [c]) == Join(p) + "/" + c
    ensures AllSlashFree(p) && SlashFree(c) ==> AllSlashFree(p + [c])
  {
    assert (p + [c])[..|p + [c]| - 1] == p;
  }

  lemma JoinInjective(p: Path, q: Path)
    requires AllSlashFree(p) && AllSlashFree(q)
    ensures Join(p) == Join(q) <==> p == q
  {
    ComponentsOfJoin(p);
    ComponentsOfJoin(q);
  }

  lemma {:induction false} JoinConcat(p: Path, q: Path)
    ensures Join(p + q) == Join(p) + Join(q)
  {
    if q == [] {
      assert p + q == p;
    } else {
      var n := |q| - 1;
      JoinConcat(p, q[..n]);
      assert (p + q)[..|p + q| - 1] == p + q[..n];
    }
  }

  // ---------- which names are valid ----------

  predicate NameChar(c: char) {
    ('A' <= c <= 'Z') || ('a' <= c <= 'z') || ('0' <= c <= '9')
    || c in {'_', '-', '{', '}', '<', '>', '|', ',', '[', ']', '.', ':'}
  }

  predicate ValidComponent(c: string) {
    c != [] && forall i :: 0 <= i < |c| ==> NameChar(c[i])
  }

  predicate ValidPath(p: Path) {
    p != [] && forall i :: 0 <= i < |p| ==> ValidComponent(p[i])
  }

  /** What the scan looks at: the first two characters, the alphabet, neighbours, the end. */
  predicate ScansClean(s: string) {
    && |s| >= 2 && s[0] == '/' && s[|s| - 1] != '/'
    && (forall i :: 1 <= i < |s| ==> NameChar(s[i]) || s[i] == '/')
    && (forall i :: 1 <= i < |s| ==> !(s[i] == '/' && s[i - 1] == '/'))
  }

  datatype NameError = NoLeadingSlash | RootElement | BadCharacter | DoubleSlash | TrailingSlash

  /** The characters from 1 up to `i` pass the scan. */
  predicate ScannedTo(s: string, i: nat)
    requires i <= |s|
  {
    && (forall j :: 1 <= j < i ==> NameChar(s[j]) || s[j] == '/')
    && (forall j :: 1 <= j < i ==> !(s[j] == '/' && s[j - 1] == '/'))
  }

  /** What is wrong with a name; the first problem counts. */
  predicate IsError(s: string, error: NameError) {
    match error
    case NoLeadingSlash => s == [] || s[0] != '/'
    case RootElement => s == "/"
    case BadCharacter =>
      |s| > 1 && s[0] == '/' && exists i :: 1 <= i < |s| && ScannedTo(s, i) && !NameChar(s[i]) && s[i] != '/'
    case DoubleSlash =>
      |s| > 1 && s[0] == '/' && exists i :: 1 <= i < |s| && ScannedTo(s, i) && s[i] == '/' && s[i - 1] == '/'
    case TrailingSlash => |s| > 1 && s[0] == '/' && ScannedTo(s, |s|) && s[|s| - 1] == '/'
  }

  /** `esconf_property_is_valid`: accepts exactly the names of valid paths, and tells the first problem of
      the others. */
  method PropertyIsValid(property: string) returns (error: Option<NameError>)
    ensures error.Some? ==> IsError(property, error.value)
    ensures error.None? <==> exists p :: ValidPath(p) && property == Join(p)
    ensures error.None? ==> property[..1] == "/" && ValidPath(Components(property))
  {
    ValidNames(property);
    if property == [] || property[0] != '/' {
      return Some(NoLeadingSlash);
    }
    var p := 1;
    if p == |property| {
      return Some(RootElement);
    }
    while p < |property|
      invariant 1 <= p <= |property|
      invariant ScannedTo(property, p)
    {
      var c := property[p];
      if !('A' <= c <= 'Z') && !('a' <= c <= 'z') && !('0' <= c <= '9')
         && c != '_' && c != '-' && c != '/' && c != '{' && c != '}'
         && !(c == '<' || c == '>') && c != '|' && c != ','
         && c != '[' && c != ']' && c != '.' && c != ':'
      {
        assert !ScansClean(property);
        return Some(BadCharacter);
      }
      if '/' == c && '/' == property[p - 1] {
        assert !ScansClean(property);
        return Some(DoubleSlash);
      }
      p := p + 1;
    }
    if property[p - 1] == '/' {
      return Some(TrailingSlash);
    }
    error := None;
  }

  /** The scan, for callers that only ask whether a name is valid. */
  method IsValid(property: string) returns (valid: bool)
    ensures valid <==> ScansClean(property)
  {
    var error := PropertyIsValid(property);
    ValidNames(property);
    valid := error.None?;
  }

  /** The scan's criterion is the intended one. */
  lemma ValidNames(s: string)
    ensures ScansClean(s) <==> exists p :: ValidPath(p) && s == Join(p)
    ensures ScansClean(s) ==> ValidPath(Components(s)) && Join(Components(s)) == s
  {
    if ScansClean(s) {
      CleanComponents(s);
      JoinOfComponents(s);
    }
    if p :| ValidPath(p) && s == Join(p) {
      ValidPathScansClean(p);
    }
  }

  lemma {:induction false} CleanComponents(s: string)
    requires ScansClean(s)
    ensures ValidPath(Components(s))
    decreases |s|
  {
    var i := LastSlash(s);
    var last := s[i + 1..];
    assert ValidComponent(last) by {
      forall j | 0 <= j < |last|
        ensures NameChar(last[j])
      {
        assert last[j] == s[i + 1 + j];
      }
    }
    var front := s[..i];
    if i > 0 {
      assert front[|front| - 1] == s[i - 1];
      CleanComponents(front);
    }
  }

  lemma {:induction false} ValidPathScansClean(p: Path)
    requires ValidPath(p)
    ensures ScansClean(Join(p))
  {
    var n := |p| - 1;
    var front, last := Join(p[..n]), p[n];
    var s := Join(p);
    assert s == front + "/" + last;
    assert s[|s| - 1] == last[|last| - 1];
    if n > 0 {
      ValidPathScansClean(p[..n]);
    }
    forall i | 1 <= i < |s|
      ensures NameChar(s[i]) || s[i] == '/'
      ensures !(s[i] == '/' && s[i - 1] == '/')
    {
      if i < |front| {
        assert s[i] == front[i] && s[i - 1] == front[i - 1];
      } else if i > |front| {
        assert s[i] == last[i - |front| - 1];
      }
    }
  }

  lemma ValidPathSlashFree(p: Path)
    requires ValidPath(p)
    ensures AllSlashFree(p)
  {
    forall i | 0 <= i < |p|
      ensures SlashFree(p[i])
    {
      assert ValidComponent(p[i]);
    }
  }

  /** PROP_NAME_IS_VALID, the guard of the tree's own functions. */
  predicate PropNameIsValid(s: string) {
    |s| >= 2 && s[0] == '/' && forall i :: 1 <= i < |s| ==> !(s[i] == '/' && s[i - 1] == '/')
  }

  /** On accepted names the guard holds, and the components are those of a valid path. */
  lemma AcceptedName(s: string)
    requires ScansClean(s)
    ensures PropNameIsValid(s) && ValidPath(Components(s)) && Join(Components(s)) == s
  {
    CleanComponents(s);
    JoinOfComponents(s);
  }

  /** On accepted names the guard holds, and cutting and joining are mutual inverses. */
  lemma AcceptedNames(s: string)
    requires ScansClean(s)
    ensures PropNameIsValid(s)
    ensures ValidPath(Components(s)) && Join(Components(s)) == s
    ensures forall p :: ValidPath(p) && Join(p) == s ==> p == Components(s)
  {
    ValidNames(s);
    forall p | ValidPath(p) && Join(p) == s
      ensures p == Components(s)
    {
      ValidPathSlashFree(p);
      ComponentsOfJoin(p);
    }
  }

  /** Cutting the last component off a guarded name leaves nothing or a guarded name. */
  lemma CutLast(s: string)
    requires PropNameIsValid(s)
    ensures var i := LastSlash(s);
      && 0 <= i && Components(s) == Components(s[..i]) + [s[i + 1..]] && SlashFree(s[i + 1..])
      && (i > 0 ==> PropNameIsValid(s[..i]))
      && (i == 0 ==> Components(s[..i]) == [])
  {
  }

  // ---------- the name a node announces (esconfd/esconf-backend-perchannel-xml.c) ----------

  /** `esconf_proptree_build_propname` climbs to the root, which it recognises by its name being
      one character long; any other one-character name stops it just the same. */
  function Climbed(p: Path): Path {
    if p == [] || |p[|p| - 1]| == 1 then [] else Climbed(p[..|p| - 1]) + [p[|p| - 1]]
  }

  function BuildName(p: Path): string {
    Join(Climbed(p))
  }

  predicate LongNames(p: Path) {
    forall i :: 0 <= i < |p| ==> |p[i]| >= 2
  }

  lemma {:induction false} ClimbedMeaning(p: Path)
    requires forall i :: 0 <= i < |p| ==> |p[i]| >= 1
    ensures |Climbed(p)| <= |p| && (LongNames(p) <==> |Climbed(p)| == |p|)
    ensures LongNames(p) ==> Climbed(p) == p
    ensures AllSlashFree(p) ==> AllSlashFree(Climbed(p))
  {
    if p != [] {
      var n := |p| - 1;
      ClimbedMeaning(p[..n]);
      assert p == p[..n] + [p[n]];
      assert LongNames(p) <==> LongNames(p[..n]) && |p[n]| >= 2;
      assert AllSlashFree(p) ==> AllSlashFree(p[..n]);
    }
  }

  /** What is collected: the longest end of the path without a component of one character. */
  lemma {:induction false} ClimbedIsSuffix(p: Path) returns (k: nat)
    ensures k <= |p| && Climbed(p) == p[k..] && (forall i :: k <= i < |p| ==> |p[i]| != 1)
    ensures k > 0 ==> |p[k - 1]| == 1
  {
    if p == [] || |p[|p| - 1]| == 1 {
      k := |p|;
    } else {
      var n := |p| - 1;
      k := ClimbedIsSuffix(p[..n]);
      assert p[k..] == p[..n][k..] + [p[n]];
    }
  }

  /** The announced name is the property's name exactly when no component has one character. */
  lemma BuildNameIsExact(p: Path)
    requires ValidPath(p)
    ensures BuildName(p) == Join(p) <==> LongNames(p)
  {
    forall i | 0 <= i < |p|
      ensures |p[i]| >= 1
    {
      assert ValidComponent(p[i]);
    }
    ValidPathSlashFree(p);
    ClimbedMeaning(p);
    JoinInjective(Climbed(p), p);
  }

  /** The name rebuilt for the node called `s`. */
  function Rebuilt(s: string): string {
    if s == [] || s[0] != '/' then s else BuildName(Components(s))
  }

  function RebuiltAll(names: seq<string>): seq<string> {
    seq(|names|, i requires 0 <= i < |names| => Rebuilt(names[i]))
  }

  /** A valid name without a component of one character. */
  predicate Announceable(s: string) {
    ScansClean(s) && LongNames(Components(s))
  }

  lemma RebuiltIsExact(s: string)
    requires ScansClean(s)
    ensures Rebuilt(s) == s <==> Announceable(s)
  {
    AcceptedName(s);
    BuildNameIsExact(Components(s));
  }

  lemma RebuiltTheSame(names: seq<string>)
    requires forall i :: 0 <= i < |names| ==> Announceable(names[i])
    ensures RebuiltAll(names) == names
  {
    forall i | 0 <= i < |names|
      ensures Rebuilt(names[i]) == names[i]
    {
      RebuiltIsExact(names[i]);
    }
  }

  // ---------- names at or below others ----------

  /** `p` is `base` or lies below it; "" and "/" mean everything. */
  predicate Covers(base: string, p: string) {
    base == "" || base == "/" || p == base || base + "/" <= p
  }

  lemma PrefixJoins(base: Path, q: Path)
    requires base <= q && base != q
    ensures Join(base) + "/" <= Join(q)
  {
    var r := q[|base|..];
    assert q == base + r;
    JoinConcat(base, r);
    JoinStartsWithSlash(r);
    assert Join(q)[|Join(base)|] == '/';
  }

  lemma JoinedPrefix(base: Path, q: Path)
    requires AllSlashFree(base) && AllSlashFree(q) && Join(base) + "/" <= Join(q)
    ensures base <= q
  {
    var rest := Join(q)[|Join(base)|..];
    assert rest[0] == (Join(base) + "/")[|Join(base)|];
    var r := Components(rest);
    JoinOfComponents(rest);
    JoinConcat(base, r);
    SameJoin(q, base, r, rest);
  }

  lemma SameJoin(q: Path, base: Path, r: Path, rest: string)
    requires AllSlashFree(q) && AllSlashFree(base) && AllSlashFree(r)
    requires Join(base + r) == Join(base) + rest == Join(q)
    ensures q == base + r
  {
    JoinInjective(q, base + r);
  }

  /** On names of paths this is the order of paths. */
  lemma CoversIsPrefix(base: Path, q: Path)
    requires AllSlashFree(base) && AllSlashFree(q) && base != [] && Join(base) != "/"
    ensures Covers(Join(base), Join(q)) <==> base <= q
  {
    JoinStartsWithSlash(base);
    JoinInjective(base, q);
    if base <= q && base != q {
      PrefixJoins(base, q);
    }
    if Join(base) + "/" <= Join(q) {
      JoinedPrefix(base, q);
    }
  }
}
