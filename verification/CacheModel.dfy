/** What one client cache does to its three tables, as functions on values
    (esconf/esconf-cache.c).  The class in `Cache` is proved against these functions, and the
    protocol in `Protocol` runs them. */
module CacheModel {
  import opened Base
  import opened Values
  import opened Names

  type Name = string

  /** An old item: the value the property had before the current burst of sets, how many
      callbacks are still owed to it, the variant sent last, and whether it is filed in
      `pending_calls` under its current cancellable.  `serial` names the allocation. */
  datatype OldRecord = OldRecord(serial: nat, item: Option<Value>, count: int,
                                 variant: Option<Variant>, live: bool)

  datatype CacheState = CacheState(props: map<Name, Value>, pending: map<Name, OldRecord>, next: nat)

  const EMPTY_CACHE := CacheState(map[], map[], 0)

  /** The answer of a synchronous GetProperty call. */
  datatype Fetch = Found(value: Value) | NotFound | Failed

  /** A "property-changed" emission towards the application; no value means the property is gone. */
  datatype Emission = Emission(name: Name, value: Option<Value>)

  /** `esconf_cache_item_update`: values that compare equal are left alone. */
  function UpdateItem(current: Value, value: Value): Value {
    if IsEqual(Some(current), Some(value)) then current else value
  }

  // ---------- lookup ----------

  /** `esconf_cache_lookup_locked`: a miss asks the daemon and keeps the answer. */
  function AfterLookup(c: CacheState, p: Name, fetch: Fetch): CacheState {
    if p !in c.props && fetch.Found? then c.(props := c.props[p := fetch.value]) else c
  }

  // ---------- set ----------

  /** Outcome of a set: new state, return value, the variant of the asynchronous call that was
      sent, whether the call of an earlier set was cancelled, what the application is told. */
  datatype SetOutcome = SetOutcome(cache: CacheState, ret: bool, sent: Option<Variant>,
                                   cancelled: bool, emitted: Option<Emission>)

  /** The call of the previous set is cancelled. */
  function Cancel(c: CacheState, p: Name): CacheState
    requires p in c.pending
  {
    c.(pending := c.pending[p := c.pending[p].(live := false)])
  }

  /** The old item of a set that goes ahead: a previous one is reused with its call cancelled
      and its variant dropped, otherwise a new one remembers the current value. */
  function Claimed(c: CacheState, p: Name): OldRecord {
    if p in c.pending then c.pending[p].(live := false, variant := None)
    else OldRecord(c.next, Lookup(c.props, p), 0, None, false)
  }

  function Claim(c: CacheState, p: Name): CacheState {
    CacheState(c.props, c.pending[p := Claimed(c, p)], if p in c.pending then c.next else c.next + 1)
  }

  /** The call went out: one more callback is owed. */
  function Owe(c: CacheState, p: Name, variant: Variant): CacheState
    requires p in c.pending
  {
    var o := c.pending[p];
    c.(pending := c.pending[p := o.(variant := Some(variant), count := o.count + 1, live := true)])
  }

  function Set(c0: CacheState, p: Name, v: Value, fetch: Fetch): SetOutcome {
    if p !in c0.props && fetch.Failed? then SetOutcome(c0, false, None, false, None)
    else
      var c := AfterLookup(c0, p, fetch);
      if p in c.props && IsEqual(Some(c.props[p]), Some(v)) then SetOutcome(c, true, None, false, None)
      else
        var cancelled := p in c.pending && c.pending[p].live;
        match ToVariant(v)
        case Some(variant) =>
          var c' := Owe(Claim(c, p), p, variant);
          SetOutcome(c'.(props := c'.props[p := v]), true, Some(variant), cancelled, Some(Emission(p, Some(v))))
        case None =>
          SetOutcome(Claim(c, p), false, None, cancelled, None)
  }

  // ---------- signals ----------

  function Changed(c: CacheState, p: Name, v: Value): CacheState {
    if p in c.pending then c
    else if p in c.props then c.(props := c.props[p := UpdateItem(c.props[p], v)])
    else c.(props := c.props[p := v])
  }

  function ChangedEmission(c: CacheState, p: Name, v: Value): Option<Emission> {
    if p in c.pending || (p in c.props && IsEqual(Some(c.props[p]), Some(v))) then None
    else Some(Emission(p, Some(v)))
  }

  function Removed(c: CacheState, p: Name): CacheState {
    c.(props := c.props - {p})
  }

  // ---------- replies ----------

  /** What a reply callback does to the old item: only counts it, closes the burst and frees it,
      or closes the burst and leaks it because the property has left the cache meanwhile. */
  datatype Fate = Counted | Freed | Leaked

  function ReplyFate(c: CacheState, p: Name): Fate
    requires p in c.pending
  {
    if c.pending[p].count > 1 then Counted else if p in c.props then Freed else Leaked
  }

  /** The value a failed burst puts back. */
  function RolledBack(props: map<Name, Value>, p: Name, item: Option<Value>): map<Name, Value>
    requires p in props
  {
    match item
    case Some(v) => props[p := UpdateItem(props[p], v)]
    case None => props - {p}
  }

  /** The burst leaves the tables; if it failed and the property is still cached, the pre-burst
      value comes back. */
  function Close(c: CacheState, p: Name, ok: bool): CacheState
    requires p in c.pending
  {
    CacheState(if p !in c.props || ok then c.props else RolledBack(c.props, p, c.pending[p].item),
               c.pending - {p}, c.next)
  }

  function CountDown(c: CacheState, p: Name): CacheState
    requires p in c.pending
  {
    c.(pending := c.pending[p := c.pending[p].(count := c.pending[p].count - 1)])
  }

  /** `esconf_cache_set_property_reply_handler` while the cache is alive. */
  function Replied(c: CacheState, p: Name, ok: bool): CacheState
    requires p in c.pending
  {
    if c.pending[p].count > 1 then CountDown(c, p) else Close(c, p, ok)
  }

  /** The application is told what a failed burst put back. */
  function ReplyEmission(c: CacheState, p: Name, ok: bool): Option<Emission>
    requires p in c.pending
  {
    if ReplyFate(c, p).Freed? && !ok then Some(Emission(p, Lookup(Replied(c, p, ok).props, p))) else None
  }

  // ---------- reset ----------

  function AsciiLower(ch: char): char {
    if 'A' <= ch <= 'Z' then ch - 'A' + 'a' else ch
  }

  /** `!g_ascii_strncasecmp(base, name, strlen(base))`. */
  predicate StartsWithNoCase(name: string, base: string) {
    |base| <= |name| && forall i :: 0 <= i < |base| ==> AsciiLower(base[i]) == AsciiLower(name[i])
  }

  predicate Evicted(base: Name, recursive: bool, p: Name) {
    p == base || (recursive && StartsWithNoCase(p, base + "/"))
  }

  /** `esconf_cache_reset` after the synchronous ResetProperty call answered `ok`. */
  function AfterReset(c: CacheState, base: Name, recursive: bool, ok: bool): CacheState {
    if !ok then c
    else c.(props := map p | p in c.props && !Evicted(base, recursive, p) :: c.props[p])
  }

  // ---------- prefetch ----------

  /** `esconf_cache_prefetch`: refused unless the cache is empty. */
  function AfterPrefetch(c: CacheState, all: Option<map<Name, Value>>): CacheState {
    if c.props == map[] && all.Some? then c.(props := all.value) else c
  }

  // ---------- finalize ----------

  /** The synchronous calls finalization makes: one for each property whose last call is pending. */
  function FinalCalls(c: CacheState): map<Name, Option<Variant>> {
    map p | p in c.pending && c.pending[p].live :: c.pending[p].variant
  }

  // ---------- what the application is told ----------

  /** An emission says what the table holds for its name, and every entry that differs has been told. */
  ghost predicate Told(before: map<Name, Value>, after: map<Name, Value>, emitted: Option<Emission>) {
    && (emitted.Some? ==> Lookup(after, emitted.value.name) == emitted.value.value)
    && forall p :: Lookup(after, p) != Lookup(before, p) ==> emitted.Some? && emitted.value.name == p
  }

  /** A set tells every change but that of its own lookup, and nothing that compares equal. */
  lemma SetTells(c: CacheState, p: Name, v: Value, fetch: Fetch)
    ensures var before, r := AfterLookup(c, p, fetch).props, Set(c, p, v, fetch);
      && Told(before, r.cache.props, r.emitted)
      && (r.emitted.Some? ==> r.emitted.value.name == p && !IsEqual(Lookup(before, p), Lookup(r.cache.props, p)))
  {
  }

  lemma ChangedTells(c: CacheState, p: Name, v: Value)
    ensures Told(c.props, Changed(c, p, v).props, ChangedEmission(c, p, v))
    ensures ChangedEmission(c, p, v).Some? ==> !IsEqual(Lookup(c.props, p), Lookup(Changed(c, p, v).props, p))
  {
  }

  lemma RemovedTells(c: CacheState, p: Name)
    ensures Told(c.props, Removed(c, p).props, Some(Emission(p, None)))
  {
  }

  /** The end of a failed burst is told even if it puts back what was there; a successful one, or one
      whose property has left the cache, changes nothing and tells nothing. */
  lemma ReplyTells(c: CacheState, p: Name, ok: bool)
    requires p in c.pending
    ensures Told(c.props, Replied(c, p, ok).props, ReplyEmission(c, p, ok))
    ensures ReplyEmission(c, p, ok).Some? <==> !ok && p in c.props && c.pending[p].count <= 1
  {
  }

  // ---------- what the caller is told ----------

  predicate ComparesEqual(c: CacheState, p: Name, v: Value) {
    p in c.props && IsEqual(Some(c.props[p]), Some(v))
  }

  predicate Shows(c: CacheState, p: Name, v: Value) {
    Lookup(c.props, p) == Some(v) || ComparesEqual(c, p, v)
  }

  /** A set that succeeds leaves the value in the cache, or one that compares equal.  It fails exactly if
      the daemon could not be asked, which changes nothing, or if another value would have to be sent and
      cannot. */
  lemma SetReturns(c: CacheState, p: Name, v: Value, fetch: Fetch)
    ensures var before, r := AfterLookup(c, p, fetch), Set(c, p, v, fetch);
      && (r.ret ==> Shows(r.cache, p, v))
      && (!r.ret ==> r.cache.props == before.props && r.sent == None && r.emitted == None)
      && (ComparesEqual(before, p, v) ==> r.ret && r.cache == before && r.sent == None)
      && (p !in c.props && fetch.Failed? ==> !r.ret && r.cache == c && r.sent == None)
      && (r.ret <==> (p in c.props || !fetch.Failed?) && (Convertible(v) || ComparesEqual(before, p, v)))
      && (r.sent.Some? <==> r.emitted.Some?) && (r.sent.Some? ==> r.sent == ToVariant(v))
  {
  }

  /** A successful reset takes away exactly what it evicts, a failed one nothing. */
  lemma ResetForgets(c: CacheState, base: Name, recursive: bool, ok: bool)
    ensures var c' := AfterReset(c, base, recursive, ok);
      && c'.pending == c.pending
      && forall p :: Lookup(c'.props, p) == if ok && Evicted(base, recursive, p) then None else Lookup(c.props, p)
  {
  }

  // ---------- facts ----------

  function Lower(s: string): string {
    seq(|s|, i requires 0 <= i < |s| => AsciiLower(s[i]))
  }

  /** What a recursive reset evicts: the base, and what lies strictly below it up to ASCII case. */
  lemma EvictedMeaning(base: Name, p: Name)
    ensures Evicted(base, true, p) <==> p == base || Lower(base + "/") <= Lower(p)
  {
    var top := base + "/";
    if StartsWithNoCase(p, top) {
      assert Lower(p)[..|top|] == Lower(top);
    }
    if Lower(top) <= Lower(p) {
      forall i | 0 <= i < |top|
        ensures AsciiLower(top[i]) == AsciiLower(p[i])
      {
        assert Lower(top)[i] == Lower(p)[i];
      }
    }
  }

  /** A recursive reset evicts every name at or below its base, unless the base is "/": then it looks
      for names that start with "//", and there are none. */
  lemma ResetEvictsAllCovered(base: Name)
    requires ScansClean(base) || base == "/" || base == ""
    ensures (forall p :: ScansClean(p) && Covers(base, p) ==> Evicted(base, true, p)) <==> base != "/"
    ensures base == "/" ==> forall p :: ScansClean(p) ==> !Evicted(base, true, p)
  {
    if base == "/" {
      forall p | ScansClean(p)
        ensures !Evicted(base, true, p)
      {
        assert ("/" + "/")[1] == '/' && AsciiLower(p[1]) != '/';
      }
      assert ScansClean("/a") && Covers(base, "/a");
    }
  }

  predicate IsLetter(ch: char) {
    'A' <= ch <= 'Z' || 'a' <= ch <= 'z'
  }

  function OtherCase(ch: char): char {
    if 'A' <= ch <= 'Z' then ch - 'A' + 'a' else if 'a' <= ch <= 'z' then ch - 'a' + 'A' else ch
  }

  /** The comparison without case evicts names that are not below the base exactly if the base has
      a letter. */
  lemma ResetEvictsOnlyCovered(base: Name)
    requires ScansClean(base)
    ensures (forall p :: ScansClean(p) && Evicted(base, true, p) ==> Covers(base, p)) <==>
      forall i :: 0 <= i < |base| ==> !IsLetter(base[i])
  {
    if i :| 0 <= i < |base| && IsLetter(base[i]) {
      var p := base[i := OtherCase(base[i])] + "/x";
      assert p[i] != base[i] && (base + "/")[i] == base[i];
      assert ScansClean(p) && Evicted(base, true, p) && !Covers(base, p);
    } else {
      forall p | ScansClean(p) && StartsWithNoCase(p, base + "/")
        ensures base + "/" <= p
      {
        SameWithoutLetters(base + "/", p);
      }
    }
  }

  lemma SameWithoutLetters(top: string, p: string)
    requires StartsWithNoCase(p, top) && forall i :: 0 <= i < |top| ==> !IsLetter(top[i])
    ensures top <= p
  {
    forall i | 0 <= i < |top|
      ensures top[i] == p[i]
    {
      assert AsciiLower(top[i]) == top[i];
    }
  }

  /** A set that goes ahead shows its value at once, keeps the pre-burst value of a running burst,
      and owes exactly one more callback; every other property is untouched. */
  lemma SetGoesAhead(c: CacheState, p: Name, v: Value, fetch: Fetch)
    requires Set(c, p, v, fetch).sent.Some?
    ensures var r := Set(c, p, v, fetch);
      && r.ret && r.sent == ToVariant(v) && p in r.cache.pending
      && Lookup(r.cache.props, p) == Some(v)
      && r.cache.pending[p].live && r.cache.pending[p].variant == r.sent
      && (p in c.pending ==>
            && r.cache.pending[p].item == c.pending[p].item
            && r.cache.pending[p].serial == c.pending[p].serial
            && r.cache.pending[p].count == c.pending[p].count + 1)
      && (p !in c.pending ==>
            && r.cache.pending[p].count == 1
            && r.cache.pending[p].serial == c.next
            && r.cache.pending[p].item == Lookup(AfterLookup(c, p, fetch).props, p))
      && r.cache.props - {p} == c.props - {p} && r.cache.pending - {p} == c.pending - {p}
  {
  }
}
