/** What the daemon's answers to synchronous calls leave in the cache. */
module Answers {
  import opened Base
  import opened Values
  import opened CacheModel
  import opened Protocol

  /** GetProperty tells three things apart: a value, in the form in which it arrives, no value at all, and
      a value that cannot be sent. */
  lemma GetTells(d: Store, p: Name)
    ensures forall v :: Get(d, p) == Found(v) <==> Seen(d, p) == Some(v)
    ensures Get(d, p) == NotFound <==> p !in d.user && p !in d.system
    ensures Get(d, p) == Failed <==> (p in d.user || p in d.system) && Seen(d, p) == None
  {
  }

  /** A lookup of a property that is not cached caches what the daemon shows for it; every other entry
      stays. */
  lemma LookupFills(s: System, p: Name)
    requires Enabled(s, LocalLookup(p))
    ensures var s' := Next(s, LocalLookup(p));
      && forall q :: Lookup(s'.cache.props, q) ==
           if q == p && p !in s.cache.props then Seen(s.store, p) else Lookup(s.cache.props, q)
  {
  }

  /** A set of a property that is not cached and whose value the daemon cannot send changes nothing. */
  lemma UnknownValueBlocksSet(s: System, p: Name, v: Value)
    requires Enabled(s, LocalSet(p, v)) && p !in s.cache.props
    requires Effective(s.store, p).Some? && Seen(s.store, p) == None
    ensures var s' := Next(s, LocalSet(p, v));
      s'.cache == s.cache && s'.requests == s.requests && OwedTo(s', p) == OwedTo(s, p)
  {
    GetTells(s.store, p);
  }

  /** A prefetch into an empty cache caches, for every name asked for, what the daemon sends: all that it
      shows, and arrays of which nothing can be sent as empty ones.  Otherwise nothing changes. */
  lemma PrefetchFills(s: System, scope: set<Name>)
    requires Enabled(s, LocalPrefetch(scope))
    ensures var s' := Next(s, LocalPrefetch(scope));
      if s.cache.props != map[] then s' == s
      else
        && (forall p :: p in s'.cache.props ==> p in scope)
        && forall p :: p in scope ==>
             match Effective(s.store, p)
             case Some(v) =>
               if Convertible(v) then Lookup(s'.cache.props, p) == Seen(s.store, p)
               else Lookup(s'.cache.props, p) == if v.Array? then Some(Array([])) else None
             case None => p !in s'.cache.props
  {
    assert FromVariant(VArray([])) == Array([]);
    forall p | p in scope && Effective(s.store, p).Some?
      ensures var v := Effective(s.store, p).value;
        SentInHash(v) == if Convertible(v) then ToVariant(v) else if v.Array? then Some(VArray([])) else None
    {
      SentTheSame(Effective(s.store, p).value);
    }
  }
}
