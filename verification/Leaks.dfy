/** Two runs in which an old item is leaked: the news of a removal, or a reset by the client itself,
    comes between the daemon's answer and the callback. */
module Leaks {
  import opened Base
  import opened Values
  import opened CacheModel
  import opened Protocol
  import opened Lifetime
  import opened Divergence

  /** This client has set `p`, and the daemon has answered. */
  function Answered(s: System, p: Name, n: int): System {
    s.(cache := CacheState(map[p := Number(n)],
                           map[p := OldRecord(0, None, 1, Some(VBasic(VInt32(n))), true)], 1),
       owed := map[p := [Owed(0, false)]],
       store := Store(map[p := Number(n)], map[], {}),
       idles := s.idles + [p],
       inbox := s.inbox + [Reply(p, 0, true)],
       nextId := 1,
       shown := map[p := Number(n)],
       log := [(p, VBasic(VInt32(n)))])
  }

  /** The set on its way. */
  function Sent(s: System, p: Name, n: int): System {
    Answered(s, p, n).(store := s.store, idles := s.idles, inbox := s.inbox, log := s.log,
                       requests := [Request(p, VBasic(VInt32(n)), 0)])
  }

  lemma SetIsSent(s: System, p: Name, n: int)
    requires s == Fresh(map[]).(idles := s.idles, inbox := s.inbox)
    ensures Next(s, LocalSet(p, Number(n))) == Sent(s, p, n)
  {
    var r := Set(s.cache, p, Number(n), NotFound);
    assert Get(s.store, p) == NotFound && OwedTo(s, p) == [] && !r.cancelled;
    assert r.cache == Answered(s, p, n).cache && r.sent == Some(VBasic(VInt32(n)));
    assert [] + [Owed(0, false)] == [Owed(0, false)];
    assert s.requests + [Request(p, VBasic(VInt32(n)), 0)] == [Request(p, VBasic(VInt32(n)), 0)];
  }

  lemma SentIsAnswered(s: System, p: Name, n: int)
    requires s == Fresh(map[]).(idles := s.idles, inbox := s.inbox)
    ensures Next(Sent(s, p, n), DaemonHandle) == Answered(s, p, n)
  {
    var s1 := Sent(s, p, n);
    var r := StoreSet(s1.store, p, Number(n));
    assert r == StoreOutcome(Store(map[p := Number(n)], map[], {}), true, true);
    assert s1.requests[1..] == [] && s1.log + [(p, VBasic(VInt32(n)))] == [(p, VBasic(VInt32(n)))];
  }

  lemma SetIsAnswered(s: System, p: Name, n: int, rest: seq<Step>)
    requires s == Fresh(map[]).(idles := s.idles, inbox := s.inbox) && Runs(Answered(s, p, n), rest)
    ensures var steps := [LocalSet(p, Number(n))] + ([DaemonHandle] + rest);
      && Runs(s, steps) && Run(s, steps) == Run(Answered(s, p, n), rest)
      && FreedIn(s, steps) == FreedIn(Answered(s, p, n), rest)
      && LeakedIn(s, steps) == LeakedIn(Answered(s, p, n), rest)
  {
    SetIsSent(s, p, n);
    SentIsAnswered(s, p, n);
    EndedFirst(Sent(s, p, n), DaemonHandle, rest);
    EndedFirst(s, LocalSet(p, Number(n)), [DaemonHandle] + rest);
  }

  /** A reply that finds its property out of the cache. */
  lemma LastReplyLeaks(s: System, p: Name, ok: bool)
    requires s.inbox == [Reply(p, 0, ok)] && s.owed == map[p := [Owed(0, false)]]
    requires s.cache.pending.Keys == {p} && s.cache.pending[p].serial == 0 && s.cache.pending[p].count == 1
    requires p !in s.cache.props
    ensures var steps := [Receive] + [];
      && Runs(s, steps) && FreedIn(s, steps) == [] && LeakedIn(s, steps) == [0]
      && Run(s, steps).cache.pending == map[] && Run(s, steps).cache.next == s.cache.next
  {
    assert OwedTo(s, p) == [Owed(0, false)] && Awaited(s, s.inbox[0]);
    assert Next(s, Receive).cache.pending == map[];
    EndedFirst(s, Receive, []);
  }

  /** This client sets `p` and resets it again between the daemon's answer and its own callback. */
  function LeakByReset(p: Name): seq<Step> {
    [LocalSet(p, Number(1))] + ([DaemonHandle] + ([LocalReset(p, false, true, [p], {})] + ([Receive] + [])))
  }

  lemma ResetLeaks(p: Name)
    ensures var s, steps := Fresh(map[]), LeakByReset(p);
      && Initial(s) && Runs(s, steps) && LeakedIn(s, steps) == [0] && FreedIn(s, steps) == []
      && Run(s, steps).cache.next == 1 && Run(s, steps).cache.pending == map[]
  {
    var s2 := Answered(Fresh(map[]), p, 1);
    var s3 := Next(s2, LocalReset(p, false, true, [p], {}));
    LastReplyLeaks(s3, p, true);
    EndedFirst(s2, LocalReset(p, false, true, [p], {}), [Receive] + []);
    SetIsAnswered(Fresh(map[]), p, 1, [LocalReset(p, false, true, [p], {})] + ([Receive] + []));
  }

  /** Another client has set and reset `p`; the news that it is gone comes in while this client waits
      for the answer to its own set. */
  function LeakBySignal(p: Name): seq<Step> {
    [RemoteSet(p, Number(1))] + ([RemoteReset(p, false, [p], {})] + ([DaemonIdle(0)] + AnswerAfterNews(p)))
  }

  function AnswerAfterNews(p: Name): seq<Step> {
    [LocalSet(p, Number(2))] + ([DaemonHandle] + ([Receive] + ([Receive] + [])))
  }

  /** The removal is on its way, and `p` will be announced once more. */
  function NewsUnderWay(p: Name): System {
    Fresh(map[]).(idles := [p], inbox := [PropertyRemoved(p)])
  }

  lemma NewsSetsOut(p: Name)
    ensures Enabled(Fresh(map[]), RemoteSet(p, Number(1)))
    ensures var s1 := Next(Fresh(map[]), RemoteSet(p, Number(1)));
      && Enabled(s1, RemoteReset(p, false, [p], {}))
      && var s2 := Next(s1, RemoteReset(p, false, [p], {}));
        Enabled(s2, DaemonIdle(0)) && Next(s2, DaemonIdle(0)) == NewsUnderWay(p)
  {
    var s1 := Fresh(map[]).(store := Store(map[p := Number(1)], map[], {}), idles := [p]);
    assert Next(Fresh(map[]), RemoteSet(p, Number(1))) == s1;
    SetIsReset(p, s1);
    NewsIsSent(p);
  }

  lemma SetIsReset(p: Name, s: System)
    requires s == Fresh(map[]).(store := Store(map[p := Number(1)], map[], {}), idles := [p])
    ensures Enabled(s, RemoteReset(p, false, [p], {}))
    ensures Next(s, RemoteReset(p, false, [p], {})) == Fresh(map[]).(idles := [p, p])
  {
    assert StoreReset(s.store, [p], {}) == Store(map[], map[], {});
  }

  lemma NewsIsSent(p: Name)
    ensures Next(Fresh(map[]).(idles := [p, p]), DaemonIdle(0)) == NewsUnderWay(p)
  {
  }

  lemma SignalLeaks(p: Name)
    ensures var s, steps := Fresh(map[]), LeakBySignal(p);
      && Initial(s) && Runs(s, steps) && LeakedIn(s, steps) == [0] && FreedIn(s, steps) == []
      && Run(s, steps).cache.next == 1 && Run(s, steps).cache.pending == map[]
  {
    NewsLeaks(p);
    NewsSetsOut(p);
    var s1 := Next(Fresh(map[]), RemoteSet(p, Number(1)));
    var s2 := Next(s1, RemoteReset(p, false, [p], {}));
    EndedFirst(s2, DaemonIdle(0), AnswerAfterNews(p));
    EndedFirst(s1, RemoteReset(p, false, [p], {}), [DaemonIdle(0)] + AnswerAfterNews(p));
    EndedFirst(Fresh(map[]), RemoteSet(p, Number(1)),
      [RemoteReset(p, false, [p], {})] + ([DaemonIdle(0)] + AnswerAfterNews(p)));
  }

  lemma NewsLeaks(p: Name)
    ensures var s, steps := NewsUnderWay(p), AnswerAfterNews(p);
      && Runs(s, steps) && LeakedIn(s, steps) == [0] && FreedIn(s, steps) == []
      && Run(s, steps).cache.next == 1 && Run(s, steps).cache.pending == map[]
  {
    var s5 := Answered(NewsUnderWay(p), p, 2);
    assert s5.inbox == [PropertyRemoved(p), Reply(p, 0, true)];
    var s6 := Next(s5, Receive);
    LastReplyLeaks(s6, p, true);
    EndedFirst(s5, Receive, [Receive] + []);
    SetIsAnswered(NewsUnderWay(p), p, 2, [Receive] + ([Receive] + []));
  }
}
