/** How far the persisted expiry of a session lags behind the one in memory (ExtendSession in
    internal/middleware/auth.go writes the file only when an expiry jumps by more than a minute). */
module SessionLag {
  import opened Util
  import opened Sessions
  import opened SessionRuns

  ghost predicate Persisted(s: State, h: string) { h in s.mem && s.file.Some? && h in s.file.value }

  ghost function Lag(s: State, h: string): int
    requires Persisted(s, h)
  {
    s.mem[h].expires - s.file.value[h].expires
  }

  /** Any operation whose writes land: a write takes the lag to zero, and an operation that does
      not write adds what it adds to the expiry in memory. */
  lemma LagStep(s: State, e: Event, h: string)
    requires Persisted(s, h) && h in Next(s, e).mem && e.w.Written? && !e.op.Restart?
    requires e.op.Create? ==> e.op.h != h
    ensures var n := Next(s, e);
      && Persisted(n, h)
      && Lag(n, h) == (if Saves(s, e) then 0 else Lag(s, h) + n.mem[h].expires - s.mem[h].expires)
      && (e.op == Extend(h) ==> (Saves(s, e) <==> n.mem[h].expires - s.mem[h].expires > PERSIST_STEP))
  {
  }

  /** Two requests a minute apart leave the file two minutes behind, though every write landed. */
  lemma LagPassesAMinute()
    ensures var use := [60 * SECOND, 120 * SECOND];
      var es := [Event(0, Create("k", "i", ""), Written)] + Requests("k", use);
      var s := Run(Boot(None, 0, map[]), es);
      Allowed(Boot(None, 0, map[]), es) && Persisted(s, "k") && Lag(s, "k") == 120 * SECOND
  {
    var t2, t3 := 60 * SECOND, 120 * SECOND;
    var e1 := Event(0, Create("k", "i", ""), Written);
    var e2, e3 := Event(t2, Extend("k"), Written), Event(t3, Extend("k"), Written);
    assert [t2, t3][1..] == [t3] && [t3][1..] == [] && Requests("k", []) == [];
    assert Requests("k", [t3]) == [e3] && Requests("k", [t2, t3]) == [e2, e3];
    var es := [e1] + [e2, e3];
    assert es[0] == e1;
    var s1 := Next(Boot(None, 0, map[]), e1);
    var s2 := Next(s1, e2);
    var s3 := Next(s2, e3);
    assert [e3][1..] == [] && [e2, e3][1..] == [e3] && es[1..] == [e2, e3];
    assert Run(s2, [e3]) == Run(s3, []) == s3;
    assert Run(s1, [e2, e3]) == Run(s2, [e3]);
    assert Allowed(s3, []) && Allowed(s2, [e3]) && Allowed(s1, [e2, e3]);
    LagStep(s1, e2, "k");
    LagStep(s2, e3, "k");
  }

  // ----- a session in use -----

  /** A request's time as far as it counts for the expiry: none after the day before the absolute
      limit adds anything. */
  function Counted(created: Option<int>, t: int): int {
    if created.Some? then Min(t, created.value + ABSOLUTE_TTL - IDLE_TTL) else t
  }

  /** Memory counts from the session's request at prev, the file from the one at start. */
  ghost predicate CountsFrom(s: State, h: string, created: Option<int>, prev: int, start: int) {
    && Persisted(s, h) && h in s.used && s.mem[h].created == created && prev <= s.now
    && s.mem[h].expires == Counted(created, prev) + IDLE_TTL
    && s.file.value[h].expires == Counted(created, start) + IDLE_TTL
  }

  /** A run of one process in which the session stays in memory and no write tears the file; other
      sessions may be created, used, ended and cleaned up, and writes may be lost. */
  ghost predicate Stays(s: State, es: seq<Event>, h: string)
    decreases |es|
  {
    es == [] ||
    (var (e, n) := (es[0], Next(s, es[0]));
     Enabled(s, e) && !e.w.Torn? && !e.op.Restart? && h in n.mem && Stays(n, es[1..], h))
  }

  /** The session's last request after one more operation, and the request the file then counts from:
      its last one at the last operation whose write landed, whosesoever that was. */
  function Marks(s: State, e: Event, h: string, prev: int, start: int): (int, int) {
    var last := if e.op == Extend(h) then e.at else prev;
    (last, if Saves(s, e) && e.w.Written? then last else start)
  }

  function MarksAfter(s: State, es: seq<Event>, h: string, prev: int, start: int): (int, int)
    decreases |es|
  {
    if es == [] then (prev, start)
    else
      var (last, first) := Marks(s, es[0], h, prev, start);
      MarksAfter(Next(s, es[0]), es[1..], h, last, first)
  }

  /** Whatever the other sessions do, the file stands where the session's last request stood at the
      last write. */
  lemma {:induction false} FileStandsAtLastWrite(s: State, h: string, created: Option<int>, prev: int, start: int,
                                                 es: seq<Event>)
    requires CountsFrom(s, h, created, prev, start) && Stays(s, es, h)
    ensures var (last, first) := MarksAfter(s, es, h, prev, start); CountsFrom(Run(s, es), h, created, last, first)
    decreases |es|
  {
    if es != [] {
      var (last, first) := Marks(s, es[0], h, prev, start);
      hide CountsFrom, Marks, Next;
      FileStandsAtLastWrite(Next(s, es[0]), h, created, last, first, es[1..]);
    }
  }

  /** The lag is at most a minute after every operation of the run. */
  ghost predicate LagStaysShort(s: State, es: seq<Event>, h: string)
    decreases |es|
  {
    es == [] ||
      (var n := Next(s, es[0]);
       Persisted(n, h) && Lag(n, h) <= PERSIST_STEP && LagStaysShort(n, es[1..], h))
  }

  /** The session is never in use for more than a minute, as far as that counts, past the request
      that was its last at the last write. */
  predicate WritesKeepUp(s: State, es: seq<Event>, h: string, created: Option<int>, prev: int, start: int)
    decreases |es|
  {
    es == [] ||
      (var (last, first) := Marks(s, es[0], h, prev, start);
       && Counted(created, last) - Counted(created, first) <= PERSIST_STEP
       && WritesKeepUp(Next(s, es[0]), es[1..], h, created, last, first))
  }

  /** Exactly when the file never lags by more than a minute, whatever other sessions do. */
  lemma {:induction false} LagStaysShortIff(s: State, h: string, created: Option<int>, prev: int, start: int,
                                            es: seq<Event>)
    requires CountsFrom(s, h, created, prev, start) && Stays(s, es, h)
    ensures LagStaysShort(s, es, h) <==> WritesKeepUp(s, es, h, created, prev, start)
    decreases |es|
  {
    if es != [] {
      var (last, first) := Marks(s, es[0], h, prev, start);
      hide Marks, Next;
      LagStaysShortIff(Next(s, es[0]), h, created, last, first, es[1..]);
    }
  }

  /** A restart keeps the session exactly if less than a day has passed, as far as that counts, since
      the request that was its last at the last write, however lately it was used. */
  lemma KeptAtRestartIff(s: State, h: string, created: Option<int>, prev: int, start: int, es: seq<Event>,
                         t: int, ids: map<string, string>)
    requires CountsFrom(s, h, created, prev, start) && Stays(s, es, h) && Run(s, es).now <= t
    ensures var (last, first) := MarksAfter(s, es, h, prev, start);
      var n := Run(s, es);
      && (h in Next(n, Event(t, Restart(ids), Kept)).mem <==> t < Counted(created, first) + IDLE_TTL)
      && h in n.mem && (Live(n.mem[h], t) <==> t <= Counted(created, last) + IDLE_TTL)
  {
    FileStandsAtLastWrite(s, h, created, prev, start, es);
  }

  // ----- a session alone on the server -----

  /** Where the burst that the last of the requests belongs to began. A request begins a new burst
      if it comes more than a minute after the one before. */
  function BurstStart(created: Option<int>, prev: int, start: int, ts: seq<int>): int
    decreases |ts|
  {
    if ts == [] then start
    else
      var gap := Counted(created, ts[0]) - Counted(created, prev);
      BurstStart(created, ts[0], if gap > PERSIST_STEP then ts[0] else start, ts[1..])
  }

  /** No burst of requests, each at most a minute after the one before, spans more than a minute. */
  predicate BurstsAreShort(created: Option<int>, prev: int, start: int, ts: seq<int>)
    decreases |ts|
  {
    ts == [] ||
      (var gap := Counted(created, ts[0]) - Counted(created, prev);
       var first := if gap > PERSIST_STEP then ts[0] else start;
       && Counted(created, ts[0]) - Counted(created, first) <= PERSIST_STEP
       && BurstsAreShort(created, ts[0], first, ts[1..]))
  }

  /** With no other session about, only the first request of a burst is written. */
  lemma {:induction false} AloneItIsBursts(s: State, h: string, created: Option<int>, prev: int, start: int,
                                           ts: seq<int>)
    requires CountsFrom(s, h, created, prev, start) && Ordered(s.now, ts)
    ensures Stays(s, Requests(h, ts), h)
    ensures MarksAfter(s, Requests(h, ts), h, prev, start) == (Last(prev, ts), BurstStart(created, prev, start, ts))
    ensures WritesKeepUp(s, Requests(h, ts), h, created, prev, start) <==> BurstsAreShort(created, prev, start, ts)
    decreases |ts|
  {
    if ts != [] {
      var e, es := Event(ts[0], Extend(h), Written), Requests(h, ts);
      assert es[0] == e && es[1..] == Requests(h, ts[1..]);
      var (last, first) := Marks(s, e, h, prev, start);
      AloneItIsBursts(Next(s, e), h, created, last, first, ts[1..]);
    }
  }

  /** So then the lag stays within a minute iff no burst spans more. */
  lemma AloneLagStaysShortIff(s: State, h: string, created: Option<int>, prev: int, start: int, ts: seq<int>)
    requires CountsFrom(s, h, created, prev, start) && Ordered(s.now, ts)
    ensures LagStaysShort(s, Requests(h, ts), h) <==> BurstsAreShort(created, prev, start, ts)
  {
    AloneItIsBursts(s, h, created, prev, start, ts);
    LagStaysShortIff(s, h, created, prev, start, Requests(h, ts));
  }

  /** Requests at most a minute apart. */
  predicate Steady(prev: int, ts: seq<int>)
    decreases |ts|
  {
    ts == [] || (prev <= ts[0] <= prev + PERSIST_STEP && Steady(ts[0], ts[1..]))
  }

  lemma {:induction false} SteadyIsOneBurst(created: Option<int>, prev: int, start: int, ts: seq<int>)
    requires Steady(prev, ts)
    ensures Ordered(prev, ts) && BurstStart(created, prev, start, ts) == start
    decreases |ts|
  {
    if ts != [] { SteadyIsOneBurst(created, ts[0], start, ts[1..]); }
  }

  /** In steady use it is then never written again: a day after its last write a restart loses it,
      although it is in use and would have been accepted. */
  lemma SteadySessionIsLostAtRestart(s: State, h: string, created: Option<int>, ts: seq<int>, t: int,
                                     ids: map<string, string>)
    requires CountsFrom(s, h, created, s.now, s.now) && Steady(s.now, ts) && Run(s, Requests(h, ts)).now <= t
    ensures var n := Run(s, Requests(h, ts));
      && (h in Next(n, Event(t, Restart(ids), Kept)).mem <==> t < Counted(created, s.now) + IDLE_TTL)
      && h in n.mem && (Live(n.mem[h], t) <==> t <= Counted(created, Last(s.now, ts)) + IDLE_TTL)
  {
    SteadyIsOneBurst(created, s.now, s.now, ts);
    AloneItIsBursts(s, h, created, s.now, s.now, ts);
    KeptAtRestartIff(s, h, created, s.now, s.now, Requests(h, ts), t, ids);
  }
}
