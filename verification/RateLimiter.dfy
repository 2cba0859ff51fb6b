/** The fixed-window rate limiter and what it promises over any run of calls
    (internal/middleware/ratelimit.go). */
module RateLimiter {
  import opened Util

  datatype Info = Info(count: int, resetAt: int)

  type Table = map<string, Info>

  /** The entry that still governs a key, if any. */
  function Current(m: Table, key: string, now: int): Option<Info> {
    if key in m && now <= m[key].resetAt then Some(m[key]) else None
  }

  function Asked(m: Table, key: string, now: int, limit: int, window: int): (bool, Table) {
    match Current(m, key, now)
    case None => (true, m[key := Info(1, now + window)])
    case Some(i) => if i.count >= limit then (false, m) else (true, m[key := i.(count := i.count + 1)])
  }

  function Cleaned(m: Table, now: int): Table { map k | k in m && now <= m[k].resetAt :: m[k] }

  class Limiter {
    var attempts: Table
    const limit: int
    const window: int

    constructor (limit: int, window: int)
      ensures attempts == map[] && this.limit == limit && this.window == window
    {
      this.attempts, this.limit, this.window := map[], limit, window;
    }

    method Allow(key: string, now: int) returns (ok: bool)
      modifies `attempts
      ensures (ok, attempts) == Asked(old(attempts), key, now, limit, window)
    {
      if key !in attempts || now > attempts[key].resetAt {
        attempts := attempts[key := Info(1, now + window)];
        return true;
      }
      var info := attempts[key];
      if info.count >= limit { return false; }
      attempts := attempts[key := info.(count := info.count + 1)];
      return true;
    }

    method Cleanup(now: int)
      modifies `attempts
      ensures attempts == Cleaned(old(attempts), now)
    {
      var todo := attempts.Keys;
      while todo != {}
        invariant todo <= attempts.Keys <= old(attempts).Keys
        invariant forall k :: k in attempts ==> attempts[k] == old(attempts)[k]
        invariant forall k :: k in old(attempts) && k !in todo ==> (k in attempts <==> now <= old(attempts)[k].resetAt)
      {
        var k :| k in todo;
        todo := todo - {k};
        if now > attempts[k].resetAt { attempts := attempts - {k}; }
      }
    }
  }

  // ----- runs -----

  datatype Call = Ask(key: string, at: int) | Clean(at: int)

  /** The clock never goes back. */
  predicate Timed(calls: seq<Call>, now: int)
    decreases |calls|
  {
    calls == [] || (now <= calls[0].at && Timed(calls[1..], calls[0].at))
  }

  function After(m: Table, c: Call, limit: int, window: int): Table {
    if c.Ask? then Asked(m, c.key, c.at, limit, window).1 else Cleaned(m, c.at)
  }

  /** The answers the Ask calls get, in order. */
  function Answers(m: Table, calls: seq<Call>, limit: int, window: int): seq<bool>
    decreases |calls|
  {
    if calls == [] then []
    else
      (if calls[0].Ask? then [Asked(m, calls[0].key, calls[0].at, limit, window).0] else [])
        + Answers(After(m, calls[0], limit, window), calls[1..], limit, window)
  }

  function WithoutCleanups(calls: seq<Call>): seq<Call> {
    if calls == [] then []
    else (if calls[0].Ask? then [calls[0]] else []) + WithoutCleanups(calls[1..])
  }

  ghost predicate Alike(m: Table, n: Table, now: int) {
    forall k, t :: now <= t ==> Current(m, k, t) == Current(n, k, t)
  }

  lemma AskAlike(m: Table, n: Table, now: int, key: string, at: int, limit: int, window: int)
    requires Alike(m, n, now) && now <= at
    ensures var (a, m2) := Asked(m, key, at, limit, window);
      var (b, n2) := Asked(n, key, at, limit, window);
      a == b && Alike(m2, n2, at)
  {
    var (a, m2) := Asked(m, key, at, limit, window);
    var (b, n2) := Asked(n, key, at, limit, window);
    assert Current(m, key, at) == Current(n, key, at);
    forall k, t | at <= t ensures Current(m2, k, t) == Current(n2, k, t) {
      assert Current(m, k, t) == Current(n, k, t);
    }
  }

  lemma {:induction false} AlikeAnswerAlike(m: Table, n: Table, now: int, calls: seq<Call>, limit: int, window: int)
    requires Alike(m, n, now) && Timed(calls, now)
    ensures Answers(m, calls, limit, window) == Answers(n, WithoutCleanups(calls), limit, window)
    decreases |calls|
  {
    if calls != [] {
      var c := calls[0];
      if c.Ask? {
        AskAlike(m, n, now, c.key, c.at, limit, window);
        AlikeAnswerAlike(After(m, c, limit, window), After(n, c, limit, window), c.at, calls[1..], limit, window);
        assert WithoutCleanups(calls) == [c] + WithoutCleanups(calls[1..]);
        assert ([c] + WithoutCleanups(calls[1..]))[1..] == WithoutCleanups(calls[1..]);
      } else {
        forall k, t | c.at <= t ensures Current(Cleaned(m, c.at), k, t) == Current(n, k, t) {
          assert Current(m, k, t) == Current(n, k, t);
        }
        AlikeAnswerAlike(Cleaned(m, c.at), n, c.at, calls[1..], limit, window);
        assert WithoutCleanups(calls) == WithoutCleanups(calls[1..]);
      }
    }
  }

  /** Background cleanup is invisible: deleting expired entries never changes a later answer. */
  lemma CleanupIsInvisible(m: Table, now: int, calls: seq<Call>, limit: int, window: int)
    requires Timed(calls, now)
    ensures Answers(m, calls, limit, window) == Answers(m, WithoutCleanups(calls), limit, window)
  {
    AlikeAnswerAlike(m, m, now, calls, limit, window);
  }

  // ----- the sliding bound -----

  /** How many calls for key with lo <= at <= hi the run accepts. */
  function Accepted(m: Table, calls: seq<Call>, key: string, lo: int, hi: int, limit: int, window: int): nat
    decreases |calls|
  {
    if calls == [] then 0
    else
      var c := calls[0];
      var hit := c.Ask? && c.key == key && lo <= c.at <= hi && Asked(m, key, c.at, limit, window).0;
      (if hit then 1 else 0) + Accepted(After(m, c, limit, window), calls[1..], key, lo, hi, limit, window)
  }

  /** Windows opening at or after from, more than window apart, that can open by hi. */
  function Windows(from: int, hi: int, window: int): nat
    requires window > 0
  {
    if hi < from then 0 else (hi - from) / window + 1
  }

  /** The most a key's entry can still let through up to hi. */
  function Budget(e: Option<Info>, now: int, hi: int, cap: int, window: int): int
    requires window > 0
  {
    match e
    case None => cap * Windows(now, hi, window)
    case Some(i) => Max(0, cap - i.count) + cap * Windows(i.resetAt + 1, hi, window)
  }

  lemma DivMonotone(a: int, b: int, w: int)
    requires 0 <= a <= b && w > 0
    ensures 0 <= a / w <= b / w
  {
    var d := a / w - b / w;
    assert w * d == w * (a / w) - w * (b / w) == a - a % w - b + b % w < w;
    assert d >= 1 ==> w * d >= w;
  }

  lemma DivShift(a: int, w: int)
    requires w > 0
    ensures (a + w) / w == a / w + 1
  {
    assert a + w == w * (a / w + 1) + a % w by { assert w * (a / w + 1) == w * (a / w) + w; }
    DivUnique(a + w, w, a / w + 1, a % w);
  }

  lemma DivUnique(a: int, w: int, q: int, r: int)
    requires w > 0 && a == w * q + r && 0 <= r < w
    ensures a / w == q
  {
    var d := a / w - q;
    assert w * d == w * (a / w) - w * q == r - a % w;
    assert d >= 1 ==> w * d >= w;
    assert d <= -1 ==> w * d <= -w;
  }

  lemma WindowsShrink(a: int, b: int, hi: int, window: int)
    requires a <= b && window > 0
    ensures Windows(b, hi, window) <= Windows(a, hi, window)
  {
    if b <= hi { DivMonotone(hi - b, hi - a, window); }
  }

  /** A window opened at t leaves at least one fewer for after it closes. */
  lemma WindowsAfter(t: int, hi: int, window: int)
    requires window > 0 && t <= hi
    ensures Windows(t + window + 1, hi, window) + 1 <= Windows(t, hi, window)
  {
    if t + window + 1 <= hi {
      DivShift(hi - t - window - 1, window);
      DivMonotone(hi - t - 1, hi - t, window);
    } else {
      DivMonotone(0, hi - t, window);
    }
  }

  lemma CapTimes(cap: int, a: int, b: int)
    requires cap >= 0 && a <= b
    ensures cap * a <= cap * b
  {
  }

  lemma BudgetShrinks(e: Option<Info>, e2: Option<Info>, now: int, t: int, hi: int, cap: int, window: int)
    requires window > 0 && cap >= 0 && now <= t
    requires e2 == if e.Some? && t <= e.value.resetAt then e else None
    ensures Budget(e2, t, hi, cap, window) <= Budget(e, now, hi, cap, window)
  {
    if e.None? {
      WindowsShrink(now, t, hi, window);
      CapTimes(cap, Windows(t, hi, window), Windows(now, hi, window));
    } else if e2.None? {
      WindowsShrink(e.value.resetAt + 1, t, hi, window);
      CapTimes(cap, Windows(t, hi, window), Windows(e.value.resetAt + 1, hi, window));
    }
  }

  lemma AskSpendsBudget(m: Table, key: string, t: int, hi: int, limit: int, cap: int, window: int)
    requires window > 0 && cap == Max(limit, 1) && t <= hi
    ensures var (ok, n) := Asked(m, key, t, limit, window);
      Budget(Current(n, key, t), t, hi, cap, window) + (if ok then 1 else 0) <=
      Budget(Current(m, key, t), t, hi, cap, window)
  {
    if Current(m, key, t).None? {
      WindowsAfter(t, hi, window);
      CapTimes(cap, Windows(t + window + 1, hi, window) + 1, Windows(t, hi, window));
      assert cap * (Windows(t + window + 1, hi, window) + 1) == cap * Windows(t + window + 1, hi, window) + cap;
    }
  }

  /** From any table, what a key is still granted up to hi stays within its budget. */
  lemma {:induction false} FutureWithinBudget(m: Table, now: int, calls: seq<Call>, key: string, lo: int, hi: int,
                                              limit: int, window: int)
    requires window > 0 && Timed(calls, now)
    ensures Accepted(m, calls, key, lo, hi, limit, window)
      <= Budget(Current(m, key, now), now, hi, Max(limit, 1), window)
    decreases |calls|
  {
    var cap := Max(limit, 1);
    var e := Current(m, key, now);
    if calls == [] {
      CapTimes(cap, 0, if e.None? then Windows(now, hi, window) else Windows(e.value.resetAt + 1, hi, window));
    } else {
      var c := calls[0];
      var n := After(m, c, limit, window);
      FutureWithinBudget(n, c.at, calls[1..], key, lo, hi, limit, window);
      BudgetShrinks(e, Current(m, key, c.at), now, c.at, hi, cap, window);
      if c.Ask? && c.key == key && c.at <= hi {
        AskSpendsBudget(m, key, c.at, hi, limit, cap, window);
      } else if c.Ask? && c.key == key {
        LateAskGetsNothing(n, c.at, calls[1..], key, lo, hi, limit, window);
      }
    }
  }

  lemma {:induction false} LateAskGetsNothing(m: Table, now: int, calls: seq<Call>, key: string, lo: int, hi: int,
                                              limit: int, window: int)
    requires Timed(calls, now) && hi < now
    ensures Accepted(m, calls, key, lo, hi, limit, window) == 0
    decreases |calls|
  {
    if calls != [] {
      LateAskGetsNothing(After(m, calls[0], limit, window), calls[0].at, calls[1..], key, lo, hi, limit, window);
    }
  }

  lemma MultipleOfWindow(k: nat, w: int)
    requires w > 0
    ensures (k * w) / w == k
    ensures k > 0 ==> (k * w - 1) / w == k - 1
  {
    DivUnique(k * w, w, k, 0);
    if k > 0 {
      assert k * w - 1 == w * (k - 1) + (w - 1) by { assert w * (k - 1) == k * w - w; }
      DivUnique(k * w - 1, w, k - 1, w - 1);
    }
  }

  /** The budget of an interval k windows long, whatever entry it starts with. */
  lemma IntervalBudget(e: Option<Info>, lo: int, k: nat, cap: int, window: int)
    requires window > 0 && cap >= 1
    requires e.Some? ==> lo <= e.value.resetAt && 0 <= e.value.count
    ensures Budget(e, lo, lo + k * window, cap, window) <= (k + 1) * cap
  {
    var hi := lo + k * window;
    MultipleOfWindow(k, window);
    if e.None? {
      assert hi - lo == k * window >= 0;
      assert cap * (k + 1) == (k + 1) * cap;
    } else {
      var r := e.value.resetAt;
      if r + 1 <= hi {
        assert k != 0 by { assert 0 * window == 0; }
        DivMonotone(hi - r - 1, k * window - 1, window);
        CapTimes(cap, Windows(r + 1, hi, window), k);
      } else {
        assert Windows(r + 1, hi, window) == 0;
        CapTimes(cap, 0, k);
      }
      assert (k + 1) * cap == cap * k + cap;
    }
  }

  /** Fixed windows give a sliding bound: in any run, with any other keys and cleanups between,
      an interval k windows long holds at most (k + 1) times the limit accepted calls per key
      (a limit below one still lets one call through per window). */
  lemma {:induction false} SlidingBound(m: Table, now: int, calls: seq<Call>, key: string, lo: int, k: nat,
                                        limit: int, window: int)
    requires window > 0 && Timed(calls, now) && forall x :: x in m ==> 0 <= m[x].count
    ensures Accepted(m, calls, key, lo, lo + k * window, limit, window) <= (k + 1) * Max(limit, 1)
    decreases |calls|
  {
    var hi := lo + k * window;
    if calls == [] {
      CapTimes(Max(limit, 1), 0, k + 1);
      assert Max(limit, 1) * (k + 1) == (k + 1) * Max(limit, 1);
    } else {
      var c := calls[0];
      if c.at < lo {
        SlidingBound(After(m, c, limit, window), c.at, calls[1..], key, lo, k, limit, window);
      } else {
        assert Timed(calls, Max(lo, now));
        var t := Max(lo, now);
        FutureWithinBudget(m, t, calls, key, lo, hi, limit, window);
        BudgetShrinks(Current(m, key, lo), Current(m, key, t), lo, t, hi, Max(limit, 1), window);
        IntervalBudget(Current(m, key, lo), lo, k, Max(limit, 1), window);
      }
    }
  }

  // ----- no call is refused without cause -----

  function AfterAll(m: Table, calls: seq<Call>, limit: int, window: int): Table
    decreases |calls|
  {
    if calls == [] then m else AfterAll(After(m, calls[0], limit, window), calls[1..], limit, window)
  }

  /** The last of the calls is no later than t. */
  predicate EndsBy(calls: seq<Call>, t: int) { forall i :: 0 <= i < |calls| ==> calls[i].at <= t }

  /** An entry still in force at t counts no more than the calls accepted since it was opened. */
  lemma {:induction false} CountIsAccepted(m: Table, now: int, calls: seq<Call>, key: string, t: int,
                                           limit: int, window: int)
    requires window >= 0 && Timed(calls, now) && EndsBy(calls, t) && now <= t
    requires key in m ==> m[key].resetAt <= now + window
    requires var end := AfterAll(m, calls, limit, window); key in end && t <= end[key].resetAt
    ensures var e := AfterAll(m, calls, limit, window)[key];
      var before := if key in m && m[key].resetAt == e.resetAt then m[key].count else 0;
      e.count <= before + Accepted(m, calls, key, e.resetAt - window, t, limit, window)
    decreases |calls|
  {
    if calls != [] {
      var c, rest := calls[0], calls[1..];
      assert c.at <= t && forall i :: 0 <= i < |rest| ==> rest[i] == calls[i + 1];
      CountIsAccepted(After(m, c, limit, window), c.at, rest, key, t, limit, window);
    }
  }

  lemma {:induction false} AcceptedGrows(m: Table, calls: seq<Call>, key: string, lo: int, lo2: int, hi: int,
                                         limit: int, window: int)
    requires lo <= lo2
    ensures Accepted(m, calls, key, lo2, hi, limit, window) <= Accepted(m, calls, key, lo, hi, limit, window)
    decreases |calls|
  {
    if calls != [] { AcceptedGrows(After(m, calls[0], limit, window), calls[1..], key, lo, lo2, hi, limit, window); }
  }

  /** A call is refused only if as many calls as the limit allows were accepted for its key within the
      window before it. */
  lemma RefusedMeansFull(now: int, calls: seq<Call>, key: string, t: int, limit: int, window: int)
    requires window >= 0 && Timed(calls, now) && EndsBy(calls, t) && now <= t
    requires !Asked(AfterAll(map[], calls, limit, window), key, t, limit, window).0
    ensures Accepted(map[], calls, key, t - window, t, limit, window) >= limit
  {
    CountIsAccepted(map[], now, calls, key, t, limit, window);
    var e := AfterAll(map[], calls, limit, window)[key];
    AcceptedGrows(map[], calls, key, t - window, e.resetAt - window, t, limit, window);
  }
}
