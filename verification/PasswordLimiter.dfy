/** The share-password limiter: a counter and a timestamp per key standing for the whole
    history of failures (internal/handlers/handlers.go). */
module PasswordLimiter {
  import opened Util

  const MAX_ATTEMPTS: nat := 5
  const WINDOW: int := 15 * 60 * SECOND

  datatype Attempts = Attempts(count: nat, lastFail: int)

  datatype Event = Fail(key: string, at: int) | Reset(key: string) | Sweep

  /** The times key failed since it was last reset, oldest first. */
  function FailTimes(history: seq<Event>, key: string): seq<int> {
    if history == [] then []
    else
      var front, e := FailTimes(history[..|history| - 1], key), history[|history| - 1];
      match e
      case Fail(k, at) => if k == key then front + [at] else front
      case Reset(k) => if k == key then [] else front
      case Sweep => front
  }

  /** ts ends in n failures with no gap between neighbours longer than the window. */
  ghost predicate RunOf(ts: seq<int>, n: nat) {
    n <= |ts| && forall i :: |ts| - n <= i < |ts| - 1 ==> ts[i + 1] - ts[i] <= WINDOW
  }

  /** Blocked, said over the history alone: the last five failures since the last reset follow
      one another within the window, and the last is within the window of now. */
  ghost predicate BlockedBy(ts: seq<int>, now: int) {
    |ts| >= MAX_ATTEMPTS && RunOf(ts, MAX_ATTEMPTS) && now - ts[|ts| - 1] <= WINDOW
  }

  /** What a key's entry remembers of its failures: the length of the longest run they end in. */
  ghost predicate Remembers(a: Attempts, ts: seq<int>) {
    && 0 < a.count && RunOf(ts, a.count) && a.lastFail == ts[|ts| - 1]
    && (a.count < |ts| ==> ts[|ts| - a.count] - ts[|ts| - a.count - 1] > WINDOW)
  }

  ghost predicate Tracks(m: map<string, Attempts>, key: string, ts: seq<int>, clock: int) {
    if key in m then Remembers(m[key], ts) && m[key].lastFail <= clock
    else ts == [] || clock - ts[|ts| - 1] > WINDOW
  }

  /** Five failures, none more than fifteen minutes after the one before, block for fifteen minutes
      after the last; four never do. */
  lemma BlockedIff(ts: seq<int>, now: int)
    ensures BlockedBy(ts, now) <==>
      && |ts| >= 5 && now - ts[|ts| - 1] <= 900_000_000_000
      && (forall i :: |ts| - 5 <= i < |ts| - 1 ==> ts[i + 1] - ts[i] <= 900_000_000_000)
  {
  }

  /** A key's entry after one more failure. */
  function Failed(m: map<string, Attempts>, key: string, now: int): Attempts {
    Attempts(if key !in m || now - m[key].lastFail > WINDOW then 1 else m[key].count + 1, now)
  }

  /** Counting on, or starting again at one after the window, remembers the longest final run. */
  lemma StretchedRun(m: map<string, Attempts>, key: string, ts: seq<int>, clock: int, now: int)
    requires Tracks(m, key, ts, clock) && clock <= now
    ensures Remembers(Failed(m, key, now), ts + [now])
  {
    if key in m && now - m[key].lastFail <= WINDOW {
      var c, n := m[key].count, ts + [now];
      forall i | |n| - (c + 1) <= i < |n| - 1 ensures n[i + 1] - n[i] <= WINDOW {
        if i < |ts| - 1 { assert ts[i + 1] - ts[i] <= WINDOW; }
      }
    }
  }

  lemma FailureTracked(m: map<string, Attempts>, history: seq<Event>, key: string, clock: int, now: int)
    requires (forall k :: Tracks(m, k, FailTimes(history, k), clock)) && clock <= now
    ensures forall k :: Tracks(m[key := Failed(m, key, now)], k, FailTimes(history + [Fail(key, now)], k), now)
  {
    forall k ensures Tracks(m[key := Failed(m, key, now)], k, FailTimes(history + [Fail(key, now)], k), now) {
      assert Tracks(m, k, FailTimes(history, k), clock);
      hide FailTimes;
      if k == key { StretchedRun(m, key, FailTimes(history, key), clock, now); }
    }
  }

  class SharePasswordLimiter {
    var attempts: map<string, Attempts>
    ghost var history: seq<Event>
    ghost var clock: int   // the latest clock reading taken

    ghost predicate Valid()
      reads this
    {
      forall key :: Tracks(attempts, key, FailTimes(history, key), clock)
    }

    constructor (ghost now: int)
      ensures Valid() && history == [] && clock == now
    {
      attempts := map[];
      history, clock := [], now;
    }

    /** The answer depends on the history alone, whenever cleanups ran. */
    method IsBlocked(key: string, now: int) returns (blocked: bool)
      requires Valid() && clock <= now
      ensures blocked <==> BlockedBy(FailTimes(history, key), now)
    {
      assert Tracks(attempts, key, FailTimes(history, key), clock);
      if key !in attempts { return false; }
      var a := attempts[key];
      if now - a.lastFail > WINDOW { return false; }
      return a.count >= MAX_ATTEMPTS;
    }

    method RecordFailure(key: string, now: int) returns (count: nat)
      requires Valid() && clock <= now
      modifies this
      ensures Valid() && clock == now && history == old(history) + [Fail(key, now)]
      ensures attempts == old(attempts)[key := Attempts(count, now)]
      ensures Remembers(attempts[key], FailTimes(history, key))
      ensures count >= MAX_ATTEMPTS <==> BlockedBy(FailTimes(history, key), now)
    {
      FailureTracked(attempts, history, key, clock, now);
      if key !in attempts || now - attempts[key].lastFail > WINDOW {
        attempts := attempts[key := Attempts(1, now)];
      } else {
        attempts := attempts[key := Attempts(attempts[key].count + 1, now)];
      }
      count := attempts[key].count;
      history, clock := history + [Fail(key, now)], now;
      hide FailTimes;
      assert Tracks(attempts, key, FailTimes(history, key), now);
    }

    method ResetAttempts(key: string)
      requires Valid()
      modifies this
      ensures Valid() && clock == old(clock) && history == old(history) + [Reset(key)]
      ensures attempts == old(attempts) - {key}
    {
      attempts := attempts - {key};
      forall k ensures Tracks(attempts, k, FailTimes(history + [Reset(key)], k), clock) {
        assert Tracks(old(attempts), k, FailTimes(history, k), clock);
      }
      history := history + [Reset(key)];
    }

    method Cleanup(now: int)
      requires Valid() && clock <= now
      modifies this
      ensures Valid() && clock == now && history == old(history) + [Sweep]
      ensures attempts == map k | k in old(attempts) && now - old(attempts)[k].lastFail <= WINDOW :: old(attempts)[k]
    {
      var todo := attempts.Keys;
      while todo != {}
        invariant todo <= attempts.Keys <= old(attempts).Keys && history == old(history) && clock == old(clock)
        invariant forall k :: k in attempts ==> attempts[k] == old(attempts)[k]
        invariant forall k :: k in old(attempts) && k !in attempts ==> now - old(attempts)[k].lastFail > WINDOW
        invariant forall k :: k in attempts && k !in todo ==> now - attempts[k].lastFail <= WINDOW
      {
        var k :| k in todo;
        todo := todo - {k};
        if now - attempts[k].lastFail > WINDOW { attempts := attempts - {k}; }
      }
      forall k ensures Tracks(attempts, k, FailTimes(history + [Sweep], k), now) {
        assert Tracks(old(attempts), k, FailTimes(history, k), clock);
      }
      history, clock := history + [Sweep], now;
    }
  }
}
