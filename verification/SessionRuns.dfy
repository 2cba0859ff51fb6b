/** Whole runs of the session store under a clock that never goes back: creation, extension,
    revocation, cleanup, and restarts that keep nothing but the file. File writes may land, be lost
    or tear the file at every step. */
module SessionRuns {
  import opened Util
  import opened Sessions

  /** touched, revoked and used are history: when a session was last created or extended, which
      keys were ended, which keys were ever given out. */
  datatype State = State(mem: Store, file: Option<Store>, now: int,
                         touched: map<string, int>, revoked: set<string>, used: set<string>)

  datatype Op =
    | Create(h: string, id: string, userId: string)
    | Extend(h: string)
    | Invalidate(h: string)
    | Revoke(caller: Option<Caller>, id: string, found: Option<string>)
    | RevokeOthers(caller: Option<Caller>, current: string)
    | Cleanup
    | Restart(ids: map<string, string>)

  /** An operation at clock reading at, with the outcome of its file write if it makes one. */
  datatype Event = Event(at: int, op: Op, w: WriteResult)

  ghost predicate Enabled(s: State, e: Event) {
    s.now <= e.at &&
    match e.op
    case Create(h, _, _) => h !in s.used
    case Revoke(caller, id, found) =>
      if found.Some? then found.value in s.mem && MayRevoke(caller, id, s.mem[found.value])
      else forall h :: h in s.mem ==> !MayRevoke(caller, id, s.mem[h])
    case _ => true
  }

  /** The sessions an operation ends on purpose. */
  function Ends(s: State, op: Op): set<string> {
    match op
    case Invalidate(h) => if h in s.mem then {h} else {}
    case Revoke(_, _, found) => if found.Some? then {found.value} else {}
    case RevokeOthers(caller, current) => OthersOf(s.mem, caller, current)
    case _ => {}
  }

  function MemAfter(s: State, e: Event): Store {
    match e.op
    case Create(h, id, userId) => s.mem[h := Session(id, userId, Some(e.at), e.at + IDLE_TTL)]
    case Extend(h) => if h in s.mem then s.mem[h := Renewed(s.mem[h], e.at)] else s.mem
    case Cleanup => Unexpired(s.mem, e.at)
    case Restart(ids) => Loaded(s.file, e.at, ids)
    case _ => s.mem - Ends(s, e.op)
  }

  /** Whether an operation writes the file. */
  predicate Saves(s: State, e: Event) {
    match e.op
    case Create(_, _, _) => true
    case Invalidate(_) => true
    case Extend(h) => h in s.mem && Renewed(s.mem[h], e.at).expires - s.mem[h].expires > PERSIST_STEP
    case Cleanup => Unexpired(s.mem, e.at) != s.mem
    case Restart(_) => false
    case _ => Ends(s, e.op) != {}
  }

  function Touched(s: State, e: Event): map<string, int> {
    match e.op
    case Create(h, _, _) => s.touched[h := e.at]
    case Extend(h) => if h in s.mem then s.touched[h := e.at] else s.touched
    case _ => s.touched
  }

  function Next(s: State, e: Event): State {
    var mem := MemAfter(s, e);
    State(mem, if Saves(s, e) then Saved(mem, s.file, e.w) else s.file, e.at, Touched(s, e),
          s.revoked + Ends(s, e.op), s.used + if e.op.Create? then {e.op.h} else {})
  }

  // ----- invariants -----

  /** What holds of a session in memory. One without a creation time has no absolute limit. */
  ghost predicate Fine(s: State, h: string) {
    h in s.mem ==>
      && h in s.used && h in s.touched && s.touched[h] <= s.now
      && s.mem[h].expires <= s.touched[h] + IDLE_TTL
      && Capped(s.mem[h], s.now)
  }

  ghost predicate Capped(x: Session, now: int) {
    x.created.Some? ==> x.created.value <= now && x.expires <= x.created.value + ABSOLUTE_TTL
  }

  /** What the file says of a session is no longer-lived than what memory says; a session only
      in the file has expired or was revoked. */
  ghost predicate FileLags(s: State, h: string) {
    s.file.Some? && h in s.file.value ==>
      var d := s.file.value[h];
      && h in s.used && h in s.touched && s.touched[h] <= s.now
      && d.expires <= s.touched[h] + IDLE_TTL && Capped(d, s.now)
      && (h in s.mem ==> d.expires <= s.mem[h].expires && d.created == s.mem[h].created)
      && (h !in s.mem ==> d.expires <= s.now || h in s.revoked)
  }

  ghost predicate Inv(s: State) {
    s.revoked <= s.used && forall h :: Fine(s, h) && FileLags(s, h)
  }

  /** A process started on a file that an earlier one left, sessions without creation times included. */
  function Boot(file: Option<Store>, now: int, ids: map<string, string>): State {
    var saved := if file.Some? then file.value else map[];
    var touched := map h | h in saved :: Min(now, saved[h].expires - IDLE_TTL);
    State(Loaded(file, now, ids), file, now, touched, {}, saved.Keys)
  }

  lemma BootIsFine(file: Option<Store>, now: int, ids: map<string, string>)
    requires file.Some? ==>
      forall h :: h in file.value ==> file.value[h].expires <= now + IDLE_TTL && Capped(file.value[h], now)
    ensures Inv(Boot(file, now, ids))
  {
  }

  lemma NextFine(s: State, e: Event, h: string)
    requires Inv(s) && Enabled(s, e)
    ensures Fine(Next(s, e), h)
  {
    assert Fine(s, h) && FileLags(s, h);
  }

  lemma NextFileLags(s: State, e: Event, h: string)
    requires Inv(s) && Enabled(s, e)
    ensures FileLags(Next(s, e), h)
  {
    assert Fine(s, h) && FileLags(s, h);
    NextFine(s, e, h);
  }

  /** Every operation keeps the invariant, whatever becomes of its write. */
  lemma NextKeepsInv(s: State, e: Event)
    requires Inv(s) && Enabled(s, e)
    ensures Inv(Next(s, e))
  {
    assert forall h :: h in s.mem ==> Fine(s, h);
    forall h ensures Fine(Next(s, e), h) && FileLags(Next(s, e), h) {
      NextFine(s, e, h);
      NextFileLags(s, e, h);
    }
  }

  // ----- runs -----

  ghost predicate Allowed(s: State, es: seq<Event>)
    decreases |es|
  {
    es == [] || (Enabled(s, es[0]) && Allowed(Next(s, es[0]), es[1..]))
  }

  function Run(s: State, es: seq<Event>): State
    decreases |es|
  {
    if es == [] then s else Run(Next(s, es[0]), es[1..])
  }

  lemma {:induction false} RunKeepsInv(s: State, es: seq<Event>)
    requires Inv(s) && Allowed(s, es)
    ensures Inv(Run(s, es))
    decreases |es|
  {
    if es != [] {
      NextKeepsInv(s, es[0]);
      RunKeepsInv(Next(s, es[0]), es[1..]);
    }
  }

  /** No restart happens while the file still holds a revoked session that has not expired. */
  ghost predicate CleanRestarts(s: State, es: seq<Event>)
    decreases |es|
  {
    es == [] ||
      ((es[0].op.Restart? ==> forall h :: h in MemAfter(s, es[0]) ==> h !in s.revoked)
       && CleanRestarts(Next(s, es[0]), es[1..]))
  }

  ghost predicate NoneRevoked(s: State) { forall h :: h in s.mem ==> h !in s.revoked }

  lemma {:induction false} CleanRunsKeepOut(s: State, es: seq<Event>)
    requires Inv(s) && NoneRevoked(s) && Allowed(s, es) && CleanRestarts(s, es)
    ensures NoneRevoked(Run(s, es))
    decreases |es|
  {
    if es != [] {
      NextKeepsInv(s, es[0]);
      CleanRunsKeepOut(Next(s, es[0]), es[1..]);
    }
  }

  /** Over every run, whatever becomes of the writes, a session accepted at time t was created or
      extended within the last 24 hours and, if it has a creation time, is at most seven days old.
      If no restart finds a revoked session in the file, it was never revoked. */
  lemma AcceptedSessionIsCurrent(start: State, es: seq<Event>, h: string, t: int)
    requires Inv(start) && NoneRevoked(start) && Allowed(start, es) && Run(start, es).now <= t
    requires var s := Run(start, es); h in s.mem && Live(s.mem[h], t)
    ensures var s := Run(start, es);
      && h in s.touched && s.touched[h] <= t <= s.touched[h] + IDLE_TTL
      && (s.mem[h].created.Some? ==> t <= s.mem[h].created.value + ABSOLUTE_TTL)
      && (CleanRestarts(start, es) ==> h !in s.revoked)
  {
    RunKeepsInv(start, es);
    assert Fine(Run(start, es), h);
    if CleanRestarts(start, es) { CleanRunsKeepOut(start, es); }
  }

  // ----- and a session within its limits is accepted -----

  /** A day after the last request, or seven days after the creation, whichever is first. */
  function LimitOf(created: Option<int>, touched: int): int {
    var idle := touched + 86_400_000_000_000;
    if created.Some? then Min(idle, created.value + 7 * 86_400_000_000_000) else idle
  }

  /** In memory with the expiry its last request gave it, or past that expiry. */
  ghost predicate Honoured(s: State, h: string, created: Option<int>) {
    && h in s.used && h in s.touched
    && (h in s.mem ==> s.mem[h].created == created && s.mem[h].expires == LimitOf(created, s.touched[h]))
    && (h !in s.mem ==> LimitOf(created, s.touched[h]) < s.now)
  }

  /** No operation of the run ends the session, and none is a restart. */
  ghost predicate Spares(s: State, es: seq<Event>, h: string)
    decreases |es|
  {
    es == [] ||
    (Enabled(s, es[0]) && !es[0].op.Restart? && h !in Ends(s, es[0].op) && Spares(Next(s, es[0]), es[1..], h))
  }

  lemma {:induction false} SparedIsHonoured(s: State, es: seq<Event>, h: string, created: Option<int>)
    requires Honoured(s, h, created) && Spares(s, es, h)
    ensures Honoured(Run(s, es), h, created)
    decreases |es|
  {
    if es != [] {
      SparedIsHonoured(Next(s, es[0]), es[1..], h, created);
    }
  }

  /** A session that was created and not ended since is accepted until a day after its last request or
      seven days after its creation, whatever else happens while the process runs. */
  lemma UnendedSessionIsAccepted(s: State, create: Event, es: seq<Event>, t: int)
    requires Enabled(s, create) && create.op.Create? && Spares(Next(s, create), es, create.op.h)
    requires var n := Run(Next(s, create), es);
      n.now <= t && (create.op.h in n.touched ==> t <= LimitOf(Some(create.at), n.touched[create.op.h]))
    ensures var n := Run(Next(s, create), es);
      create.op.h in n.mem && Live(n.mem[create.op.h], t)
  {
    SparedIsHonoured(Next(s, create), es, create.op.h, Some(create.at));
  }

  /** In every reachable state a restart lengthens no session, and brings one back only if it was
      revoked. */
  lemma RestartOnlyShortens(start: State, es: seq<Event>, t: int, ids: map<string, string>, h: string)
    requires Inv(start) && Allowed(start, es) && Run(start, es).now <= t
    requires h in Loaded(Run(start, es).file, t, ids)
    ensures var s := Run(start, es);
      var after := Loaded(s.file, t, ids);
      && (h in s.mem || h in s.revoked)
      && (h in s.mem ==> after[h].expires <= s.mem[h].expires && after[h].created == s.mem[h].created)
  {
    RunKeepsInv(start, es);
    var s := Run(start, es);
    assert Fine(s, h) && FileLags(s, h);
  }

  // ----- when a restart undoes a revocation -----

  /** One process going on: allowed steps, none of them a restart. */
  ghost predicate Continues(s: State, es: seq<Event>) {
    Allowed(s, es) && forall e :: e in es ==> !e.op.Restart?
  }

  /** Every write of the run is lost. */
  predicate AllWritesLost(s: State, es: seq<Event>)
    decreases |es|
  {
    es == [] || ((Saves(s, es[0]) ==> es[0].w.Kept?) && AllWritesLost(Next(s, es[0]), es[1..]))
  }

  predicate NotIn(file: Option<Store>, h: string) { file.Some? ==> h !in file.value }

  /** A key out of memory stays out, and any write that is not lost takes it out of the file. */
  lemma {:induction false} StaysOut(s: State, es: seq<Event>, h: string)
    requires Continues(s, es) && h in s.used && h !in s.mem
    ensures h !in Run(s, es).mem
    ensures if AllWritesLost(s, es) then Run(s, es).file == s.file else NotIn(Run(s, es).file, h)
    ensures NotIn(s.file, h) ==> NotIn(Run(s, es).file, h)
    decreases |es|
  {
    if es != [] {
      assert forall e :: e in es[1..] ==> e in es;
      assert es[0] in es;
      StaysOut(Next(s, es[0]), es[1..], h);
    }
  }

  /** While its process goes on, a revoked session is never in memory again. A restart brings it
      back exactly if the revocation's write was lost, so were all writes after it, and the file
      from before held the session with time left. */
  lemma RevocationLostIff(s: State, e: Event, h: string, es: seq<Event>, t: int, ids: map<string, string>)
    requires Inv(s) && Enabled(s, e) && h in Ends(s, e.op)
    requires Continues(Next(s, e), es) && Run(Next(s, e), es).now <= t
    ensures var n := Run(Next(s, e), es);
      && h !in n.mem
      && (h in Next(n, Event(t, Restart(ids), Kept)).mem <==>
          && e.w.Kept? && AllWritesLost(Next(s, e), es)
          && s.file.Some? && h in s.file.value && t < s.file.value[h].expires)
  {
    assert Fine(s, h);
    StaysOut(Next(s, e), es, h);
  }

  /** Such a run: a session is created, its revocation is not written, the process restarts, and
      the revoked session is accepted again. */
  lemma LostRevocationRevives()
    ensures var create, end := Event(0, Create("k", "i", ""), Written), Event(1, Invalidate("k"), Kept);
      var es := [create, end, Event(2, Restart(map[]), Kept)];
      var s := Run(Boot(None, 0, map[]), es);
      "k" in s.revoked && "k" in s.mem && Live(s.mem["k"], 2)
  {
    var e1, e2 := Event(0, Create("k", "i", ""), Written), Event(1, Invalidate("k"), Kept);
    var e3 := Event(2, Restart(map[]), Kept);
    var es := [e1, e2, e3];
    var s1 := Next(Boot(None, 0, map[]), e1);
    var s2 := Next(s1, e2);
    assert s2.file == Some(s1.mem) && "k" in s2.revoked;
    var s3 := Next(s2, e3);
    assert [e3][1..] == [] && [e2, e3][1..] == [e3] && es[1..] == [e2, e3];
    assert Run(s2, [e3]) == Run(s3, []) == s3;
    assert Run(s1, [e2, e3]) == Run(s2, [e3]);
    assert Run(Boot(None, 0, map[]), es) == Run(s1, [e2, e3]);
  }

  // ----- sessions without a creation time -----

  /** Requests of one session at the given times, each write landing. */
  function Requests(h: string, ts: seq<int>): seq<Event> {
    if ts == [] then [] else [Event(ts[0], Extend(h), Written)] + Requests(h, ts[1..])
  }

  predicate Ordered(prev: int, ts: seq<int>)
    decreases |ts|
  {
    ts == [] || (prev <= ts[0] && Ordered(ts[0], ts[1..]))
  }

  function Last(prev: int, ts: seq<int>): int
    decreases |ts|
  {
    if ts == [] then prev else Last(ts[0], ts[1..])
  }

  /** The seven-day limit does not reach a session stored without a creation time: every request
      renews it for a whole day, however old it is. */
  lemma {:induction false} ExemptSessionIsRenewedForever(s: State, h: string, ts: seq<int>)
    requires h in s.mem && s.mem[h].created.None? && s.mem[h].expires == s.now + IDLE_TTL && Ordered(s.now, ts)
    ensures var n := Run(s, Requests(h, ts));
      && Allowed(s, Requests(h, ts)) && n.now == Last(s.now, ts)
      && h in n.mem && n.mem[h].created.None? && n.mem[h].expires == n.now + IDLE_TTL
      && Live(n.mem[h], n.now + IDLE_TTL)
    decreases |ts|
  {
    if ts != [] {
      var e, es := Event(ts[0], Extend(h), Written), Requests(h, ts);
      assert es[0] == e && es[1..] == Requests(h, ts[1..]);
      ExemptSessionIsRenewedForever(Next(s, e), h, ts[1..]);
    }
  }
}
