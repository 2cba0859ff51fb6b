/** The session operations over the fields they update. Each call is one step of a run of
    SessionRuns, so its theorems hold of every sequence of calls and restarts. */
module SessionServer {
  import opened Util
  import opened Sessions
  import opened SessionRuns

  /** m is where the steps in trace lead from start. */
  ghost predicate Reached(start: State, trace: seq<Event>, m: State) {
    Inv(start) && Allowed(start, trace) && m == Run(start, trace)
  }

  lemma {:induction false} RunSnoc(s: State, es: seq<Event>, e: Event)
    requires Allowed(s, es) && Enabled(Run(s, es), e)
    ensures Allowed(s, es + [e]) && Run(s, es + [e]) == Next(Run(s, es), e)
    decreases |es|
  {
    var all := es + [e];
    if es == [] {
      assert all[0] == e && all[1..] == [];
      assert Run(Next(s, e), []) == Next(s, e);
    } else {
      hide Next, Enabled;
      RunSnoc(Next(s, es[0]), es[1..], e);
      assert all[1..] == es[1..] + [e];
    }
  }

  lemma ReachedNext(start: State, trace: seq<Event>, m: State, e: Event)
    requires Reached(start, trace, m) && Enabled(m, e)
    ensures Reached(start, trace + [e], Next(m, e))
  {
    RunSnoc(start, trace, e);
  }

  lemma TakeOne(m: Store, gone: set<string>, h: string)
    ensures m - gone - {h} == m - (gone + {h})
  {
  }

  class AdminAuth {
    var sessions: Store
    var file: Option<Store>
    ghost var start: State        // what the process before this one left
    ghost var trace: seq<Event>   // the steps taken since
    ghost var model: State        // the state they lead to

    ghost predicate Valid()
      reads this
    {
      Reached(start, trace, model) && sessions == model.mem && file == model.file
    }

    /** A new process: the sessions in the file that have not expired. */
    constructor (saved: Option<Store>, now: int, ids: map<string, string>, ghost before: State)
      requires Inv(before) && before.file == saved && before.now <= now
      ensures Valid() && start == before && trace == [Event(now, Restart(ids), Kept)]
      ensures sessions == Loaded(saved, now, ids) && file == saved
    {
      sessions := map[];
      file := saved;
      start, trace, model := before, [Event(now, Restart(ids), Kept)], Next(before, Event(now, Restart(ids), Kept));
      new;
      LoadSessions(now, ids);
      ReachedNext(before, [], before, Event(now, Restart(ids), Kept));
      assert [] + [Event(now, Restart(ids), Kept)] == trace;
    }

    /** Notes the step just taken. */
    ghost method Note(e: Event)
      requires Reached(start, trace, model) && Enabled(model, e)
      requires sessions == Next(model, e).mem && file == Next(model, e).file
      modifies `trace, `model
      ensures Valid() && trace == old(trace) + [e] && model == Next(old(model), e)
    {
      ReachedNext(start, trace, model, e);
      trace, model := trace + [e], Next(model, e);
    }

    method LoadSessions(now: int, ids: map<string, string>)
      requires sessions == map[]
      modifies `sessions
      ensures sessions == Loaded(file, now, ids)
      ensures forall h :: h in sessions <==> file.Some? && h in file.value && now < file.value[h].expires
    {
      if file.None? { return; }
      var todo := file.value.Keys;
      while todo != {}
        invariant todo <= file.value.Keys
        invariant sessions == map h | h in Loaded(file, now, ids) && h !in todo :: Loaded(file, now, ids)[h]
      {
        var h :| h in todo;
        todo := todo - {h};
        var s := file.value[h];
        if now >= s.expires { continue; }
        if s.id == "" && h in ids { s := s.(id := ids[h]); }
        sessions := sessions[h := s];
      }
    }

    /** Writes the map to the file; the program ignores how that ends. */
    method SaveSessions(w: WriteResult)
      modifies `file
      ensures file == Saved(sessions, old(file), w)
    {
      match w
      case Written => file := Some(sessions);
      case Kept =>
      case Torn => file := None;
    }

    method CleanupSessions(now: int, w: WriteResult)
      requires Valid() && model.now <= now
      modifies this
      ensures Valid() && start == old(start)
      ensures trace == old(trace) + [Event(now, Cleanup, w)]
      ensures sessions == Unexpired(old(sessions), now)
      ensures forall h :: h in sessions <==> h in old(sessions) && now <= old(sessions)[h].expires
      ensures file == if sessions == old(sessions) then old(file) else Saved(sessions, old(file), w)
    {
      var changed := false;
      var todo := sessions.Keys;
      while todo != {}
        invariant todo <= sessions.Keys <= old(sessions).Keys && unchanged(`file, `start, `trace, `model)
        invariant forall h :: h in sessions ==> sessions[h] == old(sessions)[h]
        invariant forall h :: h in old(sessions) && h !in todo ==> (h in sessions <==> now <= old(sessions)[h].expires)
        invariant changed <==> sessions != old(sessions)
      {
        var h :| h in todo;
        todo := todo - {h};
        if now > sessions[h].expires {
          sessions := sessions - {h};
          changed := true;
        }
      }
      assert sessions == Unexpired(old(sessions), now);
      if changed { SaveSessions(w); }
      Note(Event(now, Cleanup, w));
    }

    method GetSession(h: string, now: int) returns (r: Option<Session>)
      ensures r == if h in sessions && Live(sessions[h], now) then Some(sessions[h]) else None
      ensures r.Some? <==>
        && h in sessions && now <= sessions[h].expires
        && (sessions[h].created.Some? ==> now - sessions[h].created.value <= 7 * 86_400_000_000_000)
    {
      if h !in sessions { return None; }
      var s := sessions[h];
      if now > s.expires { return None; }
      if s.created.Some? && now > s.created.value + ABSOLUTE_TTL { return None; }
      return Some(s);
    }

    /** Extends in memory always, on disk only when the expiry moved by more than a minute. */
    method ExtendSession(h: string, now: int, w: WriteResult)
      requires Valid() && model.now <= now
      modifies this
      ensures Valid() && start == old(start)
      ensures trace == old(trace) + [Event(now, Extend(h), w)]
      ensures h !in old(sessions) ==> sessions == old(sessions) && file == old(file)
      ensures h in old(sessions) ==>
        && sessions == old(sessions)[h := Renewed(old(sessions)[h], now)]
        && file == if sessions[h].expires - old(sessions)[h].expires > 60_000_000_000
                   then Saved(sessions, old(file), w) else old(file)
    {
      if h !in sessions {
        Note(Event(now, Extend(h), w));
        return;
      }
      var s := sessions[h];
      var newExpiry := now + IDLE_TTL;
      if s.created.Some? {
        var cap := s.created.value + ABSOLUTE_TTL;
        if newExpiry > cap { newExpiry := cap; }
      }
      var persist := newExpiry - s.expires > PERSIST_STEP;
      sessions := sessions[h := s.(expires := newExpiry)];
      if persist { SaveSessions(w); }
      Note(Event(now, Extend(h), w));
    }

    method CreateSession(h: string, id: string, userId: string, now: int, w: WriteResult)
      requires Valid() && model.now <= now && h !in model.used
      modifies this
      ensures Valid() && start == old(start)
      ensures trace == old(trace) + [Event(now, Create(h, id, userId), w)]
      ensures sessions == old(sessions)[h := Session(id, userId, Some(now), now + IDLE_TTL)]
      ensures file == Saved(sessions, old(file), w)
    {
      sessions := sessions[h := Session(id, userId, Some(now), now + IDLE_TTL)];
      SaveSessions(w);
      Note(Event(now, Create(h, id, userId), w));
    }

    method InvalidateSession(h: string, w: WriteResult)
      requires Valid()
      modifies this
      ensures Valid() && start == old(start)
      ensures trace == old(trace) + [Event(old(model).now, Invalidate(h), w)]
      ensures sessions == old(sessions) - {h} && file == Saved(sessions, old(file), w)
    {
      sessions := sessions - {h};
      SaveSessions(w);
      assert model.mem - {h} == model.mem - Ends(model, Invalidate(h));
      Note(Event(model.now, Invalidate(h), w));
    }

    /** A session with this id that the caller may end, if there is one. */
    method FindSession(caller: Option<Caller>, id: string) returns (found: Option<string>)
      ensures found.Some? ==> found.value in sessions && MayRevoke(caller, id, sessions[found.value])
      ensures found.None? ==> forall h :: h in sessions ==> !MayRevoke(caller, id, sessions[h])
    {
      found := None;
      var todo := sessions.Keys;
      while todo != {}
        invariant todo <= sessions.Keys
        invariant forall h :: h in sessions && h !in todo ==> !MayRevoke(caller, id, sessions[h])
      {
        var h :| h in todo;
        todo := todo - {h};
        if MayRevoke(caller, id, sessions[h]) { return Some(h); }
      }
    }

    /** Ends one session the caller may end, or none if there is none to end. */
    method RevokeSession(caller: Option<Caller>, id: string, w: WriteResult) returns (found: Option<string>)
      requires Valid()
      modifies this
      ensures Valid() && start == old(start)
      ensures trace == old(trace) + [Event(old(model).now, Revoke(caller, id, found), w)]
      ensures found.Some? ==>
        && found.value in old(sessions) && MayRevoke(caller, id, old(sessions)[found.value])
        && sessions == old(sessions) - {found.value} && file == Saved(sessions, old(file), w)
      ensures found.None? ==>
        && sessions == old(sessions) && file == old(file)
        && forall h :: h in sessions ==> !MayRevoke(caller, id, sessions[h])
      ensures found.Some? ==>
        var s := old(sessions)[found.value];
        s.id == id && caller.Some? &&
        (caller.value.admin || (caller.value.userId != "" && s.userId == caller.value.userId))
      ensures found.None? && caller.Some? ==> forall h :: h in sessions && sessions[h].id == id ==>
        !caller.value.admin && (caller.value.userId == "" || sessions[h].userId != caller.value.userId)
    {
      forall h | h in sessions
        ensures MayRevoke(caller, id, sessions[h]) <==>
          && sessions[h].id == id && caller.Some?
          && (caller.value.admin || (caller.value.userId != "" && sessions[h].userId == caller.value.userId))
      {
        RevocableIff(caller, id, sessions[h]);
      }
      hide Reached, MayRevoke;
      found := FindSession(caller, id);
      if found.Some? {
        sessions := sessions - {found.value};
        SaveSessions(w);
      }
      assert found.None? ==> sessions - {} == sessions;
      Note(Event(model.now, Revoke(caller, id, found), w));
    }

    /** Ends exactly the caller's other sessions. */
    method RevokeOtherSessions(caller: Option<Caller>, current: string, w: WriteResult) returns (revoked: nat)
      requires Valid()
      modifies this
      ensures Valid() && start == old(start)
      ensures trace == old(trace) + [Event(old(model).now, RevokeOthers(caller, current), w)]
      ensures revoked == |OthersOf(old(sessions), caller, current)|
      ensures sessions == old(sessions) - OthersOf(old(sessions), caller, current)
      ensures caller.Some? && caller.value.userId != "" ==> forall h :: h in old(sessions) ==>
        (h in sessions <==> h == current || old(sessions)[h].userId != caller.value.userId)
      ensures caller.Some? && caller.value.userId == "" && caller.value.admin ==> forall h :: h in old(sessions) ==>
        (h in sessions <==> h == current || old(sessions)[h].userId != "")
      ensures caller.None? || (caller.value.userId == "" && !caller.value.admin) ==> sessions == old(sessions)
      ensures file == if revoked > 0 then Saved(sessions, old(file), w) else old(file)
    {
      forall h | h in sessions
        ensures caller.Some? && caller.value.userId != "" ==>
          (h in OthersOf(sessions, caller, current) <==> h != current && sessions[h].userId == caller.value.userId)
        ensures caller.None? || caller.value.userId == "" ==>
          (h in OthersOf(sessions, caller, current) <==>
            caller.Some? && caller.value.admin && h != current && sessions[h].userId == "")
      {
        if caller.Some? && caller.value.userId != "" { OthersOfUser(sessions, caller.value, current, h); }
        if caller.None? || caller.value.userId == "" { OthersOfNobody(sessions, caller, current, h); }
      }
      hide SameIdentity, Saved;
      var todo := sessions.Keys;
      ghost var gone: set<string> := {};
      ghost var before, others := sessions, OthersOf(sessions, caller, current);
      revoked := 0;
      while todo != {}
        invariant todo <= sessions.Keys && unchanged(`file, `start, `trace, `model)
        invariant revoked == |gone| && sessions == before - gone
        invariant forall h :: h in gone <==> h in others && h !in todo
      {
        var h :| h in todo;
        todo := todo - {h};
        if h == current { continue; }
        if SameIdentity(caller, sessions[h]) {
          TakeOne(before, gone, h);
          sessions := sessions - {h};
          gone := gone + {h};
          revoked := revoked + 1;
        }
      }
      assert gone == others;
      if revoked > 0 { SaveSessions(w); }
      Note(Event(model.now, RevokeOthers(caller, current), w));
    }
  }
}
