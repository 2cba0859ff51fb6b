/** A receive-link upload run alone is a run of the concurrent protocol: what ReceiveUpload does
    in one call is what its atomic steps add up to. */
module ReceiveRefinement {
  import opened Util
  import opened ReceiveTables
  import opened ReceiveProtocol
  import opened ReceiveServer

  function StoresOf(s: State): Stores { Stores(s.db, s.disk, s.shareFiles, s.shareRows) }

  /** s0 leads to s by the moves ms, all of request f. */
  ghost predicate Leads(s0: State, ms: seq<Move>, s: State, f: string) {
    Allowed(s0, ms) && Run(s0, ms) == s && forall i :: 0 <= i < |ms| ==> ms[i].f == f
  }

  lemma {:induction false} LeadsOn(s0: State, ms: seq<Move>, s: State, f: string, e: Step)
    requires Leads(s0, ms, s, f) && Enabled(s, f, e)
    ensures Leads(s0, ms + [Move(f, e)], Next(s, f, e), f)
    decreases |ms|
  {
    var all := ms + [Move(f, e)];
    if ms == [] {
      assert all[0] == Move(f, e) && all[1..] == [] && s0 == s;
      assert Run(Next(s, f, e), []) == Next(s, f, e);
    } else {
      hide Enabled, Next;
      var s1 := Next(s0, ms[0].f, ms[0].e);
      LeadsOn(s1, ms[1..], s, f, e);
      assert all[1..] == ms[1..] + [Move(f, e)];
    }
  }

  /** s with the stores of a call under way and its request at the given stage. */
  function During(s: State, st: Stores, f: string, r: Request): State {
    State(st.db, st.disk, st.shareFiles, st.shareRows, s.reqs[f := r])
  }

  lemma Moves(s0: State, ms: seq<Move>, s: State, st: Stores, f: string, r: Request, e: Step, st2: Stores, r2: Request)
    requires Leads(s0, ms, During(s, st, f, r), f) && Enabled(During(s, st, f, r), f, e)
    requires var n := Next(During(s, st, f, r), f, e); StoresOf(n) == st2 && n.reqs == s.reqs[f := r][f := r2]
    ensures Leads(s0, ms + [Move(f, e)], During(s, st2, f, r2), f)
  {
    assert s.reqs[f := r][f := r2] == s.reqs[f := r2];
    LeadsOn(s0, ms, During(s, st, f, r), f, e);
  }

  /** A file's row saved and deleted again leaves the tables as they were. */
  lemma SaveThenDelete(t: Tables, f: string, r: Row)
    requires SaveRow(t, f, r).Some?
    ensures DeleteRow(SaveRow(t, f, r).value, r.link, f) == Some(t)
  {
    var n := SaveRow(t, f, r).value;
    assert n.rows - {f} == t.rows;
    var back := n.links[r.link := n.links[r.link].(totalSize := t.links[r.link].totalSize)];
    assert back == t.links;
  }

  /** The stores a rollback starts from: the received file, its share and its row are there. */
  function Made(st: Stores, f: string, id: string, share: Option<string>, db: Tables): Stores {
    Stores(db, st.disk[f := id],
           if share.Some? then st.shareFiles[share.value := f] else st.shareFiles,
           if share.Some? then st.shareRows[share.value := f] else st.shareRows)
  }

  ghost predicate Unused(st: Stores, f: string, sid: string) {
    f !in st.disk && f !in st.db.rows && sid !in st.shareFiles && sid !in st.shareRows
  }

  lemma UndoesFile(s0: State, ms: seq<Move>, s: State, st: Stores, f: string, r: Request, share: Option<string>,
                   db: Tables)
    requires f !in st.disk && r.stage.UndoFile? && r.stage.sh == share
    requires Leads(s0, ms, During(s, Made(st, f, r.link, share, db), f, r), f)
    ensures Leads(s0, ms + [Move(f, Undo)],
                  During(s, Made(st, f, r.link, share, db).(disk := st.disk), f,
                         r.(stage := UndoShare(share, r.stage.hasRow))), f)
  {
    hide Leads, DeleteRow;
    var a := Made(st, f, r.link, share, db);
    assert st.disk[f := r.link] - {f} == st.disk;
    Moves(s0, ms, s, a, f, r, Undo, a.(disk := st.disk), r.(stage := UndoShare(share, r.stage.hasRow)));
  }

  /** The rollback removes the file and the share first. */
  lemma RollsBackFiles(s0: State, ms: seq<Move>, s: State, st: Stores, f: string, r: Request, share: Option<string>,
                       sid: string, db: Tables)
    returns (out: seq<Move>)
    requires Unused(st, f, sid) && (share.None? || share == Some(sid))
    requires r.stage.UndoFile? && r.stage.sh == share
    requires Leads(s0, ms, During(s, Made(st, f, r.link, share, db), f, r), f)
    ensures Leads(s0, out, During(s, st.(db := db), f, r.(stage := if r.stage.hasRow then UndoRow else Refused)), f)
  {
    UndoesFile(s0, ms, s, st, f, r, share, db);
    hide Leads, DeleteRow;
    var b := Made(st, f, r.link, share, db).(disk := st.disk);
    var rb := r.(stage := UndoShare(share, r.stage.hasRow));
    ShareRemoved(st, f, share, sid);
    var rc := r.(stage := if r.stage.hasRow then UndoRow else Refused);
    Moves(s0, ms + [Move(f, Undo)], s, b, f, rb, Undo, st.(db := db), rc);
    out := ms + [Move(f, Undo)] + [Move(f, Undo)];
  }

  /** Then the row, if it was saved: everything the call made is gone. */
  lemma RollsBack(s0: State, ms: seq<Move>, s: State, st: Stores, f: string, r: Request, share: Option<string>,
                  sid: string, db: Tables)
    returns (out: seq<Move>)
    requires Unused(st, f, sid) && (share.None? || share == Some(sid))
    requires r.stage.UndoFile? && r.stage.sh == share
    requires if r.stage.hasRow then DeleteRow(db, r.link, f) == Some(st.db) else db == st.db
    requires Leads(s0, ms, During(s, Made(st, f, r.link, share, db), f, r), f)
    ensures Leads(s0, out, During(s, st, f, r.(stage := Refused)), f)
  {
    hide Leads, DeleteRow, Made;
    out := RollsBackFiles(s0, ms, s, st, f, r, share, sid, db);
    assert st.(db := db).(db := st.db) == st;
    if r.stage.hasRow {
      assert st.disk - {f} == st.disk;
      Moves(s0, out, s, st.(db := db), f, r.(stage := UndoRow), Undo, st, r.(stage := Refused));
      out := out + [Move(f, Undo)];
    }
  }

  lemma ShareRemoved(st: Stores, f: string, share: Option<string>, sid: string)
    requires sid !in st.shareFiles && sid !in st.shareRows && (share.None? || share == Some(sid))
    ensures var a := Made(st, f, "", share, st.db);
      share.Some? ==> a.shareFiles - {sid} == st.shareFiles && a.shareRows - {sid} == st.shareRows
  {
  }

  /** The limit check before anything is written. */
  predicate Full(l: Link) { l.maxUploads > 0 && l.current >= l.maxUploads }

  /** The steps up to the row: file, optional share, in whatever way the share goes. */
  lemma MakesFile(s: State, id: string, f: string, sid: string, size: nat, faults: Faults) returns (ms: seq<Move>)
    requires f !in s.reqs && Unused(StoresOf(s), f, sid)
    requires id in s.db.links && !Full(s.db.links[id]) && faults.create && faults.copy && faults.scan
    ensures var l := s.db.links[id];
      var share := ShareOf(l, sid, faults);
      Leads(s, ms, During(s, Made(StoresOf(s), f, id, share, s.db), f, Request(id, l.autoShare, size, Ready(share))), f)
  {
    var st, l := StoresOf(s), s.db.links[id];
    var r := Request(id, l.autoShare, 0, Admitted);
    LeadsOn(s, [], s, f, Arrive(id));
    ms := [] + [Move(f, Arrive(id))];
    hide Leads;
    var made := st.(disk := st.disk[f := id]);
    Moves(s, ms, s, st, f, r, Create(true), made, r.(stage := Writing));
    ms := ms + [Move(f, Create(true))];
    var w := r.(size := size, stage := Written);
    Moves(s, ms, s, made, f, r.(stage := Writing), Finish(size, true), made, w);
    ms := ms + [Move(f, Finish(size, true))];
    if !l.autoShare {
      Moves(s, ms, s, made, f, w, SkipShare, made, w.(stage := Ready(None)));
      ms := ms + [Move(f, SkipShare)];
    } else {
      ms := MakesShare(s, ms, f, sid, w, faults);
    }
  }

  lemma MakesShare(s: State, ms: seq<Move>, f: string, sid: string, w: Request, faults: Faults) returns (out: seq<Move>)
    requires Unused(StoresOf(s), f, sid) && w.auto && w.stage == Written
    requires Leads(s, ms, During(s, Made(StoresOf(s), f, w.link, None, s.db), f, w), f)
    ensures var share := if faults.shareCreate && faults.shareSave then Some(sid) else None;
      Leads(s, out, During(s, Made(StoresOf(s), f, w.link, share, s.db), f, w.(stage := Ready(share))), f)
  {
    var a := Made(StoresOf(s), f, w.link, None, s.db);
    if !faults.shareCreate {
      Moves(s, ms, s, a, f, w, ShareCreate(sid, false), a, w.(stage := Ready(None)));
      return ms + [Move(f, ShareCreate(sid, false))];
    }
    var b := a.(shareFiles := a.shareFiles[sid := f]);
    var ws := w.(stage := Sharing(sid));
    Moves(s, ms, s, a, f, w, ShareCreate(sid, true), b, ws);
    out := ms + [Move(f, ShareCreate(sid, true))];
    if faults.shareSave {
      var c := Made(StoresOf(s), f, w.link, Some(sid), s.db);
      Moves(s, out, s, b, f, ws, ShareSave(true), c, w.(stage := Ready(Some(sid))));
    } else {
      assert b.shareFiles - {sid} == a.shareFiles;
      Moves(s, out, s, b, f, ws, ShareSave(false), a, w.(stage := Ready(None)));
    }
    out := out + [Move(f, ShareSave(faults.shareSave))];
  }

  function Counted(t: Tables, f: string, row: Row): Tables
    requires row.link in t.links
  {
    var l := t.links[row.link];
    Tables(t.links[row.link := l.(current := l.current + 1, totalSize := l.totalSize + row.size)], t.rows[f := row])
  }

  /** With its row saved, the request is counted if the counter moves, else rolled back. */
  lemma Counts(s: State, ms: seq<Move>, st: Stores, f: string, sid: string, r: Request, dbOk: bool)
    returns (out: seq<Move>)
    requires Unused(st, f, sid) && r.link in st.db.links
    requires r.stage.Recorded? && (r.stage.sh.None? || r.stage.sh == Some(sid))
    requires var db := SaveRow(st.db, f, Row(r.link, r.size, r.stage.sh)).value;
      Leads(s, ms, During(s, Made(st, f, r.link, r.stage.sh, db), f, r), f)
    ensures var ok := dbOk && HasRoom(st.db.links[r.link]);
      var db := Counted(st.db, f, Row(r.link, r.size, r.stage.sh));
      Leads(s, out, During(s, if ok then Made(st, f, r.link, r.stage.sh, db) else st,
                           f, r.(stage := if ok then Accepted(r.stage.sh) else Refused)), f)
  {
    var sh, row := r.stage.sh, Row(r.link, r.size, r.stage.sh);
    var db1 := SaveRow(st.db, f, row).value;
    var a := Made(st, f, r.link, sh, db1);
    hide Leads;
    if dbOk && HasRoom(st.db.links[r.link]) {
      var db2 := Counted(st.db, f, row);
      assert Increment(db1, r.link) == Some(db2) by {
        assert db1.links[r.link := db2.links[r.link]] == db2.links;
      }
      hide Increment, SaveRow;
      Moves(s, ms, s, a, f, r, Bump(true), a.(db := db2), r.(stage := Accepted(sh)));
      return ms + [Move(f, Bump(true))];
    }
    assert dbOk ==> Increment(db1, r.link).None?;
    SaveThenDelete(st.db, f, row);
    hide Increment, SaveRow, DeleteRow;
    var u := r.(stage := UndoFile(sh, true));
    Moves(s, ms, s, a, f, r, Bump(dbOk), a, u);
    out := RollsBack(s, ms + [Move(f, Bump(dbOk))], s, st, f, u, sh, sid, db1);
  }

  /** From the row on: counted, or rolled back. */
  lemma Records(s: State, ms: seq<Move>, f: string, sid: string, r: Request, faults: Faults) returns (out: seq<Move>)
    requires Unused(StoresOf(s), f, sid) && r.stage.Ready? && (r.stage.sh.None? || r.stage.sh == Some(sid))
    requires r.link in s.db.links
    requires Leads(s, ms, During(s, Made(StoresOf(s), f, r.link, r.stage.sh, s.db), f, r), f)
    ensures var ok := faults.record && faults.count && HasRoom(s.db.links[r.link]);
      var db := Counted(s.db, f, Row(r.link, r.size, r.stage.sh));
      Leads(s, out, During(s, if ok then Made(StoresOf(s), f, r.link, r.stage.sh, db) else StoresOf(s),
                           f, r.(stage := if ok then Accepted(r.stage.sh) else Refused)), f)
  {
    var st, sh := StoresOf(s), r.stage.sh;
    var a := Made(st, f, r.link, sh, s.db);
    hide Leads, HasRoom, Made;
    if !faults.record {
      var u := r.(stage := UndoFile(sh, false));
      Moves(s, ms, s, a, f, r, Record(false), a, u);
      out := RollsBack(s, ms + [Move(f, Record(false))], s, st, f, u, sh, sid, s.db);
      return;
    }
    var db1 := SaveRow(s.db, f, Row(r.link, r.size, sh)).value;
    var rr := r.(stage := Recorded(sh));
    hide SaveRow;
    assert Enabled(During(s, a, f, r), f, Record(true));
    hide Next;
    Moves(s, ms, s, a, f, r, Record(true), a.(db := db1), rr);
    out := Counts(s, ms + [Move(f, Record(true))], st, f, sid, rr, faults.count);
  }

  /** A file that cannot be created, copied or scanned is gone again. */
  lemma Aborts(s: State, id: string, f: string, sid: string, faults: Faults) returns (ms: seq<Move>)
    requires f !in s.reqs && Unused(StoresOf(s), f, sid)
    requires id in s.db.links && !Full(s.db.links[id]) && !(faults.create && faults.copy && faults.scan)
    ensures Leads(s, ms, During(s, StoresOf(s), f, Request(id, s.db.links[id].autoShare, 0, Refused)), f)
  {
    var st, r := StoresOf(s), Request(id, s.db.links[id].autoShare, 0, Admitted);
    LeadsOn(s, [], s, f, Arrive(id));
    ms := [] + [Move(f, Arrive(id))];
    if !faults.create {
      Moves(s, ms, s, st, f, r, Create(false), st, r.(stage := Refused));
      return ms + [Move(f, Create(false))];
    }
    var made := st.(disk := st.disk[f := id]);
    assert made.disk - {f} == st.disk;
    Moves(s, ms, s, st, f, r, Create(true), made, r.(stage := Writing));
    ms := ms + [Move(f, Create(true))];
    Moves(s, ms, s, made, f, r.(stage := Writing), Finish(0, false), st, r.(stage := Refused));
    ms := ms + [Move(f, Finish(0, false))];
  }

  /** A call's effect on the stores is that of a run of the protocol's steps by its one request,
      whatever else the state holds: so what holds of every interleaving holds of calls too. */
  lemma CallIsRun(s: State, id: string, f: string, sid: string, size: nat, faults: Faults) returns (ms: seq<Move>)
    requires f !in s.reqs && Unused(StoresOf(s), f, sid)
    ensures Allowed(s, ms) && (forall i :: 0 <= i < |ms| ==> ms[i].f == f)
    ensures StoresOf(Run(s, ms)) == UploadEffect(StoresOf(s), id, f, sid, size, faults)
    ensures Accepts(StoresOf(s), id, faults) <==> f in Run(s, ms).reqs && Run(s, ms).reqs[f].stage.Accepted?
  {
    ms := [];
    if id !in s.db.links || Full(s.db.links[id]) || !faults.checks { return; }
    var st, l := StoresOf(s), s.db.links[id];
    if !faults.create || !faults.copy || !faults.scan {
      ms := Aborts(s, id, f, sid, faults);
      return;
    }
    var share := ShareOf(l, sid, faults);
    ms := MakesFile(s, id, f, sid, size, faults);
    ms := Records(s, ms, f, sid, Request(id, l.autoShare, size, Ready(share)), faults);
  }
}
