/** Expiring shares: the two-phase sweep, interleaved with everything else that touches the
    shares table and the uploads directory (internal/storage/sqlite.go). Times are seconds. */
module ExpirySweep {
  import opened Util

  /** A share row; a folder share is a directory row with no file name. */
  datatype Row = Row(file: string, expires: int, isDir: bool)

  predicate IsFileShare(r: Row) { !r.isDir && r.file != "" }

  predicate Live(r: Row, now: int) { r.expires > now }

  /** The share Get returns: present and not expired. */
  function Get(rows: map<string, Row>, id: string, now: int): Option<Row> {
    if id in rows && Live(rows[id], now) then Some(rows[id]) else None
  }

  /** Removing the path of an expired row. An empty directory name is the uploads directory. */
  function Remove(disk: set<string>, r: Row): set<string> {
    if r.file == "" then (if r.isDir then {} else disk) else disk - {r.file}
  }

  predicate Wipes(r: Row) { r.isDir && r.file == "" }

  // ----- one sweep by itself -----

  function Expired(rows: map<string, Row>, now: int): set<string> {
    set id | id in rows && !Live(rows[id], now)
  }

  function DiskAfter(rows: map<string, Row>, ids: set<string>, disk: set<string>): set<string>
    requires ids <= rows.Keys
  {
    if exists id :: id in ids && Wipes(rows[id]) then {}
    else disk - set id | id in ids && rows[id].file != "" :: rows[id].file
  }

  ghost predicate ShownHaveFiles(rows: map<string, Row>, disk: set<string>, now: int) {
    forall id :: id in rows && Live(rows[id], now) && IsFileShare(rows[id]) ==> rows[id].file in disk
  }

  ghost predicate DistinctFiles(rows: map<string, Row>) {
    forall i, j :: i in rows && j in rows && i != j && rows[i].file != "" ==> rows[i].file != rows[j].file
  }

  class Storage {
    var rows: map<string, Row>
    var disk: set<string>

    constructor ()
      ensures rows == map[] && disk == {}
    {
      rows, disk := map[], {};
    }

    /** Removes the path of one expired row. */
    method RemoveFile(r: Row)
      modifies `disk
      ensures disk == Remove(old(disk), r)
    {
      if r.isDir {
        disk := if r.file == "" then {} else disk - {r.file};
      } else if r.file != "" {
        disk := disk - {r.file};
      }
    }

    /** Removes the files of the given rows, remembering each row once. */
    method RemoveFiles(all: set<string>) returns (ids: seq<string>)
      requires all <= rows.Keys
      modifies `disk
      ensures disk == DiskAfter(rows, all, old(disk)) && multiset(ids) == multiset(all)
    {
      ghost var start := disk;
      var todo := all;
      ids := [];
      assert all - todo == {};
      assert DiskAfter(rows, {}, disk) == disk;
      hide DiskAfter, Remove;
      while todo != {}
        invariant todo <= all && multiset(ids) == multiset(all - todo)
        invariant disk == DiskAfter(rows, all - todo, start)
      {
        var id :| id in todo;
        todo := todo - {id};
        RemoveFile(rows[id]);
        ids := ids + [id];
      }
      assert all - todo == all;
    }

    /** Removes the files of the expired rows, then deletes exactly those rows and announces
        exactly them, or neither if the DELETE fails. */
    method CleanupExpiredShares(now: int, deleteOk: bool) returns (announced: seq<string>)
      modifies this
      ensures disk == DiskAfter(old(rows), Expired(old(rows), now), old(disk))
      ensures rows == if deleteOk then old(rows) - Expired(old(rows), now) else old(rows)
      ensures deleteOk ==> multiset(announced) == multiset(Expired(old(rows), now))
      ensures !deleteOk ==> announced == []
      ensures deleteOk ==> forall id :: id in old(rows) ==> (id in rows <==> old(rows)[id].expires > now)
    {
      ghost var all := Expired(rows, now);
      var ids := RemoveFiles(Expired(rows, now));
      hide DiskAfter, Expired;
      if !deleteOk { return []; }
      var gone := set id | id in ids;
      assert gone == all by {
        forall id ensures id in ids <==> id in all { assert id in multiset(ids) <==> id in multiset(all); }
      }
      if |ids| > 0 { rows := rows - gone; }
      assert |ids| == 0 ==> gone == {};
      return ids;
    }
  }

  /** A share is shown exactly until the second it expires in. */
  lemma ShownIff(rows: map<string, Row>, id: string, now: int)
    ensures Get(rows, id, now).Some? <==> id in rows && now < rows[id].expires
    ensures Get(rows, id, now).Some? ==> Get(rows, id, now).value == rows[id]
  {
  }

  /** Exactly when a sweep leaves every shown file share its file: no expired row is a folder
      share without a file name, or there is no shown file share to lose. */
  lemma SweepKeepsFilesIff(rows: map<string, Row>, disk: set<string>, now: int)
    requires ShownHaveFiles(rows, disk, now) && DistinctFiles(rows)
    ensures ShownHaveFiles(rows, DiskAfter(rows, Expired(rows, now), disk), now) <==>
      (forall id :: id in rows && !Live(rows[id], now) ==> !Wipes(rows[id])) ||
      (forall id :: id in rows && Live(rows[id], now) ==> !IsFileShare(rows[id]))
  {
    var after := DiskAfter(rows, Expired(rows, now), disk);
    if exists id :: id in Expired(rows, now) && Wipes(rows[id]) {
      assert after == {};
    }
  }

  /** Such a sweep: one expired folder share costs another user's live share its file. */
  lemma ExpiredFolderWipesUploads()
    ensures var rows := map["folder" := Row("", 5, true), "file" := Row("a.txt", 100, false)];
      && ShownHaveFiles(rows, {"a.txt"}, 10)
      && Get(rows, "file", 10).Some?
      && "a.txt" !in DiskAfter(rows, Expired(rows, 10), {"a.txt"})
  {
    var rows := map["folder" := Row("", 5, true), "file" := Row("a.txt", 100, false)];
    assert "folder" in Expired(rows, 10) && Wipes(rows["folder"]);
  }

  // ----- the sweep among other operations -----

  /** todo and done are the sweep's progress since its SELECT; unsaved are files written whose row
      is not yet saved; removed, announced and wiped are history: the files sweeps removed by row,
      the rows announced, and the names that existed when a sweep removed the whole directory. */
  datatype State = State(
    rows: map<string, Row>, disk: set<string>, now: int,
    unsaved: set<string>, names: set<string>, ids: set<string>,
    todo: seq<(string, Row)>, done: seq<string>,
    removed: map<string, string>, announced: set<string>, wiped: set<string>)

  datatype Step =
    | Tick(at: int)
    | WriteFile(name: string)
    | SaveRow(id: string, row: Row)
    | Delete(id: string)
    | Select(found: seq<(string, Row)>)
    | RemoveFile
    | DeleteRows(ok: bool)
    | Die

  /** A SELECT of the expired rows, in any order, each once. */
  ghost predicate Selects(found: seq<(string, Row)>, rows: map<string, Row>, now: int) {
    && (forall i :: 0 <= i < |found| ==> found[i].0 in rows && rows[found[i].0] == found[i].1 && !Live(found[i].1, now))
    && (forall id :: id in rows && !Live(rows[id], now) ==> (id, rows[id]) in found)
  }

  ghost predicate Enabled(s: State, e: Step) {
    match e
    case Tick(at) => s.now <= at
    case WriteFile(name) => name != "" && name !in s.names
    case SaveRow(id, row) => id !in s.ids && (if row.isDir then row.file == "" else row.file in s.unsaved)
    case Delete(_) => true
    case Select(found) => s.todo == [] && s.done == [] && Selects(found, s.rows, s.now)
    case RemoveFile => s.todo != []
    case DeleteRows(_) => s.todo == [] && s.done != []
    case Die => true
  }

  function Next(s: State, e: Step): State
    requires e.RemoveFile? ==> s.todo != []
  {
    match e
    case Tick(at) => s.(now := at)
    case WriteFile(name) => s.(disk := s.disk + {name}, unsaved := s.unsaved + {name}, names := s.names + {name})
    case SaveRow(id, row) => s.(rows := s.rows[id := row], ids := s.ids + {id}, unsaved := s.unsaved - {row.file})
    case Delete(id) =>
      var r := Get(s.rows, id, s.now);
      s.(rows := s.rows - {id}, disk := if r.Some? && r.value.file != "" then s.disk - {r.value.file} else s.disk)
    case Select(found) => s.(todo := found)
    case RemoveFile =>
      var (id, r) := s.todo[0];
      s.(todo := s.todo[1..], done := s.done + [id], disk := Remove(s.disk, r), removed := s.removed[id := r.file],
         wiped := if Wipes(r) then s.wiped + s.names else s.wiped)
    case DeleteRows(ok) =>
      var ids := set id | id in s.done;
      if ok then s.(rows := s.rows - ids, done := [], announced := s.announced + ids) else s.(done := [])
    case Die => s.(todo := [], done := [])
  }

  /** A row's file is on disk, or the row has expired and a sweep removed the file, or a sweep
      removed the whole directory. */
  ghost predicate RowOk(s: State, id: string) {
    id in s.rows ==>
      && id in s.ids
      && (s.rows[id].isDir ==> s.rows[id].file == "")
      && (!s.rows[id].isDir ==> s.rows[id].file in s.names && s.rows[id].file !in s.unsaved)
      && (IsFileShare(s.rows[id]) ==>
          s.rows[id].file in s.disk + s.wiped || (id in s.removed && !Live(s.rows[id], s.now)))
  }

  /** A row the sweep still has to process is unchanged or gone, and its file name is nobody else's. */
  ghost predicate TodoOk(s: State, t: (string, Row)) {
    && !Live(t.1, s.now) && t.0 in s.ids
    && (t.0 in s.rows ==> s.rows[t.0] == t.1)
    && (t.1.file != "" ==> t.1.file in s.names && t.1.file !in s.unsaved)
    && (t.1.file != "" ==> forall id :: id in s.rows && id != t.0 ==> s.rows[id].file != t.1.file)
  }

  ghost predicate DoneOk(s: State, id: string) {
    id in s.removed && (id in s.rows ==> !Live(s.rows[id], s.now) && s.removed[id] == s.rows[id].file)
  }

  /** A file a sweep removed stays removed. */
  ghost predicate RemovedOk(s: State, id: string) {
    id in s.removed ==>
      && id in s.ids && s.removed[id] !in s.unsaved
      && (s.removed[id] != "" ==> s.removed[id] in s.names && s.removed[id] !in s.disk)
  }

  ghost predicate Inv(s: State) {
    && s.unsaved <= s.disk + s.wiped && s.disk <= s.names && s.wiped <= s.names - s.disk && "" !in s.names
    && DistinctFiles(s.rows)
    && (forall id :: RowOk(s, id) && RemovedOk(s, id))
    && (forall i :: 0 <= i < |s.todo| ==> TodoOk(s, s.todo[i]))
    && (forall i :: 0 <= i < |s.done| ==> DoneOk(s, s.done[i]))
    && (forall id :: id in s.announced ==> id in s.removed && id !in s.rows)
  }

  lemma TickKeeps(s: State, at: int)
    requires Inv(s) && s.now <= at
    ensures Inv(Next(s, Tick(at)))
  {
    var n := Next(s, Tick(at));
    forall id ensures RowOk(n, id) && RemovedOk(n, id) { assert RowOk(s, id) && RemovedOk(s, id); }
    forall i | 0 <= i < |n.todo| ensures TodoOk(n, n.todo[i]) { assert TodoOk(s, s.todo[i]); }
    forall i | 0 <= i < |n.done| ensures DoneOk(n, n.done[i]) { assert DoneOk(s, s.done[i]); }
  }

  lemma WriteKeeps(s: State, name: string)
    requires Inv(s) && Enabled(s, WriteFile(name))
    ensures Inv(Next(s, WriteFile(name)))
  {
    var n := Next(s, WriteFile(name));
    forall id ensures RowOk(n, id) && RemovedOk(n, id) { assert RowOk(s, id) && RemovedOk(s, id); }
    forall i | 0 <= i < |n.todo| ensures TodoOk(n, n.todo[i]) { assert TodoOk(s, s.todo[i]); }
    forall i | 0 <= i < |n.done| ensures DoneOk(n, n.done[i]) { assert DoneOk(s, s.done[i]); }
  }

  lemma SaveKeeps(s: State, id: string, row: Row)
    requires Inv(s) && Enabled(s, SaveRow(id, row))
    ensures Inv(Next(s, SaveRow(id, row)))
  {
    var n := Next(s, SaveRow(id, row));
    assert RowOk(s, id) && RemovedOk(s, id);
    forall j ensures RowOk(n, j) && RemovedOk(n, j) { assert RowOk(s, j) && RemovedOk(s, j); }
    forall i | 0 <= i < |n.todo| ensures TodoOk(n, n.todo[i]) { assert TodoOk(s, s.todo[i]); }
    forall i | 0 <= i < |n.done| ensures DoneOk(n, n.done[i]) { assert DoneOk(s, s.done[i]); }
    forall i, j | i in n.rows && j in n.rows && i != j && n.rows[i].file != ""
      ensures n.rows[i].file != n.rows[j].file
    {
      assert RowOk(s, i) && RowOk(s, j);
    }
  }

  lemma DeleteKeeps(s: State, id: string)
    requires Inv(s)
    ensures Inv(Next(s, Delete(id)))
  {
    var n := Next(s, Delete(id));
    assert RowOk(s, id);
    forall j ensures RowOk(n, j) && RemovedOk(n, j) { assert RowOk(s, j) && RemovedOk(s, j); }
    forall i | 0 <= i < |n.todo| ensures TodoOk(n, n.todo[i]) { assert TodoOk(s, s.todo[i]); }
    forall i | 0 <= i < |n.done| ensures DoneOk(n, n.done[i]) { assert DoneOk(s, s.done[i]); }
  }

  lemma SelectKeeps(s: State, found: seq<(string, Row)>)
    requires Inv(s) && Enabled(s, Select(found))
    ensures Inv(Next(s, Select(found)))
  {
    var n := Next(s, Select(found));
    forall j ensures RowOk(n, j) && RemovedOk(n, j) { assert RowOk(s, j) && RemovedOk(s, j); }
    forall i | 0 <= i < |found| ensures TodoOk(n, found[i]) { assert RowOk(s, found[i].0); }
  }

  lemma RemoveKeeps(s: State)
    requires Inv(s) && Enabled(s, RemoveFile)
    ensures Inv(Next(s, RemoveFile))
  {
    var n := Next(s, RemoveFile);
    var (id, r) := s.todo[0];
    assert TodoOk(s, s.todo[0]);
    forall j ensures RowOk(n, j) && RemovedOk(n, j) { assert RowOk(s, j) && RemovedOk(s, j); }
    forall i | 0 <= i < |n.todo| ensures TodoOk(n, n.todo[i]) { assert TodoOk(s, s.todo[i + 1]); }
    forall i | 0 <= i < |n.done| ensures DoneOk(n, n.done[i]) { if i < |s.done| { assert DoneOk(s, s.done[i]); } }
  }

  lemma DeleteRowsKeeps(s: State, ok: bool)
    requires Inv(s) && Enabled(s, DeleteRows(ok))
    ensures Inv(Next(s, DeleteRows(ok)))
  {
    var n := Next(s, DeleteRows(ok));
    forall j ensures RowOk(n, j) && RemovedOk(n, j) { assert RowOk(s, j) && RemovedOk(s, j); }
    forall id | id in n.announced ensures id in n.removed && id !in n.rows {
      if id in s.done { var i :| 0 <= i < |s.done| && s.done[i] == id; assert DoneOk(s, s.done[i]); }
    }
  }

  lemma DieKeeps(s: State)
    requires Inv(s)
    ensures Inv(Next(s, Die))
  {
    var n := Next(s, Die);
    forall j ensures RowOk(n, j) && RemovedOk(n, j) { assert RowOk(s, j) && RemovedOk(s, j); }
  }

  /** Every step keeps the invariant, whatever is interleaved with a half-finished sweep. */
  lemma NextKeepsInv(s: State, e: Step)
    requires Inv(s) && Enabled(s, e)
    ensures Inv(Next(s, e))
  {
    match e
    case Tick(at) => TickKeeps(s, at);
    case WriteFile(name) => WriteKeeps(s, name);
    case SaveRow(id, row) => SaveKeeps(s, id, row);
    case Delete(id) => DeleteKeeps(s, id);
    case Select(found) => SelectKeeps(s, found);
    case RemoveFile => RemoveKeeps(s);
    case DeleteRows(ok) => DeleteRowsKeeps(s, ok);
    case Die => DieKeeps(s);
  }

  ghost predicate Allowed(s: State, es: seq<Step>)
    decreases |es|
  {
    es == [] || (Enabled(s, es[0]) && Allowed(Next(s, es[0]), es[1..]))
  }

  ghost function Run(s: State, es: seq<Step>): State
    requires Allowed(s, es)
    decreases |es|
  {
    if es == [] then s else Run(Next(s, es[0]), es[1..])
  }

  function Start(now: int): State { State(map[], {}, now, {}, {}, {}, [], [], map[], {}, {}) }

  lemma {:induction false} RunKeepsInv(s: State, es: seq<Step>)
    requires Inv(s) && Allowed(s, es)
    ensures Inv(Run(s, es))
    decreases |es|
  {
    if es != [] {
      NextKeepsInv(s, es[0]);
      RunKeepsInv(Next(s, es[0]), es[1..]);
    }
  }

  /** Through every half-finished or broken-off sweep, clock tick, new share, deletion and failed
      DELETE: a file share that Get returns has its file on disk, except exactly if a sweep removed
      the whole uploads directory for a nameless folder share when the file was already there. */
  lemma ShownShareHasFile(now: int, es: seq<Step>, id: string)
    requires Allowed(Start(now), es)
    ensures var s := Run(Start(now), es);
      var r := Get(s.rows, id, s.now);
      r.Some? && IsFileShare(r.value) ==> (r.value.file in s.disk <==> r.value.file !in s.wiped)
  {
    RunKeepsInv(Start(now), es);
    assert RowOk(Run(Start(now), es), id);
  }

  /** No sweep comes to a nameless folder share. */
  ghost predicate NoFolderSwept(s: State, es: seq<Step>)
    requires Allowed(s, es)
    decreases |es|
  {
    es == [] || ((es[0].RemoveFile? ==> !Wipes(s.todo[0].1)) && NoFolderSwept(Next(s, es[0]), es[1..]))
  }

  /** Then nothing but what was there before is ever lost that way. */
  lemma {:induction false} NothingWiped(s: State, es: seq<Step>)
    requires Allowed(s, es) && NoFolderSwept(s, es)
    ensures Run(s, es).wiped == s.wiped
    decreases |es|
  {
    if es != [] { NothingWiped(Next(s, es[0]), es[1..]); }
  }

  /** A run that meets the trap: the folder share expires, the sweep runs, and the other share is
      shown without its file. */
  lemma FolderSweepLosesFile()
    ensures var (a, b) := (Row("a.txt", 100, false), Row("", 5, true));
      var es := [WriteFile("a.txt")] + ([SaveRow("file", a)] + ([SaveRow("folder", b)] +
                ([Tick(10)] + ([Select([("folder", b)])] + ([RemoveFile] + [])))));
      Allowed(Start(0), es) &&
      var s := Run(Start(0), es);
      Get(s.rows, "file", s.now) == Some(a) && "a.txt" !in s.disk
  {
    var a, b := Row("a.txt", 100, false), Row("", 5, true);
    var e1, e2, e3 := WriteFile("a.txt"), SaveRow("file", a), SaveRow("folder", b);
    var e4, e5, e6 := Tick(10), Select([("folder", b)]), RemoveFile;
    var s1 := Next(Start(0), e1);
    var s2 := Next(s1, e2);
    var s3 := Next(s2, e3);
    assert s3.rows == map["file" := a, "folder" := b];
    var s4 := Next(s3, e4);
    assert ("folder", b) in [("folder", b)];
    var s5 := Next(s4, e5);
    var s6 := Next(s5, e6);
    assert Enabled(s1, e2) && Enabled(s2, e3) && Enabled(s4, e5);
    hide Next, Enabled;
    OneStep(s5, e6, []);
    OneStep(s4, e5, [e6] + []);
    OneStep(s3, e4, [e5] + ([e6] + []));
    OneStep(s2, e3, [e4] + ([e5] + ([e6] + [])));
    OneStep(s1, e2, [e3] + ([e4] + ([e5] + ([e6] + []))));
    OneStep(Start(0), e1, [e2] + ([e3] + ([e4] + ([e5] + ([e6] + [])))));
  }

  lemma OneStep(s: State, e: Step, es: seq<Step>)
    requires Enabled(s, e) && Allowed(Next(s, e), es)
    ensures Allowed(s, [e] + es) && Run(s, [e] + es) == Run(Next(s, e), es)
  {
    assert ([e] + es)[1..] == es;
  }

  /** Deleting a shown share removes its row and its file, and no other row or file. */
  lemma DeleteRemoves(s: State, id: string)
    requires id in s.rows && s.now < s.rows[id].expires
    ensures var n := Next(s, Delete(id));
      && n.rows == s.rows - {id}
      && (forall name :: name in n.disk <==> name in s.disk && (name != s.rows[id].file || name == ""))
  {
  }

  /** What has been announced is exactly what is gone: the row is deleted and its file was removed,
      and is not on disk under any later share. */
  lemma AnnouncedAreGone(now: int, es: seq<Step>, id: string)
    requires Allowed(Start(now), es) && id in Run(Start(now), es).announced
    ensures var s := Run(Start(now), es);
      id !in s.rows && id in s.removed && s.removed[id] !in s.disk
  {
    RunKeepsInv(Start(now), es);
    assert RemovedOk(Run(Start(now), es), id);
  }

  /** The DELETE takes exactly the rows whose files this sweep removed, even if more rows have
      expired since its SELECT. */
  lemma DeleteTakesWhatWasRemoved(s: State, id: string)
    requires Inv(s) && Enabled(s, DeleteRows(true)) && id in s.rows
    ensures var n := Next(s, DeleteRows(true));
      && (id !in n.rows <==> id in s.done)
      && (id !in n.rows ==> id in n.announced && !Live(s.rows[id], s.now) && s.rows[id].file !in n.disk)
  {
    assert RemovedOk(s, id);
    if id in s.done { var i :| 0 <= i < |s.done| && s.done[i] == id; assert DoneOk(s, s.done[i]); }
  }

  // ----- a sweep run alone -----

  function IdsOf(ts: seq<(string, Row)>): set<string> { set t | t in ts :: t.0 }

  function FilesOf(ts: seq<(string, Row)>): set<string> { set t | t in ts && t.1.file != "" :: t.1.file }

  /** The state after k files of the sweep's list have been removed. */
  function Removing(s: State, k: nat): State
    requires k <= |s.todo|
    ensures Removing(s, k).todo == s.todo[k..]
  {
    if k == 0 then s else Next(Removing(s, k - 1), RemoveFile)
  }

  predicate AnyWipes(ts: seq<(string, Row)>) { exists i :: 0 <= i < |ts| && Wipes(ts[i].1) }

  /** What the list's files leave of the disk once removed. */
  function Without(disk: set<string>, ts: seq<(string, Row)>): set<string> {
    if AnyWipes(ts) then {} else disk - FilesOf(ts)
  }

  function Ids(done: seq<string>): set<string> { set id | id in done }

  lemma {:induction false} RemovingSoFar(s: State, k: nat)
    requires k <= |s.todo| && s.done == []
    ensures var n := Removing(s, k);
      && n.rows == s.rows && n.announced == s.announced && n.now == s.now && |n.done| == k
      && Ids(n.done) == IdsOf(s.todo[..k]) && n.disk == Without(s.disk, s.todo[..k])
  {
    if k == 0 {
      assert s.todo[..0] == [];
    } else {
      RemovingSoFar(s, k - 1);
      var t := s.todo[k - 1];
      var m := Removing(s, k - 1);
      assert m.todo[0] == t && s.todo[..k] == s.todo[..k - 1] + [t];
      hide Next, Remove, Without, Ids, IdsOf;
      OneMoreOf(s.disk, s.todo[..k - 1], t);
    }
  }

  lemma OneMoreOf(disk: set<string>, ts: seq<(string, Row)>, t: (string, Row))
    ensures IdsOf(ts + [t]) == IdsOf(ts) + {t.0}
    ensures Without(disk, ts + [t]) == Remove(Without(disk, ts), t.1)
  {
    var all := ts + [t];
    assert all[|ts|] == t;
    assert forall u :: u in all <==> u in ts || u == t;
    assert FilesOf(all) == FilesOf(ts) + if t.1.file != "" then {t.1.file} else {};
    if AnyWipes(ts) {
      var i :| 0 <= i < |ts| && Wipes(ts[i].1);
      assert all[i] == ts[i];
    }
  }

  /** The interleaved sweep, when nothing interleaves, is CleanupExpiredShares: the same disk, the
      same rows, the same announcements. */
  lemma SweepAlone(s: State, found: seq<(string, Row)>, ok: bool)
    requires Enabled(s, Select(found)) && found != []
    ensures var expired := Expired(s.rows, s.now);
      var m := Removing(Next(s, Select(found)), |found|);
      Enabled(m, DeleteRows(ok)) &&
      var n := Next(m, DeleteRows(ok));
      && n.disk == DiskAfter(s.rows, expired, s.disk)
      && n.rows == (if ok then s.rows - expired else s.rows)
      && n.announced == s.announced + (if ok then expired else {})
  {
    var t := Next(s, Select(found));
    RemovingSoFar(t, |found|);
    assert t.todo[..|found|] == found;
    SelectedAreExpired(s, found);
  }

  lemma SelectedAreExpired(s: State, found: seq<(string, Row)>)
    requires Enabled(s, Select(found))
    ensures IdsOf(found) == Expired(s.rows, s.now)
    ensures Without(s.disk, found) == DiskAfter(s.rows, Expired(s.rows, s.now), s.disk)
  {
    var expired := Expired(s.rows, s.now);
    forall id ensures id in IdsOf(found) <==> id in expired {
      if id in expired { assert (id, s.rows[id]) in found; }
      if id in IdsOf(found) {
        var t :| t in found && t.0 == id;
        var i :| 0 <= i < |found| && found[i] == t;
      }
    }
    if id :| id in expired && Wipes(s.rows[id]) {
      var i :| 0 <= i < |found| && found[i] == (id, s.rows[id]);
    }
    if AnyWipes(found) {
      var i :| 0 <= i < |found| && Wipes(found[i].1);
      assert found[i].0 in expired;
    }
  }

}
