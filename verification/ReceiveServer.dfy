/** One receive-link upload from arrival to reply, over the tables and directories it updates,
    with every fault a step can meet given as input. */
module ReceiveServer {
  import opened Util
  import opened ReceiveTables

  /** Whether each step of an upload succeeds; checks stands for the password, rate limit,
      proof-of-work, form, extension and quota checks, which only ever refuse. */
  datatype Faults = Faults(checks: bool, create: bool, copy: bool, scan: bool,
                           shareCreate: bool, shareSave: bool, record: bool, count: bool)

  /** The stores an upload works on: disk maps a received file to its link, the share maps a
      share id to the received file it copies. */
  datatype Stores = Stores(db: Tables, disk: map<string, string>,
                           shareFiles: map<string, string>, shareRows: map<string, string>)

  predicate Accepts(st: Stores, id: string, faults: Faults) {
    && id in st.db.links && HasRoom(st.db.links[id])
    && faults.checks && faults.create && faults.copy && faults.scan && faults.record && faults.count
  }

  /** The id of the share an upload makes, if the link wants one and making it works. */
  function ShareOf(link: Link, sid: string, faults: Faults): Option<string> {
    if link.autoShare && faults.shareCreate && faults.shareSave then Some(sid) else None
  }

  /** What one whole upload does: all of it or nothing. */
  function UploadEffect(st: Stores, id: string, f: string, sid: string, size: nat, faults: Faults): Stores {
    if !Accepts(st, id, faults) then st
    else
      var l := st.db.links[id];
      var share := ShareOf(l, sid, faults);
      Stores(Tables(st.db.links[id := l.(current := l.current + 1, totalSize := l.totalSize + size)],
                    st.db.rows[f := Row(id, size, share)]),
             st.disk[f := id],
             if share.Some? then st.shareFiles[sid := f] else st.shareFiles,
             if share.Some? then st.shareRows[sid := f] else st.shareRows)
  }

  predicate NoFaults(faults: Faults) {
    faults.checks && faults.create && faults.copy && faults.scan && faults.record && faults.count
  }

  /** An upload without faults is accepted exactly while the limit, if there is one, is not reached. */
  lemma AcceptedIff(st: Stores, id: string, faults: Faults)
    requires id in st.db.links && NoFaults(faults)
    ensures var l := st.db.links[id];
      Accepts(st, id, faults) <==> l.maxUploads == 0 || l.current < l.maxUploads
  {
  }

  /** An upload to come: the ids of its file and share, and its size. */
  datatype Upload = Upload(f: string, sid: string, size: nat)

  function AfterUploads(st: Stores, id: string, us: seq<Upload>, faults: Faults): Stores
    decreases |us|
  {
    if us == [] then st
    else AfterUploads(UploadEffect(st, id, us[0].f, us[0].sid, us[0].size, faults), id, us[1..], faults)
  }

  /** How many of n uploads a link has room for. */
  function Room(l: Link, n: nat): nat {
    if l.maxUploads == 0 then n else Min(n, Max(0, l.maxUploads - l.current))
  }

  /** The files of the first k uploads. */
  function FirstFiles(us: seq<Upload>, k: nat): set<string>
    requires k <= |us|
    decreases k
  {
    if k == 0 then {} else {us[0].f} + FirstFiles(us[1..], k - 1)
  }

  lemma {:induction false} FirstFilesIff(us: seq<Upload>, k: nat, i: nat)
    requires k <= |us| && i < |us| && forall m, n :: 0 <= m < n < |us| ==> us[m].f != us[n].f
    ensures us[i].f in FirstFiles(us, k) <==> i < k
    decreases k
  {
    if k != 0 {
      var rest := us[1..];
      assert forall m :: 0 <= m < |rest| ==> rest[m] == us[m + 1];
      if i > 0 { FirstFilesIff(rest, k - 1, i - 1); }
    }
  }

  /** From st to n the link counted as many more uploads as these files, each with its row and its
      place on disk. */
  ghost predicate Took(st: Stores, n: Stores, id: string, files: set<string>, count: nat) {
    && id in st.db.links && id in n.db.links
    && n.db.links[id].current == st.db.links[id].current + count
    && n.db.links[id].maxUploads == st.db.links[id].maxUploads
    && n.db.rows.Keys == st.db.rows.Keys + files && n.disk.Keys == st.disk.Keys + files
  }

  lemma TookMore(a: Stores, b: Stores, c: Stores, id: string, f: set<string>, i: nat, g: set<string>, j: nat)
    requires Took(a, b, id, f, i) && Took(b, c, id, g, j)
    ensures Took(a, c, id, f + g, i + j)
  {
  }

  /** Of uploads without faults, one after another, a link accepts the first as many as it has room
      for, all of them if it has no limit, and no more. */
  lemma {:induction false} FirstOnesAreAccepted(st: Stores, id: string, us: seq<Upload>, faults: Faults)
    requires id in st.db.links && NoFaults(faults)
    ensures var room := Room(st.db.links[id], |us|);
      Took(st, AfterUploads(st, id, us, faults), id, FirstFiles(us, room), room)
    decreases |us|
  {
    if us != [] {
      var u, rest := us[0], us[1..];
      var next := UploadEffect(st, id, u.f, u.sid, u.size, faults);
      AcceptedIff(st, id, faults);
      UploadIsAddedOrNot(st, id, u, faults);
      hide UploadEffect, Accepts, NoFaults, Took, Room;
      FirstOnesAreAccepted(next, id, rest, faults);
      if Accepts(st, id, faults) {
        var room := Room(next.db.links[id], |rest|);
        TookMore(st, next, AfterUploads(st, id, us, faults), id, {u.f}, 1, FirstFiles(rest, room), room);
      }
    }
  }

  lemma UploadIsAddedOrNot(st: Stores, id: string, u: Upload, faults: Faults)
    requires id in st.db.links && NoFaults(faults)
    ensures var n := UploadEffect(st, id, u.f, u.sid, u.size, faults);
      if Accepts(st, id, faults) then
        && Took(st, n, id, {u.f}, 1)
        && n.db.rows[u.f].link == id && n.db.rows[u.f].size == u.size && n.disk[u.f] == id
      else n == st
  {
  }

  class Handlers {
    var db: Tables
    var disk: map<string, string>         // received file id -> link directory
    var shareFiles: map<string, string>   // share id -> received file it copies
    var shareRows: map<string, string>

    constructor (links: map<string, Link>)
      ensures db == Tables(links, map[]) && disk == map[] && shareFiles == map[] && shareRows == map[]
    {
      db, disk, shareFiles, shareRows := Tables(links, map[]), map[], map[], map[];
    }

    method SaveReceivedFile(f: string, r: Row) returns (ok: bool)
      modifies `db
      ensures ok <==> f !in old(db).rows && r.link in old(db).links
      ensures db == if ok then Deposit(old(db), r.link, r.size).(rows := old(db).rows[f := r]) else old(db)
    {
      if f in db.rows || r.link !in db.links { return false; }
      var link := db.links[r.link];
      db := Tables(db.links[r.link := link.(totalSize := link.totalSize + r.size)], db.rows[f := r]);
      return true;
    }

    method DeleteReceivedFile(link: string, f: string) returns (ok: bool)
      modifies `db, `disk
      ensures ok <==> DeleteRow(old(db), link, f).Some?
      ensures ok ==> db == DeleteRow(old(db), link, f).value && disk == old(disk) - {f}
      ensures !ok ==> db == old(db) && disk == old(disk)
    {
      if f !in db.rows || db.rows[f].link != link { return false; }
      var size := db.rows[f].size;
      var rows := db.rows - {f};
      if link in db.links {
        var l := db.links[link];
        db := Tables(db.links[link := l.(totalSize := Max(0, l.totalSize - size))], rows);
      } else {
        db := db.(rows := rows);
      }
      disk := disk - {f};
      return true;
    }

    method IncrementUploads(link: string) returns (allowed: bool)
      modifies `db
      ensures allowed <==> link in old(db).links && HasRoom(old(db).links[link])
      ensures allowed ==>
        var l := old(db).links[link];
        db == old(db).(links := old(db).links[link := l.(current := l.current + 1)])
      ensures !allowed ==> db == old(db)
    {
      if link !in db.links { return false; }
      var l := db.links[link];
      if l.maxUploads == 0 || l.current < l.maxUploads {
        db := db.(links := db.links[link := l.(current := l.current + 1)]);
        return true;
      }
      return false;
    }

    /** The optional copy into the share list; every failure removes what it wrote. */
    method AutoShare(sid: string, f: string, createOk: bool, saveOk: bool) returns (share: Option<string>)
      requires sid !in shareFiles && sid !in shareRows
      modifies `shareFiles, `shareRows
      ensures share == if createOk && saveOk then Some(sid) else None
      ensures shareFiles == (if share.Some? then old(shareFiles)[sid := f] else old(shareFiles))
      ensures shareRows == (if share.Some? then old(shareRows)[sid := f] else old(shareRows))
    {
      if !createOk { return None; }
      shareFiles := shareFiles[sid := f];
      if saveOk {
        shareRows := shareRows[sid := f];
        return Some(sid);
      }
      shareFiles := shareFiles - {sid};
      return None;
    }

    /** Removes an auto-created share again. */
    method DropShare(share: Option<string>)
      modifies `shareFiles, `shareRows
      ensures share.None? ==> shareFiles == old(shareFiles) && shareRows == old(shareRows)
      ensures share.Some? ==>
        shareFiles == old(shareFiles) - {share.value} && shareRows == old(shareRows) - {share.value}
    {
      if share.Some? {
        shareFiles := shareFiles - {share.value};
        shareRows := shareRows - {share.value};
      }
    }

    /** Row, running total and counter, or none of them: a refusal here removes the row again
        together with the file and the share. */
    method RecordUpload(id: string, f: string, size: nat, share: Option<string>, record: bool, count: bool)
      returns (ok: bool)
      requires f !in db.rows && id in db.links
      modifies this
      ensures ok <==> record && count && HasRoom(old(db).links[id])
      ensures ok ==>
        var l := old(db).links[id];
        && db.rows == old(db).rows[f := Row(id, size, share)]
        && db.links == old(db).links[id := l.(current := l.current + 1, totalSize := l.totalSize + size)]
        && disk == old(disk) && shareFiles == old(shareFiles) && shareRows == old(shareRows)
      ensures !ok ==>
        && db == old(db) && disk == old(disk) - {f}
        && (share.None? ==> shareFiles == old(shareFiles) && shareRows == old(shareRows))
        && (share.Some? ==>
            shareFiles == old(shareFiles) - {share.value} && shareRows == old(shareRows) - {share.value})
    {
      var saved := false;
      if record { saved := SaveReceivedFile(f, Row(id, size, share)); }
      if !saved {
        disk := disk - {f};
        DropShare(share);
        return false;
      }
      var counted := false;
      if count { counted := IncrementUploads(id); }
      if !counted {
        disk := disk - {f};
        DropShare(share);
        var _ := DeleteReceivedFile(id, f);
        assert db.rows == old(db).rows && db.links == old(db).links;
        return false;
      }
      return true;
    }

    /** A refused upload leaves every table and directory as it was; an accepted one adds exactly
        one file, one row, its bytes and one counted upload, and its share if that was made. */
    method ReceiveUpload(id: string, f: string, sid: string, size: nat, faults: Faults)
      returns (accepted: bool, share: Option<string>)
      requires f !in disk && f !in db.rows && sid !in shareFiles && sid !in shareRows
      modifies this
      ensures accepted <==> Accepts(old(Stores(db, disk, shareFiles, shareRows)), id, faults)
      ensures share == if accepted then ShareOf(old(db).links[id], sid, faults) else None
      ensures Stores(db, disk, shareFiles, shareRows) ==
        UploadEffect(old(Stores(db, disk, shareFiles, shareRows)), id, f, sid, size, faults)
      ensures !accepted ==>
        db == old(db) && disk == old(disk) && shareFiles == old(shareFiles) && shareRows == old(shareRows)
      ensures accepted <==>
        && id in old(db).links && faults == faults.(checks := true, create := true, copy := true, scan := true,
                                                     record := true, count := true)
        && (old(db).links[id].maxUploads == 0 || old(db).links[id].current < old(db).links[id].maxUploads)
      ensures accepted ==>
        && db.rows == old(db).rows[f := Row(id, size, share)] && disk == old(disk)[f := id]
        && (share == Some(sid) <==> old(db).links[id].autoShare && faults.shareCreate && faults.shareSave)
        && (share == Some(sid) ==>
            shareFiles == old(shareFiles)[sid := f] && shareRows == old(shareRows)[sid := f])
        && (share != Some(sid) ==>
            share == None && shareFiles == old(shareFiles) && shareRows == old(shareRows))
    {
      share := None;
      if id !in db.links { return false, None; }
      var link := db.links[id];
      if link.maxUploads > 0 && link.current >= link.maxUploads { return false, None; }
      if !faults.checks || !faults.create { return false, None; }
      disk := disk[f := id];
      if !faults.copy || !faults.scan {
        disk := disk - {f};
        assert disk == old(disk);
        return false, None;
      }
      if link.autoShare { share := AutoShare(sid, f, faults.shareCreate, faults.shareSave); }
      accepted := RecordUpload(id, f, size, share, faults.record, faults.count);
      if !accepted {
        assert disk == old(disk);
        assert shareFiles == old(shareFiles) && shareRows == old(shareRows);
        share := None;
      }
    }
  }
}
