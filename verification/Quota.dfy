/** Per-user storage quota: GetUserUsage (internal/storage/sqlite.go), quotaExceededBy
    (internal/handlers/handlers.go) and the loop of UploadMultipleFiles
    (internal/handlers/upload.go), run alone. */
module Quota {
  import opened Util
  import opened ReceiveTables

  datatype Share = Share(user: string, size: nat, symlink: bool, directory: bool)

  /** Symlinked and in-place folder shares take no managed storage. */
  ghost function ManagedSizes(shares: map<string, Share>, user: string): map<string, nat> {
    map i | i in shares && shares[i].user == user && !shares[i].symlink && !shares[i].directory :: shares[i].size
  }

  /** What a user really stores: every managed share and every received file, each counted once. */
  ghost function Stored(shares: map<string, Share>, t: Tables, user: string): nat {
    MapSum(ManagedSizes(shares, user)) + MapSum(SizesIn(t.rows, LinksOf(t, user)))
  }

  lemma StoredGrows(shares: map<string, Share>, t: Tables, user: string, id: string, s: Share)
    requires id !in shares
    ensures Stored(shares[id := s], t, user) == Stored(shares, t, user) +
      if s.user == user && !s.symlink && !s.directory then s.size else 0
  {
    var before, after := ManagedSizes(shares, user), ManagedSizes(shares[id := s], user);
    hide MapSum;
    if s.user == user && !s.symlink && !s.directory {
      assert after == before[id := s.size];
      MapSumPut(before, id, s.size);
    } else {
      assert after == before;
    }
  }

  /** A received file adds its size to the usage of its link's owner, and to nobody else's. */
  lemma ReceivedGrows(shares: map<string, Share>, t: Tables, user: string, f: string, r: Row)
    requires SaveRow(t, f, r).Some?
    ensures Stored(shares, SaveRow(t, f, r).value, user) == Stored(shares, t, user) +
      if t.links[r.link].userId == user then r.size else 0
  {
    var n := SaveRow(t, f, r).value;
    assert LinksOf(n, user) == LinksOf(t, user);
    var before, after := SizesIn(t.rows, LinksOf(t, user)), SizesIn(n.rows, LinksOf(t, user));
    hide MapSum;
    if t.links[r.link].userId == user {
      assert after == before[f := r.size];
      MapSumPut(before, f, r.size);
    } else {
      assert after == before;
    }
  }

  lemma NothingStored(links: map<string, Link>, user: string)
    ensures Stored(map[], Tables(links, map[]), user) == 0
  {
    assert ManagedSizes(map[], user) == map[] && SizesIn(map[], LinksOf(Tables(links, map[]), user)) == map[];
    MapSumEmpty<string>();
  }

  /** One file of a request: the size the form reports, the bytes that copying yields, and the step
      at which handling it fails, if any. */
  datatype Fault = NoFault | OpenFails | CreateFails | CopyFails | SaveFails
  datatype Part = Part(allowed: bool, size: nat, copied: nat, fault: Fault)

  const MAX_FILES: nat := 50

  predicate Admits(quota: int, reserved: nat, p: Part) {
    p.allowed && (quota <= 0 || reserved + p.size <= quota)
  }

  /** The tally after n files: every admitted file's bytes stay reserved, stored or not. */
  function Reserved(files: seq<Part>, n: nat, quota: int, used: nat): nat
    requires n <= |files|
  {
    if n == 0 then used
    else
      var r := Reserved(files, n - 1, quota, used);
      if Admits(quota, r, files[n - 1]) then r + files[n - 1].size else r
  }

  predicate Keeps(files: seq<Part>, i: nat, quota: int, used: nat)
    requires i < |files|
  {
    Admits(quota, Reserved(files, i, quota, used), files[i]) && files[i].fault == NoFault
  }

  /** A positive quota bounds the tally. */
  lemma {:induction false} ReservedWithinQuota(files: seq<Part>, n: nat, quota: int, used: nat)
    requires n <= |files| && quota > 0
    ensures used <= Reserved(files, n, quota, used) <= Max(used, quota)
  {
    if n != 0 { ReservedWithinQuota(files, n - 1, quota, used); }
  }

  // ----- what a request leaves -----

  /** Share rows and the sizes of their stored files. */
  datatype Depot = Depot(shares: map<string, Share>, files: map<string, nat>)

  function Put(d: Depot, owner: string, id: string, size: nat): Depot {
    Depot(d.shares[id := Share(owner, size, false, false)], d.files[id := size])
  }

  /** The depot once the first n files have been handled: the kept ones have been put. */
  function After(d: Depot, owner: string, parts: seq<Part>, ids: seq<string>, n: nat, quota: int, used: nat): Depot
    requires n <= |parts| == |ids|
  {
    if n == 0 then d
    else
      var e := After(d, owner, parts, ids, n - 1, quota, used);
      if Keeps(parts, n - 1, quota, used) then Put(e, owner, ids[n - 1], parts[n - 1].copied) else e
  }

  ghost predicate FreshIds(d: Depot, ids: seq<string>) {
    && (forall i, j :: 0 <= i < j < |ids| ==> ids[i] != ids[j])
    && (forall i :: 0 <= i < |ids| ==> ids[i] !in d.shares && ids[i] !in d.files)
  }

  /** Each kept file has its row and its bytes on disk, and no other file of the request has either. */
  lemma {:induction false} KeptAreStored(d: Depot, owner: string, parts: seq<Part>, ids: seq<string>, n: nat,
                                        quota: int, used: nat, i: nat)
    requires n <= |parts| == |ids| && FreshIds(d, ids) && i < |ids|
    ensures var e := After(d, owner, parts, ids, n, quota, used);
      && (ids[i] in e.shares <==> i < n && Keeps(parts, i, quota, used))
      && (ids[i] in e.files <==> ids[i] in e.shares)
      && (ids[i] in e.shares ==>
          e.shares[ids[i]] == Share(owner, parts[i].copied, false, false) && e.files[ids[i]] == parts[i].copied)
  {
    if n != 0 {
      KeptAreStored(d, owner, parts, ids, n - 1, quota, used, i);
      assert i != n - 1 ==> ids[i] != ids[n - 1];
    }
  }

  /** Nothing else in the depot changes. */
  lemma {:induction false} OthersAreKept(d: Depot, owner: string, parts: seq<Part>, ids: seq<string>, n: nat,
                                        quota: int, used: nat, id: string)
    requires n <= |parts| == |ids| && id !in ids
    ensures var e := After(d, owner, parts, ids, n, quota, used);
      && (id in e.shares <==> id in d.shares) && (id in d.shares ==> e.shares[id] == d.shares[id])
      && (id in e.files <==> id in d.files) && (id in d.files ==> e.files[id] == d.files[id])
  {
    if n != 0 { OthersAreKept(d, owner, parts, ids, n - 1, quota, used, id); }
  }

  /** Bytes copied beyond what the form reported. */
  function Excess(parts: seq<Part>, n: nat): nat
    requires n <= |parts|
  {
    if n == 0 then 0 else Excess(parts, n - 1) + Max(0, parts[n - 1].copied - parts[n - 1].size)
  }

  lemma {:induction false} NoExcess(parts: seq<Part>, n: nat)
    requires n <= |parts| && forall i :: 0 <= i < |parts| ==> parts[i].copied <= parts[i].size
    ensures Excess(parts, n) == 0
  {
    if n != 0 { NoExcess(parts, n - 1); }
  }

  /** What the owner stores grows by no more than the tally does and the form left out. */
  lemma {:induction false} StoredWithinReserved(d: Depot, t: Tables, owner: string, parts: seq<Part>,
                                        ids: seq<string>, n: nat, quota: int, used: nat)
    requires n <= |parts| == |ids| && FreshIds(d, ids)
    ensures var e := After(d, owner, parts, ids, n, quota, used);
      var grown := Stored(e.shares, t, owner) - Stored(d.shares, t, owner);
      grown <= Reserved(parts, n, quota, used) - used + Excess(parts, n)
  {
    if n != 0 {
      StoredWithinReserved(d, t, owner, parts, ids, n - 1, quota, used);
      var e := After(d, owner, parts, ids, n - 1, quota, used);
      KeptAreStored(d, owner, parts, ids, n - 1, quota, used, n - 1);
      hide Stored;
      StoredGrows(e.shares, t, owner, ids[n - 1], Share(owner, parts[n - 1].copied, false, false));
    }
  }

  /** A request with a positive quota ends within it, or at what was already stored, whichever of
      its files fail at whichever step; only bytes the form did not report can take it further. */
  lemma UsageStaysWithinQuota(d: Depot, t: Tables, owner: string, parts: seq<Part>, ids: seq<string>, quota: int)
    requires |parts| == |ids| && FreshIds(d, ids) && quota > 0
    ensures var used := Stored(d.shares, t, owner);
      var after := Stored(After(d, owner, parts, ids, |parts|, quota, used).shares, t, owner);
      && after <= Max(used, quota) + Excess(parts, |parts|)
      && ((forall i :: 0 <= i < |parts| ==> parts[i].copied <= parts[i].size) ==> after <= Max(used, quota))
  {
    var used := Stored(d.shares, t, owner);
    StoredWithinReserved(d, t, owner, parts, ids, |parts|, quota, used);
    ReservedWithinQuota(parts, |parts|, quota, used);
    if forall i :: 0 <= i < |parts| ==> parts[i].copied <= parts[i].size { NoExcess(parts, |parts|); }
  }

  /** While no file fails the tally is exactly what is stored, so a file is turned away for its
      size exactly when storing it would pass the quota. */
  lemma {:induction false} TallyIsExact(d: Depot, t: Tables, owner: string, parts: seq<Part>, ids: seq<string>,
                                        n: nat, quota: int)
    requires n <= |parts| == |ids| && FreshIds(d, ids)
    requires forall i :: 0 <= i < |parts| ==> parts[i].fault == NoFault && parts[i].copied == parts[i].size
    ensures var used := Stored(d.shares, t, owner);
      Reserved(parts, n, quota, used) == Stored(After(d, owner, parts, ids, n, quota, used).shares, t, owner)
  {
    if n != 0 {
      var used := Stored(d.shares, t, owner);
      TallyIsExact(d, t, owner, parts, ids, n - 1, quota);
      var e := After(d, owner, parts, ids, n - 1, quota, used);
      KeptAreStored(d, owner, parts, ids, n - 1, quota, used, n - 1);
      hide Stored;
      StoredGrows(e.shares, t, owner, ids[n - 1], Share(owner, parts[n - 1].copied, false, false));
    }
  }

  /** While nothing fails, a file of an allowed type is stored exactly if there is no quota or it fits
      into what is left of it. */
  lemma FitsIsKept(d: Depot, t: Tables, owner: string, parts: seq<Part>, ids: seq<string>, i: nat, quota: int)
    requires i < |parts| == |ids| && FreshIds(d, ids)
    requires forall k :: 0 <= k < |parts| ==> parts[k].fault == NoFault && parts[k].copied == parts[k].size
    ensures var used := Stored(d.shares, t, owner);
      var now := Stored(After(d, owner, parts, ids, i, quota, used).shares, t, owner);
      ids[i] in After(d, owner, parts, ids, |parts|, quota, used).shares <==>
        parts[i].allowed && (quota <= 0 || now + parts[i].size <= quota)
  {
    var used := Stored(d.shares, t, owner);
    TallyIsExact(d, t, owner, parts, ids, i, quota);
    KeptAreStored(d, owner, parts, ids, |parts|, quota, used, i);
    hide Stored, After;
  }

  class Store {
    var users: map<string, int>
    var shares: map<string, Share>
    var tables: Tables

    /** Stored files of shares and their sizes. */
    var files: map<string, nat>

    constructor (users: map<string, int>)
      ensures this.users == users && shares == map[] && tables == Tables(map[], map[]) && files == map[]
    {
      this.users := users;
      shares, tables, files := map[], Tables(map[], map[]), map[];
    }

    /** A SUM query. */
    method Sum(m: map<string, nat>) returns (total: nat)
      ensures total == MapSum(m)
    {
      var rest := m;
      total := 0;
      MapSumEmpty<string>();
      hide MapSum;
      while rest != map[]
        invariant total + MapSum(rest) == MapSum(m)
        decreases |rest|
      {
        var k :| k in rest;
        MapSumTake(rest, k);
        total, rest := total + rest[k], rest - {k};
      }
    }

    /** The usage query adds up share sizes and the links' running totals; with balanced receive
        tables that is what the user really stores. */
    method GetUserUsage(user: string) returns (used: nat)
      requires Balanced(tables)
      ensures used == Stored(shares, tables, user)
    {
      var own := Sum(map i | i in shares && shares[i].user == user && !shares[i].symlink && !shares[i].directory ::
        shares[i].size);
      var received := Sum(TotalsOf(tables, LinksOf(tables, user)));
      TotalsAreReceivedBytes(tables, LinksOf(tables, user));
      return own + received;
    }

    /** Whether incoming bytes would take the user over a positive quota; None is a storage error. */
    method QuotaExceededBy(user: string, incoming: nat, readable: bool) returns (exceeded: Option<bool>)
      requires Balanced(tables)
      ensures exceeded.None? <==> user != "" && !readable
      ensures exceeded.Some? ==>
        (exceeded.value <==>
          user != "" && user in users && users[user] > 0 && Stored(shares, tables, user) + incoming > users[user])
    {
      if user == "" { return Some(false); }
      if !readable { return None; }
      if user !in users || users[user] <= 0 { return Some(false); }
      var used := GetUserUsage(user);
      return Some(used + incoming > users[user]);
    }

    /** The quota in force for a request: 0 is unlimited. */
    function QuotaOf(user: Option<string>): int
      reads this
    {
      if user.Some? && user.value in users then users[user.value] else 0
    }

    /** Handles the files of a request in order; success counts the kept ones. formOk says that the
        form could be parsed and its password hashed, readable that the user's quota could be read. */
    method UploadMultipleFiles(user: Option<string>, parts: seq<Part>, ids: seq<string>, formOk: bool, readable: bool)
      returns (ok: bool, success: nat, failed: nat)
      requires Balanced(tables) && |ids| == |parts| && FreshIds(Depot(shares, files), ids)
      modifies `shares, `files
      ensures ok <==> formOk && 0 < |parts| <= 50 && (user.None? || readable)
      ensures !ok ==> shares == old(shares) && files == old(files)
      ensures ok ==>
        var owner := if user.Some? then user.value else "";
        var quota := QuotaOf(user);
        var used := if quota > 0 then Stored(old(shares), tables, owner) else 0;
        Depot(shares, files) == After(old(Depot(shares, files)), owner, parts, ids, |parts|, quota, used)
      ensures ok ==> success + failed == |parts| && success == |shares| - |old(shares)|
      ensures ok && user.Some? && QuotaOf(user) > 0 ==>
        Stored(shares, tables, user.value) <=
          Max(Stored(old(shares), tables, user.value), QuotaOf(user)) + Excess(parts, |parts|)
    {
      var owner := if user.Some? then user.value else "";
      if !formOk || |parts| == 0 || |parts| > MAX_FILES { return false, 0, 0; }
      if user.Some? && !readable { return false, 0, 0; }
      var quota, used := QuotaOf(user), 0;
      if quota > 0 { used := GetUserUsage(owner); }
      ghost var d := Depot(shares, files);
      hide Stored;
      success, failed := StoreParts(owner, parts, ids, quota, used);
      if quota > 0 { UsageStaysWithinQuota(d, tables, owner, parts, ids, quota); }
      return true, success, failed;
    }

    /** The loop over the files of a request, growing the tally as files are admitted. */
    method StoreParts(owner: string, parts: seq<Part>, ids: seq<string>, quota: int, used: nat)
      returns (success: nat, failed: nat)
      requires |ids| == |parts| && FreshIds(Depot(shares, files), ids)
      modifies `shares, `files
      ensures Depot(shares, files) == After(old(Depot(shares, files)), owner, parts, ids, |parts|, quota, used)
      ensures success + failed == |parts| && success == |shares| - |old(shares)|
    {
      success, failed := 0, 0;
      var reserved := used;
      ghost var d := Depot(shares, files);
      for n := 0 to |parts|
        invariant Depot(shares, files) == After(d, owner, parts, ids, n, quota, used)
        invariant reserved == Reserved(parts, n, quota, used)
        invariant success + failed == n && success == |shares| - |d.shares|
      {
        var p := parts[n];
        KeptAreStored(d, owner, parts, ids, n, quota, used, n);
        if !p.allowed || (quota > 0 && reserved + p.size > quota) {
          failed := failed + 1;
          continue;
        }
        reserved := reserved + p.size;
        var stored := StorePart(owner, ids[n], p);
        if stored { success := success + 1; } else { failed := failed + 1; }
      }
    }

    /** Copies one admitted file and saves its row; every failure removes what was written. */
    method StorePart(owner: string, id: string, p: Part) returns (stored: bool)
      requires id !in shares && id !in files
      modifies `shares, `files
      ensures stored <==> p.fault == NoFault
      ensures Depot(shares, files) ==
        if stored then Put(old(Depot(shares, files)), owner, id, p.copied) else old(Depot(shares, files))
    {
      if p.fault == OpenFails || p.fault == CreateFails { return false; }
      ghost var before := files;
      files := files[id := p.copied];
      if p.fault == CopyFails || p.fault == SaveFails {
        files := files - {id};
        assert files == before;
        return false;
      }
      shares := shares[id := Share(owner, p.copied, false, false)];
      return true;
    }
  }
}
