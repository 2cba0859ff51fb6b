/** The on-disk form of a chunked upload and the restart path that reads it back
    (internal/handlers/chunk_persist.go). */
module ChunkPersist {
  import opened Util
  import opened Decimal

  const MANIFEST: string := "manifest.json"
  const CHUNK_PREFIX: string := "chunk_"

  /** The facts fixed when an upload is started; createdAt is in nanoseconds. */
  datatype Facts = Facts(fileName: string, totalSize: nat, totalChunks: nat, userId: string, createdAt: int)

  /** A registry entry. */
  datatype Upload = Upload(facts: Facts, received: set<nat>, sizes: map<nat, nat>, receivedBytes: int)

  datatype Manifest =
    Manifest(fileName: string, totalSize: nat, totalChunks: nat, userId: string, createdAtUnix: int)

  datatype DirEntry = DirEntry(name: string, isDir: bool, data: Bytes)

  predicate Plausible(f: Facts) { 0 < f.totalSize && 0 < f.totalChunks <= MAX_INT64 }

  function Persist(f: Facts): Manifest {
    Manifest(f.fileName, f.totalSize, f.totalChunks, f.userId, f.createdAt / SECOND)
  }

  function Recall(m: Manifest): Facts {
    Facts(m.fileName, m.totalSize, m.totalChunks, m.userId, m.createdAtUnix * SECOND)
  }

  /** What a restart remembers of the facts: everything, the creation time to the second. */
  lemma RecallOfPersist(f: Facts)
    ensures Recall(Persist(f)) == f.(createdAt := f.createdAt - f.createdAt % SECOND)
    ensures Recall(Persist(f)).createdAt <= f.createdAt < Recall(Persist(f)).createdAt + SECOND
    ensures Persist(Recall(Persist(f))) == Persist(f)
  {
  }

  function Fresh(f: Facts): Upload { Upload(f, {}, map[], 0) }

  function Sizes(d: map<nat, Bytes>): map<nat, nat> { map i | i in d :: |d[i]| }

  /** The upload that a directory holding exactly the chunks d stands for. */
  function FromChunks(f: Facts, d: map<nat, Bytes>): Upload {
    Upload(f, d.Keys, Sizes(d), SumTo(Sizes(d), f.totalChunks))
  }

  function ChunkName(i: nat): string { CHUNK_PREFIX + Itoa(i) }

  /** The index a file name stands for, if it is one the restore loop accepts. */
  function ChunkIndex(name: string, total: nat): Option<nat> {
    if !(CHUNK_PREFIX <= name) then None
    else
      var idx := Atoi(name[|CHUNK_PREFIX|..]);
      if idx.None? || idx.value < 0 || idx.value >= total then None else Some(idx.value)
  }

  lemma ChunkNameRoundTrip(i: nat, total: nat)
    requires i < total <= MAX_INT64
    ensures ChunkIndex(ChunkName(i), total) == Some(i)
  {
    AtoiOfItoa(i);
    assert ChunkName(i)[|CHUNK_PREFIX|..] == Itoa(i);
  }

  function AddEntry(u: Upload, e: DirEntry): Upload {
    var idx := ChunkIndex(e.name, u.facts.totalChunks);
    if e.isDir || idx.None? then u
    else Upload(u.facts, u.received + {idx.value}, u.sizes[idx.value := |e.data|], u.receivedBytes + |e.data|)
  }

  function Loaded(m: Manifest, es: seq<DirEntry>): Upload {
    if es == [] then Fresh(Recall(m)) else AddEntry(Loaded(m, es[..|es| - 1]), es[|es| - 1])
  }

  /** Reads one upload back: no manifest means no upload. */
  method LoadUploadFromDisk(manifest: Option<Manifest>, files: seq<DirEntry>) returns (r: Option<Upload>)
    ensures r == if manifest.None? then None else Some(Loaded(manifest.value, files))
  {
    if manifest.None? { return None; }
    var m := manifest.value;
    var received: set<nat>, sizes: map<nat, nat>, bytes := {}, map[], 0;
    for k := 0 to |files|
      invariant Upload(Recall(m), received, sizes, bytes) == Loaded(m, files[..k])
    {
      assert files[..k + 1][..k] == files[..k];
      var f := files[k];
      if f.isDir || !(CHUNK_PREFIX <= f.name) { continue; }
      var idx := Atoi(f.name[|CHUNK_PREFIX|..]);
      if idx.None? || idx.value < 0 || idx.value >= m.totalChunks { continue; }
      received := received + {idx.value};
      sizes := sizes[idx.value := |f.data|];
      bytes := bytes + |f.data|;
    }
    assert files[..|files|] == files;
    return Some(Upload(Recall(m), received, sizes, bytes));
  }

  /** Directories, names without the prefix and indices out of range are passed over. */
  lemma JunkIsIgnored(m: Manifest, es: seq<DirEntry>, e: DirEntry)
    requires e.isDir || !("chunk_" <= e.name) || Atoi(e.name[6..]).None? ||
      !(0 <= Atoi(e.name[6..]).value < m.totalChunks)
    ensures Loaded(m, es + [e]) == Loaded(m, es)
  {
    assert (es + [e])[..|es|] == es;
    LoadedFacts(m, es);
  }

  lemma {:induction false} LoadedFacts(m: Manifest, es: seq<DirEntry>)
    ensures Loaded(m, es).facts == Recall(m)
  {
    if es != [] { LoadedFacts(m, es[..|es| - 1]); }
  }

  ghost predicate OurFile(e: DirEntry, d: map<nat, Bytes>) {
    !e.isDir && (e.name == MANIFEST || exists i :: i in d && e == DirEntry(ChunkName(i), false, d[i]))
  }

  /** es lists, in some order, files this program wrote into a directory with chunks d. */
  ghost predicate Writes(es: seq<DirEntry>, d: map<nat, Bytes>) {
    && (forall j, k :: 0 <= j < k < |es| ==> es[j].name != es[k].name)
    && (forall j :: 0 <= j < |es| ==> OurFile(es[j], d))
  }

  ghost predicate Has(es: seq<DirEntry>, d: map<nat, Bytes>, i: nat) {
    i in d && DirEntry(ChunkName(i), false, d[i]) in es
  }

  ghost predicate Lists(es: seq<DirEntry>, d: map<nat, Bytes>) {
    Writes(es, d) && forall i :: i in d ==> Has(es, d, i)
  }

  lemma HasAppended(es: seq<DirEntry>, e: DirEntry, d: map<nat, Bytes>, j: nat, total: nat)
    requires total <= MAX_INT64 && forall i :: i in d ==> i < total
    requires Writes(es + [e], d)
    ensures Has(es + [e], d, j) <==> Has(es, d, j) || (j in d && ChunkIndex(e.name, total) == Some(j))
    ensures Has(es, d, j) ==> ChunkIndex(e.name, total) != Some(j)
  {
    var all := es + [e];
    assert all[|es|] == e && OurFile(e, d);
    if e.name == MANIFEST {
      if j in d { ChunkNameRoundTrip(j, total); }
    } else {
      var i :| i in d && e == DirEntry(ChunkName(i), false, d[i]);
      ChunkNameRoundTrip(i, total);
      if j in d { ChunkNameRoundTrip(j, total); }
      assert forall k :: 0 <= k < |es| ==> all[k] == es[k] && es[k].name != e.name;
    }
  }

  /** What the restore loop has collected after the entries es. */
  ghost predicate Collected(u: Upload, es: seq<DirEntry>, d: map<nat, Bytes>) {
    && u.received == u.sizes.Keys
    && (forall i :: i in u.sizes <==> Has(es, d, i))
    && (forall i :: i in u.sizes ==> u.sizes[i] == |d[i]|)
    && u.receivedBytes == SumTo(u.sizes, u.facts.totalChunks)
  }

  lemma CollectStep(u: Upload, es: seq<DirEntry>, e: DirEntry, d: map<nat, Bytes>)
    requires Collected(u, es, d) && !e.isDir
    requires forall j: nat :: Has(es + [e], d, j) <==>
      Has(es, d, j) || (j in d && ChunkIndex(e.name, u.facts.totalChunks) == Some(j))
    requires forall j: nat :: Has(es, d, j) ==> ChunkIndex(e.name, u.facts.totalChunks) != Some(j)
    requires var idx := ChunkIndex(e.name, u.facts.totalChunks);
      idx.Some? ==> idx.value in d && e.data == d[idx.value]
    ensures Collected(AddEntry(u, e), es + [e], d)
  {
    var idx := ChunkIndex(e.name, u.facts.totalChunks);
    if idx.Some? { SumToUpdate(u.sizes, idx.value, |e.data|, u.facts.totalChunks); }
  }

  lemma {:induction false} LoadedCollects(m: Manifest, d: map<nat, Bytes>, es: seq<DirEntry>)
    requires m.totalChunks <= MAX_INT64 && forall i :: i in d ==> i < m.totalChunks
    requires Writes(es, d)
    ensures Loaded(m, es).facts == Recall(m) && Collected(Loaded(m, es), es, d)
  {
    if es == [] {
      SumToEmpty(map[], m.totalChunks);
    } else {
      var front, e := es[..|es| - 1], es[|es| - 1];
      assert es == front + [e];
      assert Writes(front, d) by { assert forall j :: 0 <= j < |front| ==> front[j] == es[j]; }
      LoadedCollects(m, d, front);
      forall j { HasAppended(front, e, d, j, m.totalChunks); }
      LastData(m, d, es);
      CollectStep(Loaded(m, front), front, e, d);
    }
  }

  lemma LastData(m: Manifest, d: map<nat, Bytes>, es: seq<DirEntry>)
    requires m.totalChunks <= MAX_INT64 && forall i :: i in d ==> i < m.totalChunks
    requires es != [] && Writes(es, d)
    ensures var e := es[|es| - 1]; var idx := ChunkIndex(e.name, m.totalChunks);
      !e.isDir && (idx.Some? ==> idx.value in d && e.data == d[idx.value])
  {
    var e := es[|es| - 1];
    assert OurFile(e, d);
    if e.name != MANIFEST {
      var i :| i in d && e == DirEntry(ChunkName(i), false, d[i]);
      ChunkNameRoundTrip(i, m.totalChunks);
    }
  }

  /** Restart reads back exactly the chunks on disk, whatever order the directory lists them in. */
  lemma LoadedIsFromChunks(f: Facts, d: map<nat, Bytes>, es: seq<DirEntry>)
    requires f.totalChunks <= MAX_INT64 && forall i :: i in d ==> i < f.totalChunks
    requires Lists(es, d)
    ensures Loaded(Persist(f), es) == FromChunks(Recall(Persist(f)), d)
  {
    LoadedCollects(Persist(f), d, es);
    assert Loaded(Persist(f), es).sizes == Sizes(d);
  }

  // ----- the resume-status listing -----

  ghost predicate Sorted(s: seq<int>) { forall i, j :: 0 <= i < j < |s| ==> s[i] <= s[j] }

  ghost predicate Permutes(s: seq<int>, t: seq<int>) { multiset(s) == multiset(t) }

  /** The first i + 1 elements are in order but for the one being moved down, now at j. */
  ghost predicate SortedBut(s: seq<int>, i: nat, j: nat)
    requires i < |s|
  {
    forall p, q :: 0 <= p < q <= i && q != j ==> s[p] <= s[q]
  }

  function Swapped(s: seq<int>, j: nat): seq<int>
    requires 0 < j < |s|
  {
    s[j - 1 := s[j]][j := s[j - 1]]
  }

  /** Insertion sort in place. */
  method SortInts(a: array<int>)
    modifies a
    ensures Sorted(a[..]) && Permutes(a[..], old(a[..]))
  {
    assert Permutes(a[..], a[..]) && (a.Length > 0 ==> Sorted(a[..1])) && (a.Length == 0 ==> Sorted(a[..]));
    hide Permutes, Sorted, SortedBut, Swapped;
    var i := 1;
    while i < a.Length
      invariant 1 <= i && (i <= a.Length || a.Length == 0)
      invariant a.Length > 0 ==> Sorted(a[..i])
      invariant Permutes(a[..], old(a[..]))
    {
      var j := i;
      NextMoves(a[..], i);
      while j > 0 && a[j - 1] > a[j]
        invariant 0 <= j <= i < a.Length && SortedBut(a[..], i, j)
        invariant Permutes(a[..], old(a[..]))
      {
        ghost var s := a[..];
        SwappedIs(s, j);
        a[j - 1], a[j] := a[j], a[j - 1];
        assert a[..] == Swapped(s, j);
        j := j - 1;
      }
      MovedDown(a[..], i, j);
      i := i + 1;
    }
    assert a.Length > 0 ==> a[..i] == a[..];
  }

  lemma NextMoves(s: seq<int>, i: nat)
    requires i < |s| && Sorted(s[..i])
    ensures SortedBut(s, i, i)
  {
    assert forall p :: 0 <= p < i ==> s[p] == s[..i][p];
  }

  lemma SwappedIs(s: seq<int>, j: nat)
    requires 0 < j < |s|
    ensures Swapped(s, j) == s[j - 1 := s[j]][j := s[j - 1]]
  {
  }

  lemma MovedDown(s: seq<int>, i: nat, j: nat)
    requires j <= i < |s| && SortedBut(s, i, j) && (j > 0 ==> s[j - 1] <= s[j])
    ensures Sorted(s[..i + 1])
  {
    forall p | 0 <= p < j ensures s[p] <= s[j] { assert p < j - 1 ==> s[p] <= s[j - 1]; }
  }

  /** The indices already on disk, each once, in increasing order. */
  method ReceivedIndices(u: Upload) returns (r: seq<int>)
    ensures forall i, j :: 0 <= i < j < |r| ==> r[i] < r[j]
    ensures forall x :: x in r <==> x in u.received
  {
    var todo, found: seq<int> := u.received, [];
    while todo != {}
      invariant todo <= u.received && forall i :: i in found <==> i in u.received - todo
      invariant multiset(found) == multiset(u.received - todo)
    {
      var i :| i in todo;
      todo := todo - {i};
      found := found + [i];
      assert u.received - todo == u.received - (todo + {i}) + {i};
    }
    var out := new int[|found|](i requires 0 <= i < |found| => found[i]);
    assert out[..] == found;
    SortInts(out);
    r := out[..];
    forall i, j | 0 <= i < j < |r| ensures r[i] < r[j] {
      if r[i] == r[j] { TwiceInMultiset(r, i, j); }
    }
    forall x ensures x in r <==> x in u.received { assert x in multiset(r) <==> x in multiset(found); }
  }

  lemma TwiceInMultiset(s: seq<int>, i: nat, j: nat)
    requires i < j < |s| && s[i] == s[j]
    ensures multiset(s)[s[i]] >= 2
  {
    assert s == s[..j] + [s[j]] + s[j + 1..];
    assert s[i] in s[..j];
  }
}
