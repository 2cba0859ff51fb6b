/** What the chunked-upload protocol promises over whole runs. */
module ChunkTheorems {
  import opened Util
  import opened ChunkPersist
  import opened ChunkProtocol
  import opened ChunkSafety
  import opened ChunkEveryRun
  import opened ChunkAlone

  // ----- accounting, in every interleaving -----

  ghost predicate Shapes(s: Server) { forall id :: id in s.lives ==> Shape(s.lives[id]) }

  lemma NextKeepsShapes(s: Server, e: Event)
    requires Shapes(s) && Enabled(s, e) && !e.Restart?
    ensures Shapes(Next(s, e))
  {
    match e
    case Init(id, facts) => BornOk(id, facts, s.store);
    case ByWriter(id, r, w) => WriterKeepsShape(s.lives[id], r, w);
    case ByFinalizer(id, k, f) => FinKeepsShape(s.lives[id], s.store, id, k, f);
    case Sweep(id, now) =>
    case Restart =>
  }

  /** In every interleaving of chunk requests, finalize calls and sweeps, overlapping requests
      for one index included, a registry entry's received set is the domain of its sizes,
      lies below the chunk count, and its byte counter is their sum, within the declared size. */
  lemma {:induction false} AccountingInEveryInterleaving(s: Server, es: seq<Event>, id: string)
    requires Shapes(s) && Allowed(s, es) && forall e :: e in es ==> !e.Restart?
    requires id in Run(s, es).lives && Run(s, es).lives[id].entry.Some?
    ensures var u := Run(s, es).lives[id].entry.value;
      && u.received == u.sizes.Keys
      && (forall i :: i in u.received ==> i < u.facts.totalChunks)
      && u.receivedBytes == SumTo(u.sizes, u.facts.totalChunks) <= u.facts.totalSize
    decreases |es|
  {
    if es != [] {
      NextKeepsShapes(s, es[0]);
      AccountingInEveryInterleaving(Next(s, es[0]), es[1..], id);
    }
  }

  // ----- the disk cap -----

  ghost function BusyBelow(l: Life, n: nat): set<nat> { set i: nat | i < n && Busy(l, i) }

  lemma BytesAt(l: Life, d: map<nat, Bytes>, u: Upload, i: nat)
    requires Shape(l) && Content(l) && l.dir == Some(d) && Holds(l, u)
    ensures At(Sizes(d), i) <= At(u.sizes, i) + if Busy(l, i) then CHUNK_LIMIT else 0
  {
    assert OnDisk(l, d, i);
    assert i in d && !Busy(l, i) ==> i in Sizes(l.accepted);
  }

  lemma {:induction false} ImageSize(m: map<nat, Writer>, s: set<nat>)
    requires forall i :: i in s ==> exists r :: r in m && m[r].idx == i
    ensures |s| <= |m|
    decreases |m|
  {
    if s != {} {
      var i :| i in s;
      var r :| r in m && m[r].idx == i;
      var rest := m - {r};
      forall j | j in s - {i} ensures exists q :: q in rest && rest[q].idx == j {
        var q :| q in m && m[q].idx == j;
        assert q in rest;
      }
      ImageSize(rest, s - {i});
      assert m.Keys == rest.Keys + {r};
    }
  }

  lemma DiskBytes(l: Life, d: map<nat, Bytes>, u: Upload, n: nat)
    requires Shape(l) && Content(l) && l.dir == Some(d) && Holds(l, u)
    ensures SumTo(Sizes(d), n) <= SumTo(u.sizes, n) + CHUNK_LIMIT * |BusyBelow(l, n)|
  {
    hide Shape, Content, Holds, Sizes, Busy;
    forall i: nat | i < n ensures At(Sizes(d), i) <= At(u.sizes, i) + if i in BusyBelow(l, n) then CHUNK_LIMIT else 0 {
      BytesAt(l, d, u, i);
    }
    SumToWithin(Sizes(d), u.sizes, BusyBelow(l, n), CHUNK_LIMIT, n);
  }

  lemma BusyIndices(l: Life, n: nat)
    ensures |BusyBelow(l, n)| <= |l.writers|
  {
    assert forall i :: i in BusyBelow(l, n) ==> exists r :: r in l.writers && l.writers[r].idx == i;
    ImageSize(l.writers, BusyBelow(l, n));
  }

  /** An upload's temp directory never holds more than the declared size plus one chunk limit
      per chunk request in flight. */
  lemma DiskCap(l: Life, d: map<nat, Bytes>)
    requires Shape(l) && Content(l) && l.dir == Some(d)
    ensures forall i :: i in d ==> i < l.manifest.totalChunks
    ensures SumTo(Sizes(d), l.manifest.totalChunks) <= l.manifest.totalSize + CHUNK_LIMIT * |l.writers|
  {
    var u := if l.entry.Some? then l.entry.value else l.fins[0].upload;
    assert Holds(l, u) && SumTo(u.sizes, l.manifest.totalChunks) <= l.manifest.totalSize;
    hide Shape, Content, Holds, Sizes, SumTo;
    forall i | i in d ensures i < l.manifest.totalChunks { DirIndex(l, d, i); }
    DiskBytes(l, d, u, l.manifest.totalChunks);
    BusyIndices(l, l.manifest.totalChunks);
  }

  lemma DirIndex(l: Life, d: map<nat, Bytes>, i: nat)
    requires Content(l) && l.dir == Some(d) && i in d
    ensures i < l.manifest.totalChunks
  {
    assert OnDisk(l, d, i);
  }

  /** So it is in every run in which no two requests for one chunk of this upload overlap. */
  lemma DiskCapOverRuns(s: Server, es: seq<Event>, id: string)
    requires Mine(s, id) && Allowed(s, es) && Alone(s, es, id)
    requires id in Run(s, es).lives && Run(s, es).lives[id].dir.Some?
    ensures var l := Run(s, es).lives[id];
      SumTo(Sizes(l.dir.value), l.manifest.totalChunks) <= l.manifest.totalSize + CHUNK_LIMIT * |l.writers|
  {
    RunKeepsMine(s, es, id);
    DiskCap(Run(s, es).lives[id], Run(s, es).lives[id].dir.value);
  }

  // ----- restart -----

  /** With no chunk write in flight, reading the directory back, in whatever order it is listed,
      gives the persisted facts and a sub-map of the in-memory entry: exactly the received
      indices whose file survives, with their sizes. It gives all of them iff no accepted
      index has since lost its file to a refused re-upload. */
  lemma RestartRefinesRegistry(l: Life, u: Upload, es: seq<DirEntry>)
    requires Shape(l) && Content(l) && l.entry == Some(u)
    requires forall r :: r in l.writers ==> l.writers[r].Opening?
    requires Lists(es, l.dir.value)
    ensures var v := Loaded(l.manifest, es);
      && v.facts == u.facts.(createdAt := u.facts.createdAt - u.facts.createdAt % SECOND)
      && v.received == u.received - l.lost
      && v.sizes.Keys == v.received && (forall i :: i in v.sizes ==> v.sizes[i] == u.sizes[i])
      && v.receivedBytes <= u.receivedBytes
      && (v == u.(facts := v.facts) <==> l.lost == {})
  {
    var d := l.dir.value;
    assert Holds(l, u);
    IdleDirectory(l, u);
    LoadedIsFromChunks(u.facts, d, es);
    RecallOfPersist(u.facts);
    RestartAccounts(u, d, Recall(l.manifest));
    assert l.lost <= u.received by { assert u.sizes == Sizes(l.accepted); }
    SameWhenNoneLost(u, FromChunks(Recall(l.manifest), d), l.lost);
  }

  lemma SameWhenNoneLost(u: Upload, v: Upload, lost: set<nat>)
    requires Accounts(u) && Accounts(v) && v.facts.totalChunks == u.facts.totalChunks
    requires lost <= u.received && v.received == u.received - lost
    requires forall i :: i in v.sizes ==> v.sizes[i] == u.sizes[i]
    ensures v == u.(facts := v.facts) <==> lost == {}
  {
    if lost == {} {
      assert v.sizes == u.sizes;
    } else {
      var i :| i in lost;
      assert i in u.received && i !in v.received;
    }
  }

  /** After a crash in mid-write it is not so: every chunk file being written is counted as
      received with the bytes written so far, accepted or not. These are the only ones: an index
      counted but never accepted has a request in flight. */
  lemma CrashCountsPartialChunks(l: Life, u: Upload, es: seq<DirEntry>)
    requires Shape(l) && Content(l) && l.entry == Some(u) && Lists(es, l.dir.value)
    ensures var v := Loaded(l.manifest, es);
      && (forall r :: r in l.writers && !l.writers[r].Opening? ==>
          var w := l.writers[r];
          w.idx in v.received && At(v.sizes, w.idx) == |w.body|)
      && (forall i :: i in v.received - u.received ==> Busy(l, i))
      && (forall i :: i in v.received && At(v.sizes, i) != At(u.sizes, i) ==> Busy(l, i))
  {
    var d := l.dir.value;
    var v := Loaded(l.manifest, es);
    forall i | i in d ensures i < u.facts.totalChunks { ChunkIsKnown(l, u, d, i); }
    LoadedIsFromChunks(u.facts, d, es);
    assert l.manifest == Persist(u.facts) && v.received == d.Keys && v.sizes == Sizes(d) && Bodies(l);
    hide Loaded, Shape, Content, Lists, Busy;
    forall i | i in d && !Busy(l, i) ensures i in u.received && At(u.sizes, i) == |d[i]| { ChunkIsKnown(l, u, d, i); }
  }

  lemma ChunkIsKnown(l: Life, u: Upload, d: map<nat, Bytes>, i: nat)
    requires Shape(l) && Content(l) && l.entry == Some(u) && l.dir == Some(d) && i in d
    ensures i < u.facts.totalChunks
    ensures !Busy(l, i) ==> i in u.received && At(u.sizes, i) == |d[i]|
  {
    assert OnDisk(l, d, i) && Holds(l, u);
    assert u.sizes == Sizes(l.accepted);
  }

  /** The file of an index has the size the entry says, or neither is there. */
  ghost predicate FileAgrees(u: Upload, d: map<nat, Bytes>, i: nat) {
    (i in d <==> i in u.received) && (i in d ==> At(u.sizes, i) == |d[i]|)
  }

  /** A request in flight that has by now written as many bytes as were accepted for its chunk before. */
  ghost predicate SameSoFar(u: Upload, w: Writer) {
    !w.Opening? ==> w.idx in u.received && At(u.sizes, w.idx) == |w.body|
  }

  /** Exactly when a crash loses and invents nothing: every request in flight that has created its
      file is a repetition of an accepted chunk and has written just as many bytes, and no other
      accepted chunk has lost its file. */
  lemma CrashIsHarmlessIff(l: Life, u: Upload, es: seq<DirEntry>)
    requires Shape(l) && Content(l) && l.entry == Some(u) && Lists(es, l.dir.value)
    ensures var v := Loaded(l.manifest, es);
      v == u.(facts := v.facts) <==>
        && (forall r :: r in l.writers ==> SameSoFar(u, l.writers[r]))
        && (forall i :: i in l.lost ==> Busy(l, i))
  {
    var d := l.dir.value;
    forall i | i in d ensures i < u.facts.totalChunks { ChunkIsKnown(l, u, d, i); }
    LoadedIsFromChunks(u.facts, d, es);
    RecallOfPersist(u.facts);
    DirectoryAgreesIff(u, d, Recall(l.manifest));
    forall i | !Busy(l, i) ensures FileAgrees(u, d, i) <==> i !in l.lost { IdleIndex(l, u, d, i); }
    forall r | r in l.writers && !l.writers[r].Opening?
      ensures Busy(l, l.writers[r].idx) && (FileAgrees(u, d, l.writers[r].idx) <==> SameSoFar(u, l.writers[r]))
    {
      assert Bodies(l);
    }
    hide Shape, Content, Loaded, Lists;
  }

  lemma IdleIndex(l: Life, u: Upload, d: map<nat, Bytes>, i: nat)
    requires Shape(l) && Content(l) && l.entry == Some(u) && l.dir == Some(d) && !Busy(l, i)
    ensures FileAgrees(u, d, i) <==> i !in l.lost
  {
    assert OnDisk(l, d, i) && Holds(l, u);
    assert u.received == Sizes(l.accepted).Keys == l.accepted.Keys && u.sizes == Sizes(l.accepted);
  }

  lemma DirectoryAgreesIff(u: Upload, d: map<nat, Bytes>, f: Facts)
    requires Accounts(u) && f.totalChunks == u.facts.totalChunks
    ensures FromChunks(f, d) == u.(facts := f) <==> forall i :: FileAgrees(u, d, i)
  {
    if forall i :: FileAgrees(u, d, i) {
      forall i ensures i in d <==> i in u.received { assert FileAgrees(u, d, i); }
      forall i | i in d ensures u.sizes[i] == |d[i]| { assert FileAgrees(u, d, i); }
      assert u.sizes == Sizes(d) && u.received == d.Keys;
    } else {
      var i :| !FileAgrees(u, d, i);
      assert i in u.received <==> i in u.sizes;
      assert i in Sizes(d) <==> i in d;
    }
  }

  /** A fresh upload whose owner has just sent one byte of the first chunk. */
  function FirstByte(facts: Facts, b: Byte): (l: Life)
    requires Plausible(facts)
    ensures l.dir.Some?
  {
    var opening := WriterNext(Born(facts), 0, Start(facts.userId, 0));
    WriterNext(WriterNext(opening, 0, Open), 0, Append([b]))
  }

  /** Such a crash: the first byte of the first chunk is on disk, nothing has been accepted, and the
      restart counts the chunk as received. */
  lemma MidWriteCrash(facts: Facts, b: Byte, es: seq<DirEntry>)
    requires Plausible(facts)
    requires Lists(es, FirstByte(facts, b).dir.value)
    ensures var l := FirstByte(facts, b);
      && l.entry == Some(Fresh(facts))
      && Loaded(l.manifest, es).received == {0} && Loaded(l.manifest, es).sizes == map[0 := 1]
  {
    var l1 := WriterNext(Born(facts), 0, Start(facts.userId, 0));
    var l2 := WriterNext(l1, 0, Open);
    var l := FirstByte(facts, b);
    var none: Bytes := [];
    var d: map<nat, Bytes> := map[0 := [b]];
    assert none + [b] == [b];
    var start: map<nat, Bytes> := map[];
    var created: map<nat, Bytes> := start[0 := none];
    assert l2.dir == Some(created) && l2.writers[0] == Copying(0, none);
    assert created[0 := [b]] == d;
    LoadedIsFromChunks(facts, d, es);
    assert Sizes(d) == map[0 := 1];
  }

  // ----- the client gets its file back -----

  function Flatten(pieces: seq<Bytes>): Bytes {
    if pieces == [] then [] else Flatten(pieces[..|pieces| - 1]) + pieces[|pieces| - 1]
  }

  /** The client behind upload id only ever sends pieces[i] as chunk i: whatever request body
      the server reads to its end is that piece (or empty, and then refused). */
  ghost predicate SendsPiece(s: Server, e: Event, id: string, pieces: seq<Bytes>)
    requires Enabled(s, e)
  {
    e.ByWriter? && e.id == id && e.w.EndCopy? && e.w.ok ==>
      var w := s.lives[id].writers[e.req];
      w.body == [] || (w.idx < |pieces| && w.body == pieces[w.idx])
  }

  ghost predicate Sends(s: Server, es: seq<Event>, id: string, pieces: seq<Bytes>)
    requires Allowed(s, es)
    decreases |es|
  {
    es == [] || (SendsPiece(s, es[0], id, pieces) && Sends(Next(s, es[0]), es[1..], id, pieces))
  }

  ghost predicate HoldsPieces(l: Life, pieces: seq<Bytes>) {
    && (forall i :: i in l.accepted ==> i < |pieces| && l.accepted[i] == pieces[i])
    && (forall r :: r in l.writers && l.writers[r].Copied? ==>
        l.writers[r].idx < |pieces| && l.writers[r].body == pieces[l.writers[r].idx])
  }

  lemma {:induction false} RunKeepsPieces(s: Server, es: seq<Event>, id: string, pieces: seq<Bytes>)
    requires Allowed(s, es) && Sends(s, es, id, pieces)
    requires id in s.lives ==> HoldsPieces(s.lives[id], pieces)
    ensures id in Run(s, es).lives ==> HoldsPieces(Run(s, es).lives[id], pieces)
    decreases |es|
  {
    if es != [] {
      RunKeepsPieces(Next(s, es[0]), es[1..], id, pieces);
    }
  }

  lemma {:induction false} ConcatOfPieces(m: map<nat, Bytes>, pieces: seq<Bytes>, n: nat)
    requires n <= |pieces| && forall i: nat :: i < n ==> i in m && m[i] == pieces[i]
    ensures Concat(m, n) == Flatten(pieces[..n])
  {
    if n != 0 {
      ConcatOfPieces(m, pieces, n - 1);
      assert pieces[..n][..n - 1] == pieces[..n - 1];
    }
  }

  /** A saved file of a finalize call that found no chunk request in flight is the accepted
      bodies in index order, whatever order, retries and restarts they arrived through. */
  lemma AssemblyIsAcceptedBodies(l: Life, st: Store, id: string)
    requires LifeInv(id, l, st) && l.fins != [] && l.fins[0].quiet && l.fins[0].stage.Saved?
    ensures forall i: nat :: i < l.manifest.totalChunks ==> i in l.accepted
    ensures Data(st, l.fins[0].stage.dest) == Concat(l.accepted, l.manifest.totalChunks)
  {
    var u := l.fins[0].upload;
    FullCount(u.received, u.facts.totalChunks);
    assert Holds(l, u) && u.received == Sizes(l.accepted).Keys == l.accepted.Keys;
  }

  /** A client that cut a file into pieces and sends piece i as chunk i, in any order, with any
      retries one after another, any faults and restarts, gets the file back byte for byte if its
      finalize call saves a share, whatever requests and restarts befall other uploads. */
  lemma ClientGetsFileBack(s: Server, es: seq<Event>, id: string, pieces: seq<Bytes>, file: Bytes)
    requires Sound(s) && id !in s.lives && file == Flatten(pieces)
    requires Allowed(s, es) && Alone(s, es, id) && Sends(s, es, id, pieces)
    requires id in Run(s, es).lives
    requires var l := Run(s, es).lives[id];
      l.manifest.totalChunks == |pieces| && l.fins != [] && l.fins[0].quiet && l.fins[0].stage.Saved?
    ensures var n := Run(s, es);
      var dest := n.lives[id].fins[0].stage.dest;
      && dest in n.store.files && n.store.files[dest].data == file
      && dest in n.store.rows && n.store.rows[dest] == |file|
  {
    RunKeepsMine(s, es, id);
    RunKeepsPieces(s, es, id, pieces);
    var n := Run(s, es);
    AssemblyIsAcceptedBodies(n.lives[id], n.store, id);
    ConcatOfPieces(n.lives[id].accepted, pieces, |pieces|);
    assert pieces[..|pieces|] == pieces;
  }

  /** One chunk is accepted and on disk, and a repetition of it is about to open its file. */
  ghost predicate RetryPending(l: Life, u: Upload, b: Byte) {
    && l.entry == Some(u) && l.fins == [] && u.facts.totalChunks == 1 && u.received == {0}
    && l.dir == Some(map[0 := [b]]) && l.accepted == map[0 := [b]] && l.writers == map[1 := Opening(0)]
  }

  /** A finalize call that is not quiet may save something else: if the repetition opens its file once
      the call has taken the upload, the call saves an empty file for a chunk accepted with a byte. */
  lemma FinalizeDuringRetryLosesBytes(l: Life, st: Store, id: string, u: Upload, b: Byte, dest: string)
    returns (taken: Life, truncated: Life, end: Life, after: Store)
    requires RetryPending(l, u, b) && dest !in st.files
    ensures taken == FinNext(l, st, id, 0, Take(u.facts.userId)).0 && WriterEnabled(taken, 1, Open)
    ensures truncated == WriterNext(taken, 1, Open)
    ensures FinallySaves(truncated, st, id, dest, end, after)
    ensures Data(after, dest) == [] && after.rows[dest] == 0 && end.accepted == map[0 := [b]]
  {
    var empty: Bytes := [];
    var full: map<nat, Bytes> := map[0 := [b]];
    taken := FinNext(l, st, id, 0, Take(u.facts.userId)).0;
    assert 1 in l.writers;
    assert l.fins + [Finalizer(u, false, Took)] == [Finalizer(u, false, Took)];
    assert taken.fins == [Finalizer(u, false, Took)];
    truncated := WriterNext(taken, 1, Open);
    assert full[0 := empty] == map[0 := empty] && truncated.dir == Some(map[0 := empty]);
    var (l1, st1) := FinNext(truncated, st, id, 0, Create(dest, true));
    assert l1.fins == [Finalizer(u, false, Joining(dest, 0, 0))];
    var (l2, st2) := FinNext(l1, st1, id, 0, Join(true));
    assert empty + empty == empty;
    assert l2.fins == [Finalizer(u, false, Joining(dest, 1, 0))] && Data(st2, dest) == empty;
    var (l3, st3) := FinNext(l2, st2, id, 0, EndJoin);
    assert l3.fins == [Finalizer(u, false, Joined(dest, 0))];
    end, after := FinNext(l3, st3, id, 0, Save).0, FinNext(l3, st3, id, 0, Save).1;
  }

  /** The rest of a finalize call for one chunk: create, append, save. */
  ghost predicate FinallySaves(l: Life, st: Store, id: string, dest: string, end: Life, after: Store) {
    FinEnabled(l, 0, Create(dest, true)) &&
    var (l1, st1) := FinNext(l, st, id, 0, Create(dest, true));
    FinEnabled(l1, 0, Join(true)) &&
    var (l2, st2) := FinNext(l1, st1, id, 0, Join(true));
    FinEnabled(l2, 0, EndJoin) &&
    var (l3, st3) := FinNext(l2, st2, id, 0, EndJoin);
    FinEnabled(l3, 0, Save) && (end, after) == FinNext(l3, st3, id, 0, Save)
  }

  lemma {:induction false} FlattenSize(pieces: seq<Bytes>, m: map<nat, nat>)
    requires forall i: nat :: i < |pieces| ==> i in m && m[i] == |pieces[i]|
    ensures SumTo(m, |pieces|) == |Flatten(pieces)|
  {
    if pieces != [] { FlattenSize(pieces[..|pieces| - 1], m); }
  }

  /** Such a client is never refused for size: a whole piece always fits what was declared,
      first send or retry. */
  lemma PieceAlwaysFits(l: Life, u: Upload, pieces: seq<Bytes>, idx: nat)
    requires Shape(l) && Content(l) && l.entry == Some(u) && HoldsPieces(l, pieces)
    requires u.facts.totalChunks == |pieces| && u.facts.totalSize == |Flatten(pieces)| && idx < |pieces|
    ensures Commit(u, idx, |pieces[idx]|).Some?
  {
    var all := map i: nat | i < |pieces| :: |pieces[i]|;
    var after := u.sizes[idx := |pieces[idx]|];
    assert Holds(l, u);
    forall i: nat | i < |pieces| ensures At(after, i) <= At(all, i) {
      assert i in u.sizes ==> i in Sizes(l.accepted);
    }
    SumToMonotone(after, all, |pieces|);
    SumToUpdate(u.sizes, idx, |pieces[idx]|, |pieces|);
    FlattenSize(pieces, all);
  }
}
