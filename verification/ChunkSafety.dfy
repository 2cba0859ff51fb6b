/** What every step of the chunked-upload protocol keeps, and what follows over whole runs. */
module ChunkSafety {
  import opened Util
  import opened Decimal
  import opened ChunkPersist
  import opened ChunkProtocol

  // ----- invariants of one upload -----

  /** A registry entry's books balance. */
  ghost predicate Accounts(u: Upload) {
    && u.received == u.sizes.Keys
    && (forall i :: i in u.sizes ==> i < u.facts.totalChunks && 0 < u.sizes[i] <= CHUNK_LIMIT)
    && u.receivedBytes == SumTo(u.sizes, u.facts.totalChunks) <= u.facts.totalSize
  }

  ghost predicate KnownUpload(l: Life, u: Upload) {
    Accounts(u) && Persist(u.facts) == l.manifest && Plausible(u.facts)
  }

  ghost predicate WriterOk(l: Life, w: Writer) {
    && w.idx < l.manifest.totalChunks
    && (w.Copying? || w.Copied? ==> |w.body| <= CHUNK_LIMIT)
    && (w.Copied? ==> w.body != [])
  }

  ghost predicate FinOk(l: Life, f: Finalizer) {
    && KnownUpload(l, f.upload)
    && (l.dir.Some? <==> f.stage.Took? || f.stage.Joining?)
    && (f.stage.Joining? || f.stage.Joined? || f.stage.Saved? ==>
        |f.upload.received| == f.upload.facts.totalChunks)
    && (f.stage.Joining? ==> f.stage.next <= f.upload.facts.totalChunks)
    && (f.quiet ==> l.writers == map[])
  }

  /** The registry part: holds in every interleaving, overlapping writers included. */
  ghost predicate Shape(l: Life) {
    && |l.fins| <= 1
    && (l.entry.Some? ==> l.fins == [] && l.dir.Some? && KnownUpload(l, l.entry.value))
    && (l.fins == [] && l.dir.Some? ==> l.entry.Some?)
    && (|l.fins| == 1 ==> FinOk(l, l.fins[0]))
    && (forall r :: r in l.writers ==> WriterOk(l, l.writers[r]))
  }

  lemma CommitAccounts(u: Upload, idx: nat, written: nat)
    requires Accounts(u) && idx < u.facts.totalChunks && 0 < written <= CHUNK_LIMIT
    ensures var c := Commit(u, idx, written);
      c.Some? ==> Accounts(c.value) && c.value.facts == u.facts && c.value.sizes == u.sizes[idx := written]
  {
    SumToUpdate(u.sizes, idx, written, u.facts.totalChunks);
  }

  lemma WriterKeepsShape(l: Life, r: nat, e: WriterStep)
    requires Shape(l) && WriterEnabled(l, r, e)
    ensures Shape(WriterNext(l, r, e))
  {
    if e.Enter? && l.entry.Some? { CommitAccounts(l.entry.value, l.writers[r].idx, |l.writers[r].body|); }
  }

  lemma FinKeepsShape(l: Life, st: Store, id: string, k: nat, e: FinStep)
    requires Shape(l) && FinEnabled(l, k, e)
    ensures Shape(FinNext(l, st, id, k, e).0)
  {
  }

  // ----- the contents of the temp directory, without overlapping writers -----

  ghost predicate Busy(l: Life, i: nat) {
    exists r :: r in l.writers && l.writers[r].idx == i && !l.writers[r].Opening?
  }

  /** The upload's entry, in the registry or in the hands of its finalizer. */
  ghost predicate Holds(l: Life, u: Upload) {
    l.entry == Some(u) || (|l.fins| == 1 && l.fins[0].upload == u)
  }

  ghost predicate OnDisk(l: Life, d: map<nat, Bytes>, i: nat) {
    && (i in d ==> i < l.manifest.totalChunks && |d[i]| <= CHUNK_LIMIT)
    && (!Busy(l, i) ==> (i in d <==> i in l.accepted && i !in l.lost) && (i in d ==> d[i] == l.accepted[i]))
  }

  /** A request that has written a body finds exactly that body in its file. */
  ghost predicate Bodies(l: Life) {
    l.dir.Some? ==>
      forall r :: r in l.writers && !l.writers[r].Opening? ==>
        l.writers[r].idx in l.dir.value && l.dir.value[l.writers[r].idx] == l.writers[r].body
  }

  ghost predicate Content(l: Life) {
    && l.lost <= l.accepted.Keys
    && (forall u :: Holds(l, u) ==> u.sizes == Sizes(l.accepted))
    && (l.dir.Some? ==>
        forall i :: OnDisk(l, l.dir.value, i))
    && Bodies(l)
  }

  lemma BusyElsewhere(l: Life, n: Life, r: nat, i: nat)
    requires l.writers - {r} == n.writers - {r}
    requires r in l.writers ==> l.writers[r].idx != i || l.writers[r].Opening?
    requires r in n.writers ==> n.writers[r].idx != i || n.writers[r].Opening?
    ensures Busy(n, i) == Busy(l, i)
  {
    if Busy(l, i) {
      var q :| q in l.writers && l.writers[q].idx == i && !l.writers[q].Opening?;
      assert q in n.writers - {r} && n.writers[q] == (n.writers - {r})[q] == (l.writers - {r})[q];
    }
    if Busy(n, i) {
      var q :| q in n.writers && n.writers[q].idx == i && !n.writers[q].Opening?;
      assert q in l.writers - {r} && l.writers[q] == (l.writers - {r})[q] == (n.writers - {r})[q];
    }
  }

  lemma WriterKeepsIndex(l: Life, r: nat, e: WriterStep, i: nat)
    requires Shape(l) && Content(l) && Exclusive(l) && WriterEnabled(l, r, e)
    ensures var n := WriterNext(l, r, e); n.dir.Some? ==> OnDisk(n, n.dir.value, i)
  {
    var n := WriterNext(l, r, e);
    assert l.writers - {r} == n.writers - {r};
    if l.dir.Some? { assert OnDisk(l, l.dir.value, i); }
    if r in n.writers && n.writers[r].idx == i && !n.writers[r].Opening? {
      assert Busy(n, i);
    } else if r in l.writers && l.writers[r].idx == i && !l.writers[r].Opening? {
      assert !Busy(n, i);
    } else {
      BusyElsewhere(l, n, r, i);
    }
  }

  lemma WriterKeepsContent(l: Life, r: nat, e: WriterStep)
    requires Shape(l) && Content(l) && Exclusive(l) && WriterEnabled(l, r, e)
    ensures Content(WriterNext(l, r, e))
  {
    var n := WriterNext(l, r, e);
    forall i | n.dir.Some? ensures OnDisk(n, n.dir.value, i) { WriterKeepsIndex(l, r, e, i); }
    forall u | Holds(n, u) ensures u.sizes == Sizes(n.accepted) {
      if e.Enter? && n.entry == Some(u) && n.entry != l.entry {
        assert Holds(l, l.entry.value);
      } else {
        assert Holds(l, u);
      }
    }
  }

  lemma FinKeepsContent(l: Life, st: Store, id: string, k: nat, e: FinStep)
    requires Shape(l) && Content(l) && FinEnabled(l, k, e)
    ensures Content(FinNext(l, st, id, k, e).0)
  {
    var n := FinNext(l, st, id, k, e).0;
    forall i ensures Busy(n, i) == Busy(l, i) {}
    forall i | n.dir.Some? ensures OnDisk(n, n.dir.value, i) { assert OnDisk(l, l.dir.value, i); }
    forall u | Holds(n, u) ensures Holds(l, u) {}
  }

  /** With no request writing, the directory is the received set less the lost indices, and
      its sizes are the registry's. */
  lemma IdleDirectory(l: Life, u: Upload)
    requires Shape(l) && Content(l) && l.dir.Some? && Holds(l, u)
    requires forall r :: r in l.writers ==> l.writers[r].Opening?
    ensures l.dir.value.Keys == u.received - l.lost
    ensures forall i :: i in l.dir.value ==> i < l.manifest.totalChunks && l.dir.value[i] == l.accepted[i]
    ensures forall i :: i in l.dir.value ==> |l.dir.value[i]| == u.sizes[i]
  {
    forall i: nat ensures (i in l.dir.value <==> i in u.received - l.lost)
      && (i in l.dir.value ==> i < l.manifest.totalChunks && l.dir.value[i] == l.accepted[i])
    {
      assert OnDisk(l, l.dir.value, i) && !Busy(l, i);
      assert u.received == Sizes(l.accepted).Keys == l.accepted.Keys;
    }
  }

  lemma RestartAccounts(u: Upload, d: map<nat, Bytes>, f: Facts)
    requires Accounts(u) && f.totalChunks == u.facts.totalChunks && f.totalSize == u.facts.totalSize
    requires forall i :: i in d ==> i in u.sizes && u.sizes[i] == |d[i]|
    ensures Accounts(FromChunks(f, d))
    ensures FromChunks(f, d).receivedBytes <= u.receivedBytes
  {
    SumToMonotone(Sizes(d), u.sizes, f.totalChunks);
  }

  lemma RestartKeeps(l: Life)
    requires Shape(l) && Content(l) && Quiescent(l)
    ensures Shape(Restarted(l)) && Content(Restarted(l))
  {
    var n := Restarted(l);
    if l.dir.Some? {
      assert l.fins == [];
      var u, d := l.entry.value, l.dir.value;
      IdleDirectory(l, u);
      RecallOfPersist(u.facts);
      RestartAccounts(u, d, Recall(l.manifest));
      assert Holds(l, u);
      forall i ensures OnDisk(n, d, i) { assert OnDisk(l, d, i) && !Busy(l, i) && !Busy(n, i); }
      assert Sizes(n.accepted) == Sizes(d);
      forall v | Holds(n, v) ensures v.sizes == Sizes(n.accepted) {}
    } else {
      forall v | Holds(n, v) ensures Holds(l, v) {}
    }
  }

  // ----- destination files and share rows -----

  /** The bodies for indices 0..n-1, one after another. */
  function Concat(m: map<nat, Bytes>, n: nat): Bytes {
    if n == 0 then [] else Concat(m, n - 1) + (if n - 1 in m then m[n - 1] else [])
  }

  ghost predicate Owned(st: Store, dest: string, id: string) {
    dest in st.files && st.files[dest].maker == Some(id)
  }

  function DestOf(s: Stage): Option<string> {
    if s.Took? || s.Failed? then None else Some(s.dest)
  }

  /** How many chunks a finalizer has appended. */
  function Joined(f: Finalizer): nat {
    if f.stage.Joining? then f.stage.next else f.upload.facts.totalChunks
  }

  /** The destination file of a finalizer is its own, has the counted size, and has a share row
      exactly once saved. */
  ghost predicate FileOk(id: string, l: Life, st: Store) {
    |l.fins| == 1 && DestOf(l.fins[0].stage).Some? ==>
      var f := l.fins[0];
      var dest := f.stage.dest;
      && Owned(st, dest, id)
      && (dest in st.rows <==> f.stage.Saved?)
      && (f.stage.Saved? ==> st.rows[dest] == f.stage.size)
      && |st.files[dest].data| == f.stage.size
  }

  /** The destination file of a quiet finalizer holds the accepted bodies in index order. */
  ghost predicate FileBodies(l: Life, st: Store) {
    |l.fins| == 1 && DestOf(l.fins[0].stage).Some? && l.fins[0].quiet ==>
      Data(st, l.fins[0].stage.dest) == Concat(l.accepted, Joined(l.fins[0]))
  }

  ghost predicate LifeInv(id: string, l: Life, st: Store) {
    Shape(l) && Content(l) && FileOk(id, l, st) && FileBodies(l, st)
  }

  /** Every row has its file, and every file a finalize call made is that call's destination. */
  ghost predicate StoreOk(s: Server) {
    && s.store.rows.Keys <= s.store.files.Keys
    && (forall name :: name in s.store.files && s.store.files[name].maker.Some? ==>
        s.store.files[name].maker.value in s.lives)
    && (forall id :: id in s.lives ==> MadeOne(s.lives[id], s.store, id))
  }

  /** id's finalize call made no file but its current destination. */
  ghost predicate MadeOne(l: Life, st: Store, id: string) {
    forall name :: Owned(st, name, id) ==> |l.fins| == 1 && DestOf(l.fins[0].stage) == Some(name)
  }

  /** A finalize step only touches files of its own making. */
  ghost predicate Spares(st: Store, n: Store, id: string) {
    && (forall name :: name in st.files && st.files[name].maker != Some(id) ==>
        name in n.files && n.files[name] == st.files[name])
    && (forall name :: name in n.files && n.files[name].maker != Some(id) ==>
        name in st.files && n.files[name] == st.files[name])
    && (forall name :: name in st.files && st.files[name].maker != Some(id) ==>
        (name in st.rows <==> name in n.rows) && (name in st.rows ==> n.rows[name] == st.rows[name]))
  }

  /** No second call can take an upload. */
  ghost predicate TakenOnce(l: Life) { |l.fins| <= 1 && (l.entry.Some? ==> l.fins == []) }

  lemma FinSpares(l: Life, st: Store, id: string, k: nat, e: FinStep)
    requires |l.fins| <= 1 && FileOk(id, l, st) && FinEnabled(l, k, e)
    ensures Spares(st, FinNext(l, st, id, k, e).1, id)
  {
  }

  lemma JoinReadsAccepted(l: Life, next: nat)
    requires Shape(l) && Content(l) && l.dir.Some? && |l.fins| == 1 && l.fins[0].quiet
    requires next in l.dir.value
    ensures next in l.accepted && l.dir.value[next] == l.accepted[next]
  {
    assert OnDisk(l, l.dir.value, next) && !Busy(l, next);
  }

  lemma FinKeepsFile(l: Life, st: Store, id: string, k: nat, e: FinStep)
    requires TakenOnce(l) && FileOk(id, l, st) && FinEnabled(l, k, e) && st.rows.Keys <= st.files.Keys
    ensures var (n, nst) := FinNext(l, st, id, k, e); FileOk(id, n, nst)
  {
  }

  lemma FinKeepsBodies(l: Life, st: Store, id: string, k: nat, e: FinStep)
    requires LifeInv(id, l, st) && FinEnabled(l, k, e)
    ensures var (n, nst) := FinNext(l, st, id, k, e); FileBodies(n, nst)
  {
    if e.Join? && e.ok && l.dir.Some? && l.fins[k].stage.next in l.dir.value && l.fins[0].quiet {
      JoinReadsAccepted(l, l.fins[k].stage.next);
    }
  }

  lemma BornOk(id: string, facts: Facts, st: Store)
    requires Plausible(facts)
    ensures LifeInv(id, Born(facts), st)
  {
    SumToEmpty(map[], facts.totalChunks);
    var l := Born(facts);
    forall i ensures OnDisk(l, map[], i) {}
  }
}
