/** What holds of chunked uploads in every run, several requests for one chunk at once, sweeps and
    restarts in the middle of chunk writes included: the finalize call is a one-shot transaction.
    Nothing here is about what the chunks contain. */
module ChunkEveryRun {
  import opened Util
  import opened ChunkPersist
  import opened ChunkProtocol
  import opened ChunkSafety

  ghost predicate Indexed(l: Life, u: Upload) {
    u.facts.totalChunks == l.manifest.totalChunks && forall i :: i in u.received ==> i < u.facts.totalChunks
  }

  /** Entry, temp directory and finalize call of an upload fit together. */
  ghost predicate Skeleton(l: Life) {
    && TakenOnce(l)
    && (l.entry.Some? ==> l.dir.Some? && Indexed(l, l.entry.value))
    && (l.fins == [] && l.dir.Some? ==> l.entry.Some?)
    && (|l.fins| == 1 ==> SoundFin(l, l.fins[0]))
    && (forall r :: r in l.writers ==> l.writers[r].idx < l.manifest.totalChunks)
    && (l.dir.Some? ==> forall i :: i in l.dir.value ==> i < l.manifest.totalChunks)
  }

  ghost predicate SoundFin(l: Life, f: Finalizer) {
    && Indexed(l, f.upload)
    && (l.dir.Some? <==> f.stage.Took? || f.stage.Joining?)
    && (DestOf(f.stage).Some? ==> |f.upload.received| == f.upload.facts.totalChunks)
  }

  ghost predicate Sound(s: Server) {
    && (forall id :: id in s.lives ==> Skeleton(s.lives[id]) && FileOk(id, s.lives[id], s.store))
    && StoreOk(s)
  }

  /** A server that has no upload under way yet, whatever files other paths have stored. */
  lemma StartIsSound(st: Store)
    requires st.rows.Keys <= st.files.Keys && forall name :: name in st.files ==> st.files[name].maker.None?
    ensures Sound(Server(map[], st))
  {
  }

  lemma WriterKeepsSkeleton(l: Life, r: nat, e: WriterStep)
    requires Skeleton(l) && WriterEnabled(l, r, e)
    ensures Skeleton(WriterNext(l, r, e))
  {
  }

  lemma FinKeepsSkeleton(l: Life, st: Store, id: string, k: nat, e: FinStep)
    requires Skeleton(l) && FinEnabled(l, k, e)
    ensures Skeleton(FinNext(l, st, id, k, e).0)
  {
  }

  /** Whatever happens anywhere, an upload keeps its skeleton. */
  lemma StepKeepsSkeleton(s: Server, e: Event, id: string)
    requires Enabled(s, e) && id in s.lives && Skeleton(s.lives[id])
    ensures id in Next(s, e).lives && Skeleton(Next(s, e).lives[id])
  {
    match e
    case Init(_, _) =>
    case ByWriter(o, r, w) => if o == id { WriterKeepsSkeleton(s.lives[id], r, w); }
    case ByFinalizer(o, k, f) => if o == id { FinKeepsSkeleton(s.lives[id], s.store, id, k, f); }
    case Sweep(_, _) =>
    case Restart => RestartKeepsSkeleton(s.lives[id]);
  }

  lemma RestartKeepsSkeleton(l: Life)
    requires Skeleton(l) && AllDone(l)
    ensures Skeleton(Restarted(l))
  {
    if l.dir.Some? { assert l.fins == [] && Recall(l.manifest).totalChunks == l.manifest.totalChunks; }
  }

  // ----- a finalize call takes an upload once -----

  /** n is l later on: its one finalize call is the same, and the entry is still gone. */
  ghost predicate StillTaken(l: Life, n: Life)
    requires l.fins != []
  {
    && |n.fins| == 1 && n.entry.None?
    && n.fins[0].upload == l.fins[0].upload && n.fins[0].quiet == l.fins[0].quiet
    && n.accepted == l.accepted
  }

  /** Once a finalize call has taken an upload no later call takes it, and nothing, neither a
      chunk request in flight nor a restart, brings the registry entry back. */
  lemma {:induction false} FinalizeTakesOnce(s: Server, es: seq<Event>, id: string)
    requires Allowed(s, es) && id in s.lives && Skeleton(s.lives[id]) && s.lives[id].fins != []
    ensures id in Run(s, es).lives && StillTaken(s.lives[id], Run(s, es).lives[id])
    decreases |es|
  {
    if es != [] {
      StepKeepsSkeleton(s, es[0], id);
      FinalizeTakesOnce(Next(s, es[0]), es[1..], id);
    }
  }

  // ----- files and rows -----

  lemma OthersStaySound(s: Server, id: string, m: Life, st: Store)
    requires Sound(s) && id in s.lives && Spares(s.store, st, id)
    requires Skeleton(m) && FileOk(id, m, st) && MadeOne(m, st, id) && st.rows.Keys <= st.files.Keys
    ensures Sound(Server(s.lives[id := m], st))
  {
    hide Skeleton;
    var n := Server(s.lives[id := m], st);
    forall o | o in n.lives ensures Skeleton(n.lives[o]) && FileOk(o, n.lives[o], st) && MadeOne(n.lives[o], st, o) {
      if o != id {
        forall name | Owned(st, name, o) ensures Owned(s.store, name, o) {}
      }
    }
  }

  lemma FinalizerStaysSound(s: Server, id: string, k: nat, e: FinStep)
    requires Sound(s) && Enabled(s, ByFinalizer(id, k, e))
    ensures Sound(Next(s, ByFinalizer(id, k, e)))
  {
    var l := s.lives[id];
    var (m, st) := FinNext(l, s.store, id, k, e);
    FinKeepsSkeleton(l, s.store, id, k, e);
    FinKeepsFile(l, s.store, id, k, e);
    FinSpares(l, s.store, id, k, e);
    OthersStaySound(s, id, m, st);
  }

  lemma RestartStaysSound(s: Server)
    requires Sound(s) && Enabled(s, Restart)
    ensures Sound(Next(s, Restart))
  {
    var n := Next(s, Restart);
    forall id | id in n.lives
      ensures Skeleton(n.lives[id]) && FileOk(id, n.lives[id], n.store) && MadeOne(n.lives[id], n.store, id)
    {
      RestartKeepsSkeleton(s.lives[id]);
      assert n.lives[id].fins == s.lives[id].fins;
    }
  }

  lemma BornStaysSound(s: Server, id: string, facts: Facts)
    requires Sound(s) && Enabled(s, Init(id, facts))
    ensures Sound(Next(s, Init(id, facts)))
  {
    assert Skeleton(Born(facts));
    hide Skeleton;
    assert forall name :: !Owned(s.store, name, id);
  }

  lemma WriterStaysSound(s: Server, id: string, r: nat, w: WriterStep)
    requires Sound(s) && Enabled(s, ByWriter(id, r, w))
    ensures Sound(Next(s, ByWriter(id, r, w)))
  {
    var l := s.lives[id];
    WriterKeepsSkeleton(l, r, w);
    assert WriterNext(l, r, w).fins == l.fins;
    hide Skeleton, WriterNext, WriterEnabled;
    OthersStaySound(s, id, WriterNext(l, r, w), s.store);
  }

  lemma SweepStaysSound(s: Server, id: string, now: int)
    requires Sound(s) && Enabled(s, Sweep(id, now))
    ensures Sound(Next(s, Sweep(id, now)))
  {
    OthersStaySound(s, id, Swept(s.lives[id], now), s.store);
  }

  /** Every step of every interleaving, restarts included, keeps uploads, files and rows sound. */
  lemma NextStaysSound(s: Server, e: Event)
    requires Sound(s) && Enabled(s, e)
    ensures Sound(Next(s, e))
  {
    match e
    case Init(id, facts) => BornStaysSound(s, id, facts);
    case ByWriter(id, r, w) => WriterStaysSound(s, id, r, w);
    case ByFinalizer(id, k, f) => FinalizerStaysSound(s, id, k, f);
    case Sweep(id, now) => SweepStaysSound(s, id, now);
    case Restart => RestartStaysSound(s);
  }

  lemma {:induction false} RunStaysSound(s: Server, es: seq<Event>)
    requires Sound(s) && Allowed(s, es)
    ensures Sound(Run(s, es))
    decreases |es|
  {
    if es != [] {
      NextStaysSound(s, es[0]);
      RunStaysSound(Next(s, es[0]), es[1..]);
    }
  }

  /** In every run, a finalize call past its count check took an upload with every index present. */
  lemma CountMeansAll(s: Server, es: seq<Event>, id: string)
    requires Sound(s) && Allowed(s, es) && id in Run(s, es).lives
    requires var fins := Run(s, es).lives[id].fins; fins != [] && DestOf(fins[0].stage).Some?
    ensures var l := Run(s, es).lives[id];
      forall i: nat :: i < l.manifest.totalChunks <==> i in l.fins[0].upload.received
  {
    RunStaysSound(s, es);
    var u := Run(s, es).lives[id].fins[0].upload;
    FullCount(u.received, u.facts.totalChunks);
  }

  /** In every run, a finished finalize call has left no entry and no temp directory; it has left a
      file of its making iff it saved the share row, whose size is the file's. */
  lemma FinishedFinalize(s: Server, es: seq<Event>, id: string)
    requires Sound(s) && Allowed(s, es) && id in Run(s, es).lives
    requires var fins := Run(s, es).lives[id].fins; fins != [] && Done(fins[0].stage)
    ensures var n := Run(s, es);
      var l := n.lives[id];
      && l.entry.None? && l.dir.None?
      && (l.fins[0].stage.Failed? ==> forall name :: !Owned(n.store, name, id))
      && (l.fins[0].stage.Saved? ==>
          var dest := l.fins[0].stage.dest;
          && (forall name :: Owned(n.store, name, id) <==> name == dest)
          && dest in n.store.files && dest in n.store.rows
          && n.store.rows[dest] == |n.store.files[dest].data|)
  {
    RunStaysSound(s, es);
    var n := Run(s, es);
    assert MadeOne(n.lives[id], n.store, id) && FileOk(id, n.lives[id], n.store);
  }

  /** In every run, once every finalize call has finished, a file made by one is on disk iff its
      row exists. */
  lemma FileIffRow(s: Server, es: seq<Event>, name: string)
    requires Sound(s) && Allowed(s, es)
    requires forall id :: id in Run(s, es).lives ==> AllDone(Run(s, es).lives[id])
    requires name in Run(s, es).store.files ==> Run(s, es).store.files[name].maker.Some?
    ensures name in Run(s, es).store.files <==> name in Run(s, es).store.rows
  {
    RunStaysSound(s, es);
    var n := Run(s, es);
    if name in n.store.files {
      var id := n.store.files[name].maker.value;
      assert MadeOne(n.lives[id], n.store, id) && FileOk(id, n.lives[id], n.store);
      assert Owned(n.store, name, id);
    }
  }

  /** No run alters or removes a file, or a row, that some other path put there. */
  lemma {:induction false} OtherFilesUntouched(s: Server, es: seq<Event>, name: string)
    requires Sound(s) && Allowed(s, es)
    requires name in s.store.files && s.store.files[name].maker.None?
    ensures var n := Run(s, es).store;
      && name in n.files && n.files[name] == s.store.files[name]
      && (name in n.rows <==> name in s.store.rows) && (name in n.rows ==> n.rows[name] == s.store.rows[name])
    decreases |es|
  {
    if es != [] {
      var e := es[0];
      if e.ByFinalizer? { FinSpares(s.lives[e.id], s.store, e.id, e.k, e.f); }
      NextStaysSound(s, e);
      OtherFilesUntouched(Next(s, e), es[1..], name);
    }
  }
}
