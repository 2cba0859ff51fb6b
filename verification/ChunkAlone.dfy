/** One upload in which no two requests for one chunk overlap, whatever happens to the others: its
    directory holds the accepted bodies, and a file its finalize call assembles is made of them. */
module ChunkAlone {
  import opened Util
  import opened ChunkPersist
  import opened ChunkProtocol
  import opened ChunkSafety
  import opened ChunkEveryRun

  /** The invariant of upload id among others of which only their skeletons are known. */
  ghost predicate Mine(s: Server, id: string) {
    Sound(s) && (id in s.lives ==> LifeInv(id, s.lives[id], s.store))
  }

  ghost predicate Inv(s: Server) { forall id :: Mine(s, id) }

  /** No two requests for one chunk of the upload, and none at all at a restart. */
  ghost predicate Apart(s: Server, id: string) { id in s.lives ==> Exclusive(s.lives[id]) }

  ghost predicate Calm(s: Server, e: Event, id: string) {
    e.Restart? && id in s.lives ==> s.lives[id].writers == map[]
  }

  ghost predicate Alone(s: Server, es: seq<Event>, id: string)
    requires Allowed(s, es)
    decreases |es|
  {
    Apart(s, id) && (es == [] || (Calm(s, es[0], id) && Alone(Next(s, es[0]), es[1..], id)))
  }

  lemma WriterKeepsMine(s: Server, id: string, r: nat, w: WriterStep)
    requires Mine(s, id) && Apart(s, id) && Enabled(s, ByWriter(id, r, w))
    ensures LifeInv(id, WriterNext(s.lives[id], r, w), s.store)
  {
    var l := s.lives[id];
    WriterKeepsShape(l, r, w);
    WriterKeepsContent(l, r, w);
    var n := WriterNext(l, r, w);
    assert n.fins == l.fins && (n.fins != [] ==> n.accepted == l.accepted);
    hide Shape, Content, WriterNext, WriterEnabled;
  }

  lemma FinalizerKeepsMine(s: Server, id: string, k: nat, e: FinStep)
    requires Mine(s, id) && Enabled(s, ByFinalizer(id, k, e))
    ensures var (n, st) := FinNext(s.lives[id], s.store, id, k, e); LifeInv(id, n, st)
  {
    var l := s.lives[id];
    hide Shape, Content, FileOk, FileBodies, Skeleton;
    assert TakenOnce(l) by { SkeletonTakenOnce(l); }
    FinKeepsShape(l, s.store, id, k, e);
    FinKeepsContent(l, s.store, id, k, e);
    FinKeepsFile(l, s.store, id, k, e);
    FinKeepsBodies(l, s.store, id, k, e);
  }

  lemma SkeletonTakenOnce(l: Life)
    requires Skeleton(l)
    ensures TakenOnce(l)
  {
  }

  /** A finalize step of another upload leaves this one's file as it is. */
  lemma OtherFinalizerSpares(s: Server, id: string, o: string, k: nat, e: FinStep)
    requires Mine(s, id) && id in s.lives && o != id && Enabled(s, ByFinalizer(o, k, e))
    ensures LifeInv(id, s.lives[id], FinNext(s.lives[o], s.store, o, k, e).1)
  {
    FinSpares(s.lives[o], s.store, o, k, e);
  }

  lemma RestartKeepsMine(s: Server, id: string)
    requires Mine(s, id) && id in s.lives && Enabled(s, Restart) && Calm(s, Restart, id)
    ensures LifeInv(id, Restarted(s.lives[id]), s.store)
  {
    var l := s.lives[id];
    RestartKeeps(l);
    assert Restarted(l).fins == l.fins && (l.fins != [] && !AllDone(l) ==> false);
    if l.fins != [] { assert l.dir.None? && Restarted(l).accepted == l.accepted; }
    hide Shape, Content;
  }

  /** Every step keeps the upload's invariant, provided it does not itself bring a second request for
      a chunk, whatever requests other uploads have in flight. */
  lemma StepKeepsMine(s: Server, e: Event, id: string)
    requires Mine(s, id) && Apart(s, id) && Enabled(s, e) && Calm(s, e, id)
    ensures Mine(Next(s, e), id)
  {
    NextStaysSound(s, e);
    hide Sound, LifeInv;
    if id in s.lives {
      match e
      case Init(_, _) =>
      case ByWriter(o, r, w) => if o == id { WriterKeepsMine(s, id, r, w); }
      case ByFinalizer(o, k, f) =>
        if o == id { FinalizerKeepsMine(s, id, k, f); } else { OtherFinalizerSpares(s, id, o, k, f); }
      case Sweep(o, now) => if o == id { SweepKeepsMine(s, id, now); }
      case Restart => RestartKeepsMine(s, id);
    } else if e.Init? && e.id == id {
      BornOk(id, e.facts, s.store);
    }
  }

  lemma SweepKeepsMine(s: Server, id: string, now: int)
    requires Mine(s, id) && id in s.lives
    ensures LifeInv(id, Swept(s.lives[id], now), s.store)
  {
    assert Swept(s.lives[id], now).fins == s.lives[id].fins;
  }

  lemma {:induction false} RunKeepsMine(s: Server, es: seq<Event>, id: string)
    requires Mine(s, id) && Allowed(s, es) && Alone(s, es, id)
    ensures Mine(Run(s, es), id)
    decreases |es|
  {
    if es != [] {
      StepKeepsMine(s, es[0], id);
      RunKeepsMine(Next(s, es[0]), es[1..], id);
    }
  }

  /** A server without uploads under way. */
  lemma StartIsMine(st: Store, id: string)
    requires st.rows.Keys <= st.files.Keys && forall name :: name in st.files ==> st.files[name].maker.None?
    ensures Mine(Server(map[], st), id)
  {
    StartIsSound(st);
  }

  /** Runs extend step by step, and stay without overlap if the step brings none. */
  lemma {:induction false} AloneSnoc(s: Server, es: seq<Event>, e: Event, id: string)
    requires Allowed(s, es) && Allowed(s, es + [e]) && Alone(s, es, id)
    requires Enabled(Run(s, es), e) && Calm(Run(s, es), e, id) && Apart(Next(Run(s, es), e), id)
    ensures Alone(s, es + [e], id)
    decreases |es|
  {
    var all := es + [e];
    if es == [] {
      assert all[0] == e && all[1..] == [];
    } else {
      assert all[0] == es[0] && all[1..] == es[1..] + [e];
      AloneSnoc(Next(s, es[0]), es[1..], e, id);
    }
  }
}
