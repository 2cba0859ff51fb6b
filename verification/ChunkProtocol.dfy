/** The chunked-upload protocol as a state machine over its atomic steps
    (internal/handlers/upload.go): any number of chunk requests, finalize calls, sweeps and
    restarts, interleaved at mutex and file-call boundaries. A restart may find chunk requests in
    flight, but no finalize call. */
module ChunkProtocol {
  import opened Util
  import opened ChunkPersist

  const CHUNK_LIMIT: nat := 10 * 1024 * 1024
  const MAX_AGE: int := 24 * 3600 * SECOND

  /** One UploadChunk request past its lookup and range check. */
  datatype Writer =
    | Opening(idx: nat)                  // chunk file not yet created
    | Copying(idx: nat, body: Bytes)     // file created, body written so far
    | Copied(idx: nat, body: Bytes)      // body complete, lock not yet taken
    | Discarding(idx: nat, body: Bytes)  // refused, file about to be removed

  datatype Stage =
    | Took
    | Joining(dest: string, next: nat, size: nat)
    | Joined(dest: string, size: nat)
    | Saved(dest: string, size: nat)
    | Failed

  /** A finalize call that took the registry entry; quiet records whether no chunk
      request of the upload was in flight at that moment. */
  datatype Finalizer = Finalizer(upload: Upload, quiet: bool, stage: Stage)

  /** One upload id. dir is its temp directory (None once removed); accepted and lost
      are history: the last body accepted per index, and the accepted indices whose
      file a later refused re-upload removed. */
  datatype Life = Life(
    manifest: Manifest,
    entry: Option<Upload>,
    dir: Option<map<nat, Bytes>>,
    writers: map<nat, Writer>,
    fins: seq<Finalizer>,
    accepted: map<nat, Bytes>,
    lost: set<nat>)

  /** A file in the uploads directory; maker names the upload whose finalize created it. */
  datatype File = File(data: Bytes, maker: Option<string>)

  datatype Store = Store(files: map<string, File>, rows: map<string, nat>)

  datatype Server = Server(lives: map<string, Life>, store: Store)

  // ----- the critical sections -----

  /** UploadChunk's registry update; None when the declared size would be exceeded. */
  function Commit(u: Upload, idx: nat, written: nat): Option<Upload> {
    var newTotal := u.receivedBytes - At(u.sizes, idx) + written;
    if newTotal > u.facts.totalSize then None
    else Some(Upload(u.facts, u.received + {idx}, u.sizes[idx := written], newTotal))
  }

  predicate Expired(u: Upload, now: int) { u.facts.createdAt < now - MAX_AGE }

  // ----- steps of a chunk request -----

  datatype WriterStep =
    | Start(owner: string, idx: int)
    | OpenFails
    | Open
    | Append(piece: Bytes)
    | EndCopy(ok: bool)
    | Enter
    | Discard

  predicate WriterEnabled(l: Life, r: nat, e: WriterStep) {
    match e
    case Start(_, _) => r !in l.writers
    case OpenFails => r in l.writers && l.writers[r].Opening?
    case Open => r in l.writers && l.writers[r].Opening?
    case Append(piece) =>
      r in l.writers && l.writers[r].Copying? && |l.writers[r].body| + |piece| <= CHUNK_LIMIT
    case EndCopy(_) => r in l.writers && l.writers[r].Copying?
    case Enter => r in l.writers && l.writers[r].Copied?
    case Discard => r in l.writers && l.writers[r].Discarding?
  }

  function Write(l: Life, idx: nat, body: Bytes): Option<map<nat, Bytes>> {
    if l.dir.Some? then Some(l.dir.value[idx := body]) else None
  }

  function WriterNext(l: Life, r: nat, e: WriterStep): Life
    requires WriterEnabled(l, r, e)
  {
    match e
    case Start(owner, idx) =>
      if l.entry.Some? && l.entry.value.facts.userId == owner
        && 0 <= idx < l.entry.value.facts.totalChunks
      then l.(writers := l.writers[r := Opening(idx)]) else l
    case OpenFails => l.(writers := l.writers - {r})
    case Open =>
      var idx := l.writers[r].idx;
      if l.dir.None? then l.(writers := l.writers - {r})
      else l.(writers := l.writers[r := Copying(idx, [])], dir := Write(l, idx, []))
    case Append(piece) =>
      var w := l.writers[r];
      l.(writers := l.writers[r := Copying(w.idx, w.body + piece)], dir := Write(l, w.idx, w.body + piece))
    case EndCopy(ok) =>
      var w := l.writers[r];
      l.(writers := l.writers[r := if ok && w.body != [] then Copied(w.idx, w.body) else Discarding(w.idx, w.body)])
    case Enter =>
      var w := l.writers[r];
      var u := if l.entry.None? then None else Commit(l.entry.value, w.idx, |w.body|);
      if u.None? then l.(writers := l.writers[r := Discarding(w.idx, w.body)])
      else l.(writers := l.writers - {r}, entry := u,
              accepted := l.accepted[w.idx := w.body], lost := l.lost - {w.idx})
    case Discard =>
      var idx := l.writers[r].idx;
      l.(writers := l.writers - {r},
         dir := if l.dir.Some? then Some(l.dir.value - {idx}) else None,
         lost := if idx in l.accepted then l.lost + {idx} else l.lost)
  }

  // ----- steps of a finalize call -----

  datatype FinStep =
    | Take(owner: string)
    | RefuseCount
    | Create(dest: string, ok: bool)
    | Join(ok: bool)
    | EndJoin
    | RefuseShare
    | Save

  ghost predicate FinEnabled(l: Life, k: nat, e: FinStep) {
    if e.Take? then k == |l.fins| else k < |l.fins| && FinStageAllows(l.fins[k], e)
  }

  ghost predicate FinStageAllows(f: Finalizer, e: FinStep) {
    match e
    case Take(_) => false
    case RefuseCount => f.stage.Took? && |f.upload.received| != f.upload.facts.totalChunks
    case Create(_, _) => f.stage.Took? && |f.upload.received| == f.upload.facts.totalChunks
    case Join(_) => f.stage.Joining? && f.stage.next < f.upload.facts.totalChunks
    case EndJoin => f.stage.Joining? && f.stage.next >= f.upload.facts.totalChunks
    case RefuseShare => f.stage.Joined?
    case Save => f.stage.Joined?
  }

  function Stages(l: Life, k: nat, s: Stage): Life
    requires k < |l.fins|
  {
    l.(fins := l.fins[k := l.fins[k].(stage := s)])
  }

  function Data(st: Store, dest: string): Bytes { if dest in st.files then st.files[dest].data else [] }

  function FinNext(l: Life, st: Store, id: string, k: nat, e: FinStep): (Life, Store)
    requires FinEnabled(l, k, e)
  {
    match e
    case Take(owner) =>
      if l.entry.Some? && l.entry.value.facts.userId == owner
      then (l.(entry := None, fins := l.fins + [Finalizer(l.entry.value, l.writers == map[], Took)]), st)
      else (l, st)
    case RefuseCount => (Stages(l, k, Failed).(dir := None), st)
    case Create(dest, ok) =>
      if ok && dest !in st.files
      then (Stages(l, k, Joining(dest, 0, 0)), st.(files := st.files[dest := File([], Some(id))]))
      else (Stages(l, k, Failed).(dir := None), st)
    case Join(ok) =>
      var s := l.fins[k].stage;
      if ok && l.dir.Some? && s.next in l.dir.value
      then
        var chunk := l.dir.value[s.next];
        (Stages(l, k, Joining(s.dest, s.next + 1, s.size + |chunk|)),
         st.(files := st.files[s.dest := File(Data(st, s.dest) + chunk, Some(id))]))
      else (Stages(l, k, Failed).(dir := None), st.(files := st.files - {s.dest}))
    case EndJoin =>
      var s := l.fins[k].stage;
      (Stages(l, k, Joined(s.dest, s.size)).(dir := None), st)
    case RefuseShare => (Stages(l, k, Failed), st.(files := st.files - {l.fins[k].stage.dest}))
    case Save =>
      var s := l.fins[k].stage;
      (Stages(l, k, Saved(s.dest, s.size)), st.(rows := st.rows[s.dest := s.size]))
  }

  // ----- sweep and restart -----

  function Swept(l: Life, now: int): Life {
    if l.entry.Some? && Expired(l.entry.value, now) then l.(entry := None, dir := None) else l
  }

  predicate Done(s: Stage) { s.Saved? || s.Failed? }

  ghost predicate AllDone(l: Life) { forall j :: 0 <= j < |l.fins| ==> Done(l.fins[j].stage) }

  ghost predicate Quiescent(l: Life) { l.writers == map[] && AllDone(l) }

  /** What a new process knows of an upload: its directory. Requests in flight are gone. */
  function Restarted(l: Life): Life {
    if l.dir.None? then l.(entry := None, writers := map[])
    else
      var d := l.dir.value;
      l.(entry := Some(FromChunks(Recall(l.manifest), d)), writers := map[],
         accepted := map i | i in l.accepted && i in d :: l.accepted[i],
         lost := {})
  }

  // ----- the machine -----

  datatype Event =
    | Init(id: string, facts: Facts)
    | ByWriter(id: string, req: nat, w: WriterStep)
    | ByFinalizer(id: string, k: nat, f: FinStep)
    | Sweep(id: string, now: int)
    | Restart

  ghost predicate Enabled(s: Server, e: Event) {
    match e
    case Init(id, facts) => id !in s.lives && Plausible(facts)
    case ByWriter(id, r, w) => id in s.lives && WriterEnabled(s.lives[id], r, w)
    case ByFinalizer(id, k, f) => id in s.lives && FinEnabled(s.lives[id], k, f)
    case Sweep(id, _) => id in s.lives
    case Restart => forall id :: id in s.lives ==> AllDone(s.lives[id])
  }

  function Born(facts: Facts): Life {
    Life(Persist(facts), Some(Fresh(facts)), Some(map[]), map[], [], map[], {})
  }

  ghost function Next(s: Server, e: Event): Server
    requires Enabled(s, e)
  {
    match e
    case Init(id, facts) => s.(lives := s.lives[id := Born(facts)])
    case ByWriter(id, r, w) => s.(lives := s.lives[id := WriterNext(s.lives[id], r, w)])
    case ByFinalizer(id, k, f) =>
      var (l, st) := FinNext(s.lives[id], s.store, id, k, f);
      Server(s.lives[id := l], st)
    case Sweep(id, now) => s.(lives := s.lives[id := Swept(s.lives[id], now)])
    case Restart => s.(lives := map id | id in s.lives :: Restarted(s.lives[id]))
  }

  /** es can be taken from s one after another. */
  ghost predicate Allowed(s: Server, es: seq<Event>)
    decreases |es|
  {
    es == [] || (Enabled(s, es[0]) && Allowed(Next(s, es[0]), es[1..]))
  }

  ghost function Run(s: Server, es: seq<Event>): Server
    requires Allowed(s, es)
    decreases |es|
  {
    if es == [] then s else Run(Next(s, es[0]), es[1..])
  }

  /** No two chunk requests in flight for one index of one upload. */
  ghost predicate Exclusive(l: Life) {
    forall r, q :: r in l.writers && q in l.writers && l.writers[r].idx == l.writers[q].idx ==> r == q
  }
}
