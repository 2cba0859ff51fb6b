/** The chunked-upload handlers over the fields they update: the registry, the temp
    directories, the uploads directory and the shares table. Each handler call is tied to a
    run of the protocol's steps, so every theorem about runs holds of every sequence of calls. */
module ChunkServer {
  import opened Util
  import opened Decimal
  import opened ChunkPersist
  import opened ChunkProtocol
  import opened ChunkSafety
  import opened ChunkEveryRun
  import opened ChunkAlone

  datatype TempDir = TempDir(manifest: Manifest, chunks: map<nat, Bytes>)

  datatype Reply = Ok | BadRequest | NotFound | TooLarge | Failure

  /** Runs extend step by step. */
  lemma {:induction false} RunSnoc(s: Server, es: seq<Event>, e: Event)
    requires Allowed(s, es) && Enabled(Run(s, es), e)
    ensures Allowed(s, es + [e])
    ensures Run(s, es + [e]) == Next(Run(s, es), e)
    decreases |es|
  {
    if es == [] {
      assert [e][1..] == [];
    } else {
      RunSnoc(Next(s, es[0]), es[1..], e);
      assert (es + [e])[0] == es[0] && (es + [e])[1..] == es[1..] + [e];
    }
  }

  /** Only request 0 of upload id may be in flight. */
  ghost predicate Solo(s: Server, id: string) {
    && id in s.lives && s.lives[id].writers.Keys <= {0}
    && forall o :: o in s.lives && o != id ==> Quiescent(s.lives[o])
  }

  ghost predicate AllExclusive(s: Server) {
    forall id :: id in s.lives ==> Exclusive(s.lives[id])
  }

  /** An upload's registry entry and temp directory are those of its life. */
  ghost predicate MirrorOne(registry: map<string, Upload>, dirs: map<string, TempDir>, m: Server, id: string) {
    && (id in registry <==> id in m.lives && m.lives[id].entry.Some?)
    && (id in registry ==> m.lives[id].entry == Some(registry[id]))
    && (id in dirs <==> id in m.lives && m.lives[id].dir.Some?)
    && (id in dirs ==> m.lives[id].dir == Some(dirs[id].chunks) && m.lives[id].manifest == dirs[id].manifest)
  }

  ghost predicate MirrorStore(files: map<string, Bytes>, rows: map<string, nat>, st: Store) {
    && files.Keys == st.files.Keys && rows == st.rows
    && forall name :: name in files ==> files[name] == st.files[name].data
  }

  ghost predicate Mirror(registry: map<string, Upload>, dirs: map<string, TempDir>,
                         files: map<string, Bytes>, rows: map<string, nat>, m: Server) {
    MirrorStore(files, rows, m.store) && forall id :: MirrorOne(registry, dirs, m, id)
  }

  /** The effect of one whole chunk request run alone. */
  function SoloUpload(l: Life, i: nat, written: Bytes, openOk: bool, readOk: bool): Life {
    if l.entry.None? || l.dir.None? || !openOk then l
    else
      var c := if !readOk || written == [] then None else Commit(l.entry.value, i, |written|);
      if c.None? then
        l.(dir := Some(l.dir.value - {i}), lost := if i in l.accepted then l.lost + {i} else l.lost)
      else
        l.(entry := c, dir := Some(l.dir.value[i := written]),
           accepted := l.accepted[i := written], lost := l.lost - {i})
  }

  /** What http.MaxBytes-style limiting keeps of a chunk body. */
  function Limited(body: Bytes): Bytes { body[..Min(|body|, CHUNK_LIMIT)] }

  /** What a chunk request past its checks does to the upload and its directory: accepted, the
      body is recorded and on disk; refused after its file was created, that file is gone, even
      if it replaced an accepted one. */
  function ChunkEffect(u: Upload, dir: TempDir, i: nat, body: Bytes, openOk: bool, readOk: bool)
    : (Reply, Upload, TempDir)
  {
    var c := Commit(u, i, |Limited(body)|);
    if !openOk then (Failure, u, dir)
    else if readOk && body != [] && c.Some? then (Ok, c.value, dir.(chunks := dir.chunks[i := Limited(body)]))
    else
      (if !readOk then Failure else if body == [] then BadRequest else TooLarge,
       u, dir.(chunks := dir.chunks - {i}))
  }

  function ChunkArg(index: string, u: Upload): Option<nat> {
    var n := Atoi(index);
    if n.None? || n.value < 0 || n.value >= u.facts.totalChunks then None else Some(n.value)
  }

  /** The index a client prints is the index its chunk is stored under; anything from the chunk count
      on is refused. */
  lemma ArgIsIndex(u: Upload, i: nat)
    requires u.facts.totalChunks <= MAX_INT64
    ensures ChunkArg(Itoa(i), u) == if i < u.facts.totalChunks then Some(i) else None
  {
    if i <= MAX_INT64 { AtoiOfItoa(i); } else { AtoiOverflows(i); }
  }

  /** A body of up to 10 MiB is stored whole, of a longer one the first 10 MiB. */
  lemma LimitedIsPrefix(body: Bytes)
    ensures Limited(body) <= body
    ensures |Limited(body)| == if |body| <= 10 * 1024 * 1024 then |body| else 10 * 1024 * 1024
    ensures |body| <= 10 * 1024 * 1024 ==> Limited(body) == body
  {
  }

  /** The replies to a chunk request past its checks, told apart by what went wrong; the books are
      touched by an accepted chunk only. */
  lemma ChunkReplies(u: Upload, dir: TempDir, i: nat, body: Bytes, openOk: bool, readOk: bool)
    ensures var (r, v, d) := ChunkEffect(u, dir, i, body, openOk, readOk);
      var others := u.receivedBytes - (if i in u.sizes then u.sizes[i] else 0);
      var fits := others + Min(|body|, 10 * 1024 * 1024) <= u.facts.totalSize;
      && (r == Failure <==> !openOk || !readOk)
      && (r == BadRequest <==> openOk && readOk && body == [])
      && (r == TooLarge <==> openOk && readOk && body != [] && !fits)
      && (r == Ok <==> openOk && readOk && body != [] && fits)
      && (r != Ok ==> v == u) && (!openOk ==> d == dir)
  {
    LimitedIsPrefix(body);
  }

  /** model is where the steps in trace lead from start, without overlapping writers. */
  ghost predicate OnRun(start: Server, trace: seq<Event>, model: Server) {
    && Inv(start) && Allowed(start, trace) && model == Run(start, trace) && Inv(model)
    && forall id :: Alone(start, trace, id)
  }

  lemma OneStep(start: Server, trace: seq<Event>, m: Server, e: Event)
    requires OnRun(start, trace, m) && Enabled(m, e) && AllExclusive(Next(m, e))
    requires e.Restart? ==> forall id :: id in m.lives ==> Quiescent(m.lives[id])
    ensures OnRun(start, trace + [e], Next(m, e))
  {
    RunSnoc(start, trace, e);
    hide Next, Enabled, Mine;
    forall id ensures Alone(start, trace + [e], id) && Mine(Next(m, e), id) {
      AloneSnoc(start, trace, e, id);
      RunKeepsMine(start, trace + [e], id);
    }
  }

  lemma RegisteredHasDirectory(start: Server, trace: seq<Event>, m: Server, id: string)
    requires OnRun(start, trace, m) && id in m.lives
    ensures var l := m.lives[id];
      && (l.entry.Some? ==> l.dir.Some? && l.fins == [])
      && (l.entry.None? && Quiescent(l) ==> l.dir.None?)
      && (l.entry.Some? ==> Persist(l.entry.value.facts) == l.manifest)
  {
    assert Mine(m, id);
  }

  // ----- a whole chunk request as protocol steps -----

  ghost predicate MovesEnabled(l: Life, ws: seq<WriterStep>)
    decreases |ws|
  {
    ws == [] || (WriterEnabled(l, 0, ws[0]) && MovesEnabled(WriterNext(l, 0, ws[0]), ws[1..]))
  }

  ghost function Moves(l: Life, ws: seq<WriterStep>): Life
    requires MovesEnabled(l, ws)
    decreases |ws|
  {
    if ws == [] then l else Moves(WriterNext(l, 0, ws[0]), ws[1..])
  }

  function RequestSteps(l: Life, owner: string, i: nat, written: Bytes, openOk: bool, readOk: bool): seq<WriterStep> {
    if l.entry.None? || l.dir.None? then []
    else if !openOk then [Start(owner, i), OpenFails]
    else if !readOk || written == [] then [Start(owner, i), Open, Append(written), EndCopy(readOk), Discard]
    else if Commit(l.entry.value, i, |written|).None? then
      [Start(owner, i), Open, Append(written), EndCopy(readOk), Enter, Discard]
    else [Start(owner, i), Open, Append(written), EndCopy(readOk), Enter]
  }

  lemma MovesCons(l: Life, w: WriterStep, ws: seq<WriterStep>)
    requires WriterEnabled(l, 0, w)
    ensures MovesEnabled(l, [w] + ws) <==> MovesEnabled(WriterNext(l, 0, w), ws)
    ensures MovesEnabled(l, [w] + ws) ==> Moves(l, [w] + ws) == Moves(WriterNext(l, 0, w), ws)
  {
    assert ([w] + ws)[1..] == ws;
  }

  /** After opening and copying, request 0 holds its body and the file holds it too. */
  lemma CopyPhase(l: Life, owner: string, i: nat, written: Bytes, rest: seq<WriterStep>)
    requires l.writers == map[] && l.entry.Some? && l.dir.Some? && |written| <= CHUNK_LIMIT
    requires l.entry.value.facts.userId == owner && i < l.entry.value.facts.totalChunks
    requires MovesEnabled(Written(l, i, written), rest)
    ensures var ws := [Start(owner, i)] + ([Open] + ([Append(written)] + rest));
      MovesEnabled(l, ws) && Moves(l, ws) == Moves(Written(l, i, written), rest)
  {
    var l1 := WriterNext(l, 0, Start(owner, i));
    var l2 := WriterNext(l1, 0, Open);
    var d := l.dir.value;
    var empty: Bytes := [];
    var created: map<nat, Bytes> := d[i := empty];
    assert created[i := written] == d[i := written];
    assert empty + written == written;
    assert l2.writers == map[0 := Copying(i, empty)];
    assert WriterNext(l2, 0, Append(written)) == Written(l, i, written);
    MovesCons(l2, Append(written), rest);
    MovesCons(l1, Open, [Append(written)] + rest);
    MovesCons(l, Start(owner, i), [Open] + ([Append(written)] + rest));
  }

  function Written(l: Life, i: nat, written: Bytes): Life
    requires l.dir.Some?
  {
    l.(writers := map[0 := Copying(i, written)], dir := Some(l.dir.value[i := written]))
  }

  /** Ending the copy leads to acceptance, or to removal of the file. */
  lemma EndPhase(l: Life, i: nat, written: Bytes, readOk: bool)
    requires l.writers == map[] && l.entry.Some? && l.dir.Some?
    ensures var m := Written(l, i, written);
      var c := Commit(l.entry.value, i, |written|);
      var ws := if !readOk || written == [] then [EndCopy(readOk), Discard]
                else if c.None? then [EndCopy(readOk), Enter, Discard] else [EndCopy(readOk), Enter];
      MovesEnabled(m, ws) && Moves(m, ws) == SoloUpload(l, i, written, true, readOk)
  {
    var m := Written(l, i, written);
    var e := WriterNext(m, 0, EndCopy(readOk));
    var d := l.dir.value;
    var filled: map<nat, Bytes> := d[i := written];
    assert filled - {i} == d - {i};
    if !readOk || written == [] {
      MovesCons(e, Discard, []);
      MovesCons(m, EndCopy(readOk), [Discard]);
      assert [EndCopy(readOk)] + [Discard] == [EndCopy(readOk), Discard];
    } else {
      var f := WriterNext(e, 0, Enter);
      if Commit(l.entry.value, i, |written|).None? {
        MovesCons(f, Discard, []);
        MovesCons(e, Enter, [Discard]);
        MovesCons(m, EndCopy(readOk), [Enter] + [Discard]);
        assert [EndCopy(readOk)] + ([Enter] + [Discard]) == [EndCopy(readOk), Enter, Discard];
      } else {
        MovesCons(e, Enter, []);
        MovesCons(m, EndCopy(readOk), [Enter]);
        assert [EndCopy(readOk)] + [Enter] == [EndCopy(readOk), Enter];
      }
    }
  }

  /** The steps of a request run alone have the effect stated by SoloUpload. */
  lemma RequestIsSolo(l: Life, owner: string, i: nat, written: Bytes, openOk: bool, readOk: bool)
    requires l.writers == map[] && |written| <= CHUNK_LIMIT && l.entry.Some? && l.dir.Some?
    requires l.entry.value.facts.userId == owner && i < l.entry.value.facts.totalChunks
    ensures var ws := RequestSteps(l, owner, i, written, openOk, readOk);
      MovesEnabled(l, ws) && Moves(l, ws) == SoloUpload(l, i, written, openOk, readOk)
  {
    var ws := RequestSteps(l, owner, i, written, openOk, readOk);
    if !openOk {
      var l1 := WriterNext(l, 0, Start(owner, i));
      MovesCons(l1, OpenFails, []);
      MovesCons(l, Start(owner, i), [OpenFails]);
      assert ws == [Start(owner, i)] + [OpenFails];
    } else {
      EndPhase(l, i, written, readOk);
      CopyPhase(l, owner, i, written, ws[3..]);
      assert ws == [Start(owner, i)] + ([Open] + ([Append(written)] + ws[3..]));
    }
  }

  function ByRequest(id: string, ws: seq<WriterStep>): seq<Event> {
    if ws == [] then [] else [ByWriter(id, 0, ws[0])] + ByRequest(id, ws[1..])
  }

  /** A list of one request's steps, taken with nothing else in flight, extends the run. */
  lemma {:induction false} RequestRun(start: Server, trace: seq<Event>, m: Server, id: string, ws: seq<WriterStep>)
    requires OnRun(start, trace, m) && Solo(m, id) && MovesEnabled(m.lives[id], ws)
    ensures OnRun(start, trace + ByRequest(id, ws), m.(lives := m.lives[id := Moves(m.lives[id], ws)]))
    decreases |ws|
  {
    hide OnRun;
    if ws == [] {
      assert m.lives == m.lives[id := m.lives[id]] && trace + [] == trace;
    } else {
      var e := ByWriter(id, 0, ws[0]);
      var n := Next(m, e);
      OneStep(start, trace, m, e);
      RequestRun(start, trace + [e], n, id, ws[1..]);
      assert trace + [e] + ByRequest(id, ws[1..]) == trace + ByRequest(id, ws);
      assert n.lives[id := Moves(n.lives[id], ws[1..])] == m.lives[id := Moves(m.lives[id], ws)];
    }
  }

  /** Changing one upload on both sides keeps the mirror. */
  lemma MirrorChange(registry: map<string, Upload>, dirs: map<string, TempDir>, m: Server,
                     registry2: map<string, Upload>, dirs2: map<string, TempDir>, m2: Server, id: string)
    requires forall o :: MirrorOne(registry, dirs, m, o)
    requires registry2 - {id} == registry - {id} && dirs2 - {id} == dirs - {id}
    requires id in m2.lives && m2.lives == m.lives[id := m2.lives[id]]
    requires MirrorOne(registry2, dirs2, m2, id)
    ensures forall o :: MirrorOne(registry2, dirs2, m2, o)
  {
    forall o ensures MirrorOne(registry2, dirs2, m2, o) {
      assert MirrorOne(registry, dirs, m, o);
      if o != id {
        assert o in registry <==> o in registry - {id};
        assert o in registry2 <==> o in registry2 - {id};
        assert o in dirs <==> o in dirs - {id};
        assert o in dirs2 <==> o in dirs2 - {id};
        if o in registry { assert registry[o] == (registry - {id})[o] == (registry2 - {id})[o]; }
        if o in dirs { assert dirs[o] == (dirs - {id})[o] == (dirs2 - {id})[o]; }
      }
    }
  }

  // ----- a whole finalize call as protocol steps -----

  ghost predicate FinMovesEnabled(l: Life, st: Store, id: string, fs: seq<FinStep>)
    decreases |fs|, 0
  {
    fs == [] ||
      (var front := fs[..|fs| - 1];
       FinMovesEnabled(l, st, id, front) && FinEnabled(FinMoves(l, st, id, front).0, 0, fs[|fs| - 1]))
  }

  ghost function FinMoves(l: Life, st: Store, id: string, fs: seq<FinStep>): (Life, Store)
    requires FinMovesEnabled(l, st, id, fs)
    decreases |fs|, 1
  {
    if fs == [] then (l, st)
    else
      var (l1, st1) := FinMoves(l, st, id, fs[..|fs| - 1]);
      FinNext(l1, st1, id, 0, fs[|fs| - 1])
  }

  lemma FinMovesSnoc(l: Life, st: Store, id: string, fs: seq<FinStep>, f: FinStep)
    requires FinMovesEnabled(l, st, id, fs) && FinEnabled(FinMoves(l, st, id, fs).0, 0, f)
    ensures FinMovesEnabled(l, st, id, fs + [f])
    ensures var (l1, st1) := FinMoves(l, st, id, fs);
      FinMoves(l, st, id, fs + [f]) == FinNext(l1, st1, id, 0, f)
  {
    assert (fs + [f])[..|fs|] == fs;
  }

  function ByCall(id: string, fs: seq<FinStep>): seq<Event> {
    if fs == [] then [] else ByCall(id, fs[..|fs| - 1]) + [ByFinalizer(id, 0, fs[|fs| - 1])]
  }

  ghost predicate Silent(m: Server) { forall id :: id in m.lives ==> m.lives[id].writers == map[] }

  lemma {:induction false} CallRun(start: Server, trace: seq<Event>, m: Server, id: string, fs: seq<FinStep>)
    requires OnRun(start, trace, m) && Silent(m) && id in m.lives
    requires FinMovesEnabled(m.lives[id], m.store, id, fs)
    ensures var (l, st) := FinMoves(m.lives[id], m.store, id, fs);
      var n := Server(m.lives[id := l], st);
      OnRun(start, trace + ByCall(id, fs), n) && Silent(n)
    decreases |fs|
  {
    hide OnRun;
    if fs == [] {
      assert m.lives == m.lives[id := m.lives[id]] && trace + [] == trace;
    } else {
      var front, f := fs[..|fs| - 1], fs[|fs| - 1];
      CallRun(start, trace, m, id, front);
      var (l1, st1) := FinMoves(m.lives[id], m.store, id, front);
      var m1 := Server(m.lives[id := l1], st1);
      var e := ByFinalizer(id, 0, f);
      OneStep(start, trace + ByCall(id, front), m1, e);
      assert trace + ByCall(id, front) + [e] == trace + ByCall(id, fs);
      var (l, st) := FinMoves(m.lives[id], m.store, id, fs);
      assert m1.lives[id := l] == m.lives[id := l];
    }
  }

  /** How a share save ends: stored, over quota, or a storage or hashing error. */
  datatype ShareOutcome = Stored | OverQuota | Error

  /** The first index in [i, total) whose chunk cannot be read; total if there is none. */
  function FirstBad(chunks: map<nat, Bytes>, fault: Option<nat>, i: nat, total: nat): (b: nat)
    requires i <= total
    ensures i <= b <= total
    ensures forall j: nat :: i <= j < b ==> j in chunks && fault != Some(j)
    ensures b < total ==> b !in chunks || fault == Some(b)
    decreases total - i
  {
    if i == total || i !in chunks || fault == Some(i) then i else FirstBad(chunks, fault, i + 1, total)
  }

  /** What a finalize call that took upload u does to the uploads directory and the shares table. */
  function FinalizeEffect(u: Upload, chunks: map<nat, Bytes>, files: map<string, Bytes>, rows: map<string, nat>,
                          dest: string, createOk: bool, fault: Option<nat>, share: ShareOutcome)
    : (Reply, map<string, Bytes>, map<string, nat>)
  {
    var total := u.facts.totalChunks;
    if |u.received| != total then (BadRequest, files, rows)
    else if !createOk || dest in files || FirstBad(chunks, fault, 0, total) < total then (Failure, files, rows)
    else if share.OverQuota? then (TooLarge, files, rows)
    else if share.Error? then (Failure, files, rows)
    else
      var data := Concat(chunks, total);
      (Ok, files[dest := data], rows[dest := |data|])
  }

  /** The replies to a finalize call that took its upload, told apart by what went wrong; the uploads
      directory and the table are touched by a successful one only. */
  lemma FinalizeReplies(u: Upload, chunks: map<nat, Bytes>, files: map<string, Bytes>, rows: map<string, nat>,
                        dest: string, createOk: bool, fault: Option<nat>, share: ShareOutcome)
    ensures var (r, files2, rows2) := FinalizeEffect(u, chunks, files, rows, dest, createOk, fault, share);
      var n := u.facts.totalChunks;
      var readable := forall i: nat :: i < n ==> i in chunks && fault != Some(i);
      var joined := |u.received| == n && createOk && dest !in files && readable;
      && (r == BadRequest <==> |u.received| != n)
      && (r == TooLarge <==> joined && share == OverQuota)
      && (r == Failure <==> |u.received| == n && (!joined || share == Error))
      && (r == Ok <==> joined && share == Stored)
      && (r != Ok ==> files2 == files && rows2 == rows)
  {
    var b := FirstBad(chunks, fault, 0, u.facts.totalChunks);
    assert b < u.facts.totalChunks ==> b !in chunks || fault == Some(b);
  }

  function Repeat(f: FinStep, n: nat): seq<FinStep> { seq(n, _ => f) }

  function CallSteps(u: Upload, chunks: map<nat, Bytes>, st: Store, dest: string, createOk: bool,
                     fault: Option<nat>, share: ShareOutcome): seq<FinStep> {
    var total := u.facts.totalChunks;
    var take := [Take(u.facts.userId)];
    if |u.received| != total then take + [RefuseCount]
    else
      var created := take + [Create(dest, createOk)];
      if !createOk || dest in st.files then created
      else
        var b := FirstBad(chunks, fault, 0, total);
        var joined := created + Repeat(Join(true), b);
        if b < total then joined + [Join(fault != Some(b))]
        else joined + [EndJoin] + [if share.Stored? then Save else RefuseShare]
  }

  /** The upload, and the store, once n chunks have been appended to dest. */
  function JoiningLife(l: Life, u: Upload, chunks: map<nat, Bytes>, dest: string, n: nat): Life {
    l.(entry := None, fins := [Finalizer(u, l.writers == map[], Joining(dest, n, |Concat(chunks, n)|))])
  }

  function JoiningStore(st: Store, id: string, chunks: map<nat, Bytes>, dest: string, n: nat): Store {
    st.(files := st.files[dest := File(Concat(chunks, n), Some(id))])
  }

  lemma OneFin(f: Finalizer, s: Stage)
    ensures [f][0 := f.(stage := s)] == [f.(stage := s)]
  {
  }

  lemma JoinStep(l: Life, st: Store, id: string, u: Upload, chunks: map<nat, Bytes>, dest: string, n: nat)
    requires l.dir == Some(chunks) && n < u.facts.totalChunks && n in chunks
    ensures var (l1, st1) := (JoiningLife(l, u, chunks, dest, n), JoiningStore(st, id, chunks, dest, n));
      FinEnabled(l1, 0, Join(true)) && FinNext(l1, st1, id, 0, Join(true)) ==
        (JoiningLife(l, u, chunks, dest, n + 1), JoiningStore(st, id, chunks, dest, n + 1))
  {
    var f := JoiningLife(l, u, chunks, dest, n).fins[0];
    OneFin(f, Joining(dest, n + 1, |Concat(chunks, n + 1)|));
    assert st.files[dest := File(Concat(chunks, n), Some(id))][dest := File(Concat(chunks, n + 1), Some(id))]
        == st.files[dest := File(Concat(chunks, n + 1), Some(id))];
  }

  lemma TakePhase(l: Life, st: Store, id: string, u: Upload)
    requires l.entry == Some(u) && l.fins == []
    ensures var fs := [Take(u.facts.userId)];
      FinMovesEnabled(l, st, id, fs) && FinMoves(l, st, id, fs) ==
        (l.(entry := None, fins := [Finalizer(u, l.writers == map[], Took)]), st)
  {
    FinMovesSnoc(l, st, id, [], Take(u.facts.userId));
    assert [] + [Take(u.facts.userId)] == [Take(u.facts.userId)];
    var f := Finalizer(u, l.writers == map[], Took);
    assert l.fins + [f] == [f];
  }

  lemma CreatePhase(l: Life, st: Store, id: string, u: Upload, chunks: map<nat, Bytes>, dest: string)
    requires l.entry == Some(u) && l.fins == [] && |u.received| == u.facts.totalChunks && dest !in st.files
    ensures var fs := [Take(u.facts.userId)] + [Create(dest, true)];
      FinMovesEnabled(l, st, id, fs) &&
      FinMoves(l, st, id, fs) == (JoiningLife(l, u, chunks, dest, 0), JoiningStore(st, id, chunks, dest, 0))
  {
    TakePhase(l, st, id, u);
    FinMovesSnoc(l, st, id, [Take(u.facts.userId)], Create(dest, true));
    OneFin(Finalizer(u, l.writers == map[], Took), Joining(dest, 0, 0));
  }

  /** After taking the entry, creating the file and appending n chunks. */
  lemma {:induction false} JoinPhase(l: Life, st: Store, id: string, u: Upload, chunks: map<nat, Bytes>,
                                     dest: string, n: nat)
    requires l.entry == Some(u) && l.dir == Some(chunks) && l.fins == [] && |u.received| == u.facts.totalChunks
    requires dest !in st.files && n <= u.facts.totalChunks && forall j: nat :: j < n ==> j in chunks
    ensures var fs := [Take(u.facts.userId)] + [Create(dest, true)] + Repeat(Join(true), n);
      FinMovesEnabled(l, st, id, fs) &&
      FinMoves(l, st, id, fs) == (JoiningLife(l, u, chunks, dest, n), JoiningStore(st, id, chunks, dest, n))
  {
    var start := [Take(u.facts.userId)] + [Create(dest, true)];
    hide FinNext, FinEnabled, FinMovesEnabled, FinMoves, JoiningLife, JoiningStore;
    if n == 0 {
      CreatePhase(l, st, id, u, chunks, dest);
      assert start + Repeat(Join(true), 0) == start;
    } else {
      JoinPhase(l, st, id, u, chunks, dest, n - 1);
      JoinStep(l, st, id, u, chunks, dest, n - 1);
      var fs := start + Repeat(Join(true), n - 1);
      FinMovesSnoc(l, st, id, fs, Join(true));
      assert start + Repeat(Join(true), n) == fs + [Join(true)];
    }
  }

  /** How a call that is joining ends: at an unreadable chunk, or with the share saved or refused. */
  lemma EndSteps(l: Life, st: Store, id: string, u: Upload, chunks: map<nat, Bytes>, dest: string, n: nat,
                 ok: bool, stored: bool)
    requires l.dir == Some(chunks) && dest !in st.files
    ensures var (l1, st1) := (JoiningLife(l, u, chunks, dest, n), JoiningStore(st, id, chunks, dest, n));
      && (n < u.facts.totalChunks && (!ok || n !in chunks) ==>
          FinEnabled(l1, 0, Join(ok)) && Ended(l, FinNext(l1, st1, id, 0, Join(ok)).0)
          && FinNext(l1, st1, id, 0, Join(ok)).1 == st)
      && (n == u.facts.totalChunks ==>
          var f := if stored then Save else RefuseShare;
          FinEnabled(l1, 0, EndJoin) &&
          var (l2, st2) := FinNext(l1, st1, id, 0, EndJoin);
          FinEnabled(l2, 0, f) && Ended(l, FinNext(l2, st2, id, 0, f).0)
          && FinNext(l2, st2, id, 0, f).1 == if stored then st1.(rows := st1.rows[dest := |Concat(chunks, n)|]) else st)
  {
    hide Concat;
    assert JoiningStore(st, id, chunks, dest, n).files - {dest} == st.files;
  }

  ghost predicate Ended(l: Life, n: Life) {
    n.entry.None? && n.dir.None? && n.writers == l.writers && |n.fins| == 1 && Done(n.fins[0].stage)
  }

  /** Past the count check and the file creation, the call ends with the file removed again or saved. */
  lemma JoinedEnds(l: Life, st: Store, id: string, u: Upload, chunks: map<nat, Bytes>,
                   dest: string, fault: Option<nat>, share: ShareOutcome)
    requires l.entry == Some(u) && l.dir == Some(chunks) && l.fins == []
    requires |u.received| == u.facts.totalChunks && dest !in st.files
    ensures var total := u.facts.totalChunks;
      var fs := CallSteps(u, chunks, st, dest, true, fault, share);
      FinMovesEnabled(l, st, id, fs) && Ended(l, FinMoves(l, st, id, fs).0)
      && FinMoves(l, st, id, fs).1 ==
         if FirstBad(chunks, fault, 0, total) < total || !share.Stored? then st
         else JoiningStore(st, id, chunks, dest, total).(rows := st.rows[dest := |Concat(chunks, total)|])
  {
    var total := u.facts.totalChunks;
    var b := FirstBad(chunks, fault, 0, total);
    var joined := [Take(u.facts.userId)] + [Create(dest, true)] + Repeat(Join(true), b);
    assert JoiningStore(st, id, chunks, dest, b).rows == st.rows;
    hide FinNext, FinEnabled, FinMovesEnabled, FinMoves, JoiningLife, JoiningStore, Ended, Repeat, Concat;
    JoinPhase(l, st, id, u, chunks, dest, b);
    EndSteps(l, st, id, u, chunks, dest, b, fault != Some(b), share.Stored?);
    if b < total {
      FinMovesSnoc(l, st, id, joined, Join(fault != Some(b)));
    } else {
      FinMovesSnoc(l, st, id, joined, EndJoin);
      FinMovesSnoc(l, st, id, joined + [EndJoin], if share.Stored? then Save else RefuseShare);
    }
  }

  /** The steps of a finalize call run alone end the upload with the effect stated. */
  lemma CallIsEffect(l: Life, st: Store, id: string, u: Upload, chunks: map<nat, Bytes>,
                     files: map<string, Bytes>, dest: string, createOk: bool, fault: Option<nat>, share: ShareOutcome)
    requires l.entry == Some(u) && l.dir == Some(chunks) && l.fins == [] && l.writers == map[]
    requires MirrorStore(files, st.rows, st)
    ensures var fs := CallSteps(u, chunks, st, dest, createOk, fault, share);
      var (_, files2, rows2) := FinalizeEffect(u, chunks, files, st.rows, dest, createOk, fault, share);
      FinMovesEnabled(l, st, id, fs) &&
      var (n, st2) := FinMoves(l, st, id, fs);
      n.entry.None? && n.dir.None? && Quiescent(n) && MirrorStore(files2, rows2, st2)
  {
    hide FinMovesEnabled, FinMoves, CallSteps, Concat, FirstBad, FinEnabled, FinNext;
    assert dest in files <==> dest in st.files;
    if |u.received| == u.facts.totalChunks && createOk && dest !in st.files {
      JoinedEnds(l, st, id, u, chunks, dest, fault, share);
    } else {
      EarlyEnds(l, st, id, u, chunks, dest, createOk, fault, share);
    }
    hide MirrorStore, JoiningStore;
  }

  lemma EarlyEnds(l: Life, st: Store, id: string, u: Upload, chunks: map<nat, Bytes>,
                  dest: string, createOk: bool, fault: Option<nat>, share: ShareOutcome)
    requires l.entry == Some(u) && l.fins == []
    requires |u.received| != u.facts.totalChunks || !createOk || dest in st.files
    ensures var fs := CallSteps(u, chunks, st, dest, createOk, fault, share);
      FinMovesEnabled(l, st, id, fs) && Ended(l, FinMoves(l, st, id, fs).0) && FinMoves(l, st, id, fs).1 == st
  {
    TakePhase(l, st, id, u);
    FinMovesSnoc(l, st, id, [Take(u.facts.userId)],
      if |u.received| != u.facts.totalChunks then RefuseCount else Create(dest, createOk));
  }

  /** The four stores mirror a protocol state reached by a run, with nothing in flight. */
  ghost predicate Tracked(start: Server, trace: seq<Event>, m: Server, registry: map<string, Upload>,
                          dirs: map<string, TempDir>, files: map<string, Bytes>, rows: map<string, nat>) {
    && OnRun(start, trace, m)
    && (forall id :: id in m.lives ==> Quiescent(m.lives[id]))
    && Mirror(registry, dirs, files, rows, m)
  }

  /** Registered uploads are the ones with a temp directory. */
  lemma DirectoryPerEntry(start: Server, trace: seq<Event>, m: Server, registry: map<string, Upload>,
                          dirs: map<string, TempDir>, files: map<string, Bytes>, rows: map<string, nat>, id: string)
    requires Tracked(start, trace, m, registry, dirs, files, rows)
    ensures id in registry ==> id in dirs
  {
    assert MirrorOne(registry, dirs, m, id);
    if id in m.lives { RegisteredHasDirectory(start, trace, m, id); }
  }

  /** A longer run that changed one upload, on both sides alike. */
  lemma TrackedChange(start: Server, trace: seq<Event>, m: Server, registry: map<string, Upload>,
                      dirs: map<string, TempDir>, files: map<string, Bytes>, rows: map<string, nat>,
                      trace2: seq<Event>, m2: Server, registry2: map<string, Upload>, dirs2: map<string, TempDir>,
                      files2: map<string, Bytes>, rows2: map<string, nat>, id: string)
    requires Tracked(start, trace, m, registry, dirs, files, rows) && OnRun(start, trace2, m2)
    requires registry2 - {id} == registry - {id} && dirs2 - {id} == dirs - {id}
    requires id in m2.lives && m2.lives == m.lives[id := m2.lives[id]] && Quiescent(m2.lives[id])
    requires MirrorOne(registry2, dirs2, m2, id) && MirrorStore(files2, rows2, m2.store)
    ensures Tracked(start, trace2, m2, registry2, dirs2, files2, rows2)
  {
    hide OnRun, Quiescent, MirrorOne, MirrorStore;
    MirrorChange(registry, dirs, m, registry2, dirs2, m2, id);
  }

  /** A whole chunk request extends the run. */
  lemma ChunkRun(start: Server, trace: seq<Event>, m: Server, id: string, i: nat, written: Bytes, openOk: bool,
                 readOk: bool)
    returns (trace2: seq<Event>)
    requires OnRun(start, trace, m) && Solo(m, id) && m.lives[id].writers == map[] && |written| <= CHUNK_LIMIT
    requires m.lives[id].entry.Some? && m.lives[id].dir.Some? && i < m.lives[id].entry.value.facts.totalChunks
    ensures OnRun(start, trace2, m.(lives := m.lives[id := SoloUpload(m.lives[id], i, written, openOk, readOk)]))
    ensures trace <= trace2
  {
    var l := m.lives[id];
    hide OnRun, Solo, MovesEnabled, Moves, RequestSteps, SoloUpload;
    var owner := l.entry.value.facts.userId;
    var steps := RequestSteps(l, owner, i, written, openOk, readOk);
    RequestIsSolo(l, owner, i, written, openOk, readOk);
    RequestRun(start, trace, m, id, steps);
    trace2 := trace + ByRequest(id, steps);
  }

  /** A whole chunk request keeps the stores on a run of the protocol. */
  lemma ChunkTracked(start: Server, trace: seq<Event>, m: Server, registry: map<string, Upload>,
                     dirs: map<string, TempDir>, files: map<string, Bytes>, rows: map<string, nat>,
                     id: string, i: nat, body: Bytes, openOk: bool, readOk: bool)
    returns (trace2: seq<Event>, m2: Server)
    requires Tracked(start, trace, m, registry, dirs, files, rows)
    requires id in registry && id in dirs && i < registry[id].facts.totalChunks
    ensures var (_, u, d) := ChunkEffect(registry[id], dirs[id], i, body, openOk, readOk);
      Tracked(start, trace2, m2, registry[id := u], dirs[id := d], files, rows)
    ensures trace <= trace2
  {
    assert MirrorOne(registry, dirs, m, id) && id in m.lives && MirrorStore(files, rows, m.store);
    var l := m.lives[id];
    trace2 := ChunkRun(start, trace, m, id, i, Limited(body), openOk, readOk);
    var n := SoloUpload(l, i, Limited(body), openOk, readOk);
    m2 := m.(lives := m.lives[id := n]);
    var (_, u, d) := ChunkEffect(registry[id], dirs[id], i, body, openOk, readOk);
    hide Tracked, OnRun, ChunkEffect, SoloUpload, Limited, MirrorStore;
    TrackedChange(start, trace, m, registry, dirs, files, rows,
                  trace2, m2, registry[id := u], dirs[id := d], files, rows, id);
  }

  /** A whole finalize call keeps the stores on a run of the protocol. */
  lemma FinalizeTracked(start: Server, trace: seq<Event>, m: Server, registry: map<string, Upload>,
                        dirs: map<string, TempDir>, files: map<string, Bytes>, rows: map<string, nat>,
                        id: string, dest: string, createOk: bool, fault: Option<nat>, share: ShareOutcome)
    returns (trace2: seq<Event>, m2: Server)
    requires Tracked(start, trace, m, registry, dirs, files, rows) && id in registry && id in dirs
    ensures var (_, files2, rows2) :=
        FinalizeEffect(registry[id], dirs[id].chunks, files, rows, dest, createOk, fault, share);
      Tracked(start, trace2, m2, registry - {id}, dirs - {id}, files2, rows2)
    ensures trace <= trace2
  {
    hide OnRun, FinMovesEnabled, FinMoves, CallSteps, FinalizeEffect;
    assert MirrorOne(registry, dirs, m, id);
    RegisteredHasDirectory(start, trace, m, id);
    var l, u, chunks := m.lives[id], registry[id], dirs[id].chunks;
    var fs := CallSteps(u, chunks, m.store, dest, createOk, fault, share);
    CallIsEffect(l, m.store, id, u, chunks, files, dest, createOk, fault, share);
    CallRun(start, trace, m, id, fs);
    trace2 := trace + ByCall(id, fs);
    var (n, st) := FinMoves(l, m.store, id, fs);
    m2 := Server(m.lives[id := n], st);
    var (_, files2, rows2) := FinalizeEffect(u, chunks, files, rows, dest, createOk, fault, share);
    hide Tracked, MirrorStore;
    assert registry - {id} - {id} == registry - {id} && dirs - {id} - {id} == dirs - {id};
    TrackedChange(start, trace, m, registry, dirs, files, rows,
                  trace2, m2, registry - {id}, dirs - {id}, files2, rows2, id);
  }

  /** Registering a fresh upload keeps the stores on a run of the protocol. */
  lemma InitTracked(start: Server, trace: seq<Event>, m: Server, registry: map<string, Upload>,
                    dirs: map<string, TempDir>, files: map<string, Bytes>, rows: map<string, nat>,
                    id: string, facts: Facts)
    requires Tracked(start, trace, m, registry, dirs, files, rows) && id !in m.lives && Plausible(facts)
    ensures Tracked(start, trace + [Init(id, facts)], Next(m, Init(id, facts)),
                    registry[id := Fresh(facts)], dirs[id := TempDir(Persist(facts), map[])], files, rows)
  {
    hide OnRun;
    var n := Next(m, Init(id, facts));
    assert AllExclusive(n) by { assert forall o :: o in m.lives ==> Quiescent(m.lives[o]); }
    OneStep(start, trace, m, Init(id, facts));
    MirrorChange(registry, dirs, m, registry[id := Fresh(facts)], dirs[id := TempDir(Persist(facts), map[])], n, id);
  }

  /** Sweeping one expired upload keeps the stores on a run of the protocol. */
  lemma SweepTracked(start: Server, trace: seq<Event>, m: Server, registry: map<string, Upload>,
                     dirs: map<string, TempDir>, files: map<string, Bytes>, rows: map<string, nat>,
                     id: string, now: int)
    requires Tracked(start, trace, m, registry, dirs, files, rows) && id in registry && Expired(registry[id], now)
    ensures id in m.lives && Enabled(m, Sweep(id, now))
    ensures Tracked(start, trace + [Sweep(id, now)], Next(m, Sweep(id, now)), registry - {id}, dirs - {id}, files, rows)
  {
    hide OnRun;
    assert MirrorOne(registry, dirs, m, id);
    var n := Next(m, Sweep(id, now));
    assert AllExclusive(n) by { assert forall o :: o in m.lives ==> Quiescent(m.lives[o]); }
    OneStep(start, trace, m, Sweep(id, now));
    MirrorChange(registry, dirs, m, registry - {id}, dirs - {id}, n, id);
  }

  /** A new process that reads every temp directory back is a restart of the protocol. */
  lemma RestartTracked(start: Server, trace: seq<Event>, m: Server, registry: map<string, Upload>,
                       dirs: map<string, TempDir>, files: map<string, Bytes>, rows: map<string, nat>)
    requires Tracked(start, trace, m, registry, dirs, files, rows)
    ensures Enabled(m, Restart)
    ensures Tracked(start, trace + [Restart], Next(m, Restart),
                    map id | id in dirs :: FromChunks(Recall(dirs[id].manifest), dirs[id].chunks), dirs, files, rows)
  {
    hide OnRun, FromChunks, Recall;
    var n := Next(m, Restart);
    assert AllExclusive(n) by { assert forall o :: o in m.lives ==> Quiescent(m.lives[o]); }
    OneStep(start, trace, m, Restart);
    var restored := map id | id in dirs :: FromChunks(Recall(dirs[id].manifest), dirs[id].chunks);
    forall o ensures MirrorOne(restored, dirs, n, o) { assert MirrorOne(registry, dirs, m, o); }
  }

  /** The chunks of a temp directory read back as the protocol's restart reads them. */
  lemma DirectoryReadsBack(start: Server, trace: seq<Event>, m: Server, registry: map<string, Upload>,
                           dirs: map<string, TempDir>, files: map<string, Bytes>, rows: map<string, nat>,
                           id: string, es: seq<DirEntry>)
    requires Tracked(start, trace, m, registry, dirs, files, rows) && id in dirs && Lists(es, dirs[id].chunks)
    ensures Loaded(dirs[id].manifest, es) == FromChunks(Recall(dirs[id].manifest), dirs[id].chunks)
  {
    assert MirrorOne(registry, dirs, m, id) && id in m.lives;
    var l := m.lives[id];
    RegisteredHasDirectory(start, trace, m, id);
    assert Mine(m, id);
    var u := l.entry.value;
    assert Holds(l, u);
    IdleDirectory(l, u);
    LoadedIsFromChunks(u.facts, dirs[id].chunks, es);
  }

  /** The first thing a new process does is a restart of the protocol, read from the directories
      in whatever order they are listed. */
  lemma RestartReadsBack(start: Server, trace: seq<Event>, m: Server, registry: map<string, Upload>,
                         dirs: map<string, TempDir>, files: map<string, Bytes>, rows: map<string, nat>,
                         listing: map<string, seq<DirEntry>>) returns (known: map<string, Upload>)
    requires Tracked(start, trace, m, registry, dirs, files, rows)
    requires forall id :: id in dirs ==> id in listing && Lists(listing[id], dirs[id].chunks)
    ensures Enabled(m, Restart) && Tracked(start, trace + [Restart], Next(m, Restart), known, dirs, files, rows)
    ensures known == map id | id in dirs :: FromChunks(Recall(dirs[id].manifest), dirs[id].chunks)
    ensures forall id :: id in dirs ==> Loaded(dirs[id].manifest, listing[id]) == known[id]
  {
    known := map id | id in dirs :: FromChunks(Recall(dirs[id].manifest), dirs[id].chunks);
    RestartTracked(start, trace, m, registry, dirs, files, rows);
    hide Tracked, FromChunks, Loaded, Recall, Lists, Next, Enabled;
    forall id | id in dirs ensures Loaded(dirs[id].manifest, listing[id]) == known[id] {
      DirectoryReadsBack(start, trace, m, registry, dirs, files, rows, id, listing[id]);
    }
  }

  /** An upload expires when it is more than a day old, in nanoseconds. */
  lemma OlderThanADay(now: int)
    ensures forall u: Upload :: Expired(u, now) <==> now - u.facts.createdAt > 86_400_000_000_000
  {
  }

  class Handlers {
    var registry: map<string, Upload>
    var dirs: map<string, TempDir>
    var files: map<string, Bytes>
    var rows: map<string, nat>
    ghost var start: Server       // the protocol state this history began in
    ghost var trace: seq<Event>   // the protocol steps taken since
    ghost var model: Server       // the state they lead to

    ghost predicate Valid()
      reads this
    {
      Tracked(start, trace, model, registry, dirs, files, rows)
    }

    constructor ()
      ensures Valid() && registry == map[] && dirs == map[] && files == map[] && rows == map[]
    {
      registry, dirs, files, rows := map[], map[], map[], map[];
      start := Server(map[], Store(map[], map[]));
      trace := [];
      model := Server(map[], Store(map[], map[]));
    }

    /** Starts an upload under a fresh id. */
    method InitChunkUpload(id: string, fileName: string, totalSize: int, totalChunks: int, user: string, now: int,
                           extensionOk: bool, maxSize: int, overQuota: Option<bool>, mkdirOk: bool, manifestOk: bool)
      returns (reply: Reply)
      requires Valid() && id !in model.lives && totalChunks <= MAX_INT64
      modifies this
      ensures Valid() && start == old(start) && old(trace) <= trace && files == old(files) && rows == old(rows)
      ensures reply == Ok <==>
        && fileName != "" && 0 < totalSize <= maxSize && 0 < totalChunks && extensionOk
        && overQuota == Some(false) && mkdirOk && manifestOk
      ensures reply == Ok ==>
        var facts := Facts(fileName, totalSize, totalChunks, user, now);
        && registry == old(registry)[id := Fresh(facts)]
        && dirs == old(dirs)[id := TempDir(Persist(facts), map[])]
      ensures reply != Ok ==> registry == old(registry) && dirs == old(dirs)
    {
      if fileName == "" || totalSize <= 0 || totalChunks <= 0 { return BadRequest; }
      if !extensionOk { return BadRequest; }
      if totalSize > maxSize { return TooLarge; }
      if overQuota.None? { return Failure; }
      if overQuota.value { return TooLarge; }
      if !mkdirOk || !manifestOk { return Failure; }
      var facts := Facts(fileName, totalSize, totalChunks, user, now);
      InitTracked(start, trace, model, registry, dirs, files, rows, id, facts);
      trace, model := trace + [Init(id, facts)], Next(model, Init(id, facts));
      dirs := dirs[id := TempDir(Persist(facts), map[])];
      registry := registry[id := Fresh(facts)];
      return Ok;
    }

    /** Removes, entry and temp directory together, exactly the uploads older than a day. */
    method CleanupExpired(now: int)
      requires Valid()
      modifies this
      ensures Valid() && start == old(start) && old(trace) <= trace && files == old(files) && rows == old(rows)
      ensures registry == map id | id in old(registry) && !Expired(old(registry)[id], now) :: old(registry)[id]
      ensures dirs == old(dirs) - (set id | id in old(registry) && Expired(old(registry)[id], now))
      ensures forall id :: id in old(registry) ==>
        (id in registry <==> now - old(registry)[id].facts.createdAt <= 86_400_000_000_000)
    {
      OlderThanADay(now);
      hide Tracked, Expired, Next;
      var todo := registry.Keys;
      ghost var gone: set<string> := {};
      while todo != {}
        invariant Valid() && start == old(start) && old(trace) <= trace && files == old(files) && rows == old(rows)
        invariant todo <= registry.Keys && registry == old(registry) - gone && dirs == old(dirs) - gone
        invariant forall id :: id in old(registry) && id !in todo ==> (id in gone <==> Expired(old(registry)[id], now))
        invariant gone <= old(registry).Keys - todo
      {
        var id :| id in todo;
        todo := todo - {id};
        if Expired(registry[id], now) {
          SweepTracked(start, trace, model, registry, dirs, files, rows, id, now);
          trace, model := trace + [Sweep(id, now)], Next(model, Sweep(id, now));
          dirs := dirs - {id};
          registry := registry - {id};
          gone := gone + {id};
          assert registry == old(registry) - gone && dirs == old(dirs) - gone;
        }
      }
      assert gone == set id | id in old(registry) && Expired(old(registry)[id], now);
    }

    /** What a new process does first: forget the registry and read every temp directory back. */
    method RestoreChunkUploads(listing: map<string, seq<DirEntry>>)
      requires Valid()
      requires forall id :: id in dirs ==> id in listing && Lists(listing[id], dirs[id].chunks)
      modifies this
      ensures Valid() && start == old(start) && trace == old(trace) + [Restart]
      ensures files == old(files) && rows == old(rows) && dirs == old(dirs)
      ensures registry == map id | id in dirs :: FromChunks(Recall(dirs[id].manifest), dirs[id].chunks)
    {
      hide Tracked, FromChunks, Loaded, Recall, Next, Enabled, Lists;
      ghost var known := RestartReadsBack(start, trace, model, registry, dirs, files, rows, listing);
      trace, model := trace + [Restart], Next(model, Restart);
      registry := map[];
      var todo := dirs.Keys;
      while todo != {}
        invariant todo <= dirs.Keys && registry.Keys == dirs.Keys - todo
        invariant forall id :: id in registry ==> id in known && registry[id] == known[id]
        invariant Tracked(start, trace, model, known, dirs, files, rows)
        invariant start == old(start) && trace == old(trace) + [Restart]
        invariant files == old(files) && rows == old(rows) && dirs == old(dirs)
      {
        var id :| id in todo;
        todo := todo - {id};
        var loaded := LoadUploadFromDisk(Some(dirs[id].manifest), listing[id]);
        registry := registry[id := loaded.value];
      }
      assert registry == known;
    }

    /** One chunk request, from lookup to reply. */
    method UploadChunk(id: string, owner: string, index: string, body: Bytes, openOk: bool, readOk: bool)
      returns (reply: Reply)
      requires Valid()
      modifies this
      ensures Valid() && start == old(start) && old(trace) <= trace && files == old(files) && rows == old(rows)
      ensures id !in old(registry) || old(registry)[id].facts.userId != owner ==>
        reply == NotFound && registry == old(registry) && dirs == old(dirs)
      ensures id in old(registry) && old(registry)[id].facts.userId == owner ==>
        var i := ChunkArg(index, old(registry)[id]);
        if i.None? then reply == BadRequest && registry == old(registry) && dirs == old(dirs)
        else
          id in old(dirs) &&
          var (r, u, d) := ChunkEffect(old(registry)[id], old(dirs)[id], i.value, body, openOk, readOk);
          reply == r && registry == old(registry)[id := u] && dirs == old(dirs)[id := d]
    {
      if id !in registry || registry[id].facts.userId != owner { return NotFound; }
      var n := Atoi(index);
      if n.None? || n.value < 0 || n.value >= registry[id].facts.totalChunks { return BadRequest; }
      var i := n.value;
      hide Tracked;
      DirectoryPerEntry(start, trace, model, registry, dirs, files, rows, id);
      trace, model := ChunkTracked(start, trace, model, registry, dirs, files, rows, id, i, body, openOk, readOk);
      var dir := dirs[id];
      if !openOk {
        assert registry == registry[id := registry[id]] && dirs == dirs[id := dir];
        return Failure;
      }
      var written := body[..Min(|body|, CHUNK_LIMIT)];
      if !readOk || written == [] {
        dirs := dirs[id := dir.(chunks := dir.chunks - {i})];
        assert registry == registry[id := registry[id]];
        return if !readOk then Failure else BadRequest;
      }
      var current := Commit(registry[id], i, |written|);
      if current.None? {
        dirs := dirs[id := dir.(chunks := dir.chunks - {i})];
        assert registry == registry[id := registry[id]];
        return TooLarge;
      }
      registry := registry[id := current.value];
      dirs := dirs[id := dir.(chunks := dir.chunks[i := written])];
      return Ok;
    }

    /** Appends the chunks in index order to the new file, stopping at the first that cannot be read. */
    method JoinChunks(dest: string, chunks: map<nat, Bytes>, fault: Option<nat>, total: nat)
      returns (ok: bool, totalSize: nat)
      requires dest in files && files[dest] == []
      modifies `files
      ensures ok <==> FirstBad(chunks, fault, 0, total) == total
      ensures files == old(files)[dest := Concat(chunks, FirstBad(chunks, fault, 0, total))]
      ensures totalSize == |Concat(chunks, FirstBad(chunks, fault, 0, total))|
    {
      totalSize := 0;
      var i: nat := 0;
      while i < total
        invariant i <= FirstBad(chunks, fault, 0, total) && dest in files
        invariant files == old(files)[dest := Concat(chunks, i)] && totalSize == |Concat(chunks, i)|
      {
        if i !in chunks || fault == Some(i) { return false, totalSize; }
        files := files[dest := files[dest] + chunks[i]];
        totalSize := totalSize + |chunks[i]|;
        i := i + 1;
      }
      return true, totalSize;
    }

    /** The part of a finalize call after it has taken the entry: check the count, join the chunks
        in index order, save the share; remove the new file on every failure. */
    method CombineAndSave(upload: Upload, chunks: map<nat, Bytes>, dest: string, createOk: bool,
                          fault: Option<nat>, share: ShareOutcome) returns (reply: Reply)
      modifies `files, `rows
      ensures (reply, files, rows) ==
        FinalizeEffect(upload, chunks, old(files), old(rows), dest, createOk, fault, share)
    {
      hide FirstBad, Concat;
      if |upload.received| != upload.facts.totalChunks { return BadRequest; }
      if !createOk || dest in files { return Failure; }
      files := files[dest := []];
      var joined, totalSize := JoinChunks(dest, chunks, fault, upload.facts.totalChunks);
      if !joined {
        files := files - {dest};
        assert files == old(files);
        return Failure;
      }
      if !share.Stored? {
        files := files - {dest};
        assert files == old(files);
        return if share.OverQuota? then TooLarge else Failure;
      }
      assert files == old(files)[dest := Concat(chunks, upload.facts.totalChunks)];
      rows := rows[dest := totalSize];
      return Ok;
    }

    /** One finalize call: whatever its reply, the entry and the temp directory are gone. */
    method FinalizeChunkUpload(id: string, owner: string, dest: string, createOk: bool, fault: Option<nat>,
                               share: ShareOutcome) returns (reply: Reply)
      requires Valid()
      modifies this
      ensures Valid() && start == old(start) && old(trace) <= trace
      ensures id !in old(registry) || old(registry)[id].facts.userId != owner ==>
        reply == NotFound && registry == old(registry) && dirs == old(dirs) && files == old(files) && rows == old(rows)
      ensures id in old(registry) && old(registry)[id].facts.userId == owner ==>
        && registry == old(registry) - {id} && dirs == old(dirs) - {id} && id in old(dirs)
        && (reply, files, rows) == FinalizeEffect(old(registry)[id], old(dirs)[id].chunks, old(files), old(rows),
                                                  dest, createOk, fault, share)
    {
      hide Tracked, FinalizeEffect;
      if id !in registry || registry[id].facts.userId != owner { return NotFound; }
      DirectoryPerEntry(start, trace, model, registry, dirs, files, rows, id);
      trace, model :=
        FinalizeTracked(start, trace, model, registry, dirs, files, rows, id, dest, createOk, fault, share);
      var upload, chunks := registry[id], dirs[id].chunks;
      registry := registry - {id};
      reply := CombineAndSave(upload, chunks, dest, createOk, fault, share);
      dirs := dirs - {id};
    }
  }
}
