/** A client of the upload handlers: it starts an upload, sends its pieces under their printed indices
    and finalizes, and so stores its file. */
module ChunkRoundTrip {
  import opened Util
  import opened Decimal
  import opened ChunkPersist
  import opened ChunkProtocol
  import opened ChunkSafety
  import opened ChunkTheorems
  import opened ChunkServer

  /** The chunks on disk once the pieces listed have been sent. */
  function Sent(pieces: seq<Bytes>, order: seq<nat>): map<nat, Bytes> {
    map k | k in order && k < |pieces| :: pieces[k]
  }

  lemma SentSnoc(pieces: seq<Bytes>, order: seq<nat>, i: nat)
    requires i < |pieces|
    ensures Sent(pieces, order + [i]) == Sent(pieces, order)[i := pieces[i]]
    ensures Sizes(Sent(pieces, order + [i])) == Sizes(Sent(pieces, order))[i := |pieces[i]|]
  {
  }

  /** The entry that goes with the chunks d. */
  ghost predicate EntryOf(u: Upload, facts: Facts, d: map<nat, Bytes>) {
    && u.facts == facts && u.received == d.Keys && u.sizes == Sizes(d)
    && u.receivedBytes == SumTo(u.sizes, facts.totalChunks)
  }

  /** A whole piece always fits the declared size. */
  lemma PieceFits(u: Upload, pieces: seq<Bytes>, order: seq<nat>, i: nat)
    requires i < |pieces| && EntryOf(u, u.facts, Sent(pieces, order))
    requires u.facts.totalChunks == |pieces| && u.facts.totalSize == |Flatten(pieces)|
    ensures Commit(u, i, |pieces[i]|).Some?
    ensures EntryOf(Commit(u, i, |pieces[i]|).value, u.facts, Sent(pieces, order + [i]))
  {
    var n, size := |pieces|, |pieces[i]|;
    var all := map k: nat | k < n :: |pieces[k]|;
    SentSnoc(pieces, order, i);
    SumToUpdate(u.sizes, i, size, n);
    FlattenSize(pieces, all);
    assert forall k: nat :: k < n ==> At(u.sizes[i := size], k) <= At(all, k);
    hide Sent, Flatten;
    SumToMonotone(u.sizes[i := size], all, n);
  }

  /** A piece sent, for the first time or again, is accepted and stored under its own index. */
  lemma PieceIsStored(u: Upload, dir: TempDir, pieces: seq<Bytes>, order: seq<nat>, i: nat)
    requires i < |pieces| && 0 < |pieces[i]| <= 10 * 1024 * 1024
    requires EntryOf(u, u.facts, Sent(pieces, order)) && dir.chunks == Sent(pieces, order)
    requires u.facts.totalChunks == |pieces| <= MAX_INT64 && u.facts.totalSize == |Flatten(pieces)|
    ensures ChunkArg(Itoa(i), u) == Some(i)
    ensures var (r, v, d) := ChunkEffect(u, dir, i, pieces[i], true, true);
      && r == Ok && EntryOf(v, u.facts, Sent(pieces, order + [i]))
      && d == dir.(chunks := Sent(pieces, order + [i]))
  {
    ArgIsIndex(u, i);
    LimitedIsPrefix(pieces[i]);
    SentSnoc(pieces, order, i);
    PieceFits(u, pieces, order, i);
    hide Sent, EntryOf, Flatten, ChunkArg, Commit;
  }

  /** With every piece sent, finalize assembles the file. */
  lemma AllSentIsAssembled(u: Upload, pieces: seq<Bytes>, order: seq<nat>, files: map<string, Bytes>,
                           rows: map<string, nat>, dest: string)
    requires forall i: nat :: i < |pieces| ==> i in order
    requires EntryOf(u, u.facts, Sent(pieces, order)) && u.facts.totalChunks == |pieces| && dest !in files
    ensures FinalizeEffect(u, Sent(pieces, order), files, rows, dest, true, None, Stored) ==
      (Ok, files[dest := Flatten(pieces)], rows[dest := |Flatten(pieces)|])
  {
    var chunks, n := Sent(pieces, order), |pieces|;
    FullCount(chunks.Keys, n);
    ConcatOfPieces(chunks, pieces, n);
    assert pieces[..n] == pieces;
    FinalizeReplies(u, chunks, files, rows, dest, true, None, Stored);
  }

  /** The upload under way: the pieces listed have arrived, and nothing else has changed since. */
  ghost predicate Arrived(registry: map<string, Upload>, dirs: map<string, TempDir>, id: string, facts: Facts,
                          pieces: seq<Bytes>, order: seq<nat>) {
    && id in registry && id in dirs && registry[id].facts == facts
    && EntryOf(registry[id], facts, Sent(pieces, order)) && dirs[id].chunks == Sent(pieces, order)
  }

  ghost predicate Cut(facts: Facts, owner: string, pieces: seq<Bytes>) {
    && facts.totalChunks == |pieces| <= MAX_INT64 && facts.totalSize == |Flatten(pieces)| && facts.userId == owner
    && forall i :: 0 <= i < |pieces| ==> 0 < |pieces[i]| <= 10 * 1024 * 1024
  }

  /** Sends piece i under its printed index. */
  method SendPiece(h: Handlers, id: string, owner: string, pieces: seq<Bytes>, i: nat,
                   ghost order: seq<nat>, ghost facts: Facts)
    requires h.Valid() && Cut(facts, owner, pieces) && i < |pieces|
    requires Arrived(h.registry, h.dirs, id, facts, pieces, order)
    modifies h
    ensures h.Valid() && h.files == old(h.files) && h.rows == old(h.rows)
    ensures Arrived(h.registry, h.dirs, id, facts, pieces, order + [i])
    ensures h.registry - {id} == old(h.registry) - {id} && h.dirs - {id} == old(h.dirs) - {id}
  {
    PieceIsStored(h.registry[id], h.dirs[id], pieces, order, i);
    hide ChunkEffect, ChunkArg, Flatten, Tracked, Sent;
    var reply := h.UploadChunk(id, owner, Itoa(i), pieces[i], true, true);
  }

  /** Without faults, a file cut into non-empty pieces of at most 10 MiB is stored byte for byte,
      whatever the order the pieces are sent in and however often each. */
  method UploadFile(h: Handlers, id: string, name: string, owner: string, now: int, maxSize: int,
                    pieces: seq<Bytes>, order: seq<nat>, dest: string)
    requires h.Valid() && id !in h.model.lives && dest !in h.files
    requires name != "" && 0 < |pieces| <= MAX_INT64 && |Flatten(pieces)| <= maxSize
    requires forall i :: 0 <= i < |pieces| ==> 0 < |pieces[i]| <= 10 * 1024 * 1024
    requires (forall k :: k in order ==> k < |pieces|) && forall i: nat :: i < |pieces| ==> i in order
    modifies h
    ensures h.Valid() && h.registry == old(h.registry) && h.dirs == old(h.dirs)
    ensures h.files == old(h.files)[dest := Flatten(pieces)]
    ensures h.rows == old(h.rows)[dest := |Flatten(pieces)|]
  {
    var size := |Flatten(pieces)|;
    ghost var facts := Facts(name, size, |pieces|, owner, now);
    ghost var registry, dirs := h.registry, h.dirs;
    NothingSent(pieces, facts);
    UnknownIsUnregistered(h.start, h.trace, h.model, h.registry, h.dirs, h.files, h.rows, id);
    var reply := h.InitChunkUpload(id, name, size, |pieces|, owner, now, true, maxSize, Some(false), true, true);
    assert Arrived(h.registry, h.dirs, id, facts, pieces, []) && Cut(facts, owner, pieces);
    hide FinalizeEffect, Flatten, Tracked, Sent, EntryOf, Cut;
    for k := 0 to |order|
      invariant h.Valid() && h.files == old(h.files) && h.rows == old(h.rows)
      invariant Arrived(h.registry, h.dirs, id, facts, pieces, order[..k])
      invariant h.registry - {id} == registry && h.dirs - {id} == dirs
    {
      assert order[k] in order && order[..k + 1] == order[..k] + [order[k]];
      SendPiece(h, id, owner, pieces, order[k], order[..k], facts);
    }
    assert order[..|order|] == order;
    AllSentIsAssembled(h.registry[id], pieces, order, h.files, h.rows, dest);
    reply := h.FinalizeChunkUpload(id, owner, dest, true, None, Stored);
  }

  lemma UnknownIsUnregistered(start: Server, trace: seq<Event>, m: Server, registry: map<string, Upload>,
                              dirs: map<string, TempDir>, files: map<string, Bytes>, rows: map<string, nat>,
                              id: string)
    requires Tracked(start, trace, m, registry, dirs, files, rows) && id !in m.lives
    ensures id !in registry && id !in dirs
  {
    assert MirrorOne(registry, dirs, m, id);
  }

  lemma NothingSent(pieces: seq<Bytes>, facts: Facts)
    ensures Sent(pieces, []) == map[] && EntryOf(Fresh(facts), facts, Sent(pieces, []))
  {
    SumToEmpty(map[], facts.totalChunks);
  }
}
