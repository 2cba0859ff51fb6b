/** Concurrent receive-link uploads as a state machine over their atomic file calls and SQL
    statements (ReceiveUpload, internal/handlers/receive.go). */
module ReceiveProtocol {
  import opened Util
  import opened ReceiveTables

  /** Where one request stands. sh is the id of the auto-created share, if any. */
  datatype Stage =
    | Admitted                                       // past the limit check, nothing written
    | Writing                                        // file created
    | Written                                        // file complete and scanned
    | Sharing(sid: string)                           // share file created
    | Ready(sh: Option<string>)                      // auto-share phase over
    | Recorded(sh: Option<string>)                   // row and running total stored
    | UndoFile(sh: Option<string>, hasRow: bool)
    | UndoShare(sh: Option<string>, hasRow: bool)
    | UndoRow
    | Accepted(sh: Option<string>)
    | Refused

  datatype Request = Request(link: string, auto: bool, size: nat, stage: Stage)

  /** disk maps a received file's id to its link; shareFiles and shareRows map a share id to
      the id of the received file it was made from. */
  datatype State = State(
    db: Tables,
    disk: map<string, string>,
    shareFiles: map<string, string>,
    shareRows: map<string, string>,
    reqs: map<string, Request>)   // by file id; finished requests stay as history

  predicate HasFile(s: Stage) {
    s.Writing? || s.Written? || s.Sharing? || s.Ready? || s.Recorded? || s.UndoFile? || s.Accepted?
  }

  predicate HasRow(s: Stage) {
    s.Recorded? || ((s.UndoFile? || s.UndoShare?) && s.hasRow) || s.UndoRow? || s.Accepted?
  }

  function Share(s: Stage): Option<string> {
    match s
    case Ready(sh) => sh
    case Recorded(sh) => sh
    case UndoFile(sh, _) => sh
    case UndoShare(sh, _) => sh
    case Accepted(sh) => sh
    case _ => None
  }

  function ShareFile(s: Stage): Option<string> { if s.Sharing? then Some(s.sid) else Share(s) }

  predicate Ended(s: Stage) { s.Accepted? || s.Refused? }

  datatype Step =
    | Arrive(link: string)
    | Create(ok: bool)
    | Finish(size: nat, ok: bool)          // copy and scan
    | ShareCreate(sid: string, ok: bool)
    | SkipShare
    | ShareSave(ok: bool)
    | Record(ok: bool)
    | Bump(dbOk: bool)
    | Undo

  predicate Allows(r: Request, e: Step) {
    match e
    case Arrive(_) => false
    case Create(_) => r.stage.Admitted?
    case Finish(_, _) => r.stage.Writing?
    case ShareCreate(_, _) => r.stage.Written? && r.auto
    case SkipShare => r.stage.Written? && !r.auto
    case ShareSave(_) => r.stage.Sharing?
    case Record(_) => r.stage.Ready?
    case Bump(_) => r.stage.Recorded?
    case Undo => r.stage.UndoFile? || r.stage.UndoShare? || r.stage.UndoRow?
  }

  predicate Enabled(s: State, f: string, e: Step) {
    if e.Arrive? then
      f !in s.reqs && f !in s.disk && f !in s.db.rows && e.link in s.db.links
    else
      && f in s.reqs && Allows(s.reqs[f], e)
      && (e.ShareCreate? ==> e.sid !in s.shareFiles && e.sid !in s.shareRows)
  }

  function To(s: State, f: string, stage: Stage): State
    requires f in s.reqs
  {
    s.(reqs := s.reqs[f := s.reqs[f].(stage := stage)])
  }

  function Next(s: State, f: string, e: Step): State
    requires Enabled(s, f, e)
  {
    match e
    case Arrive(l) =>
      var link := s.db.links[l];
      if link.maxUploads > 0 && link.current >= link.maxUploads then s
      else s.(reqs := s.reqs[f := Request(l, link.autoShare, 0, Admitted)])
    case Create(ok) =>
      if ok then To(s, f, Writing).(disk := s.disk[f := s.reqs[f].link]) else To(s, f, Refused)
    case Finish(size, ok) =>
      if ok then s.(reqs := s.reqs[f := s.reqs[f].(size := size, stage := Written)])
      else To(s, f, Refused).(disk := s.disk - {f})
    case ShareCreate(sid, ok) =>
      if ok then To(s, f, Sharing(sid)).(shareFiles := s.shareFiles[sid := f]) else To(s, f, Ready(None))
    case SkipShare => To(s, f, Ready(None))
    case ShareSave(ok) =>
      var sid := s.reqs[f].stage.sid;
      if ok then To(s, f, Ready(Some(sid))).(shareRows := s.shareRows[sid := f])
      else To(s, f, Ready(None)).(shareFiles := s.shareFiles - {sid})
    case Record(ok) =>
      var r := s.reqs[f];
      var n := if ok then SaveRow(s.db, f, Row(r.link, r.size, r.stage.sh)) else None;
      if n.Some? then To(s, f, Recorded(r.stage.sh)).(db := n.value) else To(s, f, UndoFile(r.stage.sh, false))
    case Bump(dbOk) =>
      var r := s.reqs[f];
      var n := if dbOk then Increment(s.db, r.link) else None;
      if n.Some? then To(s, f, Accepted(r.stage.sh)).(db := n.value) else To(s, f, UndoFile(r.stage.sh, true))
    case Undo => Undone(s, f)
  }

  function Undone(s: State, f: string): State
    requires f in s.reqs
  {
    match s.reqs[f].stage
    case UndoFile(sh, hasRow) => To(s, f, UndoShare(sh, hasRow)).(disk := s.disk - {f})
    case UndoShare(sh, hasRow) =>
      var t := To(s, f, if hasRow then UndoRow else Refused);
      if sh.None? then t
      else t.(shareFiles := s.shareFiles - {sh.value}, shareRows := s.shareRows - {sh.value})
    case UndoRow =>
      var n := DeleteRow(s.db, s.reqs[f].link, f);
      To(s, f, Refused).(db := if n.Some? then n.value else s.db, disk := s.disk - {f})
    case _ => s
  }

  // ----- the invariant -----

  /** One request owns exactly the file, row and share its stage says. */
  ghost predicate Owns(s: State, f: string) {
    var has := f in s.reqs;
    && (f in s.disk <==> has && HasFile(s.reqs[f].stage))
    && (f in s.disk ==> s.disk[f] == s.reqs[f].link)
    && (f in s.db.rows <==> has && HasRow(s.reqs[f].stage))
    && (f in s.db.rows && !s.reqs[f].stage.UndoRow? ==> s.db.rows[f].share == Share(s.reqs[f].stage))
    && (f in s.db.rows ==> s.db.rows[f].link == s.reqs[f].link && s.db.rows[f].size == s.reqs[f].size)
    && (has ==> s.reqs[f].link in s.db.links)
  }

  ghost predicate OwnsShare(s: State, f: string, sid: string) {
    && (sid in s.shareFiles && s.shareFiles[sid] == f <==> f in s.reqs && ShareFile(s.reqs[f].stage) == Some(sid))
    && (sid in s.shareRows && s.shareRows[sid] == f <==> f in s.reqs && Share(s.reqs[f].stage) == Some(sid))
  }

  ghost function AcceptedOf(s: State, l: string): set<string> {
    set f | f in s.reqs && s.reqs[f].link == l && s.reqs[f].stage.Accepted?
  }

  /** Requests whose row is stored and that have neither been counted nor had it removed. */
  ghost function BetweenOf(s: State, l: string): set<string> {
    set f | f in s.reqs && s.reqs[f].link == l && HasRow(s.reqs[f].stage) && !s.reqs[f].stage.Accepted?
  }

  ghost function RowsOf(s: State, l: string): set<string> {
    set f | f in s.db.rows && s.db.rows[f].link == l
  }

  ghost predicate Counted(s: State, l: string) {
    l in s.db.links ==>
      && s.db.links[l].current == |AcceptedOf(s, l)|
      && (s.db.links[l].maxUploads > 0 ==> s.db.links[l].current <= s.db.links[l].maxUploads)
  }

  ghost predicate Inv(s: State) {
    && Balanced(s.db)
    && (forall f :: Owns(s, f))
    && (forall f, sid :: OwnsShare(s, f, sid))
    && (forall l :: Counted(s, l))
  }

  /** New links, nothing uploaded yet. */
  lemma StartIsSound(links: map<string, Link>)
    requires forall l :: l in links ==> links[l].current == 0 && links[l].totalSize == 0
    ensures Inv(State(Tables(links, map[]), map[], map[], map[], map[]))
  {
    var s := State(Tables(links, map[]), map[], map[], map[], map[]);
    forall l ensures SizesOf(s.db.rows, l) == map[] && AcceptedOf(s, l) == {} {}
  }

  /** What the tables and the disk say about one file id. */
  function View(s: State, f: string): (Option<Request>, Option<string>, Option<Row>) {
    (if f in s.reqs then Some(s.reqs[f]) else None,
     if f in s.disk then Some(s.disk[f]) else None,
     if f in s.db.rows then Some(s.db.rows[f]) else None)
  }

  predicate SameCount(l: Link, m: Link) { l.current == m.current && l.maxUploads == m.maxUploads }

  lemma SaveView(t: Tables, f: string, r: Row, g: string)
    requires SaveRow(t, f, r).Some?
    ensures var n := SaveRow(t, f, r).value;
      && n.links.Keys == t.links.Keys && f !in t.rows && n.rows == t.rows[f := r]
      && (forall l :: l in n.links ==> SameCount(n.links[l], t.links[l]))
  {
  }

  lemma DeleteView(t: Tables, l: string, f: string)
    ensures var o := DeleteRow(t, l, f);
      o.Some? ==>
        && o.value.links.Keys == t.links.Keys && o.value.rows == t.rows - {f}
        && (forall k :: k in t.links ==> SameCount(o.value.links[k], t.links[k]))
    ensures DeleteRow(t, l, f).None? <==> f !in t.rows || t.rows[f].link != l
  {
  }

  lemma IncrementView(t: Tables, l: string)
    ensures var o := Increment(t, l);
      o.Some? ==>
        && o.value.links.Keys == t.links.Keys && o.value.rows == t.rows
        && o.value.links[l].current == t.links[l].current + 1
        && (t.links[l].maxUploads > 0 ==> t.links[l].current < t.links[l].maxUploads)
        && (forall k :: k in t.links ==> o.value.links[k].maxUploads == t.links[k].maxUploads)
        && (forall k :: k in t.links && k != l ==> o.value.links[k].current == t.links[k].current)
  {
  }

  lemma FileViews(s: State, f: string, e: Step)
    requires Enabled(s, f, e)
    ensures var n := Next(s, f, e); n.reqs - {f} == s.reqs - {f} && n.disk - {f} == s.disk - {f}
  {
    ReqsViews(s, f, e);
    var n := Next(s, f, e);
    hide Next, Enabled;
    if n.reqs != s.reqs { assert s.reqs[f := n.reqs[f]] - {f} == s.reqs - {f}; }
  }

  lemma ReqsViews(s: State, f: string, e: Step)
    requires Enabled(s, f, e)
    ensures var n := Next(s, f, e); n.reqs == s.reqs || (f in n.reqs && n.reqs == s.reqs[f := n.reqs[f]])
  {
    hide SaveRow, DeleteRow, Increment, HasRoom, Deposit, Undone;
    if e.Undo? { UndoReqs(s, f); }
  }

  lemma UndoReqs(s: State, f: string)
    requires f in s.reqs
    ensures var n := Undone(s, f); f in n.reqs && n.reqs == s.reqs[f := n.reqs[f]]
  {
    hide DeleteRow;
  }

  lemma SameElsewhere<V>(m: map<string, V>, n: map<string, V>, f: string, g: string)
    requires m - {f} == n - {f} && g != f
    ensures g in m <==> g in n
    ensures g in m ==> m[g] == n[g]
  {
    assert g in m <==> g in m - {f};
    assert g in n <==> g in n - {f};
    if g in m { assert m[g] == (m - {f})[g] == (n - {f})[g] == n[g]; }
  }

  /** A step of one request changes nothing about another file id. */
  lemma ViewElsewhere(s: State, f: string, e: Step, g: string)
    requires Enabled(s, f, e) && g != f
    ensures View(Next(s, f, e), g) == View(s, g)
    ensures Next(s, f, e).db.links.Keys == s.db.links.Keys
  {
    var n := Next(s, f, e);
    FileViews(s, f, e);
    hide Next, Enabled;
    SameElsewhere(s.reqs, n.reqs, f, g);
    SameElsewhere(s.disk, n.disk, f, g);
    SameElsewhere(s.db.rows, n.db.rows, f, g);
  }

  lemma FileStepOwns(s: State, f: string, e: Step)
    requires Owns(s, f) && Enabled(s, f, e) && (e.Arrive? || e.Create? || e.Finish?)
    ensures Owns(Next(s, f, e), f)
  {
  }

  lemma SharingOwns(s: State, f: string, e: Step)
    requires Owns(s, f) && Enabled(s, f, e) && (e.ShareCreate? || e.SkipShare? || e.ShareSave?)
    ensures Owns(Next(s, f, e), f)
  {
  }

  lemma StepOwns(s: State, f: string, e: Step)
    requires Owns(s, f) && Enabled(s, f, e)
    ensures Owns(Next(s, f, e), f)
  {
    hide Owns, Next, Enabled;
    match e
    case Arrive(_) => FileStepOwns(s, f, e);
    case Create(_) => FileStepOwns(s, f, e);
    case Finish(_, _) => FileStepOwns(s, f, e);
    case ShareCreate(_, _) => SharingOwns(s, f, e);
    case SkipShare => SharingOwns(s, f, e);
    case ShareSave(_) => SharingOwns(s, f, e);
    case Record(ok) => RecordOwns(s, f, ok);
    case Bump(dbOk) => BumpOwns(s, f, dbOk);
    case Undo => UndoOwns(s, f);
  }

  lemma RecordOwns(s: State, f: string, ok: bool)
    requires Owns(s, f) && Enabled(s, f, Record(ok))
    ensures Owns(Next(s, f, Record(ok)), f)
  {
    hide SaveRow;
    var r := s.reqs[f];
    var row := Row(r.link, r.size, r.stage.sh);
    if SaveRow(s.db, f, row).Some? { SaveView(s.db, f, row, f); }
  }

  lemma BumpOwns(s: State, f: string, dbOk: bool)
    requires Owns(s, f) && Enabled(s, f, Bump(dbOk))
    ensures Owns(Next(s, f, Bump(dbOk)), f)
  {
    hide Increment;
    IncrementView(s.db, s.reqs[f].link);
  }

  lemma UndoOwns(s: State, f: string)
    requires Owns(s, f) && Enabled(s, f, Undo)
    ensures Owns(Next(s, f, Undo), f)
  {
    hide DeleteRow;
    DeleteView(s.db, s.reqs[f].link, f);
  }

  lemma NextOwns(s: State, f: string, e: Step, g: string)
    requires Owns(s, g) && Owns(s, f) && Enabled(s, f, e)
    ensures Owns(Next(s, f, e), g)
  {
    if g == f {
      StepOwns(s, f, e);
    } else {
      ViewElsewhere(s, f, e, g);
    }
  }

  /** The one SQL statement a step issues, if any. */
  function StatementOf(s: State, f: string, e: Step): Option<Statement>
    requires Enabled(s, f, e)
  {
    match e
    case Record(true) => Some(Save(f, Row(s.reqs[f].link, s.reqs[f].size, s.reqs[f].stage.sh)))
    case Bump(true) => Some(Count(s.reqs[f].link))
    case Undo => if s.reqs[f].stage.UndoRow? then Some(Delete(s.reqs[f].link, f)) else None
    case _ => None
  }

  lemma NextDb(s: State, f: string, e: Step)
    requires Enabled(s, f, e)
    ensures Next(s, f, e).db ==
      if StatementOf(s, f, e).Some? then Execute(s.db, StatementOf(s, f, e).value) else s.db
  {
    hide SaveRow, DeleteRow, Increment;
  }

  lemma NextBalanced(s: State, f: string, e: Step)
    requires Balanced(s.db) && Enabled(s, f, e)
    ensures Balanced(Next(s, f, e).db)
  {
    NextDb(s, f, e);
    hide Next, Balanced, Execute;
    if StatementOf(s, f, e).Some? { ExecuteBalances(s.db, StatementOf(s, f, e).value); }
  }

  lemma NextOwnsShare(s: State, f: string, e: Step, g: string, sid: string)
    requires OwnsShare(s, g, sid) && OwnsShare(s, f, sid) && Enabled(s, f, e)
    ensures OwnsShare(Next(s, f, e), g, sid)
  {
    hide Next, Enabled, OwnsShare;
    match e
    case ShareCreate(_, _) => ShareStepOwns(s, f, e, g, sid);
    case ShareSave(_) => ShareStepOwns(s, f, e, g, sid);
    case Undo => UndoOwnsShare(s, f, g, sid);
    case _ => OtherStepOwnsShare(s, f, e, g, sid);
  }

  lemma OtherStepOwnsShare(s: State, f: string, e: Step, g: string, sid: string)
    requires OwnsShare(s, g, sid) && Enabled(s, f, e)
    requires !e.ShareCreate? && !e.ShareSave? && !e.Undo?
    ensures OwnsShare(Next(s, f, e), g, sid)
  {
    OtherStepShares(s, f, e);
    if g != f { ViewElsewhere(s, f, e, g); }
    hide Next, Enabled;
  }

  lemma OtherStepShares(s: State, f: string, e: Step)
    requires Enabled(s, f, e) && !e.ShareCreate? && !e.ShareSave? && !e.Undo?
    ensures var n := Next(s, f, e);
      && n.shareFiles == s.shareFiles && n.shareRows == s.shareRows
      && (f in s.reqs ==>
          && f in n.reqs && ShareFile(n.reqs[f].stage) == ShareFile(s.reqs[f].stage)
          && Share(n.reqs[f].stage) == Share(s.reqs[f].stage))
      && (f !in s.reqs && f in n.reqs ==> ShareFile(n.reqs[f].stage) == None == Share(n.reqs[f].stage))
  {
    hide SaveRow, Increment, HasRoom;
  }

  lemma ShareStepOwns(s: State, f: string, e: Step, g: string, sid: string)
    requires OwnsShare(s, g, sid) && OwnsShare(s, f, sid) && Enabled(s, f, e) && (e.ShareCreate? || e.ShareSave?)
    ensures OwnsShare(Next(s, f, e), g, sid)
  {
  }

  lemma UndoOwnsShare(s: State, f: string, g: string, sid: string)
    requires OwnsShare(s, g, sid) && OwnsShare(s, f, sid) && Enabled(s, f, Undo)
    ensures OwnsShare(Next(s, f, Undo), g, sid)
  {
    hide DeleteRow;
    match s.reqs[f].stage
    case UndoShare(sh, hasRow) => UndoShareOwns(s, f, g, sid);
    case _ =>
  }

  lemma UndoShareOwns(s: State, f: string, g: string, sid: string)
    requires OwnsShare(s, g, sid) && OwnsShare(s, f, sid) && f in s.reqs && s.reqs[f].stage.UndoShare?
    ensures OwnsShare(Undone(s, f), g, sid)
  {
  }

  lemma CurrentMoves(s: State, f: string, e: Step, l: string)
    requires Enabled(s, f, e) && l in s.db.links
    ensures var n := Next(s, f, e);
      var wins := f in n.reqs && n.reqs[f].stage.Accepted? && n.reqs[f].link == l && e.Bump?;
      && l in n.db.links && n.db.links[l].maxUploads == s.db.links[l].maxUploads
      && n.db.links[l].current == s.db.links[l].current + (if wins then 1 else 0)
      && (wins && s.db.links[l].maxUploads > 0 ==> s.db.links[l].current < s.db.links[l].maxUploads)
  {
    if e.Undo? { DeleteView(s.db, s.reqs[f].link, f); }
  }

  /** A request is accepted by the step that counts it, and by no other. */
  lemma BumpAccepts(s: State, f: string, e: Step)
    requires Enabled(s, f, e)
    ensures f in s.reqs ==> !s.reqs[f].stage.Accepted?
    ensures var n := Next(s, f, e); f in n.reqs && n.reqs[f].stage.Accepted? ==> e.Bump?
  {
    hide SaveRow, DeleteRow, Increment, HasRoom;
  }

  lemma AcceptedMoves(s: State, f: string, e: Step, l: string)
    requires Enabled(s, f, e)
    ensures var n := Next(s, f, e);
      var wins := f in n.reqs && n.reqs[f].stage.Accepted? && n.reqs[f].link == l && e.Bump?;
      AcceptedOf(n, l) == (if wins then AcceptedOf(s, l) + {f} else AcceptedOf(s, l)) && f !in AcceptedOf(s, l)
  {
    var n := Next(s, f, e);
    BumpAccepts(s, f, e);
    hide Next, Enabled;
    forall g | g != f ensures g in AcceptedOf(n, l) <==> g in AcceptedOf(s, l) {
      ViewElsewhere(s, f, e, g);
      assert View(n, g) == View(s, g);
    }
  }

  lemma NextCounted(s: State, f: string, e: Step, l: string)
    requires Counted(s, l) && Enabled(s, f, e)
    ensures Counted(Next(s, f, e), l)
  {
    var n := Next(s, f, e);
    AcceptedMoves(s, f, e, l);
    if l in s.db.links { CurrentMoves(s, f, e, l); }
    hide Next, Enabled;
  }

  /** Every step of every interleaving keeps the invariant. */
  lemma NextKeepsInv(s: State, f: string, e: Step)
    requires Inv(s) && Enabled(s, f, e)
    ensures Inv(Next(s, f, e))
  {
    NextBalanced(s, f, e);
    forall g ensures Owns(Next(s, f, e), g) { NextOwns(s, f, e, g); }
    forall g, sid ensures OwnsShare(Next(s, f, e), g, sid) { NextOwnsShare(s, f, e, g, sid); }
    forall l ensures Counted(Next(s, f, e), l) { NextCounted(s, f, e, l); }
  }

  // ----- whole runs -----

  datatype Move = Move(f: string, e: Step)

  ghost predicate Allowed(s: State, ms: seq<Move>)
    decreases |ms|
  {
    ms == [] || (Enabled(s, ms[0].f, ms[0].e) && Allowed(Next(s, ms[0].f, ms[0].e), ms[1..]))
  }

  ghost function Run(s: State, ms: seq<Move>): State
    requires Allowed(s, ms)
    decreases |ms|
  {
    if ms == [] then s else Run(Next(s, ms[0].f, ms[0].e), ms[1..])
  }

  lemma {:induction false} RunKeepsInv(s: State, ms: seq<Move>)
    requires Inv(s) && Allowed(s, ms)
    ensures Inv(Run(s, ms))
    decreases |ms|
  {
    if ms != [] {
      NextKeepsInv(s, ms[0].f, ms[0].e);
      RunKeepsInv(Next(s, ms[0].f, ms[0].e), ms[1..]);
    }
  }

  /** At every moment a link's rows are its counted uploads plus the requests between saving
      their row and having it counted or removed; the limit, when set, is never exceeded; and
      the running total is the size of the rows. */
  lemma RowsAreCountedPlusInFlight(s: State, ms: seq<Move>, l: string)
    requires Inv(s) && Allowed(s, ms) && l in Run(s, ms).db.links
    ensures var n := Run(s, ms);
      var link := n.db.links[l];
      && |RowsOf(n, l)| == link.current + |BetweenOf(n, l)|
      && (link.maxUploads > 0 ==> link.current <= link.maxUploads)
      && link.totalSize == MapSum(SizesOf(n.db.rows, l))
  {
    RunKeepsInv(s, ms);
    var n := Run(s, ms);
    assert Counted(n, l);
    RowsPartition(n, l);
    hide Allowed, RowsOf, BetweenOf, AcceptedOf, SizesOf, MapSum;
  }

  lemma RowsPartition(s: State, l: string)
    requires forall f :: Owns(s, f)
    ensures |RowsOf(s, l)| == |AcceptedOf(s, l)| + |BetweenOf(s, l)|
  {
    forall f ensures f in RowsOf(s, l) <==> f in AcceptedOf(s, l) + BetweenOf(s, l) { assert Owns(s, f); }
    assert RowsOf(s, l) == AcceptedOf(s, l) + BetweenOf(s, l);
    assert AcceptedOf(s, l) !! BetweenOf(s, l);
  }

  ghost predicate AllEnded(s: State) { forall f :: f in s.reqs ==> Ended(s.reqs[f].stage) }

  /** When every request has ended, a received file is on disk iff it has a row, exactly the
      accepted requests have them, and each link's counter is its number of rows. */
  lemma SettledState(s: State, ms: seq<Move>)
    requires Inv(s) && Allowed(s, ms) && AllEnded(Run(s, ms))
    ensures var n := Run(s, ms);
      && (forall f :: f in n.disk <==> f in n.db.rows)
      && (forall f :: f in n.db.rows <==> f in n.reqs && n.reqs[f].stage.Accepted?)
      && (forall l :: l in n.db.links ==> |RowsOf(n, l)| == n.db.links[l].current)
      && n.shareFiles == n.shareRows
  {
    RunKeepsInv(s, ms);
    var n := Run(s, ms);
    forall f ensures (f in n.disk <==> f in n.db.rows)
        && (f in n.db.rows <==> f in n.reqs && n.reqs[f].stage.Accepted?) { assert Owns(n, f); }
    forall l | l in n.db.links ensures |RowsOf(n, l)| == n.db.links[l].current {
      assert Counted(n, l);
      forall f ensures f in RowsOf(n, l) <==> f in AcceptedOf(n, l) { assert Owns(n, f); }
      assert RowsOf(n, l) == AcceptedOf(n, l);
    }
    forall sid ensures (sid in n.shareFiles <==> sid in n.shareRows)
        && (sid in n.shareFiles ==> n.shareFiles[sid] == n.shareRows[sid]) {
      if sid in n.shareFiles { assert OwnsShare(n, n.shareFiles[sid], sid); }
      if sid in n.shareRows { assert OwnsShare(n, n.shareRows[sid], sid); }
    }
  }

  /** A refused request leaves nothing: no file, no row, no share file, no share row, and none of
      its bytes in the link's total. */
  lemma RefusedLeavesNothing(s: State, ms: seq<Move>, f: string)
    requires Inv(s) && Allowed(s, ms) && f in Run(s, ms).reqs && Run(s, ms).reqs[f].stage.Refused?
    ensures var n := Run(s, ms);
      && f !in n.disk && f !in n.db.rows
      && (forall sid :: sid in n.shareFiles ==> n.shareFiles[sid] != f)
      && (forall sid :: sid in n.shareRows ==> n.shareRows[sid] != f)
      && n.reqs[f].link in n.db.links
      && n.db.links[n.reqs[f].link].totalSize == MapSum(SizesOf(n.db.rows, n.reqs[f].link))
      && f !in SizesOf(n.db.rows, n.reqs[f].link)
  {
    RunKeepsInv(s, ms);
    var n := Run(s, ms);
    assert Owns(n, f);
    forall sid
      ensures (sid in n.shareFiles ==> n.shareFiles[sid] != f) && (sid in n.shareRows ==> n.shareRows[sid] != f)
    {
      assert OwnsShare(n, f, sid);
    }
  }
}
