/** The receive_links and received_files tables with the statements that update them
    (internal/storage/sqlite.go); each statement or transaction is atomic. */
module ReceiveTables {
  import opened Util

  datatype Link = Link(maxUploads: int, current: nat, totalSize: nat, autoShare: bool, userId: string)

  /** A received_files row. */
  datatype Row = Row(link: string, size: nat, share: Option<string>)

  datatype Tables = Tables(links: map<string, Link>, rows: map<string, Row>)

  ghost function SizesOf(rows: map<string, Row>, link: string): map<string, nat> {
    map f | f in rows && rows[f].link == link :: rows[f].size
  }

  /** The running totals agree with the rows. */
  ghost predicate Balanced(t: Tables) {
    && (forall f :: f in t.rows ==> t.rows[f].link in t.links)
    && (forall l :: l in t.links ==> t.links[l].totalSize == MapSum(SizesOf(t.rows, l)))
  }

  function Deposit(t: Tables, link: string, amount: nat): Tables {
    if link !in t.links then t
    else t.(links := t.links[link := t.links[link].(totalSize := t.links[link].totalSize + amount)])
  }

  /** SaveReceivedFile: one transaction; a used id or a missing link leaves nothing. */
  function SaveRow(t: Tables, f: string, r: Row): Option<Tables> {
    if f in t.rows || r.link !in t.links then None
    else Some(Deposit(t, r.link, r.size).(rows := t.rows[f := r]))
  }

  /** DeleteReceivedFile: the total never goes below zero. */
  function DeleteRow(t: Tables, link: string, f: string): Option<Tables> {
    if f !in t.rows || t.rows[f].link != link then None
    else if link !in t.links then Some(t.(rows := t.rows - {f}))
    else
      var left := Max(0, t.links[link].totalSize - t.rows[f].size);
      Some(Tables(t.links[link := t.links[link].(totalSize := left)], t.rows - {f}))
  }

  predicate HasRoom(l: Link) { l.maxUploads == 0 || l.current < l.maxUploads }

  /** IncrementReceiveLinkUploads: the counter moves only below the limit. */
  function Increment(t: Tables, link: string): Option<Tables> {
    if link !in t.links || !HasRoom(t.links[link]) then None
    else Some(t.(links := t.links[link := t.links[link].(current := t.links[link].current + 1)]))
  }

  lemma OtherLinkSizes(rows: map<string, Row>, f: string, r: Row, l: string)
    requires f !in rows && r.link != l
    ensures SizesOf(rows[f := r], l) == SizesOf(rows, l)
  {
  }

  lemma SaveBalances(t: Tables, f: string, r: Row)
    requires Balanced(t) && SaveRow(t, f, r).Some?
    ensures Balanced(SaveRow(t, f, r).value)
  {
    var n := SaveRow(t, f, r).value;
    forall l | l in n.links ensures n.links[l].totalSize == MapSum(SizesOf(n.rows, l)) {
      if l == r.link {
        assert SizesOf(n.rows, l) == SizesOf(t.rows, l)[f := r.size];
        MapSumPut(SizesOf(t.rows, l), f, r.size);
      } else {
        OtherLinkSizes(t.rows, f, r, l);
      }
    }
  }

  /** On balanced tables the MAX(0, ...) of a delete never clamps: it takes away exactly the
      row's bytes. */
  lemma DeleteBalances(t: Tables, link: string, f: string)
    requires Balanced(t) && DeleteRow(t, link, f).Some?
    ensures Balanced(DeleteRow(t, link, f).value)
    ensures DeleteRow(t, link, f).value.links[link].totalSize == t.links[link].totalSize - t.rows[f].size >= 0
  {
    var n := DeleteRow(t, link, f).value;
    MapSumTake(SizesOf(t.rows, link), f);
    assert SizesOf(n.rows, link) == SizesOf(t.rows, link) - {f};
    forall l | l in n.links && l != link ensures n.links[l].totalSize == MapSum(SizesOf(n.rows, l)) {
      OtherLinkKeeps(t.rows, f, l);
    }
  }

  lemma OtherLinkKeeps(rows: map<string, Row>, f: string, l: string)
    requires f in rows && rows[f].link != l
    ensures SizesOf(rows - {f}, l) == SizesOf(rows, l)
  {
  }

  lemma IncrementBalances(t: Tables, link: string)
    requires Balanced(t) && Increment(t, link).Some?
    ensures Balanced(Increment(t, link).value)
  {
  }

  // ----- conservation over any sequence of statements -----

  datatype Statement = Save(f: string, r: Row) | Delete(link: string, f: string) | Count(link: string)

  function Execute(t: Tables, s: Statement): Tables {
    var n := match s
      case Save(f, r) => SaveRow(t, f, r)
      case Delete(l, f) => DeleteRow(t, l, f)
      case Count(l) => Increment(t, l);
    if n.Some? then n.value else t
  }

  function ExecuteAll(t: Tables, ss: seq<Statement>): Tables
    decreases |ss|
  {
    if ss == [] then t else ExecuteAll(Execute(t, ss[0]), ss[1..])
  }

  lemma ExecuteBalances(t: Tables, s: Statement)
    requires Balanced(t)
    ensures Balanced(Execute(t, s))
  {
    match s
    case Save(f, r) => if SaveRow(t, f, r).Some? { SaveBalances(t, f, r); }
    case Delete(l, f) => if DeleteRow(t, l, f).Some? { DeleteBalances(t, l, f); }
    case Count(l) => if Increment(t, l).Some? { IncrementBalances(t, l); }
  }

  /** Over every sequence of saves, deletes and counter steps each link's total_size stays the
      sum of its rows' sizes. */
  lemma {:induction false} BytesAreConserved(t: Tables, ss: seq<Statement>)
    requires Balanced(t)
    ensures Balanced(ExecuteAll(t, ss))
    decreases |ss|
  {
    if ss != [] {
      ExecuteBalances(t, ss[0]);
      BytesAreConserved(Execute(t, ss[0]), ss[1..]);
    }
  }

  // ----- what a user's receive links hold -----

  function LinksOf(t: Tables, user: string): set<string> {
    set l | l in t.links && t.links[l].userId == user
  }

  function TotalsOf(t: Tables, ls: set<string>): map<string, nat> {
    map l | l in t.links && l in ls :: t.links[l].totalSize
  }

  function SizesIn(rows: map<string, Row>, ls: set<string>): map<string, nat> {
    map f | f in rows && rows[f].link in ls :: rows[f].size
  }

  /** Summing total_size over a set of links counts every byte received through them once. */
  lemma {:induction false} TotalsAreReceivedBytes(t: Tables, ls: set<string>)
    requires Balanced(t) && ls <= t.links.Keys
    ensures MapSum(TotalsOf(t, ls)) == MapSum(SizesIn(t.rows, ls))
    decreases ls
  {
    hide MapSum;
    if ls == {} {
      assert SizesIn(t.rows, ls) == map[] == TotalsOf(t, ls);
    } else {
      var l :| l in ls;
      var rest := ls - {l};
      TotalsAreReceivedBytes(t, rest);
      MapSumTake(TotalsOf(t, ls), l);
      assert TotalsOf(t, ls) - {l} == TotalsOf(t, rest);
      assert SizesIn(t.rows, ls) == SizesOf(t.rows, l) + SizesIn(t.rows, rest);
      MapSumUnion(SizesOf(t.rows, l), SizesIn(t.rows, rest));
    }
  }
}
