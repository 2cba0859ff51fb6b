/** The activity log (internal/storage/events.go) and its paged export (internal/handlers/events.go).
    Rows hold the text of their time; all ordering is by text, then by id. */
module EventLog {
  import opened Util
  import opened Timestamps

  datatype Event = Event(id: string, at: string, kind: string, actor: string, share: string, link: string, rest: string)

  /** Empty fields and absent times do not filter. */
  datatype Filter = Filter(
    share: string, link: string, kind: string, actor: string,
    since: Option<Time>, until: Option<Time>, limit: int, offset: int)

  const PAGE: nat := 500
  const EXPORT_ROWS: nat := 100_000

  /** The WHERE clause built from a filter: since is inclusive, until exclusive. */
  predicate Matches(f: Filter, e: Event) {
    && (f.share != "" ==> e.share == f.share)
    && (f.link != "" ==> e.link == f.link)
    && (f.kind != "" ==> e.kind == f.kind)
    && (f.actor != "" ==> e.actor == f.actor)
    && (f.since.Some? ==> !Less(e.at, Format(f.since.value)))
    && (f.until.Some? ==> Less(e.at, Format(f.until.value)))
  }

  function Select(f: Filter, table: seq<Event>): seq<Event> {
    if table == [] then []
    else
      var rest := Select(f, table[1..]);
      if Matches(f, table[0]) then [table[0]] + rest else rest
  }

  // ----- ORDER BY at DESC, id DESC -----

  predicate Above(d: Event, e: Event) { Less(e.at, d.at) || (e.at == d.at && Less(e.id, d.id)) }

  function Insert(e: Event, es: seq<Event>): seq<Event> {
    if es == [] || Above(e, es[0]) then [e] + es else [es[0]] + Insert(e, es[1..])
  }

  function Newest(es: seq<Event>): seq<Event> {
    if es == [] then [] else Insert(es[0], Newest(es[1..]))
  }

  ghost predicate Descending(es: seq<Event>) {
    forall i, j :: 0 <= i < j < |es| ==> Above(es[i], es[j])
  }

  ghost predicate DistinctIds(es: seq<Event>) {
    forall i, j :: 0 <= i < j < |es| ==> es[i].id != es[j].id
  }

  lemma {:induction false} LessTotal(a: string, b: string)
    ensures a == b || Less(a, b) || Less(b, a)
  {
    if a != "" && b != "" {
      LessTotal(a[1..], b[1..]);
      assert a == [a[0]] + a[1..] && b == [b[0]] + b[1..];
    }
  }

  lemma {:induction false} LessTransitive(a: string, b: string, c: string)
    requires Less(a, b) && Less(b, c)
    ensures Less(a, c)
  {
    if a != "" && a[0] == b[0] == c[0] { LessTransitive(a[1..], b[1..], c[1..]); }
  }

  lemma AboveTransitive(c: Event, d: Event, e: Event)
    requires Above(c, d) && Above(d, e)
    ensures Above(c, e)
  {
    if Less(e.at, d.at) && Less(d.at, c.at) { LessTransitive(e.at, d.at, c.at); }
    if Less(e.id, d.id) && Less(d.id, c.id) { LessTransitive(e.id, d.id, c.id); }
  }

  lemma {:induction false} InsertKeepsOrder(e: Event, es: seq<Event>)
    requires Descending(es) && forall i :: 0 <= i < |es| ==> es[i].id != e.id
    ensures Descending(Insert(e, es)) && multiset(Insert(e, es)) == multiset{e} + multiset(es)
  {
    if es == [] {
    } else if Above(e, es[0]) {
      forall i | 0 <= i < |es| ensures Above(e, es[i]) {
        if i > 0 { AboveTransitive(e, es[0], es[i]); }
      }
    } else {
      InsertKeepsOrder(e, es[1..]);
      LessTotal(e.at, es[0].at);
      LessTotal(e.id, es[0].id);
      var rest := Insert(e, es[1..]);
      forall i | 0 <= i < |rest| ensures Above(es[0], rest[i]) {
        assert rest[i] in multiset(rest);
        if rest[i] != e { assert rest[i] in es[1..]; }
      }
      assert es == [es[0]] + es[1..];
    }
  }

  /** The query's order: strictly descending by time text and then id, every row once. */
  lemma {:induction false} NewestSorts(es: seq<Event>)
    requires DistinctIds(es)
    ensures Descending(Newest(es)) && multiset(Newest(es)) == multiset(es)
  {
    if es != [] {
      NewestSorts(es[1..]);
      var rest := Newest(es[1..]);
      hide Above, Insert, Descending;
      forall i | 0 <= i < |rest| ensures rest[i].id != es[0].id {
        assert rest[i] in multiset(rest);
        assert rest[i] in es[1..];
      }
      InsertKeepsOrder(es[0], rest);
      assert es == [es[0]] + es[1..];
    }
  }

  lemma {:induction false} SelectFinds(f: Filter, table: seq<Event>)
    requires DistinctIds(table)
    ensures DistinctIds(Select(f, table))
    ensures forall e :: e in Select(f, table) <==> e in table && Matches(f, e)
  {
    if table != [] {
      SelectFinds(f, table[1..]);
      assert forall e :: e in Select(f, table[1..]) ==> e in table[1..] && e.id != table[0].id;
    }
  }

  /** Everything a filter finds, newest first. */
  function Found(f: Filter, table: seq<Event>): seq<Event> { Newest(Select(f, table)) }

  /** LIMIT and OFFSET, with the limit clamped to a page and a negative offset read as zero. */
  function Page(f: Filter, table: seq<Event>): seq<Event> {
    var found := Found(f, table);
    var from := Min(Max(f.offset, 0), |found|);
    found[from..Min(from + PageLimit(f), |found|)]
  }

  function PageLimit(f: Filter): nat { if f.limit <= 0 || f.limit > PAGE then PAGE else f.limit }

  /** A row is found exactly if it is in the table and matches; in strictly falling order each
      row is there once. */
  lemma FoundIsTheLog(f: Filter, table: seq<Event>)
    requires DistinctIds(table)
    ensures Descending(Found(f, table))
    ensures forall e :: e in Found(f, table) <==> e in table && Matches(f, e)
  {
    SelectFinds(f, table);
    var selected := Select(f, table);
    NewestSorts(selected);
    forall e ensures e in Found(f, table) <==> e in selected {
      assert e in multiset(Found(f, table)) <==> e in multiset(selected);
    }
  }

  // ----- a page, said without sorting -----

  ghost function Matching(f: Filter, table: seq<Event>): set<Event> { set e | e in table && Matches(f, e) }

  /** How many matching rows are newer than e. */
  ghost function Rank(f: Filter, table: seq<Event>, e: Event): nat { |set d | d in Matching(f, table) && Above(d, e)| }

  lemma AboveIsStrict(d: Event, e: Event)
    requires Above(d, e)
    ensures !Above(e, d)
  {
    if Above(e, d) {
      AboveTransitive(d, e, d);
      NotLessSelf(d.at);
      NotLessSelf(d.id);
    }
  }

  function Rows(es: seq<Event>): set<Event> { set e | e in es }

  lemma DescendingIsDistinct(es: seq<Event>, i: nat, j: nat)
    requires Descending(es) && i < |es| && j < |es| && es[i] == es[j]
    ensures i == j
  {
    if i < j { AboveIsStrict(es[i], es[j]); }
    if j < i { AboveIsStrict(es[j], es[i]); }
  }

  lemma {:induction false} PrefixCount(es: seq<Event>, i: nat)
    requires Descending(es) && i <= |es|
    ensures |Rows(es[..i])| == i
  {
    if i == 0 {
      assert es[..0] == [];
    } else {
      PrefixCount(es, i - 1);
      var e := es[i - 1];
      NotBefore(es, i - 1);
      hide Descending, Rows;
      assert es[..i] == es[..i - 1] + [e];
      RowsSnoc(es[..i - 1], e);
    }
  }

  lemma RowsSnoc(es: seq<Event>, e: Event)
    requires e !in es
    ensures |Rows(es + [e])| == |Rows(es)| + 1
  {
    assert Rows(es + [e]) == Rows(es) + {e};
  }

  lemma NotBefore(es: seq<Event>, i: nat)
    requires Descending(es) && i < |es|
    ensures es[i] !in es[..i]
  {
    if es[i] in es[..i] {
      var j :| 0 <= j < i && es[j] == es[i];
      DescendingIsDistinct(es, j, i);
    }
  }

  /** In a descending listing a row stands at its rank. */
  lemma RankIsPosition(f: Filter, table: seq<Event>, i: nat)
    requires DistinctIds(table) && i < |Found(f, table)|
    ensures Rank(f, table, Found(f, table)[i]) == i
  {
    var found := Found(f, table);
    FoundIsTheLog(f, table);
    PrefixCount(found, i);
    var above := set d | d in Matching(f, table) && Above(d, found[i]);
    forall d ensures d in above <==> d in found[..i] {
      if d in above {
        var j :| 0 <= j < |found| && found[j] == d;
        AboveIsStrict(d, found[i]);
      }
    }
    assert above == Rows(found[..i]);
  }

  /** A slice of a descending listing holds exactly the rows standing in it. */
  lemma InSlice(es: seq<Event>, from: nat, to: nat, i: nat)
    requires Descending(es) && from <= to <= |es| && i < |es|
    ensures es[i] in es[from..to] <==> from <= i < to
  {
    var slice := es[from..to];
    if from <= i < to { assert slice[i - from] == es[i]; }
    if es[i] in slice {
      var k :| 0 <= k < |slice| && slice[k] == es[i];
      DescendingIsDistinct(es, from + k, i);
    }
  }

  /** A row is on the page iff it matches and the number of matching rows newer than it lies in
      [offset, offset + limit), a limit outside 1 to 500 being read as 500 and a negative offset as 0. */
  lemma PageIsByRank(f: Filter, table: seq<Event>, e: Event)
    requires DistinctIds(table)
    ensures Descending(Page(f, table))
    ensures e in Page(f, table) <==>
      && e in Matching(f, table)
      && (var (from, limit) := (Max(f.offset, 0), if 1 <= f.limit <= 500 then f.limit else 500);
          from <= Rank(f, table, e) < from + limit)
  {
    FoundIsTheLog(f, table);
    var found := Found(f, table);
    var from := Min(Max(f.offset, 0), |found|);
    var to := Min(from + PageLimit(f), |found|);
    assert Page(f, table) == found[from..to] && (e in found <==> e in Matching(f, table));
    hide Found, Matching, Rank, Descending, Page;
    SliceDescends(found, from, to);
    if e in found {
      var i :| 0 <= i < |found| && found[i] == e;
      RankIsPosition(f, table, i);
      InSlice(found, from, to, i);
    } else {
      assert e !in found[from..to];
    }
  }

  lemma SliceDescends(es: seq<Event>, from: nat, to: nat)
    requires Descending(es) && from <= to <= |es|
    ensures Descending(es[from..to])
  {
  }

  /** The total is the number of matching rows. */
  lemma TotalIsMatching(f: Filter, table: seq<Event>)
    requires DistinctIds(table)
    ensures |Found(f, table)| == |Matching(f, table)|
  {
    var found := Found(f, table);
    FoundIsTheLog(f, table);
    PrefixCount(found, |found|);
    assert found[..|found|] == found;
    assert Matching(f, table) == Rows(found);
  }

  function Before(table: seq<Event>, text: string): seq<Event> {
    if table == [] then []
    else
      var rest := Before(table[1..], text);
      if Less(table[0].at, text) then rest else [table[0]] + rest
  }

  lemma {:induction false} BeforeKeeps(table: seq<Event>, text: string)
    requires DistinctIds(table)
    ensures DistinctIds(Before(table, text)) && |Before(table, text)| <= |table|
    ensures forall e :: e in Before(table, text) <==> e in table && !Less(e.at, text)
  {
    if table != [] {
      BeforeKeeps(table[1..], text);
      assert forall e :: e in Before(table[1..], text) ==> e in table[1..] && e.id != table[0].id;
    }
  }

  /** A log's rows hold the texts of these times. */
  ghost predicate Logged(table: seq<Event>, times: map<string, Time>) {
    && DistinctIds(table)
    && forall e :: e in table ==> e.id in times && times[e.id] < END && e.at == Format(times[e.id])
  }

  /** The text comparisons of a filter are comparisons of times to the second. */
  lemma WindowIsByTime(f: Filter, table: seq<Event>, times: map<string, Time>, e: Event)
    requires Logged(table, times) && e in table
    requires (f.since.Some? ==> f.since.value < END) && (f.until.Some? ==> f.until.value < END)
    ensures e in Found(f, table) <==>
      && (f.share == "" || e.share == f.share) && (f.link == "" || e.link == f.link)
      && (f.kind == "" || e.kind == f.kind) && (f.actor == "" || e.actor == f.actor)
      && (f.since.Some? ==> Second(f.since.value) <= Second(times[e.id]))
      && (f.until.Some? ==> Second(times[e.id]) < Second(f.until.value))
  {
    FoundIsTheLog(f, table);
    if f.since.Some? { FormatOrder(times[e.id], f.since.value); }
    if f.until.Some? { FormatOrder(times[e.id], f.until.value); }
  }

  /** Rows are listed from the latest second to the earliest, those of one second by falling id. */
  lemma FoundIsNewestFirst(f: Filter, table: seq<Event>, times: map<string, Time>, i: nat, j: nat)
    requires Logged(table, times) && i < j < |Found(f, table)|
    ensures var found := Found(f, table);
      && found[i] in table && found[j] in table && found[i].id != found[j].id
      && Second(times[found[i].id]) >= Second(times[found[j].id])
      && (Second(times[found[i].id]) == Second(times[found[j].id]) ==> Less(found[j].id, found[i].id))
  {
    FoundIsTheLog(f, table);
    var found := Found(f, table);
    assert found[i] in found && found[j] in found && Above(found[i], found[j]);
    FormatOrder(times[found[j].id], times[found[i].id]);
    NotLessSelf(found[i].id);
  }

  /** A page read where the last one ended extends the run of rows; a short page ends the log. */
  lemma NextPage(found: seq<Event>, offset: nat, exported: nat)
    requires exported == 0 || offset + exported <= |found|
    ensures var from := Min(offset, |found|);
      var at := Min(offset + exported, |found|);
      var page := found[at..Min(at + PAGE, |found|)];
      && found[from..Min(from + exported, |found|)] + page == found[from..Min(from + exported + PAGE, |found|)]
      && (|page| == PAGE ==> offset + exported + PAGE <= |found|)
      && (|page| < PAGE ==> from + exported + PAGE > |found|)
  {
  }

  class Log {
    var table: seq<Event>

    /** When each logged event happened; the table only keeps the text. */
    ghost var times: map<string, Time>

    ghost predicate Valid()
      reads this
    {
      Logged(table, times)
    }

    constructor ()
      ensures Valid() && table == []
    {
      table, times := [], map[];
    }

    /** Appends one row; a used id or an empty kind leaves the log unchanged. */
    method RecordEvent(e: Event, at: Time) returns (ok: bool)
      requires Valid() && at < END
      modifies this
      ensures Valid()
      ensures ok <==> e.kind != "" && forall d :: d in old(table) ==> d.id != e.id
      ensures table == if ok then old(table) + [e.(at := Format(at))] else old(table)
      ensures times == if ok then old(times)[e.id := at] else old(times)
    {
      if e.kind == "" || exists d :: d in table && d.id == e.id { return false; }
      table, times := table + [e.(at := Format(at))], times[e.id := at];
      return true;
    }

    /** Deletes exactly the events of an earlier second than the cutoff's: nothing at or after
        the cutoff goes, and nothing a full second older stays. */
    method PurgeEventsBefore(cutoff: Time) returns (purged: nat)
      requires Valid() && cutoff < END
      modifies `table
      ensures Valid() && times == old(times)
      ensures forall e :: e in table <==> e in old(table) && Second(times[e.id]) >= Second(cutoff)
      ensures forall e :: e in old(table) && times[e.id] >= cutoff ==> e in table
      ensures forall e :: e in table ==> times[e.id] + SECOND > cutoff
      ensures purged == |old(table)| - |table|
    {
      var text := Format(cutoff);
      ghost var was := table;
      BeforeKeeps(was, text);
      var kept := Before(table, text);
      purged := |table| - |kept|;
      table := kept;
      forall e | e in was ensures Less(e.at, text) <==> Second(times[e.id]) < Second(cutoff) {
        FormatOrder(times[e.id], cutoff);
      }
    }

    /** One page of the log: the matching rows of rank offset to offset + limit, newest first, and
        the number of matching rows. */
    method ListEvents(f: Filter) returns (page: seq<Event>, total: nat)
      requires Valid()
      ensures page == Page(f, table) && Descending(page)
      ensures forall e :: e in page <==>
        && e in Matching(f, table)
        && Max(f.offset, 0) <= Rank(f, table, e) < Max(f.offset, 0) + PageLimit(f)
      ensures total == |Matching(f, table)|
    {
      TotalIsMatching(f, table);
      forall e { PageIsByRank(f, table, e); }
      var found := Found(f, table);
      var limit := if f.limit <= 0 || f.limit > PAGE then PAGE else f.limit;
      var from := Min(Max(f.offset, 0), |found|);
      return found[from..Min(from + limit, |found|)], |found|;
    }

    /** Pages through the log from the filter's offset on. readable is the number of page reads
        before one fails. The rows paged are one contiguous run of the log, each once, newest
        first; paging stops at 100000 rows, at the first failed read, or at the end. */
    method ExportEvents(f: Filter, readable: nat) returns (out: seq<Event>)
      requires Valid() && 0 <= f.offset
      ensures var found := Found(f, table);
        var from := Min(f.offset, |found|);
        out == found[from..Min(from + Min(100_000, 500 * readable), |found|)]
    {
      var exported, offset, pages := 0, f.offset, 0;
      out := [];
      ghost var found := Found(f, table);
      hide Select, Newest;
      ghost var from := Min(f.offset, |found|);
      while exported < EXPORT_ROWS
        invariant exported == PAGE * pages && pages <= readable && pages <= 200
        invariant offset == f.offset + exported
        invariant out == found[from..Min(from + exported, |found|)] && (pages > 0 ==> offset <= |found|)
        decreases EXPORT_ROWS - exported
      {
        if pages == readable { return; }
        var g := f.(limit := PAGE, offset := offset);
        var page, _ := ListEvents(g);
        assert Found(g, table) == found by { SameFilter(f, g, table); }
        NextPage(found, f.offset, exported);
        out := out + page;
        if |page| < PAGE { return; }
        exported, offset, pages := exported + |page|, offset + |page|, pages + 1;
      }
    }
  }

  lemma {:induction false} SameFilter(f: Filter, g: Filter, table: seq<Event>)
    requires g == f.(limit := g.limit, offset := g.offset)
    ensures Select(f, table) == Select(g, table)
  {
    if table != [] { SameFilter(f, g, table[1..]); }
  }
}
