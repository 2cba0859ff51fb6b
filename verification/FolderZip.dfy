/** The folder download: a pruned directory walk that fills a ZIP under a byte budget
    (internal/handlers/folder.go). Children are listed in walk order. */
module FolderZip {
  import opened Util
  import opened Decimal

  /** Unreadable is an entry the walk reports with an error. */
  datatype Node =
    | File(name: string, size: nat)
    | Symlink(name: string)
    | Unreadable(name: string)
    | Folder(name: string, children: seq<Node>)

  type Path = seq<string>   // components below the shared folder

  datatype Entry = Entry(name: string, size: nat)

  predicate Hidden(name: string) { name != "" && name[0] == '.' }

  function Join(p: Path): string {
    if p == [] then "" else if |p| == 1 then p[0] else Join(p[..|p| - 1]) + "/" + p[|p| - 1]
  }

  predicate SlashDotDotAt(s: string, i: int) { 0 <= i <= |s| - 3 && s[i..i + 3] == "/.." }

  predicate HasDotDot(s: string) { ".." <= s || exists i :: 0 <= i < |s| && SlashDotDotAt(s, i) }

  // ----- the flat specification -----

  /** Every entry below node in walk order, nothing pruned. */
  function Traverse(node: Node, p: Path): seq<(Path, Node)>
    decreases node
  {
    [(p, node)] + if node.Folder? then TraverseAll(node.children, p) else []
  }

  function TraverseAll(nodes: seq<Node>, p: Path): seq<(Path, Node)>
    decreases nodes
  {
    if nodes == [] then [] else Traverse(nodes[0], p + [nodes[0].name]) + TraverseAll(nodes[1..], p)
  }

  predicate Shown(item: (Path, Node)) {
    && item.0 != [] && (item.1.File? || item.1.Folder?)
    && forall i :: 0 <= i < |item.0| ==> !Hidden(item.0[i])
  }

  function Visible(items: seq<(Path, Node)>): seq<(Path, Node)> {
    if items == [] then [] else (if Shown(items[0]) then [items[0]] else []) + Visible(items[1..])
  }

  function Size(n: Node): nat { if n.File? then n.size else 0 }

  predicate Overruns(n: Node, used: nat, budget: int) { n.File? && used + n.size > budget }

  /** The longest prefix before the first file that would overrun the budget. */
  function Taken(items: seq<(Path, Node)>, used: nat, budget: int): seq<(Path, Node)> {
    if items == [] || Overruns(items[0].1, used, budget) then []
    else [items[0]] + Taken(items[1..], used + Size(items[0].1), budget)
  }

  function Total(items: seq<(Path, Node)>): nat {
    if items == [] then 0 else Size(items[0].1) + Total(items[1..])
  }

  function Entries(items: seq<(Path, Node)>): seq<Entry> {
    if items == [] then []
    else
      var (p, n) := items[0];
      [Entry(if n.Folder? then Join(p) + "/" else Join(p), Size(n))] + Entries(items[1..])
  }

  // ----- facts about the specification -----

  lemma {:induction false} VisibleConcat(a: seq<(Path, Node)>, b: seq<(Path, Node)>)
    ensures Visible(a + b) == Visible(a) + Visible(b)
  {
    if a == [] {
      assert a + b == b;
    } else {
      VisibleConcat(a[1..], b);
      hide Shown;
      assert (a + b)[1..] == a[1..] + b && (a + b)[0] == a[0];
      var first := if Shown(a[0]) then [a[0]] else [];
      assert first + (Visible(a[1..]) + Visible(b)) == first + Visible(a[1..]) + Visible(b);
    }
  }

  lemma {:induction false} TakenConcat(a: seq<(Path, Node)>, b: seq<(Path, Node)>, used: nat, budget: int)
    ensures Taken(a, used, budget) == a ==> Taken(a + b, used, budget) == a + Taken(b, used + Total(a), budget)
    ensures Taken(a, used, budget) != a ==> Taken(a + b, used, budget) == Taken(a, used, budget)
    ensures |Taken(a, used, budget)| == |a| ==> Taken(a, used, budget) == a
  {
    if a == [] {
      assert a + b == b;
    } else {
      TakenConcat(a[1..], b, used + Size(a[0].1), budget);
      assert (a + b)[1..] == a[1..] + b && [a[0]] + a[1..] == a;
    }
  }

  lemma {:induction false} EntriesConcat(a: seq<(Path, Node)>, b: seq<(Path, Node)>)
    ensures Entries(a + b) == Entries(a) + Entries(b) && Total(a + b) == Total(a) + Total(b)
  {
    if a == [] {
      assert a + b == b;
    } else {
      EntriesConcat(a[1..], b);
      assert (a + b)[1..] == a[1..] + b && (a + b)[0] == a[0];
      var (p, n) := a[0];
      var first := [Entry(if n.Folder? then Join(p) + "/" else Join(p), Size(n))];
      hide Join, Size;
      assert Entries(a) == first + Entries(a[1..]) && Entries(a + b) == first + Entries(a[1..] + b);
      Associate(first, Entries(a[1..]), Entries(b));
    }
  }

  lemma {:induction false} TraverseAllSnoc(nodes: seq<Node>, k: nat, p: Path)
    requires k < |nodes|
    ensures TraverseAll(nodes[..k + 1], p) == TraverseAll(nodes[..k], p) + Traverse(nodes[k], p + [nodes[k].name])
    decreases k
  {
    if k == 0 {
      assert nodes[..1][1..] == [];
    } else {
      TraverseAllSnoc(nodes[1..], k - 1, p);
      assert nodes[..k + 1][1..] == nodes[1..][..k] && nodes[..k][1..] == nodes[1..][..k - 1];
    }
  }

  lemma {:induction false} TraverseAllSplit(nodes: seq<Node>, k: nat, p: Path)
    requires k <= |nodes|
    ensures TraverseAll(nodes, p) == TraverseAll(nodes[..k], p) + TraverseAll(nodes[k..], p)
    decreases k
  {
    if k != 0 {
      TraverseAllSplit(nodes[1..], k - 1, p);
      assert nodes[..k][1..] == nodes[1..][..k - 1] && nodes[k..] == nodes[1..][k - 1..];
    }
  }

  /** Nothing below a hidden component is shown. */
  lemma {:induction false} HiddenBelow(node: Node, p: Path)
    requires p != [] && Hidden(p[|p| - 1])
    ensures Visible(Traverse(node, p)) == []
    decreases node, 0
  {
    TraverseExtends(node, p);
    HiddenItems(Traverse(node, p), p);
  }

  lemma {:induction false} TraverseExtends(node: Node, p: Path)
    ensures forall i :: 0 <= i < |Traverse(node, p)| ==> p <= Traverse(node, p)[i].0
    decreases node
  {
    if node.Folder? { TraverseAllExtends(node.children, p); }
  }

  lemma {:induction false} TraverseAllExtends(nodes: seq<Node>, p: Path)
    ensures forall i :: 0 <= i < |TraverseAll(nodes, p)| ==> p <= TraverseAll(nodes, p)[i].0
    decreases nodes
  {
    if nodes != [] {
      TraverseExtends(nodes[0], p + [nodes[0].name]);
      TraverseAllExtends(nodes[1..], p);
    }
  }

  /** Items under a hidden component are not shown. */
  lemma {:induction false} HiddenItems(items: seq<(Path, Node)>, p: Path)
    requires p != [] && Hidden(p[|p| - 1]) && forall i :: 0 <= i < |items| ==> p <= items[i].0
    ensures Visible(items) == []
  {
    if items != [] {
      assert forall i :: 0 <= i < |items| - 1 ==> items[1..][i] == items[i + 1];
      HiddenItems(items[1..], p);
      assert items[0].0[|p| - 1] == p[|p| - 1];
    }
  }

  /** Archived bytes never exceed the budget. */
  lemma {:induction false} TakenWithinBudget(items: seq<(Path, Node)>, used: nat, budget: int)
    requires used <= budget
    ensures used + Total(Taken(items, used, budget)) <= budget
  {
    if items != [] && !Overruns(items[0].1, used, budget) {
      TakenWithinBudget(items[1..], used + Size(items[0].1), budget);
    }
  }

  // ----- the later path check -----

  predicate PlainName(name: string) { name != "" && '/' !in name }

  lemma {:induction false} JoinHasNoDotDot(p: Path)
    requires p != [] && forall i :: 0 <= i < |p| ==> PlainName(p[i]) && !Hidden(p[i])
    ensures Join(p) != "" && Join(p)[0] != '.' && !HasDotDot(Join(p))
  {
    if |p| > 1 {
      var front, last := Join(p[..|p| - 1]), p[|p| - 1];
      JoinHasNoDotDot(p[..|p| - 1]);
      var s := front + "/" + last;
      forall i | 0 <= i <= |s| - 3 ensures !SlashDotDotAt(s, i) {
        if i + 3 <= |front| {
          assert s[i..i + 3] == front[i..i + 3] && !SlashDotDotAt(front, i);
        } else if i == |front| {
          assert s[i + 1] == last[0];
        } else if i > |front| {
          assert s[i] == last[i - |front| - 1];
        } else {
          assert s[|front|] == '/' && (s[i + 1] == '/' || s[i + 2] == '/');
        }
      }
    } else {
      forall i | 0 <= i <= |p[0]| - 3 ensures !SlashDotDotAt(p[0], i) { assert p[0][i] != '/'; }
    }
  }

  predicate WellNamed(node: Node) {
    PlainName(node.name) &&
    (node.Folder? ==> forall i :: 0 <= i < |node.children| ==> WellNamed(node.children[i]))
  }

  // ----- the walk -----

  datatype Action = Continue | SkipDir | Stop

  /** MAX_FOLDER_ZIP_GB: always a positive budget, never one whose shift could wrap. */
  method GetMaxFolderZipBytes(raw: string) returns (r: int)
    ensures 0x4000_0000 <= r <= 0x4_0000_0000_0000
    ensures raw == "" || Atoi(raw).None? || Atoi(raw).value <= 0 ==> r == 10 * 0x4000_0000
    ensures Atoi(raw).Some? && 0 < Atoi(raw).value ==> r == Min(Atoi(raw).value, 0x10_0000) * 0x4000_0000
  {
    if raw == "" { return 10 * 0x4000_0000; }
    var n := Atoi(raw);
    if n.None? || n.value <= 0 { return 10 * 0x4000_0000; }
    var gb := n.value;
    if gb > 0x10_0000 { gb := 0x10_0000; }
    return gb * 0x4000_0000;
  }

  class ZipWalk {
    const maxZipBytes: int
    var streamedBytes: nat
    var archive: seq<Entry>

    constructor (maxZipBytes: int)
      ensures this.maxZipBytes == maxZipBytes && streamedBytes == 0 && archive == []
    {
      this.maxZipBytes, streamedBytes, archive := maxZipBytes, 0, [];
    }

    /** The callback: what it does with one entry, and how the walk goes on. */
    method Visit(node: Node, p: Path) returns (a: Action)
      requires maxZipBytes > 0
      requires p != [] ==> p[|p| - 1] == node.name
      requires forall i :: 0 <= i < |p| - 1 ==> !Hidden(p[i])
      requires forall i :: 0 <= i < |p| ==> PlainName(p[i])
      modifies this
      ensures a.SkipDir? <==> node.Folder? && p != [] && Hidden(node.name)
      ensures a.Stop? <==> (p == [] || !Hidden(node.name)) && Overruns(node, old(streamedBytes), maxZipBytes)
      ensures var items := if a.Continue? && Shown((p, node)) then [(p, node)] else [];
        archive == old(archive) + Entries(items) && streamedBytes == old(streamedBytes) + Total(items)
    {
      if node.Unreadable? { return Continue; }
      if node.Symlink? { return Continue; }
      if Hidden(node.name) && p != [] {
        if node.Folder? { return SkipDir; }
        return Continue;
      }
      if !node.Folder? && maxZipBytes > 0 && streamedBytes + node.size > maxZipBytes { return Stop; }
      if p == [] { return Continue; }
      JoinHasNoDotDot(p);
      var relPath := Join(p);
      if HasDotDot(relPath) { return Continue; }
      var name := if node.Folder? then relPath + "/" else relPath;
      assert Entries([(p, node)]) == [Entry(name, Size(node))] by { assert [(p, node)][1..] == []; }
      archive := archive + [Entry(name, Size(node))];
      if node.File? { streamedBytes := streamedBytes + node.size; }
      return Continue;
    }

    /** The walk below one node; true means it was cut off. */
    method Walk(node: Node, p: Path) returns (stopped: bool)
      requires maxZipBytes > 0 && WellNamed(node)
      requires p != [] ==> p[|p| - 1] == node.name
      requires forall i :: 0 <= i < |p| - 1 ==> !Hidden(p[i])
      requires forall i :: 0 <= i < |p| ==> PlainName(p[i])
      modifies this
      ensures var items := Visible(Traverse(node, p));
        var taken := Taken(items, old(streamedBytes), maxZipBytes);
        && archive == old(archive) + Entries(taken) && streamedBytes == old(streamedBytes) + Total(taken)
        && (p != [] || node.Folder? ==> (stopped <==> taken != items))
      decreases node, 1
    {
      ghost var before := archive;
      var a := Visit(node, p);
      assert Traverse(node, p)[1..] == if node.Folder? then TraverseAll(node.children, p) else [];
      if a.Stop? { return true; }
      if !node.Folder? { return false; }
      if a.SkipDir? {
        HiddenBelow(node, p);
        return false;
      }
      StartOfFolder(node, p, streamedBytes, maxZipBytes);
      stopped := WalkChildren(node, p, before);
    }

    /** The walk stands after the first k children of node, having taken all of them. */
    ghost predicate At(node: Node, p: Path, k: nat, before: seq<Entry>, used: nat)
      requires node.Folder? && k <= |node.children|
      reads this
    {
      var seen := Seen(node, p, k);
      Taken(seen, used, maxZipBytes) == seen && archive == before + Entries(seen) && streamedBytes == used + Total(seen)
    }

    /** The loop over a folder's children, the folder itself already entered. */
    method WalkChildren(node: Node, p: Path, ghost before: seq<Entry>) returns (stopped: bool)
      requires maxZipBytes > 0 && WellNamed(node) && node.Folder? && archive == before + Entries(Seen(node, p, 0))
      requires forall i :: 0 <= i < |p| ==> !Hidden(p[i]) && PlainName(p[i])
      modifies this
      ensures var items := Visible(Traverse(node, p));
        var taken := Taken(items, old(streamedBytes), maxZipBytes);
        && (stopped <==> taken != items)
        && archive == before + Entries(taken) && streamedBytes == old(streamedBytes) + Total(taken)
      decreases node, 0, |node.children| + 1
    {
      ghost var used := streamedBytes;
      StartOfFolder(node, p, used, maxZipBytes);
      hide Taken, Visible, Entries, Total, Traverse, TraverseAll, Seen;
      for k := 0 to |node.children|
        invariant used == old(streamedBytes) && At(node, p, k, before, used)
      {
        stopped := WalkChild(node, p, k, before, used);
        if stopped { return true; }
      }
      return false;
    }

    /** One turn of that loop: the next child fits whole, or ends the walk. */
    method WalkChild(node: Node, p: Path, k: nat, ghost before: seq<Entry>, ghost used: nat) returns (stopped: bool)
      requires maxZipBytes > 0 && WellNamed(node) && node.Folder? && k < |node.children|
      requires forall i :: 0 <= i < |p| ==> !Hidden(p[i]) && PlainName(p[i])
      requires At(node, p, k, before, used)
      modifies this
      ensures !stopped ==> At(node, p, k + 1, before, used)
      ensures stopped ==>
        var items := Visible(Traverse(node, p));
        var taken := Taken(items, used, maxZipBytes);
        taken != items && archive == before + Entries(taken) && streamedBytes == used + Total(taken)
      decreases node, 0, |node.children| - k
    {
      hide Taken, Visible, Entries, Total, Traverse, TraverseAll, Seen;
      var child := node.children[k];
      var q := p + [child.name];
      assert WellNamed(child) && forall i :: 0 <= i < |p| ==> q[i] == p[i];
      ghost var bytes := streamedBytes;
      ChildAdvance(node, p, k, used, maxZipBytes);
      Associate(before, Entries(Seen(node, p, k)), Entries(Taken(Visible(Traverse(child, q)), bytes, maxZipBytes)));
      stopped := Walk(child, q);
    }
  }

  lemma Associate<T>(a: seq<T>, b: seq<T>, c: seq<T>)
    ensures a + (b + c) == a + b + c
  {
  }

  /** What the walk of a folder has covered after its first k children. */
  function Seen(node: Node, p: Path, k: nat): seq<(Path, Node)>
    requires node.Folder? && k <= |node.children|
  {
    (if p == [] then [] else [(p, node)]) + Visible(TraverseAll(node.children[..k], p))
  }

  lemma StartOfFolder(node: Node, p: Path, used: int, budget: int)
    requires node.Folder? && forall i :: 0 <= i < |p| ==> !Hidden(p[i])
    requires used >= 0
    ensures var head := if p == [] then [] else [(p, node)];
      Seen(node, p, 0) == head && Taken(head, used, budget) == head && Total(head) == 0
    ensures Seen(node, p, |node.children|) == Visible(Traverse(node, p))
  {
    var head := if p == [] then [] else [(p, node)];
    assert p != [] ==> head[1..] == [];
    assert node.children[..0] == [] && node.children[..|node.children|] == node.children;
    FolderItems(node, p, head);
  }

  /** A folder whose own path is not hidden contributes itself, unless it is the root, and then
      what is below it. */
  lemma FolderItems(node: Node, p: Path, head: seq<(Path, Node)>)
    requires node.Folder? && head == (if p == [] then [] else [(p, node)])
    requires forall i :: 0 <= i < |p| ==> !Hidden(p[i])
    ensures Visible(Traverse(node, p)) == head + Visible(TraverseAll(node.children, p))
  {
    assert Traverse(node, p)[1..] == TraverseAll(node.children, p);
  }

  lemma SeenGrows(node: Node, p: Path, k: nat)
    requires node.Folder? && k < |node.children|
    ensures var child := node.children[k];
      Seen(node, p, k + 1) == Seen(node, p, k) + Visible(Traverse(child, p + [child.name]))
  {
    hide Visible, Traverse, TraverseAll;
    TraverseAllSnoc(node.children, k, p);
    VisibleConcat(TraverseAll(node.children[..k], p), Traverse(node.children[k], p + [node.children[k].name]));
  }

  lemma SeenThenLater(node: Node, p: Path, k: nat)
    requires node.Folder? && k <= |node.children| && forall i :: 0 <= i < |p| ==> !Hidden(p[i])
    ensures Visible(Traverse(node, p)) == Seen(node, p, k) + Visible(TraverseAll(node.children[k..], p))
  {
    FolderItems(node, p, if p == [] then [] else [(p, node)]);
    hide Visible, Traverse, TraverseAll, Hidden;
    var before, after := TraverseAll(node.children[..k], p), TraverseAll(node.children[k..], p);
    TraverseAllSplit(node.children, k, p);
    VisibleConcat(before, after);
    Associate(if p == [] then [] else [(p, node)], Visible(before), Visible(after));
  }

  /** Items that all fit extend what was taken; items that do not all fit end it for good. */
  lemma ChildCut(seen: seq<(Path, Node)>, items: seq<(Path, Node)>, later: seq<(Path, Node)>, used: nat, budget: int)
    requires Taken(seen, used, budget) == seen
    ensures var taken := Taken(items, used + Total(seen), budget);
      && Entries(seen + taken) == Entries(seen) + Entries(taken) && Total(seen + taken) == Total(seen) + Total(taken)
      && (taken == items ==> Taken(seen + items, used, budget) == seen + items)
      && (taken != items ==>
          Taken(seen + items + later, used, budget) == seen + taken != seen + items + later)
  {
    hide Taken, Entries, Total;
    TakenConcat(seen, items, used, budget);
    EntriesConcat(seen, Taken(items, used + Total(seen), budget));
    if Taken(items, used + Total(seen), budget) != items { CutStaysCut(seen, items, later, used, budget); }
  }

  /** What one child adds to a folder's walk, in terms of the folder's own specification. */
  lemma ChildAdvance(node: Node, p: Path, k: nat, used: nat, budget: int)
    requires node.Folder? && k < |node.children| && forall i :: 0 <= i < |p| ==> !Hidden(p[i])
    requires Taken(Seen(node, p, k), used, budget) == Seen(node, p, k)
    ensures var seen, all := Seen(node, p, k), Visible(Traverse(node, p));
      var items := Visible(Traverse(node.children[k], p + [node.children[k].name]));
      var taken := Taken(items, used + Total(seen), budget);
      && (taken == items ==>
          && Taken(Seen(node, p, k + 1), used, budget) == Seen(node, p, k + 1)
          && Entries(Seen(node, p, k + 1)) == Entries(seen) + Entries(taken)
          && Total(Seen(node, p, k + 1)) == Total(seen) + Total(taken))
      && (taken != items ==>
          && Taken(all, used, budget) != all
          && Entries(Taken(all, used, budget)) == Entries(seen) + Entries(taken)
          && Total(Taken(all, used, budget)) == Total(seen) + Total(taken))
  {
    hide Taken, Visible, Entries, Total, Traverse, TraverseAll, Seen;
    SeenGrows(node, p, k);
    SeenThenLater(node, p, k + 1);
    ChildCut(Seen(node, p, k), Visible(Traverse(node.children[k], p + [node.children[k].name])),
             Visible(TraverseAll(node.children[k + 1..], p)), used, budget);
  }

  lemma CutStaysCut(seen: seq<(Path, Node)>, items: seq<(Path, Node)>, later: seq<(Path, Node)>, used: nat, budget: int)
    requires Taken(seen, used, budget) == seen
    requires Taken(items, used + Total(seen), budget) != items
    ensures Taken(seen + items + later, used, budget) == seen + Taken(items, used + Total(seen), budget)
    ensures Taken(seen + items + later, used, budget) != seen + items + later
  {
    TakenConcat(seen, items, used, budget);
    TakenConcat(items, later, used + Total(seen), budget);
    TakenConcat(seen + items, later, used, budget);
    TakenIsPrefix(items, used + Total(seen), budget);
  }

  lemma {:induction false} TakenIsPrefix(items: seq<(Path, Node)>, used: nat, budget: int)
    ensures Taken(items, used, budget) <= items
  {
    if items != [] { TakenIsPrefix(items[1..], used + Size(items[0].1), budget); }
  }
}
