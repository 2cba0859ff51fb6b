/** What the folder download's archive holds, said of the shared tree itself: each shown node under its
    own components (internal/handlers/folder.go). */
module FolderArchive {
  import opened Util
  import opened FolderZip

  /** n is what the tree below node holds at the components q. */
  ghost predicate At(node: Node, q: Path, n: Node)
    decreases q
  {
    if q == [] then n == node
    else
      node.Folder? &&
      exists i :: 0 <= i < |node.children| && node.children[i].name == q[0] && At(node.children[i], q[1..], n)
  }

  ghost predicate AtAmong(nodes: seq<Node>, q: Path, n: Node) {
    q != [] && exists i :: 0 <= i < |nodes| && nodes[i].name == q[0] && At(nodes[i], q[1..], n)
  }

  lemma AtOrBelow(node: Node, q: Path, n: Node)
    ensures At(node, q, n) <==> (q == [] && n == node) || (node.Folder? && AtAmong(node.children, q, n))
  {
  }

  /** The traversal lists exactly the tree, each node under its own components. */
  lemma {:induction false} TraverseIsTree(node: Node, p: Path, q: Path, n: Node)
    ensures (p + q, n) in Traverse(node, p) <==> At(node, q, n)
    decreases node, 1
  {
    AtOrBelow(node, q, n);
    assert q != [] ==> |p + q| > |p|;
    assert q == [] ==> p + q == p;
    if node.Folder? { TraverseAllIsTree(node.children, p, q, n); }
    hide At, AtAmong;
  }

  lemma {:induction false} TraverseAllIsTree(nodes: seq<Node>, p: Path, q: Path, n: Node)
    ensures (p + q, n) in TraverseAll(nodes, p) <==> AtAmong(nodes, q, n)
    decreases nodes, 0
  {
    if nodes != [] {
      TraverseAllIsTree(nodes[1..], p, q, n);
      FirstOrRest(nodes, q, n);
      var below := p + [nodes[0].name];
      if q != [] && q[0] == nodes[0].name {
        TraverseIsTree(nodes[0], below, q[1..], n);
        assert below + q[1..] == p + q;
      } else if (p + q, n) in Traverse(nodes[0], below) {
        UnderName(nodes[0], p, q, n);
      }
      hide At, AtAmong;
    }
  }

  lemma FirstOrRest(nodes: seq<Node>, q: Path, n: Node)
    requires nodes != []
    ensures AtAmong(nodes, q, n) <==>
      (q != [] && nodes[0].name == q[0] && At(nodes[0], q[1..], n)) || AtAmong(nodes[1..], q, n)
  {
    if AtAmong(nodes[1..], q, n) {
      var i :| 0 <= i < |nodes| - 1 && nodes[1..][i].name == q[0] && At(nodes[1..][i], q[1..], n);
      assert nodes[i + 1] == nodes[1..][i];
    }
    if AtAmong(nodes, q, n) {
      var i :| 0 <= i < |nodes| && nodes[i].name == q[0] && At(nodes[i], q[1..], n);
      assert i > 0 ==> nodes[1..][i - 1] == nodes[i];
    }
  }

  lemma UnderName(node: Node, p: Path, q: Path, n: Node)
    requires (p + q, n) in Traverse(node, p + [node.name])
    ensures q != [] && q[0] == node.name
  {
    TraverseExtends(node, p + [node.name]);
    assert p + [node.name] <= p + q;
    assert (p + [node.name])[|p|] == (p + q)[|p|];
  }

  /** What is shown of a tree: its files and folders, but not the shared folder itself, no symlink,
      nothing that could not be read, and nothing at or below a name that starts with a dot. */
  ghost predicate ShownAt(root: Node, q: Path, n: Node) {
    && q != [] && At(root, q, n) && !n.Symlink? && !n.Unreadable?
    && forall i :: 0 <= i < |q| ==> !("." <= q[i])
  }

  lemma {:induction false} VisibleIff(items: seq<(Path, Node)>, item: (Path, Node))
    ensures item in Visible(items) <==> item in items && Shown(item)
  {
    if items != [] { VisibleIff(items[1..], item); }
  }

  lemma VisibleIsShown(root: Node, q: Path, n: Node)
    ensures (q, n) in Visible(Traverse(root, [])) <==> ShownAt(root, q, n)
  {
    VisibleIff(Traverse(root, []), (q, n));
    TraverseIsTree(root, [], q, n);
    assert [] + q == q;
    assert forall name: string :: "." <= name <==> Hidden(name);
  }

  /** The components of an archive name. */
  function Parts(name: string): (parts: seq<string>)
    ensures parts != []
  {
    if name == "" then [""]
    else
      var rest := Parts(name[1..]);
      if name[0] == '/' then [""] + rest else [[name[0]] + rest[0]] + rest[1..]
  }

  lemma {:induction false} PartsOfPlain(a: string)
    requires '/' !in a
    ensures Parts(a) == [a]
  {
    if a != "" {
      PartsOfPlain(a[1..]);
      assert [a[0]] + a[1..] == a;
    }
  }

  lemma {:induction false} PartsSnoc(a: string, b: string)
    requires '/' !in b
    ensures Parts(a + "/" + b) == Parts(a) + [b]
  {
    var s := a + "/" + b;
    if a == "" {
      PartsOfPlain(b);
      assert s[1..] == b && [""] + [b] == Parts("") + [b];
    } else {
      PartsSnoc(a[1..], b);
      assert s[1..] == a[1..] + "/" + b;
      var rest := Parts(a[1..]);
      assert (rest + [b])[1..] == rest[1..] + [b] && (rest + [b])[0] == rest[0];
      assert [[a[0]] + rest[0]] + (rest[1..] + [b]) == [[a[0]] + rest[0]] + rest[1..] + [b];
    }
  }

  /** An archive name reads back as the components it was made of. */
  lemma {:induction false} PartsOfJoin(p: Path)
    requires p != [] && forall i :: 0 <= i < |p| ==> PlainName(p[i])
    ensures Parts(Join(p)) == p
  {
    var front, last := p[..|p| - 1], p[|p| - 1];
    if |p| == 1 {
      PartsOfPlain(last);
      assert p == [last];
    } else {
      PartsOfJoin(front);
      PartsSnoc(Join(front), last);
      assert p == front + [last];
    }
  }

  /** e is the entry of the node n at the components q: their names with slashes between, and one more
      slash for a folder. */
  ghost predicate EntryFor(e: Entry, q: Path, n: Node) {
    && e.size == (if n.File? then n.size else 0)
    && Parts(e.name) == if n.Folder? then q + [""] else q
  }

  ghost predicate FromTree(root: Node, e: Entry) { exists q, n :: ShownAt(root, q, n) && EntryFor(e, q, n) }

  ghost predicate HasEntry(archive: seq<Entry>, q: Path, n: Node) {
    exists i :: 0 <= i < |archive| && EntryFor(archive[i], q, n)
  }

  lemma {:induction false} EntriesDescribe(items: seq<(Path, Node)>, i: nat)
    requires i < |items| && items[i].0 != []
    requires forall k :: 0 <= k < |items[i].0| ==> PlainName(items[i].0[k])
    ensures |Entries(items)| == |items| && EntryFor(Entries(items)[i], items[i].0, items[i].1)
  {
    EntriesCount(items);
    if i == 0 {
      var (p, n) := items[0];
      PartsOfJoin(p);
      PartsSnoc(Join(p), "");
      assert Join(p) + "/" + "" == Join(p) + "/";
      hide Join, Parts;
    } else {
      EntriesDescribe(items[1..], i - 1);
    }
  }

  lemma {:induction false} EntriesCount(items: seq<(Path, Node)>)
    ensures |Entries(items)| == |items|
  {
    if items != [] { EntriesCount(items[1..]); }
  }

  /** The names below a well-named node are plain. */
  lemma {:induction false} AtIsPlain(node: Node, q: Path, n: Node)
    requires WellNamed(node) && At(node, q, n)
    ensures forall i :: 0 <= i < |q| ==> PlainName(q[i])
    decreases q
  {
    if q != [] {
      var i :| 0 <= i < |node.children| && node.children[i].name == q[0] && At(node.children[i], q[1..], n);
      AtIsPlain(node.children[i], q[1..], n);
      assert forall k :: 1 <= k < |q| ==> q[k] == q[1..][k - 1];
    }
  }

  /** The cut is at the first file that would overrun the budget, and not before. */
  lemma {:induction false} CutOnlyAtOverrun(items: seq<(Path, Node)>, used: nat, budget: int)
    ensures var k := |Taken(items, used, budget)|;
      && k <= |items| && Taken(items, used, budget) == items[..k]
      && (k < |items| ==> items[k].1.File? && used + Total(items[..k]) + items[k].1.size > budget)
  {
    if items != [] && !Overruns(items[0].1, used, budget) {
      var rest := items[1..];
      CutOnlyAtOverrun(rest, used + Size(items[0].1), budget);
      var k := |Taken(items, used, budget)|;
      assert items[..k] == [items[0]] + rest[..k - 1] && items[..k][1..] == rest[..k - 1];
    } else {
      assert items[..0] == [];
    }
  }

  /** Every entry of the archive is the entry of a shown node of the tree; and while the shown files
      fit the budget every shown node has one. */
  lemma ArchiveIsTree(root: Node, budget: int)
    requires WellNamed(root) && 0 <= budget
    ensures var items := Visible(Traverse(root, []));
      var archive := Entries(Taken(items, 0, budget));
      && (forall i :: 0 <= i < |archive| ==> FromTree(root, archive[i]))
      && (Total(items) <= budget ==>
          forall q, n :: ShownAt(root, q, n) ==> HasEntry(archive, q, n))
  {
    var items := Visible(Traverse(root, []));
    var taken := Taken(items, 0, budget);
    var archive := Entries(taken);
    CutOnlyAtOverrun(items, 0, budget);
    EntriesCount(taken);
    forall i | 0 <= i < |archive| ensures FromTree(root, archive[i]) {
      var (q, n) := taken[i];
      assert (q, n) in items;
      VisibleIsShown(root, q, n);
      AtIsPlain(root, q, n);
      EntriesDescribe(taken, i);
    }
    if Total(items) <= budget {
      AllFit(items, |taken|);
      forall q, n | ShownAt(root, q, n) ensures HasEntry(archive, q, n) {
        VisibleIsShown(root, q, n);
        var i :| 0 <= i < |items| && items[i] == (q, n);
        AtIsPlain(root, q, n);
        EntriesDescribe(taken, i);
      }
    }
  }

  lemma {:induction false} AllFit(items: seq<(Path, Node)>, k: nat)
    requires k <= |items|
    ensures k < |items| && items[k].1.File? ==> Total(items[..k]) + items[k].1.size <= Total(items)
    decreases k
  {
    if k < |items| {
      if k == 0 {
        assert items[..0] == [];
      } else {
        AllFit(items[1..], k - 1);
        assert items[..k][1..] == items[1..][..k - 1];
      }
    }
  }

  // ----- different nodes, different names -----

  ghost predicate DistinctSiblings(node: Node) {
    node.Folder? ==>
      && (forall i, j :: 0 <= i < j < |node.children| ==> node.children[i].name != node.children[j].name)
      && (forall i :: 0 <= i < |node.children| ==> DistinctSiblings(node.children[i]))
  }

  ghost predicate DistinctPaths(items: seq<(Path, Node)>) {
    forall i, j :: 0 <= i < j < |items| ==> items[i].0 != items[j].0
  }

  lemma {:induction false} TraverseDistinct(node: Node, p: Path)
    requires DistinctSiblings(node)
    ensures DistinctPaths(Traverse(node, p))
    decreases node, 1
  {
    if node.Folder? {
      TraverseAllDistinct(node.children, p);
      BelowIsLonger(node.children, p);
    }
  }

  lemma {:induction false} BelowIsLonger(nodes: seq<Node>, p: Path)
    ensures forall i :: 0 <= i < |TraverseAll(nodes, p)| ==>
      var q := TraverseAll(nodes, p)[i].0;
      |q| > |p| && p <= q && exists k :: 0 <= k < |nodes| && nodes[k].name == q[|p|]
    decreases nodes, 0
  {
    if nodes != [] {
      var head, rest := Traverse(nodes[0], p + [nodes[0].name]), TraverseAll(nodes[1..], p);
      TraverseExtends(nodes[0], p + [nodes[0].name]);
      BelowIsLonger(nodes[1..], p);
      var all := TraverseAll(nodes, p);
      forall i | 0 <= i < |all|
        ensures |all[i].0| > |p| && p <= all[i].0 && exists k :: 0 <= k < |nodes| && nodes[k].name == all[i].0[|p|]
      {
        if i < |head| {
          assert all[i] == head[i] && p + [nodes[0].name] <= all[i].0;
          assert all[i].0[|p|] == nodes[0].name;
        } else {
          assert all[i] == rest[i - |head|];
          var k :| 0 <= k < |nodes| - 1 && nodes[1..][k].name == all[i].0[|p|];
          assert nodes[k + 1] == nodes[1..][k];
        }
      }
    }
  }

  lemma {:induction false} TraverseAllDistinct(nodes: seq<Node>, p: Path)
    requires forall i, j :: 0 <= i < j < |nodes| ==> nodes[i].name != nodes[j].name
    requires forall i :: 0 <= i < |nodes| ==> DistinctSiblings(nodes[i])
    ensures DistinctPaths(TraverseAll(nodes, p))
    decreases nodes, 0
  {
    if nodes != [] {
      var head, rest := Traverse(nodes[0], p + [nodes[0].name]), TraverseAll(nodes[1..], p);
      TraverseDistinct(nodes[0], p + [nodes[0].name]);
      TraverseAllDistinct(nodes[1..], p);
      TraverseExtends(nodes[0], p + [nodes[0].name]);
      BelowIsLonger(nodes[1..], p);
      forall i, j | 0 <= i < |head| && 0 <= j < |rest| ensures head[i].0 != rest[j].0 {
        assert head[i].0[|p|] == nodes[0].name;
        var k :| 0 <= k < |nodes| - 1 && nodes[1..][k].name == rest[j].0[|p|];
        assert nodes[1..][k] == nodes[k + 1];
      }
    }
  }

  lemma {:induction false} VisibleDistinct(items: seq<(Path, Node)>)
    requires DistinctPaths(items)
    ensures DistinctPaths(Visible(items))
  {
    if items != [] {
      var rest := items[1..];
      assert forall i :: 0 <= i < |rest| ==> rest[i] == items[i + 1];
      VisibleDistinct(rest);
      forall i | 0 <= i < |Visible(rest)| ensures Visible(rest)[i].0 != items[0].0 {
        VisibleIff(rest, Visible(rest)[i]);
      }
    }
  }

  /** No two entries of the archive have one name, if no two nodes of one folder have. */
  lemma NamesAreDistinct(root: Node, budget: int, i: nat, j: nat)
    requires WellNamed(root) && DistinctSiblings(root) && 0 <= budget
    requires i < j < |Entries(Taken(Visible(Traverse(root, [])), 0, budget))|
    ensures var archive := Entries(Taken(Visible(Traverse(root, [])), 0, budget));
      archive[i].name != archive[j].name
  {
    var items := Visible(Traverse(root, []));
    var taken := Taken(items, 0, budget);
    TraverseDistinct(root, []);
    VisibleDistinct(Traverse(root, []));
    CutOnlyAtOverrun(items, 0, budget);
    EntriesCount(taken);
    ItemIsPlain(root, taken[i]);
    ItemIsPlain(root, taken[j]);
    EntriesDescribe(taken, i);
    EntriesDescribe(taken, j);
    var (p, m) := taken[i];
    var (q, n) := taken[j];
    assert p != q && "" !in p && "" !in q;
    if m.Folder? && !n.Folder? { assert (p + [""])[|p|] == ""; }
    if n.Folder? && !m.Folder? { assert (q + [""])[|q|] == ""; }
    SnocCancels(p, q, "");
  }

  lemma SnocCancels(p: Path, q: Path, name: string)
    ensures p + [name] == q + [name] ==> p == q
  {
    if p + [name] == q + [name] { assert p == (p + [name])[..|p|] && q == (q + [name])[..|q|]; }
  }

  lemma ItemIsPlain(root: Node, item: (Path, Node))
    requires WellNamed(root) && item in Visible(Traverse(root, []))
    ensures item.0 != [] && forall k :: 0 <= k < |item.0| ==> PlainName(item.0[k])
  {
    VisibleIsShown(root, item.0, item.1);
    AtIsPlain(root, item.0, item.1);
  }

  ghost predicate DistinctNames(archive: seq<Entry>) {
    forall i, j :: 0 <= i < j < |archive| ==> archive[i].name != archive[j].name
  }

  lemma AllNamesDistinct(root: Node, budget: int)
    requires WellNamed(root) && DistinctSiblings(root) && 0 <= budget
    ensures DistinctNames(Entries(Taken(Visible(Traverse(root, [])), 0, budget)))
  {
    var archive := Entries(Taken(Visible(Traverse(root, [])), 0, budget));
    forall i, j | 0 <= i < j < |archive| ensures archive[i].name != archive[j].name {
      NamesAreDistinct(root, budget, i, j);
    }
  }

  /** The archive is the flat specification: every readable file and folder without a hidden
      component, in walk order, up to the first file that would overrun the budget; its bytes
      never exceed the budget. */
  method DownloadFolderZip(root: Node, budgetEnv: string) returns (archive: seq<Entry>, bytes: nat, budget: int)
    requires WellNamed(root)
    ensures 0x4000_0000 <= budget <= 0x4_0000_0000_0000
    ensures var taken := Taken(Visible(Traverse(root, [])), 0, budget);
      archive == Entries(taken) && bytes == Total(taken) <= budget
    ensures forall i :: 0 <= i < |archive| ==> FromTree(root, archive[i])
    ensures Total(Visible(Traverse(root, []))) <= budget ==>
      forall q, n :: ShownAt(root, q, n) ==> HasEntry(archive, q, n)
    ensures DistinctSiblings(root) ==> DistinctNames(archive)
  {
    budget := GetMaxFolderZipBytes(budgetEnv);
    var z := new ZipWalk(budget);
    var _ := z.Walk(root, []);
    TakenWithinBudget(Visible(Traverse(root, [])), 0, budget);
    archive, bytes := z.archive, z.streamedBytes;
    hide Visible, Traverse, Taken, Total, Entries, ShownAt, FromTree, HasEntry, DistinctNames;
    ArchiveIsTree(root, budget);
    if DistinctSiblings(root) { AllNamesDistinct(root, budget); }
  }
}
