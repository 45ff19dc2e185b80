/** Uploading a local folder: a pre-order scan, then the folders one by one,
    then the files; nothing found by the scan goes missing from the report. */
module FolderUpload {
  import opened Basics

  /** A path relative to the parent of the upload root; the root is `[name]`. */
  type Rel = seq<string>

  /** `Ignored` is a symbolic link, a special file, or one that cannot be read. */
  datatype Node = FileNode(name: string, size: nat) | DirNode(name: string, children: seq<Node>) | Ignored(name: string)

  datatype Scanned = Scanned(rel: Rel, size: nat)

  /** As on a disk: siblings differ in name. */
  predicate WellNamed(n: Node) {
    n.DirNode? ==>
      && (forall i, j | 0 <= i < j < |n.children| :: n.children[i].name != n.children[j].name)
      && (forall c | c in n.children :: WellNamed(c))
  }

  /** Folders, files and total size of a subtree, parents before children. */
  datatype Found = Found(folders: seq<Scanned>, files: seq<Scanned>, total: nat) {
    function Then(more: Found): Found {
      Found(folders + more.folders, files + more.files, total + more.total)
    }
  }

  function Width(n: Node): nat {
    if n.DirNode? then |n.children| + 1 else 0
  }

  function Scan(n: Node, above: Rel, excludeEmpty: bool): Found
    decreases n, Width(n)
  {
    var rel := above + [n.name];
    match n
    case FileNode(_, size) =>
      if excludeEmpty && size == 0 then Found([], [], 0) else Found([], [Scanned(rel, size)], size)
    case DirNode(_, children) => Found([Scanned(rel, 0)], [], 0).Then(ScanAll(n, |children|, rel, excludeEmpty))
    case Ignored(_) => Found([], [], 0)
  }

  /** The first `count` children of a folder. */
  function ScanAll(n: Node, count: nat, above: Rel, excludeEmpty: bool): Found
    requires n.DirNode? && count <= |n.children|
    decreases n, count
  {
    if count == 0 then Found([], [], 0)
    else ScanAll(n, count - 1, above, excludeEmpty).Then(Scan(n.children[count - 1], above, excludeEmpty))
  }

  lemma Regroup(a: seq<Scanned>, b: seq<Scanned>, c: seq<Scanned>)
    ensures (a + b) + c == a + (b + c)
  {
  }

  /** The recursion that pushes onto two shared vectors. */
  method ScanDir(n: Node, above: Rel, excludeEmpty: bool, folders: seq<Scanned>, files: seq<Scanned>)
      returns (folders': seq<Scanned>, files': seq<Scanned>, total: nat)
    ensures var f := Scan(n, above, excludeEmpty);
            folders' == folders + f.folders && files' == files + f.files && total == f.total
    decreases n
  {
    folders', files', total := folders, files, 0;
    var rel := above + [n.name];
    match n
    case FileNode(_, size) =>
      if !(excludeEmpty && size == 0) {
        files' := files + [Scanned(rel, size)];
        total := size;
      }
    case DirNode(_, children) =>
      folders' := folders + [Scanned(rel, 0)];
      for i := 0 to |children|
        invariant var f := ScanAll(n, i, rel, excludeEmpty);
                  && folders' == (folders + [Scanned(rel, 0)]) + f.folders
                  && files' == files + f.files && total == f.total
      {
        var sub;
        folders', files', sub := ScanDir(children[i], rel, excludeEmpty, folders', files');
        total := total + sub;
        ghost var before, more := ScanAll(n, i, rel, excludeEmpty), Scan(children[i], rel, excludeEmpty);
        Regroup(folders + [Scanned(rel, 0)], before.folders, more.folders);
        Regroup(files, before.files, more.files);
      }
      Regroup(folders, [Scanned(rel, 0)], ScanAll(n, |children|, rel, excludeEmpty).folders);
      assert [] + ScanAll(n, |children|, rel, excludeEmpty).files == ScanAll(n, |children|, rel, excludeEmpty).files;
    case Ignored(_) =>
  }

  function Sum(files: seq<Scanned>): nat {
    if files == [] then 0 else Sum(files[..|files| - 1]) + files[|files| - 1].size
  }

  lemma {:induction false} SumAppend(a: seq<Scanned>, b: seq<Scanned>)
    ensures Sum(a + b) == Sum(a) + Sum(b)
    decreases |b|
  {
    if b == [] {
      assert a + b == a;
    } else {
      assert (a + b)[..|a + b| - 1] == a + b[..|b| - 1];
      SumAppend(a, b[..|b| - 1]);
    }
  }

  lemma SumOfThen(a: Found, b: Found)
    requires a.total == Sum(a.files) && b.total == Sum(b.files)
    ensures a.Then(b).total == Sum(a.Then(b).files)
  {
    SumAppend(a.files, b.files);
  }

  /** The total is the sum of the sizes of the collected files. */
  lemma {:induction false} TotalIsSum(n: Node, above: Rel, excludeEmpty: bool)
    ensures Scan(n, above, excludeEmpty).total == Sum(Scan(n, above, excludeEmpty).files)
    decreases n, Width(n)
  {
    if n.DirNode? {
      TotalIsSumAll(n, |n.children|, above + [n.name], excludeEmpty);
      SumOfThen(Found([Scanned(above + [n.name], 0)], [], 0), ScanAll(n, |n.children|, above + [n.name], excludeEmpty));
    }
  }

  lemma {:induction false} TotalIsSumAll(n: Node, count: nat, above: Rel, excludeEmpty: bool)
    requires n.DirNode? && count <= |n.children|
    ensures ScanAll(n, count, above, excludeEmpty).total == Sum(ScanAll(n, count, above, excludeEmpty).files)
    decreases n, count
  {
    if count > 0 {
      var a, b := ScanAll(n, count - 1, above, excludeEmpty), Scan(n.children[count - 1], above, excludeEmpty);
      TotalIsSumAll(n, count - 1, above, excludeEmpty);
      TotalIsSum(n.children[count - 1], above, excludeEmpty);
      SumOfThen(a, b);
    }
  }

  // ---- parents first, every path once ----

  function ParentOf(rel: Rel): Rel
    requires rel != []
  {
    rel[..|rel| - 1]
  }

  ghost predicate Has(nodes: seq<Scanned>, rel: Rel) {
    exists i | 0 <= i < |nodes| :: nodes[i].rel == rel
  }

  /** Each folder's parent is `above` or an earlier folder, each file's parent
      is `above` or a folder. */
  ghost predicate ParentsFirst(f: Found, above: Rel) {
    && (forall i | 0 <= i < |f.folders| ::
          f.folders[i].rel != [] && (ParentOf(f.folders[i].rel) == above || Has(f.folders[..i], ParentOf(f.folders[i].rel))))
    && (forall i | 0 <= i < |f.files| ::
          f.files[i].rel != [] && (ParentOf(f.files[i].rel) == above || Has(f.folders, ParentOf(f.files[i].rel))))
  }

  lemma HasAfter(all: seq<Scanned>, a: seq<Scanned>, b: seq<Scanned>, rel: Rel)
    requires all == a + b
    ensures Has(a, rel) || Has(b, rel) <==> Has(all, rel)
    ensures a != [] && a[0].rel == rel ==> Has(all, rel)
  {
    if Has(b, rel) {
      var i :| 0 <= i < |b| && b[i].rel == rel;
      assert all[|a| + i].rel == rel;
    }
    if Has(a, rel) {
      var i :| 0 <= i < |a| && a[i].rel == rel;
      assert all[i].rel == rel;
    }
    if a != [] && a[0].rel == rel {
      assert all[0].rel == rel;
    }
  }

  /** A folder put before all that is found in it. */
  lemma UnderFolder(sub: Found, rel: Rel)
    requires rel != [] && ParentsFirst(sub, rel)
    ensures ParentsFirst(Found([Scanned(rel, 0)], [], 0).Then(sub), ParentOf(rel))
  {
    var self := [Scanned(rel, 0)];
    var folders := self + sub.folders;
    forall i | 0 < i < |folders|
      ensures folders[i].rel != [] && Has(folders[..i], ParentOf(folders[i].rel))
    {
      assert folders[i] == sub.folders[i - 1];
      HasAfter(folders[..i], self, sub.folders[..i - 1], ParentOf(folders[i].rel));
    }
    forall i | 0 <= i < |sub.files|
      ensures Has(folders, ParentOf(sub.files[i].rel))
    {
      HasAfter(folders, self, sub.folders, ParentOf(sub.files[i].rel));
    }
    assert [] + sub.files == sub.files;
  }

  lemma ThenParentsFirst(a: Found, b: Found, above: Rel)
    requires ParentsFirst(a, above) && ParentsFirst(b, above)
    ensures ParentsFirst(a.Then(b), above)
  {
    var f := a.Then(b);
    forall i | 0 <= i < |f.folders|
      ensures f.folders[i].rel != []
      ensures ParentOf(f.folders[i].rel) == above || Has(f.folders[..i], ParentOf(f.folders[i].rel))
    {
      if i < |a.folders| {
        assert f.folders[..i] == a.folders[..i];
      } else {
        HasAfter(f.folders[..i], a.folders, b.folders[..i - |a.folders|], ParentOf(f.folders[i].rel));
      }
    }
    forall i | 0 <= i < |f.files|
      ensures f.files[i].rel != []
      ensures ParentOf(f.files[i].rel) == above || Has(f.folders, ParentOf(f.files[i].rel))
    {
      HasAfter(f.folders, a.folders, b.folders, ParentOf(f.files[i].rel));
    }
  }

  lemma {:induction false} ScanParentsFirst(n: Node, above: Rel, excludeEmpty: bool)
    ensures ParentsFirst(Scan(n, above, excludeEmpty), above)
    decreases n, Width(n)
  {
    var rel := above + [n.name];
    assert ParentOf(rel) == above;
    if n.DirNode? {
      ScanAllParentsFirst(n, |n.children|, rel, excludeEmpty);
      UnderFolder(ScanAll(n, |n.children|, rel, excludeEmpty), rel);
    }
  }

  lemma {:induction false} ScanAllParentsFirst(n: Node, count: nat, above: Rel, excludeEmpty: bool)
    requires n.DirNode? && count <= |n.children|
    ensures ParentsFirst(ScanAll(n, count, above, excludeEmpty), above)
    decreases n, count
  {
    if count > 0 {
      var a, b := ScanAll(n, count - 1, above, excludeEmpty), Scan(n.children[count - 1], above, excludeEmpty);
      ScanAllParentsFirst(n, count - 1, above, excludeEmpty);
      ScanParentsFirst(n.children[count - 1], above, excludeEmpty);
      ThenParentsFirst(a, b, above);
    }
  }

  // ---- every path once ----

  function Rels(nodes: seq<Scanned>): seq<Rel> {
    seq(|nodes|, i requires 0 <= i < |nodes| => nodes[i].rel)
  }

  function AllRels(f: Found): seq<Rel> {
    Rels(f.folders) + Rels(f.files)
  }

  ghost predicate Once(rels: seq<Rel>) {
    forall r :: multiset(rels)[r] <= 1
  }

  /** Every path lies in one of the first `count` children of `above`. */
  ghost predicate Below(rels: seq<Rel>, above: Rel, n: Node, count: nat)
    requires n.DirNode? && count <= |n.children|
  {
    forall r | r in rels :: |r| > |above| && above <= r && exists i | 0 <= i < count :: n.children[i].name == r[|above|]
  }

  lemma ThenRels(a: Found, b: Found)
    ensures multiset(AllRels(a.Then(b))) == multiset(AllRels(a)) + multiset(AllRels(b))
    ensures forall r :: r in AllRels(a.Then(b)) <==> r in AllRels(a) || r in AllRels(b)
  {
    assert Rels(a.folders + b.folders) == Rels(a.folders) + Rels(b.folders);
    assert Rels(a.files + b.files) == Rels(a.files) + Rels(b.files);
    assert multiset(AllRels(a.Then(b))) == multiset(AllRels(a)) + multiset(AllRels(b));
    forall r
      ensures r in AllRels(a.Then(b)) <==> r in AllRels(a) || r in AllRels(b)
    {
      assert r in AllRels(a.Then(b)) <==> r in multiset(AllRels(a.Then(b)));
      assert r in AllRels(a) <==> r in multiset(AllRels(a));
      assert r in AllRels(b) <==> r in multiset(AllRels(b));
    }
  }

  lemma OnceApart(a: Found, b: Found)
    requires Once(AllRels(a)) && Once(AllRels(b))
    requires forall r | r in AllRels(a) :: r !in AllRels(b)
    ensures Once(AllRels(a.Then(b)))
  {
    ThenRels(a, b);
    forall r
      ensures multiset(AllRels(a.Then(b)))[r] <= 1
    {
      assert r in AllRels(a) <==> r in multiset(AllRels(a));
      assert r in AllRels(b) <==> r in multiset(AllRels(b));
    }
  }

  lemma NextChild(a: Found, b: Found, n: Node, count: nat, rel: Rel)
    requires n.DirNode? && 0 < count <= |n.children| && WellNamed(n)
    requires Once(AllRels(a)) && Below(AllRels(a), rel, n, count - 1)
    requires Once(AllRels(b)) && forall r | r in AllRels(b) :: rel + [n.children[count - 1].name] <= r
    ensures Once(AllRels(a.Then(b))) && Below(AllRels(a.Then(b)), rel, n, count)
  {
    var name := n.children[count - 1].name;
    forall r | r in AllRels(b)
      ensures |r| > |rel| && rel <= r && r[|rel|] == name && r !in AllRels(a)
    {
      assert (rel + [name])[..|rel|] == rel;
    }
    OnceApart(a, b);
    ThenRels(a, b);
  }

  /** The scan finds each path once, and only at or below its root. */
  lemma {:induction false} ScanFindsOnce(n: Node, above: Rel, excludeEmpty: bool)
    requires WellNamed(n)
    ensures Once(AllRels(Scan(n, above, excludeEmpty)))
    ensures forall r | r in AllRels(Scan(n, above, excludeEmpty)) :: above + [n.name] <= r
    decreases n, Width(n)
  {
    var rel := above + [n.name];
    match n
    case FileNode(_, size) =>
      assert AllRels(Found([], [Scanned(rel, size)], size)) == [rel];
    case DirNode(_, children) =>
      ScanAllFindsOnce(n, |children|, rel, excludeEmpty);
      var self, sub := Found([Scanned(rel, 0)], [], 0), ScanAll(n, |children|, rel, excludeEmpty);
      assert AllRels(self) == [rel];
      ThenRels(self, sub);
      OnceApart(self, sub);
    case Ignored(_) =>
  }

  lemma {:induction false} ScanAllFindsOnce(n: Node, count: nat, rel: Rel, excludeEmpty: bool)
    requires n.DirNode? && count <= |n.children| && WellNamed(n)
    ensures Once(AllRels(ScanAll(n, count, rel, excludeEmpty)))
    ensures Below(AllRels(ScanAll(n, count, rel, excludeEmpty)), rel, n, count)
    decreases n, count
  {
    if count > 0 {
      var child := n.children[count - 1];
      var a, b := ScanAll(n, count - 1, rel, excludeEmpty), Scan(child, rel, excludeEmpty);
      ScanAllFindsOnce(n, count - 1, rel, excludeEmpty);
      ScanFindsOnce(child, rel, excludeEmpty);
      NextChild(a, b, n, count, rel);
    }
  }

  // ---- nothing overlooked ----

  /** Following names from the folder `above` along `rel` leads through `n` to
      `target`. */
  ghost predicate LeadsTo(n: Node, above: Rel, rel: Rel, target: Node) {
    || (rel == above + [n.name] && target == n)
    || (n.DirNode? && exists c | c in n.children :: LeadsTo(c, above + [n.name], rel, target))
  }

  ghost predicate FolderAt(n: Node, above: Rel, rel: Rel) {
    exists t :: LeadsTo(n, above, rel, t) && t.DirNode?
  }

  /** A file of that path and size, not an empty one that is to be left out. */
  ghost predicate FileAt(n: Node, above: Rel, excludeEmpty: bool, x: Scanned) {
    !(excludeEmpty && x.size == 0) && exists t :: LeadsTo(n, above, x.rel, t) && t.FileNode? && t.size == x.size
  }

  /** What is in a folder is in one of its children, or it is the folder. */
  lemma InSomeChild(n: Node, above: Rel, excludeEmpty: bool, x: Scanned)
    requires n.DirNode?
    ensures FileAt(n, above, excludeEmpty, x) <==>
              exists i | 0 <= i < |n.children| :: FileAt(n.children[i], above + [n.name], excludeEmpty, x)
    ensures FolderAt(n, above, x.rel) <==>
              x.rel == above + [n.name] || exists i | 0 <= i < |n.children| :: FolderAt(n.children[i], above + [n.name], x.rel)
  {
    var rel := above + [n.name];
    if FileAt(n, above, excludeEmpty, x) {
      var t :| LeadsTo(n, above, x.rel, t) && t.FileNode? && t.size == x.size;
      var c :| c in n.children && LeadsTo(c, rel, x.rel, t);
      assert FileAt(c, rel, excludeEmpty, x);
    }
    forall i | 0 <= i < |n.children|
      ensures FileAt(n.children[i], rel, excludeEmpty, x) ==> FileAt(n, above, excludeEmpty, x)
      ensures FolderAt(n.children[i], rel, x.rel) ==> FolderAt(n, above, x.rel)
    {
      assert n.children[i] in n.children;
      if FileAt(n.children[i], rel, excludeEmpty, x) {
        var t :| LeadsTo(n.children[i], rel, x.rel, t) && t.FileNode? && t.size == x.size;
        assert LeadsTo(n, above, x.rel, t);
      }
      if FolderAt(n.children[i], rel, x.rel) {
        var t :| LeadsTo(n.children[i], rel, x.rel, t) && t.DirNode?;
        assert LeadsTo(n, above, x.rel, t);
      }
    }
    if FolderAt(n, above, x.rel) && x.rel != rel {
      var t :| LeadsTo(n, above, x.rel, t) && t.DirNode?;
      var c :| c in n.children && LeadsTo(c, rel, x.rel, t);
      assert FolderAt(c, rel, x.rel);
    }
    assert x.rel == rel ==> LeadsTo(n, above, x.rel, n);
  }

  /** The scan finds exactly the folders and the wanted files of the tree. */
  lemma {:induction false} ScanFindsAll(n: Node, above: Rel, excludeEmpty: bool, x: Scanned)
    ensures x in Scan(n, above, excludeEmpty).files <==> FileAt(n, above, excludeEmpty, x)
    ensures Has(Scan(n, above, excludeEmpty).folders, x.rel) <==> FolderAt(n, above, x.rel)
    decreases n, Width(n)
  {
    var rel := above + [n.name];
    if n.DirNode? {
      var self, sub := [Scanned(rel, 0)], ScanAll(n, |n.children|, rel, excludeEmpty);
      ScanAllFindsAll(n, |n.children|, rel, excludeEmpty, x);
      InSomeChild(n, above, excludeEmpty, x);
      HasAfter(self + sub.folders, self, sub.folders, x.rel);
      assert Has(self, x.rel) <==> x.rel == rel by {
        assert self[0].rel == rel;
      }
    } else {
      assert x.rel == rel ==> LeadsTo(n, above, x.rel, n);
    }
  }

  lemma {:induction false} ScanAllFindsAll(n: Node, count: nat, rel: Rel, excludeEmpty: bool, x: Scanned)
    requires n.DirNode? && count <= |n.children|
    ensures x in ScanAll(n, count, rel, excludeEmpty).files <==>
              exists i | 0 <= i < count :: FileAt(n.children[i], rel, excludeEmpty, x)
    ensures Has(ScanAll(n, count, rel, excludeEmpty).folders, x.rel) <==>
              exists i | 0 <= i < count :: FolderAt(n.children[i], rel, x.rel)
    decreases n, count
  {
    if count > 0 {
      var a, b := ScanAll(n, count - 1, rel, excludeEmpty), Scan(n.children[count - 1], rel, excludeEmpty);
      ScanAllFindsAll(n, count - 1, rel, excludeEmpty, x);
      ScanFindsAll(n.children[count - 1], rel, excludeEmpty, x);
      HasAfter(a.folders + b.folders, a.folders, b.folders, x.rel);
    }
  }

  // ---- the two loops ----

  /** The uuid a folder ends up with: the destination's for the level above the
      root, otherwise what creating it under its parent's uuid answers. */
  ghost function UuidOf(rel: Rel, dest: nat, create: (Rel, nat) -> Option<nat>): Option<nat>
    decreases |rel|
  {
    if rel == [] then Some(dest)
    else match UuidOf(ParentOf(rel), dest, create)
         case Some(parent) => create(rel, parent)
         case None => None
  }

  ghost predicate Made(rel: Rel, dest: nat, create: (Rel, nat) -> Option<nat>) {
    UuidOf(rel, dest, create).Some?
  }

  /** The paths, in scan order, that did not come off. */
  ghost function Failures(nodes: seq<Scanned>, ok: Rel -> bool): seq<Rel> {
    if nodes == [] then []
    else
      var last := nodes[|nodes| - 1].rel;
      Failures(nodes[..|nodes| - 1], ok) + if ok(last) then [] else [last]
  }

  lemma HasOneMore(nodes: seq<Scanned>, i: nat)
    requires i < |nodes|
    ensures forall rel :: Has(nodes[..i + 1], rel) <==> Has(nodes[..i], rel) || rel == nodes[i].rel
  {
    forall rel
      ensures Has(nodes[..i + 1], rel) <==> Has(nodes[..i], rel) || rel == nodes[i].rel
    {
      assert nodes[..i + 1] == nodes[..i] + [nodes[i]];
      HasAfter(nodes[..i + 1], nodes[..i], [nodes[i]], rel);
    }
  }

  lemma FailuresOneMore(nodes: seq<Scanned>, i: nat, ok: Rel -> bool)
    requires i < |nodes|
    ensures Failures(nodes[..i + 1], ok) == Failures(nodes[..i], ok) + if ok(nodes[i].rel) then [] else [nodes[i].rel]
  {
    assert nodes[..i + 1][..i] == nodes[..i];
  }

  /** Where an item goes: into the destination, or into its parent folder if
      that is there. */
  function ParentUuid(rel: Rel, folderMap: map<Rel, nat>, dest: nat): Option<nat>
    requires rel != []
  {
    if |rel| == 1 then Some(dest)
    else if ParentOf(rel) in folderMap then Some(folderMap[ParentOf(rel)])
    else None
  }

  /** The map holds the uuids of the folders made so far. */
  ghost predicate Maps(folderMap: map<Rel, nat>, nodes: seq<Scanned>, dest: nat, create: (Rel, nat) -> Option<nat>) {
    && (forall rel :: rel in folderMap <==> Has(nodes, rel) && Made(rel, dest, create))
    && (forall rel | rel in folderMap :: UuidOf(rel, dest, create) == Some(folderMap[rel]))
  }

  lemma ParentIsMapped(rel: Rel, nodes: seq<Scanned>, folderMap: map<Rel, nat>, dest: nat, create: (Rel, nat) -> Option<nat>)
    requires rel != [] && (ParentOf(rel) == [] || Has(nodes, ParentOf(rel))) && Maps(folderMap, nodes, dest, create)
    ensures ParentUuid(rel, folderMap, dest) == UuidOf(ParentOf(rel), dest, create)
  {
    assert |rel| == 1 <==> ParentOf(rel) == [];
  }

  method CreateTree(folders: seq<Scanned>, dest: nat, create: (Rel, nat) -> Option<nat>)
      returns (folderMap: map<Rel, nat>, failed: seq<Rel>)
    requires ParentsFirst(Found(folders, [], 0), [])
    ensures Maps(folderMap, folders, dest, create)
    ensures failed == Failures(folders, rel => Made(rel, dest, create))
  {
    folderMap, failed := map[], [];
    ghost var ok := rel => Made(rel, dest, create);
    for i := 0 to |folders|
      invariant Maps(folderMap, folders[..i], dest, create)
      invariant failed == Failures(folders[..i], ok)
    {
      var rel := folders[i].rel;
      HasOneMore(folders, i);
      FailuresOneMore(folders, i, ok);
      ParentIsMapped(rel, folders[..i], folderMap, dest, create);
      var parent := ParentUuid(rel, folderMap, dest);
      if parent.None? {
        failed := failed + [rel];
      } else {
        var made := create(rel, parent.value);
        match made
        case Some(uuid) => folderMap := folderMap[rel := uuid];
        case None => failed := failed + [rel];
      }
    }
    assert folders[..|folders|] == folders;
  }

  datatype Task = Task(rel: Rel, parent: nat)

  function TaskRels(tasks: seq<Task>): seq<Rel> {
    seq(|tasks|, i requires 0 <= i < |tasks| => tasks[i].rel)
  }

  lemma RelsOneMore(nodes: seq<Scanned>, i: nat)
    requires i < |nodes|
    ensures multiset(Rels(nodes[..i + 1])) == multiset(Rels(nodes[..i])) + multiset{nodes[i].rel}
  {
    assert Rels(nodes[..i + 1]) == Rels(nodes[..i]) + [nodes[i].rel];
  }

  lemma TaskRelsSnoc(tasks: seq<Task>, t: Task)
    ensures multiset(TaskRels(tasks + [t])) == multiset(TaskRels(tasks)) + multiset{t.rel}
  {
    assert TaskRels(tasks + [t]) == TaskRels(tasks) + [t.rel];
  }

  lemma TaskRelsWithout(tasks: seq<Task>, k: nat)
    requires k < |tasks|
    ensures multiset(TaskRels(tasks)) == multiset(TaskRels(tasks[..k] + tasks[k + 1..])) + multiset{tasks[k].rel}
  {
    assert TaskRels(tasks) == TaskRels(tasks[..k]) + [tasks[k].rel] + TaskRels(tasks[k + 1..]);
    assert TaskRels(tasks[..k] + tasks[k + 1..]) == TaskRels(tasks[..k]) + TaskRels(tasks[k + 1..]);
  }

  /** A file whose folder is missing fails at once; the others become tasks that
      know their folder's uuid. */
  method StartUploads(files: seq<Scanned>, folderMap: map<Rel, nat>, dest: nat) returns (tasks: seq<Task>, failed: seq<Rel>)
    requires forall i | 0 <= i < |files| :: files[i].rel != []
    ensures multiset(TaskRels(tasks)) + multiset(failed) == multiset(Rels(files))
    ensures forall t | t in tasks :: t.rel != [] && ParentUuid(t.rel, folderMap, dest) == Some(t.parent)
    ensures forall rel | rel in failed :: rel != [] && ParentUuid(rel, folderMap, dest) == None
  {
    tasks, failed := [], [];
    for i := 0 to |files|
      invariant multiset(TaskRels(tasks)) + multiset(failed) == multiset(Rels(files[..i]))
      invariant forall t | t in tasks :: t.rel != [] && ParentUuid(t.rel, folderMap, dest) == Some(t.parent)
      invariant forall rel | rel in failed :: rel != [] && ParentUuid(rel, folderMap, dest) == None
    {
      var rel := files[i].rel;
      RelsOneMore(files, i);
      var parent := ParentUuid(rel, folderMap, dest);
      match parent
      case None => failed := failed + [rel];
      case Some(uuid) =>
        TaskRelsSnoc(tasks, Task(rel, uuid));
        tasks := tasks + [Task(rel, uuid)];
    }
    assert files[..|files|] == files;
  }

  /** A task for this file ends well or badly. */
  ghost predicate Ends(tasks: seq<Task>, upload: (Rel, nat) -> bool, rel: Rel, well: bool) {
    exists t | t in tasks :: t.rel == rel && upload(rel, t.parent) == well
  }

  /** The tasks end in any order. */
  method FinishUploads(tasks: seq<Task>, upload: (Rel, nat) -> bool) returns (uploaded: seq<Rel>, failed: seq<Rel>)
    ensures multiset(uploaded) + multiset(failed) == multiset(TaskRels(tasks))
    ensures forall rel | rel in uploaded :: Ends(tasks, upload, rel, true)
    ensures forall rel | rel in failed :: Ends(tasks, upload, rel, false)
  {
    uploaded, failed := [], [];
    var rest := tasks;
    while rest != []
      invariant multiset(uploaded) + multiset(failed) + multiset(TaskRels(rest)) == multiset(TaskRels(tasks))
      invariant forall t | t in rest :: t in tasks
      invariant forall rel | rel in uploaded :: Ends(tasks, upload, rel, true)
      invariant forall rel | rel in failed :: Ends(tasks, upload, rel, false)
      decreases |rest|
    {
      var k :| 0 <= k < |rest|;
      var t := rest[k];
      assert Ends(tasks, upload, t.rel, upload(t.rel, t.parent));
      TaskRelsWithout(rest, k);
      rest := rest[..k] + rest[k + 1..];
      if upload(t.rel, t.parent) {
        uploaded := uploaded + [t.rel];
      } else {
        failed := failed + [t.rel];
      }
    }
  }

  // ---- the outcome ----

  /** Each path found is found once, and is ready, uploaded or failed. */
  ghost predicate Accounts(f: Found, ready: map<Rel, nat>, uploaded: seq<Rel>, failed: seq<Rel>) {
    Once(AllRels(f)) && multiset(ready.Keys) + multiset(uploaded) + multiset(failed) == multiset(AllRels(f))
  }

  /** The file's folder is there and takes it. */
  ghost predicate Works(rel: Rel, dest: nat, create: (Rel, nat) -> Option<nat>, upload: (Rel, nat) -> bool)
    requires rel != []
  {
    var parent := UuidOf(ParentOf(rel), dest, create);
    parent.Some? && upload(rel, parent.value)
  }

  lemma HasIsMember(nodes: seq<Scanned>, rel: Rel)
    ensures Has(nodes, rel) <==> rel in multiset(Rels(nodes))
  {
    var rels := Rels(nodes);
    assert rel in multiset(rels) <==> rel in rels;
    if Has(nodes, rel) {
      var i :| 0 <= i < |nodes| && nodes[i].rel == rel;
      assert rels[i] == rel;
    }
    if rel in rels {
      var i :| 0 <= i < |rels| && rels[i] == rel;
      assert nodes[i].rel == rel;
    }
  }

  lemma {:induction false} FailuresAre(nodes: seq<Scanned>, ok: Rel -> bool)
    ensures forall rel :: rel in Failures(nodes, ok) <==> Has(nodes, rel) && !ok(rel)
    ensures forall rel :: multiset(Failures(nodes, ok))[rel] == if ok(rel) then 0 else multiset(Rels(nodes))[rel]
  {
    if nodes != [] {
      var front, last := nodes[..|nodes| - 1], nodes[|nodes| - 1];
      FailuresAre(front, ok);
      assert Rels(nodes) == Rels(front) + [last.rel];
      assert nodes == front + [last];
      forall rel
        ensures Has(nodes, rel) <==> Has(front, rel) || last.rel == rel
      {
        HasAfter(nodes, front, [last], rel);
      }
    }
  }

  lemma FoldersAccounted(f: Found, ready: map<Rel, nat>, missing: seq<Rel>, dest: nat, create: (Rel, nat) -> Option<nat>)
    requires Once(AllRels(f)) && Maps(ready, f.folders, dest, create)
    requires missing == Failures(f.folders, rel => Made(rel, dest, create))
    ensures multiset(ready.Keys) + multiset(missing) == multiset(Rels(f.folders))
  {
    FailuresAre(f.folders, rel => Made(rel, dest, create));
    forall rel
      ensures (multiset(ready.Keys) + multiset(missing))[rel] == multiset(Rels(f.folders))[rel]
    {
      HasIsMember(f.folders, rel);
      assert multiset(AllRels(f)) == multiset(Rels(f.folders)) + multiset(Rels(f.files));
      assert multiset(AllRels(f))[rel] <= 1;
    }
  }

  lemma Accounted(f: Found, ready: map<Rel, nat>, missing: seq<Rel>, tasks: seq<Rel>, unplaced: seq<Rel>,
                  uploaded: seq<Rel>, broken: seq<Rel>)
    requires multiset(ready.Keys) + multiset(missing) == multiset(Rels(f.folders))
    requires multiset(tasks) + multiset(unplaced) == multiset(Rels(f.files))
    requires multiset(uploaded) + multiset(broken) == multiset(tasks)
    ensures multiset(ready.Keys) + multiset(uploaded) + multiset(missing + unplaced + broken) == multiset(AllRels(f))
  {
  }

  /** Each of a found path's outcomes rules out the others. */
  lemma OneOutcome(f: Found, ready: map<Rel, nat>, uploaded: seq<Rel>, failed: seq<Rel>, rel: Rel)
    requires Accounts(f, ready, uploaded, failed)
    ensures rel in AllRels(f) <==> rel in ready || rel in uploaded || rel in failed
    ensures !(rel in ready && rel in uploaded) && !(rel in ready && rel in failed) && !(rel in uploaded && rel in failed)
  {
    var all := multiset(ready.Keys) + multiset(uploaded) + multiset(failed);
    assert all[rel] == multiset(AllRels(f))[rel] <= 1;
    assert rel in AllRels(f) <==> rel in multiset(AllRels(f));
    assert rel in ready <==> rel in multiset(ready.Keys);
    assert rel in uploaded <==> rel in multiset(uploaded);
    assert rel in failed <==> rel in multiset(failed);
  }

  /** A folder that is not made takes everything below it along. */
  lemma {:induction false} NothingBelowAFailure(rel: Rel, below: Rel, dest: nat, create: (Rel, nat) -> Option<nat>)
    requires rel != [] && rel <= below && !Made(rel, dest, create)
    ensures !Made(below, dest, create)
    decreases |below|
  {
    if rel != below {
      assert rel <= ParentOf(below);
      NothingBelowAFailure(rel, ParentOf(below), dest, create);
    }
  }

  /** The uploaded files are those whose folder is there and that it takes. */
  ghost predicate FilesDone(f: Found, uploaded: seq<Rel>, dest: nat, create: (Rel, nat) -> Option<nat>, upload: (Rel, nat) -> bool) {
    && (forall i | 0 <= i < |f.files| :: f.files[i].rel != [])
    && (forall rel | rel in uploaded :: Has(f.files, rel) && rel != [])
    && (forall x | x in f.files :: x.rel != [] && (x.rel in uploaded <==> Works(x.rel, dest, create, upload)))
  }

  lemma TaskIsFile(f: Found, tasks: seq<Task>, unplaced: seq<Rel>, t: Task)
    requires multiset(TaskRels(tasks)) + multiset(unplaced) == multiset(Rels(f.files)) && t in tasks
    ensures Has(f.files, t.rel)
  {
    var k :| 0 <= k < |tasks| && tasks[k] == t;
    assert TaskRels(tasks)[k] == t.rel && t.rel in multiset(TaskRels(tasks));
    HasIsMember(f.files, t.rel);
  }

  lemma FileOutcome(f: Found, ready: map<Rel, nat>, tasks: seq<Task>, unplaced: seq<Rel>, uploaded: seq<Rel>, broken: seq<Rel>,
                    dest: nat, create: (Rel, nat) -> Option<nat>, upload: (Rel, nat) -> bool, x: Scanned)
    requires ParentsFirst(f, []) && Maps(ready, f.folders, dest, create) && x in f.files
    requires multiset(TaskRels(tasks)) + multiset(unplaced) == multiset(Rels(f.files))
    requires forall t | t in tasks :: t.rel != [] && ParentUuid(t.rel, ready, dest) == Some(t.parent)
    requires forall rel | rel in unplaced :: rel != [] && ParentUuid(rel, ready, dest) == None
    requires multiset(uploaded) + multiset(broken) == multiset(TaskRels(tasks))
    requires forall rel | rel in uploaded :: Ends(tasks, upload, rel, true)
    requires forall rel | rel in broken :: Ends(tasks, upload, rel, false)
    ensures x.rel != [] && (x.rel in uploaded <==> Works(x.rel, dest, create, upload))
  {
    var k :| 0 <= k < |f.files| && f.files[k] == x;
    assert f.files[k].rel == x.rel && Has(f.files, x.rel);
    ParentIsMapped(x.rel, f.folders, ready, dest, create);
    HasIsMember(f.files, x.rel);
    var all := multiset(uploaded) + multiset(broken) + multiset(unplaced);
    assert x.rel in all;
    assert x.rel in uploaded || x.rel in broken || x.rel in unplaced;
  }

  method UploadScanned(ghost f: Found, folders: seq<Scanned>, files: seq<Scanned>, dest: nat,
                       create: (Rel, nat) -> Option<nat>, upload: (Rel, nat) -> bool)
      returns (ready: map<Rel, nat>, uploaded: seq<Rel>, failed: seq<Rel>)
    requires folders == f.folders && files == f.files && ParentsFirst(f, []) && Once(AllRels(f))
    ensures Accounts(f, ready, uploaded, failed)
    ensures Maps(ready, folders, dest, create) && FilesDone(f, uploaded, dest, create, upload)
  {
    var missing, tasks, unplaced, broken;
    ready, missing := CreateTree(folders, dest, create);
    tasks, unplaced := StartUploads(files, ready, dest);
    uploaded, broken := FinishUploads(tasks, upload);
    failed := missing + unplaced + broken;
    FoldersAccounted(f, ready, missing, dest, create);
    Accounted(f, ready, missing, TaskRels(tasks), unplaced, uploaded, broken);
    forall rel | rel in uploaded
      ensures Has(f.files, rel) && rel != []
    {
      var t :| t in tasks && t.rel == rel;
      TaskIsFile(f, tasks, unplaced, t);
    }
    forall x | x in f.files
      ensures x.rel != [] && (x.rel in uploaded <==> Works(x.rel, dest, create, upload))
    {
      FileOutcome(f, ready, tasks, unplaced, uploaded, broken, dest, create, upload, x);
    }
  }

  /** What becomes of every folder and every wanted file of the tree: a folder
      is ready, under the uuid it got, exactly when it and all above it could be
      made; a file is uploaded exactly when its folder is ready and takes it;
      everything else has failed, and nothing else is reported. */
  ghost predicate Reported(root: Node, excludeEmpty: bool, dest: nat, create: (Rel, nat) -> Option<nat>, upload: (Rel, nat) -> bool,
                           ready: map<Rel, nat>, uploaded: seq<Rel>, failed: seq<Rel>) {
    && (forall rel :: rel in ready <==> FolderAt(root, [], rel) && UuidOf(rel, dest, create).Some?)
    && (forall rel | rel in ready :: UuidOf(rel, dest, create) == Some(ready[rel]))
    && (forall x | FileAt(root, [], excludeEmpty, x) ::
          x.rel != [] && (x.rel in uploaded <==> Works(x.rel, dest, create, upload)))
    && (forall rel | rel in uploaded :: exists size :: FileAt(root, [], excludeEmpty, Scanned(rel, size)))
    && (forall rel :: rel in failed <==>
          && (FolderAt(root, [], rel) || exists size :: FileAt(root, [], excludeEmpty, Scanned(rel, size)))
          && rel !in ready && rel !in uploaded)
  }

  lemma FoundIs(root: Node, excludeEmpty: bool, rel: Rel)
    ensures var f := Scan(root, [], excludeEmpty);
            && (Has(f.folders, rel) <==> FolderAt(root, [], rel))
            && (Has(f.files, rel) <==> exists size :: FileAt(root, [], excludeEmpty, Scanned(rel, size)))
            && (rel in AllRels(f) <==> Has(f.folders, rel) || Has(f.files, rel))
  {
    var f := Scan(root, [], excludeEmpty);
    ScanFindsAll(root, [], excludeEmpty, Scanned(rel, 0));
    if Has(f.files, rel) {
      var i :| 0 <= i < |f.files| && f.files[i].rel == rel;
      ScanFindsAll(root, [], excludeEmpty, f.files[i]);
      assert FileAt(root, [], excludeEmpty, Scanned(rel, f.files[i].size));
    }
    forall size | FileAt(root, [], excludeEmpty, Scanned(rel, size))
      ensures Has(f.files, rel)
    {
      ScanFindsAll(root, [], excludeEmpty, Scanned(rel, size));
      var i :| 0 <= i < |f.files| && f.files[i] == Scanned(rel, size);
      assert f.files[i].rel == rel;
    }
    HasIsMember(f.folders, rel);
    HasIsMember(f.files, rel);
    assert rel in AllRels(f) <==> rel in Rels(f.folders) || rel in Rels(f.files);
  }

  lemma ReportIs(root: Node, excludeEmpty: bool, dest: nat, create: (Rel, nat) -> Option<nat>, upload: (Rel, nat) -> bool,
                 ready: map<Rel, nat>, uploaded: seq<Rel>, failed: seq<Rel>)
    requires var f := Scan(root, [], excludeEmpty);
             Accounts(f, ready, uploaded, failed) && Maps(ready, f.folders, dest, create) && FilesDone(f, uploaded, dest, create, upload)
    ensures Reported(root, excludeEmpty, dest, create, upload, ready, uploaded, failed)
  {
    var f := Scan(root, [], excludeEmpty);
    forall rel
      ensures rel in ready <==> FolderAt(root, [], rel) && UuidOf(rel, dest, create).Some?
      ensures rel in uploaded ==> exists size :: FileAt(root, [], excludeEmpty, Scanned(rel, size))
      ensures rel in failed <==>
                && (FolderAt(root, [], rel) || exists size :: FileAt(root, [], excludeEmpty, Scanned(rel, size)))
                && rel !in ready && rel !in uploaded
    {
      FoundIs(root, excludeEmpty, rel);
      OneOutcome(f, ready, uploaded, failed, rel);
    }
    forall x | FileAt(root, [], excludeEmpty, x)
      ensures x in f.files
    {
      ScanFindsAll(root, [], excludeEmpty, x);
    }
  }

  /** A folder that failed has everything in it among the failures. */
  lemma FailsWhole(root: Node, excludeEmpty: bool, dest: nat, create: (Rel, nat) -> Option<nat>, upload: (Rel, nat) -> bool,
                   ready: map<Rel, nat>, uploaded: seq<Rel>, failed: seq<Rel>, rel: Rel, below: Rel)
    requires Reported(root, excludeEmpty, dest, create, upload, ready, uploaded, failed)
    requires FolderAt(root, [], rel) && rel in failed && rel <= below
    requires FolderAt(root, [], below) || exists size :: FileAt(root, [], excludeEmpty, Scanned(below, size))
    ensures below in failed
  {
    assert !Made(rel, dest, create);
    NothingBelowAFailure(rel, below, dest, create);
    if below in uploaded && below != rel {
      var size :| FileAt(root, [], excludeEmpty, Scanned(below, size));
      assert rel <= ParentOf(below);
      NothingBelowAFailure(rel, ParentOf(below), dest, create);
    }
  }

  /** The whole upload accounts for everything there is: each folder and each
      wanted file ends in exactly one of ready, uploaded and failed, and which
      is determined; the announced total is the sum of the sizes. */
  method UploadFolder(root: Node, excludeEmpty: bool, dest: nat, create: (Rel, nat) -> Option<nat>, upload: (Rel, nat) -> bool)
      returns (ready: map<Rel, nat>, uploaded: seq<Rel>, failed: seq<Rel>, total: nat)
    requires WellNamed(root)
    ensures Reported(root, excludeEmpty, dest, create, upload, ready, uploaded, failed)
    ensures Accounts(Scan(root, [], excludeEmpty), ready, uploaded, failed)
    ensures total == Sum(Scan(root, [], excludeEmpty).files)
  {
    var folders, files;
    folders, files, total := ScanDir(root, [], excludeEmpty, [], []);
    ScanParentsFirst(root, [], excludeEmpty);
    ScanFindsOnce(root, [], excludeEmpty);
    TotalIsSum(root, [], excludeEmpty);
    ghost var f := Scan(root, [], excludeEmpty);
    assert folders == f.folders && files == f.files;
    ready, uploaded, failed := UploadScanned(f, folders, files, dest, create, upload);
    ReportIs(root, excludeEmpty, dest, create, upload, ready, uploaded, failed);
  }
}
