/** One-way sync, execution: folders first, parents before children; then
    transfers; then removals. A failure-free pass makes the destination equal
    to the source, and says exactly what a second pass would do. */
module SyncRun {
  import opened Basics
  import opened PathText
  import opened Sorting
  import opened SyncPlan

  // ---- parents before children ----

  function Depth(rel: string): nat {
    if rel == "" then 0 else (if rel[|rel| - 1] == '/' then 1 else 0) + Depth(rel[..|rel| - 1])
  }

  lemma {:induction false} DepthOfPrefix(a: string, b: string)
    requires a <= b
    ensures Depth(a) <= Depth(b)
    decreases |b|
  {
    if a == b {
    } else {
      assert a <= b[..|b| - 1];
      DepthOfPrefix(a, b[..|b| - 1]);
    }
  }

  lemma ParentIsShallower(rel: string)
    requires Dirname(rel) != ""
    ensures Depth(Dirname(rel)) < Depth(rel)
  {
    var i := LastSlash(rel);
    assert rel[..i + 1][..i] == Dirname(rel);
    DepthOfPrefix(rel[..i + 1], rel);
  }

  function SortByDepth(dirs: seq<string>): seq<string> {
    SortBy(dirs, (rel: string) => Depth(rel))
  }

  lemma SortedByDepth(dirs: seq<string>)
    ensures forall rel :: rel in SortByDepth(dirs) <==> rel in dirs
    ensures forall i, j | 0 <= i < j < |SortByDepth(dirs)| :: Depth(SortByDepth(dirs)[i]) <= Depth(SortByDepth(dirs)[j])
  {
    SortSorts(dirs, (rel: string) => Depth(rel));
    SameMembers(SortByDepth(dirs), dirs);
  }

  lemma ParentEarlier(ordered: seq<string>, i: nat)
    requires i < |ordered|
    requires forall k, j | 0 <= k < j < |ordered| :: Depth(ordered[k]) <= Depth(ordered[j])
    requires forall rel | rel in ordered :: Dirname(rel) == "" || Dirname(rel) in ordered
    ensures Dirname(ordered[i]) == "" || exists k | 0 <= k < i :: ordered[k] == Dirname(ordered[i])
  {
    var dir := ordered[i];
    assert dir in ordered;
    if Dirname(dir) != "" {
      ParentIsShallower(dir);
      var k :| 0 <= k < |ordered| && ordered[k] == Dirname(dir);
    }
  }

  /** The remote folders after creating what is missing. A folder is created
      under its parent's uuid, so the parent must be there already; `minted`
      gives the uuid the server answers with. */
  method CreateFolders(localDirs: seq<string>, remoteDirs: map<string, nat>, minted: string -> nat)
      returns (all: map<string, nat>, ghost orphans: set<string>)
    requires "" in remoteDirs
    requires forall rel | rel in localDirs :: Dirname(rel) == "" || Dirname(rel) in localDirs
    ensures orphans == {}
    ensures all.Keys == remoteDirs.Keys + (set rel | rel in localDirs)
    ensures forall rel | rel in remoteDirs :: all[rel] == remoteDirs[rel]
    ensures forall rel | rel in all && rel !in remoteDirs :: all[rel] == minted(rel)
  {
    var ordered := SortByDepth(localDirs);
    all, orphans := remoteDirs, {};
    SortedByDepth(localDirs);
    for i := 0 to |ordered|
      invariant orphans == {}
      invariant all.Keys == remoteDirs.Keys + (set k | 0 <= k < i :: ordered[k])
      invariant forall rel | rel in remoteDirs :: all[rel] == remoteDirs[rel]
      invariant forall rel | rel in all && rel !in remoteDirs :: all[rel] == minted(rel)
    {
      var dir := ordered[i];
      if dir in all {
        continue;
      }
      var parent := Dirname(dir);
      ParentEarlier(ordered, i);
      if parent in all {
        all := all[dir := minted(dir)];
      } else {
        orphans := orphans + {dir};
      }
    }
  }

  // ---- the pass ----

  function Members(s: seq<string>): set<string> {
    set rel | rel in s
  }

  function Overlay(dst: map<string, Meta>, landed: map<string, Meta>, transfers: set<string>): map<string, Meta>
    requires transfers <= landed.Keys
  {
    map rel | rel in dst.Keys + transfers :: if rel in transfers then landed[rel] else dst[rel]
  }

  function Remaining(t: Tree, plan: seq<Removal>): Tree {
    Tree(map rel | rel in t.files && !Taken(plan, rel, false) :: t.files[rel],
         set rel | rel in t.dirs && !Taken(plan, rel, true))
  }

  /** One removal at a time, in plan order. */
  method Remove(t: Tree, plan: seq<Removal>) returns (left: Tree)
    ensures left == Remaining(t, plan)
  {
    left := t;
    for i := 0 to |plan|
      invariant left == Remaining(t, plan[..i])
    {
      var r := plan[i];
      left := Tree(map rel | rel in left.files && !Takes(r, rel, false) :: left.files[rel],
                   set rel | rel in left.dirs && !Takes(r, rel, true));
      assert plan[..i + 1] == plan[..i] + [r];
      assert forall rel, isDir :: Taken(plan[..i + 1], rel, isDir) <==> Taken(plan[..i], rel, isDir) || Takes(r, rel, isDir);
    }
    assert plan[..|plan|] == plan;
  }

  function Transfers(src: Tree, dst: Tree): set<string> {
    set rel | rel in src.files && NeedsTransfer(src, dst, rel)
  }

  /** The destination after a failure-free pass with `--delete`. `landed` is
      how each source file looks there once transferred. */
  function AfterPass(src: Tree, dst: Tree, landed: map<string, Meta>, plan: seq<Removal>): Tree
    requires landed.Keys == src.files.Keys
  {
    Remaining(Tree(Overlay(dst.files, landed, Transfers(src, dst)), dst.dirs + src.dirs), plan)
  }

  lemma TransfersAreSet(src: Tree, dst: Tree, transfers: seq<string>)
    requires forall rel :: rel in transfers <==> NeedsTransfer(src, dst, rel)
    ensures Members(transfers) == Transfers(src, dst)
  {
  }

  lemma TakenOnceIsTaken(plan: seq<Removal>, rel: string)
    ensures TakenOnce(plan, rel, true) ==> Taken(plan, rel, true)
    ensures TakenOnce(plan, rel, false) ==> Taken(plan, rel, false)
  {
    forall isDir | TakenOnce(plan, rel, isDir)
      ensures Taken(plan, rel, isDir)
    {
      var i :| 0 <= i < |plan| && OnlyTaker(plan, i, rel, isDir);
      assert plan[i] in plan;
    }
  }

  /** Once files have landed, and folders `dirs` are there, removals leave of the
      folders those the source has too and of the files the source's. */
  lemma RemovalsLeave(src: Tree, dst: Tree, landed: map<string, Meta>, plan: seq<Removal>, dirs: set<string>)
    requires Closed(src) && Closed(dst) && landed.Keys == src.files.Keys && IsPlan(plan, src, dst)
    requires dst.dirs <= dirs <= dst.dirs + src.dirs
    ensures var after := Remaining(Tree(Overlay(dst.files, landed, Transfers(src, dst)), dirs), plan);
            after.dirs == src.dirs * dirs && after.files.Keys == src.files.Keys
  {
    var after := Remaining(Tree(Overlay(dst.files, landed, Transfers(src, dst)), dirs), plan);
    forall rel
      ensures rel in after.dirs <==> rel in src.dirs && rel in dirs
      ensures rel in after.files <==> rel in src.files
    {
      RemovalsExactlyCover(src, dst, plan, rel);
      TakenOnceIsTaken(plan, rel);
    }
  }

  lemma HasMember(plan: seq<Removal>)
    ensures plan != [] ==> exists r :: r in plan
  {
    if plan != [] {
      assert plan[0] in plan;
    }
  }

  lemma NothingLeft(src: Tree, dst: Tree, again: seq<Removal>)
    requires dst.dirs == src.dirs && dst.files.Keys == src.files.Keys && IsPlan(again, src, dst)
    ensures again == []
  {
    forall r: Removal
      ensures r !in again
    {
      match r
      case Folder(rel) => assert !TopExtra(src, dst, rel);
      case File(rel) =>
    }
    HasMember(again);
  }

  /** Convergence and idempotence of any pass so planned. The destination has
      the source's folders and files; every file not transferred was and is
      unchanged; a second pass removes nothing and transfers exactly the files
      of the first that do not land looking like their source. */
  lemma PassConverges(src: Tree, dst: Tree, landed: map<string, Meta>, plan: seq<Removal>)
    requires Closed(src) && Closed(dst) && landed.Keys == src.files.Keys && IsPlan(plan, src, dst)
    ensures var after := AfterPass(src, dst, landed, plan);
            && after.dirs == src.dirs && after.files.Keys == src.files.Keys
            && (forall rel | rel in src.files ::
                  after.files[rel] == if rel in Transfers(src, dst) then landed[rel] else dst.files[rel])
            && Closed(after)
            && Transfers(src, after) == set rel | rel in Transfers(src, dst) && Changed(src.files[rel], landed[rel])
            && (forall again: seq<Removal> :: IsPlan(again, src, after) ==> again == [])
  {
    var after := AfterPass(src, dst, landed, plan);
    RemovalsLeave(src, dst, landed, plan, dst.dirs + src.dirs);
    forall again: seq<Removal> | IsPlan(again, src, after)
      ensures again == []
    {
      NothingLeft(src, after, again);
    }
  }
}
