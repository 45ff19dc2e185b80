/** One-way sync, planning: what to transfer and what to prune, the same for
    both directions. */
module SyncPlan {
  import opened Basics
  import opened PathText

  const MTIME_TOL_SECS: int := 2

  datatype Meta = Meta(size: nat, mtime: int)

  /** One side as the walk sees it; the root is not listed. */
  datatype Tree = Tree(files: map<string, Meta>, dirs: set<string>) {
    predicate Has(rel: string) {
      rel in files || rel in dirs
    }
  }

  /** Every listed path has a name and a listed parent. */
  ghost predicate Closed(t: Tree) {
    "" !in t.dirs && forall rel | t.Has(rel) :: Dirname(rel) == "" || Dirname(rel) in t.dirs
  }

  function Abs(x: int): nat {
    if x < 0 then -x else x
  }

  predicate Changed(a: Meta, b: Meta) {
    a.size != b.size || Abs(a.mtime - b.mtime) > MTIME_TOL_SECS
  }

  predicate NeedsTransfer(src: Tree, dst: Tree, rel: string) {
    rel in src.files && (rel in dst.files ==> Changed(src.files[rel], dst.files[rel]))
  }

  datatype Removal = Folder(rel: string) | File(rel: string)

  /** An extra folder whose parent is not extra: removing it takes all below. */
  predicate TopExtra(src: Tree, dst: Tree, rel: string) {
    rel in dst.dirs && rel !in src.dirs && (Dirname(rel) == "" || Dirname(rel) in src.dirs)
  }

  predicate UnderAny(rel: string, dirs: seq<string>) {
    exists i | 0 <= i < |dirs| :: Under(rel, dirs[i])
  }

  predicate NoRepeat<T(==)>(s: seq<T>) {
    forall i, j | 0 <= i < j < |s| :: s[i] != s[j]
  }

  /** A file is left alone exactly when both sides have it in one size, with
      times at most 2 seconds apart. Hash maps are walked in any order. */
  method PlanTransfers(src: Tree, dst: Tree) returns (transfers: seq<string>, skipped: nat)
    ensures NoRepeat(transfers)
    ensures forall rel :: rel in transfers ==> rel in src.files
    ensures forall rel | rel in src.files ::
              rel !in transfers <==>
                && rel in dst.files && src.files[rel].size == dst.files[rel].size
                && -2 <= src.files[rel].mtime - dst.files[rel].mtime <= 2
    ensures forall rel :: rel in transfers <==> NeedsTransfer(src, dst, rel)
    ensures |transfers| + skipped == |src.files.Keys|
  {
    transfers, skipped := [], 0;
    var rest := src.files.Keys;
    while rest != {}
      invariant rest <= src.files.Keys && NoRepeat(transfers)
      invariant forall rel :: rel in transfers <==> NeedsTransfer(src, dst, rel) && rel !in rest
      invariant |transfers| + skipped + |rest| == |src.files.Keys|
    {
      var rel :| rel in rest;
      rest := rest - {rel};
      if rel in dst.files {
        if Changed(src.files[rel], dst.files[rel]) {
          transfers := transfers + [rel];
        } else {
          skipped := skipped + 1;
        }
      } else {
        transfers := transfers + [rel];
      }
    }
  }

  /** Which removals a plan must list, folders first. */
  ghost predicate IsPlan(plan: seq<Removal>, src: Tree, dst: Tree) {
    && NoRepeat(plan)
    && (forall rel :: Folder(rel) in plan <==> TopExtra(src, dst, rel))
    && (forall rel :: File(rel) in plan <==>
          rel in dst.files && rel !in src.files && !exists dir :: Folder(dir) in plan && Under(rel, dir))
  }

  lemma PrunedAreFolders(pruned: seq<string>, plan: seq<Removal>)
    requires |plan| == |pruned| && forall i | 0 <= i < |plan| :: plan[i] == Folder(pruned[i])
    ensures forall rel :: UnderAny(rel, pruned) <==> exists dir :: Folder(dir) in plan && Under(rel, dir)
    ensures forall rel :: File(rel) !in plan
  {
    forall rel
      ensures UnderAny(rel, pruned) <==> exists dir :: Folder(dir) in plan && Under(rel, dir)
    {
      if UnderAny(rel, pruned) {
        var i :| 0 <= i < |pruned| && Under(rel, pruned[i]);
        assert plan[i] == Folder(pruned[i]);
      }
    }
  }

  method PlanRemovals(src: Tree, dst: Tree) returns (plan: seq<Removal>)
    ensures IsPlan(plan, src, dst)
  {
    plan := [];
    var pruned: seq<string> := [];
    var dirs := dst.dirs;
    while dirs != {}
      invariant dirs <= dst.dirs && NoRepeat(plan) && |plan| == |pruned|
      invariant forall i | 0 <= i < |plan| :: plan[i] == Folder(pruned[i])
      invariant forall rel :: Folder(rel) in plan <==> TopExtra(src, dst, rel) && rel !in dirs
    {
      var rel :| rel in dirs;
      dirs := dirs - {rel};
      if rel !in src.dirs {
        var parent := Dirname(rel);
        if parent == "" || parent in src.dirs {
          pruned := pruned + [rel];
          plan := plan + [Folder(rel)];
        }
      }
    }
    ghost var folders := plan;
    PrunedAreFolders(pruned, folders);
    var files := dst.files.Keys;
    while files != {}
      invariant files <= dst.files.Keys && NoRepeat(plan)
      invariant forall rel :: Folder(rel) in plan <==> Folder(rel) in folders
      invariant forall rel :: File(rel) in plan <==>
          rel in dst.files && rel !in src.files && rel !in files && !UnderAny(rel, pruned)
    {
      var rel :| rel in files;
      files := files - {rel};
      if rel !in src.files && !UnderAny(rel, pruned) {
        plan := plan + [File(rel)];
      }
    }
  }

  /** What a removal takes with it. */
  predicate Takes(r: Removal, rel: string, isDir: bool) {
    match r
    case Folder(dir) => Under(rel, dir) || (isDir && rel == dir)
    case File(f) => !isDir && rel == f
  }

  lemma {:induction false} AncestorListed(t: Tree, rel: string, dir: string)
    requires Closed(t) && t.Has(rel) && Under(rel, dir) && dir != ""
    ensures dir in t.dirs
    decreases |rel|
  {
    UnderOrParent(rel, dir);
    if Dirname(rel) != dir {
      UnderParent(rel);
      AncestorListed(t, Dirname(rel), dir);
    }
  }

  /** Climbing from an extra folder ends at a pruned one. */
  lemma {:induction false} PrunedAbove(src: Tree, dst: Tree, rel: string) returns (top: string)
    requires Closed(dst) && rel in dst.dirs && rel !in src.dirs
    ensures TopExtra(src, dst, top) && (rel == top || Under(rel, top))
    decreases |rel|
  {
    if TopExtra(src, dst, rel) {
      top := rel;
    } else {
      UnderParent(rel);
      top := PrunedAbove(src, dst, Dirname(rel));
      if Dirname(rel) != top {
        UnderTransitive(rel, Dirname(rel), top);
      }
    }
  }

  /** Pruned folders do not nest. */
  lemma PrunedApart(src: Tree, dst: Tree, a: string, b: string)
    requires Closed(src) && TopExtra(src, dst, a) && TopExtra(src, dst, b) && b != ""
    ensures !Under(a, b)
  {
    if Under(a, b) {
      UnderOrParent(a, b);
      if Dirname(a) != b {
        AncestorListed(src, Dirname(a), b);
      }
    }
  }

  /** No removal takes anything the source has. */
  lemma SourceIsSafe(src: Tree, dst: Tree, plan: seq<Removal>, r: Removal, rel: string)
    requires Closed(src) && Closed(dst) && IsPlan(plan, src, dst) && r in plan
    ensures rel in src.files ==> !Takes(r, rel, false)
    ensures rel in src.dirs ==> !Takes(r, rel, true)
  {
    if r.Folder? && Under(rel, r.rel) && src.Has(rel) {
      AncestorListed(src, rel, r.rel);
    }
  }

  predicate OnlyTaker(plan: seq<Removal>, i: nat, rel: string, isDir: bool)
    requires i < |plan|
  {
    Takes(plan[i], rel, isDir) && forall j | 0 <= j < |plan| && j != i :: !Takes(plan[j], rel, isDir)
  }

  /** Exactly one entry of the plan takes the path. */
  predicate TakenOnce(plan: seq<Removal>, rel: string, isDir: bool) {
    exists i | 0 <= i < |plan| :: OnlyTaker(plan, i, rel, isDir)
  }

  predicate Taken(plan: seq<Removal>, rel: string, isDir: bool) {
    exists r | r in plan :: Takes(r, rel, isDir)
  }

  lemma NotTwo(src: Tree, dst: Tree, plan: seq<Removal>, r: Removal, q: Removal, rel: string, isDir: bool)
    requires Closed(src) && Closed(dst) && IsPlan(plan, src, dst)
    requires r in plan && q in plan && Takes(r, rel, isDir) && Takes(q, rel, isDir)
    ensures r == q
  {
    if r.Folder? && q.Folder? {
      PrunedApart(src, dst, r.rel, q.rel);
      PrunedApart(src, dst, q.rel, r.rel);
      if rel != r.rel && rel != q.rel {
        if |r.rel| <= |q.rel| {
          UnderBoth(rel, r.rel, q.rel);
        } else {
          UnderBoth(rel, q.rel, r.rel);
        }
      }
    }
  }

  lemma OnlyOne(src: Tree, dst: Tree, plan: seq<Removal>, r: Removal, rel: string, isDir: bool)
    requires Closed(src) && Closed(dst) && IsPlan(plan, src, dst)
    requires r in plan && Takes(r, rel, isDir)
    ensures TakenOnce(plan, rel, isDir)
  {
    var i :| 0 <= i < |plan| && plan[i] == r;
    forall j | 0 <= j < |plan| && j != i
      ensures !Takes(plan[j], rel, isDir)
    {
      if Takes(plan[j], rel, isDir) {
        NotTwo(src, dst, plan, r, plan[j], rel, isDir);
      }
    }
    assert OnlyTaker(plan, i, rel, isDir);
  }

  /** The plan is an exact cover. Every destination-only folder and file is
      taken by exactly one removal, whether listed itself or below exactly one
      pruned folder, and nothing the source has is taken by any. */
  lemma RemovalsExactlyCover(src: Tree, dst: Tree, plan: seq<Removal>, rel: string)
    requires Closed(src) && Closed(dst) && IsPlan(plan, src, dst)
    ensures rel in dst.dirs && rel !in src.dirs ==> TakenOnce(plan, rel, true)
    ensures rel in dst.files && rel !in src.files ==> TakenOnce(plan, rel, false)
    ensures rel in src.dirs ==> !Taken(plan, rel, true)
    ensures rel in src.files ==> !Taken(plan, rel, false)
  {
    if rel in dst.dirs && rel !in src.dirs {
      var top := PrunedAbove(src, dst, rel);
      OnlyOne(src, dst, plan, Folder(top), rel, true);
    }
    if rel in dst.files && rel !in src.files {
      if File(rel) in plan {
        OnlyOne(src, dst, plan, File(rel), rel, false);
      } else {
        var dir :| Folder(dir) in plan && Under(rel, dir);
        OnlyOne(src, dst, plan, Folder(dir), rel, false);
      }
    }
    forall r | r in plan
      ensures rel in src.dirs ==> !Takes(r, rel, true)
      ensures rel in src.files ==> !Takes(r, rel, false)
    {
      SourceIsSafe(src, dst, plan, r, rel);
    }
  }
}
