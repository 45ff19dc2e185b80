/** The two directions of one-way sync: what a local file looks like on Drive
    and back, and what a pass and the pass after it then do. */
module SyncDirections {
  import opened Basics
  import opened PathText
  import opened SyncPlan
  import opened SyncRun

  /** A file on disk; `stamp` is its modification time in whole seconds since
      1970, negative before. */
  datatype LocalFile = LocalFile(size: nat, stamp: int)

  datatype RemoteFile = RemoteFile(size: nat, mtime: int, fileId: Option<nat>)

  /** The walk reads a time before 1970 as 0. */
  function Walked(f: LocalFile): Meta {
    Meta(f.size, Max(0, f.stamp))
  }

  /** An upload carries the true time. */
  function UploadedAs(f: LocalFile): Meta {
    Meta(f.size, f.stamp)
  }

  function Listed(f: RemoteFile): Meta {
    Meta(f.size, f.mtime)
  }

  /** Without content to fetch an empty file is made. */
  function DownloadedAs(f: RemoteFile): LocalFile {
    LocalFile(if f.size == 0 || f.fileId.None? then 0 else f.size, f.mtime)
  }

  lemma UploadLooksUnchanged(f: LocalFile)
    ensures !Changed(Walked(f), UploadedAs(f)) <==> f.stamp >= -2
  {
  }

  lemma DownloadLooksUnchanged(f: RemoteFile)
    ensures !Changed(Listed(f), Walked(DownloadedAs(f)))
       <==> (f.size == 0 || f.fileId.Some?) && f.mtime >= -2
  {
  }

  // ---- names ----

  function LastDot(s: string): (i: int)
    ensures -1 <= i < |s|
    ensures i >= 0 ==> s[i] == '.'
    ensures forall k | i < k < |s| :: s[k] != '.'
  {
    if s == "" then -1 else if s[|s| - 1] == '.' then |s| - 1 else LastDot(s[..|s| - 1])
  }

  /** Stem and extension as the standard library splits a file name: a leading
      dot starts no extension, and `..` has none. */
  function SplitName(name: string): (string, string) {
    var i := LastDot(name);
    if name == ".." || i <= 0 then (name, "") else (name[..i], name[i + 1..])
  }

  function RemoteName(name: string): string {
    DisplayName(SplitName(name).0, SplitName(name).1)
  }

  /** A name survives the trip unless it ends in a dot that is not its first
      character (`..` aside); then exactly that dot is lost. */
  lemma NameSurvives(name: string)
    ensures RemoteName(name) == name <==> !(|name| >= 2 && name[|name| - 1] == '.' && name != "..")
    ensures RemoteName(name) != name ==> RemoteName(name) + "." == name
  {
    var i := LastDot(name);
    if i > 0 && name != ".." {
      assert name == name[..i] + "." + name[i + 1..];
    }
  }

  predicate KeepsName(rel: string) {
    RemoteName(Basename(rel)) == Basename(rel)
  }

  /** Where the next listing shows a file uploaded from `rel`. */
  function RemoteRel(rel: string): string {
    JoinRel(Dirname(rel), RemoteName(Basename(rel)))
  }

  /** Paths from the walk do not start with a slash. */
  predicate IsRel(rel: string) {
    rel != "" && rel[0] != '/'
  }

  lemma RemoteRelIsRel(rel: string)
    requires IsRel(rel)
    ensures RemoteRel(rel) == rel <==> KeepsName(rel)
  {
    var i := LastSlash(rel);
    if i >= 0 {
      assert rel == rel[..i] + "/" + Basename(rel);
      var prefix := Dirname(rel) + "/";
      assert |rel| == |prefix| + |Basename(rel)|;
      assert RemoteRel(rel) == prefix + RemoteName(Basename(rel));
      assert rel[|prefix|..] == Basename(rel) && RemoteRel(rel)[|prefix|..] == RemoteName(Basename(rel));
    }
  }

  // ---- sync-up ----

  function LocalTree(files: map<string, LocalFile>, dirs: seq<string>): Tree {
    Tree(map rel | rel in files :: Walked(files[rel]), Members(dirs))
  }

  function Uploads(files: map<string, LocalFile>): map<string, Meta> {
    map rel | rel in files :: UploadedAs(files[rel])
  }

  /** One upload: the entry it replaces is trashed first, and the create is
      refused when the name it makes is taken. */
  function UploadOne(files: map<string, Meta>, rel: string, m: Meta): (map<string, Meta>, bool) {
    var left := files - {rel};
    if RemoteRel(rel) in left then (left, false) else (left[RemoteRel(rel) := m], true)
  }

  /** It makes the path its name comes back as, unless another file has that
      already, takes the old entry away, and touches no other. */
  lemma UploadOneIs(files: map<string, Meta>, rel: string, m: Meta, other: string)
    ensures var (after, ok) := UploadOne(files, rel, m);
            && (ok <==> RemoteRel(rel) == rel || RemoteRel(rel) !in files)
            && (ok ==> RemoteRel(rel) in after && after[RemoteRel(rel)] == m)
            && (rel != RemoteRel(rel) ==> rel !in after)
            && (other != rel && (other != RemoteRel(rel) || !ok) ==>
                  (other in after <==> other in files) && (other in files ==> after[other] == files[other]))
  {
  }

  /** The remote files after those uploads, and whether all went well. */
  function UploadedFiles(files: map<string, Meta>, landed: map<string, Meta>, transfers: seq<string>): (map<string, Meta>, bool)
    requires forall rel | rel in transfers :: rel in landed
  {
    if transfers == [] then (files, true)
    else
      var last := transfers[|transfers| - 1];
      var (before, ok) := UploadedFiles(files, landed, transfers[..|transfers| - 1]);
      var (after, okLast) := UploadOne(before, last, landed[last]);
      (after, ok && okLast)
  }

  method UploadAll(remoteFiles: map<string, Meta>, localFiles: map<string, LocalFile>, transfers: seq<string>)
      returns (files: map<string, Meta>, ok: bool)
    requires forall rel | rel in transfers :: rel in localFiles
    ensures (files, ok) == UploadedFiles(remoteFiles, Uploads(localFiles), transfers)
  {
    files, ok := remoteFiles, true;
    for i := 0 to |transfers|
      invariant (files, ok) == UploadedFiles(remoteFiles, Uploads(localFiles), transfers[..i])
    {
      var rel := transfers[i];
      assert transfers[..i + 1][..i] == transfers[..i] && rel in transfers;
      files := files - {rel};
      if RemoteRel(rel) in files {
        ok := false;
      } else {
        files := files[RemoteRel(rel) := UploadedAs(localFiles[rel])];
      }
    }
    assert transfers[..|transfers|] == transfers;
  }

  lemma LastOfSet(s: seq<string>)
    requires s != []
    ensures Members(s) == Members(s[..|s| - 1]) + {s[|s| - 1]}
  {
    assert s == s[..|s| - 1] + [s[|s| - 1]];
  }

  lemma OneLandsAtHome(files: map<string, Meta>, rel: string, m: Meta)
    requires IsRel(rel) && KeepsName(rel)
    ensures UploadOne(files, rel, m) == (files[rel := m], true)
  {
    RemoteRelIsRel(rel);
    assert (files - {rel})[rel := m] == files[rel := m];
  }

  lemma OverlayOneMore(files: map<string, Meta>, landed: map<string, Meta>, done: set<string>, rel: string)
    requires done <= landed.Keys && rel in landed
    ensures Overlay(files, landed, done)[rel := landed[rel]] == Overlay(files, landed, done + {rel})
  {
  }

  /** Files whose names survive land at their own paths, without a refusal. */
  lemma {:induction false} KeptNamesLand(files: map<string, Meta>, landed: map<string, Meta>, transfers: seq<string>)
    requires forall rel | rel in transfers :: rel in landed && IsRel(rel) && KeepsName(rel)
    ensures UploadedFiles(files, landed, transfers) == (Overlay(files, landed, Members(transfers)), true)
  {
    if transfers == [] {
      assert Overlay(files, landed, Members(transfers)) == files;
    } else {
      var front, last := transfers[..|transfers| - 1], transfers[|transfers| - 1];
      KeptNamesLand(files, landed, front);
      OneLandsAtHome(UploadedFiles(files, landed, front).0, last, landed[last]);
      OverlayOneMore(files, landed, Members(front), last);
      LastOfSet(transfers);
    }
  }

  /** Uploads make no other paths than those their names come back as. */
  lemma {:induction false} UploadsAppearAt(files: map<string, Meta>, landed: map<string, Meta>, transfers: seq<string>, rel: string)
    requires forall up | up in transfers :: up in landed
    requires rel !in files && forall up | up in transfers :: RemoteRel(up) != rel
    ensures rel !in UploadedFiles(files, landed, transfers).0
  {
    if transfers != [] {
      UploadsAppearAt(files, landed, transfers[..|transfers| - 1], rel);
    }
  }

  /** What a pass of `sync-up --delete` makes of the remote side. */
  ghost predicate UpPass(src: Tree, landed: map<string, Meta>, dst: Tree, transfers: seq<string>, plan: seq<Removal>, after: Tree) {
    && landed.Keys == src.files.Keys && IsPlan(plan, src, dst)
    && (forall rel :: rel in transfers <==> NeedsTransfer(src, dst, rel))
    && after == Remaining(Tree(UploadedFiles(dst.files, landed, transfers).0, dst.dirs + src.dirs), plan)
  }

  lemma ParentsListed(src: Tree, dirs: seq<string>)
    requires Closed(src) && src.dirs == Members(dirs)
    ensures forall rel | rel in dirs :: Dirname(rel) == "" || Dirname(rel) in dirs
  {
    assert forall rel | rel in dirs :: src.Has(rel);
  }

  lemma RootAside(remote: set<string>, local: set<string>, all: set<string>)
    requires all == remote + local && "" !in local
    ensures all - {""} == (remote - {""}) + local
  {
  }

  /** The whole of `sync-up --delete`, but for the network. Every parent is
      there when it is asked for. Nothing is refused when the names of the files
      to upload survive, and the pass is then the plain one. `remoteDirs` maps
      paths to uuids, the root at "". */
  method SyncUp(localFiles: map<string, LocalFile>, localDirs: seq<string>,
                remoteFiles: map<string, Meta>, remoteDirs: map<string, nat>, minted: string -> nat)
      returns (after: Tree, transfers: seq<string>, plan: seq<Removal>, ok: bool)
    requires "" in remoteDirs && Closed(LocalTree(localFiles, localDirs))
    requires forall rel | rel in localFiles :: IsRel(rel)
    ensures var src, dst := LocalTree(localFiles, localDirs), Tree(remoteFiles, remoteDirs.Keys - {""});
            && UpPass(src, Uploads(localFiles), dst, transfers, plan, after)
            && ok == UploadedFiles(remoteFiles, Uploads(localFiles), transfers).1
            && ((forall rel | NeedsTransfer(src, dst, rel) :: KeepsName(rel)) ==>
                  ok && after == AfterPass(src, dst, Uploads(localFiles), plan))
  {
    var src, dst := LocalTree(localFiles, localDirs), Tree(remoteFiles, remoteDirs.Keys - {""});
    var skipped: nat;
    transfers, skipped := PlanTransfers(src, dst);
    plan := PlanRemovals(src, dst);
    ParentsListed(src, localDirs);
    var all, _ := CreateFolders(localDirs, remoteDirs, minted);
    assert forall rel | rel in transfers :: src.Has(rel) && Dirname(rel) in all;
    RootAside(remoteDirs.Keys, src.dirs, all.Keys);
    var files: map<string, Meta>;
    files, ok := UploadAll(remoteFiles, localFiles, transfers);
    after := Remove(Tree(files, all.Keys - {""}), plan);
    TransfersAreSet(src, dst, transfers);
    if forall rel | rel in transfers :: KeepsName(rel) {
      KeptNamesLand(remoteFiles, Uploads(localFiles), transfers);
    }
  }

  lemma LostNameStaysLost(src: Tree, landed: map<string, Meta>, dst: Tree, transfers: seq<string>, plan: seq<Removal>,
                          after: Tree, rel: string)
    requires UpPass(src, landed, dst, transfers, plan, after) && rel !in dst.files
    requires IsRel(rel) && !KeepsName(rel) && forall other | other in src.files && other != rel :: RemoteRel(other) != rel
    ensures rel !in after.files
  {
    RemoteRelIsRel(rel);
    UploadsAppearAt(dst.files, landed, transfers, rel);
  }

  /** A file whose name does not survive is never settled: in any sequence of
      passes over unchanged local files, as long as it starts out absent and no
      other file's name comes back as this one, every pass uploads it. */
  lemma LostNameIsUploadedAgain(src: Tree, landed: map<string, Meta>, remotes: seq<Tree>,
                                transfers: seq<seq<string>>, plans: seq<seq<Removal>>, rel: string, k: nat)
    requires k < |remotes| && |transfers| == |plans| == |remotes| - 1
    requires forall i | 0 <= i < |plans| :: UpPass(src, landed, remotes[i], transfers[i], plans[i], remotes[i + 1])
    requires rel in src.files && IsRel(rel) && !KeepsName(rel) && rel !in remotes[0].files
    requires forall other | other in src.files && other != rel :: RemoteRel(other) != rel
    ensures NeedsTransfer(src, remotes[k], rel) && rel !in remotes[k].files
    decreases k
  {
    if k > 0 {
      LostNameIsUploadedAgain(src, landed, remotes, transfers, plans, rel, k - 1);
      LostNameStaysLost(src, landed, remotes[k - 1], transfers[k - 1], plans[k - 1], remotes[k], rel);
    }
  }

  /** Remote equals local after one pass: same folders, same files, same sizes,
      times at most 2 seconds apart for every file stamped no earlier than 2 seconds
      before 1970; a second pass removes nothing and uploads again exactly the
      files just uploaded that are stamped earlier. */
  lemma SyncUpConverges(localFiles: map<string, LocalFile>, localDirs: seq<string>, dst: Tree, plan: seq<Removal>)
    requires var src := LocalTree(localFiles, localDirs);
             Closed(src) && Closed(dst) && IsPlan(plan, src, dst)
    ensures var src := LocalTree(localFiles, localDirs);
            var after := AfterPass(src, dst, Uploads(localFiles), plan);
            && after.dirs == src.dirs && after.files.Keys == localFiles.Keys
            && (forall rel | rel in localFiles ::
                  && after.files[rel].size == localFiles[rel].size
                  && (rel in Transfers(src, dst) ==> after.files[rel].mtime == localFiles[rel].stamp)
                  && (localFiles[rel].stamp >= -2 ==> -2 <= after.files[rel].mtime - Max(0, localFiles[rel].stamp) <= 2))
            && Transfers(src, after) == (set rel | rel in Transfers(src, dst) && localFiles[rel].stamp < -2)
            && (forall again: seq<Removal> :: IsPlan(again, src, after) ==> again == [])
  {
    var src := LocalTree(localFiles, localDirs);
    PassConverges(src, dst, Uploads(localFiles), plan);
    var landed := Uploads(localFiles);
    assert landed.Keys == src.files.Keys;
    forall rel | rel in localFiles
      ensures !Changed(src.files[rel], landed[rel]) <==> localFiles[rel].stamp >= -2
    {
      UploadLooksUnchanged(localFiles[rel]);
    }
    forall again: seq<Removal> | IsPlan(again, src, AfterPass(src, dst, landed, plan))
      ensures again == []
    {
      NothingLeft(src, AfterPass(src, dst, landed, plan), again);
    }
  }

  // ---- when an upward pass converges ----

  /** A lost name comes back one character shorter. */
  lemma LostIsShorter(rel: string)
    requires IsRel(rel) && !KeepsName(rel)
    ensures RemoteRel(rel) != rel && |RemoteRel(rel)| < |rel|
  {
    NameSurvives(Basename(rel));
    RemoteRelIsRel(rel);
    var i := LastSlash(rel);
    if i >= 0 {
      assert rel == rel[..i] + "/" + Basename(rel);
    }
  }

  lemma {:induction false} LongestOf(s: seq<string>, lost: string -> bool) returns (rel: string)
    requires exists up :: up in s && lost(up)
    ensures rel in s && lost(rel) && forall up | up in s && lost(up) :: |up| <= |rel|
  {
    var front, last := s[..|s| - 1], s[|s| - 1];
    assert s == front + [last];
    if exists up :: up in front && lost(up) {
      rel := LongestOf(front, lost);
      if lost(last) && |last| > |rel| {
        rel := last;
      }
    } else {
      rel := last;
    }
  }

  lemma UploadOneLeaves(files: map<string, Meta>, up: string, m: Meta, rel: string)
    requires RemoteRel(up) != rel
    ensures rel in UploadOne(files, up, m).0 <==> rel in files && rel != up
  {
  }

  predicate MadeByNone(transfers: seq<string>, rel: string) {
    forall i | 0 <= i < |transfers| :: RemoteRel(transfers[i]) != rel
  }

  lemma InFront<T>(s: seq<T>, x: T)
    requires x in s && x != s[|s| - 1]
    ensures x in s[..|s| - 1]
  {
    assert s == s[..|s| - 1] + [s[|s| - 1]];
  }

  /** What is uploaded is trashed first, and stays away if no upload makes it. */
  lemma {:induction false} TrashedForGood(files: map<string, Meta>, landed: map<string, Meta>, transfers: seq<string>, rel: string)
    requires forall up | up in transfers :: up in landed
    requires rel in transfers && MadeByNone(transfers, rel)
    ensures rel !in UploadedFiles(files, landed, transfers).0
  {
    var front, last := transfers[..|transfers| - 1], transfers[|transfers| - 1];
    assert RemoteRel(transfers[|transfers| - 1]) != rel && MadeByNone(front, rel);
    UploadOneLeaves(UploadedFiles(files, landed, front).0, last, landed[last], rel);
    if last != rel {
      InFront(transfers, rel);
      TrashedForGood(files, landed, front, rel);
    }
  }

  /** The longest of the uploaded names that do not survive is made by nobody. */
  lemma LostIsMissing(files: map<string, Meta>, landed: map<string, Meta>, transfers: seq<string>) returns (rel: string)
    requires forall up | up in transfers :: up in landed && IsRel(up)
    requires exists up :: up in transfers && !KeepsName(up)
    ensures rel in transfers && !KeepsName(rel) && rel !in UploadedFiles(files, landed, transfers).0
  {
    rel := LongestOf(transfers, (up: string) => !KeepsName(up));
    forall i | 0 <= i < |transfers|
      ensures RemoteRel(transfers[i]) != rel
    {
      var up := transfers[i];
      assert up in transfers;
      if KeepsName(up) {
        RemoteRelIsRel(up);
      } else {
        LostIsShorter(up);
      }
    }
    TrashedForGood(files, landed, transfers, rel);
  }

  /** A pass leaves the local files on Drive, under their own paths, if and only
      if every name it uploads survives; the folders are right in any case. */
  lemma UpPassConverges(src: Tree, landed: map<string, Meta>, dst: Tree, transfers: seq<string>, plan: seq<Removal>, after: Tree)
    requires UpPass(src, landed, dst, transfers, plan, after) && Closed(src) && Closed(dst)
    requires forall rel | rel in src.files :: IsRel(rel)
    ensures after.files.Keys == src.files.Keys <==> forall rel | rel in transfers :: KeepsName(rel)
    ensures after.dirs == src.dirs
    ensures (forall rel | rel in transfers :: KeepsName(rel)) ==> after == AfterPass(src, dst, landed, plan)
  {
    TransfersAreSet(src, dst, transfers);
    RemovalsLeave(src, dst, landed, plan, dst.dirs + src.dirs);
    assert after.dirs == AfterPass(src, dst, landed, plan).dirs;
    if forall rel | rel in transfers :: KeepsName(rel) {
      KeptNamesLand(dst.files, landed, transfers);
    } else {
      var rel := LostIsMissing(dst.files, landed, transfers);
      assert rel in src.files && rel !in after.files;
    }
  }

  /** And a second pass has nothing to upload if and only if they all survive
      and none of the files is stamped over 2 seconds before 1970. */
  lemma SecondPassIsIdle(localFiles: map<string, LocalFile>, localDirs: seq<string>, dst: Tree,
                         transfers: seq<string>, plan: seq<Removal>, after: Tree)
    requires var src := LocalTree(localFiles, localDirs);
             UpPass(src, Uploads(localFiles), dst, transfers, plan, after) && Closed(src) && Closed(dst)
    requires forall rel | rel in localFiles :: IsRel(rel)
    ensures Transfers(LocalTree(localFiles, localDirs), after) == {}
       <==> forall rel | rel in transfers :: KeepsName(rel) && localFiles[rel].stamp >= -2
  {
    var src := LocalTree(localFiles, localDirs);
    UpPassConverges(src, Uploads(localFiles), dst, transfers, plan, after);
    if forall rel | rel in transfers :: KeepsName(rel) {
      SyncUpConverges(localFiles, localDirs, dst, plan);
      assert forall rel :: rel in Transfers(src, dst) <==> rel in transfers;
      assert Transfers(src, after) == set rel | rel in Transfers(src, dst) && localFiles[rel].stamp < -2;
      forall rel | rel in transfers && localFiles[rel].stamp < -2
        ensures rel in Transfers(src, after)
      {
      }
    } else {
      var rel := LostIsMissing(dst.files, Uploads(localFiles), transfers);
      assert rel in Transfers(src, after);
    }
  }

  // ---- sync-down ----

  function RemoteTree(files: map<string, RemoteFile>, dirs: set<string>): Tree {
    Tree(map rel | rel in files :: Listed(files[rel]), dirs)
  }

  function Downloads(files: map<string, RemoteFile>): map<string, Meta> {
    map rel | rel in files :: Walked(DownloadedAs(files[rel]))
  }

  /** Make a folder and what is missing above it. A file in the way is an
      error, which the caller ignores. */
  function CreateDirAll(files: set<string>, dirs: set<string>, path: string): (set<string>, bool)
    decreases |path|
  {
    if path == "" || path in dirs then (dirs, true)
    else if path in files then (dirs, false)
    else
      var (above, ok) := CreateDirAll(files, dirs, Dirname(path));
      if ok then (above + {path}, true) else (above, false)
  }

  /** Some file is at or above the path. */
  ghost predicate Blocked(files: set<string>, path: string) {
    exists f :: f in files && (path == f || Under(path, f))
  }

  /** As on a disk: no path is both, and every listed path has its parent. */
  ghost predicate OnDisk(files: set<string>, dirs: set<string>) {
    && "" !in dirs && "" !in files && files !! dirs
    && (forall rel | rel in files || rel in dirs :: Dirname(rel) == "" || Dirname(rel) in dirs)
  }

  lemma BlockedByParent(files: set<string>, path: string)
    ensures Blocked(files, path) ==> path in files || Blocked(files, Dirname(path))
    ensures Dirname(path) != "" && Blocked(files, Dirname(path)) ==> Blocked(files, path)
  {
    if Blocked(files, path) {
      var f :| f in files && (path == f || Under(path, f));
      if path != f {
        UnderOrParent(path, f);
        assert f in files && (Dirname(path) == f || Under(Dirname(path), f));
      }
    }
    if Dirname(path) != "" && Blocked(files, Dirname(path)) {
      var f :| f in files && (Dirname(path) == f || Under(Dirname(path), f));
      UnderParent(path);
      if Dirname(path) != f {
        UnderTransitive(path, Dirname(path), f);
      }
      assert f in files && (path == f || Under(path, f));
    }
  }

  lemma RootIsClear(files: set<string>)
    requires "" !in files
    ensures !Blocked(files, "")
  {
    forall f | f in files
      ensures !Under("", f)
    {
      assert |f + "/"| > 0;
    }
  }

  lemma {:induction false} FoldersAreClear(files: set<string>, dirs: set<string>, path: string)
    requires OnDisk(files, dirs) && path in dirs
    ensures !Blocked(files, path)
    decreases |path|
  {
    if Dirname(path) != "" {
      UnderParent(path);
      FoldersAreClear(files, dirs, Dirname(path));
    } else {
      RootIsClear(files);
    }
    BlockedByParent(files, path);
  }

  /** A folder appears, with what is missing above it, exactly when no file is
      at or above its path; otherwise nothing does. */
  lemma {:induction false} CreateDirAllMakes(files: set<string>, dirs: set<string>, path: string, src: Tree)
    requires Closed(src) && path in src.dirs && OnDisk(files, dirs)
    ensures var (made, ok) := CreateDirAll(files, dirs, path);
            && (ok <==> !Blocked(files, path))
            && (ok ==> path in made && dirs <= made <= dirs + src.dirs && OnDisk(files, made))
            && (!ok ==> made == dirs)
    decreases |path|
  {
    assert src.Has(path);
    if path in dirs {
      FoldersAreClear(files, dirs, path);
    } else if path in files {
      assert Blocked(files, path);
    } else {
      BlockedByParent(files, path);
      if Dirname(path) == "" {
        RootIsClear(files);
      } else {
        UnderParent(path);
        CreateDirAllMakes(files, dirs, Dirname(path), src);
      }
    }
  }

  /** The folders of the source that can be made beside those files. */
  ghost function Makeable(files: set<string>, src: Tree): set<string> {
    set rel | rel in src.dirs && !Blocked(files, rel)
  }

  lemma {:induction false} MadeAreMakeable(files: set<string>, dirs: set<string>, path: string)
    requires OnDisk(files, dirs)
    ensures forall rel | rel in dirs :: !Blocked(files, rel)
  {
    forall rel | rel in dirs
      ensures !Blocked(files, rel)
    {
      FoldersAreClear(files, dirs, rel);
    }
  }

  /** A failure to make a folder is ignored. */
  method MakeDirs(files: set<string>, dirs: set<string>, wanted: seq<string>, ghost src: Tree) returns (made: set<string>)
    requires Closed(src) && src.dirs == Members(wanted) && OnDisk(files, dirs)
    ensures made == dirs + Makeable(files, src) && OnDisk(files, made)
  {
    SortedByDepth(wanted);
    var ordered := SortByDepth(wanted);
    made := dirs;
    for i := 0 to |ordered|
      invariant dirs <= made <= dirs + src.dirs && OnDisk(files, made)
      invariant forall k | 0 <= k < i :: ordered[k] in made || Blocked(files, ordered[k])
    {
      assert ordered[i] in wanted;
      CreateDirAllMakes(files, made, ordered[i], src);
      made := CreateDirAll(files, made, ordered[i]).0;
    }
    MadeAreMakeable(files, made, "");
  }

  /** A download goes well when its folder is there and no folder is in its
      own place. */
  predicate CanLand(dirs: set<string>, rel: string) {
    (Dirname(rel) == "" || Dirname(rel) in dirs) && rel !in dirs
  }

  function Landing(dirs: set<string>, files: set<string>): set<string> {
    set rel | rel in files && CanLand(dirs, rel)
  }

  lemma BlockedIsNotMade(local: Tree, dirs: set<string>, src: Tree, path: string)
    requires OnDisk(local.files.Keys, local.dirs) && Blocked(local.files.Keys, path)
    requires dirs == local.dirs + Makeable(local.files.Keys, src)
    ensures path !in dirs
  {
    if path in local.dirs {
      FoldersAreClear(local.files.Keys, local.dirs, path);
    }
  }

  lemma {:induction false} NotMadeFails(local: Tree, dirs: set<string>, files: set<string>, src: Tree, path: string)
    requires Closed(src) && path in src.dirs && path !in dirs && OnDisk(local.files.Keys, local.dirs)
    requires dirs == local.dirs + Makeable(local.files.Keys, src) && local.files.Keys <= files
    ensures !CreateDirAll(files, dirs, path).1
    decreases |path|
  {
    assert src.Has(path) && Blocked(local.files.Keys, path);
    if path !in files {
      BlockedByParent(local.files.Keys, path);
      if Dirname(path) == "" {
        RootIsClear(local.files.Keys);
      } else {
        UnderParent(path);
        BlockedIsNotMade(local, dirs, src, Dirname(path));
        NotMadeFails(local, dirs, files, src, Dirname(path));
      }
    }
  }

  lemma ParentMadeOrBlocked(local: Tree, dirs: set<string>, files: set<string>, src: Tree, rel: string)
    requires Closed(src) && rel in src.files && OnDisk(local.files.Keys, local.dirs)
    requires dirs == local.dirs + Makeable(local.files.Keys, src) && local.files.Keys <= files
    ensures CreateDirAll(files, dirs, Dirname(rel)).1 <==> Dirname(rel) == "" || Dirname(rel) in dirs
  {
    assert src.Has(rel);
    if Dirname(rel) != "" && Dirname(rel) !in dirs {
      NotMadeFails(local, dirs, files, src, Dirname(rel));
    }
  }

  /** Each download makes its folder again first, in vain if it is not there. */
  method DownloadAll(local: Tree, dirs: set<string>, landed: map<string, Meta>, transfers: seq<string>, ghost src: Tree)
      returns (files: map<string, Meta>, failed: seq<string>)
    requires Closed(src) && landed.Keys == src.files.Keys && OnDisk(local.files.Keys, local.dirs)
    requires dirs == local.dirs + Makeable(local.files.Keys, src)
    requires forall rel | rel in transfers :: rel in src.files
    ensures files == Overlay(local.files, landed, Landing(dirs, Members(transfers)))
    ensures forall rel :: rel in failed <==> rel in transfers && !CanLand(dirs, rel)
  {
    files, failed := local.files, [];
    ghost var done: set<string> := {};
    for i := 0 to |transfers|
      invariant done <= src.files.Keys && files == Overlay(local.files, landed, done)
      invariant forall rel :: rel in done <==> rel in transfers[..i] && CanLand(dirs, rel)
      invariant forall rel :: rel in failed <==> rel in transfers[..i] && !CanLand(dirs, rel)
    {
      var rel := transfers[i];
      assert rel in transfers && transfers[..i + 1] == transfers[..i] + [rel];
      ParentMadeOrBlocked(local, dirs, files.Keys, src, rel);
      var (_, ok) := CreateDirAll(files.Keys, dirs, Dirname(rel));
      if ok && rel !in dirs {
        OverlayOneMore(local.files, landed, done, rel);
        files := files[rel := landed[rel]];
        done := done + {rel};
      } else {
        failed := failed + [rel];
      }
    }
    assert transfers[..|transfers|] == transfers;
    assert done == Landing(dirs, Members(transfers));
  }

  /** What `SyncDown` leaves. */
  ghost function AfterDown(src: Tree, local: Tree, landed: map<string, Meta>, plan: seq<Removal>): Tree
    requires landed.Keys == src.files.Keys
  {
    var dirs := local.dirs + Makeable(local.files.Keys, src);
    Remaining(Tree(Overlay(local.files, landed, Landing(dirs, Transfers(src, local))), dirs), plan)
  }

  /** The whole of `sync-down --delete`, but for the network: names that clash
      included, a file on one side and a folder on the other. */
  method SyncDown(remoteFiles: map<string, RemoteFile>, remoteDirs: seq<string>, local: Tree)
      returns (after: Tree, plan: seq<Removal>, failed: seq<string>)
    requires Closed(RemoteTree(remoteFiles, Members(remoteDirs))) && OnDisk(local.files.Keys, local.dirs)
    ensures var src := RemoteTree(remoteFiles, Members(remoteDirs));
            var dirs := local.dirs + Makeable(local.files.Keys, src);
            && IsPlan(plan, src, local)
            && (forall rel :: rel in failed <==> rel in Transfers(src, local) && !CanLand(dirs, rel))
            && after == AfterDown(src, local, Downloads(remoteFiles), plan)
  {
    var src := RemoteTree(remoteFiles, Members(remoteDirs));
    var transfers, _ := PlanTransfers(src, local);
    plan := PlanRemovals(src, local);
    TransfersAreSet(src, local, transfers);
    var dirs := MakeDirs(local.files.Keys, local.dirs, remoteDirs, src);
    var files: map<string, Meta>;
    files, failed := DownloadAll(local, dirs, Downloads(remoteFiles), transfers, src);
    after := Remove(Tree(files, dirs), plan);
  }

  ghost predicate SomeFail(src: Tree, local: Tree) {
    exists rel :: rel in Transfers(src, local) && !CanLand(local.dirs + Makeable(local.files.Keys, src), rel)
  }

  /** What no download can get past: a folder in the file's own place, there or
      made just before, or a local file above it. */
  ghost predicate InTheWay(src: Tree, local: Tree, rel: string) {
    rel !in local.files && (rel in local.dirs || rel in src.dirs || Blocked(local.files.Keys, rel))
  }

  lemma ClashingFileFails(src: Tree, local: Tree, rel: string)
    requires Closed(src) && OnDisk(local.files.Keys, local.dirs) && rel in src.files
    ensures InTheWay(src, local, rel) <==>
              NeedsTransfer(src, local, rel) && !CanLand(local.dirs + Makeable(local.files.Keys, src), rel)
  {
    var dirs := local.dirs + Makeable(local.files.Keys, src);
    assert src.Has(rel);
    BlockedByParent(local.files.Keys, rel);
    if rel in local.files {
      assert Blocked(local.files.Keys, rel);
    } else if Dirname(rel) == "" {
      RootIsClear(local.files.Keys);
    } else if Dirname(rel) in local.dirs {
      FoldersAreClear(local.files.Keys, local.dirs, Dirname(rel));
    }
  }

  lemma AllMakeable(src: Tree, local: Tree)
    requires Closed(src) && OnDisk(local.files.Keys, local.dirs)
    ensures src.dirs <= local.dirs + Makeable(local.files.Keys, src) <==> src.dirs !! local.files.Keys
    ensures src.dirs !! local.files.Keys ==> local.dirs + Makeable(local.files.Keys, src) == local.dirs + src.dirs
  {
    forall rel | rel in src.dirs && Blocked(local.files.Keys, rel)
      ensures !(src.dirs !! local.files.Keys)
    {
      var f :| f in local.files && (rel == f || Under(rel, f));
      if rel != f {
        AncestorListed(src, rel, f);
      }
      assert f in src.dirs;
    }
    forall rel | rel in src.dirs && rel in local.files
      ensures rel !in local.dirs && Blocked(local.files.Keys, rel)
    {
      assert rel in local.files.Keys && (rel == rel || Under(rel, rel));
    }
  }

  /** Which names clash, and what that does. Something fails exactly when there
      is something in the way of a remote file. When nothing fails, the local files end as the
      remote ones, and the local folders end as the remote ones if and only if
      no remote folder is a local file; the pass is then the plain one. */
  lemma WhatClashesCost(src: Tree, local: Tree, landed: map<string, Meta>, plan: seq<Removal>)
    requires Closed(src) && OnDisk(local.files.Keys, local.dirs)
    requires landed.Keys == src.files.Keys && IsPlan(plan, src, local)
    ensures SomeFail(src, local) <==> exists rel :: rel in src.files && InTheWay(src, local, rel)
    ensures !SomeFail(src, local) ==>
              var after := AfterDown(src, local, landed, plan);
              && after.files.Keys == src.files.Keys
              && (after.dirs == src.dirs <==> src.dirs !! local.files.Keys)
              && (src.dirs !! local.files.Keys ==> after == AfterPass(src, local, landed, plan))
  {
    var dirs := local.dirs + Makeable(local.files.Keys, src);
    forall rel | rel in src.files
      ensures InTheWay(src, local, rel) <==> rel in Transfers(src, local) && !CanLand(dirs, rel)
    {
      ClashingFileFails(src, local, rel);
    }
    if !SomeFail(src, local) {
      assert Landing(dirs, Transfers(src, local)) == Transfers(src, local);
      RemovalsLeave(src, local, landed, plan, dirs);
      AllMakeable(src, local);
      assert src.dirs * dirs == src.dirs <==> src.dirs <= dirs;
    }
  }

  predicate Faithful(f: RemoteFile) {
    (f.size == 0 || f.fileId.Some?) && f.mtime >= -2
  }

  /** Local equals remote after one pass, except that files dated more than 2
      seconds before 1970 and non-empty files without content do not look like
      their source; a second pass removes nothing and downloads again exactly
      those of them just downloaded. */
  lemma SyncDownConverges(remoteFiles: map<string, RemoteFile>, remoteDirs: set<string>, local: Tree, plan: seq<Removal>)
    requires var src := RemoteTree(remoteFiles, remoteDirs);
             Closed(src) && Closed(local) && IsPlan(plan, src, local)
    ensures var src := RemoteTree(remoteFiles, remoteDirs);
            var after := AfterPass(src, local, Downloads(remoteFiles), plan);
            && after.dirs == src.dirs && after.files.Keys == remoteFiles.Keys
            && (forall rel | rel in remoteFiles && Faithful(remoteFiles[rel]) ::
                  && after.files[rel].size == remoteFiles[rel].size
                  && (rel in Transfers(src, local) ==> after.files[rel].mtime == Max(0, remoteFiles[rel].mtime))
                  && -2 <= after.files[rel].mtime - remoteFiles[rel].mtime <= 2)
            && Transfers(src, after) == (set rel | rel in Transfers(src, local) && !Faithful(remoteFiles[rel]))
            && (forall again: seq<Removal> :: IsPlan(again, src, after) ==> again == [])
  {
    var src := RemoteTree(remoteFiles, remoteDirs);
    PassConverges(src, local, Downloads(remoteFiles), plan);
    var landed := Downloads(remoteFiles);
    assert landed.Keys == src.files.Keys;
    forall rel | rel in remoteFiles
      ensures !Changed(src.files[rel], landed[rel]) <==> Faithful(remoteFiles[rel])
    {
      DownloadLooksUnchanged(remoteFiles[rel]);
    }
    forall again: seq<Removal> | IsPlan(again, src, AfterPass(src, local, landed, plan))
      ensures again == []
    {
      NothingLeft(src, AfterPass(src, local, landed, plan), again);
    }
  }

  /** An empty remote folder and a local file of one name: nothing fails, and
      the pass leaves neither. */
  lemma ClashLosesBoth()
    ensures var src, local := Tree(map[], {"a"}), Tree(map["a" := Meta(0, 0)], {});
            && Closed(src) && OnDisk(local.files.Keys, local.dirs) && !SomeFail(src, local)
            && IsPlan([File("a")], src, local)
            && AfterDown(src, local, map[], [File("a")]) == Tree(map[], {})
  {
    var src, local := Tree(map[], {"a"}), Tree(map["a" := Meta(0, 0)], {});
    assert LastSlash("a") == -1;
    AllMakeable(src, local);
    assert "a" in local.files.Keys && ("a" == "a" || Under("a", "a"));
    assert Makeable(local.files.Keys, src) == {};
  }
}
