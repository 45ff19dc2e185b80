/** `compare`: byte-exact content comparison over a chunked download, and the
    folder comparison that may stop at the first difference. */
module Compare {
  import opened Basics

  function Concat<T>(parts: seq<seq<T>>): seq<T> {
    if parts == [] then [] else Concat(parts[..|parts| - 1]) + parts[|parts| - 1]
  }

  lemma ConcatSnoc<T>(parts: seq<seq<T>>, i: nat)
    requires i < |parts|
    ensures Concat(parts[..i + 1]) == Concat(parts[..i]) + parts[i]
  {
    assert parts[..i + 1][..i] == parts[..i];
  }

  lemma {:induction false} ConcatPrefix<T>(parts: seq<seq<T>>, i: nat, j: nat)
    requires i <= j <= |parts|
    ensures Concat(parts[..i]) <= Concat(parts[..j])
    decreases j
  {
    if i < j {
      ConcatPrefix(parts, i, j - 1);
      ConcatSnoc(parts, j - 1);
    }
  }

  // ---- content ----

  datatype Content = Same | DiffersAt(offset: nat) | LocalTooShort

  /** The files agree before `k` and not at `k`, where one may have ended. */
  predicate FirstDifference(remote: seq<byte>, local: seq<byte>, k: nat) {
    && k <= |remote| && k < |local| && remote[..k] == local[..k]
    && (k < |remote| ==> remote[k] != local[k])
  }

  /** Some chunk cannot be read in full from the local file, which agrees with
      everything before it. */
  ghost predicate RunsOut(chunks: seq<seq<byte>>, local: seq<byte>, i: nat) {
    i < |chunks| && Concat(chunks[..i]) <= local && |local| < |Concat(chunks[..i + 1])|
  }

  method FirstMismatch(a: seq<byte>, b: seq<byte>) returns (pos: Option<nat>)
    requires |a| == |b|
    ensures pos.None? <==> a == b
    ensures pos.Some? ==> pos.value < |a| && a[..pos.value] == b[..pos.value] && a[pos.value] != b[pos.value]
  {
    for i := 0 to |a|
      invariant a[..i] == b[..i]
    {
      if a[i] != b[i] {
        return Some(i);
      }
    }
    return None;
  }

  lemma MismatchAt(before: seq<byte>, bytes: seq<byte>, local: seq<byte>, pos: nat)
    requires before <= local && |before| + |bytes| <= |local| && pos < |bytes|
    requires bytes[..pos] == local[|before|..|before| + |bytes|][..pos] && bytes[pos] != local[|before| + pos]
    ensures var k := |before| + pos;
            (before + bytes)[..k] == local[..k] && (before + bytes)[k] != local[k]
  {
    var k, same := |before| + pos, local[|before|..|before| + |bytes|];
    var whole := before + bytes;
    forall x | 0 <= x < k
      ensures whole[x] == local[x]
    {
      if x >= |before| {
        assert bytes[..pos][x - |before|] == same[..pos][x - |before|];
      }
    }
    assert whole[..k] == local[..k];
  }

  lemma NoRunOutAfter(chunks: seq<seq<byte>>, local: seq<byte>, i: nat, k: nat)
    requires i < |chunks| && |Concat(chunks[..i])| <= k < |Concat(chunks[..i + 1])| <= |local|
    requires Concat(chunks[..i + 1])[..k] == local[..k] && Concat(chunks[..i + 1])[k] != local[k]
    requires forall j | 0 <= j < i :: !RunsOut(chunks, local, j)
    ensures forall j :: !RunsOut(chunks, local, j)
    ensures FirstDifference(Concat(chunks), local, k)
  {
    forall j: nat
      ensures !RunsOut(chunks, local, j)
    {
      if i < j < |chunks| {
        ConcatPrefix(chunks, i + 1, j);
      }
    }
    ConcatPrefix(chunks, i + 1, |chunks|);
    assert chunks[..|chunks|] == chunks;
  }

  /** However the download is cut into chunks: `Same` exactly for equal files,
      an offset exactly the first difference, and the error exactly when the
      local file runs out inside a chunk with no difference before it. A remote
      file no longer than the local one never errs. */
  method ContentDiffOffset(chunks: seq<seq<byte>>, local: seq<byte>) returns (r: Content)
    ensures r == Same <==> Concat(chunks) == local
    ensures r.DiffersAt? ==> FirstDifference(Concat(chunks), local, r.offset)
    ensures r == LocalTooShort <==> exists i :: RunsOut(chunks, local, i)
    ensures |Concat(chunks)| <= |local| ==> r != LocalTooShort
  {
    var offset := 0;
    for i := 0 to |chunks|
      invariant offset == |Concat(chunks[..i])| && Concat(chunks[..i]) <= local
      invariant forall j | 0 <= j < i :: !RunsOut(chunks, local, j)
    {
      ConcatSnoc(chunks, i);
      var bytes := chunks[i];
      if offset + |bytes| > |local| {
        ConcatPrefix(chunks, i + 1, |chunks|);
        assert chunks[..|chunks|] == chunks;
        assert RunsOut(chunks, local, i);
        return LocalTooShort;
      }
      var pos := FirstMismatch(bytes, local[offset..offset + |bytes|]);
      if pos.Some? {
        var k := offset + pos.value;
        MismatchAt(Concat(chunks[..i]), bytes, local, pos.value);
        NoRunOutAfter(chunks, local, i, k);
        return DiffersAt(k);
      }
      offset := offset + |bytes|;
    }
    assert chunks[..|chunks|] == chunks;
    if offset < |local| {
      return DiffersAt(offset);
    }
    return Same;
  }

  // ---- one file ----

  /** Where the first difference is: at the end of the shorter file if that is
      a beginning of the other. */
  function FirstDiff(a: seq<byte>, b: seq<byte>): Option<nat>
    decreases |a|
  {
    if a == [] && b == [] then None
    else if a == [] || b == [] || a[0] != b[0] then Some(0)
    else match FirstDiff(a[1..], b[1..])
         case Some(k) => Some(k + 1)
         case None => None
  }

  lemma {:induction false} FirstDiffFound(a: seq<byte>, b: seq<byte>, k: nat)
    requires FirstDifference(a, b, k)
    ensures FirstDiff(a, b) == Some(k)
    decreases k
  {
    if k > 0 {
      assert a[..k][0] == b[..k][0];
      assert a[1..][..k - 1] == a[..k][1..] && b[1..][..k - 1] == b[..k][1..];
      FirstDiffFound(a[1..], b[1..], k - 1);
    }
  }

  lemma {:induction false} NoDiffMeansEqual(a: seq<byte>, b: seq<byte>)
    ensures FirstDiff(a, b) == None <==> a == b
    decreases |a|
  {
    if a != [] && b != [] {
      NoDiffMeansEqual(a[1..], b[1..]);
      assert a == [a[0]] + a[1..] && b == [b[0]] + b[1..];
    }
  }

  const MTIME_TOL_SECS: nat := 2

  datatype LocalCopy = LocalCopy(bytes: seq<byte>, mtime: int)

  /** `chunks` is what a download delivers, if there is a file id. */
  datatype RemoteCopy = RemoteCopy(size: nat, mtime: int, chunks: Option<seq<seq<byte>>>)

  datatype Checks = Checks(metadataOnly: bool, modified: bool)

  datatype Reason = SizeDiffers | TimeDiffers | NoContent | ContentDiffers(offset: nat)

  predicate TimesDiffer(a: int, b: int) {
    a - b > MTIME_TOL_SECS || b - a > MTIME_TOL_SECS
  }

  predicate ReadsContent(l: LocalCopy, r: RemoteCopy, c: Checks) {
    !c.metadataOnly && |l.bytes| == r.size && r.size > 0
  }

  function ContentReasons(l: LocalCopy, chunks: seq<seq<byte>>): seq<Reason> {
    match FirstDiff(Concat(chunks), l.bytes)
    case Some(k) => [ContentDiffers(k)]
    case None => []
  }

  function ReasonsOf(l: LocalCopy, r: RemoteCopy, c: Checks): seq<Reason> {
    (if |l.bytes| != r.size then [SizeDiffers] else [])
    + (if c.modified && TimesDiffer(l.mtime, r.mtime) then [TimeDiffers] else [])
    + if !ReadsContent(l, r, c) then []
      else if r.chunks.None? then [NoContent]
      else ContentReasons(l, r.chunks.value)
  }

  /** The download turns out longer than the listing says. */
  ghost predicate Errs(l: LocalCopy, r: RemoteCopy, c: Checks) {
    ReadsContent(l, r, c) && r.chunks.Some? && exists i :: RunsOut(r.chunks.value, l.bytes, i)
  }

  /** What each reason says. */
  lemma ReasonsMean(l: LocalCopy, r: RemoteCopy, c: Checks)
    ensures SizeDiffers in ReasonsOf(l, r, c) <==> |l.bytes| != r.size
    ensures TimeDiffers in ReasonsOf(l, r, c) <==> c.modified && !(-2 <= l.mtime - r.mtime <= 2)
    ensures NoContent in ReasonsOf(l, r, c) <==> !c.metadataOnly && |l.bytes| == r.size > 0 && r.chunks.None?
    ensures forall k: nat :: ContentDiffers(k) in ReasonsOf(l, r, c) <==>
              !c.metadataOnly && |l.bytes| == r.size > 0 && r.chunks.Some? && FirstDiff(Concat(r.chunks.value), l.bytes) == Some(k)
  {
  }

  method DiffReasons(l: LocalCopy, r: RemoteCopy, c: Checks) returns (reasons: seq<Reason>, ok: bool)
    ensures ok <==> !Errs(l, r, c)
    ensures ok ==> reasons == ReasonsOf(l, r, c)
    ensures ok ==> (reasons == [] <==> SameFile(l, r, c))
  {
    NoReasonMeansSame(l, r, c);
    reasons, ok := [], true;
    if |l.bytes| != r.size {
      reasons := reasons + [SizeDiffers];
    }
    if c.modified && TimesDiffer(l.mtime, r.mtime) {
      reasons := reasons + [TimeDiffers];
    }
    if c.metadataOnly || |l.bytes| != r.size || r.size == 0 {
      return;
    }
    if r.chunks.None? {
      return reasons + [NoContent], true;
    }
    var d := ContentDiffOffset(r.chunks.value, l.bytes);
    NoDiffMeansEqual(Concat(r.chunks.value), l.bytes);
    match d
    case Same =>
    case LocalTooShort => ok := false;
    case DiffersAt(k) =>
      FirstDiffFound(Concat(r.chunks.value), l.bytes, k);
      reasons := reasons + [ContentDiffers(k)];
  }

  /** Both copies have the same bytes, as far as they are looked at, and dates
      close together if those are to be. */
  predicate SameFile(l: LocalCopy, r: RemoteCopy, c: Checks) {
    && |l.bytes| == r.size
    && (c.modified ==> -2 <= l.mtime - r.mtime <= 2)
    && (c.metadataOnly || r.size == 0 || (r.chunks.Some? && Concat(r.chunks.value) == l.bytes))
  }

  lemma NoReasonMeansSame(l: LocalCopy, r: RemoteCopy, c: Checks)
    ensures ReasonsOf(l, r, c) == [] <==> SameFile(l, r, c)
  {
    if ReadsContent(l, r, c) && r.chunks.Some? {
      NoDiffMeansEqual(Concat(r.chunks.value), l.bytes);
    }
  }

  // ---- folders ----

  datatype Local = Local(files: map<string, LocalCopy>, dirs: set<string>)

  datatype Remote = Remote(files: map<string, RemoteCopy>, dirs: set<string>)

  datatype Difference = FolderOnly(path: string, local: bool) | FileOnly(path: string, local: bool) | FileDiffers(path: string, reason: Reason)

  /** What there is to say about one path; a file on both sides can have
      several reasons. */
  function DirDiffs(local: Local, remote: Remote, dir: string): seq<Difference> {
    if dir in local.dirs && dir !in remote.dirs then [FolderOnly(dir, true)]
    else if dir in remote.dirs && dir !in local.dirs then [FolderOnly(dir, false)]
    else []
  }

  function Explain(rel: string, reasons: seq<Reason>): seq<Difference> {
    seq(|reasons|, i requires 0 <= i < |reasons| => FileDiffers(rel, reasons[i]))
  }

  function FileDiffs(local: Local, remote: Remote, c: Checks, rel: string): seq<Difference> {
    if rel in local.files && rel !in remote.files then [FileOnly(rel, true)]
    else if rel !in local.files && rel in remote.files then [FileOnly(rel, false)]
    else if rel in local.files then Explain(rel, ReasonsOf(local.files[rel], remote.files[rel], c))
    else []
  }

  ghost predicate ErrsAt(local: Local, remote: Remote, c: Checks, rel: string) {
    rel in local.files && rel in remote.files && Errs(local.files[rel], remote.files[rel], c)
  }

  function DirGroups(local: Local, remote: Remote, dirs: seq<string>): seq<seq<Difference>> {
    seq(|dirs|, i requires 0 <= i < |dirs| => DirDiffs(local, remote, dirs[i]))
  }

  function FileGroups(local: Local, remote: Remote, c: Checks, files: seq<string>): seq<seq<Difference>> {
    seq(|files|, i requires 0 <= i < |files| => FileDiffs(local, remote, c, files[i]))
  }

  function Groups(local: Local, remote: Remote, c: Checks, dirs: seq<string>, files: seq<string>): seq<seq<Difference>> {
    DirGroups(local, remote, dirs) + FileGroups(local, remote, c, files)
  }

  /** The first group that is not empty. */
  function FirstGroup(groups: seq<seq<Difference>>): seq<Difference> {
    if groups == [] then [] else if groups[0] != [] then groups[0] else FirstGroup(groups[1..])
  }

  ghost predicate Lists(s: seq<string>, members: set<string>) {
    forall x :: x in s <==> x in members
  }

  function Shown(groups: seq<seq<Difference>>, listAll: bool): seq<Difference> {
    if listAll then Concat(groups) else FirstGroup(groups)
  }

  lemma {:induction false} FirstGroupAppend(a: seq<seq<Difference>>, b: seq<seq<Difference>>)
    ensures FirstGroup(a + b) == if FirstGroup(a) != [] then FirstGroup(a) else FirstGroup(b)
    decreases |a|
  {
    if a == [] {
      assert a + b == b;
    } else {
      assert (a + b)[1..] == a[1..] + b;
      FirstGroupAppend(a[1..], b);
    }
  }

  lemma {:induction false} ConcatAppend<T>(all: seq<seq<T>>, a: seq<seq<T>>, b: seq<seq<T>>)
    requires all == a + b
    ensures Concat(all) == Concat(a) + Concat(b)
    decreases |b|
  {
    if b == [] {
      assert all == a;
    } else {
      var front, last := b[..|b| - 1], b[|b| - 1];
      assert all[..|all| - 1] == a + front;
      ConcatAppend(all[..|all| - 1], a, front);
      assert (Concat(a) + Concat(front)) + last == Concat(a) + (Concat(front) + last);
    }
  }

  /** One more group shown. */
  lemma ShownSnoc(groups: seq<seq<Difference>>, i: nat, listAll: bool)
    requires i < |groups|
    ensures Shown(groups[..i + 1], listAll)
         == if listAll || Shown(groups[..i], listAll) == [] then Shown(groups[..i], listAll) + groups[i]
            else Shown(groups[..i], listAll)
  {
    assert groups[..i + 1] == groups[..i] + [groups[i]];
    ConcatSnoc(groups, i);
    FirstGroupAppend(groups[..i], [groups[i]]);
  }

  lemma StopIsFinal(groups: seq<seq<Difference>>, i: nat)
    requires i <= |groups| && FirstGroup(groups[..i]) != []
    ensures FirstGroup(groups) == FirstGroup(groups[..i])
  {
    assert groups == groups[..i] + groups[i..];
    FirstGroupAppend(groups[..i], groups[i..]);
  }

  method DiffDirs(local: Local, remote: Remote, dirs: seq<string>, listAll: bool) returns (diffs: seq<Difference>)
    ensures diffs == Shown(DirGroups(local, remote, dirs), listAll)
  {
    ghost var groups := DirGroups(local, remote, dirs);
    diffs := [];
    for i := 0 to |dirs|
      invariant diffs == Shown(groups[..i], listAll)
      invariant !listAll ==> diffs == []
    {
      ShownSnoc(groups, i, listAll);
      diffs := diffs + DirDiffs(local, remote, dirs[i]);
      if diffs != [] && !listAll {
        StopIsFinal(groups, i + 1);
        return;
      }
    }
    assert groups[..|dirs|] == groups;
  }

  method DiffFile(local: Local, remote: Remote, c: Checks, rel: string) returns (diffs: seq<Difference>, ok: bool)
    ensures ok <==> !ErrsAt(local, remote, c, rel)
    ensures ok ==> diffs == FileDiffs(local, remote, c, rel)
  {
    ok := true;
    if rel in local.files && rel in remote.files {
      var reasons;
      reasons, ok := DiffReasons(local.files[rel], remote.files[rel], c);
      return Explain(rel, reasons), ok;
    }
    return FileDiffs(local, remote, c, rel), true;
  }

  /** An error ends the comparison without an answer. */
  method DiffFiles(local: Local, remote: Remote, c: Checks, files: seq<string>, listAll: bool)
      returns (diffs: seq<Difference>, ok: bool)
    ensures ok ==> diffs == Shown(FileGroups(local, remote, c, files), listAll)
    ensures !ok ==> exists rel :: rel in files && ErrsAt(local, remote, c, rel)
  {
    ghost var groups := FileGroups(local, remote, c, files);
    diffs, ok := [], true;
    for i := 0 to |files|
      invariant ok && diffs == Shown(groups[..i], listAll)
      invariant !listAll ==> diffs == []
    {
      ShownSnoc(groups, i, listAll);
      var more, okFile := DiffFile(local, remote, c, files[i]);
      if !okFile {
        assert files[i] in files;
        return diffs, false;
      }
      diffs := diffs + more;
      if diffs != [] && !listAll {
        StopIsFinal(groups, i + 1);
        return;
      }
    }
    assert groups[..|files|] == groups;
  }

  /** `dirs` and `files` are the sorted unions of both sides. */
  method DiffOneFolder(local: Local, remote: Remote, c: Checks,
                       dirs: seq<string>, files: seq<string>, listAll: bool) returns (diffs: seq<Difference>, ok: bool)
    ensures ok ==> diffs == Shown(Groups(local, remote, c, dirs, files), listAll)
    ensures !ok ==> exists rel :: rel in files && ErrsAt(local, remote, c, rel)
  {
    FirstGroupAppend(DirGroups(local, remote, dirs), FileGroups(local, remote, c, files));
    ConcatAppend(Groups(local, remote, c, dirs, files), DirGroups(local, remote, dirs), FileGroups(local, remote, c, files));
    ok := true;
    diffs := DiffDirs(local, remote, dirs, listAll);
    if diffs != [] && !listAll {
      return;
    }
    var more;
    more, ok := DiffFiles(local, remote, c, files, listAll);
    diffs := diffs + more;
  }

  lemma {:induction false} ConcatCons<T>(parts: seq<seq<T>>)
    requires parts != []
    ensures Concat(parts) == parts[0] + Concat(parts[1..])
  {
    if |parts| > 1 {
      var front := parts[..|parts| - 1];
      ConcatCons(front);
      assert front[1..] == parts[1..][..|parts| - 2];
    }
  }

  /** The first group that is not empty, whole. */
  lemma {:induction false} FirstGroupIs(groups: seq<seq<Difference>>, i: nat)
    requires i < |groups| && groups[i] != [] && forall j | 0 <= j < i :: groups[j] == []
    ensures Shown(groups, false) == groups[i]
  {
    if i > 0 {
      FirstGroupIs(groups[1..], i - 1);
    }
  }

  lemma {:induction false} InSomeGroup<T>(parts: seq<seq<T>>, x: T)
    ensures x in Concat(parts) <==> exists i | 0 <= i < |parts| :: x in parts[i]
  {
    if parts != [] {
      var front, last := parts[..|parts| - 1], parts[|parts| - 1];
      InSomeGroup(front, x);
      assert parts == front + [last];
      if exists i | 0 <= i < |front| :: x in front[i] {
        var i :| 0 <= i < |front| && x in front[i];
        assert x in parts[i];
      }
    }
  }

  /** On which side alone a path is, or why a file on both sides differs. */
  predicate Says(local: Local, remote: Remote, c: Checks, d: Difference) {
    match d
    case FolderOnly(p, here) => if here then p in local.dirs && p !in remote.dirs else p in remote.dirs && p !in local.dirs
    case FileOnly(p, here) => if here then p in local.files && p !in remote.files else p in remote.files && p !in local.files
    case FileDiffers(p, reason) =>
      p in local.files && p in remote.files && reason in ReasonsOf(local.files[p], remote.files[p], c)
  }

  lemma DirDiffsSay(local: Local, remote: Remote, c: Checks, dir: string, d: Difference)
    ensures d in DirDiffs(local, remote, dir) <==> d.FolderOnly? && d.path == dir && Says(local, remote, c, d)
  {
  }

  lemma FileDiffsSay(local: Local, remote: Remote, c: Checks, rel: string, d: Difference)
    ensures d in FileDiffs(local, remote, c, rel) <==> !d.FolderOnly? && d.path == rel && Says(local, remote, c, d)
  {
    if rel in local.files && rel in remote.files {
      var reasons := ReasonsOf(local.files[rel], remote.files[rel], c);
      if d.FileDiffers? && d.path == rel && d.reason in reasons {
        var i :| 0 <= i < |reasons| && reasons[i] == d.reason;
        assert Explain(rel, reasons)[i] == d;
      }
    }
  }

  /** The full list has exactly the differences there are. */
  lemma DifferencesMean(local: Local, remote: Remote, c: Checks, dirs: seq<string>, files: seq<string>, d: Difference)
    requires Lists(dirs, local.dirs + remote.dirs) && Lists(files, local.files.Keys + remote.files.Keys)
    ensures d in Shown(Groups(local, remote, c, dirs, files), true) <==> Says(local, remote, c, d)
  {
    var inDirs, inFiles := DirGroups(local, remote, dirs), FileGroups(local, remote, c, files);
    ConcatAppend(Groups(local, remote, c, dirs, files), inDirs, inFiles);
    InSomeGroup(inDirs, d);
    InSomeGroup(inFiles, d);
    forall i | 0 <= i < |dirs|
      ensures d in inDirs[i] <==> d.FolderOnly? && d.path == dirs[i] && Says(local, remote, c, d)
    {
      DirDiffsSay(local, remote, c, dirs[i], d);
    }
    forall i | 0 <= i < |files|
      ensures d in inFiles[i] <==> !d.FolderOnly? && d.path == files[i] && Says(local, remote, c, d)
    {
      FileDiffsSay(local, remote, c, files[i], d);
    }
    if Says(local, remote, c, d) {
      if d.FolderOnly? {
        assert d.path in dirs;
      } else {
        assert d.path in files;
      }
    }
  }

  /** Stopping at the first difference shows a beginning of the full list, and
      shows nothing only if there is nothing. */
  lemma {:induction false} StoppingEarlyIsPrefix(groups: seq<seq<Difference>>)
    ensures Shown(groups, false) <= Shown(groups, true)
    ensures Shown(groups, false) == [] <==> Shown(groups, true) == []
  {
    if groups != [] {
      StoppingEarlyIsPrefix(groups[1..]);
      ConcatCons(groups);
    }
  }

  lemma {:induction false} ConcatEmpty<T>(parts: seq<seq<T>>)
    ensures Concat(parts) == [] <==> forall i | 0 <= i < |parts| :: parts[i] == []
  {
    if parts != [] {
      ConcatEmpty(parts[..|parts| - 1]);
    }
  }

  /** The full list is empty exactly when both sides have the same folders and
      the same files, byte for byte unless only metadata is looked at. */
  lemma NoDifferenceMeansEqual(local: Local, remote: Remote, c: Checks, dirs: seq<string>, files: seq<string>)
    requires Lists(dirs, local.dirs + remote.dirs) && Lists(files, local.files.Keys + remote.files.Keys)
    ensures Shown(Groups(local, remote, c, dirs, files), true) == []
       <==> local.dirs == remote.dirs && local.files.Keys == remote.files.Keys
            && forall rel | rel in local.files && rel in remote.files :: SameFile(local.files[rel], remote.files[rel], c)
  {
    var groups := Groups(local, remote, c, dirs, files);
    ConcatEmpty(groups);
    assert Shown(groups, true) == Concat(groups);
    forall rel | rel in local.files && rel in remote.files
      ensures FileDiffs(local, remote, c, rel) == [] <==> SameFile(local.files[rel], remote.files[rel], c)
    {
      NoReasonMeansSame(local.files[rel], remote.files[rel], c);
    }
    if Concat(groups) == [] {
      forall rel
        ensures rel in local.dirs <==> rel in remote.dirs
        ensures rel in dirs || rel in files ==> (rel in local.files <==> rel in remote.files)
        ensures rel in local.files && rel in remote.files ==> SameFile(local.files[rel], remote.files[rel], c)
      {
        if rel in dirs {
          var i :| 0 <= i < |dirs| && dirs[i] == rel;
          assert groups[i] == DirDiffs(local, remote, rel);
        }
        if rel in files {
          var i :| 0 <= i < |files| && files[i] == rel;
          assert groups[|dirs| + i] == FileDiffs(local, remote, c, rel);
        }
      }
    }
  }
}
