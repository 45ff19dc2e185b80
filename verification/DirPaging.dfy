/** NFS directory paging: every call interns all children again, sorts by
    number, and returns those above the cookie. */
module DirPaging {
  import opened Basics
  import opened InodeTables
  import opened Sorting

  datatype Child = Child(name: string, item: Item)

  datatype DirEntry = DirEntry(id: nat, child: Child)

  predicate Ascending(s: seq<DirEntry>) {
    forall i, j | 0 <= i < j < |s| :: s[i].id < s[j].id
  }

  predicate DistinctNames(children: seq<Child>) {
    forall i, j | 0 <= i < j < |children| :: children[i].name != children[j].name
  }

  /** The listing under the numbers the table has for it. */
  ghost predicate Numbered(t: Table, dir: nat, children: seq<Child>) {
    forall i | 0 <= i < |children| :: (dir, children[i].name) in t.index
  }

  ghost function Listing(t: Table, dir: nat, children: seq<Child>): seq<DirEntry>
    requires Numbered(t, dir, children)
  {
    seq(|children|, i requires 0 <= i < |children| => DirEntry(t.index[(dir, children[i].name)], children[i]))
  }

  function SortById(s: seq<DirEntry>): seq<DirEntry> {
    SortBy(s, (e: DirEntry) => e.id)
  }

  predicate DistinctIds(s: seq<DirEntry>) {
    forall i, j | 0 <= i < j < |s| :: s[i].id != s[j].id
  }

  lemma {:induction false} Twice(s: seq<DirEntry>, x: DirEntry)
    requires multiset(s)[x] >= 2
    ensures !DistinctIds(s)
  {
    assert x in s;
    var i :| 0 <= i < |s| && s[i] == x;
    assert s == s[..i] + [x] + s[i + 1..];
    if x in multiset(s[..i]) {
      var k :| 0 <= k < i && s[k] == x;
    } else {
      assert x in multiset(s[i + 1..]);
      var k :| 0 <= k < |s[i + 1..]| && s[i + 1..][k] == x;
      assert s[i + 1 + k] == x;
    }
  }

  lemma TwiceInSorted(r: seq<DirEntry>, i: nat, j: nat, s: seq<DirEntry>)
    requires i < j < |r| && r[i] == r[j] && multiset(r) == multiset(s)
    ensures !DistinctIds(s)
  {
    assert r == r[..i] + [r[i]] + r[i + 1..j] + [r[j]] + r[j + 1..];
    assert multiset(s)[r[i]] >= 2;
    Twice(s, r[i]);
  }

  lemma SortedById(s: seq<DirEntry>)
    requires DistinctIds(s)
    ensures Ascending(SortById(s)) && |SortById(s)| == |s|
    ensures forall x :: x in SortById(s) <==> x in s
  {
    var r := SortById(s);
    SortSorts(s, (e: DirEntry) => e.id);
    SameMembers(r, s);
    forall i, j | 0 <= i < j < |r|
      ensures r[i].id < r[j].id
    {
      if r[i].id == r[j].id {
        assert r[i] in s && r[j] in s;
        assert r[i] == r[j];
        TwiceInSorted(r, i, j, s);
      }
    }
  }

  /** Distinct names have distinct numbers. */
  lemma ListingIsDistinct(t: Table, dir: nat, children: seq<Child>)
    requires t.Valid() && Numbered(t, dir, children) && DistinctNames(children)
    ensures DistinctIds(Listing(t, dir, children))
  {
    var s := Listing(t, dir, children);
    forall i, j | 0 <= i < j < |s|
      ensures s[i].id != s[j].id
    {
      assert children[i].name != children[j].name;
      assert (dir, children[i].name) in t.index && (dir, children[j].name) in t.index;
    }
  }

  // ---- one call ----

  function Above(s: seq<DirEntry>, cookie: nat): seq<DirEntry> {
    if s == [] then []
    else if s[0].id > cookie then [s[0]] + Above(s[1..], cookie)
    else Above(s[1..], cookie)
  }

  function Page(s: seq<DirEntry>, cookie: nat, max: nat): (seq<DirEntry>, bool) {
    var rest := Above(s, cookie);
    if |rest| <= max then (rest, true) else (rest[..max], false)
  }

  ghost predicate Keeps(before: map<Key, nat>, after: map<Key, nat>) {
    forall key | key in before :: key in after && after[key] == before[key]
  }

  /** The children of `dir` that have a number keep it. */
  ghost predicate KeepsIn(before: Table, after: Table, dir: nat) {
    forall name | (dir, name) in before.index :: (dir, name) in after.index && after.index[(dir, name)] == before.index[(dir, name)]
  }

  /** Same numbers, same listing, whatever else the table holds. */
  lemma SameListing(t: Table, u: Table, dir: nat, children: seq<Child>)
    requires Numbered(t, dir, children) && KeepsIn(t, u, dir)
    ensures Numbered(u, dir, children)
    ensures Listing(u, dir, children) == Listing(t, dir, children)
  {
    forall i | 0 <= i < |children|
      ensures Listing(u, dir, children)[i] == Listing(t, dir, children)[i]
    {
      assert (dir, children[i].name) in t.index;
    }
  }

  lemma ListingGrows(t: Table, u: Table, dir: nat, children: seq<Child>, i: nat)
    requires i < |children| && Numbered(t, dir, children[..i]) && Keeps(t.index, u.index)
    requires (dir, children[i].name) in u.index
    ensures Numbered(u, dir, children[..i + 1])
    ensures Listing(u, dir, children[..i + 1])
         == Listing(t, dir, children[..i]) + [DirEntry(u.index[(dir, children[i].name)], children[i])]
  {
    var more := children[..i + 1];
    forall k | 0 <= k < |more|
      ensures (dir, more[k].name) in u.index
    {
      assert k < i ==> more[k] == children[..i][k];
    }
    SameListing(t, u, dir, children[..i]);
  }

  method InternAll(t: InodeTable, dir: nat, children: seq<Child>) returns (all: seq<DirEntry>)
    requires t.Value().Valid() && dir < t.nextId
    modifies t
    ensures t.Value().Valid() && dir < t.nextId && Keeps(old(t.byParentName), t.byParentName)
    ensures Numbered(t.Value(), dir, children) && all == Listing(t.Value(), dir, children)
  {
    all := [];
    for i := 0 to |children|
      invariant t.Value().Valid() && dir < t.nextId
      invariant Keeps(old(t.byParentName), t.byParentName)
      invariant Numbered(t.Value(), dir, children[..i]) && all == Listing(t.Value(), dir, children[..i])
    {
      ghost var before := t.Value();
      var id := t.Intern(dir, children[i].name, children[i].item);
      assert Keeps(before.index, t.byParentName);
      ListingGrows(before, t.Value(), dir, children, i);
      all := all + [DirEntry(id, children[i])];
    }
    assert children[..|children|] == children;
  }

  method CutPage(all: seq<DirEntry>, startAfter: nat, maxEntries: nat) returns (entries: seq<DirEntry>, end: bool)
    ensures (entries, end) == Page(all, startAfter, maxEntries)
  {
    entries, end := [], true;
    var i := 0;
    assert all[0..] == all;
    while i < |all|
      invariant 0 <= i <= |all| && end && |entries| <= maxEntries
      invariant Above(all, startAfter) == entries + Above(all[i..], startAfter)
    {
      var e := all[i];
      assert all[i..][0] == e && all[i..][1..] == all[i + 1..];
      if e.id > startAfter {
        if |entries| >= maxEntries {
          end := false;
          break;
        }
        entries := entries + [e];
      }
      i := i + 1;
    }
    assert i == |all| ==> Above(all, startAfter) == entries;
  }

  lemma {:induction false} AllAbove(s: seq<DirEntry>, cookie: nat)
    requires forall i | 0 <= i < |s| :: s[i].id > cookie
    ensures Above(s, cookie) == s
  {
    if s != [] {
      AllAbove(s[1..], cookie);
      assert s == [s[0]] + s[1..];
    }
  }

  lemma {:induction false} AboveIsSuffix(s: seq<DirEntry>, k: nat, cookie: nat)
    requires k <= |s|
    requires forall i | 0 <= i < k :: s[i].id <= cookie
    requires forall i | k <= i < |s| :: s[i].id > cookie
    ensures Above(s, cookie) == s[k..]
    decreases k
  {
    if k == 0 {
      AllAbove(s, cookie);
    } else {
      AboveIsSuffix(s[1..], k - 1, cookie);
      assert s[1..][k - 1..] == s[k..];
    }
  }

  lemma PageIsSlice(s: seq<DirEntry>, k: nat, cookie: nat, max: nat)
    requires k <= |s|
    requires forall i | 0 <= i < k :: s[i].id <= cookie
    requires forall i | k <= i < |s| :: s[i].id > cookie
    ensures Page(s, cookie, max) == if |s| - k <= max then (s[k..], true) else (s[k..k + max], false)
  {
    AboveIsSuffix(s, k, cookie);
    assert |s| - k > max ==> s[k..][..max] == s[k..k + max];
  }

  /** All numbers of a listing are above the first cookie. */
  lemma ListingAboveZero(t: Table, dir: nat, children: seq<Child>)
    requires t.Valid() && Numbered(t, dir, children)
    ensures forall e | e in Listing(t, dir, children) :: e.id > 0
  {
    var l := Listing(t, dir, children);
    forall j | 0 <= j < |l|
      ensures l[j].id > 0
    {
      assert (dir, children[j].name) in t.index;
    }
  }

  /** The whole directory in the order of its pages. */
  lemma AllInOrder(t: Table, dir: nat, children: seq<Child>)
    requires t.Valid() && Numbered(t, dir, children) && DistinctNames(children)
    ensures var all := SortById(Listing(t, dir, children));
            && Ascending(all) && |all| == |children|
            && (forall e :: e in all <==> e in Listing(t, dir, children))
            && (forall i | 0 <= i < |all| :: all[i].id > 0)
  {
    var l := Listing(t, dir, children);
    ListingIsDistinct(t, dir, children);
    SortedById(l);
    ListingAboveZero(t, dir, children);
    forall i | 0 <= i < |SortById(l)|
      ensures SortById(l)[i].id > 0
    {
      assert SortById(l)[i] in l;
    }
  }

  lemma {:induction false} SplitPoint(s: seq<DirEntry>, cookie: nat) returns (k: nat)
    requires Ascending(s)
    ensures k <= |s| && (forall i | 0 <= i < k :: s[i].id <= cookie) && forall i | k <= i < |s| :: s[i].id > cookie
  {
    k := 0;
    if s != [] && s[0].id <= cookie {
      k := SplitPoint(s[1..], cookie);
      k := k + 1;
    }
  }

  /** A page has the next entries above the cookie, `max` of them unless it is
      the last; it is the last exactly when none is left out. */
  ghost predicate IsPage(page: seq<DirEntry>, end: bool, all: seq<DirEntry>, cookie: nat, max: nat) {
    && Ascending(page) && |page| <= max && (!end ==> |page| == max)
    && (forall e | e in page :: e in all && e.id > cookie)
    && (forall e, f | e in all && e.id > cookie && e !in page && f in page :: f.id < e.id)
    && (end <==> forall e | e in all && e.id > cookie :: e in page)
  }

  lemma InSlice(all: seq<DirEntry>, k: nat, to: nat, i: nat)
    requires Ascending(all) && k <= to <= |all| && i < |all|
    ensures all[i] in all[k..to] <==> k <= i < to
  {
    var page := all[k..to];
    if all[i] in page {
      var j :| 0 <= j < |page| && page[j] == all[i];
      assert all[k + j].id == all[i].id;
    }
    assert k <= i < to ==> page[i - k] == all[i];
  }

  lemma SliceIsPage(all: seq<DirEntry>, k: nat, to: nat, cookie: nat, max: nat)
    requires Ascending(all) && k <= to <= |all| && to - k <= max && (to < |all| ==> to - k == max)
    requires (forall i | 0 <= i < k :: all[i].id <= cookie) && forall i | k <= i < |all| :: all[i].id > cookie
    ensures IsPage(all[k..to], to == |all|, all, cookie, max)
  {
    var page := all[k..to];
    forall i | 0 <= i < |all|
      ensures all[i] in page <==> k <= i < to
    {
      InSlice(all, k, to, i);
    }
    assert forall j | 0 <= j < |page| :: page[j] == all[k + j];
    forall e, f | e in all && e.id > cookie && e !in page && f in page
      ensures f.id < e.id
    {
      var i :| 0 <= i < |all| && all[i] == e;
      var j :| 0 <= j < |page| && page[j] == f;
      assert i >= to && k + j < to;
    }
    if to < |all| {
      assert all[to] in all && all[to].id > cookie && all[to] !in page;
    }
  }

  lemma PageMeans(all: seq<DirEntry>, cookie: nat, max: nat)
    requires Ascending(all)
    ensures IsPage(Page(all, cookie, max).0, Page(all, cookie, max).1, all, cookie, max)
  {
    var k := SplitPoint(all, cookie);
    PageIsSlice(all, k, cookie, max);
    SliceIsPage(all, k, if |all| - k <= max then |all| else k + max, cookie, max);
    assert all[k..] == all[k..|all|];
  }

  /** One `readdir`. Afterwards every child has a number, numbers given before
      are kept, and the page is cut from all children in order of number. */
  method ReadDir(t: InodeTable, dir: nat, folders: seq<Child>, files: seq<Child>, startAfter: nat, maxEntries: nat)
      returns (entries: seq<DirEntry>, end: bool)
    requires t.Value().Valid() && dir < t.nextId
    modifies t
    ensures t.Value().Valid() && dir < t.nextId && Keeps(old(t.byParentName), t.byParentName)
    ensures Numbered(t.Value(), dir, folders + files)
    ensures (entries, end) == Page(SortById(Listing(t.Value(), dir, folders + files)), startAfter, maxEntries)
    ensures DistinctNames(folders + files) ==>
              IsPage(entries, end, Listing(t.Value(), dir, folders + files), startAfter, maxEntries)
  {
    var all := InternAll(t, dir, folders + files);
    entries, end := CutPage(SortById(all), startAfter, maxEntries);
    if DistinctNames(folders + files) {
      AllInOrder(t.Value(), dir, folders + files);
      PageMeans(SortById(all), startAfter, maxEntries);
    }
  }

  // ---- many calls ----

  /** A client that resumes from the last number it got until told it is at
      the end. `tables` are the tables its calls leave behind, from `call` on.
      With what it got comes whether a call has reported the end. */
  ghost function Gather(tables: seq<Table>, call: nat, dir: nat, children: seq<Child>, cookie: nat, max: nat): (seq<DirEntry>, bool)
    requires max >= 1 && forall i | 0 <= i < |tables| :: Numbered(tables[i], dir, children)
    decreases |tables| - call
  {
    if call >= |tables| then ([], false)
    else
      var (page, end) := Page(SortById(Listing(tables[call], dir, children)), cookie, max);
      if end then (page, true)
      else
        var (rest, ended) := Gather(tables, call + 1, dir, children, page[|page| - 1].id, max);
        (page + rest, ended)
  }

  lemma MorePages(all: seq<DirEntry>, k: nat, max: nat)
    requires Ascending(all) && max >= 1 && k + max < |all|
    ensures var page := all[k..k + max];
            page[|page| - 1] == all[k + max - 1] && page + all[k + max..] == all[k..]
    ensures forall i | 0 <= i < k + max :: all[i].id <= all[k + max - 1].id
    ensures forall i | k + max <= i < |all| :: all[i].id > all[k + max - 1].id
  {
    Glue(all, k, k + max, |all|);
    assert all[k..] == all[k..|all|] && all[k + max..] == all[k + max..|all|];
  }

  /** Resumed after the first `k` entries, pages of at least one give the rest
      in order, each once. Enough calls are at most one per entry and one. */
  lemma {:induction false} PagesFrom(tables: seq<Table>, call: nat, dir: nat, children: seq<Child>, all: seq<DirEntry>,
                                     k: nat, cookie: nat, max: nat)
    requires max >= 1 && forall i | 0 <= i < |tables| :: Numbered(tables[i], dir, children)
    requires forall i | 0 <= i < |tables| :: SortById(Listing(tables[i], dir, children)) == all
    requires Ascending(all) && k <= |all| && |tables| - call > |all| - k
    requires forall i | 0 <= i < k :: all[i].id <= cookie
    requires forall i | k <= i < |all| :: all[i].id > cookie
    ensures Gather(tables, call, dir, children, cookie, max) == (all[k..], true)
    decreases |tables| - call
  {
    PageIsSlice(all, k, cookie, max);
    if |all| - k > max {
      MorePages(all, k, max);
      PagesFrom(tables, call + 1, dir, children, all, k + max, all[k + max - 1].id, max);
    }
  }

  /** Paging is complete. With distinct names, and this directory's numbers kept
      between calls whatever else comes and goes, the pages of a client that
      starts at cookie 0 put together are every child exactly once, in order of
      number, although every call interned all of them anew. Some call reports
      the end, within one more than there are children, and none before it. */
  lemma PagingIsComplete(tables: seq<Table>, dir: nat, children: seq<Child>, max: nat)
    requires max >= 1 && |tables| > |children| && DistinctNames(children)
    requires forall i | 0 <= i < |tables| :: Numbered(tables[i], dir, children)
    requires tables[0].Valid() && forall i | 0 <= i < |tables| :: KeepsIn(tables[0], tables[i], dir)
    ensures var (got, ended) := Gather(tables, 0, dir, children, 0, max);
            && ended && Ascending(got) && |got| == |children|
            && (forall e :: e in got <==> e in Listing(tables[0], dir, children))
  {
    var all := SortById(Listing(tables[0], dir, children));
    AllInOrder(tables[0], dir, children);
    forall i | 0 <= i < |tables|
      ensures SortById(Listing(tables[i], dir, children)) == all
    {
      SameListing(tables[0], tables[i], dir, children);
    }
    PagesFrom(tables, 0, dir, children, all, 0, 0, max);
    assert all[0..] == all;
  }

  // ---- a client ----

  /** Other requests between two calls: any interns, and any removals but those
      of the directory and its children. */
  method OtherRequests(t: InodeTable, dir: nat)
    requires t.Value().Valid() && dir < t.nextId
    modifies t
    ensures t.Value().Valid() && dir < t.nextId && KeepsIn(old(t.Value()), t.Value(), dir)
  {
    var n: nat := *;
    while n > 0
      invariant t.Value().Valid() && dir < t.nextId && KeepsIn(old(t.Value()), t.Value(), dir)
    {
      ghost var before := t.Value();
      if * {
        var parent: nat, name: string, item: Item := *, *, *;
        if parent < t.nextId {
          var _ := t.Intern(parent, name, item);
        }
      } else {
        var id: nat := *;
        if id != ROOT && id != dir && (id in t.nodes ==> t.nodes[id].parent != dir) {
          t.RemoveNode(id);
        }
      }
      assert KeepsIn(before, t.Value(), dir);
      n := n - 1;
    }
  }

  ghost predicate Serves(t: Table, dir: nat, children: seq<Child>, all: seq<DirEntry>) {
    t.Valid() && dir < t.nextId && Numbered(t, dir, children) && SortById(Listing(t, dir, children)) == all
  }

  lemma StillServes(t: Table, u: Table, dir: nat, children: seq<Child>, all: seq<DirEntry>)
    requires Serves(t, dir, children, all) && u.Valid() && dir < u.nextId && KeepsIn(t, u, dir)
    ensures Serves(u, dir, children, all)
  {
    SameListing(t, u, dir, children);
  }

  /** The page after what the client has. */
  lemma NextPage(all: seq<DirEntry>, got: seq<DirEntry>, max: nat)
    requires Ascending(all) && got <= all && got != [] && max >= 1
    ensures var (page, end) := Page(all, got[|got| - 1].id, max);
            && got + page <= all && (end <==> got + page == all)
            && (!end ==> page != [])
  {
    var k := |got|;
    assert got == all[..k];
    forall i | 0 <= i < k
      ensures all[i].id <= got[k - 1].id
    {
      assert got[k - 1] == all[k - 1] && (i == k - 1 || all[i].id < all[k - 1].id);
    }
    PageIsSlice(all, k, got[k - 1].id, max);
    assert all == got + all[k..];
    assert |all| - k > max ==> got + all[k..k + max] == all[..k + max];
  }

  method ResumeListing(t: InodeTable, dir: nat, folders: seq<Child>, files: seq<Child>, startAfter: nat, max: nat,
                       ghost all: seq<DirEntry>) returns (page: seq<DirEntry>, end: bool)
    requires Serves(t.Value(), dir, folders + files, all)
    modifies t
    ensures Serves(t.Value(), dir, folders + files, all) && KeepsIn(old(t.Value()), t.Value(), dir)
    ensures (page, end) == Page(all, startAfter, max)
  {
    ghost var before := t.Value();
    OtherRequests(t, dir);
    StillServes(before, t.Value(), dir, folders + files, all);
    before := t.Value();
    page, end := ReadDir(t, dir, folders, files, startAfter, max);
    StillServes(before, t.Value(), dir, folders + files, all);
  }

  lemma FirstPage(all: seq<DirEntry>, max: nat)
    requires max >= 1 && forall i | 0 <= i < |all| :: all[i].id > 0
    ensures var (page, end) := Page(all, 0, max);
            page <= all && (end <==> page == all) && (!end ==> page != [])
  {
    PageIsSlice(all, 0, 0, max);
  }

  /** A client lists a directory page by page, until told it is at the end,
      while other requests come in between: it gets every child exactly once. */
  method ListDirectory(t: InodeTable, dir: nat, folders: seq<Child>, files: seq<Child>, max: nat)
      returns (got: seq<DirEntry>)
    requires t.Value().Valid() && dir < t.nextId && max >= 1 && DistinctNames(folders + files)
    modifies t
    ensures t.Value().Valid() && Numbered(t.Value(), dir, folders + files)
    ensures Ascending(got) && |got| == |folders + files|
    ensures forall e :: e in got <==> e in Listing(t.Value(), dir, folders + files)
  {
    var end: bool;
    got, end := ReadDir(t, dir, folders, files, 0, max);
    ghost var all := SortById(Listing(t.Value(), dir, folders + files));
    AllInOrder(t.Value(), dir, folders + files);
    FirstPage(all, max);
    while !end
      invariant Serves(t.Value(), dir, folders + files, all)
      invariant got <= all && (if end then got == all else got != [] && got != all)
      decreases |all| - |got|, !end
    {
      NextPage(all, got, max);
      var page: seq<DirEntry>;
      page, end := ResumeListing(t, dir, folders, files, got[|got| - 1].id, max, all);
      got := got + page;
    }
    AllInOrder(t.Value(), dir, folders + files);
  }
}
