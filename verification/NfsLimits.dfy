/** Where the NFS write path does not keep its promise, and exactly when. Each
    lemma ranges over every state the protocol can be in at that point. */
module NfsLimits {
  import opened Basics
  import opened NfsBuffer
  import opened NfsProtocol
  import opened NfsSafety
  import opened NfsRuns

  /** All a client would get by reading the file from end to end now. */
  ghost function Served(s: State): seq<byte>
    requires s.writer.Some? ==> s.writer.value in s.bufs
  {
    match s.writer
    case Some(c) => Clip(s.bufs[c].file, s.bufs[c].size)
    case None => Clip(Content(s.store, ReaderFor(s).fileId), ReaderFor(s).size)
  }

  /** The content the node points to. */
  function DriveContent(s: State): seq<byte> {
    Content(s.store, s.node.fileId)
  }

  lemma AfterCons(s: State, limit: Option<nat>, step: Step, rest: seq<Step>)
    requires Enabled(s, limit, step) && IsRun(Apply(s, limit, step), limit, rest)
    ensures IsRun(s, limit, [step] + rest)
    ensures After(s, limit, [step] + rest) == After(Apply(s, limit, step), limit, rest)
  {
    assert ([step] + rest)[1..] == rest;
  }

  lemma After2(s: State, limit: Option<nat>, a: Step, b: Step)
    requires Enabled(s, limit, a) && Enabled(Apply(s, limit, a), limit, b)
    ensures IsRun(s, limit, [a, b])
    ensures After(s, limit, [a, b]) == Apply(Apply(s, limit, a), limit, b)
  {
    var s1 := Apply(s, limit, a);
    assert [a, b][1..] == [b] && [b][1..] == [];
    assert After(s1, limit, [b]) == After(Apply(s1, limit, b), limit, []);
  }

  /** The steps a mutation that has its buffer still has to make. */
  function Rest(r: Rpc, id: RpcId): seq<Step>
    requires r.Attached? || r.Ready? || r.Locked?
  {
    match r
    case Attached(m, _) => [if m == Truncate(0) then DeclareEmpty(id) else Materialize(id)] + [TakeLock(id), Commit(id)]
    case Ready(_, _) => [TakeLock(id), Commit(id)]
    case Locked(_, _) => [Commit(id)]
  }

  predicate NotEmptyWrite(m: Mutation) {
    m.Write? ==> m.data != []
  }

  /** Its buffer is there, unlocked by others, and knows the size it will have
      with its content. */
  ghost predicate CanFinish(s: State, id: RpcId) {
    && RpcAt(s, id) && (s.rpcs[id].Attached? || s.rpcs[id].Ready? || s.rpcs[id].Locked?)
    && NotEmptyWrite(s.rpcs[id].m)
    && (s.rpcs[id].Locked? || LockFree(s, s.rpcs[id].buf))
    && var b := s.bufs[s.rpcs[id].buf];
    && b.size == |s.spec| && (!b.materialized ==> b.base.size == |s.spec|)
  }

  lemma CanFinishAtOnce(s: State, limit: Option<nat>, id: RpcId)
    requires Inv(s, limit) && id in s.rpcs && s.writer.Some?
    requires s.rpcs[id].Attached? || s.rpcs[id].Ready? || s.rpcs[id].Locked?
    requires NotEmptyWrite(s.rpcs[id].m)
    requires s.rpcs[id].Locked? || LockFree(s, s.rpcs[id].buf)
    ensures CanFinish(s, id) && s.rpcs[id].buf == s.writer.value
  {
    assert RpcFine(s, s.rpcs[id]);
  }

  // ---- eviction ----

  /** A mutation that finishes on a buffer no longer in the table. */
  ghost predicate FinishesAs(s: State, limit: Option<nat>, id: RpcId)
    requires CanFinish(s, id)
  {
    var m, steps := s.rpcs[id].m, Rest(s.rpcs[id], id);
    && IsRun(s, limit, steps)
    && var s' := After(s, limit, steps);
    && s'.writer.None? && s'.spec == PlainApply(s.spec, m)
    && Served(s') == Clip(DriveContent(s), |s'.spec|)
  }

  lemma OrphanCommits(s: State, limit: Option<nat>, id: RpcId)
    requires CanFinish(s, id) && s.writer.None? && s.rpcs[id].Locked?
    ensures FinishesAs(s, limit, id)
  {
    var s' := CommitRpc(s, id);
    CommittedSize(s.bufs[s.rpcs[id].buf], s.rpcs[id].m, s.spec);
    assert After(s', limit, []) == s';
    AfterCons(s, limit, Commit(id), []);
    assert [Commit(id)] + [] == Rest(s.rpcs[id], id);
  }

  lemma OrphanLocks(s: State, limit: Option<nat>, id: RpcId)
    requires CanFinish(s, id) && s.writer.None? && s.rpcs[id].Ready?
    ensures FinishesAs(s, limit, id)
  {
    var s' := LockFile(s, id);
    OrphanCommits(s', limit, id);
    AfterCons(s, limit, TakeLock(id), Rest(s'.rpcs[id], id));
    assert [TakeLock(id)] + Rest(s'.rpcs[id], id) == Rest(s.rpcs[id], id);
  }

  lemma OrphanPulls(s: State, limit: Option<nat>, id: RpcId)
    requires CanFinish(s, id) && s.writer.None? && s.rpcs[id].Attached? && s.rpcs[id].m != Truncate(0)
    ensures FinishesAs(s, limit, id)
  {
    var s' := Pull(s, id);
    assert LockFree(s', s.rpcs[id].buf);
    OrphanLocks(s', limit, id);
    AfterCons(s, limit, Materialize(id), Rest(s'.rpcs[id], id));
    assert [Materialize(id)] + Rest(s'.rpcs[id], id) == Rest(s.rpcs[id], id);
  }

  lemma OrphanSkips(s: State, limit: Option<nat>, id: RpcId)
    requires CanFinish(s, id) && s.writer.None? && s.rpcs[id].Attached? && s.rpcs[id].m == Truncate(0)
    ensures FinishesAs(s, limit, id)
  {
    var s' := SkipPull(s, id);
    assert LockFree(s', s.rpcs[id].buf);
    OrphanLocks(s', limit, id);
    AfterCons(s, limit, DeclareEmpty(id), Rest(s'.rpcs[id], id));
    assert [DeclareEmpty(id)] + Rest(s'.rpcs[id], id) == Rest(s.rpcs[id], id);
  }

  lemma FinishesOnOrphan(s: State, limit: Option<nat>, id: RpcId)
    requires CanFinish(s, id) && s.writer.None?
    ensures FinishesAs(s, limit, id)
  {
    match s.rpcs[id]
    case Attached(m, _) =>
      if m == Truncate(0) {
        OrphanSkips(s, limit, id);
      } else {
        OrphanPulls(s, limit, id);
      }
    case Ready(_, _) => OrphanLocks(s, limit, id);
    case Locked(_, _) => OrphanCommits(s, limit, id);
  }

  lemma ClipIsPrefix(f: seq<byte>, g: seq<byte>)
    ensures Clip(f, |g|) == g <==> g <= f
  {
  }

  /** The sweep drops a clean quiet buffer without asking whether an RPC still
      holds it. If a mutation does, still downloading, waiting for the file
      lock or holding it, it commits to an orphan; and reads then agree with
      the plain file if and only if that is a beginning of what Drive held. With
      no other mutation at work Drive held the plain file, so exactly if the
      mutation only cut the file. */
  lemma EvictionUnderMutation(s: State, limit: Option<nat>, id: RpcId)
    requires Inv(s, limit) && id in s.rpcs && s.writer.Some?
    requires s.rpcs[id].Attached? || s.rpcs[id].Ready? || s.rpcs[id].Locked?
    requires NotEmptyWrite(s.rpcs[id].m)
    requires s.rpcs[id].Locked? || LockFree(s, s.rpcs[id].buf)
    requires !s.bufs[s.writer.value].dirty
    ensures var steps := [Evict] + Rest(s.rpcs[id], id);
            && IsRun(s, limit, steps)
            && var s' := After(s, limit, steps);
            && s'.writer.None? && s'.spec == PlainApply(s.spec, s.rpcs[id].m)
            && (Served(s') == s'.spec <==> s'.spec <= DriveContent(s))
    ensures !SomeLocked(s) && !s.bufs[s.writer.value].hollow ==> DriveContent(s) == s.spec
  {
    CanFinishAtOnce(s, limit, id);
    FinishesOnOrphan(Apply(s, limit, Evict), limit, id);
    AfterCons(s, limit, Evict, Rest(s.rpcs[id], id));
    ClipIsPrefix(DriveContent(s), PlainApply(s.spec, s.rpcs[id].m));
  }

  /** The byte at `i` of a file that has been extended far enough. */
  function ByteAt(f: seq<byte>, i: nat): byte {
    if i < |f| then f[i] else 0
  }

  /** The mutation leaves no trace of which of the two files it started from. */
  predicate Hides(a: seq<byte>, b: seq<byte>, m: Mutation) {
    match m
    case Write(offset, data) =>
      var end := offset + |data|;
      && Max(|a|, end) == Max(|b|, end)
      && (forall i | 0 <= i < offset :: ByteAt(a, i) == ByteAt(b, i))
      && (forall i | end <= i < |a| :: ByteAt(a, i) == ByteAt(b, i))
    case Truncate(size) => forall i | 0 <= i < size :: ByteAt(a, i) == ByteAt(b, i)
  }

  lemma AppliedAt(f: seq<byte>, m: Mutation, i: nat)
    requires NotEmptyWrite(m) && i < |PlainApply(f, m)|
    ensures PlainApply(f, m)[i] == if m.Write? && m.offset <= i < m.offset + |m.data| then m.data[i - m.offset] else ByteAt(f, i)
  {
    if m.Write? {
      WriteFileAt(f, m.offset, m.data, i);
    }
  }

  lemma AppliedLength(f: seq<byte>, m: Mutation)
    requires NotEmptyWrite(m)
    ensures |PlainApply(f, m)| == if m.Write? then Max(|f|, m.offset + |m.data|) else m.size
  {
    if m.Write? {
      WriteFileAt(f, m.offset, m.data, 0);
    }
  }

  lemma AgreeWhenHidden(a: seq<byte>, b: seq<byte>, m: Mutation)
    requires NotEmptyWrite(m)
    ensures PlainApply(a, m) == PlainApply(b, m) <==> Hides(a, b, m)
  {
    var a', b' := PlainApply(a, m), PlainApply(b, m);
    AppliedLength(a, m);
    AppliedLength(b, m);
    forall i | 0 <= i < |a'| && |a'| == |b'|
      ensures a'[i] == b'[i] <==> (m.Write? && m.offset <= i < m.offset + |m.data|) || ByteAt(a, i) == ByteAt(b, i)
    {
      AppliedAt(a, m, i);
      AppliedAt(b, m, i);
    }
  }

  lemma LockAndCommit(s: State, limit: Option<nat>, id: RpcId)
    requires RpcAt(s, id) && s.rpcs[id].Ready? && LockFree(s, s.rpcs[id].buf)
    ensures IsRun(s, limit, [TakeLock(id), Commit(id)])
    ensures After(s, limit, [TakeLock(id), Commit(id)]) == CommitRpc(LockFile(s, id), id)
  {
    After2(s, limit, TakeLock(id), Commit(id));
  }

  lemma FinishesInPlace(s: State, limit: Option<nat>, id: RpcId, c: BufId, was: seq<byte>)
    requires RpcAt(s, id) && s.writer == Some(c) && c in s.bufs && LockFree(s, c)
    requires s.rpcs[id].Ready? && s.rpcs[id].buf == c && NotEmptyWrite(s.rpcs[id].m)
    requires s.bufs[c].size == |was| && (s.rpcs[id].m != Truncate(0) ==> s.bufs[c].file == was)
    ensures var m := s.rpcs[id].m;
            && IsRun(s, limit, [TakeLock(id), Commit(id)])
            && var s' := After(s, limit, [TakeLock(id), Commit(id)]);
            && s'.writer == Some(c) && c in s'.bufs && s'.spec == PlainApply(s.spec, m)
            && Served(s') == PlainApply(was, m)
  {
    var m := s.rpcs[id].m;
    CommittedSize(s.bufs[c], m, was);
    LockAndCommit(s, limit, id);
    assert Committed(s.bufs[c], m).file == PlainApply(was, m);
    assert Clip(PlainApply(was, m), |PlainApply(was, m)|) == PlainApply(was, m);
  }

  lemma StartsOver(s: State, limit: Option<nat>, id: RpcId, c: BufId, was: seq<byte>)
    requires RpcAt(s, id) && s.writer == Some(c) && c in s.bufs && LockFree(s, c)
    requires s.rpcs[id].Attached? && s.rpcs[id].buf == c && NotEmptyWrite(s.rpcs[id].m)
    requires s.bufs[c] == NewBuffer(s.bufs[c].base) && Stored(s, s.bufs[c].base.fileId, s.bufs[c].base.size, was)
    ensures var m := s.rpcs[id].m;
            && IsRun(s, limit, Rest(s.rpcs[id], id))
            && var s' := After(s, limit, Rest(s.rpcs[id], id));
            && s'.writer == Some(c) && c in s'.bufs && s'.spec == PlainApply(s.spec, m)
            && Served(s') == PlainApply(was, m)
  {
    var m := s.rpcs[id].m;
    var first := Rest(s.rpcs[id], id)[0];
    var s1 := if first.DeclareEmpty? then SkipPull(s, id) else Pull(s, id);
    assert LockFree(s1, c);
    FinishesInPlace(s1, limit, id, c, was);
    AfterCons(s, limit, first, [TakeLock(id), Commit(id)]);
    assert [first] + [TakeLock(id), Commit(id)] == Rest(s.rpcs[id], id);
  }

  lemma AttachesAndStartsOver(s: State, limit: Option<nat>, id: RpcId, c: BufId, was: seq<byte>)
    requires s.writer.None? && c !in s.bufs && id in s.rpcs && s.rpcs[id].Cloned? && NotEmptyWrite(s.rpcs[id].m)
    requires Stored(s, s.rpcs[id].node.fileId, s.rpcs[id].node.size, was) && LockFree(AttachBuffer(s, id, c), c)
    ensures var m := s.rpcs[id].m;
            var steps := [Attach(id, c)] + Rest(Attached(m, c), id);
            && IsRun(s, limit, steps)
            && var s' := After(s, limit, steps);
            && s'.writer == Some(c) && c in s'.bufs && s'.spec == PlainApply(s.spec, m)
            && Served(s') == PlainApply(was, m)
  {
    var s' := AttachBuffer(s, id, c);
    assert s'.bufs[c] == NewBuffer(s.rpcs[id].node);
    StartsOver(s', limit, id, c, was);
    AfterCons(s, limit, Attach(id, c), Rest(s'.rpcs[id], id));
  }

  lemma NobodyLocksNew(s: State, s': State, limit: Option<nat>, id: RpcId, m: Mutation, c: BufId)
    requires Inv(s, limit) && c !in s.bufs
    requires s'.rpcs == s.rpcs[id := Attached(m, c)]
    ensures LockFree(s', c)
  {
    forall k | k in s'.rpcs && s'.rpcs[k].Locked?
      ensures s'.rpcs[k].buf != c
    {
      assert RpcFine(s, s.rpcs[k]);
    }
  }

  /** A mutation that copied the node before its buffer existed, and finds it
      evicted again, starts over from the content that node names. Reads agree
      if and only if the mutation hides what has changed since. */
  lemma StaleNodeRevivesContent(s: State, limit: Option<nat>, id: RpcId, c: BufId, was: seq<byte>)
    requires Inv(s, limit) && s.writer.Some? && !s.bufs[s.writer.value].dirty && c !in s.bufs
    requires id in s.rpcs && s.rpcs[id].Cloned? && NotEmptyWrite(s.rpcs[id].m)
    requires Stored(s, s.rpcs[id].node.fileId, s.rpcs[id].node.size, was)
    ensures var m := s.rpcs[id].m;
            var steps := [Evict, Attach(id, c)] + Rest(Attached(m, c), id);
            && IsRun(s, limit, steps)
            && var s' := After(s, limit, steps);
            && s'.writer == Some(c) && c in s'.bufs && s'.spec == PlainApply(s.spec, m)
            && (Served(s') == s'.spec <==> Hides(was, s.spec, m))
  {
    var m := s.rpcs[id].m;
    var steps := [Attach(id, c)] + Rest(Attached(m, c), id);
    var s1 := DropWriter(s);
    NobodyLocksNew(s, AttachBuffer(s1, id, c), limit, id, m, c);
    AttachesAndStartsOver(s1, limit, id, c, was);
    AfterCons(s, limit, Evict, steps);
    assert [Evict] + steps == [Evict, Attach(id, c)] + Rest(Attached(m, c), id);
    AgreeWhenHidden(was, s.spec, m);
  }

  // ---- hollow buffers ----

  /** Nothing of the content that is missing would show after the mutation. */
  predicate NothingShows(b: Buffer, spec: seq<byte>, m: Mutation) {
    match m
    case Write(offset, data) =>
      var end := offset + |data|;
      && Max(|b.file|, end) == Max(|spec|, end)
      && forall i | i in b.missing && i < |spec| && !(offset <= i < end) :: spec[i] == 0
    case Truncate(size) => forall i | i in b.missing && i < |spec| && i < size :: spec[i] == 0
  }

  lemma HollowByte(b: Buffer, spec: seq<byte>, i: nat)
    requires HollowFine(b, spec)
    ensures ByteAt(b.file, i) == ByteAt(spec, i) <==> !(i in b.missing && i < |spec| && spec[i] != 0)
  {
  }

  lemma HidesMissing(b: Buffer, spec: seq<byte>, m: Mutation)
    requires HollowFine(b, spec)
    ensures Hides(b.file, spec, m) <==> NothingShows(b, spec, m)
  {
    forall i: nat
      ensures ByteAt(b.file, i) == ByteAt(spec, i) <==> !(i in b.missing && i < |spec| && spec[i] != 0)
    {
      HollowByte(b, spec, i);
    }
  }

  /** A truncate to zero declares the buffer materialized before it cuts the
      file. Every mutation that commits in between works on a file with content
      missing, and reads agree with the plain file if and only if nothing that
      is missing would show. */
  lemma MutationOnHollowBuffer(s: State, limit: Option<nat>, id: RpcId)
    requires Inv(s, limit) && id in s.rpcs && s.rpcs[id].Ready? && LockFree(s, s.rpcs[id].buf)
    requires NotEmptyWrite(s.rpcs[id].m) && s.bufs[s.rpcs[id].buf].hollow
    ensures IsRun(s, limit, [TakeLock(id), Commit(id)])
    ensures var s' := After(s, limit, [TakeLock(id), Commit(id)]);
            && s'.writer == s.writer && s'.writer.value in s'.bufs
            && s'.spec == PlainApply(s.spec, s.rpcs[id].m)
            && (Served(s') == s'.spec <==> NothingShows(s.bufs[s.rpcs[id].buf], s.spec, s.rpcs[id].m))
  {
    assert RpcFine(s, s.rpcs[id]);
    var b, m := s.bufs[s.rpcs[id].buf], s.rpcs[id].m;
    LockAndCommit(s, limit, id);
    AgreeWhenHidden(b.file, s.spec, m);
    HidesMissing(b, s.spec, m);
    CommittedSize(b, m, s.spec);
    AppliedLength(b.file, m);
    AppliedLength(s.spec, m);
    assert Clip(PlainApply(b.file, m), |PlainApply(s.spec, m)|) == PlainApply(b.file, m);
  }

  lemma LockedHeals(s: State, limit: Option<nat>, id: RpcId)
    requires Inv(s, limit) && id in s.rpcs && s.rpcs[id].Locked? && s.rpcs[id].m == Truncate(0) && s.writer == Some(s.rpcs[id].buf)
    ensures IsRun(s, limit, [Commit(id)])
    ensures var s' := After(s, limit, [Commit(id)]);
            && Inv(s', limit) && s'.writer == s.writer && !s'.bufs[s'.writer.value].hollow
            && Served(s') == s'.spec == []
  {
    CommitKeeps(s, limit, id);
    var s' := CommitRpc(s, id);
    assert After(s', limit, []) == s' && [Commit(id)][1..] == [];
  }

  /** It does not last: in every state the truncate that left the buffer hollow
      is still to come, and when it commits file and plain file are both
      empty. */
  lemma EmptyingHeals(s: State, limit: Option<nat>) returns (id: RpcId)
    requires Inv(s, limit) && s.writer.Some? && s.bufs[s.writer.value].hollow
    ensures id in s.rpcs && Empties(s.rpcs[id], s.writer.value)
    ensures s.rpcs[id].Locked? || !SomeLocked(s) ==>
              && IsRun(s, limit, Rest(s.rpcs[id], id))
              && var s' := After(s, limit, Rest(s.rpcs[id], id));
              && Inv(s', limit) && s'.writer == s.writer && !s'.bufs[s'.writer.value].hollow
              && Served(s') == s'.spec == []
  {
    id :| id in s.rpcs && Empties(s.rpcs[id], s.writer.value);
    if s.rpcs[id].Locked? {
      LockedHeals(s, limit, id);
    } else if !SomeLocked(s) {
      LockKeeps(s, limit, id);
      LockedHeals(LockFile(s, id), limit, id);
      AfterCons(s, limit, TakeLock(id), [Commit(id)]);
      assert [TakeLock(id)] + [Commit(id)] == Rest(s.rpcs[id], id);
    }
  }

  lemma SliceAt(f: seq<byte>, size: nat, offset: nat, len: nat)
    ensures var end := Min(Min(|f|, size), offset + len);
            var got := Slice(Clip(f, size), offset, len);
            && |got| == (if offset < end then end - offset else 0)
            && (forall i | 0 <= i < |got| :: got[i] == f[offset + i])
  {
  }

  /** What a read of a hollow file shows of the plain one. */
  lemma SliceOfHollow(b: Buffer, spec: seq<byte>, size: nat, offset: nat, len: nat)
    requires HollowFine(b, spec) && offset < Min(size, |spec|) && len > 0
    ensures var end := Min(offset + len, Min(size, |spec|));
            (Slice(Clip(b.file, size), offset, len) == Slice(Clip(spec, size), offset, len)) ==
            (end <= |b.file| && forall i | i in b.missing && offset <= i < end :: spec[i] == 0)
  {
    var end := Min(offset + len, Min(size, |spec|));
    var got, all := Slice(Clip(b.file, size), offset, len), Slice(Clip(spec, size), offset, len);
    SliceAt(b.file, size, offset, len);
    SliceAt(spec, size, offset, len);
    if end <= |b.file| {
      forall i | offset <= i < end
        ensures got[i - offset] == all[i - offset] <==> !(i in b.missing && spec[i] != 0)
      {
        HollowByte(b, spec, i);
        assert got[i - offset] == b.file[offset + (i - offset)] && all[i - offset] == spec[offset + (i - offset)];
      }
      if got == all {
        forall i | i in b.missing && offset <= i < end
          ensures spec[i] == 0
        {
          assert got[i - offset] == all[i - offset];
        }
      } else {
        var k :| 0 <= k < |got| && got[k] != all[k];
        assert offset <= offset + k < end;
      }
    }
  }

  /** A read in that window, at any point of it: it agrees with the plain file
      if and only if it is empty or past the end, or within the file there is
      and nothing that is missing would show. */
  lemma ReadOfHollowBuffer(s: State, limit: Option<nat>, id: RpcId)
    requires Inv(s, limit) && Enabled(s, limit, FinishRead(id)) && s.rpcs[id].ReadSized?
    requires s.bufs[s.rpcs[id].buf].hollow
    ensures var ReadSized(offset, len, c, _, size) := s.rpcs[id];
            var b, end := s.bufs[c], Min(offset + len, Min(size, |s.spec|));
            (Reply(s, id).0 == Slice(Clip(s.spec, size), offset, len)) ==
            (len == 0 || offset >= Min(size, |s.spec|)
             || (end <= |b.file| && forall i | i in b.missing && offset <= i < end :: s.spec[i] == 0))
  {
    assert RpcFine(s, s.rpcs[id]);
    var ReadSized(offset, len, c, _, size) := s.rpcs[id];
    if len > 0 && offset < Min(size, |s.spec|) {
      SliceOfHollow(s.bufs[c], s.spec, size, offset, len);
    } else {
      SliceAt(s.bufs[c].file, size, offset, len);
      SliceAt(s.spec, size, offset, len);
    }
  }

  // ---- the upload limit, and empty writes ----

  /** The server accepts a write exactly when its end fits 64 bits and the limit,
      and any truncate. So of a file within the limit only a truncate makes one
      over it. */
  lemma OnlyTruncatesExceed(limit: nat, file: seq<byte>, m: Mutation)
    requires NotEmptyWrite(m)
    ensures Accepted(Some(limit), m) <==>
              (m.Write? ==> m.offset + |m.data| <= 0xFFFF_FFFF_FFFF_FFFF && m.offset + |m.data| <= limit)
    ensures Accepted(Some(limit), m) && |file| <= limit ==>
              (|PlainApply(file, m)| > limit <==> m.Truncate? && m.size > limit)
  {
    AppliedLength(file, m);
  }

  /** `setattr` is not gated by the upload limit. A flush uploads nothing and
      clears `dirty` exactly when the file is over the limit (or is empty and
      not on Drive), and once the buffer is gone reads are back to the old
      content. */
  lemma OverLimitIsDropped(s: State, limit: Option<nat>)
    requires FlushWanted(s) && s.reader.None?
    ensures var b := s.bufs[s.writer.value];
            var s' := BeginFlush(s, limit);
            && (s'.flush.Idle? <==> (limit.Some? && b.size > limit.value) || (b.size == 0 && b.existing.None?))
            && (s'.flush.Idle? <==> !s'.bufs[s.writer.value].dirty)
            && (s'.flush.Idle? ==>
                  && IsRun(s, limit, [StartFlush, Evict])
                  && Served(After(s, limit, [StartFlush, Evict])) == Clip(DriveContent(s), s.node.size))
  {
    if BeginFlush(s, limit).flush.Idle? {
      After2(s, limit, StartFlush, Evict);
    }
  }

  /** An empty write past the end moves the size counter and not the file. What
      is read stays right; but the size shown, and the size the next flush
      declares for its upload, is the file's if and only if the write was not
      past the end. */
  lemma EmptyWritePastEnd(s: State, limit: Option<nat>, id: RpcId)
    requires Inv(s, limit) && Enabled(s, limit, Commit(id)) && !s.bufs[s.rpcs[id].buf].hollow
    requires s.rpcs[id].m.Write? && s.rpcs[id].m.data == []
    ensures var c, offset := s.rpcs[id].buf, s.rpcs[id].m.offset;
            var s' := Apply(s, limit, Commit(id));
            && s'.writer == Some(c) && c in s'.bufs && Served(s') == s'.spec == s.spec
            && (s'.bufs[c].size == |s'.bufs[c].file| <==> offset <= |s.spec|)
            && (FlushWanted(s') && BeginFlush(s', limit).flush.Reading? ==>
                  (BeginFlush(s', limit).flush.size == |s'.bufs[c].file| <==> offset <= |s.spec|))
  {
    assert RpcFine(s, s.rpcs[id]);
    CounterFollowsFile(s.bufs[s.rpcs[id].buf], s.rpcs[id].m);
  }

  // ---- what a listing shows ----

  /** A lookup may intern what it fetched before a flush or another lookup did.
      From then on the file is what that entry was: reads agree with the plain
      file if and only if that is the same. */
  lemma StaleListingRevivesContent(s: State, limit: Option<nat>, shown: Node)
    requires Inv(s, limit) && s.writer.None? && s.reader.None? && shown in s.past
    ensures Enabled(s, limit, Refresh(shown))
    ensures Served(Apply(s, limit, Refresh(shown))) == Content(s.store, shown.fileId)
    ensures Live(s, shown) ==> Content(s.store, shown.fileId) == s.spec
  {
    assert Clip(Content(s.store, shown.fileId), shown.size) == Content(s.store, shown.fileId);
  }

  lemma StartsFromNode(s: State, limit: Option<nat>, id: RpcId, m: Mutation, c: BufId, was: seq<byte>)
    requires s.writer.None? && id !in s.rpcs && c !in s.bufs && Accepted(limit, m) && NotEmptyWrite(m)
    requires Stored(s, s.node.fileId, s.node.size, was) && LockFree(AttachBuffer(StartRpc(s, id, m), id, c), c)
    ensures var steps := [StartMutation(id, m), Attach(id, c)] + Rest(Attached(m, c), id);
            && IsRun(s, limit, steps)
            && var s' := After(s, limit, steps);
            && s'.writer == Some(c) && c in s'.bufs && s'.spec == PlainApply(s.spec, m)
            && Served(s') == PlainApply(was, m)
  {
    var steps := [Attach(id, c)] + Rest(Attached(m, c), id);
    AttachesAndStartsOver(StartRpc(s, id, m), limit, id, c, was);
    AfterCons(s, limit, StartMutation(id, m), steps);
    assert [StartMutation(id, m)] + steps == [StartMutation(id, m), Attach(id, c)] + Rest(Attached(m, c), id);
  }

  /** A mutation then starts over from it. */
  lemma MutationOnStaleListing(s: State, limit: Option<nat>, shown: Node, id: RpcId, m: Mutation, c: BufId)
    requires Inv(s, limit) && s.writer.None? && shown in s.past
    requires id !in s.rpcs && c !in s.bufs && Accepted(limit, m) && NotEmptyWrite(m)
    ensures var steps := [Refresh(shown), StartMutation(id, m), Attach(id, c)] + Rest(Attached(m, c), id);
            && IsRun(s, limit, steps)
            && var s' := After(s, limit, steps);
            && s'.writer == Some(c) && c in s'.bufs && s'.spec == PlainApply(s.spec, m)
            && (Served(s') == s'.spec <==> Hides(Content(s.store, shown.fileId), s.spec, m))
  {
    var was := Content(s.store, shown.fileId);
    var steps := [StartMutation(id, m), Attach(id, c)] + Rest(Attached(m, c), id);
    var s1 := RefreshNode(s, shown);
    assert s1.rpcs[id := Cloned(m, shown)][id := Attached(m, c)] == s.rpcs[id := Attached(m, c)];
    NobodyLocksNew(s, AttachBuffer(StartRpc(s1, id, m), id, c), limit, id, m, c);
    StartsFromNode(s1, limit, id, m, c, was);
    AfterCons(s, limit, Refresh(shown), steps);
    assert [Refresh(shown)] + steps
        == [Refresh(shown), StartMutation(id, m), Attach(id, c)] + Rest(Attached(m, c), id);
    AgreeWhenHidden(was, s.spec, m);
  }

  // ---- creates without an answer ----

  /** No flush of this buffer can end any more: the entry it knows is not the
      one under the name, and never will be again. */
  ghost predicate Barred(s: State, c: BufId) {
    && c in s.bufs && s.bufs[c].existing != s.listed
    && (s.bufs[c].existing.Some? ==> WasListed(s, s.bufs[c].existing))
    && !(s.flush.Linked? && s.flush.buf == c)
  }

  predicate MayLand(step: Step) {
    step.LinkEntry? || step.FlushFails?
  }

  lemma BarredLanding(s: State, limit: Option<nat>, step: Step, c: BufId)
    requires Barred(s, c) && Enabled(s, limit, step) && MayLand(step)
    ensures Barred(Apply(s, limit, step), c)
  {
    if s.bufs[c].existing.Some? {
      StillListed(s, Apply(s, limit, step), s.bufs[c].existing);
    }
  }

  lemma BarredSnapshot(s: State, limit: Option<nat>, c: BufId)
    requires Barred(s, c) && FlushWanted(s)
    ensures Barred(BeginFlush(s, limit), c)
  {
    SnapshotFields(s, limit);
  }

  lemma BarredFlushStep(s: State, limit: Option<nat>, step: Step, c: BufId)
    requires Barred(s, c) && Enabled(s, limit, step) && IsServerStep(step) && !step.StartFlush? && !MayLand(step)
    ensures Barred(Apply(s, limit, step), c)
  {
  }

  lemma BarredPull(s: State, limit: Option<nat>, step: Step, c: BufId)
    requires Barred(s, c) && Enabled(s, limit, step) && PullsOrCommits(step)
    ensures Barred(Apply(s, limit, step), c)
  {
  }

  lemma BarredRpcStep(s: State, limit: Option<nat>, step: Step, c: BufId)
    requires Barred(s, c) && Enabled(s, limit, step) && !IsServerStep(step) && !PullsOrCommits(step)
    ensures Barred(Apply(s, limit, step), c)
  {
  }

  lemma BarredStays(s: State, limit: Option<nat>, step: Step, c: BufId)
    requires Barred(s, c) && Enabled(s, limit, step)
    ensures Barred(Apply(s, limit, step), c)
  {
    if MayLand(step) {
      BarredLanding(s, limit, step, c);
    } else if step.StartFlush? {
      BarredSnapshot(s, limit, c);
    } else if IsServerStep(step) {
      BarredFlushStep(s, limit, step, c);
    } else if PullsOrCommits(step) {
      BarredPull(s, limit, step, c);
    } else {
      BarredRpcStep(s, limit, step, c);
    }
  }

  /** Step `k` of the run ends a flush of this buffer. */
  ghost predicate EndsFlushOf(s: State, limit: Option<nat>, steps: seq<Step>, k: nat, c: BufId)
    requires IsRun(s, limit, steps) && k < |steps|
  {
    var f := StateAt(s, limit, steps, k).flush;
    steps[k].FinishFlush? && f.Linked? && f.buf == c
  }

  lemma {:induction false} BarredForGood(s: State, limit: Option<nat>, steps: seq<Step>, c: BufId, k: nat)
    requires Barred(s, c) && IsRun(s, limit, steps) && k < |steps|
    ensures Barred(StateAt(s, limit, steps, k), c) && !EndsFlushOf(s, limit, steps, k, c)
    decreases k
  {
    NextState(s, limit, steps, k);
    if k > 0 {
      BarredForGood(s, limit, steps, c, k - 1);
      NextState(s, limit, steps, k - 1);
      BarredStays(StateAt(s, limit, steps, k - 1), limit, steps[k - 1], c);
    }
  }

  lemma {:induction false} Unused(used: set<nat>) returns (n: nat)
    ensures n !in used && forall k | k in used :: k < n
  {
    n := 0;
    if used != {} {
      var k :| k in used;
      var m := Unused(used - {k});
      n := Max(m, k + 1);
      forall j | j in used
        ensures j < n
      {
        assert j == k || j in used - {k};
      }
    }
  }

  lemma UnusedUuid(s: State) returns (uuid: Uuid)
    ensures NewUuid(s, uuid)
  {
    uuid := Unused(s.entries.Keys + set n | n in s.past && n.uuid.Some? :: n.uuid.value);
    forall n | n in s.past
      ensures n.uuid != Some(uuid)
    {
      assert n.uuid.Some? ==> n.uuid.value in set n | n in s.past && n.uuid.Some? :: n.uuid.value;
    }
  }

  lemma LastStepEndsFlush(s: State, limit: Option<nat>, steps: seq<Step>)
    requires Inv(s, limit) && s.writer.Some? && IsCalmRun(s, limit, steps) && IsRun(s, limit, steps)
    requires steps != [] && steps[|steps| - 1] == FinishFlush && After(s, limit, steps).writer == s.writer
    ensures EndsFlushOf(s, limit, steps, |steps| - 1, s.writer.value)
  {
    var k := |steps| - 1;
    CalmRunKeeps(s, limit, steps, k);
    NextState(s, limit, steps, k);
    AllSteps(s, limit, steps);
    StepFrame(StateAt(s, limit, steps, k), limit, FinishFlush);
  }

  /** Whatever comes later, a flush of a dirty quiet buffer ends in some run if
      and only if the entry it knows is the one under the name or, without one,
      the name is free: no create has landed whose answer was lost. */
  lemma FlushEndsUnlessBarred(s: State, limit: Option<nat>)
    requires Inv(s, limit) && s.writer.Some? && s.bufs[s.writer.value].dirty
    requires s.flush.Idle? && s.rpcs == map[] && (s.spec != [] || s.bufs[s.writer.value].existing.Some?)
    ensures Linkable(s) <==> exists steps: seq<Step>, k: nat ::
              IsRun(s, limit, steps) && k < |steps| && EndsFlushOf(s, limit, steps, k, s.writer.value)
  {
    var c := s.writer.value;
    if Linkable(s) {
      var fileId := Unused(s.store.Keys);
      var uuid := UnusedUuid(s);
      if s.bufs[c].existing.Some? && s.spec != [] {
        uuid := s.bufs[c].existing.value;
      }
      QuietFlushLands(s, limit, fileId, uuid);
      var steps := QuietFlush(s, fileId, uuid);
      LastStepEndsFlush(s, limit, steps);
    } else {
      forall steps: seq<Step>, k: nat | IsRun(s, limit, steps) && k < |steps|
        ensures !EndsFlushOf(s, limit, steps, k, c)
      {
        BarredForGood(s, limit, steps, c, k);
      }
    }
  }

  /** The one other way out of such a buffer is to empty it: with no content and
      no entry it knows, it is dropped. The truncate then comes undone when a
      listing shows the entry the unanswered create left: if and only if there
      is one. */
  lemma UnansweredCreateUndoesTruncate(s: State, limit: Option<nat>)
    requires Inv(s, limit) && FlushWanted(s) && s.reader.None?
    requires s.bufs[s.writer.value].size == 0 && s.bufs[s.writer.value].existing.None?
    ensures IsRun(s, limit, [StartFlush, Evict])
    ensures var s' := After(s, limit, [StartFlush, Evict]);
            && s'.spec == [] && (s.listed.None? ==> Served(s') == [])
            && ((exists shown :: Live(s', shown) && Served(RefreshNode(s', shown)) != s'.spec) <==> s.listed.Some?)
  {
    OverLimitIsDropped(s, limit);
    var s' := After(s, limit, [StartFlush, Evict]);
    After2(s, limit, StartFlush, Evict);
    assert s'.entries == s.entries && s'.listed == s.listed && s'.store == s.store && s'.reader.None?;
    if s.listed.Some? {
      var shown := LiveNode(s);
      assert Live(s', shown) && shown in s.past;
      assert Served(RefreshNode(s', shown)) == Content(s.store, shown.fileId);
    }
  }
}
