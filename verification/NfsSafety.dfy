/** What every step of the NFS protocol keeps, whatever it is interleaved with. */
module NfsSafety {
  import opened Basics
  import opened NfsBuffer
  import opened NfsProtocol

  predicate IsRead(r: Rpc) {
    r.ReadAttached? || r.ReadSized? || r.ReadStream?
  }

  /** Reads, and mutations that look at the node as it is. */
  predicate MayOutliveBuffer(s: State, r: Rpc) {
    IsRead(r) || (r.Cloned? && r.node == s.node)
  }

  /** What Drive lists under the name now. */
  function LiveNode(s: State): Node
    requires s.listed.Some? && s.listed.value in s.entries
  {
    var e := s.entries[s.listed.value];
    Node(s.listed, e.fileId, e.size)
  }

  predicate Live(s: State, shown: Node) {
    s.listed.Some? && s.listed.value in s.entries && shown == LiveNode(s)
  }

  /** The guards the server does not check. A step outside them is possible;
      what it costs is proved in NfsLimits. */
  ghost predicate Calm(s: State, limit: Option<nat>, step: Step)
    requires Enabled(s, limit, step)
  {
    match step
    case Commit(id) =>
      var m, b := s.rpcs[id].m, s.bufs[s.rpcs[id].buf];
      && (m.Write? && m.data == [] ==> m.offset <= b.size)
      && Allowed(limit, |PlainApply(s.spec, m)|)
    case StartFlush =>
      var b := s.bufs[s.writer.value];
      b.size == 0 && b.existing.None? ==> s.listed.None?
    case Evict => forall id | id in s.rpcs :: MayOutliveBuffer(s, s.rpcs[id])
    case Refresh(shown) => Live(s, shown)
    case _ => true
  }

  ghost predicate SomeLocked(s: State) {
    exists id :: id in s.rpcs && s.rpcs[id].Locked?
  }

  /** A truncate to zero of this buffer that has not happened yet. */
  predicate Empties(r: Rpc, c: BufId) {
    (r.Ready? || r.Locked?) && r.buf == c && r.m == Truncate(0)
  }

  ghost predicate Emptying(s: State, c: BufId) {
    exists id :: id in s.rpcs && Empties(s.rpcs[id], c)
  }

  /** The node names the bytes `f`, and so does the Drive entry behind it. */
  ghost predicate OnDrive(s: State, f: seq<byte>) {
    && Stored(s, s.node.fileId, s.node.size, f)
    && s.node.uuid == s.listed && (s.listed.Some? ==> Live(s, s.node))
  }

  ghost predicate Settled(s: State) {
    OnDrive(s, s.spec)
  }

  ghost predicate RpcFine(s: State, r: Rpc) {
    && (HoldsBuffer(r) ==> r.buf in s.bufs && (s.writer == Some(r.buf) || (IsRead(r) && r.buf in s.frozen)))
    && (r.Ready? || r.Locked? || r.ReadSized? ==> s.bufs[r.buf].materialized)
    && (r.Cloned? && s.writer.None? ==> r.node == s.node)
    && (r.ReadStream? ==> Stored(s, r.reader.fileId, r.reader.size, r.snap))
  }

  ghost predicate Pullable(s: State, b: Buffer, f: seq<byte>) {
    Stored(s, b.base.fileId, b.base.size, f) && b.file <= f
  }

  /** A buffer without the Drive content, still or (`hollow`) for good. */
  ghost predicate Pristine(s: State, b: Buffer) {
    !b.dirty && s.flush.Idle? && Settled(s) && Pullable(s, b, s.spec)
  }

  /** A hollow file has zeros where content is missing, or ends before. */
  ghost predicate HollowFine(b: Buffer, spec: seq<byte>) {
    && |b.file| <= |spec|
    && (forall i | i in b.missing :: i < |spec| && (i < |b.file| ==> b.file[i] == 0))
    && (forall i | 0 <= i < |spec| && i !in b.missing :: i < |b.file| && b.file[i] == spec[i])
  }

  ghost predicate WasListed(s: State, uuid: Option<Uuid>) {
    exists n :: n in s.past && n.uuid == uuid
  }

  /** What the server knows of the file's entry: the node what the buffer knows
      or what is listed, and a clean buffer what is listed. */
  ghost predicate EntryKnown(s: State, b: Buffer) {
    && (b.existing.Some? ==> WasListed(s, b.existing))
    && (s.node.uuid == b.existing || s.node.uuid == s.listed)
    && (!b.dirty ==> b.existing == s.listed)
    && (b.existing.None? && s.listed.Some? ==> s.listed.value in s.entries && s.entries[s.listed.value].size > 0)
  }

  ghost predicate BufferFine(s: State, limit: Option<nat>, c: BufId, b: Buffer) {
    && EntryKnown(s, b)
    && b.size == |s.spec|
    && (b.dirty ==> b.materialized && Allowed(limit, |s.spec|))
    && (b.hollow ==> b.materialized && Emptying(s, c) && HollowFine(b, s.spec))
    && (!b.materialized ==> b.gen == 0)
    && ((!b.materialized || b.hollow) && b.gen == 0 ==> Pristine(s, b))
    && (b.materialized && !b.hollow ==> b.file == s.spec)
    && (b.materialized && !b.hollow && !b.dirty ==> Settled(s) || SomeLocked(s))
  }

  ghost predicate UploadFine(s: State, b: Buffer, gen: nat, size: nat, fileId: Option<FileId>) {
    && (fileId.Some? ==> fileId.value in s.store)
    && |Content(s.store, fileId)| == size
    && (gen == b.gen && !b.hollow ==> Content(s.store, fileId) == s.spec || SomeLocked(s))
  }

  ghost predicate FlushFine(s: State, c: BufId, b: Buffer) {
    s.flush.Idle? ||
    (&& s.flush.buf == c && b.dirty && s.flush.gen <= b.gen
     && (s.flush.gen == b.gen ==> s.flush.size == |s.spec|)
     && (b.existing.None? ==> s.flush.size > 0)
     && match s.flush
        case Reading(_, gen, _, torn) => torn ==> gen < b.gen || SomeLocked(s)
        case Uploaded(_, gen, size, fileId) => UploadFine(s, b, gen, size, fileId)
        case Linked(_, gen, size, fileId) =>
          && UploadFine(s, b, gen, size, fileId)
          && b.existing == s.listed && Live(s, Node(s.listed, fileId, size)))
  }

  /** An evicted buffer stays what the plain file was then. */
  ghost predicate OrphanFine(s: State, b: Buffer, f: seq<byte>) {
    && b.size == |f| && !b.hollow
    && (if b.materialized then b.file == f else Pullable(s, b, f))
  }

  ghost predicate OrphansFine(s: State) {
    forall c | c in s.frozen :: c in s.bufs && s.writer != Some(c) && OrphanFine(s, s.bufs[c], s.frozen[c])
  }

  ghost predicate RpcsFine(s: State) {
    && (forall id | id in s.rpcs :: RpcFine(s, s.rpcs[id]))
    && (forall i, j | i in s.rpcs && j in s.rpcs && s.rpcs[i].Locked? && s.rpcs[j].Locked? :: i == j)
  }

  ghost predicate NodeFine(s: State) {
    && (s.node.uuid.None? ==> s.node.fileId.None? && s.node.size == |s.spec|)
    && (s.reader.Some? ==> Stored(s, s.reader.value.fileId, s.reader.value.size, s.spec))
  }

  ghost predicate WriterFine(s: State, limit: Option<nat>) {
    match s.writer
    case None => s.flush.Idle? && Settled(s)
    case Some(c) => c in s.bufs && BufferFine(s, limit, c, s.bufs[c]) && FlushFine(s, c, s.bufs[c])
  }

  /** Everything ever listed is there to be fetched, what is listed now too. */
  ghost predicate PastFine(s: State) {
    && (s.listed.Some? ==> s.listed.value in s.entries && LiveNode(s) in s.past)
    && forall n | n in s.past ::
         n.uuid.Some? && (n.fileId.Some? ==> n.fileId.value in s.store) && |Content(s.store, n.fileId)| == n.size
  }

  ghost predicate Inv(s: State, limit: Option<nat>) {
    NodeFine(s) && PastFine(s) && RpcsFine(s) && OrphansFine(s) && WriterFine(s, limit)
  }

  /** Moving an RPC that holds no lock leaves every lock held. */
  lemma LockedStays(s: State, s': State, id: RpcId)
    requires id in s.rpcs ==> !s.rpcs[id].Locked?
    requires forall k | k in s.rpcs && k != id :: k in s'.rpcs && s'.rpcs[k] == s.rpcs[k]
    ensures SomeLocked(s) ==> SomeLocked(s')
  {
    if SomeLocked(s) {
      var k :| k in s.rpcs && s.rpcs[k].Locked?;
      assert k in s'.rpcs && s'.rpcs[k].Locked?;
    }
  }

  /** Nor does moving one that is not about to empty a buffer call it off. */
  lemma EmptyingStays(s: State, s': State, id: RpcId, c: BufId)
    requires id in s.rpcs && Empties(s.rpcs[id], c) ==> id in s'.rpcs && Empties(s'.rpcs[id], c)
    requires forall k | k in s.rpcs && k != id :: k in s'.rpcs && s'.rpcs[k] == s.rpcs[k]
    ensures Emptying(s, c) ==> Emptying(s', c)
  {
    if Emptying(s, c) {
      var k :| k in s.rpcs && Empties(s.rpcs[k], c);
      assert k in s'.rpcs && Empties(s'.rpcs[k], c);
    }
  }

  // ---- what stays where it is ----

  predicate StoreGrows(s: State, s': State) {
    forall k | k in s.store :: k in s'.store && s'.store[k] == s.store[k]
  }

  /** Everything an RPC in flight relies on. */
  ghost predicate Hospitable(s: State, s': State) {
    && s'.writer == s.writer && s'.frozen == s.frozen && StoreGrows(s, s')
    && (s.writer.None? ==> s'.node == s.node)
    && (forall c | c in s.bufs :: c in s'.bufs && (s.bufs[c].materialized ==> s'.bufs[c].materialized))
  }

  lemma RpcStays(s: State, s': State, r: Rpc)
    requires RpcFine(s, r) && Hospitable(s, s')
    ensures RpcFine(s', r)
  {
  }

  /** All RPCs but one stay, and that one ends up fine. */
  lemma RpcsStay(s: State, s': State, id: RpcId)
    requires RpcsFine(s) && Hospitable(s, s')
    requires forall k | k != id :: (k in s.rpcs <==> k in s'.rpcs) && (k in s.rpcs ==> s'.rpcs[k] == s.rpcs[k])
    requires id in s'.rpcs ==> RpcFine(s', s'.rpcs[id])
    requires id in s'.rpcs && s'.rpcs[id].Locked? ==> !SomeLocked(s) || (id in s.rpcs && s.rpcs[id].Locked?)
    ensures RpcsFine(s')
  {
    forall k | k in s'.rpcs
      ensures RpcFine(s', s'.rpcs[k])
    {
      if k != id {
        RpcStays(s, s', s.rpcs[k]);
      }
    }
  }

  lemma AllRpcsStay(s: State, s': State)
    requires RpcsFine(s) && Hospitable(s, s') && s'.rpcs == s.rpcs
    ensures RpcsFine(s') && (SomeLocked(s) <==> SomeLocked(s'))
  {
    forall k | k in s'.rpcs
      ensures RpcFine(s', s'.rpcs[k])
    {
      RpcStays(s, s', s.rpcs[k]);
    }
  }

  lemma OrphansStay(s: State, s': State)
    requires OrphansFine(s) && StoreGrows(s, s') && s'.frozen == s.frozen
    requires s'.writer == s.writer || (s'.writer.Some? && s'.writer.value !in s.bufs)
    requires forall c | c in s.frozen :: c in s'.bufs && s'.bufs[c] == s.bufs[c]
    ensures OrphansFine(s')
  {
    forall c | c in s'.frozen
      ensures OrphanFine(s', s'.bufs[c], s'.frozen[c])
    {
      assert OrphanFine(s, s.bufs[c], s.frozen[c]);
    }
  }

  /** The writer's own state when only RPCs and the cached reader move. */
  lemma WriterStays(s: State, s': State, limit: Option<nat>)
    requires WriterFine(s, limit) && s' == s.(rpcs := s'.rpcs, reader := s'.reader)
    requires SomeLocked(s) ==> SomeLocked(s')
    requires s.writer.Some? && Emptying(s, s.writer.value) ==> Emptying(s', s.writer.value)
    ensures WriterFine(s', limit)
  {
  }

  /** Only one RPC moves, and it neither holds the lock nor waits for it. */
  lemma RpcMoveKeeps(s: State, s': State, limit: Option<nat>, id: RpcId)
    requires Inv(s, limit) && s' == s.(rpcs := s'.rpcs, reader := s'.reader) && NodeFine(s')
    requires forall k | k != id :: (k in s.rpcs <==> k in s'.rpcs) && (k in s.rpcs ==> s'.rpcs[k] == s.rpcs[k])
    requires id in s.rpcs ==> !s.rpcs[id].Locked? && !s.rpcs[id].Ready?
    requires id in s'.rpcs ==> !s'.rpcs[id].Locked? && RpcFine(s', s'.rpcs[id])
    ensures Inv(s', limit)
  {
    RpcsStay(s, s', id);
    OrphansStay(s, s');
    LockedStays(s, s', id);
    if s.writer.Some? {
      EmptyingStays(s, s', id, s.writer.value);
    }
    WriterStays(s, s', limit);
  }

  // ---- RPCs ----

  lemma StartMutationKeeps(s: State, limit: Option<nat>, step: Step)
    requires Inv(s, limit) && Enabled(s, limit, step) && step.StartMutation?
    ensures Inv(Apply(s, limit, step), limit)
  {
    RpcMoveKeeps(s, Apply(s, limit, step), limit, step.rpc);
  }

  lemma NewBufferKeeps(s: State, limit: Option<nat>, id: RpcId, c: BufId)
    requires Inv(s, limit) && Enabled(s, limit, Attach(id, c)) && s.writer.None?
    ensures Inv(Apply(s, limit, Attach(id, c)), limit)
  {
    var s' := Apply(s, limit, Attach(id, c));
    assert RpcFine(s, s.rpcs[id]);
    assert BufferFine(s', limit, c, NewBuffer(s.node));
    forall k | k in s'.rpcs
      ensures RpcFine(s', s'.rpcs[k]) && !s'.rpcs[k].Locked?
    {
      assert k != id ==> RpcFine(s, s.rpcs[k]);
    }
    OrphansStay(s, s');
  }

  lemma AttachKeeps(s: State, limit: Option<nat>, step: Step)
    requires Inv(s, limit) && Enabled(s, limit, step) && step.Attach?
    ensures Inv(Apply(s, limit, step), limit)
  {
    if s.writer.Some? {
      RpcMoveKeeps(s, Apply(s, limit, step), limit, step.rpc);
    } else {
      NewBufferKeeps(s, limit, step.rpc, step.newBuf);
    }
  }

  lemma PulledWriterIsFine(s: State, s': State, limit: Option<nat>, c: BufId)
    requires WriterFine(s, limit) && s.writer == Some(c) && c in s'.bufs && (SomeLocked(s) ==> SomeLocked(s'))
    requires s' == s.(bufs := s'.bufs, rpcs := s'.rpcs) && (s.bufs[c].materialized ==> s'.bufs[c] == s.bufs[c])
    requires BufferFine(s', limit, c, s'.bufs[c])
    ensures WriterFine(s', limit)
  {
  }

  lemma PulledOrphanIsFine(s: State, s': State, c: BufId)
    requires OrphansFine(s) && c in s.frozen && c in s'.bufs && OrphanFine(s', s'.bufs[c], s.frozen[c]) && s.writer != Some(c)
    requires s' == s.(bufs := s.bufs[c := s'.bufs[c]], rpcs := s'.rpcs)
    ensures OrphansFine(s')
  {
    forall k | k in s'.frozen
      ensures k in s'.bufs && s'.writer != Some(k) && OrphanFine(s', s'.bufs[k], s'.frozen[k])
    {
      assert OrphanFine(s, s.bufs[k], s.frozen[k]);
    }
  }

  lemma OtherBufferPulled(s: State, s': State, limit: Option<nat>, c: BufId)
    requires WriterFine(s, limit) && s.writer != Some(c) && (SomeLocked(s) ==> SomeLocked(s'))
    requires c in s'.bufs && s' == s.(bufs := s.bufs[c := s'.bufs[c]], rpcs := s'.rpcs)
    requires s.writer.Some? && Emptying(s, s.writer.value) ==> Emptying(s', s.writer.value)
    ensures WriterFine(s', limit)
  {
  }

  /** A buffer pulls its content, or part of it, for an RPC that holds it. */
  lemma PullKeeps(s: State, s': State, limit: Option<nat>, id: RpcId, c: BufId)
    requires Inv(s, limit) && id in s.rpcs && (s.rpcs[id].Attached? || s.rpcs[id].ReadAttached?)
    requires c == s.rpcs[id].buf && c in s.bufs && c in s'.bufs
    requires s' == s.(bufs := s.bufs[c := s'.bufs[c]], rpcs := s'.rpcs)
    requires forall k | k != id :: (k in s.rpcs <==> k in s'.rpcs) && (k in s.rpcs ==> s'.rpcs[k] == s.rpcs[k])
    requires id in s'.rpcs ==> !s'.rpcs[id].Locked? && HoldsBuffer(s'.rpcs[id]) && s'.rpcs[id].buf == c
                               && (s.rpcs[id].Attached? || IsRead(s'.rpcs[id]))
                               && (s'.rpcs[id].Ready? || s'.rpcs[id].ReadSized? ==> s'.bufs[c].materialized)
    requires s.bufs[c].materialized ==> s'.bufs[c] == s.bufs[c]
    requires s.writer == Some(c) ==> BufferFine(s', limit, c, s'.bufs[c])
    requires s.writer != Some(c) ==> OrphanFine(s', s'.bufs[c], s.frozen[c])
    requires SomeLocked(s) ==> SomeLocked(s')
    ensures Inv(s', limit)
  {
    assert RpcFine(s, s.rpcs[id]);
    RpcsStay(s, s', id);
    if s.writer == Some(c) {
      OrphansStay(s, s');
      PulledWriterIsFine(s, s', limit, c);
    } else {
      PulledOrphanIsFine(s, s', c);
      if s.writer.Some? {
        EmptyingStays(s, s', id, s.writer.value);
      }
      OtherBufferPulled(s, s', limit, c);
    }
  }

  /** What a download over a partly pulled file leaves. */
  lemma PullFills(s: State, b: Buffer, f: seq<byte>)
    requires Pullable(s, b, f) && !b.materialized && b.size == |f|
    ensures var m := Materialized(b, Content(s.store, b.base.fileId));
            m.file == f && m.size == |f| && m == b.(file := m.file, size := m.size, materialized := true)
  {
    OverwritePrefix(b.file, f);
  }

  lemma PartPulls(s: State, b: Buffer, f: seq<byte>, got: nat)
    requires Pullable(s, b, f) && !b.materialized && got <= |Content(s.store, b.base.fileId)|
    ensures var m := PartlyMaterialized(b, Content(s.store, b.base.fileId), got);
            m.file <= f && m == b.(file := m.file)
  {
    OverwriteStaysPrefix(b.file, f, got);
  }

  /** And what it makes of a buffer in use or evicted. */
  lemma PulledIsFine(s: State, s': State, limit: Option<nat>, c: BufId, b: Buffer)
    requires s' == s.(bufs := s'.bufs, rpcs := s'.rpcs) && !b.materialized
    requires (SomeLocked(s) ==> SomeLocked(s')) && (Emptying(s, c) ==> Emptying(s', c))
    ensures BufferFine(s, limit, c, b) ==>
              BufferFine(s', limit, c, Materialized(b, Content(s.store, b.base.fileId)))
    ensures forall f | OrphanFine(s, b, f) :: OrphanFine(s', Materialized(b, Content(s.store, b.base.fileId)), f)
  {
    if BufferFine(s, limit, c, b) {
      PullFills(s, b, s.spec);
    }
    forall f | OrphanFine(s, b, f)
      ensures OrphanFine(s', Materialized(b, Content(s.store, b.base.fileId)), f)
    {
      PullFills(s, b, f);
    }
  }

  lemma PulledStays(s: State, s': State, limit: Option<nat>, id: RpcId, c: BufId)
    requires Inv(s, limit) && RpcAt(s, id) && (s.rpcs[id].Attached? || s.rpcs[id].ReadAttached?) && c == s.rpcs[id].buf
    requires s' == Pull(s, id) && (SomeLocked(s) ==> SomeLocked(s')) && (Emptying(s, c) ==> Emptying(s', c))
    ensures s.writer == Some(c) ==> BufferFine(s', limit, c, s'.bufs[c])
    ensures s.writer != Some(c) ==> c in s.frozen && OrphanFine(s', s'.bufs[c], s.frozen[c])
  {
    assert RpcFine(s, s.rpcs[id]);
    if !s.bufs[c].materialized {
      PulledIsFine(s, s', limit, c, s.bufs[c]);
    }
  }

  lemma MaterializeKeeps(s: State, limit: Option<nat>, step: Step)
    requires Inv(s, limit) && Enabled(s, limit, step) && step.Materialize?
    ensures Inv(Apply(s, limit, step), limit)
  {
    var id, s' := step.rpc, Pull(s, step.rpc);
    var c := s.rpcs[id].buf;
    LockedStays(s, s', id);
    EmptyingStays(s, s', id, c);
    PulledStays(s, s', limit, id, c);
    PullKeeps(s, s', limit, id, c);
  }

  lemma MaterializeFailsKeeps(s: State, limit: Option<nat>, step: Step)
    requires Inv(s, limit) && Enabled(s, limit, step) && step.MaterializeFails?
    ensures Inv(Apply(s, limit, step), limit)
  {
    var id, s' := step.rpc, Apply(s, limit, step);
    var c := s.rpcs[id].buf;
    assert RpcFine(s, s.rpcs[id]);
    LockedStays(s, s', id);
    EmptyingStays(s, s', id, c);
    PartPulls(s, s.bufs[c], if s.writer == Some(c) then s.spec else s.frozen[c], step.got);
    PullKeeps(s, s', limit, id, c);
  }

  /** Skipping the download leaves a beginning of the content and no more. */
  lemma DeclaredIsFine(s: State, s': State, limit: Option<nat>, c: BufId, b: Buffer)
    requires BufferFine(s, limit, c, b) && s' == s.(bufs := s'.bufs, rpcs := s'.rpcs)
    requires Emptying(s', c) && (SomeLocked(s) ==> SomeLocked(s'))
    ensures BufferFine(s', limit, c, DeclaredEmpty(b))
  {
  }

  lemma DeclareEmptyKeeps(s: State, limit: Option<nat>, step: Step)
    requires Inv(s, limit) && Enabled(s, limit, step) && step.DeclareEmpty?
    ensures Inv(Apply(s, limit, step), limit)
  {
    var id, s' := step.rpc, SkipPull(s, step.rpc);
    var c := s.rpcs[id].buf;
    assert RpcFine(s, s.rpcs[id]);
    LockedStays(s, s', id);
    assert id in s'.rpcs && Empties(s'.rpcs[id], c);
    DeclaredIsFine(s, s', limit, c, s.bufs[c]);
    PullKeeps(s, s', limit, id, c);
  }

  /** Whoever holds a file lock holds the current buffer's. */
  lemma NobodyElseLocks(s: State, c: BufId)
    requires RpcsFine(s) && s.writer == Some(c) && LockFree(s, c)
    ensures !SomeLocked(s)
  {
    forall k | k in s.rpcs
      ensures !s.rpcs[k].Locked?
    {
      assert RpcFine(s, s.rpcs[k]);
    }
  }

  /** Taking the lock tears an upload that is being read. */
  lemma LockedIsFine(s: State, limit: Option<nat>, id: RpcId)
    requires Inv(s, limit) && Enabled(s, limit, TakeLock(id)) && s.writer == Some(s.rpcs[id].buf)
    requires SomeLocked(LockFile(s, id)) && (Emptying(s, s.rpcs[id].buf) ==> Emptying(LockFile(s, id), s.rpcs[id].buf))
    ensures WriterFine(LockFile(s, id), limit)
  {
  }

  lemma LockKeeps(s: State, limit: Option<nat>, id: RpcId)
    requires Inv(s, limit) && Enabled(s, limit, TakeLock(id))
    ensures Inv(Apply(s, limit, TakeLock(id)), limit)
  {
    var s', c := LockFile(s, id), s.rpcs[id].buf;
    assert RpcFine(s, s.rpcs[id]);
    assert SomeLocked(s') by {
      assert id in s'.rpcs && s'.rpcs[id].Locked?;
    }
    NobodyElseLocks(s, c);
    RpcsStay(s, s', id);
    OrphansStay(s, s');
    EmptyingStays(s, s', id, c);
    LockedIsFine(s, limit, id);
  }

  /** The plain file's size even if the content is not there. */
  lemma CommittedSize(b: Buffer, m: Mutation, spec: seq<byte>)
    requires b.size == |spec| && (m.Write? && m.data == [] ==> m.offset <= b.size)
    ensures Committed(b, m).size == |PlainApply(spec, m)|
  {
    if m.Write? && m.data != [] {
      WriteFileAt(spec, m.offset, m.data, 0);
    }
  }

  lemma HollowWrite(b: Buffer, offset: nat, data: seq<byte>, spec: seq<byte>)
    requires b.hollow && HollowFine(b, spec)
    requires data == [] ==> offset <= |spec|
    ensures HollowFine(Committed(b, Write(offset, data)), WriteFile(spec, offset, data))
  {
    var b', spec' := Committed(b, Write(offset, data)), WriteFile(spec, offset, data);
    if data != [] {
      WriteFileAt(b.file, offset, data, 0);
      WriteFileAt(spec, offset, data, 0);
      forall i: nat | i < |spec'|
        ensures i !in b'.missing ==> i < |b'.file| && b'.file[i] == spec'[i]
        ensures i in b'.missing && i < |b'.file| ==> b'.file[i] == 0
      {
        WriteFileAt(b.file, offset, data, i);
        WriteFileAt(spec, offset, data, i);
      }
    } else {
      assert b'.missing == b.missing;
    }
  }

  lemma HollowCommit(b: Buffer, m: Mutation, spec: seq<byte>)
    requires b.hollow && HollowFine(b, spec) && b.size == |spec| && m != Truncate(0)
    requires m.Write? && m.data == [] ==> m.offset <= b.size
    ensures HollowFine(Committed(b, m), PlainApply(spec, m))
  {
    match m
    case Write(offset, data) => HollowWrite(b, offset, data, spec);
    case Truncate(size) =>
  }

  lemma CommittedIsFine(s: State, limit: Option<nat>, id: RpcId)
    requires Inv(s, limit) && Enabled(s, limit, Commit(id)) && Calm(s, limit, Commit(id))
    ensures var s' := Apply(s, limit, Commit(id));
            var c := s.rpcs[id].buf;
            s.writer == Some(c) && c in s'.bufs && BufferFine(s', limit, c, s'.bufs[c])
  {
    var s' := Apply(s, limit, Commit(id));
    var m, c := s.rpcs[id].m, s.rpcs[id].buf;
    assert RpcFine(s, s.rpcs[id]);
    CommittedSize(s.bufs[c], m, s.spec);
    if m != Truncate(0) {
      EmptyingStays(s, s', id, c);
      if s.bufs[c].hollow {
        HollowCommit(s.bufs[c], m, s.spec);
      }
    } else {
      assert s'.bufs[c].file == s'.spec;
    }
  }

  /** A flush in flight is now behind. */
  lemma CommitLeavesFlush(s: State, id: RpcId)
    requires RpcAt(s, id) && s.rpcs[id].Locked? && FlushFine(s, s.rpcs[id].buf, s.bufs[s.rpcs[id].buf])
    ensures var c := s.rpcs[id].buf;
            FlushFine(CommitRpc(s, id), c, CommitRpc(s, id).bufs[c])
  {
  }

  lemma CommitLeavesRest(s: State, limit: Option<nat>, id: RpcId)
    requires Inv(s, limit) && Enabled(s, limit, Commit(id)) && s.writer == Some(s.rpcs[id].buf)
    ensures var s' := CommitRpc(s, id);
            PastFine(s') && RpcsFine(s') && OrphansFine(s')
  {
    RpcsStay(s, CommitRpc(s, id), id);
    OrphansStay(s, CommitRpc(s, id));
  }

  lemma CommitKeeps(s: State, limit: Option<nat>, id: RpcId)
    requires Inv(s, limit) && Enabled(s, limit, Commit(id)) && Calm(s, limit, Commit(id))
    ensures Inv(Apply(s, limit, Commit(id)), limit)
  {
    CommittedIsFine(s, limit, id);
    CommitLeavesRest(s, limit, id);
    CommitLeavesFlush(s, id);
  }

  lemma StartReadKeeps(s: State, limit: Option<nat>, step: Step)
    requires Inv(s, limit) && Enabled(s, limit, step) && step.StartRead?
    ensures Inv(Apply(s, limit, step), limit)
  {
    RpcMoveKeeps(s, Apply(s, limit, step), limit, step.rpc);
  }

  lemma ReadKeeps(s: State, limit: Option<nat>, step: Step)
    requires Inv(s, limit) && Enabled(s, limit, step)
    requires step.StartRead? || step.LoadSize? || step.FinishRead?
    ensures Inv(Apply(s, limit, step), limit)
  {
    if step.StartRead? {
      StartReadKeeps(s, limit, step);
    } else {
      RpcMoveKeeps(s, Apply(s, limit, step), limit, step.rpc);
    }
  }

  // ---- flush, sweep and listing ----

  lemma SnapshotFields(s: State, limit: Option<nat>)
    requires FlushWanted(s)
    ensures var s', c := BeginFlush(s, limit), s.writer.value;
            && c in s'.bufs && s' == s.(bufs := s.bufs[c := s'.bufs[c]], flush := s'.flush)
            && s'.bufs[c] == s.bufs[c].(dirty := s'.bufs[c].dirty)
            && (s'.flush.Idle? || (!s'.flush.Linked? && s'.flush.buf == c))
  {
  }

  /** Steps of the flush after the snapshot leave RPCs and orphans alone. */
  lemma FlushLeavesRest(s: State, s': State)
    requires RpcsFine(s) && OrphansFine(s) && Hospitable(s, s') && s'.rpcs == s.rpcs
    requires forall c | c in s.frozen :: c in s'.bufs && s'.bufs[c] == s.bufs[c]
    ensures RpcsFine(s') && OrphansFine(s') && (SomeLocked(s) <==> SomeLocked(s'))
    ensures s.writer.Some? ==> (Emptying(s, s.writer.value) <==> Emptying(s', s.writer.value))
  {
    AllRpcsStay(s, s');
    OrphansStay(s, s');
    if s.writer.Some? {
      EmptyingStays(s, s', 0, s.writer.value);
      EmptyingStays(s', s, 0, s.writer.value);
    }
  }

  lemma SnapshotLeavesRest(s: State, limit: Option<nat>)
    requires Inv(s, limit) && FlushWanted(s)
    ensures var s' := BeginFlush(s, limit);
            && NodeFine(s') && RpcsFine(s') && OrphansFine(s')
            && (Emptying(s, s.writer.value) ==> Emptying(s', s.writer.value))
  {
    SnapshotFields(s, limit);
    FlushLeavesRest(s, BeginFlush(s, limit));
  }

  lemma SnapshotIsFine(s: State, limit: Option<nat>)
    requires Inv(s, limit) && FlushWanted(s) && Calm(s, limit, StartFlush) && !SomeLocked(s)
    requires Emptying(s, s.writer.value) ==> Emptying(BeginFlush(s, limit), s.writer.value)
    ensures WriterFine(BeginFlush(s, limit), limit)
  {
    var b := s.bufs[s.writer.value];
    assert Allowed(limit, b.size);
    if b.size == 0 && b.existing.None? {
      assert Settled(BeginFlush(s, limit));
    }
  }

  lemma SnapshotKeeps(s: State, limit: Option<nat>)
    requires Inv(s, limit) && FlushWanted(s) && Calm(s, limit, StartFlush)
    ensures Inv(BeginFlush(s, limit), limit)
  {
    NobodyElseLocks(s, s.writer.value);
    SnapshotLeavesRest(s, limit);
    SnapshotIsFine(s, limit);
  }

  lemma UploadedIsFine(s: State, limit: Option<nat>, step: Step)
    requires Inv(s, limit) && Enabled(s, limit, step) && step.FinishUpload?
    requires SomeLocked(s) <==> SomeLocked(Apply(s, limit, step))
    requires Emptying(s, s.flush.buf) ==> Emptying(Apply(s, limit, step), s.flush.buf)
    ensures WriterFine(Apply(s, limit, step), limit)
  {
    assert Clip(s.spec, |s.spec|) == s.spec;
  }

  lemma UploadKeeps(s: State, limit: Option<nat>, step: Step)
    requires Inv(s, limit) && Enabled(s, limit, step) && step.FinishUpload?
    ensures Inv(Apply(s, limit, step), limit)
  {
    FlushLeavesRest(s, Apply(s, limit, step));
    UploadedIsFine(s, limit, step);
  }

  /** What an upload links is then listed, and there to be fetched. */
  lemma LandedIsListed(s: State, existing: Option<Uuid>, uuid: Uuid)
    requires PastFine(s) && s.flush.Uploaded? && |Content(s.store, s.flush.fileId)| == s.flush.size
    requires s.flush.fileId.Some? ==> s.flush.fileId.value in s.store
    ensures var s' := Landed(s, existing, uuid);
            PastFine(s') && Live(s', Node(Some(uuid), s.flush.fileId, s.flush.size)) && WasListed(s', Some(uuid))
  {
    assert Node(Some(uuid), s.flush.fileId, s.flush.size) in Landed(s, existing, uuid).past;
  }

  lemma StillListed(s: State, s': State, uuid: Option<Uuid>)
    requires s.past <= s'.past && WasListed(s, uuid)
    ensures WasListed(s', uuid)
  {
    var n :| n in s.past && n.uuid == uuid;
    assert n in s'.past;
  }

  /** What a flush step has to leave of the buffer it flushes. */
  ghost predicate FlushedFine(s: State, s': State, limit: Option<nat>) {
    (SomeLocked(s) <==> SomeLocked(s')) && (s.writer.Some? && Emptying(s, s.writer.value) ==> Emptying(s', s.writer.value)) ==>
      NodeFine(s') && PastFine(s') && WriterFine(s', limit)
  }

  lemma LinkedIsFine(s: State, limit: Option<nat>, uuid: Uuid)
    requires Inv(s, limit) && Enabled(s, limit, LinkEntry(uuid))
    ensures FlushedFine(s, Link(s, uuid), limit)
  {
    LandedIsListed(s, s.bufs[s.flush.buf].existing, uuid);
  }

  lemma LinkKeeps(s: State, limit: Option<nat>, step: Step)
    requires Inv(s, limit) && Enabled(s, limit, step) && step.LinkEntry?
    ensures Inv(Apply(s, limit, step), limit)
  {
    LinkedIsFine(s, limit, step.uuid);
    FlushLeavesRest(s, Link(s, step.uuid));
  }

  lemma FinishedIsFine(s: State, limit: Option<nat>)
    requires Inv(s, limit) && Enabled(s, limit, FinishFlush)
    ensures FlushedFine(s, EndFlush(s), limit)
  {
  }

  lemma FinishKeeps(s: State, limit: Option<nat>, step: Step)
    requires Inv(s, limit) && Enabled(s, limit, step) && step.FinishFlush?
    ensures Inv(Apply(s, limit, step), limit)
  {
    FinishedIsFine(s, limit);
    FlushLeavesRest(s, EndFlush(s));
  }

  /** An unanswered success: the buffer stays dirty, and may not know the entry
      any more. */
  lemma UnansweredIsFine(s: State, limit: Option<nat>, uuid: Uuid)
    requires Inv(s, limit) && Enabled(s, limit, FlushFails(Some(uuid)))
    requires var s' := FailFlush(s, Some(uuid));
             && (SomeLocked(s) <==> SomeLocked(s')) && (Emptying(s, s.flush.buf) ==> Emptying(s', s.flush.buf))
    ensures PastFine(FailFlush(s, Some(uuid))) && WriterFine(FailFlush(s, Some(uuid)), limit)
  {
    var b := s.bufs[s.flush.buf];
    LandedIsListed(s, b.existing, uuid);
    if b.existing.Some? {
      StillListed(s, FailFlush(s, Some(uuid)), b.existing);
    }
  }

  lemma UnansweredKeeps(s: State, limit: Option<nat>, uuid: Uuid)
    requires Inv(s, limit) && Enabled(s, limit, FlushFails(Some(uuid)))
    ensures Inv(FailFlush(s, Some(uuid)), limit)
  {
    FlushLeavesRest(s, FailFlush(s, Some(uuid)));
    UnansweredIsFine(s, limit, uuid);
  }

  lemma FailureKeeps(s: State, limit: Option<nat>, step: Step)
    requires Inv(s, limit) && Enabled(s, limit, step) && step.FlushFails?
    ensures Inv(Apply(s, limit, step), limit)
  {
    if step.landed.Some? {
      UnansweredKeeps(s, limit, step.landed.value);
    } else {
      FlushLeavesRest(s, s.(flush := Idle));
    }
  }

  lemma RefreshedIsFine(s: State, limit: Option<nat>, shown: Node)
    requires Inv(s, limit) && Live(s, shown)
    ensures FlushedFine(s, RefreshNode(s, shown), limit)
  {
  }

  lemma RefreshKeeps(s: State, limit: Option<nat>, shown: Node)
    requires Inv(s, limit) && Enabled(s, limit, Refresh(shown)) && Live(s, shown)
    ensures Inv(Apply(s, limit, Refresh(shown)), limit)
  {
    RefreshedIsFine(s, limit, shown);
    FlushLeavesRest(s, RefreshNode(s, shown));
  }

  /** With reads only in flight a clean buffer is what Drive holds. */
  lemma QuietBufferIsSettled(s: State, limit: Option<nat>, c: BufId)
    requires Inv(s, limit) && s.writer == Some(c) && !s.bufs[c].dirty
    requires forall id | id in s.rpcs :: IsRead(s.rpcs[id]) || s.rpcs[id].Cloned?
    ensures !s.bufs[c].hollow && Settled(s) && s.flush.Idle? && OrphanFine(s, s.bufs[c], s.spec)
  {
    assert !SomeLocked(s) && !Emptying(s, c);
  }

  lemma EvictKeeps(s: State, limit: Option<nat>)
    requires Inv(s, limit) && Enabled(s, limit, Evict) && Calm(s, limit, Evict)
    ensures Inv(Apply(s, limit, Evict), limit)
  {
    var s', c := Apply(s, limit, Evict), s.writer.value;
    QuietBufferIsSettled(s, limit, c);
    forall k | k in s'.rpcs
      ensures RpcFine(s', s'.rpcs[k]) && !s'.rpcs[k].Locked?
    {
      assert RpcFine(s, s.rpcs[k]);
    }
    forall k | k in s'.frozen
      ensures k in s'.bufs && s'.writer != Some(k) && OrphanFine(s', s'.bufs[k], s'.frozen[k])
    {
      assert k != c ==> OrphanFine(s, s.bufs[k], s.frozen[k]);
    }
  }

  lemma RpcStepKeeps(s: State, limit: Option<nat>, step: Step)
    requires Inv(s, limit) && Enabled(s, limit, step) && Calm(s, limit, step) && !IsServerStep(step)
    ensures Inv(Apply(s, limit, step), limit)
  {
    match step
    case StartMutation(_, _) => StartMutationKeeps(s, limit, step);
    case Attach(_, _) => AttachKeeps(s, limit, step);
    case Materialize(_) => MaterializeKeeps(s, limit, step);
    case MaterializeFails(_, _) => MaterializeFailsKeeps(s, limit, step);
    case DeclareEmpty(_) => DeclareEmptyKeeps(s, limit, step);
    case TakeLock(id) => LockKeeps(s, limit, id);
    case Commit(id) => CommitKeeps(s, limit, id);
    case _ => ReadKeeps(s, limit, step);
  }

  lemma FlushStepKeeps(s: State, limit: Option<nat>, step: Step)
    requires Inv(s, limit) && Enabled(s, limit, step) && Calm(s, limit, step) && IsFlushStep(step)
    ensures Inv(Apply(s, limit, step), limit)
  {
    match step
    case StartFlush => SnapshotKeeps(s, limit);
    case FinishUpload(_, _) => UploadKeeps(s, limit, step);
    case LinkEntry(_) => LinkKeeps(s, limit, step);
    case FinishFlush => FinishKeeps(s, limit, step);
    case FlushFails(_) => FailureKeeps(s, limit, step);
  }

  lemma StepKeeps(s: State, limit: Option<nat>, step: Step)
    requires Inv(s, limit) && Enabled(s, limit, step) && Calm(s, limit, step)
    ensures Inv(Apply(s, limit, step), limit)
  {
    if IsFlushStep(step) {
      FlushStepKeeps(s, limit, step);
    } else if step.Evict? {
      EvictKeeps(s, limit);
    } else if step.Refresh? {
      RefreshKeeps(s, limit, step.shown);
    } else {
      RpcStepKeeps(s, limit, step);
    }
  }
}
