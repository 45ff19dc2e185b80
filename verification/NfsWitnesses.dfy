/** States some run leads to, in which the limits of the NFS write path bite. */
module NfsWitnesses {
  import opened Basics
  import opened NfsBuffer
  import opened NfsProtocol
  import opened NfsSafety
  import opened NfsRuns
  import opened NfsLimits

  lemma StartReaches(s: State, limit: Option<nat>)
    requires Initial(s)
    ensures Reachable(s, limit)
  {
    assert IsRun(s, limit, []) && After(s, limit, []) == s;
  }

  lemma Reaches(s: State, limit: Option<nat>, step: Step, s': State)
    requires Reachable(s, limit) && Enabled(s, limit, step) && Apply(s, limit, step) == s'
    ensures Reachable(s', limit)
  {
    StepReaches(s, limit, step);
  }

  // ---- one mutation of a fresh file ----

  /** The file with buffer 0 and one RPC at work. */
  ghost function With(s0: State, b: Buffer, r: Rpc): State {
    s0.(writer := Some(0), bufs := s0.bufs[0 := b], rpcs := s0.rpcs[0 := r])
  }

  /** What the buffer is once pulled. */
  function PulledBuffer(s0: State): Buffer {
    Materialized(NewBuffer(s0.node), Content(s0.store, s0.node.fileId))
  }

  lemma AttachReaches(s0: State, limit: Option<nat>, m: Mutation)
    requires Initial(s0) && Reachable(StartRpc(s0, 0, m), limit)
    ensures Reachable(With(s0, NewBuffer(s0.node), Attached(m, 0)), limit)
  {
    var s1 := StartRpc(s0, 0, m);
    assert s1.rpcs[0 := Attached(m, 0)] == s0.rpcs[0 := Attached(m, 0)];
    Reaches(s1, limit, Attach(0, 0), With(s0, NewBuffer(s0.node), Attached(m, 0)));
  }

  lemma AttachedReachable(s0: State, limit: Option<nat>, m: Mutation)
    requires Initial(s0) && Accepted(limit, m)
    ensures Reachable(With(s0, NewBuffer(s0.node), Attached(m, 0)), limit)
  {
    StartReaches(s0, limit);
    Reaches(s0, limit, StartMutation(0, m), StartRpc(s0, 0, m));
    AttachReaches(s0, limit, m);
  }

  lemma ReadyReachable(s0: State, limit: Option<nat>, m: Mutation)
    requires Initial(s0) && Accepted(limit, m) && m != Truncate(0)
    ensures Reachable(With(s0, PulledBuffer(s0), Ready(m, 0)), limit)
  {
    AttachedReachable(s0, limit, m);
    var s1, s2 := With(s0, NewBuffer(s0.node), Attached(m, 0)), With(s0, PulledBuffer(s0), Ready(m, 0));
    assert s1.bufs[0 := PulledBuffer(s0)] == s2.bufs && s1.rpcs[0 := Ready(m, 0)] == s2.rpcs;
    Reaches(s1, limit, Materialize(0), s2);
  }

  lemma LockedReachable(s0: State, limit: Option<nat>, m: Mutation)
    requires Initial(s0) && Accepted(limit, m) && m != Truncate(0)
    ensures Reachable(With(s0, PulledBuffer(s0), Locked(m, 0)), limit)
  {
    ReadyReachable(s0, limit, m);
    var s1, s2 := With(s0, PulledBuffer(s0), Ready(m, 0)), With(s0, PulledBuffer(s0), Locked(m, 0));
    assert s1.rpcs[0 := Locked(m, 0)] == s2.rpcs;
    Reaches(s1, limit, TakeLock(0), s2);
  }

  /** The file after that mutation, dirty. */
  ghost function Mutated(s0: State, m: Mutation): State {
    var b := Committed(PulledBuffer(s0), m);
    s0.(writer := Some(0), bufs := map[0 := b], node := s0.node.(size := b.size), spec := PlainApply(s0.spec, m))
  }

  lemma MutatedReachable(s0: State, limit: Option<nat>, m: Mutation)
    requires Initial(s0) && Accepted(limit, m) && m != Truncate(0)
    ensures Reachable(Mutated(s0, m), limit)
  {
    LockedReachable(s0, limit, m);
    var s1 := With(s0, PulledBuffer(s0), Locked(m, 0));
    assert s1.rpcs - {0} == map[];
    Reaches(s1, limit, Commit(0), Mutated(s0, m));
  }

  // ---- a file of one byte, [7], on Drive ----

  const ONE_BYTE_NODE := Node(Some(1), Some(1), 1)

  ghost function OneByteFile(): State {
    State(ONE_BYTE_NODE, None, None, map[], map[], Idle, map[1 := Entry(Some(1), 1)],
          Some(1), {ONE_BYTE_NODE}, map[1 := [7]], map[], [7])
  }

  lemma OneBytePulled()
    ensures Initial(OneByteFile())
    ensures PulledBuffer(OneByteFile()) == Buffer([7], true, false, {}, false, 1, 0, Some(1), ONE_BYTE_NODE)
  {
    assert WriteFile([], 0, [7]) == [7];
  }

  /** A write of [8] holds a buffer that was pulled from Drive and is clean. */
  ghost function HeldBuffer(): State {
    With(OneByteFile(), Buffer([7], true, false, {}, false, 1, 0, Some(1), ONE_BYTE_NODE), Ready(Write(0, [8]), 0))
  }

  lemma HeldBufferReachable()
    ensures Reachable(HeldBuffer(), None) && Inv(HeldBuffer(), None)
  {
    OneBytePulled();
    ReadyReachable(OneByteFile(), None, Write(0, [8]));
  }

  lemma EightForSeven()
    ensures PlainApply([7], Write(0, [8])) == [8] && !([8 as byte] <= [7 as byte])
  {
    assert [8 as byte][0] != [7 as byte][0];
  }

  lemma EvictionLosesAWrite()
    ensures Reachable(HeldBuffer(), None)
    ensures var steps := [Evict] + Rest(HeldBuffer().rpcs[0], 0);
            && IsRun(HeldBuffer(), None, steps)
            && var s' := After(HeldBuffer(), None, steps);
            s'.writer.None? && s'.spec == [8] && Served(s') != [8]
  {
    HeldBufferReachable();
    EightForSeven();
    EvictionUnderMutation(HeldBuffer(), None, 0);
  }

  // ---- while it is being truncated to zero ----

  ghost function HollowBuffer(): State {
    With(OneByteFile(), Buffer([], true, true, {0}, false, 1, 0, Some(1), ONE_BYTE_NODE), Ready(Truncate(0), 0))
  }

  lemma HollowBufferReachable()
    ensures Reachable(HollowBuffer(), None)
  {
    OneBytePulled();
    AttachedReachable(OneByteFile(), None, Truncate(0));
    var s1 := With(OneByteFile(), NewBuffer(ONE_BYTE_NODE), Attached(Truncate(0), 0));
    assert Positions(0, 1) == {0};
    Reaches(s1, None, DeclareEmpty(0), HollowBuffer());
  }

  /** With one more RPC. */
  ghost function HollowWith(r: Rpc): State {
    HollowBuffer().(rpcs := HollowBuffer().rpcs[1 := r])
  }

  lemma HollowWithInv(r: Rpc)
    requires (r.Ready? || r.ReadSized?) && r.buf == 0
    ensures Inv(HollowWith(r), None)
  {
    assert Empties(HollowWith(r).rpcs[0], 0);
  }

  lemma HollowMove(r: Rpc, step: Step, r': Rpc)
    requires Reachable(HollowWith(r), None) && Enabled(HollowWith(r), None, step)
    requires Apply(HollowWith(r), None, step) == HollowWith(r).(rpcs := HollowWith(r).rpcs[1 := r'])
    ensures Reachable(HollowWith(r'), None)
  {
    assert HollowWith(r).rpcs[1 := r'] == HollowWith(r').rpcs;
    Reaches(HollowWith(r), None, step, HollowWith(r'));
  }

  lemma HollowAttach(m: Mutation)
    requires Reachable(HollowWith(Cloned(m, ONE_BYTE_NODE)), None)
    ensures Reachable(HollowWith(Attached(m, 0)), None)
  {
    HollowMove(Cloned(m, ONE_BYTE_NODE), Attach(1, 1), Attached(m, 0));
  }

  lemma HollowPull(m: Mutation)
    requires Reachable(HollowWith(Attached(m, 0)), None) && m != Truncate(0)
    ensures Reachable(HollowWith(Ready(m, 0)), None)
  {
    assert HollowWith(Attached(m, 0)).bufs[0 := HollowBuffer().bufs[0]] == HollowBuffer().bufs;
    HollowMove(Attached(m, 0), Materialize(1), Ready(m, 0));
  }

  lemma HollowAppendReachable()
    ensures Reachable(HollowWith(Ready(Write(1, [8]), 0)), None)
  {
    var m := Write(1, [8]);
    HollowBufferReachable();
    Reaches(HollowBuffer(), None, StartMutation(1, m), HollowWith(Cloned(m, ONE_BYTE_NODE)));
    HollowAttach(m);
    HollowPull(m);
  }

  lemma EightAfterSeven()
    ensures PlainApply([7], Write(1, [8])) == [7, 8]
    ensures !NothingShows(HollowBuffer().bufs[0], [7], Write(1, [8]))
  {
    assert [7 as byte][0] != 0;
  }

  lemma HollowBufferLosesContent()
    ensures var s := HollowWith(Ready(Write(1, [8]), 0));
            && Reachable(s, None) && IsRun(s, None, [TakeLock(1), Commit(1)])
            && var s' := After(s, None, [TakeLock(1), Commit(1)]);
            s'.writer == Some(0) && 0 in s'.bufs && s'.spec == [7, 8] && Served(s') != s'.spec
  {
    var r := Ready(Write(1, [8]), 0);
    HollowAppendReachable();
    HollowWithInv(r);
    MutationOnHollowBuffer(HollowWith(r), None, 1);
    EightAfterSeven();
  }

  lemma HollowReadReachable()
    ensures Reachable(HollowWith(ReadSized(0, 1, 0, 1, 1)), None)
  {
    HollowBufferReachable();
    Reaches(HollowBuffer(), None, StartRead(1, 0, 1), HollowWith(ReadAttached(0, 1, 0, 1)));
    HollowMove(ReadAttached(0, 1, 0, 1), LoadSize(1), ReadSized(0, 1, 0, 1, 1));
  }

  lemma HollowReadIsShort()
    ensures var s := HollowWith(ReadSized(0, 1, 0, 1, 1));
            && Reachable(s, None) && Enabled(s, None, FinishRead(1))
            && s.spec == [7] && Reply(s, 1).0 == []
  {
    HollowReadReachable();
  }

  // ---- over the upload limit ----

  /** The file is extended to two bytes under a limit of one. */
  ghost function OverLimitBuffer(): State {
    Mutated(OneByteFile(), Truncate(2))
  }

  lemma OverLimitTruncateIsLost()
    ensures Reachable(OverLimitBuffer(), Some(1)) && OverLimitBuffer().spec == [7, 0]
    ensures IsRun(OverLimitBuffer(), Some(1), [StartFlush, Evict])
    ensures Served(After(OverLimitBuffer(), Some(1), [StartFlush, Evict])) == [7]
  {
    OneBytePulled();
    MutatedReachable(OneByteFile(), Some(1), Truncate(2));
    OverLimitIsDropped(OverLimitBuffer(), Some(1));
  }

  // ---- a file made here, whose first create goes unanswered ----

  ghost function NewFile(): State {
    State(Node(None, None, 0), None, None, map[], map[], Idle, map[], None, {}, map[], map[], [])
  }

  ghost function Uploading(f: Flush, store: map<FileId, seq<byte>>): State {
    Mutated(NewFile(), Write(0, [8])).(flush := f, store := store)
  }

  lemma NewFilePulled()
    ensures Initial(NewFile()) && Mutated(NewFile(), Write(0, [8])).spec == [8]
    ensures Committed(PulledBuffer(NewFile()), Write(0, [8]))
         == Buffer([8], true, false, {}, true, 1, 1, None, Node(None, None, 0))
  {
    assert WriteFile([], 0, [8]) == [8];
  }

  lemma UploadingReachable()
    ensures Reachable(Uploading(Reading(0, 1, 1, false), map[]), None)
  {
    NewFilePulled();
    var s := Mutated(NewFile(), Write(0, [8]));
    MutatedReachable(NewFile(), None, Write(0, [8]));
    Reaches(s, None, StartFlush, Uploading(Reading(0, 1, 1, false), map[]));
  }

  lemma UploadedReachable()
    ensures Reachable(Uploading(Uploaded(0, 1, 1, Some(1)), map[1 := [8]]), None)
  {
    NewFilePulled();
    UploadingReachable();
    assert Clip([8], 1) == [8];
    Reaches(Uploading(Reading(0, 1, 1, false), map[]), None, FinishUpload(1, [8]),
            Uploading(Uploaded(0, 1, 1, Some(1)), map[1 := [8]]));
  }

  /** The entry 5 is there, and nobody here knows. */
  ghost function UnansweredCreate(): State {
    Uploading(Idle, map[1 := [8]]).(
      entries := map[5 := Entry(Some(1), 1)], listed := Some(5), past := {Node(Some(5), Some(1), 1)})
  }

  lemma UnansweredCreateReachable()
    ensures Reachable(UnansweredCreate(), None)
  {
    NewFilePulled();
    UploadedReachable();
    Reaches(Uploading(Uploaded(0, 1, 1, Some(1)), map[1 := [8]]), None, FlushFails(Some(5)), UnansweredCreate());
  }

  /** No flush of the buffer that holds the file ends, whatever comes later. */
  lemma UnansweredCreateNeverFlushes(steps: seq<Step>, k: nat)
    requires IsRun(UnansweredCreate(), None, steps) && k < |steps|
    ensures Reachable(UnansweredCreate(), None) && UnansweredCreate().bufs[0].dirty
    ensures !EndsFlushOf(UnansweredCreate(), None, steps, k, 0)
  {
    NewFilePulled();
    UnansweredCreateReachable();
    BarredForGood(UnansweredCreate(), None, steps, 0, k);
  }

  // ---- that file is truncated ----

  /** A quiet state with buffer 0 in use, and one RPC more. */
  ghost predicate Quiet(s: State) {
    s.writer == Some(0) && 0 in s.bufs && s.bufs[0].materialized && s.rpcs == map[] && s.flush.Idle?
  }

  ghost function Doing(s: State, r: Rpc): State {
    s.(rpcs := map[0 := r])
  }

  lemma AttachesToQuiet(s: State, limit: Option<nat>, newBuf: BufId)
    requires Quiet(s) && newBuf !in s.bufs && Reachable(Doing(s, Cloned(Truncate(0), s.node)), limit)
    ensures Reachable(Doing(s, Attached(Truncate(0), 0)), limit)
  {
    var s1 := Doing(s, Cloned(Truncate(0), s.node));
    assert s1.rpcs[0 := Attached(Truncate(0), 0)] == map[0 := Attached(Truncate(0), 0)];
    Reaches(s1, limit, Attach(0, newBuf), Doing(s, Attached(Truncate(0), 0)));
  }

  lemma TruncateAttaches(s: State, limit: Option<nat>)
    requires Reachable(s, limit) && Quiet(s)
    ensures Reachable(Doing(s, Attached(Truncate(0), 0)), limit)
  {
    var m := Truncate(0);
    var newBuf := Unused(s.bufs.Keys);
    Reaches(s, limit, StartMutation(0, m), Doing(s, Cloned(m, s.node)));
    AttachesToQuiet(s, limit, newBuf);
  }

  lemma TruncateGetsReady(s: State, limit: Option<nat>)
    requires Quiet(s) && Reachable(Doing(s, Attached(Truncate(0), 0)), limit)
    ensures Reachable(Doing(s, Ready(Truncate(0), 0)), limit)
  {
    var s1 := Doing(s, Attached(Truncate(0), 0));
    assert s1.rpcs[0 := Ready(Truncate(0), 0)] == map[0 := Ready(Truncate(0), 0)];
    assert s1.bufs[0 := s.bufs[0]] == s.bufs;
    Reaches(s1, limit, DeclareEmpty(0), Doing(s, Ready(Truncate(0), 0)));
  }

  lemma TruncateLocks(s: State, limit: Option<nat>)
    requires Quiet(s) && Reachable(Doing(s, Ready(Truncate(0), 0)), limit)
    ensures Reachable(Doing(s, Locked(Truncate(0), 0)), limit)
  {
    var s1 := Doing(s, Ready(Truncate(0), 0));
    assert s1.rpcs[0 := Locked(Truncate(0), 0)] == map[0 := Locked(Truncate(0), 0)];
    Reaches(s1, limit, TakeLock(0), Doing(s, Locked(Truncate(0), 0)));
  }

  ghost function Truncated(s: State): State
    requires 0 in s.bufs
  {
    s.(bufs := s.bufs[0 := Committed(s.bufs[0], Truncate(0))], node := s.node.(size := 0), reader := None, spec := [])
  }

  lemma TruncatedReachable(s: State, limit: Option<nat>)
    requires Reachable(s, limit) && Quiet(s)
    ensures Reachable(Truncated(s), limit)
  {
    TruncateAttaches(s, limit);
    TruncateGetsReady(s, limit);
    TruncateLocks(s, limit);
    var s1 := Doing(s, Locked(Truncate(0), 0));
    assert s1.rpcs - {0} == map[] && SetLen(s.spec, 0) == [];
    Reaches(s1, limit, Commit(0), Truncated(s));
  }

  lemma EmptiedCreate()
    ensures var s := Truncated(UnansweredCreate());
            Inv(s, None) && FlushWanted(s) && s.reader.None? && s.bufs[0].size == 0 && s.bufs[0].existing.None?
  {
    NewFilePulled();
    assert |[8 as byte]| == 1;
  }

  /** It reads as it was before the truncate once a listing has shown it. */
  lemma TruncateComesUndone()
    ensures var s := Truncated(UnansweredCreate());
            var shown := Node(Some(5), Some(1), 1);
            && Reachable(s, None) && s.spec == []
            && IsRun(s, None, [StartFlush, Evict]) && Live(After(s, None, [StartFlush, Evict]), shown)
            && Served(RefreshNode(After(s, None, [StartFlush, Evict]), shown)) == [8]
  {
    NewFilePulled();
    UnansweredCreateReachable();
    TruncatedReachable(UnansweredCreate(), None);
    EmptiedCreate();
    UnansweredCreateUndoesTruncate(Truncated(UnansweredCreate()), None);
    After2(Truncated(UnansweredCreate()), None, StartFlush, Evict);
    assert Clip([8], 1) == [8];
  }

  // ---- a listing from before the last flush ----

  const REPLACED_NODE := Node(Some(1), Some(2), 1)

  /** [7] has been overwritten with [8]. */
  ghost function Overwritten(f: Flush, store: map<FileId, seq<byte>>): State {
    Mutated(OneByteFile(), Write(0, [8])).(flush := f, store := store)
  }

  lemma OverwrittenBuffer()
    ensures Initial(OneByteFile()) && Overwritten(Idle, map[]).spec == [8]
    ensures Committed(PulledBuffer(OneByteFile()), Write(0, [8]))
         == Buffer([8], true, false, {}, true, 1, 1, Some(1), ONE_BYTE_NODE)
  {
    OneBytePulled();
    EightForSeven();
  }

  lemma OverwriteUploaded()
    requires Reachable(Overwritten(Reading(0, 1, 1, false), OneByteFile().store), None)
    ensures Reachable(Overwritten(Uploaded(0, 1, 1, Some(2)), map[1 := [7], 2 := [8]]), None)
  {
    OverwrittenBuffer();
    assert Clip([8], 1) == [8];
    assert OneByteFile().store[2 := [8]] == map[1 := [7], 2 := [8]];
    Reaches(Overwritten(Reading(0, 1, 1, false), OneByteFile().store), None, FinishUpload(2, [8]),
            Overwritten(Uploaded(0, 1, 1, Some(2)), map[1 := [7], 2 := [8]]));
  }

  lemma OverwriteUploads()
    ensures Reachable(Overwritten(Uploaded(0, 1, 1, Some(2)), map[1 := [7], 2 := [8]]), None)
  {
    OverwrittenBuffer();
    var store := OneByteFile().store;
    MutatedReachable(OneByteFile(), None, Write(0, [8]));
    Reaches(Overwritten(Idle, store), None, StartFlush, Overwritten(Reading(0, 1, 1, false), store));
    OverwriteUploaded();
  }

  ghost function Replaced(f: Flush): State {
    Overwritten(f, map[1 := [7], 2 := [8]]).(
      entries := map[1 := Entry(Some(2), 1)], past := {ONE_BYTE_NODE, REPLACED_NODE})
  }

  lemma ReplacedReachable()
    ensures Reachable(Replaced(Linked(0, 1, 1, Some(2))), None)
  {
    OverwriteUploads();
    OverwrittenBuffer();
    Reaches(Overwritten(Uploaded(0, 1, 1, Some(2)), map[1 := [7], 2 := [8]]), None, LinkEntry(1),
            Replaced(Linked(0, 1, 1, Some(2))));
  }

  /** The flush has ended and the buffer is gone. */
  ghost function Replaced8(): State {
    Replaced(Idle).(node := REPLACED_NODE, writer := None, frozen := map[0 := [8]],
                    bufs := map[0 := Buffer([8], true, false, {}, false, 1, 1, Some(1), ONE_BYTE_NODE)])
  }

  lemma Replaced8Reachable()
    ensures Reachable(Replaced8(), None)
  {
    ReplacedReachable();
    OverwrittenBuffer();
    var s := Replaced8().(writer := Some(0), frozen := map[]);
    Reaches(Replaced(Linked(0, 1, 1, Some(2))), None, FinishFlush, s);
    Reaches(s, None, Evict, Replaced8());
  }

  lemma Replaced8Inv()
    ensures Inv(Replaced8(), None)
  {
    OverwrittenBuffer();
    assert OrphanFine(Replaced8(), Replaced8().bufs[0], [8]);
  }

  lemma StaleListingServesOldContent()
    ensures Reachable(Replaced8(), None) && Replaced8().spec == [8] && Enabled(Replaced8(), None, Refresh(ONE_BYTE_NODE))
    ensures Served(Apply(Replaced8(), None, Refresh(ONE_BYTE_NODE))) == [7]
  {
    Replaced8Reachable();
    Replaced8Inv();
    OverwrittenBuffer();
    StaleListingRevivesContent(Replaced8(), None, ONE_BYTE_NODE);
  }
}
