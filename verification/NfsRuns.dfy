/** What follows over whole runs of the NFS protocol: no write is lost, and
    reads see the plain file. */
module NfsRuns {
  import opened Basics
  import opened NfsBuffer
  import opened NfsProtocol
  import opened NfsSafety

  // ---- what a step can change ----

  ghost predicate Frame(s: State, s': State, step: Step) {
    && (!step.Commit? ==> s'.spec == s.spec)
    && (!step.Evict? ==> s'.frozen == s.frozen)
    && (!step.Evict? && !step.Attach? ==> s'.writer == s.writer)
    && (IsServerStep(step) ==> s'.rpcs == s.rpcs)
    && (!IsServerStep(step) ==>
          forall k | k in s.rpcs && k != step.rpc :: k in s'.rpcs && s'.rpcs[k] == s.rpcs[k])
  }

  lemma FlushStepFrame(s: State, limit: Option<nat>, step: Step)
    requires Enabled(s, limit, step) && IsFlushStep(step)
    ensures Frame(s, Apply(s, limit, step), step)
  {
  }

  predicate PullsOrCommits(step: Step) {
    step.Materialize? || step.MaterializeFails? || step.DeclareEmpty? || step.Commit?
  }

  lemma PullFrame(s: State, limit: Option<nat>, step: Step)
    requires Enabled(s, limit, step) && PullsOrCommits(step)
    ensures Frame(s, Apply(s, limit, step), step)
  {
  }

  lemma RpcFrame(s: State, limit: Option<nat>, step: Step)
    requires Enabled(s, limit, step) && !IsServerStep(step) && !PullsOrCommits(step)
    ensures Frame(s, Apply(s, limit, step), step)
  {
  }

  lemma StepFrame(s: State, limit: Option<nat>, step: Step)
    requires Enabled(s, limit, step)
    ensures Frame(s, Apply(s, limit, step), step)
  {
    if IsFlushStep(step) {
      FlushStepFrame(s, limit, step);
    } else if PullsOrCommits(step) {
      PullFrame(s, limit, step);
    } else if !IsServerStep(step) {
      RpcFrame(s, limit, step);
    }
  }

  // ---- whole runs ----

  ghost predicate IsCalmRun(s: State, limit: Option<nat>, steps: seq<Step>)
    decreases |steps|
  {
    steps == [] ||
    (Enabled(s, limit, steps[0]) && Calm(s, limit, steps[0])
     && IsCalmRun(Apply(s, limit, steps[0]), limit, steps[1..]))
  }

  lemma {:induction false} CalmRunIsRun(s: State, limit: Option<nat>, steps: seq<Step>)
    requires IsCalmRun(s, limit, steps)
    ensures IsRun(s, limit, steps)
    decreases |steps|
  {
    if steps != [] {
      CalmRunIsRun(Apply(s, limit, steps[0]), limit, steps[1..]);
    }
  }

  /** Every state of a calm run. */
  lemma {:induction false} CalmRunKeeps(s: State, limit: Option<nat>, steps: seq<Step>, k: nat)
    requires Inv(s, limit) && IsCalmRun(s, limit, steps) && IsRun(s, limit, steps) && k <= |steps|
    ensures Inv(StateAt(s, limit, steps, k), limit)
    decreases k
  {
    if k > 0 {
      StepKeeps(s, limit, steps[0]);
      CalmRunKeeps(Apply(s, limit, steps[0]), limit, steps[1..], k - 1);
    }
  }

  lemma InitialInv(s: State, limit: Option<nat>)
    requires Initial(s)
    ensures Inv(s, limit)
  {
  }

  /** The plain file the clients believe in after the first `k` steps: the
      mutations of the run, in the order their commits happened, applied to
      the initial bytes. */
  ghost function PlainAt(file: seq<byte>, s: State, limit: Option<nat>, steps: seq<Step>, k: nat): seq<byte>
    requires IsRun(s, limit, steps) && k <= |steps|
    decreases k
  {
    if k == 0 then file
    else
      var file' := if steps[0].Commit? then PlainApply(file, s.rpcs[steps[0].rpc].m) else file;
      PlainAt(file', Apply(s, limit, steps[0]), limit, steps[1..], k - 1)
  }

  ghost function PlainFile(s: State, limit: Option<nat>, steps: seq<Step>, k: nat): seq<byte>
    requires IsRun(s, limit, steps) && k <= |steps|
  {
    PlainAt(s.spec, s, limit, steps, k)
  }

  lemma {:induction false} SpecIsPlainFile(s: State, limit: Option<nat>, steps: seq<Step>, k: nat)
    requires IsRun(s, limit, steps) && k <= |steps|
    ensures StateAt(s, limit, steps, k).spec == PlainFile(s, limit, steps, k)
    decreases k
  {
    if k > 0 {
      StepFrame(s, limit, steps[0]);
      SpecIsPlainFile(Apply(s, limit, steps[0]), limit, steps[1..], k - 1);
    }
  }

  /** Any point of a calm run: the invariant, and the plain file. */
  lemma PointOfRun(s0: State, limit: Option<nat>, steps: seq<Step>, k: nat)
    requires Initial(s0) && IsCalmRun(s0, limit, steps) && k <= |steps|
    ensures IsRun(s0, limit, steps)
    ensures var s := StateAt(s0, limit, steps, k);
            && Inv(s, limit) && s.spec == PlainFile(s0, limit, steps, k)
            && (k < |steps| ==> Enabled(s, limit, steps[k])
                                && StateAt(s0, limit, steps, k + 1) == Apply(s, limit, steps[k]))
            && (k == |steps| ==> s == After(s0, limit, steps))
  {
    InitialInv(s0, limit);
    CalmRunIsRun(s0, limit, steps);
    CalmRunKeeps(s0, limit, steps, k);
    SpecIsPlainFile(s0, limit, steps, k);
    if k < |steps| {
      NextState(s0, limit, steps, k);
    } else {
      AllSteps(s0, limit, steps);
    }
  }

  /** What a read may still do. */
  lemma ReadStepsOnly(s: State, limit: Option<nat>, step: Step, id: RpcId)
    requires Enabled(s, limit, step) && !IsServerStep(step) && step.rpc == id && id in s.rpcs && IsRead(s.rpcs[id])
    ensures step == FinishRead(id)
         || (s.rpcs[id].ReadAttached? && (step.Materialize? || step.MaterializeFails? || step.LoadSize?))
  {
  }

  lemma ReadIsUntouched(s: State, limit: Option<nat>, step: Step, id: RpcId)
    requires Enabled(s, limit, step) && step != FinishRead(id)
    requires id in s.rpcs && (s.rpcs[id].ReadStream? || s.rpcs[id].ReadSized?)
    ensures id in Apply(s, limit, step).rpcs && Apply(s, limit, step).rpcs[id] == s.rpcs[id]
  {
    if !IsServerStep(step) && step.rpc == id {
      ReadStepsOnly(s, limit, step, id);
    }
    StepFrame(s, limit, step);
  }

  /** Once a read has nothing left to load, no step but its end touches it. */
  lemma {:induction false} ReadIsLeftAlone(s0: State, limit: Option<nat>, steps: seq<Step>, id: RpcId, a: nat, k: nat)
    requires IsRun(s0, limit, steps) && a <= k <= |steps| && FinishRead(id) !in steps[a..]
    requires var s := StateAt(s0, limit, steps, a);
             id in s.rpcs && (s.rpcs[id].ReadStream? || s.rpcs[id].ReadSized?)
    ensures var s' := StateAt(s0, limit, steps, k);
            id in s'.rpcs && s'.rpcs[id] == StateAt(s0, limit, steps, a).rpcs[id]
    decreases k
  {
    if a < k {
      ReadIsLeftAlone(s0, limit, steps, id, a, k - 1);
      NextState(s0, limit, steps, k - 1);
      assert steps[a..][k - 1 - a] == steps[k - 1];
      ReadIsUntouched(StateAt(s0, limit, steps, k - 1), limit, steps[k - 1], id);
    }
  }

  lemma ReadIsStreaming(s0: State, limit: Option<nat>, steps: seq<Step>, a: nat)
    requires Initial(s0) && IsCalmRun(s0, limit, steps) && IsRun(s0, limit, steps)
    requires a < |steps| && steps[a].StartRead? && StateAt(s0, limit, steps, a).writer.None?
    ensures var StartRead(id, offset, len) := steps[a];
            var s := StateAt(s0, limit, steps, a + 1);
            && id in s.rpcs && s.rpcs[id].ReadStream? && s.rpcs[id].offset == offset && s.rpcs[id].len == len
            && s.rpcs[id].snap == PlainFile(s0, limit, steps, a)
  {
    PointOfRun(s0, limit, steps, a);
  }

  lemma ReplyOfStream(s: State, limit: Option<nat>, id: RpcId)
    requires Inv(s, limit) && id in s.rpcs && s.rpcs[id].ReadStream?
    ensures var r := s.rpcs[id];
            var data := Slice(r.snap, r.offset, r.len);
            Enabled(s, limit, FinishRead(id)) && Reply(s, id) == (data, r.offset + |data| >= |r.snap|)
  {
    assert RpcFine(s, s.rpcs[id]);
    assert Clip(s.rpcs[id].snap, |s.rpcs[id].snap|) == s.rpcs[id].snap;
  }

  /** Streamed reads refine the plain file. In every calm run, a read that
      begins at step `a` when there is no buffer and has not ended by the end
      of the run would then return exactly the slice, and the end-of-file flag,
      of the plain file as it was when the read began. */
  lemma StreamedReadsRefinePlainFile(s0: State, limit: Option<nat>, steps: seq<Step>, a: nat)
    requires Initial(s0) && IsCalmRun(s0, limit, steps) && IsRun(s0, limit, steps)
    requires a < |steps| && steps[a].StartRead? && FinishRead(steps[a].rpc) !in steps[a + 1..]
    requires StateAt(s0, limit, steps, a).writer.None?
    ensures var StartRead(id, offset, len) := steps[a];
            var s, plain := After(s0, limit, steps), PlainFile(s0, limit, steps, a);
            var data := Slice(plain, offset, len);
            && Enabled(s, limit, FinishRead(id))
            && Reply(s, id) == (data, offset + |data| >= |plain|)
  {
    ReadIsStreaming(s0, limit, steps, a);
    ReadIsLeftAlone(s0, limit, steps, steps[a].rpc, a + 1, |steps|);
    PointOfRun(s0, limit, steps, |steps|);
    ReplyOfStream(After(s0, limit, steps), limit, steps[a].rpc);
  }

  /** A buffer in use stays so or is frozen as it is; one frozen stays frozen. */
  lemma BufferStays(s: State, limit: Option<nat>, step: Step, c: BufId)
    requires Enabled(s, limit, step) && c in s.bufs
    ensures var s' := Apply(s, limit, step);
            && (s.writer == Some(c) && s'.writer != Some(c) ==> c in s'.frozen && s'.frozen[c] == s.spec)
            && (s.writer != Some(c) && c in s.frozen ==> s'.writer != Some(c) && c in s'.frozen && s'.frozen[c] == s.frozen[c])
  {
    StepFrame(s, limit, step);
  }

  ghost predicate FrozenAs(s: State, c: BufId, f: seq<byte>) {
    s.writer != Some(c) && c in s.frozen && s.frozen[c] == f
  }

  /** Buffer `c` serves the file from step `a` to step `until`, and what comes
      later up to `k` finds it frozen as the plain file was at `until`. */
  ghost predicate InUseUntil(s0: State, limit: Option<nat>, steps: seq<Step>, c: BufId, a: nat, until: nat, k: nat)
    requires IsRun(s0, limit, steps) && a <= until <= k <= |steps|
  {
    && (forall j | a <= j <= until :: StateAt(s0, limit, steps, j).writer == Some(c))
    && (forall j | until < j <= k :: FrozenAs(StateAt(s0, limit, steps, j), c, PlainFile(s0, limit, steps, until)))
  }

  lemma BufferStaysAt(s0: State, limit: Option<nat>, steps: seq<Step>, c: BufId, k: nat)
    requires Initial(s0) && IsCalmRun(s0, limit, steps) && IsRun(s0, limit, steps) && k < |steps|
    ensures var s, s' := StateAt(s0, limit, steps, k), StateAt(s0, limit, steps, k + 1);
            && (s.writer == Some(c) && s'.writer != Some(c) ==> FrozenAs(s', c, PlainFile(s0, limit, steps, k)))
            && (s.writer != Some(c) && c in s.frozen ==> FrozenAs(s', c, s.frozen[c]))
  {
    PointOfRun(s0, limit, steps, k);
    var s := StateAt(s0, limit, steps, k);
    if c in s.bufs {
      BufferStays(s, limit, steps[k], c);
    }
  }

  lemma {:induction false} BufferInUse(s0: State, limit: Option<nat>, steps: seq<Step>, c: BufId, a: nat, k: nat)
      returns (until: nat)
    requires Initial(s0) && IsCalmRun(s0, limit, steps) && IsRun(s0, limit, steps) && a <= k <= |steps|
    requires StateAt(s0, limit, steps, a).writer == Some(c)
    ensures a <= until <= k && InUseUntil(s0, limit, steps, c, a, until, k)
    decreases k
  {
    until := k;
    if a < k {
      until := BufferInUse(s0, limit, steps, c, a, k - 1);
      BufferStaysAt(s0, limit, steps, c, k - 1);
      if until == k - 1 && StateAt(s0, limit, steps, k).writer == Some(c) {
        until := k;
      }
    }
  }

  predicate SamePlace(r: Rpc, r': Rpc) {
    && (r.ReadAttached? || r.ReadSized?) && (r'.ReadAttached? || r'.ReadSized?)
    && r.offset == r'.offset && r.len == r'.len && r.buf == r'.buf && r.seen == r'.seen
  }

  lemma ReadStaysInPlace(s: State, limit: Option<nat>, step: Step, id: RpcId)
    requires Enabled(s, limit, step) && step != FinishRead(id) && !(step.MaterializeFails? && step.rpc == id)
    requires id in s.rpcs && SamePlace(s.rpcs[id], s.rpcs[id])
    ensures id in Apply(s, limit, step).rpcs && SamePlace(s.rpcs[id], Apply(s, limit, step).rpcs[id])
  {
    if !IsServerStep(step) && step.rpc == id {
      ReadStepsOnly(s, limit, step, id);
      assert step.Materialize? || step.LoadSize?;
    } else {
      StepFrame(s, limit, step);
    }
  }

  /** A buffered read keeps its place and its buffer until it ends. */
  lemma {:induction false} ReadKeepsBuffer(s0: State, limit: Option<nat>, steps: seq<Step>, id: RpcId, a: nat, k: nat)
    requires IsRun(s0, limit, steps) && a <= k <= |steps|
    requires FinishRead(id) !in steps[a..] && forall got :: MaterializeFails(id, got) !in steps[a..]
    requires var s := StateAt(s0, limit, steps, a);
             id in s.rpcs && SamePlace(s.rpcs[id], s.rpcs[id])
    ensures var s, s' := StateAt(s0, limit, steps, a), StateAt(s0, limit, steps, k);
            id in s'.rpcs && SamePlace(s.rpcs[id], s'.rpcs[id])
    decreases k
  {
    if a < k {
      ReadKeepsBuffer(s0, limit, steps, id, a, k - 1);
      NextState(s0, limit, steps, k - 1);
      assert steps[a..][k - 1 - a] == steps[k - 1];
      ReadStaysInPlace(StateAt(s0, limit, steps, k - 1), limit, steps[k - 1], id);
    }
  }

  lemma StillTheWriter(s0: State, limit: Option<nat>, steps: seq<Step>, a: nat)
    requires IsRun(s0, limit, steps) && a < |steps| && steps[a].StartRead?
    ensures StateAt(s0, limit, steps, a + 1).writer == StateAt(s0, limit, steps, a).writer
  {
    NextState(s0, limit, steps, a);
  }

  lemma ReadIsAttached(s0: State, limit: Option<nat>, steps: seq<Step>, a: nat)
    requires Initial(s0) && IsCalmRun(s0, limit, steps) && IsRun(s0, limit, steps)
    requires a < |steps| && steps[a].StartRead? && StateAt(s0, limit, steps, a).writer.Some?
    ensures var StartRead(id, offset, len) := steps[a];
            var s := StateAt(s0, limit, steps, a + 1);
            id in s.rpcs && s.rpcs[id] == ReadAttached(offset, len, StateAt(s0, limit, steps, a).writer.value,
                                                       |PlainFile(s0, limit, steps, a)|)
  {
    PointOfRun(s0, limit, steps, a);
  }

  /** The place and the size of a read that has loaded its size. */
  lemma ReadIsSized(s0: State, limit: Option<nat>, steps: seq<Step>, a: nat, b: nat)
    requires Initial(s0) && IsCalmRun(s0, limit, steps) && IsRun(s0, limit, steps)
    requires a < b < |steps| && steps[a].StartRead? && steps[b] == LoadSize(steps[a].rpc)
    requires FinishRead(steps[a].rpc) !in steps[a + 1..]
    requires forall got :: MaterializeFails(steps[a].rpc, got) !in steps[a + 1..]
    requires StateAt(s0, limit, steps, a).writer.Some?
    ensures var StartRead(id, offset, len) := steps[a];
            var s, c := After(s0, limit, steps), StateAt(s0, limit, steps, a).writer.value;
            && id in s.rpcs && c in StateAt(s0, limit, steps, b).bufs
            && s.rpcs[id] == ReadSized(offset, len, c, |PlainFile(s0, limit, steps, a)|, StateAt(s0, limit, steps, b).bufs[c].size)
  {
    var id := steps[a].rpc;
    ReadIsAttached(s0, limit, steps, a);
    ReadKeepsBuffer(s0, limit, steps, id, a + 1, b);
    NextState(s0, limit, steps, b);
    assert steps[a + 1..][b - a..] == steps[b + 1..];
    ReadIsLeftAlone(s0, limit, steps, id, b + 1, |steps|);
    AllSteps(s0, limit, steps);
  }

  /** The buffer's size is the plain file's, now or at the eviction. */
  lemma SizeIsPlainSize(s0: State, limit: Option<nat>, steps: seq<Step>, c: BufId, a: nat, k: nat, until: nat)
    requires Initial(s0) && IsCalmRun(s0, limit, steps) && IsRun(s0, limit, steps)
    requires a <= until <= |steps| && a <= k <= |steps| && InUseUntil(s0, limit, steps, c, a, until, |steps|)
    ensures var s := StateAt(s0, limit, steps, k);
            c in s.bufs && s.bufs[c].size == |PlainFile(s0, limit, steps, Min(k, until))|
  {
    PointOfRun(s0, limit, steps, k);
    if until < k {
      assert FrozenAs(StateAt(s0, limit, steps, k), c, PlainFile(s0, limit, steps, until));
    }
  }

  /** And so is its content at the end, once there and not about to go. */
  lemma FileIsPlainFile(s0: State, limit: Option<nat>, steps: seq<Step>, c: BufId, a: nat, until: nat)
    requires Initial(s0) && IsCalmRun(s0, limit, steps) && IsRun(s0, limit, steps)
    requires a <= until <= |steps| && InUseUntil(s0, limit, steps, c, a, until, |steps|)
    ensures var s := After(s0, limit, steps);
            && c in s.bufs && (s.writer == Some(c) ==> until == |steps|)
            && (s.bufs[c].materialized && !s.bufs[c].hollow ==> s.bufs[c].file == PlainFile(s0, limit, steps, until))
            && forall id | id in s.rpcs && s.rpcs[id].ReadSized? && s.rpcs[id].buf == c :: s.bufs[c].materialized
  {
    PointOfRun(s0, limit, steps, |steps|);
    if until < |steps| {
      assert FrozenAs(StateAt(s0, limit, steps, |steps|), c, PlainFile(s0, limit, steps, until));
    }
  }

  /** Buffered reads refine the plain file. In every calm run, take a read that
      begins at step `a` on a buffer, fixes at step `b` how much to return and
      has not ended by the end of the run; its buffer may have been evicted and
      replaced meanwhile. It would then return the slice of the plain file of
      one moment between beginning and end, cut at the size the plain file had
      when the read fixed its length or, if the buffer was gone by then, at its
      eviction: exactly the slice unless the file grew in between. The
      end-of-file flag is judged by the size at the beginning. Only a buffer
      being emptied just then is left to `NfsLimits.ReadOfHollowBuffer`. */
  lemma BufferedReadsRefinePlainFile(s0: State, limit: Option<nat>, steps: seq<Step>, a: nat, b: nat) returns (at: nat)
    requires Initial(s0) && IsCalmRun(s0, limit, steps) && IsRun(s0, limit, steps)
    requires a < b < |steps| && steps[a].StartRead? && steps[b] == LoadSize(steps[a].rpc)
    requires FinishRead(steps[a].rpc) !in steps[a + 1..]
    requires forall got :: MaterializeFails(steps[a].rpc, got) !in steps[a + 1..]
    requires StateAt(s0, limit, steps, a).writer.Some?
    ensures a < at <= |steps|
    ensures var StartRead(id, offset, len) := steps[a];
            var s, c := After(s0, limit, steps), StateAt(s0, limit, steps, a).writer.value;
            && RpcAt(s, id) && s.rpcs[id].ReadSized? && s.rpcs[id].buf == c
            && (s.writer == Some(c) ==> at == |steps|)
            && (!s.bufs[c].hollow ==>
                  Reply(s, id).0 == Slice(Clip(PlainFile(s0, limit, steps, at), |PlainFile(s0, limit, steps, Min(at, b))|), offset, len))
            && (Reply(s, id).1 <==> offset + |Reply(s, id).0| >= |PlainFile(s0, limit, steps, a)|)
  {
    var id, c := steps[a].rpc, StateAt(s0, limit, steps, a).writer.value;
    ReadIsSized(s0, limit, steps, a, b);
    StillTheWriter(s0, limit, steps, a);
    at := BufferInUse(s0, limit, steps, c, a + 1, |steps|);
    SizeIsPlainSize(s0, limit, steps, c, a + 1, b, at);
    FileIsPlainFile(s0, limit, steps, c, a + 1, at);
  }

  /** Whatever serves it, a read that begins finds the plain file's size, and
      after eviction the stream is the plain file. */
  lemma ReadsBeginOnPlainFile(s0: State, limit: Option<nat>, steps: seq<Step>, id: RpcId, offset: nat, len: nat)
    requires Initial(s0) && IsCalmRun(s0, limit, steps)
    requires IsRun(s0, limit, steps) && Enabled(After(s0, limit, steps), limit, StartRead(id, offset, len))
    ensures var s := After(s0, limit, steps);
            var plain := PlainFile(s0, limit, steps, |steps|);
            var r := BeginRead(s, id, offset, len).rpcs[id];
            && (s.writer.Some? ==> r.ReadAttached? && r.seen == |plain|)
            && (s.writer.None? ==> r.ReadStream? && r.snap == plain && r.reader.size == |plain|
                                   && Content(s.store, r.reader.fileId) == plain)
  {
    PointOfRun(s0, limit, steps, |steps|);
  }

  /** No lost write. In every state of a calm run Drive holds the plain file
      when there is no buffer, and when there is a clean one with no mutation
      past the file lock and none about to empty it, however many writes landed
      during an upload; and a dirty buffer holds the plain file itself, so
      nothing is lost while it waits, unless a pending truncate to zero is
      about to empty both. A file with no entry on Drive is then empty. */
  lemma NoLostWrite(s0: State, limit: Option<nat>, steps: seq<Step>)
    requires Initial(s0) && IsCalmRun(s0, limit, steps)
    ensures IsRun(s0, limit, steps)
    ensures var s := After(s0, limit, steps);
            var plain := PlainFile(s0, limit, steps, |steps|);
            match s.writer
            case None => OnDrive(s, plain) && (s.node.uuid.None? ==> plain == [])
            case Some(c) =>
              && c in s.bufs
              && (s.bufs[c].dirty && !s.bufs[c].hollow ==> s.bufs[c].file == plain)
              && (!s.bufs[c].dirty && !s.bufs[c].hollow && !SomeLocked(s) ==>
                    OnDrive(s, plain) && (s.node.uuid.None? ==> plain == []))
  {
    PointOfRun(s0, limit, steps, |steps|);
  }

  lemma ServerStepDirties(s: State, limit: Option<nat>, step: Step, c: BufId)
    requires Enabled(s, limit, step) && IsServerStep(step) && !step.StartFlush? && c in s.bufs && s.bufs[c].dirty
    ensures var s' := Apply(s, limit, step);
            c in s'.bufs && (!s'.bufs[c].dirty <==> step.FinishFlush? && s.flush.buf == c && s.flush.gen == s.bufs[c].gen)
  {
  }

  lemma RpcStepDirties(s: State, limit: Option<nat>, step: Step, c: BufId)
    requires Enabled(s, limit, step) && !IsServerStep(step) && c in s.bufs && s.bufs[c].dirty
    ensures c in Apply(s, limit, step).bufs && Apply(s, limit, step).bufs[c].dirty
  {
  }

  /** A failed flush never clears `dirty`, and neither does anything else but
      these: a flush that ends with no commit since its snapshot, and the two
      early returns for an empty file not yet on Drive and for one over the
      limit. True of every step from every state, calm or not. */
  lemma DirtyFallsOnlyTo(s: State, limit: Option<nat>, step: Step, c: BufId)
    requires Enabled(s, limit, step) && c in s.bufs && s.bufs[c].dirty
    ensures c in Apply(s, limit, step).bufs
    ensures !Apply(s, limit, step).bufs[c].dirty
       <==> || (step.FinishFlush? && s.flush.buf == c && s.flush.gen == s.bufs[c].gen)
            || (step.StartFlush? && s.writer == Some(c)
                && ((s.bufs[c].size == 0 && s.bufs[c].existing.None?) || !Allowed(limit, s.bufs[c].size)))
  {
    if step.StartFlush? {
      assert s.writer != Some(c) ==> BeginFlush(s, limit).bufs[c] == s.bufs[c];
    } else if IsServerStep(step) {
      ServerStepDirties(s, limit, step, c);
    } else {
      RpcStepDirties(s, limit, step, c);
    }
  }

  ghost function QuietLink(uuid: Uuid): seq<Step> {
    [LinkEntry(uuid), FinishFlush]
  }

  /** The flush a quiet server makes: nothing else in flight. */
  ghost function QuietFlush(s: State, fileId: FileId, uuid: Uuid): seq<Step>
    requires s.writer.Some? && s.writer.value in s.bufs
  {
    var b := s.bufs[s.writer.value];
    if b.size == 0 && b.existing.None? then [StartFlush]
    else if b.size == 0 then [StartFlush] + QuietLink(uuid)
    else [StartFlush, FinishUpload(fileId, b.file)] + QuietLink(uuid)
  }

  ghost predicate Lands(s: State, limit: Option<nat>, steps: seq<Step>, uuid: Uuid) {
    && IsCalmRun(s, limit, steps) && IsRun(s, limit, steps)
    && var s' := After(s, limit, steps);
    && s'.spec == s.spec && Settled(s') && s'.node.uuid == Some(uuid)
    && s'.writer == s.writer && s'.writer.Some? && s'.writer.value in s'.bufs && !s'.bufs[s'.writer.value].dirty
  }

  lemma QuietEnd(s: State, limit: Option<nat>, uuid: Uuid)
    requires Inv(s, limit) && s.writer.Some? && s.rpcs == map[] && s.flush.Linked? && s.node.uuid == Some(uuid)
    requires s.flush.gen == s.bufs[s.writer.value].gen
    ensures Lands(s, limit, [FinishFlush], uuid)
  {
    var s' := EndFlush(s);
    FinishKeeps(s, limit, FinishFlush);
    assert !Emptying(s', s.writer.value) && !SomeLocked(s');
    assert After(s', limit, []) == s' && [FinishFlush][1..] == [];
  }

  lemma LandsAfter(s: State, limit: Option<nat>, step: Step, rest: seq<Step>, uuid: Uuid)
    requires Enabled(s, limit, step) && Calm(s, limit, step) && Lands(Apply(s, limit, step), limit, rest, uuid)
    requires Apply(s, limit, step).spec == s.spec && Apply(s, limit, step).writer == s.writer
    ensures Lands(s, limit, [step] + rest, uuid)
  {
    assert ([step] + rest)[1..] == rest;
  }

  lemma QuietLinkLands(s: State, limit: Option<nat>, uuid: Uuid)
    requires Inv(s, limit) && s.writer.Some? && s.rpcs == map[] && s.flush.Uploaded?
    requires s.flush.gen == s.bufs[s.writer.value].gen
    requires LinkTarget(s, s.bufs[s.writer.value].existing, uuid)
    ensures Lands(s, limit, QuietLink(uuid), uuid)
  {
    var s1 := Link(s, uuid);
    assert !Emptying(s, s.writer.value) && !SomeLocked(s1);
    LinkKeeps(s, limit, LinkEntry(uuid));
    QuietEnd(s1, limit, uuid);
    LandsAfter(s, limit, LinkEntry(uuid), [FinishFlush], uuid);
    assert [LinkEntry(uuid)] + [FinishFlush] == QuietLink(uuid);
  }

  /** The entry the buffer knows is the one under the name; or it knows none and
      the name is free. */
  predicate Linkable(s: State)
    requires s.writer.Some? && s.writer.value in s.bufs
  {
    s.bufs[s.writer.value].existing == s.listed
  }

  /** The uuid the next flush of that buffer will end up with. */
  ghost predicate NextUuid(s: State, uuid: Uuid)
    requires s.writer.Some? && s.writer.value in s.bufs
  {
    var b := s.bufs[s.writer.value];
    if b.existing.Some? && b.size > 0 then uuid == b.existing.value else NewUuid(s, uuid)
  }

  lemma UploadingLands(s: State, limit: Option<nat>, fileId: FileId, uuid: Uuid)
    requires Inv(s, limit) && s.writer.Some? && s.rpcs == map[] && fileId !in s.store
    requires s.flush.Reading? && s.flush.gen == s.bufs[s.writer.value].gen && s.flush.size > 0
    requires Linkable(s) && NextUuid(s, uuid)
    ensures Lands(s, limit, [FinishUpload(fileId, s.bufs[s.writer.value].file)] + QuietLink(uuid), uuid)
  {
    var b := s.bufs[s.writer.value];
    var upload := FinishUpload(fileId, b.file);
    assert !Emptying(s, s.writer.value);
    assert Clip(s.spec, |s.spec|) == s.spec;
    UploadKeeps(s, limit, upload);
    QuietLinkLands(EndUpload(s, fileId, b.file), limit, uuid);
    LandsAfter(s, limit, upload, QuietLink(uuid), uuid);
  }

  lemma QuietUploadLands(s: State, limit: Option<nat>, fileId: FileId, uuid: Uuid)
    requires Inv(s, limit) && FlushWanted(s) && s.rpcs == map[] && fileId !in s.store && s.spec != []
    requires Linkable(s) && NextUuid(s, uuid)
    ensures Lands(s, limit, QuietFlush(s, fileId, uuid), uuid)
  {
    var upload := FinishUpload(fileId, s.bufs[s.writer.value].file);
    SnapshotKeeps(s, limit);
    UploadingLands(BeginFlush(s, limit), limit, fileId, uuid);
    LandsAfter(s, limit, StartFlush, [upload] + QuietLink(uuid), uuid);
    assert [StartFlush] + ([upload] + QuietLink(uuid)) == QuietFlush(s, fileId, uuid);
  }

  lemma QuietEmptyingLands(s: State, limit: Option<nat>, fileId: FileId, uuid: Uuid)
    requires Inv(s, limit) && FlushWanted(s) && s.rpcs == map[] && s.spec == []
    requires s.bufs[s.writer.value].existing.Some? && Linkable(s) && NextUuid(s, uuid)
    ensures Lands(s, limit, QuietFlush(s, fileId, uuid), uuid)
  {
    SnapshotKeeps(s, limit);
    QuietLinkLands(BeginFlush(s, limit), limit, uuid);
    LandsAfter(s, limit, StartFlush, QuietLink(uuid), uuid);
  }

  /** Flushing makes progress. From every reachable state with a dirty buffer,
      no flush and no RPC in flight, and an entry to replace or a free name, that
      flush can run to its end, and then Drive holds the plain file and the
      buffer is clean. */
  lemma QuietFlushLands(s: State, limit: Option<nat>, fileId: FileId, uuid: Uuid)
    requires Inv(s, limit) && s.writer.Some? && s.bufs[s.writer.value].dirty
    requires s.flush.Idle? && s.rpcs == map[] && fileId !in s.store
    requires Linkable(s) && NextUuid(s, uuid)
    ensures var steps := QuietFlush(s, fileId, uuid);
            && IsCalmRun(s, limit, steps) && IsRun(s, limit, steps)
            && var s' := After(s, limit, steps);
            && s'.spec == s.spec && Settled(s')
            && s'.writer == s.writer && s'.writer.value in s'.bufs && !s'.bufs[s.writer.value].dirty
            && (s.spec != [] || s.bufs[s.writer.value].existing.Some? ==> s'.node.uuid == Some(uuid))
  {
    var b := s.bufs[s.writer.value];
    if b.size > 0 {
      QuietUploadLands(s, limit, fileId, uuid);
    } else if b.existing.Some? {
      QuietEmptyingLands(s, limit, fileId, uuid);
    } else {
      SnapshotKeeps(s, limit);
      assert QuietFlush(s, fileId, uuid)[1..] == [];
    }
  }
}
