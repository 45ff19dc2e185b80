/** One NFS file as a state machine: RPCs, flush and sweep interleaved at the
    points where the server awaits. `spec` is a history variable, the plain
    byte array with every committed mutation applied in commit order. */
module NfsProtocol {
  import opened Basics
  import opened NfsBuffer

  type BufId = nat

  type RpcId = nat

  /** A Drive entry and the streaming reader both name content by file id. */
  datatype Entry = Entry(fileId: Option<FileId>, size: nat)

  datatype Reader = Reader(fileId: Option<FileId>, size: nat)

  /** Where an RPC stands. `buf` is the Arc it holds. In the read phases
      `seen` is the size loaded when the RPC began and `size` the one the reply
      is cut at; `snap` is history, the plain file when a streamed read began. */
  datatype Rpc =
    | Cloned(m: Mutation, node: Node)
    | Attached(m: Mutation, buf: BufId)
    | Ready(m: Mutation, buf: BufId)
    | Locked(m: Mutation, buf: BufId)
    | ReadAttached(offset: nat, len: nat, buf: BufId, seen: nat)
    | ReadSized(offset: nat, len: nat, buf: BufId, seen: nat, size: nat)
    | ReadStream(offset: nat, len: nat, reader: Reader, ghost snap: seq<byte>)

  /** The flush in flight. `torn`: some write took the file lock after the
      snapshot and before the out-of-band read ended. */
  datatype Flush =
    | Idle
    | Reading(buf: BufId, gen: nat, size: nat, torn: bool)
    | Uploaded(buf: BufId, gen: nat, size: nat, fileId: Option<FileId>)
    | Linked(buf: BufId, gen: nat, size: nat, fileId: Option<FileId>)

  /** `listed` is the entry Drive has under the file's name, which need not be
      the one the node or a buffer knows: an answer may be lost. `past` has
      every entry that was ever listed under it. `frozen` is history: for every
      evicted buffer, the plain file then. */
  datatype State = State(
    node: Node,
    reader: Option<Reader>,
    writer: Option<BufId>,
    bufs: map<BufId, Buffer>,
    rpcs: map<RpcId, Rpc>,
    flush: Flush,
    entries: map<Uuid, Entry>,
    listed: Option<Uuid>,
    past: set<Node>,
    store: map<FileId, seq<byte>>,
    ghost frozen: map<BufId, seq<byte>>,
    ghost spec: seq<byte>)

  datatype Step =
    | StartMutation(rpc: RpcId, m: Mutation)
    | Attach(rpc: RpcId, newBuf: BufId)
    | Materialize(rpc: RpcId)
    | MaterializeFails(rpc: RpcId, got: nat)
    | DeclareEmpty(rpc: RpcId)
    | TakeLock(rpc: RpcId)
    | Commit(rpc: RpcId)
    | StartRead(rpc: RpcId, offset: nat, len: nat)
    | LoadSize(rpc: RpcId)
    | FinishRead(rpc: RpcId)
    | StartFlush
    | FinishUpload(fileId: FileId, bytes: seq<byte>)
    | LinkEntry(uuid: Uuid)
    | FinishFlush
    | FlushFails(landed: Option<Uuid>)
    | Evict
    | Refresh(shown: Node)

  predicate IsFlushStep(step: Step) {
    step.StartFlush? || step.FinishUpload? || step.LinkEntry? || step.FinishFlush? || step.FlushFails?
  }

  /** The steps of the flusher, the sweep and listings. */
  predicate IsServerStep(step: Step) {
    IsFlushStep(step) || step.Evict? || step.Refresh?
  }

  /** The upload limit; `None` is unlimited. */
  predicate Allowed(limit: Option<nat>, size: nat) {
    limit.Some? ==> size <= limit.value
  }

  function Content(store: map<FileId, seq<byte>>, fileId: Option<FileId>): seq<byte> {
    if fileId.Some? && fileId.value in store then store[fileId.value] else []
  }

  predicate HoldsBuffer(r: Rpc) {
    !r.Cloned? && !r.ReadStream?
  }

  predicate LockFree(s: State, buf: BufId) {
    forall id | id in s.rpcs :: !(s.rpcs[id].Locked? && s.rpcs[id].buf == buf)
  }

  // ---- which steps can happen ----

  /** `write` refuses an end past 64 bits or over the limit before it does
      anything; `setattr` checks nothing. */
  predicate Accepted(limit: Option<nat>, m: Mutation) {
    m.Write? ==> m.offset + |m.data| <= U64_MAX && Allowed(limit, m.offset + |m.data|)
  }

  predicate FlushWanted(s: State) {
    && s.flush.Idle?
    && s.writer.Some?
    && s.writer.value in s.bufs
    && s.bufs[s.writer.value].dirty
    && LockFree(s, s.writer.value)
  }

  predicate RpcAt(s: State, id: RpcId) {
    id in s.rpcs && (HoldsBuffer(s.rpcs[id]) ==> s.rpcs[id].buf in s.bufs)
  }

  predicate NewUuid(s: State, uuid: Uuid) {
    uuid !in s.entries && forall n | n in s.past :: n.uuid != Some(uuid)
  }

  /** Only the entry under the file's name can be replaced, and a create is
      refused when there is one. Replacing keeps the uuid unless the new content
      is empty, when the entry is trashed and made again under a new one. */
  predicate LinkTarget(s: State, existing: Option<Uuid>, uuid: Uuid)
    requires s.flush.Uploaded?
  {
    existing == s.listed && if existing.Some? && s.flush.size > 0 then uuid == existing.value else NewUuid(s, uuid)
  }

  predicate Enabled(s: State, limit: Option<nat>, step: Step) {
    match step
    case StartMutation(id, m) => id !in s.rpcs && Accepted(limit, m)
    case Attach(id, newBuf) => id in s.rpcs && s.rpcs[id].Cloned? && newBuf !in s.bufs
    case Materialize(id) =>
      RpcAt(s, id) && (s.rpcs[id].ReadAttached? || (s.rpcs[id].Attached? && s.rpcs[id].m != Truncate(0)))
    case MaterializeFails(id, got) =>
      && RpcAt(s, id) && (s.rpcs[id].ReadAttached? || (s.rpcs[id].Attached? && s.rpcs[id].m != Truncate(0)))
      && !s.bufs[s.rpcs[id].buf].materialized
      && got <= |Content(s.store, s.bufs[s.rpcs[id].buf].base.fileId)|
    case DeclareEmpty(id) => RpcAt(s, id) && s.rpcs[id].Attached? && s.rpcs[id].m == Truncate(0)
    case TakeLock(id) => RpcAt(s, id) && s.rpcs[id].Ready? && LockFree(s, s.rpcs[id].buf)
    case Commit(id) => RpcAt(s, id) && s.rpcs[id].Locked?
    case StartRead(id, _, _) => id !in s.rpcs && (s.writer.Some? ==> s.writer.value in s.bufs)
    case LoadSize(id) => RpcAt(s, id) && s.rpcs[id].ReadAttached? && s.bufs[s.rpcs[id].buf].materialized
    case FinishRead(id) =>
      RpcAt(s, id) && (s.rpcs[id].ReadStream? || (s.rpcs[id].ReadSized? && LockFree(s, s.rpcs[id].buf)))
    case StartFlush => FlushWanted(s)
    case FinishUpload(fileId, bytes) =>
      && s.flush.Reading? && s.flush.buf in s.bufs
      && fileId !in s.store && |bytes| == s.flush.size
      && (s.flush.torn || bytes == Clip(s.bufs[s.flush.buf].file, s.flush.size))
    case LinkEntry(uuid) =>
      && s.flush.Uploaded? && s.flush.buf in s.bufs
      && LinkTarget(s, s.bufs[s.flush.buf].existing, uuid)
    case FinishFlush => s.flush.Linked? && s.flush.buf in s.bufs
    case FlushFails(landed) =>
      && (s.flush.Reading? || s.flush.Uploaded?) && s.flush.buf in s.bufs
      && (landed.Some? ==> s.flush.Uploaded? && LinkTarget(s, s.bufs[s.flush.buf].existing, landed.value))
    case Evict => s.writer.Some? && s.writer.value in s.bufs && !s.bufs[s.writer.value].dirty
    case Refresh(shown) => shown in s.past
  }

  // ---- what they do ----

  function PutEntry(s: State, existing: Option<Uuid>, uuid: Uuid): map<Uuid, Entry>
    requires s.flush.Uploaded?
  {
    var kept := if existing.Some? && existing.value != uuid then s.entries - {existing.value} else s.entries;
    kept[uuid := Entry(s.flush.fileId, s.flush.size)]
  }

  /** Drive after a link, whether the server here hears of it or not. */
  ghost function Landed(s: State, existing: Option<Uuid>, uuid: Uuid): State
    requires s.flush.Uploaded?
  {
    s.(entries := PutEntry(s, existing, uuid),
       listed := Some(uuid),
       past := s.past + {Node(Some(uuid), s.flush.fileId, s.flush.size)})
  }

  /** The reply to a read: data, and whether it reaches the end. */
  function Reply(s: State, id: RpcId): (seq<byte>, bool)
    requires id in s.rpcs && (s.rpcs[id].ReadStream? || (s.rpcs[id].ReadSized? && s.rpcs[id].buf in s.bufs))
  {
    match s.rpcs[id]
    case ReadStream(offset, len, reader, _) =>
      var data := Slice(Clip(Content(s.store, reader.fileId), reader.size), offset, len);
      (data, offset + |data| >= reader.size)
    case ReadSized(offset, len, buf, seen, size) =>
      var data := Slice(Clip(s.bufs[buf].file, size), offset, len);
      (data, offset + |data| >= seen)
  }

  /** `reader_for`: the cached reader, or one built from the node. */
  function ReaderFor(s: State): Reader {
    match s.reader
    case Some(r) => r
    case None => Reader(s.node.fileId, s.node.size)
  }

  /** Where materializing leaves an RPC. */
  function AfterMaterialize(r: Rpc): Rpc
    requires r.Attached? || r.ReadAttached?
  {
    if r.Attached? then Ready(r.m, r.buf) else r
  }

  ghost function CommitRpc(s: State, id: RpcId): State
    requires RpcAt(s, id) && s.rpcs[id].Locked?
  {
    var Locked(m, c) := s.rpcs[id];
    var b := Committed(s.bufs[c], m);
    s.(bufs := s.bufs[c := b],
       rpcs := s.rpcs - {id},
       node := s.node.(size := b.size),
       reader := None,
       spec := PlainApply(s.spec, m))
  }

  ghost function BeginRead(s: State, id: RpcId, offset: nat, len: nat): State
    requires s.writer.Some? ==> s.writer.value in s.bufs
  {
    match s.writer
    case Some(c) => s.(rpcs := s.rpcs[id := ReadAttached(offset, len, c, s.bufs[c].size)])
    case None =>
      var r := ReaderFor(s);
      s.(reader := Some(r), rpcs := s.rpcs[id := ReadStream(offset, len, r, s.spec)])
  }

  /** The two early returns that make no upload: nothing to create, and too
      big. Both clear `dirty`. */
  predicate NothingToUpload(b: Buffer, limit: Option<nat>) {
    (b.size == 0 && b.existing.None?) || !Allowed(limit, b.size)
  }

  /** The snapshot. An empty file needs no upload before its entry. */
  ghost function BeginFlush(s: State, limit: Option<nat>): State
    requires FlushWanted(s)
  {
    var c := s.writer.value;
    var b := s.bufs[c];
    if NothingToUpload(b, limit) then s.(bufs := s.bufs[c := b.(dirty := false)])
    else s.(flush := if b.size == 0 then Uploaded(c, b.gen, 0, None) else Reading(c, b.gen, b.size, false))
  }

  ghost function Link(s: State, uuid: Uuid): State
    requires s.flush.Uploaded? && s.flush.buf in s.bufs
  {
    var Uploaded(c, gen, size, fileId) := s.flush;
    Landed(s, s.bufs[c].existing, uuid).(
      bufs := s.bufs[c := s.bufs[c].(existing := Some(uuid))],
      node := s.node.(uuid := Some(uuid)),
      flush := Linked(c, gen, size, fileId))
  }

  ghost function EndFlush(s: State): State
    requires s.flush.Linked? && s.flush.buf in s.bufs
  {
    var Linked(c, gen, size, fileId) := s.flush;
    s.(bufs := s.bufs[c := Cleared(s.bufs[c], gen)],
       node := s.node.(fileId := fileId, size := size),
       reader := None,
       flush := Idle)
  }

  ghost function StartRpc(s: State, id: RpcId, m: Mutation): State {
    s.(rpcs := s.rpcs[id := Cloned(m, s.node)])
  }

  ghost function AttachBuffer(s: State, id: RpcId, newBuf: BufId): State
    requires id in s.rpcs && s.rpcs[id].Cloned?
  {
    var Cloned(m, node) := s.rpcs[id];
    match s.writer
    case Some(c) => s.(rpcs := s.rpcs[id := Attached(m, c)])
    case None => s.(bufs := s.bufs[newBuf := NewBuffer(node)],
                    writer := Some(newBuf),
                    rpcs := s.rpcs[id := Attached(m, newBuf)])
  }

  ghost function Pull(s: State, id: RpcId): State
    requires RpcAt(s, id) && (s.rpcs[id].Attached? || s.rpcs[id].ReadAttached?)
  {
    var c := s.rpcs[id].buf;
    s.(bufs := s.bufs[c := Materialized(s.bufs[c], Content(s.store, s.bufs[c].base.fileId))],
       rpcs := s.rpcs[id := AfterMaterialize(s.rpcs[id])])
  }

  ghost function FailPull(s: State, id: RpcId, got: nat): State
    requires RpcAt(s, id) && HoldsBuffer(s.rpcs[id]) && got <= |Content(s.store, s.bufs[s.rpcs[id].buf].base.fileId)|
  {
    var c := s.rpcs[id].buf;
    s.(bufs := s.bufs[c := PartlyMaterialized(s.bufs[c], Content(s.store, s.bufs[c].base.fileId), got)],
       rpcs := s.rpcs - {id})
  }

  ghost function SkipPull(s: State, id: RpcId): State
    requires RpcAt(s, id) && s.rpcs[id].Attached?
  {
    var Attached(m, c) := s.rpcs[id];
    s.(bufs := s.bufs[c := DeclaredEmpty(s.bufs[c])], rpcs := s.rpcs[id := Ready(m, c)])
  }

  ghost function LockFile(s: State, id: RpcId): State
    requires id in s.rpcs && s.rpcs[id].Ready?
  {
    var Ready(m, c) := s.rpcs[id];
    s.(rpcs := s.rpcs[id := Locked(m, c)],
       flush := if s.flush.Reading? && s.flush.buf == c then s.flush.(torn := true) else s.flush)
  }

  ghost function SizeRead(s: State, id: RpcId): State
    requires RpcAt(s, id) && s.rpcs[id].ReadAttached?
  {
    var ReadAttached(offset, len, c, seen) := s.rpcs[id];
    s.(rpcs := s.rpcs[id := ReadSized(offset, len, c, seen, s.bufs[c].size)])
  }

  ghost function EndUpload(s: State, fileId: FileId, bytes: seq<byte>): State
    requires s.flush.Reading?
  {
    var Reading(c, gen, size, _) := s.flush;
    s.(store := s.store[fileId := bytes], flush := Uploaded(c, gen, size, Some(fileId)))
  }

  ghost function FailFlush(s: State, landed: Option<Uuid>): State
    requires (s.flush.Reading? || s.flush.Uploaded?) && s.flush.buf in s.bufs && (landed.Some? ==> s.flush.Uploaded?)
  {
    if landed.Some? then Landed(s, s.bufs[s.flush.buf].existing, landed.value).(flush := Idle)
    else s.(flush := Idle)
  }

  ghost function DropWriter(s: State): State
    requires s.writer.Some?
  {
    s.(writer := None, frozen := s.frozen[s.writer.value := s.spec])
  }

  /** A lookup or a listing interns what it was shown under the name. */
  ghost function RefreshNode(s: State, shown: Node): State {
    s.(node := shown)
  }

  ghost function Apply(s: State, limit: Option<nat>, step: Step): State
    requires Enabled(s, limit, step)
  {
    match step
    case StartMutation(id, m) => StartRpc(s, id, m)
    case Attach(id, newBuf) => AttachBuffer(s, id, newBuf)
    case Materialize(id) => Pull(s, id)
    case MaterializeFails(id, got) => FailPull(s, id, got)
    case DeclareEmpty(id) => SkipPull(s, id)
    case TakeLock(id) => LockFile(s, id)
    case Commit(id) => CommitRpc(s, id)
    case StartRead(id, offset, len) => BeginRead(s, id, offset, len)
    case LoadSize(id) => SizeRead(s, id)
    case FinishRead(id) => s.(rpcs := s.rpcs - {id})
    case StartFlush => BeginFlush(s, limit)
    case FinishUpload(fileId, bytes) => EndUpload(s, fileId, bytes)
    case LinkEntry(uuid) => Link(s, uuid)
    case FinishFlush => EndFlush(s)
    case FlushFails(landed) => FailFlush(s, landed)
    case Evict => DropWriter(s)
    case Refresh(shown) => RefreshNode(s, shown)
  }

  /** File id and size name exactly the bytes `f`. */
  ghost predicate Stored(s: State, fileId: Option<FileId>, size: nat, f: seq<byte>) {
    && size == |f|
    && (fileId.Some? ==> fileId.value in s.store)
    && Content(s.store, fileId) == f
  }

  /** A file as the inode table first sees it: on Drive, or created here and
      not yet on Drive. */
  ghost predicate Initial(s: State) {
    && s.reader.None? && s.writer.None? && s.bufs == map[] && s.rpcs == map[] && s.flush.Idle? && s.frozen == map[]
    && Stored(s, s.node.fileId, s.node.size, s.spec) && s.listed == s.node.uuid
    && (s.node.uuid.None? ==> s.node.fileId.None? && s.past == {})
    && (s.node.uuid.Some? ==> s.node.uuid.value in s.entries && s.past == {s.node}
                              && s.entries[s.node.uuid.value] == Entry(s.node.fileId, s.node.size))
  }

  /** A run: every step was possible when it was taken. */
  ghost predicate IsRun(s: State, limit: Option<nat>, steps: seq<Step>)
    decreases |steps|
  {
    steps == [] || (Enabled(s, limit, steps[0]) && IsRun(Apply(s, limit, steps[0]), limit, steps[1..]))
  }

  ghost function After(s: State, limit: Option<nat>, steps: seq<Step>): State
    requires IsRun(s, limit, steps)
    decreases |steps|
  {
    if steps == [] then s else After(Apply(s, limit, steps[0]), limit, steps[1..])
  }

  /** Where the first `k` steps of a run lead. */
  ghost function StateAt(s: State, limit: Option<nat>, steps: seq<Step>, k: nat): State
    requires IsRun(s, limit, steps) && k <= |steps|
    decreases k
  {
    if k == 0 then s else StateAt(Apply(s, limit, steps[0]), limit, steps[1..], k - 1)
  }

  lemma {:induction false} AllSteps(s: State, limit: Option<nat>, steps: seq<Step>)
    requires IsRun(s, limit, steps)
    ensures StateAt(s, limit, steps, |steps|) == After(s, limit, steps)
    decreases |steps|
  {
    if steps != [] {
      AllSteps(Apply(s, limit, steps[0]), limit, steps[1..]);
    }
  }

  lemma {:induction false} NextState(s: State, limit: Option<nat>, steps: seq<Step>, k: nat)
    requires IsRun(s, limit, steps) && k < |steps|
    ensures Enabled(StateAt(s, limit, steps, k), limit, steps[k])
    ensures StateAt(s, limit, steps, k + 1) == Apply(StateAt(s, limit, steps, k), limit, steps[k])
    decreases k
  {
    if k > 0 {
      NextState(Apply(s, limit, steps[0]), limit, steps[1..], k - 1);
    } else {
      var s1 := Apply(s, limit, steps[0]);
      assert StateAt(s, limit, steps, 1) == StateAt(s1, limit, steps[1..], 0) == s1;
    }
  }

  lemma RunSnoc(s: State, limit: Option<nat>, steps: seq<Step>, last: Step)
    requires IsRun(s, limit, steps) && Enabled(After(s, limit, steps), limit, last)
    ensures IsRun(s, limit, steps + [last])
    ensures After(s, limit, steps + [last]) == Apply(After(s, limit, steps), limit, last)
    decreases |steps|
  {
    if steps == [] {
      assert ([] + [last])[1..] == [];
    } else {
      assert (steps + [last])[1..] == steps[1..] + [last];
      RunSnoc(Apply(s, limit, steps[0]), limit, steps[1..], last);
    }
  }

  /** Some run from a fresh file leads here. */
  ghost predicate Reachable(s: State, limit: Option<nat>) {
    exists s0: State, steps: seq<Step> :: Initial(s0) && IsRun(s0, limit, steps) && After(s0, limit, steps) == s
  }

  lemma StepReaches(s: State, limit: Option<nat>, step: Step)
    requires Reachable(s, limit) && Enabled(s, limit, step)
    ensures Reachable(Apply(s, limit, step), limit)
  {
    var s0: State, steps: seq<Step> :| Initial(s0) && IsRun(s0, limit, steps) && After(s0, limit, steps) == s;
    RunSnoc(s0, limit, steps, step);
  }
}
