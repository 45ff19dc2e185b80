/** The NFS write buffer: one temp file per written inode, its counters, and
    the atomic changes the RPCs and the flusher make to it. */
module NfsBuffer {
  import opened Basics

  type Uuid = nat
  type FileId = nat

  /** A client mutation, and what it does to a plain file. */
  datatype Mutation = Write(offset: nat, data: seq<byte>) | Truncate(size: nat)

  function PlainApply(file: seq<byte>, m: Mutation): seq<byte> {
    match m
    case Write(offset, data) => WriteFile(file, offset, data)
    case Truncate(size) => SetLen(file, size)
  }

  /** What the inode table remembers of a file. */
  datatype Node = Node(uuid: Option<Uuid>, fileId: Option<FileId>, size: nat)

  /** `hollow` is a history bit: a truncate to zero has declared the buffer
      materialized although the Drive content was never pulled, and has not
      yet cut the temp file. `missing` is history too: where bytes of that
      content should be then and are not. */
  datatype Buffer = Buffer(
    file: seq<byte>,
    materialized: bool,
    hollow: bool,
    missing: set<nat>,
    dirty: bool,
    size: nat,
    gen: nat,
    existing: Option<Uuid>,
    base: Node)

  function NewBuffer(node: Node): Buffer {
    Buffer([], false, false, {}, false, node.size, 0, node.uuid, node)
  }

  /** A successful `ensure_materialized`: the content is written over whatever
      an earlier, failed download left behind. */
  function Materialized(b: Buffer, content: seq<byte>): Buffer {
    if b.materialized then
      b
    else if b.base.fileId.Some? && b.base.size > 0 then
      b.(file := WriteFile(b.file, 0, content), size := b.base.size, materialized := true)
    else
      b.(materialized := true)
  }

  /** A download that fails after `got` bytes. */
  function PartlyMaterialized(b: Buffer, content: seq<byte>, got: nat): Buffer
    requires got <= |content|
  {
    if b.materialized || b.base.fileId.None? || b.base.size == 0 then b
    else b.(file := WriteFile(b.file, 0, content[..got]))
  }

  /** A truncate to zero skips the download. */
  function DeclaredEmpty(b: Buffer): Buffer {
    if b.materialized then b
    else b.(materialized := true, hollow := true, missing := Positions(|b.file|, b.size))
  }

  /** The part of a mutation made under the file lock, up to its return. */
  function Committed(b: Buffer, m: Mutation): Buffer {
    match m
    case Write(offset, data) =>
      b.(file := WriteFile(b.file, offset, data),
         missing := if b.hollow then set i | i in b.missing && !(offset <= i < offset + |data|) else {},
         size := Max(b.size, offset + |data|),
         gen := b.gen + 1,
         dirty := true)
    case Truncate(size) =>
      b.(file := SetLen(b.file, size),
         size := size,
         gen := b.gen + 1,
         dirty := true,
         hollow := b.hollow && size != 0,
         missing := if b.hollow && size != 0 then set i | i in b.missing && i < size else {})
  }

  function Cleared(b: Buffer, gen: nat): Buffer {
    if b.gen == gen then b.(dirty := false) else b
  }

  /** The size counter follows the temp file except after an empty write past
      the end, which moves the counter and leaves the file alone. */
  lemma CounterFollowsFile(b: Buffer, m: Mutation)
    requires b.size == |b.file|
    ensures Committed(b, m).size == |Committed(b, m).file|
       <==> !(m.Write? && m.data == [] && m.offset > b.size)
    ensures Committed(b, m).file == PlainApply(b.file, m)
  {
    match m
    case Write(offset, data) =>
      if data != [] {
        WriteFileAt(b.file, offset, data, 0);
      }
    case Truncate(_) =>
  }

  /** Seconds slept before retry number `failCount`: zero without a failure,
      otherwise RETRY_BASE * 2^(failCount - 1) capped at RETRY_MAX. */
  const RETRY_BASE: nat := 2
  const RETRY_MAX: nat := 60
  const FLUSH_IDLE: nat := 2
  const EVICT_IDLE: nat := 30
  const U32_MAX: nat := 0xFFFF_FFFF

  type u32 = n: int | 0 <= n <= U32_MAX

  function Pow2(n: nat): nat {
    if n == 0 then 1 else 2 * Pow2(n - 1)
  }

  function RetryBackoff(failCount: u32): nat {
    if failCount == 0 then 0
    else Min(RETRY_BASE * Pow2(Min(failCount - 1, 31)), RETRY_MAX)
  }

  lemma {:induction false} Pow2Monotone(a: nat, b: nat)
    requires a <= b
    ensures 1 <= Pow2(a) <= Pow2(b)
  {
    if a > 0 {
      Pow2Monotone(a - 1, b - 1);
    } else if b > 0 {
      Pow2Monotone(0, b - 1);
    }
  }

  lemma Pow2Of31()
    ensures Pow2(31) == 0x8000_0000
  {
    assert Pow2(8) == 256;
    assert Pow2(16) == 0x1_0000;
    assert Pow2(24) == 0x100_0000;
  }

  /** The clamped shift never shows: over all u32 counts the delay is
      min(60, 2^n), and neither the shift nor the product leaves 32 bits of
      shift and 64 bits of seconds. */
  lemma RetryBackoffIsCappedPower(n: u32)
    requires n >= 1
    ensures RetryBackoff(n) == Min(60, Pow2(n))
    ensures Pow2(Min(n - 1, 31)) <= U32_MAX && RETRY_BASE * Pow2(Min(n - 1, 31)) <= U64_MAX
  {
    Pow2Monotone(Min(n - 1, 31), 31);
    Pow2Of31();
    if n > 31 {
      Pow2Monotone(31, n);
    }
  }

  /** What the sweep looks at before it flushes a buffer. Times are seconds on
      the server's monotonic clock. */
  datatype Pace = Pace(dirty: bool, lastWrite: nat, failCount: u32, lastAttempt: nat) {
    predicate Due(now: nat) {
      && dirty
      && now - lastWrite >= FLUSH_IDLE
      && (failCount > 0 ==> now - lastAttempt >= RetryBackoff(failCount))
    }

    predicate Evictable(now: nat) {
      !dirty && now - lastWrite >= EVICT_IDLE
    }

    /** The 32-bit counter wraps. */
    function Failed(now: nat): Pace {
      this.(failCount := if failCount == U32_MAX then 0 else failCount + 1, lastAttempt := now)
    }
  }

  /** When a buffer is tried and when it is dropped, in seconds. */
  lemma SweepTimes(p: Pace, now: nat)
    ensures p.Due(now) <==>
              p.dirty && now >= p.lastWrite + 2 && (p.failCount == 0 || now >= p.lastAttempt + Min(60, Pow2(p.failCount)))
    ensures p.Evictable(now) <==> !p.dirty && now >= p.lastWrite + 30
  {
    if p.failCount > 0 {
      RetryBackoffIsCappedPower(p.failCount);
    }
  }

  /** The buffer as the server holds it. `file` stands for the temp file. */
  class WriteBuffer {
    var file: seq<byte>
    var materialized: bool
    ghost var hollow: bool
    ghost var missing: set<nat>
    var dirty: bool
    var size: nat
    var writeGen: nat
    var lastWrite: nat
    var failCount: u32
    var lastAttempt: nat
    var existingUuid: Option<Uuid>
    const base: Node

    ghost function Value(): Buffer
      reads this
    {
      Buffer(file, materialized, hollow, missing, dirty, size, writeGen, existingUuid, base)
    }

    function Pacing(): Pace
      reads this
    {
      Pace(dirty, lastWrite, failCount, lastAttempt)
    }

    constructor (node: Node, now: nat)
      ensures Value() == NewBuffer(node)
      ensures lastWrite == lastAttempt == now && failCount == 0
    {
      file, materialized, hollow, missing, dirty := [], false, false, {}, false;
      size, writeGen, existingUuid, base := node.size, 0, node.uuid, node;
      lastWrite, lastAttempt, failCount := now, now, 0;
    }

    /** `arrived` is what the network delivered of `content`, the bytes behind
        the base file id, before it finished or broke off. */
    method EnsureMaterialized(content: seq<byte>, arrived: nat) returns (ok: bool)
      requires arrived <= |content|
      modifies this`file, this`size, this`materialized
      ensures ok <==> old(materialized) || base.fileId.None? || base.size == 0 || arrived == |content|
      ensures Value() == if ok then Materialized(old(Value()), content)
                         else PartlyMaterialized(old(Value()), content, arrived)
    {
      if materialized {
        return true;
      }
      if base.fileId.Some? {
        if base.size > 0 {
          file := WriteFile(file, 0, content[..arrived]);
          if arrived < |content| {
            return false;
          }
          assert content[..arrived] == content;
          size := base.size;
        }
      }
      materialized := true;
      ok := true;
    }

    /** `write_at` once the content is there. */
    method WriteAt(offset: nat, data: seq<byte>, now: nat)
      modifies this`file, this`missing, this`size, this`writeGen, this`dirty, this`lastWrite
      ensures Value() == Committed(old(Value()), Write(offset, data))
      ensures dirty && lastWrite == now && failCount == old(failCount) && lastAttempt == old(lastAttempt)
    {
      missing := if hollow then set i | i in missing && !(offset <= i < offset + |data|) else {};
      file := WriteFile(file, offset, data);
      if size < offset + |data| {
        size := offset + |data|;
      }
      writeGen := writeGen + 1;
      dirty := true;
      lastWrite := now;
    }

    method DeclareEmpty()
      modifies this`materialized, this`hollow, this`missing
      ensures Value() == DeclaredEmpty(old(Value()))
    {
      if !materialized {
        hollow, missing := true, Positions(|file|, size);
      }
      materialized := true;
    }

    /** The size branch of `setattr` under the file lock. */
    method Resize(sz: nat, now: nat)
      modifies this`file, this`size, this`writeGen, this`dirty, this`hollow, this`missing, this`lastWrite
      ensures Value() == Committed(old(Value()), Truncate(sz))
      ensures dirty && lastWrite == now && failCount == old(failCount) && lastAttempt == old(lastAttempt)
    {
      file := SetLen(file, sz);
      size := sz;
      writeGen := writeGen + 1;
      missing := if hollow && sz != 0 then set i | i in missing && i < sz else {};
      hollow := hollow && sz != 0;
      dirty := true;
      lastWrite := now;
    }

    /** True exactly when nothing was written since the snapshot, and only then
        does `dirty` fall. */
    method ClearDirtyIfUnchanged(genBefore: nat) returns (cleared: bool)
      modifies this`dirty
      ensures cleared <==> writeGen == genBefore
      ensures Value() == Cleared(old(Value()), genBefore)
      ensures !cleared ==> dirty == old(dirty)
    {
      if writeGen == genBefore {
        dirty := false;
        return true;
      }
      return false;
    }

    method RecordFlushFailure(now: nat)
      modifies this`failCount, this`lastAttempt
      ensures failCount == if old(failCount) == 0xFFFF_FFFF then 0 else old(failCount) + 1
      ensures lastAttempt == now
    {
      failCount := if failCount == U32_MAX then 0 else failCount + 1;
      lastAttempt := now;
    }

    method RecordFlushSuccess(now: nat)
      modifies this`failCount, this`lastAttempt
      ensures failCount == 0 && lastAttempt == now
    {
      failCount := 0;
      lastAttempt := now;
    }

    /** One sweep over this buffer when the upload, if it is tried, fails at
        time `failed`. Nothing but the failure is recorded. */
    method SweepFailing(now: nat, failed: nat) returns (attempted: bool)
      modifies this`failCount, this`lastAttempt
      ensures attempted <==>
                && old(dirty) && now >= old(lastWrite) + 2
                && (old(failCount) == 0 || now >= old(lastAttempt) + Min(60, Pow2(old(failCount))))
      ensures Pacing() == if attempted then old(Pacing()).Failed(failed) else old(Pacing())
      ensures Value() == old(Value())
    {
      SweepTimes(Pacing(), now);
      attempted := Pacing().Due(now);
      if attempted {
        RecordFlushFailure(failed);
      }
    }

    /** Reading the temp file returns short counts in any pattern; the loop
        still delivers the whole slice of the first `size` bytes. */
    method ReadAt(offset: nat, len: nat) returns (buf: seq<byte>)
      ensures buf == Slice(Clip(file, size), offset, len)
    {
      if offset >= size {
        return [];
      }
      var cap := Min(size - offset, len);
      buf := [];
      while |buf| < cap
        invariant |buf| <= cap
        invariant buf != [] ==> offset + |buf| <= |file| && buf == file[offset..offset + |buf|]
        decreases cap - |buf|
      {
        var pos := offset + |buf|;
        if |file| <= pos {
          break;
        }
        var most := Min(cap - |buf|, |file| - pos);
        var n: nat :| 1 <= n <= most;
        Glue(file, offset, pos, pos + n);
        buf := buf + file[pos..pos + n];
      }
      assert buf == Slice(file, offset, cap);
      SliceOfClip(file, size, offset, len);
    }
  }
}
