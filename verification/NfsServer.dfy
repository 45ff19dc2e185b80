/** The flusher and the sweep as the server runs them for one file, each
    proved to be a run of the protocol's steps. */
module NfsServer {
  import opened Basics
  import opened NfsBuffer
  import opened NfsProtocol
  import opened RetryPacing

  /** How the network treats one flush. */
  datatype Outcome =
    | UploadFails
    | LinkFails(fileId: FileId, landed: Option<Uuid>)
    | Lands(fileId: FileId, uuid: Uuid)

  /** After the upload, if the file is not empty. */
  ghost function UploadedAs(s: State, fileId: FileId): State
    requires (s.flush.Reading? || s.flush.Uploaded?) && s.flush.buf in s.bufs
  {
    if s.flush.Reading? then
      s.(store := s.store[fileId := Clip(s.bufs[s.flush.buf].file, s.flush.size)],
         flush := Uploaded(s.flush.buf, s.flush.gen, s.flush.size, Some(fileId)))
    else s
  }

  /** The outcome is one the protocol allows from here. */
  ghost predicate Possible(s: State, limit: Option<nat>, o: Outcome)
    requires FlushWanted(s)
  {
    var s1 := BeginFlush(s, limit);
    !s1.flush.Idle? && !o.UploadFails? ==>
      && o.fileId !in s.store && s.bufs[s.writer.value].size <= |s.bufs[s.writer.value].file|
      && (o.LinkFails? && o.landed.Some? ==>
            LinkTarget(UploadedAs(s1, o.fileId), s.bufs[s.writer.value].existing, o.landed.value))
      && (o.Lands? ==> LinkTarget(UploadedAs(s1, o.fileId), s.bufs[s.writer.value].existing, o.uuid))
  }

  /** One undisturbed flush, as steps. */
  ghost function FlushSteps(s: State, limit: Option<nat>, o: Outcome): seq<Step>
    requires FlushWanted(s)
  {
    var s1 := BeginFlush(s, limit);
    var upload := if s1.flush.Reading? && !o.UploadFails?
                  then [FinishUpload(o.fileId, Clip(s.bufs[s.writer.value].file, s1.flush.size))] else [];
    if s1.flush.Idle? then [StartFlush]
    else match o
         case UploadFails => [StartFlush, FlushFails(None)]
         case LinkFails(_, landed) => [StartFlush] + upload + [FlushFails(landed)]
         case Lands(_, uuid) => [StartFlush] + upload + [LinkEntry(uuid), FinishFlush]
  }

  ghost function FlushResult(s: State, limit: Option<nat>, o: Outcome): State
    requires FlushWanted(s) && Possible(s, limit, o)
  {
    var s1 := BeginFlush(s, limit);
    if s1.flush.Idle? then s1
    else match o
         case UploadFails => Apply(s1, limit, FlushFails(None))
         case LinkFails(fileId, landed) => Apply(UploadedAs(s1, fileId), limit, FlushFails(landed))
         case Lands(fileId, uuid) => EndFlush(Link(UploadedAs(s1, fileId), uuid))
  }

  lemma OneStep(s: State, limit: Option<nat>, step: Step)
    requires Enabled(s, limit, step)
    ensures IsRun(s, limit, [step]) && After(s, limit, [step]) == Apply(s, limit, step)
  {
    assert [step][1..] == [];
    assert After(Apply(s, limit, step), limit, []) == Apply(s, limit, step);
  }

  lemma CanUpload(s: State, limit: Option<nat>, fileId: FileId)
    requires s.flush.Reading? && s.flush.buf in s.bufs && fileId !in s.store
    requires s.flush.size <= |s.bufs[s.flush.buf].file|
    ensures var upload := FinishUpload(fileId, Clip(s.bufs[s.flush.buf].file, s.flush.size));
            Enabled(s, limit, upload) && Apply(s, limit, upload) == UploadedAs(s, fileId)
  {
  }

  lemma SnapshotUploads(s: State, limit: Option<nat>)
    requires FlushWanted(s) && !BeginFlush(s, limit).flush.Idle?
    ensures var s1, c := BeginFlush(s, limit), s.writer.value;
            && s1.bufs == s.bufs && s1.store == s.store && s1.entries == s.entries && s1.listed == s.listed && s1.past == s.past
            && (s1.flush.Reading? || s1.flush.Uploaded?) && s1.flush.buf == c && s1.flush.size == s.bufs[c].size
  {
  }

  lemma RunUploads(s: State, limit: Option<nat>, steps: seq<Step>, s1: State, fileId: FileId)
    requires IsRun(s, limit, steps) && After(s, limit, steps) == s1
    requires s1.flush.Reading? && s1.flush.buf in s1.bufs && fileId !in s1.store
    requires s1.flush.size <= |s1.bufs[s1.flush.buf].file|
    ensures var upload := FinishUpload(fileId, Clip(s1.bufs[s1.flush.buf].file, s1.flush.size));
            IsRun(s, limit, steps + [upload]) && After(s, limit, steps + [upload]) == UploadedAs(s1, fileId)
  {
    CanUpload(s1, limit, fileId);
    RunSnoc(s, limit, steps, FinishUpload(fileId, Clip(s1.bufs[s1.flush.buf].file, s1.flush.size)));
  }

  lemma MayUpload(s: State, limit: Option<nat>, steps: seq<Step>, s1: State, fileId: FileId) returns (more: seq<Step>)
    requires IsRun(s, limit, steps) && After(s, limit, steps) == s1
    requires (s1.flush.Reading? || s1.flush.Uploaded?) && s1.flush.buf in s1.bufs && fileId !in s1.store
    requires s1.flush.size <= |s1.bufs[s1.flush.buf].file|
    ensures more == steps + (if s1.flush.Reading?
                 then [FinishUpload(fileId, Clip(s1.bufs[s1.flush.buf].file, s1.flush.size))] else [])
    ensures IsRun(s, limit, more) && After(s, limit, more) == UploadedAs(s1, fileId)
  {
    more := steps;
    if s1.flush.Reading? {
      RunUploads(s, limit, steps, s1, fileId);
      more := steps + [FinishUpload(fileId, Clip(s1.bufs[s1.flush.buf].file, s1.flush.size))];
    }
  }

  lemma UploadIsRun(s: State, limit: Option<nat>, fileId: FileId) returns (steps: seq<Step>)
    requires FlushWanted(s) && !BeginFlush(s, limit).flush.Idle? && fileId !in s.store
    requires s.bufs[s.writer.value].size <= |s.bufs[s.writer.value].file|
    ensures var s1 := BeginFlush(s, limit);
            && steps == [StartFlush] + (if s1.flush.Reading?
                 then [FinishUpload(fileId, Clip(s.bufs[s.writer.value].file, s1.flush.size))] else [])
            && IsRun(s, limit, steps) && After(s, limit, steps) == UploadedAs(s1, fileId)
  {
    OneStep(s, limit, StartFlush);
    SnapshotUploads(s, limit);
    steps := MayUpload(s, limit, [StartFlush], BeginFlush(s, limit), fileId);
  }

  lemma RunTwoMore(s: State, limit: Option<nat>, steps: seq<Step>, a: Step, b: Step)
    requires IsRun(s, limit, steps) && Enabled(After(s, limit, steps), limit, a)
    requires Enabled(Apply(After(s, limit, steps), limit, a), limit, b)
    ensures IsRun(s, limit, steps + [a, b])
    ensures After(s, limit, steps + [a, b]) == Apply(Apply(After(s, limit, steps), limit, a), limit, b)
  {
    RunSnoc(s, limit, steps, a);
    RunSnoc(s, limit, steps + [a], b);
    assert steps + [a] + [b] == steps + [a, b];
  }

  /** The flush is past its upload and knows its buffer. */
  lemma UploadedIsReady(s: State, limit: Option<nat>, fileId: FileId)
    requires FlushWanted(s) && !BeginFlush(s, limit).flush.Idle?
    ensures var s2 := UploadedAs(BeginFlush(s, limit), fileId);
            && s2.flush.Uploaded? && s2.flush.buf in s2.bufs
            && s2.bufs[s2.flush.buf].existing == s.bufs[s.writer.value].existing
  {
    SnapshotUploads(s, limit);
  }

  lemma CanLand(s: State, limit: Option<nat>, uuid: Uuid)
    requires s.flush.Uploaded? && s.flush.buf in s.bufs && LinkTarget(s, s.bufs[s.flush.buf].existing, uuid)
    ensures Enabled(s, limit, LinkEntry(uuid)) && Apply(s, limit, LinkEntry(uuid)) == Link(s, uuid)
    ensures Enabled(Link(s, uuid), limit, FinishFlush) && Apply(Link(s, uuid), limit, FinishFlush) == EndFlush(Link(s, uuid))
  {
  }

  lemma RunLinks(s: State, limit: Option<nat>, steps: seq<Step>, s2: State, uuid: Uuid)
    requires IsRun(s, limit, steps) && After(s, limit, steps) == s2
    requires s2.flush.Uploaded? && s2.flush.buf in s2.bufs && LinkTarget(s2, s2.bufs[s2.flush.buf].existing, uuid)
    ensures IsRun(s, limit, steps + [LinkEntry(uuid), FinishFlush])
    ensures After(s, limit, steps + [LinkEntry(uuid), FinishFlush]) == EndFlush(Link(s2, uuid))
  {
    CanLand(s2, limit, uuid);
    RunTwoMore(s, limit, steps, LinkEntry(uuid), FinishFlush);
  }

  lemma LandsIsRun(s: State, limit: Option<nat>, o: Outcome)
    requires FlushWanted(s) && Possible(s, limit, o) && o.Lands? && !BeginFlush(s, limit).flush.Idle?
    ensures IsRun(s, limit, FlushSteps(s, limit, o))
    ensures After(s, limit, FlushSteps(s, limit, o)) == FlushResult(s, limit, o)
  {
    UploadedIsReady(s, limit, o.fileId);
    var steps := UploadIsRun(s, limit, o.fileId);
    RunLinks(s, limit, steps, UploadedAs(BeginFlush(s, limit), o.fileId), o.uuid);
    assert FlushSteps(s, limit, o) == steps + [LinkEntry(o.uuid), FinishFlush];
  }

  lemma LinkFailsIsRun(s: State, limit: Option<nat>, o: Outcome)
    requires FlushWanted(s) && Possible(s, limit, o) && o.LinkFails? && !BeginFlush(s, limit).flush.Idle?
    ensures IsRun(s, limit, FlushSteps(s, limit, o))
    ensures After(s, limit, FlushSteps(s, limit, o)) == FlushResult(s, limit, o)
  {
    UploadedIsReady(s, limit, o.fileId);
    var steps := UploadIsRun(s, limit, o.fileId);
    RunSnoc(s, limit, steps, FlushFails(o.landed));
    assert steps + [FlushFails(o.landed)] == FlushSteps(s, limit, o);
  }

  /** The result is where the protocol's own steps lead. */
  lemma FlushIsRun(s: State, limit: Option<nat>, o: Outcome)
    requires FlushWanted(s) && Possible(s, limit, o)
    ensures IsRun(s, limit, FlushSteps(s, limit, o))
    ensures After(s, limit, FlushSteps(s, limit, o)) == FlushResult(s, limit, o)
  {
    OneStep(s, limit, StartFlush);
    if !BeginFlush(s, limit).flush.Idle? {
      match o
      case UploadFails =>
        RunSnoc(s, limit, [StartFlush], FlushFails(None));
        assert [StartFlush] + [FlushFails(None)] == FlushSteps(s, limit, o);
      case LinkFails(_, _) => LinkFailsIsRun(s, limit, o);
      case Lands(_, _) => LandsIsRun(s, limit, o);
    }
  }

  // ---- the result, field by field ----

  ghost predicate Uploads(s: State, limit: Option<nat>)
    requires FlushWanted(s)
  {
    !BeginFlush(s, limit).flush.Idle?
  }

  function Replaced(entries: map<Uuid, Entry>, existing: Option<Uuid>, uuid: Uuid, e: Entry): map<Uuid, Entry> {
    (if existing.Some? && existing.value != uuid then entries - {existing.value} else entries)[uuid := e]
  }

  function ContentId(size: nat, fileId: FileId): Option<FileId> {
    if size > 0 then Some(fileId) else None
  }

  ghost function StoreWith(s: State, b: Buffer, fileId: FileId): map<FileId, seq<byte>> {
    if b.size > 0 then s.store[fileId := Clip(b.file, b.size)] else s.store
  }

  lemma UploadedFields(s: State, limit: Option<nat>, fileId: FileId)
    requires FlushWanted(s) && Uploads(s, limit)
    ensures var c := s.writer.value;
            var b := s.bufs[c];
            UploadedAs(BeginFlush(s, limit), fileId) ==
            s.(store := StoreWith(s, b, fileId), flush := Uploaded(c, b.gen, b.size, ContentId(b.size, fileId)))
  {
  }

  lemma LandsFields(s: State, limit: Option<nat>, fileId: FileId, uuid: Uuid)
    requires FlushWanted(s) && Uploads(s, limit) && Possible(s, limit, Lands(fileId, uuid)) && s.flush.Idle?
    ensures var c := s.writer.value;
            var b := s.bufs[c];
            var id := ContentId(b.size, fileId);
            FlushResult(s, limit, Lands(fileId, uuid)) ==
            s.(store := StoreWith(s, b, fileId),
               entries := Replaced(s.entries, b.existing, uuid, Entry(id, b.size)),
               listed := Some(uuid),
               past := s.past + {Node(Some(uuid), id, b.size)},
               bufs := s.bufs[c := b.(existing := Some(uuid), dirty := false)],
               node := Node(Some(uuid), id, b.size),
               reader := None)
  {
    UploadedFields(s, limit, fileId);
  }

  lemma UpdateTwice<K, V>(m: map<K, V>, k: K, v: V, w: V)
    ensures m[k := v][k := w] == m[k := w]
  {
  }

  /** The result, from what each part of the server holds afterwards. */
  lemma LandedIs(s: State, limit: Option<nat>, fileId: FileId, uuid: Uuid, v: State, orphans: map<BufId, Buffer>)
    requires FlushWanted(s) && Uploads(s, limit) && Possible(s, limit, Lands(fileId, uuid)) && s.flush.Idle?
    requires var c := s.writer.value;
             var b := s.bufs[c];
             var id := ContentId(b.size, fileId);
             && s.bufs == orphans[c := b] && v.bufs == orphans[c := Cleared(b.(existing := Some(uuid)), b.gen)]
             && v.store == StoreWith(s, b, fileId) && v.entries == Replaced(s.entries, b.existing, uuid, Entry(id, b.size))
             && v.listed == Some(uuid) && v.past == s.past + {Node(Some(uuid), id, b.size)}
             && v.node == Node(Some(uuid), id, b.size) && v.reader == None
             && v == s.(bufs := v.bufs, store := v.store, entries := v.entries, listed := v.listed, past := v.past,
                        node := v.node, reader := v.reader)
    ensures v == FlushResult(s, limit, Lands(fileId, uuid))
  {
    var c := s.writer.value;
    UpdateTwice(orphans, c, s.bufs[c], s.bufs[c].(existing := Some(uuid), dirty := false));
    LandsFields(s, limit, fileId, uuid);
  }

  lemma LinkFailsFields(s: State, limit: Option<nat>, fileId: FileId, landed: Option<Uuid>)
    requires FlushWanted(s) && Uploads(s, limit) && Possible(s, limit, LinkFails(fileId, landed)) && s.flush.Idle?
    ensures var b := s.bufs[s.writer.value];
            var id := ContentId(b.size, fileId);
            FlushResult(s, limit, LinkFails(fileId, landed)) ==
            if landed.None? then s.(store := StoreWith(s, b, fileId))
            else s.(store := StoreWith(s, b, fileId),
                    entries := Replaced(s.entries, b.existing, landed.value, Entry(id, b.size)),
                    listed := landed,
                    past := s.past + {Node(landed, id, b.size)})
  {
    UploadedFields(s, limit, fileId);
  }

  /** How a flush leaves the pacing. */
  ghost predicate Paced(p: Pace, q: Pace, skipped: bool, o: Outcome, now: nat) {
    && q.lastWrite == p.lastWrite
    && if !p.dirty then q == p
       else if skipped then !q.dirty && q.failCount == 0 && q.lastAttempt == p.lastAttempt
       else if o.Lands? then !q.dirty && q.failCount == 0 && q.lastAttempt == now
       else q.dirty && q.failCount == (if p.failCount == 0xFFFF_FFFF then 0 else p.failCount + 1) && q.lastAttempt == now
  }

  /** Nothing to create, or over the limit. */
  predicate Skipped(b: Buffer, limit: Option<nat>) {
    (b.size == 0 && b.existing.None?) || (limit.Some? && b.size > limit.value)
  }

  /** What comes to the buffer while every upload fails: writes, and ticks of
      the sweep. */
  datatype Work = Wrote(offset: nat, data: seq<byte>, now: nat) | Ticked(now: nat, start: nat, failed: nat)

  function EventOf(w: Work): Event {
    match w
    case Wrote(_, _, now) => Written(now)
    case Ticked(now, start, failed) => RetryPacing.Sweep(now, start, failed)
  }

  function EventsOf(works: seq<Work>): seq<Event> {
    seq(|works|, i requires 0 <= i < |works| => EventOf(works[i]))
  }

  lemma SpacedOut(p: Pace, events: seq<Event>, attempts: seq<nat>)
    requires attempts == Attempts(p, events)
    ensures Clocked(0, events) && p.failCount == 0 && |attempts| <= U32_MAX ==>
              forall k | 0 <= k < |attempts| - 5 :: attempts[5 + k] >= attempts[0] + 62 + 60 * k
  {
    if Clocked(0, events) && p.failCount == 0 && |attempts| <= U32_MAX {
      forall k | 0 <= k < |attempts| - 5
        ensures attempts[5 + k] >= attempts[0] + 62 + 60 * k
      {
        FailingUploadsBackOff(p, 0, events, k);
      }
    }
  }

  /** What the server keeps for one file, and the Drive it talks to. `orphans`,
      `rpcs`, `frozen` and `spec` are the parts of the protocol's state that are
      not its own. */
  class NfsFile {
    var node: Node
    var reader: Option<Reader>
    var writer: WriteBuffer?
    var entries: map<Uuid, Entry>
    var listed: Option<Uuid>
    var past: set<Node>
    var store: map<FileId, seq<byte>>
    const limit: Option<nat>
    ghost var current: BufId
    ghost var orphans: map<BufId, Buffer>
    ghost var rpcs: map<RpcId, Rpc>
    ghost var frozen: map<BufId, seq<byte>>
    ghost var spec: seq<byte>

    ghost function Value(): State
      reads this, writer
    {
      State(node, reader, if writer == null then None else Some(current),
            if writer == null then orphans else orphans[current := writer.Value()],
            rpcs, Idle, entries, listed, past, store, frozen, spec)
    }

    /** The early returns: nothing to create, or too big to upload. */
    method NothingToUpload() returns (done: bool)
      requires writer != null && writer.dirty && LockFree(Value(), current)
      modifies writer
      ensures writer == old(writer) && done == !Uploads(old(Value()), limit)
      ensures Value() == if done then BeginFlush(old(Value()), limit) else old(Value())
      ensures done == Skipped(old(writer.Value()), limit)
      ensures if done then Paced(old(writer.Pacing()), writer.Pacing(), true, UploadFails, 0)
              else writer.Pacing() == old(writer.Pacing())
    {
      var wb := writer;
      if wb.size == 0 && wb.existingUuid.None? {
        var _ := wb.ClearDirtyIfUnchanged(wb.writeGen);
        wb.failCount := 0;
        return true;
      }
      if !Allowed(limit, wb.size) {
        wb.dirty := false;
        wb.failCount := 0;
        return true;
      }
      return false;
    }

    /** What Drive does: it takes the content, if there is any, and then makes
        or replaces the entry, if it gets that far. */
    method SendToDrive(fileId: FileId, uuid: Option<Uuid>) returns (id: Option<FileId>)
      requires writer != null
      modifies this`store, this`entries, this`listed, this`past
      ensures id == ContentId(writer.size, fileId)
      ensures store == if writer.size > 0 then old(store)[fileId := Clip(writer.file, writer.size)] else old(store)
      ensures uuid.None? ==> entries == old(entries) && listed == old(listed) && past == old(past)
      ensures uuid.Some? ==>
                && entries == Replaced(old(entries), writer.existingUuid, uuid.value, Entry(id, writer.size))
                && listed == uuid && past == old(past) + {Node(uuid, id, writer.size)}
    {
      id := None;
      if writer.size > 0 {
        store := store[fileId := Clip(writer.file, writer.size)];
        id := Some(fileId);
      }
      if uuid.Some? {
        entries := Replaced(entries, writer.existingUuid, uuid.value, Entry(id, writer.size));
        listed, past := uuid, past + {Node(uuid, id, writer.size)};
      }
    }

    /** The entry is made or replaced: adopt its uuid, clear `dirty` if nothing
        was written since the snapshot, and bring the node up to date. */
    method Landed(id: Option<FileId>, uuid: Uuid, size: nat, genBefore: nat, now: nat)
      requires writer != null
      modifies this`node, this`reader, writer
      ensures writer.Value() == Cleared(old(writer.Value()).(existing := Some(uuid)), genBefore)
      ensures node == Node(Some(uuid), id, size) && reader == None
      ensures writer.failCount == 0 && writer.lastAttempt == now && writer.lastWrite == old(writer.lastWrite)
    {
      writer.existingUuid := Some(uuid);
      node := node.(uuid := Some(uuid));
      var _ := writer.ClearDirtyIfUnchanged(genBefore);
      writer.RecordFlushSuccess(now);
      node := node.(fileId := id, size := size);
      reader := None;
    }

    /** The upload ends, and the entry is made or replaced. */
    method Land(o: Outcome, now: nat)
      requires writer != null && writer.dirty && LockFree(Value(), current)
      requires Uploads(Value(), limit) && Possible(Value(), limit, o) && o.Lands?
      modifies this`node, this`reader, this`entries, this`listed, this`past, this`store, writer
      ensures Value() == FlushResult(old(Value()), limit, o)
      ensures Paced(old(writer.Pacing()), writer.Pacing(), false, o, now)
    {
      ghost var s := Value();
      var genBefore, size := writer.writeGen, writer.size;
      var id := SendToDrive(o.fileId, Some(o.uuid));
      Landed(id, o.uuid, size, genBefore, now);
      LandedIs(s, limit, o.fileId, o.uuid, Value(), orphans);
    }

    /** The upload ends; the entry is not made, or its answer is lost, and
        nothing here changes but the pacing. */
    method FailToLand(o: Outcome, now: nat)
      requires writer != null && writer.dirty && LockFree(Value(), current)
      requires Uploads(Value(), limit) && Possible(Value(), limit, o) && o.LinkFails?
      modifies this`entries, this`listed, this`past, this`store, writer
      ensures Value() == FlushResult(old(Value()), limit, o)
      ensures Paced(old(writer.Pacing()), writer.Pacing(), false, o, now)
    {
      LinkFailsFields(Value(), limit, o.fileId, o.landed);
      var _ := SendToDrive(o.fileId, o.landed);
      writer.RecordFlushFailure(now);
    }

    /** `flush_writer`, with nothing else happening meanwhile. */
    method FlushWriter(o: Outcome, now: nat)
      requires writer != null && LockFree(Value(), current)
      requires writer.dirty ==> Possible(Value(), limit, o)
      modifies this`node, this`reader, this`entries, this`listed, this`past, this`store, writer
      ensures writer == old(writer)
      ensures Value() == if old(writer.dirty) then FlushResult(old(Value()), limit, o) else old(Value())
      ensures Paced(old(writer.Pacing()), writer.Pacing(), Skipped(old(writer.Value()), limit), o, now)
    {
      if !writer.dirty {
        return;
      }
      var done := NothingToUpload();
      if done {
        return;
      }
      match o
      case UploadFails => writer.RecordFlushFailure(now);
      case LinkFails(_, _) => FailToLand(o, now);
      case Lands(_, _) => Land(o, now);
    }

    /** One tick of the sweep for this file at time `now`. A dirty buffer is
        flushed once it has been quiet for 2 seconds and its backoff is over; a
        clean one is dropped once it has been quiet for 30; anything else is left
        alone. */
    method Sweep(now: nat, o: Outcome, flushed: nat) returns (tried: bool)
      requires writer != null ==> LockFree(Value(), current)
      requires writer != null && writer.dirty ==> Possible(Value(), limit, o)
      modifies this`node, this`reader, this`entries, this`listed, this`past, this`store, this`writer, this`orphans, this`frozen
      modifies if writer == null then {} else {writer}
      ensures old(writer) == null ==> !tried && writer == null && Value() == old(Value())
      ensures old(writer) != null ==>
                var p := old(writer.Pacing());
                && (tried <==> p.dirty && now >= p.lastWrite + 2
                               && (p.failCount == 0 || now >= p.lastAttempt + Min(60, Pow2(p.failCount))))
                && (writer == null <==> !p.dirty && now >= p.lastWrite + 30)
                && (writer != null ==> writer == old(writer))
      ensures old(writer) != null ==>
                Value() == if tried then FlushResult(old(Value()), limit, o)
                           else if writer == null then Apply(old(Value()), limit, NfsProtocol.Evict)
                           else old(Value())
      ensures writer != null && tried ==>
                Paced(old(writer.Pacing()), writer.Pacing(), Skipped(old(writer.Value()), limit), o, flushed)
      ensures writer != null && !tried ==> writer.Pacing() == old(writer.Pacing())
    {
      if writer == null {
        return false;
      }
      SweepTimes(writer.Pacing(), now);
      if writer.dirty {
        if writer.Pacing().Due(now) {
          FlushWriter(o, flushed);
          return true;
        }
      } else if now - writer.lastWrite >= EVICT_IDLE {
        orphans := orphans[current := writer.Value()];
        frozen := frozen[current := spec];
        writer := null;
      }
      return false;
    }

    /** One tick while uploads fail. */
    method TickAndFail(now: nat, failed: nat) returns (tried: bool)
      requires writer != null && writer.dirty && LockFree(Value(), current) && !Skipped(writer.Value(), limit)
      modifies this`node, this`reader, this`entries, this`listed, this`past, this`store, this`writer, this`orphans, this`frozen
      modifies writer
      ensures writer == old(writer) && writer.Value() == old(writer.Value())
      ensures tried <==> old(writer.Pacing()).Due(now)
      ensures writer.Pacing() == if tried then old(writer.Pacing()).Failed(failed) else old(writer.Pacing())
    {
      ghost var s := Value();
      SweepTimes(writer.Pacing(), now);
      tried := Sweep(now, UploadFails, failed);
      assert Value() == s;
      assert s.bufs[current] == old(writer.Value()) && Value().bufs[current] == writer.Value();
    }

    /** A write, or such a tick. */
    method DoWork(w: Work) returns (tried: bool)
      requires writer != null && writer.dirty && LockFree(Value(), current) && !Skipped(writer.Value(), limit)
      requires w.Wrote? ==> w.data != [] && (limit.Some? ==> w.offset + |w.data| <= limit.value)
      modifies this`node, this`reader, this`entries, this`listed, this`past, this`store, this`writer, this`orphans, this`frozen
      modifies writer
      ensures writer == old(writer) && writer.dirty && !Skipped(writer.Value(), limit)
      ensures tried <==> w.Ticked? && old(writer.Pacing()).Due(w.now)
      ensures writer.Pacing() == Next(old(writer.Pacing()), EventOf(w))
    {
      match w
      case Wrote(offset, data, now) =>
        writer.WriteAt(offset, data, now);
        tried := false;
      case Ticked(now, _, failed) => tried := TickAndFail(now, failed);
    }

    /** The sweeper's loop while every upload of a file that needs one fails,
        with writes in between: the times of the attempts are those of a run of
        `RetryPacing`, and so they are spaced out. */
    method SweepAndFail(works: seq<Work>) returns (attempts: seq<nat>)
      requires writer != null && writer.dirty && LockFree(Value(), current) && !Skipped(writer.Value(), limit)
      requires forall w | w in works && w.Wrote? :: w.data != [] && (limit.Some? ==> w.offset + |w.data| <= limit.value)
      modifies this`node, this`reader, this`entries, this`listed, this`past, this`store, this`writer, this`orphans, this`frozen
      modifies writer
      ensures writer == old(writer) && writer.Pacing() == AfterAll(old(writer.Pacing()), EventsOf(works))
      ensures attempts == Attempts(old(writer.Pacing()), EventsOf(works))
      ensures Clocked(0, EventsOf(works)) && old(writer.failCount) == 0 && |attempts| <= U32_MAX ==>
                forall k | 0 <= k < |attempts| - 5 :: attempts[5 + k] >= attempts[0] + 62 + 60 * k
    {
      attempts := [];
      ghost var p, events := writer.Pacing(), EventsOf(works);
      for i := 0 to |works|
        invariant writer == old(writer) && writer.dirty && LockFree(Value(), current) && !Skipped(writer.Value(), limit)
        invariant writer.Pacing() == AfterAll(p, events[..i]) && attempts == Attempts(p, events[..i])
      {
        var w := works[i];
        assert w in works && events[..i + 1] == events[..i] + [EventOf(w)];
        OneMoreEvent(p, events[..i], EventOf(w));
        var tried := DoWork(w);
        if tried {
          attempts := attempts + [w.start];
        }
      }
      assert events[..|works|] == events;
      SpacedOut(p, events, attempts);
    }
  }
}
