/** The sequential streaming reader: one restartable download stream per open
    file plus the trailing window, made to look like random access. */
module StreamReader {
  import opened Basics
  import opened RecentWindows

  /** Gaps up to 8 MiB are skipped in the stream; past that it restarts. */
  const MAX_FORWARD_SKIP: nat := 8 * 1024 * 1024
  const SCRATCH: nat := 64 * 1024

  /** The reading end of one download of `content`. The download stops at
      `end`, early if the network failed; from there every read returns
      nothing, and no read ever errors. */
  class Pipe {
    const content: seq<byte>
    const end: nat
    var at: nat

    constructor (content: seq<byte>, start: nat, end: nat)
      ensures this.content == content && this.end == end && at == start
    {
      this.content, this.end, at := content, end, start;
    }

    /** Short counts come in any pattern. */
    method Read(want: nat) returns (bytes: seq<byte>)
      requires end <= |content|
      modifies this
      ensures at == old(at) + |bytes| && |bytes| <= want
      ensures bytes == [] <==> want == 0 || old(at) >= end
      ensures bytes != [] ==> at <= end && bytes == content[old(at)..at]
    {
      if want == 0 || at >= end {
        return [];
      }
      var most := Min(want, end - at);
      var n: nat :| 1 <= n <= most;
      bytes := content[at..at + n];
      at := at + n;
    }
  }

  class ReadState {
    /** The bytes behind `fileId`; a file without one has none. */
    const content: seq<byte>
    const fileId: Option<nat>
    const size: nat
    const recent: RecentWindow
    var stream: Pipe?
    var pos: nat

    /** What the file looks like to its reader. */
    ghost function Body(): seq<byte> {
      Clip(content, size)
    }

    ghost predicate Valid()
      reads this, recent, stream
    {
      && recent.Valid() && recent.Value().Within(Body())
      && (stream != null ==> stream.content == content && stream.end <= |content| && stream.at == pos)
    }

    constructor (content: seq<byte>, fileId: Option<nat>, size: nat, cap: nat)
      ensures Valid() && stream == null && fresh(recent) && recent.cap == cap
      ensures this.content == content && this.fileId == fileId && this.size == size
    {
      this.content, this.fileId, this.size := content, fileId, size;
      recent := new RecentWindow(cap);
      stream, pos := null, 0;
    }

    /** Offset 0 downloads everything, any other a range up to `size`; either
        may break off anywhere. */
    method StartStream(start: nat)
      requires Valid()
      modifies this`stream, this`pos
      ensures Valid() && stream != null && fresh(stream) && pos == start
    {
      var most := if start == 0 then |content| else Min(|content|, size);
      var end: nat :| end <= most;
      stream := new Pipe(content, start, end);
      pos := start;
    }

    predicate MustRestart(offset: nat)
      reads this
    {
      stream == null || offset < pos || offset - pos > MAX_FORWARD_SKIP
    }

    /** Record bytes of the file that went by. */
    method Remember(bytes: seq<byte>, from: nat)
      requires recent.Valid() && recent.Value().Within(Body())
      requires bytes != [] ==> from + |bytes| <= |Body()| && bytes == Body()[from..from + |bytes|]
      modifies recent
      ensures recent.Valid() && recent.Value().Within(Body())
      ensures 0 < |bytes| <= recent.cap ==> recent.Value().Covers(from, |bytes|)
    {
      ghost var window, body := recent.Value(), Body();
      if bytes != [] {
        PushStaysWithin(window, recent.cap, body, from, from + |bytes|);
        if |bytes| <= recent.cap {
          PushedIsCovered(window, recent.cap, bytes, from);
        }
      } else {
        assert window.Pushed(recent.cap, bytes, from) == window;
      }
      recent.Push(bytes, from);
      assert recent.Value() == window.Pushed(recent.cap, bytes, from);
    }

    /** Discard the stream up to `offset`, remembering what goes by. */
    method SkipTo(offset: nat) returns (ghost discarded: nat)
      requires Valid() && stream != null && pos <= offset < size
      modifies this`pos, recent, stream
      ensures Valid()
      ensures discarded == pos - old(pos) && pos <= offset
      ensures pos < offset ==> stream.end <= pos
    {
      discarded := 0;
      var toSkip := offset - pos;
      while toSkip > 0
        invariant Valid() && toSkip >= 0
        invariant discarded == pos - old(pos) && pos + toSkip == offset
      {
        var bytes := stream.Read(Min(toSkip, SCRATCH));
        if bytes == [] {
          break;
        }
        ReadIsPrefix(content, size, pos, |bytes|, |bytes|);
        Remember(bytes, pos);
        toSkip := toSkip - |bytes|;
        pos := pos + |bytes|;
        discarded := discarded + |bytes|;
      }
    }

    /** Read up to `cap` bytes on, as many as the stream gives. */
    method Fill(cap: nat) returns (buf: seq<byte>)
      requires stream != null && stream.content == content && stream.end <= |content|
      modifies stream
      ensures |buf| <= cap && stream.at == old(stream.at) + |buf|
      ensures buf != [] ==> stream.at <= stream.end && buf == content[old(stream.at)..stream.at]
      ensures |buf| < cap ==> stream.end <= stream.at
    {
      buf := [];
      ghost var start := stream.at;
      while |buf| < cap
        invariant |buf| <= cap && stream.at == start + |buf|
        invariant buf != [] ==> stream.at <= stream.end && buf == content[start..stream.at]
      {
        var bytes := stream.Read(cap - |buf|);
        if bytes == [] {
          break;
        }
        Glue(content, start, start + |buf|, start + |buf| + |bytes|);
        buf := buf + bytes;
      }
    }

    /** The slow path: through the live stream, restarted if need be. */
    method ReadStreamed(offset: nat, len: nat) returns (buf: seq<byte>, ghost discarded: nat)
      requires Valid() && offset < size
      modifies this`stream, this`pos, recent, stream
      ensures Valid() && stream != null
      ensures if old(MustRestart(offset)) then fresh(stream) else stream == old(stream)
      ensures buf <= Slice(Body(), offset, len) && |buf| <= Min(len, size - offset)
      ensures |buf| < Min(len, size - offset) ==> stream.end <= offset + |buf|
      ensures buf != [] ==> offset + |buf| <= stream.end
      ensures discarded <= MAX_FORWARD_SKIP
      ensures 0 < |buf| <= recent.cap ==> recent.Value().Covers(offset, |buf|)
    {
      if MustRestart(offset) {
        StartStream(offset);
      }
      discarded := SkipTo(offset);
      var cap := Min(size - offset, len);
      buf := Fill(cap);
      if buf != [] {
        ReadIsPrefix(content, size, offset, |buf|, len);
      }
      Remember(buf, offset);
      pos := pos + |buf|;
    }

    /** The reader refines random access: what comes back starts the slice
        asked for, and is all of it unless the live stream broke off right
        there. A slice the window covers is served from it, in full, without
        touching the stream. At most 8 MiB are downloaded and thrown away. The
        bytes returned, if they fit the window, can be read again at once. The
        stream is replaced exactly for a step back or a gap past that limit; one
        that has broken off stays so for every read it is kept for. */
    method ReadAt(offset: nat, len: nat) returns (buf: seq<byte>, ghost discarded: nat)
      requires Valid()
      modifies this`stream, this`pos, recent, stream
      ensures Valid() && (stream == old(stream) || fresh(stream))
      ensures fileId.None? || offset >= size ==> buf == []
      ensures fileId.Some? ==> buf <= Slice(Body(), offset, len)
      ensures fileId.Some? && offset < size && |buf| < Min(len, size - offset)
              ==> stream != null && stream.end <= offset + |buf| && (buf != [] ==> stream.end == offset + |buf|)
      ensures discarded <= 8 * 1024 * 1024
      ensures fileId.Some? && offset < size && recent.cap > 0 && len > 0 && old(recent.Value()).Covers(offset, len)
              ==> |buf| == len && stream == old(stream) && pos == old(pos) && recent.Value() == old(recent.Value())
      ensures fileId.Some? && 0 < |buf| <= recent.cap ==> recent.Value().Covers(offset, |buf|)
      ensures stream != old(stream) <==>
                && fileId.Some? && offset < size
                && !(recent.cap > 0 && (len == 0 || old(recent.Value()).Covers(offset, len)))
                && (old(stream) == null || offset < old(pos) || offset - old(pos) > 8 * 1024 * 1024)
      ensures stream == old(stream) && stream != null && stream.end <= offset ==>
                buf == [] || old(recent.Value()).Covers(offset, len)
    {
      if fileId.None? || offset >= size {
        return [], 0;
      }
      var hit := recent.ReadFull(offset, len);
      if hit.Some? {
        if len > 0 {
          CoveredIsSlice(recent.Value(), Body(), offset, len);
        }
        return hit.value, 0;
      }
      buf, discarded := ReadStreamed(offset, len);
    }
  }
}
