/** The FUSE write handle: the old content is pulled into the temp file only
    when first needed, yet every operation behaves as if it had been copied in
    when the handle was opened. */
module FuseWrite {
  import opened Basics

  datatype Finalized = NothingToDo | Uploaded(bytes: seq<byte>, declared: nat) | UploadFailed

  class WriteHandle {
    var file: seq<byte>
    var materialized: bool
    var dirty: bool
    var size: nat
    /** The content on Drive when the handle was opened, if any. */
    const base: Option<seq<byte>>

    /** The file of a handle that copies at open. */
    ghost var eager: seq<byte>

    /** A file id with no bytes behind it and no file id look alike. */
    function Base(): seq<byte> {
      if base.Some? then base.value else []
    }

    /** Lazy and eager agree: on the bytes once they are pulled, and before
        that the temp file holds at most a beginning of them. A clean handle
        has nothing that Drive does not have. The size counter never falls
        short. */
    ghost predicate Valid()
      reads this
    {
      && (materialized ==> file == eager)
      && (!materialized ==> eager == Base() && file <= Base() && !dirty)
      && (!dirty ==> eager == Base())
      && |eager| <= size && (!materialized ==> size == |eager|)
    }

    /** The size counter is the length of the eager file. */
    ghost predicate Counted()
      reads this
    {
      size == |eager|
    }

    constructor (base: Option<seq<byte>>)
      ensures Valid() && Counted() && eager == (if base.Some? then base.value else []) && !dirty
      ensures this.base == base
    {
      file, materialized, dirty := [], false, false;
      this.base := base;
      size := if base.Some? then |base.value| else 0;
      eager := if base.Some? then base.value else [];
    }

    /** `arrived` bytes reach the temp file before the download ends or breaks
        off. */
    method EnsureMaterialized(arrived: nat) returns (ok: bool)
      requires Valid() && arrived <= |Base()|
      modifies this`file, this`materialized, this`size
      ensures Valid() && (ok ==> materialized)
      ensures ok <==> old(materialized) || arrived == |Base()|
      ensures old(Counted()) ==> Counted()
      ensures old(materialized) ==> size == old(size)
    {
      if materialized {
        return true;
      }
      if base.Some? && |base.value| > 0 {
        OverwritePrefix(file, Base());
        ghost var before := file;
        file := WriteFile(file, 0, Base()[..arrived]);
        if arrived < |Base()| {
          OverwriteStaysPrefix(before, Base(), arrived);
          return false;
        }
        assert Base()[..arrived] == Base();
        size := |Base()|;
      }
      materialized := true;
      ok := true;
    }

    /** What the eager handle would read, not cut at the size counter. */
    method Read(offset: nat, len: nat, arrived: nat) returns (data: Option<seq<byte>>)
      requires Valid() && arrived <= |Base()|
      modifies this`file, this`materialized, this`size
      ensures Valid() && dirty == old(dirty) && eager == old(eager) && (old(Counted()) ==> Counted())
      ensures data.Some? ==> data.value == Slice(eager, offset, len)
      ensures data.Some? <==> old(materialized) || arrived == |Base()|
    {
      var ok := EnsureMaterialized(arrived);
      if !ok {
        return None;
      }
      return Some(Slice(file, offset, len));
    }

    /** A write past 64 bits or the upload limit is refused, one whose content
        does not arrive fails, and neither changes anything. Any other is the
        eager write, and keeps the counter right exactly when it is not an
        empty write past the end. */
    method Write(offset: nat, data: seq<byte>, limit: Option<nat>, arrived: nat) returns (ok: bool)
      requires Valid() && arrived <= |Base()|
      modifies this`file, this`materialized, this`size, this`dirty, this`eager
      ensures Valid()
      ensures ok <==> && offset + |data| <= 0xFFFF_FFFF_FFFF_FFFF && (limit.Some? ==> offset + |data| <= limit.value)
                      && (old(materialized) || arrived == |Base()|)
      ensures eager == if ok then WriteFile(old(eager), offset, data) else old(eager)
      ensures dirty == (ok || old(dirty))
      ensures old(Counted()) ==> (Counted() <==> !(ok && data == [] && offset > |old(eager)|))
    {
      var end := offset + |data|;
      if end > U64_MAX || (limit.Some? && end > limit.value) {
        return false;
      }
      ok := EnsureMaterialized(arrived);
      if !ok {
        return;
      }
      if data != [] {
        WriteFileAt(file, offset, data, 0);
      }
      file := WriteFile(file, offset, data);
      eager := WriteFile(eager, offset, data);
      if size < end {
        size := end;
      }
      dirty := true;
    }

    /** Truncating to zero never downloads; any other size does first. */
    method SetSize(sz: nat, arrived: nat) returns (ok: bool)
      requires Valid() && arrived <= |Base()|
      modifies this`file, this`materialized, this`size, this`dirty, this`eager
      ensures Valid() && (ok <==> sz == 0 || old(materialized) || arrived == |Base()|)
      ensures eager == if ok then SetLen(old(eager), sz) else old(eager)
      ensures ok ==> Counted() && dirty && materialized
      ensures !ok ==> dirty == old(dirty) && (old(Counted()) ==> Counted())
    {
      if sz == 0 {
        materialized := true;
      } else {
        ok := EnsureMaterialized(arrived);
        if !ok {
          return;
        }
      }
      file := SetLen(file, sz);
      eager := SetLen(eager, sz);
      size := sz;
      dirty := true;
      ok := true;
    }

    /** Release uploads exactly the eager file, under the right size if and only
        if the size counter is right, or leaves Drive alone because it already
        holds exactly that. `uploads` is the server's answer. */
    method Release(uploads: bool) returns (r: Finalized)
      requires Valid()
      ensures r == NothingToDo <==> !dirty
      ensures r == UploadFailed <==> dirty && !uploads
      ensures r == NothingToDo ==> eager == Base()
      ensures r.Uploaded? ==> r.bytes == eager && (r.declared == |r.bytes| <==> Counted())
    {
      if !dirty {
        return NothingToDo;
      }
      if !uploads {
        return UploadFailed;
      }
      assert Clip(file, size) == file;
      return Uploaded(Clip(file, size), size);
    }
  }

  /** The point of skipping the download: a save that truncates and rewrites
      never shows the old content, downloaded or not. */
  method TruncateThenWrite(base: seq<byte>, data: seq<byte>) returns (r: Finalized)
    requires |data| <= U64_MAX && data != []
    ensures r == Uploaded(data, |data|)
  {
    var h := new WriteHandle(Some(base));
    var _ := h.SetSize(0, 0);
    var ok := h.Write(0, data, None, 0);
    r := h.Release(true);
  }
}
