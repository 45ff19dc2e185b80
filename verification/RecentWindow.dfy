/** The trailing window of recently streamed bytes that every serve backend
    keeps per open file. */
module RecentWindows {
  import opened Basics

  /** The window after a chunk: the old bytes too if the chunk continues them,
      then the last `cap` bytes of that. */
  datatype Window = Window(start: nat, data: seq<byte>) {
    function Joined(chunk: seq<byte>, chunkStart: nat): Window {
      if data == [] || chunkStart != start + |data| then Window(chunkStart, chunk)
      else Window(start, data + chunk)
    }

    function Last(n: nat): Window {
      if |data| <= n then this else Window(start + |data| - n, data[|data| - n..])
    }

    function Pushed(cap: nat, chunk: seq<byte>, chunkStart: nat): Window {
      if cap == 0 || chunk == [] then this else Joined(chunk, chunkStart).Last(cap)
    }

    /** The bytes are those of `content` at their place. */
    ghost predicate Within(content: seq<byte>) {
      start + |data| <= |content| && data == content[start..start + |data|]
    }

    predicate Covers(offset: nat, len: nat) {
      start <= offset && offset + len <= start + |data|
    }
  }

  lemma LastStaysWithin(w: Window, n: nat, content: seq<byte>)
    requires w.Within(content)
    ensures w.Last(n).Within(content)
  {
    if |w.data| > n {
      SubOfSub(content, w.start, w.start + |w.data|, |w.data| - n, |w.data|);
    }
  }

  lemma PushStaysWithin(w: Window, cap: nat, content: seq<byte>, from: nat, to: nat)
    requires w.Within(content) && from <= to <= |content|
    ensures w.Pushed(cap, content[from..to], from).Within(content)
  {
    var chunk := content[from..to];
    if cap != 0 && chunk != [] {
      if w.data != [] && from == w.start + |w.data| {
        Glue(content, w.start, from, to);
      }
      LastStaysWithin(w.Joined(chunk, from), cap, content);
    }
  }

  lemma LastShrinks(w: Window, n: nat)
    requires 0 < n <= |w.data|
    ensures w.Last(n - 1) == Window(w.Last(n).start + 1, w.Last(n).data[1..])
  {
    SubOfSub(w.data, |w.data| - n, |w.data|, 1, n);
  }

  /** A chunk no longer than the window is there to be read again. */
  lemma PushedIsCovered(w: Window, cap: nat, chunk: seq<byte>, chunkStart: nat)
    requires 0 < |chunk| <= cap
    ensures w.Pushed(cap, chunk, chunkStart).Covers(chunkStart, |chunk|)
  {
  }

  /** What a true window covers is what the file holds. */
  lemma CoveredIsSlice(w: Window, content: seq<byte>, offset: nat, len: nat)
    requires w.Within(content) && w.Covers(offset, len) && len > 0
    ensures w.data[offset - w.start..offset - w.start + len] == Slice(content, offset, len)
  {
    var rel := offset - w.start;
    SubOfSub(content, w.start, w.start + |w.data|, rel, rel + len);
  }

  lemma LastOfLast(w: Window, b: seq<byte>, cap: nat)
    requires cap > 0
    ensures Window(w.Last(cap).start, w.Last(cap).data + b).Last(cap) == Window(w.start, w.data + b).Last(cap)
  {
  }

  /** Two chunks in a row leave the same window as the two joined, so the
      window never depends on how the stream was cut. */
  lemma PushTwice(w: Window, cap: nat, a: seq<byte>, b: seq<byte>, at: nat)
    requires a != [] && b != []
    ensures w.Pushed(cap, a, at).Pushed(cap, b, at + |a|) == w.Pushed(cap, a + b, at)
  {
    if cap > 0 {
      var first := w.Joined(a, at);
      var both := Window(first.start, first.data + b);
      assert w.Joined(a + b, at) == both by {
        assert (w.data + a) + b == w.data + (a + b);
      }
      LastOfLast(first, b, cap);
    }
  }

  class RecentWindow {
    var data: seq<byte>
    var start: nat
    const cap: nat

    ghost function Value(): Window
      reads this
    {
      Window(start, data)
    }

    ghost predicate Valid()
      reads this
    {
      |data| <= cap
    }

    constructor (cap: nat)
      ensures Valid() && Value() == Window(0, []) && this.cap == cap
    {
      data, start := [], 0;
      this.cap := cap;
    }

    /** Continue the range, or start it anew. */
    method Extend(chunk: seq<byte>, chunkStart: nat)
      modifies this
      ensures Value() == old(Value()).Joined(chunk, chunkStart)
    {
      if data == [] || chunkStart != start + |data| {
        data, start := chunk, chunkStart;
      } else {
        data := data + chunk;
      }
    }

    /** The deque drops one byte at a time from the front. */
    method Trim()
      modifies this
      ensures Valid() && Value() == old(Value()).Last(cap)
    {
      ghost var joined := Value();
      while |data| > cap
        invariant |data| <= |joined.data| && Value() == joined.Last(|data|)
        invariant |data| >= cap || |data| == |joined.data|
      {
        LastShrinks(joined, |data|);
        data, start := data[1..], start + 1;
      }
    }

    method Push(chunk: seq<byte>, chunkStart: nat)
      requires Valid()
      modifies this
      ensures Valid() && Value() == old(Value()).Pushed(cap, chunk, chunkStart)
    {
      if cap == 0 || chunk == [] {
        return;
      }
      Extend(chunk, chunkStart);
      Trim();
    }

    method ReadFull(offset: nat, size: nat) returns (hit: Option<seq<byte>>)
      requires Valid()
      ensures hit.Some? <==> cap > 0 && (size == 0 || (start <= offset && offset + size <= start + |data|))
      ensures hit.Some? && size == 0 ==> hit.value == []
      ensures hit.Some? && size > 0 ==> hit.value == data[offset - start..offset - start + size]
    {
      if cap == 0 {
        return None;
      }
      if size == 0 {
        return Some([]);
      }
      if offset < start {
        return None;
      }
      var rel := offset - start;
      if rel + size > |data| {
        return None;
      }
      return Some(data[rel..rel + size]);
    }
  }
}
