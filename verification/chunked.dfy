/**
 * Chunked traversal of a byte range in windows of at most 1 GiB.
 *
 * `fileCksum` (sign/sign.go) and `MmapReader` (util/mmap.go) share the same
 * loop: while `sz > 0`, map `n = min(sz, chunk)` bytes at `off`, hand them on,
 * then `sz -= n; off += n`.  This module describes the windows that loop
 * visits and proves that they tile the range, so that feeding them in order
 * hands on exactly the bytes of the range.
 */
module Chunked {
  import opened Wrappers

  /** The window size of both loops: 1 GiB. */
  const Chunk: int := 0x4000_0000

  /** One mapping request: `len` bytes starting at byte `off`. */
  datatype Window = Window(off: int, len: int)

  /** The windows the `for sz > 0` loop maps, starting at `off` with `sz` bytes to go. */
  function Windows(off: int, sz: int): seq<Window>
    decreases sz
  {
    if sz <= 0 then []
    else
      var n := if sz > Chunk then Chunk else sz;
      [Window(off, n)] + Windows(off + n, sz - n)
  }

  /** Total number of bytes covered by `ws`. */
  function TotalLen(ws: seq<Window>): int
  {
    if ws == [] then 0 else ws[0].len + TotalLen(ws[1..])
  }

  /** Every window of `ws` lies inside a source of `size` bytes. */
  ghost predicate InSource(ws: seq<Window>, size: int)
  {
    forall k :: 0 <= k < |ws| ==> 0 <= ws[k].off && 0 <= ws[k].len && ws[k].off + ws[k].len <= size
  }

  /** `ws` cuts the range [off, off + sz) into non-empty windows of at most
      one chunk, laid end to end from `off`, in increasing order. */
  ghost predicate Tiles(ws: seq<Window>, off: int, sz: int)
  {
    && (forall k :: 0 <= k < |ws| ==> 0 < ws[k].len <= Chunk)
    && (forall k :: 0 <= k < |ws| ==> ws[k].off == off + TotalLen(ws[..k]))
    && (forall k :: 0 <= k < |ws| - 1 ==> ws[k].len == Chunk)
    && TotalLen(ws) == sz
  }

  lemma {:induction false} TotalLenAppend(ws: seq<Window>, w: Window)
    ensures TotalLen(ws + [w]) == TotalLen(ws) + w.len
  {
    if ws != [] {
      assert (ws + [w])[1..] == ws[1..] + [w];
      TotalLenAppend(ws[1..], w);
    }
  }

  /** The loop's windows tile the range it was asked for. */
  lemma {:induction false} WindowsTile(off: int, sz: int)
    requires sz >= 0
    ensures Tiles(Windows(off, sz), off, sz)
    decreases sz
  {
    if sz > 0 {
      var n := if sz > Chunk then Chunk else sz;
      var ws := Windows(off, sz);
      var rest := Windows(off + n, sz - n);
      WindowsTile(off + n, sz - n);
      assert ws == [Window(off, n)] + rest;
      assert ws[1..] == rest;
      forall k | 0 <= k < |ws|
        ensures ws[k].off == off + TotalLen(ws[..k])
      {
        if k > 0 {
          assert ws[..k][1..] == rest[..k - 1];
        }
      }
      forall k | 0 <= k < |ws| - 1
        ensures ws[k].len == Chunk
      {
        if k == 0 {
          assert |rest| > 0;
          assert sz - n > 0;
        }
      }
    }
  }

  /** The bytes of `source` covered by `ws`, in window order. */
  function Span(source: seq<bv8>, ws: seq<Window>): seq<bv8>
    requires InSource(ws, |source|)
  {
    if ws == [] then []
    else source[ws[0].off .. ws[0].off + ws[0].len] + Span(source, ws[1..])
  }

  lemma {:induction false} SpanAppend(source: seq<bv8>, ws: seq<Window>, w: Window)
    requires InSource(ws, |source|)
    requires 0 <= w.off && 0 <= w.len && w.off + w.len <= |source|
    ensures InSource(ws + [w], |source|)
    ensures Span(source, ws + [w]) == Span(source, ws) + source[w.off .. w.off + w.len]
  {
    if ws != [] {
      assert (ws + [w])[1..] == ws[1..] + [w];
      SpanAppend(source, ws[1..], w);
    }
  }

  /** Feeding the loop's windows in order hands on exactly the bytes of the range. */
  lemma {:induction false} SpanOfWindows(source: seq<bv8>, off: int, sz: int)
    requires 0 <= off && 0 <= sz && off + sz <= |source|
    ensures InSource(Windows(off, sz), |source|)
    ensures Span(source, Windows(off, sz)) == source[off .. off + sz]
    decreases sz
  {
    if sz > 0 {
      var n := if sz > Chunk then Chunk else sz;
      SpanOfWindows(source, off + n, sz - n);
      var ws := Windows(off, sz);
      assert ws[1..] == Windows(off + n, sz - n);
      assert source[off .. off + sz] == source[off .. off + n] + source[off + n .. off + sz];
    }
  }

  /** Whether mmap(2) maps window `w`: it refuses a negative offset outright
      (EINVAL); otherwise the environment's `mapOk` decides. */
  predicate Maps(w: Window, mapOk: (int, int) -> bool)
  {
    0 <= w.off && mapOk(w.off, w.len)
  }

  /** Index of the first window whose mapping fails, or |ws| when none does. */
  function FirstFailure(ws: seq<Window>, mapOk: (int, int) -> bool): (r: nat)
    ensures r <= |ws|
    ensures forall k :: 0 <= k < r ==> Maps(ws[k], mapOk)
    ensures r < |ws| ==> !Maps(ws[r], mapOk)
  {
    if ws == [] then 0
    else if !Maps(ws[0], mapOk) then 0
    else 1 + FirstFailure(ws[1..], mapOk)
  }

  /** Every window of `ws` has a non-negative length and ends inside a
      source of `size` bytes (its start may still be negative). */
  ghost predicate EndsWithin(ws: seq<Window>, size: int)
  {
    forall k :: 0 <= k < |ws| ==> 0 <= ws[k].len && ws[k].off + ws[k].len <= size
  }

  /** What the loop hands on when it walks `ws`: it stops at the first window
      that does not map and reports it; the bytes of the windows before it
      have been handed on, in order. */
  function Feed(source: seq<bv8>, ws: seq<Window>, mapOk: (int, int) -> bool): (Option<Window>, seq<bv8>)
    requires EndsWithin(ws, |source|)
  {
    if ws == [] then (None, [])
    else if !Maps(ws[0], mapOk) then (Some(ws[0]), [])
    else
      var rest := Feed(source, ws[1..], mapOk);
      (rest.0, source[ws[0].off .. ws[0].off + ws[0].len] + rest.1)
  }

  /** Feeding stops exactly at the first window that fails to map, and what
      it handed on is the span of the windows before it. */
  lemma {:induction false} FeedStopsAtFirstFailure(source: seq<bv8>, ws: seq<Window>, mapOk: (int, int) -> bool)
    requires EndsWithin(ws, |source|)
    ensures var k := FirstFailure(ws, mapOk);
            && InSource(ws[..k], |source|)
            && Feed(source, ws, mapOk).1 == Span(source, ws[..k])
            && Feed(source, ws, mapOk).0 == (if k < |ws| then Some(ws[k]) else None)
  {
    var k := FirstFailure(ws, mapOk);
    if ws != [] && Maps(ws[0], mapOk) {
      FeedStopsAtFirstFailure(source, ws[1..], mapOk);
      assert ws[..k][1..] == ws[1..][..k - 1];
    } else {
      assert ws[..k] == [];
    }
  }

  /** What the `for sz > 0` loop hands on for the range [off, off + sz)
      of source, turn by turn: it maps min(sz, Chunk) bytes at off, stops
      and reports that window if the mapping fails, and otherwise hands
      the bytes on and goes on with the rest. */
  function FeedRange(source: seq<bv8>, off: int, sz: int, mapOk: (int, int) -> bool): (Option<Window>, seq<bv8>)
    requires sz > 0 ==> off + sz <= |source|
    decreases sz
  {
    if sz <= 0 then (None, [])
    else
      var n := if sz > Chunk then Chunk else sz;
      if !Maps(Window(off, n), mapOk) then (Some(Window(off, n)), [])
      else
        var rest := FeedRange(source, off + n, sz - n, mapOk);
        (rest.0, source[off .. off + n] + rest.1)
  }

  /** The loop walks exactly the windows Windows(off, sz). */
  lemma {:induction false} FeedRangeIsFeed(source: seq<bv8>, off: int, sz: int, mapOk: (int, int) -> bool)
    requires 0 <= sz && off + sz <= |source|
    ensures EndsWithin(Windows(off, sz), |source|)
    ensures FeedRange(source, off, sz, mapOk) == Feed(source, Windows(off, sz), mapOk)
    decreases sz
  {
    WindowsEndWithin(off, sz, |source|);
    if sz > 0 {
      var n := if sz > Chunk then Chunk else sz;
      var ws := Windows(off, sz);
      FeedRangeIsFeed(source, off + n, sz - n, mapOk);
      assert ws[0] == Window(off, n);
      assert ws[1..] == Windows(off + n, sz - n);
    }
  }

  /** When no window fails, the loop has handed on the whole range, in
      order. */
  lemma {:induction false} FeedRangeComplete(source: seq<bv8>, off: int, sz: int, mapOk: (int, int) -> bool)
    requires sz > 0 && off + sz <= |source|
    requires FeedRange(source, off, sz, mapOk).0 == None
    ensures 0 <= off && FeedRange(source, off, sz, mapOk).1 == source[off .. off + sz]
    decreases sz
  {
    var n := if sz > Chunk then Chunk else sz;
    if sz > n {
      FeedRangeComplete(source, off + n, sz - n, mapOk);
      assert source[off .. off + n] + source[off + n .. off + sz] == source[off .. off + sz];
    } else {
      assert source[off .. off + n] + [] == source[off .. off + sz];
    }
  }

  /** One step of FeedRange, as a loop that has already handed on `done`
      takes it: a window that fails to map ends the feed and is reported;
      one that maps is appended, and the feed goes on after it. */
  lemma FeedRangeStep(source: seq<bv8>, off: int, sz: int, mapOk: (int, int) -> bool, done: seq<bv8>)
    requires 0 < sz && off + sz <= |source|
    ensures var n := if sz > Chunk then Chunk else sz;
            !Maps(Window(off, n), mapOk) ==> FeedRange(source, off, sz, mapOk) == (Some(Window(off, n)), [])
    ensures var n := if sz > Chunk then Chunk else sz;
            Maps(Window(off, n), mapOk) ==>
              && FeedRange(source, off, sz, mapOk).0 == FeedRange(source, off + n, sz - n, mapOk).0
              && done + FeedRange(source, off, sz, mapOk).1
                 == (done + source[off .. off + n]) + FeedRange(source, off + n, sz - n, mapOk).1
  {
    var n := if sz > Chunk then Chunk else sz;
    if Maps(Window(off, n), mapOk) {
      var rest := FeedRange(source, off + n, sz - n, mapOk).1;
      assert done + (source[off .. off + n] + rest) == (done + source[off .. off + n]) + rest;
    }
  }

  /** The windows of the range [off, off + sz) end inside any source that the range ends inside. */
  lemma WindowsEndWithin(off: int, sz: int, size: int)
    requires 0 <= sz && off + sz <= size
    ensures EndsWithin(Windows(off, sz), size)
  {
    var ws := Windows(off, sz);
    WindowsTile(off, sz);
    forall k | 0 <= k < |ws|
      ensures ws[k].off + ws[k].len <= size
    {
      TotalLenSplit(ws, k);
    }
  }

  lemma {:induction false} TotalLenSplit(ws: seq<Window>, k: nat)
    requires k < |ws|
    requires forall j :: 0 <= j < |ws| ==> 0 < ws[j].len
    ensures TotalLen(ws[..k]) + ws[k].len <= TotalLen(ws)
  {
    if k > 0 {
      assert ws[..k][1..] == ws[1..][..k - 1];
      TotalLenSplit(ws[1..], k - 1);
    } else {
      TotalLenNonNeg(ws[1..]);
    }
  }

  lemma {:induction false} TotalLenNonNeg(ws: seq<Window>)
    requires forall j :: 0 <= j < |ws| ==> 0 < ws[j].len
    ensures TotalLen(ws) >= 0
  {
    if ws != [] {
      TotalLenNonNeg(ws[1..]);
    }
  }
}
