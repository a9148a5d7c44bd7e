/**
 * util/mmap.go: `MmapReader` hands the byte range [off, off + sz) of a file
 * to a writer, one memory-mapped window of at most 1 GiB at a time.
 *
 * The file is its byte sequence; the `io.Writer` is an accumulator (the
 * concatenation of everything handed to `Write`); `fd.Stat()` and
 * `syscall.Mmap` become the parameters `statOk` and `mapOk`.
 */
module Mmap {
  import opened Wrappers
  import opened Chunked

  datatype MmapError =
    | StatFailed                        // "can't stat"
    | OutsideFile(off: int, size: int)  // "can't mmap outside file size"
    | MapFailed(len: int, off: int)     // "can't mmap <n> bytes at <off>"

  /** The length the loop runs for: a zero `sz` is replaced by the size of
      the whole file (not by the size left after `off`). */
  function EffectiveSize(sz: int, fileSize: int): int
  {
    if sz == 0 then fileSize else sz
  }

  /** The error reported for a window that failed to map. */
  function MapError(failed: Option<Window>): Option<MmapError>
  {
    if failed.None? then None else Some(MapFailed(failed.value.len, failed.value.off))
  }

  /** MmapReader: a zero `sz` stands for the whole file, an offset at or
      past the size is refused, and the range is then mapped window by
      window, stopping at the first window that fails to map. */
  method MmapReader(file: seq<bv8>, off: int, sz: int, statOk: bool, mapOk: (int, int) -> bool)
    returns (err: Option<MmapError>, written: seq<bv8>)
    // Once the range check is reached and passes, the requested range must
    // end inside the file.
    requires (sz != 0 || statOk) && off < EffectiveSize(sz, |file|) ==> off + EffectiveSize(sz, |file|) <= |file|
    ensures sz == 0 && !statOk ==> err == Some(StatFailed) && written == []
    ensures (sz != 0 || statOk) && off >= EffectiveSize(sz, |file|) ==>
              err == Some(OutsideFile(off, EffectiveSize(sz, |file|))) && written == []
    ensures (sz != 0 || statOk) && off < EffectiveSize(sz, |file|) ==>
              var (failed, bytes) := FeedRange(file, off, EffectiveSize(sz, |file|), mapOk);
              written == bytes && err == MapError(failed)
    ensures err == None && EffectiveSize(sz, |file|) > 0 ==>
              0 <= off && written == file[off .. off + EffectiveSize(sz, |file|)]
  {
    var size := sz;
    if size == 0 {
      if !statOk {
        return Some(StatFailed), [];
      }
      size := |file|;
    }
    if off >= size {
      return Some(OutsideFile(off, size)), [];
    }
    err, written := MapWindows(file, off, size, mapOk);
  }

  /** The `for sz > 0` loop of MmapReader: map and hand on one window at a time. */
  method MapWindows(file: seq<bv8>, off: int, size: int, mapOk: (int, int) -> bool)
    returns (err: Option<MmapError>, written: seq<bv8>)
    requires size > 0 ==> off + size <= |file|
    ensures var (failed, bytes) := FeedRange(file, off, size, mapOk);
            written == bytes && err == MapError(failed)
    ensures err == None && size > 0 ==> 0 <= off && written == file[off .. off + size]
  {
    written := [];
    ghost var total := FeedRange(file, off, size, mapOk);
    assert total.1 == written + total.1;
    var o, s := off, size;
    while s > 0
      invariant o + s == off + size && (s > 0 ==> o + s <= |file|)
      invariant total.0 == FeedRange(file, o, s, mapOk).0
      invariant total.1 == written + FeedRange(file, o, s, mapOk).1
      decreases s
    {
      var n := if s > Chunk then Chunk else s;
      FeedRangeStep(file, o, s, mapOk, written);
      if !(0 <= o && mapOk(o, n)) {
        return Some(MapFailed(n, o)), written;
      }
      written := written + file[o .. o + n];
      o, s := o + n, s - n;
    }
    assert written + [] == written;
    if size > 0 {
      FeedRangeComplete(file, off, size, mapOk);
    }
    err := None;
  }

  /** With sz == 0 the size of the whole file is mapped from `off`: for any
      offset inside the file other than 0, the range passes the range check
      and runs past the end of the file. */
  lemma WholeFileOverrun(file: seq<bv8>, off: int)
    requires 0 < off < |file|
    ensures off < EffectiveSize(0, |file|)
    ensures off + EffectiveSize(0, |file|) > |file|
  {
  }

  /** MmapReader as evidently intended: a zero `sz` stands for the rest of
      the file after `off`, and an offset at or past the end of the file
      is refused. */
  method MmapReaderRest(file: seq<bv8>, off: int, sz: int, statOk: bool, mapOk: (int, int) -> bool)
    returns (err: Option<MmapError>, written: seq<bv8>)
    // An explicit range must end inside the file.
    requires sz != 0 && off < sz ==> off + sz <= |file|
    ensures sz == 0 && !statOk ==> err == Some(StatFailed) && written == []
    ensures sz == 0 && statOk && off >= |file| ==> err == Some(OutsideFile(off, |file|)) && written == []
    ensures sz == 0 && statOk && off < |file| ==>
              var (failed, bytes) := FeedRange(file, off, |file| - off, mapOk);
              written == bytes && err == MapError(failed)
    ensures sz == 0 && err == None ==> 0 <= off < |file| && written == file[off..]
    ensures sz != 0 && off >= sz ==> err == Some(OutsideFile(off, sz)) && written == []
    ensures sz > 0 && err == None ==> 0 <= off && written == file[off .. off + sz]
  {
    if sz == 0 {
      if !statOk {
        return Some(StatFailed), [];
      }
      if off >= |file| {
        return Some(OutsideFile(off, |file|)), [];
      }
      err, written := MapWindows(file, off, |file| - off, mapOk);
      if err == None {
        assert file[off .. off + (|file| - off)] == file[off..];
      }
    } else {
      if off >= sz {
        return Some(OutsideFile(off, sz)), [];
      }
      err, written := MapWindows(file, off, sz, mapOk);
    }
  }
}
