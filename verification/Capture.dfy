/** How a target's output is captured, capped and read back while it grows. */
module Capture {
  import opened Text

  type byte = n: int | 0 <= n < 256

  type Bytes = seq<byte>

  const KEEP: nat := 2048

  function Last(s: Bytes, n: nat): Bytes {
    if |s| <= n then s else s[|s| - n..]
  }

  /** The first limit bytes; a limit of 0 or less stands for none. */
  function First(s: Bytes, limit: int): Bytes {
    if limit <= 0 || |s| <= limit then s else s[..limit]
  }

  /** The stream the chunks make up. */
  function Concat(chunks: seq<Bytes>): Bytes {
    if chunks == [] then [] else Concat(chunks[..|chunks| - 1]) + chunks[|chunks| - 1]
  }

  /** How many of the chunks are stored: the longest run of them that stays within max. */
  function Fit(chunks: seq<Bytes>, max: int): (n: nat)
    ensures n <= |chunks|
  {
    if chunks == [] || max <= 0 || |Concat(chunks)| <= max then |chunks| else Fit(chunks[..|chunks| - 1], max)
  }

  function Stored(chunks: seq<Bytes>, max: int): Bytes {
    Concat(chunks[..Fit(chunks, max)])
  }

  lemma ConcatPush(chunks: seq<Bytes>, p: Bytes)
    ensures Concat([]) == [] && Concat(chunks + [p]) == Concat(chunks) + p
  {
    assert (chunks + [p])[..|chunks|] == chunks;
  }

  /** Concatenating a prefix of the chunks gives a prefix of the stream. */
  lemma {:induction false} ConcatPrefix(chunks: seq<Bytes>, m: nat)
    requires m <= |chunks|
    ensures Concat(chunks[..m]) <= Concat(chunks)
    decreases |chunks|
  {
    if m == |chunks| {
      assert chunks[..m] == chunks;
    } else {
      ConcatPrefix(chunks[..|chunks| - 1], m);
      assert chunks[..|chunks| - 1][..m] == chunks[..m];
    }
  }

  /** A run of the chunks is stored whole exactly when it stays within the cap. */
  lemma {:induction false} FitMaximal(chunks: seq<Bytes>, max: int, m: nat)
    requires m <= |chunks|
    ensures m <= Fit(chunks, max) <==> max <= 0 || |Concat(chunks[..m])| <= max
    decreases |chunks|
  {
    assert chunks[..|chunks|] == chunks;
    ConcatPrefix(chunks, m);
    if max <= 0 || |Concat(chunks)| <= max || m == |chunks| {
    } else {
      FitMaximal(chunks[..|chunks| - 1], max, m);
      assert chunks[..|chunks| - 1][..m] == chunks[..m];
    }
  }

  /** The file holds a whole-chunk prefix of the stream, within the cap, and the
      whole stream exactly when that fits. */
  lemma StoredWhole(chunks: seq<Bytes>, max: int)
    ensures Stored(chunks, max) <= Concat(chunks)
    ensures max > 0 ==> |Stored(chunks, max)| <= max
    ensures Stored(chunks, max) == Concat(chunks) <==> max <= 0 || |Concat(chunks)| <= max
  {
    var n := Fit(chunks, max);
    ConcatPrefix(chunks, n);
    FitMaximal(chunks, max, n);
    assert chunks[..|chunks|] == chunks;
  }

  lemma FitPush(chunks: seq<Bytes>, p: Bytes, max: int)
    ensures var all := chunks + [p];
            Fit(all, max) == if max <= 0 || |Concat(all)| <= max then |all| else Fit(chunks, max)
    ensures max <= 0 || |Concat(chunks)| <= max ==> Fit(chunks, max) == |chunks|
  {
    hide Concat;
    var all := chunks + [p];
    assert all[..|all| - 1] == chunks;
  }

  lemma StoredPush(chunks: seq<Bytes>, p: Bytes, max: int)
    ensures Stored(chunks + [p], max)
         == Stored(chunks, max) + if max <= 0 || |Concat(chunks)| + |p| <= max then p else []
  {
    hide Concat, Fit;
    var all := chunks + [p];
    ConcatPush(chunks, p);
    FitPush(chunks, p, max);
    assert all[..|all|] == all && chunks[..|chunks|] == chunks;
    assert all[..Fit(chunks, max)] == chunks[..Fit(chunks, max)];
  }

  lemma LastPush(s: Bytes, p: Bytes, n: nat)
    ensures Last(Last(s, n) + p, n) == Last(s + p, n)
  {}

  class CappedWriter {
    const max: int
    /** What is on disk; None when the file could not be created. */
    var file: Option<Bytes>
    var written: int
    var preview: Bytes
    var closed: bool
    /** Every chunk given to Write, and how many came before Close. */
    ghost var chunks: seq<Bytes>
    ghost var early: nat

    ghost predicate Valid()
      reads this
    {
      && early <= |chunks| && (!closed ==> early == |chunks|)
      && written == |Concat(chunks)|
      && preview == Last(Concat(chunks), KEEP)
      && (file.Some? ==> file.value == Stored(chunks[..early], max))
    }

    constructor (max: int, created: bool)
      ensures Valid() && chunks == [] && this.max == max && !closed && file == if created then Some([]) else None
    {
      this.max := max;
      file := if created then Some([]) else None;
      written, preview, closed, chunks, early := 0, [], false, [], 0;
    }

    method AppendRing(ring: Bytes, p: Bytes, keep: nat) returns (r: Bytes)
      ensures r == Last(ring + p, keep)
    {
      r := ring + p;
      if |r| > keep {
        r := r[|r| - keep..];
      }
    }

    /** A write that overshoots the cap stores nothing of its chunk, and neither
        does any later one; a closed file stores nothing more. */
    method Write(p: Bytes) returns (n: nat)
      requires Valid()
      modifies this
      ensures Valid() && chunks == old(chunks) + [p] && n == |p|
      ensures closed == old(closed) && (closed ==> file == old(file) && early == old(early))
      ensures old(file).Some? <==> file.Some?
      ensures file.Some? ==> old(file.value) <= file.value
      ensures file.Some? && !closed ==>
                file.value == old(file.value) + if max <= 0 || |Concat(chunks)| <= max then p else []
    {
      hide Concat, Stored, Last;
      n := |p|;
      written := written + n;
      if file.Some? && (max <= 0 || written <= max) {
        if !closed {
          file := Some(file.value + p);
        }
      }
      preview := AppendRing(preview, p, KEEP);
      ConcatPush(chunks, p);
      LastPush(Concat(chunks), p, KEEP);
      assert chunks[..|chunks|] == chunks;
      StoredPush(chunks, p, max);
      ghost var was := chunks;
      chunks := was + [p];
      assert early <= |was|;
      assert chunks[..early] == was[..early];
      assert chunks[..|chunks|] == chunks;
      early := if closed then early else |chunks|;
    }

    /** The last bytes of everything written, kept on disk or not. */
    method Preview() returns (s: Bytes)
      requires Valid()
      ensures s == Last(Concat(chunks), KEEP)
      ensures var stream := Concat(chunks);
              && |s| == (if |stream| < 2048 then |stream| else 2048) && s == stream[|stream| - |s|..]
    {
      s := preview;
    }

    method Bytes() returns (n: int)
      requires Valid()
      ensures n == |Concat(chunks)|
    {
      n := written;
    }

    method Close()
      requires Valid()
      modifies this
      ensures Valid() && chunks == old(chunks) && file == old(file) && (closed <==> old(closed) || file.Some?)
    {
      if closed || file.None? {
        return;
      }
      closed := true;
    }
  }

  // ----- the writer in front of it

  /** The chunks a callback sees: the empty ones are not passed on. */
  function NonEmpty(chunks: seq<Bytes>): (r: seq<Bytes>)
    ensures forall i :: 0 <= i < |r| ==> r[i] != []
  {
    if chunks == [] then []
    else
      var n := |chunks| - 1;
      NonEmpty(chunks[..n]) + if chunks[n] == [] then [] else [chunks[n]]
  }

  /** Dropping the empty chunks changes neither the stream nor what is stored of it. */
  lemma {:induction false} NonEmptySame(chunks: seq<Bytes>, max: int)
    ensures Concat(NonEmpty(chunks)) == Concat(chunks)
    ensures Stored(NonEmpty(chunks), max) == Stored(chunks, max)
  {
    hide Concat, Stored;
    if chunks == [] {
    } else {
      var n := |chunks| - 1;
      var init, p := chunks[..n], chunks[n];
      NonEmptySame(init, max);
      assert chunks == init + [p];
      ConcatPush(init, p);
      StoredPush(init, p, max);
      if p == [] {
        assert NonEmpty(chunks) == NonEmpty(init);
      } else {
        ConcatPush(NonEmpty(init), p);
        StoredPush(NonEmpty(init), p, max);
      }
    }
  }

  class TeeWriter {
    const limit: int
    const sink: CappedWriter
    var buf: Bytes
    /** Every chunk given to Write. */
    ghost var received: seq<Bytes>

    ghost predicate Valid()
      reads this, sink
    {
      && sink.Valid()
      && buf == First(Concat(received), limit)
      && sink.chunks == NonEmpty(received)
    }

    constructor (limit: int, sink: CappedWriter)
      requires sink.Valid() && sink.chunks == []
      ensures Valid() && this.limit == limit && this.sink == sink && received == []
    {
      this.limit := limit;
      this.sink := sink;
      buf, received := [], [];
    }

    method Write(p: Bytes) returns (n: nat)
      requires Valid()
      modifies this, sink
      ensures Valid() && received == old(received) + [p] && n == |p|
      ensures sink.chunks == old(sink.chunks) + if p == [] then [] else [p]
      ensures var stream := Concat(received);
              buf == if limit <= 0 || |stream| <= limit then stream else stream[..limit]
    {
      hide Concat;
      ConcatPush(received, p);
      if limit <= 0 || |buf| < limit {
        var room := |p|;
        if limit > 0 {
          var left := limit - |buf|;
          if left < room {
            room := left;
          }
        }
        buf := buf + p[..room];
      }
      if |p| > 0 {
        var _ := sink.Write(p);
      }
      received := received + [p];
      assert received[..|received| - 1] == old(received);
      n := |p|;
    }
  }

  /** What an execution ends with: the buffer holds the head of the stream and the
      preview its tail; with the same cap on both, as the engine sets them, what is
      on disk is a prefix of what is in the buffer, and they agree when it all fits. */
  lemma DiskAndBuffer(received: seq<Bytes>, cap: int)
    ensures Stored(NonEmpty(received), cap) <= First(Concat(received), cap) <= Concat(received)
    ensures cap <= 0 || |Concat(received)| <= cap ==>
      Stored(NonEmpty(received), cap) == First(Concat(received), cap) == Concat(received)
  {
    NonEmptySame(received, cap);
    StoredWhole(received, cap);
  }

  // ----- reading it back

  datatype ReadError = NoError | BadStream | BadId | BadOffset

  /** What follows an offset, which may lie past the end. */
  function From(file: Bytes, offset: nat): Bytes {
    if offset <= |file| then file[offset..] else []
  }

  /** ReadOutput: file is what the stream's file holds at this moment. */
  method ReadOutput(runID: string, targetID: string, stream: string, file: Option<Bytes>, offset: int)
      returns (b: Bytes, next: int, err: ReadError)
    ensures err == NoError <==>
              && stream in {"stdout", "stderr"} && "run_" <= runID && "tgt_" <= targetID
              && (file.Some? ==> offset >= 0)
    ensures err == NoError && file.Some? ==>
              && |b| == (if offset <= |file.value| then |file.value| - offset else 0) && next == offset + |b|
              && forall i :: offset <= i < |file.value| ==> b[i - offset] == file.value[i]
    ensures err == NoError && file.None? ==> b == [] && next == offset
    ensures err == NoError && offset >= 0 ==> (b, next) == Polled(file, offset)
    ensures err == NoError && offset < 0 ==> b == [] && next == offset
    ensures err != NoError ==> b == [] && next == if err == BadOffset then offset else 0
  {
    if stream != "stdout" && stream != "stderr" {
      return [], 0, BadStream;
    }
    if !("run_" <= runID) || !("tgt_" <= targetID) {
      return [], 0, BadId;
    }
    if file.None? {
      return [], offset, NoError;
    }
    if offset < 0 {
      return [], offset, BadOffset;
    }
    b := From(file.value, offset);
    return b, offset + |b|, NoError;
  }

  function Content(file: Option<Bytes>): Bytes {
    if file.Some? then file.value else []
  }

  lemma FromExactly(file: Option<Bytes>, offset: nat)
    ensures file.Some? && offset <= |file.value| ==> From(Content(file), offset) == file.value[offset..]
    ensures file.None? || offset > |file.value| ==> From(Content(file), offset) == []
  {
  }

  /** One poll: the bytes read and the next offset. */
  function Polled(file: Option<Bytes>, offset: nat): (Bytes, nat) {
    var b := From(Content(file), offset);
    (b, offset + |b|)
  }

  /** A series of polls, each from the offset the one before it gave. */
  function Polls(files: seq<Option<Bytes>>, offset: nat): (Bytes, nat) {
    if files == [] then ([], offset)
    else
      var (read, mid) := Polls(files[..|files| - 1], offset);
      var (b, next) := Polled(files[|files| - 1], mid);
      (read + b, next)
  }

  ghost predicate Growing(files: seq<Option<Bytes>>) {
    forall i, j :: 0 <= i < j < |files| ==> Content(files[i]) <= Content(files[j])
  }

  lemma FromSplit(before: Bytes, file: Bytes, offset: nat)
    requires before <= file
    ensures From(before, offset) + From(file, offset + |From(before, offset)|) == From(file, offset)
  {}

  /** One more poll reads on from where the earlier ones ended. */
  lemma PollOn(files: seq<Option<Bytes>>, offset: nat)
    requires Growing(files) && |files| > 1
    requires var n := |files| - 1;
             var (read, mid) := Polls(files[..n], offset);
             mid == offset + |read| && read == From(Content(files[n - 1]), offset)
    ensures var n := |files| - 1;
            var (read, mid) := Polls(files[..n], offset);
            read + From(Content(files[n]), mid) == From(Content(files[n]), offset)
  {
    hide Polls, From;
    var n := |files| - 1;
    FromSplit(Content(files[n - 1]), Content(files[n]), offset);
  }

  /** Polling a growing file reads each byte once: what was read so far is exactly
      what the file, as last seen, holds after the first offset. */
  lemma {:induction false} PollsReadAll(files: seq<Option<Bytes>>, offset: nat)
    requires Growing(files)
    ensures var (read, next) := Polls(files, offset);
            && next == offset + |read|
            && (files != [] ==> read == From(Content(files[|files| - 1]), offset))
            && (files == [] ==> read == [])
    ensures files != [] ==>
              var file := files[|files| - 1];
              var (read, next) := Polls(files, offset);
              && (file.Some? && offset <= |file.value| ==> read == file.value[offset..])
              && (file.None? || offset > |file.value| ==> read == [])
  {
    if files != [] {
      FromExactly(files[|files| - 1], offset);
    }
    hide From, Content;
    if files == [] {
    } else {
      var n := |files| - 1;
      PollsReadAll(files[..n], offset);
      if n > 0 {
        assert files[..n][n - 1] == files[n - 1];
        PollOn(files, offset);
      }
    }
  }
}
