/**
 * The range arithmetic of `loopit` and `loopi` in src/core/tpool.h: a loop
 * of `size` iterations is split into one contiguous range per worker
 * thread, and each thread range into chunks of at most `max_thread_chunk`
 * iterations. The calls the operator receives are listed thread by thread,
 * in the order each thread makes them; the concurrency is not modelled.
 */
module Loops {

  /** One call `op(begin, end, thread)`. */
  datatype Call = Call(begin: nat, end: nat, thread: nat)

  /** One call `op(begin, end)` of `loopi`. */
  datatype Range = Range(begin: nat, end: nat)

  function Min(a: nat, b: nat): nat
  {
    if a <= b then a else b
  }

  /** `thread_chunk`: the iterations per thread, `size / workers` rounded up. */
  function ThreadChunk(size: nat, workers: nat): (c: nat)
    requires workers > 0
  {
    (size + workers - 1) / workers
  }

  /** The thread chunk is the ceiling of `size / workers`: enough, and not one too many. */
  lemma ThreadChunkIsCeiling(size: nat, workers: nat)
    requires workers > 0
    ensures ThreadChunk(size, workers) * workers >= size
    ensures size > 0 ==> (ThreadChunk(size, workers) - 1) * workers < size
    ensures ThreadChunk(size, workers) == 0 <==> size == 0
  {
    var c := ThreadChunk(size, workers);
    var r := (size + workers - 1) % workers;
    assert size + workers - 1 == c * workers + r;
  }

  /** `thread * thread_chunk`, the first iteration of a thread, built up one chunk at a time. */
  function ThreadBegin(thread: nat, tc: nat): nat
  {
    if thread == 0 then 0 else ThreadBegin(thread - 1, tc) + tc
  }

  lemma {:induction false} ThreadBeginIsProduct(thread: nat, tc: nat)
    ensures ThreadBegin(thread, tc) == thread * tc
  {
    if thread > 0 {
      ThreadBeginIsProduct(thread - 1, tc);
      assert thread * tc == (thread - 1) * tc + tc;
    }
  }

  /** The calls one thread makes over `[ibegin, end)`, `chunk` iterations at a time. */
  function ChunkCalls(ibegin: nat, end: nat, chunk: nat, thread: nat): seq<Call>
    requires chunk > 0
    decreases end - ibegin
  {
    if ibegin >= end then []
    else
      var next := Min(ibegin + chunk, end);
      [Call(ibegin, next, thread)] + ChunkCalls(next, end, chunk, thread)
  }

  /**
   * One thread's calls all carry its index, lie inside its range, and have
   * `chunk` iterations each except the last, which has at most that many.
   */
  lemma {:induction false} ChunkCallsShape(ibegin: nat, end: nat, chunk: nat, thread: nat)
    requires chunk > 0
    ensures forall i :: 0 <= i < |ChunkCalls(ibegin, end, chunk, thread)| ==>
      ChunkCalls(ibegin, end, chunk, thread)[i].thread == thread
    ensures forall i :: 0 <= i < |ChunkCalls(ibegin, end, chunk, thread)| ==>
      ibegin <= ChunkCalls(ibegin, end, chunk, thread)[i].begin < ChunkCalls(ibegin, end, chunk, thread)[i].end <= end
    ensures forall i :: 0 <= i < |ChunkCalls(ibegin, end, chunk, thread)| ==>
      ChunkCalls(ibegin, end, chunk, thread)[i].end - ChunkCalls(ibegin, end, chunk, thread)[i].begin <= chunk
    ensures forall i :: 0 <= i < |ChunkCalls(ibegin, end, chunk, thread)| - 1 ==>
      ChunkCalls(ibegin, end, chunk, thread)[i].end - ChunkCalls(ibegin, end, chunk, thread)[i].begin == chunk
    decreases end - ibegin
  {
    if ibegin < end {
      var next := Min(ibegin + chunk, end);
      var calls := ChunkCalls(ibegin, end, chunk, thread);
      ChunkCallsShape(next, end, chunk, thread);
      assert forall i :: 1 <= i < |calls| ==> calls[i] == ChunkCalls(next, end, chunk, thread)[i - 1];
    }
  }

  /** The calls of threads `thread..workers - 1`; assignment stops at the first thread with nothing to do. */
  function ThreadCalls(size: nat, maxChunk: nat, workers: nat, tc: nat, thread: nat): (calls: seq<Call>)
    requires tc > 0 && maxChunk > 0
    ensures forall i :: 0 <= i < |calls| ==> thread <= calls[i].thread < workers
    decreases workers - thread
  {
    if thread >= workers then []
    else
      var begin := ThreadBegin(thread, tc);
      var end := Min(begin + tc, size);
      if begin >= end then []
      else
        ChunkCallsShape(begin, end, Min(tc, maxChunk), thread);
        ChunkCalls(begin, end, Min(tc, maxChunk), thread) + ThreadCalls(size, maxChunk, workers, tc, thread + 1)
  }

  /**
   * `loopit(size, max_thread_chunk, op)` on a pool of `workers` threads.
   * The source asserts `max_thread_chunk > 0` whenever there is work.
   */
  function LoopIt(size: nat, maxChunk: nat, workers: nat): (calls: seq<Call>)
    requires workers > 0
    requires size > 0 ==> maxChunk > 0
    ensures size == 0 ==> calls == []
    ensures forall i :: 0 <= i < |calls| ==> calls[i].thread < workers
  {
    var tc := ThreadChunk(size, workers);
    if tc > 0 then ThreadCalls(size, maxChunk, workers, tc, 0) else []
  }

  /** `loopi`: the ranges of `loopit`, without the thread index. */
  function LoopI(size: nat, maxChunk: nat, workers: nat): (ranges: seq<Range>)
    requires workers > 0
    requires size > 0 ==> maxChunk > 0
    ensures |ranges| == |LoopIt(size, maxChunk, workers)|
    ensures forall i :: 0 <= i < |ranges| ==>
      ranges[i].begin == LoopIt(size, maxChunk, workers)[i].begin && ranges[i].end == LoopIt(size, maxChunk, workers)[i].end
  {
    var calls := LoopIt(size, maxChunk, workers);
    seq(|calls|, i requires 0 <= i < |calls| => Range(calls[i].begin, calls[i].end))
  }

  // ---------------------------------------------------------------------
  // Tiling

  /** The calls cover `[lo, hi)` with non-empty ranges, one after the other. */
  predicate Tiles(calls: seq<Call>, lo: nat, hi: nat)
    decreases |calls|
  {
    if |calls| == 0 then lo == hi
    else calls[0].begin == lo && calls[0].begin < calls[0].end && Tiles(calls[1..], calls[0].end, hi)
  }

  lemma {:induction false} TilesConcat(a: seq<Call>, b: seq<Call>, lo: nat, mid: nat, hi: nat)
    requires Tiles(a, lo, mid) && Tiles(b, mid, hi)
    ensures Tiles(a + b, lo, hi)
    decreases |a|
  {
    if |a| > 0 {
      assert a[0].begin == lo && a[0].begin < a[0].end && Tiles(a[1..], a[0].end, mid);
      TilesConcat(a[1..], b, a[0].end, mid, hi);
      assert (a + b)[0] == a[0];
      assert (a + b)[1..] == a[1..] + b;
    } else {
      assert a + b == b;
    }
  }

  lemma {:induction false} ChunkCallsTile(ibegin: nat, end: nat, chunk: nat, thread: nat)
    requires chunk > 0 && ibegin <= end
    ensures Tiles(ChunkCalls(ibegin, end, chunk, thread), ibegin, end)
    decreases end - ibegin
  {
    if ibegin < end {
      var next := Min(ibegin + chunk, end);
      var calls := ChunkCalls(ibegin, end, chunk, thread);
      ChunkCallsTile(next, end, chunk, thread);
      assert calls[1..] == ChunkCalls(next, end, chunk, thread);
    }
  }

  lemma {:induction false} ThreadCallsTile(size: nat, maxChunk: nat, workers: nat, tc: nat, thread: nat)
    requires tc > 0 && maxChunk > 0 && thread <= workers && tc * workers >= size
    ensures Tiles(ThreadCalls(size, maxChunk, workers, tc, thread), Min(ThreadBegin(thread, tc), size), size)
    decreases workers - thread
  {
    if thread < workers {
      var begin := ThreadBegin(thread, tc);
      var end := Min(begin + tc, size);
      if begin < end {
        var mine := ChunkCalls(begin, end, Min(tc, maxChunk), thread);
        var rest := ThreadCalls(size, maxChunk, workers, tc, thread + 1);
        assert ThreadBegin(thread + 1, tc) == begin + tc;
        ChunkCallsTile(begin, end, Min(tc, maxChunk), thread);
        ThreadCallsTile(size, maxChunk, workers, tc, thread + 1);
        TilesConcat(mine, rest, begin, end, size);
      }
    } else {
      ThreadBeginIsProduct(thread, tc);
    }
  }

  /** Across all threads the calls cover `[0, size)` with non-empty ranges, one after the other. */
  lemma LoopItTiles(size: nat, maxChunk: nat, workers: nat)
    requires workers > 0
    requires size > 0 ==> maxChunk > 0
    ensures Tiles(LoopIt(size, maxChunk, workers), 0, size)
  {
    var tc := ThreadChunk(size, workers);
    ThreadChunkIsCeiling(size, workers);
    if tc > 0 {
      ThreadCallsTile(size, maxChunk, workers, tc, 0);
    }
  }

  /** Tiled ranges come in increasing order and stay inside `[lo, hi]`. */
  lemma {:induction false} TilesOrdered(calls: seq<Call>, lo: nat, hi: nat)
    requires Tiles(calls, lo, hi)
    ensures forall i :: 0 <= i < |calls| ==> lo <= calls[i].begin < calls[i].end <= hi
    ensures forall i, j :: 0 <= i < j < |calls| ==> calls[i].end <= calls[j].begin
    decreases |calls|
  {
    if |calls| > 0 {
      TilesOrdered(calls[1..], calls[0].end, hi);
      assert forall j :: 1 <= j < |calls| ==> calls[j] == calls[1..][j - 1];
    }
  }

  /** Every point of `[lo, hi)` lies in some tiled range. */
  lemma {:induction false} TilesCover(calls: seq<Call>, lo: nat, hi: nat, x: nat)
    requires Tiles(calls, lo, hi) && lo <= x < hi
    ensures exists i :: 0 <= i < |calls| && calls[i].begin <= x < calls[i].end
    decreases |calls|
  {
    if x >= calls[0].end {
      TilesCover(calls[1..], calls[0].end, hi, x);
      var i :| 0 <= i < |calls[1..]| && calls[1..][i].begin <= x < calls[1..][i].end;
      assert calls[i + 1] == calls[1..][i];
    }
  }

  /** Iteration `x` belongs to the range of `call`. */
  predicate InCall(call: Call, x: nat)
  {
    call.begin <= x < call.end
  }

  /** Iteration `x` is handed to exactly one of the calls. */
  predicate CoveredOnce(calls: seq<Call>, x: nat)
  {
    exists i :: 0 <= i < |calls| && InCall(calls[i], x) && forall j :: 0 <= j < |calls| && InCall(calls[j], x) ==> j == i
  }

  /**
   * Every iteration of the loop is handed to exactly one call, no call is
   * empty, and the calls come in increasing order of their ranges.
   */
  lemma LoopItPartition(size: nat, maxChunk: nat, workers: nat)
    requires workers > 0
    requires size > 0 ==> maxChunk > 0
    ensures var calls := LoopIt(size, maxChunk, workers);
      && (forall i :: 0 <= i < |calls| ==> calls[i].begin < calls[i].end <= size)
      && (forall i, j :: 0 <= i < j < |calls| ==> calls[i].end <= calls[j].begin)
      && (forall x: nat :: x < size ==> CoveredOnce(calls, x))
  {
    var calls := LoopIt(size, maxChunk, workers);
    LoopItTiles(size, maxChunk, workers);
    TilesOrdered(calls, 0, size);
    forall x: nat | x < size
      ensures CoveredOnce(calls, x)
    {
      TilesCover(calls, 0, size, x);
      var i :| 0 <= i < |calls| && calls[i].begin <= x < calls[i].end;
      assert InCall(calls[i], x);
      forall j | 0 <= j < |calls| && InCall(calls[j], x)
        ensures j == i
      {
      }
    }
  }

  // ---------------------------------------------------------------------
  // Per-thread structure

  /** The call lies inside its thread's range `[t * tc, min(t * tc + tc, size))`. */
  predicate InThreadRange(c: Call, tc: nat, size: nat)
  {
    ThreadBegin(c.thread, tc) <= c.begin && c.end <= Min(ThreadBegin(c.thread, tc) + tc, size)
  }

  /** The call has `chunk` iterations or fewer. */
  predicate AtMost(c: Call, chunk: nat)
  {
    c.end - c.begin <= chunk
  }

  lemma {:induction false} ThreadCallsInRange(size: nat, maxChunk: nat, workers: nat, tc: nat, thread: nat)
    requires tc > 0 && maxChunk > 0
    ensures forall i :: 0 <= i < |ThreadCalls(size, maxChunk, workers, tc, thread)| ==>
      InThreadRange(ThreadCalls(size, maxChunk, workers, tc, thread)[i], tc, size) && AtMost(ThreadCalls(size, maxChunk, workers, tc, thread)[i], Min(tc, maxChunk))
    decreases workers - thread
  {
    if thread < workers {
      var begin := ThreadBegin(thread, tc);
      var end := Min(begin + tc, size);
      if begin < end {
        var mine := ChunkCalls(begin, end, Min(tc, maxChunk), thread);
        ChunkCallsShape(begin, end, Min(tc, maxChunk), thread);
        var next := thread + 1;
        ThreadCallsInRange(size, maxChunk, workers, tc, next);
        var rest := ThreadCalls(size, maxChunk, workers, tc, next);
        var calls := mine + rest;
        assert ThreadCalls(size, maxChunk, workers, tc, thread) == calls;
        forall i | 0 <= i < |calls|
          ensures InThreadRange(calls[i], tc, size) && AtMost(calls[i], Min(tc, maxChunk))
        {
          if i < |mine| {
            assert calls[i] == mine[i];
            assert mine[i].thread == thread;
            assert InThreadRange(mine[i], tc, size);
            assert AtMost(mine[i], Min(tc, maxChunk));
          } else {
            assert calls[i] == rest[i - |mine|];
            assert InThreadRange(rest[i - |mine|], tc, size);
            assert AtMost(rest[i - |mine|], Min(tc, maxChunk));
          }
        }
      }
    }
  }

  lemma {:induction false} ThreadCallsSorted(size: nat, maxChunk: nat, workers: nat, tc: nat, thread: nat)
    requires tc > 0 && maxChunk > 0
    ensures forall i, j :: 0 <= i < j < |ThreadCalls(size, maxChunk, workers, tc, thread)| ==> ThreadCalls(size, maxChunk, workers, tc, thread)[i].thread <= ThreadCalls(size, maxChunk, workers, tc, thread)[j].thread
    decreases workers - thread
  {
    if thread < workers {
      var begin := ThreadBegin(thread, tc);
      var end := Min(begin + tc, size);
      if begin < end {
        var mine := ChunkCalls(begin, end, Min(tc, maxChunk), thread);
        ChunkCallsShape(begin, end, Min(tc, maxChunk), thread);
        var next := thread + 1;
        ThreadCallsSorted(size, maxChunk, workers, tc, next);
        var rest := ThreadCalls(size, maxChunk, workers, tc, next);
        var calls := mine + rest;
        assert ThreadCalls(size, maxChunk, workers, tc, thread) == calls;
        forall i, j | 0 <= i < j < |calls|
          ensures calls[i].thread <= calls[j].thread
        {
          if j < |mine| {
            assert calls[i] == mine[i] && calls[j] == mine[j];
          } else if i < |mine| {
            assert calls[i] == mine[i] && calls[j] == rest[j - |mine|];
          } else {
            assert calls[i] == rest[i - |mine|] && calls[j] == rest[j - |mine|];
          }
        }
      }
    }
  }

  /**
   * Within a thread, every call but the thread's last has exactly
   * `min(tc, max_thread_chunk)` iterations.
   */
  lemma {:induction false} ThreadCallsFullChunks(size: nat, maxChunk: nat, workers: nat, tc: nat, thread: nat)
    requires tc > 0 && maxChunk > 0
    ensures forall i :: 0 <= i < |ThreadCalls(size, maxChunk, workers, tc, thread)| - 1 && ThreadCalls(size, maxChunk, workers, tc, thread)[i].thread == ThreadCalls(size, maxChunk, workers, tc, thread)[i + 1].thread ==>
      ThreadCalls(size, maxChunk, workers, tc, thread)[i].end - ThreadCalls(size, maxChunk, workers, tc, thread)[i].begin == Min(tc, maxChunk)
    decreases workers - thread
  {
    if thread < workers {
      var begin := ThreadBegin(thread, tc);
      var end := Min(begin + tc, size);
      if begin < end {
        var mine := ChunkCalls(begin, end, Min(tc, maxChunk), thread);
        ChunkCallsShape(begin, end, Min(tc, maxChunk), thread);
        var next := thread + 1;
        ThreadCallsFullChunks(size, maxChunk, workers, tc, next);
        var rest := ThreadCalls(size, maxChunk, workers, tc, next);
        var calls := mine + rest;
        assert ThreadCalls(size, maxChunk, workers, tc, thread) == calls;
        forall i | 0 <= i < |calls| - 1 && calls[i].thread == calls[i + 1].thread
          ensures calls[i].end - calls[i].begin == Min(tc, maxChunk)
        {
          if i < |mine| - 1 {
            assert calls[i] == mine[i];
          } else if i >= |mine| {
            assert calls[i] == rest[i - |mine|] && calls[i + 1] == rest[i + 1 - |mine|];
          }
        }
      }
    }
  }

  /**
   * The per-thread structure of `loopit`: each call lies inside its
   * thread's range `[t * tc, min(t * tc + tc, size))` and has at most
   * `min(tc, max_thread_chunk)` iterations, exactly that many unless it is
   * its thread's last call, and threads appear in increasing order.
   */
  lemma LoopItThreads(size: nat, maxChunk: nat, workers: nat)
    requires workers > 0
    requires size > 0 ==> maxChunk > 0
    ensures var calls := LoopIt(size, maxChunk, workers);
      var tc := ThreadChunk(size, workers);
      && (forall i :: 0 <= i < |calls| ==> InThreadRange(calls[i], tc, size) && AtMost(calls[i], Min(tc, maxChunk)))
      && (forall i :: 0 <= i < |calls| - 1 && calls[i].thread == calls[i + 1].thread ==>
            calls[i].end - calls[i].begin == Min(tc, maxChunk))
      && (forall i, j :: 0 <= i < j < |calls| ==> calls[i].thread <= calls[j].thread)
  {
    var tc := ThreadChunk(size, workers);
    if tc > 0 {
      ThreadCallsInRange(size, maxChunk, workers, tc, 0);
      ThreadCallsSorted(size, maxChunk, workers, tc, 0);
      ThreadCallsFullChunks(size, maxChunk, workers, tc, 0);
    }
  }
}
