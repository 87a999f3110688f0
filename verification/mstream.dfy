/**
 * The read-only in-memory stream of src/cortex/file/mstream.cpp: a buffer,
 * a read position `tellg` and the count of the last read, `gcount`.
 * Operations return the updated stream instead of mutating it.
 */
module MemoryStream {

  datatype Stream = Stream(data: seq<char>, tellg: int, gcount: int)

  /** The position lies inside the buffer or at its end. */
  predicate Valid(s: Stream)
  {
    0 <= s.tellg <= |s.data|
  }

  /** A fresh stream over `data`. */
  function Open(data: seq<char>): (s: Stream)
    ensures Valid(s) && s.data == data && s.tellg == 0 && s.gcount == 0
  {
    Stream(data, 0, 0)
  }

  function Size(s: Stream): int
  {
    |s.data|
  }

  predicate Eof(s: Stream)
  {
    s.tellg == Size(s)
  }

  /** `good()` and `operator bool`: there is still something to read. */
  predicate Good(s: Stream)
  {
    !Eof(s)
  }

  /** What a read hands back: the success flag, the bytes copied and the stream after it. */
  datatype ReadResult = ReadResult(ok: bool, bytes: seq<char>, stream: Stream)

  /**
   * `read(bytes, n)`: copy at most `n` bytes from the position on. A request
   * that runs past the end is cut to what is left; when nothing is left to
   * copy (or `n <= 0`) the read fails and the stream is unchanged.
   */
  function Read(s: Stream, n: int): (r: ReadResult)
    requires Valid(s)
    ensures Valid(r.stream) && r.stream.data == s.data
    ensures r.ok <==> n > 0 && s.tellg < Size(s)
    ensures r.ok ==>
      var k := if s.tellg + n > Size(s) then Size(s) - s.tellg else n;
      && r.bytes == s.data[s.tellg..s.tellg + k]
      && r.stream.tellg == s.tellg + k
      && r.stream.gcount == k
    ensures !r.ok ==> r.bytes == [] && r.stream == s
  {
    var k := if s.tellg + n > Size(s) then Size(s) - s.tellg else n;
    if k > 0 then
      ReadResult(true, s.data[s.tellg..s.tellg + k], Stream(s.data, s.tellg + k, k))
    else
      ReadResult(false, [], s)
  }

  /** A stream is good exactly when a one-byte read would succeed. */
  lemma GoodIffReadable(s: Stream)
    requires Valid(s)
    ensures Good(s) <==> Read(s, 1).ok
    ensures Eof(s) <==> !Read(s, 1).ok
  {
  }

  /** Two consecutive reads deliver the same bytes, and end at the same position, as one read of the total. */
  lemma ReadConcat(s: Stream, a: int, b: int)
    requires Valid(s) && a > 0 && b > 0
    requires s.tellg + a <= Size(s)
    ensures var first := Read(s, a);
      var second := Read(first.stream, b);
      var whole := Read(s, a + b);
      && first.bytes + second.bytes == whole.bytes
      && second.stream.tellg == whole.stream.tellg
  {
    var first := Read(s, a);
    var second := Read(first.stream, b);
    var whole := Read(s, a + b);
    if first.stream.tellg < Size(s) {
      var end := whole.stream.tellg;
      assert s.data[s.tellg..end] == s.data[s.tellg..s.tellg + a] + s.data[s.tellg + a..end];
    }
  }

  /** Reading everything that is left reaches the end of the stream. */
  lemma ReadToEof(s: Stream, n: int)
    requires Valid(s) && s.tellg < Size(s) && n >= Size(s) - s.tellg
    ensures Read(s, n).ok && Eof(Read(s, n).stream)
    ensures Read(s, n).bytes == s.data[s.tellg..]
  {
  }

  /** What a skip hands back: the success flag and the stream after it. */
  datatype SkipResult = SkipResult(ok: bool, stream: Stream)

  /**
   * `skip(n)` as written: any `n` with `tellg + n <= size` is accepted,
   * including a negative one, which moves the position before the start.
   */
  function SkipAsWritten(s: Stream, n: int): (r: SkipResult)
    ensures r.stream.data == s.data
    ensures r.ok <==> s.tellg + n <= Size(s)
    ensures r.ok ==> r.stream.tellg == s.tellg + n && r.stream.gcount == 0
    ensures !r.ok ==> r.stream == s
  {
    if s.tellg + n <= Size(s) then SkipResult(true, Stream(s.data, s.tellg + n, 0))
    else SkipResult(false, s)
  }

  /** A negative skip at the start of a stream succeeds and leaves the position outside the buffer. */
  lemma SkipAsWrittenLeavesBuffer()
    ensures Valid(Open("ab"))
    ensures SkipAsWritten(Open("ab"), -1).ok
    ensures !Valid(SkipAsWritten(Open("ab"), -1).stream)
  {
  }

  /**
   * `skip(n)` as its callers use it: advance by a non-negative `n` when
   * that stays inside the buffer, and fail otherwise.
   */
  function Skip(s: Stream, n: int): (r: SkipResult)
    requires Valid(s)
    ensures Valid(r.stream) && r.stream.data == s.data
    ensures r.ok <==> 0 <= n && s.tellg + n <= Size(s)
    ensures r.ok ==> r.stream.tellg == s.tellg + n && r.stream.gcount == 0
    ensures !r.ok ==> r.stream == s
  {
    if 0 <= n && s.tellg + n <= Size(s) then SkipResult(true, Stream(s.data, s.tellg + n, 0))
    else SkipResult(false, s)
  }

  /** On the inputs the guard admits, the corrected skip and the skip as written agree. */
  lemma SkipAgreesForward(s: Stream, n: int)
    requires Valid(s) && n >= 0
    ensures Skip(s, n) == SkipAsWritten(s, n)
  {
  }

  /** Skipping `a` bytes and then reading `b` delivers the bytes a read of `a + b` would end with. */
  lemma SkipThenRead(s: Stream, a: int, b: int)
    requires Valid(s) && a >= 0 && b > 0 && s.tellg + a + b <= Size(s)
    ensures var skipped := Skip(s, a);
      && skipped.ok
      && Read(skipped.stream, b).bytes == Read(s, a + b).bytes[a..]
  {
  }

  predicate IsEndl(c: char)
  {
    c == '\n' || c == '\r'
  }

  /** The first position at or after `i` that is not a line break, or the end. */
  function SkipBreaks(data: seq<char>, i: nat): (j: nat)
    requires i <= |data|
    ensures i <= j <= |data|
    ensures forall k :: i <= k < j ==> IsEndl(data[k])
    ensures j < |data| ==> !IsEndl(data[j])
    decreases |data| - i
  {
    if i == |data| || !IsEndl(data[i]) then i else SkipBreaks(data, i + 1)
  }

  /** The first line break at or after `i`, or the end. */
  function LineEnd(data: seq<char>, i: nat): (j: nat)
    requires i <= |data|
    ensures i <= j <= |data|
    ensures forall k :: i <= k < j ==> !IsEndl(data[k])
    ensures j < |data| ==> IsEndl(data[j])
    decreases |data| - i
  {
    if i == |data| || IsEndl(data[i]) then i else LineEnd(data, i + 1)
  }

  /**
   * `getline(line)`: skip a run of line breaks, then collect bytes up to
   * the next line break or the end. The result says whether the line is
   * non-empty; `gcount` is not touched.
   */
  method Getline(s: Stream) returns (ok: bool, line: string, t: Stream)
    requires Valid(s)
    ensures Valid(t) && t.data == s.data && t.gcount == s.gcount
    ensures forall k :: 0 <= k < |line| ==> !IsEndl(line[k])
    ensures ok <==> |line| > 0
    ensures var start := SkipBreaks(s.data, s.tellg);
      && t.tellg == LineEnd(s.data, start)
      && line == s.data[start..t.tellg]
  {
    var pos := s.tellg;
    while pos < |s.data| && IsEndl(s.data[pos])
      invariant s.tellg <= pos <= |s.data|
      invariant SkipBreaks(s.data, s.tellg) == SkipBreaks(s.data, pos)
      decreases |s.data| - pos
    {
      pos := pos + 1;
    }
    ghost var start := pos;
    line := [];
    while pos < |s.data| && !IsEndl(s.data[pos])
      invariant start <= pos <= |s.data|
      invariant line == s.data[start..pos]
      invariant LineEnd(s.data, start) == LineEnd(s.data, pos)
      decreases |s.data| - pos
    {
      line := line + [s.data[pos]];
      pos := pos + 1;
    }
    ok := |line| > 0;
    t := Stream(s.data, pos, s.gcount);
  }

  /**
   * The bytes `getline` moves over are a run of line breaks followed by
   * the line itself: nothing is lost or reordered.
   */
  lemma GetlineSplit(data: seq<char>, i: nat)
    requires i <= |data|
    ensures var start := SkipBreaks(data, i);
      var end := LineEnd(data, start);
      && data[i..end] == data[i..start] + data[start..end]
      && (forall k :: i <= k < start ==> IsEndl(data[k]))
      && (forall k :: start <= k < end ==> !IsEndl(data[k]))
  {
  }
}
