/**
 * Archive decoding of src/common/io_arch.cpp: the suffix classification of
 * a path, the TAR octal size field, the walk over 512-byte ustar headers
 * (the "ustar Interchange Format" of the pax utility, POSIX.1) and the
 * dispatch of `io::decode`.
 *
 * The archive is an in-memory byte sequence; the walk consumes it from the
 * front, so the remaining bytes play the role of the source's read
 * position. The callback is modelled by the list of (name, bytes) entries
 * it receives, in order. gzip and bzip2 decompression are parameters.
 */
module Archive {
  import opened Strings
  import opened Wrappers
  import opened Arith

  datatype ArchiveType = Tar | TarGz | TarBz2 | Gz | Bz2 | Unknown

  /**
   * `decode_archive_type` as written: classify a path by its
   * case-insensitive suffix, in the source's order. No branch yields `Bz2`,
   * so a `.bz2` file is classified as unknown.
   */
  function DecodeArchiveTypeAsWritten(path: string): (r: ArchiveType)
    ensures r != Bz2
    ensures r == Unknown <==>
      !(IEndsWith(path, ".tar.gz") || IEndsWith(path, ".tgz") ||
        IEndsWith(path, ".tar.bz2") || IEndsWith(path, ".tbz") || IEndsWith(path, ".tbz2") || IEndsWith(path, ".tb2") ||
        IEndsWith(path, ".tar") || IEndsWith(path, ".gz"))
  {
    if IEndsWith(path, ".tar.gz") || IEndsWith(path, ".tgz") then TarGz
    else if IEndsWith(path, ".tar.bz2") || IEndsWith(path, ".tbz") || IEndsWith(path, ".tbz2") || IEndsWith(path, ".tb2") then TarBz2
    else if IEndsWith(path, ".tar") then Tar
    else if IEndsWith(path, ".gz") then Gz
    else Unknown
  }

  /**
   * The classification the rest of the source expects: as written, plus
   * `.bz2` for a bzip2-compressed single file, which `io_decode` and
   * `io::decode` already handle.
   */
  function DecodeArchiveType(path: string): (r: ArchiveType)
    ensures r == Bz2 <==> DecodeArchiveTypeAsWritten(path) == Unknown && IEndsWith(path, ".bz2")
    ensures r != Bz2 ==> r == DecodeArchiveTypeAsWritten(path)
  {
    var kind := DecodeArchiveTypeAsWritten(path);
    if kind == Unknown && IEndsWith(path, ".bz2") then Bz2 else kind
  }

  /** A path with a suffix shows, `k` characters from its end, the suffix's character there, up to case. */
  lemma SuffixChar(path: string, suffix: string, k: nat)
    requires 0 < k <= |suffix|
    ensures IEndsWith(path, suffix) ==> LowerChar(path[|path| - k]) == LowerChar(suffix[|suffix| - k])
  {
    if IEndsWith(path, suffix) {
      var i := |suffix| - k;
      assert LowerChar(path[|path| - |suffix| + i]) == LowerChar(suffix[i]);
    }
  }

  /** A `.bz2` path is not a tarball suffix the source knows, so as written it is unknown. */
  lemma Bz2IsUnknownAsWritten(path: string)
    requires IEndsWith(path, ".bz2") && !IEndsWith(path, ".tar.bz2")
    ensures DecodeArchiveTypeAsWritten(path) == Unknown
    ensures DecodeArchiveType(path) == Bz2
  {
    Bz2EndsNoOtherWay(path);
  }

  /** A path ending in `.bz2` ends in none of the other suffixes except `.tar.bz2`. */
  lemma Bz2EndsNoOtherWay(path: string)
    requires IEndsWith(path, ".bz2")
    ensures !IEndsWith(path, ".tar.gz") && !IEndsWith(path, ".tgz") && !IEndsWith(path, ".tbz")
    ensures !IEndsWith(path, ".tbz2") && !IEndsWith(path, ".tb2") && !IEndsWith(path, ".tar") && !IEndsWith(path, ".gz")
  {
    SuffixChar(path, ".bz2", 1);
    SuffixChar(path, ".bz2", 2);
    SuffixChar(path, ".bz2", 4);
    SuffixChar(path, ".tar.gz", 1);
    SuffixChar(path, ".tgz", 1);
    SuffixChar(path, ".tbz", 1);
    SuffixChar(path, ".tbz2", 4);
    SuffixChar(path, ".tb2", 2);
    SuffixChar(path, ".tar", 1);
    SuffixChar(path, ".gz", 1);
  }

  lemma LowerSuffix(s: string, k: nat)
    requires k <= |s|
    ensures Lower(s)[k..] == Lower(s[k..])
  {
  }

  /** The suffix test does not see the case of the path. */
  lemma IEndsWithLower(s: string, suffix: string)
    ensures IEndsWith(Lower(s), suffix) == IEndsWith(s, suffix)
  {
    if |suffix| <= |s| {
      LowerSuffix(s, |s| - |suffix|);
      LowerIdempotent(s[|s| - |suffix|..]);
    }
  }

  /** Classification is case-insensitive: lower-casing the path changes nothing. */
  lemma DecodeArchiveTypeCaseInsensitive(path: string)
    ensures DecodeArchiveType(Lower(path)) == DecodeArchiveType(path)
  {
    IEndsWithLower(path, ".tar.gz");
    IEndsWithLower(path, ".tgz");
    IEndsWithLower(path, ".tar.bz2");
    IEndsWithLower(path, ".tbz");
    IEndsWithLower(path, ".tbz2");
    IEndsWithLower(path, ".tb2");
    IEndsWithLower(path, ".tar");
    IEndsWithLower(path, ".gz");
    IEndsWithLower(path, ".bz2");
  }

  // ---------------------------------------------------------------------
  // TAR octal numbers

  /** Modulus of the source's `uint64_t` arithmetic. */
  const U64: int := 0x1_0000_0000_0000_0000

  const NUL: byte := 0
  const Space: byte := 32
  const DigitZero: byte := 48

  predicate IsTerminator(b: byte)
  {
    b == NUL || b == Space
  }

  predicate IsOctalDigit(b: byte)
  {
    48 <= b <= 55
  }

  function Pow8(k: nat): (r: nat)
    ensures r >= 1
  {
    if k == 0 then 1 else 8 * Pow8(k - 1)
  }

  /**
   * Base-8 value of a digit string, each byte standing for `b - 48`
   * (the source's `ascii_to_number`, which does not check its argument).
   */
  function OctalValue(s: seq<byte>): int
  {
    if |s| == 0 then 0 else OctalValue(s[..|s| - 1]) * 8 + (s[|s| - 1] as int - 48)
  }

  /** Index of the first NUL or space in `field[lo..size]` (inclusive), or `size + 1`. */
  function FirstTerminator(field: seq<byte>, lo: nat, size: nat): (e: nat)
    requires size < |field|
    requires lo <= size + 1
    ensures lo <= e <= size + 1
    ensures forall j :: lo <= j < e ==> !IsTerminator(field[j])
    ensures e <= size ==> IsTerminator(field[e])
    decreases size + 1 - lo
  {
    if lo > size then size + 1
    else if IsTerminator(field[lo]) then lo
    else FirstTerminator(field, lo + 1, size)
  }

  /**
   * What `decode_tar_octal(field, size)` returns: the base-8 value of the
   * bytes before the first NUL or space, taken modulo 2^64. The scan starts
   * at offset `size`, so byte `size` itself takes part when the first
   * `size` bytes hold no terminator.
   */
  function TarOctal(field: seq<byte>, size: nat): (v: nat)
    requires size < |field|
    ensures v < U64
  {
    OctalValue(field[..FirstTerminator(field, 0, size)]) % U64
  }

  /** One step of the source's accumulation, done with remainders. */
  lemma ModAccumulate(sum: int, d: int, mult: int, m: int)
    requires m > 0
    ensures ((sum % m) + (d % m) * (mult % m)) % m == (sum + d * mult) % m
  {
    var qs, qd, qm := sum / m, d / m, mult / m;
    var rs, rd, rm := sum % m, d % m, mult % m;
    assert sum == qs * m + rs;
    assert d * mult == (qd * m + rd) * (qm * m + rm);
    assert d * mult == rd * rm + (qd * qm * m + qd * rm + rd * qm) * m;
    assert sum + d * mult == rs + rd * rm + (qs + qd * qm * m + qd * rm + rd * qm) * m;
    ModAddMultiple(rs + rd * rm, qs + qd * qm * m + qd * rm + rd * qm, m);
  }

  /** The leading digit of a string weighs 8 to the power of the rest's length. */
  lemma {:induction false} OctalValueCons(s: seq<byte>)
    requires |s| > 0
    ensures OctalValue(s) == (s[0] as int - 48) * Pow8(|s| - 1) + OctalValue(s[1..])
    decreases |s|
  {
    if |s| > 1 {
      var init := s[..|s| - 1];
      var tail := s[1..];
      var d := s[0] as int - 48;
      var last := s[|s| - 1] as int - 48;
      var p := Pow8(|s| - 2);
      OctalValueCons(init);
      assert init[1..] == tail[..|tail| - 1];
      assert init[0] == s[0];
      assert OctalValue(tail) == OctalValue(init[1..]) * 8 + last;
      assert OctalValue(s) == OctalValue(init) * 8 + last;
      assert Pow8(|s| - 1) == 8 * p;
      Regroup(d, p, OctalValue(init[1..]), last);
    } else {
      assert s[1..] == [];
      assert s[..0] == [];
    }
  }

  /** Shifting a leading digit's weight by one octal place. */
  lemma Regroup(d: int, p: int, x: int, last: int)
    ensures (d * p + x) * 8 + last == d * (8 * p) + (x * 8 + last)
  {
  }

  /**
   * `decode_tar_octal`, as the source computes it: a backward scan that
   * remembers the first terminator, then a backward accumulation with a
   * multiplier that grows by 8 per digit, all in 64-bit unsigned
   * arithmetic. `field` holds at least `size + 1` bytes.
   */
  method DecodeTarOctal(field: seq<byte>, size: nat) returns (sum: nat)
    requires size < |field|
    ensures sum == TarOctal(field, size)
  {
    var end := ScanTerminator(field, size);
    sum := AccumulateDigits(field, end);
    TarOctalOfScan(field, size, end);
  }

  /**
   * The second loop of `decode_tar_octal`: from the byte before `end` down
   * to the first, add each digit times a multiplier that starts at 1 and
   * grows by 8 per digit.
   */
  method AccumulateDigits(field: seq<byte>, end: nat) returns (sum: nat)
    requires end <= |field|
    ensures sum == OctalValue(field[0..end]) % U64
  {
    sum := 0;
    var multiplier: nat := 1;
    var current: int := end - 1;
    while current >= 0
      invariant -1 <= current < end
      invariant sum == OctalValue(field[current + 1..end]) % U64
      invariant multiplier == Pow8(end - 1 - current) % U64
      decreases current + 1
    {
      sum, multiplier := Accumulate(field, current, end, sum, multiplier);
      current := current - 1;
    }
  }

  lemma TarOctalOfScan(field: seq<byte>, size: nat, end: nat)
    requires size < |field| && end == FirstTerminator(field, 0, size)
    ensures TarOctal(field, size) == OctalValue(field[0..end]) % U64
  {
    assert field[..end] == field[0..end];
  }

  /**
   * The first loop of `decode_tar_octal`: scan from offset `size` down to
   * zero, remembering the lowest terminator seen; the result is one past
   * the last byte that takes part.
   */
  method ScanTerminator(field: seq<byte>, size: nat) returns (end: nat)
    requires size < |field|
    ensures end == FirstTerminator(field, 0, size)
  {
    var current: int := size;
    var check: int := size;
    while check >= 0
      invariant -1 <= check <= size
      invariant current + 1 == FirstTerminator(field, check + 1, size)
      decreases check + 1
    {
      if IsTerminator(field[check]) {
        current := check - 1;
      }
      check := check - 1;
    }
    end := current + 1;
  }

  /**
   * The body of the accumulation loop: add the digit at `current` times the
   * multiplier, then grow the multiplier by 8, both in 64-bit arithmetic.
   */
  method Accumulate(field: seq<byte>, current: nat, end: nat, sum: nat, multiplier: nat)
    returns (sum': nat, multiplier': nat)
    requires current < end <= |field|
    requires sum == OctalValue(field[current + 1..end]) % U64
    requires multiplier == Pow8(end - 1 - current) % U64
    ensures sum' == OctalValue(field[current..end]) % U64
    ensures multiplier' == Pow8(end - current) % U64
  {
    var digit := (field[current] as int - 48) % U64;
    AccumulateStep(field, current, end, sum, multiplier);
    sum' := (sum + digit * multiplier) % U64;
    multiplier' := (multiplier * 8) % U64;
  }

  /** One step of the backward accumulation, in 64-bit arithmetic, extends the decoded suffix by one digit. */
  lemma AccumulateStep(field: seq<byte>, current: nat, end: nat, sum: int, multiplier: int)
    requires current < end <= |field|
    requires sum == OctalValue(field[current + 1..end]) % U64
    requires multiplier == Pow8(end - 1 - current) % U64
    ensures (sum + ((field[current] as int - 48) % U64) * multiplier) % U64 == OctalValue(field[current..end]) % U64
    ensures (multiplier * 8) % U64 == Pow8(end - current) % U64
  {
    var tail := field[current + 1..end];
    var d := field[current] as int - 48;
    var m := Pow8(end - 1 - current);
    DigitWeight(field, current, end);
    ModAccumulate(OctalValue(tail), d, m, U64);
    assert (sum + (d % U64) * multiplier) % U64 == (OctalValue(tail) + d * m) % U64;
    MultiplierStep(end - current, multiplier);
  }

  /** The digit at `current` weighs 8 to the power of the digits after it. */
  lemma DigitWeight(field: seq<byte>, current: nat, end: nat)
    requires current < end <= |field|
    ensures OctalValue(field[current..end]) ==
      (field[current] as int - 48) * Pow8(end - 1 - current) + OctalValue(field[current + 1..end])
  {
    OctalValueCons(field[current..end]);
    assert field[current..end][1..] == field[current + 1..end];
  }

  /** Growing the multiplier by 8 in 64-bit arithmetic tracks the next power of 8. */
  lemma MultiplierStep(k: nat, multiplier: int)
    requires k > 0 && multiplier == Pow8(k - 1) % U64
    ensures (multiplier * 8) % U64 == Pow8(k) % U64
  {
    ModAccumulate(0, Pow8(k - 1), 8, U64);
  }

  /** Octal digits give a value below 8 to the power of their count. */
  lemma {:induction false} OctalValueBounds(s: seq<byte>)
    requires forall j :: 0 <= j < |s| ==> IsOctalDigit(s[j])
    ensures 0 <= OctalValue(s) < Pow8(|s|)
    decreases |s|
  {
    if |s| > 0 {
      OctalValueBounds(s[..|s| - 1]);
    }
  }

  /**
   * With octal digits before the terminator the field decodes to their
   * exact base-8 value: no 64-bit wrap-around is possible in a field of up
   * to 21 bytes.
   */
  lemma TarOctalExact(field: seq<byte>, size: nat)
    requires size < |field| && size <= 20
    requires forall j :: 0 <= j < FirstTerminator(field, 0, size) ==> IsOctalDigit(field[j])
    ensures TarOctal(field, size) == OctalValue(field[..FirstTerminator(field, 0, size)])
    ensures TarOctal(field, size) < Pow8(FirstTerminator(field, 0, size))
  {
    var e := FirstTerminator(field, 0, size);
    var v := OctalValue(field[..e]);
    OctalValueBounds(field[..e]);
    Pow8Fits(e);
    ModSmall(v, U64);
  }

  /** Up to 21 octal digits fit an unsigned 64-bit value. */
  lemma Pow8Fits(e: nat)
    requires e <= 21
    ensures Pow8(e) < U64
  {
    Pow8Monotone(e, 21);
    Pow8Bound();
  }

  lemma {:induction false} Pow8Add(i: nat, j: nat)
    ensures Pow8(i + j) == Pow8(i) * Pow8(j)
    decreases i
  {
    if i > 0 {
      Pow8Add(i - 1, j);
      assert Pow8(i + j) == 8 * Pow8(i - 1 + j);
    }
  }

  /** 8^21 = 2^63 still fits an unsigned 64-bit value. */
  lemma Pow8Bound()
    ensures Pow8(21) < U64
  {
    assert Pow8(1) == 8;
    assert Pow8(2) == 64;
    assert Pow8(3) == 512;
    assert Pow8(4) == 4096;
    assert Pow8(5) == 32768;
    assert Pow8(6) == 262144;
    assert Pow8(7) == 2097152;
    Pow8Add(7, 7);
    Pow8Add(14, 7);
  }

  lemma {:induction false} Pow8Monotone(i: nat, j: nat)
    requires i <= j
    ensures Pow8(i) <= Pow8(j)
    decreases j
  {
    if i < j {
      Pow8Monotone(i, j - 1);
    }
  }

  /** A leading NUL or space decodes to 0. */
  lemma TarOctalLeadingTerminator(field: seq<byte>, size: nat)
    requires size < |field| && IsTerminator(field[0])
    ensures TarOctal(field, size) == 0
  {
  }

  /** Everything after the first terminator is ignored. */
  lemma TarOctalIgnoresTail(a: seq<byte>, b: seq<byte>, size: nat, t: nat)
    requires size < |a| && size < |b|
    requires t <= size && IsTerminator(a[t])
    requires a[..t + 1] == b[..t + 1]
    ensures TarOctal(a, size) == TarOctal(b, size)
  {
    var ea := FirstTerminator(a, 0, size);
    var eb := FirstTerminator(b, 0, size);
    assert ea <= t;
    assert b[ea] == a[ea];
    assert forall j :: 0 <= j < ea ==> b[j] == a[j];
    assert eb == ea;
    assert a[..ea] == b[..eb];
  }

  // ---------------------------------------------------------------------
  // Header layout

  const BlockSize: nat := 512

  /**
   * The fields of a `TARFileHeader`, in order, with their byte lengths:
   * name, mode, uid, gid, size, mtime, chksum, typeflag, linkname, magic,
   * version, uname, gname, devmajor, devminor, prefix, padding.
   */
  const HeaderFieldLengths: seq<nat> := [100, 8, 8, 8, 12, 12, 8, 1, 100, 6, 2, 32, 32, 8, 8, 155, 12]

  const NameField: nat := 0
  const SizeField: nat := 4
  const TypeFlagField: nat := 7
  const PrefixField: nat := 15

  /** Byte offset of field `i` in the header. */
  function FieldOffset(i: nat): nat
    requires i <= |HeaderFieldLengths|
  {
    if i == 0 then 0 else FieldOffset(i - 1) + HeaderFieldLengths[i - 1]
  }

  const NameOffset: nat := 0
  const NameLength: nat := 100
  const SizeOffset: nat := 124
  const SizeLength: nat := 12
  const TypeFlagOffset: nat := 156
  const PrefixOffset: nat := 345
  const PrefixLength: nat := 155

  /** The header fills one 512-byte block, with the size field at bytes 124..135. */
  lemma HeaderLayout()
    ensures FieldOffset(|HeaderFieldLengths|) == BlockSize
    ensures FieldOffset(NameField) == NameOffset && HeaderFieldLengths[NameField] == NameLength
    ensures FieldOffset(SizeField) == SizeOffset && HeaderFieldLengths[SizeField] == SizeLength
    ensures FieldOffset(TypeFlagField) == TypeFlagOffset && HeaderFieldLengths[TypeFlagField] == 1
    ensures FieldOffset(PrefixField) == PrefixOffset && HeaderFieldLengths[PrefixField] == PrefixLength
  {
    assert FieldOffset(1) == 100;
    assert FieldOffset(2) == 108;
    assert FieldOffset(3) == 116;
    assert FieldOffset(4) == 124;
    assert FieldOffset(5) == 136;
    assert FieldOffset(6) == 148;
    assert FieldOffset(7) == 156;
    assert FieldOffset(8) == 157;
    assert FieldOffset(9) == 257;
    assert FieldOffset(10) == 263;
    assert FieldOffset(11) == 265;
    assert FieldOffset(12) == 297;
    assert FieldOffset(13) == 329;
    assert FieldOffset(14) == 337;
    assert FieldOffset(15) == 345;
    assert FieldOffset(16) == 500;
    assert FieldOffset(17) == 512;
  }

  const TypeRegular: byte := 48    // '0'
  const TypeDirectory: byte := 53  // '5'
  const TypeLongName: byte := 76   // 'L'

  /**
   * A NUL-terminated string starting at `off`, capped at `cap` bytes and at
   * the end of `b` (the source's `std::string(p, min(cap, strlen(p)))`).
   */
  function CString(b: seq<byte>, off: nat, cap: nat): (r: seq<byte>)
    requires off <= |b|
    ensures |r| <= cap && off + |r| <= |b|
    ensures r == b[off..off + |r|]
    ensures NUL !in r
    ensures |r| < cap && off + |r| < |b| ==> b[off + |r|] == NUL
    decreases cap
  {
    if cap == 0 || off == |b| || b[off] == NUL then []
    else [b[off]] + CString(b, off + 1, cap - 1)
  }

  function BytesToString(b: seq<byte>): (s: string)
    ensures |s| == |b|
    ensures forall i :: 0 <= i < |b| ==> s[i] == b[i] as char
  {
    seq(|b|, i requires 0 <= i < |b| => b[i] as char)
  }

  /** The size of the entry a header describes. */
  function FileSize(h: seq<byte>): (n: nat)
    requires |h| == BlockSize
    ensures n < U64
    ensures IsTerminator(h[SizeOffset]) ==> n == 0
  {
    TarOctal(h[SizeOffset..SizeOffset + SizeLength + 1], SizeLength)
  }

  /** The entry name: `prefix + "/" + name` when the ustar prefix is non-empty. */
  function EntryName(h: seq<byte>): (r: string)
    requires |h| == BlockSize
    ensures h[PrefixOffset] == NUL ==> r == BytesToString(CString(h, NameOffset, NameLength))
    ensures h[PrefixOffset] != NUL ==>
      r == BytesToString(CString(h, PrefixOffset, PrefixLength)) + "/" + BytesToString(CString(h, NameOffset, NameLength))
  {
    var name := BytesToString(CString(h, NameOffset, NameLength));
    var prefix := CString(h, PrefixOffset, PrefixLength);
    if |prefix| > 0 then BytesToString(prefix) + "/" + name else name
  }

  /** The padding that follows `n` bytes of entry data. */
  function Padding(n: nat): (p: nat)
    ensures p < BlockSize
    ensures (n + p) % BlockSize == 0
  {
    (BlockSize - n % BlockSize) % BlockSize
  }

  predicate AllZero(b: seq<byte>)
  {
    forall i :: 0 <= i < |b| ==> b[i] == NUL
  }

  // ---------------------------------------------------------------------
  // The walk

  /** gzip and bzip2 decompression, which are not part of this model. */
  datatype Codecs = Codecs(gunzip: seq<byte> -> Option<seq<byte>>, bunzip2: seq<byte> -> Option<seq<byte>>)

  /** The (name, bytes) pairs the callback receives, and the return value. */
  datatype Entry = Entry(name: string, data: seq<byte>)
  datatype Untar = Untar(ok: bool, entries: seq<Entry>)

  /**
   * `io_decode` on an in-memory entry: decompress by the entry's suffix as
   * `decode_archive_type` classifies it; any other entry is kept as it is
   * and must not be empty.
   */
  function DecodeEntry(orig: seq<byte>, name: string, codecs: Codecs): (r: Option<seq<byte>>)
    ensures DecodeArchiveTypeAsWritten(name) in {Tar, Unknown} ==> r == (if |orig| > 0 then Some(orig) else None)
    ensures DecodeArchiveTypeAsWritten(name) in {TarGz, Gz} ==> r == codecs.gunzip(orig)
    ensures DecodeArchiveTypeAsWritten(name) == TarBz2 ==> r == codecs.bunzip2(orig)
  {
    match DecodeArchiveTypeAsWritten(name)
    case TarGz => codecs.gunzip(orig)
    case Gz => codecs.gunzip(orig)
    case TarBz2 => codecs.bunzip2(orig)
    case Bz2 => codecs.bunzip2(orig)
    case _ => if |orig| > 0 then Some(orig) else None
  }

  /**
   * `io_decode` on the opened file: decompress by the archive type; any
   * other file is read whole by `io::load_binary`, which is not part of this
   * model and is taken to deliver every byte of the file, even of an empty one.
   */
  function LoadFile(kind: ArchiveType, bytes: seq<byte>, codecs: Codecs): Option<seq<byte>>
  {
    match kind
    case TarGz => codecs.gunzip(bytes)
    case Gz => codecs.gunzip(bytes)
    case TarBz2 => codecs.bunzip2(bytes)
    case Bz2 => codecs.bunzip2(bytes)
    case _ => Some(bytes)
  }

  /**
   * The two forms of `io_decode` agree on every non-empty input; on an
   * empty plain input the in-memory form fails and the file form does not.
   */
  lemma LoadFileAgreesWithDecodeEntry(bytes: seq<byte>, name: string, codecs: Codecs)
    ensures |bytes| > 0 ==> LoadFile(DecodeArchiveTypeAsWritten(name), bytes, codecs) == DecodeEntry(bytes, name, codecs)
    ensures |bytes| == 0 && DecodeArchiveTypeAsWritten(name) in {Tar, Unknown} ==>
      LoadFile(DecodeArchiveTypeAsWritten(name), bytes, codecs) == Some([]) && DecodeEntry(bytes, name, codecs) == None
  {
  }

  /**
   * `io_untar` from the header at the front of `rest`. `longName` is the
   * source's `nextEntryHasLongName`.
   */
  function Walk(rest: seq<byte>, longName: bool, codecs: Codecs): (r: Untar)
    decreases |rest|
  {
    if |rest| == 0 then Untar(true, [])
    else if |rest| < BlockSize then Untar(false, [])
    else
      var h := rest[..BlockSize];
      var after := rest[BlockSize..];
      if AllZero(h) then Untar(true, [])
      else if h[TypeFlagOffset] == TypeRegular || h[TypeFlagOffset] == NUL then
        if longName then
          if |after| < BlockSize then Untar(false, [])
          else RegularEntry(after[BlockSize..], BytesToString(CString(h, 0, BlockSize)), after[..BlockSize], codecs)
        else RegularEntry(after, EntryName(h), h, codecs)
      else if h[TypeFlagOffset] == TypeLongName then Walk(after, true, codecs)
      else Walk(after, longName, codecs)
  }

  /**
   * A regular-file entry named `name` whose size comes from header `h`:
   * read the data, decode it, hand it to the callback, skip the padding and
   * go on with the next header.
   */
  function RegularEntry(rest: seq<byte>, name: string, h: seq<byte>, codecs: Codecs): (r: Untar)
    requires |h| == BlockSize
    decreases |rest| + 1
  {
    var size := FileSize(h);
    if |rest| < size then Untar(false, [])
    else match DecodeEntry(rest[..size], name, codecs)
      case None => Untar(false, [])
      case Some(decoded) =>
        var entry := Entry(name, decoded);
        if |rest| - size < Padding(size) then Untar(false, [entry])
        else
          var next := Walk(rest[size + Padding(size)..], false, codecs);
          Untar(next.ok, [entry] + next.entries)
  }

  /** `io::decode` once the archive type of `path` is `kind`: load the file, then untar it or hand it on whole. */
  function DecodeAs(kind: ArchiveType, path: string, file: Option<seq<byte>>, codecs: Codecs): (r: Untar)
    ensures file == None ==> r == Untar(false, [])
    ensures file.Some? && LoadFile(kind, file.value, codecs) == None ==> r == Untar(false, [])
    ensures file.Some? && LoadFile(kind, file.value, codecs).Some? ==>
      var data := LoadFile(kind, file.value, codecs).value;
      && (kind in {Tar, TarGz, TarBz2} ==> r == Walk(data, false, codecs))
      && (kind in {Gz, Bz2} ==> r == Untar(true, [Entry(path, data)]))
      && (kind == Unknown ==> r == Untar(false, [Entry(path, data)]))
  {
    match file
    case None => Untar(false, [])
    case Some(bytes) =>
      match LoadFile(kind, bytes, codecs)
      case None => Untar(false, [])
      case Some(data) =>
        match kind
        case Tar => Walk(data, false, codecs)
        case TarGz => Walk(data, false, codecs)
        case TarBz2 => Walk(data, false, codecs)
        case Gz => Untar(true, [Entry(path, data)])
        case Bz2 => Untar(true, [Entry(path, data)])
        case Unknown => Untar(false, [Entry(path, data)])
  }

  /** The source's `io::decode`: classify `path` as written, then dispatch. A missing file is `None`. */
  function Decode(path: string, file: Option<seq<byte>>, codecs: Codecs): (r: Untar)
    ensures file == None ==> r == Untar(false, [])
    ensures DecodeArchiveTypeAsWritten(path) == Unknown && file != None ==> r == Untar(false, [Entry(path, file.value)])
    ensures DecodeArchiveTypeAsWritten(path) == Gz && file != None && codecs.gunzip(file.value) != None ==>
      r == Untar(true, [Entry(path, codecs.gunzip(file.value).value)])
    ensures DecodeArchiveTypeAsWritten(path) == Tar && file != None ==> r == Walk(file.value, false, codecs)
    ensures DecodeArchiveTypeAsWritten(path) == TarGz && file != None && codecs.gunzip(file.value) != None ==>
      r == Walk(codecs.gunzip(file.value).value, false, codecs)
    ensures DecodeArchiveTypeAsWritten(path) == TarBz2 && file != None && codecs.bunzip2(file.value) != None ==>
      r == Walk(codecs.bunzip2(file.value).value, false, codecs)
  {
    DecodeAs(DecodeArchiveTypeAsWritten(path), path, file, codecs)
  }

  /** `io::decode` with the corrected classification, under which a `.bz2` file is decompressed. */
  function DecodeCorrected(path: string, file: Option<seq<byte>>, codecs: Codecs): (r: Untar)
    ensures DecodeArchiveType(path) == Bz2 && file != None && codecs.bunzip2(file.value) != None ==>
      r == Untar(true, [Entry(path, codecs.bunzip2(file.value).value)])
  {
    DecodeAs(DecodeArchiveType(path), path, file, codecs)
  }

  /** The correction changes `io::decode` only for the paths it classifies as bz2. */
  lemma DecodeCorrectedAgrees(path: string, file: Option<seq<byte>>, codecs: Codecs)
    ensures DecodeArchiveType(path) != Bz2 ==> DecodeCorrected(path, file, codecs) == Decode(path, file, codecs)
  {
  }

  /**
   * As written, a `.bz2` file is handed to the callback still compressed and
   * `io::decode` returns false; corrected, it is handed on decompressed.
   */
  lemma Bz2DecodeAsWritten(path: string, bytes: seq<byte>, codecs: Codecs)
    requires IEndsWith(path, ".bz2") && !IEndsWith(path, ".tar.bz2")
    ensures Decode(path, Some(bytes), codecs) == Untar(false, [Entry(path, bytes)])
    ensures codecs.bunzip2(bytes).Some? ==>
      DecodeCorrected(path, Some(bytes), codecs) == Untar(true, [Entry(path, codecs.bunzip2(bytes).value)])
  {
    Bz2IsUnknownAsWritten(path);
  }

  // ---------------------------------------------------------------------
  // Properties of the walk

  /** A header that is neither all zero nor a regular or long-name entry is skipped without a callback. */
  lemma WalkSkipsOtherEntries(h: seq<byte>, rest: seq<byte>, longName: bool, codecs: Codecs)
    requires |h| == BlockSize && !AllZero(h)
    requires h[TypeFlagOffset] !in {TypeRegular, NUL, TypeLongName}
    ensures Walk(h + rest, longName, codecs) == Walk(rest, longName, codecs)
  {
    assert (h + rest)[..BlockSize] == h;
    assert (h + rest)[BlockSize..] == rest;
  }

  /** An all-zero block ends the walk successfully, whatever follows it. */
  lemma WalkStopsAtZeroBlock(rest: seq<byte>, longName: bool, codecs: Codecs)
    requires |rest| >= BlockSize && AllZero(rest[..BlockSize])
    ensures Walk(rest, longName, codecs) == Untar(true, [])
  {
  }

  /** A header cut short by the end of the buffer fails the walk without a callback. */
  lemma WalkFailsOnShortHeader(rest: seq<byte>, longName: bool, codecs: Codecs)
    requires 0 < |rest| < BlockSize
    ensures Walk(rest, longName, codecs) == Untar(false, [])
  {
  }

  /**
   * A regular entry of length zero with a plain (uncompressed) suffix fails
   * to decode, so the walk stops with `false` before calling back.
   */
  lemma WalkFailsOnEmptyPlainEntry(h: seq<byte>, rest: seq<byte>, codecs: Codecs)
    requires |h| == BlockSize && !AllZero(h)
    requires h[TypeFlagOffset] == TypeRegular
    requires FileSize(h) == 0
    requires DecodeArchiveTypeAsWritten(EntryName(h)) in {Tar, Unknown}
    ensures Walk(h + rest, false, codecs) == Untar(false, [])
  {
    assert (h + rest)[..BlockSize] == h;
    assert (h + rest)[BlockSize..] == rest;
  }

  /**
   * After a GNU 'L' header the next header's name field, read up to its
   * first NUL, becomes the file name, and the header after that one gives
   * the size.
   */
  lemma WalkLongName(lh: seq<byte>, nh: seq<byte>, sh: seq<byte>, rest: seq<byte>, codecs: Codecs)
    requires |lh| == BlockSize && !AllZero(lh) && lh[TypeFlagOffset] == TypeLongName
    requires |nh| == BlockSize && !AllZero(nh) && nh[TypeFlagOffset] in {TypeRegular, NUL}
    requires |sh| == BlockSize
    ensures Walk(lh + nh + sh + rest, false, codecs) ==
      RegularEntry(rest, BytesToString(CString(nh, 0, BlockSize)), sh, codecs)
  {
    var all := lh + nh + sh + rest;
    assert all[..BlockSize] == lh;
    assert all[BlockSize..] == nh + sh + rest;
    assert (nh + sh + rest)[..BlockSize] == nh;
    assert (nh + sh + rest)[BlockSize..] == sh + rest;
    assert (sh + rest)[..BlockSize] == sh;
    assert (sh + rest)[BlockSize..] == rest;
  }

  /** The walk calls back at most once per 512-byte block it consumes. */
  lemma {:induction false} WalkEntriesBound(rest: seq<byte>, longName: bool, codecs: Codecs)
    ensures |Walk(rest, longName, codecs).entries| <= |rest| / BlockSize
    decreases |rest|
  {
    if |rest| >= BlockSize {
      var h := rest[..BlockSize];
      var after := rest[BlockSize..];
      if AllZero(h) {
      } else if h[TypeFlagOffset] == TypeRegular || h[TypeFlagOffset] == NUL {
        if longName {
          if |after| >= BlockSize {
            RegularEntryBound(after[BlockSize..], BytesToString(CString(h, 0, BlockSize)), after[..BlockSize], codecs);
          }
        } else {
          RegularEntryBound(after, EntryName(h), h, codecs);
        }
      } else {
        WalkEntriesBound(after, h[TypeFlagOffset] == TypeLongName || longName, codecs);
      }
    }
  }

  lemma {:induction false} RegularEntryBound(rest: seq<byte>, name: string, h: seq<byte>, codecs: Codecs)
    requires |h| == BlockSize
    ensures |RegularEntry(rest, name, h, codecs).entries| <= |rest| / BlockSize + 1
    decreases |rest| + 1
  {
    var size := FileSize(h);
    if |rest| >= size {
      var decoded := DecodeEntry(rest[..size], name, codecs);
      if decoded.Some? && |rest| - size >= Padding(size) {
        var tail := rest[size + Padding(size)..];
        WalkEntriesBound(tail, false, codecs);
        DivMonotone(|tail|, |rest|);
        RegularEntryStep(rest, name, h, codecs);
      }
    }
  }

  /** A regular entry whose data decodes and whose padding is present hands the entry over and walks on after the padding. */
  lemma RegularEntryStep(rest: seq<byte>, name: string, h: seq<byte>, codecs: Codecs)
    requires |h| == BlockSize
    requires |rest| >= FileSize(h) + Padding(FileSize(h))
    requires DecodeEntry(rest[..FileSize(h)], name, codecs).Some?
    ensures RegularEntry(rest, name, h, codecs) ==
      var next := Walk(rest[FileSize(h) + Padding(FileSize(h))..], false, codecs);
      Untar(next.ok, [Entry(name, DecodeEntry(rest[..FileSize(h)], name, codecs).value)] + next.entries)
  {
  }

  lemma DivMonotone(a: nat, b: nat)
    requires a <= b
    ensures a / BlockSize <= b / BlockSize
  {
  }

  // ---------------------------------------------------------------------
  // Round trip

  /** An entry the walk reads back unchanged: a short NUL-free name with a plain suffix, and non-empty data. */
  predicate PlainEntry(e: Entry)
  {
    && 0 < |e.name| <= NameLength
    && (forall i :: 0 <= i < |e.name| ==> 0 < e.name[i] as int < 256)
    && DecodeArchiveTypeAsWritten(e.name) in {Tar, Unknown}
    && 0 < |e.data| < Pow8(11)
  }

  /** Every entry of the list is plain. */
  predicate AllPlain(es: seq<Entry>)
  {
    |es| == 0 || (PlainEntry(es[0]) && AllPlain(es[1..]))
  }

  function StringToBytes(s: string): (b: seq<byte>)
    requires forall i :: 0 <= i < |s| ==> s[i] as int < 256
    ensures |b| == |s|
    ensures forall i :: 0 <= i < |s| ==> b[i] as int == s[i] as int
  {
    seq(|s|, i requires 0 <= i < |s| => s[i] as int as byte)
  }

  /** `n` as `width` zero-padded octal digits. */
  function OctalDigits(n: nat, width: nat): (r: seq<byte>)
    ensures |r| == width
    ensures forall i :: 0 <= i < width ==> IsOctalDigit(r[i])
  {
    if width == 0 then [] else OctalDigits(n / 8, width - 1) + [(48 + n % 8) as byte]
  }

  lemma {:induction false} OctalDigitsValue(n: nat, width: nat)
    requires n < Pow8(width)
    ensures OctalValue(OctalDigits(n, width)) == n
    decreases width
  {
    if width > 0 {
      var r := OctalDigits(n, width);
      assert r[..width - 1] == OctalDigits(n / 8, width - 1);
      OctalDigitsValue(n / 8, width - 1);
    }
  }

  /**
   * A ustar header of a regular file: the name, an 11-digit octal size
   * followed by a NUL, the typeflag '0', and zeros everywhere else.
   */
  function RegularHeader(name: string, size: nat): (h: seq<byte>)
    requires 0 < |name| <= NameLength
    requires forall i :: 0 <= i < |name| ==> 0 < name[i] as int < 256
    ensures |h| == BlockSize
  {
    var digits := OctalDigits(size, 11);
    seq(BlockSize, i requires 0 <= i < BlockSize =>
      if i < |name| then name[i] as int as byte
      else if SizeOffset <= i < SizeOffset + 11 then digits[i - SizeOffset]
      else if i == TypeFlagOffset then TypeRegular
      else NUL)
  }

  /** A NUL-free run of `k` bytes ended by a NUL, the cap or the buffer is read as exactly that run. */
  lemma {:induction false} CStringRun(b: seq<byte>, off: nat, cap: nat, k: nat)
    requires off + k <= |b| && k <= cap
    requires forall j :: off <= j < off + k ==> b[j] != NUL
    requires k == cap || off + k == |b| || b[off + k] == NUL
    ensures CString(b, off, cap) == b[off..off + k]
    decreases k
  {
    if k > 0 {
      CStringRun(b, off + 1, cap - 1, k - 1);
      assert b[off..off + k] == [b[off]] + b[off + 1..off + k];
    }
  }

  lemma StringBytesRoundTrip(s: string)
    requires forall i :: 0 <= i < |s| ==> s[i] as int < 256
    ensures BytesToString(StringToBytes(s)) == s
  {
    var t := BytesToString(StringToBytes(s));
    assert forall i :: 0 <= i < |s| ==> t[i] == s[i];
  }

  lemma RegularHeaderName(name: string, size: nat)
    requires 0 < |name| <= NameLength
    requires forall i :: 0 <= i < |name| ==> 0 < name[i] as int < 256
    ensures EntryName(RegularHeader(name, size)) == name
  {
    var h := RegularHeader(name, size);
    assert h[PrefixOffset] == NUL;
    CStringRun(h, NameOffset, NameLength, |name|);
    assert h[..|name|] == StringToBytes(name);
    StringBytesRoundTrip(name);
  }

  lemma RegularHeaderSize(name: string, size: nat)
    requires 0 < |name| <= NameLength
    requires forall i :: 0 <= i < |name| ==> 0 < name[i] as int < 256
    requires size < Pow8(11)
    ensures FileSize(RegularHeader(name, size)) == size
  {
    var h := RegularHeader(name, size);
    var field := h[SizeOffset..SizeOffset + SizeLength + 1];
    assert field[..11] == OctalDigits(size, 11);
    assert field[11] == NUL;
    assert FirstTerminator(field, 0, SizeLength) == 11;
    TarOctalExact(field, SizeLength);
    OctalDigitsValue(size, 11);
  }

  /** The walk reads back the name and the size a regular header was built with. */
  lemma RegularHeaderDecodes(name: string, size: nat)
    requires 0 < |name| <= NameLength
    requires forall i :: 0 <= i < |name| ==> 0 < name[i] as int < 256
    requires size < Pow8(11)
    ensures var h := RegularHeader(name, size);
      && !AllZero(h)
      && h[TypeFlagOffset] == TypeRegular
      && EntryName(h) == name
      && FileSize(h) == size
  {
    RegularHeaderName(name, size);
    RegularHeaderSize(name, size);
  }

  /** The archive bytes of one plain entry: header, data and padding. */
  function EncodeEntry(e: Entry): (b: seq<byte>)
    requires PlainEntry(e)
  {
    RegularHeader(e.name, |e.data|) + e.data + Repeat(NUL, Padding(|e.data|))
  }

  /** An archive of plain entries, closed by an all-zero block. */
  function Encode(es: seq<Entry>): (b: seq<byte>)
    requires AllPlain(es)
    ensures |b| >= BlockSize
  {
    if |es| == 0 then Repeat(NUL, BlockSize) else EncodeEntry(es[0]) + Encode(es[1..])
  }

  /**
   * Round trip: walking an archive of plain entries calls back once per
   * entry, in archive order, with the entry's name and bytes, and succeeds.
   */
  lemma {:induction false} UntarRoundTrip(es: seq<Entry>, codecs: Codecs)
    requires AllPlain(es)
    ensures Walk(Encode(es), false, codecs) == Untar(true, es)
    decreases |es|
  {
    if |es| == 0 {
      WalkEndBlock(codecs);
    } else {
      var rest := es[1..];
      var tail := Encode(rest);
      UntarRoundTrip(rest, codecs);
      WalkPlainEntry(es[0], tail, codecs);
      assert [es[0]] + rest == es;
      EncodeCons(es);
    }
  }

  /**
   * Round trip through `io::decode`: a `.tar` file holding plain entries, or a
   * `.tar.gz` file whose decompression gives them, is decoded into exactly
   * those entries, in order.
   */
  lemma DecodeTarRoundTrip(path: string, es: seq<Entry>, gz: seq<byte>, codecs: Codecs)
    requires AllPlain(es)
    ensures DecodeArchiveTypeAsWritten(path) == Tar ==> Decode(path, Some(Encode(es)), codecs) == Untar(true, es)
    ensures DecodeArchiveTypeAsWritten(path) == TarGz && codecs.gunzip(gz) == Some(Encode(es)) ==>
      Decode(path, Some(gz), codecs) == Untar(true, es)
  {
    UntarRoundTrip(es, codecs);
  }

  /** The closing all-zero block ends the walk successfully. */
  lemma WalkEndBlock(codecs: Codecs)
    ensures Walk(Encode([]), false, codecs) == Untar(true, [])
  {
    assert Encode([])[..BlockSize] == Repeat(NUL, BlockSize);
  }

  lemma EncodeCons(es: seq<Entry>)
    requires |es| > 0 && AllPlain(es)
    ensures Encode(es) == EncodeEntry(es[0]) + Encode(es[1..])
  {
  }

  /** One plain entry in front of a well-formed remainder is read back and the walk goes on with the remainder. */
  lemma WalkPlainEntry(e: Entry, tail: seq<byte>, codecs: Codecs)
    requires PlainEntry(e) && |tail| >= BlockSize
    ensures var next := Walk(tail, false, codecs);
      Walk(EncodeEntry(e) + tail, false, codecs) == Untar(next.ok, [e] + next.entries)
  {
    var h := RegularHeader(e.name, |e.data|);
    var pad := Repeat(NUL, Padding(|e.data|));
    var after := e.data + pad + tail;
    RegularHeaderDecodes(e.name, |e.data|);
    assert EncodeEntry(e) == h + e.data + pad;
    ConcatAssoc(h, e.data, pad, tail);
    WalkRegularHeader(h, after, codecs);
    assert EntryName(h) == e.name;
    RegularEntryPlain(e, h, tail, codecs);
  }

  lemma ConcatAssoc(a: seq<byte>, b: seq<byte>, c: seq<byte>, d: seq<byte>)
    ensures a + b + c + d == a + (b + c + d)
  {
  }

  /** A regular header outside a long-name sequence hands the rest to `RegularEntry` under the header's own name. */
  lemma WalkRegularHeader(h: seq<byte>, after: seq<byte>, codecs: Codecs)
    requires |h| == BlockSize && !AllZero(h) && h[TypeFlagOffset] == TypeRegular
    ensures Walk(h + after, false, codecs) == RegularEntry(after, EntryName(h), h, codecs)
  {
    assert (h + after)[..BlockSize] == h;
    assert (h + after)[BlockSize..] == after;
  }

  lemma RegularEntryPlain(e: Entry, h: seq<byte>, tail: seq<byte>, codecs: Codecs)
    requires PlainEntry(e) && |h| == BlockSize && FileSize(h) == |e.data|
    requires |tail| >= BlockSize
    ensures var next := Walk(tail, false, codecs);
      RegularEntry(e.data + Repeat(NUL, Padding(|e.data|)) + tail, e.name, h, codecs) == Untar(next.ok, [e] + next.entries)
  {
    var size := |e.data|;
    var pad := Repeat(NUL, Padding(size));
    var after := e.data + pad + tail;
    assert after[..size] == e.data;
    assert |after| - size == |pad| + |tail|;
    assert after[size + |pad|..] == tail;
    assert DecodeEntry(e.data, e.name, codecs) == Some(e.data);
    RegularEntryStep(after, e.name, h, codecs);
  }
}
