/**
 * The synthetic character task of src/cortex/tasks/task_charset.cpp: the
 * class range of each character set, the clamped configuration, and the
 * labels, targets and folds `load` gives the samples it generates.
 *
 * Image synthesis (font patches, resizing, warping, noise and blending)
 * is left out; the random draws of `load` are parameters.
 */
module Charset {
  import opened Strings
  import opened Wrappers
  import opened Arith
  import opened MemVision

  datatype CharSet = Numeric | LAlphabet | UAlphabet | Alphabet | Alphanumeric

  /** The configuration names of the character sets. */
  function CharSetName(cs: CharSet): string
  {
    match cs
    case Numeric => "digit"
    case LAlphabet => "lalpha"
    case UAlphabet => "ualpha"
    case Alphabet => "alpha"
    case Alphanumeric => "alphanum"
  }

  /** Reading a name back, by lookup in the same table. */
  function CharSetOfName(name: string): Option<CharSet>
  {
    if name == "digit" then Some(Numeric)
    else if name == "lalpha" then Some(LAlphabet)
    else if name == "ualpha" then Some(UAlphabet)
    else if name == "alpha" then Some(Alphabet)
    else if name == "alphanum" then Some(Alphanumeric)
    else None
  }

  /** Every character set is read back from its name, and only names in the table are read. */
  lemma CharSetNameRoundTrip(cs: CharSet, name: string)
    ensures CharSetOfName(CharSetName(cs)) == Some(cs)
    ensures CharSetOfName(name).Some? ==> CharSetName(CharSetOfName(name).value) == name
  {
  }

  /** All characters, by class: digits, then lower case, then upper case. */
  const Characters: string := "0123456789" + "abcdefghijklmnopqrstuvwxyz" + "ABCDEFGHIJKLMNOPQRSTUVWXYZ"

  /** The character of class `o`, computed from the three ranges. */
  function CharOfClass(o: nat): char
    requires o < 62
  {
    if o < 10 then ('0' as int + o) as char
    else if o < 36 then ('a' as int + (o - 10)) as char
    else ('A' as int + (o - 36)) as char
  }

  /** The table holds 62 characters, laid out as the three ranges say. */
  lemma CharactersLayout()
    ensures |Characters| == 62
    ensures forall o :: 0 <= o < 62 ==> Characters[o] == CharOfClass(o)
  {
  }

  /** No character appears twice in the table. */
  lemma CharactersDistinct(o: nat, p: nat)
    requires o < 62 && p < 62 && o != p
    ensures Characters[o] != Characters[p]
  {
    CharactersLayout();
  }

  /** The first class of a character set. */
  function OBegin(cs: CharSet): (o: int)
    ensures 0 <= o < OEnd(cs)
  {
    match cs
    case Numeric => 0
    case LAlphabet => 0 + 10
    case UAlphabet => 0 + 10 + 26
    case Alphabet => 10
    case Alphanumeric => 0
  }

  /** One past the last class of a character set. */
  function OEnd(cs: CharSet): (o: int)
    ensures 10 <= o <= |Characters|
  {
    match cs
    case Numeric => 10
    case LAlphabet => 10 + 26
    case UAlphabet => 10 + 26 + 26
    case Alphabet => 10 + 26 + 26
    case Alphanumeric => 10 + 26 + 26
  }

  /** `osize()`: the number of classes. */
  function OSize(cs: CharSet): (n: int)
    ensures 10 <= n <= |Characters|
  {
    OEnd(cs) - OBegin(cs)
  }

  /** The class ranges of the five sets, and the characters they cover. */
  lemma ClassRanges(cs: CharSet)
    ensures 0 <= OBegin(cs) < OEnd(cs) <= |Characters|
    ensures cs == Numeric ==> OBegin(cs) == 0 && OEnd(cs) == 10 && OSize(cs) == 10
    ensures cs == LAlphabet ==> OBegin(cs) == 10 && OEnd(cs) == 36 && OSize(cs) == 26
    ensures cs == UAlphabet ==> OBegin(cs) == 36 && OEnd(cs) == 62 && OSize(cs) == 26
    ensures cs == Alphabet ==> OBegin(cs) == 10 && OEnd(cs) == 62 && OSize(cs) == 52
    ensures cs == Alphanumeric ==> OBegin(cs) == 0 && OEnd(cs) == 62 && OSize(cs) == 62
    ensures forall o :: OBegin(cs) <= o < OEnd(cs) ==>
      && (cs == Numeric ==> '0' <= Characters[o] <= '9')
      && (cs == LAlphabet ==> 'a' <= Characters[o] <= 'z')
      && (cs == UAlphabet ==> 'A' <= Characters[o] <= 'Z')
      && (cs == Alphabet ==> 'a' <= Characters[o] <= 'z' || 'A' <= Characters[o] <= 'Z')
  {
    CharactersLayout();
  }

  datatype Config = Config(charset: CharSet, rows: int, cols: int, folds: nat, color: ColorMode, size: nat)

  const MinSide := 16
  const MaxSide := 128
  const MinSize := 16
  const MaxSize := 1024 * 1024

  /**
   * The constructor: the set and colour as given, image sides clamped to
   * `[16, 128]`, one fold, and the sample count clamped to `[16, 1048576]`.
   */
  function MakeConfig(cs: CharSet, rows: int, cols: int, color: ColorMode, size: int): (c: Config)
    ensures MinSide <= c.rows <= MaxSide && MinSide <= c.cols <= MaxSide
    ensures MinSize <= c.size <= MaxSize && c.folds == 1
    ensures MinSide <= rows <= MaxSide ==> c.rows == rows
    ensures MinSide <= cols <= MaxSide ==> c.cols == cols
    ensures MinSize <= size <= MaxSize ==> c.size == size
  {
    Config(cs, Clamp(rows, MinSide, MaxSide), Clamp(cols, MinSide, MaxSide), 1, color, Clamp(size, MinSize, MaxSize))
  }

  /** The constructor's defaults: digits, 32x32, RGBA, 1024 samples. */
  function DefaultConfig(): (c: Config)
    ensures c.charset == Numeric && c.rows == 32 && c.cols == 32 && c.color == Rgba && c.size == 1024
  {
    MakeConfig(Numeric, 32, 32, Rgba, 1024)
  }

  /** Configuring twice with the values read back changes nothing. */
  lemma MakeConfigIdempotent(cs: CharSet, rows: int, cols: int, color: ColorMode, size: int)
    ensures var c := MakeConfig(cs, rows, cols, color, size);
      MakeConfig(c.charset, c.rows, c.cols, c.color, c.size) == c
  {
  }

  /** The protocol a draw from `[1, 10]` selects, as written: only 1 to 8 train. */
  function ProtocolOfDrawAsWritten(draw: nat): Protocol
  {
    if draw < 9 then Train else Test
  }

  /** The protocol a draw from `[1, 10]` selects for the stated 90% / 10% split: 1 to 9 train. */
  function ProtocolOfDraw(draw: nat): Protocol
  {
    if draw <= 9 then Train else Test
  }

  /** How many of the draws `lo .. hi - 1` a protocol choice sends to training. */
  function TrainDraws(choose: nat -> Protocol, lo: nat, hi: nat): nat
    decreases hi - lo
  {
    if lo >= hi then 0 else (if choose(lo) == Train then 1 else 0) + TrainDraws(choose, lo + 1, hi)
  }

  /** As written, 8 of the 10 equally likely draws select training, not 9. */
  lemma ProtocolSplitAsWritten()
    ensures TrainDraws(ProtocolOfDrawAsWritten, 1, 11) == 8
    ensures ProtocolOfDrawAsWritten(9) == Test
  {
    assert TrainDraws(ProtocolOfDrawAsWritten, 10, 11) == 0;
    assert TrainDraws(ProtocolOfDrawAsWritten, 9, 11) == 0;
  }

  /** With the corrected choice, 9 of the 10 draws select training and one selects testing. */
  lemma ProtocolSplit()
    ensures TrainDraws(ProtocolOfDraw, 1, 11) == 9
    ensures forall d :: 1 <= d <= 10 ==> (ProtocolOfDraw(d) == Test <==> d == 10)
  {
    assert TrainDraws(ProtocolOfDraw, 10, 11) == 0;
  }

  /** The random choices behind one generated sample. */
  datatype Draw = Draw(protocol: nat, output: int, font: nat)

  /** A draw lies in the ranges the random generators produce. */
  predicate ValidDraw(cs: CharSet, fonts: nat, d: Draw)
  {
    1 <= d.protocol <= 10 && OBegin(cs) <= d.output <= OEnd(cs) - 1 && 1 <= d.font <= fonts
  }

  /** A generated sample: its image index, label, target class and fold. */
  datatype Sample = Sample(index: nat, name: string, target: nat, fold: Fold)

  /** The sample `load` generates for a draw, with the protocol test as written. */
  function SampleOf(cs: CharSet, index: nat, f: nat, d: Draw): (s: Sample)
    requires OBegin(cs) <= d.output < OEnd(cs)
    ensures s.target < OSize(cs)
    ensures s.fold.index == f && (s.fold.protocol == Train <==> d.protocol < 9)
  {
    ClassRanges(cs);
    Sample(index, "char" + [Characters[d.output]], d.output - OBegin(cs), Fold(f, ProtocolOfDrawAsWritten(d.protocol)))
  }

  /** With the corrected protocol test, a generated sample differs only in its protocol, and only for draw 9. */
  lemma SampleOfCorrected(cs: CharSet, index: nat, f: nat, d: Draw)
    requires OBegin(cs) <= d.output < OEnd(cs) && 1 <= d.protocol <= 10
    ensures var s := SampleOf(cs, index, f, d);
      var fixed := s.(fold := Fold(f, ProtocolOfDraw(d.protocol)));
      && (fixed == s <==> d.protocol != 9)
      && (fixed.fold.protocol == Train <==> d.protocol <= 9)
  {
  }

  /**
   * `load`: for every fold and every sample of the fold, turn the draw
   * into an image (left out) and a sample. The draws are given per fold;
   * images are numbered in generation order from zero.
   */
  method Load(c: Config, fonts: nat, draws: seq<seq<Draw>>) returns (samples: seq<seq<Sample>>)
    requires |draws| == c.folds
    requires forall f :: 0 <= f < |draws| ==> |draws[f]| == c.size
    requires forall f, i :: 0 <= f < |draws| && 0 <= i < |draws[f]| ==> ValidDraw(c.charset, fonts, draws[f][i])
    ensures |samples| == c.folds
    ensures forall f :: 0 <= f < |samples| ==> |samples[f]| == c.size
    ensures forall f, i :: 0 <= f < c.folds && 0 <= i < c.size ==>
      ValidDraw(c.charset, fonts, draws[f][i]) &&
      samples[f][i] == SampleOf(c.charset, f * c.size + i, f, draws[f][i])
  {
    samples := [];
    var count := 0;
    for f := 0 to c.folds
      invariant |samples| == f && count == f * c.size
      invariant forall g :: 0 <= g < f ==> |samples[g]| == c.size
      invariant forall g, i :: 0 <= g < f && 0 <= i < c.size ==>
        samples[g][i] == SampleOf(c.charset, g * c.size + i, g, draws[g][i])
    {
      var fold: seq<Sample> := [];
      for i := 0 to c.size
        invariant |fold| == i && count == f * c.size + i
        invariant forall j :: 0 <= j < i ==> fold[j] == SampleOf(c.charset, f * c.size + j, f, draws[f][j])
      {
        fold := fold + [SampleOf(c.charset, count, f, draws[f][i])];
        count := count + 1;
      }
      assert count == (f + 1) * c.size;
      samples := samples + [fold];
    }
  }

  /**
   * Every generated sample is labelled "char" followed by the character of
   * its class, and its target is the class's position within the set:
   * two samples share a label exactly when they share a target.
   */
  lemma SampleLabels(cs: CharSet, i: nat, j: nat, f: nat, g: nat, a: Draw, b: Draw)
    requires OBegin(cs) <= a.output < OEnd(cs) && OBegin(cs) <= b.output < OEnd(cs)
    ensures SampleOf(cs, i, f, a).name == "char" + [Characters[OBegin(cs) + SampleOf(cs, i, f, a).target]]
    ensures SampleOf(cs, i, f, a).name == SampleOf(cs, j, g, b).name <==>
      SampleOf(cs, i, f, a).target == SampleOf(cs, j, g, b).target
  {
    ClassRanges(cs);
    var x, y := SampleOf(cs, i, f, a), SampleOf(cs, j, g, b);
    if a.output != b.output {
      CharactersDistinct(a.output, b.output);
      assert x.name[4] != y.name[4];
    }
  }
}
