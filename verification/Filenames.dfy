/** The canonical file names of manifests and block results (src/run_store.cpp). */
module Filenames {
  import opened Types

  const DIGITS := 20

  function Power10(k: nat): (p: nat)
    ensures p >= 1
  {
    if k == 0 then 1 else 10 * Power10(k - 1)
  }

  function DigitChar(d: nat): char
    requires d < 10
  {
    "0123456789"[d]
  }

  predicate IsDigit(c: char)
  {
    '0' <= c <= '9'
  }

  function DigitValue(c: char): (d: nat)
    requires IsDigit(c)
    ensures d < 10 && DigitChar(d) == c
  {
    (c - '0') as nat
  }

  /** The last k decimal digits of a number, most significant first. */
  function Digits(v: nat, k: nat): (s: string)
    ensures |s| == k
  {
    if k == 0 then "" else Digits(v / 10, k - 1) + [DigitChar(v % 10)]
  }

  /** padded_number: a stream with width 20 and fill '0'. */
  function PaddedNumber(v: u64): (s: string)
    ensures |s| == DIGITS
  {
    Digits(v, DIGITS)
  }

  predicate AllDigits(s: string)
  {
    forall i :: 0 <= i < |s| ==> IsDigit(s[i])
  }

  function Value(s: string): nat
    requires AllDigits(s)
  {
    if |s| == 0 then 0 else 10 * Value(s[..|s| - 1]) + DigitValue(s[|s| - 1])
  }

  /** from_chars on a whole field of digits: it must consume the field and fit 64 bits. */
  function ParseField(s: string): Option<u64>
  {
    if AllDigits(s) && |s| > 0 && Value(s) <= U64_MAX then Some(Value(s)) else None
  }

  lemma DigitsStep(v: nat, k: nat)
    requires k > 0
    ensures Digits(v, k) == Digits(v / 10, k - 1) + [DigitChar(v % 10)]
    ensures IsDigit(DigitChar(v % 10)) && DigitValue(DigitChar(v % 10)) == v % 10
  {
  }

  lemma ValueStep(s: string, c: char)
    requires AllDigits(s) && IsDigit(c)
    ensures AllDigits(s + [c]) && Value(s + [c]) == 10 * Value(s) + DigitValue(c)
  {
    assert (s + [c])[..|s|] == s;
  }

  lemma {:induction false} ValueOfDigits(v: nat, k: nat)
    requires v < Power10(k)
    ensures AllDigits(Digits(v, k)) && Value(Digits(v, k)) == v
  {
    if k > 0 {
      assert v / 10 < Power10(k - 1);
      hide Digits, DigitChar, DigitValue, Value, AllDigits, IsDigit, Power10;
      ValueOfDigits(v / 10, k - 1);
      DigitsStep(v, k);
      ValueStep(Digits(v / 10, k - 1), DigitChar(v % 10));
    }
  }

  lemma {:induction false} DigitsOfValue(s: string)
    requires AllDigits(s)
    ensures Digits(Value(s), |s|) == s && Value(s) < Power10(|s|)
  {
    if |s| > 0 {
      var front := s[..|s| - 1];
      DigitsOfValue(front);
      var v := Value(s);
      assert v / 10 == Value(front) && v % 10 == DigitValue(s[|s| - 1]);
      assert s == front + [s[|s| - 1]];
    }
  }

  /** Twenty digits hold every 64-bit number. */
  lemma U64FitsTwentyDigits(v: u64)
    ensures v < Power10(DIGITS)
  {
    var p5 := 100_000;
    assert Power10(5) == p5;
    assert Power10(10) == 100000 * Power10(5);
    assert Power10(15) == 100000 * Power10(10);
    assert Power10(20) == 100000 * Power10(15);
  }

  /** A field parses to v exactly when it is the padded print of v. */
  lemma FieldRoundTrip(s: string, v: u64)
    requires |s| == DIGITS
    ensures ParseField(s) == Some(v) <==> s == PaddedNumber(v)
  {
    U64FitsTwentyDigits(v);
    ValueOfDigits(v, DIGITS);
    if AllDigits(s) {
      DigitsOfValue(s);
    }
  }

  // ---------------------------------------------------------------- manifests

  const MANIFEST_PREFIX := "manifest_"
  const SUFFIX := ".bin"

  function ManifestName(sequence: u64): string
  {
    MANIFEST_PREFIX + PaddedNumber(sequence) + SUFFIX
  }

  function ParseManifestName(name: string): Option<u64>
  {
    var p := |MANIFEST_PREFIX|;
    if |name| != p + DIGITS + |SUFFIX| || name[..p] != MANIFEST_PREFIX || name[p + DIGITS..] != SUFFIX
    then None
    else ParseField(name[p..p + DIGITS])
  }

  /** A directory entry parses as manifest v exactly when it is the name that v prints to. */
  lemma ManifestNameRoundTrip(name: string, v: u64)
    ensures ParseManifestName(name) == Some(v) <==> name == ManifestName(v)
  {
    var p := |MANIFEST_PREFIX|;
    if |name| == p + DIGITS + |SUFFIX| {
      var field := name[p..p + DIGITS];
      FieldRoundTrip(field, v);
      assert name == name[..p] + field + name[p + DIGITS..];
    }
    var printed := ManifestName(v);
    assert printed[..p] == MANIFEST_PREFIX && printed[p..p + DIGITS] == PaddedNumber(v);
    assert printed[p + DIGITS..] == SUFFIX;
  }

  /** The first manifest's name, as the storage layout documents it. */
  lemma FirstManifestName()
    ensures ManifestName(0) == "manifest_" + "00000000000000000000" + ".bin"
  {
    hide PaddedNumber;
    SmallNumbers();
  }

  lemma {:induction false} ZeroDigits(k: nat)
    ensures Digits(0, k) == seq(k, _ => '0')
  {
    if k > 0 {
      ZeroDigits(k - 1);
    }
  }

  lemma SmallNumbers()
    ensures PaddedNumber(0) == "00000000000000000000"
    ensures PaddedNumber(1) == "00000000000000000001"
  {
    ZeroDigits(20);
    ZeroDigits(19);
    assert Digits(1, 20) == Digits(0, 19) + ['1'];
  }

  // ---------------------------------------------------------------- block results

  const BLOCK_PREFIX := "block_"
  const INCARNATION := "_inc_"
  const EPOCH := "_epoch_"

  function BlockName(block: u64, incarnation: u64, epoch: u64): string
  {
    BLOCK_PREFIX + PaddedNumber(block) + INCARNATION + PaddedNumber(incarnation) +
    EPOCH + PaddedNumber(epoch) + SUFFIX
  }

  /** Offsets of the three number fields and of the literals between them. */
  const INC_AT := 26
  const INC_DIGITS := 31
  const EPOCH_AT := 51
  const EPOCH_DIGITS := 58
  const SUFFIX_AT := 78

  predicate HasBlockShape(name: string)
  {
    && |name| == SUFFIX_AT + 4
    && name[..6] == BLOCK_PREFIX && name[INC_AT..INC_DIGITS] == INCARNATION
    && name[EPOCH_AT..EPOCH_DIGITS] == EPOCH && name[SUFFIX_AT..] == SUFFIX
  }

  datatype BlockNameParts = BlockNameParts(block: u64, incarnation: u64, epoch: u64)

  function ParseBlockName(name: string): Option<BlockNameParts>
  {
    if !HasBlockShape(name) then None
    else
      match (ParseField(name[6..INC_AT]), ParseField(name[INC_DIGITS..EPOCH_AT]),
             ParseField(name[EPOCH_DIGITS..SUFFIX_AT]))
      case (Some(b), Some(i), Some(e)) => Some(BlockNameParts(b, i, e))
      case (_, _, _) => None
  }

  /** The first result's name, as the storage layout documents it. */
  lemma FirstBlockName()
    ensures BlockName(0, 1, 1) ==
      "block_" + "00000000000000000000" + "_inc_" + "00000000000000000001" + "_epoch_" +
      "00000000000000000001" + ".bin"
  {
    hide PaddedNumber;
    SmallNumbers();
  }

  lemma BlockNameFields(block: u64, incarnation: u64, epoch: u64)
    ensures var name := BlockName(block, incarnation, epoch);
            && HasBlockShape(name)
            && name[6..INC_AT] == PaddedNumber(block)
            && name[INC_DIGITS..EPOCH_AT] == PaddedNumber(incarnation)
            && name[EPOCH_DIGITS..SUFFIX_AT] == PaddedNumber(epoch)
  {
  }

  /** Which number stands where in a result's name. */
  lemma BlockNameReads(block: u64, incarnation: u64, epoch: u64)
    ensures var name := BlockName(block, incarnation, epoch);
      && |name| == 82 && name[..6] == "block_" && name[26..31] == "_inc_" && name[51..58] == "_epoch_"
      && name[78..] == ".bin"
      && ParseField(name[6..26]) == Some(block) && ParseField(name[31..51]) == Some(incarnation)
      && ParseField(name[58..78]) == Some(epoch)
  {
    hide BlockName, PaddedNumber, ParseField;
    BlockNameFields(block, incarnation, epoch);
    FieldRoundTrip(PaddedNumber(block), block);
    FieldRoundTrip(PaddedNumber(incarnation), incarnation);
    FieldRoundTrip(PaddedNumber(epoch), epoch);
  }

  lemma BlockNameFromFields(name: string)
    requires HasBlockShape(name)
    ensures name == BLOCK_PREFIX + name[6..INC_AT] + INCARNATION + name[INC_DIGITS..EPOCH_AT] +
                    EPOCH + name[EPOCH_DIGITS..SUFFIX_AT] + SUFFIX
  {
  }

  /** A directory entry parses as a result exactly when it is the name that this result prints to: unrelated
      files are never taken for results, and distinct results have distinct names. */
  lemma BlockNameRoundTrip(name: string, block: u64, incarnation: u64, epoch: u64)
    ensures ParseBlockName(name) == Some(BlockNameParts(block, incarnation, epoch)) <==>
            name == BlockName(block, incarnation, epoch)
  {
    BlockNameFields(block, incarnation, epoch);
    if HasBlockShape(name) {
      BlockNameFromFields(name);
      FieldRoundTrip(name[6..INC_AT], block);
      FieldRoundTrip(name[INC_DIGITS..EPOCH_AT], incarnation);
      FieldRoundTrip(name[EPOCH_DIGITS..SUFFIX_AT], epoch);
    }
  }
}
