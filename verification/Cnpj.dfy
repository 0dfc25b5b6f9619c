/** CNPJ: parsing, printing, and the two modulus-11 check digits. */
module Cnpj {
  import opened Wrappers
  import opened Ascii

  const BASE_LEN: nat := 12
  const WEIGHTS_DV1: seq<nat> := [5, 4, 3, 2, 9, 8, 7, 6, 5, 4, 3, 2]
  const WEIGHTS_DV2: seq<nat> := [6, 5, 4, 3, 2, 9, 8, 7, 6, 5, 4, 3, 2]
  const U32_MAX: nat := 0xFFFF_FFFF

  datatype Error =
    | Empty
    | InvalidLength(found: nat)
    | InvalidCharacter(character: char, position: nat, expectedClass: CharacterClass)
    | InvalidCheckDigits(position: nat, expected: nat, found: nat)
    | RepeatedDigits

  type Candidate = c: seq<byte> | |c| == 14 witness seq(14, _ => 0)

  // ---------------------------------------------------------------- check digits

  function CharValue(b: byte): nat {
    if b < 48 then 0 else b - 48
  }

  function SaturatingAdd(a: nat, b: nat): nat {
    if a + b > U32_MAX then U32_MAX else a + b
  }

  function SaturatingMul(a: nat, b: nat): nat {
    if a * b > U32_MAX then U32_MAX else a * b
  }

  /** The 32-bit saturating fold over the zipped values and weights. */
  function WeightedFold(acc: nat, values: seq<nat>, weights: seq<nat>): nat
    decreases values
  {
    if values == [] || weights == [] then acc
    else WeightedFold(SaturatingAdd(acc, SaturatingMul(values[0], weights[0])), values[1..], weights[1..])
  }

  function DigitOf(sum: nat): nat {
    if sum % 11 < 2 then 0 else 11 - sum % 11
  }

  function ComputeCheckDigit(values: seq<nat>, weights: seq<nat>): nat {
    DigitOf(WeightedFold(0, values, weights))
  }

  function Values(bytes: seq<byte>): (v: seq<nat>)
    ensures |v| == |bytes|
    ensures forall i | 0 <= i < |v| :: v[i] == CharValue(bytes[i])
  {
    seq(|bytes|, i requires 0 <= i < |bytes| => CharValue(bytes[i]))
  }

  function ComputeValidCheckDigits(base: seq<byte>): (nat, nat)
    requires |base| == BASE_LEN
  {
    var values := Values(base);
    var dv1 := ComputeCheckDigit(values, WEIGHTS_DV1);
    (dv1, ComputeCheckDigit(values + [dv1], WEIGHTS_DV2))
  }

  // ---------------------------------------------------------------- validation

  function ExpectedClass(i: nat): CharacterClass {
    if i < BASE_LEN then Alphanumeric else Digit
  }

  /** The first character of the wrong class at or after `i`, as the error that reports it. */
  function BadClassFrom(c: Candidate, i: nat): Option<Error>
    requires i <= 14
    decreases 14 - i
  {
    if i == 14 then None
    else if !InClass(c[i], ExpectedClass(i)) then Some(InvalidCharacter(c[i] as char, i + 1, ExpectedClass(i)))
    else BadClassFrom(c, i + 1)
  }

  method ValidateCharacterClasses(c: Candidate) returns (r: Option<Error>)
    ensures r == BadClassFrom(c, 0)
    ensures r.None? <==> forall i | 0 <= i < 14 :: InClass(c[i], ExpectedClass(i))
  {
    for i := 0 to 14
      invariant BadClassFrom(c, 0) == BadClassFrom(c, i)
      invariant forall j | 0 <= j < i :: InClass(c[j], ExpectedClass(j))
    {
      if !InClass(c[i], ExpectedClass(i)) {
        return Some(InvalidCharacter(c[i] as char, i + 1, ExpectedClass(i)));
      }
    }
    return None;
  }

  predicate Repeated(c: Candidate) {
    forall i | 0 <= i < 14 :: c[i] == c[0]
  }

  function Validate(c: Candidate): Result<Candidate, Error> {
    var bad := BadClassFrom(c, 0);
    if bad.Some? then Err(bad.value)
    else if Repeated(c) then Err(RepeatedDigits)
    else
      var (dv1, dv2) := ComputeValidCheckDigits(c[..BASE_LEN]);
      if dv1 != CharValue(c[12]) then Err(InvalidCheckDigits(13, dv1, CharValue(c[12])))
      else if dv2 != CharValue(c[13]) then Err(InvalidCheckDigits(14, dv2, CharValue(c[13])))
      else Ok(c)
  }

  ghost predicate Valid(c: Candidate) {
    Validate(c).Ok?
  }

  ghost predicate WellFormed(c: Candidate) {
    forall i | 0 <= i < 14 :: InClass(c[i], ExpectedClass(i))
  }

  lemma {:induction false} BadClassMeansIllFormed(c: Candidate, i: nat)
    requires i <= 14
    ensures BadClassFrom(c, i).None? <==> forall j | i <= j < 14 :: InClass(c[j], ExpectedClass(j))
    decreases 14 - i
  {
    if i < 14 {
      BadClassMeansIllFormed(c, i + 1);
    }
  }

  // ---------------------------------------------------------------- no saturation, exact sums

  function Dot(values: seq<nat>, weights: seq<nat>): nat
    requires |values| == |weights|
  {
    if values == [] then 0 else values[0] * weights[0] + Dot(values[1..], weights[1..])
  }

  lemma ProductBound(v: nat, w: nat)
    requires v <= 42 && w <= 9
    ensures v * w <= 378
  {
    assert v * w <= 42 * w;
  }

  /** The saturating fold is the weighted sum, cut off at the largest 32-bit number. */
  lemma {:induction false} SaturatesAtTheEnd(acc: nat, values: seq<nat>, weights: seq<nat>)
    requires |values| == |weights| && acc <= 4294967295
    ensures var sum := acc + Dot(values, weights);
            WeightedFold(acc, values, weights) == if sum <= 4294967295 then sum else 4294967295
    decreases values
  {
    if values != [] {
      SaturatesAtTheEnd(SaturatingAdd(acc, SaturatingMul(values[0], weights[0])), values[1..], weights[1..]);
    }
  }

  /** With letter values up to 42 the saturating fold is the plain weighted sum. */
  lemma {:induction false} NeverSaturates(acc: nat, values: seq<nat>, weights: seq<nat>)
    requires |values| == |weights| <= 13
    requires forall i | 0 <= i < |values| :: values[i] <= 42 && weights[i] <= 9
    requires acc <= 378 * (13 - |values|)
    ensures WeightedFold(acc, values, weights) == acc + Dot(values, weights) <= U32_MAX
    decreases values
  {
    if values != [] {
      ProductBound(values[0], weights[0]);
      NeverSaturates(acc + values[0] * weights[0], values[1..], weights[1..]);
    }
  }

  /** The weighted sums behind the two check digits of a candidate. */
  function Sum1(c: Candidate): nat {
    Dot(Values(c[..12]), WEIGHTS_DV1)
  }

  function Sum2(c: Candidate): nat {
    Dot(Values(c[..13]), WEIGHTS_DV2)
  }

  lemma ValuesBound(bytes: seq<byte>)
    requires forall i | 0 <= i < |bytes| :: InClass(bytes[i], Alphanumeric)
    ensures forall i | 0 <= i < |bytes| :: Values(bytes)[i] <= 42
  {}

  lemma WeightsBound()
    ensures |WEIGHTS_DV1| == 12 && forall i | 0 <= i < 12 :: 2 <= WEIGHTS_DV1[i] <= 9
    ensures |WEIGHTS_DV2| == 13 && forall i | 0 <= i < 13 :: 2 <= WEIGHTS_DV2[i] <= 9
  {}

  /** The two computed digits of a well-formed candidate come from the exact sums. */
  lemma ExactCheckDigits(c: Candidate)
    requires WellFormed(c)
    ensures ComputeCheckDigit(Values(c[..12]), WEIGHTS_DV1) == DigitOf(Sum1(c))
    ensures ComputeCheckDigit(Values(c[..13]), WEIGHTS_DV2) == DigitOf(Sum2(c))
  {
    WeightsBound();
    forall i | 0 <= i < 13 ensures InClass(c[i], Alphanumeric) {
      assert InClass(c[i], ExpectedClass(i));
    }
    ValuesBound(c[..12]);
    ValuesBound(c[..13]);
    NeverSaturates(0, Values(c[..12]), WEIGHTS_DV1);
    NeverSaturates(0, Values(c[..13]), WEIGHTS_DV2);
  }

  /** Acceptance, stated over exact sums. */
  lemma ValidIff(c: Candidate)
    ensures Valid(c) <==>
            && WellFormed(c)
            && !Repeated(c)
            && CharValue(c[12]) == DigitOf(Sum1(c))
            && CharValue(c[13]) == DigitOf(Sum2(c))
  {
    BadClassMeansIllFormed(c, 0);
    if WellFormed(c) {
      ExactCheckDigits(c);
      assert Values(c[..12]) + [CharValue(c[12])] == Values(c[..13]);
    }
  }

  // ---------------------------------------------------------------- acceptance in plain numbers

  /** Counted from the right the weights run from 2 to 9 and start again. */
  lemma WeightsFromTheRight()
    ensures |WEIGHTS_DV1| == 12 && forall i | 0 <= i < 12 :: WEIGHTS_DV1[i] == 2 + (11 - i) % 8
    ensures |WEIGHTS_DV2| == 13 && forall i | 0 <= i < 13 :: WEIGHTS_DV2[i] == 2 + (12 - i) % 8
  {}

  /** The sum of the first `k` of `n` characters, each its code less 48 times its weight from the right. */
  function WeightedSum(c: Candidate, n: nat, k: nat): int
    requires k <= n <= 14
  {
    if k == 0 then 0 else WeightedSum(c, n, k - 1) + (c[k - 1] - 48) * (2 + (n - k) % 8)
  }

  lemma {:induction false} DotPush(values: seq<nat>, weights: seq<nat>, v: nat, w: nat)
    requires |values| == |weights|
    ensures Dot(values + [v], weights + [w]) == Dot(values, weights) + v * w
  {
    if values == [] {
      assert Dot([v], [w]) == v * w + Dot([v][1..], [w][1..]);
    } else {
      assert (values + [v])[1..] == values[1..] + [v] && (weights + [w])[1..] == weights[1..] + [w];
      DotPush(values[1..], weights[1..], v, w);
    }
  }

  lemma {:induction false} DotIsWeightedSum(c: Candidate, n: nat, weights: seq<nat>, k: nat)
    requires k <= n == |weights| <= 14
    requires forall i | 0 <= i < n :: weights[i] == 2 + (n - 1 - i) % 8
    requires forall i | 0 <= i < n :: c[i] >= 48
    ensures Dot(Values(c[..k]), weights[..k]) == WeightedSum(c, n, k)
  {
    if k > 0 {
      DotIsWeightedSum(c, n, weights, k - 1);
      assert Values(c[..k]) == Values(c[..k - 1]) + [c[k - 1] - 48];
      assert weights[..k] == weights[..k - 1] + [weights[k - 1]];
      DotPush(Values(c[..k - 1]), weights[..k - 1], c[k - 1] - 48, weights[k - 1]);
    }
  }

  lemma SumsAreWeighted(c: Candidate)
    requires forall i | 0 <= i < 14 :: c[i] >= 48
    ensures Sum1(c) == WeightedSum(c, 12, 12) && Sum2(c) == WeightedSum(c, 13, 13)
  {
    WeightsFromTheRight();
    DotIsWeightedSum(c, 12, WEIGHTS_DV1, 12);
    DotIsWeightedSum(c, 13, WEIGHTS_DV2, 13);
    assert WEIGHTS_DV1[..12] == WEIGHTS_DV1 && WEIGHTS_DV2[..13] == WEIGHTS_DV2;
  }

  /** Twelve digits or capitals, two digits. */
  predicate Shaped(c: Candidate) {
    && (forall i | 0 <= i < 12 :: 48 <= c[i] <= 57 || 65 <= c[i] <= 90)
    && (forall i | 12 <= i < 14 :: 48 <= c[i] <= 57)
  }

  lemma ShapedIff(c: Candidate)
    ensures Shaped(c) <==> WellFormed(c)
  {
    if WellFormed(c) {
      assert forall i | 0 <= i < 14 :: InClass(c[i], ExpectedClass(i));
    }
  }

  /** Acceptance from the characters' codes alone: each check digit is 0 for remainders 0 and 1, else 11 less it. */
  lemma AcceptedIff(c: Candidate)
    ensures Valid(c) <==>
            && (forall i | 0 <= i < 12 :: 48 <= c[i] <= 57 || 65 <= c[i] <= 90)
            && (forall i | 12 <= i < 14 :: 48 <= c[i] <= 57)
            && (exists i :: 0 <= i < 14 && c[i] != c[0])
            && (var r := WeightedSum(c, 12, 12) % 11; c[12] - 48 == if r < 2 then 0 else 11 - r)
            && (var r := WeightedSum(c, 13, 13) % 11; c[13] - 48 == if r < 2 then 0 else 11 - r)
  {
    ValidIff(c);
    ShapedIff(c);
    if Shaped(c) {
      SumsAreWeighted(c);
    }
  }

  lemma {:induction false} FirstBad(c: Candidate, i: nat) returns (p: nat)
    requires i <= 14 && BadClassFrom(c, i).Some?
    ensures i <= p < 14 && !InClass(c[p], ExpectedClass(p)) && forall j | i <= j < p :: InClass(c[j], ExpectedClass(j))
    ensures BadClassFrom(c, i) == Some(InvalidCharacter(c[p] as char, p + 1, ExpectedClass(p)))
    decreases 14 - i
  {
    p := i;
    if InClass(c[i], ExpectedClass(i)) {
      p := FirstBad(c, i + 1);
    }
  }

  /** The reason given is the first that holds: a character out of place, one character throughout, a check digit. */
  lemma RejectionReason(c: Candidate)
    requires Validate(c).Err?
    ensures match Validate(c).error
            case InvalidCharacter(ch, position, cls) =>
              && 1 <= position <= 14 && ch == c[position - 1] as char
              && cls == (if position <= 12 then Alphanumeric else Digit)
              && !(48 <= c[position - 1] <= 57) && (position <= 12 ==> !(65 <= c[position - 1] <= 90))
              && forall j | 0 <= j < position - 1 :: 48 <= c[j] <= 57 || (j < 12 && 65 <= c[j] <= 90)
            case RepeatedDigits => Shaped(c) && forall i | 0 <= i < 14 :: c[i] == c[0]
            case InvalidCheckDigits(position, expected, found) =>
              && Shaped(c) && (exists i :: 0 <= i < 14 && c[i] != c[0])
              && (position == 13 || position == 14)
              && (position == 14 ==> var r := WeightedSum(c, 12, 12) % 11; c[12] - 48 == if r < 2 then 0 else 11 - r)
              && (var r := WeightedSum(c, position - 1, position - 1) % 11; expected == if r < 2 then 0 else 11 - r)
              && found == c[position - 1] - 48 && found != expected
            case _ => false
  {
    BadClassMeansIllFormed(c, 0);
    ShapedIff(c);
    if BadClassFrom(c, 0).Some? {
      var p := FirstBad(c, 0);
    } else if !Repeated(c) {
      CheckDigitReason(c);
      SumsAreWeighted(c);
    }
  }

  lemma CheckDigitReason(c: Candidate)
    requires WellFormed(c) && !Repeated(c) && Validate(c).Err?
    ensures var sum := if CharValue(c[12]) != DigitOf(Sum1(c)) then Sum1(c) else Sum2(c);
            var position := if CharValue(c[12]) != DigitOf(Sum1(c)) then 13 else 14;
            && Validate(c).error == InvalidCheckDigits(position, DigitOf(sum), CharValue(c[position - 1]))
            && CharValue(c[position - 1]) != DigitOf(sum)
  {
    BadClassMeansIllFormed(c, 0);
    SecondDigitExact(c);
  }

  /** Once the first digit is right, the second is computed from the thirteen characters that are there. */
  lemma SecondDigitExact(c: Candidate)
    requires WellFormed(c)
    ensures ComputeValidCheckDigits(c[..12]).0 == DigitOf(Sum1(c))
    ensures CharValue(c[12]) == DigitOf(Sum1(c)) ==> ComputeValidCheckDigits(c[..12]).1 == DigitOf(Sum2(c))
  {
    ExactCheckDigits(c);
    assert Values(c[..12]) + [CharValue(c[12])] == Values(c[..13]);
  }

  // ---------------------------------------------------------------- error detection

  lemma {:induction false} DotUpdate(values: seq<nat>, weights: seq<nat>, p: nat, v: nat)
    requires |values| == |weights| && p < |values|
    ensures Dot(values[p := v], weights) == Dot(values, weights) + (v - values[p]) * weights[p]
  {
    if p == 0 {
      assert values[p := v][1..] == values[1..];
    } else {
      assert values[p := v][1..] == values[1..][p - 1 := v];
      DotUpdate(values[1..], weights[1..], p - 1, v);
    }
  }

  /** Both remainders lie in {0, 1}, the two values that share check digit 0, and they differ. */
  predicate Crosses(before: nat, after: nat) {
    before % 11 < 2 && after % 11 < 2 && before % 11 != after % 11
  }

  lemma SameDigitIff(s: nat, t: nat)
    ensures DigitOf(s) == DigitOf(t) <==> s % 11 == t % 11 || Crosses(s, t)
  {}

  lemma ReduceFactor(k: int, w: int)
    ensures k * w == 11 * ((k / 11) * w) + (k % 11) * w
  {
    var m, q := k % 11, k / 11;
    assert k == 11 * q + m;
    assert (11 * q + m) * w == 11 * (q * w) + m * w;
  }

  lemma RemainderMoves(s: nat, t: nat, x: int, e: nat)
    requires t == s + 11 * x + e
    ensures s % 11 == t % 11 <==> e % 11 == 0
    ensures Crosses(s, t) ==> e % 11 == 1 || e % 11 == 10
  {}

  /** A change of `k * w` moves the remainder as `(k % 11) * w` does; 11 is prime. */
  lemma RemainderShift(s: nat, t: nat, k: int, w: nat)
    requires 2 <= w <= 9
    requires t == s + k * w
    ensures s % 11 == t % 11 <==> k % 11 == 0
    ensures Crosses(s, t) ==> (k % 11) * w % 11 == 1 || (k % 11) * w % 11 == 10
  {
    ReduceFactor(k, w);
    SmallProducts(k % 11, w);
    RemainderMoves(s, t, (k / 11) * w, (k % 11) * w);
  }

  lemma SmallProducts(m: nat, w: nat)
    requires m < 11 && 2 <= w <= 9
    ensures m * w % 11 == 0 <==> m == 0
  {
    if
    case w == 2 =>
    case w == 3 =>
    case w == 4 =>
    case w == 5 =>
    case w == 6 =>
    case w == 7 =>
    case w == 8 =>
    case w == 9 =>
  }

  /** One change crosses both remainders only where the two weights add up to 11. */
  lemma CrossingPositions(p: nat, m: nat)
    requires p < 12 && 0 < m < 11
    requires m * WEIGHTS_DV1[p] % 11 == 1 || m * WEIGHTS_DV1[p] % 11 == 10
    requires m * WEIGHTS_DV2[p] % 11 == 1 || m * WEIGHTS_DV2[p] % 11 == 10
    ensures p == 0 || p == 4 || p == 8
  {
    if
    case p == 0 =>
    case p == 1 =>
    case p == 2 =>
    case p == 3 =>
    case p == 4 =>
    case p == 5 =>
    case p == 6 =>
    case p == 7 =>
    case p == 8 =>
    case p == 9 =>
    case p == 10 =>
    case p == 11 =>
  }

  lemma SumAfterSubstitution(c: Candidate, n: nat, weights: seq<nat>, p: nat, b: byte)
    requires p < n == |weights| <= 14
    ensures Dot(Values(c[p := b][..n]), weights)
         == Dot(Values(c[..n]), weights) + (CharValue(b) - CharValue(c[p])) * weights[p]
  {
    assert Values(c[p := b][..n]) == Values(c[..n])[p := CharValue(b)];
    DotUpdate(Values(c[..n]), weights, p, CharValue(b));
  }

  /** The substitution is at a position whose weights add up to 11, and both remainders cross. */
  predicate JointCrossing(c: Candidate, p: nat, b: byte)
    requires p < 14
  {
    && (p == 0 || p == 4 || p == 8)
    && Crosses(Sum1(c), Sum1(c[p := b]))
    && Crosses(Sum2(c), Sum2(c[p := b]))
  }

  /** A well-formed substitution in the base, for letters and digits alike. */
  lemma SubstitutionInBase(c: Candidate, p: nat, b: byte)
    requires Valid(c) && p < 12 && b != c[p] && InClass(b, Alphanumeric)
    ensures Valid(c[p := b]) <==>
            && !Repeated(c[p := b])
            && ((CharValue(b) - CharValue(c[p])) % 11 == 0 || JointCrossing(c, p, b))
  {
    var d: Candidate := c[p := b];
    ValidIff(c);
    ValidIff(d);
    assert WellFormed(d);
    SubstitutionKeepsDigits(c, p, b);
  }

  lemma SubstitutionKeepsDigits(c: Candidate, p: nat, b: byte)
    requires p < 12
    ensures DigitOf(Sum1(c)) == DigitOf(Sum1(c[p := b])) && DigitOf(Sum2(c)) == DigitOf(Sum2(c[p := b])) <==>
            (CharValue(b) - CharValue(c[p])) % 11 == 0 || JointCrossing(c, p, b)
  {
    var d: Candidate := c[p := b];
    var k := CharValue(b) - CharValue(c[p]);
    SameDigitIff(Sum1(c), Sum1(d));
    SameDigitIff(Sum2(c), Sum2(d));
    WeightsBound();
    SumAfterSubstitution(c, 12, WEIGHTS_DV1, p, b);
    SumAfterSubstitution(c, 13, WEIGHTS_DV2, p, b);
    RemainderShift(Sum1(c), Sum1(d), k, WEIGHTS_DV1[p]);
    RemainderShift(Sum2(c), Sum2(d), k, WEIGHTS_DV2[p]);
    if k % 11 != 0 && Crosses(Sum1(c), Sum1(d)) && Crosses(Sum2(c), Sum2(d)) {
      CrossingPositions(p, k % 11);
    }
  }

  predicate AllDigits(c: Candidate) {
    forall i | 0 <= i < 14 :: IsDigit(c[i])
  }

  lemma {:induction false} DotOfZeros(values: seq<nat>, weights: seq<nat>)
    requires |values| == |weights| && forall i | 0 <= i < |values| :: values[i] == 0
    ensures Dot(values, weights) == 0
  {
    if values != [] {
      DotOfZeros(values[1..], weights[1..]);
    }
  }

  /** Where the weights add up to 11, one change that clears both sums starts from opposite sums. */
  lemma OppositeSums(s1: nat, s2: nat, k: int, w: nat)
    requires s1 + k * w == 0 && s2 + k * (11 - w) == 0
    ensures (s1 + s2) % 11 == 0
  {
    assert k * w + k * (11 - w) == 11 * k;
    assert s1 + s2 == 11 * (-k);
  }

  lemma SumsOfZeros(d: Candidate)
    requires forall i | 0 <= i < 14 :: d[i] == 48
    ensures Sum1(d) == 0 && Sum2(d) == 0
  {
    DotOfZeros(Values(d[..12]), WEIGHTS_DV1);
    DotOfZeros(Values(d[..13]), WEIGHTS_DV2);
  }

  /** The crossing case never lands on a repeated-digit candidate. */
  lemma CrossingIsNotRepeated(c: Candidate, p: nat, b: byte)
    requires CharValue(c[12]) == DigitOf(Sum1(c)) && IsDigit(c[12]) && p < 14
    requires JointCrossing(c, p, b)
    ensures !Repeated(c[p := b])
  {
    var d: Candidate := c[p := b];
    if Repeated(d) {
      assert d[12] == d[0] == 48;
      SumsOfZeros(d);
      ClearedSums(c, p, b);
    }
  }

  lemma ClearedSums(c: Candidate, p: nat, b: byte)
    requires (p == 0 || p == 4 || p == 8) && Sum1(c[p := b]) == 0 && Sum2(c[p := b]) == 0
    ensures (Sum1(c) + Sum2(c)) % 11 == 0
  {
    SumAfterSubstitution(c, 12, WEIGHTS_DV1, p, b);
    SumAfterSubstitution(c, 13, WEIGHTS_DV2, p, b);
    OppositeSums(Sum1(c), Sum2(c), CharValue(b) - CharValue(c[p]), WEIGHTS_DV1[p]);
  }

  /** A changed check digit is always rejected. */
  lemma SubstitutionOfCheckDigit(c: Candidate, p: nat, b: byte)
    requires Valid(c) && 12 <= p < 14 && b != c[p] && IsDigit(b)
    ensures !Valid(c[p := b])
  {
    var d: Candidate := c[p := b];
    ValidIff(c);
    ValidIff(d);
    assert d[..12] == c[..12];
    if p == 13 {
      assert d[..13] == c[..13];
    }
    assert InClass(c[p], ExpectedClass(p));
  }

  /**
   The single-digit theorem. Replacing one digit of a valid all-digit CNPJ by another digit goes
   unnoticed exactly when it is at base position 0, 4 or 8 and moves both remainders between 0 and 1.
   */
  lemma SingleDigitError(c: Candidate, p: nat, b: byte)
    requires Valid(c) && AllDigits(c) && p < 14 && b != c[p] && IsDigit(b)
    ensures Valid(c[p := b]) <==> JointCrossing(c, p, b)
  {
    if p >= 12 {
      SubstitutionOfCheckDigit(c, p, b);
    } else {
      SubstitutionInBase(c, p, b);
      DigitsDifferMod11(c[p], b);
      if JointCrossing(c, p, b) {
        ValidIff(c);
        CrossingIsNotRepeated(c, p, b);
      }
    }
  }

  lemma DigitsDifferMod11(a: byte, b: byte)
    requires IsDigit(a) && IsDigit(b) && a != b
    ensures (CharValue(b) - CharValue(a)) % 11 != 0
  {}

  lemma FillDigit(c: Candidate, p: nat, d: nat, w1: nat, w2: nat)
    requires p < 12 && c[p] == 48 && d <= 9 && w1 == WEIGHTS_DV1[p] && w2 == WEIGHTS_DV2[p]
    ensures Sum1(c[p := 48 + d]) == Sum1(c) + d * w1
    ensures Sum2(c[p := 48 + d]) == Sum2(c) + d * w2
  {
    SumAfterSubstitution(c, 12, WEIGHTS_DV1, p, 48 + d);
    SumAfterSubstitution(c, 13, WEIGHTS_DV2, p, 48 + d);
  }

  /** The candidate `00.400.900/0008-00`. */
  const EXAMPLE: Candidate := seq(14, _ => 48)[2 := 52][5 := 57][11 := 56]

  lemma SumsOfExample()
    ensures Sum1(EXAMPLE) == 100 && Sum2(EXAMPLE) == 121
  {
    var zeros: Candidate := seq(14, _ => 48);
    SumsOfZeros(zeros);
    var one: Candidate := zeros[2 := 52];
    FillDigit(zeros, 2, 4, 3, 4);
    var two: Candidate := one[5 := 57];
    FillDigit(one, 5, 9, 8, 9);
    FillDigit(two, 11, 8, 2, 3);
  }

  /** The digit that replaces the 0 at position `p` of the example unnoticed. */
  function Replacement(p: nat): nat {
    if p == 4 then 6 else 2
  }

  lemma ExampleIsValid()
    ensures AllDigits(EXAMPLE) && Valid(EXAMPLE)
  {
    SumsOfExample();
    ValidIff(EXAMPLE);
    assert EXAMPLE[2] != EXAMPLE[1];
  }

  /** The exception is real at each of the three positions: two valid all-digit CNPJs that differ there only. */
  lemma UndetectedSubstitution(p: nat)
    requires p == 0 || p == 4 || p == 8
    ensures exists c: Candidate, b: byte :: AllDigits(c) && IsDigit(b) && b != c[p] && Valid(c) && Valid(c[p := b])
  {
    var c, v := EXAMPLE, Replacement(p);
    ExampleIsValid();
    SumsOfExample();
    FillDigit(c, p, v, WEIGHTS_DV1[p], WEIGHTS_DV2[p]);
    assert JointCrossing(c, p, 48 + v);
    SingleDigitError(c, p, 48 + v);
    assert AllDigits(c) && IsDigit(48 + v) && 48 + v != c[p] && Valid(c[p := 48 + v]);
  }

  // ---------------------------------------------------------------- parsing and printing

  predicate IsFormattingChar(c: char) {
    c == '.' || c == '/' || c == '-' || IsWhitespace(c)
  }

  /** The characters that are not separators or white space, in order. */
  function Meaningful(s: string): string {
    if s == "" then ""
    else if IsFormattingChar(s[0]) then Meaningful(s[1..])
    else [s[0]] + Meaningful(s[1..])
  }

  function Upper(s: string): (u: string)
    ensures |u| == |s|
    ensures forall i | 0 <= i < |s| :: u[i] == ToUpper(s[i])
  {
    seq(|s|, i requires 0 <= i < |s| => ToUpper(s[i]))
  }

  /** Index of the first non-ASCII character at or after `i`, or the length. */
  function NonAsciiFrom(s: string, i: nat): (j: nat)
    requires i <= |s|
    ensures i <= j <= |s|
    ensures forall k | i <= k < j :: IsAscii(s[k])
    ensures j < |s| ==> !IsAscii(s[j])
    decreases |s| - i
  {
    if i == |s| || !IsAscii(s[i]) then i else NonAsciiFrom(s, i + 1)
  }

  function UpperByte(c: char): byte
    requires IsAscii(c)
  {
    ToUpper(c) as int
  }

  function AsciiBytes(s: string): (b: seq<byte>)
    requires forall i | 0 <= i < |s| :: IsAscii(s[i])
    ensures |b| == |s|
    ensures forall i | 0 <= i < |s| :: b[i] == ToUpper(s[i]) as int
  {
    seq(|s|, i requires 0 <= i < |s| && IsAscii(s[i]) => UpperByte(s[i]))
  }

  function Normalize(input: string): Result<Candidate, Error> {
    if input == "" then Err(Empty)
    else
      var meaningful := Meaningful(input);
      if |meaningful| != 14 then Err(InvalidLength(|meaningful|))
      else
        var j := NonAsciiFrom(meaningful, 0);
        if j < 14 then Err(InvalidCharacter(meaningful[j], j + 1, Alphanumeric))
        else Ok(AsciiBytes(meaningful))
  }

  function Parse(input: string): Result<Candidate, Error> {
    var candidate := Normalize(input);
    if candidate.Err? then candidate else Validate(candidate.value)
  }

  /** The separators: point, slash, hyphen, and the characters with the Unicode property White_Space. */
  lemma MeaningfulOne(c: char)
    ensures Meaningful("") == ""
    ensures Meaningful([c]) ==
            var n := c as int;
            if n == 45 || n == 46 || n == 47 || 9 <= n <= 13 || n == 32 || n == 133 || n == 160 || n == 5760
               || 8192 <= n <= 8202 || n == 8232 || n == 8233 || n == 8239 || n == 8287 || n == 12288
            then "" else [c]
  {
    assert [c][1..] == "";
  }

  /** Only a to z change, each to the capital 32 below it. */
  lemma UpperMeans(s: string, i: nat)
    requires i < |s|
    ensures |Upper(s)| == |s|
    ensures Upper(s)[i] as int == if 97 <= s[i] as int <= 122 then s[i] as int - 32 else s[i] as int
  {}

  /** Why an input is turned away before validation. */
  lemma NormalizeReason(input: string)
    requires Normalize(input).Err?
    ensures match Normalize(input).error
            case Empty => input == ""
            case InvalidLength(found) => input != "" && found == |Meaningful(input)| && found != 14
            case InvalidCharacter(ch, position, cls) =>
              && input != "" && |Meaningful(input)| == 14 && 1 <= position <= 14 && cls == Alphanumeric
              && ch == Meaningful(input)[position - 1] && ch as int >= 128
              && forall j | 0 <= j < position - 1 :: Meaningful(input)[j] as int < 128
            case _ => false
  {}

  lemma {:induction false} MeaningfulConcat(a: string, b: string)
    ensures Meaningful(a + b) == Meaningful(a) + Meaningful(b)
  {
    if a == "" {
      assert a + b == b;
    } else {
      assert (a + b)[1..] == a[1..] + b;
      MeaningfulConcat(a[1..], b);
    }
  }

  /** The two passes of normalisation: count the meaningful characters, then fill a 14-byte buffer. */
  method NormalizeInPlace(input: string) returns (r: Result<Candidate, Error>)
    ensures r == Normalize(input)
  {
    if input == "" {
      return Err(Empty);
    }
    var meaningful := "";
    for i := 0 to |input|
      invariant meaningful == Meaningful(input[..i])
    {
      assert input[..i + 1] == input[..i] + [input[i]];
      MeaningfulConcat(input[..i], [input[i]]);
      if !IsFormattingChar(input[i]) {
        meaningful := meaningful + [input[i]];
      }
    }
    assert input[..|input|] == input;
    if |meaningful| != 14 {
      return Err(InvalidLength(|meaningful|));
    }
    var buf := new byte[14](_ => 0);
    for i := 0 to 14
      invariant NonAsciiFrom(meaningful, 0) == NonAsciiFrom(meaningful, i)
      invariant forall k | 0 <= k < i :: buf[k] == ToUpper(meaningful[k]) as int
    {
      if !IsAscii(meaningful[i]) {
        return Err(InvalidCharacter(meaningful[i], i + 1, Alphanumeric));
      }
      buf[i] := ToUpper(meaningful[i]) as int;
    }
    assert buf[..] == AsciiBytes(meaningful);
    return Ok(buf[..]);
  }

  /** Exactly what is accepted: any layout of the 14 characters of a valid CNPJ, in either case. */
  lemma ParseIff(input: string, c: Candidate)
    ensures Parse(input) == Ok(c) <==> input != "" && Upper(Meaningful(input)) == Text(c) && Valid(c)
  {
    var m := Meaningful(input);
    ValidIff(c);
    if input != "" && Upper(m) == Text(c) && Valid(c) {
      forall i | 0 <= i < 14 ensures IsAscii(m[i]) {
        assert Upper(m)[i] == Text(c)[i];
        assert InClass(c[i], ExpectedClass(i));
      }
      assert AsciiBytes(m) == c;
    }
  }

  /** Two inputs that differ only in separators, white space and ASCII case. */
  predicate SameUpToLayout(s: string, t: string) {
    Upper(Meaningful(s)) == Upper(Meaningful(t))
  }

  /** Layout and case never change a result, errors included. */
  lemma LayoutIsIrrelevant(s: string, t: string)
    requires s != "" && t != "" && SameUpToLayout(s, t)
    ensures Parse(s) == Parse(t)
  {
    var m, n := Meaningful(s), Meaningful(t);
    forall i | 0 <= i < |m|
      ensures ToUpper(m[i]) == ToUpper(n[i])
    {
      assert Upper(m)[i] == Upper(n)[i];
    }
    assert NonAsciiFrom(m, 0) == NonAsciiFrom(n, 0);
    if NonAsciiFrom(m, 0) == |m| {
      assert AsciiBytes(m) == AsciiBytes(n);
    }
  }

  lemma {:induction false} OnlySeparators(sep: string)
    requires forall i | 0 <= i < |sep| :: IsFormattingChar(sep[i])
    ensures Meaningful(sep) == ""
  {
    if sep != "" {
      OnlySeparators(sep[1..]);
    }
  }

  /** Inserting separators anywhere keeps the layout class ... */
  lemma InsertingSeparators(a: string, sep: string, b: string)
    requires forall i | 0 <= i < |sep| :: IsFormattingChar(sep[i])
    ensures SameUpToLayout(a + sep + b, a + b)
  {
    OnlySeparators(sep);
    MeaningfulConcat(a + sep, b);
    MeaningfulConcat(a, sep);
    MeaningfulConcat(a, b);
  }

  /** Changing case does not make or hide a separator. */
  lemma CaseOfSeparator(c: char, d: char)
    requires ToUpper(c) == ToUpper(d)
    ensures IsFormattingChar(c) <==> IsFormattingChar(d)
  {}

  lemma UpperCons(c: char, m: string)
    ensures Upper([c] + m) == [ToUpper(c)] + Upper(m)
  {}

  /** ... and so does changing ASCII case. */
  lemma {:induction false} ChangingCase(s: string, t: string)
    requires |s| == |t| && forall i | 0 <= i < |s| :: ToUpper(s[i]) == ToUpper(t[i])
    ensures SameUpToLayout(s, t)
  {
    if s != "" {
      ChangingCase(s[1..], t[1..]);
      CaseOfSeparator(s[0], t[0]);
      UpperCons(s[0], Meaningful(s[1..]));
      UpperCons(t[0], Meaningful(t[1..]));
    }
  }

  /** The 18-character form. */
  function Formatted(c: Candidate): seq<byte> {
    [c[0], c[1], 46, c[2], c[3], c[4], 46, c[5], c[6], c[7], 47, c[8], c[9], c[10], c[11], 45, c[12], c[13]]
  }

  lemma {:induction false} TextIsMeaningful(bytes: seq<byte>)
    requires forall i | 0 <= i < |bytes| :: InClass(bytes[i], Alphanumeric)
    ensures Meaningful(Text(bytes)) == Text(bytes)
    ensures Upper(Text(bytes)) == Text(bytes)
  {
    if bytes != [] {
      assert Text(bytes)[1..] == Text(bytes[1..]);
      TextIsMeaningful(bytes[1..]);
      assert InClass(bytes[0], Alphanumeric);
      assert Text(bytes) == [Text(bytes)[0]] + Text(bytes[1..]);
    }
  }

  lemma ValidIsAlphanumeric(c: Candidate)
    requires Valid(c)
    ensures forall i | 0 <= i < 14 :: InClass(c[i], Alphanumeric)
  {
    ValidIff(c);
    forall i | 0 <= i < 14 ensures InClass(c[i], Alphanumeric) {
      assert InClass(c[i], ExpectedClass(i));
    }
  }

  /** Dropping the four separators of the 18-character form leaves the compact text. */
  lemma FormattedLayout(c: Candidate)
    requires Valid(c)
    ensures Meaningful(Text(Formatted(c))) == Text(c)
  {
    ValidIsAlphanumeric(c);
    var t := Text(c);
    PartIsMeaningful(c, 0, 2);
    PartIsMeaningful(c, 2, 5);
    PartIsMeaningful(c, 5, 8);
    PartIsMeaningful(c, 8, 12);
    PartIsMeaningful(c, 12, 14);
    FormattedParts(c);
    var last := t[8..12] + "-" + t[12..14];
    var middle := t[5..8] + "/" + last;
    var rest := t[2..5] + "." + middle;
    SeparatorBetween(t[8..12], "-", t[12..14]);
    SeparatorBetween(t[5..8], "/", last);
    SeparatorBetween(t[2..5], ".", middle);
    SeparatorBetween(t[0..2], ".", rest);
    JoinedParts(t);
  }

  lemma JoinedParts(t: string)
    requires |t| == 14
    ensures t == t[0..2] + (t[2..5] + (t[5..8] + (t[8..12] + t[12..14])))
  {
    assert t[8..14] == t[8..12] + t[12..14];
    assert t[5..14] == t[5..8] + t[8..14];
    assert t[2..14] == t[2..5] + t[5..14];
    assert t == t[0..2] + t[2..14];
  }

  lemma FormattedParts(c: Candidate)
    ensures var t := Text(c);
            Text(Formatted(c)) == t[0..2] + "." + (t[2..5] + "." + (t[5..8] + "/" + (t[8..12] + "-" + t[12..14])))
  {
    var f := Text(Formatted(c));
    var t := Text(c);
    assert f[0..2] == t[0..2] && f[3..6] == t[2..5] && f[7..10] == t[5..8]
           && f[11..15] == t[8..12] && f[16..18] == t[12..14];
    assert f[2..3] == "." && f[6..7] == "." && f[10..11] == "/" && f[15..16] == "-";
    assert f[11..18] == f[11..15] + f[15..16] + f[16..18];
    assert f[7..18] == f[7..10] + f[10..11] + f[11..18];
    assert f[3..18] == f[3..6] + f[6..7] + f[7..18];
    assert f == f[0..2] + f[2..3] + f[3..18];
  }

  lemma PartIsMeaningful(c: Candidate, lo: nat, hi: nat)
    requires lo <= hi <= 14 && forall i | 0 <= i < 14 :: InClass(c[i], Alphanumeric)
    ensures Meaningful(Text(c)[lo..hi]) == Text(c)[lo..hi]
  {
    assert Text(c)[lo..hi] == Text(c[lo..hi]);
    TextIsMeaningful(c[lo..hi]);
  }

  lemma SeparatorBetween(a: string, sep: string, b: string)
    requires |sep| == 1 && IsFormattingChar(sep[0])
    ensures Meaningful(a + sep + b) == Meaningful(a) + Meaningful(b)
  {
    OnlySeparators(sep);
    MeaningfulConcat(a + sep, b);
    MeaningfulConcat(a, sep);
  }

  /** Printing and parsing undo each other, in the compact and in the 18-character form. */
  lemma RoundTrip(c: Candidate)
    requires Valid(c)
    ensures Parse(Text(c)) == Ok(c)
    ensures Parse(Text(Formatted(c))) == Ok(c)
  {
    ValidIsAlphanumeric(c);
    TextIsMeaningful(c);
    FormattedLayout(c);
    ParseIff(Text(c), c);
    ParseIff(Text(Formatted(c)), c);
  }
}
