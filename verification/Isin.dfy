/** ISIN: ISO 6166 codes with the modulus 10 double-add-double check digit. */
module Isin {
  import opened Wrappers
  import opened Ascii
  import opened Expansion

  const BASE_LEN: nat := 11

  datatype Error =
    | InvalidCharacter(character: char, position: nat, expectedClass: CharacterClass)
    | InvalidCheckDigit(expected: nat, found: nat)

  type Candidate = c: seq<byte> | |c| == 12 witness seq(12, _ => 0)

  // ---------------------------------------------------------------- Luhn

  function LuhnStep(value: nat, double: bool): nat {
    if double then
      var doubled := value * 2;
      if doubled > 9 then doubled - 9 else doubled
    else value
  }

  /** Double-add-double from the right; `double` says whether the last digit is doubled. */
  function Luhn(digits: seq<nat>, double: bool): nat {
    if digits == [] then 0
    else LuhnStep(digits[|digits| - 1], double) + Luhn(digits[..|digits| - 1], !double)
  }

  /**
   The independent form: a digit is doubled by the parity of its position counted from the right,
   and the digits are added from the left.
   */
  function PositionalLuhn(digits: seq<nat>, double: bool): nat {
    if digits == [] then 0
    else LuhnStep(digits[0], (|digits| % 2 == 1) == double) + PositionalLuhn(digits[1..], double)
  }

  lemma {:induction false} PositionalPush(digits: seq<nat>, d: nat, double: bool)
    ensures PositionalLuhn(digits + [d], double) == PositionalLuhn(digits, !double) + LuhnStep(d, double)
  {
    if digits != [] {
      assert (digits + [d])[1..] == digits[1..] + [d];
      PositionalPush(digits[1..], d, double);
    }
  }

  lemma {:induction false} LuhnIsPositional(digits: seq<nat>, double: bool)
    ensures Luhn(digits, double) == PositionalLuhn(digits, double)
  {
    if digits != [] {
      var n := |digits| - 1;
      LuhnIsPositional(digits[..n], !double);
      PositionalPush(digits[..n], digits[n], double);
      assert digits == digits[..n] + [digits[n]];
    }
  }

  /**
   Luhn's rule in plain numbers: a digit with an odd number of digits to its right counts the digit sum of its double,
   any other counts itself.
   */
  function DigitSums(digits: seq<nat>): nat {
    if digits == [] then 0
    else
      var d := digits[0];
      (if |digits| % 2 == 0 then 2 * d / 10 + 2 * d % 10 else d) + DigitSums(digits[1..])
  }

  /** Subtracting 9 from a two-digit double is adding its digits. */
  lemma DoubledIsDigitSum(d: nat)
    requires d <= 9
    ensures LuhnStep(d, true) == 2 * d / 10 + 2 * d % 10 && LuhnStep(d, false) == d
  {}

  lemma LuhnIsDigitSums(digits: seq<nat>)
    requires forall i | 0 <= i < |digits| :: digits[i] <= 9
    ensures Luhn(digits, false) == DigitSums(digits)
  {
    LuhnIsPositional(digits, false);
    PositionalIsDigitSums(digits);
  }

  lemma {:induction false} PositionalIsDigitSums(digits: seq<nat>)
    requires forall i | 0 <= i < |digits| :: digits[i] <= 9
    ensures PositionalLuhn(digits, false) == DigitSums(digits)
  {
    if digits != [] {
      DoubledIsDigitSum(digits[0]);
      PositionalIsDigitSums(digits[1..]);
    }
  }

  /** Whether the digit left of `digits` is doubled, given how the last one is treated. */
  function FlagBefore(digits: seq<nat>, double: bool): bool {
    if |digits| % 2 == 0 then double else !double
  }

  lemma {:induction false} LuhnConcat(a: seq<nat>, b: seq<nat>, double: bool)
    ensures Luhn(a + b, double) == Luhn(b, double) + Luhn(a, FlagBefore(b, double))
  {
    if b == [] {
      assert a + b == a;
    } else {
      var n := |b| - 1;
      assert (a + b)[..|a + b| - 1] == a + b[..n];
      LuhnConcat(a, b[..n], !double);
    }
  }

  lemma LuhnOne(d: nat, double: bool)
    ensures Luhn([d], double) == LuhnStep(d, double)
  {
    assert [d][..0] == [];
  }

  lemma LuhnTwo(d: nat, e: nat, double: bool)
    ensures Luhn([d, e], double) == LuhnStep(e, double) + LuhnStep(d, !double)
  {
    assert [d, e][..1] == [d];
    LuhnOne(d, !double);
  }

  /** The sum the reverse pass ends with, over the fully expanded digits. */
  function CheckDigit(base: seq<byte>): nat
    requires AllAlphanumeric(base)
  {
    (10 - Luhn(Expand(base), true) % 10) % 10
  }

  lemma LastExpanded(bytes: seq<byte>, n: nat)
    requires n < |bytes| && AllAlphanumeric(bytes)
    ensures Expand(bytes[n..]) == ExpandByte(bytes[n]) + Expand(bytes[n + 1..])
  {
    assert bytes[n..] == [bytes[n]] + bytes[n + 1..];
    ExpandConcat([bytes[n]], bytes[n + 1..]);
    ExpandOne(bytes[n]);
  }

  lemma FlagConcat(a: seq<nat>, b: seq<nat>, double: bool)
    ensures FlagBefore(a + b, double) == FlagBefore(a, FlagBefore(b, double))
  {}

  /** What one character adds to the running sum of the reverse pass. */
  function PassByte(b: byte, double: bool): nat
    requires InClass(b, Alphanumeric)
  {
    if IsDigit(b) then LuhnStep(b - 48, double)
    else LuhnStep(LetterValue(b) % 10, double) + LuhnStep(LetterValue(b) / 10, !double)
  }

  lemma PassByteIsLuhn(b: byte, double: bool)
    requires InClass(b, Alphanumeric)
    ensures Luhn(ExpandByte(b), double) == PassByte(b, double)
    ensures FlagBefore(ExpandByte(b), double) == if IsDigit(b) then !double else double
  {
    if IsDigit(b) {
      LuhnOne(b - 48, double);
    } else {
      LuhnTwo(LetterValue(b) / 10, LetterValue(b) % 10, double);
    }
  }

  /** One character of the reverse pass: what it adds to the sum and where it leaves the flag. */
  lemma PassStep(bytes: seq<byte>, n: nat, double: bool)
    requires n < |bytes| && AllAlphanumeric(bytes) && double == FlagBefore(Expand(bytes[n + 1..]), true)
    ensures Luhn(Expand(bytes[n..]), true) == Luhn(Expand(bytes[n + 1..]), true) + PassByte(bytes[n], double)
    ensures FlagBefore(Expand(bytes[n..]), true) == if IsDigit(bytes[n]) then !double else double
  {
    LastExpanded(bytes, n);
    LuhnConcat(ExpandByte(bytes[n]), Expand(bytes[n + 1..]), true);
    FlagConcat(ExpandByte(bytes[n]), Expand(bytes[n + 1..]), true);
    PassByteIsLuhn(bytes[n], double);
  }

  lemma TotalAppended(digits: seq<nat>, check: nat)
    requires (forall i | 0 <= i < |digits| :: digits[i] <= 9) && check <= 9
    ensures DigitSums(digits + [check]) == Luhn(digits, true) + check
  {
    LuhnConcat(digits, [check], false);
    LuhnOne(check, false);
    LuhnIsDigitSums(digits + [check]);
  }

  /** With its check digit appended a base has a total of 0 modulo 10. */
  lemma CompletedTotal(base: seq<byte>, sum: nat, check: nat)
    requires AllAlphanumeric(base) && sum == Luhn(Expand(base), true) && check == (10 - sum % 10) % 10
    ensures check <= 9 && DigitSums(Expand(base) + [check]) % 10 == 0
  {
    Complement(sum, check);
    TotalAppended(Expand(base), check);
  }

  /** What the pass ends with. */
  lemma PassEnds(base: seq<byte>, sum: nat, check: nat)
    requires AllAlphanumeric(base) && sum == Luhn(Expand(base), true) && check == (10 - sum % 10) % 10
    ensures check <= 9 && DigitSums(Expand(base) + [check]) % 10 == 0
    ensures check == (10 - PositionalLuhn(Expand(base), true) % 10) % 10
    ensures check == CheckDigit(base)
  {
    CompletedTotal(base, sum, check);
    LuhnIsPositional(Expand(base), true);
  }

  /** The single reverse pass with the toggling flag, for a base of any length. */
  method ComputeCheckDigit(base: seq<byte>) returns (check: nat)
    requires AllAlphanumeric(base)
    ensures check <= 9 && DigitSums(Expand(base) + [check]) % 10 == 0
    ensures check == (10 - PositionalLuhn(Expand(base), true) % 10) % 10
    ensures check == CheckDigit(base)
  {
    var sum := 0;
    var double := true;
    var n := |base|;
    while n > 0
      invariant 0 <= n <= |base|
      invariant sum == Luhn(Expand(base[n..]), true)
      invariant double == FlagBefore(Expand(base[n..]), true)
    {
      n := n - 1;
      PassStep(base, n, double);
      ghost var added := PassByte(base[n], double);
      ghost var before := sum;
      if IsDigit(base[n]) {
        sum := sum + LuhnStep(base[n] - 48, double);
        double := !double;
      } else {
        var value := LetterValue(base[n]);
        sum := sum + LuhnStep(value % 10, double);
        double := !double;
        sum := sum + LuhnStep(value / 10, double);
        double := !double;
      }
      assert sum == before + added;
    }
    assert base[0..] == base;
    check := (10 - sum % 10) % 10;
    PassEnds(base, sum, check);
  }

  // ---------------------------------------------------------------- validation

  function ExpectedClass(i: nat): CharacterClass {
    if i < 2 then Letter else if i < BASE_LEN then Alphanumeric else Digit
  }

  function BadClassFrom(c: Candidate, i: nat): (r: Option<Error>)
    requires i <= 12
    ensures r.None? <==> forall j | i <= j < 12 :: InClass(c[j], ExpectedClass(j))
    decreases 12 - i
  {
    if i == 12 then None
    else if !InClass(c[i], ExpectedClass(i)) then Some(InvalidCharacter(c[i] as char, i + 1, ExpectedClass(i)))
    else BadClassFrom(c, i + 1)
  }

  predicate WellFormed(c: Candidate) {
    forall i | 0 <= i < 12 :: InClass(c[i], ExpectedClass(i))
  }

  lemma WellFormedIsAlphanumeric(c: Candidate)
    requires WellFormed(c)
    ensures AllAlphanumeric(c) && AllAlphanumeric(c[..BASE_LEN]) && IsDigit(c[BASE_LEN])
  {
    forall i | 0 <= i < 12 ensures InClass(c[i], Alphanumeric) {
      assert InClass(c[i], ExpectedClass(i));
    }
    assert InClass(c[BASE_LEN], ExpectedClass(BASE_LEN));
  }

  function Validate(c: Candidate): Result<Candidate, Error> {
    var bad := BadClassFrom(c, 0);
    if bad.Some? then Err(bad.value)
    else
      WellFormedIsAlphanumeric(c);
      var expected := CheckDigit(c[..BASE_LEN]);
      if expected != c[BASE_LEN] - 48 then Err(InvalidCheckDigit(expected, c[BASE_LEN] - 48)) else Ok(c)
  }

  ghost predicate Valid(c: Candidate) {
    Validate(c).Ok?
  }

  /** The check digit is counted once, undoubled. */
  lemma TotalOfWhole(c: Candidate)
    requires WellFormed(c) && AllAlphanumeric(c) && AllAlphanumeric(c[..BASE_LEN]) && IsDigit(c[BASE_LEN])
    ensures Luhn(Expand(c), false) == Luhn(Expand(c[..BASE_LEN]), true) + (c[BASE_LEN] - 48)
  {
    assert c == c[..BASE_LEN] + [c[BASE_LEN]];
    ExpandConcat(c[..BASE_LEN], [c[BASE_LEN]]);
    ExpandOne(c[BASE_LEN]);
    LuhnConcat(Expand(c[..BASE_LEN]), [c[BASE_LEN] - 48], false);
    LuhnOne(c[BASE_LEN] - 48, false);
  }

  /** Acceptance: the Luhn total of all twelve characters, check digit included, is 0 modulo 10. */
  lemma AcceptedIff(c: Candidate)
    requires WellFormed(c) && AllAlphanumeric(c)
    ensures Valid(c) <==> Luhn(Expand(c), false) % 10 == 0
  {
    WellFormedIsAlphanumeric(c);
    TotalOfWhole(c);
    Complement(Luhn(Expand(c[..BASE_LEN]), true), c[BASE_LEN] - 48);
  }

  /** Two capitals, nine digits or capitals, a digit. */
  predicate Shaped(c: Candidate) {
    && (forall i | 0 <= i < 2 :: 65 <= c[i] <= 90)
    && (forall i | 2 <= i < 11 :: 48 <= c[i] <= 57 || 65 <= c[i] <= 90)
    && 48 <= c[11] <= 57
  }

  lemma ShapedIff(c: Candidate)
    ensures Shaped(c) <==> WellFormed(c)
  {
    if WellFormed(c) {
      assert forall i | 0 <= i < 12 :: InClass(c[i], ExpectedClass(i));
    }
  }

  /** Acceptance in plain numbers, over the expansion that `Expansion.ExpandMeans` spells out. */
  lemma AcceptedMeans(c: Candidate)
    ensures Valid(c) <==>
            && (forall i | 0 <= i < 2 :: 65 <= c[i] <= 90)
            && (forall i | 2 <= i < 11 :: 48 <= c[i] <= 57 || 65 <= c[i] <= 90)
            && 48 <= c[11] <= 57
            && AllAlphanumeric(c) && DigitSums(Expand(c)) % 10 == 0
  {
    ShapedIff(c);
    if Shaped(c) {
      WellFormedIsAlphanumeric(c);
      AcceptedIff(c);
      LuhnIsDigitSums(Expand(c));
    }
  }

  lemma {:induction false} FirstBad(c: Candidate, i: nat) returns (p: nat)
    requires i <= 12 && BadClassFrom(c, i).Some?
    ensures i <= p < 12 && !InClass(c[p], ExpectedClass(p)) && forall j | i <= j < p :: InClass(c[j], ExpectedClass(j))
    ensures BadClassFrom(c, i) == Some(InvalidCharacter(c[p] as char, p + 1, ExpectedClass(p)))
    decreases 12 - i
  {
    p := i;
    if InClass(c[i], ExpectedClass(i)) {
      p := FirstBad(c, i + 1);
    }
  }

  /** The reason given: the first character out of place, or the digit that is there and the one that belongs there. */
  lemma RejectionReason(c: Candidate)
    requires Validate(c).Err?
    ensures match Validate(c).error
            case InvalidCharacter(ch, position, cls) =>
              && 1 <= position <= 12 && ch == c[position - 1] as char
              && cls == (if position <= 2 then Letter else if position <= 11 then Alphanumeric else Digit)
              && (position >= 3 ==> !(48 <= c[position - 1] <= 57))
              && (position <= 11 ==> !(65 <= c[position - 1] <= 90))
              && forall j | 0 <= j < position - 1 :: (j >= 2 && 48 <= c[j] <= 57) || (j < 11 && 65 <= c[j] <= 90)
            case InvalidCheckDigit(expected, found) =>
              && Shaped(c) && AllAlphanumeric(c[..11])
              && found == c[11] - 48 && found != expected
              && expected <= 9 && DigitSums(Expand(c[..11]) + [expected]) % 10 == 0
  {
    ShapedIff(c);
    if BadClassFrom(c, 0).Some? {
      var p := FirstBad(c, 0);
    } else {
      WellFormedIsAlphanumeric(c);
      CompletedTotal(c[..BASE_LEN], Luhn(Expand(c[..BASE_LEN]), true), CheckDigit(c[..BASE_LEN]));
    }
  }

  lemma Complement(sum: nat, check: nat)
    requires check <= 9
    ensures check == (10 - sum % 10) % 10 <==> (sum + check) % 10 == 0
  {}

  // ---------------------------------------------------------------- error detection

  /** The Luhn total of a code split around the stretch `mid`, whose digits are `digits`. */
  lemma TotalAround(pre: seq<byte>, mid: seq<byte>, post: seq<byte>, digits: seq<nat>)
    requires AllAlphanumeric(pre) && AllAlphanumeric(mid) && AllAlphanumeric(post)
    requires Expand(mid) == digits
    ensures AllAlphanumeric(pre + mid + post)
    ensures Luhn(Expand(pre + mid + post), false) ==
            Luhn(Expand(post), false) + Luhn(digits, FlagBefore(Expand(post), false))
            + Luhn(Expand(pre), FlagBefore(digits, FlagBefore(Expand(post), false)))
  {
    ExpandConcat(pre + mid, post);
    ExpandConcat(pre, mid);
    LuhnConcat(Expand(pre) + Expand(mid), Expand(post), false);
    LuhnConcat(Expand(pre), Expand(mid), FlagBefore(Expand(post), false));
  }

  /** Replacing a stretch of digits moves the total by the difference of the two contributions. */
  lemma TotalMoves(pre: seq<byte>, mid: seq<byte>, mid': seq<byte>, post: seq<byte>, ds: seq<nat>, es: seq<nat>)
    requires AllAlphanumeric(pre) && AllAlphanumeric(mid) && AllAlphanumeric(mid') && AllAlphanumeric(post)
    requires Expand(mid) == ds && Expand(mid') == es && |ds| == |es|
    ensures AllAlphanumeric(pre + mid + post) && AllAlphanumeric(pre + mid' + post)
    ensures Luhn(Expand(pre + mid' + post), false) - Luhn(Expand(pre + mid + post), false)
         == Luhn(es, FlagBefore(Expand(post), false)) - Luhn(ds, FlagBefore(Expand(post), false))
  {
    TotalAround(pre, mid, post, ds);
    TotalAround(pre, mid', post, es);
  }

  lemma DivisibleAfterMove(t: nat, t': nat, move: int)
    requires t % 10 == 0 && t' - t == move
    ensures t' % 10 == 0 <==> move % 10 == 0
  {}

  lemma ExpandDigit(a: byte)
    requires IsDigit(a)
    ensures AllAlphanumeric([a]) && Expand([a]) == [a - 48]
  {
    ExpandOne(a);
  }

  lemma ExpandDigits(a: byte, b: byte)
    requires IsDigit(a) && IsDigit(b)
    ensures AllAlphanumeric([a, b]) && Expand([a, b]) == [a - 48, b - 48]
  {
    ExpandDigit(a);
    ExpandDigit(b);
    assert [a, b] == [a] + [b];
    ExpandConcat([a], [b]);
  }

  /** Doubling permutes the ten digits, so a step never merges two of them modulo 10. */
  lemma StepIsInjective(x: nat, y: nat, double: bool) returns (move: int)
    requires x <= 9 && y <= 9 && x != y
    ensures move == LuhnStep(y, double) - LuhnStep(x, double) && move % 10 != 0
  {
    move := LuhnStep(y, double) - LuhnStep(x, double);
  }

  lemma SwapContribution(x: nat, y: nat, double: bool) returns (move: int)
    requires x <= 9 && y <= 9 && x != y
    ensures move == LuhnStep(x, double) + LuhnStep(y, !double) - (LuhnStep(y, double) + LuhnStep(x, !double))
    ensures move % 10 == 0 <==> (x == 0 && y == 9) || (x == 9 && y == 0)
  {
    move := LuhnStep(x, double) + LuhnStep(y, !double) - (LuhnStep(y, double) + LuhnStep(x, !double));
  }

  /** From a valid code, a well-formed one is accepted exactly when the total moved by a multiple of 10. */
  lemma AcceptedAfterMove(c: Candidate, d: Candidate, move: int)
    requires Valid(c) && WellFormed(d) && AllAlphanumeric(c) && AllAlphanumeric(d)
    requires Luhn(Expand(d), false) - Luhn(Expand(c), false) == move
    ensures Valid(d) <==> move % 10 == 0
  {
    AcceptedIff(c);
    AcceptedIff(d);
    DivisibleAfterMove(Luhn(Expand(c), false), Luhn(Expand(d), false), move);
  }

  lemma DigitPositions(c: Candidate, p: nat, b: byte)
    requires WellFormed(c) && p < 12 && IsDigit(c[p]) && IsDigit(b)
    ensures WellFormed(c[p := b])
  {
    assert InClass(c[p], ExpectedClass(p));
    forall i | 0 <= i < 12 ensures InClass(c[p := b][i], ExpectedClass(i)) {
      assert InClass(c[i], ExpectedClass(i));
    }
  }

  lemma SubstitutionContribution(c: Candidate, p: nat, b: byte) returns (double: bool)
    requires p < 12 && AllAlphanumeric(c) && AllAlphanumeric(c[p := b]) && IsDigit(c[p]) && IsDigit(b)
    ensures Luhn(Expand(c[p := b]), false) - Luhn(Expand(c), false)
         == LuhnStep(b - 48, double) - LuhnStep(c[p] - 48, double)
  {
    var pre, post := c[..p], c[p + 1..];
    assert c == pre + [c[p]] + post && c[p := b] == pre + [b] + post;
    ExpandDigit(c[p]);
    ExpandDigit(b);
    TotalMoves(pre, [c[p]], [b], post, [c[p] - 48], [b - 48]);
    double := FlagBefore(Expand(post), false);
    LuhnOne(c[p] - 48, double);
    LuhnOne(b - 48, double);
  }

  lemma UnequalMove(a: byte, b: byte, double: bool, move: int)
    requires IsDigit(a) && IsDigit(b) && a != b
    requires move == LuhnStep(b - 48, double) - LuhnStep(a - 48, double)
    ensures move % 10 != 0
  {
    var _ := StepIsInjective(a - 48, b - 48, double);
  }

  lemma SubstitutionMovesTotal(c: Candidate, p: nat, b: byte) returns (move: int)
    requires p < 12 && AllAlphanumeric(c) && AllAlphanumeric(c[p := b]) && IsDigit(c[p]) && IsDigit(b) && b != c[p]
    ensures Luhn(Expand(c[p := b]), false) - Luhn(Expand(c), false) == move && move % 10 != 0
  {
    var double := SubstitutionContribution(c, p, b);
    move := Luhn(Expand(c[p := b]), false) - Luhn(Expand(c), false);
    UnequalMove(c[p], b, double, move);
  }

  /** Every digit-for-digit substitution in a valid ISIN is rejected. */
  lemma SubstitutionIsRejected(c: Candidate, p: nat, b: byte)
    requires Valid(c) && p < 12 && IsDigit(c[p]) && IsDigit(b) && b != c[p]
    ensures !Valid(c[p := b])
  {
    var d: Candidate := c[p := b];
    WellFormedIsAlphanumeric(c);
    DigitPositions(c, p, b);
    WellFormedIsAlphanumeric(d);
    var move := SubstitutionMovesTotal(c, p, b);
    AcceptedAfterMove(c, d, move);
  }

  function Swapped(c: Candidate, p: nat): Candidate
    requires p < 11
  {
    c[p := c[p + 1]][p + 1 := c[p]]
  }

  /** The two digits whose doubled and plain values coincide modulo 10. */
  predicate Confused(a: byte, b: byte) {
    (a == 48 && b == 57) || (a == 57 && b == 48)
  }

  lemma SwapContributionAt(c: Candidate, p: nat) returns (double: bool)
    requires p < 11 && AllAlphanumeric(c) && AllAlphanumeric(Swapped(c, p))
    requires IsDigit(c[p]) && IsDigit(c[p + 1])
    ensures var x, y := c[p] - 48, c[p + 1] - 48;
            Luhn(Expand(Swapped(c, p)), false) - Luhn(Expand(c), false)
            == LuhnStep(x, double) + LuhnStep(y, !double) - (LuhnStep(y, double) + LuhnStep(x, !double))
  {
    var a, b := c[p], c[p + 1];
    var pre, post := c[..p], c[p + 2..];
    assert c == pre + [a, b] + post && Swapped(c, p) == pre + [b, a] + post;
    ExpandDigits(a, b);
    ExpandDigits(b, a);
    TotalMoves(pre, [a, b], [b, a], post, [a - 48, b - 48], [b - 48, a - 48]);
    double := FlagBefore(Expand(post), false);
    LuhnTwo(a - 48, b - 48, double);
    LuhnTwo(b - 48, a - 48, double);
  }

  lemma ConfusedMove(a: byte, b: byte, double: bool, move: int)
    requires IsDigit(a) && IsDigit(b) && a != b
    requires var x, y := a - 48, b - 48;
             move == LuhnStep(x, double) + LuhnStep(y, !double) - (LuhnStep(y, double) + LuhnStep(x, !double))
    ensures move % 10 == 0 <==> Confused(a, b)
  {
    var _ := SwapContribution(a - 48, b - 48, double);
  }

  lemma SwapMovesTotal(c: Candidate, p: nat) returns (move: int)
    requires p < 11 && AllAlphanumeric(c) && AllAlphanumeric(Swapped(c, p))
    requires IsDigit(c[p]) && IsDigit(c[p + 1]) && c[p] != c[p + 1]
    ensures Luhn(Expand(Swapped(c, p)), false) - Luhn(Expand(c), false) == move
    ensures move % 10 == 0 <==> Confused(c[p], c[p + 1])
  {
    var double := SwapContributionAt(c, p);
    move := Luhn(Expand(Swapped(c, p)), false) - Luhn(Expand(c), false);
    ConfusedMove(c[p], c[p + 1], double, move);
  }

  lemma SwapStaysWellFormed(c: Candidate, p: nat)
    requires WellFormed(c) && p < 11 && IsDigit(c[p]) && IsDigit(c[p + 1])
    ensures WellFormed(Swapped(c, p))
  {
    DigitPositions(c, p, c[p + 1]);
    DigitPositions(c[p := c[p + 1]], p + 1, c[p]);
  }

  /** Adjacent digit transpositions, exactly: only 09 and 90 are confused. */
  lemma AdjacentTransposition(c: Candidate, p: nat)
    requires Valid(c) && p < 11 && IsDigit(c[p]) && IsDigit(c[p + 1]) && c[p] != c[p + 1]
    ensures Valid(Swapped(c, p)) <==> Confused(c[p], c[p + 1])
  {
    WellFormedIsAlphanumeric(c);
    SwapStaysWellFormed(c, p);
    WellFormedIsAlphanumeric(Swapped(c, p));
    var move := SwapMovesTotal(c, p);
    AcceptedAfterMove(c, Swapped(c, p), move);
  }

  /** Every base of the right shape has a valid code. */
  lemma CompletedBase(base: seq<byte>) returns (c: Candidate)
    requires |base| == BASE_LEN && forall i | 0 <= i < BASE_LEN :: InClass(base[i], ExpectedClass(i))
    ensures Valid(c) && c[..BASE_LEN] == base && AllAlphanumeric(base) && c[BASE_LEN] == 48 + CheckDigit(base)
  {
    forall i | 0 <= i < BASE_LEN ensures InClass(base[i], Alphanumeric) {
      assert InClass(base[i], ExpectedClass(i));
    }
    c := base + [48 + CheckDigit(base)];
    assert c[..BASE_LEN] == base;
    forall i | 0 <= i < 12 ensures InClass(c[i], ExpectedClass(i)) {
      if i < BASE_LEN {
        assert c[i] == base[i];
      }
    }
    assert WellFormed(c);
  }

  /** The exception is real: 09 at each place of the national part occurs in a valid ISIN whose swap is valid. */
  lemma UndetectedTransposition(p: nat)
    requires 2 <= p && p + 1 < BASE_LEN
    ensures exists c: Candidate :: c[p] == 48 && c[p + 1] == 57 && Valid(c) && Valid(Swapped(c, p))
  {
    var blank: seq<byte> := seq(BASE_LEN, i => if i < 2 then 65 else 48);
    var base := blank[p + 1 := 57];
    var c := CompletedBase(base);
    assert c[p] == c[..BASE_LEN][p] && c[p + 1] == c[..BASE_LEN][p + 1];
    AdjacentTransposition(c, p);
  }
}
