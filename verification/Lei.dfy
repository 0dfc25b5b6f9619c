/** LEI: ISO 17442-1 codes with the ISO/IEC 7064 MOD 97-10 check pair. */
module Lei {
  import opened Wrappers
  import opened Ascii
  import opened Expansion

  const BASE_LEN: nat := 18
  const ALPHANUMERIC: seq<byte> :=
    [48, 49, 50, 51, 52, 53, 54, 55, 56, 57, 65, 66, 67, 68, 69, 70, 71, 72, 73, 74, 75, 76, 77,
     78, 79, 80, 81, 82, 83, 84, 85, 86, 87, 88, 89, 90]

  datatype Error =
    | InvalidCharacter(character: char, position: nat, expectedClass: CharacterClass)
    | InvalidCheckDigits(expected: nat, found: nat)

  type Candidate = c: seq<byte> | |c| == 20 witness seq(20, _ => 0)

  // ---------------------------------------------------------------- arithmetic modulo 97

  lemma AddMultiple(x: int, q: int)
    ensures (x + 97 * q) % 97 == x % 97
  {}

  lemma CongruentIff(a: int, b: int)
    ensures a % 97 == b % 97 <==> (a - b) % 97 == 0
  {}

  /** Reducing before scaling by `k` and adding `v` changes nothing. */
  lemma ReduceFirst(a: int, k: int, v: int)
    ensures (a % 97 * k + v) % 97 == (a * k + v) % 97
  {
    var q := a / 97;
    assert a == 97 * q + a % 97;
    assert a * k == 97 * (q * k) + a % 97 * k;
    AddMultiple(a % 97 * k + v, q * k);
  }

  lemma ReduceTwice(r: int, k: int, x: int, l: int, y: int)
    ensures ((r * k + x) % 97 * l + y) % 97 == ((r * k + x) * l + y) % 97
  {
    ReduceFirst(r * k + x, l, y);
  }

  /** If `k` has inverse `inv` modulo 97, `k * x` vanishes only with `x`. */
  lemma Cancel(k: int, inv: int, c: int, x: int)
    requires k * inv == 97 * c + 1 && (k * x) % 97 == 0
    ensures x % 97 == 0
  {
    var t := k * x / 97;
    assert k * x == 97 * t;
    assert inv * (k * x) == (k * inv) * x;
    assert inv * (97 * t) == 97 * (inv * t);
    assert (97 * c + 1) * x == 97 * (c * x) + x;
    assert x == 97 * (inv * t - c * x);
  }

  // ---------------------------------------------------------------- the fold

  function FoldStep(rem: nat, b: byte): nat
    requires InClass(b, Alphanumeric)
  {
    if IsDigit(b) then (rem * 10 + (b - 48)) % 97 else (rem * 100 + LetterValue(b)) % 97
  }

  function Fold(rem: nat, bytes: seq<byte>): nat
    requires AllAlphanumeric(bytes)
  {
    if bytes == [] then rem
    else FoldStep(Fold(rem, bytes[..|bytes| - 1]), bytes[|bytes| - 1])
  }

  /** The number a digit sequence writes in base ten. */
  function Numeral(digits: seq<nat>): nat {
    if digits == [] then 0 else Numeral(digits[..|digits| - 1]) * 10 + digits[|digits| - 1]
  }

  lemma NumeralPush(digits: seq<nat>, d: nat)
    ensures Numeral(digits + [d]) == Numeral(digits) * 10 + d
  {
    assert (digits + [d])[..|digits|] == digits;
  }

  lemma NumeralPushPair(digits: seq<nat>, d: nat, e: nat)
    ensures Numeral(digits + [d, e]) == Numeral(digits) * 100 + d * 10 + e
  {
    assert digits + [d, e] == digits + [d] + [e];
    NumeralPush(digits, d);
    NumeralPush(digits + [d], e);
  }

  lemma StepAppends(digits: seq<nat>, b: byte)
    requires InClass(b, Alphanumeric)
    ensures FoldStep(Numeral(digits) % 97, b) == Numeral(digits + ExpandByte(b)) % 97
  {
    if IsDigit(b) {
      NumeralPush(digits, b - 48);
      ReduceFirst(Numeral(digits), 10, b - 48);
    } else {
      var v := LetterValue(b);
      NumeralPushPair(digits, v / 10, v % 10);
      ReduceFirst(Numeral(digits), 100, v);
    }
  }

  /** The per-character fold computes the expanded numeral modulo 97. */
  lemma {:induction false} FoldIsNumeral(bytes: seq<byte>)
    requires AllAlphanumeric(bytes)
    ensures Fold(0, bytes) == Numeral(Expand(bytes)) % 97
  {
    if bytes != [] {
      var n := |bytes| - 1;
      FoldIsNumeral(bytes[..n]);
      StepAppends(Expand(bytes[..n]), bytes[n]);
    }
  }

  method FoldMod97(start: nat, bytes: seq<byte>) returns (rem: nat)
    requires AllAlphanumeric(bytes)
    ensures rem == Fold(start, bytes)
    ensures start == 0 ==> rem == Numeral(Expand(bytes)) % 97
  {
    rem := start;
    for i := 0 to |bytes|
      invariant rem == Fold(start, bytes[..i])
    {
      assert bytes[..i + 1][..i] == bytes[..i];
      if IsDigit(bytes[i]) {
        rem := (rem * 10 + (bytes[i] - 48)) % 97;
      } else {
        rem := (rem * 100 + (bytes[i] - 65 + 10)) % 97;
      }
    }
    assert bytes[..|bytes|] == bytes;
    FoldIsNumeral(bytes);
  }

  function CheckDigits(base: seq<byte>): nat
    requires AllAlphanumeric(base)
  {
    98 - Fold(0, base) * 100 % 97
  }

  method ComputeCheckDigits(base: seq<byte>) returns (check: nat)
    requires AllAlphanumeric(base)
    ensures check == CheckDigits(base)
    ensures 2 <= check <= 98 && (Numeral(Expand(base)) * 100 + check) % 97 == 1
  {
    var rem := FoldMod97(0, base);
    rem := rem * 100 % 97;
    check := 98 - rem;
    CheckPairCompletes(Numeral(Expand(base)), check);
  }

  /** In 02..98 there is exactly one pair that brings the numeral to 1 modulo 97. */
  lemma CheckPairCompletes(numeral: nat, check: nat)
    ensures check == 98 - numeral % 97 * 100 % 97 <==> 2 <= check <= 98 && (numeral * 100 + check) % 97 == 1
  {
    var rem := numeral % 97 * 100 % 97;
    ReduceFirst(numeral, 100, check);
    ReduceFirst(numeral % 97 * 100, 1, check);
    PairFor(rem, check);
  }

  lemma PairFor(rem: nat, check: nat)
    requires rem < 97
    ensures check == 98 - rem <==> 2 <= check <= 98 && (rem + check) % 97 == 1
  {}

  // ---------------------------------------------------------------- validation

  function ExpectedClass(i: nat): CharacterClass {
    if i < BASE_LEN then Alphanumeric else Digit
  }

  function BadClassFrom(c: Candidate, i: nat): (r: Option<Error>)
    requires i <= 20
    ensures r.None? <==> forall j | i <= j < 20 :: InClass(c[j], ExpectedClass(j))
    decreases 20 - i
  {
    if i == 20 then None
    else if !InClass(c[i], ExpectedClass(i)) then Some(InvalidCharacter(c[i] as char, i + 1, ExpectedClass(i)))
    else BadClassFrom(c, i + 1)
  }

  predicate WellFormed(c: Candidate) {
    forall i | 0 <= i < 20 :: InClass(c[i], ExpectedClass(i))
  }

  function CheckPair(c: Candidate): nat
    requires WellFormed(c)
  {
    assert InClass(c[18], ExpectedClass(18)) && InClass(c[19], ExpectedClass(19));
    (c[18] - 48) * 10 + (c[19] - 48)
  }

  function Validate(c: Candidate): Result<Candidate, Error> {
    var bad := BadClassFrom(c, 0);
    if bad.Some? then Err(bad.value)
    else
      WellFormedIsAlphanumeric(c);
      var expected := CheckDigits(c[..BASE_LEN]);
      if expected != CheckPair(c) then Err(InvalidCheckDigits(expected, CheckPair(c))) else Ok(c)
  }

  lemma WellFormedIsAlphanumeric(c: Candidate)
    requires WellFormed(c)
    ensures AllAlphanumeric(c) && AllAlphanumeric(c[..BASE_LEN])
  {
    forall i | 0 <= i < 20 ensures InClass(c[i], Alphanumeric) {
      assert InClass(c[i], ExpectedClass(i));
    }
  }

  ghost predicate Valid(c: Candidate) {
    Validate(c).Ok?
  }

  /** The check pair contributes its own value to the numeral. */
  lemma NumeralOfWhole(c: Candidate)
    requires WellFormed(c) && AllAlphanumeric(c) && AllAlphanumeric(c[..BASE_LEN])
    ensures Numeral(Expand(c)) == Numeral(Expand(c[..BASE_LEN])) * 100 + CheckPair(c)
  {
    assert InClass(c[18], ExpectedClass(18)) && InClass(c[19], ExpectedClass(19));
    assert c[..19][..18] == c[..18] && c[..20][..19] == c[..19] && c[..20] == c;
    assert Expand(c) == Expand(c[..18]) + [c[18] - 48] + [c[19] - 48];
    NumeralPushPair(Expand(c[..18]), c[18] - 48, c[19] - 48);
    assert Expand(c) == Expand(c[..18]) + [c[18] - 48, c[19] - 48];
  }

  /** Acceptance: numeral 1 modulo 97, and a check pair that is not one of the reserved 00, 01, 99. */
  lemma AcceptedIff(c: Candidate)
    requires WellFormed(c) && AllAlphanumeric(c)
    ensures Valid(c) <==> Numeral(Expand(c)) % 97 == 1 && 2 <= CheckPair(c) <= 98
  {
    WellFormedIsAlphanumeric(c);
    FoldIsNumeral(c[..BASE_LEN]);
    NumeralOfWhole(c);
    CheckPairCompletes(Numeral(Expand(c[..BASE_LEN])), CheckPair(c));
  }

  /** The number that the characters write, letters as two digits 10 to 35. */
  function CodeNumber(bytes: seq<byte>): int {
    if bytes == [] then 0
    else
      var n := |bytes| - 1;
      if bytes[n] <= 57 then CodeNumber(bytes[..n]) * 10 + (bytes[n] as int - 48)
      else CodeNumber(bytes[..n]) * 100 + (bytes[n] as int - 55)
  }

  lemma NumeralOfDigit(digits: seq<nat>, b: byte)
    requires 48 <= b <= 57
    ensures Numeral(digits + [b - 48]) == Numeral(digits) * 10 + (b as int - 48)
  {
    NumeralPush(digits, b - 48);
  }

  lemma NumeralOfLetter(digits: seq<nat>, b: byte)
    requires 65 <= b <= 90
    ensures Numeral(digits + [(b - 55) / 10, (b - 55) % 10]) == Numeral(digits) * 100 + (b as int - 55)
  {
    var v := b - 55;
    NumeralPushPair(digits, v / 10, v % 10);
    assert v == v / 10 * 10 + v % 10;
  }

  lemma CodeNumberPush(bytes: seq<byte>, b: byte)
    ensures CodeNumber(bytes + [b])
         == if b <= 57 then CodeNumber(bytes) * 10 + (b as int - 48) else CodeNumber(bytes) * 100 + (b as int - 55)
  {
    assert (bytes + [b])[..|bytes|] == bytes;
  }

  lemma DigitNext(bytes: seq<byte>, b: byte)
    requires AllAlphanumeric(bytes) && 48 <= b <= 57 && CodeNumber(bytes) == Numeral(Expand(bytes))
    ensures AllAlphanumeric(bytes + [b]) && CodeNumber(bytes + [b]) == Numeral(Expand(bytes + [b]))
  {
    CodeNumberPush(bytes, b);
    ExpandMeans(bytes, b);
    NumeralOfDigit(Expand(bytes), b);
  }

  lemma LetterNext(bytes: seq<byte>, b: byte)
    requires AllAlphanumeric(bytes) && 65 <= b <= 90 && CodeNumber(bytes) == Numeral(Expand(bytes))
    ensures AllAlphanumeric(bytes + [b]) && CodeNumber(bytes + [b]) == Numeral(Expand(bytes + [b]))
  {
    CodeNumberPush(bytes, b);
    ExpandMeans(bytes, b);
    NumeralOfLetter(Expand(bytes), b);
  }

  lemma {:induction false} CodeNumberIsNumeral(bytes: seq<byte>)
    requires AllAlphanumeric(bytes)
    ensures CodeNumber(bytes) == Numeral(Expand(bytes))
  {
    if bytes != [] {
      var n := |bytes| - 1;
      var front, b := bytes[..n], bytes[n];
      CodeNumberIsNumeral(front);
      if b <= 57 {
        DigitNext(front, b);
      } else {
        LetterNext(front, b);
      }
      assert bytes == front + [b];
    }
  }

  /** Eighteen digits or capitals, two digits. */
  predicate Shaped(c: Candidate) {
    && (forall i | 0 <= i < 18 :: 48 <= c[i] <= 57 || 65 <= c[i] <= 90)
    && (forall i | 18 <= i < 20 :: 48 <= c[i] <= 57)
  }

  lemma ShapedIff(c: Candidate)
    ensures Shaped(c) <==> WellFormed(c)
  {
    if WellFormed(c) {
      assert forall i | 0 <= i < 20 :: InClass(c[i], ExpectedClass(i));
    }
  }

  /** Acceptance from the characters' codes alone. */
  lemma AcceptedMeans(c: Candidate)
    ensures Valid(c) <==>
            && (forall i | 0 <= i < 18 :: 48 <= c[i] <= 57 || 65 <= c[i] <= 90)
            && (forall i | 18 <= i < 20 :: 48 <= c[i] <= 57)
            && CodeNumber(c) % 97 == 1
            && 2 <= (c[18] - 48) * 10 + (c[19] - 48) <= 98
  {
    ShapedIff(c);
    if Shaped(c) {
      WellFormedIsAlphanumeric(c);
      AcceptedIff(c);
      CodeNumberIsNumeral(c);
    }
  }

  lemma {:induction false} FirstBad(c: Candidate, i: nat) returns (p: nat)
    requires i <= 20 && BadClassFrom(c, i).Some?
    ensures i <= p < 20 && !InClass(c[p], ExpectedClass(p)) && forall j | i <= j < p :: InClass(c[j], ExpectedClass(j))
    ensures BadClassFrom(c, i) == Some(InvalidCharacter(c[p] as char, p + 1, ExpectedClass(p)))
    decreases 20 - i
  {
    p := i;
    if InClass(c[i], ExpectedClass(i)) {
      p := FirstBad(c, i + 1);
    }
  }

  /** The reason given: the first character out of place, or the pair that is there and the one that belongs there. */
  lemma RejectionReason(c: Candidate)
    requires Validate(c).Err?
    ensures match Validate(c).error
            case InvalidCharacter(ch, position, cls) =>
              && 1 <= position <= 20 && ch == c[position - 1] as char
              && cls == (if position <= 18 then Alphanumeric else Digit)
              && !(48 <= c[position - 1] <= 57) && (position <= 18 ==> !(65 <= c[position - 1] <= 90))
              && forall j | 0 <= j < position - 1 :: 48 <= c[j] <= 57 || (j < 18 && 65 <= c[j] <= 90)
            case InvalidCheckDigits(expected, found) =>
              && Shaped(c)
              && found == (c[18] - 48) * 10 + (c[19] - 48) && found != expected
              && 2 <= expected <= 98 && (CodeNumber(c[..18]) * 100 + expected) % 97 == 1
  {
    ShapedIff(c);
    if BadClassFrom(c, 0).Some? {
      var p := FirstBad(c, 0);
    } else {
      WellFormedIsAlphanumeric(c);
      FoldIsNumeral(c[..BASE_LEN]);
      CodeNumberIsNumeral(c[..BASE_LEN]);
      CheckPairCompletes(Numeral(Expand(c[..BASE_LEN])), CheckDigits(c[..BASE_LEN]));
    }
  }

  /** The alphabet of generated codes: the ten digits, then the twenty-six capitals. */
  lemma AlphabetMeans(i: nat)
    requires i < 36
    ensures |ALPHANUMERIC| == 36 && ALPHANUMERIC[i] == if i < 10 then 48 + i else 55 + i
  {}

  method BuildValidLeiBytes(baseIndices: seq<nat>) returns (bytes: Candidate)
    requires |baseIndices| == BASE_LEN
    requires forall i | 0 <= i < BASE_LEN :: baseIndices[i] < |ALPHANUMERIC|
    ensures Valid(bytes)
    ensures forall i | 0 <= i < BASE_LEN :: bytes[i] == ALPHANUMERIC[baseIndices[i]]
  {
    var base := new byte[BASE_LEN](_ => 0);
    for i := 0 to BASE_LEN
      invariant forall j | 0 <= j < i :: base[j] == ALPHANUMERIC[baseIndices[j]]
    {
      base[i] := ALPHANUMERIC[baseIndices[i]];
    }
    AlphabetIsAlphanumeric();
    var check := ComputeCheckDigits(base[..]);
    bytes := base[..] + [48 + check / 10, 48 + check % 10];
    assert bytes[..BASE_LEN] == base[..];
    assert WellFormed(bytes);
  }

  lemma AlphabetIsAlphanumeric()
    ensures AllAlphanumeric(ALPHANUMERIC)
  {}

  // ---------------------------------------------------------------- error detection

  lemma {:induction false} FoldConcat(rem: nat, a: seq<byte>, b: seq<byte>)
    requires AllAlphanumeric(a) && AllAlphanumeric(b)
    ensures Fold(rem, a + b) == Fold(Fold(rem, a), b)
  {
    if b == [] {
      assert a + b == a;
    } else {
      var n := |b| - 1;
      assert (a + b)[..|a + b| - 1] == a + b[..n];
      FoldConcat(rem, a, b[..n]);
    }
  }

  /** 97 is prime to 10 and 100, so a step never merges two residues. */
  lemma StepIsInjective(r: nat, s: nat, b: byte)
    requires r < 97 && s < 97 && InClass(b, Alphanumeric) && FoldStep(r, b) == FoldStep(s, b)
    ensures r == s
  {
    if IsDigit(b) {
      CongruentIff(r * 10 + (b - 48), s * 10 + (b - 48));
      Cancel(10, 68, 7, r - s);
    } else {
      CongruentIff(r * 100 + LetterValue(b), s * 100 + LetterValue(b));
      Cancel(100, 65, 67, r - s);
    }
    SmallMultiple(r - s);
  }

  lemma SmallMultiple(x: int)
    requires -97 < x < 97 && x % 97 == 0
    ensures x == 0
  {}

  lemma FoldBound(rem: nat, bytes: seq<byte>)
    requires rem < 97 && AllAlphanumeric(bytes)
    ensures Fold(rem, bytes) < 97
  {}

  lemma {:induction false} FoldIsInjective(r: nat, s: nat, bytes: seq<byte>)
    requires r < 97 && s < 97 && AllAlphanumeric(bytes) && Fold(r, bytes) == Fold(s, bytes)
    ensures r == s
  {
    if bytes != [] {
      var n := |bytes| - 1;
      FoldBound(r, bytes[..n]);
      FoldBound(s, bytes[..n]);
      StepIsInjective(Fold(r, bytes[..n]), Fold(s, bytes[..n]), bytes[n]);
      FoldIsInjective(r, s, bytes[..n]);
    }
  }

  predicate SameClass(a: byte, b: byte) {
    (IsDigit(a) && IsDigit(b)) || (IsUpper(a) && IsUpper(b))
  }

  lemma DifferentSteps(r: nat, a: byte, b: byte)
    requires r < 97 && SameClass(a, b) && a != b
    ensures FoldStep(r, a) != FoldStep(r, b)
  {
    if FoldStep(r, a) == FoldStep(r, b) {
      if IsDigit(a) {
        CongruentIff(r * 10 + (a - 48), r * 10 + (b - 48));
      } else {
        CongruentIff(r * 100 + LetterValue(a), r * 100 + LetterValue(b));
      }
      SmallMultiple(a - b);
    }
  }

  /** Residue of the whole code, split around the characters `mid`. */
  lemma ResidueAround(pre: seq<byte>, mid: seq<byte>, post: seq<byte>)
    requires AllAlphanumeric(pre) && AllAlphanumeric(mid) && AllAlphanumeric(post)
    ensures AllAlphanumeric(pre + mid + post)
    ensures Numeral(Expand(pre + mid + post)) % 97 == Fold(Fold(Fold(0, pre), mid), post)
  {
    FoldIsNumeral(pre + mid + post);
    FoldConcat(0, pre + mid, post);
    FoldConcat(0, pre, mid);
  }

  /** Changing one stretch of a code moves the residue unless the stretch folds to the same value. */
  lemma ResidueMoves(pre: seq<byte>, mid: seq<byte>, mid': seq<byte>, post: seq<byte>)
    requires AllAlphanumeric(pre) && AllAlphanumeric(mid) && AllAlphanumeric(mid') && AllAlphanumeric(post)
    ensures AllAlphanumeric(pre + mid + post) && AllAlphanumeric(pre + mid' + post)
    ensures Numeral(Expand(pre + mid + post)) % 97 == Numeral(Expand(pre + mid' + post)) % 97
            <==> Fold(Fold(0, pre), mid) == Fold(Fold(0, pre), mid')
  {
    ResidueAround(pre, mid, post);
    ResidueAround(pre, mid', post);
    FoldBound(0, pre);
    FoldBound(Fold(0, pre), mid);
    FoldBound(Fold(0, pre), mid');
    if Fold(Fold(Fold(0, pre), mid), post) == Fold(Fold(Fold(0, pre), mid'), post) {
      FoldIsInjective(Fold(Fold(0, pre), mid), Fold(Fold(0, pre), mid'), post);
    }
  }

  lemma FoldOne(rem: nat, b: byte)
    requires InClass(b, Alphanumeric)
    ensures Fold(rem, [b]) == FoldStep(rem, b)
  {
    assert [b][..0] == [];
  }

  lemma FoldTwo(rem: nat, a: byte, b: byte)
    requires InClass(a, Alphanumeric) && InClass(b, Alphanumeric)
    ensures Fold(rem, [a, b]) == FoldStep(FoldStep(rem, a), b)
  {
    assert [a, b][..1] == [a];
    FoldOne(rem, a);
  }

  lemma SubstitutionMovesResidue(c: Candidate, p: nat, b: byte)
    requires p < 20 && AllAlphanumeric(c) && AllAlphanumeric(c[p := b]) && SameClass(c[p], b) && b != c[p]
    ensures Numeral(Expand(c)) % 97 != Numeral(Expand(c[p := b])) % 97
  {
    var pre, post := c[..p], c[p + 1..];
    assert c == pre + [c[p]] + post && c[p := b] == pre + [b] + post;
    ResidueMoves(pre, [c[p]], [b], post);
    FoldBound(0, pre);
    FoldOne(Fold(0, pre), c[p]);
    FoldOne(Fold(0, pre), b);
    DifferentSteps(Fold(0, pre), c[p], b);
  }

  /** Every same-class substitution in a valid LEI is rejected, check pair included. */
  lemma SubstitutionIsRejected(c: Candidate, p: nat, b: byte)
    requires Valid(c) && p < 20 && b != c[p]
    requires (48 <= c[p] <= 57 && 48 <= b <= 57) || (65 <= c[p] <= 90 && 65 <= b <= 90)
    ensures !Valid(c[p := b])
  {
    if Valid(c[p := b]) {
      WellFormedIsAlphanumeric(c);
      AcceptedIff(c);
      WellFormedIsAlphanumeric(c[p := b]);
      AcceptedIff(c[p := b]);
      SubstitutionMovesResidue(c, p, b);
    }
  }

  /** A digit and a letter whose expansions read the same in either order: 1B, 2M and 3X. */
  predicate Twins(a: byte, b: byte) {
    || (a == 49 && b == 66) || (a == 66 && b == 49)
    || (a == 50 && b == 77) || (a == 77 && b == 50)
    || (a == 51 && b == 88) || (a == 88 && b == 51)
  }

  lemma SwapOfDigits(r: nat, x: nat, y: nat)
    requires x <= 9 && y <= 9
    requires ((r * 10 + x) % 97 * 10 + y) % 97 == ((r * 10 + y) % 97 * 10 + x) % 97
    ensures x == y
  {
    ReduceTwice(r, 10, x, 10, y);
    ReduceTwice(r, 10, y, 10, x);
    CongruentIff((r * 10 + x) * 10 + y, (r * 10 + y) * 10 + x);
    Cancel(9, 54, 5, x - y);
    SmallMultiple(x - y);
  }

  lemma SwapOfLetters(r: nat, x: nat, y: nat)
    requires 10 <= x <= 35 && 10 <= y <= 35
    requires ((r * 100 + x) % 97 * 100 + y) % 97 == ((r * 100 + y) % 97 * 100 + x) % 97
    ensures x == y
  {
    ReduceTwice(r, 100, x, 100, y);
    ReduceTwice(r, 100, y, 100, x);
    CongruentIff((r * 100 + x) * 100 + y, (r * 100 + y) * 100 + x);
    Cancel(99, 49, 50, x - y);
    SmallMultiple(x - y);
  }

  lemma SwapOfMixed(r: nat, d: nat, v: nat)
    requires d <= 9 && 10 <= v <= 35
    ensures ((r * 10 + d) % 97 * 100 + v) % 97 == ((r * 100 + v) % 97 * 10 + d) % 97 <==> v == 11 * d
  {
    ReduceTwice(r, 10, d, 100, v);
    ReduceTwice(r, 100, v, 10, d);
    CongruentIff((r * 10 + d) * 100 + v, (r * 100 + v) * 10 + d);
    if (9 * (11 * d - v)) % 97 == 0 {
      Cancel(9, 54, 5, 11 * d - v);
      SmallMultiple(11 * d - v);
    }
  }

  lemma SwapSteps(r: nat, a: byte, b: byte)
    requires r < 97 && InClass(a, Alphanumeric) && InClass(b, Alphanumeric) && a != b
    ensures FoldStep(FoldStep(r, a), b) == FoldStep(FoldStep(r, b), a) <==> Twins(a, b)
  {
    if IsDigit(a) && IsDigit(b) {
      SwapStepsOfDigits(r, a, b);
    } else if IsDigit(a) {
      SwapOfMixed(r, a - 48, LetterValue(b));
    } else if IsDigit(b) {
      SwapOfMixed(r, b - 48, LetterValue(a));
    } else {
      SwapStepsOfLetters(r, a, b);
    }
  }

  lemma SwapStepsOfDigits(r: nat, a: byte, b: byte)
    requires IsDigit(a) && IsDigit(b) && a != b
    ensures FoldStep(FoldStep(r, a), b) != FoldStep(FoldStep(r, b), a)
  {
    if FoldStep(FoldStep(r, a), b) == FoldStep(FoldStep(r, b), a) {
      SwapOfDigits(r, a - 48, b - 48);
    }
  }

  lemma SwapStepsOfLetters(r: nat, a: byte, b: byte)
    requires IsUpper(a) && IsUpper(b) && a != b
    ensures FoldStep(FoldStep(r, a), b) != FoldStep(FoldStep(r, b), a)
  {
    if FoldStep(FoldStep(r, a), b) == FoldStep(FoldStep(r, b), a) {
      SwapOfLetters(r, LetterValue(a), LetterValue(b));
    }
  }

  lemma SwapFold(r: nat, a: byte, b: byte)
    requires r < 97 && InClass(a, Alphanumeric) && InClass(b, Alphanumeric) && a != b
    ensures Fold(r, [a, b]) == Fold(r, [b, a]) <==> Twins(a, b)
  {
    FoldTwo(r, a, b);
    FoldTwo(r, b, a);
    SwapSteps(r, a, b);
  }

  function Swapped(c: Candidate, p: nat): Candidate
    requires p < 19
  {
    c[p := c[p + 1]][p + 1 := c[p]]
  }

  lemma SwapMovesResidue(c: Candidate, p: nat)
    requires p < 19 && c[p] != c[p + 1] && AllAlphanumeric(c) && AllAlphanumeric(Swapped(c, p))
    ensures Numeral(Expand(c)) % 97 == Numeral(Expand(Swapped(c, p))) % 97 <==> Twins(c[p], c[p + 1])
  {
    var a, b := c[p], c[p + 1];
    var pre, post := c[..p], c[p + 2..];
    assert c == pre + [a, b] + post && Swapped(c, p) == pre + [b, a] + post;
    ResidueMoves(pre, [a, b], [b, a], post);
    FoldBound(0, pre);
    SwapFold(Fold(0, pre), a, b);
  }

  lemma SwapInBase(c: Candidate, p: nat)
    requires WellFormed(c) && p + 1 < BASE_LEN
    ensures WellFormed(Swapped(c, p)) && CheckPair(Swapped(c, p)) == CheckPair(c)
  {
    var d := Swapped(c, p);
    forall i | 0 <= i < 20 ensures InClass(d[i], ExpectedClass(i)) {
      assert InClass(c[i], ExpectedClass(i));
      assert InClass(c[p], ExpectedClass(p)) && InClass(c[p + 1], ExpectedClass(p + 1));
    }
  }

  /** A swap that reaches the check pair and stays well-formed exchanges two digits. */
  lemma SwapInCheckPair(c: Candidate, p: nat)
    requires p < 19 && BASE_LEN <= p + 1 && WellFormed(c) && WellFormed(Swapped(c, p))
    ensures !Twins(c[p], c[p + 1])
  {
    assert InClass(c[p + 1], ExpectedClass(p + 1));
    assert InClass(Swapped(c, p)[p + 1], ExpectedClass(p + 1));
  }

  /**
   Adjacent transpositions, exactly: swapping two unequal neighbours of a valid LEI is accepted if
   and only if both are in the base and they are one of the three twin pairs.
   */
  lemma AdjacentTransposition(c: Candidate, p: nat)
    requires Valid(c) && p < 19 && c[p] != c[p + 1]
    ensures Valid(Swapped(c, p)) <==> p + 1 < BASE_LEN && Twins(c[p], c[p + 1])
  {
    var d := Swapped(c, p);
    WellFormedIsAlphanumeric(c);
    AcceptedIff(c);
    if p + 1 < BASE_LEN {
      SwapInBase(c, p);
    }
    if WellFormed(d) {
      WellFormedIsAlphanumeric(d);
      AcceptedIff(d);
      SwapMovesResidue(c, p);
      if BASE_LEN <= p + 1 {
        SwapInCheckPair(c, p);
      }
    }
  }

  /** Every base has a valid code. */
  lemma CompletedBase(base: seq<byte>) returns (c: Candidate)
    requires |base| == BASE_LEN && AllAlphanumeric(base)
    ensures Valid(c) && c[..BASE_LEN] == base
  {
    var check := CheckDigits(base);
    FoldIsNumeral(base);
    CheckPairCompletes(Numeral(Expand(base)), check);
    c := base + [48 + check / 10, 48 + check % 10];
    assert c[..BASE_LEN] == base;
    assert WellFormed(c);
  }

  /** The exception is real: each twin pair, anywhere in the base, occurs in a valid LEI whose swap is valid too. */
  lemma UndetectedTransposition(a: byte, b: byte, p: nat)
    requires Twins(a, b) && p + 1 < BASE_LEN
    ensures exists c: Candidate :: Valid(c) && c[p] == a && c[p + 1] == b && Valid(Swapped(c, p))
  {
    var zeros: seq<byte> := seq(BASE_LEN, _ => 48);
    var base := zeros[p := a][p + 1 := b];
    assert AllAlphanumeric(base);
    var c := CompletedBase(base);
    assert c[p] == c[..BASE_LEN][p] && c[p + 1] == c[..BASE_LEN][p + 1];
    AdjacentTransposition(c, p);
  }
}
