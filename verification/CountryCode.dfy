/** The ISO 3166-1 assignment bitmap and the plain code list behind it. */
module CountryCode {
  import opened Ascii
  import opened Bits

  const COMBINATIONS: nat := 26 * 26
  const WORDS: nat := 11

  datatype Code = Code(first: byte, second: byte)

  predicate Letters(code: Code) {
    IsUpper(code.first) && IsUpper(code.second)
  }

  function BitIndex(code: Code): (index: nat)
    requires Letters(code)
    ensures index < 676 && index / 64 < 11
    ensures index < COMBINATIONS && index / 64 < WORDS
  {
    (code.first - 65) * 26 + (code.second - 65)
  }

  lemma BitIndexIsInjective(a: Code, b: Code)
    requires Letters(a) && Letters(b) && BitIndex(a) == BitIndex(b)
    ensures a == b
  {}

  /** Whether the bit at flat position `index` is set. */
  predicate Assigned(bits: seq<bv64>, index: nat)
    requires |bits| == WORDS && index < COMBINATIONS
  {
    Bit64(bits[index / 64], index % 64)
  }

  predicate IsAssigned(bits: seq<bv64>, candidate: Code)
    requires |bits| == WORDS && Letters(candidate)
  {
    Assigned(bits, BitIndex(candidate))
  }

  function WithIndex(bits: seq<bv64>, index: nat): seq<bv64>
    requires |bits| == WORDS && index < COMBINATIONS
  {
    bits[index / 64 := WithBit64(bits[index / 64], index % 64)]
  }

  lemma SplitIsInjective(i: nat, j: nat)
    ensures i == j <==> i / 64 == j / 64 && i % 64 == j % 64
  {}

  lemma AddedCode(bits: seq<bv64>, added: Code, c: Code)
    requires |bits| == WORDS && Letters(added) && Letters(c)
    ensures IsAssigned(WithIndex(bits, BitIndex(added)), c) <==> c == added || IsAssigned(bits, c)
  {
    var i, j := BitIndex(added), BitIndex(c);
    SetBitAt64(bits, i / 64, i % 64, j / 64, j % 64);
    SplitIsInjective(i, j);
    if i == j {
      BitIndexIsInjective(added, c);
    }
  }

  /** The bitmap holds exactly the listed letter pairs. */
  ghost predicate Represents(bits: seq<bv64>, codes: seq<Code>) {
    |bits| == WORDS && forall c: Code | Letters(c) :: IsAssigned(bits, c) <==> c in codes
  }

  lemma AddedToAll(bits: seq<bv64>, codes: seq<Code>, added: Code)
    requires Represents(bits, codes) && Letters(added)
    ensures Represents(WithIndex(bits, BitIndex(added)), codes + [added])
  {
    forall c: Code | Letters(c)
      ensures IsAssigned(WithIndex(bits, BitIndex(added)), c) <==> c in codes + [added]
    {
      AddedCode(bits, added, c);
    }
  }

  lemma EmptyBitmap(bits: seq<bv64>)
    requires |bits| == WORDS && forall i | 0 <= i < WORDS :: bits[i] == 0
    ensures Represents(bits, [])
  {
    forall c: Code | Letters(c) ensures !IsAssigned(bits, c) {
      NoBit64(BitIndex(c) % 64);
    }
  }

  /** The bitmap of a list of letter pairs holds exactly the listed pairs. */
  method BuildBitmap(codes: seq<Code>) returns (bitmap: seq<bv64>)
    requires forall i | 0 <= i < |codes| :: Letters(codes[i])
    ensures |bitmap| == 11
    ensures forall c: Code | Letters(c) :: IsAssigned(bitmap, c) <==> c in codes
  {
    var bits := new bv64[WORDS](_ => 0);
    EmptyBitmap(bits[..]);
    var i := 0;
    while i < |codes|
      invariant 0 <= i <= |codes|
      invariant Represents(bits[..], codes[..i])
    {
      var index := BitIndex(codes[i]);
      AddedToAll(bits[..], codes[..i], codes[i]);
      assert codes[..i + 1] == codes[..i] + [codes[i]];
      ghost var after := WithIndex(bits[..], index);
      bits[index / 64] := WithBit64(bits[index / 64], index % 64);
      assert bits[..] == after;
      i := i + 1;
    }
    assert codes[..|codes|] == codes;
    bitmap := bits[..];
  }

  predicate Before(a: Code, b: Code) {
    a.first < b.first || (a.first == b.first && a.second < b.second)
  }

  /** What the compile-time check demands: letters only, and any two entries in listing order. */
  predicate ValidTable(codes: seq<Code>) {
    && (forall i | 0 <= i < |codes| :: Letters(codes[i]))
    && (forall i, j | 0 <= i < j < |codes| :: Before(codes[i], codes[j]))
  }

  /** Comparing neighbours only is enough to order, and so to tell apart, all entries. */
  method CheckTable(codes: seq<Code>) returns (ok: bool)
    ensures ok <==> ValidTable(codes)
    ensures ok <==>
            && (forall i | 0 <= i < |codes| :: 65 <= codes[i].first <= 90 && 65 <= codes[i].second <= 90)
            && (forall i, j | 0 <= i < j < |codes| ::
                  codes[i].first < codes[j].first
                  || (codes[i].first == codes[j].first && codes[i].second < codes[j].second))
  {
    var i := 0;
    while i < |codes|
      invariant 0 <= i <= |codes|
      invariant ValidTable(codes[..i])
    {
      if !Letters(codes[i]) {
        return false;
      }
      if i > 0 && !Before(codes[i - 1], codes[i]) {
        return false;
      }
      assert codes[..i + 1] == codes[..i] + [codes[i]];
      forall j | 0 <= j < i
        ensures Before(codes[j], codes[i])
      {
        if j < i - 1 {
          assert Before(codes[..i][j], codes[..i][i - 1]);
        }
      }
      i := i + 1;
    }
    assert codes[..|codes|] == codes;
    return true;
  }
}
