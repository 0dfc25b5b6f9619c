/** Bit tests and bit setting on the machine words the compiled tables use. */
module Bits {

  predicate Bit64(w: bv64, k: nat)
    requires k < 64
  {
    (w >> (k as bv6)) & 1 == 1
  }

  predicate Bit32(w: bv32, k: nat)
    requires k < 32
  {
    (w >> (k as bv5)) & 1 == 1
  }

  /** `w |= 1 << k`. */
  function WithBit64(w: bv64, k: nat): bv64
    requires k < 64
  {
    w | (1 << (k as bv6))
  }

  function WithBit32(w: bv32, k: nat): bv32
    requires k < 32
  {
    w | (1 << (k as bv5))
  }

  lemma OrShifted64(w: bv64, a: bv6, b: bv6)
    ensures ((w | (1 << a)) >> b) & 1 == if a == b then 1 else (w >> b) & 1
  {}

  lemma OrShifted32(w: bv32, a: bv5, b: bv5)
    ensures ((w | (1 << a)) >> b) & 1 == if a == b then 1 else (w >> b) & 1
  {}

  lemma IndexFits6(a: nat)
    requires a < 64
    ensures (a as bv6) as nat == a
  {}

  lemma IndexFits5(a: nat)
    requires a < 32
    ensures (a as bv5) as nat == a
  {}

  /** Setting bit `a` sets that bit and no other. */
  lemma SetBit64(w: bv64, a: nat, b: nat)
    requires a < 64 && b < 64
    ensures Bit64(WithBit64(w, a), b) <==> a == b || Bit64(w, b)
  {
    OrShifted64(w, a as bv6, b as bv6);
    IndexFits6(a);
    IndexFits6(b);
  }

  lemma SetBit32(w: bv32, a: nat, b: nat)
    requires a < 32 && b < 32
    ensures Bit32(WithBit32(w, a), b) <==> a == b || Bit32(w, b)
  {
    OrShifted32(w, a as bv5, b as bv5);
    IndexFits5(a);
    IndexFits5(b);
  }

  /** The same, for one word of a sequence of words. */
  lemma SetBitAt64(words: seq<bv64>, w: nat, k: nat, v: nat, l: nat)
    requires w < |words| && v < |words| && k < 64 && l < 64
    ensures Bit64(words[w := WithBit64(words[w], k)][v], l) <==> (w == v && k == l) || Bit64(words[v], l)
  {
    if w == v {
      SetBit64(words[w], k, l);
    }
  }

  lemma NoBit64(k: nat)
    requires k < 64
    ensures !Bit64(0, k)
  {}

  lemma NoBit32(k: nat)
    requires k < 32
    ensures !Bit32(0, k)
  {}
}
