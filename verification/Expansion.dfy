/** The decimal expansion of alphanumeric codes: digits stand for themselves, A = 10 ... Z = 35. */
module Expansion {
  import opened Ascii

  function LetterValue(b: byte): nat
    requires IsUpper(b)
  {
    b - 65 + 10
  }

  function ExpandByte(b: byte): (digits: seq<nat>)
    requires InClass(b, Alphanumeric)
    ensures forall i | 0 <= i < |digits| :: digits[i] <= 9
  {
    if IsDigit(b) then [b - 48] else [LetterValue(b) / 10, LetterValue(b) % 10]
  }

  predicate AllAlphanumeric(bytes: seq<byte>) {
    forall i | 0 <= i < |bytes| :: InClass(bytes[i], Alphanumeric)
  }

  function Expand(bytes: seq<byte>): (digits: seq<nat>)
    requires AllAlphanumeric(bytes)
    ensures forall i | 0 <= i < |digits| :: digits[i] <= 9
  {
    if bytes == [] then []
    else Expand(bytes[..|bytes| - 1]) + ExpandByte(bytes[|bytes| - 1])
  }

  lemma {:induction false} ExpandConcat(a: seq<byte>, b: seq<byte>)
    requires AllAlphanumeric(a) && AllAlphanumeric(b)
    ensures AllAlphanumeric(a + b)
    ensures Expand(a + b) == Expand(a) + Expand(b)
  {
    if b == [] {
      assert a + b == a;
    } else {
      var n := |b| - 1;
      assert (a + b)[..|a + b| - 1] == a + b[..n];
      ExpandConcat(a, b[..n]);
    }
  }

  lemma ExpandOne(b: byte)
    requires InClass(b, Alphanumeric)
    ensures Expand([b]) == ExpandByte(b)
  {
    assert [b][..0] == [];
  }

  /** What the expansion is, character by character: 0 to 9 stay, A to Z become the digits of 10 to 35. */
  lemma ExpandMeans(bytes: seq<byte>, b: byte)
    requires AllAlphanumeric(bytes) && (48 <= b <= 57 || 65 <= b <= 90)
    ensures AllAlphanumeric(bytes + [b])
    ensures Expand([]) == []
    ensures Expand(bytes + [b]) == Expand(bytes) + if b <= 57 then [b - 48] else [(b - 55) / 10, (b - 55) % 10]
  {
    assert (bytes + [b])[..|bytes|] == bytes;
  }
}
