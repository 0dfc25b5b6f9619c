/** Identifiers are stored as blobs of sixteen bytes, and SQL orders blobs bytewise. */
module Blobs {
  import opened Ascii
  import opened Schema

  function BigEndian(blob: seq<byte>): nat {
    if blob == [] then 0
    else
      var n := |blob| - 1;
      256 * BigEndian(blob[..n]) + blob[n]
  }

  /** How many blobs of `k` bytes there are. */
  function Span(k: nat): (n: nat)
    ensures n >= 1
  {
    if k == 0 then 1 else 256 * Span(k - 1)
  }

  /** The blobs agree up to byte `i`, and there the first one is smaller. */
  predicate SmallerAt(a: seq<byte>, b: seq<byte>, i: nat)
    requires |a| == |b|
  {
    i < |a| && a[..i] == b[..i] && a[i] < b[i]
  }

  /** Blobs of one length compare by the first byte in which they differ. */
  predicate Precedes(a: seq<byte>, b: seq<byte>)
    requires |a| == |b|
  {
    exists i | 0 <= i < |a| :: SmallerAt(a, b, i)
  }

  lemma SmallerPush(a: seq<byte>, b: seq<byte>, x: byte, y: byte, i: nat)
    requires |a| == |b|
    ensures SmallerAt(a + [x], b + [y], i) <==> if i < |a| then SmallerAt(a, b, i) else i == |a| && a == b && x < y
  {
    var c, d := a + [x], b + [y];
    if i < |a| {
      assert c[..i] == a[..i] && d[..i] == b[..i];
    } else if i == |a| {
      assert c[..i] == a && d[..i] == b;
    }
  }

  /** The first difference lies before the last byte, or the last byte is the only one that differs. */
  lemma PrecedesPush(a: seq<byte>, b: seq<byte>, x: byte, y: byte)
    requires |a| == |b|
    ensures Precedes(a + [x], b + [y]) <==> Precedes(a, b) || (a == b && x < y)
  {
    if i: nat :| SmallerAt(a, b, i) {
      SmallerPush(a, b, x, y, i);
    }
    SmallerPush(a, b, x, y, |a|);
    if i: nat :| SmallerAt(a + [x], b + [y], i) {
      SmallerPush(a, b, x, y, i);
    }
  }

  lemma BigEndianPush(a: seq<byte>, x: byte)
    ensures BigEndian(a + [x]) == 256 * BigEndian(a) + x
  {
    assert (a + [x])[..|a|] == a;
  }

  /** Bytewise order is the order of the big-endian numbers, and different blobs are different numbers. */
  lemma {:induction false} BlobOrder(a: seq<byte>, b: seq<byte>)
    requires |a| == |b|
    ensures Precedes(a, b) <==> BigEndian(a) < BigEndian(b)
    ensures a == b <==> BigEndian(a) == BigEndian(b)
    decreases |a|
  {
    if a != [] {
      var n := |a| - 1;
      var c, d, x, y := a[..n], b[..n], a[n], b[n];
      assert a == c + [x] && b == d + [y];
      BlobOrder(c, d);
      PrecedesPush(c, d, x, y);
    }
  }

  lemma {:induction false} BelowSpan(blob: seq<byte>)
    ensures BigEndian(blob) < Span(|blob|)
  {
    if blob != [] {
      BelowSpan(blob[..|blob| - 1]);
    }
  }

  lemma {:induction false} BlobOf(n: nat, k: nat) returns (blob: seq<byte>)
    requires n < Span(k)
    ensures |blob| == k && BigEndian(blob) == n
  {
    if k == 0 {
      blob := [];
    } else {
      var most := BlobOf(n / 256, k - 1);
      blob := most + [n % 256];
      BigEndianPush(most, n % 256);
    }
  }

  lemma SpanOfSixteen()
    ensures Span(16) == ID_SPACE
  {
    assert Span(4) == 0x1_0000_0000;
    assert Span(8) == 0x1_0000_0000_0000_0000;
    assert Span(12) == 0x1_0000_0000_0000_0000_0000_0000;
  }

  /** The identifiers of the model are the blobs of sixteen bytes, in the order in which SQL compares them. */
  lemma IdsAreBlobs(id: Id, other: Id) returns (blob: seq<byte>, otherBlob: seq<byte>)
    ensures |blob| == |otherBlob| == 16 && BigEndian(blob) == id && BigEndian(otherBlob) == other
    ensures Precedes(blob, otherBlob) <==> id < other
    ensures forall b: seq<byte> | |b| == 16 :: BigEndian(b) < ID_SPACE && (BigEndian(b) == id ==> b == blob)
  {
    SpanOfSixteen();
    blob := BlobOf(id, 16);
    otherBlob := BlobOf(other, 16);
    BlobOrder(blob, otherBlob);
    forall b: seq<byte> | |b| == 16 ensures BigEndian(b) < ID_SPACE && (BigEndian(b) == id ==> b == blob) {
      BelowSpan(b);
      BlobOrder(b, blob);
    }
  }
}
