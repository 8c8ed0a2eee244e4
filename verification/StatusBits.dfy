/** node_status: one bit per inner node, eight to a byte, the lowest bit first. */
module StatusBits {

  predicate ByteBit(x: bv8, r: nat)
    requires r < 8
  {
    (x >> r) & 1 == 1
  }

  function ToggleByte(x: bv8, r: nat): bv8
    requires r < 8
  {
    x ^ (1 << r)
  }

  // The places of the eight bits, the lowest first.
  lemma Masks(x: bv8)
    ensures ByteBit(x, 0) <==> x & 1 != 0
    ensures ByteBit(x, 1) <==> x & 2 != 0
    ensures ByteBit(x, 2) <==> x & 4 != 0
    ensures ByteBit(x, 3) <==> x & 8 != 0
    ensures ByteBit(x, 4) <==> x & 16 != 0
    ensures ByteBit(x, 5) <==> x & 32 != 0
    ensures ByteBit(x, 6) <==> x & 64 != 0
    ensures ByteBit(x, 7) <==> x & 128 != 0
  {
  }

  lemma ZeroByte(r: nat)
    requires r < 8
    ensures !ByteBit(0, r)
  {
  }

  lemma ToggleLow(x: bv8, r: nat, q: nat)
    requires r < 4 && q < 8
    ensures ByteBit(ToggleByte(x, r), q) <==> ByteBit(x, q) != (q == r)
  {
  }

  lemma ToggleHigh(x: bv8, r: nat, q: nat)
    requires 4 <= r < 8 && q < 8
    ensures ByteBit(ToggleByte(x, r), q) <==> ByteBit(x, q) != (q == r)
  {
  }

  predicate Bit(bytes: seq<bv8>, j: nat)
    requires j < 8 * |bytes|
  {
    ByteBit(bytes[j / 8], j % 8)
  }

  function ToggleBit(bytes: seq<bv8>, j: nat): seq<bv8>
    requires j < 8 * |bytes|
  {
    bytes[j / 8 := ToggleByte(bytes[j / 8], j % 8)]
  }

  /** Toggling a packed bit changes that bit and no other, neighbours in the same byte included. */
  lemma ToggleOne(bytes: seq<bv8>, j: nat, k: nat)
    requires j < 8 * |bytes| && k < 8 * |bytes|
    ensures |ToggleBit(bytes, j)| == |bytes|
    ensures Bit(ToggleBit(bytes, j), k) <==> Bit(bytes, k) != (k == j)
  {
    if j / 8 == k / 8 {
      if j % 8 < 4 {
        ToggleLow(bytes[j / 8], j % 8, k % 8);
      } else {
        ToggleHigh(bytes[j / 8], j % 8, k % 8);
      }
    }
    hide ByteBit, ToggleByte;
  }
}
