/** node_status of the second allocator: two bits per node, four nodes to a byte, the first in the highest bits. */
module StatusFields {

  // enum status
  const UNUSED: bv8 := 0
  const SPLIT: bv8 := 1
  const USED: bv8 := 2

  function BitMove(r: nat): nat
    requires r < 4
  {
    (3 - r) * 2
  }

  function ByteField(x: bv8, r: nat): bv8
    requires r < 4
  {
    (x >> BitMove(r)) & 3
  }

  function IncByte(x: bv8, r: nat): bv8
    requires r < 4
  {
    x + (1 << BitMove(r))
  }

  function DecByte(x: bv8, r: nat): bv8
    requires r < 4
  {
    x - (1 << BitMove(r))
  }

  function SetByte(x: bv8, r: nat, status: bv8): bv8
    requires r < 4
  {
    (x & (255 ^ (3 << BitMove(r)))) | (status << BitMove(r))
  }

  // The four fields of a byte, and the byte with one more and one less in each of them.
  lemma Places(x: bv8)
    ensures ByteField(x, 0) == (x >> 6) & 3 && ByteField(x, 1) == (x >> 4) & 3
    ensures ByteField(x, 2) == (x >> 2) & 3 && ByteField(x, 3) == x & 3
    ensures IncByte(x, 0) == x + 64 && IncByte(x, 1) == x + 16 && IncByte(x, 2) == x + 4 && IncByte(x, 3) == x + 1
    ensures DecByte(x, 0) == x - 64 && DecByte(x, 1) == x - 16 && DecByte(x, 2) == x - 4 && DecByte(x, 3) == x - 1
  {
  }

  lemma Add64(x: bv8)
    ensures ((x + 64) >> 6) & 3 == (((x >> 6) & 3) + 1) & 3
    ensures ((x + 64) >> 4) & 3 == (x >> 4) & 3
    ensures ((x + 64) >> 2) & 3 == (x >> 2) & 3
    ensures (x + 64) & 3 == x & 3
  {
  }

  lemma Add16(x: bv8)
    ensures ((x + 16) >> 6) & 3 ==
              if (x >> 4) & 3 == 3 then (((x >> 6) & 3) + 1) & 3 else (x >> 6) & 3
    ensures ((x + 16) >> 4) & 3 == (((x >> 4) & 3) + 1) & 3
    ensures ((x + 16) >> 2) & 3 == (x >> 2) & 3
    ensures (x + 16) & 3 == x & 3
  {
  }

  lemma Add4(x: bv8)
    ensures ((x + 4) >> 6) & 3 ==
              if (x >> 4) & 3 == 3 && (x >> 2) & 3 == 3 then (((x >> 6) & 3) + 1) & 3 else (x >> 6) & 3
    ensures ((x + 4) >> 4) & 3 ==
              if (x >> 2) & 3 == 3 then (((x >> 4) & 3) + 1) & 3 else (x >> 4) & 3
    ensures ((x + 4) >> 2) & 3 == (((x >> 2) & 3) + 1) & 3
    ensures (x + 4) & 3 == x & 3
  {
  }

  lemma Add1(x: bv8)
    ensures ((x + 1) >> 6) & 3 ==
              if (x >> 4) & 3 == 3 && (x >> 2) & 3 == 3 && x & 3 == 3 then (((x >> 6) & 3) + 1) & 3 else (x >> 6) & 3
    ensures ((x + 1) >> 4) & 3 ==
              if (x >> 2) & 3 == 3 && x & 3 == 3 then (((x >> 4) & 3) + 1) & 3 else (x >> 4) & 3
    ensures ((x + 1) >> 2) & 3 ==
              if x & 3 == 3 then (((x >> 2) & 3) + 1) & 3 else (x >> 2) & 3
    ensures (x + 1) & 3 == ((x & 3) + 1) & 3
  {
  }

  lemma IncField(x: bv8, r: nat, q: nat)
    requires r < 4 && q < 4
    ensures ByteField(IncByte(x, r), q) ==
              if q <= r && (forall m :: q < m <= r ==> ByteField(x, m) == 3) then (ByteField(x, q) + 1) & 3
              else ByteField(x, q)
  {
    hide ByteField, IncByte;
    var y := IncByte(x, r);
    Places(x);
    Places(y);
    if r == 0 {
      Add64(x);
    } else if r == 1 {
      Add16(x);
    } else if r == 2 {
      Add4(x);
    } else {
      Add1(x);
    }
  }

  lemma Subtract64(x: bv8)
    ensures ((x - 64) >> 6) & 3 == (((x >> 6) & 3) - 1) & 3
    ensures ((x - 64) >> 4) & 3 == (x >> 4) & 3
    ensures ((x - 64) >> 2) & 3 == (x >> 2) & 3
    ensures (x - 64) & 3 == x & 3
  {
  }

  lemma Subtract16(x: bv8)
    ensures ((x - 16) >> 6) & 3 ==
              if (x >> 4) & 3 == 0 then (((x >> 6) & 3) - 1) & 3 else (x >> 6) & 3
    ensures ((x - 16) >> 4) & 3 == (((x >> 4) & 3) - 1) & 3
    ensures ((x - 16) >> 2) & 3 == (x >> 2) & 3
    ensures (x - 16) & 3 == x & 3
  {
  }

  lemma Subtract4(x: bv8)
    ensures ((x - 4) >> 6) & 3 ==
              if (x >> 4) & 3 == 0 && (x >> 2) & 3 == 0 then (((x >> 6) & 3) - 1) & 3 else (x >> 6) & 3
    ensures ((x - 4) >> 4) & 3 ==
              if (x >> 2) & 3 == 0 then (((x >> 4) & 3) - 1) & 3 else (x >> 4) & 3
    ensures ((x - 4) >> 2) & 3 == (((x >> 2) & 3) - 1) & 3
    ensures (x - 4) & 3 == x & 3
  {
  }

  lemma Subtract1(x: bv8)
    ensures ((x - 1) >> 6) & 3 ==
              if (x >> 4) & 3 == 0 && (x >> 2) & 3 == 0 && x & 3 == 0 then (((x >> 6) & 3) - 1) & 3 else (x >> 6) & 3
    ensures ((x - 1) >> 4) & 3 ==
              if (x >> 2) & 3 == 0 && x & 3 == 0 then (((x >> 4) & 3) - 1) & 3 else (x >> 4) & 3
    ensures ((x - 1) >> 2) & 3 ==
              if x & 3 == 0 then (((x >> 2) & 3) - 1) & 3 else (x >> 2) & 3
    ensures (x - 1) & 3 == ((x & 3) - 1) & 3
  {
  }

  lemma DecField(x: bv8, r: nat, q: nat)
    requires r < 4 && q < 4
    ensures ByteField(DecByte(x, r), q) ==
              if q <= r && (forall m :: q < m <= r ==> ByteField(x, m) == 0) then (ByteField(x, q) - 1) & 3
              else ByteField(x, q)
  {
    hide ByteField, DecByte;
    var y := DecByte(x, r);
    Places(x);
    Places(y);
    if r == 0 {
      Subtract64(x);
    } else if r == 1 {
      Subtract16(x);
    } else if r == 2 {
      Subtract4(x);
    } else {
      Subtract1(x);
    }
  }

  lemma SetFieldLow(x: bv8, r: nat, status: bv8, q: nat)
    requires 0 <= r < 2 && q < 4 && status < 4
    ensures ByteField(SetByte(x, r, status), q) == if q == r then status else ByteField(x, q)
  {
    if q == 0 {
      if r == 0 {
      } else {
      }
    } else if q == 1 {
      if r == 0 {
      } else {
      }
    } else if q == 2 {
      if r == 0 {
      } else {
      }
    } else {
      if r == 0 {
      } else {
      }
    }
  }

  lemma SetFieldHigh(x: bv8, r: nat, status: bv8, q: nat)
    requires 2 <= r < 4 && q < 4 && status < 4
    ensures ByteField(SetByte(x, r, status), q) == if q == r then status else ByteField(x, q)
  {
    if q == 0 {
      if r == 2 {
      } else {
      }
    } else if q == 1 {
      if r == 2 {
      } else {
      }
    } else if q == 2 {
      if r == 2 {
      } else {
      }
    } else {
      if r == 2 {
      } else {
      }
    }
  }

  lemma SetField(x: bv8, r: nat, status: bv8, q: nat)
    requires r < 4 && q < 4 && status < 4
    ensures ByteField(SetByte(x, r, status), q) == if q == r then status else ByteField(x, q)
  {
    if r < 2 {
      SetFieldLow(x, r, status, q);
    } else {
      SetFieldHigh(x, r, status, q);
    }
  }

  function Field(bytes: seq<bv8>, j: nat): bv8
    requires j < 4 * |bytes|
  {
    ByteField(bytes[j / 4], j % 4)
  }

  function Inc(bytes: seq<bv8>, j: nat): (r: seq<bv8>)
    requires j < 4 * |bytes|
    ensures |r| == |bytes|
  {
    bytes[j / 4 := IncByte(bytes[j / 4], j % 4)]
  }

  function Dec(bytes: seq<bv8>, j: nat): (r: seq<bv8>)
    requires j < 4 * |bytes|
    ensures |r| == |bytes|
  {
    bytes[j / 4 := DecByte(bytes[j / 4], j % 4)]
  }

  function Set(bytes: seq<bv8>, j: nat, status: bv8): (r: seq<bv8>)
    requires j < 4 * |bytes|
    ensures |r| == |bytes|
  {
    bytes[j / 4 := SetByte(bytes[j / 4], j % 4, status)]
  }

  lemma FieldsOfByte(bytes: seq<bv8>, n: nat)
    requires n < |bytes|
    ensures forall r {:trigger Field(bytes, 4 * n + r)} {:trigger ByteField(bytes[n], r)} :: 0 <= r < 4 ==>
              Field(bytes, 4 * n + r) == ByteField(bytes[n], r)
  {
  }

  // The fields after k up to j, in the same byte, all hold v.
  lemma FieldsHold(bytes: seq<bv8>, k: nat, j: nat, v: bv8)
    requires k <= j < 4 * |bytes| && k / 4 == j / 4
    ensures (forall m :: k < m <= j ==> Field(bytes, m) == v) <==>
            forall m :: k % 4 < m <= j % 4 ==> ByteField(bytes[j / 4], m) == v
  {
    var n := j / 4;
    FieldsOfByte(bytes, n);
    hide Field, ByteField;
    if forall m :: k < m <= j ==> Field(bytes, m) == v {
      forall m | k % 4 < m <= j % 4
        ensures ByteField(bytes[n], m) == v
      {
        assert Field(bytes, 4 * n + m) == v;
      }
    }
    if forall m :: k % 4 < m <= j % 4 ==> ByteField(bytes[n], m) == v {
      forall m | k < m <= j
        ensures Field(bytes, m) == v
      {
        assert ByteField(bytes[n], m - 4 * n) == v;
      }
    }
  }

  /** What adding one in a field does to any field k: the field itself gains one, modulo 4; a 3 carries into the field
      before it in the same byte, and so on; the first field of a byte carries into nothing. */
  lemma IncCarries(bytes: seq<bv8>, j: nat, k: nat)
    requires j < 4 * |bytes| && k < 4 * |bytes|
    ensures Field(Inc(bytes, j), k) ==
              if k / 4 == j / 4 && k <= j && (forall m :: k < m <= j ==> Field(bytes, m) == 3)
              then (Field(bytes, k) + 1) & 3
              else Field(bytes, k)
  {
    if k / 4 == j / 4 {
      IncField(bytes[j / 4], j % 4, k % 4);
      if k <= j { FieldsHold(bytes, k, j, 3); }
    }
    hide ByteField, IncByte;
  }

  /** Below its maximum a field is incremented without a carry: no other field changes. */
  lemma IncOne(bytes: seq<bv8>, j: nat, k: nat)
    requires j < 4 * |bytes| && k < 4 * |bytes| && Field(bytes, j) < 3
    ensures Field(Inc(bytes, j), k) == if k == j then Field(bytes, j) + 1 else Field(bytes, k)
  {
    IncCarries(bytes, j, k);
    if k == j { SmallStep(Field(bytes, j)); }
    hide Field, Inc;
  }

  // Away from the ends of its range a field changes without wrapping around.
  lemma SmallStep(f: bv8)
    ensures f < 3 ==> (f + 1) & 3 == f + 1
    ensures 0 < f < 4 ==> (f - 1) & 3 == f - 1
  {
  }

  /** What subtracting one in a field does to any field k: the field itself loses one, modulo 4; a 0 borrows from the
      field before it in the same byte, and so on; the first field of a byte borrows from nothing. */
  lemma DecBorrows(bytes: seq<bv8>, j: nat, k: nat)
    requires j < 4 * |bytes| && k < 4 * |bytes|
    ensures Field(Dec(bytes, j), k) ==
              if k / 4 == j / 4 && k <= j && (forall m :: k < m <= j ==> Field(bytes, m) == 0)
              then (Field(bytes, k) - 1) & 3
              else Field(bytes, k)
  {
    if k / 4 == j / 4 {
      DecField(bytes[j / 4], j % 4, k % 4);
      if k <= j { FieldsHold(bytes, k, j, 0); }
    }
    hide ByteField, DecByte;
  }

  /** Above zero a field is decremented without a borrow: no other field changes. */
  lemma DecOne(bytes: seq<bv8>, j: nat, k: nat)
    requires j < 4 * |bytes| && k < 4 * |bytes| && Field(bytes, j) > 0
    ensures Field(Dec(bytes, j), k) == if k == j then Field(bytes, j) - 1 else Field(bytes, k)
  {
    DecBorrows(bytes, j, k);
    if k == j {
      FieldBelowFour(bytes, j);
      SmallStep(Field(bytes, j));
    }
    hide Field, Dec;
  }

  lemma FieldBelowFour(bytes: seq<bv8>, j: nat)
    requires j < 4 * |bytes|
    ensures Field(bytes, j) < 4
  {
  }

  lemma SetOne(bytes: seq<bv8>, j: nat, status: bv8, k: nat)
    requires j < 4 * |bytes| && k < 4 * |bytes| && status < 4
    ensures Field(Set(bytes, j, status), k) == if k == j then status else Field(bytes, k)
  {
    if j / 4 == k / 4 { SetField(bytes[j / 4], j % 4, status, k % 4); }
    hide ByteField, SetByte;
  }

  // Writing back what a field already holds changes nothing at all.
  lemma SetSame(bytes: seq<bv8>, j: nat)
    requires j < 4 * |bytes|
    ensures Set(bytes, j, Field(bytes, j)) == bytes
  {
    SetByteSame(bytes[j / 4], j % 4);
  }

  lemma SetByteSame(x: bv8, r: nat)
    requires r < 4
    ensures SetByte(x, r, ByteField(x, r)) == x
  {
    if r == 0 {
    } else if r == 1 {
    } else if r == 2 {
    } else {
    }
  }
}
