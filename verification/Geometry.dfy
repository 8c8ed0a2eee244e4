/** The implicit binary tree over the heap: sizes, node indices, addresses.
    Addresses are byte offsets from `base_ptr`. */
module Geometry {

  datatype Sizes = Sizes(maxLog2: nat, minLog2: nat)

  // A free block stores a `struct list_t` (two 8-byte pointers), so the smallest block is at least 16 bytes;
  // node_status packs eight bits to a byte, so there are at least four buckets; block sizes are shifts of a 64-bit 1,
  // node counts shifts of an `int` 1.
  type AllocSizes = s: Sizes | 4 <= s.minLog2 && s.minLog2 + 3 <= s.maxLog2 <= 63 && s.maxLog2 <= s.minLog2 + 29
    witness Sizes(31, 4)

  // Left symbolic: everything is proved for every admissible pair, the program's own being (31, 4).
  const SIZES: AllocSizes
  const MAX_ALLOC_LOG2: nat := SIZES.maxLog2
  const MIN_ALLOC_LOG2: nat := SIZES.minLog2
  const BUCKET_COUNT: nat := MAX_ALLOC_LOG2 - MIN_ALLOC_LOG2 + 1
  const MAX_ALLOC: nat := Pow2(MAX_ALLOC_LOG2)
  const MIN_ALLOC: nat := Pow2(MIN_ALLOC_LOG2)
  // Nodes of the whole tree, and those among them that have children.
  const NODE_COUNT: nat := Pow2(BUCKET_COUNT) - 1
  const INNER_COUNT: nat := Pow2(BUCKET_COUNT - 1) - 1
  const LIST_T_SIZE: nat := 16

  function Pow2(n: nat): (p: nat)
    ensures p >= 1
  {
    if n == 0 then 1 else 2 * Pow2(n - 1)
  }

  lemma Doubled(n: nat)
    requires n > 0
    ensures Pow2(n) == 2 * Pow2(n - 1)
  {
  }

  lemma TimesSixteen(n: nat)
    ensures Pow2(n + 4) == 16 * Pow2(n)
  {
    Doubled(n + 4);
    Doubled(n + 3);
    Doubled(n + 2);
    Doubled(n + 1);
  }

  lemma {:induction false} SixteenTo(k: nat)
    ensures Pow2(4 * k) == PowerOfSixteen(k)
  {
    if k > 0 {
      SixteenTo(k - 1);
      TimesSixteen(4 * (k - 1));
    }
  }

  function PowerOfSixteen(k: nat): nat {
    if k == 0 then 1 else 16 * PowerOfSixteen(k - 1)
  }

  lemma {:induction false} Pow2Monotone(a: nat, b: nat)
    requires a <= b
    ensures Pow2(a) <= Pow2(b)
    decreases b
  {
    if a < b {
      Pow2Monotone(a, b - 1);
    }
  }

  lemma InnerNodes(i: nat)
    ensures NODE_COUNT == 2 * INNER_COUNT + 1
    ensures i < INNER_COUNT <==> 2 * i + 2 < NODE_COUNT
  {
  }

  function Parent(i: nat): nat
    requires i > 0
  {
    (i - 1) / 2
  }

  lemma ParentOfChild(i: nat)
    ensures Parent(2 * i + 1) == i && Parent(2 * i + 2) == i
  {
  }

  // The sibling, ((i - 1) ^ 1) + 1 in the source.
  function Buddy(i: nat): (j: nat)
    requires i > 0
    ensures j > 0 && j != i && Parent(j) == Parent(i)
    ensures i % 2 == 1 <==> j % 2 == 0
  {
    if i % 2 == 1 then i + 1 else i - 1
  }

  /** The sibling formula of the source, on machine words. */
  lemma BuddyIsXor(i: bv64)
    requires i > 0
    ensures ((i - 1) ^ 1) + 1 == if i % 2 == 1 then i + 1 else i - 1
  {
  }

  // The bucket (depth) a node belongs to.
  function Level(i: nat): nat {
    if i == 0 then 0 else 1 + Level(Parent(i))
  }

  lemma BuddyLevel(i: nat)
    requires i > 0
    ensures Level(Buddy(i)) == Level(i)
  {
  }

  lemma {:induction false} LevelBounds(i: nat)
    ensures Pow2(Level(i)) <= i + 1 < Pow2(Level(i) + 1)
  {
    if i > 0 {
      LevelBounds(Parent(i));
    }
  }

  lemma LevelUnique(i: nat, b: nat)
    requires Pow2(b) <= i + 1 < Pow2(b + 1)
    ensures Level(i) == b
  {
    LevelBounds(i);
    if Level(i) < b {
      Pow2Monotone(Level(i) + 1, b);
    } else if b < Level(i) {
      Pow2Monotone(b + 1, Level(i));
    }
  }

  lemma LevelInRange(i: nat)
    ensures i < NODE_COUNT <==> Level(i) < BUCKET_COUNT
    ensures i < INNER_COUNT <==> Level(i) < BUCKET_COUNT - 1
  {
    LevelBounds(i);
    if Level(i) < BUCKET_COUNT {
      Pow2Monotone(Level(i) + 1, BUCKET_COUNT);
    } else {
      Pow2Monotone(BUCKET_COUNT, Level(i));
    }
    if Level(i) < BUCKET_COUNT - 1 {
      Pow2Monotone(Level(i) + 1, BUCKET_COUNT - 1);
    } else {
      Pow2Monotone(BUCKET_COUNT - 1, Level(i));
    }
  }

  // The leftmost node of a level: the node of `base_ptr` in that bucket.
  function Root(b: nat): nat {
    Pow2(b) - 1
  }

  lemma RootLevel(b: nat)
    ensures Level(Root(b)) == b
    ensures b > 0 ==> Root(b) > 0 && Parent(Root(b)) == Root(b - 1)
    ensures b > 0 ==> Root(b) == 2 * Root(b - 1) + 1
  {
    LevelUnique(Root(b), b);
  }

  lemma RootInRange(b: nat)
    requires b < BUCKET_COUNT
    ensures Root(b) < NODE_COUNT
    ensures b < BUCKET_COUNT - 1 ==> Root(b) < INNER_COUNT
  {
    RootLevel(b);
    LevelInRange(Root(b));
  }

  function BlockSize(b: nat): nat
    requires b < BUCKET_COUNT
  {
    Pow2(MAX_ALLOC_LOG2 - b)
  }

  function Size(i: nat): nat
    requires i < NODE_COUNT
  {
    LevelInRange(i);
    BlockSize(Level(i))
  }

  // Where a node's block starts: a left child starts with its parent, a right child halfway.
  function Addr(i: nat): nat
    requires i < NODE_COUNT
  {
    if i == 0 then 0
    else if i % 2 == 1 then Addr(Parent(i))
    else Addr(Parent(i)) + Size(i)
  }

  lemma ChildGeometry(i: nat)
    requires 2 * i + 2 < NODE_COUNT
    ensures Level(2 * i + 1) == Level(2 * i + 2) == Level(i) + 1 < BUCKET_COUNT
    ensures Size(2 * i + 1) == Size(2 * i + 2)
    ensures 2 * Size(2 * i + 1) == Size(i)
    ensures Addr(2 * i + 1) == Addr(i)
    ensures Addr(2 * i + 2) == Addr(i) + Size(2 * i + 1)
  {
    LevelInRange(i);
    LevelInRange(2 * i + 2);
    assert Parent(2 * i + 1) == i && Parent(2 * i + 2) == i;
  }

  // Every block size, hence every block address, is a multiple of sizeof(struct list_t).
  lemma {:induction false} Pow2Multiple16(n: nat)
    requires n >= 4
    ensures Pow2(n) % 16 == 0 && Pow2(n) >= 16
  {
    if n == 4 {
      assert Pow2(4) == 16;
    } else {
      Pow2Multiple16(n - 1);
    }
  }

  lemma Sum16(a: nat, b: nat)
    requires a % 16 == 0 && b % 16 == 0
    ensures (a + b) % 16 == 0
  {
  }

  lemma {:induction false} Aligned16(i: nat)
    requires i < NODE_COUNT
    ensures Addr(i) % 16 == 0 && Size(i) % 16 == 0 && Size(i) >= 16
  {
    LevelInRange(i);
    Pow2Multiple16(MAX_ALLOC_LOG2 - Level(i));
    if i > 0 {
      Aligned16(Parent(i));
      Sum16(Addr(Parent(i)), Size(i));
    }
  }

  lemma {:induction false} WithinHeap(i: nat)
    requires i < NODE_COUNT
    ensures Addr(i) + Size(i) <= MAX_ALLOC
  {
    if i > 0 {
      hide Level, Pow2, Addr, Size;
      var p := Parent(i);
      WithinHeap(p);
      ChildGeometry(p);
      assert i == 2 * p + 1 || i == 2 * p + 2;
    }
  }

  // ---------- the index formulas of the program ----------

  function ShiftLeft(x: nat, n: nat): nat {
    if n == 0 then x else 2 * ShiftLeft(x, n - 1)
  }

  function ShiftRight(x: nat, n: nat): nat {
    if n == 0 then x else ShiftRight(x / 2, n - 1)
  }

  function PtrForNode(i: nat, b: nat): nat
    requires b < BUCKET_COUNT
    requires Pow2(b) <= i + 1
  {
    ShiftLeft(i - Pow2(b) + 1, MAX_ALLOC_LOG2 - b)
  }

  function NodeForPtr(a: nat, b: nat): nat
    requires b < BUCKET_COUNT
  {
    ShiftRight(a, MAX_ALLOC_LOG2 - b) + Pow2(b) - 1
  }

  lemma {:induction false} ShiftOfChild(q: nat, n: nat)
    ensures ShiftLeft(2 * q, n) == 2 * ShiftLeft(q, n)
    ensures ShiftLeft(2 * q + 1, n) == 2 * ShiftLeft(q, n) + Pow2(n)
  {
    if n > 0 {
      ShiftOfChild(q, n - 1);
    }
  }

  lemma {:induction false} ShiftBack(q: nat, n: nat)
    ensures ShiftRight(ShiftLeft(q, n), n) == q
  {
    if n > 0 {
      ShiftBack(q, n - 1);
    }
  }

  lemma {:induction false} ShiftIsProduct(q: nat, n: nat)
    ensures ShiftLeft(q, n) == q * Pow2(n)
  {
    if n > 0 {
      ShiftIsProduct(q, n - 1);
      assert q * Pow2(n) == 2 * (q * Pow2(n - 1));
    }
  }

  lemma {:induction false} ShiftMonotone(q: nat, r: nat, n: nat)
    requires q < r
    ensures ShiftLeft(q, n) < ShiftLeft(r, n)
  {
    if n > 0 {
      ShiftMonotone(q, r, n - 1);
    }
  }

  lemma {:induction false} ShiftOfPow2(b: nat, n: nat)
    ensures ShiftLeft(Pow2(b), n) == Pow2(b + n)
  {
    if n > 0 {
      ShiftOfPow2(b, n - 1);
    }
  }

  lemma MultipleIsShift(a: nat, n: nat)
    requires a % Pow2(n) == 0
    ensures a == ShiftLeft(a / Pow2(n), n)
  {
    ShiftIsProduct(a / Pow2(n), n);
  }

  lemma ProductIsMultiple(q: nat, p: nat)
    requires p > 0
    ensures (q * p) % p == 0
  {
    var d, m := (q * p) / p, (q * p) % p;
    assert (q - d) * p == m;
    ProductAtLeast(q - d, p);
  }

  lemma ProductAtLeast(e: int, p: nat)
    requires p > 0
    ensures e >= 1 ==> e * p >= p
    ensures e <= -1 ==> e * p + p <= 0
  {
    if e >= 1 {
      assert (e - 1) * p >= 0;
    } else if e <= -1 {
      assert (-1 - e) * p >= 0;
    }
  }

  // The offset of a node within its level, and how it doubles from a parent to its children.
  function Offset(i: nat): nat {
    LevelBounds(i);
    i + 1 - Pow2(Level(i))
  }

  lemma OffsetOfChild(i: nat)
    requires i > 0
    ensures Offset(i) == if i % 2 == 0 then 2 * Offset(Parent(i)) + 1 else 2 * Offset(Parent(i))
  {
    var p := Parent(i);
    assert Pow2(Level(i)) == 2 * Pow2(Level(p)) by { assert Level(i) == 1 + Level(p); }
    hide Level, Pow2;
  }

  lemma AddrOfChild(i: nat)
    requires 0 < i < NODE_COUNT
    ensures Addr(i) == Addr(Parent(i)) + if i % 2 == 0 then Size(i) else 0
    ensures Level(i) < BUCKET_COUNT && Size(i) == Pow2(MAX_ALLOC_LOG2 - Level(i)) && Level(i) == Level(Parent(i)) + 1
  {
    hide Pow2, Parent;
    LevelInRange(i);
  }

  lemma {:induction false} AddrIsShift(i: nat)
    requires i < NODE_COUNT
    ensures Level(i) < BUCKET_COUNT
    ensures Addr(i) == ShiftLeft(Offset(i), MAX_ALLOC_LOG2 - Level(i))
  {
    LevelInRange(i);
    if i == 0 {
      ZeroShift(MAX_ALLOC_LOG2);
    } else {
      hide Level, Addr, Pow2, Offset, Parent, Size;
      AddrOfChild(i);
      AddrIsShift(Parent(i));
      OffsetOfChild(i);
      ShiftOfChild(Offset(Parent(i)), MAX_ALLOC_LOG2 - Level(i));
    }
  }

  // The closed formula is the start of the block, on the node's own level.
  lemma PtrForNodeIsAddr(i: nat)
    requires i < NODE_COUNT
    ensures Level(i) < BUCKET_COUNT && Pow2(Level(i)) <= i + 1
    ensures PtrForNode(i, Level(i)) == Addr(i)
  {
    hide Level, Addr, Pow2;
    LevelBounds(i);
    AddrIsShift(i);
  }

  lemma {:induction false} ZeroShift(n: nat)
    ensures ShiftLeft(0, n) == 0
  {
    if n > 0 {
      ZeroShift(n - 1);
    }
  }

  lemma NodeOfAddr(i: nat)
    requires i < NODE_COUNT
    ensures Level(i) < BUCKET_COUNT
    ensures NodeForPtr(Addr(i), Level(i)) == i
  {
    hide Level, Addr, Pow2;
    PtrForNodeIsAddr(i);
    ShiftBack(i - Pow2(Level(i)) + 1, MAX_ALLOC_LOG2 - Level(i));
  }

  // node_for_ptr(base_ptr, b)
  lemma BaseNode(b: nat)
    requires b < BUCKET_COUNT
    ensures NodeForPtr(0, b) == Root(b)
  {
    RootInRange(b);
    RootLevel(b);
    ZeroBack(MAX_ALLOC_LOG2 - b);
  }

  lemma {:induction false} ZeroBack(n: nat)
    ensures ShiftRight(0, n) == 0
  {
    if n > 0 {
      ZeroBack(n - 1);
    }
  }

  lemma AddrAligned(i: nat)
    requires i < NODE_COUNT
    ensures Addr(i) % Size(i) == 0
  {
    PtrForNodeIsAddr(i);
    hide Addr, Level, Pow2;
    ShiftIsProduct(i - Pow2(Level(i)) + 1, MAX_ALLOC_LOG2 - Level(i));
    ProductIsMultiple(i - Pow2(Level(i)) + 1, Size(i));
  }

  // Round trip the other way: an aligned address below the heap's end names one node of the level.
  lemma AddrOfNode(a: nat, b: nat)
    requires b < BUCKET_COUNT && a % BlockSize(b) == 0 && a < MAX_ALLOC
    ensures NodeForPtr(a, b) < NODE_COUNT && Level(NodeForPtr(a, b)) == b
    ensures Addr(NodeForPtr(a, b)) == a
  {
    var i, n := NodeForPtr(a, b), MAX_ALLOC_LOG2 - b;
    var q := a / BlockSize(b);
    MultipleIsShift(a, n);
    ShiftBack(q, n);
    ShiftOfPow2(b, n);
    if q > Pow2(b) { ShiftMonotone(Pow2(b), q, n); }
    assert i == q + Pow2(b) - 1;
    LevelUnique(i, b);
    LevelInRange(i);
    PtrForNodeIsAddr(i);
  }

  // ---------- ancestors and intervals ----------

  ghost predicate Within(i: nat, a: nat) {
    i == a || (i > a && Within(Parent(i), a))
  }

  ghost predicate Disjoint(i: nat, j: nat)
    requires i < NODE_COUNT && j < NODE_COUNT
  {
    Addr(i) + Size(i) <= Addr(j) || Addr(j) + Size(j) <= Addr(i)
  }

  ghost predicate Nested(i: nat, a: nat)
    requires i < NODE_COUNT && a < NODE_COUNT
  {
    Addr(a) <= Addr(i) && Addr(i) + Size(i) <= Addr(a) + Size(a)
  }

  lemma ChildOfParent(i: nat)
    requires i > 0
    ensures Parent(i) < i && (i == 2 * Parent(i) + 1 || i == 2 * Parent(i) + 2)
  {
  }

  lemma SizePositive(i: nat)
    requires i < NODE_COUNT
    ensures Size(i) > 0
  {
    hide Level;
  }

  lemma ParentGeometry(i: nat)
    requires 0 < i < NODE_COUNT
    ensures Parent(i) < i && Nested(i, Parent(i))
    ensures Size(i) < Size(Parent(i)) && Level(i) == Level(Parent(i)) + 1
  {
    hide Addr, Size, Pow2, Level, Parent;
    ChildOfParent(i);
    InnerNodes(Parent(i));
    ChildGeometry(Parent(i));
    SizePositive(i);
  }

  lemma {:induction false} WithinNested(i: nat, a: nat)
    requires i < NODE_COUNT && Within(i, a)
    ensures Nested(i, a) && Level(a) <= Level(i)
    ensures i != a ==> Size(i) < Size(a) && Level(a) < Level(i)
  {
    hide Level, Pow2, Addr, Size, Parent;
    if i != a {
      ParentGeometry(i);
      WithinNested(Parent(i), a);
    }
  }

  lemma {:induction false} WithinTransitive(i: nat, j: nat, a: nat)
    requires Within(i, j) && Within(j, a)
    ensures Within(i, a)
  {
    if i != j {
      WithinTransitive(Parent(i), j, a);
    }
  }

  lemma {:induction false} WithinZero(i: nat)
    ensures Within(i, 0)
  {
    if i > 0 {
      WithinZero(Parent(i));
    }
  }

  // Below a node means at it, below its left child or below its right child.
  lemma {:induction false} WithinChild(i: nat, a: nat)
    requires Within(i, a)
    ensures i == a || Within(i, 2 * a + 1) || Within(i, 2 * a + 2)
  {
    if i != a && Parent(i) != a {
      WithinChild(Parent(i), a);
    }
  }

  lemma {:induction false} UnrelatedDisjoint(i: nat, j: nat)
    requires i < NODE_COUNT && j < NODE_COUNT
    requires !Within(i, j) && !Within(j, i)
    ensures Disjoint(i, j)
    decreases i + j, j
  {
    if i < j {
      UnrelatedDisjoint(j, i);
    } else {
      var p := Parent(i);
      ChildGeometry(p);
      if Within(j, p) {
        WithinChild(j, p);
        assert Within(j, Buddy(i));
        WithinNested(j, Buddy(i));
      } else {
        UnrelatedDisjoint(p, j);
      }
    }
  }

  // Any two blocks are disjoint or nested, and nested exactly when one node is an ancestor of the other.
  lemma DisjointOrNested(i: nat, j: nat)
    requires i < NODE_COUNT && j < NODE_COUNT
    ensures Disjoint(i, j) <==> !Within(i, j) && !Within(j, i)
    ensures Nested(i, j) <==> Within(i, j)
  {
    if Within(i, j) {
      WithinNested(i, j);
    } else if Within(j, i) {
      WithinNested(j, i);
    } else {
      UnrelatedDisjoint(i, j);
    }
    Aligned16(i);
    Aligned16(j);
  }

  lemma SameLevelDisjoint(i: nat, j: nat)
    requires i < NODE_COUNT && j < NODE_COUNT && Level(i) == Level(j) && i != j
    ensures Disjoint(i, j)
  {
    if Within(i, j) {
      WithinNested(i, j);
    } else if Within(j, i) {
      WithinNested(j, i);
    } else {
      UnrelatedDisjoint(i, j);
    }
  }
}
