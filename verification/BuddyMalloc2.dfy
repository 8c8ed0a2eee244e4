/** buddy_malloc_2.c as it runs. No header is stored; beside the program's own statics the class keeps, as ghosts, the
    state malloc_1 would be in, so that everything known of the first allocator's memory holds of this one too. */
module BuddyMalloc2 {
  import opened Options
  import opened Geometry
  import opened FreeLists
  import opened Tree
  import opened BuddySpec
  import opened BuddyInvariant
  import opened BuddyMallocProof
  import opened BuddyFreeProof
  import opened Memory
  import opened StatusBits
  import opened StatusFields
  import opened BuddyLayout
  import opened BuddyImage
  import opened Buddy2Spec
  import opened Lockstep
  import opened LastFree

  // With no header to write, the block being worked on joins the live ones as it is.
  lemma HandOver(m: Image, s: State, t: seq<Kind>, before: seq<int>, i: nat, n: SizeT)
    requires Orderly(m, s, t, i, before) && i < NODE_COUNT && t[i].Live? && Addr(i) + Size(i) <= s.top
    requires Need(n) <= MAX_ALLOC && Level(i) == BucketFor(Need(n))
    ensures Addr(i) !in s.headers
    ensures Orderly(m, s.(headers := s.headers[Addr(i) := n]), t, -1, m.cells)
    ensures Preserved(before, m.cells, s.headers)
  {
    hide Level, Addr, Size, Pow2, Parent, BitsOk, ListsOk, BytesMatch, RingsMatch, HeadersOk, BucketFor;
    HeaderJoins(s, t, i, n);
    CoreIgnoresHeaders(s, t, s.headers[Addr(i) := n]);
  }

  // What the two carvings return, spelled out together.
  lemma BothCarve(s: State, s2: State2, i: nat, b: nat, wanted: nat, n: SizeT, grant: nat -> bool)
    requires Shape(s) && Shape2(s2) && s2.lists == s.lists && s2.top == s.top
    requires b <= wanted < BUCKET_COUNT && wanted > 0 && s.lists[b] != []
    requires i == s.lists[b][|s.lists[b]| - 1] && Level(i) == b
    ensures i < NODE_COUNT && i < 2 * |s.bits| + 1 && (i > 0 ==> Parent(i) < 4 * |s2.status|)
    ensures var v := Addr(i) + BytesNeeded(b, wanted);
            var r, r2 := Carve(Pop(s, b), i, b, wanted, n, grant), Carve2(Pop2(s2, b), i, b, wanted, grant);
            if v <= s.top || grant(v) then
              var top := if v <= s.top then s.top else v;
              var s1 := Pop(s, b).(top := top, bits := FlipUnlessTop(s.bits, i));
              var t1 := Pop2(s2, b).(top := top, status := if i == 0 then s2.status else ParentInc(s2.status, i));
              var u, u2, leaf := SplitDown(s1, i, b, wanted), SplitDown2(t1, i, b, wanted), Leftmost(i, b, wanted);
              && 0 < leaf < NODE_COUNT && 2 * Parent(leaf) + 2 < NODE_COUNT
              && r == Allocation(u.(headers := u.headers[Addr(i) := n]), Some(Addr(i)))
              && r2 == Allocation2(u2.(status := Promote(Set(u2.status, leaf, USED), Parent(leaf))), Some(Addr(i)))
            else r == Allocation(s, None) && r2 == Allocation2(s2, None)
  {
    hide Parent, Addr, Size, Level, Pow2, Carve, Carve2, SplitDown, SplitDown2, Leftmost, Set, Inc, Promote;
    hide BytesNeeded;
    var s1 := CarveIs(s, i, b, wanted, n, grant);
    Carve2Is(s2, i, b, wanted, grant);
    PushBack(s, b);
    PopPush2(Pop2(s2, b), b, i);
    LastBack(s2.lists[b]);
    assert s2.lists[b := DropLast(s2.lists[b])][b := s2.lists[b]] == s2.lists;
  }

  // Another live block, or the mark above the root, is what freeing the block at a needs.
  ghost predicate Spared(s: State, status: seq<bv8>, a: int) {
    (exists x :: x in s.headers && x != a) || Marked(status, s.limit)
  }

  lemma SparedMayFree(s: State, t: seq<Kind>, status: seq<bv8>, a: nat)
    requires Inv(s, t) && a in s.headers && Need(s.headers[a]) <= MAX_ALLOC && Spared(s, status, a)
    ensures FreedNode(s, a) < NODE_COUNT && MayFree(status, t, s.limit, FreedNode(s, a))
  {
    FreedNodeIsLive(s, t, a);
    if x :| x in s.headers && x != a { OtherHeader(s, t, a, x); }
  }

  // What a call does to the live blocks, on values.
  lemma SameBlockHandedOut(s: State, t: seq<Kind>, s2: State2, request: SizeT, grant: nat -> bool)
    requires Inv(s, t) && Sim(s, t, s2) && MayAsk(s, request)
    ensures Shape(s) && Shape2(s2) && Defined2(s2, request, grant)
    ensures var r := Malloc1(s, Shrunk(request), grant);
            && r.address == Malloc2(s2, request, grant).address
            && match r.address
               case None => r.s.headers == s.headers
               case Some(a) => a !in s.headers && r.s.headers == s.headers[a := Shrunk(request)]
  {
    CoreShape(s, t);
    hide Malloc1, Malloc2, Core, HeadersOk, StatusOk, Defined2, MayAsk, Shrunk;
    var u := MallocKeeps(s, t, Shrunk(request), grant);
    var v := MallocLockstep(s, t, s2, request, grant);
  }

  // Without it the fields left behind are not those of an empty heap.
  lemma UnsparedBreaks(s: State, t: seq<Kind>, s2: State2, a: nat, s': State, t': seq<Kind>, s2': State2)
    requires Inv(s, t) && Sim(s, t, s2) && a in s.headers && !Spared(s, s2.status, a)
    requires Inv(s', t') && s'.headers == s.headers - {a}
    requires Shape2(s2) && a < MAX_ALLOC && BucketOf(s2, a, BUCKET_COUNT - 1).Some? && s2' == Free2(s2, a)
    ensures !Sim(s', t', s2')
  {
    hide BitsOk, ListsOk, HeadersOk, BucketOf, Free2, Field, WellFormed, FreeBacked;
    assert s.headers.Keys == {a};
    assert s'.headers.Keys == {};
    LastFreeExact(s, t, s2, a);
    EmptyHeap(s', t');
    if s.limit > 0 { RootInRange(s.limit - 1); }
  }

  class Allocator2 {
    const ram: Ram
    const nodeStatus: array<bv8>
    var bucketLimit: nat
    var basePtr: int
    var maxPtr: int

    // The first allocator's state, its bits packed in bytes, and the picture of the tree.
    ghost var shadow: State
    ghost var bytes: seq<bv8>
    ghost var tree: seq<Kind>

    ghost function Now(): Image
      reads this, ram
    {
      Image(ram.cells, ram.rings, bytes, bucketLimit, maxPtr)
    }

    // The value-level state of this allocator.
    ghost function St(): State2
      reads this, nodeStatus
    {
      State2(bucketLimit, shadow.top, nodeStatus[..], shadow.lists)
    }

    ghost predicate InOrder(work: int, before: seq<int>)
      reads this, ram
    {
      basePtr == HEAP && Orderly(Now(), shadow, tree, work, before)
    }

    // Between two steps, no block being worked on.
    ghost predicate InStep(before: seq<int>)
      reads this, ram, nodeStatus
    {
      InOrder(-1, before) && Sim(shadow, tree, St())
    }

    ghost predicate Pristine()
      reads this, ram, nodeStatus
    {
      && ram.Valid() && ram.rings == map[] && |ram.cells| == HEAP
      && nodeStatus[..] == InitState2().status && BytesMatch(bytes, InitState().bits)
    }

    ghost predicate Valid()
      reads this, ram, nodeStatus
    {
      if basePtr == NULL then Pristine() else InStep(ram.cells)
    }

    constructor ()
      ensures Valid() && basePtr == NULL
    {
      ram := new Ram(HEAP);
      nodeStatus := new bv8[Pow2(BUCKET_COUNT) / 4](_ => 0);
      bucketLimit := 0;
      basePtr := NULL;
      maxPtr := NULL;
      shadow := InitState();
      bytes := seq(INNER_COUNT, _ => 0);
      tree := [];
      new;
      ZeroBytes();
      assert nodeStatus[..] == InitState2().status;
    }

    static lemma ZeroBytes()
      ensures BytesMatch(seq(INNER_COUNT, _ => 0), InitState().bits)
    {
      var bytes: seq<bv8> := seq(INNER_COUNT, _ => 0);
      forall j | 0 <= j < INNER_COUNT
        ensures !Bit(bytes, j)
      {
        ZeroByte(j % 8);
      }
    }

    // ---------- the status fields ----------

    method GetNodeStatus(index: nat) returns (status: bv8)
      requires index < 4 * nodeStatus.Length
      ensures status == Field(nodeStatus[..], index)
    {
      var bitMove := (3 - index % 4) * 2;
      status := (nodeStatus[index / 4] >> bitMove) & 3;
    }

    method ParentIncStatus(index: nat)
      requires 0 < index && Parent(index) < 4 * nodeStatus.Length
      modifies nodeStatus
      ensures nodeStatus[..] == ParentInc(old(nodeStatus[..]), index)
    {
      var i := (index - 1) / 2;
      var bitMove := (3 - i % 4) * 2;
      nodeStatus[i / 4] := nodeStatus[i / 4] + (1 << bitMove);
    }

    method ParentDecStatus(index: nat)
      requires 0 < index && Parent(index) < 4 * nodeStatus.Length
      modifies nodeStatus
      ensures nodeStatus[..] == ParentDec(old(nodeStatus[..]), index)
    {
      var i := (index - 1) / 2;
      var bitMove := (3 - i % 4) * 2;
      nodeStatus[i / 4] := nodeStatus[i / 4] - (1 << bitMove);
    }

    method NodeSetStatus(index: nat, status: bv8)
      requires index < 4 * nodeStatus.Length
      modifies nodeStatus
      ensures nodeStatus[..] == Set(old(nodeStatus[..]), index, status)
    {
      var bitMove := (3 - index % 4) * 2;
      var value := status << bitMove;
      var mask := 255 ^ (3 << bitMove);
      nodeStatus[index / 4] := (nodeStatus[index / 4] & mask) | value;
    }

    // ---------- update_max_ptr ----------

    method UpdateMaxPtr(newValue: int, grant: nat -> bool) returns (ok: bool)
      requires ram.Valid() && |ram.cells| == maxPtr && HEAP <= newValue
      modifies this`maxPtr, ram
      ensures ram.Valid() && ram.rings == old(ram.rings) && |ram.cells| == maxPtr
      ensures old(ram.cells) <= ram.cells && (!ok ==> ram.cells == old(ram.cells))
      ensures ok <==> newValue <= old(maxPtr) || grant(newValue - HEAP)
      ensures maxPtr == if ok && newValue > old(maxPtr) then newValue else old(maxPtr)
    {
      if newValue > maxPtr {
        if !grant(newValue - HEAP) {
          return false;
        }
        ram.Sbrk(newValue - maxPtr);
        maxPtr := newValue;
      }
      return true;
    }

    method Reach(newValue: int, grant: nat -> bool, ghost before: seq<int>) returns (ok: bool)
      requires InStep(before) && HEAP <= newValue
      modifies this`maxPtr, this`shadow, ram
      ensures InStep(before)
      ensures Reply(ok, shadow) == Reserve(old(shadow), newValue - HEAP, grant)
      ensures Reply2(ok, St()) == Reserve2(old(St()), newValue - HEAP, grant)
    {
      hide Level, Addr, Size, Pow2, Parent, Core, BytesMatch, RingsMatch, HeadersOk, Preserved, Family, StatusOk;
      ghost var m := Now();
      ok := UpdateMaxPtr(newValue, grant);
      ReserveDone(m, shadow, tree, -1, before, ram.cells, maxPtr - HEAP);
      shadow := shadow.(top := maxPtr - HEAP);
    }

    // ---------- lower_bucket_limit ----------

    method LowerBucketLimit(bucket: nat, grant: nat -> bool, ghost before: seq<int>) returns (ok: bool)
      requires InStep(before)
      modifies this`bucketLimit, this`maxPtr, this`shadow, this`bytes, this`tree, ram, nodeStatus
      ensures InStep(before) && SameLive(old(tree), tree)
      ensures Reply(ok, shadow) == LowerLimit(old(shadow), bucket, grant)
      ensures Shape2(old(St())) && Reply2(ok, St()) == LowerLimit2(old(St()), bucket, grant)
      ensures shadow.headers == old(shadow.headers) && (ok ==> bucketLimit <= bucket)
    {
      hide Level, Addr, Size, Pow2, Parent, BitsOk, ListsOk, FreeBacked, BytesMatch, RingsMatch, HeadersOk;
      hide Preserved, Family, StatusOk, GrowOnce, GrowOnce2;
      InStepShape(before);
      while bucket < bucketLimit
        invariant InStep(before) && Shape2(St()) && Shape2(old(St())) && Shape(shadow) && Shape(old(shadow))
        invariant LowerLimit(shadow, bucket, grant) == LowerLimit(old(shadow), bucket, grant)
        invariant LowerLimit2(St(), bucket, grant) == LowerLimit2(old(St()), bucket, grant)
        invariant |old(tree)| == |tree| == NODE_COUNT && SameLive(old(tree), tree)
        invariant shadow.headers == old(shadow.headers)
        decreases bucketLimit
      {
        var grown := GrowRoot(grant, before);
        InStepShape(before);
        if !grown {
          return false;
        }
      }
      return true;
    }

    lemma InStepShape(before: seq<int>)
      requires InStep(before)
      ensures Shape(shadow) && Shape2(St()) && |tree| == NODE_COUNT && bucketLimit == shadow.limit
    {
    }

    // One round of the growing loop.
    method GrowRoot(grant: nat -> bool, ghost before: seq<int>) returns (ok: bool)
      requires InStep(before) && bucketLimit > 0
      modifies this`bucketLimit, this`maxPtr, this`shadow, this`bytes, this`tree, ram, nodeStatus
      ensures InStep(before) && SameLive(old(tree), tree)
      ensures Shape(old(shadow)) && old(shadow).limit > 0 && Reply(ok, shadow) == GrowOnce(old(shadow), grant)
      ensures Shape2(old(St())) && Reply2(ok, St()) == GrowOnce2(old(St()), grant)
      ensures shadow.headers == old(shadow.headers)
    {
      hide Level, Addr, Size, Pow2, Parent, BitsOk, ListsOk, FreeBacked, BytesMatch, RingsMatch, HeadersOk;
      hide Preserved, Family, GrowPicture, StatusOk, Field, GrowFree, GrowUsed, GrowFree2, GrowUsed2;
      InStepShape(before);
      BaseNode(bucketLimit);
      var root := NodeForPtr(0, bucketLimit);
      RootBit(shadow, tree);
      RightOfRoot(bucketLimit);
      RootInRange(bucketLimit);
      RootStatus(shadow, tree, St());
      hide Root, NodeForPtr;
      var rootStatus := GetNodeStatus(root);
      if rootStatus == UNUSED {
        GrowUnused(before);
        return true;
      }
      var rightChild := basePtr + PtrForNode(root + 1, bucketLimit);
      ok := Reach(rightChild + LIST_T_SIZE, grant, before);
      if ok {
        GrowInUse(rightChild, before);
      }
    }

    method GrowUnused(ghost before: seq<int>)
      requires InStep(before) && bucketLimit > 0 && tree[Root(bucketLimit)].Free?
      modifies this`bucketLimit, this`shadow, this`tree, ram
      ensures InStep(before)
      ensures shadow == GrowFree(old(shadow)) && SameLive(old(tree), tree)
      ensures shadow.headers == old(shadow.headers)
      ensures Shape2(old(St())) && St() == GrowFree2(old(St()))
    {
      hide Level, Addr, Size, Pow2, Parent, BitsOk, ListsOk, FreeBacked, BytesMatch, RingsMatch, HeadersOk;
      hide Preserved, Family, OnlyLinks, NewNode, Unlinked, GrowPicture, StatusAt, AllUnused;
      ghost var m := Now();
      GrowFreePlan(m.rings, shadow, tree, |m.cells|);
      AboveRoot(tree, bucketLimit);
      GrowFreeStatus(nodeStatus[..], tree, bucketLimit);
      ram.ListRemove(basePtr);
      bucketLimit := bucketLimit - 1;
      ram.ListInit(Head(bucketLimit));
      ram.ListPush(Head(bucketLimit), basePtr);
      GrowFreeDone(m, shadow, tree, before, ram.cells);
      tree := GrowPicture(tree, shadow.limit);
      shadow := GrowFree(shadow);
    }

    method GrowInUse(rightChild: int, ghost before: seq<int>)
      requires InStep(before) && bucketLimit > 0 && !tree[Root(bucketLimit)].Free?
      requires Root(bucketLimit) + 1 < NODE_COUNT && rightChild == HEAP + Addr(Root(bucketLimit) + 1)
      requires rightChild + LIST_T_SIZE <= maxPtr
      modifies this`bucketLimit, this`shadow, this`bytes, this`tree, ram, nodeStatus
      ensures InStep(before)
      ensures shadow == GrowUsed(old(shadow)) && SameLive(old(tree), tree)
      ensures shadow.headers == old(shadow.headers)
      ensures Shape2(old(St())) && St() == GrowUsed2(old(St()))
    {
      hide Level, Addr, Size, Pow2, Parent, BitsOk, ListsOk, FreeBacked, BytesMatch, RingsMatch, HeadersOk;
      hide Preserved, Family, OnlyLinks, NewNode, GrowPicture, StatusOk, Set, FlipBytes, FlipUnlessTop;
      InStepShape(before);
      ghost var m := Now();
      var root := Root(bucketLimit);
      RootLevel(bucketLimit);
      RootInRange(bucketLimit - 1);
      GrowUsedPlan(m.rings, shadow, tree, |m.cells|);
      FlipBytesMatch(m.bytes, shadow.bits, Root(bucketLimit - 1));
      GrowUsedStatus(nodeStatus[..], tree, bucketLimit);
      hide Root;
      NodeSetStatus(Parent(root), SPLIT);
      ram.ListPush(Head(bucketLimit), rightChild);
      ghost var c1 := ram.cells;
      bucketLimit := bucketLimit - 1;
      ram.ListInit(Head(bucketLimit));
      bytes := FlipBytes(bytes, Root(bucketLimit));
      GrowUsedDone(m, shadow, tree, before, c1, ram.cells, bytes);
      tree := GrowPicture(tree, shadow.limit);
      shadow := GrowUsed(shadow);
    }

    // ---------- malloc_2 ----------

    method Initialize(grant: nat -> bool)
      requires basePtr == NULL && Pristine() && grant(LIST_T_SIZE)
      modifies this, ram
      ensures InStep(ram.cells)
      ensures shadow == InitState() && St() == InitState2()
    {
      hide Level, Addr, Size, Pow2, Parent, Core, BytesMatch, RingsMatch, HeadersOk, Preserved, StatusOk;
      basePtr := |ram.cells|;
      maxPtr := basePtr;
      bucketLimit := BUCKET_COUNT - 1;
      var _ := UpdateMaxPtr(basePtr + LIST_T_SIZE, grant);
      HeapAligned();
      ram.ListInit(Head(BUCKET_COUNT - 1));
      ram.ListPush(Head(BUCKET_COUNT - 1), basePtr);
      assert [] + [HEAP] == [HEAP];
      InitDone(Now());
      InitSim();
      shadow, tree := InitState(), InitPicture();
    }

    // The last block of bucket b has just been popped: m is the image before the pop.
    ghost predicate Popped(m: Image, b: nat, ptr: int, before: seq<int>)
      reads this, ram, nodeStatus
    {
      && basePtr == HEAP && Orderly(m, shadow, tree, -1, before)
      && shadow.limit <= b < BUCKET_COUNT && shadow.lists[b] != []
      && ptr == BlockPtr(shadow.lists[b][|shadow.lists[b]| - 1])
      && Head(b) in m.rings && m.rings[Head(b)] != []
      && ram.Valid() && ram.rings == m.rings[Head(b) := DropLast(m.rings[Head(b)])]
      && OnlyLinks(m.cells, ram.cells, m.rings, ptr) && |ram.cells| == |m.cells|
      && bytes == m.bytes && bucketLimit == m.limit && maxPtr == m.maxPtr
      && StatusOk(nodeStatus[..], tree, shadow.limit)
    }

    method PopBlock(bucket: nat, ghost before: seq<int>) returns (ptr: int)
      requires InStep(before) && bucketLimit <= bucket < BUCKET_COUNT
      modifies ram
      ensures ptr == NULL <==> shadow.lists[bucket] == []
      ensures ptr == NULL ==> InStep(before)
      ensures ptr != NULL ==> Popped(old(Now()), bucket, ptr, before)
    {
      hide Level, Addr, Size, Pow2, Parent, BitsOk, ListsOk, FreeBacked, BytesMatch, HeadersOk, Preserved, Family;
      hide OnlyLinks;
      hide StatusOk;
      assert Head(bucket) in ram.rings && ram.rings[Head(bucket)] == Ptrs(shadow.lists[bucket]);
      if shadow.lists[bucket] != [] { PopMatches(ram.rings, shadow.lists, shadow.limit, bucket); }
      ptr := ram.ListPop(Head(bucket));
    }

    // The search loop.
    method FindFree(wanted: nat, grant: nat -> bool, ghost before: seq<int>)
      returns (ptr: int, bucket: int, ghost m: Image)
      requires InStep(before) && wanted < BUCKET_COUNT
      modifies this`bucketLimit, this`maxPtr, this`shadow, this`bytes, this`tree, ram, nodeStatus
      ensures shadow.headers == old(shadow.headers)
      ensures ptr == NULL ==> InStep(before)
      ensures Shape(old(shadow)) && Shape2(old(St()))
      ensures var hit, hit2 := FindBlock(old(shadow), wanted, grant), FindBlock2(old(St()), wanted, grant);
              if ptr == NULL then !hit.found.Block? && shadow == hit.s && !hit2.found.Block? && St() == hit2.s
              else
                && 0 <= bucket <= wanted && Popped(m, bucket, ptr, before)
                && var i := shadow.lists[bucket][|shadow.lists[bucket]| - 1];
                   && hit == Search(Block(i, bucket), Pop(shadow, bucket))
                   && hit2 == Search2(Block(i, bucket), Pop2(St(), bucket))
    {
      hide Level, Addr, Size, Pow2, Parent, BitsOk, ListsOk, FreeBacked, BytesMatch, RingsMatch, HeadersOk, Family;
      hide Preserved, LowerLimit, LowerLimit2, OnlyLinks, StatusOk, WellFormed;
      InStepShape(before);
      bucket := wanted;
      m := Now();
      // bucket counts down in a size_t: below 0 it wraps to the value that ends the loop
      while bucket + 1 != 0
        invariant -1 <= bucket <= wanted
        invariant InStep(before) && shadow.headers == old(shadow.headers) && Shape(shadow) && Shape2(St())
        invariant Shape(old(shadow)) && Shape2(old(St()))
        invariant bucket >= 0 ==> FindBlock(shadow, bucket, grant) == FindBlock(old(shadow), wanted, grant)
        invariant bucket >= 0 ==> FindBlock2(St(), bucket, grant) == FindBlock2(old(St()), wanted, grant)
        invariant bucket < 0 ==> FindBlock(old(shadow), wanted, grant) == Search(NoBlock, shadow)
        invariant bucket < 0 ==> FindBlock2(old(St()), wanted, grant) == Search2(NoBlock, St())
      {
        var ok := LowerBucketLimit(bucket, grant, before);
        InStepShape(before);
        if !ok {
          return NULL, bucket, m;
        }
        m := Now();
        ptr := PopBlock(bucket, before);
        if ptr == NULL {
          if bucket != bucketLimit || bucket == 0 {
            bucket := bucket - 1;
            continue;
          }
          ghost var u := SecondPopFinds(shadow, tree, grant);
          ok := LowerBucketLimit(bucket - 1, grant, before);
          InStepShape(before);
          if !ok {
            return NULL, bucket, m;
          }
          m := Now();
          ptr := PopBlock(bucket, before);
        }
        return;
      }
      return NULL, bucket, m;
    }

    method PutBack(ptr: int, bucket: nat, ghost m: Image, ghost before: seq<int>)
      requires Popped(m, bucket, ptr, before)
      modifies ram
      ensures InStep(before)
    {
      hide Parent, Addr, Size, Level, Pow2, BitsOk, ListsOk, FreeBacked, BytesMatch, RingsMatch, HeadersOk, Family;
      hide Preserved, OnlyLinks, StatusOk;
      ghost var c1 := ram.cells;
      PopPlan(m, shadow, tree, bucket);
      ram.ListPush(Head(bucket), ptr);
      PushBackDone(m, shadow, tree, before, bucket, c1, ram.cells);
    }

    // Backs the popped block and counts it in its parent, or puts it back when sbrk refuses.
    method TakeBlock(ptr: int, bucket: nat, bytesNeeded: nat, grant: nat -> bool, ghost m: Image,
      ghost before: seq<int>)
      returns (taken: bool, i: nat)
      requires Popped(m, bucket, ptr, before)
      modifies this`maxPtr, this`shadow, this`bytes, this`tree, ram, nodeStatus
      ensures var i0 := old(shadow).lists[bucket][|old(shadow).lists[bucket]| - 1];
              && i0 < NODE_COUNT && i0 < 2 * |old(shadow).bits| + 1 && (i0 > 0 ==> Parent(i0) < 4 * nodeStatus.Length)
              && var v := Addr(i0) + bytesNeeded;
                 && taken == (v <= old(shadow).top || grant(v))
                 && if taken then
                      && i == i0 && InOrder(i, before) && tree[i].Live? && Level(i) == bucket
                      && shadow == Pop(old(shadow), bucket).(top := if v <= old(shadow).top then old(shadow).top else v,
                                                             bits := FlipUnlessTop(old(shadow).bits, i))
                      && nodeStatus[..] == (if i == 0 then old(nodeStatus[..]) else ParentInc(old(nodeStatus[..]), i))
                      && StatusBut(nodeStatus[..], tree, bucketLimit, i) && Field(nodeStatus[..], i) == UNUSED
                    else InStep(before) && shadow == old(shadow) && nodeStatus[..] == old(nodeStatus[..])
    {
      hide Parent, Addr, Size, Level, Pow2, BitsOk, ListsOk, FreeBacked, BytesMatch, RingsMatch, HeadersOk, Family;
      hide Preserved, OnlyLinks, StatusOk, StatusBut, Inc, Field, FlipBytes, FlipUnlessTop, NewNode, Unlinked, Within;
      ghost var s, c1 := shadow, ram.cells;
      ghost var i0 := s.lists[bucket][|s.lists[bucket]| - 1];
      PopPlan(m, s, tree, bucket);
      InnerNodes(i0);
      if i0 > 0 { BuddyInRange(i0); }
      TakeStatus(nodeStatus[..], tree, bucketLimit, i0);
      var granted := UpdateMaxPtr(ptr + bytesNeeded, grant);
      if !granted {
        PutBack(ptr, bucket, m, before);
        return false, 0;
      }
      NodeOfAddr(i0);
      i := NodeForPtr(ptr - basePtr, bucket);
      TakeDone(m, s, tree, before, bucket, c1, ram.cells, maxPtr - HEAP);
      if i != 0 {
        ParentIncStatus(i);
      }
      bytes := FlipBytes(bytes, i);
      tree := tree[i := Live];
      shadow := Pop(s, bucket).(top := maxPtr - HEAP, bits := FlipUnlessTop(s.bits, i));
      return true, i;
    }

    // The splitting loop.
    method SplitTo(start: nat, from: nat, wanted: nat, ghost before: seq<int>) returns (i: nat)
      requires InOrder(start, before) && start < NODE_COUNT && tree[start].Live? && Level(start) == from <= wanted
      requires wanted < BUCKET_COUNT
      requires from < wanted ==> Addr(start) + Size(start) / 2 + LIST_T_SIZE <= shadow.top
      requires StatusBut(nodeStatus[..], tree, bucketLimit, start) && Field(nodeStatus[..], start) == UNUSED
      modifies this`shadow, this`bytes, this`tree, ram, nodeStatus
      ensures i == Leftmost(start, from, wanted) && i < NODE_COUNT && InOrder(i, before) && tree[i].Live?
      ensures StatusBut(nodeStatus[..], tree, bucketLimit, i)
      ensures shadow == SplitDown(old(shadow), start, from, wanted)
      ensures Shape2(old(St())) && St() == SplitDown2(old(St()), start, from, wanted)
      ensures shadow.headers == old(shadow.headers) && shadow.top == old(shadow.top)
    {
      hide Parent, Addr, Size, Level, Pow2, BitsOk, ListsOk, FreeBacked, BytesMatch, RingsMatch, HeadersOk, Family;
      hide Preserved, OnlyLinks, SplitPicture, SplitStep, SplitStep2, StatusBut;
      InOrderShape(start, before);
      i := start;
      var bucket := from;
      while bucket < wanted
        invariant from <= bucket <= wanted
        invariant i < NODE_COUNT && Level(i) == bucket && InOrder(i, before) && tree[i].Live?
        invariant StatusBut(nodeStatus[..], tree, bucketLimit, i) && Field(nodeStatus[..], i) == UNUSED
        invariant bucket < wanted ==> Addr(i) + Size(i) / 2 + LIST_T_SIZE <= shadow.top
        invariant Shape(old(shadow)) && Shape(shadow) && Shape2(old(St())) && Shape2(St())
        invariant SplitDown(shadow, i, bucket, wanted) == SplitDown(old(shadow), start, from, wanted)
        invariant SplitDown2(St(), i, bucket, wanted) == SplitDown2(old(St()), start, from, wanted)
        invariant Leftmost(i, bucket, wanted) == Leftmost(start, from, wanted)
        invariant shadow.headers == old(shadow.headers) && shadow.top == old(shadow.top)
      {
        i := SplitOnce(i, bucket, before);
        bucket := bucket + 1;
      }
    }

    lemma InOrderShape(work: int, before: seq<int>)
      requires InOrder(work, before) && 0 <= work < NODE_COUNT && |tree| == NODE_COUNT
      requires StatusBut(nodeStatus[..], tree, bucketLimit, work)
      ensures Shape(shadow) && Shape2(St()) && bucketLimit == shadow.limit && WellFormed(tree, bucketLimit)
    {
    }

    // One round of it: on to the left half, the right one goes on its list.
    method SplitOnce(j: nat, bucket: nat, ghost before: seq<int>) returns (i: nat)
      requires InOrder(j, before) && j < NODE_COUNT && tree[j].Live? && Level(j) == bucket && bucket + 1 < BUCKET_COUNT
      requires Addr(j) + Size(j) / 2 + LIST_T_SIZE <= shadow.top
      requires StatusBut(nodeStatus[..], tree, bucketLimit, j) && Field(nodeStatus[..], j) == UNUSED
      modifies this`shadow, this`bytes, this`tree, ram, nodeStatus
      ensures i == 2 * j + 1 && j < INNER_COUNT && i < NODE_COUNT && Level(i) == bucket + 1
      ensures InOrder(i, before) && tree[i].Live?
      ensures StatusBut(nodeStatus[..], tree, bucketLimit, i) && Field(nodeStatus[..], i) == UNUSED
      ensures Addr(i) == Addr(j) && 2 * Size(i) == Size(j)
      ensures shadow.headers == old(shadow.headers) && shadow.top == old(shadow.top)
      ensures Shape(old(shadow)) && shadow == SplitStep(old(shadow), j, bucket)
      ensures Shape2(old(St())) && St() == SplitStep2(old(St()), j, bucket)
    {
      hide Parent, Addr, Size, Level, Pow2, BitsOk, ListsOk, FreeBacked, BytesMatch, RingsMatch, HeadersOk, Family;
      hide Preserved, OnlyLinks, SplitPicture, StatusBut, Inc;
      ghost var m, s, t := Now(), shadow, tree;
      InOrderShape(j, before);
      SplitPlan(m, s, t, j, bucket);
      SplitStepKeeps(s, t, j, bucket);
      SplitStatus(nodeStatus[..], t, bucketLimit, j);
      ParentOfChild(j);
      BytesCover(m.bytes, s.bits);
      i := j * 2 + 1;
      ParentIncStatus(i);
      ram.ListPush(Head(bucket + 1), basePtr + PtrForNode(i + 1, bucket + 1));
      SplitDone(m, s, t, before, j, bucket, ram.cells);
      bytes := ToggleBit(bytes, j);
      shadow, tree := SplitStep(s, j, bucket), SplitPicture(t, j);
    }

    // The promotion loop.
    method PromoteParents(i: nat)
      requires 0 < i && 4 * nodeStatus.Length == NODE_COUNT + 1 && 2 * Parent(i) + 2 < NODE_COUNT
      modifies nodeStatus
      ensures nodeStatus[..] == Promote(old(nodeStatus[..]), Parent(i))
    {
      hide Field, Set, Pow2;
      var parent: nat := (i - 1) / 2;
      while parent != 0
        invariant 2 * parent + 2 < NODE_COUNT
        invariant Promote(nodeStatus[..], parent) == Promote(old(nodeStatus[..]), Parent(i))
      {
        var left := GetNodeStatus(parent * 2 + 1);
        var right := GetNodeStatus(parent * 2 + 2);
        if left == USED && right == USED {
          NodeSetStatus(parent, USED);
          parent := (parent - 1) / 2;
        } else {
          break;
        }
      }
    }

    // The rest of malloc_2, once a block has been popped. n is the request malloc_1 would have been given.
    method CarveBlock(ptr: int, bucket: nat, wanted: nat, grant: nat -> bool, ghost n: SizeT, ghost m: Image,
                      ghost before: seq<int>) returns (p: int)
      requires Popped(m, bucket, ptr, before)
      requires bucket <= wanted < BUCKET_COUNT && wanted > 0 && Need(n) <= MAX_ALLOC && wanted == BucketFor(Need(n))
      requires Level(shadow.lists[bucket][|shadow.lists[bucket]| - 1]) == bucket
      modifies this`maxPtr, this`shadow, this`bytes, this`tree, ram, nodeStatus
      ensures Valid() && basePtr == HEAP && Preserved(before, ram.cells, old(shadow).headers)
      ensures Shape(old(shadow)) && Shape2(old(St()))
      ensures var i := old(shadow).lists[bucket][|old(shadow).lists[bucket]| - 1];
              var r := Carve(Pop(old(shadow), bucket), i, bucket, wanted, n, grant);
              var r2 := Carve2(Pop2(old(St()), bucket), i, bucket, wanted, grant);
              && shadow == r.s && St() == r2.s
              && p == match r2.address case None => NULL case Some(a) => HEAP + a
    {
      hide Parent, Addr, Size, Level, Pow2, BitsOk, ListsOk, FreeBacked, BytesMatch, RingsMatch, HeadersOk, Family;
      hide Preserved, BucketFor, OnlyLinks, Carve, Carve2, SplitDown, SplitDown2, SplitPicture, Leftmost, StatusOk;
      hide StatusBut;
      hide Set, Inc, Promote, Field, FlipUnlessTop, Orderly, Sim, Popped;
      PoppedShape(m, bucket, ptr, before);
      BothCarve(shadow, St(), shadow.lists[bucket][|shadow.lists[bucket]| - 1], bucket, wanted, n, grant);
      var size := BlockSize(bucket);
      var bytesNeeded := if bucket < wanted then size / 2 + LIST_T_SIZE else size;
      var taken, i := TakeBlock(ptr, bucket, bytesNeeded, grant, m, before);
      if !taken {
        SettleIn(before);
        return NULL;
      }
      BytesSuffice(i, bucket, wanted, shadow.top);
      i := SplitTo(i, bucket, wanted, before);
      MarkTaken(i, wanted, n, before);
      return ptr;
    }

    lemma PoppedShape(m: Image, bucket: nat, ptr: int, before: seq<int>)
      requires Popped(m, bucket, ptr, before)
      ensures Shape(shadow) && Shape2(St()) && bucketLimit == shadow.limit && basePtr == HEAP
      ensures bucket < BUCKET_COUNT && shadow.lists[bucket] != []
      ensures ptr == BlockPtr(shadow.lists[bucket][|shadow.lists[bucket]| - 1])
    {
    }

    lemma SettleIn(before: seq<int>)
      requires InStep(before)
      ensures Valid() && Preserved(before, ram.cells, shadow.headers)
    {
    }

    // Marks the block USED, runs the promotion loop and hands the block over.
    method MarkTaken(i: nat, wanted: nat, ghost n: SizeT, ghost before: seq<int>)
      requires InOrder(i, before) && i < NODE_COUNT && tree[i].Live? && StatusBut(nodeStatus[..], tree, bucketLimit, i)
      requires Addr(i) + Size(i) <= shadow.top && Level(i) == wanted && 0 < wanted < BUCKET_COUNT
      requires Need(n) <= MAX_ALLOC && wanted == BucketFor(Need(n))
      modifies this`shadow, nodeStatus
      ensures Valid() && basePtr == HEAP && Preserved(before, ram.cells, old(shadow).headers)
      ensures 0 < i < 4 * |old(nodeStatus[..])| == NODE_COUNT + 1 && 2 * Parent(i) + 2 < NODE_COUNT
      ensures nodeStatus[..] == Promote(Set(old(nodeStatus[..]), i, USED), Parent(i))
      ensures shadow == old(shadow).(headers := old(shadow).headers[Addr(i) := n])
    {
      hide Addr, Size, Level, Pow2, BitsOk, ListsOk, FreeBacked, BytesMatch, RingsMatch, HeadersOk, Family;
      hide Preserved, BucketFor, StatusOk, StatusBut, Set, Promote;
      InOrderShape(i, before);
      LeafIsInner(i, wanted);
      MarkUsed(nodeStatus[..], tree, bucketLimit, i);
      PromotionChangesNothing(tree, bucketLimit, Set(nodeStatus[..], i, USED), Parent(i));
      NodeSetStatus(i, USED);
      PromoteParents(i);
      HandOver(Now(), shadow, tree, before, i, n);
      shadow := shadow.(headers := shadow.headers[Addr(i) := n]);
    }

    // Any request but one for more than half of an entirely free heap.
    method Malloc2(request: SizeT, grant: nat -> bool) returns (ptr: int)
      requires Valid()
      requires MayAsk(if basePtr == NULL then InitState() else shadow, request)
      requires basePtr == NULL ==> grant(LIST_T_SIZE)
      modifies this, ram, nodeStatus
      ensures Valid()
      ensures request > MAX_ALLOC ==> ptr == NULL && unchanged(this) && unchanged(ram) && unchanged(nodeStatus)
      ensures request <= MAX_ALLOC ==>
                var s := if old(basePtr) == NULL then InitState() else old(shadow);
                var s2 := if old(basePtr) == NULL then InitState2() else old(St());
                && Shape(s) && Shape2(s2) && Defined2(s2, request, grant) && basePtr == HEAP
                && St() == Buddy2Spec.Malloc2(s2, request, grant).s
                && shadow == BuddySpec.Malloc1(s, Shrunk(request), grant).s
                && (ptr == NULL <==> Buddy2Spec.Malloc2(s2, request, grant).address.None?)
                && if ptr == NULL then shadow.headers == s.headers
                   else
                     // a new block, handed out from its first byte on
                     var a := ptr - HEAP;
                     && Buddy2Spec.Malloc2(s2, request, grant).address == Some(a)
                     && a !in s.headers && shadow.headers == s.headers[a := Shrunk(request)]
      ensures old(basePtr) != NULL ==> Preserved(old(ram.cells), ram.cells, old(shadow.headers))
    {
      hide Level, Addr, Size, Pow2, Parent, BitsOk, ListsOk, FreeBacked, BytesMatch, RingsMatch, HeadersOk, Family;
      hide Preserved, Carve, Carve2, FindBlock, FindBlock2, BucketFor, StatusOk, InitState, InitState2, Need, Shrunk;
      if request > MAX_ALLOC {
        return NULL;
      }
      if basePtr == NULL {
        Initialize(grant);
      }
      ghost var before := ram.cells;
      InStepShape(before);
      SameBucket(request);
      MayAskIsDefined(shadow, tree, St(), request, grant);
      SameBlockHandedOut(shadow, tree, St(), request, grant);
      var wanted := BucketForRequest(request);
      ghost var m;
      var bucket;
      ptr, bucket, m := FindFree(wanted, grant, before);
      if ptr == NULL {
        SettleIn(before);
        return NULL;
      }
      PopPlan(m, shadow, tree, bucket);
      ptr := CarveBlock(ptr, bucket, wanted, grant, Shrunk(request), m, before);
    }

    // ---------- free_2 ----------

    // The block's bucket, looked for from the smallest size up.
    method BucketForAllocedPointer(ptr: int) returns (bucket: nat)
      requires Shape2(St()) && HEAP <= ptr < HEAP + MAX_ALLOC && basePtr == HEAP
      requires BucketOf(St(), ptr - HEAP, BUCKET_COUNT - 1).Some?
      ensures Some(bucket) == BucketOf(St(), ptr - HEAP, BUCKET_COUNT - 1)
    {
      hide Field, NodeForPtr, Pow2;
      var i := BUCKET_COUNT - 1;
      while i >= bucketLimit
        invariant 0 <= i < BUCKET_COUNT
        invariant BucketOf(St(), ptr - HEAP, i) == BucketOf(St(), ptr - HEAP, BUCKET_COUNT - 1)
        decreases i
      {
        NodeInRange(ptr - HEAP, i);
        var nodeStatus := GetNodeStatus(NodeForPtr(ptr - basePtr, i));
        if nodeStatus == USED {
          return i;
        }
        i := i - 1;
      }
      assert false;
    }

    // Unlinks the free buddy of i, whose own field has just been reset: the two halves are one block again.
    method MergeBuddy(i: nat, bucket: nat, ghost before: seq<int>)
      requires InOrder(i, before)
      requires 0 < i < NODE_COUNT && tree[i].Live? && Level(i) == bucket && !StopsHere(shadow, tree, i)
      modifies this`shadow, this`bytes, this`tree, ram
      ensures Level(Parent(i)) == bucket - 1 && bucket < BUCKET_COUNT && Parent(i) < INNER_COUNT
          && Buddy(i) < NODE_COUNT
      ensures shadow == Unlink(old(shadow).(bits := Flip(old(shadow).bits, i)), bucket, Buddy(i))
      ensures tree == MergePicture(old(tree), i)
      ensures Parent(i) < NODE_COUNT && InOrder(Parent(i), before) && tree[Parent(i)].Live?
      ensures Addr(Parent(i)) + LIST_T_SIZE <= shadow.top
    {
      hide Addr, Size, Level, Pow2, Parent, BitsOk, ListsOk, FreeBacked, RingsMatch, HeadersOk, Family;
      hide Preserved, OnlyLinks, MergePicture, Root, ToggleBit, BytesMatch;
      ghost var m := Now();
      BytesCover(m.bytes, shadow.bits);
      MergePlan(m, shadow, tree, i, bucket);
      ram.ListRemove(basePtr + PtrForNode(Buddy(i), bucket));
      MergeDone(m, shadow, tree, before, i, bucket, ram.cells);
      bytes := ToggleBit(bytes, Parent(i));
      tree := MergePicture(tree, i);
      shadow := Unlink(shadow.(bits := Flip(shadow.bits, i)), bucket, Buddy(i));
    }

    // The final push.
    method Release(i: nat, bucket: nat, ghost before: seq<int>)
      requires InOrder(i, before)
      requires i < NODE_COUNT && tree[i].Live? && Level(i) == bucket && StopsHere(shadow, tree, i)
      requires Addr(i) + LIST_T_SIZE <= shadow.top
      modifies this`shadow, this`bytes, this`tree, ram
      ensures InOrder(-1, before) && bucket < BUCKET_COUNT && i < 2 * |old(shadow).bits| + 1
      ensures tree == old(tree)[i := Free]
      ensures shadow == Push(old(shadow).(bits := FlipUnlessTop(old(shadow).bits, i)), bucket, i)
    {
      hide Addr, Size, Level, Pow2, Parent, BitsOk, ListsOk, FreeBacked, RingsMatch, HeadersOk, Family;
      hide Preserved, OnlyLinks, Root, BytesMatch, FlipBytes;
      ghost var m := Now();
      ReleasePlan(m, shadow, tree, i, bucket);
      FlipBytesMatch(m.bytes, shadow.bits, i);
      ram.ListPush(Head(bucket), basePtr + PtrForNode(i, bucket));
      ReleaseDone(m, shadow, tree, before, i, bucket, ram.cells);
      bytes := FlipBytes(bytes, i);
      tree := tree[i := Free];
      shadow := Push(shadow.(bits := FlipUnlessTop(shadow.bits, i)), bucket, i);
    }

    // What the climb knows of block i, the one being freed or merged.
    ghost predicate Climbing(i: nat, bucket: nat, before: seq<int>)
      reads this, ram, nodeStatus
    {
      && i < NODE_COUNT && |tree| == NODE_COUNT && tree[i].Live? && Level(i) == bucket < BUCKET_COUNT
      && InOrder(i, before) && Addr(i) + LIST_T_SIZE <= shadow.top
      && StatusBut(nodeStatus[..], tree, bucketLimit, i)
    }

    lemma ClimbingShape(i: nat, bucket: nat, before: seq<int>)
      requires Climbing(i, bucket, before)
      ensures Shape(shadow) && Shape2(St()) && bucketLimit == shadow.limit && Core(shadow, tree)
      ensures i < NODE_COUNT && Level(i) == bucket < BUCKET_COUNT && i < 2 * |shadow.bits| + 1
      ensures i > 0 ==> Parent(i) < INNER_COUNT && Buddy(i) < NODE_COUNT
      ensures i == 0 ==> !MayFree(nodeStatus[..], tree, bucketLimit, i)
      ensures bucket == bucketLimit <==> i == Root(bucketLimit)
    {
      if MayFree(nodeStatus[..], tree, bucketLimit, i) { NotNodeZero(nodeStatus[..], tree, bucketLimit, i); }
      if i > 0 { BuddyInRange(i); }
      InnerNodes(i);
      RootLevel(bucketLimit);
      OnlyNodeAtRootLevel(tree, bucketLimit, i);
    }

    // The field of block i is reset; its buddy's status then tells whether the climb goes on.
    lemma ClimbStatus(i: nat, bucket: nat, before: seq<int>, status: seq<bv8>)
      requires Climbing(i, bucket, before) && i > 0 && status == Set(nodeStatus[..], i, UNUSED)
      ensures Buddy(i) < NODE_COUNT && Parent(i) < INNER_COUNT && Parent(i) < 4 * |status| == NODE_COUNT + 1
      ensures Field(status, Buddy(i)) != UNUSED || bucket == bucketLimit <==> StopsHere(shadow, tree, i)
      ensures StopsHere(shadow, tree, i) && MayFree(nodeStatus[..], tree, bucketLimit, i) ==>
                StatusOk(ParentDec(status, i), tree[i := Free], bucketLimit)
      ensures !StopsHere(shadow, tree, i) ==>
                && Parent(i) < NODE_COUNT
                && StatusBut(status, MergePicture(tree, i), bucketLimit, Parent(i))
                && (MayFree(nodeStatus[..], tree, bucketLimit, i) <==>
                      MayFree(status, MergePicture(tree, i), bucketLimit, Parent(i)))
    {
      hide Level, Pow2, Addr, Size, Field, Set, Dec, StatusBut, StatusOk, Orderly, Marked, OtherLive;
      ClimbingShape(i, bucket, before);
      InnerNodes(Parent(i));
      StatusButLength(nodeStatus[..], tree, bucketLimit, i);
      if i == Root(bucketLimit) {
        if MayFree(nodeStatus[..], tree, bucketLimit, i) {
          NotNodeZero(nodeStatus[..], tree, bucketLimit, i);
          EmptyStatus(nodeStatus[..], tree, bucketLimit);
        }
      } else {
        FreeStatusAt(nodeStatus[..], tree, bucketLimit, i, i);
        if StopsHere(shadow, tree, i) {
          ReleaseStatus(nodeStatus[..], tree, bucketLimit, i);
        } else {
          MergeStatus(nodeStatus[..], tree, bucketLimit, i);
          MergeMayFree(nodeStatus[..], tree, bucketLimit, i);
        }
      }
    }

    // The climb of free_2.
    method Climb(start: nat, from: nat, ghost before: seq<int>)
      requires Climbing(start, from, before)
      modifies this`shadow, this`bytes, this`tree, ram, nodeStatus
      ensures InOrder(-1, before)
      ensures old(MayFree(nodeStatus[..], tree, bucketLimit, start)) ==> Sim(shadow, tree, St())
      ensures Shape(old(shadow)) && Level(start) == from < BUCKET_COUNT && shadow == Coalesce(old(shadow), start, from)
      ensures Shape2(old(St())) && St() == Coalesce2(old(St()), start, from)
      ensures shadow.headers == old(shadow.headers)
    {
      hide Addr, Size, Level, Pow2, Parent, BitsOk, ListsOk, FreeBacked, RingsMatch, HeadersOk, Family, BytesMatch;
      hide Preserved, OnlyLinks, MergePicture, Root, StatusOk, StatusBut, MayFree, Set, Dec, Field;
      var i: nat := start;
      var bucket: nat := from;
      ghost var spared := MayFree(nodeStatus[..], tree, bucketLimit, start);
      ClimbingShape(i, bucket, before);
      while i != 0
        invariant Climbing(i, bucket, before)
        invariant MayFree(nodeStatus[..], tree, bucketLimit, i) <==> spared
        invariant Shape(shadow) && Shape2(St()) && Level(i) == bucket < BUCKET_COUNT
        invariant Coalesce(shadow, i, bucket) == Coalesce(old(shadow), start, from)
        invariant Coalesce2(St(), i, bucket) == Coalesce2(old(St()), start, from)
        invariant shadow.headers == old(shadow.headers)
        decreases bucket
      {
        ClimbingShape(i, bucket, before);
        ClimbStatus(i, bucket, before, Set(nodeStatus[..], i, UNUSED));
        CoalesceStep(shadow, tree, i, bucket);
        NodeSetStatus(i, UNUSED);
        var buddyStatus := GetNodeStatus(Buddy(i));
        if buddyStatus != UNUSED || bucket == bucketLimit {
          ParentDecStatus(i);
          break;
        }
        MergeBuddy(i, bucket, before);
        i := Parent(i);
        bucket := bucket - 1;
        ClimbingShape(i, bucket, before);
      }
      if i == 0 { ClimbingShape(i, bucket, before); }
      Release(i, bucket, before);
    }

    // free_2 is given NULL or a block that is currently live. The lists and the tree come out right whatever block it
    // is; the status fields do exactly when another block is live or the mark above the root is there.
    method Free2(ptr: int)
      requires Valid()
      requires ptr == NULL || (basePtr != NULL && ptr - HEAP in shadow.headers)
      modifies this`shadow, this`bytes, this`tree, ram, nodeStatus
      ensures basePtr == old(basePtr)
      ensures ptr == NULL ==> Valid() && unchanged(this) && unchanged(ram) && unchanged(nodeStatus)
      ensures ptr != NULL ==>
                var a := ptr - HEAP;
                && InOrder(-1, ram.cells)
                && (Valid() <==> Spared(old(shadow), old(nodeStatus[..]), a))
                && Shape(old(shadow)) && Shape2(old(St())) && a < MAX_ALLOC
                && BucketOf(old(St()), a, BUCKET_COUNT - 1).Some?
                && St() == Buddy2Spec.Free2(old(St()), a)
                && Need(old(shadow).headers[a]) <= MAX_ALLOC
                && Level(FreedNode(old(shadow), a)) == BucketFor(Need(old(shadow).headers[a]))
                && shadow == BuddySpec.Free1(old(shadow), a)
                && Preserved(old(ram.cells), ram.cells, shadow.headers)
    {
      hide Addr, Size, Level, Pow2, Parent, BitsOk, ListsOk, FreeBacked, BytesMatch, RingsMatch, HeadersOk, Family;
      hide Preserved, BucketFor, BucketOf, OnlyLinks, Coalesce, Coalesce2, StatusOk, StatusBut, MayFree, Spared, Need;
      if ptr == NULL {
        return;
      }
      ghost var before, a, s, t, s2 := ram.cells, ptr - HEAP, shadow, tree, St();
      InStepShape(before);
      FreeStart(Now(), s, t, before, a);
      ghost var i0 := FreedNode(s, a);
      if Spared(s, s2.status, a) { SparedMayFree(s, t, s2.status, a); }
      SizeRecovery(s, t, s2, i0, BUCKET_COUNT - 1);
      WorkOn(s2.status, t, bucketLimit, i0);
      var bucket := BucketForAllocedPointer(ptr);
      NodeOfAddr(i0);
      var i := NodeForPtr(ptr - basePtr, bucket);
      shadow := shadow.(headers := shadow.headers - {a});
      Climb(i, bucket, before);
      SettleOrder(before);
      if !Spared(s, s2.status, a) { UnsparedBreaks(s, t, s2, a, shadow, tree, St()); }
    }

    lemma SettleOrder(before: seq<int>)
      requires InOrder(-1, before)
      ensures InOrder(-1, ram.cells) && Preserved(before, ram.cells, shadow.headers)
      ensures Valid() <==> Sim(shadow, tree, St())
      ensures Inv(shadow, tree)
    {
      hide Sim;
    }

    // What the owner of a live block may do between calls: store in any aligned word of it.
    method WriteBlock(a: nat, p: int, v: int)
      requires Valid() && basePtr != NULL && InBlock(shadow.headers, a, p) && p % 8 == 0
      modifies ram
      ensures 0 <= p < |old(ram.cells)| && Valid() && ram.cells == old(ram.cells)[p := v]
    {
      hide Addr, Size, Level, Pow2, Parent, BitsOk, ListsOk, FreeBacked, BytesMatch, RingsMatch, Family, StatusOk;
      var j := PayloadPlace(Now(), shadow, tree, a, p);
      ram.Store(p, v);
    }
  }
}
