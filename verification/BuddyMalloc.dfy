/** buddy_malloc.c as it runs: statics changed in place, links and headers kept in the heap itself. */
module BuddyMalloc {
  import opened Options
  import opened Geometry
  import opened FreeLists
  import opened Tree
  import opened BuddySpec
  import opened BuddyInvariant
  import opened BuddyMallocProof
  import opened BuddyFreeProof
  import opened Memory
  import opened StatusBits
  import opened BuddyLayout
  import opened BuddyImage

  class Allocator {
    const ram: Ram
    const nodeStatus: array<bv8>
    var bucketLimit: nat
    var basePtr: int
    var maxPtr: int

    ghost var st: State
    ghost var tree: seq<Kind>

    ghost function Now(): Image
      reads this, ram, nodeStatus
    {
      Image(ram.cells, ram.rings, nodeStatus[..], bucketLimit, maxPtr)
    }

    // What holds between the steps of a call: memory and statics represent st, of which tree is the picture, and
    // every live block but the one being worked on has the words it had in `before`.
    ghost predicate InOrder(work: int, before: seq<int>)
      reads this, ram, nodeStatus
    {
      basePtr == HEAP && Orderly(Now(), st, tree, work, before)
    }

    // Before the first call everything is as the loader left it.
    ghost predicate Pristine()
      reads this, ram, nodeStatus
    {
      && ram.Valid() && ram.rings == map[] && |ram.cells| == HEAP
      && BytesMatch(nodeStatus[..], InitState().bits)
    }

    ghost predicate Valid()
      reads this, ram, nodeStatus
    {
      if basePtr == NULL then Pristine()
      else InOrder(-1, ram.cells) && HeadersStored(ram.cells, st.headers)
    }

    constructor ()
      ensures Valid() && basePtr == NULL
    {
      ram := new Ram(HEAP);
      nodeStatus := new bv8[Pow2(BUCKET_COUNT - 1) / 8](_ => 0);
      bucketLimit := 0;
      basePtr := NULL;
      maxPtr := NULL;
      st := InitState();
      tree := [];
      new;
      ZeroBytes(nodeStatus[..]);
    }

    static lemma ZeroBytes(bytes: seq<bv8>)
      requires |bytes| == Pow2(BUCKET_COUNT - 1) / 8 && forall k :: 0 <= k < |bytes| ==> bytes[k] == 0
      ensures BytesMatch(bytes, InitState().bits)
    {
      EighthOf(BUCKET_COUNT - 1);
      hide Pow2, ByteBit;
      forall j | 0 <= j < INNER_COUNT
        ensures !Bit(bytes, j)
      {
        ZeroByte(j % 8);
      }
    }

    static lemma EighthOf(b: nat)
      requires b >= 3
      ensures 8 * (Pow2(b) / 8) == Pow2(b)
    {
      hide Pow2;
      var q := Pow2(b - 3);
      Doubled(b);
      Doubled(b - 1);
      Doubled(b - 2);
      assert (8 * q) / 8 == q;
    }

    // grant tells whether sbrk lets the heap reach the given offset from base_ptr.
    method UpdateMaxPtr(newValue: int, grant: nat -> bool) returns (ok: bool)
      requires ram.Valid() && |ram.cells| == maxPtr && HEAP <= newValue
      modifies this`maxPtr, ram
      ensures ram.Valid() && ram.rings == old(ram.rings) && |ram.cells| == maxPtr
      ensures old(ram.cells) <= ram.cells && (!ok ==> ram.cells == old(ram.cells))
      ensures ok <==> newValue <= old(maxPtr) || grant(newValue - HEAP)
      ensures maxPtr == if ok && newValue > old(maxPtr) then newValue else old(maxPtr)
    {
      if newValue > maxPtr {
        if !grant(newValue - HEAP) {
          return false;
        }
        ram.Sbrk(newValue - maxPtr);
        maxPtr := newValue;
      }
      return true;
    }

    method ParentSplit(index: nat, ghost bits: seq<bool>) returns (split: bool)
      requires BytesMatch(nodeStatus[..], bits) && 0 < index < NODE_COUNT
      ensures Parent(index) < INNER_COUNT && split == ParentIsSplit(bits, index)
    {
      BuddyInRange(index);
      var i := (index - 1) / 2;
      assert Bit(nodeStatus[..], i) == bits[i];
      split := (nodeStatus[i / 8] >> (i % 8)) & 1 == 1;
    }

    method FlipParentSplit(index: nat)
      requires 0 < index && Parent(index) < 8 * nodeStatus.Length
      modifies nodeStatus
      ensures nodeStatus[..] == ToggleBit(old(nodeStatus[..]), Parent(index))
    {
      var i := (index - 1) / 2;
      nodeStatus[i / 8] := nodeStatus[i / 8] ^ (1 << (i % 8));
    }

    method LowerBucketLimit(bucket: nat, grant: nat -> bool, ghost before: seq<int>) returns (ok: bool)
      requires InOrder(-1, before)
      modifies this`bucketLimit, this`maxPtr, this`st, this`tree, ram, nodeStatus
      ensures InOrder(-1, before) && SameLive(old(tree), tree)
      ensures Reply(ok, st) == LowerLimit(old(st), bucket, grant)
      ensures st.headers == old(st.headers) && (ok ==> bucketLimit <= bucket)
    {
      hide Level, Addr, Size, Pow2, Parent, BitsOk, ListsOk, FreeBacked, BytesMatch, RingsMatch, HeadersOk;
      hide Preserved, Family, GrowOnce;
      InOrderShape(before);
      while bucket < bucketLimit
        invariant InOrder(-1, before) && Shape(st) && Shape(old(st))
        invariant LowerLimit(st, bucket, grant) == LowerLimit(old(st), bucket, grant)
        invariant |old(tree)| == |tree| == NODE_COUNT && SameLive(old(tree), tree)
        invariant st.headers == old(st.headers)
        decreases bucketLimit
      {
        var grown := GrowRoot(grant, before);
        InOrderShape(before);
        if !grown {
          return false;
        }
      }
      return true;
    }

    lemma InOrderShape(before: seq<int>)
      requires InOrder(-1, before)
      ensures Shape(st) && |tree| == NODE_COUNT && bucketLimit == st.limit
    {
    }

    // One round of the growing loop.
    method GrowRoot(grant: nat -> bool, ghost before: seq<int>) returns (ok: bool)
      requires InOrder(-1, before) && bucketLimit > 0
      modifies this`bucketLimit, this`maxPtr, this`st, this`tree, ram, nodeStatus
      ensures InOrder(-1, before) && SameLive(old(tree), tree)
      ensures Shape(old(st)) && old(st).limit > 0 && Reply(ok, st) == GrowOnce(old(st), grant)
      ensures st.headers == old(st.headers)
    {
      hide Level, Addr, Size, Pow2, Parent, BitsOk, ListsOk, FreeBacked, BytesMatch, RingsMatch, HeadersOk;
      hide Preserved, Family, GrowPicture, GrowFree, GrowUsed;
      InOrderShape(before);
      BaseNode(bucketLimit);
      var root := NodeForPtr(0, bucketLimit);
      RootBit(st, tree);
      RightOfRoot(bucketLimit);
      RootInRange(bucketLimit);
      hide Root, NodeForPtr;
      var split := ParentSplit(root, st.bits);
      if !split {
        GrowUnused(before);
        return true;
      }
      var rightChild := basePtr + PtrForNode(root + 1, bucketLimit);
      ok := Reach(rightChild + LIST_T_SIZE, grant, -1, before);
      if ok {
        GrowInUse(rightChild, before);
      }
    }

    // update_max_ptr between two steps.
    method Reach(newValue: int, grant: nat -> bool, ghost work: int, ghost before: seq<int>) returns (ok: bool)
      requires InOrder(work, before) && HEAP <= newValue
      modifies this`maxPtr, this`st, ram
      ensures InOrder(work, before)
      ensures Reply(ok, st) == Reserve(old(st), newValue - HEAP, grant)
    {
      hide Level, Addr, Size, Pow2, Parent, Core, BytesMatch, RingsMatch, HeadersOk, Preserved, Family;
      ghost var m := Now();
      ok := UpdateMaxPtr(newValue, grant);
      ReserveDone(m, st, tree, work, before, ram.cells, maxPtr - HEAP);
      st := st.(top := maxPtr - HEAP);
    }

    // The root is unused: unlink it, and list its parent instead.
    method GrowUnused(ghost before: seq<int>)
      requires InOrder(-1, before) && bucketLimit > 0 && tree[Root(bucketLimit)].Free?
      modifies this`bucketLimit, this`st, this`tree, ram
      ensures InOrder(-1, before)
      ensures st == GrowFree(old(st)) && SameLive(old(tree), tree)
      ensures st.headers == old(st.headers)
    {
      hide Level, Addr, Size, Pow2, Parent, BitsOk, ListsOk, FreeBacked, BytesMatch, RingsMatch, HeadersOk;
      hide Preserved, Family, OnlyLinks, NewNode, Unlinked, GrowPicture;
      ghost var m := Now();
      GrowFreePlan(m.rings, st, tree, |m.cells|);
      ram.ListRemove(basePtr);
      bucketLimit := bucketLimit - 1;
      ram.ListInit(Head(bucketLimit));
      ram.ListPush(Head(bucketLimit), basePtr);
      GrowFreeDone(m, st, tree, before, ram.cells);
      tree := GrowPicture(tree, st.limit);
      st := GrowFree(st);
    }

    // The root is in use: its right buddy becomes free, and their parent the new root.
    method GrowInUse(rightChild: int, ghost before: seq<int>)
      requires InOrder(-1, before) && bucketLimit > 0 && !tree[Root(bucketLimit)].Free?
      requires Root(bucketLimit) + 1 < NODE_COUNT && rightChild == HEAP + Addr(Root(bucketLimit) + 1)
      requires rightChild + LIST_T_SIZE <= maxPtr
      modifies this`bucketLimit, this`st, this`tree, ram, nodeStatus
      ensures InOrder(-1, before)
      ensures st == GrowUsed(old(st)) && SameLive(old(tree), tree)
      ensures st.headers == old(st.headers)
    {
      hide Level, Addr, Size, Pow2, Parent, BitsOk, ListsOk, FreeBacked, BytesMatch, RingsMatch, HeadersOk;
      hide Preserved, Family, OnlyLinks, NewNode, GrowPicture;
      ghost var m := Now();
      RootLevel(bucketLimit);
      RootInRange(bucketLimit - 1);
      GrowUsedPlan(m.rings, st, tree, |m.cells|);
      FlipBytesMatch(m.bytes, st.bits, Root(bucketLimit - 1));
      var root := Root(bucketLimit);
      ram.ListPush(Head(bucketLimit), rightChild);
      ghost var c1 := ram.cells;
      bucketLimit := bucketLimit - 1;
      ram.ListInit(Head(bucketLimit));
      root := Parent(root);
      if root != 0 {
        FlipParentSplit(root);
      }
      GrowUsedDone(m, st, tree, before, c1, ram.cells, nodeStatus[..]);
      tree := GrowPicture(tree, st.limit);
      st := GrowUsed(st);
    }
  
    // ---------- malloc_1 ----------

    // The first call: one smallest block at the program break, and its list.
    method Initialize(grant: nat -> bool)
      requires basePtr == NULL && Pristine() && grant(LIST_T_SIZE)
      modifies this, ram
      ensures InOrder(-1, ram.cells) && HeadersStored(ram.cells, st.headers)
      ensures st == InitState()
    {
      hide Level, Addr, Size, Pow2, Parent, Core, BytesMatch, RingsMatch, HeadersOk, Preserved;
      basePtr := |ram.cells|;
      maxPtr := basePtr;
      bucketLimit := BUCKET_COUNT - 1;
      var _ := UpdateMaxPtr(basePtr + LIST_T_SIZE, grant);
      HeapAligned();
      ram.ListInit(Head(BUCKET_COUNT - 1));
      ram.ListPush(Head(BUCKET_COUNT - 1), basePtr);
      assert [] + [HEAP] == [HEAP];
      InitDone(Now());
      st, tree := InitState(), InitPicture();
    }

    // The last block of bucket b has just been popped: m is the image before the pop.
    ghost predicate Popped(m: Image, b: nat, ptr: int, before: seq<int>)
      reads this, ram, nodeStatus
    {
      && basePtr == HEAP && Orderly(m, st, tree, -1, before) && st.limit <= b < BUCKET_COUNT && st.lists[b] != []
      && ptr == BlockPtr(st.lists[b][|st.lists[b]| - 1])
      && Head(b) in m.rings && m.rings[Head(b)] != []
      && ram.Valid() && ram.rings == m.rings[Head(b) := DropLast(m.rings[Head(b)])]
      && OnlyLinks(m.cells, ram.cells, m.rings, ptr) && |ram.cells| == |m.cells|
      && nodeStatus[..] == m.bytes && bucketLimit == m.limit && maxPtr == m.maxPtr
    }

    method PopBlock(bucket: nat, ghost before: seq<int>) returns (ptr: int)
      requires InOrder(-1, before) && bucketLimit <= bucket < BUCKET_COUNT
      modifies ram
      ensures ptr == NULL <==> st.lists[bucket] == []
      ensures ptr == NULL ==> InOrder(-1, before)
      ensures ptr != NULL ==> Popped(old(Now()), bucket, ptr, before)
    {
      hide Level, Addr, Size, Pow2, Parent, BitsOk, ListsOk, FreeBacked, BytesMatch, HeadersOk, Preserved, Family;
      hide OnlyLinks;
      assert Head(bucket) in ram.rings && ram.rings[Head(bucket)] == Ptrs(st.lists[bucket]);
      if st.lists[bucket] != [] { PopMatches(ram.rings, st.lists, st.limit, bucket); }
      ptr := ram.ListPop(Head(bucket));
    }

    // malloc_1's search loop: pops a block of bucket `wanted` or of the nearest larger one that has any, growing the
    // tree when nothing large enough is free.
    method FindFree(wanted: nat, grant: nat -> bool, ghost before: seq<int>)
      returns (ptr: int, bucket: int, ghost m: Image)
      requires InOrder(-1, before) && wanted < BUCKET_COUNT
      modifies this`bucketLimit, this`maxPtr, this`st, this`tree, ram, nodeStatus
      ensures st.headers == old(st.headers)
      ensures ptr == NULL ==> InOrder(-1, before)
      ensures var hit := FindBlock(old(st), wanted, grant);
              if ptr == NULL then !hit.found.Block? && st == hit.s
              else
                && 0 <= bucket <= wanted && Popped(m, bucket, ptr, before)
                && hit == Search(Block(st.lists[bucket][|st.lists[bucket]| - 1], bucket), Pop(st, bucket))
    {
      hide Level, Addr, Size, Pow2, Parent, BitsOk, ListsOk, FreeBacked, BytesMatch, RingsMatch, HeadersOk, Family;
      hide Preserved, LowerLimit, OnlyLinks;
      bucket := wanted;
      m := Now();
      // bucket counts down in a size_t: below 0 it wraps to the value that ends the loop
      while bucket + 1 != 0
        invariant -1 <= bucket <= wanted
        invariant InOrder(-1, before) && st.headers == old(st.headers)
        invariant bucket >= 0 ==> FindBlock(st, bucket, grant) == FindBlock(old(st), wanted, grant)
        invariant bucket < 0 ==> FindBlock(old(st), wanted, grant) == Search(NoBlock, st)
      {
        var ok := LowerBucketLimit(bucket, grant, before);
        if !ok {
          return NULL, bucket, m;
        }
        m := Now();
        ptr := PopBlock(bucket, before);
        if ptr == NULL {
          if bucket != bucketLimit || bucket == 0 {
            bucket := bucket - 1;
            continue;
          }
          ghost var u := SecondPopFinds(st, tree, grant);
          ok := LowerBucketLimit(bucket - 1, grant, before);
          if !ok {
            return NULL, bucket, m;
          }
          m := Now();
          ptr := PopBlock(bucket, before);
        }
        return;
      }
      return NULL, bucket, m;
    }

    // Backs the popped block and marks it taken, or puts it back when sbrk refuses.
    method TakeBlock(ptr: int, bucket: nat, bytesNeeded: nat, grant: nat -> bool, ghost m: Image,
      ghost before: seq<int>)
      returns (taken: bool, i: nat)
      requires Popped(m, bucket, ptr, before)
      modifies this`maxPtr, this`st, this`tree, ram, nodeStatus
      ensures var i0 := old(st).lists[bucket][|old(st).lists[bucket]| - 1];
              && i0 < NODE_COUNT && i0 < 2 * |old(st).bits| + 1
              && var v := Addr(i0) + bytesNeeded;
                 && taken == (v <= old(st).top || grant(v))
                 && if taken then
                      && i == i0 && InOrder(i, before) && tree[i].Live? && Level(i) == bucket
                      && st == Pop(old(st), bucket).(top := if v <= old(st).top then old(st).top else v,
                                                     bits := FlipUnlessTop(old(st).bits, i))
                    else InOrder(-1, before) && st == old(st)
    {
      hide Parent, Addr, Size, Level, Pow2, BitsOk, ListsOk, FreeBacked, BytesMatch, RingsMatch, HeadersOk, Family;
      hide Preserved, HeadersStored, OnlyLinks;
      ghost var s, c1 := st, ram.cells;
      ghost var i0 := s.lists[bucket][|s.lists[bucket]| - 1];
      PopPlan(m, s, tree, bucket);
      InnerNodes(i0);
      var granted := UpdateMaxPtr(ptr + bytesNeeded, grant);
      if !granted {
        ram.ListPush(Head(bucket), ptr);
        PushBackDone(m, s, tree, before, bucket, c1, ram.cells);
        return false, 0;
      }
      NodeOfAddr(i0);
      i := NodeForPtr(ptr - basePtr, bucket);
      TakeDone(m, s, tree, before, bucket, c1, ram.cells, maxPtr - HEAP);
      if i != 0 {
        FlipParentSplit(i);
      }
      tree := tree[i := Live];
      st := Pop(s, bucket).(top := maxPtr - HEAP, bits := FlipUnlessTop(s.bits, i));
      return true, i;
    }

    method Malloc1(request: SizeT, grant: nat -> bool) returns (ptr: int)
      requires Valid()
      // the outcome of the very first reservation is ignored, so it has to succeed
      requires basePtr == NULL ==> grant(LIST_T_SIZE)
      modifies this, ram, nodeStatus
      ensures Valid()
      ensures Need(request) > MAX_ALLOC ==> ptr == NULL && unchanged(this) && unchanged(ram) && unchanged(nodeStatus)
      ensures Need(request) <= MAX_ALLOC ==>
                var s := if old(basePtr) == NULL then InitState() else old(st);
                && basePtr == HEAP
                && st == BuddySpec.Malloc1(s, request, grant).s
                && (ptr == NULL <==> BuddySpec.Malloc1(s, request, grant).address.None?)
                && if ptr == NULL then st.headers == s.headers
                   else
                     // a new block, whose first word holds the request; the caller's bytes begin after that word
                     var a := ptr - 8 - HEAP;
                     && BuddySpec.Malloc1(s, request, grant).address == Some(a)
                     && a !in s.headers && st.headers == s.headers[a := request]
                     && HEAP <= ptr - 8 < |ram.cells| && ram.cells[ptr - 8] == request
      ensures old(basePtr) != NULL ==> Preserved(old(ram.cells), ram.cells, old(st.headers))
    {
      hide Level, Addr, Size, Pow2, Parent, BitsOk, ListsOk, FreeBacked, BytesMatch, RingsMatch, HeadersOk, Family;
      hide Preserved, Carve, FindBlock, HeadersStored, BucketFor;
      var need := (request + HEADER_SIZE) % WORD;
      if need > MAX_ALLOC {
        return NULL;
      }
      if basePtr == NULL {
        Initialize(grant);
      }
      ghost var before := ram.cells;
      HandedOut(st, tree, request, grant);
      var wanted := BucketForRequest(need);
      ghost var m;
      var bucket;
      ptr, bucket, m := FindFree(wanted, grant, before);
      if ptr == NULL {
        Settle(Now(), st, tree, before);
        return NULL;
      }
      PopPlan(m, st, tree, bucket);
      ptr := CarveBlock(ptr, bucket, wanted, request, grant, m, before);
      if ptr != NULL { HeaderInMemory(Now(), st, tree, ptr - HEADER_SIZE - HEAP); }
    }

    // What a call does to the live blocks, on values.
    static lemma HandedOut(s: State, t: seq<Kind>, request: SizeT, grant: nat -> bool)
      requires Inv(s, t)
      ensures Shape(s)
      ensures var r := BuddySpec.Malloc1(s, request, grant);
              match r.address
              case None => r.s.headers == s.headers
              case Some(a) => a !in s.headers && r.s.headers == s.headers[a := request]
    {
      CoreShape(s, t);
      hide BuddySpec.Malloc1, Core, HeadersOk;
      var u := MallocKeeps(s, t, request, grant);
    }

    lemma PoppedShape(m: Image, bucket: nat, ptr: int, before: seq<int>)
      requires Popped(m, bucket, ptr, before)
      ensures Shape(st) && |m.bytes| == nodeStatus.Length && basePtr == HEAP
      ensures bucket < BUCKET_COUNT && st.lists[bucket] != []
      ensures ptr == BlockPtr(st.lists[bucket][|st.lists[bucket]| - 1])
    {
    }

    lemma SettleIn(before: seq<int>)
      requires InOrder(-1, before) && HeadersStored(before, st.headers)
      ensures Valid() && Preserved(before, ram.cells, st.headers)
    {
      hide HeadersOk, Family, RingsMatch, BytesMatch, Core, HeadersStored;
      Settle(Now(), st, tree, before);
      NullIsBelow();
    }

    static lemma NullIsBelow()
      ensures HEAP != NULL
    {
    }

    // The rest of malloc_1, once a block has been popped.
    method CarveBlock(ptr: int, bucket: nat, wanted: nat, request: SizeT, grant: nat -> bool,
                      ghost m: Image, ghost before: seq<int>) returns (p: int)
      requires Popped(m, bucket, ptr, before) && HeadersStored(before, st.headers)
      requires bucket <= wanted < BUCKET_COUNT && Need(request) <= MAX_ALLOC && wanted == BucketFor(Need(request))
      requires Level(st.lists[bucket][|st.lists[bucket]| - 1]) == bucket
      modifies this`maxPtr, this`st, this`tree, ram, nodeStatus
      ensures Valid() && basePtr == HEAP && Preserved(before, ram.cells, old(st.headers))
      ensures var i := old(st).lists[bucket][|old(st).lists[bucket]| - 1];
              var r := Carve(Pop(old(st), bucket), i, bucket, wanted, request, grant);
              st == r.s && p == match r.address case None => NULL case Some(a) => HEAP + a + HEADER_SIZE
    {
      hide Parent, Addr, Size, Level, Pow2, BitsOk, ListsOk, FreeBacked, BytesMatch, RingsMatch, HeadersOk, Family;
      hide Preserved, HeadersStored, BucketFor, OnlyLinks, Carve, SplitDown, SplitPicture, Leftmost, FlipUnlessTop;
      hide Orderly, Popped;
      PoppedShape(m, bucket, ptr, before);
      ghost var s := st;
      ghost var s1 := CarveIs(s, s.lists[bucket][|s.lists[bucket]| - 1], bucket, wanted, request, grant);
      PushBack(s, bucket);
      var size := BlockSize(bucket);
      var bytesNeeded := if bucket < wanted then size / 2 + LIST_T_SIZE else size;
      var taken, i := TakeBlock(ptr, bucket, bytesNeeded, grant, m, before);
      if !taken {
        SettleIn(before);
        return NULL;
      }
      BytesSuffice(i, bucket, wanted, st.top);
      i := SplitTo(i, bucket, wanted, before);
      WriteHeader(ptr, request, i, before);
      return ptr + HEADER_SIZE;
    }

    // Stores the request in the block's first word and hands the block over.
    method WriteHeader(ptr: int, request: SizeT, ghost i: nat, ghost before: seq<int>)
      requires InOrder(i, before) && i < NODE_COUNT && tree[i].Live? && ptr == BlockPtr(i)
      requires Addr(i) + Size(i) <= st.top && HeadersStored(before, st.headers)
      requires Need(request) <= MAX_ALLOC && Level(i) == BucketFor(Need(request))
      modifies this`st, ram
      ensures Valid() && basePtr == HEAP && Preserved(before, ram.cells, old(st).headers)
      ensures st == old(st).(headers := old(st).headers[Addr(i) := request])
    {
      hide Parent, Addr, Size, Level, Pow2, BitsOk, ListsOk, FreeBacked, BytesMatch, RingsMatch, HeadersOk, Family;
      hide Preserved, HeadersStored, BucketFor;
      HeaderPlan(Now(), st, tree, i);
      ghost var n := Now();
      ram.Store(ptr, request);
      HeaderDone(n, st, tree, before, i, request);
      st := st.(headers := st.headers[Addr(i) := request]);
    }

    // The splitting loop of malloc_1: keep the left half, list the right one.
    method SplitTo(start: nat, from: nat, wanted: nat, ghost before: seq<int>) returns (i: nat)
      requires InOrder(start, before) && start < NODE_COUNT && tree[start].Live? && Level(start) == from <= wanted
      requires wanted < BUCKET_COUNT
      requires from < wanted ==> Addr(start) + Size(start) / 2 + LIST_T_SIZE <= st.top
      modifies this`st, this`tree, ram, nodeStatus
      ensures i == Leftmost(start, from, wanted) && i < NODE_COUNT && InOrder(i, before) && tree[i].Live?
      ensures st == SplitDown(old(st), start, from, wanted)
      ensures st.headers == old(st.headers) && st.top == old(st.top)
    {
      hide Parent, Addr, Size, Level, Pow2, BitsOk, ListsOk, FreeBacked, BytesMatch, RingsMatch, HeadersOk, Family;
      hide Preserved, OnlyLinks, SplitPicture, SplitStep;
      i := start;
      var bucket := from;
      while bucket < wanted
        invariant from <= bucket <= wanted
        invariant i < NODE_COUNT && Level(i) == bucket && InOrder(i, before) && tree[i].Live?
        invariant bucket < wanted ==> Addr(i) + Size(i) / 2 + LIST_T_SIZE <= st.top
        invariant SplitDown(st, i, bucket, wanted) == SplitDown(old(st), start, from, wanted)
        invariant Leftmost(i, bucket, wanted) == Leftmost(start, from, wanted)
        invariant st.headers == old(st.headers) && st.top == old(st.top)
      {
        ghost var m, s, t, j := Now(), st, tree, i;
        SplitPlan(m, s, t, j, bucket);
        SplitStepKeeps(s, t, j, bucket);
        ParentOfChild(j);
        BytesCover(m.bytes, s.bits);
        i := i * 2 + 1;
        bucket := bucket + 1;
        FlipParentSplit(i);
        ram.ListPush(Head(bucket), basePtr + PtrForNode(i + 1, bucket));
        SplitDone(m, s, t, before, j, bucket - 1, ram.cells);
        st, tree := SplitStep(s, j, bucket - 1), SplitPicture(t, j);
      }
    }
  
    // ---------- free_1 ----------

    // free_1 is given NULL or a block that is currently live.
    method Free1(ptr: int)
      requires Valid()
      requires ptr == NULL || (basePtr != NULL && ptr - HEADER_SIZE - HEAP in st.headers)
      modifies this`st, this`tree, ram, nodeStatus
      ensures Valid() && basePtr == old(basePtr)
      ensures ptr == NULL ==> unchanged(this) && unchanged(ram) && unchanged(nodeStatus)
      ensures ptr != NULL ==>
                var a := ptr - HEADER_SIZE - HEAP;
                && Need(old(st).headers[a]) <= MAX_ALLOC
                && Level(FreedNode(old(st), a)) == BucketFor(Need(old(st).headers[a]))
                && st == BuddySpec.Free1(old(st), a)
                && Preserved(old(ram.cells), ram.cells, st.headers)
    {
      hide Addr, Size, Level, Pow2, Parent, BitsOk, ListsOk, FreeBacked, BytesMatch, RingsMatch, HeadersOk, Family;
      hide Preserved, BucketFor, OnlyLinks, Coalesce;
      if ptr == NULL {
        return;
      }
      var p := ptr - HEADER_SIZE;
      ghost var before, a, s := ram.cells, p - HEAP, st;
      HeaderInMemory(Now(), st, tree, a);
      FreeStart(Now(), st, tree, before, a);
      var request: SizeT := ram.cells[p];
      var bucket := BucketForRequest((request + HEADER_SIZE) % WORD);
      var i := NodeForPtr(p - basePtr, bucket);
      st := st.(headers := st.headers - {a});
      Climb(i, bucket, before);
      Settle(Now(), st, tree, before);
    }

    // Unlinks the free buddy of i, whose parent's bit has just been flipped: the two halves are one block again.
    method MergeBuddy(i: nat, bucket: nat, ghost m: Image, ghost before: seq<int>)
      requires basePtr == HEAP && Orderly(m, st, tree, i, before)
      requires 0 < i < NODE_COUNT && tree[i].Live? && Level(i) == bucket && !StopsHere(st, tree, i)
      requires Parent(i) < 8 * |m.bytes| && Now() == m.(bytes := ToggleBit(m.bytes, Parent(i)))
      modifies this`st, this`tree, ram
      ensures Level(Parent(i)) == bucket - 1 && bucket < BUCKET_COUNT && Parent(i) < INNER_COUNT
      ensures st == Unlink(old(st).(bits := Flip(old(st).bits, i)), bucket, Buddy(i))
      ensures Parent(i) < NODE_COUNT && InOrder(Parent(i), before) && tree[Parent(i)].Live?
      ensures Addr(Parent(i)) + LIST_T_SIZE <= st.top
    {
      hide Addr, Size, Level, Pow2, Parent, BitsOk, ListsOk, FreeBacked, RingsMatch, HeadersOk, Family;
      hide Preserved, OnlyLinks, MergePicture, Root, BytesMatch, ToggleBit;
      MergePlan(m, st, tree, i, bucket);
      ram.ListRemove(basePtr + PtrForNode(Buddy(i), bucket));
      MergeDone(m, st, tree, before, i, bucket, ram.cells);
      tree := MergePicture(tree, i);
      st := Unlink(st.(bits := Flip(st.bits, i)), bucket, Buddy(i));
    }

    // The final push of free_1, when the bit above i has already been flipped.
    method Release(i: nat, bucket: nat, ghost m: Image, ghost before: seq<int>)
      requires basePtr == HEAP && Orderly(m, st, tree, i, before)
      requires i < NODE_COUNT && tree[i].Live? && Level(i) == bucket && StopsHere(st, tree, i)
      requires Addr(i) + LIST_T_SIZE <= st.top
      requires i > 0 ==> Parent(i) < 8 * |m.bytes|
      requires Now() == m.(bytes := FlipBytes(m.bytes, i))
      modifies this`st, this`tree, ram
      ensures InOrder(-1, before) && bucket < BUCKET_COUNT && i < 2 * |old(st).bits| + 1
      ensures st == Push(old(st).(bits := FlipUnlessTop(old(st).bits, i)), bucket, i)
    {
      hide Addr, Size, Level, Pow2, Parent, BitsOk, ListsOk, FreeBacked, RingsMatch, HeadersOk, Family;
      hide Preserved, OnlyLinks, Root, BytesMatch, FlipBytes;
      ReleasePlan(m, st, tree, i, bucket);
      ram.ListPush(Head(bucket), basePtr + PtrForNode(i, bucket));
      ReleaseDone(m, st, tree, before, i, bucket, ram.cells);
      tree := tree[i := Free];
      st := Push(st.(bits := FlipUnlessTop(st.bits, i)), bucket, i);
    }

    // The climb of free_1.
    method Climb(start: nat, from: nat, ghost before: seq<int>)
      requires InOrder(start, before) && start < NODE_COUNT && tree[start].Live? && Level(start) == from < BUCKET_COUNT
      requires Addr(start) + LIST_T_SIZE <= st.top
      modifies this`st, this`tree, ram, nodeStatus
      ensures InOrder(-1, before)
      ensures st == Coalesce(old(st), start, from)
      ensures st.headers == old(st.headers)
    {
      hide Addr, Size, Level, Pow2, Parent, BitsOk, ListsOk, FreeBacked, RingsMatch, HeadersOk, Family;
      hide Preserved, OnlyLinks, MergePicture, Root;
      var i: nat := start;
      var bucket: nat := from;
      ghost var m := Now();
      while i != 0
        invariant i < NODE_COUNT && Level(i) == bucket < BUCKET_COUNT
        invariant InOrder(i, before) && tree[i].Live? && Addr(i) + LIST_T_SIZE <= st.top
        invariant Coalesce(st, i, bucket) == Coalesce(old(st), start, from)
        invariant st.headers == old(st.headers) && m == Now()
        decreases bucket
      {
        CoalesceStep(st, tree, i, bucket);
        FlipMatches(m.bytes, st.bits, i);
        BytesCover(m.bytes, st.bits);
        FlipParentSplit(i);
        var split := ParentSplit(i, Flip(st.bits, i));
        if split || bucket == bucketLimit {
          break;
        }
        MergeBuddy(i, bucket, m, before);
        i := Parent(i);
        bucket := bucket - 1;
        m := Now();
      }
      Release(i, bucket, m, before);
    }
  
    // What the owner of a live block may do between calls: store in any aligned word of its payload.
    method WritePayload(a: nat, p: int, v: int)
      requires Valid() && basePtr != NULL && InBlock(st.headers, a, p) && HEAP + a + HEADER_SIZE <= p
      requires p % 8 == 0
      modifies ram
      ensures 0 <= p < |old(ram.cells)| && Valid() && ram.cells == old(ram.cells)[p := v]
    {
      hide Addr, Size, Level, Pow2, Parent, BitsOk, ListsOk, FreeBacked, BytesMatch, RingsMatch, Family;
      var j := PayloadPlace(Now(), st, tree, a, p);
      ghost var m := Now();
      ram.Store(p, v);
      PayloadDone(m, st, tree, a, j, p, v);
    }
  }
}
