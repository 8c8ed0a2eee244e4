/** What `malloc_2` and `free_2` compute, on values. There is no header: two status bits per node, packed in bytes,
    are all there is to tell a block's size when it is freed. */
module Buddy2Spec {
  import opened Options
  import opened Geometry
  import opened FreeLists
  import opened StatusFields
  import opened BuddySpec

  datatype State2 = State2(limit: nat, top: nat, status: seq<bv8>, lists: seq<seq<nat>>)
  datatype Reply2 = Reply2(ok: bool, s: State2)
  datatype Search2 = Search2(found: Found, s: State2)
  datatype Allocation2 = Allocation2(s: State2, address: Option<nat>)

  ghost predicate Shape2(s: State2) {
    s.limit < BUCKET_COUNT && 4 * |s.status| == NODE_COUNT + 1 && |s.lists| == BUCKET_COUNT
  }

  function InitState2(): State2 {
    State2(BUCKET_COUNT - 1, LIST_T_SIZE, seq(Pow2(BUCKET_COUNT) / 4, _ => 0),
           seq(BUCKET_COUNT, b => if b == BUCKET_COUNT - 1 then [Root(BUCKET_COUNT - 1)] else []))
  }

  function ParentInc(status: seq<bv8>, i: nat): (r: seq<bv8>)
    requires i > 0 && Parent(i) < 4 * |status|
    ensures |r| == |status|
  {
    Inc(status, Parent(i))
  }

  function ParentDec(status: seq<bv8>, i: nat): (r: seq<bv8>)
    requires i > 0 && Parent(i) < 4 * |status|
    ensures |r| == |status|
  {
    Dec(status, Parent(i))
  }

  function Reserve2(s: State2, v: nat, grant: nat -> bool): Reply2 {
    if v <= s.top then Reply2(true, s)
    else if grant(v) then Reply2(true, s.(top := v))
    else Reply2(false, s)
  }

  function Push2(s: State2, b: nat, i: nat): State2
    requires b < |s.lists|
  {
    s.(lists := s.lists[b := s.lists[b] + [i]])
  }

  function Pop2(s: State2, b: nat): State2
    requires b < |s.lists| && s.lists[b] != []
  {
    s.(lists := s.lists[b := DropLast(s.lists[b])])
  }

  function Unlink2(s: State2, b: nat, i: nat): State2
    requires b < |s.lists|
  {
    s.(lists := s.lists[b := Without(s.lists[b], i)])
  }

  // ---------- lower_bucket_limit ----------

  function GrowFree2(s: State2): State2
    requires Shape2(s) && s.limit > 0
  {
    var s1 := Unlink2(s, s.limit, Root(s.limit));
    s1.(limit := s.limit - 1, lists := s1.lists[s.limit - 1 := [Root(s.limit - 1)]])
  }

  function GrowUsed2(s: State2): State2
    requires Shape2(s) && s.limit > 0
  {
    RootInRange(s.limit - 1);
    var s1 := Push2(s, s.limit, Root(s.limit) + 1);
    s1.(limit := s.limit - 1,
        lists := s1.lists[s.limit - 1 := []],
        status := Set(s.status, Root(s.limit - 1), SPLIT))
  }

  function GrowOnce2(s: State2, grant: nat -> bool): (r: Reply2)
    requires Shape2(s) && s.limit > 0
    ensures Shape2(r.s)
    ensures r.s.limit == if r.ok then s.limit - 1 else s.limit
  {
    RootInRange(s.limit);
    if Field(s.status, Root(s.limit)) == UNUSED then Reply2(true, GrowFree2(s))
    else
      var got := Reserve2(s, PtrForNode(Root(s.limit) + 1, s.limit) + LIST_T_SIZE, grant);
      if got.ok then Reply2(true, GrowUsed2(got.s)) else got
  }

  function LowerLimit2(s: State2, bucket: nat, grant: nat -> bool): (r: Reply2)
    requires Shape2(s)
    ensures Shape2(r.s)
    decreases s.limit
  {
    if s.limit <= bucket then Reply2(true, s)
    else
      var once := GrowOnce2(s, grant);
      if once.ok then LowerLimit2(once.s, bucket, grant) else once
  }

  // ---------- malloc_2 ----------

  function FindBlock2(s: State2, bucket: nat, grant: nat -> bool): (r: Search2)
    requires Shape2(s) && bucket < BUCKET_COUNT
    ensures Shape2(r.s)
    decreases bucket
  {
    var got := LowerLimit2(s, bucket, grant);
    if !got.ok then Search2(NoBacking, got.s)
    else if got.s.lists[bucket] != [] then PopBlock2(got.s, bucket)
    else if bucket == 0 then Search2(NoBlock, got.s)
    else if bucket != got.s.limit then FindBlock2(got.s, bucket - 1, grant)
    else
      var more := LowerLimit2(got.s, bucket - 1, grant);
      if !more.ok then Search2(NoBacking, more.s) else PopBlock2(more.s, bucket)
  }

  function PopBlock2(s: State2, bucket: nat): (r: Search2)
    requires Shape2(s) && bucket < BUCKET_COUNT
    ensures Shape2(r.s)
  {
    var l := s.lists[bucket];
    if l == [] then Search2(NullPop, s) else Search2(Block(l[|l| - 1], bucket), Pop2(s, bucket))
  }

  function SplitStep2(s: State2, i: nat, b: nat): (r: State2)
    requires Shape2(s) && i < INNER_COUNT && b + 1 < BUCKET_COUNT
    ensures Shape2(r)
  {
    Push2(s.(status := ParentInc(s.status, 2 * i + 1)), b + 1, 2 * i + 2)
  }

  function SplitDown2(s: State2, i: nat, b: nat, wanted: nat): (r: State2)
    requires Shape2(s) && Level(i) == b <= wanted < BUCKET_COUNT
    ensures Shape2(r)
    decreases wanted - b
  {
    if b == wanted then s else
      LevelInRange(i);
      SplitDown2(SplitStep2(s, i, b), 2 * i + 1, b + 1, wanted)
  }

  // The loop after the block has been marked: a parent both of whose children are USED becomes USED, and so on up.
  // parent is the node looked at; node 0 is never looked at.
  function Promote(status: seq<bv8>, parent: nat): (r: seq<bv8>)
    requires 4 * |status| == NODE_COUNT + 1 && 2 * parent + 2 < NODE_COUNT
    ensures |r| == |status|
    decreases parent
  {
    if parent != 0 && Field(status, 2 * parent + 1) == USED && Field(status, 2 * parent + 2) == USED
    then
      InnerNodes(Parent(parent));
      Promote(Set(status, parent, USED), Parent(parent))
    else status
  }

  // The rest of malloc_2 once block i of bucket b has been popped. Blocks of bucket 0, the whole heap, are outside
  // the model: for node 0 the loop above would start at a parent index that has wrapped around.
  function Carve2(s: State2, i: nat, b: nat, wanted: nat, grant: nat -> bool): (r: Allocation2)
    requires Shape2(s) && Level(i) == b <= wanted < BUCKET_COUNT && wanted > 0
    ensures Shape2(r.s)
  {
    LevelBounds(i);
    LevelInRange(i);
    InnerNodes(i);
    var a := PtrForNode(i, b);
    var got := Reserve2(s, a + BytesNeeded(b, wanted), grant);
    if !got.ok then Allocation2(Push2(got.s, b, i), None)
    else
      var s1 := if i == 0 then got.s else got.s.(status := ParentInc(got.s.status, i));
      var s2 := SplitDown2(s1, i, b, wanted);
      var leaf := Leftmost(i, b, wanted);
      LevelInRange(leaf);
      InnerNodes(Parent(leaf));
      var s3 := s2.(status := Promote(Set(s2.status, leaf, USED), Parent(leaf)));
      Allocation2(s3, Some(a))
  }

  // malloc_2 is defined on a request unless it would be given the whole-heap block: it would then look outside
  // node_status.
  ghost predicate Defined2(s: State2, request: SizeT, grant: nat -> bool)
    requires Shape2(s)
  {
    request > MAX_ALLOC || BucketFor(request) > 0 || !FindBlock2(s, 0, grant).found.Block?
  }

  function Malloc2(s: State2, request: SizeT, grant: nat -> bool): (r: Allocation2)
    requires Shape2(s) && Defined2(s, request, grant)
    ensures Shape2(r.s)
  {
    if request > MAX_ALLOC then Allocation2(s, None)
    else
      var wanted := BucketFor(request);
      var hit := FindBlock2(s, wanted, grant);
      if hit.found.Block? && Level(hit.found.i) == hit.found.bucket <= wanted
      then Carve2(hit.s, hit.found.i, hit.found.bucket, wanted, grant)
      else Allocation2(hit.s, None)
  }

  // A request of at most half the heap is never given the whole-heap block.
  lemma HalfHeap(request: nat)
    requires 2 * request <= MAX_ALLOC
    ensures BucketFor(request) > 0
  {
    assert BlockSize(0) == MAX_ALLOC && 2 * BlockSize(1) == MAX_ALLOC;
  }

  // The request of malloc_1 that reserves the same block: the eight header bytes are not asked for.
  function Shrunk(request: SizeT): (n: SizeT) {
    if request < HEADER_SIZE then 0 else request - HEADER_SIZE
  }

  /** Both allocators refuse the same requests outright and look for the others in the same bucket. */
  lemma SameBucket(request: SizeT)
    ensures Need(Shrunk(request)) == if request < HEADER_SIZE then HEADER_SIZE else request
    ensures Need(Shrunk(request)) > MAX_ALLOC <==> request > MAX_ALLOC
    ensures request <= MAX_ALLOC ==> BucketFor(Need(Shrunk(request))) == BucketFor(request)
  {
    Pow2Monotone(4, MIN_ALLOC_LOG2);
    Pow2Monotone(MIN_ALLOC_LOG2, MAX_ALLOC_LOG2);
    assert Pow2(4) == 16;
    assert BlockSize(BUCKET_COUNT - 1) == MIN_ALLOC;
  }

  // ---------- free_2 ----------

  // bucket_for_alloced_pointer: the deepest node at this address that is USED.
  function BucketOf(s: State2, a: nat, b: nat): Option<nat>
    requires Shape2(s) && b < BUCKET_COUNT && a < MAX_ALLOC
    decreases b
  {
    NodeInRange(a, b);
    if b < s.limit then None
    else if Field(s.status, NodeForPtr(a, b)) == USED then Some(b)
    else if b == 0 then None
    else BucketOf(s, a, b - 1)
  }

  lemma {:induction false} ShiftRightBelow(x: nat, n: nat, b: nat)
    requires x < Pow2(b + n)
    ensures ShiftRight(x, n) < Pow2(b)
  {
    if n > 0 {
      ShiftRightBelow(x / 2, n - 1, b);
    }
  }

  lemma NodeInRange(a: nat, b: nat)
    requires b < BUCKET_COUNT && a < MAX_ALLOC
    ensures NodeForPtr(a, b) < NODE_COUNT && Level(NodeForPtr(a, b)) == b
  {
    ShiftRightBelow(a, MAX_ALLOC_LOG2 - b, b);
    LevelUnique(NodeForPtr(a, b), b);
    LevelInRange(NodeForPtr(a, b));
  }

  function Coalesce2(s: State2, i: nat, b: nat): (r: State2)
    requires Shape2(s) && Level(i) == b < BUCKET_COUNT
    ensures Shape2(r)
    decreases b
  {
    if i == 0 then Push2(s, b, i)
    else
      LevelInRange(i);
      InnerNodes(Parent(i));
      var s1 := s.(status := Set(s.status, i, UNUSED));
      if Field(s1.status, Buddy(i)) != UNUSED || b == s.limit
      then Push2(s1.(status := ParentDec(s1.status, i)), b, i)
      else Coalesce2(Unlink2(s1, b, Buddy(i)), Parent(i), b - 1)
  }

  function Free2(s: State2, a: nat): (r: State2)
    requires Shape2(s) && a < MAX_ALLOC && BucketOf(s, a, BUCKET_COUNT - 1).Some?
    ensures Shape2(r)
  {
    var b := BucketOf(s, a, BUCKET_COUNT - 1).value;
    BucketOfRange(s, a, BUCKET_COUNT - 1);
    NodeInRange(a, b);
    Coalesce2(s, NodeForPtr(a, b), b)
  }

  lemma {:induction false} BucketOfRange(s: State2, a: nat, b: nat)
    requires Shape2(s) && b < BUCKET_COUNT && a < MAX_ALLOC
    ensures BucketOf(s, a, b).Some? ==> s.limit <= BucketOf(s, a, b).value <= b
    decreases b
  {
    if b > 0 && b >= s.limit {
      BucketOfRange(s, a, b - 1);
    }
  }
}
