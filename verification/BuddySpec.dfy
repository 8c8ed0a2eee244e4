/** What `malloc_1` and `free_1` compute, on values: one bit per inner node, the free lists as
    sequences of node indices, the root's bucket, the backing frontier, the headers of the live blocks.
    Every branch is the program's own and looks only at what the program looks at. */
module BuddySpec {
  import opened Options
  import opened Geometry
  import opened FreeLists

  // size_t has 64 bits; its additions wrap around.
  const WORD: nat := 0x1_0000_0000_0000_0000
  type SizeT = n: nat | n < WORD
  const HEADER_SIZE: nat := 8

  // limit is bucket_limit, top is max_ptr, bits is node_status.
  // headers maps the address of each block handed out to the request stored in its header.
  datatype State = State(limit: nat, top: nat, bits: seq<bool>, lists: seq<seq<nat>>, headers: map<nat, SizeT>)
  datatype Reply = Reply(ok: bool, s: State)

  // What the search for a free block ends with. NullPop: a popped NULL would be used as a block.
  datatype Found = Block(i: nat, bucket: nat) | NoBacking | NoBlock | NullPop

  ghost predicate Shape(s: State) {
    s.limit < BUCKET_COUNT && |s.bits| == INNER_COUNT && |s.lists| == BUCKET_COUNT
  }

  function Need(request: SizeT): SizeT {
    (request + HEADER_SIZE) % WORD
  }

  // The smallest block that holds the needed bytes, looking upwards from bucket b.
  function BucketFrom(b: nat, need: nat): (r: nat)
    requires b < BUCKET_COUNT && need <= MAX_ALLOC
    ensures r <= b && need <= BlockSize(r)
    ensures r == b || BlockSize(r + 1) < need
  {
    if b == 0 || need <= BlockSize(b) then b else BucketFrom(b - 1, need)
  }

  function BucketFor(need: nat): (r: nat)
    requires need <= MAX_ALLOC
    ensures r < BUCKET_COUNT && need <= BlockSize(r)
    ensures r == BUCKET_COUNT - 1 || BlockSize(r + 1) < need
  {
    BucketFrom(BUCKET_COUNT - 1, need)
  }

  // bucket_for_request, the same in both allocators.
  method BucketForRequest(request: nat) returns (bucket: nat)
    requires request <= MAX_ALLOC
    ensures bucket == BucketFor(request)
  {
    bucket := BUCKET_COUNT - 1;
    var size := MIN_ALLOC;
    while size < request
      invariant bucket < BUCKET_COUNT && size == BlockSize(bucket)
      invariant BucketFrom(bucket, request) == BucketFor(request)
      decreases bucket
    {
      bucket := bucket - 1;
      size := 2 * size;
    }
  }

  function InitState(): State {
    State(BUCKET_COUNT - 1, LIST_T_SIZE, seq(INNER_COUNT, _ => false),
          seq(BUCKET_COUNT, b => if b == BUCKET_COUNT - 1 then [Root(BUCKET_COUNT - 1)] else []), map[])
  }

  predicate ParentIsSplit(bits: seq<bool>, i: nat)
    requires 0 < i && Parent(i) < |bits|
  {
    bits[Parent(i)]
  }

  function Flip(bits: seq<bool>, i: nat): (r: seq<bool>)
    requires 0 < i && Parent(i) < |bits|
    ensures |r| == |bits|
  {
    bits[Parent(i) := !bits[Parent(i)]]
  }

  function FlipUnlessTop(bits: seq<bool>, i: nat): (r: seq<bool>)
    requires i < 2 * |bits| + 1
    ensures |r| == |bits|
  {
    if i == 0 then bits else Flip(bits, i)
  }

  // update_max_ptr. grant answers sbrk; within one call it is never asked the same value twice.
  function Reserve(s: State, v: nat, grant: nat -> bool): Reply {
    if v <= s.top then Reply(true, s)
    else if grant(v) then Reply(true, s.(top := v))
    else Reply(false, s)
  }

  function Push(s: State, b: nat, i: nat): State
    requires b < |s.lists|
  {
    s.(lists := s.lists[b := s.lists[b] + [i]])
  }

  function Pop(s: State, b: nat): State
    requires b < |s.lists| && s.lists[b] != []
  {
    s.(lists := s.lists[b := DropLast(s.lists[b])])
  }

  function Unlink(s: State, b: nat, i: nat): State
    requires b < |s.lists|
  {
    s.(lists := s.lists[b := Without(s.lists[b], i)])
  }

  // ---------- lower_bucket_limit ----------

  // The root is unused: it leaves its list and its parent becomes the single free block.
  function GrowFree(s: State): State
    requires Shape(s) && s.limit > 0
  {
    var s1 := Unlink(s, s.limit, Root(s.limit));
    s1.(limit := s.limit - 1, lists := s1.lists[s.limit - 1 := [Root(s.limit - 1)]])
  }

  // The root is in use: its right buddy becomes free and their parent the new root.
  function GrowUsed(s: State): State
    requires Shape(s) && s.limit > 0
  {
    RootInRange(s.limit - 1);
    var s1 := Push(s, s.limit, Root(s.limit) + 1);
    s1.(limit := s.limit - 1,
        lists := s1.lists[s.limit - 1 := []],
        bits := FlipUnlessTop(s.bits, Root(s.limit - 1)))
  }

  // One round of the growing loop.
  function GrowOnce(s: State, grant: nat -> bool): (r: Reply)
    requires Shape(s) && s.limit > 0
    ensures Shape(r.s)
    ensures r.s.limit == if r.ok then s.limit - 1 else s.limit
  {
    RootLevel(s.limit);
    RootInRange(s.limit - 1);
    if !ParentIsSplit(s.bits, Root(s.limit)) then Reply(true, GrowFree(s))
    else
      var got := Reserve(s, PtrForNode(Root(s.limit) + 1, s.limit) + LIST_T_SIZE, grant);
      if got.ok then Reply(true, GrowUsed(got.s)) else got
  }

  function LowerLimit(s: State, bucket: nat, grant: nat -> bool): (r: Reply)
    requires Shape(s)
    ensures Shape(r.s)
    decreases s.limit
  {
    if s.limit <= bucket then Reply(true, s)
    else
      var once := GrowOnce(s, grant);
      if once.ok then LowerLimit(once.s, bucket, grant) else once
  }

  // ---------- malloc_1 ----------

  datatype Search = Search(found: Found, s: State)

  function FindBlock(s: State, bucket: nat, grant: nat -> bool): (r: Search)
    requires Shape(s) && bucket < BUCKET_COUNT
    ensures Shape(r.s)
    decreases bucket
  {
    var got := LowerLimit(s, bucket, grant);
    if !got.ok then Search(NoBacking, got.s)
    else if got.s.lists[bucket] != [] then PopBlock(got.s, bucket)
    else if bucket == 0 then Search(NoBlock, got.s)
    else if bucket != got.s.limit then FindBlock(got.s, bucket - 1, grant)
    else
      var more := LowerLimit(got.s, bucket - 1, grant);
      if !more.ok then Search(NoBacking, more.s) else PopBlock(more.s, bucket)
  }

  function PopBlock(s: State, bucket: nat): (r: Search)
    requires Shape(s) && bucket < BUCKET_COUNT
    ensures Shape(r.s)
  {
    var l := s.lists[bucket];
    if l == [] then Search(NullPop, s) else Search(Block(l[|l| - 1], bucket), Pop(s, bucket))
  }

  // Going down from a block to the wanted bucket: keep the left half, free the right one.
  function SplitDown(s: State, i: nat, b: nat, wanted: nat): (r: State)
    requires Shape(s) && Level(i) == b <= wanted < BUCKET_COUNT
    ensures Shape(r)
    decreases wanted - b
  {
    if b == wanted then s else
      LevelInRange(i);
      SplitDown(SplitStep(s, i, b), 2 * i + 1, b + 1, wanted)
  }

  function SplitStep(s: State, i: nat, b: nat): (r: State)
    requires Shape(s) && i < INNER_COUNT && b + 1 < BUCKET_COUNT
    ensures Shape(r)
  {
    Push(s.(bits := Flip(s.bits, 2 * i + 1)), b + 1, 2 * i + 2)
  }

  function Leftmost(i: nat, b: nat, wanted: nat): (r: nat)
    requires Level(i) == b <= wanted
    ensures Level(r) == wanted
    decreases wanted - b
  {
    if b == wanted then i else Leftmost(2 * i + 1, b + 1, wanted)
  }

  function BytesNeeded(b: nat, wanted: nat): nat
    requires b < BUCKET_COUNT
  {
    if b < wanted then BlockSize(b) / 2 + LIST_T_SIZE else BlockSize(b)
  }

  datatype Allocation = Allocation(s: State, address: Option<nat>)

  // The rest of malloc_1 once block i of bucket b has been popped.
  function Carve(s: State, i: nat, b: nat, wanted: nat, request: SizeT, grant: nat -> bool): (r: Allocation)
    requires Shape(s) && Level(i) == b <= wanted < BUCKET_COUNT
    ensures Shape(r.s)
  {
    LevelBounds(i);
    LevelInRange(i);
    InnerNodes(i);
    var a := PtrForNode(i, b);
    var got := Reserve(s, a + BytesNeeded(b, wanted), grant);
    if !got.ok then Allocation(Push(got.s, b, i), None)
    else
      var s1 := got.s.(bits := FlipUnlessTop(got.s.bits, i));
      var s2 := SplitDown(s1, i, b, wanted);
      Allocation(s2.(headers := s2.headers[a := request]), Some(a))
  }

  function Malloc1(s: State, request: SizeT, grant: nat -> bool): (r: Allocation)
    requires Shape(s)
    ensures Shape(r.s)
  {
    if Need(request) > MAX_ALLOC then Allocation(s, None)
    else
      var wanted := BucketFor(Need(request));
      var hit := FindBlock(s, wanted, grant);
      if hit.found.Block? && Level(hit.found.i) == hit.found.bucket <= wanted
      then Carve(hit.s, hit.found.i, hit.found.bucket, wanted, request, grant)
      else Allocation(hit.s, None)
  }

  // ---------- free_1 ----------

  function Coalesce(s: State, i: nat, b: nat): (r: State)
    requires Shape(s) && Level(i) == b < BUCKET_COUNT
    ensures Shape(r)
    decreases b
  {
    if i == 0 then Push(s, b, i)
    else
      LevelInRange(i);
      InnerNodes(Parent(i));
      var s1 := s.(bits := Flip(s.bits, i));
      if ParentIsSplit(s1.bits, i) || b == s.limit then Push(s1, b, i)
      else Coalesce(Unlink(s1, b, Buddy(i)), Parent(i), b - 1)
  }

  // free_1 of the block at address a: bucket and node are recomputed from the header.
  function FreedNode(s: State, a: nat): nat
    requires a in s.headers && Need(s.headers[a]) <= MAX_ALLOC
  {
    NodeForPtr(a, BucketFor(Need(s.headers[a])))
  }

  function Free1(s: State, a: nat): (r: State)
    requires Shape(s) && a in s.headers && Need(s.headers[a]) <= MAX_ALLOC
    requires Level(FreedNode(s, a)) == BucketFor(Need(s.headers[a]))
    ensures Shape(r)
  {
    var b := BucketFor(Need(s.headers[a]));
    Coalesce(s.(headers := s.headers - {a}), FreedNode(s, a), b)
  }

  // The request plus the header is what is reserved, unless the sum wraps around.
  lemma NeedIsSum(request: SizeT)
    ensures Need(request) == request + HEADER_SIZE <==> request < WORD - HEADER_SIZE
  {
  }
}
