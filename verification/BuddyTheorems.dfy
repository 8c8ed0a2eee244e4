/** What the allocator promises over whole runs. */
module BuddyTheorems {
  import opened Options
  import opened Geometry
  import opened FreeLists
  import opened Tree
  import opened BuddySpec
  import opened BuddyInvariant
  import opened BuddyMallocProof
  import opened BuddyFreeProof

  // ---------- every run ----------

  datatype Call = CallMalloc(request: SizeT, grant: nat -> bool) | CallFree(address: nat)

  // One call. free_1 is only ever given a block that is currently live.
  ghost predicate Step(s: State, c: Call, s': State) {
    && Shape(s)
    && match c
       case CallMalloc(request, grant) => s' == Malloc1(s, request, grant).s
       case CallFree(a) =>
         && a in s.headers
         && Need(s.headers[a]) <= MAX_ALLOC && Level(FreedNode(s, a)) == BucketFor(Need(s.headers[a]))
         && s' == Free1(s, a)
  }

  ghost predicate IsRun(run: seq<State>, calls: seq<Call>) {
    && |run| == |calls| + 1
    && run[0] == InitState()
    && forall k {:trigger calls[k]} :: 0 <= k < |calls| ==> Step(run[k], calls[k], run[k + 1])
  }

  /** Every state of every run satisfies the invariant. */
  lemma {:induction false} RunKeepsInv(run: seq<State>, calls: seq<Call>, n: nat) returns (t: seq<Kind>)
    requires IsRun(run, calls) && n < |run|
    ensures Inv(run[n], t)
    decreases n
  {
    if n == 0 {
      InitOk();
      t := InitPicture();
    } else {
      var u := RunKeepsInv(run, calls, n - 1);
      match calls[n - 1] {
        case CallMalloc(request, grant) =>
          t := MallocKeeps(run[n - 1], u, request, grant);
        case CallFree(a) =>
          t := FreeKeeps(run[n - 1], u, a);
      }
    }
  }

  // ---------- tiling ----------

  // The bytes from lo to hi are a block handed out and not yet freed, resp. a block on the free list of its size.
  ghost predicate LiveSpan(s: State, lo: nat, hi: nat) {
    lo in s.headers && Need(s.headers[lo]) <= MAX_ALLOC && hi == lo + BlockSize(BucketFor(Need(s.headers[lo])))
  }

  ghost predicate FreeSpan(s: State, lo: nat, hi: nat)
    requires Shape(s)
  {
    exists b: nat, i: nat {:trigger i in s.lists[b]} ::
      b < BUCKET_COUNT && i in s.lists[b] && i < NODE_COUNT && lo == Addr(i) && hi == lo + BlockSize(b)
  }

  ghost predicate Span(s: State, live: bool, lo: nat, hi: nat)
    requires Shape(s)
  {
    if live then LiveSpan(s, lo, hi) else FreeSpan(s, lo, hi)
  }

  // Some block holds byte x.
  ghost predicate Covered(s: State, x: nat)
    requires Shape(s)
  {
    exists live, lo: nat, hi: nat :: Span(s, live, lo, hi) && lo <= x < hi
  }

  lemma SpanNode(s: State, t: seq<Kind>, live: bool, lo: nat, hi: nat) returns (i: nat)
    requires Inv(s, t) && Span(s, live, lo, hi)
    ensures i < NODE_COUNT && lo == Addr(i) && hi == Addr(i) + Size(i)
    ensures if live then t[i].Live? else t[i].Free?
  {
    hide Level, Addr, Pow2, Parent, BitsOk;
    if live {
      FreedNodeIsLive(s, t, lo);
      i := FreedNode(s, lo);
    } else {
      var b: nat, j: nat {:trigger j in s.lists[b]} :|
        b < BUCKET_COUNT && j in s.lists[b] && j < NODE_COUNT && lo == Addr(j) && hi == lo + BlockSize(b);
      i := j;
    }
  }

  lemma NodeSpan(s: State, t: seq<Kind>, i: nat)
    requires Inv(s, t) && i < NODE_COUNT && IsBlock(t[i])
    ensures Span(s, t[i].Live?, Addr(i), Addr(i) + Size(i))
  {
    hide Level, Addr, Pow2, Parent, BitsOk;
    if t[i].Live? {
      assert HeaderOk(s.headers, s.top, i);
    } else {
      LevelInRange(i);
      assert i in s.lists[Level(i)];
    }
  }

  /** In every state of every run, the live blocks and the listed free blocks tile the bytes from 0 to the root's size:
      every byte is in some block, and two blocks that share a byte are the same block. */
  lemma {:induction false} RunsTile(run: seq<State>, calls: seq<Call>, n: nat)
    requires IsRun(run, calls) && n < |run|
    ensures Shape(run[n])
    ensures forall x: nat :: x < BlockSize(run[n].limit) <==> Covered(run[n], x)
    ensures forall live, lo: nat, hi: nat, live', lo': nat, hi': nat
              {:trigger Span(run[n], live, lo, hi), Span(run[n], live', lo', hi')} ::
              Span(run[n], live, lo, hi) && Span(run[n], live', lo', hi') && lo < hi' && lo' < hi
              ==> live == live' && lo == lo' && hi == hi'
  {
    var t := RunKeepsInv(run, calls, n);
    var s := run[n];
    hide IsRun, Inv, Span, Pow2;
    forall x: nat
      ensures x < BlockSize(s.limit) <==> Covered(s, x)
    {
      ByteCovered(s, t, x);
    }
    forall live, lo: nat, hi: nat, live', lo': nat, hi': nat
      {:trigger Span(s, live, lo, hi), Span(s, live', lo', hi')} |
      Span(s, live, lo, hi) && Span(s, live', lo', hi') && lo < hi' && lo' < hi
      ensures live == live' && lo == lo' && hi == hi'
    {
      SpansDisjoint(s, t, live, lo, hi, live', lo', hi');
    }
  }

  lemma ByteCovered(s: State, t: seq<Kind>, x: nat)
    requires Inv(s, t)
    ensures x < BlockSize(s.limit) <==> Covered(s, x)
  {
    hide Level, Addr, Size, Pow2, Parent, BitsOk, ListsOk, HeadersOk, Span;
    Tiling(t, s.limit);
    if x < BlockSize(s.limit) {
      assert InSomeBlock(t, x);
      var i: nat :| i < NODE_COUNT && IsBlock(t[i]) && Covers(i, x);
      NodeSpan(s, t, i);
    }
    if Covered(s, x) {
      var live, lo: nat, hi: nat :| Span(s, live, lo, hi) && lo <= x < hi;
      var i := SpanNode(s, t, live, lo, hi);
      assert IsBlock(t[i]);
    }
  }

  lemma SpansDisjoint(s: State, t: seq<Kind>, live: bool, lo: nat, hi: nat, live': bool, lo': nat, hi': nat)
    requires Inv(s, t) && Span(s, live, lo, hi) && Span(s, live', lo', hi') && lo < hi' && lo' < hi
    ensures live == live' && lo == lo' && hi == hi'
  {
    hide Level, Addr, Size, Pow2, Parent, BitsOk, ListsOk, HeadersOk, Span;
    var i := SpanNode(s, t, live, lo, hi);
    var j := SpanNode(s, t, live', lo', hi');
    if i != j { BlocksDisjoint(t, s.limit, i, j); }
  }

  // ---------- backing ----------

  lemma StepTop(s: State, t: seq<Kind>, c: Call, s': State)
    requires Inv(s, t) && Step(s, c, s')
    ensures s.top <= s'.top
  {
    match c {
      case CallMalloc(request, grant) =>
        var u := MallocKeeps(s, t, request, grant);
      case CallFree(a) =>
        var u := FreeKeeps(s, t, a);
    }
  }

  /** The frontier never goes back; every live block and the links inside every free one lie below it. */
  lemma {:induction false} RunsStayBacked(run: seq<State>, calls: seq<Call>, m: nat, n: nat)
    requires IsRun(run, calls) && m <= n < |run|
    ensures run[m].top <= run[n].top && Shape(run[n])
    ensures forall lo: nat, hi: nat :: LiveSpan(run[n], lo, hi) ==> hi <= run[n].top
    ensures forall lo: nat, hi: nat :: FreeSpan(run[n], lo, hi) ==> lo + LIST_T_SIZE <= run[n].top
    decreases n
  {
    var t := RunKeepsInv(run, calls, n);
    if m < n {
      var u := RunKeepsInv(run, calls, n - 1);
      RunsStayBacked(run, calls, m, n - 1);
      assert Step(run[n - 1], calls[n - 1], run[n]);
      StepTop(run[n - 1], u, calls[n - 1], run[n]);
    }
    hide IsRun, Inv, LiveSpan, FreeSpan, Step, Pow2;
    forall lo: nat, hi: nat | LiveSpan(run[n], lo, hi)
      ensures hi <= run[n].top
    {
      SpanBacked(run[n], t, true, lo, hi);
    }
    forall lo: nat, hi: nat | FreeSpan(run[n], lo, hi)
      ensures lo + LIST_T_SIZE <= run[n].top
    {
      SpanBacked(run[n], t, false, lo, hi);
    }
  }

  lemma SpanBacked(s: State, t: seq<Kind>, live: bool, lo: nat, hi: nat)
    requires Inv(s, t) && Span(s, live, lo, hi)
    ensures if live then hi <= s.top else lo + LIST_T_SIZE <= s.top
  {
    var i := SpanNode(s, t, live, lo, hi);
    hide Level, Addr, Pow2, Parent, BitsOk, ListsOk;
    if live { assert HeaderOk(s.headers, s.top, i); }
  }

  // ---------- what the bits say ----------

  lemma AboveRootIsOutside(t: seq<Kind>, limit: nat, i: nat)
    requires WellFormed(t, limit) && limit > 0 && i < NODE_COUNT && !t[i].Absent?
    ensures Root(limit - 1) < NODE_COUNT && !Within(Root(limit - 1), i)
  {
    AboveRoot(t, limit);
    RootLevel(limit);
    RootLevel(limit - 1);
    PresentIsWithinRoot(t, limit, i);
    WithinNested(i, Root(limit));
    if Within(Root(limit - 1), i) { WithinNested(Root(limit - 1), i); }
  }

  /** The meaning of a bit: for a split node, exactly one child is a free block; for the node above the root,
      the root is not free; for every other node it is 0, in particular inside every free or live block. */
  lemma BitMeaning(s: State, t: seq<Kind>, j: nat)
    requires Inv(s, t) && j < INNER_COUNT
    ensures 2 * j + 2 < NODE_COUNT
    ensures t[j].Split? ==> (s.bits[j] <==> t[2 * j + 1].Free? != t[2 * j + 2].Free?)
    ensures s.limit > 0 && j == Root(s.limit - 1) ==> (s.bits[j] <==> !t[Root(s.limit)].Free?)
    ensures !t[j].Split? && !(s.limit > 0 && j == Root(s.limit - 1)) ==> !s.bits[j]
    ensures forall i :: 0 <= i < NODE_COUNT && IsBlock(t[i]) && Within(j, i) ==> !s.bits[j]
  {
    InnerNodes(j);
    if s.limit > 0 { AboveRoot(t, s.limit); }
    assert s.bits[j] <==> BitOf(t, s.limit, j);
    forall i | 0 <= i < NODE_COUNT && IsBlock(t[i]) && Within(j, i)
      ensures !s.bits[j]
    {
      if i != j && !t[j].Absent? { AboveIsSplit(t, s.limit, j, i); }
      if s.limit > 0 { AboveRootIsOutside(t, s.limit, i); }
    }
  }

  // ---------- history independence ----------

  // The same blocks are live: same addresses, same sizes.
  ghost predicate SameBlocks(s: State, r: State) {
    forall a :: (a in s.headers <==> a in r.headers) &&
      (a in s.headers && a in r.headers && Need(s.headers[a]) <= MAX_ALLOC && Need(r.headers[a]) <= MAX_ALLOC ==>
         BucketFor(Need(s.headers[a])) == BucketFor(Need(r.headers[a])))
  }

  lemma SameBlocksSameLive(s: State, t: seq<Kind>, r: State, u: seq<Kind>)
    requires Inv(s, t) && Inv(r, u) && SameBlocks(s, r)
    ensures forall i :: 0 <= i < NODE_COUNT && t[i].Live? ==> u[i].Live?
  {
    forall i | 0 <= i < NODE_COUNT && t[i].Live?
      ensures u[i].Live?
    {
      assert HeaderOk(s.headers, s.top, i);
      NodeOfAddr(i);
      assert OwnerOk(r.headers, u, Addr(i));
    }
  }

  lemma SameElementsSameMultiset(l: seq<nat>, m: seq<nat>)
    requires Distinct(l) && Distinct(m) && forall x :: x in l <==> x in m
    ensures multiset(l) == multiset(m)
  {
    forall x: nat
      ensures multiset(l)[x] == multiset(m)[x]
    {
      CountDistinct(l, x);
      CountDistinct(m, x);
    }
  }

  lemma {:induction false} CountDistinct(l: seq<nat>, x: nat)
    requires Distinct(l)
    ensures multiset(l)[x] == if x in l then 1 else 0
  {
    if l != [] {
      assert l == [l[0]] + l[1..];
      CountDistinct(l[1..], x);
    }
  }

  /** Two states with the same live blocks and the same root have the same bits and, up to order, the same free
      lists, however they were reached. */
  lemma HistoryIndependence(s: State, t: seq<Kind>, r: State, u: seq<Kind>)
    requires Inv(s, t) && Inv(r, u) && s.limit == r.limit && SameBlocks(s, r)
    ensures t == u
    ensures s.bits == r.bits
    ensures forall b :: 0 <= b < BUCKET_COUNT ==> multiset(s.lists[b]) == multiset(r.lists[b])
  {
    SameBlocksSameLive(s, t, r, u);
    SameBlocksSameLive(r, u, s, t);
    PictureUnique(t, u, s.limit);
    forall j | 0 <= j < INNER_COUNT
      ensures s.bits[j] == r.bits[j]
    {
    }
    forall b | 0 <= b < BUCKET_COUNT
      ensures multiset(s.lists[b]) == multiset(r.lists[b])
    {
      SameElementsSameMultiset(s.lists[b], r.lists[b]);
    }
  }

  /** Any two runs that end with the same live blocks and the same root end with the same bits and the same free blocks,
      whatever the order of their calls. */
  lemma {:induction false} RunsAgree(run: seq<State>, calls: seq<Call>, other: seq<State>, otherCalls: seq<Call>)
    requires IsRun(run, calls) && IsRun(other, otherCalls)
    requires var s, r := run[|run| - 1], other[|other| - 1]; s.limit == r.limit && SameBlocks(s, r)
    ensures var s, r := run[|run| - 1], other[|other| - 1];
            && s.bits == r.bits && |s.lists| == |r.lists| == BUCKET_COUNT
            && forall b :: 0 <= b < BUCKET_COUNT ==> multiset(s.lists[b]) == multiset(r.lists[b])
  {
    var t := RunKeepsInv(run, calls, |run| - 1);
    var u := RunKeepsInv(other, otherCalls, |other| - 1);
    hide IsRun, SameBlocks, BitsOk, ListsOk;
    HistoryIndependence(run[|run| - 1], t, other[|other| - 1], u);
  }

  lemma ListedIsFree(s: State, t: seq<Kind>, b: nat) returns (i: nat)
    requires Core(s, t) && b < BUCKET_COUNT && s.lists[b] != []
    ensures i < NODE_COUNT && t[i].Free? && Level(i) == b
  {
    i := s.lists[b][0];
    assert i in s.lists[b];
  }

  /** Once everything is freed the heap is one free block, the root, and every bit is 0. */
  lemma AllFreed(s: State, t: seq<Kind>)
    requires Inv(s, t) && s.headers == map[]
    ensures forall b :: 0 <= b < BUCKET_COUNT ==> s.lists[b] == if b == s.limit then [Root(s.limit)] else []
    ensures forall j :: 0 <= j < INNER_COUNT ==> !s.bits[j]
  {
    forall i | 0 <= i < NODE_COUNT
      ensures !t[i].Live?
    {
      if t[i].Live? { LiveHasHeader(s, t, i); }
    }
    NothingLive(t, s.limit);
    FreeRootIsAlone(s.lists, t, s.limit);
    RootLevel(s.limit);
    forall b | 0 <= b < BUCKET_COUNT
      ensures s.lists[b] == if b == s.limit then [Root(s.limit)] else []
    {
      if b != s.limit && s.lists[b] != [] { var i := ListedIsFree(s, t, b); }
    }
    forall j | 0 <= j < INNER_COUNT
      ensures !s.bits[j]
    {
      BitMeaning(s, t, j);
    }
  }

  // ---------- completeness and smallest fit ----------

  // An aligned block of bucket b that touches no live block.
  ghost predicate Fits(t: seq<Kind>, j: nat, b: nat)
    requires |t| == NODE_COUNT
  {
    && j < NODE_COUNT && Level(j) == b
    && forall i :: 0 <= i < NODE_COUNT && t[i].Live? ==> Disjoint(i, j)
  }

  // Going down from the root to an absent node meets a block above it.
  lemma {:induction false} BlockAboveAbsent(t: seq<Kind>, limit: nat, j: nat) returns (i: nat)
    requires WellFormed(t, limit) && j < NODE_COUNT && t[j].Absent? && Within(j, Root(limit))
    ensures i < NODE_COUNT && IsBlock(t[i]) && Within(j, i) && Level(i) < Level(j)
    decreases j
  {
    var p := Parent(j);
    BuddyInRange(j);
    assert NodeOk(t, Root(limit), p);
    if t[p].Absent? {
      i := BlockAboveAbsent(t, limit, p);
      WithinTransitive(j, p, i);
    } else {
      i := p;
    }
  }

  lemma NoFreeUpTo(s: State, t: seq<Kind>, b: nat)
    requires Core(s, t) && b < BUCKET_COUNT && EmptyBetween(s, -1, b)
    ensures forall i :: 0 <= i < NODE_COUNT && t[i].Free? ==> Level(i) > b
  {
    forall i | 0 <= i < NODE_COUNT && t[i].Free?
      ensures Level(i) > b
    {
      LevelInRange(i);
      assert i in s.lists[Level(i)];
    }
  }

  // With no free block of bucket b or larger, every block of bucket b under the root touches a live one.
  lemma NoRoom(s: State, t: seq<Kind>, j: nat, b: nat)
    requires Core(s, t) && b < BUCKET_COUNT && EmptyBetween(s, -1, b) && Within(j, Root(s.limit))
    ensures !Fits(t, j, b)
  {
    NoFreeUpTo(s, t, b);
    if Fits(t, j, b) {
      var i := j;
      if t[j].Split? {
        SplitHoldsLive(t, s.limit, j);
        i := LiveBelow(t, j);
      } else if t[j].Absent? {
        i := BlockAboveAbsent(t, s.limit, j);
      }
      DisjointOrNested(i, j);
    }
  }

  lemma FitsSameLive(t: seq<Kind>, u: seq<Kind>, j: nat, b: nat)
    requires |t| == |u| == NODE_COUNT && SameLive(t, u)
    ensures Fits(t, j, b) <==> Fits(u, j, b)
  {
  }

  // The block handed out touches no live block.
  lemma AllocatedFits(s: State, t: seq<Kind>, request: SizeT, r: Allocation, u: seq<Kind>)
    requires Inv(s, t) && Allocated(s, t, request, r, u) && r.address.Some?
    ensures Need(request) <= MAX_ALLOC
    ensures var b := BucketFor(Need(request)); Fits(t, NodeForPtr(r.address.value, b), b)
  {
    var b := BucketFor(Need(request));
    var j := NodeForPtr(r.address.value, b);
    forall i | 0 <= i < NODE_COUNT && t[i].Live?
      ensures Disjoint(i, j)
    {
      assert u[i].Live? && u[j].Live?;
      BlocksDisjoint(u, r.s.limit, i, j);
    }
  }

  /** Completeness: as long as sbrk agrees, malloc_1 answers NULL exactly when the request is too large or no
      aligned block of the required size in the whole heap is clear of the live blocks. Otherwise a NULL means that sbrk
      has just refused the memory for the block to be used next. */
  lemma Completeness(s: State, t: seq<Kind>, request: SizeT, grant: nat -> bool)
    requires Inv(s, t)
    ensures Need(request) > MAX_ALLOC || !(exists j :: Fits(t, j, BucketFor(Need(request)))) ==>
              Malloc1(s, request, grant).address.None?
    ensures Need(request) <= MAX_ALLOC && (exists j :: Fits(t, j, BucketFor(Need(request)))) ==>
              var r := Malloc1(s, request, grant);
              r.address.None? ==> Starved(r.s, BucketFor(Need(request)), grant)
    ensures !Refuses(grant) ==>
              (Malloc1(s, request, grant).address.None? <==>
                 Need(request) > MAX_ALLOC || !exists j :: Fits(t, j, BucketFor(Need(request))))
  {
    var r := Malloc1(s, request, grant);
    var u := MallocKeeps(s, t, request, grant);
    if r.address.Some? {
      AllocatedFits(s, t, request, r, u);
    } else if Need(request) <= MAX_ALLOC && !Starved(r.s, BucketFor(Need(request)), grant) {
      var b := BucketFor(Need(request));
      forall j: nat
        ensures !Fits(t, j, b)
      {
        WithinZero(j);
        NoRoom(r.s, u, j, b);
        FitsSameLive(t, u, j, b);
      }
    }
  }

  lemma BlockFitsWord(b: nat)
    requires b < BUCKET_COUNT
    ensures BlockSize(b) < WORD
  {
    Pow2Monotone(MAX_ALLOC_LOG2 - b, 64 - 1);
    Doubled(64);
    SixteenTo(16);
    assert PowerOfSixteen(16) == WORD by {
      assert PowerOfSixteen(4) == 0x10000;
      assert PowerOfSixteen(8) == 0x10000 * PowerOfSixteen(4) && PowerOfSixteen(12) == 0x10000 * PowerOfSixteen(8);
    }
  }

  lemma LeastSize(need: nat)
    requires need <= MAX_ALLOC
    ensures var b := BucketFor(need);
            need <= BlockSize(b) && (BlockSize(b) == MIN_ALLOC || BlockSize(b) < 2 * need)
  {
    var b := BucketFor(need);
    if b + 1 < BUCKET_COUNT { assert BlockSize(b) == 2 * BlockSize(b + 1); }
  }

  // Where a live block lies: aligned, inside the root and below the frontier.
  lemma LiveBlockPlace(s: State, t: seq<Kind>, j: nat)
    requires Inv(s, t) && j < NODE_COUNT && t[j].Live?
    ensures Level(j) < BUCKET_COUNT && Addr(j) % BlockSize(Level(j)) == 0
    ensures Addr(j) + BlockSize(Level(j)) <= s.top
    ensures Addr(j) + BlockSize(Level(j)) <= BlockSize(s.limit)
  {
    hide Parent, Level, Addr, BitsOk, ListsOk, Root, Pow2;
    assert HeaderOk(s.headers, s.top, j);
    AddrAligned(j);
    PresentIsWithinRoot(t, s.limit, j);
    WithinNested(j, Root(s.limit));
    RootAddr(s.limit);
  }

  /** The returned block has the least power-of-two size that holds the needed bytes, is aligned to that size,
      is fully backed, and touches no live block. It holds the request and its header exactly when their sum does not
      wrap around. */
  lemma ReturnedBlock(s: State, t: seq<Kind>, request: SizeT, grant: nat -> bool)
    requires Inv(s, t) && Malloc1(s, request, grant).address.Some?
    ensures Need(request) <= MAX_ALLOC
    ensures var r := Malloc1(s, request, grant);
            var a, b := r.address.value, BucketFor(Need(request));
            && a % BlockSize(b) == 0
            && Need(request) <= BlockSize(b)
            && (BlockSize(b) == MIN_ALLOC || BlockSize(b) < 2 * Need(request))
            && a + BlockSize(b) <= r.s.top
            && a + BlockSize(b) <= BlockSize(r.s.limit)
            && Fits(t, NodeForPtr(a, b), b)
    ensures request + HEADER_SIZE <= BlockSize(BucketFor(Need(request))) <==> request < WORD - HEADER_SIZE
  {
    hide Parent, Level, Addr, BitsOk, ListsOk;
    var r := Malloc1(s, request, grant);
    var u := MallocKeeps(s, t, request, grant);
    AllocatedFits(s, t, request, r, u);
    var j := NodeForPtr(r.address.value, BucketFor(Need(request)));
    LiveBlockPlace(r.s, u, j);
    NeedIsSum(request);
    LeastSize(Need(request));
    BlockFitsWord(BucketFor(Need(request)));
  }

  /** The eight largest requests wrap around: whenever a smallest block is to be had, one is handed out, and it does
      not hold the request. */
  lemma WrappedRequest(s: State, t: seq<Kind>, request: SizeT, grant: nat -> bool)
    requires Inv(s, t) && !Refuses(grant) && request >= WORD - HEADER_SIZE
    ensures Need(request) < HEADER_SIZE <= MAX_ALLOC && BucketFor(Need(request)) == BUCKET_COUNT - 1
    ensures var b := BUCKET_COUNT - 1; Malloc1(s, request, grant).address.Some? <==> exists j :: Fits(t, j, b)
    ensures request + HEADER_SIZE > BlockSize(BUCKET_COUNT - 1)
  {
    hide Malloc1, Fits, Core;
    Pow2Monotone(4, MIN_ALLOC_LOG2);
    Pow2Monotone(MIN_ALLOC_LOG2, MAX_ALLOC_LOG2);
    assert Pow2(4) == 16;
    assert BlockSize(BUCKET_COUNT - 1) == MIN_ALLOC;
    BlockFitsWord(BUCKET_COUNT - 1);
    Completeness(s, t, request, grant);
  }

  /** In particular the very first call does so. */
  lemma WrappedFirstRequest(request: SizeT)
    requires request >= 0xFFFF_FFFF_FFFF_FFF8
    ensures Malloc1(InitState(), request, _ => true).address.Some?
    ensures Need(request) <= MAX_ALLOC && request + HEADER_SIZE > BlockSize(BucketFor(Need(request)))
  {
    hide Malloc1, Addr, Size, Pow2, BucketFor, Need;
    var b := BUCKET_COUNT - 1;
    InitOk();
    RootInRange(b);
    RootLevel(b);
    assert Fits(InitPicture(), Root(b), b);
    WrappedRequest(InitState(), InitPicture(), request, _ => true);
  }

  // Block i is the smallest free block of the picture v that is of bucket b or larger.
  ghost predicate SmallestFree(v: seq<Kind>, i: nat, b: nat)
    requires |v| == NODE_COUNT
  {
    && i < NODE_COUNT && v[i].Free? && Level(i) <= b
    && forall j :: 0 <= j < NODE_COUNT && v[j].Free? && Level(j) <= b ==> Level(j) <= Level(i)
  }

  // In a state whose buckets between b and wanted are empty, a block listed in b is the smallest that is large enough.
  lemma EmptyBetweenIsSmallest(p: State, v: seq<Kind>, i: nat, b: nat, wanted: nat)
    requires Core(p, v) && b <= wanted < BUCKET_COUNT && i in p.lists[b] && EmptyBetween(p, b, wanted)
    ensures SmallestFree(v, i, wanted) && Level(i) == b
  {
    hide Parent, Level, Addr, Size, Pow2;
    forall j | 0 <= j < NODE_COUNT && v[j].Free? && Level(j) <= wanted
      ensures Level(j) <= b
    {
      assert j in p.lists[Level(j)];
    }
  }

  /** Smallest fit: v is the tree after whatever growth there was, and the new block is cut from its smallest free block
      that is large enough, the one listed last among equals; the root moves only when no free block was large enough
      before. */
  lemma SmallestFit(s: State, t: seq<Kind>, request: SizeT, grant: nat -> bool) returns (i: nat, v: seq<Kind>)
    requires Inv(s, t) && Malloc1(s, request, grant).address.Some?
    ensures Need(request) <= MAX_ALLOC
    ensures var r := Malloc1(s, request, grant);
            && WellFormed(v, r.s.limit) && SameLive(t, v)
            && SmallestFree(v, i, BucketFor(Need(request))) && r.address == Some(Addr(i))
            && if r.s.limit == s.limit then
                 v == t && i in s.lists[Level(i)] && i == s.lists[Level(i)][|s.lists[Level(i)]| - 1]
               else forall j :: 0 <= j < NODE_COUNT && t[j].Free? ==> Level(j) > BucketFor(Need(request))
  {
    hide Parent, Level, Addr, Size, Pow2, Root, SmallestFree, FindBlock, Carve, BitsOk, ListsOk, WellFormed;
    hide EmptyBetween;
    CoreShape(s, t);
    var b := BucketFor(Need(request));
    v := FindBlockKeeps(s, t, b, grant);
    var hit := FindBlock(s, b, grant);
    var p := Push(hit.s, hit.found.bucket, hit.found.i);
    i := hit.found.i;
    assert i in p.lists[hit.found.bucket];
    EmptyBetweenIsSmallest(p, v, i, hit.found.bucket, b);
    var u := CarveKeeps(s, t, p, v, i, hit.found.bucket, b, request, grant);
    CarveKeepsLimit(hit.s, i, hit.found.bucket, b, request, grant);
    if p.limit < s.limit { NoFreeUpTo(s, t, b); }
  }

  lemma {:induction false} SplitDownKeepsLimit(s: State, i: nat, b: nat, wanted: nat)
    requires Shape(s) && Level(i) == b <= wanted < BUCKET_COUNT
    ensures SplitDown(s, i, b, wanted).limit == s.limit
    decreases wanted - b
  {
    if b < wanted {
      LevelInRange(i);
      SplitDownKeepsLimit(SplitStep(s, i, b), 2 * i + 1, b + 1, wanted);
    }
  }

  lemma CarveKeepsLimit(s: State, i: nat, b: nat, wanted: nat, request: SizeT, grant: nat -> bool)
    requires Shape(s) && Level(i) == b <= wanted < BUCKET_COUNT
    ensures Carve(s, i, b, wanted, request, grant).s.limit == s.limit
  {
    LevelBounds(i);
    LevelInRange(i);
    InnerNodes(i);
    var got := Reserve(s, PtrForNode(i, b) + BytesNeeded(b, wanted), grant);
    if got.ok {
      SplitDownKeepsLimit(got.s.(bits := FlipUnlessTop(got.s.bits, i)), i, b, wanted);
    }
  }

  // ---------- how far the root and the frontier move ----------

  lemma BlockInRoot(t: seq<Kind>, limit: nat, i: nat)
    requires WellFormed(t, limit) && i < NODE_COUNT && !t[i].Absent?
    ensures Addr(i) + Size(i) <= BlockSize(limit)
  {
    PresentIsWithinRoot(t, limit, i);
    WithinNested(i, Root(limit));
    RootAddr(limit);
  }

  lemma RootPresent(t: seq<Kind>, limit: nat)
    requires WellFormed(t, limit)
    ensures |t| == NODE_COUNT && limit < BUCKET_COUNT && Root(limit) < NODE_COUNT && !t[Root(limit)].Absent?
  {
  }

  // A root in use holds a live block, so that no larger block at the same place is clear.
  lemma UsedRootBlocks(t: seq<Kind>, limit: nat, b: nat)
    requires WellFormed(t, limit) && !t[Root(limit)].Free? && b <= limit
    ensures !Fits(t, Root(b), b)
  {
    hide Level, Addr, Pow2, Parent, Within, WellFormed;
    var i := Root(limit);
    RootPresent(t, limit);
    if t[i].Split? {
      SplitHoldsLive(t, limit, i);
      i := LiveBelow(t, i);
    }
    BlockInRoot(t, limit, i);
    RootInRange(b);
    RootLevel(b);
    RootAddr(b);
    Pow2Monotone(MAX_ALLOC_LOG2 - limit, MAX_ALLOC_LOG2 - b);
    SizePositive(i);
  }

  // A block of bucket b that ends within the first BlockSize(c) bytes lies under the root of bucket c.
  lemma EndsInRoot(j: nat, b: nat, c: nat)
    requires j < NODE_COUNT && Level(j) == b < BUCKET_COUNT && c < BUCKET_COUNT
    requires Addr(j) + BlockSize(b) <= BlockSize(c)
    ensures Within(j, Root(c)) && c <= b && (c == b ==> j == Root(c))
  {
    hide Addr, Parent, Pow2, Within;
    RootInRange(c);
    RootLevel(c);
    RootAddr(c);
    LevelInRange(j);
    DisjointOrNested(j, Root(c));
    WithinNested(j, Root(c));
  }

  lemma NoFurther(s: State, t: seq<Kind>, b: nat, p: State, j: nat)
    requires Core(s, t) && b < BUCKET_COUNT && GrewFor(s, t, b, p) && p.limit < s.limit && Fits(t, j, b)
    ensures Addr(j) + BlockSize(b) > BlockSize(p.limit + 1)
  {
    var c := p.limit + 1;
    if Addr(j) + BlockSize(b) <= BlockSize(c) {
      EndsInRoot(j, b, c);
      if c == s.limit {
        NoRoom(s, t, j, b);
      } else {
        UsedRootBlocks(t, s.limit, b);
      }
    }
  }

  /** The root moves no further than it has to, whatever sbrk answers: under a root one size smaller than the one it
      ends at, no block of the required size would have been clear of the live ones. */
  lemma GrowsNoFurther(s: State, t: seq<Kind>, request: SizeT, grant: nat -> bool)
    requires Inv(s, t) && Need(request) <= MAX_ALLOC
    ensures var r, b := Malloc1(s, request, grant).s, BucketFor(Need(request));
            && r.limit <= s.limit
            && (r.limit < s.limit ==>
                  forall j :: Fits(t, j, b) ==> Addr(j) + BlockSize(b) > BlockSize(r.limit + 1))
  {
    hide Parent, Level, Addr, Size, Pow2, Root, Malloc1, BitsOk, ListsOk, WellFormed, EmptyBetween, FrontierGrown;
    CoreShape(s, t);
    var b := BucketFor(Need(request));
    var p := SearchEnds(s, t, request, grant);
    if p.limit < s.limit {
      forall j | Fits(t, j, b)
        ensures Addr(j) + BlockSize(b) > BlockSize(p.limit + 1)
      {
        NoFurther(s, t, b, p, j);
      }
    }
  }

  // The state the search of malloc_1 ends in, the block it found still being listed.
  lemma SearchEnds(s: State, t: seq<Kind>, request: SizeT, grant: nat -> bool) returns (p: State)
    requires Inv(s, t) && Need(request) <= MAX_ALLOC
    ensures GrewFor(s, t, BucketFor(Need(request)), p) && Malloc1(s, request, grant).s.limit == p.limit <= s.limit
    ensures Malloc1(s, request, grant).address.None? ==> Malloc1(s, request, grant).s == p
  {
    hide Parent, Addr, Size, Pow2, Root, Carve, BitsOk, EmptyBetween, Level, FrontierGrown;
    var b := BucketFor(Need(request));
    var hit := FindBlock(s, b, grant);
    var v := FindBlockKeeps(s, t, b, grant);
    p := hit.s;
    if hit.found.Block? {
      p := Push(hit.s, hit.found.bucket, hit.found.i);
      assert hit.found.i in p.lists[hit.found.bucket];
      var u := CarveKeeps(s, t, p, v, hit.found.i, hit.found.bucket, b, request, grant);
      CarveKeepsLimit(hit.s, hit.found.i, hit.found.bucket, b, request, grant);
    }
  }

  // The last byte below the frontier is in use: a live block ends there, or the links of a listed free block do.
  ghost predicate FrontierUsed(s: State)
    requires Shape(s)
  {
    || (exists lo: nat :: LiveSpan(s, lo, s.top))
    || (exists lo: nat, hi: nat :: FreeSpan(s, lo, hi) && lo + LIST_T_SIZE == s.top)
  }

  lemma FreeLinksEnd(s: State, b: nat, i: nat)
    requires Shape(s) && b < BUCKET_COUNT && i in s.lists[b] && i < NODE_COUNT && Addr(i) + LIST_T_SIZE == s.top
    ensures FrontierUsed(s)
  {
    hide Addr, Pow2;
    assert FreeSpan(s, Addr(i), Addr(i) + BlockSize(b));
  }

  // Where growth has moved the frontier, it is the links of the last right buddy that end there.
  lemma LastBuddy(s: State, used: bool, p: State) returns (b: nat, i: nat)
    requires Shape(p) && p.limit <= s.limit < BUCKET_COUNT && FrontierGrown(s, used, p) && p.top != s.top
    ensures b < BUCKET_COUNT && i in p.lists[b] && i < NODE_COUNT && Addr(i) + LIST_T_SIZE == p.top
  {
    b, i := p.limit + 1, Root(p.limit + 1) + 1;
    RightOfRoot(b);
  }

  lemma SplitStepLists(s: State, i: nat, b: nat)
    requires Shape(s) && i < INNER_COUNT && b + 1 < BUCKET_COUNT
    ensures var r := SplitStep(s, i, b);
            && 2 * i + 2 in r.lists[b + 1] && r.top == s.top
            && forall c: nat, j: nat {:trigger j in s.lists[c]} :: c < BUCKET_COUNT && j in s.lists[c] ==>
                 j in r.lists[c]
  {
    hide Pow2, Flip;
  }

  // Splitting takes nothing off the lists, and the first right half is listed.
  lemma {:induction false} SplitDownLists(s: State, i: nat, b: nat, wanted: nat)
    requires Shape(s) && Level(i) == b <= wanted < BUCKET_COUNT
    ensures forall c: nat, j: nat {:trigger j in s.lists[c]} :: c < BUCKET_COUNT && j in s.lists[c] ==>
              j in SplitDown(s, i, b, wanted).lists[c]
    ensures b < wanted ==> 2 * i + 2 in SplitDown(s, i, b, wanted).lists[b + 1]
    ensures SplitDown(s, i, b, wanted).top == s.top
    decreases wanted - b
  {
    hide Pow2, SplitStep;
    if b < wanted {
      LevelInRange(i);
      ParentOfChild(i);
      SplitStepLists(s, i, b);
      var s1 := SplitStep(s, i, b);
      SplitDownLists(s1, 2 * i + 1, b + 1, wanted);
      forall c: nat, j: nat {:trigger j in s.lists[c]} | c < BUCKET_COUNT && j in s.lists[c]
        ensures j in SplitDown(s, i, b, wanted).lists[c]
      {
        assert j in s1.lists[c];
      }
    }
  }

  lemma PopKeepsOthers(p: State, b: nat)
    requires b < |p.lists| && p.lists[b] != []
    ensures forall c: nat, x: nat {:trigger x in p.lists[c]} ::
              c < |p.lists| && x in p.lists[c] && x != p.lists[b][|p.lists[b]| - 1] ==> x in Pop(p, b).lists[c]
  {
  }

  // What taking a block asks for, by the places of its halves.
  lemma BytesOf(i: nat, b: nat, wanted: nat)
    requires Level(i) == b <= wanted < BUCKET_COUNT && i < NODE_COUNT
    ensures b == wanted ==> LIST_T_SIZE <= BytesNeeded(b, wanted) == BlockSize(b)
    ensures b < wanted ==>
              && 2 * i + 2 < NODE_COUNT && Addr(2 * i + 2) == Addr(i) + BlockSize(b + 1)
              && LIST_T_SIZE < BytesNeeded(b, wanted) == BlockSize(b + 1) + LIST_T_SIZE
  {
    hide Addr, Pow2, Parent, Level;
    Aligned16(i);
    if b < wanted {
      LevelInRange(i);
      InnerNodes(i);
      ChildGeometry(i);
      Aligned16(2 * i + 1);
    }
  }

  // The block taken reaches the frontier itself, or its right half does with its links, or the frontier has not moved.
  lemma CarvedFrontier(p: State, v: seq<Kind>, i: nat, b: nat, wanted: nat, request: SizeT, grant: nat -> bool)
    requires Core(p, v) && b <= wanted < BUCKET_COUNT && p.lists[b] != [] && i == p.lists[b][|p.lists[b]| - 1]
    requires Level(i) == b && i < NODE_COUNT && Need(request) <= MAX_ALLOC && wanted == BucketFor(Need(request))
    requires Carve(Pop(p, b), i, b, wanted, request, grant).address.Some?
    ensures var r := Carve(Pop(p, b), i, b, wanted, request, grant).s;
            && p.top <= r.top
            && (r.top > p.top ==> grant(r.top) && FrontierUsed(r))
            && (forall c: nat, x: nat {:trigger x in p.lists[c]} ::
                  c < BUCKET_COUNT && x in p.lists[c] && x != i ==> x in r.lists[c])
            && (r.top == p.top && p.top == Addr(i) + LIST_T_SIZE ==> FrontierUsed(r))
  {
    hide Parent, Addr, Size, Pow2, Level, BitsOk, ListsOk, Carve, FreeSpan, SplitDown;
    var s1 := CarveIs(p, i, b, wanted, request, grant);
    SplitDownLists(s1, i, b, wanted);
    var r := Carve(Pop(p, b), i, b, wanted, request, grant).s;
    PopKeepsOthers(p, b);
    BytesOf(i, b, wanted);
    assert LiveSpan(r, Addr(i), Addr(i) + BlockSize(wanted));
    if r.top > p.top && b < wanted { FreeLinksEnd(r, b + 1, 2 * i + 2); }
  }

  lemma {:induction false} LowerLimitGranted(s: State, bucket: nat, grant: nat -> bool)
    requires Shape(s)
    ensures var r := LowerLimit(s, bucket, grant).s; s.top <= r.top && (r.top == s.top || grant(r.top))
    decreases s.limit
  {
    hide Root, PtrForNode;
    if bucket < s.limit && GrowOnce(s, grant).ok { LowerLimitGranted(GrowOnce(s, grant).s, bucket, grant); }
  }

  lemma {:induction false} FindBlockGranted(s: State, bucket: nat, grant: nat -> bool)
    requires Shape(s) && bucket < BUCKET_COUNT
    ensures var r := FindBlock(s, bucket, grant).s; s.top <= r.top && (r.top == s.top || grant(r.top))
    decreases bucket
  {
    hide LowerLimit;
    LowerLimitGranted(s, bucket, grant);
    var got := LowerLimit(s, bucket, grant);
    if got.ok && got.s.lists[bucket] == [] && bucket > 0 {
      if bucket != got.s.limit {
        FindBlockGranted(got.s, bucket - 1, grant);
      } else {
        LowerLimitGranted(got.s, bucket - 1, grant);
      }
    }
  }

  /** max_ptr moves only as far as is used at once: a call of malloc_1 leaves it where it was, or sbrk has granted just
      the new value and the last byte below it belongs to a live block or to the links of a listed free block. */
  lemma FrontierMoves(s: State, t: seq<Kind>, request: SizeT, grant: nat -> bool)
    requires Inv(s, t)
    ensures var r := Malloc1(s, request, grant).s;
            Shape(r) && (r.top == s.top || (r.top > s.top && grant(r.top) && FrontierUsed(r)))
  {
    hide Parent, Addr, Size, Pow2, Root, Carve, BitsOk, EmptyBetween, Level, FrontierGrown, FrontierUsed;
    hide FindBlock;
    CoreShape(s, t);
    if Need(request) <= MAX_ALLOC {
      var b := BucketFor(Need(request));
      var hit := FindBlock(s, b, grant);
      var v := FindBlockKeeps(s, t, b, grant);
      FindBlockGranted(s, b, grant);
      var used := !t[Root(s.limit)].Free?;
      if hit.found.Block? {
        var p := Push(hit.s, hit.found.bucket, hit.found.i);
        assert hit.found.i in p.lists[hit.found.bucket];
        var u := CarveKeeps(s, t, p, v, hit.found.i, hit.found.bucket, b, request, grant);
        if Malloc1(s, request, grant).address.Some? {
          CarvedFrontier(p, v, hit.found.i, hit.found.bucket, b, request, grant);
        }
        if p.top != s.top {
          var c, x := LastBuddy(s, used, p);
          var r := Malloc1(s, request, grant).s;
          if r.top == p.top && x in r.lists[c] { FreeLinksEnd(r, c, x); }
        }
      } else if hit.s.top != s.top {
        var c, x := LastBuddy(s, used, hit.s);
        FreeLinksEnd(hit.s, c, x);
      }
    }
  }

  /** max_ptr is the highest address ever used: in every state of every run it is the end of a live block, or of the
      links of a free one, in that state or an earlier one. */
  lemma {:induction false} FrontierWasUsed(run: seq<State>, calls: seq<Call>, n: nat) returns (k: nat)
    requires IsRun(run, calls) && n < |run|
    ensures k <= n && Shape(run[k]) && run[k].top == run[n].top && FrontierUsed(run[k])
    decreases n
  {
    if n == 0 {
      k := 0;
      FreshHeap();
    } else {
      var t := RunKeepsInv(run, calls, n - 1);
      k := FrontierWasUsed(run, calls, n - 1);
      assert Step(run[n - 1], calls[n - 1], run[n]);
      match calls[n - 1] {
        case CallMalloc(request, grant) =>
          FrontierMoves(run[n - 1], t, request, grant);
          if run[n].top != run[n - 1].top { k := n; }
        case CallFree(a) =>
          var u := FreeKeeps(run[n - 1], t, a);
      }
    }
  }

  // With a single block listed and none live, that block is the only one there is.
  lemma OneSpan(s: State, b: nat, i: nat)
    requires Shape(s) && b < BUCKET_COUNT && i < NODE_COUNT && s.headers == map[]
    requires forall c {:trigger s.lists[c]} :: 0 <= c < BUCKET_COUNT ==> s.lists[c] == if c == b then [i] else []
    ensures forall live, lo: nat, hi: nat ::
              Span(s, live, lo, hi) <==> !live && lo == Addr(i) && hi == Addr(i) + BlockSize(b)
  {
    hide Addr, Pow2;
    assert i in s.lists[b];
    assert FreeSpan(s, Addr(i), Addr(i) + BlockSize(b));
  }

  /** The heap starts as one free block of the smallest size, only its links being backed. */
  lemma FreshHeap()
    ensures var s := InitState();
            && Shape(s)
            && (forall live, lo: nat, hi: nat :: Span(s, live, lo, hi) <==> !live && lo == 0 && hi == MIN_ALLOC)
            && s.top == 16 && FrontierUsed(s)
  {
    hide InitState, Root, Addr, Span, FrontierUsed, Pow2;
    var s, b := InitState(), BUCKET_COUNT - 1;
    InitLists();
    RootAddr(b);
    RootInRange(b);
    OneSpan(s, b, Root(b));
    assert Span(s, false, 0, MIN_ALLOC);
    StartsUsed(s);
  }

  lemma StartsUsed(s: State)
    requires Shape(s) && Span(s, false, 0, MIN_ALLOC) && s.top == LIST_T_SIZE
    ensures FrontierUsed(s)
  {
  }

  // ---------- failure ----------

  /** Failure atomicity: a NULL answer leaves the live blocks and the invariant as they were; what may remain is
      growth that had already succeeded, and without growth nothing at all has changed. */
  lemma FailureAtomic(s: State, t: seq<Kind>, request: SizeT, grant: nat -> bool) returns (u: seq<Kind>)
    requires Inv(s, t) && Malloc1(s, request, grant).address.None?
    ensures var r := Malloc1(s, request, grant).s;
            && Inv(r, u) && SameLive(t, u) && r.headers == s.headers && s.top <= r.top
            && (r.limit == s.limit ==> r == s)
  {
    hide Parent, Level, Addr, Size;
    u := MallocKeeps(s, t, request, grant);
    if Need(request) <= MAX_ALLOC { var p := SearchEnds(s, t, request, grant); }
  }

  // ---------- free undoes malloc ----------

  lemma FlipTwice(bits: seq<bool>, i: nat)
    requires 0 < i && Parent(i) < |bits|
    ensures Flip(Flip(bits, i), i) == bits
  {
  }

  // Merging the two halves of a block just split restores the state before the split.
  lemma MergeUndoesSplit(s: State, t: seq<Kind>, i: nat, b: nat)
    requires Core(s, t) && Level(i) == b && b + 1 < BUCKET_COUNT && i < INNER_COUNT && t[i].Live?
    requires s.lists[b + 1] == []
    ensures Level(2 * i + 1) == b + 1
    ensures Coalesce(SplitStep(s, i, b), 2 * i + 1, b + 1) == Coalesce(s, i, b)
  {
    hide Addr, Size, Pow2, ListsOk, FreeBacked;
    var s1 := SplitStep(s, i, b);
    assert Parent(2 * i + 1) == i && Buddy(2 * i + 1) == 2 * i + 2;
    InnerNodes(i);
    OnlyNodeAtRootLevel(t, s.limit, i);
    FlipTwice(s.bits, 2 * i + 1);
    if s.limit > 0 { AboveRoot(t, s.limit); }
    assert !s.bits[i] by { assert s.bits[i] <==> BitOf(t, s.limit, i); }
    assert s1.lists[b + 1] == [2 * i + 2];
    assert Unlink(s1.(bits := s.bits), b + 1, 2 * i + 2) == s by {
      assert Without([2 * i + 2], 2 * i + 2) == [];
      assert s1.lists[b + 1 := []] == s.lists;
    }
  }

  lemma {:induction false} CoalesceUndoesSplitDown(s: State, t: seq<Kind>, i: nat, b: nat, wanted: nat)
    requires Core(s, t) && Level(i) == b <= wanted < BUCKET_COUNT && i < NODE_COUNT && t[i].Live?
    requires b < wanted ==> Addr(i) + Size(i) / 2 + LIST_T_SIZE <= s.top
    requires EmptyBetween(s, b, wanted)
    ensures Coalesce(SplitDown(s, i, b, wanted), Leftmost(i, b, wanted), wanted) == Coalesce(s, i, b)
    decreases wanted - b
  {
    hide Parent, Level, Addr, Size;
    if b < wanted {
      SplitStepKeeps(s, t, i, b);
      CoalesceUndoesSplitDown(SplitStep(s, i, b), SplitPicture(t, i), 2 * i + 1, b + 1, wanted);
      MergeUndoesSplit(s, t, i, b);
    }
  }

  // Releasing a block just taken puts it back at the end of its list.
  lemma ReleaseUndoesTake(s: State, t: seq<Kind>, i: nat, b: nat, s1: State)
    requires Core(s, t) && b < BUCKET_COUNT && s.lists[b] != [] && i == s.lists[b][|s.lists[b]| - 1]
    requires Level(i) == b && i < 2 * |s.bits| + 1
    requires s1 == Pop(s, b).(top := s1.top, bits := FlipUnlessTop(s.bits, i)) && s.top <= s1.top
    ensures Shape(s1) && Coalesce(s1, i, b) == s.(top := s1.top)
  {
    TakeKeeps(s, t, i, b, s1.top);
    PushBack(s, b);
    if i > 0 {
      CoalesceStep(s1, t[i := Live], i, b);
      FlipTwice(s.bits, i);
      assert NodeOk(t, Root(s.limit), i);
      if i != Root(s.limit) { BuddyInRange(i); assert NodeOk(t, Root(s.limit), Parent(i)); }
    }
  }

  lemma UndoneInPlace(s: State, t: seq<Kind>, request: SizeT, grant: nat -> bool)
    requires Inv(s, t)
    requires Malloc1(s, request, grant).address.Some? && Malloc1(s, request, grant).s.limit == s.limit
    ensures var r := Malloc1(s, request, grant);
            var a := r.address.value;
            && a in r.s.headers && Need(r.s.headers[a]) <= MAX_ALLOC
            && Level(FreedNode(r.s, a)) == BucketFor(Need(r.s.headers[a]))
            && Free1(r.s, a) == s.(top := r.s.top)
  {
    hide Parent, Level, Addr, Size;
    var wanted := BucketFor(Need(request));
    var hit := FindBlock(s, wanted, grant);
    var v := FindBlockKeeps(s, t, wanted, grant);
    var b, i := hit.found.bucket, hit.found.i;
    CarveKeepsLimit(hit.s, i, b, wanted, request, grant);
    UndoCarve(s, t, i, b, wanted, request, grant);
  }

  /** Freeing the result of malloc_1 at once restores every bit and every free list, order included, exactly when the
      root has not moved; only the backing may have grown. */
  lemma FreeUndoesMalloc(s: State, t: seq<Kind>, request: SizeT, grant: nat -> bool)
    requires Inv(s, t) && Malloc1(s, request, grant).address.Some?
    ensures var r := Malloc1(s, request, grant);
            var a := r.address.value;
            && a in r.s.headers && Need(r.s.headers[a]) <= MAX_ALLOC
            && Level(FreedNode(r.s, a)) == BucketFor(Need(r.s.headers[a]))
            && (Free1(r.s, a) == s.(top := r.s.top) <==> r.s.limit == s.limit)
  {
    hide Malloc1, Free1, BucketFor, FreedNode, Core, Need;
    CoreShape(s, t);
    var r := Malloc1(s, request, grant);
    var u := MallocKeeps(s, t, request, grant);
    var w := FreeKeeps(r.s, u, r.address.value);
    if r.s.limit == s.limit { UndoneInPlace(s, t, request, grant); }
  }

  lemma UndoCarve(s: State, t: seq<Kind>, i: nat, b: nat, wanted: nat, request: SizeT, grant: nat -> bool)
    requires Inv(s, t) && b <= wanted < BUCKET_COUNT && s.lists[b] != [] && i == s.lists[b][|s.lists[b]| - 1]
    requires Level(i) == b && EmptyBetween(s, b, wanted)
    requires Need(request) <= MAX_ALLOC && wanted == BucketFor(Need(request))
    requires Carve(Pop(s, b), i, b, wanted, request, grant).address.Some?
    ensures var r := Carve(Pop(s, b), i, b, wanted, request, grant);
            var a := r.address.value;
            && a in r.s.headers && Need(r.s.headers[a]) <= MAX_ALLOC
            && Level(FreedNode(r.s, a)) == BucketFor(Need(r.s.headers[a]))
            && Free1(r.s, a) == s.(top := r.s.top)
  {
    CoreShape(s, t);
    InnerNodes(i);
    assert Core(s, t);
    hide *;
    var s1 := CarveIs(s, i, b, wanted, request, grant);
    BytesSuffice(i, b, wanted, s1.top);
    UndoSplitAndTake(s, t, i, b, wanted, s1);
    AddressIsNew(s, t, i, b, wanted, request, s1);
    FreeOfLeaf(SplitDown(s1, i, b, wanted), Leftmost(i, b, wanted), wanted, request);
  }

  lemma AddressIsNew(s: State, t: seq<Kind>, i: nat, b: nat, wanted: nat, request: SizeT, s1: State)
    requires Inv(s, t) && b <= wanted < BUCKET_COUNT && s.lists[b] != [] && i == s.lists[b][|s.lists[b]| - 1]
    requires Level(i) == b && i < NODE_COUNT && i < 2 * |s.bits| + 1
    requires Need(request) <= MAX_ALLOC && wanted == BucketFor(Need(request))
    requires s1 == Pop(s, b).(top := s1.top, bits := FlipUnlessTop(s.bits, i)) && s.top <= s1.top
    requires Addr(i) + BytesNeeded(b, wanted) <= s1.top
    ensures Addr(i) !in s.headers
  {
    hide Level, Addr, Size, BytesNeeded, BitsOk, ListsOk;
    var w := CarveSucceeds(s, t, s, t, i, b, wanted, request, s1);
  }

  // free_1 reads the header just written back and starts climbing from the very node handed out.
  lemma FreeOfLeaf(s: State, leaf: nat, wanted: nat, request: SizeT)
    requires Shape(s) && leaf < NODE_COUNT && Level(leaf) == wanted && Addr(leaf) !in s.headers
    requires Need(request) <= MAX_ALLOC && wanted == BucketFor(Need(request))
    ensures var r := s.(headers := s.headers[Addr(leaf) := request]);
            && FreedNode(r, Addr(leaf)) == leaf
            && Free1(r, Addr(leaf)) == Coalesce(s, leaf, wanted)
  {
    hide Parent, Level, Addr, Size, Pow2;
    NodeOfAddr(leaf);
    assert s.headers[Addr(leaf) := request] - {Addr(leaf)} == s.headers;
  }

  lemma UndoSplitAndTake(s: State, t: seq<Kind>, i: nat, b: nat, wanted: nat, s1: State)
    requires Core(s, t) && b <= wanted < BUCKET_COUNT && s.lists[b] != [] && i == s.lists[b][|s.lists[b]| - 1]
    requires Level(i) == b && i < NODE_COUNT && i < 2 * |s.bits| + 1 && EmptyBetween(s, b, wanted)
    requires s1 == Pop(s, b).(top := s1.top, bits := FlipUnlessTop(s.bits, i)) && s.top <= s1.top
    requires Addr(i) + BytesNeeded(b, wanted) <= s1.top
    ensures Shape(s1)
    ensures Coalesce(SplitDown(s1, i, b, wanted), Leftmost(i, b, wanted), wanted) == s.(top := s1.top)
    ensures SplitDown(s1, i, b, wanted).headers == s.headers && SplitDown(s1, i, b, wanted).top == s1.top
  {
    hide Parent, Level, Addr, Size, BitsOk, ListsOk, BytesNeeded;
    TakeKeeps(s, t, i, b, s1.top);
    BytesSuffice(i, b, wanted, s1.top);
    var u := TakeAndSplit(s, t, i, b, wanted, s1);
    CoalesceUndoesSplitDown(s1, t[i := Live], i, b, wanted);
    ReleaseUndoesTake(s, t, i, b, s1);
  }

  // ---------- malloc undoes free ----------

  // With nothing to merge, freeing a block flips one bit and puts the block at the end of its list.
  lemma FreeInPlace(s: State, t: seq<Kind>, a: nat, i: nat, b: nat)
    requires Inv(s, t) && a in s.headers && Need(s.headers[a]) <= MAX_ALLOC
    requires i == FreedNode(s, a) && b == BucketFor(Need(s.headers[a])) == Level(i)
    requires i == 0 || b == s.limit || Buddy(i) !in s.lists[b]
    ensures i < NODE_COUNT && i < 2 * |s.bits| + 1
    ensures Free1(s, a) == s.(headers := s.headers - {a}, bits := FlipUnlessTop(s.bits, i),
                              lists := s.lists[b := s.lists[b] + [i]])
  {
    hide Addr, Size, Pow2, Parent, BitsOk, BucketFor, Need;
    FreedNodeIsLive(s, t, a);
    InnerNodes(i);
    if i > 0 {
      CoalesceStep(s, t, i, b);
      OnlyNodeAtRootLevel(t, s.limit, i);
    }
  }

  // The block at the end of the list of bucket b is taken whole, without a word to sbrk when it is backed already.
  lemma TakeListed(r: State, i: nat, b: nat, request: SizeT, grant: nat -> bool)
    requires Shape(r) && r.limit <= b < BUCKET_COUNT && r.lists[b] != [] && i == r.lists[b][|r.lists[b]| - 1]
    requires Level(i) == b && i < NODE_COUNT && i < 2 * |r.bits| + 1 && Addr(i) + BlockSize(b) <= r.top
    requires Need(request) <= MAX_ALLOC && b == BucketFor(Need(request))
    ensures Malloc1(r, request, grant) ==
              Allocation(Pop(r, b).(bits := FlipUnlessTop(r.bits, i), headers := r.headers[Addr(i) := request]),
                         Some(Addr(i)))
  {
    hide Addr, Size, Pow2, Parent, BucketFor, Need, Level;
    PtrForNodeIsAddr(i);
    LevelBounds(i);
    assert FindBlock(r, b, grant) == PopBlock(r, b);
  }

  /** The block freed last is the first to be handed out again: when its buddy is not free, asking for the same size
      after a free gives back the same block, whatever sbrk would say, and with it the whole state, list orders
      included. */
  lemma MallocUndoesFree(s: State, t: seq<Kind>, a: nat, grant: nat -> bool)
    requires Inv(s, t) && a in s.headers && Need(s.headers[a]) <= MAX_ALLOC
    requires Level(FreedNode(s, a)) == BucketFor(Need(s.headers[a]))
    requires var i, b := FreedNode(s, a), BucketFor(Need(s.headers[a]));
             i == 0 || b == s.limit || Buddy(i) !in s.lists[b]
    ensures Malloc1(Free1(s, a), s.headers[a], grant) == Allocation(s, Some(a))
  {
    hide Addr, Pow2, BitsOk, ListsOk, BucketFor, Need, Level, Malloc1, Free1;
    var i, b := FreedNode(s, a), BucketFor(Need(s.headers[a]));
    CoreShape(s, t);
    FreedNodeIsLive(s, t, a);
    FreeInPlace(s, t, a, i, b);
    var r := Free1(s, a);
    BlockBelowRoot(t, s.limit, i);
    TakeListed(r, i, b, s.headers[a], grant);
    assert DropLast(s.lists[b] + [i]) == s.lists[b];
    assert r.lists[b := s.lists[b]] == s.lists;
    assert (s.headers - {a})[a := s.headers[a]] == s.headers;
    if i > 0 { FlipTwice(s.bits, i); }
  }

  lemma BlockBelowRoot(t: seq<Kind>, limit: nat, i: nat)
    requires WellFormed(t, limit) && i < NODE_COUNT && !t[i].Absent?
    ensures limit <= Level(i)
  {
    PresentIsWithinRoot(t, limit, i);
    WithinNested(i, Root(limit));
    RootLevel(limit);
  }
}
