/** malloc_1 as a whole: it keeps the invariant, fails only when it must, takes the smallest fit. */
module BuddyMallocProof {
  import opened Options
  import opened Geometry
  import opened FreeLists
  import opened Tree
  import opened BuddySpec
  import opened BuddyInvariant

  // How the live blocks change: `gone` stops being live, `added` becomes live (-1 for none).
  ghost predicate LiveChange(t: seq<Kind>, u: seq<Kind>, gone: int, added: int)
    requires |t| == |u| == NODE_COUNT
  {
    forall i {:trigger u[i]} {:trigger t[i]} :: 0 <= i < NODE_COUNT ==>
      (u[i].Live? <==> (t[i].Live? && i != gone) || i == added)
  }

  ghost predicate Refuses(grant: nat -> bool) {
    exists v: nat :: !grant(v)
  }

  // sbrk refuses the links of the root's right buddy, which begins where the root ends: growth stops here.
  ghost predicate RootRefused(s: State, grant: nat -> bool) {
    && 0 < s.limit < BUCKET_COUNT
    && var v := BlockSize(s.limit) + LIST_T_SIZE;
       v > s.top && !grant(v)
  }

  // Growth past roots in use moves the frontier just far enough for the links of the last right buddy it lists; past a
  // free root it leaves the frontier where it is.
  ghost predicate FrontierGrown(s: State, used: bool, s': State)
    requires |s'.lists| == BUCKET_COUNT && s'.limit <= s.limit < BUCKET_COUNT
  {
    && (s'.limit == s.limit ==> s' == s)
    && if used && s'.limit < s.limit then
         var v := BlockSize(s'.limit + 1) + LIST_T_SIZE;
         && s'.top == (if v > s.top then v else s.top)
         && Root(s'.limit + 1) + 1 in s'.lists[s'.limit + 1]
       else s'.top == s.top
  }

  lemma HeadersSameLive(headers: map<nat, SizeT>, top: nat, top': nat, t: seq<Kind>, u: seq<Kind>)
    requires |t| == |u| == NODE_COUNT && SameLive(t, u) && top <= top'
    requires HeadersOk(headers, top, t, -1)
    ensures HeadersOk(headers, top', u, -1)
  {
    forall i | 0 <= i < NODE_COUNT && u[i].Live?
      ensures HeaderOk(headers, top', i)
    {
      assert t[i].Live? && HeaderOk(headers, top, i);
    }
    forall a | a in headers
      ensures OwnerOk(headers, u, a)
    {
      assert OwnerOk(headers, t, a);
    }
  }

  // ---------- growth ----------

  lemma GrowStepLive(t: seq<Kind>, limit: nat)
    requires WellFormed(t, limit) && limit > 0 && Root(limit) + 1 < NODE_COUNT
    ensures SameLive(t, GrowPicture(t, limit))
  {
    AboveRoot(t, limit);
  }

  // What a stretch of growth does, whether or not it got as far as it was asked to.
  ghost predicate Grown(s: State, t: seq<Kind>, s': State, u: seq<Kind>, ok: bool)
    requires Core(s, t)
  {
    && Core(s', u) && SameLive(t, u)
    && s'.headers == s.headers && s.top <= s'.top && s'.limit <= s.limit
    && (t[Root(s.limit)].Free? <==> u[Root(s'.limit)].Free?)
    && (t[Root(s.limit)].Free? ==> ok)
    && (forall c :: s.limit < c < BUCKET_COUNT ==> s'.lists[c] == s.lists[c])
  }

  lemma GrowOnceKeeps(s: State, t: seq<Kind>, grant: nat -> bool) returns (u: seq<Kind>)
    requires Core(s, t) && s.limit > 0
    ensures var r := GrowOnce(s, grant);
            && Grown(s, t, r.s, u, r.ok)
            && FrontierGrown(s, !t[Root(s.limit)].Free?, r.s)
            && (!r.ok ==> RootRefused(s, grant) && r.s == s)
            && (r.ok && !t[Root(s.limit)].Free? ==> r.s.lists[s.limit] == s.lists[s.limit] + [Root(s.limit) + 1])
            && (t[Root(s.limit)].Free? ==> r.s.lists[s.limit - 1] == [Root(s.limit - 1)])
    ensures Root(s.limit) + 1 < NODE_COUNT && u == if GrowOnce(s, grant).ok then GrowPicture(t, s.limit) else t
  {
    hide Parent, Level, Addr, Size, Pow2, Root, BitsOk, ListsOk;
    RootBit(s, t);
    RightOfRoot(s.limit);
    GrowOk(t, s.limit);
    if t[Root(s.limit)].Free? {
      GrowFreeKeeps(s, t);
      u := GrowPicture(t, s.limit);
      GrowStepLive(t, s.limit);
    } else {
      var v := Addr(Root(s.limit) + 1) + LIST_T_SIZE;
      ReserveKeeps(s, t, v, grant);
      var got := Reserve(s, v, grant);
      u := t;
      if got.ok {
        GrowUsedKeeps(got.s, t);
        u := GrowPicture(t, s.limit);
        GrowStepLive(t, s.limit);
      }
    }
  }

  lemma FrontierGrownOn(s: State, t: seq<Kind>, p: State, u: seq<Kind>, r: State, v: seq<Kind>, ok: bool)
    requires Core(s, t) && Grown(s, t, p, u, true) && Grown(p, u, r, v, ok)
    requires FrontierGrown(s, !t[Root(s.limit)].Free?, p) && FrontierGrown(p, !u[Root(p.limit)].Free?, r)
    ensures FrontierGrown(s, !t[Root(s.limit)].Free?, r)
  {
    hide Level, Addr, Size, Pow2, Parent, Root, BitsOk, ListsOk, WellFormed;
    if r.limit < p.limit < s.limit { Pow2Monotone(MAX_ALLOC_LOG2 - p.limit - 1, MAX_ALLOC_LOG2 - r.limit - 1); }
  }

  /** lower_bucket_limit reaches the asked limit, or sbrk refuses the sixteen bytes after the root it got to; either way
      the live blocks stay as they are, and the frontier ends at the links of the last block listed. */
  lemma {:induction false} LowerLimitKeeps(s: State, t: seq<Kind>, bucket: nat, grant: nat -> bool)
    returns (u: seq<Kind>)
    requires Core(s, t)
    ensures var r := LowerLimit(s, bucket, grant);
            && Grown(s, t, r.s, u, r.ok)
            && (r.ok ==> r.s.limit == if s.limit <= bucket then s.limit else bucket)
            && FrontierGrown(s, !t[Root(s.limit)].Free?, r.s)
            && (!r.ok ==> RootRefused(r.s, grant) && bucket < r.s.limit)
            && (s.limit <= bucket ==> r.ok && r.s == s && u == t)
            && (bucket < s.limit && !t[Root(s.limit)].Free? && r.ok ==>
                  r.s.lists[s.limit] == s.lists[s.limit] + [Root(s.limit) + 1])
    decreases s.limit
  {
    hide Parent, Level, Addr, Size, Pow2, Root, WellFormed, BitsOk, ListsOk, GrowOnce;
    u := t;
    if s.limit > bucket {
      u := GrowOnceKeeps(s, t, grant);
      var once := GrowOnce(s, grant);
      if once.ok {
        var v := LowerLimitKeeps(once.s, u, bucket, grant);
        var r := LowerLimit(s, bucket, grant);
        FrontierGrownOn(s, t, once.s, u, r.s, v, r.ok);
        u := v;
      }
    }
  }

  // ---------- the search ----------

  ghost predicate EmptyBetween(s: State, b: int, bucket: nat)
    requires |s.lists| == BUCKET_COUNT && bucket < BUCKET_COUNT
  {
    forall c {:trigger s.lists[c]} :: 0 <= c && b < c <= bucket ==> s.lists[c] == []
  }

  // The search found block i of bucket b in the grown state p, of which u is the picture.
  ghost predicate Hit(s: State, t: seq<Kind>, bucket: nat, s': State, i: nat, b: nat, u: seq<Kind>)
    requires Core(s, t) && Shape(s') && bucket < BUCKET_COUNT
  {
    && b <= bucket
    && var p := Push(s', b, i);
    && Grown(s, t, p, u, true)
    && Pop(p, b) == s'
    && EmptyBetween(p, b, bucket)
    && EmptyBetween(s, b, bucket)
    && (p.limit == s.limit ==> p == s && u == t)
    && (p.limit < s.limit ==> EmptyBetween(s, -1, bucket))
  }

  // Looking for a block of the given bucket, the root has moved no further than it had to: to that bucket, or, past a
  // root in use that is no larger, by one size.
  ghost predicate GrewFor(s: State, t: seq<Kind>, bucket: nat, p: State)
    requires Core(s, t) && bucket < BUCKET_COUNT
  {
    && p.limit <= s.limit && |p.lists| == BUCKET_COUNT
    && (p.limit < s.limit ==> EmptyBetween(s, -1, bucket))
    && FrontierGrown(s, !t[Root(s.limit)].Free?, p)
    && (|| p.limit == s.limit
        || bucket <= p.limit
        || (!t[Root(s.limit)].Free? && p.limit + 1 == if s.limit < bucket then s.limit else bucket))
  }

  ghost predicate Searched(s: State, t: seq<Kind>, bucket: nat, r: Search, u: seq<Kind>, grant: nat -> bool)
    requires Core(s, t) && Shape(r.s) && bucket < BUCKET_COUNT
  {
    match r.found
    case Block(i, b) => Hit(s, t, bucket, r.s, i, b, u) && GrewFor(s, t, bucket, Push(r.s, b, i))
    case NoBacking =>
      && RootRefused(r.s, grant) && EmptyBetween(r.s, -1, bucket)
      && Grown(s, t, r.s, u, false) && GrewFor(s, t, bucket, r.s)
    case NoBlock =>
      && r.s.limit == 0 && EmptyBetween(r.s, -1, bucket)
      && Grown(s, t, r.s, u, true) && GrewFor(s, t, bucket, r.s)
    case NullPop => false
  }

  lemma NothingAboveRoot(s: State, t: seq<Kind>, bucket: nat)
    requires Core(s, t) && bucket < BUCKET_COUNT && bucket <= s.limit && (bucket == s.limit ==> s.lists[bucket] == [])
    ensures EmptyBetween(s, -1, bucket)
  {
    forall c | 0 <= c <= bucket
      ensures s.lists[c] == []
    {
      if c < s.limit { AboveRootEmpty(s.lists, t, s.limit, c); }
    }
  }

  lemma PopIsHit(s: State, t: seq<Kind>, bucket: nat, p: State, u: seq<Kind>)
    requires Core(s, t) && bucket < BUCKET_COUNT && Grown(s, t, p, u, true) && p.lists[bucket] != []
    requires p.limit == s.limit ==> p == s && u == t
    requires p.limit < s.limit ==> EmptyBetween(s, -1, bucket)
    ensures var r := PopBlock(p, bucket);
            && r == Search(Block(p.lists[bucket][|p.lists[bucket]| - 1], bucket), r.s)
            && Hit(s, t, bucket, r.s, r.found.i, bucket, u) && Push(r.s, bucket, r.found.i) == p
  {
    hide Parent, Level, Addr, Size;
    var l := p.lists[bucket];
    PopElements(l);
    assert p.lists[bucket := DropLast(l)][bucket := l] == p.lists;
  }

  // With the root in use and its list empty, one round of growth puts the root's right buddy on that list.
  lemma SecondPopFinds(s: State, t: seq<Kind>, grant: nat -> bool) returns (u: seq<Kind>)
    requires Core(s, t) && s.limit > 0 && s.lists[s.limit] == []
    ensures var more := LowerLimit(s, s.limit - 1, grant);
            && Grown(s, t, more.s, u, more.ok)
            && FrontierGrown(s, true, more.s)
            && (if more.ok then more.s.lists[s.limit] == [Root(s.limit) + 1] && more.s.limit == s.limit - 1
                else RootRefused(s, grant) && more.s == s)
            && !t[Root(s.limit)].Free?
  {
    if t[Root(s.limit)].Free? { FreeRootIsAlone(s.lists, t, s.limit); }
    u := LowerLimitKeeps(s, t, s.limit - 1, grant);
  }

  lemma GrownTransitive(s: State, t: seq<Kind>, p: State, u: seq<Kind>, r: State, v: seq<Kind>, ok: bool)
    requires Core(s, t) && Grown(s, t, p, u, true) && Grown(p, u, r, v, ok)
    ensures Grown(s, t, r, v, ok)
  {
    forall c | s.limit < c < BUCKET_COUNT
      ensures r.lists[c] == s.lists[c]
    {
      assert p.lists[c] == s.lists[c];
    }
  }

  // Moving on to the next bucket when this one, below the root, has no free block.
  lemma SearchedAbove(s: State, t: seq<Kind>, bucket: nat, r: Search, u: seq<Kind>, grant: nat -> bool)
    requires Core(s, t) && Shape(r.s) && s.limit < bucket < BUCKET_COUNT && s.lists[bucket] == []
    requires Searched(s, t, bucket - 1, r, u, grant)
    ensures Searched(s, t, bucket, r, u, grant)
  {
    hide Parent, Level, Addr, Size, BitsOk, ListsOk, WellFormed;
  }

  // At the root with nothing free in it: grow once and take the root's right buddy.
  lemma SearchedByGrowing(s: State, t: seq<Kind>, bucket: nat, p: State, u: seq<Kind>, grant: nat -> bool)
    returns (v: seq<Kind>)
    requires Core(s, t) && 0 < bucket < BUCKET_COUNT && EmptyBetween(s, -1, bucket)
    requires Grown(s, t, p, u, true) && p.limit == bucket && p.lists[bucket] == []
    requires FrontierGrown(s, !t[Root(s.limit)].Free?, p)
    ensures var more := LowerLimit(p, bucket - 1, grant);
            var r := if more.ok then PopBlock(more.s, bucket) else Search(NoBacking, more.s);
            Searched(s, t, bucket, r, v, grant)
  {
    hide Parent, Level, Addr, Size, BitsOk, ListsOk;
    var more := LowerLimit(p, bucket - 1, grant);
    v := SecondPopFinds(p, u, grant);
    GrownTransitive(s, t, p, u, more.s, v, more.ok);
    FrontierGrownOn(s, t, p, u, more.s, v, more.ok);
    if more.ok {
      PopIsHit(s, t, bucket, more.s, v);
    } else {
      NothingAboveRoot(p, u, bucket);
    }
  }

  /** The search stops at the smallest free block that is large enough, grows the tree only when there is none,
      and never uses a NULL that list_pop returned. */
  lemma {:induction false} FindBlockKeeps(s: State, t: seq<Kind>, bucket: nat, grant: nat -> bool)
    returns (u: seq<Kind>)
    requires Core(s, t) && bucket < BUCKET_COUNT
    ensures Searched(s, t, bucket, FindBlock(s, bucket, grant), u, grant)
    decreases bucket
  {
    hide Parent, Level, Addr, Size, Pow2, Root, WellFormed, BitsOk, ListsOk, Hit, PopBlock;
    u := LowerLimitKeeps(s, t, bucket, grant);
    var got := LowerLimit(s, bucket, grant);
    if bucket <= s.limit && (bucket == s.limit ==> s.lists[bucket] == []) {
      NothingAboveRoot(s, t, bucket);
    }
    if got.ok {
      if got.s.lists[bucket] != [] {
        PopIsHit(s, t, bucket, got.s, u);
      } else if bucket == got.s.limit {
        NothingAboveRoot(got.s, u, bucket);
        if bucket > 0 { u := SearchedByGrowing(s, t, bucket, got.s, u, grant); }
      } else {
        u := FindBlockKeeps(s, t, bucket - 1, grant);
        SearchedAbove(s, t, bucket, FindBlock(s, bucket - 1, grant), u, grant);
      }
    } else {
      NothingAboveRoot(got.s, u, bucket);
    }
  }

  // ---------- splitting the block found ----------

  lemma {:induction false} LeftmostGeometry(i: nat, b: nat, wanted: nat)
    requires Level(i) == b <= wanted < BUCKET_COUNT
    ensures i < NODE_COUNT && Leftmost(i, b, wanted) < NODE_COUNT
    ensures Addr(Leftmost(i, b, wanted)) == Addr(i)
    ensures Within(Leftmost(i, b, wanted), i)
    ensures b < wanted ==> 2 * Size(Leftmost(i, b, wanted)) <= Size(i)
    decreases wanted - b
  {
    LevelInRange(i);
    if b < wanted {
      InnerNodes(i);
      ChildGeometry(i);
      LeftmostGeometry(2 * i + 1, b + 1, wanted);
      var l := Leftmost(i, b, wanted);
      WithinTransitive(l, 2 * i + 1, i);
    }
  }

  // One round of the splitting loop.
  lemma SplitStepKeeps(s: State, t: seq<Kind>, i: nat, b: nat)
    requires Core(s, t) && Level(i) == b && b + 1 < BUCKET_COUNT && i < NODE_COUNT && t[i].Live?
    requires Addr(i) + Size(i) / 2 + LIST_T_SIZE <= s.top
    ensures i < INNER_COUNT && 2 * i + 2 < NODE_COUNT
    ensures var r := SplitStep(s, i, b);
            Core(r, SplitPicture(t, i)) && r == s.(bits := r.bits, lists := r.lists)
    ensures SplitPicture(t, i)[2 * i + 1].Live? && LiveChange(t, SplitPicture(t, i), i, 2 * i + 1)
    ensures Level(2 * i + 1) == b + 1 && Addr(2 * i + 1) == Addr(i) && 2 * Size(2 * i + 1) == Size(i)
    ensures !t[2 * i + 1].Live?
  {
    LevelInRange(i);
    InnerNodes(i);
    ChildGeometry(i);
    ChildrenAbsent(t, s.limit, i);
    SplitKeeps(s, t, i, b);
  }

  lemma LiveChangeTransitive(t: seq<Kind>, u: seq<Kind>, v: seq<Kind>, i: int, m: int, leaf: int)
    requires |t| == |u| == |v| == NODE_COUNT && (0 <= m < NODE_COUNT ==> !t[m].Live?)
    requires LiveChange(t, u, i, m) && LiveChange(u, v, m, leaf)
    ensures LiveChange(t, v, i, leaf)
  {
    forall j | 0 <= j < NODE_COUNT
      ensures v[j].Live? <==> (t[j].Live? && j != i) || j == leaf
    {
      assert u[j].Live? <==> (t[j].Live? && j != i) || j == m;
    }
  }

  // The invariant of the splitting loop: i is the block being worked on, everything else is in order.
  lemma {:induction false} SplitDownKeeps(s: State, t: seq<Kind>, i: nat, b: nat, wanted: nat) returns (u: seq<Kind>)
    requires Core(s, t) && Level(i) == b <= wanted < BUCKET_COUNT && i < NODE_COUNT && t[i].Live?
    requires b < wanted ==> Addr(i) + Size(i) / 2 + LIST_T_SIZE <= s.top
    ensures var r := SplitDown(s, i, b, wanted);
            Core(r, u) && r == s.(bits := r.bits, lists := r.lists)
    ensures Leftmost(i, b, wanted) < NODE_COUNT
    ensures LiveChange(t, u, i, Leftmost(i, b, wanted))
    decreases wanted - b
  {
    hide Parent, Level, Addr, Size;
    u := t;
    if b < wanted {
      SplitStepKeeps(s, t, i, b);
      var t1 := SplitPicture(t, i);
      u := SplitDownKeeps(SplitStep(s, i, b), t1, 2 * i + 1, b + 1, wanted);
      LiveChangeTransitive(t, t1, u, i, 2 * i + 1, Leftmost(2 * i + 1, b + 1, wanted));
    }
  }

  // Replacing the popped block by its leftmost part keeps headers and live blocks in step.
  lemma HeaderAdded(headers: map<nat, SizeT>, top: nat, top': nat, t: seq<Kind>, limit: nat, limit': nat,
                    u: seq<Kind>, leaf: nat, request: SizeT)
    requires WellFormed(t, limit) && WellFormed(u, limit') && HeadersOk(headers, top, t, -1) && top <= top'
    requires leaf < NODE_COUNT && LiveChange(t, u, -1, leaf) && !t[leaf].Live?
    requires Need(request) <= MAX_ALLOC && Level(leaf) == BucketFor(Need(request))
    requires Addr(leaf) + Size(leaf) <= top'
    ensures Addr(leaf) !in headers
    ensures HeadersOk(headers[Addr(leaf) := request], top', u, -1)
  {
    var a := Addr(leaf);
    var h := headers[a := request];
    NodeOfAddr(leaf);
    if a in headers {
      assert OwnerOk(headers, t, a);
      BlocksDisjoint(u, limit', NodeForPtr(a, BucketFor(Need(headers[a]))), leaf);
    }
    forall i | 0 <= i < NODE_COUNT && u[i].Live?
      ensures HeaderOk(h, top', i)
    {
      if i != leaf {
        assert t[i].Live? && HeaderOk(headers, top, i);
        BlocksDisjoint(u, limit', i, leaf);
      }
    }
    forall x | x in h
      ensures OwnerOk(h, u, x)
    {
      if x != a { assert OwnerOk(headers, t, x); }
    }
  }

  // What a call of malloc_1 guarantees about its result.
  ghost predicate Allocated(s: State, t: seq<Kind>, request: SizeT, r: Allocation, u: seq<Kind>)
    requires Inv(s, t)
  {
    && Inv(r.s, u)
    && s.top <= r.s.top && r.s.limit <= s.limit
    && match r.address
       case None => r.s.headers == s.headers && SameLive(t, u)
       case Some(a) =>
         && Need(request) <= MAX_ALLOC
         && var b := BucketFor(Need(request));
         && a !in s.headers
         && r.s.headers == s.headers[a := request]
         && NodeForPtr(a, b) < NODE_COUNT
         && Addr(NodeForPtr(a, b)) == a && Level(NodeForPtr(a, b)) == b
         && !t[NodeForPtr(a, b)].Live?
         && LiveChange(t, u, -1, NodeForPtr(a, b))
  }

  // A popped block, seen as the block being worked on once sbrk has agreed.
  lemma TakeKeeps(p: State, v: seq<Kind>, i: nat, b: nat, top': nat)
    requires Core(p, v) && b < BUCKET_COUNT && p.lists[b] != [] && i == p.lists[b][|p.lists[b]| - 1]
    requires p.top <= top'
    ensures i < NODE_COUNT && v[i].Free? && Level(i) == b && i < 2 * INNER_COUNT + 1
    ensures Core(Pop(p, b).(top := top', bits := FlipUnlessTop(p.bits, i)), v[i := Live])
  {
    PopFlipKeeps(p, v, b);
    InnerNodes(i);
  }

  lemma PushBack(p: State, b: nat)
    requires b < |p.lists| && p.lists[b] != []
    ensures Push(Pop(p, b), b, p.lists[b][|p.lists[b]| - 1]) == p
  {
    LastBack(p.lists[b]);
    assert p.lists[b := DropLast(p.lists[b])][b := p.lists[b]] == p.lists;
  }

  // The bytes reserved back the leftmost part and the links of every right half split off.
  lemma BytesSuffice(i: nat, b: nat, wanted: nat, top: nat)
    requires Level(i) == b <= wanted < BUCKET_COUNT && i < NODE_COUNT
    requires Addr(i) + BytesNeeded(b, wanted) <= top
    ensures b < wanted ==> Addr(i) + Size(i) / 2 + LIST_T_SIZE <= top
    ensures var leaf := Leftmost(i, b, wanted);
            leaf < NODE_COUNT && Addr(leaf) == Addr(i) && Addr(leaf) + Size(leaf) <= top
  {
    LeftmostGeometry(i, b, wanted);
  }

  // Taking a free block and splitting it: its leftmost part becomes live, the rest stays free.
  lemma TakeAndSplit(p: State, v: seq<Kind>, i: nat, b: nat, wanted: nat, s1: State) returns (u: seq<Kind>)
    requires Core(p, v) && b <= wanted < BUCKET_COUNT && p.lists[b] != [] && i == p.lists[b][|p.lists[b]| - 1]
    requires Level(i) == b && i < NODE_COUNT && i < 2 * INNER_COUNT + 1
    requires p.top <= s1.top && Addr(i) + BytesNeeded(b, wanted) <= s1.top
    requires s1 == Pop(p, b).(top := s1.top, bits := FlipUnlessTop(p.bits, i))
    ensures Shape(s1) && Leftmost(i, b, wanted) < NODE_COUNT
    ensures var s2 := SplitDown(s1, i, b, wanted);
            Core(s2, u) && s2 == s1.(bits := s2.bits, lists := s2.lists)
    ensures !v[Leftmost(i, b, wanted)].Live? && LiveChange(v, u, -1, Leftmost(i, b, wanted))
  {
    hide Parent, Level, Addr, Size, BitsOk, ListsOk, BytesNeeded;
    TakeKeeps(p, v, i, b, s1.top);
    BytesSuffice(i, b, wanted, s1.top);
    LeftmostGeometry(i, b, wanted);
    var leaf := Leftmost(i, b, wanted);
    u := SplitDownKeeps(s1, v[i := Live], i, b, wanted);
    FreeLeafNotLive(v, p.limit, i, leaf);
    LiveChangeTransitive(v, v[i := Live], u, -1, i, leaf);
  }

  // Carving when sbrk agrees.
  lemma CarveSucceeds(s: State, t: seq<Kind>, p: State, v: seq<Kind>, i: nat, b: nat, wanted: nat, request: SizeT,
                      s1: State) returns (u: seq<Kind>)
    requires Inv(s, t) && Grown(s, t, p, v, true) && Core(p, v)
    requires b <= wanted < BUCKET_COUNT && p.lists[b] != [] && i == p.lists[b][|p.lists[b]| - 1]
    requires Level(i) == b && i < NODE_COUNT && i < 2 * INNER_COUNT + 1
    requires Need(request) <= MAX_ALLOC && wanted == BucketFor(Need(request))
    requires p.top <= s1.top && Addr(i) + BytesNeeded(b, wanted) <= s1.top
    requires s1 == Pop(p, b).(top := s1.top, bits := FlipUnlessTop(p.bits, i))
    ensures Shape(s1)
    ensures var s2 := SplitDown(s1, i, b, wanted);
            Allocated(s, t, request, Allocation(s2.(headers := s2.headers[Addr(i) := request]), Some(Addr(i))), u)
    ensures Leftmost(i, b, wanted) < NODE_COUNT && Addr(Leftmost(i, b, wanted)) == Addr(i)
  {
    hide Parent, Level, Addr, Size, BitsOk, ListsOk, BytesNeeded;
    BytesSuffice(i, b, wanted, s1.top);
    var leaf := Leftmost(i, b, wanted);
    NodeOfAddr(leaf);
    u := TakeAndSplit(p, v, i, b, wanted, s1);
    LiveChangeSameLive(t, v, u, leaf);
    HeaderAdded(s.headers, s.top, s1.top, t, s.limit, p.limit, u, leaf, request);
    CoreIgnoresHeaders(SplitDown(s1, i, b, wanted), u, s.headers[Addr(i) := request]);
  }

  lemma LiveChangeSameLive(t: seq<Kind>, v: seq<Kind>, u: seq<Kind>, leaf: nat)
    requires |t| == |v| == |u| == NODE_COUNT && SameLive(t, v) && LiveChange(v, u, -1, leaf)
    requires leaf < NODE_COUNT && !v[leaf].Live?
    ensures LiveChange(t, u, -1, leaf) && !t[leaf].Live?
  {
    forall j | 0 <= j < NODE_COUNT
      ensures u[j].Live? <==> t[j].Live? || j == leaf
    {
      assert t[j].Live? <==> v[j].Live?;
    }
  }

  lemma CoreIgnoresHeaders(s: State, t: seq<Kind>, headers: map<nat, SizeT>)
    requires Core(s, t)
    ensures Core(s.(headers := headers), t)
  {
  }

  // What Carve returns, spelled out.
  lemma CarveIs(s: State, i: nat, b: nat, wanted: nat, request: SizeT, grant: nat -> bool) returns (s1: State)
    requires Shape(s) && b <= wanted < BUCKET_COUNT && s.lists[b] != [] && Level(i) == b
    ensures i < NODE_COUNT && i < 2 * |s.bits| + 1 && Shape(s1)
    ensures s1 == Pop(s, b).(top := s1.top, bits := FlipUnlessTop(s.bits, i)) && s.top <= s1.top
    ensures var r := Carve(Pop(s, b), i, b, wanted, request, grant);
            var v := Addr(i) + BytesNeeded(b, wanted);
            && (r.address.Some? <==> v <= s.top || grant(v))
            && if r.address.Some? then
              && s1.top == (if v <= s.top then s.top else v)
              && var s2 := SplitDown(s1, i, b, wanted);
                 r == Allocation(s2.(headers := s2.headers[Addr(i) := request]), Some(Addr(i)))
            else v > s.top && !grant(v) && r == Allocation(Push(Pop(s, b), b, i), None)
  {
    hide Parent, Addr, Size, Pow2;
    LevelInRange(i);
    LevelBounds(i);
    InnerNodes(i);
    PtrForNodeIsAddr(i);
    var v := Addr(i) + BytesNeeded(b, wanted);
    var got := Reserve(Pop(s, b), v, grant);
    s1 := got.s.(bits := FlipUnlessTop(got.s.bits, i));
  }

  lemma CarveKeeps(s: State, t: seq<Kind>, p: State, v: seq<Kind>, i: nat, b: nat, wanted: nat, request: SizeT,
                   grant: nat -> bool) returns (u: seq<Kind>)
    requires Inv(s, t) && Grown(s, t, p, v, true)
    requires b <= wanted < BUCKET_COUNT && p.lists[b] != [] && i == p.lists[b][|p.lists[b]| - 1]
    requires Level(i) == b
    requires Need(request) <= MAX_ALLOC && wanted == BucketFor(Need(request))
    ensures var r := Carve(Pop(p, b), i, b, wanted, request, grant);
            && Allocated(s, t, request, r, u)
            && i < NODE_COUNT
            && (r.address.None? ==>
                  && r.s == p && u == v
                  && var ask := Addr(i) + BytesNeeded(b, wanted);
                     ask > p.top && !grant(ask))
            && (r.address.Some? ==> r.address == Some(Addr(i)))
  {
    hide Parent, Level, Addr, Size, Pow2, Root, SplitDown, BytesNeeded, BitsOk, ListsOk, WellFormed, Carve;
    var s1 := CarveIs(p, i, b, wanted, request, grant);
    InnerNodes(i);
    if Carve(Pop(p, b), i, b, wanted, request, grant).address.Some? {
      u := CarveSucceeds(s, t, p, v, i, b, wanted, request, s1);
    } else {
      u := v;
      PushBack(p, b);
      RefusedKeeps(s, t, p, v);
    }
  }

  lemma RefusedKeeps(s: State, t: seq<Kind>, p: State, v: seq<Kind>)
    requires Inv(s, t) && Grown(s, t, p, v, true)
    ensures Inv(p, v)
  {
    HeadersSameLive(s.headers, s.top, p.top, t, v);
  }

  lemma FreeLeafNotLive(t: seq<Kind>, limit: nat, i: nat, leaf: nat)
    requires WellFormed(t, limit) && i < NODE_COUNT && t[i].Free? && leaf < NODE_COUNT && Within(leaf, i)
    ensures !t[leaf].Live?
  {
    if t[leaf].Live? { AboveIsSplit(t, limit, leaf, i); }
  }

  // What malloc_1 asks sbrk for when it looks for a block of bucket wanted: with nothing large enough free, the links
  // of the root's right buddy; otherwise the smallest block that is large enough, up to its end when it is not split,
  // up to the links of its right half when it is.
  ghost predicate Asks(s: State, wanted: nat, v: nat)
    requires Shape(s) && wanted < BUCKET_COUNT
  {
    || (s.limit > 0 && EmptyBetween(s, -1, wanted) && v == BlockSize(s.limit) + LIST_T_SIZE)
    || exists b: nat {:trigger s.lists[b]} ::
         && b <= wanted && s.lists[b] != [] && EmptyBetween(s, b, wanted)
         && var i := s.lists[b][|s.lists[b]| - 1];
            i < NODE_COUNT && v == Addr(i) + (if b == wanted then BlockSize(b) else BlockSize(b + 1) + LIST_T_SIZE)
  }

  // sbrk refuses just that.
  ghost predicate Starved(s: State, wanted: nat, grant: nat -> bool)
    requires Shape(s) && wanted < BUCKET_COUNT
  {
    exists v: nat :: Asks(s, wanted, v) && v > s.top && !grant(v)
  }

  /** malloc_1 keeps the invariant, whatever sbrk answers. A NULL means that the request is too large, that sbrk refused
      memory for the very block to be used next, or that the heap is at its full size with no block large enough. */
  lemma MallocKeeps(s: State, t: seq<Kind>, request: SizeT, grant: nat -> bool) returns (u: seq<Kind>)
    requires Inv(s, t)
    ensures var r := Malloc1(s, request, grant);
            && Allocated(s, t, request, r, u)
            && (r.address.None? ==>
                  if Need(request) > MAX_ALLOC then r.s == s
                  else
                    || Starved(r.s, BucketFor(Need(request)), grant)
                    || (r.s.limit == 0 && EmptyBetween(r.s, -1, BucketFor(Need(request)))))
  {
    u := t;
    if Need(request) <= MAX_ALLOC {
      var wanted := BucketFor(Need(request));
      var hit := FindBlock(s, wanted, grant);
      var v := FindBlockKeeps(s, t, wanted, grant);
      match hit.found {
        case Block(i, b) =>
          var p := Push(hit.s, b, i);
          assert i in p.lists[b];
          u := CarveKeeps(s, t, p, v, i, b, wanted, request, grant);
        case NoBacking =>
          HeadersSameLive(s.headers, s.top, hit.s.top, t, v);
          u := v;
          assert Asks(hit.s, wanted, BlockSize(hit.s.limit) + LIST_T_SIZE);
        case NoBlock =>
          HeadersSameLive(s.headers, s.top, hit.s.top, t, v);
          u := v;
      }
    }
  }
}
