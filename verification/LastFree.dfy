/** Freeing the last live block under the two-bit encoding. The fields come back to UNUSED exactly when the node
    above the root still carries the mark left by the allocation that took the whole root. */
module LastFree {
  import opened Geometry
  import opened FreeLists
  import opened Tree
  import opened StatusFields
  import opened BuddySpec
  import opened BuddyInvariant
  import opened BuddyMallocProof
  import opened BuddyFreeProof
  import opened Buddy2Spec
  import opened BuddyTheorems
  import opened Lockstep

  // ---------- the climb from the last block ----------

  // With no other live block the buddy is free all the way up to the root.
  lemma LoneBuddyIsFree(t: seq<Kind>, limit: nat, i: nat)
    requires WellFormed(t, limit) && 0 < i < NODE_COUNT && t[i].Live? && i != Root(limit) && !OtherLive(t, i)
    ensures Buddy(i) < NODE_COUNT && t[Buddy(i)].Free?
  {
    BuddyInRange(i);
    assert NodeOk(t, Root(limit), i);
    assert NodeOk(t, Root(limit), Parent(i));
    var q := Buddy(i);
    assert !t[q].Absent?;
    if t[q].Split? {
      SplitHoldsLive(t, limit, q);
      var k := LiveBelow(t, q);
      assert k == i;
      BuddyLevel(i);
      WithinNested(i, q);
    }
  }

  // What free_2 leaves behind when it should have left UNUSED fields only. Below the full size the field above the root
  // goes below zero: it and the fields before it in its byte hold 3. At full size node 0 keeps its status.
  ghost predicate Stale(status: seq<bv8>, before: seq<bv8>, limit: nat)
    requires limit < BUCKET_COUNT && 4 * |status| == 4 * |before| == NODE_COUNT + 1
  {
    if limit > 0 then
      var up := Root(limit - 1);
      forall k {:trigger Field(status, k)} :: 0 <= k < NODE_COUNT ==>
        Field(status, k) == if k / 4 == up / 4 && k <= up then 3 else UNUSED
    else
      && Field(before, 0) != UNUSED
      && forall k {:trigger Field(status, k)} :: 0 <= k < NODE_COUNT ==>
        Field(status, k) == if k == 0 then Field(before, 0) else UNUSED
  }

  // The climb of free_2 from the last live block, the mark being gone.
  lemma {:induction false} Underflow(s2: State2, t: seq<Kind>, i: nat, b: nat)
    requires Shape2(s2) && WellFormed(t, s2.limit) && StatusBut(s2.status, t, s2.limit, i)
    requires i < NODE_COUNT && t[i].Live? && Level(i) == b < BUCKET_COUNT && !OtherLive(t, i)
    requires !Marked(s2.status, s2.limit) && Field(s2.status, i) != UNUSED
    ensures Stale(Coalesce2(s2, i, b).status, s2.status, s2.limit)
    decreases b
  {
    hide Pow2, Field, Set, Dec, StatusBut;
    StatusButLength(s2.status, t, s2.limit, i);
    if i == Root(s2.limit) {
      RootUnderflow(s2, t, b);
    } else {
      OnlyNodeAtRootLevel(t, s2.limit, i);
      LoneBuddyIsFree(t, s2.limit, i);
      BuddyInRange(i);
      InnerNodes(Parent(i));
      FreeStatusAt(s2.status, t, s2.limit, i, i);
      MergeStatus(s2.status, t, s2.limit, i);
      MergeMayFree(s2.status, t, s2.limit, i);
      MergeOk(t, s2.limit, i);
      BuddyLevel(i);
      SetOne(s2.status, i, UNUSED, 0);
      Underflow(Unlink2(s2.(status := Set(s2.status, i, UNUSED)), b, Buddy(i)), MergePicture(t, i), Parent(i), b - 1);
    }
  }

  lemma RootUnderflow(s2: State2, t: seq<Kind>, b: nat)
    requires Shape2(s2) && WellFormed(t, s2.limit) && StatusBut(s2.status, t, s2.limit, Root(s2.limit))
    requires Root(s2.limit) < NODE_COUNT && t[Root(s2.limit)].Live? && Level(Root(s2.limit)) == b < BUCKET_COUNT
    requires !Marked(s2.status, s2.limit) && Field(s2.status, Root(s2.limit)) != UNUSED
    ensures Stale(Coalesce2(s2, Root(s2.limit), b).status, s2.status, s2.limit)
  {
    hide Level, Pow2, Field, Set, Dec;
    var root, limit := Root(s2.limit), s2.limit;
    StatusButLength(s2.status, t, limit, root);
    RootOnlyTop(limit);
    RootLevel(limit);
    forall k | 0 <= k < NODE_COUNT && k != root
      ensures Field(s2.status, k) == UNUSED
    {
      OnlyRootHasStatus(s2.status, t, limit, k);
    }
    if limit > 0 {
      var up, status := Root(limit - 1), Set(s2.status, root, UNUSED);
      assert Coalesce2(s2, root, b).status == Dec(status, up);
      hide Root, Coalesce2;
      forall k | 0 <= k < NODE_COUNT
        ensures Field(status, k) == UNUSED
      {
        SetOne(s2.status, root, UNUSED, k);
      }
      BelowZero(status, up);
    }
  }

  lemma OnlyRootHasStatus(status: seq<bv8>, t: seq<Kind>, limit: nat, k: nat)
    requires WellFormed(t, limit) && StatusBut(status, t, limit, Root(limit)) && t[Root(limit)].Live?
    requires !Marked(status, limit) && k < NODE_COUNT && k != Root(limit)
    ensures Field(status, k) == UNUSED
  {
    hide Level, Pow2, Field, Within;
    LiveRootOnly(t, limit, k);
    assert StatusAt(status, t, limit, k);
  }

  // Decrementing one field when all are UNUSED: it and the fields before it in its byte end at 3.
  lemma BelowZero(status: seq<bv8>, up: nat)
    requires 4 * |status| == NODE_COUNT + 1 && up < NODE_COUNT
    requires forall k {:trigger Field(status, k)} :: 0 <= k < NODE_COUNT ==> Field(status, k) == UNUSED
    ensures forall k {:trigger Field(Dec(status, up), k)} :: 0 <= k < NODE_COUNT ==>
              Field(Dec(status, up), k) == if k / 4 == up / 4 && k <= up then 3 else UNUSED
  {
    hide Field, Dec, Pow2;
    forall k | 0 <= k < NODE_COUNT
      ensures Field(Dec(status, up), k) == if k / 4 == up / 4 && k <= up then 3 else UNUSED
    {
      DecBorrows(status, up, k);
    }
  }

  lemma StaleIsNotUnused(status: seq<bv8>, before: seq<bv8>, limit: nat)
    requires limit < BUCKET_COUNT && 4 * |status| == 4 * |before| == NODE_COUNT + 1 && Stale(status, before, limit)
    ensures !AllUnused(status)
  {
    hide Field, Root;
    if limit > 0 {
      RootInRange(limit - 1);
      assert Field(status, Root(limit - 1)) == 3;
    } else {
      assert Field(status, 0) == Field(before, 0);
    }
  }

  lemma LoneHeader(s: State, t: seq<Kind>, a: nat)
    requires Inv(s, t) && s.headers.Keys == {a}
    ensures Need(s.headers[a]) <= MAX_ALLOC && FreedNode(s, a) < NODE_COUNT && !OtherLive(t, FreedNode(s, a))
  {
    FreedNodeIsLive(s, t, a);
    forall k | 0 <= k < NODE_COUNT && t[k].Live?
      ensures k == FreedNode(s, a)
    {
      LiveHasHeader(s, t, k);
      if k != FreedNode(s, a) { BlocksDisjoint(t, s.limit, k, FreedNode(s, a)); }
    }
  }

  lemma NothingLeft(t: seq<Kind>, u: seq<Kind>, i: nat, limit: nat)
    requires |t| == NODE_COUNT && WellFormed(u, limit) && i < NODE_COUNT && !OtherLive(t, i) && LiveChange(t, u, i, -1)
    ensures u[Root(limit)].Free?
  {
    forall k | 0 <= k < NODE_COUNT
      ensures !u[k].Live?
    {
      assert u[k].Live? <==> (t[k].Live? && k != i) || k == -1;
    }
    NothingLive(u, limit);
  }

  /** Freeing the last live block with free_2 returns every status field to UNUSED if and only if the node above the
      root is SPLIT before the call. Otherwise that node's field goes below zero, which leaves 3, no status at all, in
      it and in the fields before it in the same byte; or, when the root is node 0, node 0 keeps its status. Every other
      field is UNUSED. */
  lemma LastFreeExact(s: State, t: seq<Kind>, s2: State2, a: nat)
    requires Inv(s, t) && Sim(s, t, s2) && s.headers.Keys == {a}
    ensures Shape2(s2) && a < MAX_ALLOC && BucketOf(s2, a, BUCKET_COUNT - 1).Some?
    ensures AllUnused(Free2(s2, a).status) <==> s2.limit > 0 && Field(s2.status, Root(s2.limit - 1)) == SPLIT
    ensures !AllUnused(Free2(s2, a).status) ==>
              forall k :: 0 <= k < NODE_COUNT ==>
                Field(Free2(s2, a).status, k) ==
                  if s2.limit == 0 then (if k == 0 then Field(s2.status, 0) else UNUSED)
                  else (if k / 4 == Root(s2.limit - 1) / 4 && k <= Root(s2.limit - 1) then 3 else UNUSED)
  {
    hide Parent, Level, Addr, Size, Pow2, BitsOk, ListsOk, StatusOk, StatusBut, Coalesce, Coalesce2, Field, BucketOf;
    CoreShape(s, t);
    StatusLength(s2.status, t, s.limit);
    RootInRange(s2.limit);
    if s.limit > 0 { RootInRange(s.limit - 1); }
    FreedNodeIsLive(s, t, a);
    LoneHeader(s, t, a);
    var i := FreedNode(s, a);
    SizeRecovery(s, t, s2, i, BUCKET_COUNT - 1);
    if Marked(s2.status, s.limit) {
      var u := FreeLockstep(s, t, s2, a);
      NothingLeft(t, u, i, Free1(s, a).limit);
      EmptyIsUnused(Free1(s, a), u, Free2(s2, a));
    } else {
      WorkOn(s2.status, t, s.limit, i);
      LiveIsUsed(s2.status, t, s.limit, i);
      NodeOfAddr(i);
      Underflow(s2, t, i, Level(i));
      StaleIsNotUnused(Free2(s2, a).status, s2.status, s2.limit);
    }
  }

  lemma EmptyIsUnused(s: State, t: seq<Kind>, s2: State2)
    requires Core(s, t) && Sim(s, t, s2) && t[Root(s.limit)].Free?
    ensures Shape2(s2) && AllUnused(s2.status)
  {
  }

  lemma LiveIsUsed(status: seq<bv8>, t: seq<Kind>, limit: nat, i: nat)
    requires WellFormed(t, limit) && StatusOk(status, t, limit) && i < NODE_COUNT && t[i].Live?
    ensures Field(status, i) == USED
  {
    NotAbove(t, limit, i);
    assert StatusAt(status, t, limit, i);
  }

  // ---------- the mark under malloc_2 and free_2 ----------

  // Growth past a root in use moves away from the mark; the root's new parent is UNUSED.
  lemma GrowOnceMark(s: State, t: seq<Kind>, s2: State2, grant: nat -> bool)
    requires Core(s, t) && Sim(s, t, s2) && s.limit > 0
    ensures Shape2(s2)
    ensures var r := GrowOnce2(s2, grant);
            if r.ok then !Marked(r.s.status, r.s.limit) else r.s == s2
  {
    hide Level, Pow2, Field, Set;
    CoreShape(s, t);
    AboveRoot(t, s.limit);
    RootStatus(s, t, s2);
    if s.limit > 1 {
      var up, upper := Root(s.limit - 1), Root(s.limit - 2);
      RootLevel(s.limit);
      RootLevel(s.limit - 1);
      assert Within(Root(s.limit), upper) by { assert Within(up, upper) by { assert Within(upper, upper); } }
      assert StatusAt(s2.status, t, s.limit, upper);
      SetOne(s2.status, up, SPLIT, upper);
      hide Root, Within;
    }
  }

  lemma {:induction false} LowerLimitMark(s: State, t: seq<Kind>, s2: State2, bucket: nat, grant: nat -> bool)
    requires Core(s, t) && Sim(s, t, s2)
    ensures Shape2(s2)
    ensures var r := LowerLimit2(s2, bucket, grant);
            && r.s.limit <= s2.limit
            && (Marked(r.s.status, r.s.limit) <==> Marked(s2.status, s2.limit) && r.s.limit == s2.limit)
            && (r.s.limit == s2.limit ==> r.s == s2)
    decreases s.limit
  {
    hide Level, Addr, Size, Pow2, Parent, Root, BitsOk, ListsOk, StatusOk, GrowOnce, GrowOnce2, Marked;
    CoreShape(s, t);
    StatusLength(s2.status, t, s.limit);
    if s.limit > bucket {
      var v := GrowOnceSim(s, t, s2, grant);
      GrowOnceMark(s, t, s2, grant);
      if GrowOnce2(s2, grant).ok {
        LowerLimitMark(GrowOnce(s, grant).s, v, GrowOnce2(s2, grant).s, bucket, grant);
      }
    }
  }

  lemma {:induction false} FindBlockMark(s: State, t: seq<Kind>, s2: State2, bucket: nat, grant: nat -> bool)
    requires Core(s, t) && Sim(s, t, s2) && bucket < BUCKET_COUNT
    ensures Shape2(s2)
    ensures var r := FindBlock2(s2, bucket, grant);
            && r.s.limit <= s2.limit
            && (Marked(r.s.status, r.s.limit) <==> Marked(s2.status, s2.limit) && r.s.limit == s2.limit)
    decreases bucket
  {
    hide Level, Addr, Size, Pow2, Parent, Root, BitsOk, ListsOk, StatusOk, LowerLimit, LowerLimit2, Marked;
    CoreShape(s, t);
    StatusLength(s2.status, t, s.limit);
    var u := LowerLimitSim(s, t, s2, bucket, grant);
    LowerLimitMark(s, t, s2, bucket, grant);
    var got, got2 := LowerLimit(s, bucket, grant), LowerLimit2(s2, bucket, grant);
    if got.ok && got.s.lists[bucket] == [] && bucket > 0 {
      if bucket != got.s.limit {
        FindBlockMark(got.s, u, got2.s, bucket - 1, grant);
      } else {
        LowerLimitMark(got.s, u, got2.s, bucket - 1, grant);
      }
    }
  }

  // Splitting touches no field before the block's own.
  lemma {:induction false} SplitDownBefore(s2: State2, t: seq<Kind>, i: nat, b: nat, wanted: nat, j: nat)
    requires Shape2(s2) && WellFormed(t, s2.limit) && StatusBut(s2.status, t, s2.limit, i)
    requires Level(i) == b <= wanted < BUCKET_COUNT && t[i].Live? && Field(s2.status, i) == UNUSED && j < i
    ensures Field(SplitDown2(s2, i, b, wanted).status, j) == Field(s2.status, j)
    decreases wanted - b
  {
    hide Addr, Size, Field, Inc, StatusBut;
    StatusButLength(s2.status, t, s2.limit, i);
    if b < wanted {
      LevelInRange(i);
      InnerNodes(i);
      ParentOfChild(i);
      IncOne(s2.status, i, j);
      SplitStatus(s2.status, t, s2.limit, i);
      SplitOk(t, s2.limit, i);
      SplitDownBefore(SplitStep2(s2, i, b), SplitPicture(t, i), 2 * i + 1, b + 1, wanted, j);
    }
  }

  // Taking block i increments the field above the root exactly when i is the root.
  lemma TakeMark(status: seq<bv8>, t: seq<Kind>, limit: nat, i: nat)
    requires WellFormed(t, limit) && StatusOk(status, t, limit) && i < NODE_COUNT && t[i].Free? && limit > 0
    ensures i > Root(limit - 1) && Root(limit - 1) < 4 * |status| && Parent(i) < 4 * |status|
    ensures Field(ParentInc(status, i), Root(limit - 1))
            == if i == Root(limit) then SPLIT else Field(status, Root(limit - 1))
  {
    hide Level, Pow2, Field, Inc;
    AboveRoot(t, limit);
    RootLevel(limit);
    PresentIsWithinRoot(t, limit, i);
    WithinSmaller(i, Root(limit));
    TakeParent(status, t, limit, i);
    var up := Root(limit - 1);
    IncOne(status, Parent(i), up);
    if i == Root(limit) {
      assert Field(status, up) == UNUSED;
    } else {
      assert Within(Root(limit), up) by { assert Within(up, up); }
      assert Parent(i) != up;
    }
  }

  lemma CarveMark(s: State, t: seq<Kind>, s2: State2, i: nat, b: nat, wanted: nat, request: SizeT, grant: nat -> bool)
    requires Core(s, t) && Sim(s, t, s2) && b <= wanted < BUCKET_COUNT && wanted > 0
    requires s.lists[b] != [] && i == s.lists[b][|s.lists[b]| - 1] && Level(i) == b
    ensures Shape2(s2)
    ensures var r2 := Carve2(Pop2(s2, b), i, b, wanted, grant);
            if r2.address.Some? then
              && r2.s.limit == s2.limit
              && (Marked(r2.s.status, s2.limit) <==>
                    s2.limit > 0 && (i == Root(s2.limit) || Marked(s2.status, s2.limit)))
            else r2.s == s2
  {
    hide Parent, Level, Addr, Size, Pow2, BitsOk, ListsOk, SplitDown, SplitDown2, Promote, StatusOk, StatusBut;
    hide Leftmost;
    hide Carve, Carve2, BytesNeeded, Root, Set, Inc, Field;
    CoreShape(s, t);
    StatusLength(s2.status, t, s.limit);
    PushBack(s, b);
    PopPush2(Pop2(s2, b), b, i);
    LastBack(s2.lists[b]);
    var s1 := CarveIs(s, i, b, wanted, request, grant);
    Carve2Is(s2, i, b, wanted, grant);
    if Carve(Pop(s, b), i, b, wanted, request, grant).address.Some? {
      var start2 := Pop2(s2, b).(top := s1.top, status := if i == 0 then s2.status else ParentInc(s2.status, i));
      var u := TakeAndSplitSim(s, t, s2, i, b, wanted, s1);
      SplitMark(s, t, s2, i, b, wanted, start2);
    }
  }

  lemma SplitMark(s: State, t: seq<Kind>, s2: State2, i: nat, b: nat, wanted: nat, start2: State2)
    requires Core(s, t) && Sim(s, t, s2) && b <= wanted < BUCKET_COUNT && wanted > 0
    requires s.lists[b] != [] && i == s.lists[b][|s.lists[b]| - 1] && Level(i) == b
    requires i < NODE_COUNT && (i > 0 ==> Parent(i) < 4 * |s2.status|)
    requires Shape2(start2) && start2.limit == s.limit
    requires start2.status == if i == 0 then s2.status else ParentInc(s2.status, i)
    ensures var r2, leaf := SplitDown2(start2, i, b, wanted), Leftmost(i, b, wanted);
            && leaf < 4 * |r2.status| && r2.limit == s.limit
            && (Marked(Set(r2.status, leaf, USED), s.limit)
                <==> s.limit > 0 && (i == Root(s.limit) || Marked(s2.status, s.limit)))
  {
    hide Parent, Level, Addr, Size, Pow2, BitsOk, ListsOk, SplitDown2, StatusBut, Leftmost, Set, Inc, Field;
    StatusLength(s2.status, t, s.limit);
    TakeKeeps(s, t, i, b, s.top);
    LeftmostGeometry(i, b, wanted);
    SplitDown2Limit(start2, i, b, wanted);
    var leaf := Leftmost(i, b, wanted);
    if s.limit > 0 {
      TakeMark(s2.status, t, s.limit, i);
      BuddyInRange(i);
      TakeStatus(s2.status, t, s.limit, i);
      AllocateOk(t, s.limit, i);
      WithinSmaller(leaf, i);
      hide StatusOk, Root, Within;
      var up := Root(s.limit - 1);
      SplitDownBefore(start2, t[i := Live], i, b, wanted, up);
      SetOne(SplitDown2(start2, i, b, wanted).status, leaf, USED, up);
    }
  }

  lemma {:induction false} SplitDown2Limit(s: State2, i: nat, b: nat, wanted: nat)
    requires Shape2(s) && Level(i) == b <= wanted < BUCKET_COUNT
    ensures SplitDown2(s, i, b, wanted).limit == s.limit
    decreases wanted - b
  {
    hide Pow2, ParentInc;
    if b < wanted {
      LevelInRange(i);
      ParentOfChild(i);
      SplitDown2Limit(SplitStep2(s, i, b), 2 * i + 1, b + 1, wanted);
    }
  }

  /** The mark after malloc_2: there when the block is the first one of an empty heap, or when it was there and the
      root has not moved. */
  lemma MallocMark(s: State, t: seq<Kind>, s2: State2, request: SizeT, grant: nat -> bool)
    requires Inv(s, t) && Sim(s, t, s2) && MayAsk(s, request)
    ensures Shape2(s2) && Defined2(s2, request, grant)
    ensures var r2 := Malloc2(s2, request, grant);
            Marked(r2.s.status, r2.s.limit) <==>
              || (r2.address.Some? && s.headers == map[] && r2.s.limit > 0)
              || (Marked(s2.status, s2.limit) && r2.s.limit == s2.limit)
  {
    hide Parent, Level, Addr, Size, Pow2, BitsOk, ListsOk, StatusOk, FindBlock, FindBlock2, Carve, Carve2, BucketFor;
    hide Root, Field, Need, Shrunk;
    CoreShape(s, t);
    StatusLength(s2.status, t, s.limit);
    MayAskIsDefined(s, t, s2, request, grant);
    EmptyHeap(s, t);
    EmptyIsUnmarked(s, t, s2);
    if request <= MAX_ALLOC {
      var wanted := BucketFor(request);
      var v := FindBlockSim(s, t, s2, wanted, grant);
      FindBlockMark(s, t, s2, wanted, grant);
      var hit, hit2 := FindBlock(s, wanted, grant), FindBlock2(s2, wanted, grant);
      var w := FindBlockKeeps(s, t, wanted, grant);
      if hit.found.Block? {
        HitIsResult(s, t, wanted, hit, w, v, grant);
        HitMark(s, t, v, hit, hit2, wanted, Shrunk(request), grant);
      }
    }
  }

  lemma HitMark(s: State, t: seq<Kind>, v: seq<Kind>, hit: Search, hit2: Search2, wanted: nat, n: SizeT,
                grant: nat -> bool)
    requires Core(s, t) && wanted < BUCKET_COUNT && wanted > 0
    requires hit.found.Block? && Shape(hit.s) && Shape2(hit2.s) && SameSearch(hit, hit2, v)
    requires Hit(s, t, wanted, hit.s, hit.found.i, hit.found.bucket, v)
    ensures hit.found.bucket <= wanted && Level(hit.found.i) == hit.found.bucket
    ensures var r2, limit := Carve2(hit2.s, hit.found.i, hit.found.bucket, wanted, grant), hit2.s.limit;
            && r2.s.limit == limit
            && (Marked(r2.s.status, limit) <==>
                  || (r2.address.Some? && t[Root(s.limit)].Free? && limit > 0)
                  || Marked(hit2.s.status, limit))
  {
    hide Parent, Addr, Size, Pow2, BitsOk, ListsOk, StatusOk, Carve, Carve2, Root, Field;
    var i, b := hit.found.i, hit.found.bucket;
    var p, p2 := Push(hit.s, b, i), Push2(hit2.s, b, i);
    CoreShape(p, v);
    assert i in p.lists[b];
    ListedIs(p, v, b, i);
    assert p.lists[b][|p.lists[b]| - 1] == i;
    PopPush2(hit2.s, b, i);
    CarveMark(p, v, p2, i, b, wanted, n, grant);
    OnlyRootIsFree(v, p.limit, i);
  }

  lemma OnlyRootIsFree(t: seq<Kind>, limit: nat, i: nat)
    requires WellFormed(t, limit) && i < NODE_COUNT && t[i].Free?
    ensures i == Root(limit) <==> t[Root(limit)].Free?
  {
    if t[Root(limit)].Free? && i != Root(limit) { FreeRootOnly(t, limit, i); }
  }

  lemma EmptyIsUnmarked(s: State, t: seq<Kind>, s2: State2)
    requires Core(s, t) && Sim(s, t, s2)
    ensures t[Root(s.limit)].Free? ==> !Marked(s2.status, s2.limit)
  {
    if s.limit > 0 { RootInRange(s.limit - 1); }
  }

  // free_2 of one block among several leaves the mark as it is.
  lemma {:induction false} CoalesceMark(s2: State2, t: seq<Kind>, i: nat, b: nat)
    requires Shape2(s2) && WellFormed(t, s2.limit) && StatusBut(s2.status, t, s2.limit, i)
    requires i < NODE_COUNT && t[i].Live? && Level(i) == b < BUCKET_COUNT && OtherLive(t, i)
    ensures Marked(Coalesce2(s2, i, b).status, s2.limit) <==> Marked(s2.status, s2.limit)
    ensures Coalesce2(s2, i, b).limit == s2.limit
    decreases b
  {
    hide Pow2, Field, Set, Dec, StatusBut, Marked;
    StatusButLength(s2.status, t, s2.limit, i);
    RootIsNotAlone(t, s2.limit, i);
    BuddyInRange(i);
    OnlyNodeAtRootLevel(t, s2.limit, i);
    FreeStatusAt(s2.status, t, s2.limit, i, i);
    MarkSurvives(s2.status, t, s2.limit, i);
    if t[Buddy(i)].Free? {
      MergeStatus(s2.status, t, s2.limit, i);
      MergeMayFree(s2.status, t, s2.limit, i);
      MergeOk(t, s2.limit, i);
      var next := Unlink2(s2.(status := Set(s2.status, i, UNUSED)), b, Buddy(i));
      CoalesceMark(next, MergePicture(t, i), Parent(i), b - 1);
    } else {
      DecMark(Set(s2.status, i, UNUSED), t, s2.limit, i);
    }
  }

  lemma DecMark(status: seq<bv8>, t: seq<Kind>, limit: nat, i: nat)
    requires WellFormed(t, limit) && 4 * |status| == NODE_COUNT + 1
    requires 0 < i < NODE_COUNT && t[i].Live? && i != Root(limit)
    requires Parent(i) < NODE_COUNT && Field(status, Parent(i)) > 0
    ensures Marked(ParentDec(status, i), limit) <==> Marked(status, limit)
  {
    hide Pow2, Field, Dec;
    if limit > 0 {
      AboveRoot(t, limit);
      assert NodeOk(t, Root(limit), i);
      DecOne(status, Parent(i), Root(limit - 1));
    }
  }

  lemma FreeMark(s: State, t: seq<Kind>, s2: State2, a: nat, x: nat)
    requires Inv(s, t) && Sim(s, t, s2) && a in s.headers && x in s.headers && x != a
    ensures Shape2(s2) && a < MAX_ALLOC && BucketOf(s2, a, BUCKET_COUNT - 1).Some?
    ensures Free2(s2, a).limit == s2.limit
    ensures Marked(Free2(s2, a).status, s2.limit) <==> Marked(s2.status, s2.limit)
  {
    hide Parent, Level, Addr, Size, Pow2, BitsOk, ListsOk, StatusOk, StatusBut, Coalesce2, Field, BucketOf;
    CoreShape(s, t);
    StatusLength(s2.status, t, s.limit);
    FreedNodeIsLive(s, t, a);
    OtherHeader(s, t, a, x);
    var i := FreedNode(s, a);
    SizeRecovery(s, t, s2, i, BUCKET_COUNT - 1);
    WorkOn(s2.status, t, s.limit, i);
    NodeOfAddr(i);
    CoalesceMark(s2, t, i, Level(i));
  }

  // ---------- the mark over whole runs ----------

  // The heap is in use and its root has not moved since the call that took the first block.
  ghost predicate RootUnmoved(run: seq<State>, n: nat)
    requires n < |run|
  {
    && n > 0 && run[n].headers != map[]
    && (run[n - 1].headers == map[] || (RootUnmoved(run, n - 1) && run[n].limit == run[n - 1].limit))
  }

  // Marked after a call, in terms of the state before it.
  ghost predicate MarkFollows(s: State, s2: State2, s': State, s2': State2) {
    Marked(s2'.status, s2'.limit) <==>
      && s'.headers != map[] && s'.limit > 0
      && (s.headers == map[] || (Marked(s2.status, s2.limit) && s'.limit == s.limit))
  }

  lemma MallocMarkFollows(s: State, t: seq<Kind>, s2: State2, request: SizeT, grant: nat -> bool)
    requires Inv(s, t) && Sim(s, t, s2) && MayAsk(s, request)
    ensures Shape2(s2) && Defined2(s2, request, grant)
    ensures MarkFollows(s, s2, Malloc1(s, Shrunk(request), grant).s, Malloc2(s2, request, grant).s)
  {
    hide BitsOk, ListsOk, StatusOk, Malloc1, Malloc2, Field, Root, Need, BucketFor, NodeForPtr, LiveChange, Defined2;
    hide Shrunk, MayAsk;
    var u := MallocLockstep(s, t, s2, request, grant);
    MallocMark(s, t, s2, request, grant);
    EmptyHeap(s, t);
    EmptyIsUnmarked(s, t, s2);
    var r := Malloc1(s, Shrunk(request), grant);
    if r.address.Some? { assert r.address.value in r.s.headers; }
  }

  lemma FreeMarkFollows(s: State, t: seq<Kind>, s2: State2, a: nat)
    requires Inv(s, t) && Sim(s, t, s2) && a in s.headers
    requires (exists x :: x in s.headers && x != a) || Marked(s2.status, s2.limit)
    ensures Need(s.headers[a]) <= MAX_ALLOC && Level(FreedNode(s, a)) == BucketFor(Need(s.headers[a]))
    ensures Shape2(s2) && a < MAX_ALLOC && BucketOf(s2, a, BUCKET_COUNT - 1).Some?
    ensures MarkFollows(s, s2, Free1(s, a), Free2(s2, a))
  {
    hide BitsOk, ListsOk, StatusOk, Free1, Free2, Field, Root, Need, BucketFor, BucketOf, FreedNode, LiveChange, Level;
    var v := FreeKeeps(s, t, a);
    var u := FreeLockstep(s, t, s2, a);
    if x :| x in s.headers && x != a {
      FreeMark(s, t, s2, a, x);
      assert x in Free1(s, a).headers;
    } else {
      assert Free1(s, a).headers == map[] by { assert (s.headers - {a}).Keys == {}; }
      EmptyHeap(Free1(s, a), u);
      EmptyIsUnmarked(Free1(s, a), u, Free2(s2, a));
    }
  }

  lemma MarkStep(s: State, t: seq<Kind>, s2: State2, c: Call2, s': State, s2': State2)
    requires Inv(s, t) && Sim(s, t, s2) && InScope(s, s2, c) && Together(s, s2, c, s', s2')
    ensures MarkFollows(s, s2, s', s2')
  {
    hide Malloc1, Malloc2, Free1, Free2, BucketFor, BucketOf, FreedNode, Core, StatusOk, HeadersOk, Marked;
    match c {
      case Alloc(request, grant) =>
        MallocMarkFollows(s, t, s2, request, grant);
      case Release(a) =>
        FreeMarkFollows(s, t, s2, a);
    }
  }

  /** In every run in scope, the mark is there exactly when the heap is in use, is not at its full size, and its root
      has not moved since the heap was last empty. */
  lemma {:induction false} MarkHistory(run: seq<State>, run2: seq<State2>, calls: seq<Call2>, n: nat)
    requires RunTogether(run, run2, calls) && n < |run|
    ensures n < |run2|
    ensures Marked(run2[n].status, run2[n].limit) <==> run[n].limit > 0 && RootUnmoved(run, n)
    decreases n
  {
    hide *;
    RunStart(run, run2, calls);
    if n == 0 {
      InitSim();
      NotYetMarked(run, run2);
    } else {
      MarkHistory(run, run2, calls, n - 1);
      var u := LockstepRun(run, run2, calls, n - 1);
      RunStep(run, run2, calls, n - 1);
      MarkStep(run[n - 1], u, run2[n - 1], calls[n - 1], run[n], run2[n]);
      SameRoot(run[n - 1], u, run2[n - 1]);
      MarkExtends(run, run2, n);
    }
  }

  lemma {:induction false} NotYetMarked(run: seq<State>, run2: seq<State2>)
    requires |run| == |run2| > 0 && run[0] == InitState() && run2[0] == InitState2()
    requires Inv(InitState(), InitPicture()) && Sim(InitState(), InitPicture(), InitState2())
    ensures !Marked(run2[0].status, run2[0].limit) && !RootUnmoved(run, 0)
  {
    hide StatusOk, BitsOk, ListsOk;
    EmptyHeap(InitState(), InitPicture());
    EmptyIsUnmarked(InitState(), InitPicture(), InitState2());
  }

  lemma SameRoot(s: State, t: seq<Kind>, s2: State2)
    requires Sim(s, t, s2)
    ensures s2.limit == s.limit
  {
  }

  lemma {:induction false} MarkExtends(run: seq<State>, run2: seq<State2>, n: nat)
    requires |run| == |run2| && 0 < n < |run| && run2[n - 1].limit == run[n - 1].limit
    requires MarkFollows(run[n - 1], run2[n - 1], run[n], run2[n])
    requires Marked(run2[n - 1].status, run2[n - 1].limit) <==> run[n - 1].limit > 0 && RootUnmoved(run, n - 1)
    ensures Marked(run2[n].status, run2[n].limit) <==> run[n].limit > 0 && RootUnmoved(run, n)
  {
    hide Root, Field;
  }

  // ---------- a run in which the last free goes wrong ----------

  lemma SmallestBlock(b: nat)
    requires b < BUCKET_COUNT
    ensures 2 * HEADER_SIZE <= BlockSize(b) <= MAX_ALLOC
  {
    Pow2Monotone(4, MAX_ALLOC_LOG2 - b);
    Pow2Monotone(MAX_ALLOC_LOG2 - b, MAX_ALLOC_LOG2);
    assert Pow2(4) == 16;
  }

  lemma SmallBucket()
    ensures 2 * HEADER_SIZE <= MAX_ALLOC && BucketFor(HEADER_SIZE) == BUCKET_COUNT - 1 && Need(0) == HEADER_SIZE
  {
    SmallestBlock(0);
    var b := BucketFor(HEADER_SIZE);
    if b + 1 < BUCKET_COUNT { SmallestBlock(b + 1); }
  }

  ghost function Agrees(): nat -> bool {
    _ => true
  }

  // The first block of a heap of the smallest size is the root; the root does not move.
  lemma FirstBlock(s: State, t: seq<Kind>)
    requires Inv(s, t) && s.limit == BUCKET_COUNT - 1 && s.headers == map[]
    ensures var r := Malloc1(s, 0, Agrees()); r.address.Some? && r.s.limit == s.limit
  {
    hide Parent, Addr, Size, Pow2, BitsOk, ListsOk, Malloc1, Level;
    SmallBucket();
    EmptyHeap(s, t);
    var root := Root(s.limit);
    RootLevel(s.limit);
    forall i | 0 <= i < NODE_COUNT
      ensures !t[i].Live?
    {
      if i != root { FreeRootOnly(t, s.limit, i); }
    }
    assert Fits(t, root, s.limit);
    Completeness(s, t, 0, Agrees());
    var i, v := SmallestFit(s, t, 0, Agrees());
    var u := MallocKeeps(s, t, 0, Agrees());
  }

  // With nothing free in the root's bucket a block of that bucket costs one round of growth.
  lemma OneRound(s: State, t: seq<Kind>, grant: nat -> bool)
    requires Core(s, t) && s.limit > 0 && s.lists[s.limit] == []
    ensures var hit := FindBlock(s, s.limit, grant);
            hit.found.Block? ==> hit.s.limit == s.limit - 1
  {
    hide Parent, Addr, Size, Pow2, BitsOk, ListsOk, Level, GrowOnce;
    var u := LowerLimitKeeps(s, t, s.limit - 1, grant);
    assert LowerLimit(s, s.limit, grant) == Reply(true, s);
  }

  // The second block of the smallest size needs a root one size larger.
  lemma SecondBlock(s: State, t: seq<Kind>, a: nat)
    requires Inv(s, t) && s.limit == BUCKET_COUNT - 1 && s.headers.Keys == {a}
    ensures var r := Malloc1(s, 0, Agrees()); r.address.Some? && r.s.limit == s.limit - 1
  {
    SecondBlockMoves(s, t, a);
    SmallBucket();
    hide Parent, Addr, Size, Pow2, BitsOk, ListsOk, Level, FindBlock, Carve;
    if s.lists[s.limit] != [] {
      var i := ListedIsFree(s, t, s.limit);
      SecondBlockAlone(s, t, a, i);
    }
    OneRound(s, t, Agrees());
    var hit := FindBlock(s, s.limit, Agrees());
    CarveKeepsLimit(hit.s, hit.found.i, hit.found.bucket, s.limit, 0, Agrees());
  }

  // With one block of the smallest size live in a root of that size, nothing else is present.
  lemma SecondBlockAlone(s: State, t: seq<Kind>, a: nat, i: nat)
    requires Inv(s, t) && s.limit == BUCKET_COUNT - 1 && a in s.headers && i < NODE_COUNT
    ensures i == Root(s.limit) ==> t[i].Live?
    ensures i != Root(s.limit) ==> t[i].Absent?
  {
    hide Parent, Addr, Size, Pow2, BitsOk, ListsOk;
    FreedNodeIsLive(s, t, a);
    LevelInRange(FreedNode(s, a));
    OnlyNodeAtRootLevel(t, s.limit, FreedNode(s, a));
    if i != Root(s.limit) { LiveRootOnly(t, s.limit, i); }
  }

  lemma SecondBlockMoves(s: State, t: seq<Kind>, a: nat)
    requires Inv(s, t) && s.limit == BUCKET_COUNT - 1 && s.headers.Keys == {a}
    ensures var r := Malloc1(s, 0, Agrees()); r.address.Some? && r.s.limit < s.limit
  {
    hide Parent, Addr, Size, Pow2, BitsOk, ListsOk, Malloc1, Level;
    SmallBucket();
    var root := Root(s.limit);
    RootLevel(s.limit);
    RightOfRoot(s.limit);
    forall i | 0 <= i < NODE_COUNT && i != root
      ensures t[i].Absent?
    {
      SecondBlockAlone(s, t, a, i);
    }
    SecondBlockAlone(s, t, a, root);
    SameLevelDisjoint(root, root + 1);
    assert Fits(t, root + 1, s.limit);
    Completeness(s, t, 0, Agrees());
    var i, v := SmallestFit(s, t, 0, Agrees());
    var u := MallocKeeps(s, t, 0, Agrees());
  }

  // One allocation of the smallest block by both allocators.
  lemma AllocTogether(s: State, t: seq<Kind>, s2: State2) returns (u: seq<Kind>)
    requires Inv(s, t) && Sim(s, t, s2) && Malloc1(s, 0, Agrees()).address.Some?
    ensures 2 * HEADER_SIZE <= MAX_ALLOC && Shape2(s2)
    ensures Defined2(s2, HEADER_SIZE, Agrees())
    ensures var r, r2, c := Malloc1(s, 0, Agrees()), Malloc2(s2, HEADER_SIZE, Agrees()), Alloc(HEADER_SIZE, Agrees());
            && InScope(s, s2, c) && Together(s, s2, c, r.s, r2.s)
            && Inv(r.s, u) && Sim(r.s, u, r2.s)
            && r.address.value !in s.headers && r.s.headers == s.headers[r.address.value := 0]
  {
    hide BitsOk, ListsOk, StatusOk, Malloc1, Malloc2, BucketFor, Pow2, Defined2;
    SmallBucket();
    CoreShape(s, t);
    u := MallocLockstep(s, t, s2, HEADER_SIZE, Agrees());
  }

  // One free by both allocators, another block being live.
  lemma ReleaseTogether(s: State, t: seq<Kind>, s2: State2, a: nat, x: nat)
    requires Inv(s, t) && Sim(s, t, s2) && a in s.headers && x in s.headers && x != a
    ensures Shape2(s2) && a < MAX_ALLOC && BucketOf(s2, a, BUCKET_COUNT - 1).Some?
    ensures Need(s.headers[a]) <= MAX_ALLOC && Level(FreedNode(s, a)) == BucketFor(Need(s.headers[a]))
    ensures InScope(s, s2, Release(a)) && Together(s, s2, Release(a), Free1(s, a), Free2(s2, a))
    ensures Free1(s, a).headers == s.headers - {a} && Free1(s, a).limit == s.limit
  {
    hide BitsOk, ListsOk, StatusOk, Free1, Free2, BucketFor, BucketOf, FreedNode, Level, Pow2;
    CoreShape(s, t);
    var u := FreeLockstep(s, t, s2, a);
    var v := FreeKeeps(s, t, a);
  }

  lemma {:induction false} ThreeSteps(run: seq<State>, run2: seq<State2>, calls: seq<Call2>)
    requires |run| == |run2| == 4 && |calls| == 3 && run[0] == InitState() && run2[0] == InitState2()
    requires InScope(run[0], run2[0], calls[0]) && Together(run[0], run2[0], calls[0], run[1], run2[1])
    requires InScope(run[1], run2[1], calls[1]) && Together(run[1], run2[1], calls[1], run[2], run2[2])
    requires InScope(run[2], run2[2], calls[2]) && Together(run[2], run2[2], calls[2], run[3], run2[3])
    ensures RunTogether(run, run2, calls)
  {
    hide InScope, Together;
  }

  lemma {:induction false} MovedAtSecond(run: seq<State>)
    requires |run| == 4 && run[0].headers == map[] && run[1].headers != map[] && run[2].headers != map[]
    requires run[2].limit < run[1].limit
    ensures !RootUnmoved(run, 3)
  {
    assert !RootUnmoved(run, 2);
  }

  // Three calls in scope after which one block is live and the root has moved.
  lemma UnmarkedRun() returns (run: seq<State>, run2: seq<State2>, calls: seq<Call2>, a: nat)
    ensures RunTogether(run, run2, calls) && |calls| == 3
    ensures run[3].headers.Keys == {a} && run[3].limit > 0 && !RootUnmoved(run, 3)
  {
    hide Malloc1, Malloc2, Free1, Free2, InScope, Together, Inv, Sim, InitState2, Need, BucketFor, BucketOf;
    hide FreedNode, Level;
    hide Agrees, RunTogether, RootUnmoved;
    InitSim();
    var s0, r0, t0 := InitState(), InitState2(), InitPicture();
    FirstBlock(s0, t0);
    var m1 := Malloc1(s0, 0, Agrees());
    var t1 := AllocTogether(s0, t0, r0);
    var a0, r1 := m1.address.value, Malloc2(r0, HEADER_SIZE, Agrees()).s;
    assert m1.s.headers.Keys == {a0};
    SecondBlock(m1.s, t1, a0);
    var m2 := Malloc1(m1.s, 0, Agrees());
    var t2 := AllocTogether(m1.s, t1, r1);
    var r2 := Malloc2(r1, HEADER_SIZE, Agrees()).s;
    a := m2.address.value;
    ReleaseTogether(m2.s, t2, r2, a0, a);
    run := [s0, m1.s, m2.s, Free1(m2.s, a0)];
    run2 := [r0, r1, r2, Free2(r2, a0)];
    calls := [Alloc(HEADER_SIZE, Agrees()), Alloc(HEADER_SIZE, Agrees()), Release(a0)];
    ThreeSteps(run, run2, calls);
    MovedAtSecond(run);
    assert m2.s.headers.Keys == {a0, a};
    assert (m2.s.headers - {a0}).Keys == {a};
  }

  /** Outside that scope the fields do go wrong: allocate two smallest blocks, free the first, then free the other. The
      field above the root and those before it in its byte are left at 3. */
  lemma LastFreeGoesWrong() returns (run: seq<State>, run2: seq<State2>, calls: seq<Call2>, a: nat)
    ensures RunTogether(run, run2, calls) && |calls| == 3 && run[3].headers.Keys == {a}
    ensures Shape2(run2[3]) && a < MAX_ALLOC && BucketOf(run2[3], a, BUCKET_COUNT - 1).Some?
    ensures 0 < run2[3].limit && Root(run2[3].limit - 1) < NODE_COUNT
    ensures forall k :: 0 <= k < NODE_COUNT ==>
              Field(Free2(run2[3], a).status, k) ==
                if k / 4 == Root(run2[3].limit - 1) / 4 && k <= Root(run2[3].limit - 1) then 3 else UNUSED
  {
    run, run2, calls, a := UnmarkedRun();
    RunStart(run, run2, calls);
    hide *;
    var t := LockstepRun(run, run2, calls, 3);
    MarkHistory(run, run2, calls, 3);
    SameRoot(run[3], t, run2[3]);
    LastFreeExact(run[3], t, run2[3], a);
    NotMarked(run2[3]);
  }

  lemma NotMarked(s2: State2)
    requires Shape2(s2) && !Marked(s2.status, s2.limit)
    ensures s2.limit > 0 ==> Root(s2.limit - 1) < 4 * |s2.status| && Field(s2.status, Root(s2.limit - 1)) != SPLIT
  {
    if s2.limit > 0 { RootInRange(s2.limit - 1); }
  }
}
