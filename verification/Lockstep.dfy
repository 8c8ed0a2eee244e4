/** The two allocators in lockstep: the one-bit encoding and the two-bit encoding take the same decisions. */
module Lockstep {
  import opened Options
  import opened Geometry
  import opened FreeLists
  import opened Tree
  import opened StatusFields
  import opened BuddySpec
  import opened BuddyInvariant
  import opened BuddyMallocProof
  import opened BuddyFreeProof
  import opened Buddy2Spec

  // How many of the two children of an inner node are in use.
  ghost function InUse(t: seq<Kind>, j: nat): bv8
    requires |t| == NODE_COUNT && 2 * j + 2 < NODE_COUNT
  {
    (if t[2 * j + 1].Free? then 0 else 1) + (if t[2 * j + 2].Free? then 0 else 1)
  }

  // The intended status: UNUSED for a free block, USED for a live one, the number of children in use for a split one.
  ghost function StatusOf(t: seq<Kind>, j: nat): bv8
    requires |t| == NODE_COUNT && j < NODE_COUNT
  {
    if t[j].Live? then USED
    else if t[j].Split? && 2 * j + 2 < NODE_COUNT then InUse(t, j)
    else UNUSED
  }

  ghost predicate AboveRootNode(limit: nat, j: nat) {
    j != Root(limit) && Within(Root(limit), j)
  }

  ghost predicate StatusAt(status: seq<bv8>, t: seq<Kind>, limit: nat, j: nat)
    requires |t| == NODE_COUNT && 4 * |status| == NODE_COUNT + 1 && j < NODE_COUNT
  {
    if AboveRootNode(limit, j) then
      Field(status, j) == UNUSED || (Field(status, j) == SPLIT && limit > 0 && j == Root(limit - 1))
    else Field(status, j) == StatusOf(t, j)
  }

  // The allocation that took the whole root left a mark on the node above it; growth past that node erases the mark.
  ghost predicate Marked(status: seq<bv8>, limit: nat) {
    limit > 0 && Root(limit - 1) < 4 * |status| && Field(status, Root(limit - 1)) == SPLIT
  }

  ghost predicate AllUnused(status: seq<bv8>)
    requires 4 * |status| == NODE_COUNT + 1
  {
    forall j {:trigger Field(status, j)} :: 0 <= j < NODE_COUNT ==> Field(status, j) == UNUSED
  }

  ghost predicate StatusOk(status: seq<bv8>, t: seq<Kind>, limit: nat) {
    && |t| == NODE_COUNT && limit < BUCKET_COUNT && Root(limit) < NODE_COUNT
    && 4 * |status| == NODE_COUNT + 1
    && (forall j {:trigger StatusAt(status, t, limit, j)} :: 0 <= j < NODE_COUNT ==> StatusAt(status, t, limit, j))
    && (t[Root(limit)].Free? ==> AllUnused(status))
  }

  ghost predicate SameSkeleton(s: State, s2: State2) {
    s2.limit == s.limit && s2.top == s.top && s2.lists == s.lists
  }

  /** The simulation relation: same root, same frontier, same free lists, and the status field of every node is the
      one its picture asks for, but for the mark above the root. While the heap is entirely free no field is set. */
  ghost predicate Sim(s: State, t: seq<Kind>, s2: State2) {
    SameSkeleton(s, s2) && StatusOk(s2.status, t, s.limit)
  }

  /** In the tree, the first allocator's bit is 1 exactly when the second one's status is SPLIT. */
  lemma BitIsSplitStatus(s: State, t: seq<Kind>, s2: State2, j: nat)
    requires Core(s, t) && Sim(s, t, s2) && j < INNER_COUNT && !t[j].Absent?
    ensures s.bits[j] <==> Field(s2.status, j) == SPLIT
  {
    InnerNodes(j);
    NotAbove(t, s.limit, j);
    assert StatusAt(s2.status, t, s.limit, j);
    assert s.bits[j] <==> BitOf(t, s.limit, j);
    assert NodeOk(t, Root(s.limit), j);
    if s.limit > 0 { AboveRoot(t, s.limit); }
  }

  lemma NotAbove(t: seq<Kind>, limit: nat, j: nat)
    requires WellFormed(t, limit) && j < NODE_COUNT && !t[j].Absent?
    ensures !AboveRootNode(limit, j)
  {
    PresentIsWithinRoot(t, limit, j);
    if Within(Root(limit), j) {
      WithinNested(j, Root(limit));
      WithinNested(Root(limit), j);
    }
  }

  lemma RootStatus(s: State, t: seq<Kind>, s2: State2)
    requires Core(s, t) && Sim(s, t, s2)
    ensures Field(s2.status, Root(s.limit)) == UNUSED <==> t[Root(s.limit)].Free?
  {
    var root := Root(s.limit);
    NotAbove(t, s.limit, root);
    assert StatusAt(s2.status, t, s.limit, root);
    assert NodeOk(t, root, root);
  }

  // One picture step whose effect on the fields is to set field p and leave the others.
  lemma FieldsFollow(status: seq<bv8>, t: seq<Kind>, limit: nat, status': seq<bv8>, u: seq<Kind>, limit': nat)
    requires StatusOk(status, t, limit) && |u| == NODE_COUNT && limit' < BUCKET_COUNT && Root(limit') < NODE_COUNT
    requires |status'| == |status|
    requires forall j {:trigger StatusAt(status', u, limit', j)} :: 0 <= j < NODE_COUNT ==>
               StatusAt(status', u, limit', j)
    requires u[Root(limit')].Free? ==> AllUnused(status')
    ensures StatusOk(status', u, limit')
  {
  }

  // ---------- growth ----------

  // The nodes above the new root are above the old one.
  lemma AboveAfterGrowth(limit: nat, j: nat)
    requires 0 < limit < BUCKET_COUNT
    ensures AboveRootNode(limit - 1, j) <==> AboveRootNode(limit, j) && j != Root(limit - 1)
  {
    RootLevel(limit);
    if Within(Root(limit - 1), j) { WithinTransitive(Root(limit), Root(limit - 1), j); }
  }

  lemma GrowFreeStatus(status: seq<bv8>, t: seq<Kind>, limit: nat)
    requires WellFormed(t, limit) && StatusOk(status, t, limit) && limit > 0 && t[Root(limit)].Free?
    requires Root(limit) + 1 < NODE_COUNT
    ensures StatusOk(status, GrowPicture(t, limit), limit - 1)
  {
    AboveRoot(t, limit);
    var u, lower := GrowPicture(t, limit), limit - 1;
    forall j | 0 <= j < NODE_COUNT
      ensures StatusAt(status, u, lower, j)
    {
      assert Field(status, j) == UNUSED;
      if j != Root(limit) { FreeRootOnly(t, limit, j); }
    }
    FieldsFollow(status, t, limit, status, u, limit - 1);
  }

  // Under a free root nothing else is present.
  lemma FreeRootOnly(t: seq<Kind>, limit: nat, j: nat)
    requires WellFormed(t, limit) && t[Root(limit)].Free? && j < NODE_COUNT && j != Root(limit)
    ensures t[j].Absent?
  {
    if !t[j].Absent? {
      PresentIsWithinRoot(t, limit, j);
      AboveIsSplit(t, limit, j, Root(limit));
    }
  }

  lemma GrowUsedStatusAt(status: seq<bv8>, t: seq<Kind>, limit: nat, j: nat)
    requires WellFormed(t, limit) && StatusOk(status, t, limit) && limit > 0 && !t[Root(limit)].Free?
    requires Root(limit) + 1 < NODE_COUNT && Root(limit - 1) < 4 * |status| && j < NODE_COUNT
    ensures StatusAt(Set(status, Root(limit - 1), SPLIT), GrowPicture(t, limit), limit - 1, j)
  {
    hide Level, Pow2, Parent, Set, Field;
    AboveRoot(t, limit);
    SetOne(status, Root(limit - 1), SPLIT, j);
    AboveAfterGrowth(limit, j);
    assert StatusAt(status, t, limit, j);
    assert NodeOk(t, Root(limit), j);
    hide Root, Within;
  }

  lemma GrowUsedStatus(status: seq<bv8>, t: seq<Kind>, limit: nat)
    requires WellFormed(t, limit) && StatusOk(status, t, limit) && limit > 0 && !t[Root(limit)].Free?
    requires Root(limit) + 1 < NODE_COUNT && Root(limit - 1) < 4 * |status|
    ensures StatusOk(Set(status, Root(limit - 1), SPLIT), GrowPicture(t, limit), limit - 1)
  {
    AboveRoot(t, limit);
    var u, lower := GrowPicture(t, limit), limit - 1;
    var status' := Set(status, Root(limit - 1), SPLIT);
    forall j | 0 <= j < NODE_COUNT
      ensures StatusAt(status', u, lower, j)
    {
      GrowUsedStatusAt(status, t, limit, j);
    }
    FieldsFollow(status, t, limit, status', u, limit - 1);
  }

  lemma GrowOnceSim(s: State, t: seq<Kind>, s2: State2, grant: nat -> bool) returns (u: seq<Kind>)
    requires Core(s, t) && Sim(s, t, s2) && s.limit > 0
    ensures var r, r2 := GrowOnce(s, grant), GrowOnce2(s2, grant);
            && r.ok == r2.ok && Grown(s, t, r.s, u, r.ok) && Sim(r.s, u, r2.s)
  {
    hide Level, Addr, Size, Pow2, Parent, Root, BitsOk, ListsOk, StatusOk, Field, Set, PtrForNode, GrowPicture;
    CoreShape(s, t);
    StatusLength(s2.status, t, s.limit);
    RootStatus(s, t, s2);
    RootBit(s, t);
    u := GrowOnceKeeps(s, t, grant);
    if t[Root(s.limit)].Free? {
      GrowFreeStatus(s2.status, t, s.limit);
    } else if GrowOnce(s, grant).ok {
      GrowUsedStatus(s2.status, t, s.limit);
    }
  }

  lemma StatusLength(status: seq<bv8>, t: seq<Kind>, limit: nat)
    requires StatusOk(status, t, limit)
    ensures 4 * |status| == NODE_COUNT + 1 && |t| == NODE_COUNT
  {
  }

  lemma {:induction false} LowerLimitSim(s: State, t: seq<Kind>, s2: State2, bucket: nat, grant: nat -> bool)
    returns (u: seq<Kind>)
    requires Core(s, t) && Sim(s, t, s2)
    ensures Shape2(s2)
    ensures var r, r2 := LowerLimit(s, bucket, grant), LowerLimit2(s2, bucket, grant);
            && r.ok == r2.ok && Grown(s, t, r.s, u, r.ok) && Sim(r.s, u, r2.s)
            && (s.limit <= bucket ==> u == t)
    decreases s.limit
  {
    hide Level, Addr, Size, Pow2, Parent, Root, BitsOk, ListsOk, StatusOk, GrowOnce, GrowOnce2;
    CoreShape(s, t);
    StatusLength(s2.status, t, s.limit);
    u := t;
    if s.limit > bucket {
      var v := GrowOnceSim(s, t, s2, grant);
      u := v;
      var once := GrowOnce(s, grant);
      if once.ok {
        u := LowerLimitSim(once.s, v, GrowOnce2(s2, grant).s, bucket, grant);
        GrownTransitive(s, t, once.s, v, LowerLimit(s, bucket, grant).s, u, LowerLimit(s, bucket, grant).ok);
      }
    }
  }

  // ---------- the search ----------

  // u is the picture of what the search ends in, the block it popped still being on its list.
  ghost predicate ResultPicture(r: Search, t: seq<Kind>, u: seq<Kind>)
    requires |t| == NODE_COUNT && |r.s.lists| == BUCKET_COUNT
  {
    match r.found
    case Block(i, b) => b < BUCKET_COUNT && Core(Push(r.s, b, i), u) && SameLive(t, u)
    case NoBacking => Core(r.s, u) && SameLive(t, u)
    case NoBlock => Core(r.s, u) && SameLive(t, u)
    case NullPop => Core(r.s, u) && SameLive(t, u)
  }

  lemma ResultUnique(r: Search, t: seq<Kind>, u: seq<Kind>, v: seq<Kind>)
    requires |t| == NODE_COUNT && |r.s.lists| == BUCKET_COUNT
    requires ResultPicture(r, t, u) && ResultPicture(r, t, v)
    ensures u == v
  {
    hide BitsOk, ListsOk;
    PictureUnique(u, v, r.s.limit);
  }

  ghost predicate SameSearch(r: Search, r2: Search2, u: seq<Kind>) {
    && r.found == r2.found
    && SameSkeleton(r.s, r2.s)
    && StatusOk(r2.s.status, u, r.s.limit)
  }

  lemma PopSim(p: State, t: seq<Kind>, u: seq<Kind>, p2: State2, bucket: nat)
    requires Core(p, u) && Sim(p, u, p2) && |t| == NODE_COUNT && SameLive(t, u) && bucket < BUCKET_COUNT
    ensures Shape2(p2)
    ensures var r, r2 := PopBlock(p, bucket), PopBlock2(p2, bucket);
            ResultPicture(r, t, u) && SameSearch(r, r2, u)
  {
    hide Level, Addr, Size, Pow2, Parent, Root, BitsOk, ListsOk;
    if p.lists[bucket] != [] { PushBack(p, bucket); }
  }

  lemma {:induction false} FindBlockSim(s: State, t: seq<Kind>, s2: State2, bucket: nat, grant: nat -> bool)
    returns (u: seq<Kind>)
    requires Core(s, t) && Sim(s, t, s2) && bucket < BUCKET_COUNT
    ensures Shape2(s2)
    ensures var r, r2 := FindBlock(s, bucket, grant), FindBlock2(s2, bucket, grant);
            ResultPicture(r, t, u) && SameSearch(r, r2, u)
    decreases bucket
  {
    hide Level, Addr, Size, Pow2, Parent, Root, BitsOk, ListsOk, StatusOk, LowerLimit, LowerLimit2, PopBlock, PopBlock2;
    CoreShape(s, t);
    StatusLength(s2.status, t, s.limit);
    u := LowerLimitSim(s, t, s2, bucket, grant);
    var got, got2 := LowerLimit(s, bucket, grant), LowerLimit2(s2, bucket, grant);
    if got.ok {
      if got.s.lists[bucket] != [] {
        PopSim(got.s, t, u, got2.s, bucket);
      } else if bucket > 0 {
        var v := u;
        if bucket != got.s.limit {
          u := FindBlockSim(got.s, v, got2.s, bucket - 1, grant);
          ResultTransitive(FindBlock(got.s, bucket - 1, grant), t, v, u);
        } else {
          u := LowerLimitSim(got.s, v, got2.s, bucket - 1, grant);
          var more, more2 := LowerLimit(got.s, bucket - 1, grant), LowerLimit2(got2.s, bucket - 1, grant);
          SameLiveTransitive(t, v, u);
          if more.ok { PopSim(more.s, t, u, more2.s, bucket); }
        }
      }
    }
  }

  lemma SameLiveTransitive(t: seq<Kind>, v: seq<Kind>, u: seq<Kind>)
    requires |t| == |v| == |u| == NODE_COUNT && SameLive(t, v) && SameLive(v, u)
    ensures SameLive(t, u)
  {
    forall i | 0 <= i < NODE_COUNT
      ensures t[i].Live? <==> u[i].Live?
    {
      assert t[i].Live? <==> v[i].Live?;
    }
  }

  lemma ResultTransitive(r: Search, t: seq<Kind>, v: seq<Kind>, u: seq<Kind>)
    requires |t| == |v| == NODE_COUNT && SameLive(t, v) && |r.s.lists| == BUCKET_COUNT && ResultPicture(r, v, u)
    ensures ResultPicture(r, t, u)
  {
    SameLiveTransitive(t, v, u);
  }

  // ---------- taking and splitting ----------

  // The fields while block `work` is being worked on: its own may hold anything.
  ghost predicate StatusBut(status: seq<bv8>, t: seq<Kind>, limit: nat, work: nat) {
    && |t| == NODE_COUNT && limit < BUCKET_COUNT && Root(limit) < NODE_COUNT
    && 4 * |status| == NODE_COUNT + 1 && work < NODE_COUNT
    && !t[Root(limit)].Free?
    && forall j {:trigger StatusAt(status, t, limit, j)} :: 0 <= j < NODE_COUNT && j != work ==>
         StatusAt(status, t, limit, j)
  }

  // Taking free block i: the parent has one more child in use.
  lemma TakeStatus(status: seq<bv8>, t: seq<Kind>, limit: nat, i: nat)
    requires WellFormed(t, limit) && StatusOk(status, t, limit) && i < NODE_COUNT && t[i].Free?
    requires i > 0 ==> Parent(i) < INNER_COUNT
    ensures i > 0 ==> Parent(i) < 4 * |status|
    ensures var status' := if i == 0 then status else ParentInc(status, i);
            StatusBut(status', t[i := Live], limit, i) && Field(status', i) == UNUSED
  {
    InnerNodes(i);
    NotAbove(t, limit, i);
    assert StatusAt(status, t, limit, i);
    var u := t[i := Live];
    if t[Root(limit)].Free? && i != Root(limit) { FreeRootOnly(t, limit, i); }
    if i > 0 {
      var p := Parent(i);
      TakeParent(status, t, limit, i);
      IncOne(status, p, i);
      forall j | 0 <= j < NODE_COUNT && j != i
        ensures StatusAt(ParentInc(status, i), u, limit, j)
      {
        TakeStatusAt(status, t, limit, i, j);
      }
    } else {
      forall j | 0 <= j < NODE_COUNT && j != i
        ensures StatusAt(status, u, limit, j)
      {
        InnerNodes(j);
        assert StatusAt(status, t, limit, j);
        assert NodeOk(t, Root(limit), j);
        assert NodeOk(t, Root(limit), i);
        TopIsRoot(t, limit);
      }
    }
  }

  // The increment never carries: the parent counts at most one child in use, or lies above the root of an empty heap.
  lemma TakeParent(status: seq<bv8>, t: seq<Kind>, limit: nat, i: nat)
    requires WellFormed(t, limit) && StatusOk(status, t, limit) && 0 < i < NODE_COUNT && t[i].Free?
    ensures Parent(i) < INNER_COUNT && Field(status, Parent(i)) < 2
    ensures i != Root(limit) ==> t[Parent(i)].Split? && !AboveRootNode(limit, Parent(i))
    ensures i != Root(limit) ==> Field(status, Parent(i)) == 1
    ensures i == Root(limit) ==> Field(status, Parent(i)) == 0 && AboveRootNode(limit, Parent(i))
  {
    BuddyInRange(i);
    var p := Parent(i);
    assert NodeOk(t, Root(limit), i);
    if i != Root(limit) {
      assert NodeOk(t, Root(limit), p);
      NotAbove(t, limit, p);
      assert StatusAt(status, t, limit, p);
    } else {
      assert Field(status, p) == UNUSED;
    }
  }

  lemma TakeStatusAt(status: seq<bv8>, t: seq<Kind>, limit: nat, i: nat, j: nat)
    requires WellFormed(t, limit) && StatusOk(status, t, limit) && 0 < i < NODE_COUNT && t[i].Free?
    requires j < NODE_COUNT && j != i && Parent(i) < 4 * |status|
    ensures StatusAt(ParentInc(status, i), t[i := Live], limit, j)
  {
    hide Level, Pow2, Field, Inc;
    TakeParent(status, t, limit, i);
    BuddyInRange(i);
    IncOne(status, Parent(i), j);
    assert StatusAt(status, t, limit, j);
    if i == Root(limit) {
      RootOnlyTop(limit);
      RootLevel(limit);
      FreeRootOnly(t, limit, j);
      hide Root, Within, Parent, NodeOk;
      assert Field(status, j) == UNUSED && Field(status, Parent(i)) == UNUSED;
    } else {
      assert NodeOk(t, Root(limit), j);
      assert NodeOk(t, Root(limit), i);
      assert NodeOk(t, Root(limit), Parent(i));
      hide Root, Within, NodeOk;
    }
  }

  lemma RootOnlyTop(limit: nat)
    ensures Root(limit) > 0 ==> limit > 0
  {
    assert Root(0) == 0;
  }

  lemma SplitStatusAt(status: seq<bv8>, t: seq<Kind>, limit: nat, i: nat, j: nat)
    requires WellFormed(t, limit) && StatusBut(status, t, limit, i) && 2 * i + 2 < NODE_COUNT && t[i].Live?
    requires Field(status, i) == UNUSED && j < NODE_COUNT
    ensures j == 2 * i + 1 ==> Field(Inc(status, i), j) == UNUSED
    ensures j != 2 * i + 1 ==> StatusAt(Inc(status, i), SplitPicture(t, i), limit, j)
  {
    hide Level, Pow2, Field, Inc;
    IncOne(status, i, j);
    ChildrenAbsent(t, limit, i);
    NotAbove(t, limit, i);
    assert NodeOk(t, Root(limit), j);
    if j != i { assert StatusAt(status, t, limit, j); }
    if j == 2 * i + 1 || j == 2 * i + 2 { BelowPresent(t, limit, i, j); }
    hide Root, Within;
  }

  // A child of a present node is not above the root.
  lemma BelowPresent(t: seq<Kind>, limit: nat, i: nat, j: nat)
    requires WellFormed(t, limit) && i < NODE_COUNT && !t[i].Absent? && j > 0 && Parent(j) == i
    ensures !AboveRootNode(limit, j)
  {
    if AboveRootNode(limit, j) {
      WithinTransitive(Root(limit), j, i);
      PresentIsWithinRoot(t, limit, i);
      WithinSmaller(i, Root(limit));
      WithinSmaller(Root(limit), j);
    }
  }

  lemma WithinSmaller(i: nat, a: nat)
    requires Within(i, a)
    ensures a <= i
  {
  }

  lemma SplitStatus(status: seq<bv8>, t: seq<Kind>, limit: nat, i: nat)
    requires WellFormed(t, limit) && StatusBut(status, t, limit, i) && 2 * i + 2 < NODE_COUNT && t[i].Live?
    requires Field(status, i) == UNUSED
    ensures var status' := ParentInc(status, 2 * i + 1);
            StatusBut(status', SplitPicture(t, i), limit, 2 * i + 1) && Field(status', 2 * i + 1) == UNUSED
  {
    ParentOfChild(i);
    var u := SplitPicture(t, i);
    var status' := ParentInc(status, 2 * i + 1);
    ChildrenAbsent(t, limit, i);
    assert !u[Root(limit)].Free? by { RootNotRightChild(limit, i); }
    forall j | 0 <= j < NODE_COUNT && j != 2 * i + 1
      ensures StatusAt(status', u, limit, j)
    {
      SplitStatusAt(status, t, limit, i, j);
    }
    SplitStatusAt(status, t, limit, i, 2 * i + 1);
  }

  lemma RootNotRightChild(limit: nat, i: nat)
    ensures Root(limit) != 2 * i + 2
  {
    RootLevel(limit);
  }

  lemma {:induction false} SplitDownSim(s: State, t: seq<Kind>, s2: State2, i: nat, b: nat, wanted: nat)
    returns (u: seq<Kind>)
    requires Core(s, t) && SameSkeleton(s, s2) && StatusBut(s2.status, t, s.limit, i)
    requires Level(i) == b <= wanted < BUCKET_COUNT && t[i].Live? && Field(s2.status, i) == UNUSED
    requires b < wanted ==> Addr(i) + Size(i) / 2 + LIST_T_SIZE <= s.top
    ensures Shape2(s2) && Leftmost(i, b, wanted) < NODE_COUNT
    ensures var r, r2, leaf := SplitDown(s, i, b, wanted), SplitDown2(s2, i, b, wanted), Leftmost(i, b, wanted);
            && Core(r, u) && SameSkeleton(r, r2) && r == s.(bits := r.bits, lists := r.lists)
            && StatusBut(r2.status, u, s.limit, leaf)
            && u[leaf].Live? && LiveChange(t, u, i, leaf)
    decreases wanted - b
  {
    hide Parent, Level, Addr, Size, BitsOk, ListsOk, StatusBut;
    StatusButLength(s2.status, t, s.limit, i);
    u := t;
    if b < wanted {
      SplitStepKeeps(s, t, i, b);
      SplitStatus(s2.status, t, s.limit, i);
      var t1 := SplitPicture(t, i);
      u := SplitDownSim(SplitStep(s, i, b), t1, SplitStep2(s2, i, b), 2 * i + 1, b + 1, wanted);
      LiveChangeTransitive(t, t1, u, i, 2 * i + 1, Leftmost(2 * i + 1, b + 1, wanted));
    }
  }

  lemma StatusButLength(status: seq<bv8>, t: seq<Kind>, limit: nat, work: nat)
    requires StatusBut(status, t, limit, work)
    ensures 4 * |status| == NODE_COUNT + 1 && |t| == NODE_COUNT && work < NODE_COUNT
  {
  }

  lemma MarkUsed(status: seq<bv8>, t: seq<Kind>, limit: nat, i: nat)
    requires WellFormed(t, limit) && StatusBut(status, t, limit, i) && t[i].Live?
    ensures StatusOk(Set(status, i, USED), t, limit)
  {
    NotAbove(t, limit, i);
    var status' := Set(status, i, USED);
    forall j | 0 <= j < NODE_COUNT
      ensures StatusAt(status', t, limit, j)
    {
      SetOne(status, i, USED, j);
      if j != i { assert StatusAt(status, t, limit, j); }
    }
  }

  // ---------- the promotion loop ----------

  // Two USED children make a parent that already counts two.
  lemma BothUsed(t: seq<Kind>, limit: nat, status: seq<bv8>, p: nat)
    requires WellFormed(t, limit) && StatusOk(status, t, limit) && 2 * p + 2 < NODE_COUNT
    requires Field(status, 2 * p + 1) == USED && Field(status, 2 * p + 2) == USED
    ensures Field(status, p) == USED
  {
    hide Level, Pow2, Field;
    var l, r := 2 * p + 1, 2 * p + 2;
    ParentOfChild(p);
    assert StatusAt(status, t, limit, l) && StatusAt(status, t, limit, r) && StatusAt(status, t, limit, p);
    assert NodeOk(t, Root(limit), l) && NodeOk(t, Root(limit), r);
    RightIsNotAbove(limit, p);
    RootNotRightChild(limit, p);
    assert t[p].Split?;
    NotAbove(t, limit, p);
    assert NodeOk(t, Root(limit), p);
    NotAbove(t, limit, l);
  }

  // Only leftmost nodes are above the root.
  lemma {:induction false} RightIsNotAbove(limit: nat, p: nat)
    ensures !Within(Root(limit), 2 * p + 2)
  {
    RootLevel(limit);
    if limit > 0 {
      RightIsNotAbove(limit - 1, p);
    } else {
      assert Root(0) == 0;
    }
  }

  /** The promotion loop changes nothing. */
  lemma {:induction false} PromotionChangesNothing(t: seq<Kind>, limit: nat, status: seq<bv8>, p: nat)
    requires WellFormed(t, limit) && StatusOk(status, t, limit) && 2 * p + 2 < NODE_COUNT
    ensures Promote(status, p) == status
    decreases p
  {
    hide Level, Pow2, Field;
    if p != 0 && Field(status, 2 * p + 1) == USED && Field(status, 2 * p + 2) == USED {
      BothUsed(t, limit, status, p);
      SetSame(status, p);
      InnerNodes(Parent(p));
      PromotionChangesNothing(t, limit, status, Parent(p));
    }
  }

  // ---------- malloc ----------

  // What Carve2 returns, spelled out.
  lemma Carve2Is(s: State2, i: nat, b: nat, wanted: nat, grant: nat -> bool)
    requires Shape2(s) && b <= wanted < BUCKET_COUNT && wanted > 0 && s.lists[b] != [] && Level(i) == b
    ensures i < NODE_COUNT && (i > 0 ==> Parent(i) < 4 * |s.status|)
    ensures var v := Addr(i) + BytesNeeded(b, wanted);
            var leaf := Leftmost(i, b, wanted);
            var s1 := Pop2(s, b).(top := if v <= s.top then s.top else v,
                                  status := if i == 0 then s.status else ParentInc(s.status, i));
            var s2 := SplitDown2(s1, i, b, wanted);
            && 0 < leaf < NODE_COUNT && 2 * Parent(leaf) + 2 < NODE_COUNT
            && Carve2(Pop2(s, b), i, b, wanted, grant)
               == if v <= s.top || grant(v)
                  then Allocation2(s2.(status := Promote(Set(s2.status, leaf, USED), Parent(leaf))), Some(Addr(i)))
                  else Allocation2(Push2(Pop2(s, b), b, i), None)
  {
    hide Parent, Addr, Size, Pow2, Level, Leftmost, PtrForNode, SplitDown2, Promote, Set, Inc, BytesNeeded;
    LevelInRange(i);
    LevelBounds(i);
    InnerNodes(i);
    PtrForNodeIsAddr(i);
    if i > 0 { BuddyInRange(i); }
    LeafIsInner(Leftmost(i, b, wanted), wanted);
  }

  lemma CarveSim(s: State, t: seq<Kind>, s2: State2, i: nat, b: nat, wanted: nat, request: SizeT, grant: nat -> bool)
    returns (u: seq<Kind>)
    requires Core(s, t) && Sim(s, t, s2) && b <= wanted < BUCKET_COUNT && wanted > 0
    requires s.lists[b] != [] && i == s.lists[b][|s.lists[b]| - 1] && Level(i) == b
    ensures Shape2(s2)
    ensures var r, r2 := Carve(Pop(s, b), i, b, wanted, request, grant), Carve2(Pop2(s2, b), i, b, wanted, grant);
            && r.address == r2.address && Core(r.s, u) && Sim(r.s, u, r2.s)
            && (r.address.None? ==> u == t)
            && (r.address.Some? ==> Leftmost(i, b, wanted) < NODE_COUNT && LiveChange(t, u, -1, Leftmost(i, b, wanted)))
  {
    hide Parent, Level, Addr, Size, Pow2, BitsOk, ListsOk, SplitDown, SplitDown2, Promote, StatusOk, StatusBut;
    hide Leftmost;
    hide Carve, Carve2, BytesNeeded, LiveChange;
    CoreShape(s, t);
    StatusLength(s2.status, t, s.limit);
    PushBack(s, b);
    PopPush2(Pop2(s2, b), b, i);
    LastBack(s2.lists[b]);
    var s1 := CarveIs(s, i, b, wanted, request, grant);
    Carve2Is(s2, i, b, wanted, grant);
    u := t;
    if Carve(Pop(s, b), i, b, wanted, request, grant).address.Some? {
      u := TakeAndSplitSim(s, t, s2, i, b, wanted, s1);
      var r := SplitDown(s1, i, b, wanted);
      CoreIgnoresHeaders(r, u, r.headers[Addr(i) := request]);
    }
  }

  // The two allocators between the pop and the marking of the block.
  lemma TakeAndSplitSim(s: State, t: seq<Kind>, s2: State2, i: nat, b: nat, wanted: nat, s1: State)
    returns (u: seq<Kind>)
    requires Core(s, t) && Sim(s, t, s2) && b <= wanted < BUCKET_COUNT && wanted > 0
    requires s.lists[b] != [] && i == s.lists[b][|s.lists[b]| - 1] && Level(i) == b
    requires i < NODE_COUNT && i < 2 * |s.bits| + 1 && (i > 0 ==> Parent(i) < 4 * |s2.status|)
    requires Shape(s1) && s1 == Pop(s, b).(top := s1.top, bits := FlipUnlessTop(s.bits, i)) && s.top <= s1.top
    requires Addr(i) + BytesNeeded(b, wanted) <= s1.top
    ensures Shape2(s2)
    ensures var leaf := Leftmost(i, b, wanted);
            var taken := if i == 0 then s2.status else ParentInc(s2.status, i);
            var r2 := SplitDown2(Pop2(s2, b).(top := s1.top, status := taken), i, b, wanted);
            && 0 < leaf < NODE_COUNT && 2 * Parent(leaf) + 2 < NODE_COUNT
            && Core(SplitDown(s1, i, b, wanted), u)
            && Sim(SplitDown(s1, i, b, wanted), u,
                   r2.(status := Promote(Set(r2.status, leaf, USED), Parent(leaf))))
            && LiveChange(t, u, -1, leaf)
            && Promote(Set(r2.status, leaf, USED), Parent(leaf)) == Set(r2.status, leaf, USED)
  {
    hide Parent, Level, Addr, Size, Pow2, BitsOk, ListsOk, BytesNeeded, StatusOk, StatusBut;
    CoreShape(s, t);
    StatusLength(s2.status, t, s.limit);
    TakeKeeps(s, t, i, b, s1.top);
    BytesSuffice(i, b, wanted, s1.top);
    if i > 0 { BuddyInRange(i); }
    TakeStatus(s2.status, t, s.limit, i);
    var start2 := Pop2(s2, b).(top := s1.top, status := if i == 0 then s2.status else ParentInc(s2.status, i));
    u := SplitDownSim(s1, t[i := Live], start2, i, b, wanted);
    var leaf := Leftmost(i, b, wanted);
    var r2 := SplitDown2(start2, i, b, wanted);
    LeafIsInner(leaf, wanted);
    MarkUsed(r2.status, u, s.limit, leaf);
    PromotionChangesNothing(u, s.limit, Set(r2.status, leaf, USED), Parent(leaf));
    LeftmostGeometry(i, b, wanted);
    FreeLeafNotLive(t, s.limit, i, leaf);
    LiveChangeTransitive(t, t[i := Live], u, -1, i, leaf);
  }

  lemma LeafIsInner(leaf: nat, wanted: nat)
    requires Level(leaf) == wanted && 0 < wanted < BUCKET_COUNT
    ensures 0 < leaf < NODE_COUNT && 2 * Parent(leaf) + 2 < NODE_COUNT
  {
    LevelInRange(leaf);
    BuddyInRange(leaf);
  }

  lemma SameLiveAfter(t: seq<Kind>, v: seq<Kind>, u: seq<Kind>, w: seq<Kind>, leaf: nat)
    requires |t| == |v| == |u| == |w| == NODE_COUNT && SameLive(t, v)
    requires LiveChange(t, u, -1, leaf) && LiveChange(v, w, -1, leaf)
    ensures SameLive(u, w)
  {
    forall j | 0 <= j < NODE_COUNT
      ensures u[j].Live? <==> w[j].Live?
    {
      assert t[j].Live? <==> v[j].Live?;
    }
  }

  // The root is free exactly when nothing is live.
  lemma EmptyHeap(s: State, t: seq<Kind>)
    requires Inv(s, t)
    ensures s.headers == map[] <==> t[Root(s.limit)].Free?
  {
    if t[Root(s.limit)].Free? {
      forall a | a in s.headers
        ensures false
      {
        FreedNodeIsLive(s, t, a);
        if FreedNode(s, a) != Root(s.limit) { FreeRootOnly(t, s.limit, FreedNode(s, a)); }
      }
      assert s.headers.Keys == {};
    } else if s.headers == map[] {
      forall i | 0 <= i < NODE_COUNT
        ensures !t[i].Live?
      {
        if t[i].Live? { LiveHasHeader(s, t, i); }
      }
      NothingLive(t, s.limit);
    }
  }

  // Every request but one for more than half of an entirely free heap.
  ghost predicate MayAsk(s: State, request: SizeT) {
    2 * request <= MAX_ALLOC || request > MAX_ALLOC || s.headers != map[]
  }

  // While some block is live the whole-heap block is not free, and the search for it finds nothing.
  lemma MayAskIsDefined(s: State, t: seq<Kind>, s2: State2, request: SizeT, grant: nat -> bool)
    requires Inv(s, t) && Sim(s, t, s2) && MayAsk(s, request)
    ensures Shape2(s2) && Defined2(s2, request, grant)
  {
    hide Addr, Size, Pow2, BitsOk, ListsOk, StatusOk, FindBlock, FindBlock2;
    CoreShape(s, t);
    StatusLength(s2.status, t, s.limit);
    if 2 * request <= MAX_ALLOC {
      HalfHeap(request);
    } else if request <= MAX_ALLOC {
      EmptyHeap(s, t);
      var v := FindBlockSim(s, t, s2, 0, grant);
      var w := FindBlockKeeps(s, t, 0, grant);
      if FindBlock(s, 0, grant).found.Block? { WholeHeapTaken(s, t, FindBlock(s, 0, grant), w, grant); }
    }
  }

  lemma WholeHeapTaken(s: State, t: seq<Kind>, hit: Search, u: seq<Kind>, grant: nat -> bool)
    requires Core(s, t) && Shape(hit.s) && hit.found.Block? && Searched(s, t, 0, hit, u, grant)
    ensures t[Root(s.limit)].Free?
  {
    hide Addr, Size, Pow2, BitsOk;
    var i := hit.found.i;
    var p := Push(hit.s, 0, i);
    assert i in p.lists[0];
    ListedIs(p, u, 0, i);
    OnlyNodeAtRootLevel(u, p.limit, i);
  }

  /** Lockstep of the two mallocs: malloc_2 of a request and malloc_1 of eight bytes less return the same block, or
      both NULL, and stay in the relation. */
  lemma MallocLockstep(s: State, t: seq<Kind>, s2: State2, request: SizeT, grant: nat -> bool) returns (u: seq<Kind>)
    requires Inv(s, t) && Sim(s, t, s2) && MayAsk(s, request)
    ensures Shape2(s2) && Defined2(s2, request, grant)
    ensures var r, r2 := Malloc1(s, Shrunk(request), grant), Malloc2(s2, request, grant);
            r.address == r2.address && Inv(r.s, u) && Sim(r.s, u, r2.s)
    ensures Allocated(s, t, Shrunk(request), Malloc1(s, Shrunk(request), grant), u)
  {
    hide Parent, Level, Addr, Size, Pow2, BitsOk, ListsOk, StatusOk, FindBlock, FindBlock2, Carve, Carve2, BucketFor;
    hide Need, Shrunk;
    CoreShape(s, t);
    StatusLength(s2.status, t, s.limit);
    MayAskIsDefined(s, t, s2, request, grant);
    SameBucket(request);
    var n := Shrunk(request);
    u := MallocKeeps(s, t, n, grant);
    if request > MAX_ALLOC {
      SameLiveRefl(t);
      MissIsResult(s, t, Search(NoBlock, s), u, t);
    } else {
      var wanted := BucketFor(request);
      var v := FindBlockSim(s, t, s2, wanted, grant);
      var hit, hit2 := FindBlock(s, wanted, grant), FindBlock2(s2, wanted, grant);
      var w := FindBlockKeeps(s, t, wanted, grant);
      if hit.found.Block? {
        HitIsResult(s, t, wanted, hit, w, v, grant);
        u := CarveBoth(s, t, v, hit, hit2, wanted, n, grant);
      } else {
        MissIsResult(s, t, hit, u, v);
      }
    }
  }

  lemma SameLiveRefl(t: seq<Kind>)
    requires |t| == NODE_COUNT
    ensures SameLive(t, t)
  {
  }

  lemma HitIsResult(s: State, t: seq<Kind>, wanted: nat, hit: Search, w: seq<Kind>, v: seq<Kind>, grant: nat -> bool)
    requires Core(s, t) && Shape(hit.s) && wanted < BUCKET_COUNT && hit.found.Block?
    requires Searched(s, t, wanted, hit, w, grant) && ResultPicture(hit, t, v)
    ensures Hit(s, t, wanted, hit.s, hit.found.i, hit.found.bucket, v)
  {
    ResultUnique(hit, t, v, w);
  }

  lemma MissIsResult(s: State, t: seq<Kind>, hit: Search, u: seq<Kind>, v: seq<Kind>)
    requires |t| == |u| == NODE_COUNT && |hit.s.lists| == BUCKET_COUNT && !hit.found.Block?
    requires Core(hit.s, u) && SameLive(t, u) && ResultPicture(hit, t, v)
    ensures u == v
  {
    PictureUnique(u, v, hit.s.limit);
  }

  lemma CarveBoth(s: State, t: seq<Kind>, v: seq<Kind>, hit: Search, hit2: Search2, wanted: nat, n: SizeT,
                  grant: nat -> bool) returns (u: seq<Kind>)
    requires Inv(s, t) && Need(n) <= MAX_ALLOC && wanted == BucketFor(Need(n)) && wanted > 0
    requires hit.found.Block? && Shape(hit.s) && Shape2(hit2.s) && SameSearch(hit, hit2, v)
    requires Hit(s, t, wanted, hit.s, hit.found.i, hit.found.bucket, v)
    ensures var i, b := hit.found.i, hit.found.bucket;
            && b <= wanted && Level(i) == b
            && var r, r2 := Carve(hit.s, i, b, wanted, n, grant), Carve2(hit2.s, i, b, wanted, grant);
               && r.address == r2.address && Inv(r.s, u) && Sim(r.s, u, r2.s)
               && Allocated(s, t, n, r, u)
  {
    hide Parent, Level, Addr, Size, Pow2, BitsOk, ListsOk, StatusOk, Carve, Carve2, BucketFor;
    var i, b := hit.found.i, hit.found.bucket;
    var p, p2 := Push(hit.s, b, i), Push2(hit2.s, b, i);
    CoreShape(p, v);
    assert i in p.lists[b];
    ListedIs(p, v, b, i);
    assert p.lists[b][|p.lists[b]| - 1] == i;
    PopPush2(hit2.s, b, i);
    var w := CarveSim(p, v, p2, i, b, wanted, n, grant);
    u := CarveKeeps(s, t, p, v, i, b, wanted, n, grant);
    CarveAgree(s, t, p, v, u, w, i, b, wanted, n, grant);
  }

  lemma ListedIs(p: State, v: seq<Kind>, b: nat, i: nat)
    requires Core(p, v) && b < BUCKET_COUNT && i in p.lists[b]
    ensures i < NODE_COUNT && v[i].Free? && Level(i) == b
  {
  }

  lemma PopPush2(s: State2, b: nat, i: nat)
    requires b < |s.lists|
    ensures Push2(s, b, i).lists[b] != [] && Pop2(Push2(s, b, i), b) == s
  {
    var l := s.lists[b];
    assert DropLast(l + [i]) == l;
    assert s.lists[b := l + [i]][b := l] == s.lists;
  }

  // Both accounts of the carved state have the same live blocks, hence the same picture.
  lemma CarveAgree(s: State, t: seq<Kind>, p: State, v: seq<Kind>, u: seq<Kind>, w: seq<Kind>, i: nat, b: nat,
                   wanted: nat, n: SizeT, grant: nat -> bool)
    requires Inv(s, t) && Core(p, v) && SameLive(t, v) && b <= wanted < BUCKET_COUNT && p.lists[b] != []
    requires i < NODE_COUNT && Level(i) == b && Need(n) <= MAX_ALLOC && wanted == BucketFor(Need(n))
    requires Shape(Pop(p, b))
    requires var r := Carve(Pop(p, b), i, b, wanted, n, grant);
             && Allocated(s, t, n, r, u) && Core(r.s, w)
             && (r.address.None? ==> w == v && u == v)
             && (r.address.Some? ==> r.address == Some(Addr(i)) && Leftmost(i, b, wanted) < NODE_COUNT
                                     && LiveChange(v, w, -1, Leftmost(i, b, wanted)))
    ensures u == w
  {
    var r := Carve(Pop(p, b), i, b, wanted, n, grant);
    hide Parent, Level, Addr, Size, Pow2, BitsOk, ListsOk, Carve, BucketFor;
    if r.address.Some? {
      var leaf := Leftmost(i, b, wanted);
      LeftmostGeometry(i, b, wanted);
      NodeOfAddr(leaf);
      SameLiveAfter(t, v, u, w, leaf);
      PictureUnique(u, w, r.s.limit);
    }
  }

  // ---------- free ----------

  /** Headerless size recovery: climbing from the deepest bucket, the first USED node at a live block's address is
      the block itself. */
  lemma {:induction false} SizeRecovery(s: State, t: seq<Kind>, s2: State2, i: nat, b: nat)
    requires Core(s, t) && Sim(s, t, s2) && i < NODE_COUNT && t[i].Live? && Level(i) <= b < BUCKET_COUNT
    ensures Shape2(s2) && Addr(i) < MAX_ALLOC
    ensures BucketOf(s2, Addr(i), b) == Some(Level(i))
    decreases b
  {
    hide Parent, Addr, Size, Pow2, BitsOk, ListsOk, Field;
    WithinHeap(i);
    Aligned16(i);
    OnlyNodeAtRootLevel(t, s.limit, i);
    var n := Leftmost(i, Level(i), b);
    LeftmostGeometry(i, Level(i), b);
    NodeOfAddr(n);
    NotAboveBelow(t, s.limit, i, n);
    assert StatusAt(s2.status, t, s.limit, n);
    if Level(i) < b {
      if !t[n].Absent? { AboveIsSplit(t, s.limit, n, i); }
      SizeRecovery(s, t, s2, i, b - 1);
    } else {
      assert n == i;
    }
  }

  lemma NotAboveBelow(t: seq<Kind>, limit: nat, i: nat, n: nat)
    requires WellFormed(t, limit) && i < NODE_COUNT && !t[i].Absent? && Within(n, i)
    ensures !AboveRootNode(limit, n)
  {
    if AboveRootNode(limit, n) {
      WithinTransitive(Root(limit), n, i);
      PresentIsWithinRoot(t, limit, i);
      WithinSmaller(i, Root(limit));
      WithinSmaller(Root(limit), n);
      WithinSmaller(n, i);
    }
  }

  // Freeing block i does not empty the heap, or the mark above the root is still there.
  ghost predicate MayFree(status: seq<bv8>, t: seq<Kind>, limit: nat, i: nat)
    requires |t| == NODE_COUNT
  {
    OtherLive(t, i) || Marked(status, limit)
  }

  // Some live block other than i.
  ghost predicate OtherLive(t: seq<Kind>, i: nat)
    requires |t| == NODE_COUNT
  {
    exists k :: 0 <= k < NODE_COUNT && k != i && t[k].Live?
  }

  lemma RootIsNotAlone(t: seq<Kind>, limit: nat, i: nat)
    requires WellFormed(t, limit) && i < NODE_COUNT && t[i].Live? && OtherLive(t, i)
    ensures i != Root(limit) && i != 0
  {
    var k :| 0 <= k < NODE_COUNT && k != i && t[k].Live?;
    if i == Root(limit) || i == 0 {
      WithinZero(k);
      PresentIsWithinRoot(t, limit, k);
      AboveIsSplit(t, limit, k, i);
    }
  }

  lemma FreeStatusAt(status: seq<bv8>, t: seq<Kind>, limit: nat, i: nat, j: nat)
    requires WellFormed(t, limit) && StatusBut(status, t, limit, i) && 0 < i < NODE_COUNT && t[i].Live?
    requires i != Root(limit) && j < NODE_COUNT && Buddy(i) < NODE_COUNT && Parent(i) < INNER_COUNT
    ensures t[Buddy(i)].Free? <==> Field(Set(status, i, UNUSED), Buddy(i)) == UNUSED
    ensures t[Buddy(i)].Free? && j != Parent(i) ==> StatusAt(Set(status, i, UNUSED), MergePicture(t, i), limit, j)
    ensures Field(Set(status, i, UNUSED), Parent(i)) > 0
    ensures !t[Buddy(i)].Free? ==> StatusAt(ParentDec(Set(status, i, UNUSED), i), t[i := Free], limit, j)
  {
    hide Level, Pow2, Field, Set, Dec;
    var p, q := Parent(i), Buddy(i);
    BuddyInRange(i);
    assert NodeOk(t, Root(limit), i) && NodeOk(t, Root(limit), p);
    assert NodeOk(t, Root(limit), j) && NodeOk(t, Root(limit), q);
    NotAbove(t, limit, i);
    NotAbove(t, limit, p);
    NotAbove(t, limit, q);
    SetOne(status, i, UNUSED, q);
    SetOne(status, i, UNUSED, p);
    SetOne(status, i, UNUSED, j);
    assert StatusAt(status, t, limit, q) && StatusAt(status, t, limit, p);
    if j != i { assert StatusAt(status, t, limit, j); }
    DecOne(Set(status, i, UNUSED), p, j);
    hide Root, Within;
  }

  lemma {:induction false} CoalesceSim(s: State, t: seq<Kind>, s2: State2, i: nat, b: nat) returns (u: seq<Kind>)
    requires Core(s, t) && SameSkeleton(s, s2) && StatusBut(s2.status, t, s.limit, i)
    requires i < NODE_COUNT && t[i].Live? && Level(i) == b < BUCKET_COUNT && Addr(i) + LIST_T_SIZE <= s.top
    requires MayFree(s2.status, t, s.limit, i)
    ensures Shape2(s2)
    ensures var r, r2 := Coalesce(s, i, b), Coalesce2(s2, i, b);
            && Core(r, u) && Sim(r, u, r2) && LiveChange(t, u, i, -1)
    decreases b
  {
    hide Level, Addr, Size, Pow2, Parent, BitsOk, ListsOk, StatusBut, StatusOk, Field, Set, Dec, Marked;
    StatusButLength(s2.status, t, s.limit, i);
    NotNodeZero(s2.status, t, s.limit, i);
    InnerNodes(i);
    BuddyInRange(i);
    CoalesceStep(s, t, i, b);
    if i == Root(s.limit) {
      FlippedBitMeansBuddyInUse(s, t, i);
      ReleaseKeeps(s, t, i, b);
      u := t[i := Free];
      EmptyStatus(s2.status, t, s.limit);
    } else {
      FreeStatusAt(s2.status, t, s.limit, i, i);
      if StopsHere(s, t, i) {
        ReleaseKeeps(s, t, i, b);
        u := t[i := Free];
        ReleaseStatus(s2.status, t, s.limit, i);
      } else {
        var t1 := MergePicture(t, i);
        MergeStatus(s2.status, t, s.limit, i);
        MergeMayFree(s2.status, t, s.limit, i);
        u := CoalesceSim(Unlink(s.(bits := Flip(s.bits, i)), b, Buddy(i)), t1,
                         Unlink2(s2.(status := Set(s2.status, i, UNUSED)), b, Buddy(i)), Parent(i), b - 1);
        LiveChangeTransitive(t, t1, u, i, Parent(i), -1);
      }
    }
  }

  // Node 0 is never freed in scope, and the root only when it is the last live block.
  lemma NotNodeZero(status: seq<bv8>, t: seq<Kind>, limit: nat, i: nat)
    requires WellFormed(t, limit) && i < NODE_COUNT && t[i].Live? && MayFree(status, t, limit, i)
    ensures i != 0
    ensures i == Root(limit) ==> Marked(status, limit)
  {
    if OtherLive(t, i) {
      RootIsNotAlone(t, limit, i);
    } else {
      RootLevel(limit);
      PresentIsWithinRoot(t, limit, i);
      WithinSmaller(i, Root(limit));
    }
  }

  // The last block is freed under the mark: every field is UNUSED again.
  lemma EmptyStatus(status: seq<bv8>, t: seq<Kind>, limit: nat)
    requires WellFormed(t, limit) && StatusBut(status, t, limit, Root(limit)) && t[Root(limit)].Live?
    requires Marked(status, limit) && Root(limit) > 0 && Parent(Root(limit)) < 4 * |status|
    ensures StatusOk(ParentDec(Set(status, Root(limit), UNUSED), Root(limit)), t[Root(limit) := Free], limit)
  {
    var root := Root(limit);
    var u, status' := t[root := Free], ParentDec(Set(status, root, UNUSED), root);
    forall j | 0 <= j < NODE_COUNT
      ensures Field(status', j) == UNUSED && StatusAt(status', u, limit, j)
    {
      EmptyStatusAt(status, t, limit, j);
    }
  }

  lemma EmptyStatusAt(status: seq<bv8>, t: seq<Kind>, limit: nat, j: nat)
    requires WellFormed(t, limit) && StatusBut(status, t, limit, Root(limit)) && t[Root(limit)].Live?
    requires Marked(status, limit) && Root(limit) > 0 && Parent(Root(limit)) < 4 * |status| && j < NODE_COUNT
    ensures Field(ParentDec(Set(status, Root(limit), UNUSED), Root(limit)), j) == UNUSED
    ensures j != Root(limit) ==> t[j].Absent?
  {
    hide Level, Pow2, Field, Set, Dec;
    RootLevel(limit);
    var root, up := Root(limit), Root(limit - 1);
    SetOne(status, root, UNUSED, j);
    SetOne(status, root, UNUSED, up);
    DecOne(Set(status, root, UNUSED), up, j);
    if j != root {
      LiveRootOnly(t, limit, j);
      assert StatusAt(status, t, limit, j);
    }
  }

  lemma LiveRootOnly(t: seq<Kind>, limit: nat, j: nat)
    requires WellFormed(t, limit) && t[Root(limit)].Live? && j < NODE_COUNT && j != Root(limit)
    ensures t[j].Absent?
  {
    if !t[j].Absent? {
      PresentIsWithinRoot(t, limit, j);
      AboveIsSplit(t, limit, j, Root(limit));
    }
  }

  lemma ReleaseStatus(status: seq<bv8>, t: seq<Kind>, limit: nat, i: nat)
    requires WellFormed(t, limit) && StatusBut(status, t, limit, i) && 0 < i < NODE_COUNT && t[i].Live?
    requires i != Root(limit) && Buddy(i) < NODE_COUNT && Parent(i) < INNER_COUNT && !t[Buddy(i)].Free?
    ensures StatusOk(ParentDec(Set(status, i, UNUSED), i), t[i := Free], limit)
  {
    var u, status' := t[i := Free], ParentDec(Set(status, i, UNUSED), i);
    forall j | 0 <= j < NODE_COUNT
      ensures StatusAt(status', u, limit, j)
    {
      FreeStatusAt(status, t, limit, i, j);
    }
  }

  lemma MergeStatus(status: seq<bv8>, t: seq<Kind>, limit: nat, i: nat)
    requires WellFormed(t, limit) && StatusBut(status, t, limit, i) && 0 < i < NODE_COUNT && t[i].Live?
    requires i != Root(limit) && Buddy(i) < NODE_COUNT && Parent(i) < INNER_COUNT && t[Buddy(i)].Free?
    ensures Parent(i) < NODE_COUNT && Field(Set(status, i, UNUSED), Parent(i)) != UNUSED
    ensures StatusBut(Set(status, i, UNUSED), MergePicture(t, i), limit, Parent(i))
  {
    var u, status' := MergePicture(t, i), Set(status, i, UNUSED);
    forall j | 0 <= j < NODE_COUNT && j != Parent(i)
      ensures StatusAt(status', u, limit, j)
    {
      FreeStatusAt(status, t, limit, i, j);
    }
    FreeStatusAt(status, t, limit, i, Parent(i));
    MergedRoot(t, limit, i);
  }

  lemma MergeMayFree(status: seq<bv8>, t: seq<Kind>, limit: nat, i: nat)
    requires WellFormed(t, limit) && StatusBut(status, t, limit, i) && 0 < i < NODE_COUNT && t[i].Live?
    requires i != Root(limit) && Buddy(i) < NODE_COUNT && t[Buddy(i)].Free?
    ensures OtherLive(t, i) <==> OtherLive(MergePicture(t, i), Parent(i))
    ensures Marked(status, limit) <==> Marked(Set(status, i, UNUSED), limit)
  {
    var u := MergePicture(t, i);
    assert NodeOk(t, Root(limit), i);
    BuddyInRange(i);
    assert t[Parent(i)].Split?;
    if OtherLive(t, i) {
      var k :| 0 <= k < NODE_COUNT && k != i && t[k].Live?;
      assert u[k].Live? && k != Parent(i);
    }
    if OtherLive(u, Parent(i)) {
      var k :| 0 <= k < NODE_COUNT && k != Parent(i) && u[k].Live?;
      assert t[k].Live? && k != i;
    }
    MarkSurvives(status, t, limit, i);
  }

  lemma MarkSurvives(status: seq<bv8>, t: seq<Kind>, limit: nat, i: nat)
    requires WellFormed(t, limit) && 4 * |status| == NODE_COUNT + 1 && i < NODE_COUNT && !t[i].Absent?
    ensures Marked(status, limit) <==> Marked(Set(status, i, UNUSED), limit)
  {
    if limit > 0 {
      AboveRoot(t, limit);
      SetOne(status, i, UNUSED, Root(limit - 1));
    }
  }

  lemma MergedRoot(t: seq<Kind>, limit: nat, i: nat)
    requires WellFormed(t, limit) && 0 < i < NODE_COUNT && t[i].Live? && !t[Root(limit)].Free?
    requires i != Root(limit) && Buddy(i) < NODE_COUNT && t[Buddy(i)].Free?
    ensures !MergePicture(t, i)[Root(limit)].Free?
  {
  }

  lemma SameLiveChange(t: seq<Kind>, u: seq<Kind>, w: seq<Kind>, i: int, m: int)
    requires |t| == |u| == |w| == NODE_COUNT && LiveChange(t, u, i, m) && LiveChange(t, w, i, m)
    ensures SameLive(u, w)
  {
    forall j | 0 <= j < NODE_COUNT
      ensures u[j].Live? <==> w[j].Live?
    {
      assert u[j].Live? <==> (t[j].Live? && j != i) || j == m;
    }
  }

  lemma WorkOn(status: seq<bv8>, t: seq<Kind>, limit: nat, i: nat)
    requires WellFormed(t, limit) && StatusOk(status, t, limit) && i < NODE_COUNT && t[i].Live?
    ensures StatusBut(status, t, limit, i)
  {
    if t[Root(limit)].Free? { FreeRootOnly(t, limit, i); }
  }

  lemma OtherHeader(s: State, t: seq<Kind>, a: nat, x: nat)
    requires Inv(s, t) && a in s.headers && x in s.headers && x != a
    ensures Need(s.headers[a]) <= MAX_ALLOC && FreedNode(s, a) < NODE_COUNT && OtherLive(t, FreedNode(s, a))
  {
    FreedNodeIsLive(s, t, a);
    FreedNodeIsLive(s, t, x);
    assert FreedNode(s, x) != FreedNode(s, a);
  }

  /** Lockstep of the two frees: free_2 finds the size free_1 reads in the header, and the two stay in the relation,
      as long as some other block stays live or the heap has not grown since it was last empty. */
  lemma FreeLockstep(s: State, t: seq<Kind>, s2: State2, a: nat) returns (u: seq<Kind>)
    requires Inv(s, t) && Sim(s, t, s2) && a in s.headers
    requires (exists x :: x in s.headers && x != a) || Marked(s2.status, s.limit)
    ensures Need(s.headers[a]) <= MAX_ALLOC && Level(FreedNode(s, a)) == BucketFor(Need(s.headers[a]))
    ensures Shape2(s2) && a < MAX_ALLOC
    ensures BucketOf(s2, a, BUCKET_COUNT - 1) == Some(BucketFor(Need(s.headers[a])))
    ensures Inv(Free1(s, a), u) && Sim(Free1(s, a), u, Free2(s2, a))
    ensures LiveChange(t, u, FreedNode(s, a), -1)
  {
    hide Parent, Level, Addr, Size, Pow2, BitsOk, ListsOk, StatusOk, StatusBut, Coalesce, Coalesce2;
    CoreShape(s, t);
    StatusLength(s2.status, t, s.limit);
    FreedNodeIsLive(s, t, a);
    if !Marked(s2.status, s.limit) {
      var x :| x in s.headers && x != a;
      OtherHeader(s, t, a, x);
    }
    var i := FreedNode(s, a);
    var b := BucketFor(Need(s.headers[a]));
    SizeRecovery(s, t, s2, i, BUCKET_COUNT - 1);
    NodeOfAddr(i);
    Aligned16(i);
    WorkOn(s2.status, t, s.limit, i);
    u := FreeKeeps(s, t, a);
    var s1 := s.(headers := s.headers - {a});
    CoreIgnoresHeaders(s, t, s1.headers);
    var w := CoalesceSim(s1, t, s2, i, b);
    SameLiveChange(t, u, w, i, -1);
    PictureUnique(u, w, s.limit);
  }

  // ---------- whole runs ----------

  datatype Call2 = Alloc(request: SizeT, grant: nat -> bool) | Release(address: nat)

  // A call in scope: any request but one for more than half of an entirely free heap, or the release of a live block,
  // which may be the last one only if the heap has not grown since it was last empty.
  ghost predicate InScope(s: State, s2: State2, c: Call2) {
    match c
    case Alloc(request, _) => MayAsk(s, request)
    case Release(a) => a in s.headers && ((exists x :: x in s.headers && x != a) || Marked(s2.status, s2.limit))
  }

  // Both allocators obey the same call; malloc_1 adds its eight header bytes by itself.
  ghost predicate Together(s: State, s2: State2, c: Call2, s': State, s2': State2) {
    && Shape(s) && Shape2(s2)
    && match c
       case Alloc(request, grant) =>
         && Defined2(s2, request, grant)
         && s' == Malloc1(s, Shrunk(request), grant).s && s2' == Malloc2(s2, request, grant).s
       case Release(a) =>
         && a in s.headers && Need(s.headers[a]) <= MAX_ALLOC
         && Level(FreedNode(s, a)) == BucketFor(Need(s.headers[a]))
         && a < MAX_ALLOC && BucketOf(s2, a, BUCKET_COUNT - 1).Some?
         && s' == Free1(s, a) && s2' == Free2(s2, a)
  }

  // The two mallocs returned the same block, or both NULL.
  ghost predicate SameAnswer(s: State, s2: State2, c: Call2) {
    c.Alloc? ==>
      && Shape(s) && Shape2(s2) && Defined2(s2, c.request, c.grant)
      && Malloc1(s, Shrunk(c.request), c.grant).address == Malloc2(s2, c.request, c.grant).address
  }

  lemma InitSim()
    ensures Inv(InitState(), InitPicture()) && Sim(InitState(), InitPicture(), InitState2())
  {
    InitOk();
    QuarterNodes();
    RootInRange(BUCKET_COUNT - 1);
    var status, t, limit := InitState2().status, InitPicture(), BUCKET_COUNT - 1;
    forall j | 0 <= j < NODE_COUNT
      ensures Field(status, j) == UNUSED && StatusAt(status, t, limit, j)
    {
      ZeroField(j % 4);
    }
  }

  lemma QuarterNodes()
    ensures 4 * (Pow2(BUCKET_COUNT) / 4) == NODE_COUNT + 1
  {
    Quartered(BUCKET_COUNT);
    hide Pow2;
  }

  lemma Quartered(b: nat)
    requires b >= 2
    ensures 4 * (Pow2(b) / 4) == Pow2(b)
  {
    hide Pow2;
    var q := Pow2(b - 2);
    Doubled(b);
    Doubled(b - 1);
    assert (4 * q) / 4 == q;
  }

  lemma ZeroField(r: nat)
    requires r < 4
    ensures ByteField(0, r) == UNUSED
  {
  }

  lemma StepTogether(s: State, u: seq<Kind>, s2: State2, c: Call2, s': State, s2': State2) returns (t: seq<Kind>)
    requires Inv(s, u) && Sim(s, u, s2) && InScope(s, s2, c) && Together(s, s2, c, s', s2')
    ensures Inv(s', t) && Sim(s', t, s2') && SameAnswer(s, s2, c)
  {
    hide Malloc1, Malloc2, Free1, Free2, BucketFor, BucketOf, FreedNode, Core, StatusOk, HeadersOk, Marked;
    match c {
      case Alloc(request, grant) =>
        t := MallocLockstep(s, u, s2, request, grant);
      case Release(a) =>
        t := FreeLockstep(s, u, s2, a);
    }
  }

  // A run of both allocators: every call is in scope and obeyed by both.
  ghost predicate RunTogether(run: seq<State>, run2: seq<State2>, calls: seq<Call2>) {
    && |run| == |run2| == |calls| + 1 && run[0] == InitState() && run2[0] == InitState2()
    && forall k {:trigger calls[k]} :: 0 <= k < |calls| ==>
         InScope(run[k], run2[k], calls[k]) && Together(run[k], run2[k], calls[k], run[k + 1], run2[k + 1])
  }

  lemma {:induction false} RunStart(run: seq<State>, run2: seq<State2>, calls: seq<Call2>)
    requires RunTogether(run, run2, calls)
    ensures |run| == |run2| == |calls| + 1 && run[0] == InitState() && run2[0] == InitState2()
  {
  }

  lemma {:induction false} RunStep(run: seq<State>, run2: seq<State2>, calls: seq<Call2>, k: nat)
    requires RunTogether(run, run2, calls) && k < |calls|
    ensures |run| == |run2| == |calls| + 1
    ensures InScope(run[k], run2[k], calls[k]) && Together(run[k], run2[k], calls[k], run[k + 1], run2[k + 1])
  {
    assert calls[k] == calls[k];
  }

  /** The two allocators never drift apart: after any number of calls in scope they have the same root, frontier and
      free lists, every status in the tree is the count it should be, and each malloc returned the same block. */
  lemma {:induction false} LockstepRun(run: seq<State>, run2: seq<State2>, calls: seq<Call2>, n: nat)
    returns (t: seq<Kind>)
    requires RunTogether(run, run2, calls) && n < |run|
    ensures Inv(run[n], t) && Sim(run[n], t, run2[n])
    ensures n > 0 ==> SameAnswer(run[n - 1], run2[n - 1], calls[n - 1])
    decreases n
  {
    hide *;
    if n == 0 {
      RunStart(run, run2, calls);
      InitSim();
      t := InitPicture();
    } else {
      RunStart(run, run2, calls);
      RunStep(run, run2, calls, n - 1);
      var u := LockstepRun(run, run2, calls, n - 1);
      t := StepTogether(run[n - 1], u, run2[n - 1], calls[n - 1], run[n], run2[n]);
    }
  }
}
