/** free_1 as a whole: it keeps the invariant, and it undoes malloc_1. */
module BuddyFreeProof {
  import opened Geometry
  import opened Tree
  import opened BuddySpec
  import opened BuddyInvariant
  import opened BuddyMallocProof

  // Where the climb from node i ends: the node that finally goes on a free list.
  ghost predicate StopsHere(s: State, t: seq<Kind>, i: nat)
    requires Core(s, t) && i < NODE_COUNT
  {
    i == 0 || i == Root(s.limit) || (Buddy(i) < NODE_COUNT && !t[Buddy(i)].Free?)
  }

  // One step of the climb. The block being freed is always a live block of the picture.
  lemma CoalesceStep(s: State, t: seq<Kind>, i: nat, b: nat)
    requires Core(s, t) && i < NODE_COUNT && t[i].Live? && Level(i) == b < BUCKET_COUNT && i > 0
    ensures Buddy(i) < NODE_COUNT && Parent(i) < INNER_COUNT && Level(Parent(i)) == b - 1
    ensures ParentIsSplit(Flip(s.bits, i), i) || b == s.limit <==> StopsHere(s, t, i)
    ensures !StopsHere(s, t, i) ==>
              && Buddy(i) in s.lists[b]
              && Core(Unlink(s.(bits := Flip(s.bits, i)), b, Buddy(i)), MergePicture(t, i))
              && MergePicture(t, i)[Parent(i)].Live?
              && LiveChange(t, MergePicture(t, i), i, Parent(i)) && !t[Parent(i)].Live?
              && Addr(Parent(i)) + LIST_T_SIZE <= s.top
  {
    FlippedBitMeansBuddyInUse(s, t, i);
    if !StopsHere(s, t, i) {
      BuddyInRange(i);
      assert NodeOk(t, Root(s.limit), i);
      MergeKeeps(s, t, i, b);
      ParentBacked(s, t, i);
    }
  }

  // The parent starts at the left one of the two halves; one half is a free block, whose links are backed.
  lemma ParentBacked(s: State, t: seq<Kind>, i: nat)
    requires Core(s, t) && 0 < i < NODE_COUNT && Buddy(i) < NODE_COUNT && t[Buddy(i)].Free?
    ensures Addr(Parent(i)) + LIST_T_SIZE <= s.top
  {
    BuddyInRange(i);
    ChildGeometry(Parent(i));
    assert Addr(Parent(i)) <= Addr(Buddy(i));
  }

  lemma TopIsRoot(t: seq<Kind>, limit: nat)
    requires WellFormed(t, limit) && !t[0].Absent?
    ensures Root(limit) == 0
  {
    OnlyNodeAtRootLevel(t, limit, 0);
  }

  lemma {:induction false} CoalesceKeeps(s: State, t: seq<Kind>, i: nat, b: nat) returns (u: seq<Kind>)
    requires Core(s, t) && i < NODE_COUNT && t[i].Live? && Level(i) == b < BUCKET_COUNT
    requires Addr(i) + LIST_T_SIZE <= s.top
    ensures var r := Coalesce(s, i, b);
            && Core(r, u)
            && r == s.(bits := r.bits, lists := r.lists)
            && LiveChange(t, u, i, -1)
    decreases b
  {
    hide Parent, Level, Addr, Size;
    InnerNodes(i);
    if i > 0 { CoalesceStep(s, t, i, b); }
    if StopsHere(s, t, i) {
      if i == 0 { TopIsRoot(t, s.limit); }
      ReleaseKeeps(s, t, i, b);
      u := t[i := Free];
    } else {
      var t1 := MergePicture(t, i);
      u := CoalesceKeeps(Unlink(s.(bits := Flip(s.bits, i)), b, Buddy(i)), t1, Parent(i), b - 1);
      LiveChangeTransitive(t, t1, u, i, Parent(i), -1);
    }
  }

  lemma HeaderRemoved(headers: map<nat, SizeT>, top: nat, t: seq<Kind>, limit: nat, u: seq<Kind>, a: nat, i: nat)
    requires WellFormed(t, limit) && |u| == NODE_COUNT && HeadersOk(headers, top, t, -1) && a in headers
    requires OwnerOk(headers, t, a) && i == NodeForPtr(a, BucketFor(Need(headers[a])))
    requires LiveChange(t, u, i, -1)
    ensures HeadersOk(headers - {a}, top, u, -1)
  {
    var h := headers - {a};
    forall j | 0 <= j < NODE_COUNT && u[j].Live?
      ensures HeaderOk(h, top, j)
    {
      assert t[j].Live? && HeaderOk(headers, top, j);
      BlocksDisjoint(t, limit, i, j);
    }
    forall x | x in h
      ensures OwnerOk(h, u, x)
    {
      assert OwnerOk(headers, t, x);
      var j := NodeForPtr(x, BucketFor(Need(headers[x])));
      assert Addr(j) == x && Addr(i) == a;
    }
  }

  // The header read back leads to the very node that was handed out.
  lemma FreedNodeIsLive(s: State, t: seq<Kind>, a: nat)
    requires Inv(s, t) && a in s.headers
    ensures Need(s.headers[a]) <= MAX_ALLOC
    ensures var i := FreedNode(s, a);
            && i < NODE_COUNT && t[i].Live? && Addr(i) == a
            && Level(i) == BucketFor(Need(s.headers[a]))
            && a + Size(i) <= s.top
  {
    assert OwnerOk(s.headers, t, a);
    var i := FreedNode(s, a);
    assert HeaderOk(s.headers, s.top, i);
  }

  lemma LiveHasHeader(s: State, t: seq<Kind>, i: nat)
    requires Inv(s, t) && i < NODE_COUNT && t[i].Live?
    ensures Addr(i) in s.headers
  {
    assert HeaderOk(s.headers, s.top, i);
  }

  /** free_1 of a live block keeps the invariant and takes exactly that block out of the live ones. */
  lemma FreeKeeps(s: State, t: seq<Kind>, a: nat) returns (u: seq<Kind>)
    requires Inv(s, t) && a in s.headers
    ensures Need(s.headers[a]) <= MAX_ALLOC && Level(FreedNode(s, a)) == BucketFor(Need(s.headers[a]))
    ensures var r := Free1(s, a);
            && Inv(r, u)
            && r.headers == s.headers - {a} && r.top == s.top && r.limit == s.limit
            && LiveChange(t, u, FreedNode(s, a), -1)
  {
    FreedNodeIsLive(s, t, a);
    var i := FreedNode(s, a);
    Aligned16(i);
    var s1 := s.(headers := s.headers - {a});
    CoreIgnoresHeaders(s, t, s1.headers);
    u := CoalesceKeeps(s1, t, i, Level(i));
    HeaderRemoved(s.headers, s.top, t, s.limit, u, a, i);
  }
}
