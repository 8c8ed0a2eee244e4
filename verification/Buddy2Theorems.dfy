/** What the two-bit encoding promises in every state of a run in scope. */
module Buddy2Theorems {
  import opened Options
  import opened Geometry
  import opened Tree
  import opened StatusFields
  import opened BuddySpec
  import opened BuddyInvariant
  import opened BuddyMallocProof
  import opened BuddyFreeProof
  import opened BuddyTheorems
  import opened Buddy2Spec
  import opened Lockstep

  function Counts(status: bv8): bv8 {
    if status == UNUSED then 0 else 1
  }

  // A child of a node of the tree has the status its picture asks for.
  lemma ChildStatus(status: seq<bv8>, t: seq<Kind>, limit: nat, j: nat, k: nat)
    requires WellFormed(t, limit) && StatusOk(status, t, limit) && j < NODE_COUNT && !t[j].Absent?
    requires k < NODE_COUNT && k > 0 && Parent(k) == j
    ensures Field(status, k) == StatusOf(t, k)
    ensures Field(status, k) == UNUSED <==> t[k].Free? || t[k].Absent?
    ensures !t[j].Split? ==> t[k].Absent?
  {
    BelowPresent(t, limit, j, k);
    assert StatusAt(status, t, limit, k);
    assert NodeOk(t, Root(limit), k);
    PresentIsWithinRoot(t, limit, j);
    if k == Root(limit) { WithinSmaller(j, Root(limit)); }
  }

  /** The status of a node of the tree is USED for a live block and otherwise the number of its children that are not
      UNUSED; a free block is UNUSED, and the children of a live one are. */
  lemma StatusCounts(s: State, t: seq<Kind>, s2: State2, j: nat)
    requires Core(s, t) && Sim(s, t, s2) && j < INNER_COUNT && !t[j].Absent?
    ensures 2 * j + 2 < NODE_COUNT
    ensures t[j].Live? ==> Field(s2.status, j) == USED
                           && Field(s2.status, 2 * j + 1) == UNUSED && Field(s2.status, 2 * j + 2) == UNUSED
    ensures !t[j].Live? ==>
              Field(s2.status, j) == Counts(Field(s2.status, 2 * j + 1)) + Counts(Field(s2.status, 2 * j + 2))
    ensures Field(s2.status, j) == UNUSED <==> t[j].Free?
  {
    hide Level, Pow2, Field, Parent, BitsOk, ListsOk;
    InnerNodes(j);
    ParentOfChild(j);
    NotAbove(t, s.limit, j);
    assert StatusAt(s2.status, t, s.limit, j);
    assert NodeOk(t, Root(s.limit), j);
    ChildStatus(s2.status, t, s.limit, j, 2 * j + 1);
    ChildStatus(s2.status, t, s.limit, j, 2 * j + 2);
    hide Root, Within;
  }

  /** malloc_2 refuses a request only when it is too large or no aligned block of its size is clear of the live ones. */
  lemma Completeness2(s: State, t: seq<Kind>, s2: State2, request: SizeT, grant: nat -> bool)
    requires Inv(s, t) && Sim(s, t, s2) && MayAsk(s, request) && !Refuses(grant)
    ensures Shape2(s2) && Defined2(s2, request, grant)
    ensures Malloc2(s2, request, grant).address.None? <==>
              request > MAX_ALLOC || !exists j :: Fits(t, j, BucketFor(request))
  {
    hide Malloc1, Malloc2, BucketFor, Fits, Core, StatusOk, Need, Shrunk, Defined2, MayAsk;
    SameBucket(request);
    var u := MallocLockstep(s, t, s2, request, grant);
    Completeness(s, t, Shrunk(request), grant);
  }

  /** In every state of every run in scope, the size of every live block is found again from its address alone. */
  lemma {:induction false} SizeRecoveryInRun(run: seq<State>, run2: seq<State2>, calls: seq<Call2>, n: nat, a: nat)
    requires RunTogether(run, run2, calls) && n < |run| && a in run[n].headers
    ensures |run2| == |run| && Shape2(run2[n]) && a < MAX_ALLOC && Need(run[n].headers[a]) <= MAX_ALLOC
    ensures BucketOf(run2[n], a, BUCKET_COUNT - 1) == Some(BucketFor(Need(run[n].headers[a])))
  {
    RunStart(run, run2, calls);
    hide RunTogether, Together, InScope, StatusOk, BitsOk, ListsOk, BucketOf, BucketFor, Need;
    var t := LockstepRun(run, run2, calls, n);
    FreedNodeIsLive(run[n], t, a);
    var i := FreedNode(run[n], a);
    LevelInRange(i);
    SizeRecovery(run[n], t, run2[n], i, BUCKET_COUNT - 1);
  }
}
