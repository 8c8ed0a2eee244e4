/** The invariant that ties bits, free lists, headers and the root to one picture of the tree,
    and its preservation by every step of malloc_1 and free_1. */
module BuddyInvariant {
  import opened Geometry
  import opened FreeLists
  import opened Tree
  import opened BuddySpec

  // What the bit of an inner node means.
  ghost predicate BitOf(t: seq<Kind>, limit: nat, j: nat)
    requires |t| == NODE_COUNT && limit < BUCKET_COUNT && j < INNER_COUNT
  {
    InnerNodes(j);
    RootInRange(limit);
    if t[j].Split? then t[2 * j + 1].Free? != t[2 * j + 2].Free?
    else limit > 0 && j == Root(limit - 1) && !t[Root(limit)].Free?
  }

  ghost predicate BitsOk(bits: seq<bool>, t: seq<Kind>, limit: nat)
    requires |t| == NODE_COUNT && limit < BUCKET_COUNT
  {
    |bits| == INNER_COUNT && forall j {:trigger bits[j]} :: 0 <= j < INNER_COUNT ==> (bits[j] <==> BitOf(t, limit, j))
  }

  ghost predicate ListsOk(lists: seq<seq<nat>>, t: seq<Kind>)
    requires |t| == NODE_COUNT
  {
    && |lists| == BUCKET_COUNT
    && (forall b {:trigger lists[b]} :: 0 <= b < BUCKET_COUNT ==> Distinct(lists[b]))
    && (forall b, i: nat {:trigger i in lists[b]} :: 0 <= b < BUCKET_COUNT ==>
          (i in lists[b] <==> i < NODE_COUNT && t[i].Free? && Level(i) == b))
  }

  // The two links inside a free block are backed by memory.
  ghost predicate FreeBacked(top: nat, t: seq<Kind>)
    requires |t| == NODE_COUNT
  {
    forall i {:trigger Addr(i)} :: 0 <= i < NODE_COUNT && t[i].Free? ==> Addr(i) + LIST_T_SIZE <= top
  }

  ghost predicate Core(s: State, t: seq<Kind>) {
    && Shape(s)
    && WellFormed(t, s.limit)
    && BitsOk(s.bits, t, s.limit)
    && ListsOk(s.lists, t)
    && FreeBacked(s.top, t)
  }

  lemma CoreShape(s: State, t: seq<Kind>)
    requires Core(s, t)
    ensures Shape(s) && |t| == NODE_COUNT && Root(s.limit) < NODE_COUNT
  {
  }

  ghost predicate HeaderOk(headers: map<nat, SizeT>, top: nat, i: nat)
    requires i < NODE_COUNT
  {
    var a := Addr(i);
    && a in headers
    && Need(headers[a]) <= MAX_ALLOC
    && Level(i) == BucketFor(Need(headers[a]))
    && a + Size(i) <= top
  }

  ghost predicate OwnerOk(headers: map<nat, SizeT>, t: seq<Kind>, a: nat)
    requires |t| == NODE_COUNT && a in headers
  {
    && Need(headers[a]) <= MAX_ALLOC
    && var i := NodeForPtr(a, BucketFor(Need(headers[a])));
       i < NODE_COUNT && t[i].Live? && Addr(i) == a
  }

  // Headers and live blocks correspond, the block being worked on (if any) excepted.
  ghost predicate HeadersOk(headers: map<nat, SizeT>, top: nat, t: seq<Kind>, work: int)
    requires |t| == NODE_COUNT
  {
    && (forall i {:trigger HeaderOk(headers, top, i)} :: 0 <= i < NODE_COUNT && t[i].Live? && i != work ==>
          HeaderOk(headers, top, i))
    && (forall a {:trigger OwnerOk(headers, t, a)} :: a in headers ==>
          OwnerOk(headers, t, a) && NodeForPtr(a, BucketFor(Need(headers[a]))) != work)
  }

  /** The global invariant between two calls. */
  ghost predicate Inv(s: State, t: seq<Kind>) {
    Core(s, t) && HeadersOk(s.headers, s.top, t, -1)
  }

  // ---------- the initial state ----------

  ghost function InitPicture(): seq<Kind> {
    seq(NODE_COUNT, i => if i == Root(BUCKET_COUNT - 1) then Free else Absent)
  }

  lemma InitLists()
    ensures var s := InitState();
            && Shape(s) && s.limit == BUCKET_COUNT - 1 && s.top == LIST_T_SIZE && s.headers == map[]
            && (forall b {:trigger s.lists[b]} :: 0 <= b < BUCKET_COUNT ==>
                  s.lists[b] == if b == BUCKET_COUNT - 1 then [Root(BUCKET_COUNT - 1)] else [])
            && (forall j {:trigger s.bits[j]} :: 0 <= j < INNER_COUNT ==> !s.bits[j])
  {
  }

  lemma InitTree()
    ensures |InitPicture()| == NODE_COUNT && WellFormed(InitPicture(), BUCKET_COUNT - 1)
    ensures forall i {:trigger InitPicture()[i]} :: 0 <= i < NODE_COUNT ==>
              InitPicture()[i] == if i == Root(BUCKET_COUNT - 1) then Free else Absent
    ensures forall j {:trigger BitOf(InitPicture(), BUCKET_COUNT - 1, j)} :: 0 <= j < INNER_COUNT ==>
              !BitOf(InitPicture(), BUCKET_COUNT - 1, j)
  {
    var t, b := InitPicture(), BUCKET_COUNT - 1;
    RootInRange(b);
    hide Pow2, Root;
    forall i | 0 <= i < NODE_COUNT
      ensures NodeOk(t, Root(b), i)
    {
    }
    forall j | 0 <= j < INNER_COUNT
      ensures !BitOf(t, b, j)
    {
      InnerNodes(j);
    }
  }

  lemma OneListed(lists: seq<seq<nat>>, t: seq<Kind>, b: nat, i: nat)
    requires |t| == NODE_COUNT && |lists| == BUCKET_COUNT && b < BUCKET_COUNT && i < NODE_COUNT && Level(i) == b
    requires forall c {:trigger lists[c]} :: 0 <= c < BUCKET_COUNT ==> lists[c] == if c == b then [i] else []
    requires forall j {:trigger t[j]} :: 0 <= j < NODE_COUNT ==> (t[j].Free? <==> j == i)
    ensures ListsOk(lists, t)
  {
    hide Level, Pow2;
  }

  lemma InitOk()
    ensures Inv(InitState(), InitPicture())
  {
    hide Level, Addr, Size, Pow2, Root, InitState, InitPicture, BitOf, WellFormed, ListsOk;
    var s, t, b := InitState(), InitPicture(), BUCKET_COUNT - 1;
    RootInRange(b);
    RootLevel(b);
    RootAddr(b);
    InitLists();
    InitTree();
    OneListed(s.lists, t, b, Root(b));
  }

  // ---------- reserving memory ----------

  lemma ReserveKeeps(s: State, t: seq<Kind>, v: nat, grant: nat -> bool)
    requires Core(s, t)
    ensures var r := Reserve(s, v, grant);
            && Core(r.s, t)
            && r.s.top >= s.top
            && (r.ok ==> r.s == s.(top := r.s.top) && v <= r.s.top)
            && (!r.ok ==> r.s == s && !grant(v))
  {
  }

  lemma HeadersMonotone(headers: map<nat, SizeT>, top: nat, top': nat, t: seq<Kind>, work: int)
    requires |t| == NODE_COUNT && HeadersOk(headers, top, t, work) && top <= top'
    ensures HeadersOk(headers, top', t, work)
  {
    forall i | 0 <= i < NODE_COUNT && t[i].Live? && i != work
      ensures HeaderOk(headers, top', i)
    {
      assert HeaderOk(headers, top, i);
    }
  }

  // ---------- the bits ----------

  lemma FlippedBits(bits: seq<bool>, t: seq<Kind>, limit: nat, u: seq<Kind>, limit': nat, p: nat)
    requires |t| == |u| == NODE_COUNT && limit < BUCKET_COUNT && limit' < BUCKET_COUNT
    requires BitsOk(bits, t, limit) && p < INNER_COUNT
    requires forall j {:trigger BitOf(u, limit', j)} :: 0 <= j < INNER_COUNT ==>
               (BitOf(u, limit', j) <==> BitOf(t, limit, j) != (j == p))
    ensures BitsOk(bits[p := !bits[p]], u, limit')
  {
  }

  lemma SameBits(bits: seq<bool>, t: seq<Kind>, limit: nat, u: seq<Kind>, limit': nat)
    requires |t| == |u| == NODE_COUNT && limit < BUCKET_COUNT && limit' < BUCKET_COUNT
    requires BitsOk(bits, t, limit)
    requires forall j {:trigger BitOf(u, limit', j)} :: 0 <= j < INNER_COUNT ==>
               (BitOf(u, limit', j) <==> BitOf(t, limit, j))
    ensures BitsOk(bits, u, limit')
  {
  }

  // Facts about the node above the root, needed wherever bits are compared.
  lemma AboveRoot(t: seq<Kind>, limit: nat)
    requires WellFormed(t, limit) && limit > 0
    ensures Root(limit) == 2 * Root(limit - 1) + 1 && Root(limit) + 1 < NODE_COUNT
    ensures Root(limit - 1) < INNER_COUNT
    ensures t[Root(limit - 1)].Absent? && t[Root(limit) + 1].Absent?
  {
    RootLevel(limit);
    RootInRange(limit - 1);
    GrowOk(t, limit);
  }

  lemma GrowFreeBit(t: seq<Kind>, limit: nat, j: nat)
    requires WellFormed(t, limit) && limit > 0 && t[Root(limit)].Free? && j < INNER_COUNT
    requires Root(limit) + 1 < NODE_COUNT
    ensures BitOf(GrowPicture(t, limit), limit - 1, j) <==> BitOf(t, limit, j)
  {
    AboveRoot(t, limit);
    InnerNodes(j);
    assert NodeOk(t, Root(limit), j);
    if !t[j].Absent? && j != Root(limit) {
      PresentIsWithinRoot(t, limit, j);
      AboveIsSplit(t, limit, j, Root(limit));
    }
    GrowOk(t, limit);
    if limit > 1 { AboveRoot(GrowPicture(t, limit), limit - 1); }
  }

  lemma GrowUsedBit(t: seq<Kind>, limit: nat, j: nat)
    requires WellFormed(t, limit) && limit > 0 && !t[Root(limit)].Free? && j < INNER_COUNT
    requires Root(limit) + 1 < NODE_COUNT
    ensures BitOf(GrowPicture(t, limit), limit - 1, j)
            <==> BitOf(t, limit, j) != (limit > 1 && j == Root(limit - 2))
  {
    AboveRoot(t, limit);
    InnerNodes(j);
    assert NodeOk(t, Root(limit), j);
    GrowOk(t, limit);
    if limit > 1 { AboveRoot(GrowPicture(t, limit), limit - 1); }
  }

  // Taking a free block or releasing a live one toggles exactly the bit of its parent.
  lemma TakeReleaseBit(t: seq<Kind>, limit: nat, i: nat, k: Kind, j: nat)
    requires WellFormed(t, limit) && i < NODE_COUNT && j < INNER_COUNT
    requires if k.Live? then t[i].Free? else k.Free? && t[i].Live?
    ensures BitOf(t[i := k], limit, j) <==> BitOf(t, limit, j) != (i > 0 && j == Parent(i))
  {
    if limit > 0 { AboveRoot(t, limit); }
    RootInRange(limit);
    InnerNodes(j);
    assert NodeOk(t, Root(limit), j);
    assert NodeOk(t, Root(limit), i);
  }

  lemma SplitBit(t: seq<Kind>, limit: nat, i: nat, j: nat)
    requires WellFormed(t, limit) && 2 * i + 2 < NODE_COUNT && t[i].Live? && j < INNER_COUNT
    ensures BitOf(SplitPicture(t, i), limit, j) <==> BitOf(t, limit, j) != (j == i)
  {
    if limit > 0 { AboveRoot(t, limit); }
    RootInRange(limit);
    InnerNodes(j);
    ChildrenAbsent(t, limit, i);
    assert NodeOk(t, Root(limit), j);
  }

  lemma MergeBit(t: seq<Kind>, limit: nat, i: nat, j: nat)
    requires WellFormed(t, limit) && 0 < i < NODE_COUNT && i != Root(limit) && j < INNER_COUNT
    requires t[i].Live? && Buddy(i) < NODE_COUNT && t[Buddy(i)].Free?
    ensures BitOf(MergePicture(t, i), limit, j) <==> BitOf(t, limit, j) != (j == Parent(i))
  {
    if limit > 0 { AboveRoot(t, limit); }
    RootInRange(limit);
    InnerNodes(j);
    BuddyInRange(i);
    assert NodeOk(t, Root(limit), i);
    assert NodeOk(t, Root(limit), j);
    PresentIsWithinRoot(t, limit, Parent(i));
    MergeOk(t, limit, i);
  }

  // ---------- the free lists under push, pop and unlink ----------

  lemma PushKeepsLists(lists: seq<seq<nat>>, t: seq<Kind>, u: seq<Kind>, b: nat, i: nat)
    requires |t| == |u| == NODE_COUNT && ListsOk(lists, t)
    requires i < NODE_COUNT && !t[i].Free? && u[i].Free? && Level(i) == b < BUCKET_COUNT
    requires forall j :: 0 <= j < NODE_COUNT && j != i ==> (t[j].Free? <==> u[j].Free?)
    ensures ListsOk(lists[b := lists[b] + [i]], u)
  {
    assert i !in lists[b];
  }

  lemma RemoveKeepsLists(lists: seq<seq<nat>>, t: seq<Kind>, u: seq<Kind>, b: nat, i: nat, shorter: seq<nat>)
    requires |t| == |u| == NODE_COUNT && ListsOk(lists, t)
    requires i < NODE_COUNT && t[i].Free? && !u[i].Free? && Level(i) == b < BUCKET_COUNT
    requires forall j :: 0 <= j < NODE_COUNT && j != i ==> (t[j].Free? <==> u[j].Free?)
    requires Distinct(shorter) && forall j :: j in shorter <==> j in lists[b] && j != i
    ensures ListsOk(lists[b := shorter], u)
  {
  }

  // ---------- growth ----------

  lemma OnlyNodeAtRootLevel(t: seq<Kind>, limit: nat, i: nat)
    requires WellFormed(t, limit) && i < NODE_COUNT && !t[i].Absent?
    ensures Level(i) >= limit
    ensures Level(i) == limit ==> i == Root(limit)
  {
    RootLevel(limit);
    PresentIsWithinRoot(t, limit, i);
    WithinNested(i, Root(limit));
  }

  // The bit above the root tells whether the root is free.
  lemma RootBit(s: State, t: seq<Kind>)
    requires Core(s, t) && s.limit > 0
    ensures Root(s.limit) > 0 && Parent(Root(s.limit)) == Root(s.limit - 1) < INNER_COUNT
    ensures ParentIsSplit(s.bits, Root(s.limit)) <==> !t[Root(s.limit)].Free?
  {
    RootLevel(s.limit);
    RootInRange(s.limit - 1);
    GrowOk(t, s.limit);
  }

  // When the root is free it is the one element of its list: unlinking base_ptr empties that list.
  lemma FreeRootIsAlone(lists: seq<seq<nat>>, t: seq<Kind>, limit: nat)
    requires WellFormed(t, limit) && ListsOk(lists, t) && t[Root(limit)].Free?
    ensures lists[limit] == [Root(limit)]
  {
    RootLevel(limit);
    var l := lists[limit];
    assert Root(limit) in l;
    forall k | 0 <= k < |l|
      ensures l[k] == Root(limit)
    {
      assert l[k] in l;
      OnlyNodeAtRootLevel(t, limit, l[k]);
    }
    AtMostOne(l, Root(limit));
  }

  lemma AtMostOne(l: seq<nat>, x: nat)
    requires Distinct(l) && x in l && forall k :: 0 <= k < |l| ==> l[k] == x
    ensures l == [x]
  {
    assert l[0] == l[|l| - 1];
  }

  lemma AboveRootEmpty(lists: seq<seq<nat>>, t: seq<Kind>, limit: nat, b: nat)
    requires WellFormed(t, limit) && ListsOk(lists, t) && b < limit
    ensures lists[b] == []
  {
    if lists[b] != [] {
      var i := lists[b][0];
      assert i in lists[b];
      OnlyNodeAtRootLevel(t, limit, i);
    }
  }

  lemma GrowFreeIs(s: State)
    requires Shape(s) && s.limit > 0 && s.lists[s.limit] == [Root(s.limit)]
    ensures GrowFree(s) == s.(limit := s.limit - 1, lists := s.lists[s.limit := []][s.limit - 1 := [Root(s.limit - 1)]])
  {
  }

  lemma GrowFreeBits(bits: seq<bool>, t: seq<Kind>, limit: nat)
    requires WellFormed(t, limit) && BitsOk(bits, t, limit) && limit > 0 && t[Root(limit)].Free?
    requires Root(limit) + 1 < NODE_COUNT
    ensures BitsOk(bits, GrowPicture(t, limit), limit - 1)
  {
    var u := GrowPicture(t, limit);
    forall j | 0 <= j < INNER_COUNT
      ensures BitOf(u, limit - 1, j) <==> BitOf(t, limit, j)
    {
      GrowFreeBit(t, limit, j);
    }
    SameBits(bits, t, limit, u, limit - 1);
  }

  lemma GrowFreeKeeps(s: State, t: seq<Kind>)
    requires Core(s, t) && s.limit > 0 && t[Root(s.limit)].Free?
    ensures Root(s.limit) + 1 < NODE_COUNT
    ensures Core(GrowFree(s), GrowPicture(t, s.limit))
    ensures GrowFree(s) == s.(limit := s.limit - 1, lists := s.lists[s.limit := []][s.limit - 1 := [Root(s.limit - 1)]])
  {
    hide Parent, Level, Addr, Size, Pow2, Root;
    AboveRoot(t, s.limit);
    GrowOk(t, s.limit);
    FreeRootIsAlone(s.lists, t, s.limit);
    GrowFreeIs(s);
    GrowFreeBits(s.bits, t, s.limit);
    GrowFreeLists(s.lists, t, s.limit);
    GrowFreeBacked(s.top, t, s.limit);
  }

  lemma GrowFreeBacked(top: nat, t: seq<Kind>, limit: nat)
    requires WellFormed(t, limit) && limit > 0 && t[Root(limit)].Free? && Root(limit) + 1 < NODE_COUNT
    requires FreeBacked(top, t)
    ensures FreeBacked(top, GrowPicture(t, limit))
  {
    RootAddr(limit);
    RootAddr(limit - 1);
  }

  lemma GrowFreeLists(lists: seq<seq<nat>>, t: seq<Kind>, limit: nat)
    requires WellFormed(t, limit) && ListsOk(lists, t) && limit > 0 && t[Root(limit)].Free?
    requires Root(limit) + 1 < NODE_COUNT
    ensures ListsOk(lists[limit := []][limit - 1 := [Root(limit - 1)]], GrowPicture(t, limit))
  {
    AboveRoot(t, limit);
    RootLevel(limit);
    RootLevel(limit - 1);
    FreeRootIsAlone(lists, t, limit);
    AboveRootEmpty(lists, t, limit, limit - 1);
    var mid := t[Root(limit) := Absent];
    RemoveKeepsLists(lists, t, mid, limit, Root(limit), []);
    PushKeepsLists(lists[limit := []], mid, mid[Root(limit - 1) := Free], limit - 1, Root(limit - 1));
  }

  // The address the program computes for the root's right buddy.
  lemma RightOfRoot(limit: nat)
    requires 0 < limit < BUCKET_COUNT
    ensures Root(limit) + 1 < NODE_COUNT && Level(Root(limit) + 1) == limit && Pow2(limit) <= Root(limit) + 2
    ensures PtrForNode(Root(limit) + 1, limit) == Addr(Root(limit) + 1) == BlockSize(limit)
  {
    hide Level, Addr, Pow2, PtrForNode, Parent, Root;
    RootInRange(limit - 1);
    InnerNodes(Root(limit - 1));
    ChildGeometry(Root(limit - 1));
    RootAddr(limit - 1);
    RootLevel(limit);
    var right := Root(limit) + 1;
    assert Buddy(Root(limit)) == right;
    BuddyLevel(Root(limit));
    LevelInRange(right);
    LevelBounds(right);
    PtrForNodeIsAddr(right);
  }

  lemma GrowUsedIs(s: State)
    requires Shape(s) && s.limit > 0 && s.lists[s.limit - 1] == [] && Root(s.limit - 1) < 2 * |s.bits| + 1
    ensures GrowUsed(s) == s.(limit := s.limit - 1, bits := FlipUnlessTop(s.bits, Root(s.limit - 1)),
                              lists := s.lists[s.limit := s.lists[s.limit] + [Root(s.limit) + 1]])
  {
    assert GrowUsed(s).lists == s.lists[s.limit := s.lists[s.limit] + [Root(s.limit) + 1]];
  }

  lemma GrowUsedKeeps(s: State, t: seq<Kind>)
    requires Core(s, t) && s.limit > 0 && !t[Root(s.limit)].Free?
    requires Root(s.limit) + 1 < NODE_COUNT && Addr(Root(s.limit) + 1) + LIST_T_SIZE <= s.top
    ensures Core(GrowUsed(s), GrowPicture(t, s.limit))
    ensures GrowUsed(s).lists == s.lists[s.limit := s.lists[s.limit] + [Root(s.limit) + 1]]
    ensures GrowUsed(s) == s.(limit := s.limit - 1, bits := GrowUsed(s).bits, lists := GrowUsed(s).lists)
  {
    hide Parent, Level, Addr, Size;
    AboveRoot(t, s.limit);
    GrowOk(t, s.limit);
    GrowUsedBits(s.bits, t, s.limit);
    AboveRootEmpty(s.lists, t, s.limit, s.limit - 1);
    GrowUsedIs(s);
    GrowUsedLists(s.lists, t, s.limit);
  }

  lemma GrowUsedLists(lists: seq<seq<nat>>, t: seq<Kind>, limit: nat)
    requires WellFormed(t, limit) && ListsOk(lists, t) && limit > 0 && !t[Root(limit)].Free?
    requires Root(limit) + 1 < NODE_COUNT
    ensures ListsOk(lists[limit := lists[limit] + [Root(limit) + 1]], GrowPicture(t, limit))
  {
    AboveRoot(t, limit);
    RightOfRoot(limit);
    PushKeepsLists(lists, t, GrowPicture(t, limit), limit, Root(limit) + 1);
  }

  lemma GrowUsedBits(bits: seq<bool>, t: seq<Kind>, limit: nat)
    requires WellFormed(t, limit) && BitsOk(bits, t, limit) && limit > 0 && !t[Root(limit)].Free?
    requires Root(limit) + 1 < NODE_COUNT && Root(limit - 1) < 2 * |bits| + 1
    ensures BitsOk(FlipUnlessTop(bits, Root(limit - 1)), GrowPicture(t, limit), limit - 1)
  {
    var u := GrowPicture(t, limit);
    forall j | 0 <= j < INNER_COUNT
      ensures BitOf(u, limit - 1, j) <==> BitOf(t, limit, j) != (limit > 1 && j == Root(limit - 2))
    {
      GrowUsedBit(t, limit, j);
    }
    if limit > 1 {
      RootLevel(limit - 1);
      RootInRange(limit - 2);
      FlippedBits(bits, t, limit, u, limit - 1, Root(limit - 2));
    } else {
      SameBits(bits, t, limit, u, limit - 1);
    }
  }

  // ---------- taking, splitting, merging, releasing ----------

  lemma PopFlipKeeps(s: State, t: seq<Kind>, b: nat)
    requires Core(s, t) && b < BUCKET_COUNT && s.lists[b] != []
    ensures var i := s.lists[b][|s.lists[b]| - 1];
            && i < NODE_COUNT && t[i].Free? && Level(i) == b
            && Core(Pop(s, b).(bits := FlipUnlessTop(s.bits, i)), t[i := Live])
  {
    var l := s.lists[b];
    var i := l[|l| - 1];
    assert i in l;
    InnerNodes(i);
    PopElements(l);
    AllocateOk(t, s.limit, i);
    RemoveKeepsLists(s.lists, t, t[i := Live], b, i, DropLast(l));
    TakeReleaseBits(s.bits, t, s.limit, i, Live);
  }

  lemma TakeReleaseBits(bits: seq<bool>, t: seq<Kind>, limit: nat, i: nat, k: Kind)
    requires WellFormed(t, limit) && BitsOk(bits, t, limit) && i < NODE_COUNT && i < 2 * |bits| + 1
    requires if k.Live? then t[i].Free? else k.Free? && t[i].Live?
    ensures BitsOk(FlipUnlessTop(bits, i), t[i := k], limit)
  {
    var u := t[i := k];
    forall j | 0 <= j < INNER_COUNT
      ensures BitOf(u, limit, j) <==> BitOf(t, limit, j) != (i > 0 && j == Parent(i))
    {
      TakeReleaseBit(t, limit, i, k, j);
    }
    if i > 0 {
      BuddyInRange(i);
      FlippedBits(bits, t, limit, u, limit, Parent(i));
    } else {
      SameBits(bits, t, limit, u, limit);
    }
  }

  lemma SplitBits(bits: seq<bool>, t: seq<Kind>, limit: nat, i: nat)
    requires WellFormed(t, limit) && BitsOk(bits, t, limit)
    requires i < INNER_COUNT && 2 * i + 2 < NODE_COUNT && t[i].Live?
    ensures BitsOk(bits[i := !bits[i]], SplitPicture(t, i), limit)
  {
    forall j | 0 <= j < INNER_COUNT
      ensures BitOf(SplitPicture(t, i), limit, j) <==> BitOf(t, limit, j) != (j == i)
    {
      SplitBit(t, limit, i, j);
    }
    FlippedBits(bits, t, limit, SplitPicture(t, i), limit, i);
  }

  lemma SplitKeeps(s: State, t: seq<Kind>, i: nat, b: nat)
    requires Core(s, t) && i < INNER_COUNT && b + 1 < BUCKET_COUNT && Level(i) == b
    requires 2 * i + 2 < NODE_COUNT && t[i].Live?
    requires Addr(2 * i + 2) + LIST_T_SIZE <= s.top
    ensures Core(SplitStep(s, i, b), SplitPicture(t, i))
  {
    hide Parent, Level, Addr, Size;
    ParentOfChild(i);
    ChildGeometry(i);
    ChildrenAbsent(t, s.limit, i);
    SplitOk(t, s.limit, i);
    PushKeepsLists(s.lists, t, SplitPicture(t, i), b + 1, 2 * i + 2);
    SplitBits(s.bits, t, s.limit, i);
  }

  // The bit above a live block: 1 above the root, and below it exactly when the buddy is free.
  lemma BitAboveLive(t: seq<Kind>, limit: nat, i: nat)
    requires WellFormed(t, limit) && 0 < i < NODE_COUNT && t[i].Live?
    ensures Parent(i) < INNER_COUNT && Buddy(i) < NODE_COUNT
    ensures BitOf(t, limit, Parent(i)) <==> i == Root(limit) || t[Buddy(i)].Free?
    ensures i == Root(limit) ==> limit > 0
  {
    hide Level, Addr, Pow2;
    BuddyInRange(i);
    RootLevel(limit);
    OnlyNodeAtRootLevel(t, limit, i);
    assert NodeOk(t, Root(limit), i);
    if i == Root(limit) {
      RootIsZero();
      AboveRoot(t, limit);
    }
  }

  lemma RootIsZero()
    ensures Root(0) == 0
  {
  }

  // One bit is enough: once the bit has been flipped, it says whether the buddy is a whole free block,
  // and that block is then linked in the list of this very bucket.
  lemma FlippedBitMeansBuddyInUse(s: State, t: seq<Kind>, i: nat)
    requires Core(s, t) && 0 < i < NODE_COUNT && t[i].Live?
    ensures Buddy(i) < NODE_COUNT && Parent(i) < INNER_COUNT && Level(i) < BUCKET_COUNT
    ensures i != Root(s.limit) ==> (ParentIsSplit(Flip(s.bits, i), i) <==> !t[Buddy(i)].Free?)
    ensures i != Root(s.limit) && t[Buddy(i)].Free? ==> Buddy(i) in s.lists[Level(i)]
    ensures i == Root(s.limit) <==> Level(i) == s.limit
    ensures i == Root(s.limit) ==> !ParentIsSplit(Flip(s.bits, i), i)
  {
    BuddyInRange(i);
    BuddyLevel(i);
    LevelInRange(i);
    RootLevel(s.limit);
    OnlyNodeAtRootLevel(t, s.limit, i);
    BitAboveLive(t, s.limit, i);
    hide Level, Addr, Pow2, Root, Parent, Buddy, BitOf, WellFormed;
    assert s.bits[Parent(i)] <==> BitOf(t, s.limit, Parent(i));
  }

  lemma MergeBits(bits: seq<bool>, t: seq<Kind>, limit: nat, i: nat)
    requires WellFormed(t, limit) && BitsOk(bits, t, limit)
    requires 0 < i < NODE_COUNT && t[i].Live? && i != Root(limit)
    requires Buddy(i) < NODE_COUNT && t[Buddy(i)].Free? && Parent(i) < INNER_COUNT
    ensures BitsOk(Flip(bits, i), MergePicture(t, i), limit)
  {
    forall j | 0 <= j < INNER_COUNT
      ensures BitOf(MergePicture(t, i), limit, j) <==> BitOf(t, limit, j) != (j == Parent(i))
    {
      MergeBit(t, limit, i, j);
    }
    FlippedBits(bits, t, limit, MergePicture(t, i), limit, Parent(i));
  }

  lemma MergeLists(lists: seq<seq<nat>>, t: seq<Kind>, limit: nat, i: nat, b: nat)
    requires WellFormed(t, limit) && ListsOk(lists, t)
    requires 0 < i < NODE_COUNT && t[i].Live? && i != Root(limit) && Level(i) == b < BUCKET_COUNT
    requires Buddy(i) < NODE_COUNT && t[Buddy(i)].Free?
    ensures ListsOk(lists[b := Without(lists[b], Buddy(i))], MergePicture(t, i))
  {
    BuddyInRange(i);
    assert NodeOk(t, Root(limit), i);
    assert Level(Buddy(i)) == b;
    WithoutElements(lists[b], Buddy(i));
    RemoveKeepsLists(lists, t, MergePicture(t, i), b, Buddy(i), Without(lists[b], Buddy(i)));
  }

  lemma MergeKeeps(s: State, t: seq<Kind>, i: nat, b: nat)
    requires Core(s, t) && 0 < i < NODE_COUNT && t[i].Live? && i != Root(s.limit) && Level(i) == b < BUCKET_COUNT
    requires Buddy(i) < NODE_COUNT && t[Buddy(i)].Free? && Parent(i) < INNER_COUNT
    ensures Core(Unlink(s.(bits := Flip(s.bits, i)), b, Buddy(i)), MergePicture(t, i))
  {
    hide Parent, Level, Addr, Size;
    MergeOk(t, s.limit, i);
    MergeBits(s.bits, t, s.limit, i);
    MergeLists(s.lists, t, s.limit, i, b);
  }

  lemma ReleaseKeeps(s: State, t: seq<Kind>, i: nat, b: nat)
    requires Core(s, t) && i < NODE_COUNT && t[i].Live? && Level(i) == b < BUCKET_COUNT
    requires i != Root(s.limit) ==> i > 0 && Buddy(i) < NODE_COUNT && !t[Buddy(i)].Free?
    requires Addr(i) + LIST_T_SIZE <= s.top
    ensures i < 2 * INNER_COUNT + 1
    ensures Core(Push(s.(bits := FlipUnlessTop(s.bits, i)), b, i), t[i := Free])
  {
    InnerNodes(i);
    TakeReleaseBits(s.bits, t, s.limit, i, Free);
    ReleaseOk(t, s.limit, i);
    PushKeepsLists(s.lists, t, t[i := Free], b, i);
  }
}
