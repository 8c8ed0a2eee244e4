/** One snapshot of the program's memory and statics, what it represents, and how each step of malloc_1 and free_1
    carries the representation from one value-level state to the next. */
module BuddyImage {
  import opened Geometry
  import opened FreeLists
  import opened Tree
  import opened BuddySpec
  import opened BuddyInvariant
  import opened BuddyMallocProof
  import opened BuddyFreeProof
  import opened Memory
  import opened StatusBits
  import opened BuddyLayout

  ghost predicate BytesMatch(bytes: seq<bv8>, bits: seq<bool>) {
    && |bits| == INNER_COUNT
    && INNER_COUNT <= 8 * |bytes|
    && forall j :: 0 <= j < INNER_COUNT ==> (Bit(bytes, j) <==> bits[j])
  }

  lemma FlipMatches(bytes: seq<bv8>, bits: seq<bool>, i: nat)
    requires BytesMatch(bytes, bits) && 0 < i && Parent(i) < INNER_COUNT
    ensures BytesMatch(ToggleBit(bytes, Parent(i)), Flip(bits, i))
  {
    forall j | 0 <= j < INNER_COUNT
      ensures Bit(ToggleBit(bytes, Parent(i)), j) <==> Flip(bits, i)[j]
    {
      ToggleOne(bytes, Parent(i), j);
    }
    hide Bit, ToggleBit;
  }

  lemma BytesCover(bytes: seq<bv8>, bits: seq<bool>)
    requires BytesMatch(bytes, bits)
    ensures INNER_COUNT <= 8 * |bytes|
  {
  }

  datatype Image = Image(cells: seq<int>, rings: Rings, bytes: seq<bv8>, limit: nat, maxPtr: int)

  // The image stands for state s, of which t is the picture.
  ghost predicate Represents(m: Image, s: State, t: seq<Kind>) {
    && Family(m.cells, m.rings)
    && m.maxPtr == HEAP + s.top && |m.cells| == m.maxPtr
    && m.limit == s.limit
    && Core(s, t)
    && BytesMatch(m.bytes, s.bits)
    && RingsMatch(m.rings, s.lists, s.limit)
  }

  // In addition every live block but the one being worked on has its header, and the words it had in `before`.
  ghost predicate Orderly(m: Image, s: State, t: seq<Kind>, work: int, before: seq<int>) {
    && Represents(m, s, t)
    && HeadersOk(s.headers, s.top, t, work)
    && Preserved(before, m.cells, s.headers)
  }

  // ---------- update_max_ptr ----------

  lemma ReserveDone(m: Image, s: State, t: seq<Kind>, work: int, before: seq<int>, cells: seq<int>, top: nat)
    requires Orderly(m, s, t, work, before)
    requires m.cells <= cells && |cells| == HEAP + top && s.top <= top && Family(cells, m.rings)
    ensures Orderly(m.(cells := cells, maxPtr := HEAP + top), s.(top := top), t, work, before)
  {
    hide Level, Addr, Size, Pow2, Parent, BitsOk, ListsOk, BytesMatch, RingsMatch;
    SbrkPreserves(m.cells, cells, s.headers, s.top, t, work);
    PreservedTransitive(before, m.cells, cells, s.headers);
    HeadersMonotone(s.headers, s.top, top, t, work);
  }

  // ---------- growth ----------

  lemma GrowFreePlan(rings: Rings, s: State, t: seq<Kind>, size: int)
    requires Core(s, t) && RingsMatch(rings, s.lists, s.limit) && size == HEAP + s.top
    requires s.limit > 0 && t[Root(s.limit)].Free?
    ensures exists h :: h in rings && HEAP in rings[h]
    ensures var head := Head(s.limit - 1);
            var r1 := Unlinked(rings, HEAP);
            var r2 := r1[head := []];
            && NewNode(size, r1, head) && NewNode(size, r2, HEAP)
            && RingsMatch(r2[head := r2[head] + [HEAP]], GrowFree(s).lists, s.limit - 1)
  {
    hide Parent, Level, Addr, Size, Pow2, Root, BitsOk, ListsOk, RingsMatch;
    var limit := s.limit;
    var l1 := s.lists[limit := []];
    GrowFreeUnlink(rings, s, t);
    AboveRootEmpty(s.lists, t, limit, limit - 1);
    assert l1[limit - 1 := []] == l1;
    InitMatches(Unlinked(rings, HEAP), l1, limit);
    HeadIsNew(Unlinked(rings, HEAP), l1, limit, limit - 1, size);
    GrowFreePush(Unlinked(rings, HEAP)[Head(limit - 1) := []], s, t, size);
  }

  lemma GrowFreeUnlink(rings: Rings, s: State, t: seq<Kind>)
    requires Core(s, t) && RingsMatch(rings, s.lists, s.limit) && s.limit > 0 && t[Root(s.limit)].Free?
    ensures exists h :: h in rings && HEAP in rings[h]
    ensures RingsMatch(Unlinked(rings, HEAP), s.lists[s.limit := []], s.limit)
    ensures BlockPtr(Root(s.limit)) == HEAP
  {
    hide Parent, Level, Addr, Size, Pow2, Root, BitsOk, ListsOk, RingsMatch;
    RootAddr(s.limit);
    FreeRootIsAlone(s.lists, t, s.limit);
    assert Without([Root(s.limit)], Root(s.limit)) == [];
    UnlinkMatches(rings, s.lists, t, s.limit, s.limit, Root(s.limit));
  }

  lemma GrowFreePush(rings: Rings, s: State, t: seq<Kind>, size: int)
    requires Core(s, t) && s.limit > 0 && t[Root(s.limit)].Free? && size == HEAP + s.top
    requires s.lists[s.limit - 1] == [] && RingsMatch(rings, s.lists[s.limit := []], s.limit - 1)
    ensures NewNode(size, rings, HEAP) && Head(s.limit - 1) in rings
    ensures RingsMatch(rings[Head(s.limit - 1) := rings[Head(s.limit - 1)] + [HEAP]], GrowFree(s).lists, s.limit - 1)
  {
    hide Parent, Level, Addr, Size, Pow2, Root, BitsOk, ListsOk, RingsMatch;
    var limit, up := s.limit, Root(s.limit - 1);
    var l1 := s.lists[limit := []];
    RootAddr(limit - 1);
    GrowFreeKeeps(s, t);
    assert l1[limit - 1] + [up] == [up];
    GrowOk(t, limit);
    NewlyFreeElsewhere(l1, GrowPicture(t, limit), limit - 1, limit - 1, up);
    FreeIsBacked(GrowFree(s), GrowPicture(t, limit), up);
    BlockIsNew(rings, l1, limit - 1, up, size);
    PushMatches(rings, l1, limit - 1, limit - 1, up);
  }

  lemma FreeIsBacked(s: State, t: seq<Kind>, i: nat)
    requires Core(s, t) && i < NODE_COUNT && t[i].Free?
    ensures Addr(i) + LIST_T_SIZE <= s.top
  {
  }

  lemma GrowUsedPlan(rings: Rings, s: State, t: seq<Kind>, size: int)
    requires Core(s, t) && RingsMatch(rings, s.lists, s.limit) && size == HEAP + s.top
    requires s.limit > 0 && !t[Root(s.limit)].Free?
    requires Root(s.limit) + 1 < NODE_COUNT && Addr(Root(s.limit) + 1) + LIST_T_SIZE <= s.top
    ensures var right := BlockPtr(Root(s.limit) + 1);
            var head := Head(s.limit);
            && head in rings && NewNode(size, rings, right) && ClearOf(t, -1, right)
            && var r1 := rings[head := rings[head] + [right]];
               && RingsMatch(r1, GrowUsed(s).lists, s.limit)
               && NewNode(size, r1, Head(s.limit - 1))
               && RingsMatch(r1[Head(s.limit - 1) := []], GrowUsed(s).lists, s.limit - 1)
  {
    hide Parent, Level, Addr, Size, Pow2, Root, BitsOk, ListsOk, RingsMatch;
    var right, limit := Root(s.limit) + 1, s.limit;
    var u := GrowPicture(t, limit);
    GrowUsedKeeps(s, t);
    GrowStepLive(t, limit);
    NewlyFreeElsewhere(s.lists, u, limit - 1, limit, right);
    BlockIsNew(rings, s.lists, limit, right, size);
    BlockIsClear(u, limit - 1, right, -1);
    assert ClearOf(t, -1, BlockPtr(right));
    PushMatches(rings, s.lists, limit, limit, right);
    var r1 := rings[Head(limit) := rings[Head(limit)] + [BlockPtr(right)]];
    HeadIsNew(r1, GrowUsed(s).lists, limit, limit - 1, size);
    InitMatches(r1, GrowUsed(s).lists, limit);
    AboveRootEmpty(s.lists, t, limit, limit - 1);
    assert GrowUsed(s).lists[limit - 1 := []] == GrowUsed(s).lists;
  }

  lemma GrowFreeDone(m: Image, s: State, t: seq<Kind>, before: seq<int>, cells: seq<int>)
    requires Orderly(m, s, t, -1, before) && s.limit > 0 && t[Root(s.limit)].Free?
    requires |cells| == |m.cells|
    requires var head := Head(s.limit - 1);
             var r2 := Unlinked(m.rings, HEAP)[head := []];
             Family(cells, r2[head := r2[head] + [HEAP]])
    ensures Root(s.limit) + 1 < NODE_COUNT
    ensures var head := Head(s.limit - 1);
            var r2 := Unlinked(m.rings, HEAP)[head := []];
            Orderly(m.(cells := cells, rings := r2[head := r2[head] + [HEAP]], limit := s.limit - 1),
                    GrowFree(s), GrowPicture(t, s.limit), -1, before)
    ensures SameLive(t, GrowPicture(t, s.limit))
  {
    hide Level, Addr, Size, Pow2, Parent, BitsOk, ListsOk, BytesMatch, RingsMatch, Unlinked;
    GrowFreePlan(m.rings, s, t, |m.cells|);
    GrowFreeKeeps(s, t);
    GrowStepLive(t, s.limit);
    NothingToPreserve(m.cells, cells, s.headers, s.top, t, s.limit);
    PreservedTransitive(before, m.cells, cells, s.headers);
    HeadersSameLive(s.headers, s.top, s.top, t, GrowPicture(t, s.limit));
  }

  // Flipping the parent's bit of every node but node 0.
  function FlipBytes(bytes: seq<bv8>, i: nat): seq<bv8>
    requires i > 0 ==> Parent(i) < 8 * |bytes|
  {
    if i == 0 then bytes else ToggleBit(bytes, Parent(i))
  }

  lemma FlipBytesMatch(bytes: seq<bv8>, bits: seq<bool>, i: nat)
    requires BytesMatch(bytes, bits) && i < NODE_COUNT
    ensures i > 0 ==> Parent(i) < 8 * |bytes|
    ensures i < 2 * |bits| + 1 && BytesMatch(FlipBytes(bytes, i), FlipUnlessTop(bits, i))
  {
    InnerNodes(i);
    if i > 0 {
      BuddyInRange(i);
      FlipMatches(bytes, bits, i);
    }
  }

  lemma GrowUsedDone(m: Image, s: State, t: seq<Kind>, before: seq<int>, c1: seq<int>, c2: seq<int>, bytes: seq<bv8>)
    requires Orderly(m, s, t, -1, before) && s.limit > 0 && !t[Root(s.limit)].Free?
    requires Root(s.limit) + 1 < NODE_COUNT && Addr(Root(s.limit) + 1) + LIST_T_SIZE <= s.top
    requires BytesMatch(bytes, GrowUsed(s).bits) && Head(s.limit) in m.rings
    requires var right := BlockPtr(Root(s.limit) + 1);
             var r1 := m.rings[Head(s.limit) := m.rings[Head(s.limit)] + [right]];
             && OnlyLinks(m.cells, c1, m.rings, right)
             && OnlyLinks(c1, c2, r1, Head(s.limit - 1))
             && Family(c2, r1[Head(s.limit - 1) := []])
    ensures var right := BlockPtr(Root(s.limit) + 1);
            var r1 := m.rings[Head(s.limit) := m.rings[Head(s.limit)] + [right]];
            Orderly(Image(c2, r1[Head(s.limit - 1) := []], bytes, s.limit - 1, m.maxPtr),
                    GrowUsed(s), GrowPicture(t, s.limit), -1, before)
    ensures SameLive(t, GrowPicture(t, s.limit))
  {
    hide Level, Addr, Size, Pow2, Parent, BitsOk, ListsOk, BytesMatch, RingsMatch, OnlyLinks, Family;
    var right, limit := Root(s.limit) + 1, s.limit;
    var u := GrowPicture(t, limit);
    GrowUsedPlan(m.rings, s, t, |m.cells|);
    GrowUsedKeeps(s, t);
    GrowStepLive(t, limit);
    ListStepPreserves(m.cells, c1, m.rings, s.lists, limit, t, limit, BlockPtr(right), s.headers, s.top, -1);
    HeadersSameLive(s.headers, s.top, s.top, t, u);
    var r1 := m.rings[Head(limit) := m.rings[Head(limit)] + [BlockPtr(right)]];
    HeadBelowHeap(limit - 1);
    ListStepPreserves(c1, c2, r1, GrowUsed(s).lists, limit, u, limit - 1, Head(limit - 1), s.headers, s.top, -1);
    PreservedTransitive(before, m.cells, c1, s.headers);
    PreservedTransitive(before, c1, c2, s.headers);
    SameLength(m.cells, c1, m.rings, BlockPtr(right));
    SameLength(c1, c2, r1, Head(limit - 1));
  }

  lemma SameLength(c1: seq<int>, c2: seq<int>, rings: Rings, x: int)
    requires OnlyLinks(c1, c2, rings, x)
    ensures |c1| == |c2|
  {
  }

  lemma HeadBelowHeap(b: nat)
    requires b < BUCKET_COUNT
    ensures Head(b) + LIST_T_SIZE <= HEAP
  {
  }

  // ---------- taking a block off its list ----------

  // After the pop the block is in no ring, so it could be pushed back.
  lemma PopPlan(m: Image, s: State, t: seq<Kind>, b: nat)
    requires Represents(m, s, t) && s.limit <= b < BUCKET_COUNT && s.lists[b] != []
    ensures var i := s.lists[b][|s.lists[b]| - 1];
            && i < NODE_COUNT && t[i].Free? && Level(i) == b
            && Head(b) in m.rings && m.rings[Head(b)] != []
            && m.rings[Head(b)][|m.rings[Head(b)]| - 1] == BlockPtr(i)
            && RingsMatch(m.rings[Head(b) := DropLast(m.rings[Head(b)])], Pop(s, b).lists, s.limit)
            && NewNode(|m.cells|, m.rings[Head(b) := DropLast(m.rings[Head(b)])], BlockPtr(i))
  {
    hide Level, Addr, Size, Pow2, Parent, BitsOk, BytesMatch, RingsMatch;
    var l := s.lists[b];
    var i := l[|l| - 1];
    assert i in l;
    PopMatches(m.rings, s.lists, s.limit, b);
    LastBack(l);
    var shorter := s.lists[b := DropLast(l)];
    assert shorter[b := shorter[b] + [i]] == s.lists;
    NewlyFreeElsewhere(shorter, t, s.limit, b, i);
    FreeIsBacked(s, t, i);
    BlockIsNew(m.rings[Head(b) := DropLast(m.rings[Head(b)])], shorter, s.limit, i, |m.cells|);
  }

  // Popping preserves the live blocks, and so does pushing the same block back.
  lemma PopPreserves(m: Image, s: State, t: seq<Kind>, before: seq<int>, b: nat, c1: seq<int>)
    requires Orderly(m, s, t, -1, before) && s.limit <= b < BUCKET_COUNT && s.lists[b] != []
    requires OnlyLinks(m.cells, c1, m.rings, BlockPtr(s.lists[b][|s.lists[b]| - 1]))
    ensures Preserved(before, c1, s.headers) && |c1| == |m.cells|
  {
    hide Level, Addr, Size, Pow2, Parent, BitsOk, BytesMatch, RingsMatch, OnlyLinks;
    var i := s.lists[b][|s.lists[b]| - 1];
    assert i in s.lists[b];
    BlockIsClear(t, s.limit, i, -1);
    ListStepPreserves(m.cells, c1, m.rings, s.lists, s.limit, t, s.limit, BlockPtr(i), s.headers, s.top, -1);
    PreservedTransitive(before, m.cells, c1, s.headers);
    SameLength(m.cells, c1, m.rings, BlockPtr(i));
  }

  // The picture of the live blocks while the popped block is the one being worked on.
  lemma TakeHeaders(s: State, t: seq<Kind>, i: nat, top: nat)
    requires Inv(s, t) && i < NODE_COUNT && t[i].Free? && s.top <= top
    ensures HeadersOk(s.headers, top, t[i := Live], i)
  {
    assert LiveChange(t, t[i := Live], -1, i);
    HeadersMove(s.headers, s.top, top, t, t[i := Live], -1, i);
  }

  lemma TakeDone(m: Image, s: State, t: seq<Kind>, before: seq<int>, b: nat, c1: seq<int>, c2: seq<int>, top: nat)
    requires Orderly(m, s, t, -1, before) && s.limit <= b < BUCKET_COUNT && s.lists[b] != []
    requires OnlyLinks(m.cells, c1, m.rings, BlockPtr(s.lists[b][|s.lists[b]| - 1]))
    requires c1 <= c2 && |c2| == HEAP + top && s.top <= top && Head(b) in m.rings && m.rings[Head(b)] != []
    requires Family(c2, m.rings[Head(b) := DropLast(m.rings[Head(b)])])
    ensures var i := s.lists[b][|s.lists[b]| - 1];
            && i < NODE_COUNT && i < 2 * |s.bits| + 1 && (i > 0 ==> Parent(i) < 8 * |m.bytes|)
            && Orderly(Image(c2, m.rings[Head(b) := DropLast(m.rings[Head(b)])], FlipBytes(m.bytes, i), m.limit,
                             HEAP + top),
                       Pop(s, b).(top := top, bits := FlipUnlessTop(s.bits, i)), t[i := Live], i, before)
  {
    hide Level, Addr, Size, Pow2, Parent, BitsOk, ListsOk, BytesMatch, RingsMatch, OnlyLinks;
    var i := s.lists[b][|s.lists[b]| - 1];
    PopPlan(m, s, t, b);
    PopPreserves(m, s, t, before, b, c1);
    TakeKeeps(s, t, i, b, top);
    TakeHeaders(s, t, i, top);
    FlipBytesMatch(m.bytes, s.bits, i);
    SbrkAfterPop(m, s, t, before, c1, c2);
  }

  lemma SbrkAfterPop(m: Image, s: State, t: seq<Kind>, before: seq<int>, c1: seq<int>, c2: seq<int>)
    requires Orderly(m, s, t, -1, before) && |c1| == |m.cells| && c1 <= c2 && Preserved(before, c1, s.headers)
    ensures Preserved(before, c2, s.headers)
  {
    SbrkPreserves(c1, c2, s.headers, s.top, t, -1);
    PreservedTransitive(before, c1, c2, s.headers);
  }

  lemma PushBackDone(m: Image, s: State, t: seq<Kind>, before: seq<int>, b: nat, c1: seq<int>, c2: seq<int>)
    requires Orderly(m, s, t, -1, before) && s.limit <= b < BUCKET_COUNT && s.lists[b] != []
    requires Head(b) in m.rings && m.rings[Head(b)] != []
    requires var x := BlockPtr(s.lists[b][|s.lists[b]| - 1]);
             var h := Head(b);
             var r1 := m.rings[h := DropLast(m.rings[h])];
             && OnlyLinks(m.cells, c1, m.rings, x)
             && OnlyLinks(c1, c2, r1, x)
             && Family(c2, r1[h := r1[h] + [x]])
    ensures var x := BlockPtr(s.lists[b][|s.lists[b]| - 1]);
            var h := Head(b);
            var r1 := m.rings[h := DropLast(m.rings[h])];
            r1[h := r1[h] + [x]] == m.rings
    ensures Orderly(m.(cells := c2), s, t, -1, before)
  {
    hide Level, Addr, Size, Pow2, Parent, BitsOk, BytesMatch, RingsMatch;
    var i := s.lists[b][|s.lists[b]| - 1];
    var h := Head(b);
    var r1 := m.rings[h := DropLast(m.rings[h])];
    PopPlan(m, s, t, b);
    LastBack(m.rings[h]);
    assert r1[h := r1[h] + [BlockPtr(i)]] == m.rings;
    PopPreserves(m, s, t, before, b, c1);
    LinksMerge(m.cells, c1, c2, m.rings, r1, h, BlockPtr(i));
    PopPreserves(m, s, t, before, b, c2);
  }

  lemma ShorterLinks(rings: Rings, r1: Rings, h: int, p: int)
    requires h in rings && rings[h] != [] && r1 == rings[h := DropLast(rings[h])]
    requires LinkCell(r1, p)
    ensures LinkCell(rings, p)
  {
    var g :| LinkOf(r1, g, p);
    assert LinkOf(rings, g, p);
  }

  // Two list operations on the same rings, the second on shorter ones, write only links of the first.
  lemma LinksMerge(c0: seq<int>, c1: seq<int>, c2: seq<int>, rings: Rings, r1: Rings, h: int, x: int)
    requires OnlyLinks(c0, c1, rings, x) && OnlyLinks(c1, c2, r1, x)
    requires h in rings && rings[h] != [] && r1 == rings[h := DropLast(rings[h])]
    ensures OnlyLinks(c0, c2, rings, x)
  {
    forall p | !LinkCell(rings, p) && p != x && p != x + 8
      ensures Word(c2, p) == Word(c0, p)
    {
      if LinkCell(r1, p) { ShorterLinks(rings, r1, h, p); }
      assert Word(c1, p) == Word(c0, p);
    }
  }

  // ---------- splitting ----------

  lemma SplitPlan(m: Image, s: State, t: seq<Kind>, i: nat, b: nat)
    requires Represents(m, s, t) && Level(i) == b && b + 1 < BUCKET_COUNT && i < NODE_COUNT && t[i].Live?
    requires Addr(i) + Size(i) / 2 + LIST_T_SIZE <= s.top
    ensures i < INNER_COUNT && 2 * i + 2 < NODE_COUNT && s.limit <= b + 1
    ensures Head(b + 1) in m.rings && NewNode(|m.cells|, m.rings, BlockPtr(2 * i + 2))
    ensures RingsMatch(m.rings[Head(b + 1) := m.rings[Head(b + 1)] + [BlockPtr(2 * i + 2)]],
                       SplitStep(s, i, b).lists, s.limit)
    ensures ClearOf(t, i, BlockPtr(2 * i + 2))
    ensures Pow2(b + 1) <= 2 * i + 3 && BlockPtr(2 * i + 2) == HEAP + PtrForNode(2 * i + 2, b + 1)
  {
    hide Level, Addr, Size, Pow2, Parent, BitsOk, ListsOk, BytesMatch, RingsMatch;
    OnlyNodeAtRootLevel(t, s.limit, i);
    SplitStepKeeps(s, t, i, b);
    var u := SplitPicture(t, i);
    ListsOfCore(SplitStep(s, i, b), u);
    NewlyFreeElsewhere(s.lists, u, s.limit, b + 1, 2 * i + 2);
    FreeIsBacked(SplitStep(s, i, b), u, 2 * i + 2);
    BlockIsNew(m.rings, s.lists, s.limit, 2 * i + 2, |m.cells|);
    PushMatches(m.rings, s.lists, s.limit, b + 1, 2 * i + 2);
    BlockIsClear(u, s.limit, 2 * i + 2, 2 * i + 1);
    ClearOfSplit(t, u, i, BlockPtr(2 * i + 2));
    ChildPtr(i, b);
  }

  lemma ChildPtr(i: nat, b: nat)
    requires 2 * i + 2 < NODE_COUNT && Level(i) == b && b + 1 < BUCKET_COUNT
    ensures Pow2(b + 1) <= 2 * i + 3 && BlockPtr(2 * i + 2) == HEAP + PtrForNode(2 * i + 2, b + 1)
  {
    ChildGeometry(i);
    PtrForNodeIsAddr(2 * i + 2);
  }

  lemma ListsOfCore(s: State, t: seq<Kind>)
    requires Core(s, t)
    ensures ListsOk(s.lists, t) && WellFormed(t, s.limit)
  {
  }

  lemma ClearOfSplit(t: seq<Kind>, u: seq<Kind>, i: nat, x: int)
    requires |t| == NODE_COUNT && 2 * i + 2 < NODE_COUNT && u == SplitPicture(t, i)
    requires !t[2 * i + 1].Live? && !t[2 * i + 2].Live? && ClearOf(u, 2 * i + 1, x)
    ensures ClearOf(t, i, x)
  {
    forall j | 0 <= j < NODE_COUNT && t[j].Live? && j != i
      ensures x + LIST_T_SIZE <= HEAP + Addr(j) || HEAP + Addr(j) + Size(j) <= x
    {
      assert u[j].Live? && j != 2 * i + 1;
    }
  }

  lemma SplitDone(m: Image, s: State, t: seq<Kind>, before: seq<int>, i: nat, b: nat, cells: seq<int>)
    requires Orderly(m, s, t, i, before) && Level(i) == b && b + 1 < BUCKET_COUNT && i < NODE_COUNT && t[i].Live?
    requires Addr(i) + Size(i) / 2 + LIST_T_SIZE <= s.top && i < 8 * |m.bytes| && Head(b + 1) in m.rings
    requires OnlyLinks(m.cells, cells, m.rings, BlockPtr(2 * i + 2))
    requires Family(cells, m.rings[Head(b + 1) := m.rings[Head(b + 1)] + [BlockPtr(2 * i + 2)]])
    ensures i < INNER_COUNT && 2 * i + 2 < NODE_COUNT
    ensures var u := SplitPicture(t, i);
            && u[2 * i + 1].Live? && LiveChange(t, u, i, 2 * i + 1) && Level(2 * i + 1) == b + 1
            && Orderly(m.(cells := cells, bytes := ToggleBit(m.bytes, i),
                          rings := m.rings[Head(b + 1) := m.rings[Head(b + 1)] + [BlockPtr(2 * i + 2)]]),
                       SplitStep(s, i, b), u, 2 * i + 1, before)
  {
    hide Level, Addr, Size, Pow2, Parent, BitsOk, ListsOk, BytesMatch, RingsMatch, OnlyLinks;
    SplitPlan(m, s, t, i, b);
    SplitStepKeeps(s, t, i, b);
    ParentOfChild(i);
    FlipMatches(m.bytes, s.bits, 2 * i + 1);
    HeadersMove(s.headers, s.top, s.top, t, SplitPicture(t, i), i, 2 * i + 1);
    ListsOfCore(s, t);
    ListStepPreserves(m.cells, cells, m.rings, s.lists, s.limit, t, s.limit, BlockPtr(2 * i + 2), s.headers, s.top, i);
    PreservedTransitive(before, m.cells, cells, s.headers);
    SameLength(m.cells, cells, m.rings, BlockPtr(2 * i + 2));
  }

  // ---------- merging ----------

  lemma MergePlan(m: Image, s: State, t: seq<Kind>, i: nat, b: nat)
    requires Represents(m, s, t) && i < NODE_COUNT && t[i].Live? && Level(i) == b && i > 0 && !StopsHere(s, t, i)
    ensures s.limit < b < BUCKET_COUNT && Buddy(i) < NODE_COUNT && Parent(i) < INNER_COUNT
    ensures Pow2(b) <= Buddy(i) + 1 && BlockPtr(Buddy(i)) == HEAP + PtrForNode(Buddy(i), b)
    ensures exists h :: h in m.rings && BlockPtr(Buddy(i)) in m.rings[h]
    ensures RingsMatch(Unlinked(m.rings, BlockPtr(Buddy(i))), s.lists[b := Without(s.lists[b], Buddy(i))], s.limit)
  {
    hide Addr, Size, Pow2, Parent, BitsOk, BytesMatch, RingsMatch;
    LevelInRange(i);
    OnlyNodeAtRootLevel(t, s.limit, i);
    CoalesceStep(s, t, i, b);
    BuddyLevel(i);
    PtrForNodeIsAddr(Buddy(i));
    UnlinkMatches(m.rings, s.lists, t, s.limit, b, Buddy(i));
  }

  lemma MergeDone(m: Image, s: State, t: seq<Kind>, before: seq<int>, i: nat, b: nat, cells: seq<int>)
    requires Orderly(m, s, t, i, before) && i < NODE_COUNT && t[i].Live? && Level(i) == b < BUCKET_COUNT && i > 0
    requires !StopsHere(s, t, i) && Buddy(i) < NODE_COUNT && Parent(i) < INNER_COUNT && Parent(i) < 8 * |m.bytes|
    requires OnlyLinks(m.cells, cells, m.rings, BlockPtr(Buddy(i)))
    requires Family(cells, Unlinked(m.rings, BlockPtr(Buddy(i))))
    ensures b > 0 && Level(Parent(i)) == b - 1 && Parent(i) < NODE_COUNT
    ensures var u := MergePicture(t, i);
            && u[Parent(i)].Live? && LiveChange(t, u, i, Parent(i)) && !t[Parent(i)].Live?
            && Addr(Parent(i)) + LIST_T_SIZE <= s.top
            && Orderly(m.(cells := cells, bytes := ToggleBit(m.bytes, Parent(i)),
                          rings := Unlinked(m.rings, BlockPtr(Buddy(i)))),
                       Unlink(s.(bits := Flip(s.bits, i)), b, Buddy(i)), u, Parent(i), before)
  {
    hide Level, Addr, Size, Pow2, Parent, BitsOk, BytesMatch, RingsMatch, OnlyLinks, Unlinked;
    MergePlan(m, s, t, i, b);
    CoalesceStep(s, t, i, b);
    ParentPresent(i);
    FlipMatches(m.bytes, s.bits, i);
    HeadersMove(s.headers, s.top, s.top, t, MergePicture(t, i), i, Parent(i));
    BlockIsClear(t, s.limit, Buddy(i), i);
    ListsOfCore(s, t);
    ListStepPreserves(m.cells, cells, m.rings, s.lists, s.limit, t, s.limit, BlockPtr(Buddy(i)), s.headers, s.top, i);
    PreservedTransitive(before, m.cells, cells, s.headers);
    SameLength(m.cells, cells, m.rings, BlockPtr(Buddy(i)));
  }

  lemma ParentPresent(i: nat)
    requires 0 < i < NODE_COUNT
    ensures Parent(i) < NODE_COUNT && Level(i) > 0
  {
  }

  // ---------- releasing ----------

  lemma ReleasePlan(m: Image, s: State, t: seq<Kind>, i: nat, b: nat)
    requires Represents(m, s, t) && i < NODE_COUNT && t[i].Live? && Level(i) == b && StopsHere(s, t, i)
    requires Addr(i) + LIST_T_SIZE <= s.top
    ensures s.limit <= b < BUCKET_COUNT && i < 2 * |s.bits| + 1
    ensures Pow2(b) <= i + 1 && BlockPtr(i) == HEAP + PtrForNode(i, b)
    ensures Head(b) in m.rings && NewNode(|m.cells|, m.rings, BlockPtr(i))
    ensures var s1 := Push(s.(bits := FlipUnlessTop(s.bits, i)), b, i);
            && Core(s1, t[i := Free])
            && RingsMatch(m.rings[Head(b) := m.rings[Head(b)] + [BlockPtr(i)]], s1.lists, s.limit)
  {
    hide Addr, Size, Pow2, Parent, BitsOk, BytesMatch, RingsMatch;
    LevelInRange(i);
    InnerNodes(i);
    OnlyNodeAtRootLevel(t, s.limit, i);
    if i == 0 { TopIsRoot(t, s.limit); }
    ReleaseKeeps(s, t, i, b);
    PtrForNodeIsAddr(i);
    ListedElsewhere(s.lists, t, s.limit, i);
    BlockIsNew(m.rings, s.lists, s.limit, i, |m.cells|);
    PushMatches(m.rings, s.lists, s.limit, b, i);
  }

  lemma ReleaseDone(m: Image, s: State, t: seq<Kind>, before: seq<int>, i: nat, b: nat, cells: seq<int>)
    requires Orderly(m, s, t, i, before) && i < NODE_COUNT && t[i].Live? && Level(i) == b < BUCKET_COUNT
    requires StopsHere(s, t, i) && Addr(i) + LIST_T_SIZE <= s.top && Head(b) in m.rings
    requires i < 2 * |s.bits| + 1 && (i > 0 ==> Parent(i) < 8 * |m.bytes|)
    requires OnlyLinks(m.cells, cells, m.rings, BlockPtr(i))
    requires Family(cells, m.rings[Head(b) := m.rings[Head(b)] + [BlockPtr(i)]])
    ensures Orderly(m.(cells := cells, bytes := FlipBytes(m.bytes, i),
                       rings := m.rings[Head(b) := m.rings[Head(b)] + [BlockPtr(i)]]),
                    Push(s.(bits := FlipUnlessTop(s.bits, i)), b, i), t[i := Free], -1, before)
    ensures LiveChange(t, t[i := Free], i, -1)
  {
    hide Level, Addr, Size, Pow2, Parent, BitsOk, BytesMatch, RingsMatch, OnlyLinks;
    ReleasePlan(m, s, t, i, b);
    FlipBytesMatch(m.bytes, s.bits, i);
    HeadersMove(s.headers, s.top, s.top, t, t[i := Free], i, -1);
    BlockIsClear(t, s.limit, i, i);
    ListsOfCore(s, t);
    ListStepPreserves(m.cells, cells, m.rings, s.lists, s.limit, t, s.limit, BlockPtr(i), s.headers, s.top, i);
    PreservedTransitive(before, m.cells, cells, s.headers);
    SameLength(m.cells, cells, m.rings, BlockPtr(i));
  }

  // ---------- the header ----------

  lemma HeaderPlan(m: Image, s: State, t: seq<Kind>, i: nat)
    requires Represents(m, s, t) && i < NODE_COUNT && t[i].Live? && Addr(i) + Size(i) <= s.top
    ensures 0 <= BlockPtr(i) < |m.cells| && !LinkCell(m.rings, BlockPtr(i))
  {
    Aligned16(i);
    LiveHasNoLink(m.rings, s.lists, s.limit, t, s.limit, i, BlockPtr(i));
  }

  // Writing the header hands the block over: it is now one of the live blocks, the others are untouched.
  lemma HeaderDone(m: Image, s: State, t: seq<Kind>, before: seq<int>, i: nat, request: SizeT)
    requires Orderly(m, s, t, i, before) && i < NODE_COUNT && t[i].Live? && Addr(i) + Size(i) <= s.top
    requires 0 <= BlockPtr(i) < |m.cells| && Family(m.cells[BlockPtr(i) := request], m.rings)
    requires Need(request) <= MAX_ALLOC && Level(i) == BucketFor(Need(request))
    requires HeadersStored(before, s.headers)
    ensures var c := m.cells[BlockPtr(i) := request];
            var h := s.headers[Addr(i) := request];
            && Addr(i) !in s.headers
            && Orderly(m.(cells := c), s.(headers := h), t, -1, c)
            && HeadersStored(c, h)
            && Preserved(before, c, s.headers)
  {
    hide Level, Size, Pow2, Parent, BitsOk, ListsOk, BytesMatch, RingsMatch;
    var c := m.cells[BlockPtr(i) := request];
    forall a, p | InBlock(s.headers, a, p)
      ensures Word(c, p) == Word(before, p)
    {
      var j := BlockHasLive(s.headers, s.top, t, i, a, p);
      BlocksDisjoint(t, s.limit, i, j);
      Aligned16(i);
      assert Word(m.cells, p) == Word(before, p);
    }
    HeaderJoins(s, t, i, request);
    CoreIgnoresHeaders(s, t, s.headers[Addr(i) := request]);
    PreservedHeaders(before, c, s.headers, s.top, t, i);
  }

  lemma HeaderJoins(s: State, t: seq<Kind>, i: nat, request: SizeT)
    requires WellFormed(t, s.limit) && HeadersOk(s.headers, s.top, t, i)
    requires i < NODE_COUNT && t[i].Live? && Addr(i) + Size(i) <= s.top
    requires Need(request) <= MAX_ALLOC && Level(i) == BucketFor(Need(request))
    ensures Addr(i) !in s.headers
    ensures HeadersOk(s.headers[Addr(i) := request], s.top, t, -1)
  {
    hide Parent, Pow2;
    var a := Addr(i);
    var h := s.headers[a := request];
    NodeOfAddr(i);
    if a in s.headers {
      assert OwnerOk(s.headers, t, a);
      BlocksDisjoint(t, s.limit, NodeForPtr(a, BucketFor(Need(s.headers[a]))), i);
    }
    forall j | 0 <= j < NODE_COUNT && t[j].Live?
      ensures HeaderOk(h, s.top, j)
    {
      if j != i {
        assert HeaderOk(s.headers, s.top, j);
        BlocksDisjoint(t, s.limit, i, j);
      }
    }
    forall x | x in h
      ensures OwnerOk(h, t, x)
    {
      if x != a { assert OwnerOk(s.headers, t, x); }
    }
  }

  // ---------- between calls ----------

  // The end of a call that leaves the live blocks as they were.
  lemma Settle(m: Image, s: State, t: seq<Kind>, before: seq<int>)
    requires Orderly(m, s, t, -1, before) && HeadersStored(before, s.headers)
    ensures Orderly(m, s, t, -1, m.cells) && HeadersStored(m.cells, s.headers)
  {
    PreservedHeaders(before, m.cells, s.headers, s.top, t, -1);
  }

  // The first call: the list of the smallest bucket holds the one block at the base.
  lemma InitDone(m: Image)
    requires m.limit == BUCKET_COUNT - 1 && m.maxPtr == HEAP + LIST_T_SIZE && |m.cells| == m.maxPtr
    requires BytesMatch(m.bytes, InitState().bits) && Family(m.cells, m.rings)
    requires m.rings == map[Head(BUCKET_COUNT - 1) := [HEAP]]
    ensures Orderly(m, InitState(), InitPicture(), -1, m.cells)
    ensures HeadersStored(m.cells, InitState().headers)
  {
    InitOk();
    hide Level, Size, Pow2, Parent, Core, BytesMatch;
    RootAddr(BUCKET_COUNT - 1);
    assert Ptrs([Root(BUCKET_COUNT - 1)]) == [HEAP];
    var lists := InitState().lists;
    assert lists[BUCKET_COUNT - 1] == [Root(BUCKET_COUNT - 1)];
    forall h
      ensures h in m.rings <==> exists b :: BUCKET_COUNT - 1 <= b < BUCKET_COUNT && h == Head(b)
    {
      if h in m.rings { assert h == Head(BUCKET_COUNT - 1); }
    }
    assert RingsMatch(m.rings, lists, BUCKET_COUNT - 1);
  }

  lemma HeaderInMemory(m: Image, s: State, t: seq<Kind>, a: nat)
    requires Orderly(m, s, t, -1, m.cells) && HeadersStored(m.cells, s.headers) && a in s.headers
    ensures HEAP + a < |m.cells| && m.cells[HEAP + a] == s.headers[a]
  {
    assert OwnerOk(s.headers, t, a);
    assert HeaderOk(s.headers, s.top, FreedNode(s, a));
    assert Word(m.cells, HEAP + a) == s.headers[a];
  }

  // The start of free_1: the header leads to the block, which becomes the one being worked on.
  lemma FreeStart(m: Image, s: State, t: seq<Kind>, before: seq<int>, a: nat)
    requires Orderly(m, s, t, -1, before) && a in s.headers
    ensures Need(s.headers[a]) <= MAX_ALLOC
    ensures var i := FreedNode(s, a);
            && i < NODE_COUNT && t[i].Live? && Addr(i) == a && BlockPtr(i) == HEAP + a
            && Level(i) == BucketFor(Need(s.headers[a]))
            && Addr(i) + LIST_T_SIZE <= s.top
            && Orderly(m, s.(headers := s.headers - {a}), t, i, before)
  {
    hide Level, Size, Pow2, Parent, BytesMatch, RingsMatch, BitsOk, ListsOk;
    FreedNodeIsLive(s, t, a);
    var i := FreedNode(s, a);
    Aligned16(i);
    CoreIgnoresHeaders(s, t, s.headers - {a});
    HeaderLeaves(s, t, a, i);
    forall x, p | InBlock(s.headers - {a}, x, p)
      ensures Word(m.cells, p) == Word(before, p)
    {
      assert InBlock(s.headers, x, p);
    }
  }

  lemma HeaderLeaves(s: State, t: seq<Kind>, a: nat, i: nat)
    requires WellFormed(t, s.limit) && HeadersOk(s.headers, s.top, t, -1) && a in s.headers
    requires i < NODE_COUNT && t[i].Live? && Addr(i) == a
    ensures HeadersOk(s.headers - {a}, s.top, t, i)
  {
    hide Parent, Pow2;
    var h := s.headers - {a};
    forall j | 0 <= j < NODE_COUNT && t[j].Live? && j != i
      ensures HeaderOk(h, s.top, j)
    {
      assert HeaderOk(s.headers, s.top, j);
      BlocksDisjoint(t, s.limit, i, j);
    }
    forall x | x in h
      ensures OwnerOk(h, t, x) && NodeForPtr(x, BucketFor(Need(h[x]))) != i
    {
      assert OwnerOk(s.headers, t, x);
    }
  }

  lemma PayloadPlace(m: Image, s: State, t: seq<Kind>, a: nat, p: int) returns (j: nat)
    requires Orderly(m, s, t, -1, m.cells) && InBlock(s.headers, a, p)
    ensures 0 <= p < |m.cells| && !LinkCell(m.rings, p)
    ensures j < NODE_COUNT && t[j].Live? && Addr(j) == a
  {
    j := BlockHasLive(s.headers, s.top, t, -1, a, p);
    LiveHasNoLink(m.rings, s.lists, s.limit, t, s.limit, j, p);
  }

  lemma PayloadDone(m: Image, s: State, t: seq<Kind>, a: nat, j: nat, p: int, v: int)
    requires Orderly(m, s, t, -1, m.cells) && HeadersStored(m.cells, s.headers)
    requires InBlock(s.headers, a, p) && HEAP + a + HEADER_SIZE <= p < |m.cells|
    requires Family(m.cells[p := v], m.rings)
    ensures var c := m.cells[p := v];
            Orderly(m.(cells := c), s, t, -1, c) && HeadersStored(c, s.headers)
  {
    var c := m.cells[p := v];
    hide Level, Size, Pow2, Parent, BitsOk, ListsOk, BytesMatch, RingsMatch, Family;
    forall x | x in s.headers
      ensures Word(c, HEAP + x) == s.headers[x]
    {
      HeaderIsNotPayload(s, t, a, p, x);
      assert Word(m.cells, HEAP + x) == s.headers[x];
    }
  }

  // No header lies in the payload of a block, its own or another's.
  lemma HeaderIsNotPayload(s: State, t: seq<Kind>, a: nat, p: int, x: nat)
    requires WellFormed(t, s.limit) && HeadersOk(s.headers, s.top, t, -1) && x in s.headers
    requires InBlock(s.headers, a, p) && HEAP + a + HEADER_SIZE <= p
    ensures HEAP + x != p
  {
    assert OwnerOk(s.headers, t, x);
    var i := BlockHasLive(s.headers, s.top, t, -1, x, HEAP + x);
    var j := BlockHasLive(s.headers, s.top, t, -1, a, p);
    if i != j { BlocksDisjoint(t, s.limit, i, j); }
  }
}
