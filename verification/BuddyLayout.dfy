/** How the value-level state lies in memory: list heads, block addresses, headers, and what no list operation
    touches. */
module BuddyLayout {
  import opened Geometry
  import opened FreeLists
  import opened Tree
  import opened BuddySpec
  import opened BuddyInvariant
  import opened BuddyMallocProof
  import opened Memory

  // The static array of list heads comes first, the heap starts where the program break is at the first call.
  function Head(b: nat): int {
    16 * (b + 1)
  }

  const HEAP: int := 16 * (BUCKET_COUNT + 1)

  function BlockPtr(i: nat): int {
    if i < NODE_COUNT then HEAP + Addr(i) else HEAP
  }

  ghost function Ptrs(l: seq<nat>): (r: seq<int>)
    ensures |r| == |l|
  {
    seq(|l|, k requires 0 <= k < |l| => BlockPtr(l[k]))
  }

  // Every initialised bucket's ring holds the blocks of its free list, in order.
  ghost predicate RingsMatch(rings: Rings, lists: seq<seq<nat>>, limit: nat) {
    && |lists| == BUCKET_COUNT
    && (forall h :: h in rings <==> exists b :: limit <= b < BUCKET_COUNT && h == Head(b))
    && (forall b :: limit <= b < BUCKET_COUNT ==> Head(b) in rings && rings[Head(b)] == Ptrs(lists[b]))
  }

  lemma PtrsPush(l: seq<nat>, i: nat)
    ensures Ptrs(l + [i]) == Ptrs(l) + [BlockPtr(i)]
  {
  }

  lemma PtrsDropLast(l: seq<nat>)
    requires l != []
    ensures Ptrs(DropLast(l)) == DropLast(Ptrs(l))
    ensures Ptrs(l)[|l| - 1] == BlockPtr(l[|l| - 1])
  {
  }

  lemma {:induction false} PtrsWithout(l: seq<nat>, i: nat)
    requires forall x :: x in l && x != i ==> BlockPtr(x) != BlockPtr(i)
    ensures Ptrs(Without(l, i)) == Without(Ptrs(l), BlockPtr(i))
  {
    if l != [] {
      assert Ptrs(l) == [BlockPtr(l[0])] + Ptrs(l[1..]);
      if l[0] != i {
        PtrsWithout(l[1..], i);
        assert Ptrs([l[0]] + Without(l[1..], i)) == [BlockPtr(l[0])] + Ptrs(Without(l[1..], i));
      }
    }
  }

  lemma PtrIn(l: seq<nat>, p: int) returns (i: nat)
    requires p in Ptrs(l)
    ensures i in l && BlockPtr(i) == p
  {
    var k :| 0 <= k < |l| && Ptrs(l)[k] == p;
    i := l[k];
  }

  // A node of some ring is a list head or a listed block.
  lemma OwnedIs(rings: Rings, lists: seq<seq<nat>>, limit: nat, h: int, p: int) returns (b: nat, i: nat)
    requires RingsMatch(rings, lists, limit) && Owned(rings, h, p)
    ensures limit <= b < BUCKET_COUNT && h == Head(b)
    ensures p == h || (i in lists[b] && p == BlockPtr(i))
  {
    b :| limit <= b < BUCKET_COUNT && h == Head(b);
    i := 0;
    if p != h { i := PtrIn(lists[b], p); }
  }

  lemma HeapAligned()
    ensures HEAP % 16 == 0 && HEAP > 0
  {
  }

  lemma BlockPtrSlot(i: nat, size: int)
    requires i < NODE_COUNT && HEAP + Addr(i) + LIST_T_SIZE <= size
    ensures Slot(size, BlockPtr(i)) && BlockPtr(i) >= HEAP
  {
    Aligned16(i);
    hide Addr, Size, Level, Pow2;
    HeapAligned();
    Sum16(HEAP, Addr(i));
  }

  // A block about to be listed is not in any ring yet.
  lemma BlockIsNew(rings: Rings, lists: seq<seq<nat>>, limit: nat, i: nat, size: int)
    requires RingsMatch(rings, lists, limit) && i < NODE_COUNT && HEAP + Addr(i) + LIST_T_SIZE <= size
    requires forall b, x {:trigger x in lists[b]} :: 0 <= b < BUCKET_COUNT && x in lists[b] ==>
               x < NODE_COUNT && Addr(x) != Addr(i)
    ensures NewNode(size, rings, BlockPtr(i))
  {
    BlockPtrSlot(i, size);
    forall h
      ensures !Owned(rings, h, BlockPtr(i))
    {
      if Owned(rings, h, BlockPtr(i)) {
        var b, x := OwnedIs(rings, lists, limit, h, BlockPtr(i));
      }
    }
  }

  // Everything on a list of a state with this picture is a free block, and any other block lies elsewhere.
  lemma ListedElsewhere(lists: seq<seq<nat>>, t: seq<Kind>, limit: nat, i: nat)
    requires WellFormed(t, limit) && ListsOk(lists, t) && i < NODE_COUNT && t[i].Live?
    ensures forall b, x {:trigger x in lists[b]} :: 0 <= b < BUCKET_COUNT && x in lists[b] ==>
              x < NODE_COUNT && Addr(x) != Addr(i)
  {
    forall b, x | 0 <= b < BUCKET_COUNT && x in lists[b]
      ensures x < NODE_COUNT && Addr(x) != Addr(i)
    {
      BlocksDisjoint(t, limit, x, i);
    }
  }

  // The same for a block that has just become free and is not on its list yet.
  lemma NewlyFreeElsewhere(lists: seq<seq<nat>>, u: seq<Kind>, limit: nat, b: nat, i: nat)
    requires WellFormed(u, limit) && |lists| == BUCKET_COUNT && b < BUCKET_COUNT
    requires ListsOk(lists[b := lists[b] + [i]], u)
    ensures i < NODE_COUNT && u[i].Free?
    ensures forall c, x {:trigger x in lists[c]} :: 0 <= c < BUCKET_COUNT && x in lists[c] ==>
              x < NODE_COUNT && Addr(x) != Addr(i)
  {
    var after := lists[b := lists[b] + [i]];
    assert after[b][|lists[b]|] == i;
    assert i in after[b];
    forall c, x {:trigger x in lists[c]} | 0 <= c < BUCKET_COUNT && x in lists[c]
      ensures x < NODE_COUNT && Addr(x) != Addr(i)
    {
      ListedThenNewElsewhere(lists, u, limit, b, i, c, x);
    }
  }

  lemma ListedThenNewElsewhere(lists: seq<seq<nat>>, u: seq<Kind>, limit: nat, b: nat, i: nat, c: nat, x: nat)
    requires WellFormed(u, limit) && |lists| == BUCKET_COUNT && b < BUCKET_COUNT && c < BUCKET_COUNT
    requires ListsOk(lists[b := lists[b] + [i]], u) && x in lists[c]
    ensures i < NODE_COUNT && x < NODE_COUNT && Addr(x) != Addr(i)
  {
    var after := lists[b := lists[b] + [i]];
    assert after[b][|lists[b]|] == i;
    assert i in after[b];
    var k :| 0 <= k < |lists[c]| && lists[c][k] == x;
    assert after[c][k] == x;
    assert x in after[c];
    assert Distinct(after[b]);
    if x != i { BlocksDisjoint(u, limit, x, i); }
  }

  lemma PushMatches(rings: Rings, lists: seq<seq<nat>>, limit: nat, b: nat, i: nat)
    requires RingsMatch(rings, lists, limit) && limit <= b < BUCKET_COUNT
    ensures Head(b) in rings
    ensures RingsMatch(rings[Head(b) := rings[Head(b)] + [BlockPtr(i)]], lists[b := lists[b] + [i]], limit)
  {
    PtrsPush(lists[b], i);
  }

  lemma PopMatches(rings: Rings, lists: seq<seq<nat>>, limit: nat, b: nat)
    requires RingsMatch(rings, lists, limit) && limit <= b < BUCKET_COUNT && lists[b] != []
    ensures Head(b) in rings && rings[Head(b)] != []
    ensures RingsMatch(rings[Head(b) := DropLast(rings[Head(b)])], lists[b := DropLast(lists[b])], limit)
    ensures rings[Head(b)][|rings[Head(b)]| - 1] == BlockPtr(lists[b][|lists[b]| - 1])
  {
    PtrsDropLast(lists[b]);
  }

  lemma WithoutBlock(lists: seq<seq<nat>>, t: seq<Kind>, limit: nat, b: nat, i: nat, c: nat)
    requires WellFormed(t, limit) && ListsOk(lists, t) && b < BUCKET_COUNT && c < BUCKET_COUNT && i in lists[b]
    ensures Without(Ptrs(lists[c]), BlockPtr(i)) == Ptrs(if c == b then Without(lists[c], i) else lists[c])
  {
    hide Parent, Level, Addr, Size;
    forall x | x in lists[c] && x != i
      ensures BlockPtr(x) != BlockPtr(i)
    {
      BlocksDisjoint(t, limit, x, i);
    }
    PtrsWithout(lists[c], i);
    if c != b {
      assert i !in lists[c];
      WithoutMissing(lists[c], i);
    }
  }

  // Unlinking a free block by its address alone takes it off the list of its own bucket.
  lemma UnlinkMatches(rings: Rings, lists: seq<seq<nat>>, t: seq<Kind>, limit: nat, b: nat, i: nat)
    requires RingsMatch(rings, lists, limit) && WellFormed(t, limit) && ListsOk(lists, t)
    requires limit <= b < BUCKET_COUNT && i in lists[b]
    ensures exists h :: h in rings && BlockPtr(i) in rings[h]
    ensures RingsMatch(Unlinked(rings, BlockPtr(i)), lists[b := Without(lists[b], i)], limit)
  {
    hide Parent, Level, Addr, Size, Pow2, Without, ListsOk;
    var k :| 0 <= k < |lists[b]| && lists[b][k] == i;
    assert Head(b) in rings && rings[Head(b)][k] == BlockPtr(i);
    forall c | limit <= c < BUCKET_COUNT
      ensures Without(rings[Head(c)], BlockPtr(i)) == Ptrs(if c == b then Without(lists[c], i) else lists[c])
    {
      WithoutBlock(lists, t, limit, b, i, c);
    }
  }

  lemma HeadIsNew(rings: Rings, lists: seq<seq<nat>>, limit: nat, b: nat, size: int)
    requires RingsMatch(rings, lists, limit) && b < limit && b < BUCKET_COUNT && HEAP <= size
    ensures NewNode(size, rings, Head(b))
  {
    forall h
      ensures !Owned(rings, h, Head(b))
    {
      if Owned(rings, h, Head(b)) {
        var c, x := OwnedIs(rings, lists, limit, h, Head(b));
      }
    }
  }

  lemma InitMatches(rings: Rings, lists: seq<seq<nat>>, limit: nat)
    requires RingsMatch(rings, lists, limit) && 0 < limit <= BUCKET_COUNT
    ensures RingsMatch(rings[Head(limit - 1) := []], lists[limit - 1 := []], limit - 1)
  {
    forall b | limit <= b < BUCKET_COUNT
      ensures Head(b) != Head(limit - 1)
    {
    }
    assert Ptrs([]) == [];
    var r := rings[Head(limit - 1) := []];
    forall h
      ensures h in r <==> exists b :: limit - 1 <= b < BUCKET_COUNT && h == Head(b)
    {
      if h == Head(limit - 1) { assert limit - 1 <= limit - 1 < BUCKET_COUNT; }
    }
  }

  // ---------- what the list operations leave alone ----------

  // The bytes of the live block at address a.
  ghost predicate InBlock(headers: map<nat, SizeT>, a: nat, p: int) {
    && a in headers && Need(headers[a]) <= MAX_ALLOC
    && HEAP + a <= p < HEAP + a + BlockSize(BucketFor(Need(headers[a])))
  }

  // Every word of every live block, header and payload, is what it was.
  ghost predicate Preserved(cells: seq<int>, cells': seq<int>, headers: map<nat, SizeT>) {
    && |cells| <= |cells'|
    && forall a, p {:trigger InBlock(headers, a, p)} :: InBlock(headers, a, p) ==> Word(cells', p) == Word(cells, p)
  }

  ghost predicate HeadersStored(cells: seq<int>, headers: map<nat, SizeT>) {
    forall a :: a in headers ==> Word(cells, HEAP + a) == headers[a]
  }

  lemma BlockHasLive(headers: map<nat, SizeT>, top: nat, t: seq<Kind>, work: int, a: nat, p: int) returns (j: nat)
    requires |t| == NODE_COUNT && HeadersOk(headers, top, t, work) && InBlock(headers, a, p)
    ensures j < NODE_COUNT && t[j].Live? && j != work && Addr(j) == a
    ensures HEAP + Addr(j) <= p < HEAP + Addr(j) + Size(j)
    ensures Addr(j) + Size(j) <= top
  {
    assert OwnerOk(headers, t, a);
    j := NodeForPtr(a, BucketFor(Need(headers[a])));
    assert HeaderOk(headers, top, j);
  }

  // No word of a live block is a link of a ring.
  lemma LiveHasNoLink(rings: Rings, lists: seq<seq<nat>>, low: nat, t: seq<Kind>, limit: nat, j: nat, p: int)
    requires RingsMatch(rings, lists, low) && WellFormed(t, limit) && ListsOk(lists, t)
    requires j < NODE_COUNT && t[j].Live? && HEAP + Addr(j) <= p < HEAP + Addr(j) + Size(j)
    ensures !LinkCell(rings, p)
  {
    if LinkCell(rings, p) {
      var h :| LinkOf(rings, h, p);
      var q := if Owned(rings, h, p) then p else p - 8;
      var b, i := OwnedIs(rings, lists, low, h, q);
      if q != h {
        BlocksDisjoint(t, limit, i, j);
        Aligned16(i);
        Aligned16(j);
      }
    }
  }

  lemma NotInSlot(t: seq<Kind>, work: int, x: int, j: nat, p: int)
    requires |t| == NODE_COUNT && (x + LIST_T_SIZE <= HEAP || ClearOf(t, work, x))
    requires j < NODE_COUNT && t[j].Live? && j != work && HEAP + Addr(j) <= p < HEAP + Addr(j) + Size(j)
    ensures p != x && p != x + 8
  {
  }

  // A list operation on the free blocks, with x a block clear of the live ones, preserves the live blocks.
  lemma ListStepPreserves(cells: seq<int>, cells': seq<int>, rings: Rings, lists: seq<seq<nat>>, low: nat,
                          t: seq<Kind>, limit: nat, x: int, headers: map<nat, SizeT>, top: nat, work: int)
    requires RingsMatch(rings, lists, low) && WellFormed(t, limit) && ListsOk(lists, t)
    requires HeadersOk(headers, top, t, work) && OnlyLinks(cells, cells', rings, x)
    requires x + LIST_T_SIZE <= HEAP || ClearOf(t, work, x)
    ensures Preserved(cells, cells', headers)
  {
    hide Parent, Level, Addr, Size, ListsOk, RingsMatch, HeadersOk, LinkCell;
    forall a, p | InBlock(headers, a, p)
      ensures Word(cells', p) == Word(cells, p)
    {
      var j := BlockHasLive(headers, top, t, work, a, p);
      LiveHasNoLink(rings, lists, low, t, limit, j, p);
      NotInSlot(t, work, x, j, p);
    }
  }

  // The struct list_t at x lies outside every live block but the one being worked on.
  ghost predicate ClearOf(t: seq<Kind>, work: int, x: int)
    requires |t| == NODE_COUNT
  {
    forall j :: 0 <= j < NODE_COUNT && t[j].Live? && j != work ==>
      x + LIST_T_SIZE <= HEAP + Addr(j) || HEAP + Addr(j) + Size(j) <= x
  }

  // A block of the picture u is clear of the other live blocks of u.
  lemma BlockIsClear(u: seq<Kind>, limit: nat, i: nat, work: int)
    requires WellFormed(u, limit) && i < NODE_COUNT && IsBlock(u[i]) && (u[i].Live? ==> work == i)
    ensures ClearOf(u, work, BlockPtr(i))
  {
    forall j | 0 <= j < NODE_COUNT && u[j].Live? && j != work
      ensures BlockPtr(i) + LIST_T_SIZE <= HEAP + Addr(j) || HEAP + Addr(j) + Size(j) <= BlockPtr(i)
    {
      BlocksDisjoint(u, limit, i, j);
      Aligned16(i);
    }
  }

  lemma PreservedTransitive(c1: seq<int>, c2: seq<int>, c3: seq<int>, headers: map<nat, SizeT>)
    requires Preserved(c1, c2, headers) && Preserved(c2, c3, headers)
    ensures Preserved(c1, c3, headers)
  {
    forall a, p | InBlock(headers, a, p)
      ensures Word(c3, p) == Word(c1, p)
    {
      assert Word(c2, p) == Word(c1, p);
    }
  }

  // The header word is part of the block.
  lemma PreservedHeaders(cells: seq<int>, cells': seq<int>, headers: map<nat, SizeT>, top: nat, t: seq<Kind>, work: int)
    requires |t| == NODE_COUNT && HeadersOk(headers, top, t, work)
    requires Preserved(cells, cells', headers) && HeadersStored(cells, headers)
    ensures HeadersStored(cells', headers)
  {
    forall a | a in headers
      ensures Word(cells', HEAP + a) == headers[a]
    {
      assert OwnerOk(headers, t, a);
      assert InBlock(headers, a, HEAP + a);
    }
  }

  // When the block being worked on changes from i to m, the other live blocks keep their headers.
  lemma HeadersMove(headers: map<nat, SizeT>, top: nat, top': nat, t: seq<Kind>, u: seq<Kind>, i: int, m: int)
    requires |t| == |u| == NODE_COUNT && HeadersOk(headers, top, t, i) && top <= top'
    requires LiveChange(t, u, i, m) && (0 <= m < NODE_COUNT && m != i ==> !t[m].Live?)
    ensures HeadersOk(headers, top', u, m)
  {
    forall j | 0 <= j < NODE_COUNT && u[j].Live? && j != m
      ensures HeaderOk(headers, top', j)
    {
      assert t[j].Live? && j != i && HeaderOk(headers, top, j);
    }
    forall a | a in headers
      ensures OwnerOk(headers, u, a) && NodeForPtr(a, BucketFor(Need(headers[a]))) != m
    {
      assert OwnerOk(headers, t, a);
    }
  }

  lemma SbrkPreserves(cells: seq<int>, cells': seq<int>, headers: map<nat, SizeT>, top: nat, t: seq<Kind>, work: int)
    requires |t| == NODE_COUNT && HeadersOk(headers, top, t, work) && |cells| == HEAP + top && cells <= cells'
    ensures Preserved(cells, cells', headers)
  {
    forall a, p | InBlock(headers, a, p)
      ensures Word(cells', p) == Word(cells, p)
    {
      var j := BlockHasLive(headers, top, t, work, a, p);
    }
  }

  lemma NothingToPreserve(cells: seq<int>, cells': seq<int>, headers: map<nat, SizeT>, top: nat, t: seq<Kind>,
    limit: nat)
    requires WellFormed(t, limit) && HeadersOk(headers, top, t, -1) && t[Root(limit)].Free? && |cells| <= |cells'|
    ensures Preserved(cells, cells', headers)
  {
    forall a, p
      ensures !InBlock(headers, a, p)
    {
      if InBlock(headers, a, p) {
        var j := BlockHasLive(headers, top, t, -1, a, p);
        PresentIsWithinRoot(t, limit, j);
        AboveIsSplit(t, limit, j, Root(limit));
      }
    }
  }
}
