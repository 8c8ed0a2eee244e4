/** Memory as the program sees it, and the circular lists of list.c inside it.
    cells[a] holds the 8-byte word stored at byte address a; a `struct list_t` at p has its `prev` at p and its
    `next` at p + 8. */
module Memory {
  import opened FreeLists

  const NULL: int := 0

  // A place for a struct list_t: inside the memory, 16-byte aligned, so two of them never overlap partly.
  ghost predicate Slot(size: int, p: int) {
    0 < p && p % 16 == 0 && p + 16 <= size
  }

  function Word(cells: seq<int>, p: int): int {
    if 0 <= p < |cells| then cells[p] else NULL
  }

  ghost predicate Linked(cells: seq<int>, p: int, q: int) {
    Word(cells, p + 8) == q && Word(cells, q) == p
  }

  // c lists the nodes of a ring from the head round to the head again.
  ghost predicate Links(cells: seq<int>, c: seq<int>) {
    forall k {:trigger c[k]} :: 0 <= k < |c| - 1 ==> Linked(cells, c[k], c[k + 1])
  }

  ghost function Cycle(head: int, s: seq<int>): (c: seq<int>)
    ensures |c| == |s| + 2
  {
    [head] + s + [head]
  }

  // The ring with this head holds exactly these entries, in this order.
  ghost predicate Ring(cells: seq<int>, head: int, s: seq<int>) {
    && Distinct([head] + s)
    && (forall p :: Owns(head, s, p) ==> Slot(|cells|, p))
    && Links(cells, Cycle(head, s))
  }

  // p is the head or an entry of this ring.
  ghost predicate Owns(head: int, s: seq<int>, p: int) {
    p == head || p in s
  }

  lemma CycleOwned(head: int, s: seq<int>, k: nat)
    requires k < |s| + 2
    ensures Owns(head, s, Cycle(head, s)[k])
  {
  }

  lemma RingFrame(cells: seq<int>, cells': seq<int>, head: int, s: seq<int>)
    requires Ring(cells, head, s) && |cells| <= |cells'|
    requires forall p :: Owns(head, s, p) ==>
               Word(cells', p) == Word(cells, p) && Word(cells', p + 8) == Word(cells, p + 8)
    ensures Ring(cells', head, s)
  {
    var c := Cycle(head, s);
    forall k | 0 <= k < |c| - 1
      ensures Linked(cells', c[k], c[k + 1])
    {
      CycleOwned(head, s, k);
      CycleOwned(head, s, k + 1);
      assert Linked(cells, c[k], c[k + 1]);
    }
  }

  // ---------- the writes of list.c, on one ring ----------

  function PushWrites(cells: seq<int>, head: int, last: int, x: int): seq<int>
    requires 0 <= head < |cells| && 0 <= last && last + 8 < |cells| && 0 <= x && x + 8 < |cells|
  {
    cells[x := last][x + 8 := head][last + 8 := x][head := x]
  }

  lemma PushReads(cells: seq<int>, head: int, last: int, x: int, q: int)
    requires Slot(|cells|, head) && Slot(|cells|, last) && Slot(|cells|, x) && Slot(|cells|, q)
    requires x != head && x != last
    ensures var cells' := PushWrites(cells, head, last, x);
            && Word(cells', q) == (if q == head then x else if q == x then last else Word(cells, q))
            && Word(cells', q + 8) == (if q == last then x else if q == x then head else Word(cells, q + 8))
  {
  }

  // The entries of a cycle are pairwise different, but for the head closing it.
  lemma CycleDistinct(head: int, s: seq<int>, j: nat, k: nat)
    requires Distinct([head] + s) && j < k < |s| + 2 && (j, k) != (0, |s| + 1)
    ensures Cycle(head, s)[j] != Cycle(head, s)[k]
  {
    var all := [head] + s;
    assert all[j] == Cycle(head, s)[j];
    if k <= |s| {
      assert all[k] == Cycle(head, s)[k];
    } else {
      assert all[0] == head == Cycle(head, s)[k];
    }
  }

  // One link of a ring, and two places of it.
  lemma RingLink(cells: seq<int>, head: int, s: seq<int>, k: nat)
    requires Ring(cells, head, s) && k <= |s|
    ensures var c := Cycle(head, s); Slot(|cells|, c[k]) && Slot(|cells|, c[k + 1]) && Linked(cells, c[k], c[k + 1])
  {
    CycleOwned(head, s, k);
    CycleOwned(head, s, k + 1);
  }

  lemma RingApart(cells: seq<int>, head: int, s: seq<int>, j: nat, k: nat)
    requires Ring(cells, head, s) && j < k < |s| + 2 && (j, k) != (0, |s| + 1)
    ensures Cycle(head, s)[j] != Cycle(head, s)[k]
  {
    CycleDistinct(head, s, j, k);
  }

  lemma CyclePushed(head: int, s: seq<int>, x: int, k: nat)
    requires k < |s| + 2
    ensures Cycle(head, s)[0] == head
    ensures var c, d := Cycle(head, s), Cycle(head, s + [x]);
            && d[k] == (if k <= |s| then c[k] else x)
            && d[k + 1] == (if k < |s| then c[k + 1] else if k == |s| then x else head)
  {
  }

  lemma NotOwned(head: int, s: seq<int>, x: int, k: nat)
    requires !Owns(head, s, x) && k < |s| + 2
    ensures Cycle(head, s)[k] != x
  {
    CycleOwned(head, s, k);
  }

  // One link of the lengthened cycle.
  lemma PushedLink(cells: seq<int>, head: int, s: seq<int>, x: int, k: nat)
    requires Ring(cells, head, s) && Slot(|cells|, x) && !Owns(head, s, x) && k < |s| + 2
    requires Slot(|cells|, head) && Slot(|cells|, Cycle(head, s)[|s|])
    ensures var d := Cycle(head, s + [x]);
            Linked(PushWrites(cells, head, Cycle(head, s)[|s|], x), d[k], d[k + 1])
  {
    CyclePushed(head, s, x, k);
    CycleOwned(head, s, |s|);
    hide Cycle, PushWrites, Ring, Slot, Word;
    var c, d := Cycle(head, s), Cycle(head, s + [x]);
    var last := c[|s|];
    if k < |s| {
      RingLink(cells, head, s, k);
      RingApart(cells, head, s, k, |s|);
      RingApart(cells, head, s, 0, k + 1);
      NotOwned(head, s, x, k);
      NotOwned(head, s, x, k + 1);
    }
    PushReads(cells, head, last, x, d[k]);
    PushReads(cells, head, last, x, d[k + 1]);
  }

  lemma PushRing(cells: seq<int>, head: int, s: seq<int>, x: int)
    requires Ring(cells, head, s) && Slot(|cells|, x) && !Owns(head, s, x)
    ensures Word(cells, head) == Cycle(head, s)[|s|]
    ensures Slot(|cells|, Cycle(head, s)[|s|]) && Owns(head, s, Cycle(head, s)[|s|])
    ensures Ring(PushWrites(cells, head, Cycle(head, s)[|s|], x), head, s + [x])
  {
    var c, d := Cycle(head, s), Cycle(head, s + [x]);
    CycleOwned(head, s, |s|);
    assert Linked(cells, c[|s|], c[|s| + 1]);
    assert Owns(head, s, head);
    var cells' := PushWrites(cells, head, c[|s|], x);
    assert |d| == |s| + 3 && [head] + (s + [x]) == ([head] + s) + [x];
    forall p | Owns(head, s + [x], p)
      ensures Slot(|cells'|, p)
    {
      assert p == x || Owns(head, s, p);
    }
    hide Linked, PushWrites;
    forall k | 0 <= k < |d| - 1
      ensures Linked(cells', d[k], d[k + 1])
    {
      PushedLink(cells, head, s, x, k);
    }
  }

  function UnlinkWrites(cells: seq<int>, prev: int, next: int): seq<int>
    requires 0 <= prev && prev + 8 < |cells| && 0 <= next < |cells|
  {
    cells[prev + 8 := next][next := prev]
  }

  lemma UnlinkReads(cells: seq<int>, prev: int, next: int, q: int)
    requires Slot(|cells|, prev) && Slot(|cells|, next) && Slot(|cells|, q)
    ensures var cells' := UnlinkWrites(cells, prev, next);
            && Word(cells', q) == (if q == next then prev else Word(cells, q))
            && Word(cells', q + 8) == (if q == prev then next else Word(cells, q + 8))
  {
  }

  // The neighbours an entry's own links name.
  lemma Neighbours(cells: seq<int>, head: int, s: seq<int>, j: nat)
    requires Ring(cells, head, s) && j < |s|
    ensures var prev, next := Cycle(head, s)[j], Cycle(head, s)[j + 2];
            && Cycle(head, s)[j + 1] == s[j]
            && Word(cells, s[j]) == prev && Word(cells, s[j] + 8) == next
            && Slot(|cells|, prev) && Slot(|cells|, next) && Slot(|cells|, s[j])
            && Owns(head, s, prev) && Owns(head, s, next)
  {
    var c := Cycle(head, s);
    CycleOwned(head, s, j);
    CycleOwned(head, s, j + 1);
    CycleOwned(head, s, j + 2);
    assert Linked(cells, c[j], c[j + 1]) && Linked(cells, c[j + 1], c[j + 2]);
  }

  // The links not next to the removed entry stay.
  lemma LinkKept(cells: seq<int>, head: int, s: seq<int>, j: nat, m: nat)
    requires Ring(cells, head, s) && j < |s| && m <= |s| && (m < j || j + 2 <= m)
    requires Slot(|cells|, Cycle(head, s)[j]) && Slot(|cells|, Cycle(head, s)[j + 2])
    ensures var c := Cycle(head, s); Linked(UnlinkWrites(cells, c[j], c[j + 2]), c[m], c[m + 1])
  {
    hide Cycle, UnlinkWrites, Ring, Slot, Word;
    var c := Cycle(head, s);
    RingLink(cells, head, s, m);
    if m < j {
      RingApart(cells, head, s, m, j);
      RingApart(cells, head, s, m + 1, j + 2);
    } else {
      RingApart(cells, head, s, j, m);
      RingApart(cells, head, s, j + 2, m + 1);
    }
    UnlinkReads(cells, c[j], c[j + 2], c[m]);
    UnlinkReads(cells, c[j], c[j + 2], c[m + 1]);
  }

  lemma CycleWithout(head: int, s: seq<int>, j: nat, k: nat)
    requires j < |s| && k < |s| + 1
    ensures Cycle(head, s[..j] + s[j + 1..])[k] == Cycle(head, s)[if k <= j then k else k + 1]
  {
  }

  // One link of the shortened cycle.
  lemma UnlinkedLink(cells: seq<int>, head: int, s: seq<int>, j: nat, k: nat)
    requires Ring(cells, head, s) && j < |s| && k < |s|
    requires Slot(|cells|, Cycle(head, s)[j]) && Slot(|cells|, Cycle(head, s)[j + 2])
    ensures var c, d := Cycle(head, s), Cycle(head, s[..j] + s[j + 1..]);
            Linked(UnlinkWrites(cells, c[j], c[j + 2]), d[k], d[k + 1])
  {
    hide Cycle, UnlinkWrites, Word, Ring, Slot;
    var c := Cycle(head, s);
    CycleWithout(head, s, j, k);
    CycleWithout(head, s, j, k + 1);
    if k == j {
      UnlinkReads(cells, c[j], c[j + 2], c[j]);
      UnlinkReads(cells, c[j], c[j + 2], c[j + 2]);
    } else {
      LinkKept(cells, head, s, j, if k < j then k else k + 1);
    }
  }

  lemma UnlinkLinks(cells: seq<int>, head: int, s: seq<int>, j: nat)
    requires Ring(cells, head, s) && j < |s|
    requires Slot(|cells|, Cycle(head, s)[j]) && Slot(|cells|, Cycle(head, s)[j + 2])
    ensures Links(UnlinkWrites(cells, Cycle(head, s)[j], Cycle(head, s)[j + 2]), Cycle(head, s[..j] + s[j + 1..]))
  {
    var c, d := Cycle(head, s), Cycle(head, s[..j] + s[j + 1..]);
    assert |d| == |s| + 1;
    var cells' := UnlinkWrites(cells, c[j], c[j + 2]);
    hide Cycle, UnlinkWrites, Linked, Ring, Slot;
    forall k | 0 <= k < |d| - 1
      ensures Linked(cells', d[k], d[k + 1])
    {
      UnlinkedLink(cells, head, s, j, k);
    }
  }

  lemma UnlinkRing(cells: seq<int>, head: int, s: seq<int>, j: nat)
    requires Ring(cells, head, s) && j < |s|
    requires Slot(|cells|, Cycle(head, s)[j]) && Slot(|cells|, Cycle(head, s)[j + 2])
    ensures Ring(UnlinkWrites(cells, Cycle(head, s)[j], Cycle(head, s)[j + 2]), head, s[..j] + s[j + 1..])
  {
    UnlinkLinks(cells, head, s, j);
    var all, r := [head] + s, s[..j] + s[j + 1..];
    assert [head] + r == all[..j + 1] + all[j + 2..];
    forall p | Owns(head, r, p)
      ensures Owns(head, s, p)
    {
    }
  }

  // ---------- a family of rings ----------

  // What every ring holds, by the address of its head.
  type Rings = map<int, seq<int>>

  ghost predicate Owned(rings: Rings, h: int, p: int) {
    h in rings && Owns(h, rings[h], p)
  }

  // Well-formed rings that share no node.
  ghost predicate Family(cells: seq<int>, rings: Rings) {
    && (forall h :: h in rings ==> Ring(cells, h, rings[h]))
    && (forall h, g, p :: Owned(rings, h, p) && Owned(rings, g, p) ==> h == g)
  }

  // p is one of the two link words of a node of this ring, or of some ring.
  ghost predicate LinkOf(rings: Rings, h: int, p: int) {
    Owned(rings, h, p) || Owned(rings, h, p - 8)
  }

  ghost predicate LinkCell(rings: Rings, p: int) {
    exists h :: LinkOf(rings, h, p)
  }

  ghost predicate NewNode(size: int, rings: Rings, x: int) {
    Slot(size, x) && forall h :: !Owned(rings, h, x)
  }

  // Apart from the links of the family and of node x, memory is as it was.
  ghost predicate OnlyLinks(cells: seq<int>, cells': seq<int>, rings: Rings, x: int) {
    && |cells'| == |cells|
    && forall p {:trigger Word(cells', p)} :: !LinkCell(rings, p) && p != x && p != x + 8 ==>
         Word(cells', p) == Word(cells, p)
  }

  // The links stored at p are what they were.
  ghost predicate SameLinks(cells: seq<int>, cells': seq<int>, p: int) {
    Word(cells', p) == Word(cells, p) && Word(cells', p + 8) == Word(cells, p + 8)
  }

  lemma OwnedSlot(cells: seq<int>, rings: Rings, h: int, p: int)
    requires Family(cells, rings) && Owned(rings, h, p)
    ensures Slot(|cells|, p) && Slot(|cells|, h) && LinkCell(rings, p) && LinkCell(rings, p + 8)
  {
    assert Ring(cells, h, rings[h]);
    assert Owned(rings, h, h) && LinkOf(rings, h, p) && LinkOf(rings, h, p + 8);
  }

  lemma PushFamily(cells: seq<int>, rings: Rings, h: int, x: int)
    requires Family(cells, rings) && h in rings && NewNode(|cells|, rings, x)
    ensures var last := Word(cells, h);
            && Slot(|cells|, h) && Slot(|cells|, last)
            && var cells' := PushWrites(cells, h, last, x);
               && Family(cells', rings[h := rings[h] + [x]])
               && OnlyLinks(cells, cells', rings, x)
  {
    var s := rings[h];
    assert Owned(rings, h, h) && !Owned(rings, h, x);
    PushRing(cells, h, s, x);
    var last := Word(cells, h);
    assert Owned(rings, h, last);
    var cells', rings' := PushWrites(cells, h, last, x), rings[h := s + [x]];
    forall g | g in rings'
      ensures Ring(cells', g, rings'[g])
    {
      if g != h {
        forall p | Owns(g, rings[g], p)
          ensures Word(cells', p) == Word(cells, p) && Word(cells', p + 8) == Word(cells, p + 8)
        {
          assert Owned(rings, g, p);
          OwnedSlot(cells, rings, g, p);
          PushReads(cells, h, last, x, p);
        }
        RingFrame(cells, cells', g, rings[g]);
      }
    }
    forall f, g, p | Owned(rings', f, p) && Owned(rings', g, p)
      ensures f == g
    {
      assert !Owned(rings, f, x) && !Owned(rings, g, x);
      if p != x { assert Owned(rings, f, p) && Owned(rings, g, p); }
    }
    OwnedSlot(cells, rings, h, h);
    OwnedSlot(cells, rings, h, last);
  }

  // Removing an entry from whichever ring holds it.
  ghost function Unlinked(rings: Rings, p: int): Rings {
    map h | h in rings :: Without(rings[h], p)
  }

  lemma UnlinkedAt(cells: seq<int>, rings: Rings, h: int, j: nat)
    requires Family(cells, rings) && h in rings && j < |rings[h]|
    ensures Unlinked(rings, rings[h][j]) == rings[h := rings[h][..j] + rings[h][j + 1..]]
  {
    var p := rings[h][j];
    assert Owned(rings, h, p);
    forall g | g in rings
      ensures Without(rings[g], p) == if g == h then rings[h][..j] + rings[h][j + 1..] else rings[g]
    {
      if g == h {
        RingDistinct(cells, h, rings[h]);
        WithoutAt(rings[h], j);
      } else {
        assert !Owned(rings, g, p);
        WithoutMissing(rings[g], p);
      }
    }
  }

  lemma RingDistinct(cells: seq<int>, h: int, s: seq<int>)
    requires Ring(cells, h, s)
    ensures Distinct(s) && h !in s
  {
    var all := [h] + s;
    forall j, k | 0 <= j < k < |s|
      ensures s[j] != s[k]
    {
      assert all[j + 1] == s[j] && all[k + 1] == s[k];
    }
    forall k | 0 <= k < |s|
      ensures s[k] != h
    {
      assert all[0] == h && all[k + 1] == s[k];
    }
  }

  // The rings that do not hold the entry are as they were.
  lemma OtherRingStays(cells: seq<int>, rings: Rings, h: int, g: int, prev: int, next: int)
    requires Family(cells, rings) && Owned(rings, h, prev) && Owned(rings, h, next) && g in rings && g != h
    requires Slot(|cells|, prev) && Slot(|cells|, next)
    ensures Ring(UnlinkWrites(cells, prev, next), g, rings[g])
  {
    var cells' := UnlinkWrites(cells, prev, next);
    forall q | Owns(g, rings[g], q)
      ensures Word(cells', q) == Word(cells, q) && Word(cells', q + 8) == Word(cells, q + 8)
    {
      assert Owned(rings, g, q);
      OwnedSlot(cells, rings, g, q);
      UnlinkReads(cells, prev, next, q);
    }
    assert Ring(cells, g, rings[g]);
    hide Word, Family;
    RingFrame(cells, cells', g, rings[g]);
  }

  lemma UnlinkFamily(cells: seq<int>, rings: Rings, h: int, j: nat)
    requires Family(cells, rings) && h in rings && j < |rings[h]|
    ensures var p := rings[h][j];
            var prev, next := Word(cells, p), Word(cells, p + 8);
            && Slot(|cells|, prev) && Slot(|cells|, next) && Slot(|cells|, p)
            && var cells' := UnlinkWrites(cells, prev, next);
               && Family(cells', Unlinked(rings, p))
               && OnlyLinks(cells, cells', rings, p)
  {
    var s := rings[h];
    var p := s[j];
    assert Ring(cells, h, s);
    Neighbours(cells, h, s, j);
    UnlinkRing(cells, h, s, j);
    UnlinkedAt(cells, rings, h, j);
    var prev, next := Word(cells, p), Word(cells, p + 8);
    assert Owned(rings, h, prev) && Owned(rings, h, next);
    OwnedSlot(cells, rings, h, prev);
    OwnedSlot(cells, rings, h, next);
    UnlinkTouches(cells, rings, h, prev, next, p);
    var cells', rings' := UnlinkWrites(cells, prev, next), Unlinked(rings, p);
    hide Ring, UnlinkWrites, OnlyLinks, Slot, Cycle, Unlinked;
    forall g | g in rings'
      ensures Ring(cells', g, rings'[g])
    {
      if g != h { OtherRingStays(cells, rings, h, g, prev, next); }
    }
    forall f, g, q | Owned(rings', f, q) && Owned(rings', g, q)
      ensures f == g
    {
      assert Owned(rings, f, q) && Owned(rings, g, q);
    }
  }

  lemma UnlinkTouches(cells: seq<int>, rings: Rings, h: int, prev: int, next: int, p: int)
    requires Owned(rings, h, prev) && Owned(rings, h, next) && Slot(|cells|, prev) && Slot(|cells|, next)
    ensures OnlyLinks(cells, UnlinkWrites(cells, prev, next), rings, p)
  {
    assert LinkOf(rings, h, prev + 8) && LinkOf(rings, h, next);
  }

  lemma InitFamily(cells: seq<int>, rings: Rings, x: int)
    requires Family(cells, rings) && NewNode(|cells|, rings, x)
    ensures Family(cells[x := x][x + 8 := x], rings[x := []])
    ensures OnlyLinks(cells, cells[x := x][x + 8 := x], rings, x)
  {
    var cells', rings' := cells[x := x][x + 8 := x], rings[x := []];
    assert !Owned(rings, x, x);
    forall g | g in rings'
      ensures Ring(cells', g, rings'[g])
    {
      if g != x {
        forall q | Owns(g, rings[g], q)
          ensures Word(cells', q) == Word(cells, q) && Word(cells', q + 8) == Word(cells, q + 8)
        {
          assert Owned(rings, g, q) && !Owned(rings, g, x);
          OwnedSlot(cells, rings, g, q);
        }
        RingFrame(cells, cells', g, rings[g]);
      } else {
        assert Cycle(x, []) == [x, x];
      }
    }
    forall f, g, q | Owned(rings', f, q) && Owned(rings', g, q)
      ensures f == g
    {
      assert !Owned(rings, f, x) && !Owned(rings, g, x);
      if f != x && g != x { assert Owned(rings, f, q) && Owned(rings, g, q); }
      if f != x && g == x { assert Owned(rings, f, q); }
      if f == x && g != x { assert Owned(rings, g, q); }
    }
  }

  // The entry taken out keeps its own two links, stale as they are.
  lemma EntryKept(cells: seq<int>, rings: Rings, h: int, j: nat)
    requires Family(cells, rings) && h in rings && j < |rings[h]|
    ensures var p := rings[h][j];
            var prev, next := Word(cells, p), Word(cells, p + 8);
            && Slot(|cells|, prev) && Slot(|cells|, next) && Slot(|cells|, p)
            && SameLinks(cells, UnlinkWrites(cells, prev, next), p)
  {
    var s := rings[h];
    assert Ring(cells, h, s);
    Neighbours(cells, h, s, j);
    UnlinkFamily(cells, rings, h, j);
    CycleDistinct(h, s, j, j + 1);
    CycleDistinct(h, s, j + 1, j + 2);
    UnlinkReads(cells, Word(cells, s[j]), Word(cells, s[j] + 8), s[j]);
  }

  lemma StoreFamily(cells: seq<int>, cells': seq<int>, rings: Rings)
    requires Family(cells, rings) && |cells| <= |cells'|
    requires forall p :: LinkCell(rings, p) ==> Word(cells', p) == Word(cells, p)
    ensures Family(cells', rings)
  {
    forall g | g in rings
      ensures Ring(cells', g, rings[g])
    {
      forall q | Owns(g, rings[g], q)
        ensures Word(cells', q) == Word(cells, q) && Word(cells', q + 8) == Word(cells, q + 8)
      {
        OwnedSlot(cells, rings, g, q);
      }
      RingFrame(cells, cells', g, rings[g]);
    }
  }

  // ---------- list.c ----------

  class Ram {
    var cells: seq<int>
    ghost var rings: Rings

    ghost predicate Valid()
      reads this
    {
      Family(cells, rings)
    }

    constructor (size: nat)
      ensures Valid() && |cells| == size && rings == map[]
    {
      cells := seq(size, _ => 0);
      rings := map[];
    }

    // sbrk(n): the program break moves up by n bytes.
    method Sbrk(n: nat)
      requires Valid()
      modifies this
      ensures Valid() && rings == old(rings)
      ensures |cells| == old(|cells|) + n && cells[..old(|cells|)] == old(cells)
    {
      cells := cells + seq(n, _ => 0);
      StoreFamilyGrown(old(cells), cells, rings);
    }

    static lemma StoreFamilyGrown(cells: seq<int>, cells': seq<int>, rings: Rings)
      requires Family(cells, rings) && cells <= cells'
      ensures Family(cells', rings)
    {
      forall p | LinkCell(rings, p)
        ensures Word(cells', p) == Word(cells, p)
      {
        var h :| LinkOf(rings, h, p);
        OwnedSlot(cells, rings, h, if Owned(rings, h, p) then p else p - 8);
      }
      StoreFamily(cells, cells', rings);
    }

    // A plain store that hits no link.
    method Store(p: int, v: int)
      requires Valid() && 0 <= p < |cells| && !LinkCell(rings, p)
      modifies this
      ensures Valid() && rings == old(rings) && cells == old(cells)[p := v]
    {
      cells := cells[p := v];
      StoreFamily(old(cells), cells, rings);
    }

    method ListInit(list: int)
      requires Valid() && NewNode(|cells|, rings, list)
      modifies this
      ensures Valid() && rings == old(rings)[list := []]
      ensures OnlyLinks(old(cells), cells, old(rings), list) && |cells| == |old(cells)|
    {
      InitFamily(cells, rings, list);
      cells := cells[list := list];
      cells := cells[list + 8 := list];
      rings := rings[list := []];
    }

    // Appends at the end of the owning ring; no other ring changes.
    method ListPush(beginning: int, newLast: int)
      requires Valid() && beginning in rings && NewNode(|cells|, rings, newLast)
      modifies this
      ensures Valid() && rings == old(rings)[beginning := old(rings)[beginning] + [newLast]]
      ensures OnlyLinks(old(cells), cells, old(rings), newLast) && |cells| == |old(cells)|
    {
      PushFamily(cells, rings, beginning, newLast);
      var prevLast := cells[beginning];
      cells := cells[newLast := prevLast];
      cells := cells[newLast + 8 := beginning];
      cells := cells[prevLast + 8 := newLast];
      cells := cells[beginning := newLast];
      rings := rings[beginning := rings[beginning] + [newLast]];
    }

    // Takes the entry out of whichever ring holds it: the caller does not say which.
    method ListRemove(entry: int)
      requires Valid() && exists h :: h in rings && entry in rings[h]
      modifies this
      ensures Valid() && rings == Unlinked(old(rings), entry)
      ensures OnlyLinks(old(cells), cells, old(rings), entry) && |cells| == |old(cells)|
      ensures SameLinks(old(cells), cells, entry)
    {
      hide Ring, Slot, Owned, OnlyLinks, Family, Unlinked;
      UnlinkEntry(cells, rings, entry);
      var next := cells[entry + 8];
      var prev := cells[entry];
      cells := cells[prev + 8 := next];
      cells := cells[next := prev];
      rings := Unlinked(rings, entry);
    }

    static lemma UnlinkEntry(cells: seq<int>, rings: Rings, entry: int)
      requires Family(cells, rings) && exists h :: h in rings && entry in rings[h]
      ensures 0 <= entry && entry + 8 < |cells|
      ensures var prev, next := cells[entry], cells[entry + 8];
              && 0 <= prev && prev + 8 < |cells| && 0 <= next < |cells|
              && Family(cells[prev + 8 := next][next := prev], Unlinked(rings, entry))
              && OnlyLinks(cells, cells[prev + 8 := next][next := prev], rings, entry)
              && SameLinks(cells, cells[prev + 8 := next][next := prev], entry)
    {
      var h :| h in rings && entry in rings[h];
      var j :| 0 <= j < |rings[h]| && rings[h][j] == entry;
      UnlinkFamily(cells, rings, h, j);
      EntryKept(cells, rings, h, j);
      hide Family, OnlyLinks, Unlinked;
    }

    // Takes the last entry, or answers NULL when the ring is empty.
    method ListPop(list: int) returns (back: int)
      requires Valid() && list in rings
      modifies this
      ensures Valid()
      ensures back == NULL <==> old(rings)[list] == []
      ensures back == NULL ==> rings == old(rings) && cells == old(cells)
      ensures back != NULL ==> back == old(rings)[list][|old(rings)[list]| - 1]
      ensures back != NULL ==> rings == old(rings)[list := DropLast(old(rings)[list])]
      ensures OnlyLinks(old(cells), cells, old(rings), back) && |cells| == |old(cells)|
      ensures SameLinks(old(cells), cells, back)
    {
      ghost var s := rings[list];
      BackOf(cells, rings, list);
      back := cells[list];
      if back == list {
        return NULL;
      }
      UnlinkedAt(cells, rings, list, |s| - 1);
      ListRemove(back);
      assert DropLast(s) == s[..|s| - 1] + s[|s|..];
    }

    static lemma BackOf(cells: seq<int>, rings: Rings, list: int)
      requires Family(cells, rings) && list in rings
      ensures 0 <= list < |cells|
      ensures var s := rings[list];
              && cells[list] == (if s == [] then list else s[|s| - 1])
              && (s != [] ==> s[|s| - 1] != list && s[|s| - 1] > 0)
    {
      var s := rings[list];
      assert Ring(cells, list, s);
      assert Owns(list, s, list);
      var c := Cycle(list, s);
      assert Linked(cells, c[|s|], c[|s| + 1]);
      if s != [] {
        assert Owns(list, s, s[|s| - 1]);
        RingDistinct(cells, list, s);
      }
    }
  }
}
