/** The allocator's tree as a ghost picture: what every node of the implicit tree currently is.
    Nothing of it is stored by the program, which keeps one bit per node and the free lists. */
module Tree {
  import opened Geometry

  // Absent: not part of the tree, i.e. inside a whole block or outside the current root.
  datatype Kind = Absent | Free | Live | Split

  ghost predicate IsBlock(k: Kind) {
    k.Free? || k.Live?
  }

  // The rules tying a node to its parent and its children.
  ghost predicate NodeOk(t: seq<Kind>, root: nat, i: nat)
    requires |t| == NODE_COUNT && i < NODE_COUNT
  {
    && (!t[i].Absent? && i != root ==> i > 0 && t[Parent(i)].Split?)
    && (t[i].Split? ==>
          && 2 * i + 2 < NODE_COUNT
          && !t[2 * i + 1].Absent?
          && !t[2 * i + 2].Absent?
          && !(t[2 * i + 1].Free? && t[2 * i + 2].Free?))
  }

  ghost predicate WellFormed(t: seq<Kind>, limit: nat) {
    && |t| == NODE_COUNT
    && limit < BUCKET_COUNT
    && Root(limit) < NODE_COUNT
    && !t[Root(limit)].Absent?
    && forall i {:trigger NodeOk(t, Root(limit), i)} :: 0 <= i < NODE_COUNT ==> NodeOk(t, Root(limit), i)
  }

  lemma {:induction false} PresentIsWithinRoot(t: seq<Kind>, limit: nat, i: nat)
    requires WellFormed(t, limit) && i < NODE_COUNT && !t[i].Absent?
    ensures Within(i, Root(limit))
  {
    assert NodeOk(t, Root(limit), i);
    if i != Root(limit) {
      PresentIsWithinRoot(t, limit, Parent(i));
    }
  }

  // Strictly above a present node there are only split nodes, up to the root.
  lemma {:induction false} AboveIsSplit(t: seq<Kind>, limit: nat, i: nat, a: nat)
    requires WellFormed(t, limit) && i < NODE_COUNT && !t[i].Absent?
    requires Within(i, a) && i != a
    ensures t[a].Split? || t[a].Absent?
  {
    assert NodeOk(t, Root(limit), i);
    PresentIsWithinRoot(t, limit, i);
    if i == Root(limit) {
      if !t[a].Absent? {
        PresentIsWithinRoot(t, limit, a);
        WithinNested(i, a);
        WithinNested(a, i);
      }
    } else if Parent(i) != a {
      AboveIsSplit(t, limit, Parent(i), a);
    }
  }

  lemma BlocksDisjoint(t: seq<Kind>, limit: nat, i: nat, j: nat)
    requires WellFormed(t, limit) && i < NODE_COUNT && j < NODE_COUNT
    requires IsBlock(t[i]) && IsBlock(t[j]) && i != j
    ensures Disjoint(i, j) && Addr(i) != Addr(j)
  {
    if Within(i, j) {
      AboveIsSplit(t, limit, i, j);
    } else if Within(j, i) {
      AboveIsSplit(t, limit, j, i);
    } else {
      UnrelatedDisjoint(i, j);
    }
    Aligned16(i);
    Aligned16(j);
  }

  ghost predicate Covers(i: nat, x: nat)
    requires i < NODE_COUNT
  {
    Addr(i) <= x < Addr(i) + Size(i)
  }

  ghost predicate InSomeBlock(t: seq<Kind>, x: nat)
    requires |t| == NODE_COUNT
  {
    exists i :: 0 <= i < NODE_COUNT && IsBlock(t[i]) && Covers(i, x)
  }

  // The block an address lies in, found by descending from a present node.
  ghost function BlockAt(t: seq<Kind>, limit: nat, i: nat, x: nat): (r: nat)
    requires WellFormed(t, limit) && i < NODE_COUNT && !t[i].Absent? && Covers(i, x)
    ensures r < NODE_COUNT && IsBlock(t[r]) && Covers(r, x)
    decreases NODE_COUNT - i
  {
    if IsBlock(t[i]) then i
    else
      assert NodeOk(t, Root(limit), i);
      ChildGeometry(i);
      if x < Addr(2 * i + 2) then BlockAt(t, limit, 2 * i + 1, x) else BlockAt(t, limit, 2 * i + 2, x)
  }

  // The root's block starts at base_ptr.
  lemma {:induction false} RootAddr(b: nat)
    requires b < BUCKET_COUNT
    ensures Root(b) < NODE_COUNT && Addr(Root(b)) == 0 && Size(Root(b)) == BlockSize(b)
  {
    RootInRange(b);
    RootLevel(b);
    if b > 0 {
      hide Level, Pow2, Size;
      RootAddr(b - 1);
    }
  }

  /** Tiling: the free and the live blocks partition the range from 0 to the root's size:
      every address below it lies in exactly one of them, and none reaches beyond it. */
  lemma Tiling(t: seq<Kind>, limit: nat)
    requires WellFormed(t, limit)
    ensures forall x: nat :: x < BlockSize(limit) ==> InSomeBlock(t, x)
    ensures forall i, j :: 0 <= i < NODE_COUNT && 0 <= j < NODE_COUNT && i != j && IsBlock(t[i]) && IsBlock(t[j])
                           ==> Disjoint(i, j)
    ensures forall i :: 0 <= i < NODE_COUNT && IsBlock(t[i]) ==> Addr(i) + Size(i) <= BlockSize(limit)
  {
    RootAddr(limit);
    forall x: nat | x < BlockSize(limit)
      ensures InSomeBlock(t, x)
    {
      var i := BlockAt(t, limit, Root(limit), x);
    }
    forall i, j | 0 <= i < NODE_COUNT && 0 <= j < NODE_COUNT && i != j && IsBlock(t[i]) && IsBlock(t[j])
      ensures Disjoint(i, j)
    {
      BlocksDisjoint(t, limit, i, j);
    }
    forall i | 0 <= i < NODE_COUNT && IsBlock(t[i])
      ensures Addr(i) + Size(i) <= BlockSize(limit)
    {
      PresentIsWithinRoot(t, limit, i);
      WithinNested(i, Root(limit));
    }
  }

  // ---------- the picture is determined by the live blocks and the root ----------

  ghost predicate HoldsLive(t: seq<Kind>, i: nat)
    requires |t| == NODE_COUNT
    decreases NODE_COUNT - i
  {
    i < NODE_COUNT && (t[i].Live? || HoldsLive(t, 2 * i + 1) || HoldsLive(t, 2 * i + 2))
  }

  ghost predicate SameLive(t: seq<Kind>, u: seq<Kind>)
    requires |t| == |u| == NODE_COUNT
  {
    forall i :: 0 <= i < NODE_COUNT ==> (t[i].Live? <==> u[i].Live?)
  }

  lemma {:induction false} HoldsLiveSame(t: seq<Kind>, u: seq<Kind>, i: nat)
    requires |t| == |u| == NODE_COUNT && SameLive(t, u)
    ensures HoldsLive(t, i) <==> HoldsLive(u, i)
    decreases NODE_COUNT - i
  {
    if i < NODE_COUNT {
      HoldsLiveSame(t, u, 2 * i + 1);
      HoldsLiveSame(t, u, 2 * i + 2);
    }
  }

  // No two buddies are both free, so a split node always has a live block somewhere below it.
  lemma {:induction false} SplitHoldsLive(t: seq<Kind>, limit: nat, i: nat)
    requires WellFormed(t, limit) && i < NODE_COUNT && t[i].Split?
    ensures HoldsLive(t, i)
    decreases NODE_COUNT - i
  {
    assert NodeOk(t, Root(limit), i);
    if t[2 * i + 1].Split? {
      SplitHoldsLive(t, limit, 2 * i + 1);
    } else if t[2 * i + 2].Split? {
      SplitHoldsLive(t, limit, 2 * i + 2);
    } else if t[2 * i + 1].Live? {
      assert HoldsLive(t, 2 * i + 1);
    } else {
      assert HoldsLive(t, 2 * i + 2);
    }
  }

  // A witness of HoldsLive.
  lemma {:induction false} LiveBelow(t: seq<Kind>, i: nat) returns (j: nat)
    requires |t| == NODE_COUNT && HoldsLive(t, i)
    ensures j < NODE_COUNT && t[j].Live? && Within(j, i)
    decreases NODE_COUNT - i
  {
    if t[i].Live? {
      j := i;
    } else if HoldsLive(t, 2 * i + 1) {
      j := LiveBelow(t, 2 * i + 1);
      assert Within(2 * i + 1, i);
      WithinTransitive(j, 2 * i + 1, i);
    } else {
      j := LiveBelow(t, 2 * i + 2);
      assert Within(2 * i + 2, i);
      WithinTransitive(j, 2 * i + 2, i);
    }
  }

  lemma FreeHoldsNoLive(t: seq<Kind>, limit: nat, i: nat)
    requires WellFormed(t, limit) && i < NODE_COUNT && t[i].Free?
    ensures !HoldsLive(t, i)
  {
    if HoldsLive(t, i) {
      var j := LiveBelow(t, i);
      AboveIsSplit(t, limit, j, i);
    }
  }

  lemma {:induction false} SameKindWhenPresent(t: seq<Kind>, u: seq<Kind>, limit: nat, i: nat)
    requires WellFormed(t, limit) && WellFormed(u, limit) && SameLive(t, u)
    requires i < NODE_COUNT && !t[i].Absent?
    ensures t[i] == u[i]
  {
    var root := Root(limit);
    assert NodeOk(t, root, i);
    if i != root {
      SameKindWhenPresent(t, u, limit, Parent(i));
      assert NodeOk(u, root, Parent(i));
    }
    assert !u[i].Absent?;
    HoldsLiveSame(t, u, i);
    if t[i].Split? { SplitHoldsLive(t, limit, i); }
    if u[i].Split? { SplitHoldsLive(u, limit, i); }
    if t[i].Free? { FreeHoldsNoLive(t, limit, i); }
    if u[i].Free? { FreeHoldsNoLive(u, limit, i); }
  }

  /** History independence of the picture. */
  lemma PictureUnique(t: seq<Kind>, u: seq<Kind>, limit: nat)
    requires WellFormed(t, limit) && WellFormed(u, limit) && SameLive(t, u)
    ensures t == u
  {
    forall i | 0 <= i < NODE_COUNT
      ensures t[i] == u[i]
    {
      if !t[i].Absent? {
        SameKindWhenPresent(t, u, limit, i);
      } else if !u[i].Absent? {
        SameKindWhenPresent(u, t, limit, i);
      }
    }
  }

  // With nothing live, the root is the one free block and nothing else is present.
  lemma NothingLive(t: seq<Kind>, limit: nat)
    requires WellFormed(t, limit)
    requires forall i :: 0 <= i < NODE_COUNT ==> !t[i].Live?
    ensures forall i :: 0 <= i < NODE_COUNT ==> t[i] == if i == Root(limit) then Free else Absent
  {
    forall i | 0 <= i < NODE_COUNT
      ensures t[i] == if i == Root(limit) then Free else Absent
    {
      if t[i].Split? {
        SplitHoldsLive(t, limit, i);
        var j := LiveBelow(t, i);
      } else if t[i].Free? && i != Root(limit) {
        assert NodeOk(t, Root(limit), i);
        SplitHoldsLive(t, limit, Parent(i));
        var j := LiveBelow(t, Parent(i));
      }
      if t[Root(limit)].Split? {
        SplitHoldsLive(t, limit, Root(limit));
        var j := LiveBelow(t, Root(limit));
      }
    }
  }

  // ---------- how the operations redraw the picture ----------

  lemma AllocateOk(t: seq<Kind>, limit: nat, i: nat)
    requires WellFormed(t, limit) && i < NODE_COUNT && t[i].Free?
    ensures WellFormed(t[i := Live], limit)
  {
    var u := t[i := Live];
    forall j | 0 <= j < NODE_COUNT ensures NodeOk(u, Root(limit), j) {
      assert NodeOk(t, Root(limit), j);
    }
  }

  ghost function SplitPicture(t: seq<Kind>, i: nat): seq<Kind>
    requires |t| == NODE_COUNT && 2 * i + 2 < NODE_COUNT
  {
    t[i := Split][2 * i + 1 := Live][2 * i + 2 := Free]
  }

  lemma ChildrenAbsent(t: seq<Kind>, limit: nat, i: nat)
    requires WellFormed(t, limit) && 2 * i + 2 < NODE_COUNT && !t[i].Split?
    ensures (t[2 * i + 1].Absent? || 2 * i + 1 == Root(limit)) && t[2 * i + 2].Absent?
    ensures !t[i].Absent? ==> t[2 * i + 1].Absent?
  {
    hide Level;
    assert NodeOk(t, Root(limit), 2 * i + 1);
    assert NodeOk(t, Root(limit), 2 * i + 2);
    if limit > 0 { RootLevel(limit); }
    assert 2 * i + 2 != Root(limit);
    if !t[i].Absent? && 2 * i + 1 == Root(limit) {
      PresentIsWithinRoot(t, limit, i);
    }
  }

  lemma SplitOk(t: seq<Kind>, limit: nat, i: nat)
    requires WellFormed(t, limit) && 2 * i + 2 < NODE_COUNT && t[i].Live?
    ensures WellFormed(SplitPicture(t, i), limit)
  {
    ChildrenAbsent(t, limit, i);
    forall j | 0 <= j < NODE_COUNT ensures NodeOk(SplitPicture(t, i), Root(limit), j) {
      assert NodeOk(t, Root(limit), j);
    }
  }

  ghost function MergePicture(t: seq<Kind>, i: nat): seq<Kind>
    requires |t| == NODE_COUNT && 0 < i < NODE_COUNT && Buddy(i) < NODE_COUNT
  {
    t[i := Absent][Buddy(i) := Absent][Parent(i) := Live]
  }

  lemma BuddyInRange(i: nat)
    requires 0 < i < NODE_COUNT
    ensures Buddy(i) < NODE_COUNT && 2 * Parent(i) + 2 < NODE_COUNT && Parent(i) < INNER_COUNT
    ensures {i, Buddy(i)} == {2 * Parent(i) + 1, 2 * Parent(i) + 2}
  {
    InnerNodes(Parent(i));
  }

  lemma MergeOk(t: seq<Kind>, limit: nat, i: nat)
    requires WellFormed(t, limit) && 0 < i < NODE_COUNT && i != Root(limit)
    requires t[i].Live? && Buddy(i) < NODE_COUNT && t[Buddy(i)].Free?
    ensures WellFormed(MergePicture(t, i), limit)
  {
    hide Level, Pow2;
    BuddyInRange(i);
    assert NodeOk(t, Root(limit), i);
    PresentIsWithinRoot(t, limit, Parent(i));
    assert Buddy(i) != Root(limit);
    forall j | 0 <= j < NODE_COUNT ensures NodeOk(MergePicture(t, i), Root(limit), j) {
      assert NodeOk(t, Root(limit), j);
    }
  }

  lemma ReleaseOk(t: seq<Kind>, limit: nat, i: nat)
    requires WellFormed(t, limit) && i < NODE_COUNT && t[i].Live?
    requires i != Root(limit) ==> i > 0 && Buddy(i) < NODE_COUNT && !t[Buddy(i)].Free?
    ensures WellFormed(t[i := Free], limit)
  {
    var u := t[i := Free];
    forall j | 0 <= j < NODE_COUNT ensures NodeOk(u, Root(limit), j) {
      assert NodeOk(t, Root(limit), j);
      if i == Root(limit) && t[j].Split? && (2 * j + 1 == i || 2 * j + 2 == i) {
        PresentIsWithinRoot(t, limit, j);
      }
    }
  }

  ghost function GrowPicture(t: seq<Kind>, limit: nat): seq<Kind>
    requires |t| == NODE_COUNT && 0 < limit < BUCKET_COUNT && Root(limit) + 1 < NODE_COUNT
  {
    if t[Root(limit)].Free? then t[Root(limit) := Absent][Root(limit - 1) := Free]
    else t[Root(limit) + 1 := Free][Root(limit - 1) := Split]
  }

  lemma GrowOk(t: seq<Kind>, limit: nat)
    requires WellFormed(t, limit) && limit > 0
    ensures Root(limit) + 1 < NODE_COUNT && Root(limit - 1) < NODE_COUNT
    ensures t[Root(limit - 1)].Absent? && t[Root(limit) + 1].Absent?
    ensures WellFormed(GrowPicture(t, limit), limit - 1)
  {
    hide Level, Pow2;
    var root, up := Root(limit), Root(limit - 1);
    RootLevel(limit);
    BuddyInRange(root);
    if !t[up].Absent? { PresentIsWithinRoot(t, limit, up); }
    assert root == 2 * up + 1;
    assert NodeOk(t, root, root + 1);
    forall j | 0 <= j < NODE_COUNT ensures NodeOk(GrowPicture(t, limit), up, j) {
      assert NodeOk(t, root, j);
    }
  }
}
