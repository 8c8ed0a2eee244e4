/** System V semaphore sets: one semop() call applies an array of operations in order, all of them or none
    (semop() in chapter 3 of the System Interfaces volume of POSIX.1-2017, IEEE Std 1003.1-2017). */
module Semaphores {
  import opened Options

  // struct sembuf, without flags.
  datatype SemBuf = SemBuf(num: nat, op: int)

  ghost predicate Fit(ops: seq<SemBuf>, n: nat) {
    forall k {:trigger ops[k]} :: 0 <= k < |ops| ==> ops[k].num < n
  }

  // Whether one operation on a semaphore of this value can go ahead.
  predicate Passes(value: int, op: int) {
    if op == 0 then value == 0 else value + op >= 0
  }

  // None: the caller sleeps and no semaphore has changed.
  function Semop(sems: seq<nat>, ops: seq<SemBuf>): (r: Option<seq<nat>>)
    requires Fit(ops, |sems|)
    ensures r.Some? ==> |r.value| == |sems|
    decreases |ops|
  {
    if ops == [] then Some(sems)
    else
      var o := ops[0];
      if Passes(sems[o.num], o.op) then Semop(sems[o.num := sems[o.num] + o.op], ops[1..]) else None
  }

  // One operation at the front of a call.
  lemma FirstOperation(sems: seq<nat>, o: SemBuf, rest: seq<SemBuf>)
    requires o.num < |sems| && Fit(rest, |sems|)
    ensures Fit([o] + rest, |sems|)
    ensures Semop(sems, [o] + rest) ==
              if Passes(sems[o.num], o.op) then Semop(sems[o.num := sems[o.num] + o.op], rest) else None
  {
    assert ([o] + rest)[1..] == rest;
  }

  // What the operations add up to on semaphore k.
  ghost function Net(ops: seq<SemBuf>, k: nat): int
    decreases |ops|
  {
    if ops == [] then 0 else (if ops[0].num == k then ops[0].op else 0) + Net(ops[1..], k)
  }

  // Operation j passes once the operations before it have been applied.
  ghost predicate PassesInTurn(sems: seq<nat>, ops: seq<SemBuf>, j: nat)
    requires Fit(ops, |sems|) && j < |ops|
  {
    Passes(sems[ops[j].num] + Net(ops[..j], ops[j].num), ops[j].op)
  }

  lemma NetStep(ops: seq<SemBuf>, j: nat, k: nat)
    requires 0 < j <= |ops|
    ensures Net(ops[..j], k) == (if ops[0].num == k then ops[0].op else 0) + Net(ops[1..][..j - 1], k)
  {
    assert ops[..j][1..] == ops[1..][..j - 1];
  }

  lemma LaterTurn(sems: seq<nat>, ops: seq<SemBuf>, j: nat)
    requires Fit(ops, |sems|) && 0 < j < |ops| && Passes(sems[ops[0].num], ops[0].op)
    ensures var mid := sems[ops[0].num := sems[ops[0].num] + ops[0].op];
            PassesInTurn(mid, ops[1..], j - 1) <==> PassesInTurn(sems, ops, j)
  {
    NetStep(ops, j, ops[j].num);
  }

  /** A call goes through exactly when every operation passes after those before it, and each semaphore has then
      changed by the sum of the operations on it. */
  lemma {:induction false} SemopMeaning(sems: seq<nat>, ops: seq<SemBuf>)
    requires Fit(ops, |sems|)
    ensures Semop(sems, ops).Some? <==> forall j :: 0 <= j < |ops| ==> PassesInTurn(sems, ops, j)
    ensures Semop(sems, ops).Some? ==>
              forall k :: 0 <= k < |sems| ==> Semop(sems, ops).value[k] == sems[k] + Net(ops, k)
    decreases |ops|
  {
    if ops != [] {
      var o, rest := ops[0], ops[1..];
      assert PassesInTurn(sems, ops, 0) <==> Passes(sems[o.num], o.op);
      if Passes(sems[o.num], o.op) {
        var mid := sems[o.num := sems[o.num] + o.op];
        SemopMeaning(mid, rest);
        forall j | 0 < j < |ops|
          ensures PassesInTurn(mid, rest, j - 1) <==> PassesInTurn(sems, ops, j)
        {
          LaterTurn(sems, ops, j);
        }
        hide PassesInTurn;
        if forall j :: 0 <= j < |ops| ==> PassesInTurn(sems, ops, j) {
          forall j | 0 <= j < |rest|
            ensures PassesInTurn(mid, rest, j)
          {
            assert PassesInTurn(sems, ops, j + 1);
          }
        }
      }
    }
  }

  // ---------- counting over a family of processes ----------

  ghost function Sum<T>(s: seq<T>, weight: T -> nat): nat {
    if s == [] then 0 else weight(s[0]) + Sum(s[1..], weight)
  }

  lemma {:induction false} SumUpdate<T>(s: seq<T>, i: nat, x: T, weight: T -> nat)
    requires i < |s|
    ensures Sum(s[i := x], weight) == Sum(s, weight) - weight(s[i]) + weight(x)
    ensures weight(s[i]) <= Sum(s, weight)
    decreases |s|
  {
    if i == 0 {
      assert s[0 := x][1..] == s[1..];
    } else {
      assert s[i := x][1..] == s[1..][i - 1 := x];
      SumUpdate(s[1..], i - 1, x, weight);
    }
  }

  lemma {:induction false} SumPair<T>(s: seq<T>, i: nat, j: nat, weight: T -> nat)
    requires i < j < |s|
    ensures weight(s[i]) + weight(s[j]) <= Sum(s, weight)
    decreases |s|
  {
    if i == 0 {
      SumUpdate(s[1..], j - 1, s[j], weight);
    } else {
      SumPair(s[1..], i - 1, j - 1, weight);
    }
  }

  lemma {:induction false} SumAtMost<T>(s: seq<T>, small: T -> nat, large: T -> nat)
    requires forall i {:trigger s[i]} :: 0 <= i < |s| ==> small(s[i]) <= large(s[i])
    ensures Sum(s, small) <= Sum(s, large)
    decreases |s|
  {
    if s != [] {
      SumAtMost(s[1..], small, large);
    }
  }

  lemma {:induction false} SumZero<T>(s: seq<T>, weight: T -> nat)
    requires forall i {:trigger s[i]} :: 0 <= i < |s| ==> weight(s[i]) == 0
    ensures Sum(s, weight) == 0
    decreases |s|
  {
    if s != [] {
      SumZero(s[1..], weight);
    }
  }

  lemma {:induction false} SumAlone<T>(s: seq<T>, i: nat, weight: T -> nat)
    requires i < |s|
    requires forall j {:trigger s[j]} :: 0 <= j < |s| && j != i ==> weight(s[j]) == 0
    ensures Sum(s, weight) == weight(s[i])
    decreases |s|
  {
    if i == 0 {
      SumZero(s[1..], weight);
    } else {
      SumAlone(s[1..], i - 1, weight);
    }
  }

  lemma {:induction false} SumPositive<T>(s: seq<T>, weight: T -> nat) returns (i: nat)
    requires Sum(s, weight) > 0
    ensures i < |s| && weight(s[i]) > 0
    decreases |s|
  {
    if weight(s[0]) > 0 {
      i := 0;
    } else {
      var k := SumPositive(s[1..], weight);
      i := k + 1;
    }
  }
}
