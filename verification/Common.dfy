/** Small shared vocabulary: optional values and folds over sequences. */
module Common {

  /** The largest 32-bit signed integer. */
  const INT_MAX := 0x7FFF_FFFF

  datatype Option<+T> = None | Some(value: T)

  /** The sum of `f` over the elements of `xs`. */
  ghost function Sum<T>(xs: seq<T>, f: T -> int): int {
    if xs == [] then 0 else f(xs[0]) + Sum(xs[1..], f)
  }

  lemma {:induction false} SumUpdate<T>(xs: seq<T>, f: T -> int, i: nat, x: T)
    requires i < |xs|
    ensures Sum(xs[i := x], f) == Sum(xs, f) - f(xs[i]) + f(x)
  {
    if i == 0 {
      assert xs[0 := x][1..] == xs[1..];
    } else {
      assert xs[i := x][1..] == xs[1..][i - 1 := x];
      SumUpdate(xs[1..], f, i - 1, x);
    }
  }

  lemma {:induction false} SumAppend<T>(xs: seq<T>, f: T -> int, x: T)
    ensures Sum(xs + [x], f) == Sum(xs, f) + f(x)
  {
    if xs == [] {
      assert (xs + [x])[1..] == [];
    } else {
      assert (xs + [x])[1..] == xs[1..] + [x];
      SumAppend(xs[1..], f, x);
    }
  }

  lemma {:induction false} SumBounds<T>(xs: seq<T>, f: T -> int)
    requires forall x :: x in xs ==> 0 <= f(x)
    ensures 0 <= Sum(xs, f)
    ensures forall i :: 0 <= i < |xs| ==> f(xs[i]) <= Sum(xs, f)
  {
    if xs != [] {
      SumBounds(xs[1..], f);
      forall i | 0 <= i < |xs| ensures f(xs[i]) <= Sum(xs, f) {
        if 0 < i { assert xs[i] == xs[1..][i - 1]; }
      }
    }
  }

  /** Two places cannot hold more than the sum. */
  lemma {:induction false} SumTwo<T>(xs: seq<T>, f: T -> int, i: nat, j: nat)
    requires i < j < |xs|
    requires forall x :: x in xs ==> 0 <= f(x)
    ensures f(xs[i]) + f(xs[j]) <= Sum(xs, f)
  {
    if i == 0 {
      SumBounds(xs[1..], f);
      assert xs[j] == xs[1..][j - 1];
    } else {
      SumTwo(xs[1..], f, i - 1, j - 1);
    }
  }

  /** A positive sum has a positive summand. */
  lemma {:induction false} SumWitness<T>(xs: seq<T>, f: T -> int) returns (i: nat)
    requires 0 < Sum(xs, f)
    ensures i < |xs| && 0 < f(xs[i])
  {
    if 0 < f(xs[0]) {
      i := 0;
    } else {
      i := SumWitness(xs[1..], f);
      i := i + 1;
    }
  }

  /** Pointwise smaller values have a smaller sum. */
  lemma {:induction false} SumPointwise<T>(xs: seq<T>, ys: seq<T>, f: T -> int)
    requires |xs| == |ys|
    requires forall i :: 0 <= i < |xs| ==> f(ys[i]) <= f(xs[i])
    ensures Sum(ys, f) <= Sum(xs, f)
  {
    if xs != [] {
      assert forall i :: 0 <= i < |xs[1..]| ==> f(ys[1..][i]) <= f(xs[1..][i]);
      SumPointwise(xs[1..], ys[1..], f);
    }
  }

  lemma SumSame<T>(xs: seq<T>, ys: seq<T>, f: T -> int)
    requires |xs| == |ys|
    requires forall i :: 0 <= i < |xs| ==> f(ys[i]) == f(xs[i])
    ensures Sum(ys, f) == Sum(xs, f)
  {
    SumPointwise(xs, ys, f);
    SumPointwise(ys, xs, f);
  }

  lemma {:induction false} SumZero<T>(xs: seq<T>, f: T -> int)
    requires forall i :: 0 <= i < |xs| ==> f(xs[i]) == 0
    ensures Sum(xs, f) == 0
  {
    if xs != [] {
      assert forall i :: 0 <= i < |xs[1..]| ==> f(xs[1..][i]) == 0;
      SumZero(xs[1..], f);
    }
  }

  lemma {:induction false} SumRemove<T>(xs: seq<T>, f: T -> int, i: nat)
    requires i < |xs|
    ensures Sum(xs, f) == f(xs[i]) + Sum(xs[..i] + xs[i + 1..], f)
  {
    if i == 0 {
      assert xs[..0] + xs[1..] == xs[1..];
    } else {
      SumRemove(xs[1..], f, i - 1);
      assert (xs[..i] + xs[i + 1..])[1..] == xs[1..][..i - 1] + xs[1..][i..];
    }
  }

  /** A sum does not depend on the order of its summands. */
  lemma {:induction false} SumPermutation<T>(xs: seq<T>, ys: seq<T>, f: T -> int)
    requires multiset(xs) == multiset(ys)
    ensures Sum(xs, f) == Sum(ys, f)
  {
    if xs == [] {
      assert |multiset(ys)| == |ys|;
    } else {
      assert xs == [xs[0]] + xs[1..];
      assert xs[0] in multiset(ys);
      var i :| 0 <= i < |ys| && ys[i] == xs[0];
      var ys' := ys[..i] + ys[i + 1..];
      assert multiset(ys) == multiset{xs[0]} + multiset(ys') by { assert ys == ys[..i] + [ys[i]] + ys[i + 1..]; }
      assert multiset(xs) - multiset{xs[0]} == multiset(xs[1..]);
      SumRemove(ys, f, i);
      SumPermutation(xs[1..], ys', f);
    }
  }

  /** How often `x` occurs in `xs`. */
  ghost function Count<T>(xs: seq<T>, x: T): nat {
    if xs == [] then 0 else (if xs[0] == x then 1 else 0) + Count(xs[1..], x)
  }

  lemma {:induction false} CountAppend<T>(xs: seq<T>, y: T, x: T)
    ensures Count(xs + [y], x) == Count(xs, x) + if y == x then 1 else 0
  {
    if xs == [] {
      assert (xs + [y])[1..] == [];
    } else {
      assert (xs + [y])[1..] == xs[1..] + [y];
      CountAppend(xs[1..], y, x);
    }
  }

  lemma {:induction false} CountConcat<T>(xs: seq<T>, ys: seq<T>, x: T)
    ensures Count(xs + ys, x) == Count(xs, x) + Count(ys, x)
  {
    if xs == [] {
      assert xs + ys == ys;
    } else {
      assert (xs + ys)[1..] == xs[1..] + ys;
      CountConcat(xs[1..], ys, x);
    }
  }

  lemma {:induction false} CountIsMultiplicity<T>(xs: seq<T>, x: T)
    ensures Count(xs, x) == multiset(xs)[x]
  {
    if xs != [] {
      assert xs == [xs[0]] + xs[1..];
      CountIsMultiplicity(xs[1..], x);
    }
  }

  lemma {:induction false} CountPositive<T>(xs: seq<T>, x: T)
    ensures 0 < Count(xs, x) <==> x in xs
  {
    if xs != [] {
      CountPositive(xs[1..], x);
    }
  }

  lemma {:induction false} DistinctOccurOnce<T>(xs: seq<T>, x: T)
    requires forall i, j :: 0 <= i < j < |xs| ==> xs[i] != xs[j]
    ensures Count(xs, x) <= 1
  {
    if xs != [] {
      assert forall i, j :: 0 <= i < j < |xs[1..]| ==> xs[1..][i] == xs[i + 1] && xs[1..][j] == xs[j + 1];
      DistinctOccurOnce(xs[1..], x);
      CountPositive(xs[1..], x);
    }
  }

  lemma CardAdd<T>(xs: set<T>, x: T)
    ensures |xs + {x}| == |xs| + if x in xs then 0 else 1
  {
    if x in xs { assert xs + {x} == xs; }
  }

  lemma CardRemove<T>(xs: set<T>, x: T)
    ensures |xs - {x}| == |xs| - if x in xs then 1 else 0
  {
    if x in xs { assert (xs - {x}) + {x} == xs; } else { assert xs - {x} == xs; }
  }

  /** The numbers below `n`, in order. */
  function Identity(n: nat): seq<nat> {
    seq(n, i => i)
  }

  lemma {:induction false} CountIdentity(n: nat, i: nat)
    ensures Count<nat>(Identity(n), i) == if i < n then 1 else 0
  {
    if n != 0 {
      var last: nat := n - 1;
      assert Identity(n) == Identity(last) + [last];
      CountAppend<nat>(Identity(last), last, i);
      CountIdentity(last, i);
    }
  }
}
