/**
 * Positional round-robin selection: the contents a case receives when an
 * order has several containers. Content number `j` goes to container
 * `j % n`, so container `i` receives the contents at positions
 * `i, i + n, i + 2n, ...`, in their original order.
 */
module RoundRobin {

  /** The elements of `s` whose position `j` has `owner(j) == i`, in order. */
  function Select<T>(s: seq<T>, owner: nat -> nat, i: nat): seq<T>
    decreases |s|
  {
    if |s| == 0 then []
    else Select(s[..|s| - 1], owner, i) + (if owner(|s| - 1) == i then [s[|s| - 1]] else [])
  }

  /** Round-robin ownership over `n` shares: position `j` belongs to `j % n`. */
  function Modulo(n: nat): nat -> nat
    requires n > 0
  {
    j => j % n
  }

  /** The elements of `s` whose position `j` satisfies `j % n == i`, in order
      (the source filters with the callback `(_, j) => j % n === i`). */
  function AtPositions<T>(s: seq<T>, n: nat, i: nat): seq<T>
    requires n > 0
  {
    Select(s, Modulo(n), i)
  }

  /** A non-zero multiple of a positive `n` is at least `n` away from zero. */
  lemma MulSign(d: int, n: int)
    requires n > 0
    ensures d >= 1 ==> d * n >= n
    ensures d <= -1 ==> d * n <= -n
  {
  }

  /** Quotient and remainder are unique. */
  lemma DivModUnique(a: int, n: int, q: int, r: int)
    requires n > 0 && 0 <= r < n && a == q * n + r
    ensures a / n == q && a % n == r
  {
    var d := q - a / n;
    assert d * n == a % n - r;
    MulSign(d, n);
  }

  /** How quotient and remainder by `n` move when the dividend grows by one. */
  lemma DivModStep(a: nat, n: nat)
    requires n > 0
    ensures a % n < n - 1 ==> (a + 1) / n == a / n && (a + 1) % n == a % n + 1
    ensures a % n == n - 1 ==> (a + 1) / n == a / n + 1 && (a + 1) % n == 0
  {
    if a % n < n - 1 {
      DivModUnique(a + 1, n, a / n, a % n + 1);
    } else {
      DivModUnique(a + 1, n, a / n + 1, 0);
    }
  }

  /** The number of positions `j < a` with `j % n == i`. */
  function ShareSize(a: nat, n: nat, i: nat): nat
    requires n > 0
  {
    a / n + (if i < a % n then 1 else 0)
  }

  /** Position `a` is owned by `a % n`: counting one more position adds one
      to that owner's share size and nothing to any other's. */
  lemma ShareSizeStep(a: nat, n: nat, i: nat)
    requires 0 <= i < n
    ensures ShareSize(a + 1, n, i) == ShareSize(a, n, i) + (if a % n == i then 1 else 0)
    ensures a % n == i ==> i + ShareSize(a, n, i) * n == a
  {
    DivModStep(a, n);
    assert a == (a / n) * n + a % n;
  }

  /** `share` is what position `i` of `n` receives from `s`: `|s| / n`
      elements, plus one when `i` is below the remainder, the `k`-th being
      the element at position `i + k * n`. */
  ghost predicate IsRoundRobinShare<T>(share: seq<T>, s: seq<T>, n: nat, i: nat)
    requires n > 0
  {
    && |share| == ShareSize(|s|, n, i)
    && forall k :: 0 <= k < |share| ==> i + k * n < |s| && share[k] == s[i + k * n]
  }

  /** Exact shape of a round-robin share: position `i` of `n` receives
      `|s| / n` elements, plus one when `i` is below the remainder, and its
      `k`-th element is the one at position `i + k * n`. */
  lemma {:induction false} AtPositionsShape<T>(s: seq<T>, n: nat, i: nat)
    requires 0 <= i < n
    ensures |AtPositions(s, n, i)| == ShareSize(|s|, n, i)
    ensures forall k :: 0 <= k < |AtPositions(s, n, i)| ==>
              i + k * n < |s| && AtPositions(s, n, i)[k] == s[i + k * n]
    ensures IsRoundRobinShare(AtPositions(s, n, i), s, n, i)
    decreases |s|
  {
    if |s| > 0 {
      var m := |s| - 1;
      var r' := AtPositions(s[..m], n, i);
      var r := AtPositions(s, n, i);
      AtPositionsShape(s[..m], n, i);
      ShareSizeStep(m, n, i);
      assert Modulo(n)(m) == m % n;
      if m % n == i {
        assert r == r' + [s[m]];
      } else {
        assert r == r';
      }
    }
  }

  /** With a single position every element is selected, in order. */
  lemma SinglePositionKeepsAll<T>(s: seq<T>)
    ensures AtPositions(s, 1, 0) == s
  {
    AtPositionsShape(s, 1, 0);
  }

  /** Five elements over two positions: the first receives the first,
      third and fifth, the second the other two. */
  lemma FiveOverTwo<T>(c1: T, c2: T, c3: T, c4: T, c5: T)
    ensures AtPositions([c1, c2, c3, c4, c5], 2, 0) == [c1, c3, c5]
    ensures AtPositions([c1, c2, c3, c4, c5], 2, 1) == [c2, c4]
  {
    var s := [c1, c2, c3, c4, c5];
    AtPositionsShape(s, 2, 0);
    AtPositionsShape(s, 2, 1);
    assert ShareSize(5, 2, 0) == 3 && ShareSize(5, 2, 1) == 2;
    assert 0 + 1 * 2 == 2 && 0 + 2 * 2 == 4 && 1 + 1 * 2 == 3;
  }

  /** Two shares of the same sequence differ in size by at most one, and
      lower positions never receive fewer elements than higher ones. */
  lemma SharesBalanced<T>(s: seq<T>, n: nat, i: nat, j: nat)
    requires i < j < n
    ensures |AtPositions(s, n, j)| <= |AtPositions(s, n, i)| <= |AtPositions(s, n, j)| + 1
  {
    AtPositionsShape(s, n, i);
    AtPositionsShape(s, n, j);
    DivModStep(0, n);
  }

  /** The multiset union of the shares of owners `0 .. k-1`. */
  function ShareUnion<T>(s: seq<T>, owner: nat -> nat, k: nat): multiset<T>
    decreases k
  {
    if k == 0 then multiset{} else ShareUnion(s, owner, k - 1) + multiset(Select(s, owner, k - 1))
  }

  /** The sum of `w` over a sequence. */
  function Sum<T>(s: seq<T>, w: T -> real): real
    decreases |s|
  {
    if |s| == 0 then 0.0 else Sum(s[..|s| - 1], w) + w(s[|s| - 1])
  }

  /** The sum of `w` over the shares of owners `0 .. k-1`. */
  function ShareSum<T>(s: seq<T>, owner: nat -> nat, k: nat, w: T -> real): real
    decreases k
  {
    if k == 0 then 0.0 else ShareSum(s, owner, k - 1, w) + Sum(Select(s, owner, k - 1), w)
  }

  /** The sum of `w` over the positions `j < m` of `s` with `owner(j) == i`,
      counted by position rather than through `Select`. */
  function OwnedSum<T>(s: seq<T>, owner: nat -> nat, i: nat, m: nat, w: T -> real): real
    requires m <= |s|
    decreases m
  {
    if m == 0 then 0.0
    else OwnedSum(s, owner, i, m - 1, w) + (if owner(m - 1) == i then w(s[m - 1]) else 0.0)
  }

  /** `OwnedSum` up to `m` only looks at the first `m` elements. */
  lemma {:induction false} OwnedSumPrefix<T>(s: seq<T>, t: seq<T>, owner: nat -> nat, i: nat, m: nat, w: T -> real)
    requires m <= |s| && m <= |t|
    requires forall j :: 0 <= j < m ==> s[j] == t[j]
    ensures OwnedSum(s, owner, i, m, w) == OwnedSum(t, owner, i, m, w)
    decreases m
  {
    if m > 0 {
      OwnedSumPrefix(s, t, owner, i, m - 1, w);
    }
  }

  lemma SumAppendOne<T>(t: seq<T>, x: T, w: T -> real)
    ensures Sum(t + [x], w) == Sum(t, w) + w(x)
  {
    assert (t + [x])[..|t|] == t;
  }

  /** A share's sum is the sum over the positions it owns. */
  lemma {:induction false} SumSelect<T>(s: seq<T>, owner: nat -> nat, i: nat, w: T -> real)
    ensures Sum(Select(s, owner, i), w) == OwnedSum(s, owner, i, |s|, w)
    decreases |s|
  {
    if |s| > 0 {
      var s' := s[..|s| - 1];
      SumSelect(s', owner, i, w);
      OwnedSumPrefix(s', s, owner, i, |s'|, w);
      if owner(|s| - 1) == i {
        SumAppendOne(Select(s', owner, i), s[|s| - 1], w);
      } else {
        assert Select(s, owner, i) == Select(s', owner, i);
      }
    }
  }

  /** The sum of `w` over the positions `j < m` owned by `0 .. k-1`. */
  function OwnedShareSum<T>(s: seq<T>, owner: nat -> nat, k: nat, m: nat, w: T -> real): real
    requires m <= |s|
    decreases k
  {
    if k == 0 then 0.0 else OwnedShareSum(s, owner, k - 1, m, w) + OwnedSum(s, owner, k - 1, m, w)
  }

  /** One more position adds its measure to the total exactly when one of
      the `k` owners holds it. */
  lemma {:induction false} OwnedShareSumStep<T>(s: seq<T>, owner: nat -> nat, k: nat, m: nat, w: T -> real)
    requires m < |s|
    ensures OwnedShareSum(s, owner, k, m + 1, w) ==
            OwnedShareSum(s, owner, k, m, w) + (if owner(m) < k then w(s[m]) else 0.0)
    decreases k
  {
    if k > 0 {
      OwnedShareSumStep(s, owner, k - 1, m, w);
    }
  }

  lemma {:induction false} ShareSumIsOwned<T>(s: seq<T>, owner: nat -> nat, k: nat, w: T -> real)
    ensures ShareSum(s, owner, k, w) == OwnedShareSum(s, owner, k, |s|, w)
    decreases k
  {
    if k > 0 {
      ShareSumIsOwned(s, owner, k - 1, w);
      SumSelect(s, owner, k - 1, w);
    }
  }

  /** When every position below `m` has one of `k` owners, the shares'
      sums over those positions add up to the sum of the prefix. */
  lemma {:induction false} OwnedAddsUp<T>(s: seq<T>, owner: nat -> nat, k: nat, m: nat, w: T -> real)
    requires m <= |s|
    requires forall j :: 0 <= j < m ==> owner(j) < k
    ensures OwnedShareSum(s, owner, k, m, w) == Sum(s[..m], w)
    decreases m
  {
    if m == 0 {
      OwnedShareSumEmpty(s, owner, k, w);
    } else {
      OwnedAddsUp(s, owner, k, m - 1, w);
      OwnedShareSumStep(s, owner, k, m - 1, w);
      assert s[..m] == s[..m - 1] + [s[m - 1]];
      SumAppendOne(s[..m - 1], s[m - 1], w);
    }
  }

  lemma {:induction false} OwnedShareSumEmpty<T>(s: seq<T>, owner: nat -> nat, k: nat, w: T -> real)
    ensures OwnedShareSum(s, owner, k, 0, w) == 0.0
    decreases k
  {
    if k > 0 {
      OwnedShareSumEmpty(s, owner, k - 1, w);
    }
  }

  /** When every position has one of `k` owners, any additive measure of
      the whole sequence is the sum of that measure over the `k` shares. */
  lemma SelectAddsUp<T>(s: seq<T>, owner: nat -> nat, k: nat, w: T -> real)
    requires forall j :: 0 <= j < |s| ==> owner(j) < k
    ensures ShareSum(s, owner, k, w) == Sum(s, w)
  {
    ShareSumIsOwned(s, owner, k, w);
    OwnedAddsUp(s, owner, k, |s|, w);
    assert s[..|s|] == s;
  }

  /** A total weight, or any other additive measure, of the whole sequence is
      the sum of that measure over the `n` round-robin shares. */
  lemma SharesAddUp<T>(s: seq<T>, n: nat, w: T -> real)
    requires n > 0
    ensures ShareSum(s, Modulo(n), n, w) == Sum(s, w)
  {
    SelectAddsUp(s, Modulo(n), n, w);
  }

  /** The measure that counts the occurrences of `y`. */
  function Indicator<T(==)>(y: T): T -> real
  {
    t => if t == y then 1.0 else 0.0
  }

  lemma {:induction false} CountIsSum<T>(s: seq<T>, y: T)
    ensures multiset(s)[y] as real == Sum(s, Indicator(y))
    decreases |s|
  {
    if |s| > 0 {
      CountIsSum(s[..|s| - 1], y);
      assert s == s[..|s| - 1] + [s[|s| - 1]];
    }
  }

  lemma {:induction false} ShareUnionIsSum<T>(s: seq<T>, owner: nat -> nat, k: nat, y: T)
    ensures ShareUnion(s, owner, k)[y] as real == ShareSum(s, owner, k, Indicator(y))
    decreases k
  {
    if k > 0 {
      ShareUnionIsSum(s, owner, k - 1, y);
      CountIsSum(Select(s, owner, k - 1), y);
    }
  }

  /** When every position has one of `k` owners, the first `k` shares
      together are the whole sequence, as a multiset. */
  lemma SelectPartition<T>(s: seq<T>, owner: nat -> nat, k: nat)
    requires forall j :: 0 <= j < |s| ==> owner(j) < k
    ensures ShareUnion(s, owner, k) == multiset(s)
  {
    forall y
      ensures ShareUnion(s, owner, k)[y] == multiset(s)[y]
    {
      ShareUnionIsSum(s, owner, k, y);
      SelectAddsUp(s, owner, k, Indicator(y));
      CountIsSum(s, y);
    }
    MultisetExt(ShareUnion(s, owner, k), multiset(s));
  }

  lemma MultisetExt<T>(a: multiset<T>, b: multiset<T>)
    requires forall y :: a[y] == b[y]
    ensures a == b
  {
  }

  /** Every element lands in exactly one round-robin share: the shares of
      positions `0 .. n-1` together are the whole sequence, as a multiset. */
  lemma SharesPartition<T>(s: seq<T>, n: nat)
    requires n > 0
    ensures ShareUnion(s, Modulo(n), n) == multiset(s)
  {
    SelectPartition(s, Modulo(n), n);
  }
}
