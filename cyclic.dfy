/** A cursor over `n` positions that wraps around: Python's `(i + 1) % n`
    and `(i - 1) % n`. For a positive `n` Python's floored `%` and Dafny's
    Euclidean `%` agree, so `(0 - 1) % n == n - 1` in both. */
module Cyclic {

  function Succ(i: int, n: nat): (r: int)
    requires n > 0
    ensures 0 <= r < n
  {
    (i + 1) % n
  }

  function Pred(i: int, n: nat): (r: int)
    requires n > 0
    ensures 0 <= r < n
    ensures i == 0 ==> r == n - 1
  {
    (i - 1) % n
  }

  /** `k` steps forward from `i`. */
  function Iterate(i: int, k: nat, n: nat): int
    requires n > 0
  {
    if k == 0 then i else Succ(Iterate(i, k - 1, n), n)
  }

  /** The remainder is the only `r` in `[0, n)` with `a == q * n + r`. */
  lemma ModUnique(a: int, n: nat, q: int, r: int)
    requires n > 0 && 0 <= r < n && a == q * n + r
    ensures a % n == r
  {
    var q', r' := a / n, a % n;
    assert (q - q') * n == r' - r;
    if q > q' {
      MulAtLeast(q - q', n);
    } else if q < q' {
      MulAtLeast(q' - q, n);
    }
  }

  lemma {:induction false} MulAtLeast(x: int, n: nat)
    requires x >= 1
    ensures x * n >= n
    decreases x
  {
    if x > 1 {
      MulAtLeast(x - 1, n);
      assert x * n == (x - 1) * n + n;
    }
  }

  /** One step forward is `+ 1` modulo `n`, also after an earlier reduction. */
  lemma SuccOfMod(a: int, n: nat)
    requires n > 0
    ensures Succ(a % n, n) == (a + 1) % n
  {
    var q, r := a / n, a % n;
    if r + 1 < n {
      ModUnique(r + 1, n, 0, r + 1);
      ModUnique(a + 1, n, q, r + 1);
    } else {
      ModUnique(r + 1, n, 1, 0);
      ModUnique(a + 1, n, q + 1, 0);
    }
  }

  /** Backward undoes forward and forward undoes backward. */
  lemma PredSucc(i: int, n: nat)
    requires 0 <= i < n
    ensures Pred(Succ(i, n), n) == i
    ensures Succ(Pred(i, n), n) == i
  {
    if i + 1 == n {
      ModUnique(i + 1, n, 1, 0);
      ModUnique(0 - 1, n, -1, n - 1);
    } else {
      ModUnique(i + 1, n, 0, i + 1);
      ModUnique(i, n, 0, i);
    }
    if i == 0 {
      ModUnique(0 - 1, n, -1, n - 1);
      ModUnique(n, n, 1, 0);
    } else {
      ModUnique(i - 1, n, 0, i - 1);
      ModUnique(i, n, 0, i);
    }
  }

  /** `k` steps forward land on `(i + k) % n`. */
  lemma {:induction false} IterateIsAdd(i: int, k: nat, n: nat)
    requires 0 <= i < n
    ensures Iterate(i, k, n) == (i + k) % n
  {
    if k > 0 {
      IterateIsAdd(i, k - 1, n);
      SuccOfMod(i + k - 1, n);
    }
  }

  /** `n` steps forward return to the start: the cursor has period `n`. */
  lemma FullCycle(i: int, n: nat)
    requires 0 <= i < n
    ensures Iterate(i, n, n) == i
  {
    IterateIsAdd(i, n, n);
    ModUnique(i + n, n, 1, i);
  }

  /** Fewer than `n` steps never return to the start: `n` is the least period. */
  lemma NoShorterCycle(i: int, k: nat, n: nat)
    requires 0 <= i < n && 0 < k < n
    ensures Iterate(i, k, n) != i
  {
    IterateIsAdd(i, k, n);
    if i + k < n {
      ModUnique(i + k, n, 0, i + k);
    } else {
      ModUnique(i + k, n, 1, i + k - n);
    }
  }
}
