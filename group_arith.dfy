/**
 * Arithmetic shared by the positional selection rules: C#'s remainder operator,
 * the position of an index inside a group of consecutive indices, and counting
 * the indices of a range that a rule selects.
 */
module GroupArith {

  /**
   * C#'s `a % b` on `int` for a positive divisor: it truncates toward zero, so the
   * remainder of a negative dividend is zero or negative (Dafny's `%` never is).
   */
  function Rem(a: int, b: int): (r: int)
    requires b > 0
    ensures a >= 0 ==> r == a % b && 0 <= r < b
    ensures a < 0 ==> -b < r <= 0
  {
    if a >= 0 then a % b else -((-a) % b)
  }

  lemma MulMono(a: int, b: int, c: int)
    requires a >= b && c > 0
    ensures a * c >= b * c
  {
  }

  lemma MulPred(m: int, a: int)
    ensures (m - 1) * a + a == m * a
  {
  }

  /** Quotient and remainder are the only way to write x as q * size + r with 0 <= r < size. */
  lemma DivModUnique(x: int, size: int, q: int, r: int)
    requires size > 0 && 0 <= r < size && x == q * size + r
    ensures x / size == q && x % size == r
  {
    var q', r' := x / size, x % size;
    if q' > q {
      MulMono(q', q + 1, size);
    } else if q' < q {
      MulMono(q, q' + 1, size);
    }
  }

  /** Index `g * size + j` sits at position `j` of group `g`. */
  lemma RemInGroup(g: nat, size: int, j: int)
    requires size > 0 && 0 <= j < size
    ensures Rem(g * size + j, size) == j
  {
    MulMono(g, 0, size);
    DivModUnique(g * size + j, size, g, j);
  }

  /** The successor of x is a multiple of n exactly when x is the last position of its group. */
  lemma RemSucc(x: int, n: int)
    requires x >= 0 && n > 0
    ensures (x + 1) % n == 0 <==> x % n == n - 1
    ensures x % n == n - 1 ==> x + 1 >= n
  {
    var q, r := x / n, x % n;
    if r == n - 1 {
      MulPred(q + 1, n);
      MulMono(q + 1, 1, n);
      DivModUnique(x + 1, n, q + 1, 0);
    } else {
      DivModUnique(x + 1, n, q, r + 1);
    }
  }

  /** Every index that is not negative is position `Rem(i, size)` of group `i / size`. */
  lemma GroupOf(i: int, size: int)
    requires i >= 0 && size > 0
    ensures i / size >= 0 && 0 <= Rem(i, size) < size
    ensures i == (i / size) * size + Rem(i, size)
  {
  }

  /** The number of indices in `[lo, hi)` that `p` selects. */
  function Count(p: int -> bool, lo: int, hi: int): (n: nat)
    ensures n <= if lo <= hi then hi - lo else 0
    decreases hi - lo
  {
    if hi <= lo then 0 else Count(p, lo, hi - 1) + (if p(hi - 1) then 1 else 0)
  }

  lemma {:induction false} CountSplit(p: int -> bool, lo: int, mid: int, hi: int)
    requires lo <= mid <= hi
    ensures Count(p, lo, hi) == Count(p, lo, mid) + Count(p, mid, hi)
    decreases hi - mid
  {
    if hi > mid {
      CountSplit(p, lo, mid, hi - 1);
    }
  }

  /** A range whose indices are selected exactly from `t` on holds `hi - t` selected indices. */
  lemma {:induction false} CountThreshold(p: int -> bool, lo: int, t: int, hi: int)
    requires lo <= t <= hi
    requires forall j :: lo <= j < hi ==> (p(j) <==> j >= t)
    ensures Count(p, lo, hi) == hi - t
    decreases hi - lo
  {
    if hi > t {
      CountThreshold(p, lo, t, hi - 1);
    } else {
      CountNone(p, lo, hi);
    }
  }

  lemma {:induction false} CountNone(p: int -> bool, lo: int, hi: int)
    requires forall j :: lo <= j < hi ==> !p(j)
    ensures Count(p, lo, hi) == 0
    decreases hi - lo
  {
    if hi > lo {
      CountNone(p, lo, hi - 1);
    }
  }

  /** `Enumerable.Range(0, n).Where(p)`: the selected indices of `[0, n)` in increasing order. */
  function SelectedIndices(p: int -> bool, n: nat): (s: seq<int>)
    ensures |s| == Count(p, 0, n)
    ensures forall i :: i in s <==> 0 <= i < n && p(i)
    ensures forall a, b :: 0 <= a < b < |s| ==> s[a] < s[b]
  {
    if n == 0 then []
    else
      var before := SelectedIndices(p, n - 1);
      assert forall a :: 0 <= a < |before| ==> before[a] < n - 1 by {
        forall a | 0 <= a < |before| ensures before[a] < n - 1 {
          assert before[a] in before;
        }
      }
      before + (if p(n - 1) then [n - 1] else [])
  }

  /** Two rules that agree on `[0, n)` select the same indices there. */
  lemma {:induction false} SelectedIndicesAgree(p: int -> bool, q: int -> bool, n: nat)
    requires forall i :: 0 <= i < n ==> p(i) == q(i)
    ensures SelectedIndices(p, n) == SelectedIndices(q, n)
  {
    if n > 0 {
      SelectedIndicesAgree(p, q, n - 1);
    }
  }

  predicate Increasing(s: seq<int>) {
    forall a, b :: 0 <= a < b < |s| ==> s[a] < s[b]
  }

  /** Two strictly increasing sequences with the same elements are the same sequence. */
  lemma {:induction false} IncreasingUnique(s: seq<int>, t: seq<int>)
    requires Increasing(s) && Increasing(t)
    requires forall x :: x in s <==> x in t
    ensures s == t
  {
    if s == [] {
      assert forall k :: 0 <= k < |t| ==> t[k] in t;
    } else {
      assert s[0] in s;
      assert t != [] && t[0] in t;
      var i :| 0 <= i < |t| && t[i] == s[0];
      var j :| 0 <= j < |s| && s[j] == t[0];
      assert s[0] == t[0];
      forall x ensures x in s[1..] <==> x in t[1..] {
        if x in s[1..] {
          var k :| 0 <= k < |s| - 1 && s[1..][k] == x;
          assert s[k + 1] == x && x in t;
          var m :| 0 <= m < |t| && t[m] == x;
          assert m != 0 && t[1..][m - 1] == x;
        }
        if x in t[1..] {
          var k :| 0 <= k < |t| - 1 && t[1..][k] == x;
          assert t[k + 1] == x && x in s;
          var m :| 0 <= m < |s| && s[m] == x;
          assert m != 0 && s[1..][m - 1] == x;
        }
      }
      IncreasingUnique(s[1..], t[1..]);
      assert s == [s[0]] + s[1..] && t == [t[0]] + t[1..];
    }
  }

  /** The selected indices are the one increasing sequence holding exactly the selected indices. */
  lemma SelectedIndicesUnique(p: int -> bool, n: nat, s: seq<int>)
    requires Increasing(s)
    requires forall i :: i in s <==> 0 <= i < n && p(i)
    ensures SelectedIndices(p, n) == s
  {
    IncreasingUnique(SelectedIndices(p, n), s);
  }
}
