/**
 The linear-time maximal suffix computation of `twoway_strstr`, which returns the start
 of the maximal suffix of the needle together with the minimal period of that suffix.
 */
module MaximalSuffix {
  import opened Words

  /** The suffix at `a` differs from the one at `i` before index `i + p`, and is smaller there. */
  ghost predicate BelowWithin(x: seq<int>, a: nat, i: nat, p: nat, rev: bool) {
    exists m: nat :: a + m < i + p && BelowAt(x, a, i, m, rev)
  }

  /**
   Each proper suffix of the root `x[i..i+p]` differs from the root inside it, and is
   smaller there.
   */
  ghost predicate StrictRoot(x: seq<int>, i: nat, p: nat, rev: bool) {
    forall a: nat :: i < a < i + p ==> BelowWithin(x, a, i, p, rev)
  }

  /**
   What the scan knows when the best suffix so far starts at `i`, the candidate at `j`,
   and `k` symbols of the candidate have been matched: everything before `i` is beaten,
   and `x[i..j+k]` is a power of a strict root of length `p` followed by a part of it.
   */
  ghost predicate Scan(x: seq<int>, i: nat, j: nat, k: nat, p: nat, rev: bool) {
    && i < j && k < p && p <= j - i && j + k <= |x|
    && IsMultiple(j - i, p)
    && Agree(x, i, i + p, j + k - i - p)
    && StrictRoot(x, i, p, rev)
    && forall a: nat :: a < i ==> Below(x, a, i, rev)
  }

  lemma ScanEqual(x: seq<int>, i: nat, j: nat, k: nat, p: nat, rev: bool)
    requires Scan(x, i, j, k, p, rev) && j + k < |x| && x[i + k] == x[j + k]
    ensures k + 1 < p ==> Scan(x, i, j, k + 1, p, rev)
    ensures k + 1 == p ==> Scan(x, i, j + p, 0, p, rev)
  {
    EqualAtMultiples(x, i, j + k, p, i + k, j - i - p);
    assert Agree(x, i, i + p, j + k + 1 - i - p);
    assert IsMultiple(j + p - i, p);
  }

  // The candidate turned out smaller: the whole of x[i..j+k+1] is the new root.

  /** One period further to the right, up to the symbol at `e` that breaks the period. */
  lemma BelowShifted(x: seq<int>, i: nat, e: nat, p: nat, a: nat, m': nat, rev: bool) returns (m: nat)
    requires 1 <= p && i + p <= a <= e < |x| && Agree(x, i, i + p, e - i - p)
    requires Before(x[e], x[e - p], rev) && BelowAt(x, a - p, i, m', rev)
    ensures a + m <= e && BelowAt(x, a, i, m, rev)
  {
    var b := a - p;
    m := if a + m' < e then m' else e - a;
    assert m < m' ==> x[b + m] == x[i + m];
    assert a + m < e ==> x[b + m] == x[a + m];
    forall u, v | a <= u < a + m && v == u + (i - a) ensures x[u] == x[v] {
      assert x[u - p] == x[u];
      assert x[u - p] == x[v];
    }
  }

  lemma {:induction false} LongerRoot(x: seq<int>, i: nat, e: nat, p: nat, a: nat, rev: bool) returns (m: nat)
    requires 1 <= p && i + p <= e < |x| && Agree(x, i, i + p, e - i - p)
    requires StrictRoot(x, i, p, rev) && Before(x[e], x[e - p], rev)
    requires i < a <= e
    ensures a + m <= e && BelowAt(x, a, i, m, rev)
    decreases a
  {
    if a < i + p {
      assert BelowWithin(x, a, i, p, rev);
      m :| a + m < i + p && BelowAt(x, a, i, m, rev);
    } else if a == i + p {
      m := e - a;
      AgreeSymmetric(x, i, a, m);
    } else {
      var m' := LongerRoot(x, i, e, p, a - p, rev);
      m := BelowShifted(x, i, e, p, a, m', rev);
    }
  }

  lemma ScanSmaller(x: seq<int>, i: nat, j: nat, k: nat, p: nat, rev: bool)
    requires Scan(x, i, j, k, p, rev) && j + k < |x| && Before(x[j + k], x[i + k], rev)
    ensures Scan(x, i, j + k + 1, 0, j + k + 1 - i, rev)
  {
    EqualAtMultiples(x, i, j + k, p, i + k, j - i - p);
    var q := j + k + 1 - i;
    forall a: nat | i < a < i + q ensures BelowWithin(x, a, i, q, rev) {
      var m := LongerRoot(x, i, j + k, p, a, rev);
    }
    assert IsMultiple(0, q);
    assert IsMultiple(q, q);
  }

  // The candidate turned out larger: it replaces the best suffix.

  lemma BelowCandidateInRoot(x: seq<int>, i: nat, j: nat, k: nat, p: nat, c: nat, rev: bool) returns (m: nat)
    requires StrictRoot(x, i, p, rev) && BelowAt(x, i, j, k, rev)
    requires 0 < c < p
    ensures m <= k && BelowAt(x, i + c, j, m, rev)
  {
    assert BelowWithin(x, i + c, i, p, rev);
    var m': nat :| i + c + m' < i + p && BelowAt(x, i + c, i, m', rev);
    BelowAtTransitive(x, i + c, i, j, m', k, rev);
    m := if m' < k then m' else k;
  }

  lemma {:induction false} BelowCandidate(x: seq<int>, i: nat, j: nat, k: nat, p: nat, c: nat, rev: bool)
    returns (m: nat)
    requires StrictRoot(x, i, p, rev) && BelowAt(x, i, j, k, rev)
    requires 1 <= p <= j - i && Agree(x, i, i + p, j + k - i - p)
    requires c < j - i
    ensures m <= k && BelowAt(x, i + c, j, m, rev)
    decreases c
  {
    if c == 0 {
      m := k;
    } else if c < p {
      m := BelowCandidateInRoot(x, i, j, k, p, c, rev);
    } else {
      m := BelowCandidate(x, i, j, k, p, c - p, rev);
      var a, b := i + c, i + (c - p);
      assert x[b + m] == x[a + m];
      forall u, v | a <= u < a + m && v == u + (j - a) ensures x[u] == x[v] {
        assert x[u - p] == x[u];
        assert x[u - p] == x[v];
      }
    }
  }

  lemma ScanLarger(x: seq<int>, i: nat, j: nat, k: nat, p: nat, rev: bool)
    requires Scan(x, i, j, k, p, rev) && j + k < |x| && Before(x[i + k], x[j + k], rev)
    ensures Scan(x, j, j + 1, 0, 1, rev)
  {
    forall u, v | i <= u < i + k && v == u + (j - i) ensures x[u] == x[v] {
      EqualAtMultiples(x, i, j + k, p, u, j - i);
    }
    assert BelowAt(x, i, j, k, rev);
    forall a: nat | a < j ensures Below(x, a, j, rev) {
      if a < i {
        BelowTransitive(x, a, i, j, rev);
      } else {
        var m := BelowCandidate(x, i, j, k, p, a - i, rev);
      }
    }
    assert IsMultiple(1, 1) by { assert IsMultiple(0, 1); }
  }

  // The scan reached the end of the word.

  lemma {:induction false} NotBelowShorter(x: seq<int>, i: nat, p: nat, c: nat, rev: bool)
    requires PeriodFrom(x, i, p) && StrictRoot(x, i, p, rev)
    requires 0 < c && i + c < |x|
    ensures !Below(x, i, i + c, rev)
    decreases c
  {
    if c < p {
      assert BelowWithin(x, i + c, i, p, rev);
      BelowAsymmetric(x, i + c, i, rev);
    } else {
      if c > p {
        NotBelowShorter(x, i, p, c - p, rev);
      }
      var a, b := i + c, i + (c - p);
      forall m: nat | a + m < |x| ensures !BelowAt(x, i, a, m, rev) {
        assert x[b + m] == x[a + m];
        if Agree(x, i, a, m) {
          forall u, v | i <= u < i + m && v == u + (b - i) ensures x[u] == x[v] {
            assert x[u + c] == x[v];
          }
          assert BelowAt(x, i, a, m, rev) ==> BelowAt(x, i, b, m, rev);
        }
      }
    }
  }

  lemma ScanDone(x: seq<int>, i: nat, j: nat, k: nat, p: nat, rev: bool)
    requires Scan(x, i, j, k, p, rev) && j + k == |x|
    ensures MaxSuffix(x, i, rev) && MinPeriodFrom(x, i, p)
  {
    forall a: nat | i < a < |x| ensures !Below(x, i, a, rev) {
      NotBelowShorter(x, i, p, a - i, rev);
    }
    forall q: nat | q < p ensures !PeriodFrom(x, i, q) {
      if 0 < q {
        var a := i + q;
        assert BelowWithin(x, a, i, p, rev);
        var m: nat :| a + m < i + p && BelowAt(x, a, i, m, rev);
        assert x[a + m] != x[i + m];
      }
    }
  }

  /** What the loop knows, in its own variables. */
  ghost predicate Known(x: seq<int>, ip: int, jp: int, k: int, p: nat, rev: bool) {
    -1 <= ip < jp && 1 <= k && jp + k <= |x| && Scan(x, ip + 1, jp + 1, k - 1, p, rev)
  }

  lemma KnownFirst(x: seq<int>, rev: bool)
    requires |x| >= 1
    ensures Known(x, -1, 0, 1, 1, rev)
  {
    assert IsMultiple(0, 1);
    assert IsMultiple(1, 1);
  }

  /** One more symbol is compared. */
  lemma KnownNext(x: seq<int>, ip: int, jp: int, k: int, p: nat, rev: bool)
    requires Known(x, ip, jp, k, p, rev) && jp + k < |x|
    ensures x[ip + k] == x[jp + k] && k == p ==> Known(x, ip, jp + p, 1, p, rev)
    ensures x[ip + k] == x[jp + k] && k != p ==> Known(x, ip, jp, k + 1, p, rev)
    ensures Before(x[jp + k], x[ip + k], rev) ==> Known(x, ip, jp + k, 1, jp + k - ip, rev)
    ensures Before(x[ip + k], x[jp + k], rev) ==> Known(x, jp, jp + 1, 1, 1, rev)
  {
    if x[ip + k] == x[jp + k] {
      ScanEqual(x, ip + 1, jp + 1, k - 1, p, rev);
    } else if Before(x[jp + k], x[ip + k], rev) {
      ScanSmaller(x, ip + 1, jp + 1, k - 1, p, rev);
    } else {
      ScanLarger(x, ip + 1, jp + 1, k - 1, p, rev);
    }
  }

  /**
   Start minus one of the maximal suffix of the needle `n[..l]`, and the minimal period
   of that suffix. `rev` selects the opposite comparison of the second pass.
   */
  method Compute(n: seq<int>, l: nat, rev: bool) returns (ms: int, p: nat)
    requires 1 <= l < |n|
    ensures -1 <= ms && MaxSuffix(n[..l], ms + 1, rev) && MinPeriodFrom(n[..l], ms + 1, p)
  {
    ghost var x := n[..l];
    var ip, jp, k := -1, 0, 1;
    p := 1;
    KnownFirst(x, rev);
    while jp + k < l
      invariant Known(x, ip, jp, k, p, rev)
      decreases l - ip, l - (jp + k)
    {
      KnownNext(x, ip, jp, k, p, rev);
      if n[ip + k] == n[jp + k] {
        if k == p {
          jp := jp + p;
          k := 1;
        } else {
          k := k + 1;
        }
      } else if Before(n[jp + k], n[ip + k], rev) {
        jp := jp + k;
        k := 1;
        p := jp - ip;
      } else {
        ip, jp := jp, jp + 1;
        k, p := 1, 1;
      }
    }
    ScanDone(x, ip + 1, jp + 1, k - 1, p, rev);
    ms := ip;
  }
}
