/**
 Combinatorics on words: periods, local repetitions and maximal suffixes, up to the
 critical factorization theorem on which the two-way string search rests.

 A suffix of `x` is named by its start index. Two-index quantifiers (`j == i + d`) are
 used throughout instead of `x[i + d]`, so that each fact is instantiated only at
 symbols that are already being discussed.
 */
module Words {

  /** The suffixes of `x` at `a` and at `b` agree on their first `m` symbols. */
  ghost predicate Agree(x: seq<int>, a: nat, b: nat, m: nat)
    requires a + m <= |x| && b + m <= |x|
  {
    forall i, j :: a <= i < a + m && j == i + (b - a) ==> x[i] == x[j]
  }

  /** The order on symbols, or the opposite order. */
  predicate Before(u: int, v: int, rev: bool) {
    if rev then v < u else u < v
  }

  /** The suffixes at `a` and `b` first differ at offset `m`, and there `a` is smaller. */
  ghost predicate BelowAt(x: seq<int>, a: nat, b: nat, m: nat, rev: bool) {
    && a + m < |x| && b + m < |x|
    && Agree(x, a, b, m)
    && Before(x[a + m], x[b + m], rev)
  }

  ghost predicate Below(x: seq<int>, a: nat, b: nat, rev: bool) {
    exists m: nat :: BelowAt(x, a, b, m, rev)
  }

  /**
   The suffix at `s` is the largest one in lexicographic order: a longer suffix must
   differ from it and be smaller, a shorter one may also be a prefix of it.
   */
  ghost predicate MaxSuffix(x: seq<int>, s: nat, rev: bool) {
    && s < |x|
    && (forall a: nat :: a < s ==> Below(x, a, s, rev))
    && (forall a: nat :: s < a < |x| ==> !Below(x, s, a, rev))
  }

  /** `d` is a period of the suffix of `x` at `s`. */
  ghost predicate PeriodFrom(x: seq<int>, s: nat, d: nat) {
    1 <= d && s + d <= |x| && Agree(x, s, s + d, |x| - s - d)
  }

  ghost predicate MinPeriodFrom(x: seq<int>, s: nat, p: nat) {
    && PeriodFrom(x, s, p)
    && forall q: nat :: q < p ==> !PeriodFrom(x, s, q)
  }

  /**
   The symbols on the two sides of position `s` repeat at distance `d`, as far as
   both of them lie inside `x`.
   */
  ghost predicate LocalRepetition(x: seq<int>, s: nat, d: nat) {
    && 1 <= d
    && forall i, j :: 0 <= i && s - d <= i < s && j == i + d && j < |x| ==> x[i] == x[j]
  }

  /** Every local repetition at `s` is longer than `s` and is a period of the whole word. */
  ghost predicate Critical(x: seq<int>, s: nat) {
    && s < |x|
    && forall d: nat :: LocalRepetition(x, s, d) && d <= |x| ==> s < d && PeriodFrom(x, 0, d)
  }

  // ---------------------------------------------------------------- suffix order

  lemma AgreeSymmetric(x: seq<int>, a: nat, b: nat, m: nat)
    requires a + m <= |x| && b + m <= |x| && Agree(x, a, b, m)
    ensures Agree(x, b, a, m)
  {
  }

  lemma BelowIntro(x: seq<int>, a: nat, b: nat, m: nat, rev: bool)
    requires BelowAt(x, a, b, m, rev)
    ensures Below(x, a, b, rev)
  {
  }

  lemma BelowAtTransitive(x: seq<int>, a: nat, b: nat, c: nat, m: nat, n: nat, rev: bool)
    requires BelowAt(x, a, b, m, rev) && BelowAt(x, b, c, n, rev)
    ensures BelowAt(x, a, c, if m < n then m else n, rev)
  {
    var k := if m < n then m else n;
    forall i, j | a <= i < a + k && j == i + (c - a) ensures x[i] == x[j] {
      assert x[i] == x[i + (b - a)];
    }
    assert k < m ==> x[a + k] == x[b + k];
    assert k < n ==> x[b + k] == x[c + k];
  }

  lemma BelowTransitive(x: seq<int>, a: nat, b: nat, c: nat, rev: bool)
    requires Below(x, a, b, rev) && Below(x, b, c, rev)
    ensures Below(x, a, c, rev)
  {
    var m: nat :| BelowAt(x, a, b, m, rev);
    var n: nat :| BelowAt(x, b, c, n, rev);
    BelowAtTransitive(x, a, b, c, m, n, rev);
  }

  lemma BelowAsymmetric(x: seq<int>, a: nat, b: nat, rev: bool)
    requires Below(x, a, b, rev)
    ensures !Below(x, b, a, rev)
  {
    var m: nat :| BelowAt(x, a, b, m, rev);
    forall n: nat | a + n < |x| && b + n < |x| ensures !BelowAt(x, b, a, n, rev) {
      assert x[b + m] != x[a + m];
      assert n < m ==> x[a + n] == x[b + n];
    }
  }

  /** Two suffixes agree on `m` symbols, or differ first at some offset below `m`. */
  lemma AgreeOrDiffer(x: seq<int>, a: nat, b: nat, m: nat)
    requires a + m <= |x| && b + m <= |x|
    ensures Agree(x, a, b, m)
         || exists k: nat :: k < m && Agree(x, a, b, k) && x[a + k] != x[b + k]
  {
    var k: nat := 0;
    while k < m && x[a + k] == x[b + k]
      invariant k <= m && Agree(x, a, b, k)
    {
      k := k + 1;
    }
  }

  // ---------------------------------------------------------------- critical factorization

  /** A maximal suffix admits no local repetition that fits to the left of its start. */
  lemma NoShortRepetition(x: seq<int>, s: nat, d: nat, rev: bool)
    requires MaxSuffix(x, s, rev) && LocalRepetition(x, s, d)
    ensures s < d
  {
    if d <= s {
      assert Below(x, s - d, s, rev);
      var m: nat :| BelowAt(x, s - d, s, m, rev);
      if d <= m {
        BelowIntro(x, s, s + d, m - d, rev);
      }
      assert false;
    }
  }

  /** A repetition that reaches past both ends to the left spreads to the right end. */
  lemma LongRepetitionSpreads(x: seq<int>, s: nat, s': nat, d: nat, rev: bool)
    requires MaxSuffix(x, s, rev) && MaxSuffix(x, s', !rev) && s' <= s
    requires LocalRepetition(x, s, d) && s < d && s + d <= |x|
    ensures Agree(x, s, s + d, |x| - s - d)
  {
    var n := |x| - s - d;
    AgreeOrDiffer(x, s, s + d, n);
    if !Agree(x, s, s + d, n) {
      var k: nat :| k < n && Agree(x, s, s + d, k) && x[s + k] != x[s + d + k];
      if Before(x[s + k], x[s + d + k], rev) {
        BelowIntro(x, s, s + d, k, rev);
      } else {
        var k' := k + (s - s');
        forall i, j | s' <= i < s' + k' && j == i + d ensures x[i] == x[j] {
          if i < s {
            assert s - d <= i < s;
          }
        }
        assert x[s' + k'] == x[s + k] && x[s' + d + k'] == x[s + d + k];
        BelowIntro(x, s', s' + d, k', !rev);
      }
      assert false;
    }
  }

  /**
   Critical factorization theorem: of the maximal suffixes for the two opposite
   orders, the shorter one starts at a critical position.
   */
  lemma CriticalFactorization(x: seq<int>, s: nat, s': nat, rev: bool)
    requires MaxSuffix(x, s, rev) && MaxSuffix(x, s', !rev) && s' <= s
    ensures Critical(x, s)
  {
    forall d: nat | LocalRepetition(x, s, d) && d <= |x| ensures s < d && PeriodFrom(x, 0, d) {
      NoShortRepetition(x, s, d, rev);
      if s + d <= |x| {
        LongRepetitionSpreads(x, s, s', d, rev);
      }
      forall i, j | 0 <= i < |x| - d && j == i + d ensures x[i] == x[j] {
        if i < s {
          assert s - d <= i < s;
        }
      }
    }
  }

  // ---------------------------------------------------------------- multiples of a period

  ghost predicate IsMultiple(d: nat, p: nat)
    requires 1 <= p
  {
    d == 0 || (p <= d && IsMultiple(d - p, p))
  }

  /** Inside a stretch of period `p`, symbols at a multiple of `p` apart are equal. */
  lemma {:induction false} EqualAtMultiples(x: seq<int>, lo: nat, hi: nat, p: nat, a: nat, d: nat)
    requires 1 <= p && lo + p <= hi <= |x| && Agree(x, lo, lo + p, hi - lo - p)
    requires lo <= a && a + d < hi && IsMultiple(d, p)
    ensures x[a] == x[a + d]
    decreases d
  {
    if d != 0 {
      EqualAtMultiples(x, lo, hi, p, a, d - p);
      assert x[a + d - p] == x[a + d];
    }
  }

  /** Division with remainder in 1..p instead of 0..p-1. */
  lemma {:induction false} PositiveRemainder(d: nat, p: nat) returns (r: nat)
    requires 1 <= p && 1 <= d
    ensures 1 <= r <= p && r <= d && IsMultiple(d - r, p)
    decreases d
  {
    if d <= p {
      r := d;
    } else {
      r := PositiveRemainder(d - p, p);
    }
  }

  /**
   At a critical position `s`, if the suffix has minimal period `p` and that period
   does not carry over to the whole word, then every local repetition is longer than
   the suffix.
   */
  lemma AperiodicRepetition(x: seq<int>, s: nat, p: nat, d: nat)
    requires Critical(x, s) && MinPeriodFrom(x, s, p) && !PeriodFrom(x, 0, p)
    requires LocalRepetition(x, s, d)
    ensures |x| - s < d
  {
    if s + d <= |x| {
      var r := PositiveRemainder(d, p);
      forall i, j | 0 <= i && s - r <= i < s && j == i + r && j < |x| ensures x[i] == x[j] {
        assert x[i] == x[i + d];
        EqualAtMultiples(x, s, |x|, p, j, d - r);
      }
      assert LocalRepetition(x, s, r);
      assert PeriodFrom(x, 0, r);
      assert PeriodFrom(x, s, r);
      assert false;
    }
  }

  /** At a critical position a local repetition is never shorter than the minimal period. */
  lemma RepetitionAtLeastPeriod(x: seq<int>, s: nat, p: nat, d: nat)
    requires Critical(x, s) && MinPeriodFrom(x, s, p) && LocalRepetition(x, s, d)
    ensures p <= d
  {
    if s + d <= |x| {
      assert PeriodFrom(x, 0, d);
      assert PeriodFrom(x, s, d);
    }
  }
}
