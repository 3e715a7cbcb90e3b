/**
 The round-robin choice of a run queue: a shared 64-bit counter, taken modulo the number
 of CPUs, is incremented until it hits a CPU of the task's mask.
 */
module RunQueueSelect {
  import opened Arith
  import opened Common

  const WRAP: nat := 0x1_0000_0000_0000_0000

  /** The CPU that the `k`th increment from counter value `start` proposes. */
  function Proposal(start: nat, k: nat, smp: nat): (c: nat)
    requires smp >= 1
    ensures c < smp
  {
    (start + k) % WRAP % smp
  }

  /** Without a wrap of the counter, `smp` increments propose every CPU. */
  lemma ProposedInOneRound(start: nat, smp: nat, c: nat) returns (k: nat)
    requires c < smp && start + smp <= WRAP
    ensures k < smp && Proposal(start, k, smp) == c
  {
    var q, r := start / smp, start % smp;
    k := if c >= r then c - r else c + smp - r;
    assert start == q * smp + r;
    if c >= r {
      assert start + k == q * smp + c;
      DivModUnique(start + k, smp, q, c);
    } else {
      assert start + k == (q + 1) * smp + c;
      DivModUnique(start + k, smp, q + 1, c);
    }
  }

  /** Every CPU is proposed within two rounds, also when the counter wraps on the way. */
  lemma EveryCpuIsProposed(start: nat, smp: nat, c: nat) returns (k: nat)
    requires start < WRAP && c < smp <= WRAP
    ensures k < 2 * smp && Proposal(start, k, smp) == c
  {
    if start + smp <= WRAP {
      k := ProposedInOneRound(start, smp, c);
    } else {
      k := WRAP - start + c;
      DivModUnique(start + k, WRAP, 1, c);
      DivModUnique(c, smp, 0, c);
    }
  }

  // ---------------------------------------------------------------- other CPUs use the counter as well

  /** The increments by others before the `k`th `fetch_add` of a CPU; `gaps` lists them, then there are none. */
  function Gap(gaps: seq<nat>, k: nat): nat {
    if k < |gaps| then gaps[k] else 0
  }

  /** The counter after the CPU has got `k` values. */
  function Counter(start: nat, gaps: seq<nat>, k: nat): nat {
    if k == 0 then start else (Own(start, gaps, k - 1) + 1) % WRAP
  }

  /** The value that the CPU's `k`th `fetch_add` returns. */
  function Own(start: nat, gaps: seq<nat>, k: nat): nat
    decreases k
  {
    ((if k == 0 then start else (Own(start, gaps, k - 1) + 1) % WRAP) + Gap(gaps, k)) % WRAP
  }

  /** As many values as there are gaps all propose CPUs outside the mask. */
  predicate Misses(start: nat, gaps: seq<nat>, mask: set<nat>, smp: nat)
    requires smp >= 1
  {
    forall k: nat :: k < |gaps| ==> Own(start, gaps, k) % smp !in mask
  }

  /** Some schedule of the others makes the first `n` tries miss. */
  ghost predicate CanMiss(start: nat, n: nat, mask: set<nat>, smp: nat)
    requires smp >= 1
  {
    exists gaps: seq<nat> :: |gaps| == n && Misses(start, gaps, mask, smp)
  }

  lemma WrapTwice(a: nat, b: nat)
    ensures (a % WRAP + b) % WRAP == (a + b) % WRAP
  {
    var q, m := a / WRAP, a % WRAP;
    DivModUnique(a + b, WRAP, q + (m + b) / WRAP, (m + b) % WRAP);
  }

  /** Once the interference is over the CPU gets consecutive values. */
  lemma {:induction false} OwnAlone(start: nat, gaps: seq<nat>, k: nat)
    ensures Own(start, gaps, |gaps| + k) == (Counter(start, gaps, |gaps|) + k) % WRAP
    decreases k
  {
    if k > 0 {
      OwnAlone(start, gaps, k - 1);
      WrapTwice(Counter(start, gaps, |gaps|) + k - 1, 1);
      WrapTwice(Counter(start, gaps, |gaps|) + k, 0);
      assert |gaps| + k - 1 == |gaps| + (k - 1);
    }
  }

  /** What comes before the `k`th value does not depend on later gaps. */
  lemma {:induction false} OwnPrefix(start: nat, gaps: seq<nat>, gap: nat, k: nat)
    requires k < |gaps|
    ensures Own(start, gaps + [gap], k) == Own(start, gaps, k)
    decreases k
  {
    if k > 0 {
      OwnPrefix(start, gaps, gap, k - 1);
    }
  }

  /** A schedule of the others, with gaps of less than two rounds, that keeps the CPU on proposals of `c`. */
  lemma {:induction false} KeptOn(start: nat, c: nat, mask: set<nat>, smp: nat, n: nat) returns (gaps: seq<nat>)
    requires start < WRAP && c < smp <= WRAP && c !in mask
    ensures |gaps| == n && Misses(start, gaps, mask, smp) && forall i :: 0 <= i < n ==> gaps[i] < 2 * smp
    decreases n
  {
    if n == 0 {
      gaps := [];
    } else {
      var rest := KeptOn(start, c, mask, smp, n - 1);
      var gap := EveryCpuIsProposed(Counter(start, rest, n - 1), smp, c);
      gaps := rest + [gap];
      forall k: nat | k < n
        ensures Own(start, gaps, k) % smp !in mask
      {
        if k < n - 1 {
          OwnPrefix(start, rest, gap, k);
        } else {
          assert Counter(start, gaps, k) == Counter(start, rest, k) by {
            if k > 0 {
              OwnPrefix(start, rest, gap, k - 1);
            }
          }
          assert Own(start, gaps, k) % smp == Proposal(Counter(start, gaps, k), gap, smp);
        }
      }
    }
  }

  /** Whatever bound is set on the tries, the others can break it, if and only if some CPU is not in the mask. */
  lemma StarvedIff(start: nat, mask: set<nat>, smp: nat)
    requires start < WRAP && 1 <= smp <= WRAP
    ensures (forall n: nat :: CanMiss(start, n, mask, smp)) <==> exists c: nat :: c < smp && c !in mask
  {
    if c: nat :| c < smp && c !in mask {
      forall n: nat
        ensures CanMiss(start, n, mask, smp)
      {
        var gaps := KeptOn(start, c, mask, smp, n);
      }
    } else {
      var one: nat := 1;
      if CanMiss(start, one, mask, smp) {
        var gaps: seq<nat> :| |gaps| == one && Misses(start, gaps, mask, smp);
        assert Own(start, gaps, 0) % smp !in mask;
      }
    }
  }

  /** No increment of another CPU before the first `fetch_add`, and one before each later one. */
  function Alternating(n: nat): seq<nat> {
    seq(n, i => if i == 0 then 0 else 1)
  }

  lemma SameParity(n: nat, d: nat)
    requires d >= 1 && d % 2 == 0
    ensures n % d % 2 == n % 2
  {
    var h := d / 2;
    assert n == n / d * (2 * h) + n % d == 2 * (n / d * h) + n % d;
  }

  lemma EvenAgain(before: nat)
    requires before % 2 == 0
    ensures ((before + 1) % WRAP + 1) % WRAP % 2 == 0
  {
    SameParity(before + 1, WRAP);
    SameParity((before + 1) % WRAP + 1, WRAP);
  }

  lemma {:induction false} OwnStaysEven(gaps: seq<nat>, k: nat)
    requires Gap(gaps, 0) == 0 && forall i: nat :: 0 < i <= k ==> Gap(gaps, i) == 1
    ensures Own(0, gaps, k) % 2 == 0
    decreases k
  {
    if k > 0 {
      OwnStaysEven(gaps, k - 1);
      EvenAgain(Own(0, gaps, k - 1));
    }
  }

  /**
   Two CPUs, a task for CPU 1 alone and the counter at 0: another CPU that takes every other value
   leaves only values for CPU 0, in any number of tries.
   */
  lemma TwoCpusStarve(n: nat)
    ensures Misses(0, Alternating(n), {1}, 2)
  {
    forall k: nat | k < n
      ensures Own(0, Alternating(n), k) % 2 !in {1}
    {
      OwnStaysEven(Alternating(n), k);
    }
  }

  // ---------------------------------------------------------------- the code

  /** A `fetch_add` that certainly hits. */
  lemma HitBound(start: nat, gaps: seq<nat>, mask: set<nat>, smp: nat) returns (bound: nat)
    requires start < WRAP && 1 <= smp <= WRAP && mask != {} && forall c :: c in mask ==> c < smp
    ensures bound < |gaps| + 2 * smp && Own(start, gaps, bound) % smp in mask
  {
    var c :| c in mask;
    var k := EveryCpuIsProposed(Counter(start, gaps, |gaps|), smp, c);
    OwnAlone(start, gaps, k);
    bound := |gaps| + k;
  }

  class RunQueueIndex {
    var value: nat

    ghost predicate Valid()
      reads this
    {
      value < WRAP
    }

    /**
     Other CPUs increment the counter `gaps[k]` times before the `k`th `fetch_add`, and no more
     after the last gap. `None` is the panic on an empty mask.
     */
    method Select(cpumask: set<nat>, smp: nat, gaps: seq<nat>) returns (index: Option<nat>, ghost k: nat)
      requires Valid() && 1 <= smp <= WRAP && forall c :: c in cpumask ==> c < smp
      modifies this
      ensures Valid()
      ensures index.None? <==> cpumask == {}
      ensures index.None? ==> value == old(value)
      ensures index.Some? ==>
        && index.value in cpumask && index.value == Own(old(value), gaps, k) % smp && k < |gaps| + 2 * smp
        && (forall j: nat :: j < k ==> Own(old(value), gaps, j) % smp !in cpumask)
        && (k >= |gaps| <==> Misses(old(value), gaps, cpumask, smp))
        && value == Counter(old(value), gaps, k + 1)
    {
      k := 0;
      if cpumask == {} {
        return None, 0;
      }
      ghost var bound := HitBound(value, gaps, cpumask, smp);
      var tries := 0;
      while true
        invariant Valid() && k == tries <= bound
        invariant value == Counter(old(value), gaps, k)
        invariant forall j: nat :: j < k ==> Own(old(value), gaps, j) % smp !in cpumask
        decreases bound - k
      {
        var seen := (value + Gap(gaps, tries)) % WRAP;
        value := (seen + 1) % WRAP;
        var i := seen % smp;
        if i in cpumask {
          return Some(i), k;
        }
        tries, k := tries + 1, k + 1;
      }
    }
  }
}
