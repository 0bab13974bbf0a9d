/**
 * The sampling plan: which source frames are read.  `np.linspace(0, N - 1,
 * K, dtype=int)` spaces K samples evenly over [0, N - 1] and truncates each
 * to an integer; the samples are non-negative, so truncation is the floor,
 * and sample i is exactly floor(i * (N - 1) / (K - 1)).  A single sample is
 * the start value 0; zero samples give the empty plan.
 */
module SamplingPlan {

  /** Euclidean division is pinned down by quotient and remainder. */
  lemma DivUnique(x: int, d: int, q: int, r: int)
    requires d > 0 && 0 <= r < d && x == q * d + r
    ensures x / d == q
  {
    var q', r' := x / d, x % d;
    assert x == q' * d + r';
    if q' > q {
      assert (q + 1) * d == q * d + d;
      MulMonotone(q + 1, q', d);
      assert false;
    } else if q' < q {
      assert (q' + 1) * d == q' * d + d;
      MulMonotone(q' + 1, q, d);
      assert false;
    }
  }

  lemma DivMonotone(a: int, b: int, d: int)
    requires 0 <= a <= b && d > 0
    ensures a / d <= b / d
  {
    var qa, qb := a / d, b / d;
    assert a == qa * d + a % d && b == qb * d + b % d;
    if qa > qb {
      MulMonotone(qb + 1, qa, d);
      assert false;
    }
  }

  lemma MulMonotone(a: int, b: int, m: int)
    requires a <= b && m >= 0
    ensures a * m <= b * m
  {
  }

  lemma MulSucc(i: int, m: int)
    ensures (i + 1) * m == i * m + m
  {
  }

  /** floor((a + m) / d) exceeds floor(a / d) by floor(m / d) or one more. */
  lemma DivOfSum(a: int, m: int, d: int)
    requires a >= 0 && m >= 0 && d > 0
    ensures m / d <= (a + m) / d - a / d <= m / d + 1
  {
    var qa, ra, qm, rm := a / d, a % d, m / d, m % d;
    assert a + m == (qa + qm) * d + (ra + rm);
    if ra + rm < d {
      DivUnique(a + m, d, qa + qm, ra + rm);
    } else {
      assert a + m == (qa + qm + 1) * d + (ra + rm - d);
      DivUnique(a + m, d, qa + qm + 1, ra + rm - d);
    }
  }

  /** Sample `i` of a plan of `count` samples over a video of `total` frames. */
  function Index(total: int, count: nat, i: nat): (f: int)
    requires total >= 1 && i < count
    ensures 0 <= f <= total - 1
    ensures i == 0 ==> f == 0
    ensures count >= 2 && i == count - 1 ==> f == total - 1
  {
    if count == 1 then 0
    else
      ScaledIndexInRange(total - 1, count - 1, i);
      i * (total - 1) / (count - 1)
  }

  /** i * m / d lies in [0, m] for 0 <= i <= d, and equals m at i = d. */
  lemma ScaledIndexInRange(m: nat, d: nat, i: nat)
    requires d >= 1 && i <= d
    ensures 0 <= i * m / d <= m
    ensures i == 0 ==> i * m / d == 0
    ensures i == d ==> i * m / d == m
  {
    MulMonotone(i, d, m);
    DivMonotone(i * m, d * m, d);
    DivUnique(d * m, d, m, 0);
  }

  /**
   * The plan for `count` samples over frames 0 .. total - 1: exactly
   * `count` indices, all in range, starting at 0 and, with two or more
   * samples, ending at the last frame.
   */
  function Plan(total: int, count: nat): (p: seq<int>)
    requires total >= 1
    ensures |p| == count
    ensures forall i :: 0 <= i < |p| ==> 0 <= p[i] <= total - 1
    ensures count >= 1 ==> p[0] == 0
    ensures count >= 2 ==> p[count - 1] == total - 1
  {
    seq(count, i requires 0 <= i < count => Index(total, count, i))
  }

  /** Plan indices never go backwards. */
  lemma PlanNondecreasing(total: int, count: nat, i: nat, j: nat)
    requires total >= 1 && i <= j < count
    ensures Plan(total, count)[i] <= Plan(total, count)[j]
  {
    if count >= 2 {
      MulMonotone(i, j, total - 1);
      DivMonotone(i * (total - 1), j * (total - 1), count - 1);
    }
  }

  /**
   * Evenly spaced: consecutive indices differ by floor((N - 1) / (K - 1))
   * or by one more.
   */
  lemma PlanEvenlySpaced(total: int, count: nat, i: nat)
    requires total >= 1 && count >= 2 && i + 1 < count
    ensures var p, step := Plan(total, count), (total - 1) / (count - 1);
      step <= p[i + 1] - p[i] <= step + 1
  {
    var p := Plan(total, count);
    assert p[i] == Index(total, count, i) && p[i + 1] == Index(total, count, i + 1);
    ScaledStep(total - 1, count - 1, i);
  }

  /** Consecutive scaled indices i * m / d differ by m / d or one more. */
  lemma ScaledStep(m: nat, d: nat, i: nat)
    requires d >= 1
    ensures m / d <= (i + 1) * m / d - i * m / d <= m / d + 1
  {
    MulSucc(i, m);
    DivOfSum(i * m, m, d);
  }

  /** With no more samples than frames, no frame is read twice. */
  lemma {:induction false} PlanStrictWithoutOversampling(total: int, count: nat, i: nat, j: nat)
    requires 1 <= count <= total && i < j < count
    ensures Plan(total, count)[i] < Plan(total, count)[j]
    decreases j - i
  {
    var step := (total - 1) / (count - 1);
    DivMonotone(count - 1, total - 1, count - 1);
    DivUnique(count - 1, count - 1, 1, 0);
    assert step >= 1;
    PlanEvenlySpaced(total, count, i);
    if i + 1 < j {
      PlanStrictWithoutOversampling(total, count, i + 1, j);
    }
  }

  /** A plan whose first k steps all advance has reached at least index k. */
  lemma {:induction false} AdvancingPlanReaches(p: seq<int>, k: nat)
    requires k < |p| && p[0] == 0
    requires forall i :: 0 <= i < k ==> p[i] < p[i + 1]
    ensures p[k] >= k
  {
    if k > 0 {
      AdvancingPlanReaches(p, k - 1);
    }
  }

  /**
   * Oversampling (more samples than frames) does not fail: some frame is
   * simply read at two consecutive positions.
   */
  lemma PlanRepeatsWhenOversampling(total: int, count: nat)
    requires 1 <= total < count
    ensures exists i :: 0 <= i < count - 1 && Plan(total, count)[i] == Plan(total, count)[i + 1]
  {
    var p := Plan(total, count);
    if forall i :: 0 <= i < count - 1 ==> p[i] != p[i + 1] {
      forall i | 0 <= i < count - 1
        ensures p[i] < p[i + 1]
      {
        PlanNondecreasing(total, count, i, i + 1);
      }
      AdvancingPlanReaches(p, count - 1);
      assert false;
    }
  }

  /** One hundred frames sampled ten times: every eleventh frame. */
  lemma PlanOfHundredFramesTenSamples()
    ensures Plan(100, 10) == [0, 11, 22, 33, 44, 55, 66, 77, 88, 99]
  {
  }

  /** Five frames sampled ten times: indices repeat, the plan is floored. */
  lemma PlanOfFiveFramesTenSamples()
    ensures Plan(5, 10) == [0, 0, 0, 1, 1, 2, 2, 3, 3, 4]
  {
  }
}
