/**
 * The percentage shown by the byte-progress reader:
 * `0 if total == 0 else round((transferred / total) * 100)`.
 * Python's `round` on a float rounds halves to the even neighbour; the model
 * rounds the exact rational `100 * transferred / total` the same way.
 */
module Percentage {

  /** An integer is even. */
  predicate Even(k: int) {
    k % 2 == 0
  }

  /**
   * The integer `r` nearest to `n / d`, ties to the even one.  The ensures
   * clauses define round-half-to-even without division: `|n/d - r| <= 1/2`,
   * written `-d <= 2n - 2dr <= d`, and a distance of exactly one half only for
   * an even `r`.
   */
  function RoundHalfEven(n: int, d: int): (r: int)
    requires d > 0
    ensures -d <= 2 * n - 2 * (d * r) <= d
    ensures 2 * n - 2 * (d * r) == d || 2 * n - 2 * (d * r) == -d ==> Even(r)
  {
    var q, rem := n / d, n % d;
    assert n == d * q + rem && 0 <= rem < d;
    assert d * (q + 1) == d * q + d;
    if 2 * rem < d then q
    else if 2 * rem > d then q + 1
    else if Even(q) then q
    else q + 1
  }

  /** Dividing both sides of `d * a <= d * b` by a positive `d`. */
  lemma CancelLe(d: int, a: int, b: int)
    requires d > 0 && d * a <= d * b
    ensures a <= b
  {
  }

  /**
   * Round-half-to-even is monotone: a larger numerator never gives a smaller
   * result.  Two results one apart would both need a tie, so both be even.
   */
  lemma RoundHalfEvenMonotone(n1: int, n2: int, d: int)
    requires d > 0 && n1 <= n2
    ensures RoundHalfEven(n1, d) <= RoundHalfEven(n2, d)
  {
    var r1, r2 := RoundHalfEven(n1, d), RoundHalfEven(n2, d);
    var p1, p2 := d * r1, d * r2;
    assert d * (r2 + 1) == p2 + d;
    CancelLe(d, r1, r2 + 1);
    if r1 == r2 + 1 {
      // both would sit at a tie, so both be even
      NeighboursNotBothEven(r2);
    }
  }

  lemma NeighboursNotBothEven(k: int)
    ensures !(Even(k) && Even(k + 1))
  {
  }

  /** main.py:162, over exact rationals; a negative total is read as the sign of the quotient. */
  function Percent(transferred: int, total: int): (p: int)
    ensures total == 0 ==> p == 0
    ensures total > 0 ==> p == RoundHalfEven(100 * transferred, total)
  {
    if total == 0 then 0
    else if total > 0 then RoundHalfEven(100 * transferred, total)
    else RoundHalfEven(-100 * transferred, -total)
  }

  /** While the transfer is within its size, the percentage lies in [0, 100]. */
  lemma PercentInRange(transferred: int, total: int)
    requires 0 <= transferred <= total
    ensures 0 <= Percent(transferred, total) <= 100
  {
    if total > 0 {
      var r := RoundHalfEven(100 * transferred, total);
      assert total * (2 * r) == 2 * (total * r);
      CancelLe(total, 2 * r, 201);
      CancelLe(total, -1, 2 * r);
    }
  }

  /** A completed transfer of a known size reads 100. */
  lemma PercentComplete(total: int)
    requires total > 0
    ensures Percent(total, total) == 100
  {
    var r := RoundHalfEven(100 * total, total);
    assert total * (2 * r) == 2 * (total * r);
    CancelLe(total, 2 * r, 201);
    CancelLe(total, 199, 2 * r);
  }

  /** For a fixed total, more bytes transferred never lowers the percentage. */
  lemma PercentMonotone(t1: int, t2: int, total: int)
    requires 0 <= total && t1 <= t2
    ensures Percent(t1, total) <= Percent(t2, total)
  {
    if total > 0 {
      RoundHalfEvenMonotone(100 * t1, 100 * t2, total);
    }
  }

  /**
   * Exactly when the reader reports 100 (and so emits `done`): once at least
   * 99.5% of the bytes have arrived, the half being rounded up to the even 100.
   */
  lemma PercentIs100Iff(transferred: int, total: int)
    requires 0 <= transferred <= total && total > 0
    ensures Percent(transferred, total) == 100 <==> 200 * transferred >= 199 * total
  {
    var r := RoundHalfEven(100 * transferred, total);
    PercentInRange(transferred, total);
    if 200 * transferred >= 199 * total {
      assert total * (2 * r) == 2 * (total * r);
      CancelLe(total, 197, 2 * r);
      assert r == 99 ==> total * r == 99 * total;
    } else {
      assert r == 100 ==> total * r == 100 * total;
    }
  }

  /** The `done` trigger can fire before the last byte: 199 of 200 bytes read as 100%. */
  lemma DoneBeforeLastByte()
    ensures Percent(199, 200) == 100
  {
    PercentIs100Iff(199, 200);
  }
}
