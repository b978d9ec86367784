/** Multiples of a period, and of a cycle of several periods. */
module Multiples {
  import opened Bounded

  lemma NextMultiple(period: nat, last: nat, n: nat)
    requires period > 0 && last * period < n <= last * period + period
    ensures n % period == 0 <==> n == last * period + period
  {
    DivTimes(n, period);
    MulSuccessor(period, last);
    if n / period <= last {
      MulMonotone(period, n / period, last);
    } else {
      MulMonotone(period, last + 1, n / period);
    }
  }

  lemma ExactMultiple(period: nat, n: nat)
    requires period > 0 && n % period == 0
    ensures n == Div(n, period) * period
  {
  }

  lemma RemainderIs(n: nat, c: nat, q: nat, r: nat)
    requires r < c && n == c * q + r
    ensures n % c == r
  {
    DivAtLeast(n, c, q);
    DivAtMost(n, c, q);
  }

  lemma NextRemainder(n: nat, c: nat)
    requires c > 0
    ensures (n + 1) % c == if n % c + 1 == c then 0 else n % c + 1
  {
    RemainderIs(n + 1, c, if n % c + 1 == c then n / c + 1 else n / c, if n % c + 1 == c then 0 else n % c + 1);
  }

  lemma CycleIsMultiple(period: nat, q: nat, n: nat)
    requires period > 0 && q > 0 && period * q > 0 && n % (period * q) == 0
    ensures n % period == 0
  {
    var b := n / (period * q);
    assert n == period * (q * b);
    RemainderIs(n, period, q * b, 0);
  }

  /** The last multiple of the period within a cycle of q periods starts a period before its end. */
  lemma WithinCycle(period: nat, q: nat, n: nat)
    requires period > 0 && q > 0 && n % period == 0
    ensures period * q > 0 && n % (period * q) + period <= period * q
  {
    var a, b := n / period, (n / period) / q;
    var r := a % q;
    assert n == period * a;
    assert a == q * b + r;
    assert n == (period * q) * b + period * r by {
      assert period * (q * b) == (period * q) * b;
    }
    MulMonotone(period, r + 1, q);
    RemainderIs(n, period * q, b, period * r);
  }

  /** A multiple of the period starts a cycle once a span that needs q periods is over. */
  lemma CycleStep(period: nat, q: nat, span: nat, n: nat)
    requires period > 0 && q > 0 && span <= period * q < span + period && n >= 1
    ensures period * q > 0
    ensures var r := (n - 1) % (period * q);
            n % (period * q) == if n % period == 0 && r + 1 >= span then 0 else r + 1
  {
    NextRemainder(n - 1, period * q);
    if n % (period * q) == 0 {
      CycleIsMultiple(period, q, n);
    } else if n % period == 0 {
      WithinCycle(period, q, n);
    }
  }
}
