/** The cadence in closed form when every acquisition of the lock is an unsigned attempt. */
module SteadyOracle {
  import opened Bounded
  import opened Oracle
  import opened Admission
  import opened Cadence
  import opened Multiples
  import opened Wrappers
  import GraceLock

  /** Every acquisition is an attempt: the kind never changes, no fetch fails, and admission is
      open at the start. */
  ghost predicate Steady(y: Setup) {
    && y.grace > 0 && y.grace % 3 == 0 && y.start.block % 3 != 0
    && y.start.nextUnsignedAt <= y.start.block
    && forall k :: y.fetched(k).Some?
  }

  /** The least multiple of the grace period that covers the delay and the interval. */
  function Cycle(y: Setup): nat
    requires y.grace > 0
  {
    y.grace * Div(y.delay + y.cfg.unsignedInterval + y.grace - 1, y.grace)
  }

  lemma CycleCovers(y: Setup)
    requires y.grace > 0 && y.delay >= 1
    ensures y.delay + y.cfg.unsignedInterval <= Cycle(y) < y.delay + y.cfg.unsignedInterval + y.grace
  {
    DivTimes(y.delay + y.cfg.unsignedInterval + y.grace - 1, y.grace);
  }

  lemma SteadyAttempts(y: Setup, n: nat)
    requires Steady(y)
    ensures Attempts(y, n) <==> n % y.grace == 0
  {
    if n % y.grace == 0 {
      ExactMultiple(y.grace, n);
      hide Div;
      GraceLock.MultipleOfThree(y.start.block, Div(n, y.grace), y.grace);
    }
  }

  /** An attempt opens an epoch once delay and interval have passed since the last opening. */
  lemma OpeningStep(y: Setup, n: nat, last: nat)
    requires n >= 1 && Opening(y, n - 1) == Some(last)
    ensures Opening(y, n) == if Attempts(y, n) && last + y.delay + y.cfg.unsignedInterval <= n then Some(n)
                             else Some(last)
  {
    assert EarlierOpening(y, n) == Some(last);
  }

  /** The openings are one cycle apart, from the first block on. */
  lemma {:induction false} SteadyOpenings(y: Setup, n: nat)
    requires Steady(y) && y.delay >= 1
    ensures Cycle(y) > 0 && Opening(y, n) == Some(n - n % Cycle(y))
  {
    SteadyAttempts(y, n);
    if n == 0 {
      FirstOpening(y);
    } else {
      SteadyOpenings(y, n - 1);
      SteadyCycle(y, n);
      hide Opening, Attempts, Cycle;
      OpeningStep(y, n, n - 1 - (n - 1) % Cycle(y));
    }
  }

  lemma FirstOpening(y: Setup)
    requires Steady(y) && y.delay >= 1
    ensures Cycle(y) > 0 && Opening(y, 0) == Some(0 - 0 % Cycle(y))
  {
    CycleCovers(y);
    SteadyAttempts(y, 0);
    assert Opens(y, 0);
    RemainderIs(0, Cycle(y), 0, 0);
  }

  lemma SteadyCycle(y: Setup, n: nat)
    requires y.grace > 0 && y.delay >= 1 && n >= 1
    ensures Cycle(y) > 0
    ensures var r := (n - 1) % Cycle(y);
            n % Cycle(y) == if n % y.grace == 0 && r + 1 >= y.delay + y.cfg.unsignedInterval then 0 else r + 1
  {
    CycleCovers(y);
    var q := Div(y.delay + y.cfg.unsignedInterval + y.grace - 1, y.grace);
    hide Div;
    CycleStep(y.grace, q, y.delay + y.cfg.unsignedInterval, n);
  }

  /** The worker sends in the acquisitions of each cycle that come less than `delay` blocks after
      its first, and all the others are refused as too early. */
  lemma SteadySends(y: Setup, n: nat)
    requires Healthy(y) && InRange(y, n) && Steady(y)
    ensures Cycle(y) > 0
    ensures Sends(y, n) <==> n % y.grace == 0 && n % Cycle(y) < y.delay
    ensures Worker(y, n) == NotSent(TooEarly) <==> n % y.grace == 0 && n % Cycle(y) >= y.delay
  {
    SteadyAttempts(y, n);
    SteadyOpenings(y, n);
    WorkerOutcome(y, n);
    if Attempts(y, n) {
      AttemptSendsIff(y, n);
    }
  }

  /** And the calls accepted are those of the first acquisition of each cycle, one of each. */
  lemma SteadyAcceptances(y: Setup, n: nat)
    requires Healthy(y) && InRange(y, n) && Steady(y) && n >= y.delay
    ensures Cycle(y) > 0
    ensures |Accepted(y.cfg, NewBlock(y, n), Batch(y, n - y.delay))| == if (n - y.delay) % Cycle(y) == 0 then 1 else 0
  {
    var m := n - y.delay;
    ChainFollows(y, n);
    SteadyOpenings(y, m);
    if m > 0 {
      OpeningLasts(y, m - 1, m - 1);
    }
    assert Opening(y, m) == Some(m) <==> Opens(y, m);
    assert AcceptsOpening(y, n);
  }

  lemma EverySecond(n: nat, c: nat, delay: nat)
    requires c == 6 && 1 <= delay <= 3
    ensures n % 3 == 0 && n % c < delay <==> n % 6 == 0
    ensures n % 3 == 0 && n % c >= delay <==> n % 6 == 3
  {
  }

  /** With the grace period and the interval of the runtime and a delay of up to three blocks,
      every second acquisition sends, and the one between spends its grace period for nothing. */
  lemma RuntimeCadence(y: Setup, n: nat)
    requires Healthy(y) && InRange(y, n) && Steady(y)
    requires y.grace == 3 && y.cfg.unsignedInterval == 3 && y.delay <= 3
    ensures Sends(y, n) <==> n % 6 == 0
    ensures Worker(y, n) == NotSent(TooEarly) <==> n % 6 == 3
  {
    assert Cycle(y) == 6;
    SteadySends(y, n);
    hide *;
    EverySecond(n, Cycle(y), y.delay);
  }
}
