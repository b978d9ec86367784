/** The grace-period lock and the admission of unsigned calls together: one worker for every
    consecutive block, each call it sends included a fixed number of blocks later. */
module Cadence {
  import opened Bounded
  import opened Oracle
  import opened Admission
  import opened Multiples
  import opened Wrappers
  import GraceLock
  import PriceTable

  /** The chain at the first block, and for the n-th block after it the outcome of the price
      fetch. Every call is included `delay` blocks after the one its worker ran for. */
  datatype Setup = Setup(
    cfg: Config,
    grace: u32,
    start: Chain,
    delay: nat,
    fetched: nat -> Option<u32>,
    accounts: seq<Public>)

  ghost predicate Healthy(y: Setup) {
    SignaturesVerify(y.cfg) && y.accounts != [] && y.delay >= 1
  }

  /** Up to the n-th block no u32 addition wraps, neither that of the lock nor that of the chain. */
  predicate InRange(y: Setup, n: nat) {
    y.start.block + n + y.cfg.unsignedInterval < TWO_32 && y.start.block + n + y.grace <= TWO_32
  }

  // ---------------------------------------------------------------------
  // The system
  // ---------------------------------------------------------------------

  /** The extrinsics made of the calls of one worker: a signed call goes out under the account
      it was made for. */
  function Extrinsics(calls: seq<Call>, accounts: seq<Public>): seq<Step> {
    seq(|calls|, i requires 0 <= i < |calls| =>
      Extrinsic(if calls[i].SubmitPrice? && i < |accounts| then Signed(accounts[i]) else Unsigned, calls[i]))
  }

  /** The chain after the n-th block, which includes what the worker `delay` blocks back sent. */
  function ChainAt(y: Setup, n: nat): Chain
    requires y.start.block + n < TWO_32 && y.delay >= 1
    decreases n, 1
  {
    if n == 0 then y.start
    else Run(y.cfg, Next(y.cfg, ChainAt(y, n - 1), NextBlock), if n < y.delay then [] else Batch(y, n - y.delay))
  }

  /** The run of the worker for the n-th block: the lock in local storage, as the workers before
      it left it, decides the kind of transaction; the chain decides whether it is sent. */
  function Worker(y: Setup, n: nat): SendResult
    requires y.start.block + n < TWO_32 && y.delay >= 1
    decreases n, 2
  {
    FetchPriceAndSend(y.cfg, ChainAt(y, n), Kind(y, n), y.start.block + n, y.fetched(n), y.accounts)
  }

  /** The extrinsics made of what that worker sent. */
  function Batch(y: Setup, n: nat): seq<Step>
    requires y.start.block + n < TWO_32 && y.delay >= 1
    decreases n, 3
  {
    match Worker(y, n)
    case NotSent(_) => []
    case Sent(calls) => Extrinsics(calls, y.accounts)
  }

  function Kind(y: Setup, n: nat): TransactionType
    requires y.start.block + n < TWO_32
  {
    var stored := GraceLock.AfterBlocks(y.grace, y.start.block, n).stored;
    GraceLock.Choose(GraceLock.Mutate(y.grace, stored, stored, y.start.block + n))
  }

  // ---------------------------------------------------------------------
  // The same by arithmetic alone
  // ---------------------------------------------------------------------

  function Period(y: Setup): nat {
    GraceLock.Period(y.grace)
  }

  /** The n-th worker acquires the lock, gets a price and would send it unsigned. */
  predicate Attempts(y: Setup, n: nat) {
    n % Period(y) == 0 && (y.start.block + n) % 3 != 0 && y.fetched(n).Some?
  }

  /** It acquires the lock, gets a price and sends it signed. */
  predicate SendsSigned(y: Setup, n: nat) {
    n % Period(y) == 0 && (y.start.block + n) % 3 == 0 && y.fetched(n).Some?
  }

  /** The first block that admits a call after an opening by worker o, or by none. */
  function ClosedUntil(y: Setup, opening: Option<nat>): nat {
    match opening
    case None => y.start.nextUnsignedAt
    case Some(o) => y.start.block + o + y.delay + y.cfg.unsignedInterval
  }

  /** The last worker up to the n-th whose batch opens a new epoch: an attempt for which
      admission is open even when everything sent before it has been included. */
  function Opening(y: Setup, n: nat): Option<nat>
    decreases n, 2
  {
    if Opens(y, n) then Some(n) else EarlierOpening(y, n)
  }

  predicate Opens(y: Setup, n: nat)
    decreases n, 1
  {
    Attempts(y, n) && ClosedUntil(y, EarlierOpening(y, n)) <= y.start.block + n
  }

  function EarlierOpening(y: Setup, n: nat): Option<nat>
    decreases n, 0
  {
    if n == 0 then None else Opening(y, n - 1)
  }

  /** `NextUnsignedAt` after the n-th block: only workers `delay` blocks back have had an effect. */
  function ClosedAt(y: Setup, n: nat): nat {
    ClosedUntil(y, if n < y.delay then None else Opening(y, n - y.delay))
  }

  function SignedEvents(price: u32, accounts: seq<Public>): seq<Event> {
    seq(|accounts|, i requires 0 <= i < |accounts| => NewPrice(price, accounts[i]))
  }

  /** The events that the calls of the n-th worker lead to: its price under every account if sent
      signed, under the default account if it opens an epoch, else none. */
  function EventsFrom(y: Setup, n: nat): seq<Event> {
    if SendsSigned(y, n) then SignedEvents(y.fetched(n).value, y.accounts)
    else if Opens(y, n) then [NewPrice(y.fetched(n).value, 0)]
    else []
  }

  // ---------------------------------------------------------------------
  // When the lock is acquired
  // ---------------------------------------------------------------------

  lemma LastAcquisition(grace: u32, b0: nat, n: nat) returns (last: nat)
    requires n > 0 && b0 + n + grace <= TWO_32
    ensures var period := GraceLock.Period(grace);
            && last * period < n <= last * period + period
            && b0 + last * period < TWO_32
            && GraceLock.AfterBlocks(grace, b0, n).stored == GraceLock.LastSend(b0 + last * period)
  {
    var s := GraceLock.AfterBlocks(grace, b0, n);
    GraceLock.SequentialSends(grace, b0, n);
    hide GraceLock.AfterBlocks;
    last := |s.sends| - 1;
    GraceLock.PeriodicBlock(grace, b0, n, s, last);
  }

  lemma GraceEnds(grace: u32, b0: nat, due: nat, n: nat)
    requires b0 + n < TWO_32 && b0 + n + grace <= TWO_32
    requires GraceLock.Period(grace) <= due && due - GraceLock.Period(grace) < n <= due
    requires b0 + due - GraceLock.Period(grace) < TWO_32
    ensures GraceLock.InGrace(grace, GraceLock.LastSend(b0 + due - GraceLock.Period(grace)), b0 + n) <==> n != due
  {
  }

  lemma AcquiresIff(grace: u32, b0: nat, n: nat)
    requires b0 + n < TWO_32 && b0 + n + grace <= TWO_32
    ensures GraceLock.InGrace(grace, GraceLock.AfterBlocks(grace, b0, n).stored, b0 + n)
       <==> n % GraceLock.Period(grace) != 0
  {
    if n > 0 {
      var last := LastAcquisition(grace, b0, n);
      hide GraceLock.AfterBlocks, GraceLock.InGrace;
      var period := GraceLock.Period(grace);
      NextMultiple(period, last, n);
      GraceEnds(grace, b0, last * period + period, n);
    }
  }

  lemma KindIs(y: Setup, n: nat)
    requires InRange(y, n)
    ensures Kind(y, n) == if n % Period(y) != 0 then Nothing
                          else [SendSigned, UnsignedForAny, UnsignedForAll][(y.start.block + n) % 3]
  {
    AcquiresIff(y.grace, y.start.block, n);
  }

  // ---------------------------------------------------------------------
  // What a batch does to the chain
  // ---------------------------------------------------------------------

  /** Unsigned calls of one price that can be turned away for nothing but their common block
      number. */
  predicate UnsignedBatch(cfg: Config, steps: seq<Step>, argument: u32, price: u32) {
    forall k :: 0 <= k < |steps| ==>
      && steps[k].Extrinsic? && steps[k].origin.Unsigned?
      && Genuine(cfg, steps[k].call) && BlockArgument(steps[k].call) == argument && PriceOf(steps[k].call) == price
  }

  /** One signed price for each of the accounts. */
  predicate SignedBatch(steps: seq<Step>, price: u32, accounts: seq<Public>) {
    && |steps| == |accounts|
    && forall k :: 0 <= k < |steps| ==> steps[k] == Extrinsic(Signed(accounts[k]), SubmitPrice(price))
  }

  lemma UnsignedCallIs(cfg: Config, s: Chain, step: Step)
    requires step.Extrinsic? && step.origin.Unsigned? && Genuine(cfg, step.call)
    ensures Accepts(cfg, s, step) <==> s.nextUnsignedAt <= BlockArgument(step.call) <= s.block
    ensures Next(cfg, s, step).events ==
            s.events + if Accepts(cfg, s, step) then [NewPrice(PriceOf(step.call), 0)] else []
  {
    StepRecords(cfg, s, step);
  }

  /** One call of an unsigned batch is accepted if admission is open at its block number, and
      the others are stale from then on. */
  lemma {:induction false} UnsignedBatchEffect(cfg: Config, s: Chain, steps: seq<Step>, argument: u32, price: u32)
    requires UnsignedBatch(cfg, steps, argument, price)
    requires argument < s.block && s.block + cfg.unsignedInterval < TWO_32
    ensures var t := Run(cfg, s, steps);
            && t.block == s.block
            && (if steps != [] && s.nextUnsignedAt <= argument
                then && t.nextUnsignedAt == s.block + cfg.unsignedInterval
                     && t.events == s.events + [NewPrice(price, 0)] && |Accepted(cfg, s, steps)| == 1
                else && t.nextUnsignedAt == s.nextUnsignedAt
                     && t.events == s.events && |Accepted(cfg, s, steps)| == 0)
  {
    if steps != [] {
      var n := |steps| - 1;
      UnsignedBatchEffect(cfg, s, steps[..n], argument, price);
      var before := Run(cfg, s, steps[..n]);
      StepEffect(cfg, before, steps[n]);
      UnsignedCallIs(cfg, before, steps[n]);
      hide Next, Accepts;
    }
  }

  lemma {:induction false} SignedBatchEffect(cfg: Config, s: Chain, steps: seq<Step>, price: u32, accounts: seq<Public>)
    requires SignedBatch(steps, price, accounts)
    ensures var t := Run(cfg, s, steps);
            && t.block == s.block && t.nextUnsignedAt == s.nextUnsignedAt && |Accepted(cfg, s, steps)| == 0
            && t.events == s.events + SignedEvents(price, accounts)
  {
    if steps != [] {
      var n := |steps| - 1;
      SignedBatchEffect(cfg, s, steps[..n], price, accounts[..n]);
      StepEffect(cfg, Run(cfg, s, steps[..n]), steps[n]);
      StepRecords(cfg, Run(cfg, s, steps[..n]), steps[n]);
      assert SignedEvents(price, accounts) == SignedEvents(price, accounts[..n]) + [NewPrice(price, accounts[n])];
    }
  }

  /** Unsigned calls are sent when admission is open at the block of the worker. */
  lemma UnsignedCalls(cfg: Config, s: Chain, kind: TransactionType, block: u32, fetched: Option<u32>,
                      accounts: seq<Public>)
    requires SignaturesVerify(cfg) && accounts != [] && (kind.UnsignedForAny? || kind.UnsignedForAll?)
    ensures var r := FetchPriceAndSend(cfg, s, kind, block, fetched, accounts);
            && (r.Sent? <==> fetched.Some? && s.nextUnsignedAt <= block)
            && (r.Sent? ==> r.calls != []
                            && UnsignedBatch(cfg, Extrinsics(r.calls, accounts), block, fetched.value))
  {
  }

  lemma SignedCalls(cfg: Config, s: Chain, block: u32, fetched: Option<u32>, accounts: seq<Public>)
    requires accounts != []
    ensures var r := FetchPriceAndSend(cfg, s, SendSigned, block, fetched, accounts);
            && (r.Sent? <==> fetched.Some?)
            && (r.Sent? ==> r.calls != [] && SignedBatch(Extrinsics(r.calls, accounts), fetched.value, accounts))
  {
  }

  lemma BatchOf(y: Setup, n: nat)
    requires Healthy(y) && InRange(y, n)
    ensures !Attempts(y, n) && !SendsSigned(y, n) ==> Batch(y, n) == []
    ensures SendsSigned(y, n) ==> SignedBatch(Batch(y, n), y.fetched(n).value, y.accounts)
    ensures Attempts(y, n) ==> UnsignedBatch(y.cfg, Batch(y, n), y.start.block + n, y.fetched(n).value)
    ensures Attempts(y, n) ==> (Batch(y, n) != [] <==> ChainAt(y, n).nextUnsignedAt <= y.start.block + n)
  {
    KindIs(y, n);
    var s, kind := ChainAt(y, n), Kind(y, n);
    var r := FetchPriceAndSend(y.cfg, s, kind, y.start.block + n, y.fetched(n), y.accounts);
    assert Batch(y, n) == if r.Sent? then Extrinsics(r.calls, y.accounts) else [];
    if kind.SendSigned? {
      SignedCalls(y.cfg, s, y.start.block + n, y.fetched(n), y.accounts);
    } else if !kind.Nothing? {
      UnsignedCalls(y.cfg, s, kind, y.start.block + n, y.fetched(n), y.accounts);
    }
  }

  // ---------------------------------------------------------------------
  // The chain follows the arithmetic
  // ---------------------------------------------------------------------

  lemma ClosedBefore(y: Setup, m: nat)
    requires y.delay >= 1
    ensures ClosedAt(y, m + y.delay - 1) == ClosedUntil(y, EarlierOpening(y, m))
  {
  }

  lemma ClosedAtStep(y: Setup, n: nat)
    requires y.delay >= 1 && n >= 1
    ensures n < y.delay ==> ClosedAt(y, n) == ClosedAt(y, n - 1)
    ensures n >= y.delay ==>
              var m := n - y.delay;
              && (Opens(y, m) <==> Attempts(y, m) && ClosedAt(y, n - 1) <= y.start.block + m)
              && ClosedAt(y, n) == (if Opens(y, m) then y.start.block + n + y.cfg.unsignedInterval
                                    else ClosedAt(y, n - 1))
    ensures ClosedAt(y, n - 1) <= ClosedAt(y, n)
  {
    if n >= y.delay {
      ClosedBefore(y, n - y.delay);
    }
  }

  lemma {:induction false} ClosedAtGrows(y: Setup, m: nat, n: nat)
    requires y.delay >= 1 && m <= n
    ensures ClosedAt(y, m) <= ClosedAt(y, n)
    decreases n
  {
    if m < n {
      ClosedAtGrows(y, m, n - 1);
      ClosedAtStep(y, n);
    }
  }

  /** Included d blocks later, the batch of worker m is accepted, by one of its calls, if it
      was an attempt and admission is still open at its block; otherwise it changes nothing. */
  lemma BatchEffect(y: Setup, m: nat, s: Chain)
    requires Healthy(y) && InRange(y, m + y.delay) && s.block == y.start.block + m + y.delay
    requires ChainAt(y, m).nextUnsignedAt <= s.nextUnsignedAt
    ensures var opens := Attempts(y, m) && s.nextUnsignedAt <= y.start.block + m;
            var t := Run(y.cfg, s, Batch(y, m));
            && t.block == s.block
            && t.nextUnsignedAt == (if opens then s.block + y.cfg.unsignedInterval else s.nextUnsignedAt)
            && |Accepted(y.cfg, s, Batch(y, m))| == (if opens then 1 else 0)
            && t.events == s.events + (if SendsSigned(y, m) then SignedEvents(y.fetched(m).value, y.accounts)
                                       else if opens then [NewPrice(y.fetched(m).value, 0)] else [])
  {
    BatchOf(y, m);
    AttemptIsNotSigned(y, m);
    if Attempts(y, m) {
      hide Run, Accepted, Batch, ChainAt, Attempts, SendsSigned, SignedEvents;
      UnsignedBatchEffect(y.cfg, s, Batch(y, m), y.start.block + m, y.fetched(m).value);
    } else if SendsSigned(y, m) {
      hide Run, Accepted, Batch, ChainAt, Attempts, SendsSigned, SignedEvents;
      SignedBatchEffect(y.cfg, s, Batch(y, m), y.fetched(m).value, y.accounts);
    } else {
      assert Run(y.cfg, s, []) == s && Accepted(y.cfg, s, []) == [];
    }
  }

  lemma AttemptIsNotSigned(y: Setup, m: nat)
    ensures !(Attempts(y, m) && SendsSigned(y, m))
    ensures Attempts(y, m) || SendsSigned(y, m) ==> y.fetched(m).Some?
  {
  }

  /** The chain when the n-th block begins. */
  function NewBlock(y: Setup, n: nat): Chain
    requires n >= 1 && y.start.block + n < TWO_32 && y.delay >= 1
  {
    Next(y.cfg, ChainAt(y, n - 1), NextBlock)
  }

  lemma NewBlockIs(y: Setup, n: nat)
    requires n >= 1 && y.start.block + n < TWO_32 && y.delay >= 1
    requires ChainAt(y, n - 1).block == y.start.block + n - 1
    ensures NewBlock(y, n) == ChainAt(y, n - 1).(block := y.start.block + n)
    ensures ChainAt(y, n) == if n < y.delay then NewBlock(y, n)
                             else Run(y.cfg, NewBlock(y, n), Batch(y, n - y.delay))
  {
  }

  /** The chain after the n-th block is as the arithmetic says. */
  predicate Follows(y: Setup, n: nat)
    requires y.start.block + n < TWO_32 && y.delay >= 1
  {
    ChainAt(y, n).block == y.start.block + n && ChainAt(y, n).nextUnsignedAt == ClosedAt(y, n)
  }

  /** The n-th block accepts one unsigned call if the batch it includes opens an epoch, and
      none otherwise. */
  predicate AcceptsOpening(y: Setup, n: nat)
    requires n >= y.delay >= 1 && y.start.block + n < TWO_32
  {
    var m := n - y.delay;
    |Accepted(y.cfg, NewBlock(y, n), Batch(y, m))| == if Opens(y, m) then 1 else 0
  }

  /** And it announces the prices of that batch, nothing in the first blocks. */
  predicate AnnouncesBatch(y: Setup, n: nat)
    requires n >= 1 && y.delay >= 1 && y.start.block + n < TWO_32
  {
    ChainAt(y, n).events == ChainAt(y, n - 1).events + if n < y.delay then [] else EventsFrom(y, n - y.delay)
  }

  lemma BlockEffect(y: Setup, n: nat)
    requires Healthy(y) && InRange(y, n) && n >= y.delay
    requires Follows(y, n - 1) && Follows(y, n - y.delay)
    ensures Follows(y, n) && AcceptsOpening(y, n) && AnnouncesBatch(y, n)
  {
    var m := n - y.delay;
    ClosedAtStep(y, n);
    ClosedAtGrows(y, m, n - 1);
    hide Run, Accepted, Batch, ChainAt, Attempts, Opens, SendsSigned, ClosedAt, NewBlock;
    NewBlockIs(y, n);
    BatchEffect(y, m, NewBlock(y, n));
  }

  /** So in every block `NextUnsignedAt` is what the arithmetic says, unsigned calls are accepted,
      one at a time, exactly from the batches that open an epoch, and the events name the prices
      fetched `delay` blocks before. */
  lemma {:induction false} ChainFollows(y: Setup, n: nat)
    requires Healthy(y) && InRange(y, n)
    ensures Follows(y, n)
    ensures n >= y.delay ==> AcceptsOpening(y, n)
    ensures n >= 1 ==> AnnouncesBatch(y, n)
  {
    if n == 0 {
      assert ClosedAt(y, 0) == y.start.nextUnsignedAt;
    } else {
      ChainFollows(y, n - 1);
      if n >= y.delay {
        ChainFollows(y, n - y.delay);
        hide Follows, AcceptsOpening, AnnouncesBatch;
        BlockEffect(y, n);
      } else {
        NewBlockIs(y, n);
        ClosedAtStep(y, n);
      }
    }
  }

  // ---------------------------------------------------------------------
  // Which workers send
  // ---------------------------------------------------------------------

  predicate Sends(y: Setup, n: nat)
    requires y.start.block + n < TWO_32 && y.delay >= 1
  {
    Worker(y, n).Sent? && Worker(y, n).calls != []
  }

  /** Every outcome of a worker by arithmetic: nothing is sent within the grace period; signed
      prices always go out; unsigned ones when admission is open, else the worker has used up
      its grace period for nothing. */
  lemma WorkerOutcome(y: Setup, n: nat)
    requires Healthy(y) && InRange(y, n)
    ensures var acquires, open := n % Period(y) == 0, ClosedAt(y, n) <= y.start.block + n;
            var signed := (y.start.block + n) % 3 == 0;
            && (Worker(y, n) == Sent([]) <==> !acquires)
            && (Worker(y, n) == NotSent(TooEarly) <==> acquires && !signed && !open)
            && (Sends(y, n) <==> acquires && (signed || open) && y.fetched(n).Some?)
  {
    ChainFollows(y, n);
    KindIs(y, n);
    var s, kind := ChainAt(y, n), Kind(y, n);
    hide ChainAt, Kind, ClosedAt;
    if kind.SendSigned? {
      SignedCalls(y.cfg, s, y.start.block + n, y.fetched(n), y.accounts);
    } else if !kind.Nothing? {
      UnsignedCalls(y.cfg, s, kind, y.start.block + n, y.fetched(n), y.accounts);
    }
  }

  lemma {:induction false} OpeningLasts(y: Setup, m: nat, n: nat)
    requires m <= n
    ensures Opening(y, n).None? ==> Opening(y, m).None?
    ensures Opening(y, n).Some? && Opening(y, n).value <= m ==> Opening(y, m) == Opening(y, n)
    ensures Opening(y, n).Some? ==>
              var o := Opening(y, n).value;
              o <= n && Opens(y, o)
    decreases n
  {
    if m < n {
      OpeningLasts(y, m, n - 1);
    } else if n > 0 {
      OpeningLasts(y, n - 1, n - 1);
    }
  }

  /** Until the batch of an opening is included, admission stays as open as it was. */
  lemma PendingIsOpen(y: Setup, o: nat, n: nat)
    requires y.delay >= 1 && Opens(y, o) && o <= n < o + y.delay
    ensures ClosedAt(y, n) <= y.start.block + n
  {
    ClosedBefore(y, o);
    ClosedAtGrows(y, n, o + y.delay - 1);
    hide ClosedAt, Attempts, EarlierOpening;
  }

  lemma IncludedIsClosed(y: Setup, n: nat)
    requires y.delay >= 1 && Attempts(y, n) && !Opens(y, n)
    requires Opening(y, n).Some? ==> Opening(y, n).value + y.delay <= n
    ensures ClosedAt(y, n) > y.start.block + n
  {
    if n >= y.delay {
      OpeningLasts(y, n - y.delay, n);
    }
  }

  lemma OpenIff(y: Setup, n: nat)
    requires y.delay >= 1 && Attempts(y, n)
    ensures ClosedAt(y, n) <= y.start.block + n <==> Opening(y, n).Some? && n < Opening(y, n).value + y.delay
  {
    OpeningLasts(y, n, n);
    if Opening(y, n).Some? && n < Opening(y, n).value + y.delay {
      PendingIsOpen(y, Opening(y, n).value, n);
    } else {
      IncludedIsClosed(y, n);
    }
  }

  /** An attempt is sent exactly when the batch that last opened an epoch has not been included
      yet: of all the attempts since then, those within `delay` blocks. */
  lemma AttemptSendsIff(y: Setup, n: nat)
    requires Healthy(y) && InRange(y, n) && Attempts(y, n)
    ensures Sends(y, n) <==> Opening(y, n).Some? && n < Opening(y, n).value + y.delay
    ensures !Sends(y, n) <==> Worker(y, n) == NotSent(TooEarly)
  {
    WorkerOutcome(y, n);
    OpenIff(y, n);
    hide Sends, Worker, ClosedAt, Opening;
  }

  // ---------------------------------------------------------------------
  // What becomes of a fetched price
  // ---------------------------------------------------------------------

  lemma {:induction false} ChainKeepsTable(y: Setup, n: nat)
    requires y.start.block + n < TWO_32 && y.delay >= 1 && TableIsReplay(y.start)
    ensures TableIsReplay(ChainAt(y, n))
  {
    if n > 0 {
      ChainKeepsTable(y, n - 1);
      StepKeepsTable(y.cfg, ChainAt(y, n - 1), NextBlock);
      if n >= y.delay {
        RunKeepsTable(y.cfg, Next(y.cfg, ChainAt(y, n - 1), NextBlock), Batch(y, n - y.delay));
      } else {
        assert ChainAt(y, n) == Next(y.cfg, ChainAt(y, n - 1), NextBlock);
      }
    }
  }

  /** The price fetched by a worker that sends it signed or opens an epoch is the last one
      announced `delay` blocks later, and is in the table. */
  lemma PriceArrives(y: Setup, m: nat)
    requires Healthy(y) && InRange(y, m + y.delay) && TableIsReplay(y.start)
    requires SendsSigned(y, m) || Opens(y, m)
    ensures var s := ChainAt(y, m + y.delay);
            && y.fetched(m).Some?
            && s.events != [] && s.events[|s.events| - 1].price == y.fetched(m).value
            && y.fetched(m).value in s.prices
  {
    hide ChainAt, EventsFrom, Opens, SendsSigned, Attempts, TableIsReplay;
    ChainKeepsTable(y, m + y.delay);
    EventsNamePrice(y, m);
    BatchIsAnnounced(y, m + y.delay, m);
    LastPriceIsStored(ChainAt(y, m + y.delay));
  }

  lemma BatchIsAnnounced(y: Setup, n: nat, m: nat)
    requires Healthy(y) && InRange(y, n) && n == m + y.delay
    ensures ChainAt(y, n).events == ChainAt(y, n - 1).events + EventsFrom(y, m)
  {
    hide ChainAt, EventsFrom, Follows, AcceptsOpening;
    ChainFollows(y, n);
  }

  lemma EventsNamePrice(y: Setup, m: nat)
    requires y.accounts != [] && (SendsSigned(y, m) || Opens(y, m))
    ensures y.fetched(m).Some?
    ensures var events := EventsFrom(y, m);
            events != [] && events[|events| - 1].price == y.fetched(m).value
  {
  }

  lemma LastPriceIsStored(s: Chain)
    requires TableIsReplay(s) && s.events != []
    ensures s.events[|s.events| - 1].price in s.prices
  {
    var history := Announced(s.events);
    PriceTable.TableRefinesHistory(history[..|history| - 1]);
    PriceTable.LastIsStored(PriceTable.Replay(history[..|history| - 1]), history[|history| - 1]);
  }
}
