/** Runs of the chain: blocks and extrinsics in any order. */
module Admission {
  import opened Bounded
  import opened Oracle
  import opened Spacing
  import opened Wrappers
  import PriceTable

  datatype Step = NextBlock | Extrinsic(origin: Origin, call: Call)

  predicate Accepts(cfg: Config, s: Chain, step: Step) {
    step.Extrinsic? && step.origin.Unsigned? && ValidateUnsigned(cfg, s, step.call).Valid?
  }

  /** One step. An unsigned extrinsic is dispatched only when it validates in the very state
      it is dispatched in; the chain halts at the last block number of a u32. */
  function Next(cfg: Config, s: Chain, step: Step): Chain {
    match step
    case NextBlock => if s.block == MAX_U32 then s else s.(block := s.block + 1)
    case Extrinsic(origin, call) =>
      if origin.Unsigned? && !Accepts(cfg, s, step) then s else Dispatch(cfg, s, origin, call).chain
  }

  function Run(cfg: Config, s: Chain, steps: seq<Step>): Chain {
    if steps == [] then s else Next(cfg, Run(cfg, s, steps[..|steps| - 1]), steps[|steps| - 1])
  }

  /** An accepted unsigned call, the block it landed in and the tag it provided. */
  datatype Acceptance = Acceptance(call: Call, block: u32, tag: u32)

  function Accepted(cfg: Config, s: Chain, steps: seq<Step>): seq<Acceptance> {
    if steps == [] then []
    else
      var n := |steps| - 1;
      var before := Run(cfg, s, steps[..n]);
      Accepted(cfg, s, steps[..n]) +
      if Accepts(cfg, before, steps[n]) then [Acceptance(steps[n].call, before.block, before.nextUnsignedAt)] else []
  }

  /** No u32 addition wraps in a run that ends before the last interval of block numbers. */
  predicate NoOverflow(cfg: Config, end: Chain) {
    end.block + cfg.unsignedInterval < TWO_32
  }

  // ---------------------------------------------------------------------
  // The invariant of a run
  // ---------------------------------------------------------------------

  /** Every accepted call carries a block number between its tag and the block it landed in. */
  ghost predicate Within(from: Chain, to: Chain, acc: seq<Acceptance>) {
    && from.block <= to.block
    && forall k :: 0 <= k < |acc| ==>
         && from.nextUnsignedAt <= acc[k].tag <= BlockArgument(acc[k].call) <= acc[k].block
         && from.block <= acc[k].block <= to.block
  }

  /** Admission opens again one interval after an acceptance. */
  ghost predicate Separated(interval: nat, acc: seq<Acceptance>) {
    forall i, j :: 0 <= i < j < |acc| ==> acc[i].block + interval <= acc[j].tag
  }

  ghost predicate History(cfg: Config, from: Chain, to: Chain, acc: seq<Acceptance>) {
    && Within(from, to, acc)
    && Separated(cfg.unsignedInterval, acc)
    && to.nextUnsignedAt == if acc == [] then from.nextUnsignedAt else acc[|acc| - 1].block + cfg.unsignedInterval
  }

  lemma StepEffect(cfg: Config, s: Chain, step: Step)
    ensures var t := Next(cfg, s, step);
            && s.block <= t.block <= s.block + 1
            && (!Accepts(cfg, s, step) ==> t.nextUnsignedAt == s.nextUnsignedAt)
            && (Accepts(cfg, s, step) ==>
                  && s.nextUnsignedAt <= BlockArgument(step.call) <= s.block == t.block
                  && t.nextUnsignedAt == AddU32(s.block, cfg.unsignedInterval))
  {
    if step.Extrinsic? {
      ValidExactlyInWindow(cfg, s, step.call);
    }
  }

  lemma HistoryExtends(cfg: Config, from: Chain, mid: Chain, to: Chain, acc: seq<Acceptance>, a: Acceptance)
    requires History(cfg, from, mid, acc)
    requires mid.nextUnsignedAt == a.tag <= BlockArgument(a.call) <= a.block == mid.block == to.block
    requires to.nextUnsignedAt == a.block + cfg.unsignedInterval
    ensures History(cfg, from, to, acc + [a])
  {
    forall i | 0 <= i < |acc|
      ensures acc[i].block + cfg.unsignedInterval <= a.tag
    {
      if i < |acc| - 1 {
        assert acc[i].block + cfg.unsignedInterval <= acc[|acc| - 1].tag;
      }
    }
  }

  lemma HistoryAfterStep(cfg: Config, from: Chain, s: Chain, acc: seq<Acceptance>, step: Step)
    requires History(cfg, from, s, acc) && NoOverflow(cfg, Next(cfg, s, step))
    ensures NoOverflow(cfg, s)
    ensures History(cfg, from, Next(cfg, s, step),
                    acc + if Accepts(cfg, s, step) then [Acceptance(step.call, s.block, s.nextUnsignedAt)] else [])
  {
    StepEffect(cfg, s, step);
    var t := Next(cfg, s, step);
    if Accepts(cfg, s, step) {
      var a := Acceptance(step.call, s.block, s.nextUnsignedAt);
      hide Next, Accepts;
      HistoryExtends(cfg, from, s, t, acc, a);
    } else {
      hide Next;
      assert acc + [] == acc;
    }
  }

  lemma {:induction false} RunHistory(cfg: Config, s: Chain, steps: seq<Step>)
    requires NoOverflow(cfg, Run(cfg, s, steps))
    ensures History(cfg, s, Run(cfg, s, steps), Accepted(cfg, s, steps))
  {
    if steps != [] {
      var n := |steps| - 1;
      StepEffect(cfg, Run(cfg, s, steps[..n]), steps[n]);
      RunHistory(cfg, s, steps[..n]);
      hide Next, Accepts, History;
      HistoryAfterStep(cfg, s, Run(cfg, s, steps[..n]), Accepted(cfg, s, steps[..n]), steps[n]);
    }
  }

  // ---------------------------------------------------------------------
  // Rate limit
  // ---------------------------------------------------------------------

  function BlocksOf(acc: seq<Acceptance>): seq<nat> {
    seq(|acc|, i requires 0 <= i < |acc| => acc[i].block)
  }

  function ArgumentsOf(acc: seq<Acceptance>): seq<nat> {
    seq(|acc|, i requires 0 <= i < |acc| => BlockArgument(acc[i].call))
  }

  function TagsOf(acc: seq<Acceptance>): seq<nat> {
    seq(|acc|, i requires 0 <= i < |acc| => acc[i].tag)
  }

  /** The i-th and the j-th acceptance are at least j - i intervals apart, and so are the
      block numbers they carry and their tags. */
  ghost predicate Spaced(interval: nat, acc: seq<Acceptance>) {
    SpacedBy(interval, BlocksOf(acc)) && SpacedBy(interval, ArgumentsOf(acc)) && SpacedBy(interval, TagsOf(acc))
  }

  lemma HistoryHasGaps(interval: nat, from: Chain, to: Chain, acc: seq<Acceptance>)
    requires Within(from, to, acc) && Separated(interval, acc)
    ensures GapBetween(interval, BlocksOf(acc))
    ensures GapBetween(interval, ArgumentsOf(acc))
    ensures GapBetween(interval, TagsOf(acc))
  {
  }

  lemma RateLimit(cfg: Config, s: Chain, steps: seq<Step>)
    requires NoOverflow(cfg, Run(cfg, s, steps))
    ensures Spaced(cfg.unsignedInterval, Accepted(cfg, s, steps))
  {
    RunHistory(cfg, s, steps);
    var acc := Accepted(cfg, s, steps);
    HistoryHasGaps(cfg.unsignedInterval, s, Run(cfg, s, steps), acc);
    GapBetweenIsSpaced(cfg.unsignedInterval, BlocksOf(acc));
    GapBetweenIsSpaced(cfg.unsignedInterval, ArgumentsOf(acc));
    GapBetweenIsSpaced(cfg.unsignedInterval, TagsOf(acc));
  }

  /** The acceptances that landed in blocks x to y. */
  function InBlocks(acc: seq<Acceptance>, x: nat, y: nat): (r: seq<Acceptance>)
    ensures forall a :: a in r <==> a in acc && x <= a.block <= y
  {
    if acc == [] then []
    else
      var n := |acc| - 1;
      InBlocks(acc[..n], x, y) + if x <= acc[n].block <= y then [acc[n]] else []
  }

  lemma {:induction false} InBlocksKeepsHistory(interval: nat, from: Chain, to: Chain, acc: seq<Acceptance>,
                                                x: nat, y: nat)
    requires Within(from, to, acc) && Separated(interval, acc)
    ensures Within(from, to, InBlocks(acc, x, y)) && Separated(interval, InBlocks(acc, x, y))
  {
    if acc != [] {
      var n := |acc| - 1;
      var r := InBlocks(acc[..n], x, y);
      InBlocksKeepsHistory(interval, from, to, acc[..n], x, y);
      forall i | 0 <= i < |r|
        ensures r[i].block + interval <= acc[n].tag
      {
        assert r[i] in acc[..n];
      }
    }
  }

  lemma FitInRange(interval: nat, from: Chain, to: Chain, acc: seq<Acceptance>, x: nat, y: nat)
    requires Within(from, to, acc) && Separated(interval, acc) && interval >= 1 && x <= y
    requires forall a :: a in acc ==> x <= a.block <= y
    ensures |acc| <= 1 + (y - x) / interval
  {
    if |acc| > 1 {
      var last := |acc| - 1;
      HistoryHasGaps(interval, from, to, acc);
      GapsAdd(interval, BlocksOf(acc), 0, last);
      assert acc[0] in acc && acc[last] in acc;
      RoomFor(x, y, interval, last, acc[0].block, acc[last].block);
    } else {
      RoomFor(x, y, interval, 0, x, x);
    }
  }

  lemma RoomFor(x: nat, y: nat, interval: nat, gaps: nat, first: nat, last: nat)
    requires interval >= 1 && x <= first && first + gaps * interval <= last <= y
    ensures gaps <= (y - x) / interval
  {
    DivAtLeast(y - x, interval, gaps);
  }

  /** Any range of blocks accepts at most one unsigned call, and one more for every full
      interval in it. */
  lemma RangeBound(cfg: Config, s: Chain, steps: seq<Step>, x: nat, y: nat)
    requires NoOverflow(cfg, Run(cfg, s, steps)) && cfg.unsignedInterval >= 1 && x <= y
    ensures |InBlocks(Accepted(cfg, s, steps), x, y)| <= 1 + (y - x) / cfg.unsignedInterval
  {
    RunHistory(cfg, s, steps);
    InBlocksKeepsHistory(cfg.unsignedInterval, s, Run(cfg, s, steps), Accepted(cfg, s, steps), x, y);
    FitInRange(cfg.unsignedInterval, s, Run(cfg, s, steps), InBlocks(Accepted(cfg, s, steps), x, y), x, y);
  }

  // ---------------------------------------------------------------------
  // The rate limit holds up to the last interval of block numbers, and no further
  // ---------------------------------------------------------------------

  ghost predicate RateLimitedUpTo(cfg: Config, limit: u32) {
    forall steps: seq<Step> :: Run(cfg, GENESIS, steps).block <= limit ==>
      Spaced(cfg.unsignedInterval, Accepted(cfg, GENESIS, steps))
  }

  function Blocks(n: nat): seq<Step> {
    if n == 0 then [] else Blocks(n - 1) + [NextBlock]
  }

  lemma RunOne(cfg: Config, s: Chain, steps: seq<Step>, step: Step)
    ensures var before := Run(cfg, s, steps);
            && Run(cfg, s, steps + [step]) == Next(cfg, before, step)
            && Accepted(cfg, s, steps + [step]) == Accepted(cfg, s, steps) +
                 if Accepts(cfg, before, step) then [Acceptance(step.call, before.block, before.nextUnsignedAt)] else []
  {
    assert (steps + [step])[..|steps|] == steps;
  }

  /** One more block, as long as block numbers last. */
  lemma RunBlock(cfg: Config, s: Chain, steps: seq<Step>)
    requires Run(cfg, s, steps).block < MAX_U32
    ensures var before := Run(cfg, s, steps);
            && Run(cfg, s, steps + [NextBlock]) == before.(block := before.block + 1)
            && Accepted(cfg, s, steps + [NextBlock]) == Accepted(cfg, s, steps)
  {
    RunOne(cfg, s, steps, NextBlock);
  }

  lemma {:induction false} BlocksAdvance(cfg: Config, s: Chain, n: nat)
    requires s.block + n < TWO_32
    ensures Run(cfg, s, Blocks(n)) == s.(block := s.block + n) && Accepted(cfg, s, Blocks(n)) == []
  {
    if n > 0 {
      assert Blocks(n) == Blocks(n - 1) + [NextBlock];
      hide *;
      BlocksAdvance(cfg, s, n - 1);
      RunBlock(cfg, s, Blocks(n - 1));
    }
  }

  /** An acceptance whose block plus the interval is no u32 leaves admission open. */
  lemma WrapStep(cfg: Config, s: Chain, call: Call)
    requires call.SubmitPriceUnsigned? && s.nextUnsignedAt <= call.blockNumber == s.block
    requires s.block + cfg.unsignedInterval >= TWO_32
    ensures Accepts(cfg, s, Extrinsic(Unsigned, call))
    ensures var t := Next(cfg, s, Extrinsic(Unsigned, call));
            t.block == s.block && t.nextUnsignedAt < s.block
  {
    StepEffect(cfg, s, Extrinsic(Unsigned, call));
  }

  /** The same call accepted twice in one block: the first acceptance in block `at` wraps
      `NextUnsignedAt` around to a block in the past. */
  lemma WrapAcceptsTwice(cfg: Config, at: u32) returns (steps: seq<Step>)
    requires at + cfg.unsignedInterval >= TWO_32
    ensures Run(cfg, GENESIS, steps).block == at
    ensures |Accepted(cfg, GENESIS, steps)| == 2
    ensures Accepted(cfg, GENESIS, steps)[0].call == Accepted(cfg, GENESIS, steps)[1].call
    ensures Accepted(cfg, GENESIS, steps)[0].block == Accepted(cfg, GENESIS, steps)[1].block
  {
    var x := Extrinsic(Unsigned, SubmitPriceUnsigned(at, 0));
    var once := Blocks(at) + [x];
    steps := once + [x];
    BlocksAdvance(cfg, GENESIS, at);
    RunOne(cfg, GENESIS, Blocks(at), x);
    WrapStep(cfg, Run(cfg, GENESIS, Blocks(at)), x.call);
    RunOne(cfg, GENESIS, once, x);
    WrapStep(cfg, Run(cfg, GENESIS, once), x.call);
  }

  /** The rate limit holds for all runs up to a block exactly when that block plus the interval
      is still a u32. */
  lemma RateLimitExact(cfg: Config, limit: u32)
    ensures RateLimitedUpTo(cfg, limit) <==> limit + cfg.unsignedInterval < TWO_32
  {
    if limit + cfg.unsignedInterval < TWO_32 {
      forall steps: seq<Step> | Run(cfg, GENESIS, steps).block <= limit
        ensures Spaced(cfg.unsignedInterval, Accepted(cfg, GENESIS, steps))
      {
        RateLimit(cfg, GENESIS, steps);
      }
    } else {
      var steps := WrapAcceptsTwice(cfg, limit);
      var acc := Accepted(cfg, GENESIS, steps);
      assert !Apart(cfg.unsignedInterval, BlocksOf(acc)[0], BlocksOf(acc)[1], 1);
    }
  }

  // ---------------------------------------------------------------------
  // At most once
  // ---------------------------------------------------------------------

  /** No call is accepted twice, and no two accepted calls carry the same block number. */
  lemma AcceptedAtMostOnce(cfg: Config, s: Chain, steps: seq<Step>, i: nat, j: nat)
    requires NoOverflow(cfg, Run(cfg, s, steps)) && cfg.unsignedInterval >= 1
    requires i < j < |Accepted(cfg, s, steps)|
    ensures var acc := Accepted(cfg, s, steps);
            && BlockArgument(acc[i].call) < BlockArgument(acc[j].call)
            && acc[i].call != acc[j].call
            && acc[i].tag < acc[j].tag
  {
    RunHistory(cfg, s, steps);
  }

  /** Of all the calls one worker run creates for its accounts, at most one is ever accepted. */
  lemma OneOfTheBatch(cfg: Config, at: Chain, kind: TransactionType, blockNumber: u32, fetched: Option<u32>,
                      accounts: seq<Public>, s: Chain, steps: seq<Step>, i: nat, j: nat)
    requires NoOverflow(cfg, Run(cfg, s, steps)) && cfg.unsignedInterval >= 1
    requires !kind.SendSigned? && FetchPriceAndSend(cfg, at, kind, blockNumber, fetched, accounts).Sent?
    requires i < |Accepted(cfg, s, steps)| && j < |Accepted(cfg, s, steps)|
    requires Accepted(cfg, s, steps)[i].call in FetchPriceAndSend(cfg, at, kind, blockNumber, fetched, accounts).calls
    requires Accepted(cfg, s, steps)[j].call in FetchPriceAndSend(cfg, at, kind, blockNumber, fetched, accounts).calls
    ensures i == j
  {
    if i < j {
      AcceptedAtMostOnce(cfg, s, steps, i, j);
    } else if j < i {
      AcceptedAtMostOnce(cfg, s, steps, j, i);
    }
  }

  // ---------------------------------------------------------------------
  // Lifetime of a call
  // ---------------------------------------------------------------------

  /** A genuine call built at block b once admission is open at b stays valid until the first
      acceptance of any unsigned call, whatever else happens, and is stale ever after. */
  lemma ExactLifetime(cfg: Config, s: Chain, call: Call, steps: seq<Step>)
    requires NoOverflow(cfg, Run(cfg, s, steps)) && cfg.unsignedInterval >= 1
    requires Genuine(cfg, call) && s.nextUnsignedAt <= BlockArgument(call) <= s.block
    ensures ValidateUnsigned(cfg, Run(cfg, s, steps), call).Valid? <==> Accepted(cfg, s, steps) == []
    ensures ValidateUnsigned(cfg, Run(cfg, s, steps), call) == Invalid(Stale) <==> Accepted(cfg, s, steps) != []
  {
    RunHistory(cfg, s, steps);
    ValidExactlyInWindow(cfg, Run(cfg, s, steps), call);
  }

  /** Every unsigned call a worker sends for the block it sees has that lifetime; a worker
      refuses to send exactly when the call would be stale. */
  lemma WorkerCallsLive(cfg: Config, s: Chain, kind: TransactionType, price: u32, accounts: seq<Public>,
                        steps: seq<Step>)
    requires SignaturesVerify(cfg) && cfg.unsignedInterval >= 1
    requires NoOverflow(cfg, Run(cfg, s, steps))
    requires kind.Raw? || kind.UnsignedForAny? || kind.UnsignedForAll?
    ensures var r := FetchPriceAndSend(cfg, s, kind, s.block, Some(price), accounts);
            && (r == NotSent(TooEarly) <==>
                  ValidateUnsigned(cfg, s, SubmitPriceUnsigned(s.block, price)) == Invalid(Stale))
            && (r.Sent? ==> forall call :: call in r.calls ==>
                  && PriceOf(call) == price
                  && (ValidateUnsigned(cfg, Run(cfg, s, steps), call).Valid? <==> Accepted(cfg, s, steps) == [])
                  && (ValidateUnsigned(cfg, Run(cfg, s, steps), call) == Invalid(Stale)
                      <==> Accepted(cfg, s, steps) != []))
  {
    var r := FetchPriceAndSend(cfg, s, kind, s.block, Some(price), accounts);
    if r.Sent? {
      forall call | call in r.calls
        ensures PriceOf(call) == price
        ensures ValidateUnsigned(cfg, Run(cfg, s, steps), call).Valid? <==> Accepted(cfg, s, steps) == []
        ensures ValidateUnsigned(cfg, Run(cfg, s, steps), call) == Invalid(Stale) <==> Accepted(cfg, s, steps) != []
      {
        ExactLifetime(cfg, s, call, steps);
      }
    }
  }

  // ---------------------------------------------------------------------
  // The tag is an epoch number
  // ---------------------------------------------------------------------

  /** `NextUnsignedAt` rises by at least one interval with every acceptance and by nothing
      else, so two validations give the same tag exactly when nothing was accepted between. */
  lemma TagIsEpoch(cfg: Config, s: Chain, earlier: Call, steps: seq<Step>, later: Call)
    requires NoOverflow(cfg, Run(cfg, s, steps)) && cfg.unsignedInterval >= 1
    requires ValidateUnsigned(cfg, s, earlier).Valid? && ValidateUnsigned(cfg, Run(cfg, s, steps), later).Valid?
    ensures s.nextUnsignedAt + |Accepted(cfg, s, steps)| * cfg.unsignedInterval <= Run(cfg, s, steps).nextUnsignedAt
    ensures ValidateUnsigned(cfg, s, earlier).tag == ValidateUnsigned(cfg, Run(cfg, s, steps), later).tag
       <==> Accepted(cfg, s, steps) == []
  {
    EpochGrows(cfg, s, steps);
    ValidExactlyInWindow(cfg, s, earlier);
    ValidExactlyInWindow(cfg, Run(cfg, s, steps), later);
    if Accepted(cfg, s, steps) != [] {
      MulMonotone(cfg.unsignedInterval, 1, |Accepted(cfg, s, steps)|);
    }
  }

  lemma HistorySpan(cfg: Config, from: Chain, to: Chain, acc: seq<Acceptance>)
    requires History(cfg, from, to, acc)
    ensures from.nextUnsignedAt + |acc| * cfg.unsignedInterval <= to.nextUnsignedAt
  {
    if acc != [] {
      var last := |acc| - 1;
      HistoryHasGaps(cfg.unsignedInterval, from, to, acc);
      MulSuccessor(cfg.unsignedInterval, last);
      if last > 0 {
        GapsAdd(cfg.unsignedInterval, TagsOf(acc), 0, last);
      }
    }
  }

  lemma EpochGrows(cfg: Config, s: Chain, steps: seq<Step>)
    requires NoOverflow(cfg, Run(cfg, s, steps))
    ensures s.nextUnsignedAt + |Accepted(cfg, s, steps)| * cfg.unsignedInterval <= Run(cfg, s, steps).nextUnsignedAt
    ensures Accepted(cfg, s, steps) == [] ==> Run(cfg, s, steps).nextUnsignedAt == s.nextUnsignedAt
  {
    RunHistory(cfg, s, steps);
    HistorySpan(cfg, s, Run(cfg, s, steps), Accepted(cfg, s, steps));
  }

  // ---------------------------------------------------------------------
  // What was accepted, read off the steps
  // ---------------------------------------------------------------------

  /** At the k-th step this very call arrives unsigned and validates, in that block and with that
      tag. */
  ghost predicate AcceptedAt(cfg: Config, s: Chain, steps: seq<Step>, k: nat, a: Acceptance) {
    && k < |steps| && steps[k] == Extrinsic(Unsigned, a.call)
    && var before := Run(cfg, s, steps[..k]);
    && before.block == a.block && before.nextUnsignedAt == a.tag
    && ValidateUnsigned(cfg, before, a.call).Valid?
  }

  lemma AcceptedInPrefix(cfg: Config, s: Chain, steps: seq<Step>, k: nat, a: Acceptance)
    requires k < |steps| - 1
    ensures AcceptedAt(cfg, s, steps, k, a) <==> AcceptedAt(cfg, s, steps[..|steps| - 1], k, a)
  {
    assert steps[..|steps| - 1][..k] == steps[..k];
  }

  lemma AcceptedLast(cfg: Config, s: Chain, steps: seq<Step>, a: Acceptance)
    requires steps != []
    ensures a in Accepted(cfg, s, steps) <==>
            a in Accepted(cfg, s, steps[..|steps| - 1]) || AcceptedAt(cfg, s, steps, |steps| - 1, a)
  {
  }

  lemma {:induction false} AcceptedIsListed(cfg: Config, s: Chain, steps: seq<Step>, k: nat, a: Acceptance)
    requires AcceptedAt(cfg, s, steps, k, a)
    ensures a in Accepted(cfg, s, steps)
  {
    AcceptedLast(cfg, s, steps, a);
    if k < |steps| - 1 {
      AcceptedInPrefix(cfg, s, steps, k, a);
      AcceptedIsListed(cfg, s, steps[..|steps| - 1], k, a);
    }
  }

  lemma {:induction false} ListedWasAccepted(cfg: Config, s: Chain, steps: seq<Step>, a: Acceptance) returns (k: nat)
    requires a in Accepted(cfg, s, steps)
    ensures AcceptedAt(cfg, s, steps, k, a)
  {
    var last := |steps| - 1;
    AcceptedLast(cfg, s, steps, a);
    if AcceptedAt(cfg, s, steps, last, a) {
      k := last;
    } else {
      k := ListedWasAccepted(cfg, s, steps[..last], a);
      AcceptedInPrefix(cfg, s, steps, k, a);
    }
  }

  /** The acceptances of a run are its unsigned extrinsics that validate where they are. */
  lemma AcceptedSomewhere(cfg: Config, s: Chain, steps: seq<Step>, a: Acceptance)
    ensures a in Accepted(cfg, s, steps) <==> exists k :: AcceptedAt(cfg, s, steps, k, a)
  {
    hide AcceptedAt, Accepted;
    if a in Accepted(cfg, s, steps) {
      var k := ListedWasAccepted(cfg, s, steps, a);
    }
    if k: nat :| AcceptedAt(cfg, s, steps, k, a) {
      AcceptedIsListed(cfg, s, steps, k, a);
    }
  }

  // ---------------------------------------------------------------------
  // What a run announces, read off the fields of its calls
  // ---------------------------------------------------------------------

  /** A signed price is announced under its signer; an unsigned one under the default account,
      if its block number is in the window and, with a payload, its signature verifies. Nothing
      else is announced. */
  function Announcement(cfg: Config, s: Chain, step: Step): Option<Event> {
    match step
    case Extrinsic(Signed(who), SubmitPrice(price)) => Some(NewPrice(price, who))
    case Extrinsic(Unsigned, SubmitPriceUnsigned(blockNumber, price)) =>
      if s.nextUnsignedAt <= blockNumber <= s.block then Some(NewPrice(price, 0)) else None
    case Extrinsic(Unsigned, SubmitPriceUnsignedWithSignedPayload(payload, signature)) =>
      if cfg.verify(payload, signature) && s.nextUnsignedAt <= payload.blockNumber <= s.block
      then Some(NewPrice(payload.price, 0)) else None
    case _ => None
  }

  function Announcements(cfg: Config, s: Chain, steps: seq<Step>): seq<Event> {
    if steps == [] then []
    else
      var n := |steps| - 1;
      match Announcement(cfg, Run(cfg, s, steps[..n]), steps[n])
      case Some(event) => Announcements(cfg, s, steps[..n]) + [event]
      case None => Announcements(cfg, s, steps[..n])
  }

  /** A step records the price it announces; one that announces nothing adds at most a block. An
      unsigned extrinsic announces a price exactly when it is accepted. */
  lemma StepRecords(cfg: Config, s: Chain, step: Step)
    ensures match Announcement(cfg, s, step)
            case Some(event) => Recorded(s, Next(cfg, s, step), event.price, event.who)
            case None => Next(cfg, s, step) == s || (step.NextBlock? && Next(cfg, s, step) == s.(block := s.block + 1))
    ensures Accepts(cfg, s, step)
       <==> step.Extrinsic? && step.origin.Unsigned? && Announcement(cfg, s, step).Some?
  {
  }

  /** The events of a run are those of the calls that took effect, in order: each names the price
      its call carries and the account that signed for it. */
  lemma {:induction false} EventsOfRun(cfg: Config, s: Chain, steps: seq<Step>)
    ensures Run(cfg, s, steps).events == s.events + Announcements(cfg, s, steps)
  {
    if steps != [] {
      var n := |steps| - 1;
      EventsOfRun(cfg, s, steps[..n]);
      StepRecords(cfg, Run(cfg, s, steps[..n]), steps[n]);
    }
  }

  // ---------------------------------------------------------------------
  // The price table over a run
  // ---------------------------------------------------------------------

  /** The prices announced by the events, oldest first. */
  function Announced(events: seq<Event>): seq<u32> {
    seq(|events|, i requires 0 <= i < |events| => events[i].price)
  }

  /** The table is the replay of the announced prices. */
  predicate TableIsReplay(s: Chain) {
    s.prices == PriceTable.Replay(Announced(s.events))
  }

  lemma StepKeepsTable(cfg: Config, s: Chain, step: Step)
    requires TableIsReplay(s)
    ensures TableIsReplay(Next(cfg, s, step))
  {
    var t := Next(cfg, s, step);
    if t.events != s.events {
      var announced := Announced(t.events);
      assert announced[..|announced| - 1] == Announced(s.events);
    }
  }

  lemma {:induction false} RunKeepsTable(cfg: Config, s: Chain, steps: seq<Step>)
    requires TableIsReplay(s)
    ensures TableIsReplay(Run(cfg, s, steps))
  {
    if steps != [] {
      var n := |steps| - 1;
      RunKeepsTable(cfg, s, steps[..n]);
      StepKeepsTable(cfg, Run(cfg, s, steps[..n]), steps[n]);
    }
  }

  /** In every reachable state the events are those of the calls that took effect, the table is
      the replay of their prices, whichever of the three dispatchables they came through, and the
      average is defined once there is one. */
  lemma TableFollowsEvents(cfg: Config, steps: seq<Step>)
    ensures var s := Run(cfg, GENESIS, steps);
            && s.events == Announcements(cfg, GENESIS, steps)
            && s.prices == PriceTable.Replay(Announced(s.events))
            && |s.prices| <= PriceTable.MAX_LEN
            && (PriceTable.Average(s.prices).Some? <==> s.events != [])
  {
    EventsOfRun(cfg, GENESIS, steps);
    RunKeepsTable(cfg, GENESIS, steps);
    PriceTable.TableRefinesHistory(Announced(Run(cfg, GENESIS, steps).events));
  }

  /** So every slot of a reachable table holds the last price after the first 64 that is
      congruent to it, or the one first put there; and every stored price was announced. */
  lemma ReachableTable(cfg: Config, steps: seq<Step>, i: nat)
    requires i < |Run(cfg, GENESIS, steps).prices|
    ensures var s := Run(cfg, GENESIS, steps);
            && |s.prices| == Min(|s.events|, PriceTable.MAX_LEN)
            && PriceTable.SlotHolds(Announced(s.events), i, s.prices[i])
            && s.prices[i] in Announced(s.events)
  {
    TableFollowsEvents(cfg, steps);
    var s := Run(cfg, GENESIS, steps);
    PriceTable.TableRefinesHistory(Announced(s.events));
    PriceTable.StoredWasSubmitted(Announced(s.events), s.prices[i]);
  }

  /** While every announced price is at most 67,108,863, every reachable average is the exact
      floor mean of the stored prices and lies between the least and the greatest price ever
      announced. */
  lemma ReachableAverageIsExact(cfg: Config, steps: seq<Step>, low: nat, high: nat)
    requires Run(cfg, GENESIS, steps).events != [] && high <= PriceTable.SAFE_PRICE
    requires forall e :: e in Run(cfg, GENESIS, steps).events ==> low <= e.price <= high
    ensures var s := Run(cfg, GENESIS, steps);
            && s.prices != []
            && PriceTable.Average(s.prices) == Some(PriceTable.Sum(s.prices) / |s.prices|)
            && low <= PriceTable.Average(s.prices).value <= high
  {
    TableFollowsEvents(cfg, steps);
    var s := Run(cfg, GENESIS, steps);
    forall k | 0 <= k < |s.prices|
      ensures low <= s.prices[k] <= high
    {
      ReachableTable(cfg, steps, k);
      var i :| 0 <= i < |s.events| && Announced(s.events)[i] == s.prices[k];
      assert s.events[i] in s.events;
    }
    PriceTable.SafePricesAverageExactly(s.prices, low, high);
  }
}
