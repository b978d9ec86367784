/** How far the pool keeps a single live transaction: all runs from genesis up to a block, past
    the last interval of block numbers too. */
module PoolRuns {
  import opened Bounded
  import opened Oracle
  import opened Admission
  import opened Pool

  const FRESH: Node := Node(GENESIS, map[], [])

  ghost predicate OneLive(cfg: Config, n: Node) {
    forall t, u :: Live(cfg, n, t) && Live(cfg, n, u) ==> t == u
  }

  ghost predicate OneLiveUpTo(cfg: Config, limit: u32) {
    forall steps: seq<NodeStep> :: PoolRun(cfg, FRESH, steps).chain.block <= limit ==>
      OneLive(cfg, PoolRun(cfg, FRESH, steps))
  }

  // ---------------------------------------------------------------------
  // At the very block whose interval wraps around to zero
  // ---------------------------------------------------------------------

  /** The interval wraps around to zero at the limit, and from no block before it. */
  predicate WrapsAtLimit(interval: u32, limit: u32) {
    AddU32(limit, interval) == 0 && (limit < interval || limit == 0)
  }

  /** Admission is open from block zero, or not before the limit is passed. */
  predicate OpenFromZero(limit: u32, s: Chain) {
    s.nextUnsignedAt == 0 || s.nextUnsignedAt > limit
  }

  lemma WrapsToZero(interval: u32, limit: u32, block: u32)
    requires WrapsAtLimit(interval, limit) && block <= limit
    ensures AddU32(block, interval) == 0 || AddU32(block, interval) > limit
  {
    if block < limit {
      assert limit + interval == TWO_32;
      assert AddU32(block, interval) == block + interval;
    }
  }

  lemma ChainStaysOpenFromZero(cfg: Config, limit: u32, s: Chain, step: Step)
    requires WrapsAtLimit(cfg.unsignedInterval, limit)
    requires OpenFromZero(limit, s) && Next(cfg, s, step).block <= limit
    ensures OpenFromZero(limit, Next(cfg, s, step))
  {
    StepEffect(cfg, s, step);
    hide AddU32, WrapsAtLimit, Next, Accepts;
    WrapsToZero(cfg.unsignedInterval, limit, s.block);
  }

  /** And every entry has tag zero. */
  ghost predicate OnlyTagZero(limit: u32, n: Node) {
    OpenFromZero(limit, n.chain) && forall t :: t in n.pool ==> t == 0
  }

  lemma StepKeepsOnlyTagZero(cfg: Config, limit: u32, n: Node, step: NodeStep)
    requires WrapsAtLimit(cfg.unsignedInterval, limit)
    requires OnlyTagZero(limit, n) && PoolNext(cfg, n, step).chain.block <= limit
    ensures OnlyTagZero(limit, PoolNext(cfg, n, step))
  {
    match step
    case OnChain(chainStep) => ChainStaysOpenFromZero(cfg, limit, n.chain, chainStep);
    case Submit(call) =>
      ValidExactlyInWindow(cfg, n.chain, call);
      hide ValidateUnsigned;
    case Include(tag) =>
      if tag in n.pool {
        ChainStaysOpenFromZero(cfg, limit, n.chain, Extrinsic(Unsigned, n.pool[tag].call));
        hide Next;
      }
    case Revalidate(tag) =>
  }

  lemma {:induction false} RunKeepsOnlyTagZero(cfg: Config, limit: u32, steps: seq<NodeStep>)
    requires WrapsAtLimit(cfg.unsignedInterval, limit)
    requires PoolRun(cfg, FRESH, steps).chain.block <= limit
    ensures OnlyTagZero(limit, PoolRun(cfg, FRESH, steps))
  {
    if steps != [] {
      var before := steps[..|steps| - 1];
      var n := PoolRun(cfg, FRESH, before);
      BlockNeverFalls(cfg, n, steps[|steps| - 1]);
      RunKeepsOnlyTagZero(cfg, limit, before);
      StepKeepsOnlyTagZero(cfg, limit, n, steps[|steps| - 1]);
    }
  }

  // ---------------------------------------------------------------------
  // Runs with two live transactions
  // ---------------------------------------------------------------------

  lemma PoolRunOne(cfg: Config, n: Node, steps: seq<NodeStep>, step: NodeStep)
    ensures PoolRun(cfg, n, steps + [step]) == PoolNext(cfg, PoolRun(cfg, n, steps), step)
  {
    assert (steps + [step])[..|steps|] == steps;
  }

  lemma {:induction false} PoolRunAppend(cfg: Config, n: Node, first: seq<NodeStep>, rest: seq<NodeStep>)
    ensures PoolRun(cfg, n, first + rest) == PoolRun(cfg, PoolRun(cfg, n, first), rest)
  {
    if rest == [] {
      assert first + rest == first;
    } else {
      var k := |rest| - 1;
      assert first + rest == (first + rest[..k]) + [rest[k]];
      PoolRunAppend(cfg, n, first, rest[..k]);
      PoolRunOne(cfg, n, first + rest[..k], rest[k]);
    }
  }

  function NewBlocks(n: nat): seq<NodeStep> {
    if n == 0 then [] else NewBlocks(n - 1) + [OnChain(NextBlock)]
  }

  lemma NewBlockStep(cfg: Config, n: Node)
    requires n.chain.block < MAX_U32
    ensures PoolNext(cfg, n, OnChain(NextBlock)) == n.(chain := n.chain.(block := n.chain.block + 1))
  {
  }

  lemma {:induction false} NewBlocksAdvance(cfg: Config, n: Node, k: nat)
    requires n.chain.block + k < TWO_32
    ensures PoolRun(cfg, n, NewBlocks(k)) == n.(chain := n.chain.(block := n.chain.block + k))
  {
    if k > 0 {
      assert NewBlocks(k) == NewBlocks(k - 1) + [OnChain(NextBlock)];
      hide *;
      NewBlocksAdvance(cfg, n, k - 1);
      PoolRunOne(cfg, n, NewBlocks(k - 1), OnChain(NextBlock));
      NewBlockStep(cfg, PoolRun(cfg, n, NewBlocks(k - 1)));
    }
  }

  /** Two epochs are open at the same block: the present one, and the one that an acceptance
      there would lead to. */
  predicate Competing(cfg: Config, block: u32, n: Node) {
    && n.pool == map[] && n.chain.block == block && n.chain.nextUnsignedAt <= block
    && AddU32(block, cfg.unsignedInterval) <= block
    && AddU32(block, cfg.unsignedInterval) != n.chain.nextUnsignedAt
  }

  /** Submit a call, accept it from elsewhere, and submit it again: the pool holds the call
      under both tags, live both times. */
  lemma SubmitTwice(cfg: Config, block: u32, n: Node) returns (steps: seq<NodeStep>)
    requires Competing(cfg, block, n)
    ensures PoolRun(cfg, n, steps).chain.block == block
    ensures !OneLive(cfg, PoolRun(cfg, n, steps))
  {
    var call := SubmitPriceUnsigned(block, 0);
    var a, b, c := Submit(call), OnChain(Extrinsic(Unsigned, call)), Submit(call);
    steps := [a] + [b] + [c];
    PoolRunOne(cfg, n, [], a);
    assert [] + [a] == [a];
    PoolRunOne(cfg, n, [a], b);
    PoolRunOne(cfg, n, [a] + [b], c);
    var pooled := PoolNext(cfg, n, a);
    ValidExactlyInWindow(cfg, n.chain, call);
    StepEffect(cfg, n.chain, Extrinsic(Unsigned, call));
    var accepted := PoolNext(cfg, pooled, b);
    ValidExactlyInWindow(cfg, accepted.chain, call);
    var end := PoolNext(cfg, accepted, c);
    assert Live(cfg, end, n.chain.nextUnsignedAt);
    assert Live(cfg, end, accepted.chain.nextUnsignedAt);
  }

  /** The first call accepted in the genesis block. */
  lemma AcceptAtGenesis(cfg: Config) returns (steps: seq<NodeStep>)
    ensures var n := PoolRun(cfg, FRESH, steps);
            n.pool == map[] && n.chain.block == 0 && n.chain.nextUnsignedAt == cfg.unsignedInterval
  {
    var first := OnChain(Extrinsic(Unsigned, SubmitPriceUnsigned(0, 0)));
    steps := [] + [first];
    PoolRunOne(cfg, FRESH, [], first);
    StepEffect(cfg, GENESIS, first.step);
  }

  lemma WrappedEpoch(interval: u32, limit: u32)
    requires !KeepsOneLive(interval, limit)
    ensures var epoch := if limit + interval == TWO_32 then interval else 0;
            epoch <= limit && AddU32(limit, interval) <= limit && AddU32(limit, interval) != epoch
  {
    var sum := limit + interval;
    assert AddU32(limit, interval) == if sum >= TWO_32 then sum - TWO_32 else sum;
  }

  /** From genesis: at a block whose interval wraps around past zero the first epoch is still
      open; where it wraps around to zero exactly, an earlier acceptance has opened another. */
  lemma ReachCompetingEpochs(cfg: Config, limit: u32) returns (steps: seq<NodeStep>)
    requires !KeepsOneLive(cfg.unsignedInterval, limit)
    ensures Competing(cfg, limit, PoolRun(cfg, FRESH, steps))
  {
    var before: seq<NodeStep> := [];
    if limit + cfg.unsignedInterval == TWO_32 {
      before := AcceptAtGenesis(cfg);
    }
    var n := PoolRun(cfg, FRESH, before);
    assert n.chain.nextUnsignedAt == if limit + cfg.unsignedInterval == TWO_32 then cfg.unsignedInterval else 0;
    WrappedEpoch(cfg.unsignedInterval, limit);
    hide PoolRun, AddU32, KeepsOneLive;
    NewBlocksAdvance(cfg, n, limit);
    PoolRunAppend(cfg, FRESH, before, NewBlocks(limit));
    steps := before + NewBlocks(limit);
  }

  lemma TwoLive(cfg: Config, limit: u32) returns (steps: seq<NodeStep>)
    requires !KeepsOneLive(cfg.unsignedInterval, limit)
    ensures PoolRun(cfg, FRESH, steps).chain.block == limit
    ensures !OneLive(cfg, PoolRun(cfg, FRESH, steps))
  {
    var reach := ReachCompetingEpochs(cfg, limit);
    hide PoolRun, OneLive;
    var twice := SubmitTwice(cfg, limit, PoolRun(cfg, FRESH, reach));
    steps := reach + twice;
    PoolRunAppend(cfg, FRESH, reach, twice);
  }

  // ---------------------------------------------------------------------
  // The boundary
  // ---------------------------------------------------------------------

  /** The block plus the interval is a u32; or it wraps around to zero exactly, and no earlier
      block can have opened an epoch that the wrapped one competes with. */
  predicate KeepsOneLive(interval: u32, limit: u32) {
    || (interval >= 1 && limit + interval < TWO_32)
    || (limit + interval == TWO_32 && limit < interval)
    || (limit == 0 && interval == 0)
  }

  /** No run from genesis up to a block ever has two live transactions in the pool exactly when
      that block and the interval meet the condition above. */
  lemma OneLiveExact(cfg: Config, limit: u32)
    ensures OneLiveUpTo(cfg, limit) <==> KeepsOneLive(cfg.unsignedInterval, limit)
  {
    if KeepsOneLive(cfg.unsignedInterval, limit) {
      forall steps: seq<NodeStep> | PoolRun(cfg, FRESH, steps).chain.block <= limit
        ensures OneLive(cfg, PoolRun(cfg, FRESH, steps))
      {
        if cfg.unsignedInterval >= 1 && limit + cfg.unsignedInterval < TWO_32 {
          OneLiveTransaction(cfg, GENESIS, steps);
        } else {
          RunKeepsOnlyTagZero(cfg, limit, steps);
        }
      }
    } else {
      var steps := TwoLive(cfg, limit);
    }
  }
}
