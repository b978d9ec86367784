/** The transaction pool as the pallet relies on it: one entry per provided tag, replaced only
    by an entry of strictly higher priority. */
module Pool {
  import opened Bounded
  import opened Oracle
  import opened Admission

  /** A validated call, with the tag and the priority it was given. */
  datatype Entry = Entry(call: Call, tag: u32, priority: u64)

  /** A node: its chain, its pool, and the record of everything that validated so far. */
  datatype Node = Node(chain: Chain, pool: map<u32, Entry>, validated: seq<Entry>)

  datatype NodeStep =
    | OnChain(step: Step)   // a block, or an extrinsic that did not come from this pool
    | Submit(call: Call)    // an unsigned call reaches the pool
    | Include(tag: u32)     // a pooled call is put in the block being built
    | Revalidate(tag: u32)  // a pooled call that is no longer valid is dropped

  function PoolNext(cfg: Config, n: Node, step: NodeStep): Node {
    match step
    case OnChain(chainStep) => n.(chain := Next(cfg, n.chain, chainStep))
    case Submit(call) => Admit(n, call, ValidateUnsigned(cfg, n.chain, call))
    case Include(tag) =>
      if tag !in n.pool then n
      else n.(chain := Next(cfg, n.chain, Extrinsic(Unsigned, n.pool[tag].call)), pool := n.pool - {tag})
    case Revalidate(tag) =>
      if tag !in n.pool || ValidateUnsigned(cfg, n.chain, n.pool[tag].call).Valid? then n
      else n.(pool := n.pool - {tag})
  }

  function Admit(n: Node, call: Call, validity: Validity): Node {
    if validity.Invalid? then n
    else
      var e := Entry(call, validity.tag.1, validity.priority);
      var recorded := n.(validated := n.validated + [e]);
      if e.tag in n.pool && e.priority <= n.pool[e.tag].priority then recorded
      else recorded.(pool := n.pool[e.tag := e])
  }

  function PoolRun(cfg: Config, n: Node, steps: seq<NodeStep>): Node {
    if steps == [] then n else PoolNext(cfg, PoolRun(cfg, n, steps[..|steps| - 1]), steps[|steps| - 1])
  }

  // ---------------------------------------------------------------------
  // Who should hold the spot of a tag
  // ---------------------------------------------------------------------

  /** e was the first to validate among those with the greatest priority for its tag. */
  ghost predicate Champion(validated: seq<Entry>, e: Entry) {
    exists k :: ChampionAt(validated, e, k)
  }

  ghost predicate ChampionAt(validated: seq<Entry>, e: Entry, k: int) {
    && 0 <= k < |validated| && validated[k] == e
    && (forall i :: 0 <= i < k && validated[i].tag == e.tag ==> validated[i].priority < e.priority)
    && (forall i :: k <= i < |validated| && validated[i].tag == e.tag ==> validated[i].priority <= e.priority)
  }

  ghost predicate Contested(validated: seq<Entry>, tag: u32) {
    exists e :: e in validated && e.tag == tag
  }

  lemma ChampionIsUnique(validated: seq<Entry>, a: Entry, b: Entry)
    requires Champion(validated, a) && Champion(validated, b) && a.tag == b.tag
    ensures a == b
  {
    var i :| ChampionAt(validated, a, i);
    var j :| ChampionAt(validated, b, j);
    assert validated[i].priority == validated[j].priority;
  }

  /** A newcomer takes the spot exactly when it beats the reigning champion. */
  lemma ChampionAfter(validated: seq<Entry>, reigning: Entry, e: Entry)
    requires Champion(validated, reigning)
    ensures Champion(validated + [e], if reigning.tag == e.tag && reigning.priority < e.priority then e else reigning)
  {
    var k :| ChampionAt(validated, reigning, k);
    if reigning.tag == e.tag && reigning.priority < e.priority {
      assert ChampionAt(validated + [e], e, |validated|);
    } else {
      assert ChampionAt(validated + [e], reigning, k);
    }
  }

  // ---------------------------------------------------------------------
  // The invariant
  // ---------------------------------------------------------------------

  ghost predicate Sound(cfg: Config, n: Node) {
    && (forall e :: e in n.validated ==> e.tag <= n.chain.nextUnsignedAt)
    && (forall t :: t in n.pool ==> SoundEntry(cfg, n, t, n.pool[t]))
    && (Contested(n.validated, n.chain.nextUnsignedAt) ==> n.chain.nextUnsignedAt in n.pool)
  }

  ghost predicate SoundEntry(cfg: Config, n: Node, tag: u32, e: Entry) {
    && e.tag == tag && Genuine(cfg, e.call) && Champion(n.validated, e)
    && tag <= BlockArgument(e.call) <= n.chain.block
    && (tag == n.chain.nextUnsignedAt || BlockArgument(e.call) < n.chain.nextUnsignedAt)
  }

  /** A chain step that accepts nothing keeps every entry as it was; an acceptance opens an
      epoch nobody has competed for, and makes every entry stale. */
  lemma ChainStepKeepsSound(cfg: Config, n: Node, step: Step)
    requires Sound(cfg, n) && cfg.unsignedInterval >= 1 && NoOverflow(cfg, Next(cfg, n.chain, step))
    ensures Sound(cfg, n.(chain := Next(cfg, n.chain, step)))
    ensures Accepts(cfg, n.chain, step) ==> !Contested(n.validated, Next(cfg, n.chain, step).nextUnsignedAt)
  {
    StepEffect(cfg, n.chain, step);
    var after := n.(chain := Next(cfg, n.chain, step));
    forall t | t in after.pool
      ensures SoundEntry(cfg, after, t, after.pool[t])
    {
      assert SoundEntry(cfg, n, t, n.pool[t]);
    }
  }

  lemma SubmitKeepsSound(cfg: Config, n: Node, call: Call)
    requires Sound(cfg, n)
    ensures Sound(cfg, PoolNext(cfg, n, Submit(call)))
  {
    ValidExactlyInWindow(cfg, n.chain, call);
    var v := ValidateUnsigned(cfg, n.chain, call);
    if v.Valid? {
      var e := Entry(call, v.tag.1, v.priority);
      var after := PoolNext(cfg, n, Submit(call));
      forall t | t in after.pool
        ensures SoundEntry(cfg, after, t, after.pool[t])
      {
        if t in n.pool {
          assert SoundEntry(cfg, n, t, n.pool[t]);
          ChampionAfter(n.validated, n.pool[t], e);
        } else {
          assert forall k :: 0 <= k < |n.validated| ==> n.validated[k] in n.validated;
          assert ChampionAt(after.validated, e, |n.validated|);
        }
      }
    }
  }

  /** A live entry is valid, so including it is an acceptance and ends its epoch. */
  lemma LiveEntryIsAccepted(cfg: Config, n: Node, tag: u32)
    requires Sound(cfg, n) && tag in n.pool
    ensures Accepts(cfg, n.chain, Extrinsic(Unsigned, n.pool[tag].call)) <==> tag == n.chain.nextUnsignedAt
    ensures ValidateUnsigned(cfg, n.chain, n.pool[tag].call) != Invalid(Stale) <==> tag == n.chain.nextUnsignedAt
  {
    assert SoundEntry(cfg, n, tag, n.pool[tag]);
    ValidExactlyInWindow(cfg, n.chain, n.pool[tag].call);
  }

  lemma StepKeepsSound(cfg: Config, n: Node, step: NodeStep)
    requires Sound(cfg, n) && cfg.unsignedInterval >= 1 && NoOverflow(cfg, PoolNext(cfg, n, step).chain)
    ensures Sound(cfg, PoolNext(cfg, n, step))
    ensures n.chain.block <= PoolNext(cfg, n, step).chain.block
  {
    match step
    case OnChain(chainStep) =>
      StepEffect(cfg, n.chain, chainStep);
      ChainStepKeepsSound(cfg, n, chainStep);
    case Submit(call) => SubmitKeepsSound(cfg, n, call);
    case Include(tag) =>
      if tag in n.pool {
        var x := Extrinsic(Unsigned, n.pool[tag].call);
        StepEffect(cfg, n.chain, x);
        LiveEntryIsAccepted(cfg, n, tag);
        ChainStepKeepsSound(cfg, n, x);
        DropKeepsSound(cfg, n.(chain := Next(cfg, n.chain, x)), tag);
      }
    case Revalidate(tag) =>
      if tag in n.pool && ValidateUnsigned(cfg, n.chain, n.pool[tag].call).Invalid? {
        LiveEntryIsAccepted(cfg, n, tag);
        DropKeepsSound(cfg, n, tag);
      }
  }

  lemma DropKeepsSound(cfg: Config, n: Node, tag: u32)
    requires Sound(cfg, n)
    requires tag == n.chain.nextUnsignedAt ==> !Contested(n.validated, tag)
    ensures Sound(cfg, n.(pool := n.pool - {tag}))
  {
    var after := n.(pool := n.pool - {tag});
    forall t | t in after.pool
      ensures SoundEntry(cfg, after, t, after.pool[t])
    {
      assert SoundEntry(cfg, n, t, n.pool[t]);
    }
  }

  lemma {:induction false} RunIsSound(cfg: Config, start: Chain, steps: seq<NodeStep>)
    requires cfg.unsignedInterval >= 1 && NoOverflow(cfg, PoolRun(cfg, Node(start, map[], []), steps).chain)
    ensures Sound(cfg, PoolRun(cfg, Node(start, map[], []), steps))
  {
    if steps != [] {
      var before := steps[..|steps| - 1];
      var n := PoolRun(cfg, Node(start, map[], []), before);
      BlockNeverFalls(cfg, n, steps[|steps| - 1]);
      RunIsSound(cfg, start, before);
      StepKeepsSound(cfg, n, steps[|steps| - 1]);
    }
  }

  lemma BlockNeverFalls(cfg: Config, n: Node, step: NodeStep)
    ensures n.chain.block <= PoolNext(cfg, n, step).chain.block
  {
    if step.OnChain? {
      StepEffect(cfg, n.chain, step.step);
    } else if step.Include? && step.tag in n.pool {
      StepEffect(cfg, n.chain, Extrinsic(Unsigned, n.pool[step.tag].call));
    }
  }

  // ---------------------------------------------------------------------
  // One live transaction
  // ---------------------------------------------------------------------

  ghost predicate Live(cfg: Config, n: Node, tag: u32) {
    tag in n.pool && ValidateUnsigned(cfg, n.chain, n.pool[tag].call) != Invalid(Stale)
  }

  /** In every reachable state at most one pooled transaction is not stale. There is one
      exactly when some call has validated in the current epoch, it is the first of the greatest
      priority among those, and including it is accepted. */
  lemma OneLiveTransaction(cfg: Config, start: Chain, steps: seq<NodeStep>)
    requires cfg.unsignedInterval >= 1 && NoOverflow(cfg, PoolRun(cfg, Node(start, map[], []), steps).chain)
    ensures var n := PoolRun(cfg, Node(start, map[], []), steps);
            var epoch := n.chain.nextUnsignedAt;
            && (forall t :: Live(cfg, n, t) ==> t == epoch)
            && (Live(cfg, n, epoch) <==> Contested(n.validated, epoch))
            && (Live(cfg, n, epoch) ==>
                  && Champion(n.validated, n.pool[epoch])
                  && Accepts(cfg, n.chain, Extrinsic(Unsigned, n.pool[epoch].call)))
  {
    RunIsSound(cfg, start, steps);
    var n := PoolRun(cfg, Node(start, map[], []), steps);
    forall t | t in n.pool
      ensures Live(cfg, n, t) <==> t == n.chain.nextUnsignedAt
    {
      LiveEntryIsAccepted(cfg, n, t);
    }
    var epoch := n.chain.nextUnsignedAt;
    if epoch in n.pool {
      LiveEntryIsAccepted(cfg, n, epoch);
      assert SoundEntry(cfg, n, epoch, n.pool[epoch]);
      var k :| ChampionAt(n.validated, n.pool[epoch], k);
      assert n.validated[k] in n.validated;
    }
  }

  /** Whatever tag it was pooled under, an entry has at least the priority of every call that
      validated with that tag. */
  lemma SurvivorHasGreatestPriority(cfg: Config, start: Chain, steps: seq<NodeStep>, tag: u32, rival: Entry)
    requires cfg.unsignedInterval >= 1 && NoOverflow(cfg, PoolRun(cfg, Node(start, map[], []), steps).chain)
    requires tag in PoolRun(cfg, Node(start, map[], []), steps).pool
    requires rival in PoolRun(cfg, Node(start, map[], []), steps).validated && rival.tag == tag
    ensures rival.priority <= PoolRun(cfg, Node(start, map[], []), steps).pool[tag].priority
  {
    RunIsSound(cfg, start, steps);
    var n := PoolRun(cfg, Node(start, map[], []), steps);
    assert SoundEntry(cfg, n, tag, n.pool[tag]);
    var k :| ChampionAt(n.validated, n.pool[tag], k);
    var i :| 0 <= i < |n.validated| && n.validated[i] == rival;
  }
}
