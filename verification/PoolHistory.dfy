/** What the pool and the chain of a node hold, read off the steps of a run alone. No condition on
    overflow is needed here. */
module PoolHistory {
  import opened Bounded
  import opened Oracle
  import opened Admission
  import opened Pool
  import opened Wrappers

  /** The call a step submits, if it validates then and there, with the tag and the priority that
      the validation gives it. */
  function Submission(cfg: Config, chain: Chain, step: NodeStep): Option<Entry> {
    match step
    case Submit(call) =>
      (match ValidateUnsigned(cfg, chain, call)
       case Valid(priority, (_, tag), _, _) => Some(Entry(call := call, tag := tag, priority := priority))
       case Invalid(_) => None)
    case _ => None
  }

  // ---------------------------------------------------------------------
  // The record
  // ---------------------------------------------------------------------

  function Submissions(cfg: Config, n: Node, steps: seq<NodeStep>): seq<Entry> {
    if steps == [] then []
    else
      var k := |steps| - 1;
      match Submission(cfg, PoolRun(cfg, n, steps[..k]).chain, steps[k])
      case Some(e) => Submissions(cfg, n, steps[..k]) + [e]
      case None => Submissions(cfg, n, steps[..k])
  }

  /** The record lists the valid submissions, in order and with what they were given. */
  lemma {:induction false} RecordIsSubmissions(cfg: Config, n: Node, steps: seq<NodeStep>)
    ensures PoolRun(cfg, n, steps).validated == n.validated + Submissions(cfg, n, steps)
  {
    if steps != [] {
      RecordIsSubmissions(cfg, n, steps[..|steps| - 1]);
    }
  }

  ghost predicate SubmitsAt(cfg: Config, n: Node, steps: seq<NodeStep>, k: nat, e: Entry) {
    k < |steps| && Submission(cfg, PoolRun(cfg, n, steps[..k]).chain, steps[k]) == Some(e)
  }

  lemma SubmitsInPrefix(cfg: Config, n: Node, steps: seq<NodeStep>, k: nat, e: Entry)
    requires k < |steps| - 1
    ensures SubmitsAt(cfg, n, steps, k, e) <==> SubmitsAt(cfg, n, steps[..|steps| - 1], k, e)
  {
    assert steps[..|steps| - 1][..k] == steps[..k];
  }

  lemma SubmittedLast(cfg: Config, n: Node, steps: seq<NodeStep>, e: Entry)
    requires steps != []
    ensures e in Submissions(cfg, n, steps) <==>
            e in Submissions(cfg, n, steps[..|steps| - 1]) || SubmitsAt(cfg, n, steps, |steps| - 1, e)
  {
  }

  lemma {:induction false} SubmittedIsListed(cfg: Config, n: Node, steps: seq<NodeStep>, k: nat, e: Entry)
    requires SubmitsAt(cfg, n, steps, k, e)
    ensures e in Submissions(cfg, n, steps)
  {
    SubmittedLast(cfg, n, steps, e);
    if k < |steps| - 1 {
      SubmitsInPrefix(cfg, n, steps, k, e);
      SubmittedIsListed(cfg, n, steps[..|steps| - 1], k, e);
    }
  }

  lemma {:induction false} ListedWasSubmitted(cfg: Config, n: Node, steps: seq<NodeStep>, e: Entry) returns (k: nat)
    requires e in Submissions(cfg, n, steps)
    ensures SubmitsAt(cfg, n, steps, k, e)
  {
    var last := |steps| - 1;
    SubmittedLast(cfg, n, steps, e);
    if SubmitsAt(cfg, n, steps, last, e) {
      k := last;
    } else {
      k := ListedWasSubmitted(cfg, n, steps[..last], e);
      SubmitsInPrefix(cfg, n, steps, k, e);
    }
  }

  /** A call is in that list exactly when some step of the run submits it. */
  lemma SubmittedSomewhere(cfg: Config, n: Node, steps: seq<NodeStep>, e: Entry)
    ensures e in Submissions(cfg, n, steps) <==> exists k :: SubmitsAt(cfg, n, steps, k, e)
  {
    hide SubmitsAt, Submissions;
    if e in Submissions(cfg, n, steps) {
      var k := ListedWasSubmitted(cfg, n, steps, e);
    }
    if k: nat :| SubmitsAt(cfg, n, steps, k, e) {
      SubmittedIsListed(cfg, n, steps, k, e);
    }
  }

  // ---------------------------------------------------------------------
  // The pool
  // ---------------------------------------------------------------------

  /** The entry of a tag leaves the pool: it is included, or found invalid. */
  predicate Removes(cfg: Config, n: Node, step: NodeStep, tag: u32) {
    || step == Include(tag)
    || (step == Revalidate(tag) && tag in n.pool && ValidateUnsigned(cfg, n.chain, n.pool[tag].call).Invalid?)
  }

  /** The submissions that compete for a tag: those since its entry last left the pool. */
  function Contest(cfg: Config, n: Node, steps: seq<NodeStep>, tag: u32): seq<Entry> {
    if steps == [] then []
    else
      var k := |steps| - 1;
      ContestStep(cfg, PoolRun(cfg, n, steps[..k]), steps[k], tag, Contest(cfg, n, steps[..k], tag))
  }

  function ContestStep(cfg: Config, before: Node, step: NodeStep, tag: u32, earlier: seq<Entry>): seq<Entry> {
    if Removes(cfg, before, step, tag) then []
    else
      match Submission(cfg, before.chain, step)
      case Some(e) => if e.tag == tag then earlier + [e] else earlier
      case None => earlier
  }

  /** The tag is pooled if somebody competes for it, and held by the first of those with the
      greatest priority. */
  ghost predicate Holds(n: Node, tag: u32, contest: seq<Entry>) {
    && (tag in n.pool <==> contest != [])
    && (tag in n.pool ==> Champion(contest, n.pool[tag]))
    && (forall e :: e in contest ==> e.tag == tag)
  }

  lemma StepHolds(cfg: Config, n: Node, step: NodeStep, tag: u32, contest: seq<Entry>)
    requires Holds(n, tag, contest)
    ensures Holds(PoolNext(cfg, n, step), tag, ContestStep(cfg, n, step, tag, contest))
  {
    if step.Submit? && Submission(cfg, n.chain, step).Some? {
      SubmitHolds(cfg, n, step.call, Submission(cfg, n.chain, step).value, tag, contest);
    }
  }

  lemma SubmitHolds(cfg: Config, n: Node, call: Call, e: Entry, tag: u32, contest: seq<Entry>)
    requires Holds(n, tag, contest) && Submission(cfg, n.chain, Submit(call)) == Some(e)
    ensures Holds(PoolNext(cfg, n, Submit(call)), tag, if e.tag == tag then contest + [e] else contest)
  {
    hide ValidateUnsigned;
    if e.tag == tag {
      if tag in n.pool {
        var k :| ChampionAt(contest, n.pool[tag], k);
        assert n.pool[tag] in contest;
        ChampionAfter(contest, n.pool[tag], e);
      } else {
        assert contest + [e] == [e];
        assert ChampionAt([e], e, 0);
      }
    }
  }

  /** In every run from an empty pool, whatever wraps around: a tag is pooled exactly when a call
      was given it since it was last included or found invalid, and the entry is the first of the
      greatest priority among those calls. */
  lemma {:induction false} PoolExact(cfg: Config, start: Chain, steps: seq<NodeStep>, tag: u32)
    ensures Holds(PoolRun(cfg, Node(start, map[], []), steps), tag,
                  Contest(cfg, Node(start, map[], []), steps, tag))
  {
    if steps != [] {
      var k := |steps| - 1;
      var n := Node(start, map[], []);
      PoolExact(cfg, start, steps[..k], tag);
      StepHolds(cfg, PoolRun(cfg, n, steps[..k]), steps[k], tag, Contest(cfg, n, steps[..k], tag));
    }
  }

  // ---------------------------------------------------------------------
  // The chain
  // ---------------------------------------------------------------------

  /** What the chain sees of a step: a step outside the pool, or the pooled call of the tag that
      is included. */
  function OnTheChain(n: Node, step: NodeStep): Option<Step> {
    match step
    case OnChain(chainStep) => Some(chainStep)
    case Include(tag) => if tag in n.pool then Some(Extrinsic(Unsigned, n.pool[tag].call)) else None
    case _ => None
  }

  function ChainSteps(cfg: Config, n: Node, steps: seq<NodeStep>): seq<Step> {
    if steps == [] then []
    else
      var k := |steps| - 1;
      match OnTheChain(PoolRun(cfg, n, steps[..k]), steps[k])
      case Some(step) => ChainSteps(cfg, n, steps[..k]) + [step]
      case None => ChainSteps(cfg, n, steps[..k])
  }

  lemma StepOnTheChain(cfg: Config, n: Node, step: NodeStep)
    ensures PoolNext(cfg, n, step).chain ==
            match OnTheChain(n, step) case Some(chainStep) => Next(cfg, n.chain, chainStep) case None => n.chain
  {
  }

  /** The chain of a node runs like any chain, so what holds of all those holds here. */
  lemma {:induction false} ChainIsRun(cfg: Config, n: Node, steps: seq<NodeStep>)
    ensures PoolRun(cfg, n, steps).chain == Run(cfg, n.chain, ChainSteps(cfg, n, steps))
  {
    if steps != [] {
      var k := |steps| - 1;
      var before := PoolRun(cfg, n, steps[..k]);
      ChainIsRun(cfg, n, steps[..k]);
      StepOnTheChain(cfg, before, steps[k]);
      match OnTheChain(before, steps[k]) {
        case Some(step) => RunOne(cfg, n.chain, ChainSteps(cfg, n, steps[..k]), step);
        case None =>
      }
    }
  }

  // ---------------------------------------------------------------------
  // The survivor
  // ---------------------------------------------------------------------

  /** Below overflow a tag never comes back: of all the calls ever given it, by validation at any
      point of the run, the pooled one has the greatest priority. */
  lemma SurvivorOutranksAll(cfg: Config, start: Chain, steps: seq<NodeStep>, k: nat, rival: Entry) returns (i: nat)
    requires cfg.unsignedInterval >= 1 && NoOverflow(cfg, PoolRun(cfg, Node(start, map[], []), steps).chain)
    requires SubmitsAt(cfg, Node(start, map[], []), steps, k, rival)
    requires rival.tag in PoolRun(cfg, Node(start, map[], []), steps).pool
    ensures var survivor := PoolRun(cfg, Node(start, map[], []), steps).pool[rival.tag];
            && SubmitsAt(cfg, Node(start, map[], []), steps, i, survivor)
            && survivor.tag == rival.tag && rival.priority <= survivor.priority
  {
    var empty := Node(start, map[], []);
    var n := PoolRun(cfg, empty, steps);
    RecordIsSubmissions(cfg, empty, steps);
    SubmittedSomewhere(cfg, empty, steps, rival);
    SurvivorHasGreatestPriority(cfg, start, steps, rival.tag, rival);
    PooledWasRecorded(cfg, start, steps, rival.tag);
    hide PoolRun, SubmitsAt;
    SubmittedSomewhere(cfg, empty, steps, n.pool[rival.tag]);
    i :| SubmitsAt(cfg, empty, steps, i, n.pool[rival.tag]);
  }

  lemma PooledWasRecorded(cfg: Config, start: Chain, steps: seq<NodeStep>, tag: u32)
    requires cfg.unsignedInterval >= 1 && NoOverflow(cfg, PoolRun(cfg, Node(start, map[], []), steps).chain)
    requires tag in PoolRun(cfg, Node(start, map[], []), steps).pool
    ensures var n := PoolRun(cfg, Node(start, map[], []), steps);
            n.pool[tag].tag == tag && n.pool[tag] in n.validated
  {
    RunIsSound(cfg, start, steps);
    var n := PoolRun(cfg, Node(start, map[], []), steps);
    assert SoundEntry(cfg, n, tag, n.pool[tag]);
    var k :| ChampionAt(n.validated, n.pool[tag], k);
  }
}
