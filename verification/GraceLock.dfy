/** The grace-period lock: concurrent workers read the last block a transaction was sent at,
    decide, and compare-and-set it. */
module GraceLock {
  import opened Bounded
  import opened Oracle
  import opened Spacing

  /** The local storage value. Bytes that do not decode are only ever found, never written. */
  datatype Stored = Missing | Undecodable(raw: nat) | LastSend(block: u32)

  type WorkerId = nat

  /** A worker between its read and its compare-and-set: the block it runs for, what it read,
      and how many sends had happened by then. */
  datatype Pending = Pending(block: u32, seen: Stored, sendsSeen: nat)

  datatype Send = Send(worker: WorkerId, block: u32)

  datatype Lock = Lock(stored: Stored, pending: map<WorkerId, Pending>, sends: seq<Send>)

  datatype Step = Read(worker: WorkerId, block: u32) | Finish(worker: WorkerId)

  datatype Mutation = Acquired(block: u32) | RecentlySent | ConcurrentModification

  predicate InGrace(grace: u32, seen: Stored, block: u32) {
    seen.LastSend? && block < AddU32(seen.block, grace)
  }

  /** The outcome of `mutate` for a worker that read `seen` when the storage now holds `stored`. */
  function Mutate(grace: u32, seen: Stored, stored: Stored, block: u32): Mutation {
    if InGrace(grace, seen, block) then RecentlySent
    else if stored == seen then Acquired(block)
    else ConcurrentModification
  }

  function Choose(outcome: Mutation): TransactionType {
    match outcome
    case RecentlySent => Nothing
    case ConcurrentModification => Nothing
    case Acquired(block) =>
      var kind := block % 3;
      if kind == 0 then SendSigned
      else if kind == 1 then UnsignedForAny
      else if kind == 2 then UnsignedForAll
      else Raw
  }

  function OutcomeOf(grace: u32, s: Lock, worker: WorkerId): Mutation
    requires worker in s.pending
  {
    var p := s.pending[worker];
    Mutate(grace, p.seen, s.stored, p.block)
  }

  function Next(grace: u32, s: Lock, step: Step): Lock {
    match step
    case Read(w, block) =>
      if w in s.pending then s
      else s.(pending := s.pending[w := Pending(block, s.stored, |s.sends|)])
    case Finish(w) =>
      if w !in s.pending then s
      else
        var done := s.(pending := s.pending - {w});
        match OutcomeOf(grace, s, w)
        case Acquired(block) => done.(stored := LastSend(block), sends := s.sends + [Send(w, block)])
        case _ => done
  }

  function Run(grace: u32, s: Lock, steps: seq<Step>): Lock {
    if steps == [] then s else Next(grace, Run(grace, s, steps[..|steps| - 1]), steps[|steps| - 1])
  }

  function Start(stored: Stored): Lock {
    Lock(stored, map[], [])
  }

  /** Neither a worker's block nor the block found in storage is above the limit. */
  ghost predicate BlocksUpTo(limit: nat, stored: Stored, steps: seq<Step>) {
    && (stored.LastSend? ==> stored.block <= limit)
    && (forall k :: 0 <= k < |steps| && steps[k].Read? ==> steps[k].block <= limit)
  }

  // ---------------------------------------------------------------------
  // The invariant
  // ---------------------------------------------------------------------

  /** What the storage held after the first k sends. */
  ghost function StoredAfter(initial: Stored, sends: seq<Send>, k: nat): Stored
    requires k <= |sends|
  {
    if k == 0 then initial else LastSend(sends[k - 1].block)
  }

  /** b is a block number at least one grace period after a. */
  ghost predicate Advanced(grace: nat, a: Stored, b: Stored) {
    b.LastSend? && (a.LastSend? ==> a.block + grace <= b.block)
  }

  ghost predicate Separated(grace: nat, initial: Stored, sends: seq<Send>) {
    forall i, j :: 0 <= i < j <= |sends| ==>
      Advanced(grace, StoredAfter(initial, sends, i), StoredAfter(initial, sends, j))
  }

  ghost predicate Sound(grace: nat, limit: nat, initial: Stored, s: Lock) {
    && s.stored == StoredAfter(initial, s.sends, |s.sends|)
    && (s.stored.LastSend? ==> s.stored.block <= limit)
    && Separated(grace, initial, s.sends)
    && (forall w :: w in s.pending ==> SoundPending(limit, initial, s, w, s.pending[w]))
  }

  ghost predicate SoundPending(limit: nat, initial: Stored, s: Lock, w: WorkerId, p: Pending) {
    && p.block <= limit
    && p.sendsSeen <= |s.sends|
    && p.seen == StoredAfter(initial, s.sends, p.sendsSeen)
    && (p.seen.LastSend? ==> p.seen.block <= limit)
    && (forall k :: p.sendsSeen <= k < |s.sends| ==> s.sends[k].worker != w)
  }

  lemma SeparatedExtends(grace: nat, initial: Stored, sends: seq<Send>, next: Send)
    requires Separated(grace, initial, sends)
    requires Advanced(grace, StoredAfter(initial, sends, |sends|), LastSend(next.block))
    ensures Separated(grace, initial, sends + [next])
  {
    var more := sends + [next];
    forall i, j | 0 <= i < j <= |more|
      ensures Advanced(grace, StoredAfter(initial, more, i), StoredAfter(initial, more, j))
    {
      assert StoredAfter(initial, more, i) == StoredAfter(initial, sends, i);
      if j <= |sends| {
        assert StoredAfter(initial, more, j) == StoredAfter(initial, sends, j);
      } else if i < |sends| {
        assert Advanced(grace, StoredAfter(initial, sends, i), StoredAfter(initial, sends, |sends|));
      }
    }
  }

  lemma StepKeepsSound(grace: u32, limit: nat, initial: Stored, s: Lock, step: Step)
    requires limit + grace < TWO_32
    requires Sound(grace, limit, initial, s) && (step.Read? ==> step.block <= limit)
    ensures Sound(grace, limit, initial, Next(grace, s, step))
  {
    var t := Next(grace, s, step);
    if step.Finish? && step.worker in s.pending && OutcomeOf(grace, s, step.worker).Acquired? {
      assert SoundPending(limit, initial, s, step.worker, s.pending[step.worker]);
      var send := Send(step.worker, s.pending[step.worker].block);
      SeparatedExtends(grace, initial, s.sends, send);
    }
    forall w | w in t.pending
      ensures SoundPending(limit, initial, t, w, t.pending[w])
    {
      if w in s.pending {
        assert SoundPending(limit, initial, s, w, s.pending[w]);
      }
    }
  }

  lemma {:induction false} RunIsSound(grace: u32, limit: nat, initial: Stored, steps: seq<Step>)
    requires limit + grace < TWO_32 && BlocksUpTo(limit, initial, steps)
    ensures Sound(grace, limit, initial, Run(grace, Start(initial), steps))
  {
    if steps != [] {
      var n := |steps| - 1;
      RunIsSound(grace, limit, initial, steps[..n]);
      StepKeepsSound(grace, limit, initial, Run(grace, Start(initial), steps[..n]), steps[n]);
    }
  }

  // ---------------------------------------------------------------------
  // Who sends
  // ---------------------------------------------------------------------

  /** A worker that has finished, the block it ran for and the kind of transaction it chose. */
  datatype Choice = Choice(worker: WorkerId, block: u32, kind: TransactionType)

  function ChoiceOf(grace: u32, s: Lock, worker: WorkerId): Choice
    requires worker in s.pending
  {
    Choice(worker, s.pending[worker].block, Choose(OutcomeOf(grace, s, worker)))
  }

  function Choices(grace: u32, s: Lock, steps: seq<Step>): seq<Choice> {
    if steps == [] then []
    else
      var n := |steps| - 1;
      var before := Run(grace, s, steps[..n]);
      if steps[n].Finish? && steps[n].worker in before.pending
      then Choices(grace, s, steps[..n]) + [ChoiceOf(grace, before, steps[n].worker)]
      else Choices(grace, s, steps[..n])
  }

  /** The workers that go on to send something, in the order they finish. */
  function Senders(choices: seq<Choice>): seq<Send> {
    if choices == [] then []
    else
      var n := |choices| - 1;
      Senders(choices[..n]) + if choices[n].kind.Nothing? then [] else [Send(choices[n].worker, choices[n].block)]
  }

  /** A finishing worker sends exactly when its compare-and-set writes the storage, and then the
      kind is that of its block; otherwise it leaves the storage as it is. */
  lemma SendsIffItWrites(grace: u32, s: Lock, w: WorkerId)
    requires w in s.pending
    ensures var choice, t := ChoiceOf(grace, s, w), Next(grace, s, Finish(w));
            && (choice.kind != Nothing <==>
                  !InGrace(grace, s.pending[w].seen, choice.block) && s.stored == s.pending[w].seen)
            && (choice.kind != Nothing ==>
                  && t.stored == LastSend(choice.block) && t.sends == s.sends + [Send(w, choice.block)]
                  && choice.kind == [SendSigned, UnsignedForAny, UnsignedForAll][choice.block % 3])
            && (choice.kind == Nothing ==> t.stored == s.stored && t.sends == s.sends)
  {
  }

  /** Between its read and its compare-and-set a worker stays with what it read, whatever the
      others do. */
  lemma {:induction false} ReadIsKept(grace: u32, s: Lock, w: WorkerId, block: u32, steps: seq<Step>)
    requires w !in s.pending && Finish(w) !in steps
    ensures var t := Run(grace, Next(grace, s, Read(w, block)), steps);
            w in t.pending && t.pending[w].block == block && t.pending[w].seen == s.stored
  {
    if steps != [] {
      ReadIsKept(grace, s, w, block, steps[..|steps| - 1]);
      assert steps[|steps| - 1] in steps;
    }
  }

  lemma SendersOneMore(choices: seq<Choice>, choice: Choice)
    ensures Senders(choices + [choice]) ==
            Senders(choices) + if choice.kind.Nothing? then [] else [Send(choice.worker, choice.block)]
  {
    assert (choices + [choice])[..|choices|] == choices;
  }

  /** So the sends of a run are by the workers whose kind is not Nothing, and by no others. */
  lemma {:induction false} SendsAreChoices(grace: u32, s: Lock, steps: seq<Step>)
    ensures Run(grace, s, steps).sends == s.sends + Senders(Choices(grace, s, steps))
  {
    if steps != [] {
      var n := |steps| - 1;
      var before := Run(grace, s, steps[..n]);
      SendsAreChoices(grace, s, steps[..n]);
      if steps[n].Finish? && steps[n].worker in before.pending {
        SendsIffItWrites(grace, before, steps[n].worker);
        SendersOneMore(Choices(grace, s, steps[..n]), ChoiceOf(grace, before, steps[n].worker));
        hide ChoiceOf, Next;
      }
    }
  }

  lemma SendersFromStart(grace: u32, initial: Stored, steps: seq<Step>)
    ensures Senders(Choices(grace, Start(initial), steps)) == Run(grace, Start(initial), steps).sends
  {
    hide Run, Senders, Choices;
    SendsAreChoices(grace, Start(initial), steps);
  }

  // ---------------------------------------------------------------------
  // Sends are a grace period apart
  // ---------------------------------------------------------------------

  function SendBlocks(sends: seq<Send>): seq<nat> {
    seq(|sends|, i requires 0 <= i < |sends| => sends[i].block)
  }

  ghost predicate Spaced(grace: nat, sends: seq<Send>) {
    SpacedBy(grace, SendBlocks(sends))
  }

  lemma SeparatedHasGaps(grace: nat, initial: Stored, sends: seq<Send>)
    requires Separated(grace, initial, sends)
    ensures GapBetween(grace, SendBlocks(sends))
  {
    forall i, j | 0 <= i < j < |sends|
      ensures sends[i].block + grace <= sends[j].block
    {
      assert Advanced(grace, StoredAfter(initial, sends, i + 1), StoredAfter(initial, sends, j + 1));
    }
  }

  /** However the reads and the compare-and-sets of any number of workers interleave, and
      whatever blocks they run for, the i-th and the j-th worker to send anything run for blocks
      that are j - i grace periods apart. */
  lemma SendsAreSpaced(grace: u32, limit: nat, initial: Stored, steps: seq<Step>)
    requires limit + grace < TWO_32 && BlocksUpTo(limit, initial, steps)
    ensures Spaced(grace, Senders(Choices(grace, Start(initial), steps)))
  {
    hide Run, Senders, Choices;
    SendersFromStart(grace, initial, steps);
    RunIsSound(grace, limit, initial, steps);
    var sends := Run(grace, Start(initial), steps).sends;
    SeparatedHasGaps(grace, initial, sends);
    GapBetweenIsSpaced(grace, SendBlocks(sends));
  }

  /** With a grace period of at least one block the workers that send anything run for increasing
      blocks, so no two ever send for the same one. */
  lemma OneSendPerBlock(grace: u32, limit: nat, initial: Stored, steps: seq<Step>, i: nat, j: nat)
    requires limit + grace < TWO_32 && BlocksUpTo(limit, initial, steps) && grace >= 1
    requires i < j < |Senders(Choices(grace, Start(initial), steps))|
    ensures var senders := Senders(Choices(grace, Start(initial), steps));
            senders[i].block < senders[j].block
  {
    hide Run, Senders, Choices;
    SendersFromStart(grace, initial, steps);
    RunIsSound(grace, limit, initial, steps);
    var sends := Run(grace, Start(initial), steps).sends;
    SeparatedHasGaps(grace, initial, sends);
    assert SendBlocks(sends)[i] + grace <= SendBlocks(sends)[j];
  }

  ghost predicate SpacedUpTo(grace: u32, limit: u32) {
    forall steps: seq<Step> :: BlocksUpTo(limit, Missing, steps) ==>
      Spaced(grace, Senders(Choices(grace, Start(Missing), steps)))
  }

  lemma RunTwo(grace: u32, start: Lock, steps: seq<Step>, a: Step, b: Step)
    ensures Run(grace, start, steps + [a, b]) == Next(grace, Next(grace, Run(grace, start, steps), a), b)
  {
    var one, two := steps + [a], steps + [a, b];
    assert one[..|steps|] == steps && two[..|one|] == one;
  }

  /** A worker whose read and compare-and-set are not interrupted finds what it read. */
  lemma Uninterrupted(grace: u32, s: Lock, w: WorkerId, block: u32)
    requires w !in s.pending
    ensures Next(grace, Next(grace, s, Read(w, block)), Finish(w)) ==
            if InGrace(grace, s.stored, block) then s
            else s.(stored := LastSend(block), sends := s.sends + [Send(w, block)])
  {
    assert s.pending[w := Pending(block, s.stored, |s.sends|)] - {w} == s.pending;
  }

  /** Two workers for the same late block, one after the other, both send: the sum of the
      stored block and the grace period wraps around. */
  lemma WrapSendsTwice(grace: u32, block: u32) returns (steps: seq<Step>)
    requires block + grace >= TWO_32
    ensures BlocksUpTo(block, Missing, steps)
    ensures Run(grace, Start(Missing), steps).sends == [Send(0, block), Send(1, block)]
  {
    var once := [Read(0, block), Finish(0)];
    steps := once + [Read(1, block), Finish(1)];
    RunTwo(grace, Start(Missing), [], Read(0, block), Finish(0));
    assert [] + once == once;
    RunTwo(grace, Start(Missing), once, Read(1, block), Finish(1));
    Uninterrupted(grace, Start(Missing), 0, block);
    Uninterrupted(grace, Run(grace, Start(Missing), once), 1, block);
  }

  /** The spacing holds for all workers up to a block exactly when that block plus the grace
      period is still a u32. */
  lemma SpacingExact(grace: u32, limit: u32)
    ensures SpacedUpTo(grace, limit) <==> limit + grace < TWO_32
  {
    if limit + grace < TWO_32 {
      forall steps: seq<Step> | BlocksUpTo(limit, Missing, steps)
        ensures Spaced(grace, Senders(Choices(grace, Start(Missing), steps)))
      {
        SendsAreSpaced(grace, limit, Missing, steps);
      }
    } else {
      var steps := WrapSendsTwice(grace, limit);
      SendersFromStart(grace, Missing, steps);
      var sends := Senders(Choices(grace, Start(Missing), steps));
      assert !Apart(grace, SendBlocks(sends)[0], SendBlocks(sends)[1], 1);
    }
  }

  // ---------------------------------------------------------------------
  // Progress
  // ---------------------------------------------------------------------

  /** A worker finds the storage modified exactly when some other worker has sent since its read,
      and then it sends nothing; and if what it read was a grace period old, then by the time it
      finishes the stored block has advanced by at least a grace period, whether or not it was the
      one to send. */
  lemma Progress(grace: u32, limit: nat, initial: Stored, steps: seq<Step>, worker: WorkerId)
    requires limit + grace < TWO_32 && BlocksUpTo(limit, initial, steps) && grace >= 1
    requires worker in Run(grace, Start(initial), steps).pending
    ensures var s := Run(grace, Start(initial), steps);
            var p := s.pending[worker];
            var outcome := OutcomeOf(grace, s, worker);
            && p.sendsSeen <= |s.sends|
            && (forall k :: p.sendsSeen <= k < |s.sends| ==> s.sends[k].worker != worker)
            && (outcome.RecentlySent? <==> p.seen.LastSend? && p.block < p.seen.block + grace)
            && (outcome.ConcurrentModification? <==> !outcome.RecentlySent? && p.sendsSeen < |s.sends|)
            && (Choose(outcome) != Nothing <==> !outcome.RecentlySent? && p.sendsSeen == |s.sends|)
            && (!outcome.RecentlySent? ==> Advanced(grace, p.seen, Next(grace, s, Finish(worker)).stored))
  {
    RunIsSound(grace, limit, initial, steps);
    var s := Run(grace, Start(initial), steps);
    var p := s.pending[worker];
    assert SoundPending(limit, initial, s, worker, p);
    if p.sendsSeen < |s.sends| {
      assert Advanced(grace, StoredAfter(initial, s.sends, p.sendsSeen), StoredAfter(initial, s.sends, |s.sends|));
    }
  }

  // ---------------------------------------------------------------------
  // One worker per block
  // ---------------------------------------------------------------------

  /** One worker at a time, for n consecutive blocks from b0 on. */
  function OnePerBlock(b0: nat, n: nat): seq<Step>
    requires b0 + n <= TWO_32
  {
    if n == 0 then [] else OnePerBlock(b0, n - 1) + [Read(0, b0 + n - 1), Finish(0)]
  }

  /** A grace period of zero blocks acts like one of one block. */
  function Period(grace: u32): nat {
    if grace == 0 then 1 else grace
  }

  /** The lock after n blocks when it was acquired at b0 and every period after. */
  ghost predicate Periodic(grace: u32, b0: nat, n: nat, s: Lock) {
    && s.pending == map[]
    && s.stored == StoredAfter(Missing, s.sends, |s.sends|)
    && (n == 0 <==> s.sends == [])
    && (n > 0 ==> s.sends[0].block == b0)
    && (n > 0 ==> s.sends[|s.sends| - 1].block < b0 + n <= s.sends[|s.sends| - 1].block + Period(grace))
    && (forall i, j :: 0 <= i < j < |s.sends| && j == i + 1 ==> s.sends[j].block == s.sends[i].block + Period(grace))
  }

  /** The only worker of a block, from its read to its compare-and-set. */
  function OneBlock(grace: u32, s: Lock, block: u32): Lock {
    Next(grace, Next(grace, s, Read(0, block)), Finish(0))
  }

  lemma OneMoreBlock(grace: u32, b0: nat, n: nat, s: Lock, t: Lock)
    requires 0 < n && b0 + n + grace <= TWO_32 && Periodic(grace, b0, n - 1, s)
    requires t == OneBlock(grace, s, b0 + n - 1)
    ensures Periodic(grace, b0, n, t)
  {
    Uninterrupted(grace, s, 0, b0 + n - 1);
  }

  function AfterBlocks(grace: u32, b0: nat, n: nat): Lock
    requires b0 + n <= TWO_32
  {
    if n == 0 then Start(Missing) else OneBlock(grace, AfterBlocks(grace, b0, n - 1), b0 + n - 1)
  }

  lemma {:induction false} RunIsAfterBlocks(grace: u32, b0: nat, n: nat)
    requires b0 + n <= TWO_32
    ensures Run(grace, Start(Missing), OnePerBlock(b0, n)) == AfterBlocks(grace, b0, n)
  {
    if n > 0 {
      RunIsAfterBlocks(grace, b0, n - 1);
      RunTwo(grace, Start(Missing), OnePerBlock(b0, n - 1), Read(0, b0 + n - 1), Finish(0));
    }
  }

  lemma {:induction false} SequentialSends(grace: u32, b0: nat, n: nat)
    requires b0 + n + grace <= TWO_32
    ensures Periodic(grace, b0, n, AfterBlocks(grace, b0, n))
  {
    if n > 0 {
      SequentialSends(grace, b0, n - 1);
      OneMoreBlock(grace, b0, n, AfterBlocks(grace, b0, n - 1), AfterBlocks(grace, b0, n));
    }
  }

  lemma {:induction false} PeriodicBlock(grace: u32, b0: nat, n: nat, s: Lock, k: nat)
    requires Periodic(grace, b0, n, s) && k < |s.sends|
    ensures s.sends[k].block == b0 + k * Period(grace)
  {
    if k > 0 {
      PeriodicBlock(grace, b0, n, s, k - 1);
      MulSuccessor(Period(grace), k - 1);
    }
  }

  lemma RoundUp(period: nat, last: nat, n: nat, k: nat)
    requires last * period < n <= last * period + period
    ensures k <= last <==> k * period < n
  {
    if k <= last {
      MulMonotone(period, k, last);
    } else {
      MulMonotone(period, last + 1, k);
      MulSuccessor(period, last);
    }
  }

  /** Run once per consecutive block on empty storage, the worker acquires the lock for the
      blocks b0 + k * period below b0 + n, and for no others. */
  lemma SequentialAcquisitions(grace: u32, b0: nat, n: nat, k: nat)
    requires b0 + n + grace <= TWO_32
    ensures var sends := Run(grace, Start(Missing), OnePerBlock(b0, n)).sends;
            && (k < |sends| <==> k * Period(grace) < n)
            && (k < |sends| ==> sends[k].block == b0 + k * Period(grace))
  {
    RunIsAfterBlocks(grace, b0, n);
    SequentialSends(grace, b0, n);
    var s := AfterBlocks(grace, b0, n);
    if s.sends != [] {
      PeriodicBlock(grace, b0, n, s, |s.sends| - 1);
      RoundUp(Period(grace), |s.sends| - 1, n, k);
      if k < |s.sends| {
        PeriodicBlock(grace, b0, n, s, k);
      }
    }
  }

  /** It never picks a raw transaction, and when 3 divides the grace period it picks the same
      kind every time. */
  lemma SequentialKinds(grace: u32, b0: nat, n: nat, k: nat)
    requires b0 + n + grace <= TWO_32
    requires k < |Run(grace, Start(Missing), OnePerBlock(b0, n)).sends|
    ensures var kind := Choose(Acquired(Run(grace, Start(Missing), OnePerBlock(b0, n)).sends[k].block));
            && kind == [SendSigned, UnsignedForAny, UnsignedForAll][(b0 + k * Period(grace)) % 3]
            && (grace > 0 && grace % 3 == 0 ==> kind == Choose(Acquired(b0)))
  {
    SequentialAcquisitions(grace, b0, n, k);
    if grace > 0 && grace % 3 == 0 {
      MultipleOfThree(b0, k, grace);
    }
  }

  lemma MultipleOfThree(b0: nat, k: nat, grace: nat)
    requires grace % 3 == 0
    ensures (b0 + k * grace) % 3 == b0 % 3
  {
    var q := grace / 3;
    assert k * grace == 3 * (k * q) by { assert grace == 3 * q; }
  }

  // ---------------------------------------------------------------------
  // The storage value itself
  // ---------------------------------------------------------------------

  class LocalStorage {
    var lastSend: Stored

    constructor (lastSend: Stored)
      ensures this.lastSend == lastSend
    {
      this.lastSend := lastSend;
    }

    method CompareAndSet(seen: Stored, value: Stored) returns (written: bool)
      modifies this
      ensures written <==> old(lastSend) == seen
      ensures lastSend == if written then value else old(lastSend)
    {
      written := lastSend == seen;
      if written {
        lastSend := value;
      }
    }

    /** The second half of `mutate`, for a worker that read `seen` some time ago. */
    method FinishMutate(grace: u32, seen: Stored, block: u32) returns (outcome: Mutation)
      modifies this
      ensures outcome == Mutate(grace, seen, old(lastSend), block)
      ensures lastSend == if outcome.Acquired? then LastSend(block) else old(lastSend)
    {
      if seen.LastSend? && block < AddU32(seen.block, grace) {
        return RecentlySent;
      }
      var written := CompareAndSet(seen, LastSend(block));
      outcome := if written then Acquired(block) else ConcurrentModification;
    }

    /** The rest of a run, for a worker that read `seen` some time ago. It sends only if nobody
        has written the storage since. */
    method FinishChoice(grace: u32, seen: Stored, block: u32) returns (kind: TransactionType)
      modifies this
      ensures kind != Nothing <==> !InGrace(grace, seen, block) && old(lastSend) == seen
      ensures kind != Nothing ==> kind == [SendSigned, UnsignedForAny, UnsignedForAll][block % 3]
      ensures lastSend == if kind != Nothing then LastSend(block) else old(lastSend)
    {
      var outcome := FinishMutate(grace, seen, block);
      kind := Choose(outcome);
    }

    /** A whole run of the worker that no other worker interrupts. */
    method ChooseTransactionType(grace: u32, block: u32) returns (kind: TransactionType)
      modifies this
      ensures lastSend == Run(grace, Start(old(lastSend)), [Read(0, block), Finish(0)]).stored
      ensures kind == Nothing <==> InGrace(grace, old(lastSend), block)
      ensures kind != Nothing ==> kind == [SendSigned, UnsignedForAny, UnsignedForAll][block % 3]
    {
      var seen := lastSend;
      kind := FinishChoice(grace, seen, block);
      RunTwo(grace, Start(seen), [], Read(0, block), Finish(0));
      Uninterrupted(grace, Start(seen), 0, block);
      assert [] + [Read(0, block), Finish(0)] == [Read(0, block), Finish(0)];
    }
  }
}
