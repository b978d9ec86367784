/** Runs of `fetch_remote_info` that show how far its promises go. */
module RemoteRuns {
  import opened RemoteCache
  import opened Wrappers

  lemma RunOne(expired: Expiry, s: State, steps: seq<Step>, step: Step)
    ensures Run(expired, s, steps + [step]) == Next(expired, Run(expired, s, steps), step)
  {
    assert (steps + [step])[..|steps|] == steps;
  }

  lemma {:induction false} RunAppend(expired: Expiry, s: State, a: seq<Step>, b: seq<Step>)
    ensures Run(expired, s, a + b) == Run(expired, Run(expired, s, a), b)
  {
    if b == [] {
      assert a + b == a;
    } else {
      var n := |b| - 1;
      RunAppend(expired, s, a, b[..n]);
      assert (a + b)[..|a| + n] == a + b[..n];
    }
  }

  // ---------------------------------------------------------------------
  // Waiting
  // ---------------------------------------------------------------------

  function NewBlocks(n: nat): seq<Step> {
    if n == 0 then [] else NewBlocks(n - 1) + [NewBlock]
  }

  /** The clock moves on to a later moment, all milliseconds first. */
  function Wait(now: Moment, later: Moment): seq<Step>
    requires AtOrAfter(now, later)
  {
    [Tick(later.time - now.time)] + NewBlocks(later.block - now.block)
  }

  lemma {:induction false} NewBlocksAdvance(expired: Expiry, s: State, n: nat)
    ensures Run(expired, s, NewBlocks(n)) == s.(now := s.now.(block := s.now.block + n))
  {
    if n > 0 {
      NewBlocksAdvance(expired, s, n - 1);
      RunOne(expired, s, NewBlocks(n - 1), NewBlock);
    }
  }

  lemma TickAdvances(expired: Expiry, s: State, time: nat)
    requires s.now.time <= time
    ensures Run(expired, s, [Tick(time - s.now.time)]) == s.(now := s.now.(time := time))
  {
    RunOne(expired, s, [], Tick(time - s.now.time));
    assert [] + [Tick(time - s.now.time)] == [Tick(time - s.now.time)];
  }

  lemma WaitReaches(expired: Expiry, s: State, later: Moment)
    requires AtOrAfter(s.now, later)
    ensures Run(expired, s, Wait(s.now, later)) == s.(now := later)
  {
    hide Run, Next, NewBlocks;
    TickAdvances(expired, s, later.time);
    var ticked := s.(now := s.now.(time := later.time));
    RunAppend(expired, s, [Tick(later.time - s.now.time)], NewBlocks(later.block - s.now.block));
    NewBlocksAdvance(expired, ticked, later.block - s.now.block);
  }

  // ---------------------------------------------------------------------
  // Prompt runs, piece by piece
  // ---------------------------------------------------------------------

  lemma PromptOneMore(expired: Expiry, s: State, steps: seq<Step>, step: Step)
    requires PromptRun(expired, s, steps) && Prompt(Run(expired, s, steps + [step]))
    ensures PromptRun(expired, s, steps + [step])
  {
    var more := steps + [step];
    forall k | 0 <= k <= |more|
      ensures Prompt(After(expired, s, more, k))
    {
      if k <= |steps| {
        assert more[..k] == steps[..k];
        assert Prompt(After(expired, s, steps, k));
      } else {
        assert more[..k] == more;
      }
    }
  }

  lemma PromptAppend(expired: Expiry, s: State, a: seq<Step>, b: seq<Step>)
    requires PromptRun(expired, s, a) && PromptRun(expired, Run(expired, s, a), b)
    ensures PromptRun(expired, s, a + b)
  {
    forall k | 0 <= k <= |a + b|
      ensures Prompt(After(expired, s, a + b, k))
    {
      if k <= |a| {
        assert (a + b)[..k] == a[..k];
        assert Prompt(After(expired, s, a, k));
      } else {
        assert (a + b)[..k] == a + b[..k - |a|];
        RunAppend(expired, s, a, b[..k - |a|]);
        assert Prompt(After(expired, Run(expired, s, a), b, k - |a|));
      }
    }
  }

  lemma PromptStart(expired: Expiry, s: State)
    requires Prompt(s)
    ensures PromptRun(expired, s, [])
  {
  }

  /** A state prompt at a later moment is prompt at any earlier one. */
  lemma PromptEarlier(s: State, now: Moment, later: Moment)
    requires AtOrAfter(now, later) && Prompt(s.(now := later))
    ensures Prompt(s.(now := now))
  {
    forall w | InSection(s.(now := now), w)
      ensures Within(s.workers[w].since, now)
    {
      assert InSection(s.(now := later), w);
    }
  }

  lemma {:induction false} NewBlocksPrompt(expired: Expiry, s: State, n: nat)
    requires Prompt(s.(now := s.now.(block := s.now.block + n)))
    ensures PromptRun(expired, s, NewBlocks(n))
  {
    PromptEarlier(s, s.now, s.now.(block := s.now.block + n));
    if n == 0 {
      PromptStart(expired, s);
    } else {
      PromptEarlier(s, s.now.(block := s.now.block + n - 1), s.now.(block := s.now.block + n));
      NewBlocksPrompt(expired, s, n - 1);
      NewBlocksAdvance(expired, s, n);
      PromptOneMore(expired, s, NewBlocks(n - 1), NewBlock);
    }
  }

  lemma WaitPrompt(expired: Expiry, s: State, later: Moment)
    requires AtOrAfter(s.now, later) && Prompt(s.(now := later))
    ensures PromptRun(expired, s, Wait(s.now, later))
  {
    var tick := [Tick(later.time - s.now.time)];
    var ticked := s.(now := s.now.(time := later.time));
    TickAdvances(expired, s, later.time);
    PromptEarlier(s, s.now, later);
    PromptEarlier(s, ticked.now, later);
    PromptStart(expired, s);
    assert [] + tick == tick;
    PromptOneMore(expired, s, [], tick[0]);
    NewBlocksPrompt(expired, ticked, later.block - s.now.block);
    PromptAppend(expired, s, tick, NewBlocks(later.block - s.now.block));
  }

  // ---------------------------------------------------------------------
  // Theft
  // ---------------------------------------------------------------------

  /** Two workers that have read the cache empty. */
  function TwoReaders(now: Moment): State {
    State(now, Free, None, map[1 := ReadEmpty, 2 := ReadEmpty], [], {})
  }

  /** The first of them took the lock at `since`. */
  function OneInside(since: Moment, now: Moment): State {
    State(now, Held(DeadlineFrom(since), 1), None, map[1 := Fetching(since), 2 := ReadEmpty], [1], {})
  }

  /** The second took it over at `now`. */
  function BothInside(since: Moment, now: Moment): State {
    State(now, Held(DeadlineFrom(now), 2), None, map[1 := Fetching(since), 2 := Fetching(now)], [1, 2], {})
  }

  lemma ReadTwice(expired: Expiry, start: Moment) returns (steps: seq<Step>)
    ensures Run(expired, Solo(start, Free, None), steps) == TwoReaders(start)
    ensures PromptRun(expired, Solo(start, Free, None), steps)
  {
    var s := Solo(start, Free, None);
    var one := [ReadCache(1)];
    RunOne(expired, s, [], ReadCache(1));
    assert [] + one == one;
    RunOne(expired, s, one, ReadCache(2));
    steps := one + [ReadCache(2)];
    PromptStart(expired, s);
    PromptOneMore(expired, s, [], ReadCache(1));
    PromptOneMore(expired, s, one, ReadCache(2));
  }

  /** A fresh run reaches the second reader waiting while the first holds the lock; all along,
      the first is prompt if it is at the end. */
  lemma ReachOneInside(expired: Expiry, start: Moment, since: Moment, now: Moment) returns (steps: seq<Step>)
    requires AtOrAfter(start, since) && AtOrAfter(since, now)
    ensures Run(expired, Solo(start, Free, None), steps) == OneInside(since, now)
    ensures Within(since, now) ==> PromptRun(expired, Solo(start, Free, None), steps)
  {
    var s := Solo(start, Free, None);
    var read := ReadTwice(expired, start);
    var waited := read + Wait(start, since);
    RunAppend(expired, s, read, Wait(start, since));
    WaitReaches(expired, TwoReaders(start), since);
    var locked := waited + [TryLock(1)];
    RunOne(expired, s, waited, TryLock(1));
    steps := locked + Wait(since, now);
    RunAppend(expired, s, locked, Wait(since, now));
    assert Run(expired, s, locked) == OneInside(since, since);
    WaitReaches(expired, OneInside(since, since), now);
    if Within(since, now) {
      WaitPrompt(expired, TwoReaders(start), since);
      PromptAppend(expired, s, read, Wait(start, since));
      PromptOneMore(expired, s, waited, TryLock(1));
      WaitPrompt(expired, OneInside(since, since), now);
      PromptAppend(expired, s, locked, Wait(since, now));
    }
  }

  lemma Theft(expired: Expiry, start: Moment, since: Moment, now: Moment) returns (steps: seq<Step>)
    requires AtOrAfter(start, since) && AtOrAfter(since, now) && expired(DeadlineFrom(since), now)
    ensures Run(expired, Solo(start, Free, None), steps) == BothInside(since, now)
    ensures Within(since, now) ==> PromptRun(expired, Solo(start, Free, None), steps)
  {
    var s := Solo(start, Free, None);
    var waiting := ReachOneInside(expired, start, since, now);
    steps := waiting + [TryLock(2)];
    RunOne(expired, s, waiting, TryLock(2));
    if Within(since, now) {
      PromptOneMore(expired, s, waiting, TryLock(2));
    }
  }

  /** All runs of prompt workers from a fresh start are exclusive exactly when the expiry never
      fires within 4 seconds and 3 blocks of taking the lock. */
  lemma PromptExclusionIff(expired: Expiry, start: Moment)
    ensures (forall steps: seq<Step> :: PromptRun(expired, Solo(start, Free, None), steps)
               ==> ExclusiveRun(expired, Solo(start, Free, None), steps))
       <==> Quiet(expired, start)
  {
    var s := Solo(start, Free, None);
    if Quiet(expired, start) {
      forall steps: seq<Step> | PromptRun(expired, s, steps)
        ensures ExclusiveRun(expired, s, steps)
      {
        QuietMutualExclusion(expired, s, steps);
      }
    } else {
      var since, now :| AtOrAfter(start, since) && AtOrAfter(since, now) && Within(since, now)
                        && expired(DeadlineFrom(since), now);
      var steps := Theft(expired, start, since, now);
      assert steps[..|steps|] == steps;
      var end := After(expired, s, steps, |steps|);
      assert InSection(end, 1) && InSection(end, 2);
      assert !AtMostOne(end);
    }
  }

  /** One reading of expiry: both deadlines have passed. */
  predicate BothPassed(deadline: Moment, now: Moment) {
    now.time > deadline.time && now.block > deadline.block
  }

  /** A lock just taken cannot be taken again within 3999 milliseconds and 3 blocks, whatever the
      library makes of its deadlines; read strictly, it can a millisecond and a block after both. */
  lemma LockHorizon(expired: Expiry, s: State, w: WorkerId, later: Moment)
    requires CanLock(expired, s) && At(s, w, ReadEmpty)
    ensures var held := Next(expired, s, TryLock(w)).(now := later);
            && held.lock.Held?
            && ((Conservative(expired) && later.time <= s.now.time + 3999 && later.block <= s.now.block + 3)
                ==> !CanLock(expired, held))
            && ((later.time >= s.now.time + 4001 && later.block >= s.now.block + 4) ==> CanLock(BothPassed, held))
  {
  }

  /** A worker that outlives both its deadlines loses the lock, and its drop then frees the
      lock of the worker that took over. From a fresh start, with a library that meets the
      assumption. */
  lemma SlowWorkerFreesAnother(error: Error) returns (steps: seq<Step>)
    ensures Conservative(BothPassed)
    ensures var end := Run(BothPassed, Solo(Moment(0, 0), Free, None), steps);
            && !AtMostOne(end)
            && ReleasesAnother(end, DropGuard(1))
            && Next(BothPassed, end, DropGuard(1)).lock == Free
            && InSection(Next(BothPassed, end, DropGuard(1)), 2)
  {
    var start, late := Moment(0, 0), Moment(4001, 4);
    var theft := Theft(BothPassed, start, start, late);
    steps := theft + [FetchErr(1, error)];
    RunOne(BothPassed, Solo(start, Free, None), theft, FetchErr(1, error));
    var end := Run(BothPassed, Solo(start, Free, None), steps);
    assert InSection(end, 1) && InSection(end, 2);
  }

  // ---------------------------------------------------------------------
  // Fetches after the cache is set
  // ---------------------------------------------------------------------

  /** The cache is not read again once the lock is taken: a worker that read it empty before
      another one filled it fetches a second time, although nothing ever expires. */
  lemma TwoFetches(info: HackerNewsInfo) returns (steps: seq<Step>)
    ensures Run((d: Moment, n: Moment) => false, Solo(Moment(0, 0), Free, None), steps).begun == [1, 2]
    ensures forall k :: 0 <= k < |steps| ==> !steps[k].Tick? && !steps[k].NewBlock?
  {
    var never: Expiry := (d: Moment, n: Moment) => false;
    var s := Solo(Moment(0, 0), Free, None);
    var read1 := [ReadCache(1)];
    var read2 := read1 + [ReadCache(2)];
    var locked := read2 + [TryLock(1)];
    var fetched := locked + [FetchOk(1, info)];
    var stored := fetched + [SetCache(1)];
    var dropped := stored + [DropGuard(1)];
    steps := dropped + [TryLock(2)];
    RunOne(never, s, read1, ReadCache(2));
    assert Run(never, s, read2).workers == map[1 := ReadEmpty, 2 := ReadEmpty];
    RunOne(never, s, read2, TryLock(1));
    RunOne(never, s, locked, FetchOk(1, info));
    assert Run(never, s, fetched).workers == map[1 := Fetched(Moment(0, 0), info), 2 := ReadEmpty];
    RunOne(never, s, fetched, SetCache(1));
    RunOne(never, s, stored, DropGuard(1));
    assert Run(never, s, dropped).workers == map[1 := Returned(None), 2 := ReadEmpty];
    RunOne(never, s, dropped, TryLock(2));
  }

  /** The lock is free, or some worker will drop a guard and free it, or it can still expire. */
  ghost predicate Reopens(expired: Expiry, s: State) {
    || s.lock.Free?
    || (exists w :: InSection(s, w))
    || (exists later :: AtOrAfter(s.now, later) && expired(s.lock.deadline, later))
  }

  /** The way out of the section, from any point in it. */
  function Exit(w: WorkerId): seq<Step> {
    [FetchErr(w, HttpFetchingError), SetCache(w), DropGuard(w)]
  }

  lemma ExitFrees(expired: Expiry, s: State, w: WorkerId)
    requires InSection(s, w)
    ensures var t := Run(expired, s, Exit(w));
            && t.lock == Free && t.begun == s.begun && EmptyReaders(t) == EmptyReaders(s)
  {
    var a: seq<Step> := [FetchErr(w, HttpFetchingError)];
    RunOne(expired, s, [], a[0]);
    assert [] + a == a;
    RunOne(expired, s, a, SetCache(w));
    RunOne(expired, s, a + [SetCache(w)], DropGuard(w));
    assert a + [SetCache(w)] + [DropGuard(w)] == Exit(w);
  }

  lemma Reopen(expired: Expiry, s: State) returns (steps: seq<Step>)
    requires Reopens(expired, s)
    ensures var t := Run(expired, s, steps);
            && CanLock(expired, t) && t.begun == s.begun && EmptyReaders(t) == EmptyReaders(s)
  {
    if s.lock.Free? {
      steps := [];
    } else if w :| InSection(s, w) {
      steps := Exit(w);
      ExitFrees(expired, s, w);
    } else {
      var later :| AtOrAfter(s.now, later) && expired(s.lock.deadline, later);
      steps := Wait(s.now, later);
      WaitReaches(expired, s, later);
    }
  }

  /** Each worker of late, and nobody else, has begun one more fetch. */
  ghost predicate EachBegins(s: State, t: State, late: seq<WorkerId>) {
    && t.begun == s.begun + late
    && Distinct(late)
    && (forall w :: w in late <==> w in EmptyReaders(s))
  }

  /** A worker that read the cache empty takes the lock, fetches in vain and leaves. */
  lemma TakesItsTurn(expired: Expiry, s: State, w: WorkerId)
    requires CanLock(expired, s) && w in EmptyReaders(s)
    ensures var t := Run(expired, s, [TryLock(w)] + Exit(w));
            && CanLock(expired, t) && t.begun == s.begun + [w] && EmptyReaders(t) == EmptyReaders(s) - {w}
  {
    var lock: seq<Step> := [TryLock(w)];
    RunOne(expired, s, [], TryLock(w));
    assert [] + lock == lock;
    var inside := Run(expired, s, lock);
    assert EmptyReaders(inside) == EmptyReaders(s) - {w};
    ExitFrees(expired, inside, w);
    RunAppend(expired, s, lock, Exit(w));
  }

  lemma OneMoreBegins(s: State, t: State, end: State, w: WorkerId, others: seq<WorkerId>)
    requires w in EmptyReaders(s) && t.begun == s.begun + [w] && EmptyReaders(t) == EmptyReaders(s) - {w}
    requires EachBegins(t, end, others)
    ensures EachBegins(s, end, [w] + others)
  {
  }

  /** One after the other. */
  lemma {:induction false} OneByOne(expired: Expiry, s: State) returns (steps: seq<Step>, late: seq<WorkerId>)
    requires CanLock(expired, s)
    ensures EachBegins(s, Run(expired, s, steps), late)
    decreases |EmptyReaders(s)|
  {
    steps, late := [], [];
    if w :| w in EmptyReaders(s) {
      var turn := [TryLock(w)] + Exit(w);
      TakesItsTurn(expired, s, w);
      hide Run, CanLock, EmptyReaders, EachBegins;
      var rest, others := OneByOne(expired, Run(expired, s, turn));
      steps, late := turn + rest, [w] + others;
      RunAppend(expired, s, turn, rest);
      OneMoreBegins(s, Run(expired, s, turn), Run(expired, s, steps), w, others);
    }
  }

  /** The bound on late fetches is met: unless the lock is stuck, in some run every worker that
      had read the cache empty begins one more fetch, and nobody begins a second one. */
  lemma LateFetchesAreReached(expired: Expiry, s: State) returns (steps: seq<Step>, late: seq<WorkerId>)
    requires Reopens(expired, s)
    ensures Run(expired, s, steps).begun == s.begun + late
    ensures Distinct(late) && forall w :: w in late <==> w in EmptyReaders(s)
  {
    var open := Reopen(expired, s);
    var rest;
    rest, late := OneByOne(expired, Run(expired, s, open));
    steps := open + rest;
    RunAppend(expired, s, open, rest);
  }

  lemma {:induction false} StuckLockStays(expired: Expiry, s: State, steps: seq<Step>)
    requires !Reopens(expired, s)
    ensures var t := Run(expired, s, steps);
            && t.lock == s.lock && t.begun == s.begun && AtOrAfter(s.now, t.now)
            && (forall w :: !InSection(t, w))
  {
    if steps != [] {
      var before := Run(expired, s, steps[..|steps| - 1]);
      StuckLockStays(expired, s, steps[..|steps| - 1]);
      StuckStep(expired, before, steps[|steps| - 1]);
    }
  }

  lemma StuckStep(expired: Expiry, s: State, step: Step)
    requires !CanLock(expired, s) && forall w :: !InSection(s, w)
    ensures var t := Next(expired, s, step);
            && t.lock == s.lock && t.begun == s.begun && AtOrAfter(s.now, t.now)
            && (forall w :: !InSection(t, w))
  {
    var t := Next(expired, s, step);
    if !step.Tick? && !step.NewBlock? {
      assert !InSection(s, step.worker);
    }
    forall w
      ensures !InSection(t, w)
    {
      assert !InSection(s, w);
    }
  }

  /** Once the cache is set no further fetch can begin if and only if no worker is left that
      read it empty, or the lock is stuck for good. */
  lemma NoLateFetchIff(expired: Expiry, s: State)
    requires s.cache.Some?
    ensures (forall steps: seq<Step> :: Run(expired, s, steps).begun == s.begun)
       <==> EmptyReaders(s) == {} || !Reopens(expired, s)
  {
    if EmptyReaders(s) == {} {
      forall steps: seq<Step>
        ensures Run(expired, s, steps).begun == s.begun
      {
        FetchesAfterSet(expired, s, steps);
      }
    } else if !Reopens(expired, s) {
      forall steps: seq<Step>
        ensures Run(expired, s, steps).begun == s.begun
      {
        StuckLockStays(expired, s, steps);
      }
    } else {
      var steps, late := LateFetchesAreReached(expired, s);
      var w :| w in EmptyReaders(s);
      assert w in late;
    }
  }
}
