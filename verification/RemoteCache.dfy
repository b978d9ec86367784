/** `fetch_remote_info`: a write-once cache behind a storage lock that expires. Workers are step
    machines; clock ticks and blocks fall anywhere between their steps. */
module RemoteCache {
  import opened Bounded
  import opened Wrappers

  const FETCH_TIMEOUT_PERIOD: nat := 3000 // milliseconds
  const LOCK_TIMEOUT_EXPIRATION: nat := FETCH_TIMEOUT_PERIOD + 1000 // milliseconds
  const LOCK_BLOCK_EXPIRATION: nat := 3 // blocks

  type WorkerId = nat

  datatype HackerNewsInfo = HackerNewsInfo(author: seq<bv8>, title: seq<bv8>, url: seq<bv8>, descendants: u32)

  datatype Error = HttpFetchingError | DeserializeToStrError | DeserializeToObjError

  /** A point in wall-clock time and block height. */
  datatype Moment = Moment(time: nat, block: nat)

  datatype LockState = Free | Held(deadline: Moment, owner: WorkerId)

  datatype Phase =
    | ReadEmpty                                      // found no cached info, has not tried the lock
    | Fetching(since: Moment)                        // holds the guard
    | Fetched(since: Moment, info: HackerNewsInfo)   // holds the guard, has not written the cache
    | Leaving(since: Moment, result: Option<Error>)  // holds the guard, is about to return
    | Returned(result: Option<Error>)

  /** The lock's owner, the fetches begun and the infos fetched are bookkeeping: no step decides
      on them. */
  datatype State = State(
    now: Moment,
    lock: LockState,
    cache: Option<HackerNewsInfo>,
    workers: map<WorkerId, Phase>,
    begun: seq<WorkerId>,
    completed: set<HackerNewsInfo>)

  datatype Step =
    | ReadCache(worker: WorkerId)
    | TryLock(worker: WorkerId)
    | FetchOk(worker: WorkerId, info: HackerNewsInfo)
    | FetchErr(worker: WorkerId, error: Error)
    | SetCache(worker: WorkerId)
    | DropGuard(worker: WorkerId)
    | Tick(milliseconds: nat)
    | NewBlock

  /** Whether a deadline counts as expired at a moment is the lock library's affair. */
  type Expiry = (Moment, Moment) -> bool

  function DeadlineFrom(now: Moment): Moment {
    Moment(now.time + LOCK_TIMEOUT_EXPIRATION, now.block + LOCK_BLOCK_EXPIRATION)
  }

  predicate CanLock(expired: Expiry, s: State) {
    s.lock.Free? || expired(s.lock.deadline, s.now)
  }

  predicate At(s: State, w: WorkerId, phase: Phase) {
    w in s.workers && s.workers[w] == phase
  }

  /** Between `try_lock` and the drop of the guard. */
  predicate InSection(s: State, w: WorkerId) {
    w in s.workers && (s.workers[w].Fetching? || s.workers[w].Fetched? || s.workers[w].Leaving?)
  }

  /** One step; a step that is not the worker's next one does nothing. */
  function Next(expired: Expiry, s: State, step: Step): State {
    match step
    case ReadCache(w) =>
      if w in s.workers then s
      else s.(workers := s.workers[w := if s.cache.Some? then Returned(None) else ReadEmpty])
    case TryLock(w) =>
      if !At(s, w, ReadEmpty) then s
      else if CanLock(expired, s) then
        s.(workers := s.workers[w := Fetching(s.now)], lock := Held(DeadlineFrom(s.now), w), begun := s.begun + [w])
      else s.(workers := s.workers[w := Returned(None)])
    case FetchOk(w, info) =>
      if w in s.workers && s.workers[w].Fetching? then
        s.(workers := s.workers[w := Fetched(s.workers[w].since, info)], completed := s.completed + {info})
      else s
    case FetchErr(w, error) =>
      if w in s.workers && s.workers[w].Fetching? then
        s.(workers := s.workers[w := Leaving(s.workers[w].since, Some(error))])
      else s
    case SetCache(w) =>
      if w in s.workers && s.workers[w].Fetched? then
        s.(workers := s.workers[w := Leaving(s.workers[w].since, None)], cache := Some(s.workers[w].info))
      else s
    case DropGuard(w) =>
      if w in s.workers && s.workers[w].Leaving? then
        s.(workers := s.workers[w := Returned(s.workers[w].result)], lock := Free)
      else s
    case Tick(milliseconds) => s.(now := s.now.(time := s.now.time + milliseconds))
    case NewBlock => s.(now := s.now.(block := s.now.block + 1))
  }

  function Run(expired: Expiry, s: State, steps: seq<Step>): State {
    if steps == [] then s else Next(expired, Run(expired, s, steps[..|steps| - 1]), steps[|steps| - 1])
  }

  /** The state after the first k steps. */
  function After(expired: Expiry, s: State, steps: seq<Step>, k: nat): State
    requires k <= |steps|
  {
    Run(expired, s, steps[..k])
  }

  /** No worker has started yet. The lock may have been left behind by an earlier run. */
  ghost predicate Initial(s: State) {
    s.workers == map[] && s.begun == [] && s.completed == {} && s.cache == None
  }

  // ---------------------------------------------------------------------
  // Mutual exclusion
  // ---------------------------------------------------------------------

  ghost predicate AtMostOne(s: State) {
    forall v, w :: InSection(s, v) && InSection(s, w) ==> v == w
  }

  /** The lock is taken over, after expiring, from a worker that has not dropped its guard. */
  ghost predicate Steals(expired: Expiry, s: State, step: Step) {
    && step.TryLock? && At(s, step.worker, ReadEmpty)
    && s.lock.Held? && InSection(s, s.lock.owner) && expired(s.lock.deadline, s.now)
  }

  /** A drop that frees a lock some other worker took. */
  ghost predicate ReleasesAnother(s: State, step: Step) {
    && step.DropGuard? && step.worker in s.workers && s.workers[step.worker].Leaving?
    && s.lock.Held? && s.lock.owner != step.worker
  }

  /** Whoever is in the section owns the lock, with the deadline set on entry. */
  ghost predicate Guarded(s: State) {
    forall w :: InSection(s, w) ==> s.lock == Held(DeadlineFrom(s.workers[w].since), w)
  }

  lemma StepKeepsGuarded(expired: Expiry, s: State, step: Step)
    requires Guarded(s) && !Steals(expired, s, step)
    ensures Guarded(Next(expired, s, step))
    ensures !ReleasesAnother(s, step)
  {
    var t := Next(expired, s, step);
    if step.DropGuard? && step.worker in s.workers && s.workers[step.worker].Leaving? {
      assert InSection(s, step.worker);
    }
    forall w | InSection(t, w)
      ensures t.lock == Held(DeadlineFrom(t.workers[w].since), w)
    {
      if step.TryLock? && At(s, step.worker, ReadEmpty) && CanLock(expired, s) {
        assert w == step.worker || InSection(s, w);
      } else {
        assert InSection(s, w);
      }
    }
  }

  /** A theft puts two workers in the section at once. */
  lemma StealBreaksExclusion(expired: Expiry, s: State, step: Step)
    requires Steals(expired, s, step)
    ensures !AtMostOne(Next(expired, s, step))
  {
    var t := Next(expired, s, step);
    assert InSection(t, step.worker) && InSection(t, s.lock.owner);
  }

  lemma {:induction false} GuardedUntilSteal(expired: Expiry, s: State, steps: seq<Step>, k: nat)
    requires Initial(s) && k <= |steps|
    requires forall j :: 0 <= j < k ==> !Steals(expired, After(expired, s, steps, j), steps[j])
    ensures Guarded(After(expired, s, steps, k))
  {
    if k > 0 {
      GuardedUntilSteal(expired, s, steps, k - 1);
      AfterOneMore(expired, s, steps, k - 1);
      StepKeepsGuarded(expired, After(expired, s, steps, k - 1), steps[k - 1]);
    }
  }

  lemma AfterOneMore(expired: Expiry, s: State, steps: seq<Step>, k: nat)
    requires k < |steps|
    ensures After(expired, s, steps, k + 1) == Next(expired, After(expired, s, steps, k), steps[k])
  {
    assert steps[..k + 1][..k] == steps[..k];
  }

  /** In any run, whatever the timing, the section is exclusive throughout exactly when no
      `try_lock` takes over an expired lock whose owner is still inside; and then no drop ever
      frees a lock of another worker. */
  lemma ExclusionExact(expired: Expiry, s: State, steps: seq<Step>)
    requires Initial(s)
    ensures ExclusiveRun(expired, s, steps)
       <==> (forall k :: 0 <= k < |steps| ==> !Steals(expired, After(expired, s, steps, k), steps[k]))
    ensures (forall k :: 0 <= k < |steps| ==> !Steals(expired, After(expired, s, steps, k), steps[k]))
        ==> (forall k :: 0 <= k < |steps| ==> !ReleasesAnother(After(expired, s, steps, k), steps[k]))
  {
    if k :| 0 <= k < |steps| && Steals(expired, After(expired, s, steps, k), steps[k]) {
      StealBreaksExclusion(expired, After(expired, s, steps, k), steps[k]);
      AfterOneMore(expired, s, steps, k);
      assert !AtMostOne(After(expired, s, steps, k + 1));
    } else {
      forall k | 0 <= k <= |steps|
        ensures AtMostOne(After(expired, s, steps, k))
        ensures k < |steps| ==> !ReleasesAnother(After(expired, s, steps, k), steps[k])
      {
        GuardedUntilSteal(expired, s, steps, k);
        if k < |steps| {
          StepKeepsGuarded(expired, After(expired, s, steps, k), steps[k]);
        }
      }
    }
  }

  predicate AtOrAfter(a: Moment, b: Moment) {
    a.time <= b.time && a.block <= b.block
  }

  /** now is less than 4 seconds and at most 3 blocks after since. */
  predicate Within(since: Moment, now: Moment) {
    now.time < since.time + 4000 && now.block <= since.block + 3
  }

  /** Every worker in the section entered it less than 4 seconds and at most 3 blocks ago. */
  ghost predicate Prompt(s: State) {
    forall w :: InSection(s, w) ==> Within(s.workers[w].since, s.now)
  }

  ghost predicate PromptRun(expired: Expiry, s: State, steps: seq<Step>) {
    forall k :: 0 <= k <= |steps| ==> Prompt(After(expired, s, steps, k))
  }

  ghost predicate ExclusiveRun(expired: Expiry, s: State, steps: seq<Step>) {
    forall k :: 0 <= k <= |steps| ==> AtMostOne(After(expired, s, steps, k))
  }

  /** A lock taken at or after the start does not expire on a prompt owner. */
  ghost predicate Quiet(expired: Expiry, start: Moment) {
    forall since: Moment, now: Moment ::
      AtOrAfter(start, since) && AtOrAfter(since, now) && Within(since, now) ==> !expired(DeadlineFrom(since), now)
  }

  /** The one thing assumed of the library: a lock does not expire while its time deadline lies
      ahead and its block deadline is not passed. Expiry that needs both deadlines satisfies it,
      and so does expiry on either one, provided a block deadline counts only once a later block
      has come; one that counts in the deadline's own block does not. */
  ghost predicate Conservative(expired: Expiry) {
    forall deadline: Moment, now: Moment ::
      now.time < deadline.time && now.block <= deadline.block ==> !expired(deadline, now)
  }

  /** Whoever is in the section entered it between the start and now. */
  ghost predicate Clocked(start: Moment, s: State) {
    && AtOrAfter(start, s.now)
    && forall w :: InSection(s, w) ==> AtOrAfter(start, s.workers[w].since) && AtOrAfter(s.workers[w].since, s.now)
  }

  lemma {:induction false} RunIsClocked(expired: Expiry, s: State, steps: seq<Step>)
    requires Initial(s)
    ensures Clocked(s.now, Run(expired, s, steps))
  {
    if steps != [] {
      RunIsClocked(expired, s, steps[..|steps| - 1]);
      StepKeepsClocked(expired, s.now, Run(expired, s, steps[..|steps| - 1]), steps[|steps| - 1]);
    }
  }

  lemma StepKeepsClocked(expired: Expiry, start: Moment, s: State, step: Step)
    requires Clocked(start, s)
    ensures Clocked(start, Next(expired, s, step))
  {
    var t := Next(expired, s, step);
    forall w | InSection(t, w)
      ensures AtOrAfter(start, t.workers[w].since) && AtOrAfter(t.workers[w].since, t.now)
    {
      if !(step.TryLock? && w == step.worker && At(s, w, ReadEmpty)) {
        assert InSection(s, w);
      }
    }
  }

  lemma PromptOwnerIsNotRobbed(expired: Expiry, start: Moment, s: State, step: Step)
    requires Quiet(expired, start) && Clocked(start, s) && Guarded(s) && Prompt(s)
    ensures !Steals(expired, s, step)
  {
    if s.lock.Held? && InSection(s, s.lock.owner) {
      var since := s.workers[s.lock.owner].since;
      assert s.lock.deadline == DeadlineFrom(since) && Within(since, s.now);
    }
  }

  lemma {:induction false} PromptRunHasNoSteals(expired: Expiry, s: State, steps: seq<Step>, k: nat)
    requires Quiet(expired, s.now) && Initial(s) && k <= |steps| && PromptRun(expired, s, steps)
    ensures forall j :: 0 <= j < k ==> !Steals(expired, After(expired, s, steps, j), steps[j])
  {
    if k > 0 {
      PromptRunHasNoSteals(expired, s, steps, k - 1);
      GuardedUntilSteal(expired, s, steps, k - 1);
      RunIsClocked(expired, s, steps[..k - 1]);
      PromptOwnerIsNotRobbed(expired, s.now, After(expired, s, steps, k - 1), steps[k - 1]);
    }
  }

  lemma QuietMutualExclusion(expired: Expiry, s: State, steps: seq<Step>)
    requires Quiet(expired, s.now) && Initial(s) && PromptRun(expired, s, steps)
    ensures ExclusiveRun(expired, s, steps)
    ensures forall k :: 0 <= k < |steps| ==> !ReleasesAnother(After(expired, s, steps, k), steps[k])
  {
    PromptRunHasNoSteals(expired, s, steps, |steps|);
    ExclusionExact(expired, s, steps);
  }

  /** If workers are prompt, then in every interleaving of their steps with ticks and blocks at
      most one is in the section, and no drop frees a lock of another worker. */
  lemma TimedMutualExclusion(expired: Expiry, s: State, steps: seq<Step>)
    requires Conservative(expired) && Initial(s) && PromptRun(expired, s, steps)
    ensures ExclusiveRun(expired, s, steps)
    ensures forall k :: 0 <= k < |steps| ==> !ReleasesAnother(After(expired, s, steps, k), steps[k])
  {
    assert Quiet(expired, s.now);
    QuietMutualExclusion(expired, s, steps);
  }

  // ---------------------------------------------------------------------
  // The cache
  // ---------------------------------------------------------------------

  ghost predicate CacheSound(s: State) {
    && (s.cache.Some? ==> s.cache.value in s.completed)
    && (forall w :: w in s.workers && s.workers[w].Fetched? ==> s.workers[w].info in s.completed)
  }

  lemma {:induction false} CacheHoldsFetchedInfo(expired: Expiry, s: State, steps: seq<Step>)
    requires Initial(s)
    ensures CacheSound(Run(expired, s, steps))
  {
    if steps != [] {
      CacheHoldsFetchedInfo(expired, s, steps[..|steps| - 1]);
    }
  }

  /** A worker that has fetched an info stores it, and nothing else changes the cache: it never
      empties, and a worker whose fetch failed never touches it. */
  lemma CacheChangesBySetOnly(expired: Expiry, s: State, step: Step)
    ensures var t := Next(expired, s, step);
            && (s.cache.Some? ==> t.cache.Some?)
            && t.cache == (if step.SetCache? && step.worker in s.workers && s.workers[step.worker].Fetched?
                           then Some(s.workers[step.worker].info) else s.cache)
  {
  }

  /** A worker on its way out with an error returns that error and writes nothing. */
  lemma {:induction false} FailureIsFinal(expired: Expiry, s: State, w: WorkerId, error: Error, steps: seq<Step>)
    requires w in s.workers && (s.workers[w].Leaving? || s.workers[w].Returned?) && s.workers[w].result == Some(error)
    ensures var t := Run(expired, s, steps);
            && w in t.workers && (t.workers[w].Leaving? || t.workers[w].Returned?)
            && t.workers[w].result == Some(error)
            && Next(expired, t, SetCache(w)) == t
  {
    if steps != [] {
      FailureIsFinal(expired, s, w, error, steps[..|steps| - 1]);
    }
  }

  ghost function EmptyReaders(s: State): set<WorkerId> {
    set w | w in s.workers && s.workers[w] == ReadEmpty
  }

  ghost predicate Distinct(ws: seq<WorkerId>) {
    forall i, j :: 0 <= i < j < |ws| ==> ws[i] != ws[j]
  }

  /** The fetches begun after the cache was set are by workers that had read it empty before,
      one each, and by nobody else. */
  lemma {:induction false} LateFetches(expired: Expiry, s: State, steps: seq<Step>) returns (late: seq<WorkerId>)
    requires s.cache.Some?
    ensures var t := Run(expired, s, steps);
            && t.cache.Some?
            && t.begun == s.begun + late
            && Distinct(late)
            && (forall w :: w in late ==> w in EmptyReaders(s) && w !in EmptyReaders(t))
            && EmptyReaders(t) <= EmptyReaders(s)
  {
    late := [];
    if steps != [] {
      var n := |steps| - 1;
      var before, step := Run(expired, s, steps[..n]), steps[n];
      late := LateFetches(expired, s, steps[..n]);
      if step.TryLock? && At(before, step.worker, ReadEmpty) && CanLock(expired, before) {
        assert step.worker in EmptyReaders(before);
        late := late + [step.worker];
      }
    }
  }

  lemma {:induction false} DistinctFitIn(ws: seq<WorkerId>, all: set<WorkerId>)
    requires Distinct(ws) && forall w :: w in ws ==> w in all
    ensures |ws| <= |all|
  {
    if ws != [] {
      var n := |ws| - 1;
      forall w | w in ws[..n]
        ensures w in all - {ws[n]}
      {
      }
      DistinctFitIn(ws[..n], all - {ws[n]});
    }
  }

  /** Once the cache is set it stays set; fetches begun from then on number at most the workers
      that had read it empty; and a worker that had not read it yet neither locks nor fetches. */
  lemma FetchesAfterSet(expired: Expiry, s: State, steps: seq<Step>)
    requires s.cache.Some?
    ensures var t := Run(expired, s, steps);
            && t.cache.Some?
            && s.begun <= t.begun
            && |t.begun| - |s.begun| <= |EmptyReaders(s)|
            && (forall w :: w in t.begun[|s.begun|..] ==> w in s.workers && s.workers[w] == ReadEmpty)
  {
    var late := LateFetches(expired, s, steps);
    DistinctFitIn(late, EmptyReaders(s));
    assert Run(expired, s, steps).begun[|s.begun|..] == late;
  }

  // ---------------------------------------------------------------------
  // One worker alone
  // ---------------------------------------------------------------------

  /** The outcome of `fetch_n_parse`. */
  datatype FetchOutcome = Info(info: HackerNewsInfo) | Failed(error: Error)

  function FetchStep(w: WorkerId, outcome: FetchOutcome): Step {
    match outcome
    case Info(info) => FetchOk(w, info)
    case Failed(error) => FetchErr(w, error)
  }

  /** All the steps of one worker, none of another's between. */
  function Alone(expired: Expiry, s: State, w: WorkerId, outcome: FetchOutcome): State {
    var read := Next(expired, s, ReadCache(w));
    var locked := Next(expired, read, TryLock(w));
    var fetched := Next(expired, locked, FetchStep(w, outcome));
    var stored := Next(expired, fetched, SetCache(w));
    Next(expired, stored, DropGuard(w))
  }

  /** What the storage and the clock look like to a worker that runs alone. */
  function Solo(now: Moment, lock: LockState, cache: Option<HackerNewsInfo>): State {
    State(now, lock, cache, map[], [], {})
  }

  /** What such a worker returns and leaves behind: a set cache or a taken lock stops it, and
      otherwise the info is stored or the error returned, and the lock is free. */
  ghost predicate AloneLeaves(canLock: bool, lock: LockState, cache: Option<HackerNewsInfo>, outcome: FetchOutcome,
                              result: Option<Error>, lockAfter: LockState, cacheAfter: Option<HackerNewsInfo>)
  {
    if cache.Some? || !canLock then
      result == None && lockAfter == lock && cacheAfter == cache
    else
      match outcome
      case Info(info) => result == None && lockAfter == Free && cacheAfter == Some(info)
      case Failed(error) => result == Some(error) && lockAfter == Free && cacheAfter == None
  }

  lemma AloneExact(expired: Expiry, now: Moment, lock: LockState, cache: Option<HackerNewsInfo>, w: WorkerId,
                   outcome: FetchOutcome)
    ensures var end := Alone(expired, Solo(now, lock, cache), w, outcome);
            && w in end.workers && end.workers[w].Returned?
            && AloneLeaves(lock.Free? || expired(lock.deadline, now), lock, cache, outcome,
                           end.workers[w].result, end.lock, end.cache)
  {
  }

  class OffchainStorage {
    var cache: Option<HackerNewsInfo>
    var lock: LockState

    constructor ()
      ensures cache == None && lock == Free
    {
      cache, lock := None, Free;
    }

    method TryLock(expired: Expiry, now: Moment, w: WorkerId) returns (acquired: bool)
      modifies this`lock
      ensures acquired <==> old(lock).Free? || expired(old(lock).deadline, now)
      ensures lock == if acquired then Held(Moment(now.time + 4000, now.block + 3), w) else old(lock)
    {
      acquired := lock.Free? || expired(lock.deadline, now);
      if acquired {
        lock := Held(DeadlineFrom(now), w);
      }
    }

    /** Uninterrupted, with the outcome the fetch would have. */
    method FetchRemoteInfo(expired: Expiry, now: Moment, w: WorkerId, outcome: FetchOutcome)
      returns (result: Option<Error>)
      modifies this
      ensures var end := Alone(expired, Solo(now, old(lock), old(cache)), w, outcome);
              && cache == end.cache && lock == end.lock
              && At(end, w, Returned(result))
      ensures AloneLeaves(old(lock).Free? || expired(old(lock).deadline, now), old(lock), old(cache), outcome,
                          result, lock, cache)
    {
      if cache.Some? {
        return None;
      }
      var acquired := TryLock(expired, now, w);
      if acquired {
        match outcome {
          case Info(info) =>
            cache := Some(info);
            result := None;
          case Failed(error) =>
            result := Some(error);
        }
        lock := Free; // the guard is dropped on both paths
      } else {
        result := None;
      }
    }
  }
}
