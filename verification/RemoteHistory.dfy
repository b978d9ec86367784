/** What the cache holds and what each worker returns, read off the steps of a run. */
module RemoteHistory {
  import opened RemoteCache
  import opened RemoteRuns
  import opened Wrappers

  predicate IsFetching(s: State, w: WorkerId) {
    w in s.workers && s.workers[w].Fetching?
  }

  /** The info worker w got from the network while it held the guard and has not stored yet. */
  function Carried(expired: Expiry, s: State, steps: seq<Step>, w: WorkerId): Option<HackerNewsInfo> {
    if steps == [] then None
    else
      var k := |steps| - 1;
      var earlier := Carried(expired, s, steps[..k], w);
      match steps[k]
      case FetchOk(v, info) => if v == w && IsFetching(Run(expired, s, steps[..k]), w) then Some(info) else earlier
      case SetCache(v) => if v == w then None else earlier
      case _ => earlier
  }

  /** The info stored last. */
  function Stored(expired: Expiry, s: State, steps: seq<Step>): Option<HackerNewsInfo> {
    if steps == [] then s.cache
    else
      var k := |steps| - 1;
      var earlier := Stored(expired, s, steps[..k]);
      match steps[k]
      case SetCache(w) =>
        var info := Carried(expired, s, steps[..k], w);
        if info.Some? then info else earlier
      case _ => earlier
  }

  /** The error worker w got instead. */
  function Failure(expired: Expiry, s: State, steps: seq<Step>, w: WorkerId): Option<Error> {
    if steps == [] then None
    else
      var k := |steps| - 1;
      var earlier := Failure(expired, s, steps[..k], w);
      match steps[k]
      case FetchErr(v, error) => if v == w && IsFetching(Run(expired, s, steps[..k]), w) then Some(error) else earlier
      case _ => earlier
  }

  /** The phase of a worker tells what it carries and how it failed. */
  predicate Tells(s: State, w: WorkerId, carried: Option<HackerNewsInfo>, failure: Option<Error>) {
    && carried == (if w in s.workers && s.workers[w].Fetched? then Some(s.workers[w].info) else None)
    && failure == (if w in s.workers && (s.workers[w].Leaving? || s.workers[w].Returned?) then s.workers[w].result
                   else None)
  }

  lemma {:induction false} PhaseTells(expired: Expiry, s: State, steps: seq<Step>, w: WorkerId)
    requires s.workers == map[]
    ensures Tells(Run(expired, s, steps), w, Carried(expired, s, steps, w), Failure(expired, s, steps, w))
  {
    if steps != [] {
      PhaseTells(expired, s, steps[..|steps| - 1], w);
    }
  }

  /** In every run the cache holds the info of the last worker that fetched one and then stored
      it. A worker that returns an error had its fetch end in that error, and one whose fetch ended
      in an error leaves with it. */
  lemma {:induction false} CacheIsLastStored(expired: Expiry, s: State, steps: seq<Step>)
    requires s.workers == map[]
    ensures Run(expired, s, steps).cache == Stored(expired, s, steps)
    ensures forall w, error :: Returns(Run(expired, s, steps), w, Some(error)) ==>
                                 Failure(expired, s, steps, w) == Some(error)
    ensures forall w, error :: Failure(expired, s, steps, w) == Some(error) ==>
                                 Leaves(Run(expired, s, steps), w, Some(error))
  {
    forall w
      ensures Tells(Run(expired, s, steps), w, Carried(expired, s, steps, w), Failure(expired, s, steps, w))
    {
      PhaseTells(expired, s, steps, w);
    }
    if steps != [] {
      var k := |steps| - 1;
      CacheIsLastStored(expired, s, steps[..k]);
      if steps[k].SetCache? {
        PhaseTells(expired, s, steps[..k], steps[k].worker);
      }
    }
  }

  predicate Returns(s: State, w: WorkerId, result: Option<Error>) {
    w in s.workers && s.workers[w] == Returned(result)
  }

  /** On its way out with this result, or out already. */
  predicate Leaves(s: State, w: WorkerId, result: Option<Error>) {
    w in s.workers && (s.workers[w].Leaving? || s.workers[w].Returned?) && s.workers[w].result == result
  }

  // ---------------------------------------------------------------------
  // A stored info is stored for good
  // ---------------------------------------------------------------------

  /** A worker that fetched an info and stores it leaves exactly that in the cache. The cache is
      set ever after, and no worker that reads it from then on begins a fetch or fails. */
  lemma StoredForGood(expired: Expiry, s: State, w: WorkerId, steps: seq<Step>, reader: WorkerId)
    requires w in s.workers && s.workers[w].Fetched? && reader !in s.workers
    ensures var stored := Next(expired, s, SetCache(w));
            var t := Run(expired, stored, steps);
            && stored.cache == Some(s.workers[w].info)
            && t.cache.Some?
            && s.begun <= t.begun && reader !in t.begun[|s.begun|..]
            && (reader in t.workers ==> t.workers[reader] == Returned(None))
  {
    var stored := Next(expired, s, SetCache(w));
    FetchesAfterSet(expired, stored, steps);
    LateReaderReturns(expired, stored, steps, reader);
  }

  lemma {:induction false} LateReaderReturns(expired: Expiry, s: State, steps: seq<Step>, reader: WorkerId)
    requires s.cache.Some? && reader !in s.workers
    ensures var t := Run(expired, s, steps);
            t.cache.Some? && (reader in t.workers ==> t.workers[reader] == Returned(None))
  {
    if steps != [] {
      LateReaderReturns(expired, s, steps[..|steps| - 1], reader);
    }
  }

  /** And from a fresh start some run gets there, for any info. */
  lemma CacheCanBeFilled(expired: Expiry, start: Moment, info: HackerNewsInfo) returns (steps: seq<Step>)
    ensures var end := Run(expired, Solo(start, Free, None), steps);
            && end.cache == Some(info) && end.lock == Free
            && end.workers == map[1 := Returned(None)] && end.begun == [1]
  {
    var s := Solo(start, Free, None);
    var read := [ReadCache(1)];
    var locked := read + [TryLock(1)];
    var fetched := locked + [FetchOk(1, info)];
    var stored := fetched + [SetCache(1)];
    steps := stored + [DropGuard(1)];
    RunOne(expired, s, [], ReadCache(1));
    assert [] + read == read;
    RunOne(expired, s, read, TryLock(1));
    assert Run(expired, s, locked).workers == map[1 := Fetching(start)];
    RunOne(expired, s, locked, FetchOk(1, info));
    assert Run(expired, s, fetched).workers == map[1 := Fetched(start, info)];
    RunOne(expired, s, fetched, SetCache(1));
    RunOne(expired, s, stored, DropGuard(1));
  }
}
