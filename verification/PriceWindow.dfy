/** When the bounded price vector keeps the last 64 submissions, over whole histories. */
module PriceWindow {
  import opened Bounded
  import opened PriceTable

  /** The promise of the overview, at every moment of a history. */
  ghost predicate AlwaysLastSixtyFour(history: seq<u32>) {
    forall n :: 0 <= n <= |history| ==> HeldAt(history, n)
  }

  ghost predicate AlwaysFollows(history: seq<u32>) {
    forall k :: MAX_LEN <= k < |history| ==> FollowsOldest(history, k)
  }

  /** One more submission keeps the promise exactly when its price follows the oldest. */
  lemma PrefixStepExact(history: seq<u32>, k: nat)
    requires MAX_LEN <= k < |history| && HeldAt(history, k)
    ensures HeldAt(history, k + 1) <==> FollowsOldest(history, k)
  {
    hide HoldsLastSixtyFour, SlotHolds, Replay;
    var before, price := history[..k], history[k];
    assert before + [price] == history[..k + 1];
    WindowStepExact(before, price);
    SlotValueIff(before, Slot(price), history[k - MAX_LEN]);
  }

  lemma ShortPrefixHeld(history: seq<u32>, n: nat)
    requires n <= MAX_LEN && n <= |history|
    ensures HeldAt(history, n)
  {
    ShortHistoryIsKept(history[..n]);
  }

  lemma {:induction false} FollowingKeepsPrefix(history: seq<u32>, n: nat)
    requires n <= |history| && AlwaysFollows(history)
    ensures HeldAt(history, n)
  {
    hide HeldAt, FollowsOldest;
    if n <= MAX_LEN {
      ShortPrefixHeld(history, n);
    } else {
      FollowingKeepsPrefix(history, n - 1);
      PrefixStepExact(history, n - 1);
    }
  }

  /** Every prefix of a history is held as its last 64 prices if and only if every price from
      the 65th on falls in the slot of the one submitted 64 before it. */
  lemma AlwaysLastSixtyFourIff(history: seq<u32>)
    ensures AlwaysLastSixtyFour(history) <==> AlwaysFollows(history)
  {
    hide HeldAt, FollowsOldest;
    if AlwaysLastSixtyFour(history) {
      forall k | MAX_LEN <= k < |history|
        ensures FollowsOldest(history, k)
      {
        PrefixStepExact(history, k);
      }
    }
    if AlwaysFollows(history) {
      forall n | 0 <= n <= |history|
        ensures HeldAt(history, n)
      {
        FollowingKeepsPrefix(history, n);
      }
    }
  }

  /** When no price repeats, that means the prices come round robin: the k-th one is congruent
      to k modulo 64. */
  lemma DistinctPricesKeptIff(history: seq<u32>)
    requires forall i, j :: 0 <= i < j < |history| ==> history[i] != history[j]
    ensures AlwaysLastSixtyFour(history) <==> RoundRobin(history, |history|)
  {
    AlwaysLastSixtyFourIff(history);
    if RoundRobin(history, |history|) {
      forall k | MAX_LEN <= k < |history|
        ensures FollowsOldest(history, k)
      {
        RoundRobinFollows(history, k);
      }
    }
    if AlwaysFollows(history) {
      FollowingIsRoundRobin(history, |history|);
    }
  }

  ghost predicate RoundRobin(history: seq<u32>, n: nat)
    requires n <= |history|
  {
    forall k :: MAX_LEN <= k < n ==> history[k] % 64 == k % 64
  }

  lemma SlotsOfWindow(k: nat)
    requires k >= MAX_LEN
    ensures Slot(k - MAX_LEN) == Slot(k)
    ensures k < 2 * MAX_LEN ==> Slot(k) == k - MAX_LEN
    ensures forall m :: k - MAX_LEN < m < k ==> Slot(m) != Slot(k)
  {
    assert (k - 64) % 64 == k % 64;
    assert forall m :: k - 64 < m < k ==> m % 64 != k % 64;
  }

  lemma RoundRobinFollows(history: seq<u32>, k: nat)
    requires MAX_LEN <= k < |history| && RoundRobin(history, |history|)
    ensures FollowsOldest(history, k)
  {
    SlotsOfWindow(k);
    var before, slot, oldest := history[..k], Slot(history[k]), k - MAX_LEN;
    if oldest >= MAX_LEN {
      assert LastFor(before, slot, oldest);
    } else {
      assert NoneFor(before, slot, MAX_LEN);
    }
  }

  lemma {:induction false} FollowingIsRoundRobin(history: seq<u32>, n: nat)
    requires forall i, j :: 0 <= i < j < |history| ==> history[i] != history[j]
    requires n <= |history| && forall k :: MAX_LEN <= k < n ==> FollowsOldest(history, k)
    ensures RoundRobin(history, n)
  {
    if n > MAX_LEN {
      var k := n - 1;
      FollowingIsRoundRobin(history, k);
      SlotsOfWindow(k);
      assert FollowsOldest(history, k);
      var before, slot := history[..k], Slot(history[k]);
      if m: nat :| LastFor(before, slot, m) && history[k - MAX_LEN] == before[m] {
        assert m == k - MAX_LEN;
      }
    }
  }
}
