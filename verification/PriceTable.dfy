/** The bounded price vector and the average computed over it. */
module PriceTable {
  import opened Bounded
  import opened Wrappers

  const MAX_LEN: nat := 64

  /** The largest bound on prices under which 64 of them can be added up in a u32. */
  const SAFE_PRICE: nat := 67_108_863

  /** The slot a price overwrites in a full vector. */
  function Slot(price: nat): (slot: nat)
    ensures slot < MAX_LEN
  {
    price % 64
  }

  /** The vector after one submission. */
  function Add(prices: seq<u32>, price: u32): seq<u32> {
    if |prices| < MAX_LEN then prices + [price] else prices[Slot(price) := price]
  }

  /** The vector after a whole history of submissions, oldest first. */
  function Replay(history: seq<u32>): seq<u32> {
    if history == [] then [] else Add(Replay(history[..|history| - 1]), history[|history| - 1])
  }

  /** The iterator fold with saturating addition. */
  function Fold(acc: u32, prices: seq<u32>): u32
    decreases |prices|
  {
    if prices == [] then acc else Fold(SaturatingAddU32(acc, prices[0]), prices[1..])
  }

  /** The divisor is the length as a u32; a vector in memory is never that long. */
  function Average(prices: seq<u32>): Option<u32> {
    if prices == [] then None else Some(Fold(0, prices) / |prices|)
  }

  // ---------------------------------------------------------------------
  // What the vector holds
  // ---------------------------------------------------------------------

  /** Slot i holds the last submission after the first 64 that is congruent to i, or the
      i-th submission when there is none. Says nothing about how the vector is computed. */
  ghost predicate SlotHolds(history: seq<u32>, i: nat, price: u32) {
    || (exists k: nat :: LastFor(history, i, k) && price == history[k])
    || (i < |history| && price == history[i] && NoneFor(history, i, MAX_LEN))
  }

  ghost predicate LastFor(history: seq<u32>, i: nat, k: nat) {
    MAX_LEN <= k < |history| && history[k] % 64 == i && NoneFor(history, i, k + 1)
  }

  ghost predicate NoneFor(history: seq<u32>, i: nat, from: nat) {
    forall m :: from <= m < |history| ==> history[m] % 64 != i
  }

  lemma {:induction false} TableRefinesHistory(history: seq<u32>)
    ensures |Replay(history)| == Min(|history|, MAX_LEN)
    ensures forall i :: 0 <= i < |Replay(history)| ==> SlotHolds(history, i, Replay(history)[i])
  {
    if history != [] {
      var n := |history| - 1;
      var before, price := history[..n], history[n];
      TableRefinesHistory(before);
      forall i | 0 <= i < |Replay(history)|
        ensures SlotHolds(history, i, Replay(history)[i])
      {
        SlotAfterOneMore(before, price, i);
        assert history == before + [price];
      }
    }
  }

  /** One more submission keeps the description of every slot true. */
  lemma SlotAfterOneMore(before: seq<u32>, price: u32, i: nat)
    requires |Replay(before)| == Min(|before|, MAX_LEN)
    requires forall j :: 0 <= j < |Replay(before)| ==> SlotHolds(before, j, Replay(before)[j])
    requires i < |Add(Replay(before), price)|
    ensures SlotHolds(before + [price], i, Add(Replay(before), price)[i])
  {
    var history := before + [price];
    var n := |before|;
    var table := Replay(before);
    if n < MAX_LEN {
      if i < n {
        assert SlotHolds(before, i, table[i]);
      }
      assert Add(table, price)[i] == history[i];
      assert NoneFor(history, i, MAX_LEN);
    } else if Slot(price) == i {
      assert LastFor(history, i, n);
    } else {
      assert SlotHolds(before, i, table[i]);
      if k: nat :| LastFor(before, i, k) && table[i] == before[k] {
        assert LastFor(history, i, k);
      }
    }
  }

  lemma LastIsStored(prices: seq<u32>, price: u32)
    requires |prices| <= MAX_LEN
    ensures price in Add(prices, price)
  {
    var after := Add(prices, price);
    assert after[if |prices| < MAX_LEN then |prices| else Slot(price)] == price;
  }

  /** Every stored price was submitted. */
  lemma StoredWasSubmitted(history: seq<u32>, price: u32)
    requires price in Replay(history)
    ensures price in history
  {
    TableRefinesHistory(history);
    var i :| 0 <= i < |Replay(history)| && Replay(history)[i] == price;
    assert SlotHolds(history, i, price);
  }

  // ---------------------------------------------------------------------
  // The overview promises the last 64 values; the vector does not keep them
  // ---------------------------------------------------------------------

  ghost function LastSixtyFour(history: seq<u32>): seq<u32> {
    if |history| <= MAX_LEN then history else history[|history| - MAX_LEN..]
  }

  ghost predicate HoldsLastSixtyFour(history: seq<u32>) {
    multiset(Replay(history)) == multiset(LastSixtyFour(history))
  }

  /** While the vector is not full nothing is lost. */
  lemma {:induction false} ShortHistoryIsKept(history: seq<u32>)
    requires |history| <= MAX_LEN
    ensures Replay(history) == history
  {
    if history != [] {
      var n := |history| - 1;
      ShortHistoryIsKept(history[..n]);
      assert history == history[..n] + [history[n]];
    }
  }

  lemma OverwriteMultiset(table: seq<u32>, slot: nat, price: u32)
    requires slot < |table|
    ensures multiset(table[slot := price]) == multiset(table) - multiset{table[slot]} + multiset{price}
  {
    var head, tail := table[..slot], table[slot + 1..];
    assert table == head + [table[slot]] + tail;
    assert table[slot := price] == head + [price] + tail;
  }

  /** Overwriting a slot follows a sliding window only if the slot holds the oldest element. */
  lemma WindowSwap(table: seq<u32>, window: seq<u32>, slot: nat, price: u32)
    requires |window| > 0 && multiset(table) == multiset(window) && slot < |table|
    ensures multiset(table[slot := price]) == multiset(window[1..] + [price]) <==> table[slot] == window[0]
  {
    var oldest, evicted := window[0], table[slot];
    var common := multiset(window[1..]);
    assert window == [oldest] + window[1..];
    assert multiset(table) == common + multiset{oldest};
    OverwriteMultiset(table, slot, price);
    var after := multiset(table) - multiset{evicted} + multiset{price};
    assert multiset(window[1..] + [price]) == common + multiset{price};
    if evicted != oldest {
      assert after[oldest] == (common + multiset{price})[oldest] + 1;
    }
  }

  /** A full vector that holds the last 64 submissions still does after one more exactly
      when the slot picked by `price % 64` holds the oldest of them. */
  lemma WindowStepExact(history: seq<u32>, price: u32)
    requires |history| >= MAX_LEN && HoldsLastSixtyFour(history)
    ensures |Replay(history)| == MAX_LEN
    ensures HoldsLastSixtyFour(history + [price])
       <==> Replay(history)[Slot(price)] == history[|history| - MAX_LEN]
  {
    TableRefinesHistory(history);
    var after, window := history + [price], LastSixtyFour(history);
    assert after[..|history|] == history;
    assert LastSixtyFour(after) == window[1..] + [price];
    WindowSwap(Replay(history), window, Slot(price), price);
  }

  /** The promise at one moment of a history. */
  ghost predicate HeldAt(history: seq<u32>, n: nat)
    requires n <= |history|
  {
    HoldsLastSixtyFour(history[..n])
  }

  /** The k-th price falls in the slot of the price submitted 64 before it: that one is the last
      since the 64th in its class modulo 64, or was put there first. A statement about the
      prices alone. */
  ghost predicate FollowsOldest(history: seq<u32>, k: nat)
    requires MAX_LEN <= k < |history|
  {
    SlotHolds(history[..k], Slot(history[k]), history[k - MAX_LEN])
  }

  lemma SlotIsUnique(history: seq<u32>, i: nat, a: u32, b: u32)
    requires SlotHolds(history, i, a) && SlotHolds(history, i, b)
    ensures a == b
  {
  }

  /** The slot descriptions determine the table. */
  lemma SlotValueIff(history: seq<u32>, i: nat, price: u32)
    requires i < Min(|history|, MAX_LEN)
    ensures |Replay(history)| == Min(|history|, MAX_LEN)
    ensures Replay(history)[i] == price <==> SlotHolds(history, i, price)
  {
    TableRefinesHistory(history);
    assert SlotHolds(history, i, Replay(history)[i]);
    if SlotHolds(history, i, price) {
      SlotIsUnique(history, i, Replay(history)[i], price);
    }
  }

  /** 0, then 63 ones, then another 1: the ones evict each other and the 0 stays forever. */
  lemma LastSixtyFourIsNotKept()
    ensures var history := [0] + seq(64, i => 1);
            && !HoldsLastSixtyFour(history)
            && 0 in Replay(history) && 0 !in LastSixtyFour(history)
  {
    var full: seq<u32> := [0] + seq(63, i => 1);
    ShortHistoryIsKept(full);
    var history := [0] + seq(64, i => 1);
    assert history == full + [1];
    assert history[..64] == full;
    assert Replay(history) == full[1 := 1];
    assert Replay(history)[0] == 0;
    assert 0 in multiset(Replay(history));
    assert 0 !in LastSixtyFour(history);
    assert 0 !in multiset(LastSixtyFour(history));
  }

  // ---------------------------------------------------------------------
  // The saturating fold
  // ---------------------------------------------------------------------

  /** The sum the fold approximates. */
  ghost function Sum(prices: seq<u32>): nat {
    if prices == [] then 0 else prices[0] + Sum(prices[1..])
  }

  lemma {:induction false} FoldIsCappedSum(acc: u32, prices: seq<u32>)
    ensures Fold(acc, prices) == Min(acc + Sum(prices), MAX_U32)
    decreases |prices|
  {
    if prices != [] {
      FoldIsCappedSum(SaturatingAddU32(acc, prices[0]), prices[1..]);
    }
  }

  lemma {:induction false} SumAppend(a: seq<u32>, b: seq<u32>)
    ensures Sum(a + b) == Sum(a) + Sum(b)
  {
    if a == [] {
      assert a + b == b;
    } else {
      assert (a + b)[1..] == a[1..] + b;
      SumAppend(a[1..], b);
    }
  }

  lemma SumAround(prices: seq<u32>, i: nat)
    requires i < |prices|
    ensures Sum(prices) == Sum(prices[..i]) + prices[i] + Sum(prices[i + 1..])
  {
    assert prices == prices[..i] + prices[i..];
    SumAppend(prices[..i], prices[i..]);
  }

  lemma Remove(prices: seq<u32>, i: nat)
    requires i < |prices|
    ensures var rest := prices[..i] + prices[i + 1..];
            && multiset(rest) == multiset(prices) - multiset{prices[i]}
            && Sum(prices) == prices[i] + Sum(rest)
  {
    assert prices == prices[..i] + [prices[i]] + prices[i + 1..];
    SumAround(prices, i);
    SumAppend(prices[..i], prices[i + 1..]);
  }

  lemma {:induction false} SumOrderFree(a: seq<u32>, b: seq<u32>)
    requires multiset(a) == multiset(b)
    ensures Sum(a) == Sum(b)
    decreases |a|
  {
    if a == [] {
      assert b == [] by { assert |b| == |multiset(b)| == 0; }
    } else {
      var i := IndexIn(a[0], b) by { assert a[0] in multiset(a); }
      Remove(a, 0);
      Remove(b, i);
      SumOrderFree(a[..0] + a[1..], b[..i] + b[i + 1..]);
    }
  }

  lemma IndexIn(price: u32, prices: seq<u32>) returns (i: nat)
    requires price in multiset(prices)
    ensures i < |prices| && prices[i] == price
  {
    assert price in prices;
    i :| 0 <= i < |prices| && prices[i] == price;
  }

  /** The fold is the true sum capped at u32::MAX, whatever the order of the vector. */
  lemma FoldExactAndOrderFree(prices: seq<u32>, permuted: seq<u32>)
    requires multiset(prices) == multiset(permuted)
    ensures Fold(0, permuted) == Min(Sum(prices), MAX_U32)
  {
    SumOrderFree(prices, permuted);
    FoldIsCappedSum(0, permuted);
  }

  // ---------------------------------------------------------------------
  // The average
  // ---------------------------------------------------------------------

  lemma CappedMean(sum: nat, n: nat)
    requires n > 0
    ensures Min(sum, MAX_U32) / n == sum / n <==> sum / n <= MAX_U32 / n
  {
    if sum <= MAX_U32 {
      DivAtLeast(MAX_U32, n, sum / n);
    } else {
      DivAtLeast(sum, n, MAX_U32 / n);
    }
  }

  /** The average is the exact floor mean exactly when that mean fits under u32::MAX / n. */
  lemma AverageExactIff(prices: seq<u32>)
    requires prices != []
    ensures Average(prices) == Some(Sum(prices) / |prices|)
       <==> Sum(prices) / |prices| <= MAX_U32 / |prices|
  {
    FoldIsCappedSum(0, prices);
    CappedMean(Sum(prices), |prices|);
  }

  lemma {:induction false} SumBounds(prices: seq<u32>, low: nat, high: nat)
    requires forall k :: 0 <= k < |prices| ==> low <= prices[k] <= high
    ensures |prices| * low <= Sum(prices) <= |prices| * high
  {
    if prices != [] {
      SumBounds(prices[1..], low, high);
      assert |prices| * low == |prices[1..]| * low + low;
      assert |prices| * high == |prices[1..]| * high + high;
    }
  }

  /** Bounded prices never saturate the fold, and the exact mean lies between any bounds on
      the stored prices, in particular between the least and the greatest of them. */
  lemma SafePricesAverageExactly(prices: seq<u32>, low: nat, high: nat)
    requires 0 < |prices| <= MAX_LEN && high <= SAFE_PRICE
    requires forall k :: 0 <= k < |prices| ==> low <= prices[k] <= high
    ensures Fold(0, prices) == Sum(prices)
    ensures Average(prices) == Some(Sum(prices) / |prices|)
    ensures low <= Average(prices).value <= high
  {
    var n, sum := |prices|, Sum(prices);
    SumBounds(prices, low, high);
    MulMonotone(high, n, MAX_LEN);
    FoldIsCappedSum(0, prices);
    DivAtLeast(sum, n, low);
    DivAtMost(sum, n, high);
  }

  /** 67,108,863 is the largest price bound under which every full or partial table averages
      exactly. */
  lemma SafePriceIsTight(bound: u32)
    ensures (forall prices: seq<u32> | BoundedTable(prices, bound) ::
               Average(prices) == Some(Sum(prices) / |prices|))
       <==> bound <= SAFE_PRICE
  {
    if bound <= SAFE_PRICE {
      forall prices: seq<u32> | BoundedTable(prices, bound)
        ensures Average(prices) == Some(Sum(prices) / |prices|)
      {
        SafePricesAverageExactly(prices, 0, bound);
      }
    } else {
      var prices: seq<u32> := seq(MAX_LEN, i => bound);
      assert BoundedTable(prices, bound);
      SumBounds(prices, bound, bound);
      AverageExactIff(prices);
    }
  }

  ghost predicate BoundedTable(prices: seq<u32>, bound: u32) {
    0 < |prices| <= MAX_LEN && forall k :: 0 <= k < |prices| ==> prices[k] <= bound
  }

  /** Overwriting a slot of a full table moves the average by at most the 64th part of the
      change, rounded up; saturation does not weaken the bound. */
  lemma OverwriteMovesAverageLittle(prices: seq<u32>, price: u32)
    requires |prices| == MAX_LEN
    ensures var evicted := prices[Slot(price)];
            Distance(Average(prices).value, Average(Add(prices, price)).value)
            <= (Distance(evicted, price) + MAX_LEN - 1) / MAX_LEN
  {
    var i := Slot(price);
    var after := Add(prices, price);
    SumAround(prices, i);
    SumAround(after, i);
    assert after[..i] == prices[..i] && after[i + 1..] == prices[i + 1..];
    FoldIsCappedSum(0, prices);
    FoldIsCappedSum(0, after);
  }

  /** The arithmetic of appending, with the old average named. */
  lemma BetweenIff(capped: nat, total: nat, n: nat, price: nat, before: nat)
    requires n * before <= capped < n * before + n
    requires total == Min(capped + price, MAX_U32)
    ensures Min(before, price) <= total / (n + 1) <= Max(before, price)
       <==> (n + 1) * Min(before, price) <= MAX_U32
  {
    var low, high := Min(before, price), Max(before, price);
    MulSuccessor(low, n);
    MulSuccessor(high, n);
    MulMonotone(n, low, before);
    MulMonotone(n, before, high);
    DivAtMost(total, n + 1, high);
    if (n + 1) * low <= MAX_U32 {
      DivAtLeast(total, n + 1, low);
    } else if low <= total / (n + 1) {
      MulMonotone(n + 1, low, total / (n + 1));
      DivTimes(total, n + 1);
    }
  }

  lemma AppendedMean(sum: nat, n: nat, price: u32)
    requires n > 0
    ensures var before := Min(sum, MAX_U32) / n;
            var after := Min(sum + price, MAX_U32) / (n + 1);
            (Min(before, price) <= after <= Max(before, price)
             <==> (n + 1) * Min(before, price) <= MAX_U32)
  {
    var capped, total := Min(sum, MAX_U32), Min(sum + price, MAX_U32);
    DivTimes(capped, n);
    BetweenIff(capped, total, n, price, capped / n);
  }

  /** Appending a price to a table of n prices leaves the average between the old average and
      the new price exactly when (n + 1) times the smaller of the two fits in a u32; no table
      is excluded, saturated or not. */
  lemma AppendKeepsAverageBetweenIff(prices: seq<u32>, price: u32)
    requires 0 < |prices| < MAX_LEN
    ensures var before, after := Average(prices).value, Average(Add(prices, price)).value;
            (Min(before, price) <= after <= Max(before, price)
             <==> (|prices| + 1) * Min(before, price) <= MAX_U32)
  {
    FoldIsCappedSum(0, prices);
    FoldIsCappedSum(0, prices + [price]);
    SumAppend(prices, [price]);
    AppendedMean(Sum(prices), |prices|, price);
  }
}
