/** The ten-element window of submitted numbers. */
module NumberWindow {
  import opened Bounded
  import opened Wrappers

  const NUM_VEC_LEN: nat := 10

  type AccountId = nat
  type Signature = seq<bv8>

  datatype Payload = Payload(number: u64, public: nat)

  datatype Origin = Root | Signed(who: AccountId) | Unsigned

  datatype Call =
    | SubmitNumberSigned(number: u64)
    | SubmitNumberUnsigned(number: u64)
    | SubmitNumberUnsignedWithSignedPayload(payload: Payload, signature: Signature)

  datatype Event = NewNumber(who: Option<AccountId>, number: u64)

  datatype DispatchResult = Ok | BadOrigin

  datatype Storage = Storage(numbers: seq<u64>, events: seq<Event>)

  function Push(numbers: seq<u64>, number: u64): seq<u64> {
    (if |numbers| == NUM_VEC_LEN then numbers[1..] else numbers) + [number]
  }

  function NumberOf(call: Call): u64 {
    match call
    case SubmitNumberSigned(number) => number
    case SubmitNumberUnsigned(number) => number
    case SubmitNumberUnsignedWithSignedPayload(payload, _) => payload.number
  }

  /** The origin each dispatchable asks for. */
  predicate OriginFits(origin: Origin, call: Call) {
    if call.SubmitNumberSigned? then origin.Signed? else origin.Unsigned?
  }

  function Dispatch(s: Storage, origin: Origin, call: Call): Storage {
    if !OriginFits(origin, call) then s
    else
      var who := if origin.Signed? then Some(origin.who) else None;
      Storage(Push(s.numbers, NumberOf(call)), s.events + [NewNumber(who, NumberOf(call))])
  }

  function Run(s: Storage, calls: seq<(Origin, Call)>): Storage {
    if calls == [] then s
    else
      var n := |calls| - 1;
      Dispatch(Run(s, calls[..n]), calls[n].0, calls[n].1)
  }

  // ---------------------------------------------------------------------
  // What the calls promise, read off their own arguments
  // ---------------------------------------------------------------------

  /** A signed origin signs for its number, an unsigned one submits without a name; anything
      else is refused. */
  function Announcement(origin: Origin, call: Call): Option<Event> {
    match (origin, call)
    case (Signed(who), SubmitNumberSigned(number)) => Some(NewNumber(Some(who), number))
    case (Unsigned, SubmitNumberUnsigned(number)) => Some(NewNumber(None, number))
    case (Unsigned, SubmitNumberUnsignedWithSignedPayload(payload, _)) => Some(NewNumber(None, payload.number))
    case _ => None
  }

  /** The events the accepted calls of a history deposit, in order. */
  function Announcements(calls: seq<(Origin, Call)>): seq<Event> {
    if calls == [] then []
    else
      var n := |calls| - 1;
      match Announcement(calls[n].0, calls[n].1)
      case Some(event) => Announcements(calls[..n]) + [event]
      case None => Announcements(calls[..n])
  }

  function Numbers(events: seq<Event>): seq<u64> {
    seq(|events|, i requires 0 <= i < |events| => events[i].number)
  }

  function LastTen(numbers: seq<u64>): seq<u64> {
    if |numbers| <= 10 then numbers else numbers[|numbers| - 10..]
  }

  /** The number is the last of the vector, behind what was there before, which loses its head
      exactly when it held ten; and the event is the last one. */
  ghost predicate Records(before: Storage, after: Storage, event: Event) {
    && after.numbers != [] && after.numbers[|after.numbers| - 1] == event.number
    && after.numbers[..|after.numbers| - 1] == (if |before.numbers| == 10 then before.numbers[1..] else before.numbers)
    && after.events == before.events + [event]
  }

  /** Each of the three dispatchables records its own argument and its own signer. */
  lemma CallsAreRecorded(s: Storage, who: AccountId, number: u64, payload: Payload, signature: Signature)
    ensures Records(s, Dispatch(s, Signed(who), SubmitNumberSigned(number)), NewNumber(Some(who), number))
    ensures Records(s, Dispatch(s, Unsigned, SubmitNumberUnsigned(number)), NewNumber(None, number))
    ensures Records(s, Dispatch(s, Unsigned, SubmitNumberUnsignedWithSignedPayload(payload, signature)),
                    NewNumber(None, payload.number))
  {
  }

  /** So does any call whatever, or it is refused and changes nothing. */
  lemma DispatchRecords(s: Storage, origin: Origin, call: Call)
    ensures match Announcement(origin, call)
            case Some(event) => Records(s, Dispatch(s, origin, call), event)
            case None => Dispatch(s, origin, call) == s
  {
  }

  // ---------------------------------------------------------------------
  // Whole histories
  // ---------------------------------------------------------------------

  /** The storage after some events were added to it. */
  ghost predicate Follows(now: Storage, before: Storage, added: seq<Event>) {
    && now.numbers == (if |before.numbers| <= 10 then LastTen(before.numbers + Numbers(added))
                       else before.numbers + Numbers(added))
    && now.events == before.events + added
  }

  lemma NumbersOneMore(events: seq<Event>, event: Event)
    ensures Numbers(events + [event]) == Numbers(events) + [event.number]
  {
  }

  lemma RecordSlides(history: seq<u64>, before: Storage, after: Storage, event: Event)
    requires Records(before, after, event)
    ensures before.numbers == LastTen(history) ==> after.numbers == LastTen(history + [event.number])
    ensures before.numbers == history && |history| > 10 ==> after.numbers == history + [event.number]
  {
    assert after.numbers == after.numbers[..|after.numbers| - 1] + [event.number];
  }

  lemma RecordFollows(now: Storage, before: Storage, added: seq<Event>, after: Storage, event: Event)
    requires Follows(now, before, added) && Records(now, after, event)
    ensures Follows(after, before, added + [event])
  {
    hide LastTen, Numbers;
    var history := before.numbers + Numbers(added);
    RecordSlides(history, now, after, event);
    NumbersOneMore(added, event);
    assert before.numbers + (Numbers(added) + [event.number]) == history + [event.number];
    assert after.events == before.events + (added + [event]);
    assert |before.numbers| > 10 ==> |history| > 10;
  }

  /** From any window the vector becomes the last ten of what it held and what was submitted;
      a vector already longer than ten is never cut back, because only the exact length ten
      makes room. The events announce every submission under its signer. */
  lemma {:induction false} WindowOfHistory(s: Storage, calls: seq<(Origin, Call)>)
    ensures Follows(Run(s, calls), s, Announcements(calls))
  {
    if calls == [] {
      assert s.numbers + Numbers([]) == s.numbers;
      assert s.events + [] == s.events;
    } else {
      var n := |calls| - 1;
      var before := Run(s, calls[..n]);
      WindowOfHistory(s, calls[..n]);
      DispatchRecords(before, calls[n].0, calls[n].1);
      match Announcement(calls[n].0, calls[n].1) {
        case Some(event) => RecordFollows(before, s, Announcements(calls[..n]), Run(s, calls), event);
        case None =>
      }
    }
  }

  /** In every reachable state the events are those of the accepted calls, and the vector is the
      last ten numbers they submitted, in order. */
  lemma SlidingWindow(calls: seq<(Origin, Call)>)
    ensures Run(Storage([], []), calls).events == Announcements(calls)
    ensures Run(Storage([], []), calls).numbers == LastTen(Numbers(Announcements(calls)))
    ensures |Run(Storage([], []), calls).numbers| == Min(|Announcements(calls)|, 10)
  {
    WindowOfHistory(Storage([], []), calls);
    assert [] + Numbers(Announcements(calls)) == Numbers(Announcements(calls));
  }

  /** The test for exactly ten elements bounds the vector for good if and only if it starts
      with at most ten. */
  lemma BoundedExactly(s: Storage)
    ensures (forall calls: seq<(Origin, Call)> :: |Run(s, calls).numbers| <= 10)
       <==> |s.numbers| <= 10
  {
    if |s.numbers| <= 10 {
      forall calls: seq<(Origin, Call)>
        ensures |Run(s, calls).numbers| <= 10
      {
        WindowOfHistory(s, calls);
      }
    } else {
      assert |Run(s, []).numbers| > 10;
    }
  }

  class Pallet {
    var numbers: seq<u64>
    var events: seq<Event>

    function State(): Storage
      reads this
    {
      Storage(numbers, events)
    }

    constructor ()
      ensures State() == Storage([], [])
    {
      numbers, events := [], [];
    }

    method AppendOrReplaceNumber(number: u64)
      modifies this`numbers
      ensures numbers == Push(old(numbers), number)
    {
      if |numbers| == NUM_VEC_LEN {
        numbers := numbers[1..];
      }
      numbers := numbers + [number];
    }

    method SubmitNumberSigned(origin: Origin, number: u64) returns (result: DispatchResult)
      modifies this
      ensures State() == Dispatch(old(State()), origin, Call.SubmitNumberSigned(number))
      ensures result == BadOrigin <==> !origin.Signed?
      ensures if origin.Signed? then Records(old(State()), State(), NewNumber(Some(origin.who), number))
              else State() == old(State())
    {
      if !origin.Signed? {
        return BadOrigin;
      }
      AppendOrReplaceNumber(number);
      events := events + [NewNumber(Some(origin.who), number)];
      result := Ok;
    }

    method SubmitNumberUnsigned(origin: Origin, number: u64) returns (result: DispatchResult)
      modifies this
      ensures State() == Dispatch(old(State()), origin, Call.SubmitNumberUnsigned(number))
      ensures result == BadOrigin <==> !origin.Unsigned?
      ensures if origin.Unsigned? then Records(old(State()), State(), NewNumber(None, number))
              else State() == old(State())
    {
      if !origin.Unsigned? {
        return BadOrigin;
      }
      AppendOrReplaceNumber(number);
      events := events + [NewNumber(None, number)];
      result := Ok;
    }

    method SubmitNumberUnsignedWithSignedPayload(origin: Origin, payload: Payload, signature: Signature)
      returns (result: DispatchResult)
      modifies this
      ensures State() == Dispatch(old(State()), origin, Call.SubmitNumberUnsignedWithSignedPayload(payload, signature))
      ensures result == BadOrigin <==> !origin.Unsigned?
      ensures if origin.Unsigned? then Records(old(State()), State(), NewNumber(None, payload.number))
              else State() == old(State())
    {
      if !origin.Unsigned? {
        return BadOrigin;
      }
      AppendOrReplaceNumber(payload.number);
      events := events + [NewNumber(None, payload.number)];
      result := Ok;
    }
  }
}
