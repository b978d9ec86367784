/** The on-chain part of the price oracle: its storage, its three dispatchables, the
    validation of unsigned calls, and the calls an off-chain worker sends. */
module Oracle {
  import opened Bounded
  import opened Wrappers
  import PriceTable

  type AccountId = nat
  type Public = nat
  type Signature = seq<bv8>

  /** The account recorded for a price that arrived without a signature. */
  const DEFAULT_ACCOUNT: AccountId := 0
  const TAG_PREFIX: string := "ExampleOffchainWorker"
  const LONGEVITY: u64 := 5

  datatype PricePayload = PricePayload(blockNumber: u32, price: u32, public: Public)

  /** The on-chain parameters, with signing and signature checking left abstract. The grace
      period is an argument of the lock in local storage. */
  datatype Config = Config(
    unsignedInterval: u32,
    unsignedPriority: u64,
    sign: PricePayload -> Signature,
    verify: (PricePayload, Signature) -> bool)

  datatype Origin = Root | Signed(who: AccountId) | Unsigned

  datatype Call =
    | SubmitPrice(price: u32)
    | SubmitPriceUnsigned(blockNumber: u32, price: u32)
    | SubmitPriceUnsignedWithSignedPayload(payload: PricePayload, signature: Signature)

  datatype Event = NewPrice(price: u32, who: AccountId)

  /** The storage the pallet reads and writes, with the block number of the system pallet. */
  datatype Chain = Chain(block: u32, nextUnsignedAt: u32, prices: seq<u32>, events: seq<Event>)

  const GENESIS: Chain := Chain(0, 0, [], [])

  datatype DispatchResult = Ok | BadOrigin

  datatype Outcome = Outcome(result: DispatchResult, chain: Chain)

  datatype InvalidTransaction = UnknownCall | BadProof | Stale | Future

  datatype Validity =
    | Valid(priority: u64, tag: (string, u32), longevity: u64, propagate: bool)
    | Invalid(reason: InvalidTransaction)

  // ---------------------------------------------------------------------
  // Dispatch
  // ---------------------------------------------------------------------

  function WithPrice(s: Chain, who: AccountId, price: u32): Chain {
    s.(prices := PriceTable.Add(s.prices, price), events := s.events + [NewPrice(price, who)])
  }

  /** Accepting an unsigned price closes admission for the next interval. */
  function WithUnsignedPrice(cfg: Config, s: Chain, price: u32): Chain {
    WithPrice(s, DEFAULT_ACCOUNT, price).(nextUnsignedAt := AddU32(s.block, cfg.unsignedInterval))
  }

  function Dispatch(cfg: Config, s: Chain, origin: Origin, call: Call): Outcome {
    match call
    case SubmitPrice(price) =>
      if origin.Signed? then Outcome(Ok, WithPrice(s, origin.who, price)) else Outcome(BadOrigin, s)
    case SubmitPriceUnsigned(_, price) =>
      if origin.Unsigned? then Outcome(Ok, WithUnsignedPrice(cfg, s, price)) else Outcome(BadOrigin, s)
    case SubmitPriceUnsignedWithSignedPayload(payload, _) =>
      if origin.Unsigned? then Outcome(Ok, WithUnsignedPrice(cfg, s, payload.price)) else Outcome(BadOrigin, s)
  }

  /** The price is in the table, appended or in slot price % 64, nothing else in it has changed,
      and the event names the price and the account. */
  ghost predicate Recorded(before: Chain, after: Chain, price: u32, who: AccountId) {
    && after.block == before.block
    && after.events == before.events + [NewPrice(price, who)]
    && (|before.prices| < 64 ==> after.prices == before.prices + [price])
    && (|before.prices| >= 64 ==>
          && |after.prices| == |before.prices|
          && forall k :: 0 <= k < |before.prices| ==>
               after.prices[k] == if k == price % 64 then price else before.prices[k])
  }

  /** Each of the three dispatchables records the price in its own argument, the signed one under
      its signer and the others under the default account; only those two close admission. */
  lemma CallsAreRecorded(cfg: Config, s: Chain, who: AccountId, blockNumber: u32, price: u32,
                         payload: PricePayload, signature: Signature)
    ensures var o := Dispatch(cfg, s, Signed(who), SubmitPrice(price));
            o.result == Ok && Recorded(s, o.chain, price, who) && o.chain.nextUnsignedAt == s.nextUnsignedAt
    ensures var o := Dispatch(cfg, s, Unsigned, SubmitPriceUnsigned(blockNumber, price));
            && o.result == Ok && Recorded(s, o.chain, price, 0)
            && o.chain.nextUnsignedAt == (s.block + cfg.unsignedInterval) % 0x1_0000_0000
    ensures var o := Dispatch(cfg, s, Unsigned, SubmitPriceUnsignedWithSignedPayload(payload, signature));
            && o.result == Ok && Recorded(s, o.chain, payload.price, 0)
            && o.chain.nextUnsignedAt == (s.block + cfg.unsignedInterval) % 0x1_0000_0000
  {
  }

  /** Signed prices need a signed origin, the others an unsigned one; with any other origin a
      call changes nothing. */
  lemma WrongOriginIsRefused(cfg: Config, s: Chain, origin: Origin, call: Call)
    ensures Dispatch(cfg, s, origin, call) == Outcome(BadOrigin, s)
       <==> !(if call.SubmitPrice? then origin.Signed? else origin.Unsigned?)
  {
  }

  // ---------------------------------------------------------------------
  // Validation of unsigned calls
  // ---------------------------------------------------------------------

  function ValidateParameters(cfg: Config, s: Chain, blockNumber: u32, price: u32): Validity {
    if s.nextUnsignedAt > blockNumber then
      Invalid(Stale)
    else if s.block < blockNumber then
      Invalid(Future)
    else
      Valid(SaturatingAddU64(cfg.unsignedPriority, DistanceFromAverage(s, price)),
            (TAG_PREFIX, s.nextUnsignedAt), LONGEVITY, true)
  }

  function DistanceFromAverage(s: Chain, price: u32): u32 {
    match PriceTable.Average(s.prices)
    case None => 0
    case Some(average) => if average > price then average - price else price - average
  }

  function ValidateUnsigned(cfg: Config, s: Chain, call: Call): Validity {
    match call
    case SubmitPrice(_) => Invalid(UnknownCall)
    case SubmitPriceUnsigned(blockNumber, price) => ValidateParameters(cfg, s, blockNumber, price)
    case SubmitPriceUnsignedWithSignedPayload(payload, signature) =>
      if !cfg.verify(payload, signature) then Invalid(BadProof)
      else ValidateParameters(cfg, s, payload.blockNumber, payload.price)
  }

  /** The block number an unsigned call carries. */
  function BlockArgument(call: Call): u32 {
    match call
    case SubmitPrice(_) => 0
    case SubmitPriceUnsigned(blockNumber, _) => blockNumber
    case SubmitPriceUnsignedWithSignedPayload(payload, _) => payload.blockNumber
  }

  function PriceOf(call: Call): u32 {
    match call
    case SubmitPrice(price) => price
    case SubmitPriceUnsigned(_, price) => price
    case SubmitPriceUnsignedWithSignedPayload(payload, _) => payload.price
  }

  /** An unsigned call that no signature check or call filter turns away. */
  predicate Genuine(cfg: Config, call: Call) {
    match call
    case SubmitPrice(_) => false
    case SubmitPriceUnsigned(_, _) => true
    case SubmitPriceUnsignedWithSignedPayload(payload, signature) => cfg.verify(payload, signature)
  }

  /** Admission in one line: a genuine call is valid exactly in the window of blocks from
      `NextUnsignedAt` to the current one, and its tag is the left end of that window. */
  lemma ValidExactlyInWindow(cfg: Config, s: Chain, call: Call)
    ensures var v := ValidateUnsigned(cfg, s, call);
            && (v.Valid? <==> Genuine(cfg, call) && s.nextUnsignedAt <= BlockArgument(call) <= s.block)
            && (v.Valid? ==> v.tag == ("ExampleOffchainWorker", s.nextUnsignedAt) && v.longevity == 5 && v.propagate
                             && v.priority >= cfg.unsignedPriority)
            && (v == Invalid(Stale) <==> Genuine(cfg, call) && BlockArgument(call) < s.nextUnsignedAt)
            && (v == Invalid(Future) <==> Genuine(cfg, call) && s.nextUnsignedAt <= BlockArgument(call)
                                          && s.block < BlockArgument(call))
  {
  }

  /** The same by the fields of each call, with the reason of every other refusal: signed prices
      are not for unsigned origins, and a payload needs a signature that verifies. */
  lemma RefusalReasons(cfg: Config, s: Chain, blockNumber: u32, price: u32, payload: PricePayload,
                       signature: Signature)
    ensures ValidateUnsigned(cfg, s, SubmitPrice(price)) == Invalid(UnknownCall)
    ensures ValidateUnsigned(cfg, s, SubmitPriceUnsigned(blockNumber, price)).Valid?
       <==> s.nextUnsignedAt <= blockNumber <= s.block
    ensures var v := ValidateUnsigned(cfg, s, SubmitPriceUnsignedWithSignedPayload(payload, signature));
            && (v == Invalid(BadProof) <==> !cfg.verify(payload, signature))
            && (v.Valid? <==> cfg.verify(payload, signature) && s.nextUnsignedAt <= payload.blockNumber <= s.block)
  {
  }

  /** The base priority, raised by how far the price is from the average, if there is one. */
  lemma PriorityExact(cfg: Config, s: Chain, blockNumber: u32, price: u32, payload: PricePayload,
                      signature: Signature)
    ensures var v := ValidateUnsigned(cfg, s, SubmitPriceUnsigned(blockNumber, price));
            v.Valid? ==> v.priority == PriorityFor(cfg, s.prices, price)
    ensures var v := ValidateUnsigned(cfg, s, SubmitPriceUnsignedWithSignedPayload(payload, signature));
            v.Valid? ==> v.priority == PriorityFor(cfg, s.prices, payload.price)
  {
    PriceTable.FoldIsCappedSum(0, s.prices);
  }

  /** In terms of the true sum of the stored prices. */
  ghost function PriorityFor(cfg: Config, prices: seq<u32>, price: u32): nat {
    if prices == [] then cfg.unsignedPriority
    else
      var mean := Div(Min(PriceTable.Sum(prices), MAX_U32), |prices|);
      Min(cfg.unsignedPriority + Distance(mean, price), MAX_U64)
  }

  /** Of two calls valid in the same state, the one whose price is farther from the average
      has the strictly higher priority, until the priority saturates. */
  lemma FartherPriceWins(cfg: Config, s: Chain, near: Call, far: Call)
    requires s.prices != []
    requires ValidateUnsigned(cfg, s, near).Valid? && ValidateUnsigned(cfg, s, far).Valid?
    ensures var average := PriceTable.Average(s.prices).value;
            (ValidateUnsigned(cfg, s, near).priority < ValidateUnsigned(cfg, s, far).priority
             <==> (Distance(average, PriceOf(near)) < Distance(average, PriceOf(far))
                   && cfg.unsignedPriority + Distance(average, PriceOf(near)) < MAX_U64))
  {
  }

  // ---------------------------------------------------------------------
  // The calls a worker sends
  // ---------------------------------------------------------------------

  datatype TransactionType = SendSigned | UnsignedForAny | UnsignedForAll | Raw | Nothing

  datatype SendError = NoLocalAccounts | TooEarly | FetchFailed

  datatype SendResult = Sent(calls: seq<Call>) | NotSent(error: SendError)

  function SignedPayloadCall(cfg: Config, blockNumber: u32, price: u32, public: Public): Call {
    var payload := PricePayload(blockNumber, price, public);
    SubmitPriceUnsignedWithSignedPayload(payload, cfg.sign(payload))
  }

  /** The calls submitted by one worker run at `blockNumber`, given the outcome of its price
      fetch and the accounts in its keystore. */
  function FetchPriceAndSend(cfg: Config, s: Chain, kind: TransactionType, blockNumber: u32,
                             fetched: Option<u32>, accounts: seq<Public>): SendResult
  {
    if kind.Nothing? then
      Sent([])
    else if kind.SendSigned? then
      if accounts == [] then NotSent(NoLocalAccounts)
      else if fetched.None? then NotSent(FetchFailed)
      else Sent(seq(|accounts|, i => SubmitPrice(fetched.value)))
    else if s.nextUnsignedAt > blockNumber then
      NotSent(TooEarly)
    else if fetched.None? then
      NotSent(FetchFailed)
    else if kind.Raw? then
      Sent([SubmitPriceUnsigned(blockNumber, fetched.value)])
    else if kind.UnsignedForAll? then
      Sent(seq(|accounts|, i requires 0 <= i < |accounts| =>
        SignedPayloadCall(cfg, blockNumber, fetched.value, accounts[i])))
    else if accounts == [] then
      NotSent(NoLocalAccounts)
    else
      Sent([SignedPayloadCall(cfg, blockNumber, fetched.value, accounts[0])])
  }

  /** Why a worker sends nothing: a signed run looks for accounts first, an unsigned one at
      admission, then both fetch, and one for any account looks for it last. */
  lemma WorkerRefusals(cfg: Config, s: Chain, kind: TransactionType, blockNumber: u32,
                       fetched: Option<u32>, accounts: seq<Public>)
    ensures var r := FetchPriceAndSend(cfg, s, kind, blockNumber, fetched, accounts);
            var unsigned := kind.UnsignedForAny? || kind.UnsignedForAll? || kind.Raw?;
            var open := s.nextUnsignedAt <= blockNumber;
            && (r == NotSent(TooEarly) <==> unsigned && !open)
            && (r == NotSent(FetchFailed) <==>
                  fetched.None? && (if unsigned then open else kind.SendSigned? && accounts != []))
            && (r == NotSent(NoLocalAccounts) <==>
                  accounts == [] && (kind.SendSigned? || (kind.UnsignedForAny? && open && fetched.Some?)))
  {
  }

  /** The call carries the fetched price for the block, made and signed for the account. */
  predicate SignedFor(cfg: Config, call: Call, blockNumber: u32, price: u32, public: Public) {
    && call.SubmitPriceUnsignedWithSignedPayload?
    && call.payload.blockNumber == blockNumber && call.payload.price == price && call.payload.public == public
    && call.signature == cfg.sign(call.payload)
  }

  /** What a worker sends: the price once per account, by signed transactions or by signed
      payloads; one signed payload for the first account; or one raw call. */
  lemma WorkerSends(cfg: Config, s: Chain, kind: TransactionType, blockNumber: u32, price: u32, accounts: seq<Public>)
    requires FetchPriceAndSend(cfg, s, kind, blockNumber, Some(price), accounts).Sent?
    ensures var calls := FetchPriceAndSend(cfg, s, kind, blockNumber, Some(price), accounts).calls;
            match kind
            case SendSigned =>
              |calls| == |accounts| > 0 && forall i :: 0 <= i < |accounts| ==> calls[i] == SubmitPrice(price)
            case UnsignedForAny =>
              |calls| == 1 <= |accounts| && SignedFor(cfg, calls[0], blockNumber, price, accounts[0])
            case UnsignedForAll =>
              |calls| == |accounts| && forall i :: 0 <= i < |accounts| ==>
                                         SignedFor(cfg, calls[i], blockNumber, price, accounts[i])
            case Raw => calls == [SubmitPriceUnsigned(blockNumber, price)]
            case Nothing => calls == []
  {
  }

  /** A signature made by the keystore passes the check made on chain. */
  ghost predicate SignaturesVerify(cfg: Config) {
    forall payload :: cfg.verify(payload, cfg.sign(payload))
  }

  /** The batch for all accounts holds one call for each, and all of them validate alike: same
      tag, same priority. A pool that replaces on strictly higher priority keeps the first. */
  lemma BatchSharesOneSpot(cfg: Config, s: Chain, price: u32, accounts: seq<Public>, i: nat, j: nat)
    requires SignaturesVerify(cfg) && s.nextUnsignedAt <= s.block
    requires i < |accounts| && j < |accounts|
    ensures var r := FetchPriceAndSend(cfg, s, UnsignedForAll, s.block, Some(price), accounts);
            && r.Sent? && |r.calls| == |accounts|
            && ValidateUnsigned(cfg, s, r.calls[i]).Valid?
            && ValidateUnsigned(cfg, s, r.calls[i]) == ValidateUnsigned(cfg, s, r.calls[j])
            && (r.calls[i] == r.calls[j] <==> accounts[i] == accounts[j])
  {
    var r := FetchPriceAndSend(cfg, s, UnsignedForAll, s.block, Some(price), accounts);
    assert forall k :: 0 <= k < |accounts| ==>
      r.calls[k].payload == PricePayload(s.block, price, accounts[k]);
  }

  /** A worker sends signed prices whatever `NextUnsignedAt` says, one per account, and each
      of them adds the fetched price and leaves the admission of unsigned calls alone. */
  lemma SignedPricesBypassAdmission(cfg: Config, s: Chain, fetched: Option<u32>, accounts: seq<Public>,
                                    later: Chain, who: AccountId, call: Call)
    ensures var r := FetchPriceAndSend(cfg, s, SendSigned, s.block, fetched, accounts);
            && (r.Sent? <==> accounts != [] && fetched.Some?)
            && (r.Sent? ==> |r.calls| == |accounts|)
            && (r.Sent? && call in r.calls ==>
                  var outcome := Dispatch(cfg, later, Signed(who), call);
                  && outcome.result == Ok
                  && outcome.chain.events == later.events + [NewPrice(fetched.value, who)]
                  && outcome.chain.nextUnsignedAt == later.nextUnsignedAt)
  {
  }

  // ---------------------------------------------------------------------
  // The pallet itself
  // ---------------------------------------------------------------------

  class Pallet {
    const config: Config
    var block: u32
    var nextUnsignedAt: u32
    var prices: seq<u32>
    var events: seq<Event>

    /** The storage as a value. */
    function State(): Chain
      reads this
    {
      Chain(block, nextUnsignedAt, prices, events)
    }

    constructor (config: Config)
      ensures this.config == config && State() == GENESIS
    {
      this.config := config;
      block, nextUnsignedAt, prices, events := 0, 0, [], [];
    }

    function AveragePrice(): Option<u32>
      reads this
    {
      PriceTable.Average(prices)
    }

    method AddPrice(who: AccountId, price: u32)
      modifies this`prices, this`events
      ensures State() == WithPrice(old(State()), who, price)
      ensures Recorded(old(State()), State(), price, who)
      ensures AveragePrice().Some? // the `expect` cannot fail
    {
      if |prices| < PriceTable.MAX_LEN {
        prices := prices + [price];
      } else {
        prices := prices[PriceTable.Slot(price) := price];
      }
      var average := AveragePrice();
      assert average.Some?;
      events := events + [NewPrice(price, who)];
    }

    method SubmitPrice(origin: Origin, price: u32) returns (result: DispatchResult)
      modifies this
      ensures Outcome(result, State()) == Dispatch(config, old(State()), origin, Call.SubmitPrice(price))
      ensures origin.Signed? ==> Recorded(old(State()), State(), price, origin.who)
    {
      if !origin.Signed? {
        return BadOrigin;
      }
      AddPrice(origin.who, price);
      result := Ok;
    }

    method SubmitPriceUnsigned(origin: Origin, blockNumber: u32, price: u32) returns (result: DispatchResult)
      modifies this
      ensures Outcome(result, State())
           == Dispatch(config, old(State()), origin, Call.SubmitPriceUnsigned(blockNumber, price))
      ensures origin.Unsigned? ==> Recorded(old(State()), State(), price, DEFAULT_ACCOUNT)
    {
      if !origin.Unsigned? {
        return BadOrigin;
      }
      AddPrice(DEFAULT_ACCOUNT, price);
      nextUnsignedAt := AddU32(block, config.unsignedInterval);
      result := Ok;
    }

    method SubmitPriceUnsignedWithSignedPayload(origin: Origin, payload: PricePayload, signature: Signature)
      returns (result: DispatchResult)
      modifies this
      ensures Outcome(result, State())
           == Dispatch(config, old(State()), origin, Call.SubmitPriceUnsignedWithSignedPayload(payload, signature))
      ensures origin.Unsigned? ==> Recorded(old(State()), State(), payload.price, DEFAULT_ACCOUNT)
    {
      if !origin.Unsigned? {
        return BadOrigin;
      }
      AddPrice(DEFAULT_ACCOUNT, payload.price);
      nextUnsignedAt := AddU32(block, config.unsignedInterval);
      result := Ok;
    }
  }
}
