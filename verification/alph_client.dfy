/**
 * The ledger client of src/services/alephium.ts: waiting for a transaction
 * to be confirmed, turning an address balance into a user balance, building
 * the destinations of a transfer, settling a submission, consolidating
 * UTXOs and summing the balances of all users page by page.
 *
 * The full node is not called: each of its answers (a status sequence, a
 * balance, a submission result, a sweep result) is a parameter. Wallet
 * derivation is the `derive` function of `Users.RegisterUser`, a wallet's
 * group a number below 4, and `dust` the library's `DUST_AMOUNT`.
 */
module AlphClient {
  import opened Wrappers
  import opened Text
  import opened Tokens
  import opened TokenAmounts
  import opened TokenManager
  import opened LedgerErrors
  import opened Users

  // ---------------------------------------------------------------------------
  // Waiting for confirmation

  /**
   * What `getTransactionsStatus` reports for a transaction: its `type` tag
   * and, for a confirmed one, its depth. The node tags a status with the name
   * of the library's status type; any other tag is possible as far as the
   * client is concerned.
   */
  datatype TxStatus = TxStatus(tag: string, chainConfirmations: int)

  const NotFoundTag: string := "TxNotFound"
  const MemPooledTag: string := "MemPooled"
  const ConfirmedTag: string := "Confirmed"

  /** The label of the first `case` in `waitTxConfirmed`, with a lower-case 'f'. */
  const NotFoundLabelAsWritten: string := "TxNotfound"

  /** What one poll decides. */
  datatype Step = Reject | Resolve | PollAgain

  /**
   * The `switch` of one poll, whose first case is labelled `notFoundLabel`:
   * reject on that label; accept a mem-pooled transaction whenever the wanted
   * depth is not negative; accept a confirmed one once it has at least the
   * wanted depth; with no `default`, every other tag waits and polls again.
   */
  function SwitchStep(notFoundLabel: string, status: TxStatus, nbConfirmations: int): Step
  {
    if status.tag == notFoundLabel then Reject
    else if status.tag == MemPooledTag then (if 0 <= nbConfirmations then Resolve else PollAgain)
    else if status.tag == ConfirmedTag then (if nbConfirmations <= status.chainConfirmations then Resolve else PollAgain)
    else PollAgain
  }

  /** One poll with the not-found case labelled as the node tags it. */
  function StatusStep(status: TxStatus, nbConfirmations: int): (step: Step)
    ensures step == Reject <==> status.tag == NotFoundTag
    ensures status.tag == MemPooledTag ==> (step == Resolve <==> 0 <= nbConfirmations)
    ensures status.tag == ConfirmedTag ==> (step == Resolve <==> nbConfirmations <= status.chainConfirmations)
    ensures status.tag !in {NotFoundTag, MemPooledTag, ConfirmedTag} ==> step == PollAgain
  {
    SwitchStep(NotFoundTag, status, nbConfirmations)
  }

  /** One poll as written, with the case labelled "TxNotfound". */
  function StatusStepAsWritten(status: TxStatus, nbConfirmations: int): (step: Step)
    ensures step == Reject <==> status.tag == NotFoundLabelAsWritten
    ensures status.tag == MemPooledTag ==> (step == Resolve <==> 0 <= nbConfirmations)
    ensures status.tag == ConfirmedTag ==> (step == Resolve <==> nbConfirmations <= status.chainConfirmations)
    ensures status.tag !in {NotFoundLabelAsWritten, MemPooledTag, ConfirmedTag} ==> step == PollAgain
  {
    SwitchStep(NotFoundLabelAsWritten, status, nbConfirmations)
  }

  /**
   * The label as written never matches the node's "TxNotFound": an unknown
   * transaction is polled again at every interval instead of being rejected,
   * so the wait never ends.
   */
  lemma NotFoundNeverRejectedAsWritten(statuses: seq<TxStatus>, nbConfirmations: int)
    requires forall j :: 0 <= j < |statuses| ==> statuses[j].tag == NotFoundTag
    ensures forall j :: 0 <= j < |statuses| ==> StatusStepAsWritten(statuses[j], nbConfirmations) == PollAgain
    ensures |statuses| > 0 ==> StatusStep(statuses[0], nbConfirmations) == Reject
  {
    assert NotFoundTag[5] != NotFoundLabelAsWritten[5];
  }

  const TxNotFoundReason: string := "Tx Not Found"

  /** How the wait ends within the given polls: at poll `poll`, or not yet. */
  datatype WaitOutcome = Resolved(poll: nat) | Rejected(poll: nat, reason: string) | StillPolling

  /**
   * `waitTxConfirmed` over the statuses the node returns, one per poll: the
   * first poll that decides ends the wait.
   */
  method WaitTxConfirmed(statuses: seq<TxStatus>, nbConfirmations: int) returns (outcome: WaitOutcome)
    ensures outcome.Resolved? ==> outcome.poll < |statuses| && StatusStep(statuses[outcome.poll], nbConfirmations) == Resolve
    ensures outcome.Rejected? ==>
      outcome.poll < |statuses| && statuses[outcome.poll].tag == NotFoundTag && outcome.reason == TxNotFoundReason
    ensures !outcome.StillPolling? ==> forall j :: 0 <= j < outcome.poll ==> StatusStep(statuses[j], nbConfirmations) == PollAgain
    ensures outcome.StillPolling? <==> forall j :: 0 <= j < |statuses| ==> StatusStep(statuses[j], nbConfirmations) == PollAgain
  {
    var i := 0;
    while i < |statuses|
      invariant 0 <= i <= |statuses|
      invariant forall j :: 0 <= j < i ==> StatusStep(statuses[j], nbConfirmations) == PollAgain
    {
      var txStatus := statuses[i];
      if txStatus.tag == NotFoundTag {
        return Rejected(i, TxNotFoundReason);
      } else if txStatus.tag == MemPooledTag {
        if 0 <= nbConfirmations {
          return Resolved(i);
        }
      } else if txStatus.tag == ConfirmedTag {
        if nbConfirmations <= txStatus.chainConfirmations {
          return Resolved(i);
        }
      }
      i := i + 1;
    }
    return StillPolling;
  }

  /**
   * With a non-negative wanted depth, a transaction still in the mem-pool is
   * accepted at once, while a confirmed one with fewer confirmations than
   * wanted keeps the wait going.
   */
  lemma MemPooledResolvesBeforeConfirmed(nbConfirmations: int, chainConfirmations: int)
    requires 0 <= chainConfirmations < nbConfirmations
    ensures StatusStep(TxStatus(MemPooledTag, 0), nbConfirmations) == Resolve
    ensures StatusStep(TxStatus(ConfirmedTag, chainConfirmations), nbConfirmations) == PollAgain
  {
  }

  // ---------------------------------------------------------------------------
  // Balances

  /** A token held by an address, as the node reports it. */
  datatype TokenBalance = TokenBalance(id: string, amount: int)

  /** The node's balance of an address (a missing `tokenBalances` is the empty list). */
  datatype AddressBalance = AddressBalance(balance: int, tokenBalances: seq<TokenBalance>, utxoNum: int)

  /** The token balances whose id the token table knows, paired with their token, in input order. */
  function Recognised(rows: seq<Token>, tbs: seq<TokenBalance>): (r: seq<Amount>)
    ensures |r| <= |tbs|
    ensures forall k :: 0 <= k < |r| ==> r[k].token in rows
  {
    if tbs == [] then []
    else RecognisedOne(rows, tbs[0]) + Recognised(rows, tbs[1..])
  }

  /** One token balance: its amount when the table knows the id (a fulfilled lookup), nothing otherwise. */
  function RecognisedOne(rows: seq<Token>, tb: TokenBalance): (r: seq<Amount>)
    ensures |r| <= 1
    ensures forall k :: 0 <= k < |r| ==> r[k].token in rows
  {
    match GetTokenAmountFromIdAmount(rows, tb.id, tb.amount)
    case Success(a) => [a]
    case Failure(_) => []
  }

  predicate Known(rows: seq<Token>, id: string) {
    exists i :: 0 <= i < |rows| && rows[i].id == id
  }

  /** Recognising two lists one after the other is recognising their concatenation: order is kept. */
  lemma {:induction false} RecognisedConcat(rows: seq<Token>, a: seq<TokenBalance>, b: seq<TokenBalance>)
    ensures Recognised(rows, a + b) == Recognised(rows, a) + Recognised(rows, b)
    decreases |a|
  {
    if a == [] {
      assert a + b == b;
    } else {
      var ab := a + b;
      assert ab[0] == a[0] && ab[1..] == a[1..] + b;
      RecognisedConcat(rows, a[1..], b);
      var r0, ra, rb := RecognisedOne(rows, a[0]), Recognised(rows, a[1..]), Recognised(rows, b);
      assert r0 + (ra + rb) == (r0 + ra) + rb;
    }
  }

  /** The two extreme cases of the filter: every id known, or none. */
  lemma RecognisedCases(rows: seq<Token>, tbs: seq<TokenBalance>)
    ensures (forall i :: 0 <= i < |tbs| ==> Known(rows, tbs[i].id)) ==>
      |Recognised(rows, tbs)| == |tbs|
      && forall i :: 0 <= i < |tbs| ==>
           Recognised(rows, tbs)[i].token.id == tbs[i].id && Recognised(rows, tbs)[i].amount == tbs[i].amount
    ensures (forall i :: 0 <= i < |tbs| ==> !Known(rows, tbs[i].id)) ==> Recognised(rows, tbs) == []
  {
    if forall i :: 0 <= i < |tbs| ==> Known(rows, tbs[i].id) {
      RecognisedAllKnown(rows, tbs);
    }
    if forall i :: 0 <= i < |tbs| ==> !Known(rows, tbs[i].id) {
      RecognisedNoneKnown(rows, tbs);
    }
  }

  /** A balance of a known token is kept as one amount with its id and amount. */
  lemma RecognisedOneKnown(rows: seq<Token>, tb: TokenBalance)
    requires Known(rows, tb.id)
    ensures |RecognisedOne(rows, tb)| == 1
    ensures RecognisedOne(rows, tb)[0].token.id == tb.id && RecognisedOne(rows, tb)[0].amount == tb.amount
  {
    assert GetTokenAmountFromIdAmount(rows, tb.id, tb.amount).Success?;
  }

  /** When the table knows every token, each balance becomes one amount of its token, in order. */
  lemma {:induction false} RecognisedAllKnown(rows: seq<Token>, tbs: seq<TokenBalance>)
    requires forall i :: 0 <= i < |tbs| ==> Known(rows, tbs[i].id)
    ensures |Recognised(rows, tbs)| == |tbs|
    ensures forall i :: 0 <= i < |tbs| ==>
      Recognised(rows, tbs)[i].token.id == tbs[i].id && Recognised(rows, tbs)[i].amount == tbs[i].amount
  {
    if tbs != [] {
      var rest := tbs[1..];
      assert forall i :: 0 <= i < |rest| ==> Known(rows, rest[i].id) by {
        assert forall i :: 0 <= i < |rest| ==> rest[i] == tbs[i + 1];
      }
      RecognisedAllKnown(rows, rest);
      RecognisedOneKnown(rows, tbs[0]);
      var one, post := RecognisedOne(rows, tbs[0]), Recognised(rows, rest);
      var whole := Recognised(rows, tbs);
      assert whole == one + post;
      forall i | 0 <= i < |tbs|
        ensures whole[i].token.id == tbs[i].id && whole[i].amount == tbs[i].amount
      {
        if i > 0 {
          assert whole[i] == post[i - 1] && rest[i - 1] == tbs[i];
        }
      }
    }
  }

  /** Balances of tokens the table does not know are all dropped. */
  lemma {:induction false} RecognisedNoneKnown(rows: seq<Token>, tbs: seq<TokenBalance>)
    requires forall i :: 0 <= i < |tbs| ==> !Known(rows, tbs[i].id)
    ensures Recognised(rows, tbs) == []
  {
    if tbs != [] {
      var rest := tbs[1..];
      assert forall i :: 0 <= i < |rest| ==> !Known(rows, rest[i].id) by {
        assert forall i :: 0 <= i < |rest| ==> rest[i] == tbs[i + 1];
      }
      RecognisedNoneKnown(rows, rest);
      assert !Known(rows, tbs[0].id);
      assert RecognisedOne(rows, tbs[0]) == [];
    }
  }

  /**
   * `convertAddressBalanceToUserBalance`: the ALPH amount first, then the
   * recognised tokens in input order; `alphToken` is the table's ALPH row.
   */
  function ConvertAddressBalanceToUserBalance(balance: AddressBalance, alphToken: Token, rows: seq<Token>): (ub: seq<Amount>)
    ensures 1 <= |ub| <= 1 + |balance.tokenBalances|
    ensures ub[0] == Amount(alphToken, balance.balance)
    ensures forall k :: 1 <= k < |ub| ==> ub[k].token in rows
    ensures (forall i :: 0 <= i < |balance.tokenBalances| ==> Known(rows, balance.tokenBalances[i].id)) ==>
      |ub| == 1 + |balance.tokenBalances|
      && forall i :: 0 <= i < |balance.tokenBalances| ==>
           ub[i + 1].token.id == balance.tokenBalances[i].id && ub[i + 1].amount == balance.tokenBalances[i].amount
    ensures (forall i :: 0 <= i < |balance.tokenBalances| ==> !Known(rows, balance.tokenBalances[i].id)) ==> |ub| == 1
  {
    RecognisedCases(rows, balance.tokenBalances);
    [Amount(alphToken, balance.balance)] + Recognised(rows, balance.tokenBalances)
  }

  // ---------------------------------------------------------------------------
  // Destinations

  datatype TokenEntry = TokenEntry(id: string, amount: int)

  /** One output of a transfer. */
  datatype Destination = Destination(address: string, attoAlphAmount: int, tokens: seq<TokenEntry>)

  /** Sends `a` to `address`: ALPH as the ALPH amount; any other token as one entry, with dust ALPH alongside. */
  function DestinationOf(address: string, a: Amount, dust: int): (d: Destination)
    ensures d.address == address
    ensures |d.tokens| <= 1
    ensures a.token.IsALPH() ==> d.attoAlphAmount == a.amount && d.tokens == []
    ensures !a.token.IsALPH() ==> d.attoAlphAmount == dust && d.tokens == [TokenEntry(a.token.id, a.amount)]
  {
    if a.token.IsALPH() then Destination(address, a.amount, [])
    else Destination(address, dust, [TokenEntry(a.token.id, a.amount)])
  }

  function EntriesOf(entries: seq<TokenEntry>, id: string): int {
    if entries == [] then 0
    else EntriesOf(entries[..|entries| - 1], id) + (if entries[|entries| - 1].id == id then entries[|entries| - 1].amount else 0)
  }

  /** How much of `token` a destination carries. */
  function Carried(d: Destination, token: Token): int {
    if token.IsALPH() then d.attoAlphAmount else EntriesOf(d.tokens, token.id)
  }

  /** How much of `token` all destinations carry together. */
  function CarriedAll(ds: seq<Destination>, token: Token): int {
    if ds == [] then 0 else CarriedAll(ds[..|ds| - 1], token) + Carried(ds[|ds| - 1], token)
  }

  /** A destination built for an amount carries exactly that amount of its token. */
  lemma DestinationCarries(address: string, a: Amount, dust: int)
    ensures Carried(DestinationOf(address, a, dust), a.token) == a.amount
  {
    var d := DestinationOf(address, a, dust);
    if !a.token.IsALPH() {
      assert d.tokens == [TokenEntry(a.token.id, a.amount)];
      assert d.tokens[..0] == [];
      assert EntriesOf(d.tokens, a.token.id) == EntriesOf([], a.token.id) + a.amount;
    }
  }

  /** The destinations of `transferFromUserToUser`: the receiver alone. */
  function TransferDestinations(receiverAddress: string, a: Amount, dust: int): (ds: seq<Destination>)
    ensures |ds| == 1 && ds[0].address == receiverAddress
    ensures CarriedAll(ds, a.token) == a.amount
  {
    DestinationCarries(receiverAddress, a, dust);
    [DestinationOf(receiverAddress, a, dust)]
  }

  /**
   * The destinations of a withdrawal of `a`: with positive fees, the fee
   * (`fees` percent, rounded toward zero) to the operator's address of the
   * sender's group first, then the rest to the destination; without fees the
   * whole amount to the destination.
   */
  function WithdrawalDestinations(a: Amount, fees: int, feeAddress: string, destinationAddress: string, dust: int): (ds: seq<Destination>)
    ensures fees > 0 ==> |ds| == 2 && ds[0].address == feeAddress && ds[1].address == destinationAddress
    ensures fees > 0 ==> Carried(ds[0], a.token) == Percentage(a.amount, fees)
                         && Carried(ds[1], a.token) == a.amount - Percentage(a.amount, fees)
    ensures fees <= 0 ==> |ds| == 1 && ds[0].address == destinationAddress
    ensures CarriedAll(ds, a.token) == a.amount
  {
    if fees > 0 then
      var fee := Percentage(a.amount, fees);
      var ds := [DestinationOf(feeAddress, Amount(a.token, fee), dust),
                 DestinationOf(destinationAddress, Amount(a.token, a.amount - fee), dust)];
      DestinationCarries(feeAddress, Amount(a.token, fee), dust);
      DestinationCarries(destinationAddress, Amount(a.token, a.amount - fee), dust);
      assert ds[..1][..0] == [];
      assert CarriedAll(ds[..1], a.token) == CarriedAll([], a.token) + Carried(ds[0], a.token);
      assert CarriedAll(ds, a.token) == CarriedAll(ds[..1], a.token) + Carried(ds[1], a.token);
      ds
    else
      TransferDestinations(destinationAddress, a, dust)
  }

  /**
   * `sendAmountToAddressFrom` up to the submission: an invalid address is
   * rejected before anything else happens; otherwise, with positive fees,
   * the fee is split off the amount in place, and the destinations are
   * returned for signing. `isValidAddress` is the library's address check.
   */
  method SendAmountToAddressFrom(tokenAmount: TokenAmount, destinationAddress: string, isValidAddress: string -> bool,
                                 fees: int, addressesByGroup: seq<string>, group: nat, dust: int)
    returns (r: Result<seq<Destination>, Raised>)
    requires |addressesByGroup| == 4 && group < 4
    modifies tokenAmount
    ensures !isValidAddress(destinationAddress) ==>
      r == Failure(Typed(InvalidAddress(destinationAddress))) && tokenAmount.amount == old(tokenAmount.amount)
    ensures isValidAddress(destinationAddress) ==>
      r == Success(WithdrawalDestinations(old(tokenAmount.View()), fees, addressesByGroup[group], destinationAddress, dust))
    ensures isValidAddress(destinationAddress) && fees > 0 ==>
      tokenAmount.amount == old(tokenAmount.amount) - Percentage(old(tokenAmount.amount), fees)
    ensures fees <= 0 ==> tokenAmount.amount == old(tokenAmount.amount)
  {
    if !isValidAddress(destinationAddress) {
      return Failure(Typed(InvalidAddress(destinationAddress)));
    }
    ghost var original := tokenAmount.View();
    var destinations: seq<Destination> := [];
    if fees > 0 {
      var tokenAmountOperatorFee := tokenAmount.SubstractAndGetPercentage(fees);
      var operatorFeesAddress := addressesByGroup[group];
      assert tokenAmountOperatorFee.View() == Amount(original.token, Percentage(original.amount, fees));
      destinations := destinations + [DestinationOf(operatorFeesAddress, tokenAmountOperatorFee.View(), dust)];
    }
    destinations := destinations + [DestinationOf(destinationAddress, tokenAmount.View(), dust)];
    assert destinations == WithdrawalDestinations(original, fees, addressesByGroup[group], destinationAddress, dust);
    r := Success(destinations);
  }

  // ---------------------------------------------------------------------------
  // Settling a submission

  /**
   * After submission: a rejected submission is adapted with `AdaptError`;
   * an accepted one is followed by the wait, which resolves with the
   * transaction id, rejects with "Tx Not Found", or has not ended yet (`None`).
   */
  method SettleSubmission(submitted: Result<string, Raised>, statuses: seq<TxStatus>, nbConfirmations: int)
    returns (r: Option<Result<string, Raised>>)
    ensures submitted.Failure? ==> r == Some(Failure(AdaptError(submitted.error)))
    ensures submitted.Success? ==>
      (r.None? <==> forall j :: 0 <= j < |statuses| ==> StatusStep(statuses[j], nbConfirmations) == PollAgain)
    ensures submitted.Success? && r.Some? && r.value.Success? ==> r.value.value == submitted.value
    ensures submitted.Success? && r.Some? && r.value.Failure? ==>
      r.value.error == NonError(TxNotFoundReason) && exists j :: 0 <= j < |statuses| && statuses[j].tag == NotFoundTag
  {
    if submitted.Failure? {
      return Some(Failure(AdaptError(submitted.error)));
    }
    var outcome := WaitTxConfirmed(statuses, nbConfirmations);
    match outcome
    case Resolved(_) => r := Some(Success(submitted.value));
    case Rejected(_, reason) => r := Some(Failure(NonError(reason)));
    case StillPolling => r := None;
  }

  // ---------------------------------------------------------------------------
  // Consolidation

  /**
   * `consolidateIfRequired`: below the threshold nothing is swept and the
   * result is `undefined`; otherwise the sweep's transaction ids joined with
   * ", ". A failing balance query is adapted once; a failing sweep is adapted
   * by `consolidateUTXO` and again here.
   */
  function ConsolidateIfRequired(balance: Result<AddressBalance, Raised>, threshold: int,
                                 sweep: Result<seq<string>, Raised>): (r: Result<Option<string>, Raised>)
    ensures balance.Failure? ==> r == Failure(AdaptError(balance.error))
    ensures balance.Success? && balance.value.utxoNum < threshold ==> r == Success(None)
    ensures balance.Success? && balance.value.utxoNum >= threshold && sweep.Success? ==>
      r == Success(Some(Join(sweep.value, ", ")))
    ensures balance.Success? && balance.value.utxoNum >= threshold && sweep.Failure? ==>
      r == Failure(AdaptError(sweep.error))
  {
    match balance
    case Failure(e) => Failure(AdaptError(e))
    case Success(addressBalance) =>
      if addressBalance.utxoNum < threshold then Success(None)
      else
        match sweep
        case Success(txIds) => Success(Some(Join(txIds, ", ")))
        case Failure(e) =>
          AdaptErrorIdempotent(e);
          Failure(AdaptError(AdaptError(e)))
  }

  /** Below the threshold the sweep's outcome does not matter: no sweep is requested. */
  lemma NoSweepBelowThreshold(balance: AddressBalance, threshold: int, s1: Result<seq<string>, Raised>, s2: Result<seq<string>, Raised>)
    requires balance.utxoNum < threshold
    ensures ConsolidateIfRequired(Success(balance), threshold, s1) == ConsolidateIfRequired(Success(balance), threshold, s2)
  {
  }

  // ---------------------------------------------------------------------------
  // Totals

  const PageSize: nat := 30

  /** `find({ skip, take })`: at most `take` rows starting at `skip`. */
  function PageOf(users: seq<User>, skip: nat, take: nat): (page: seq<User>)
    ensures |page| <= take
    ensures skip >= |users| ==> page == []
    ensures skip + take <= |users| ==> page == users[skip..skip + take]
  {
    var start := if skip < |users| then skip else |users|;
    var end := if skip + take < |users| then skip + take else |users|;
    users[start..end]
  }

  /** The balance of every user in `us`, in order. */
  function BalancesOf(us: seq<User>, balanceOf: User -> seq<Amount>): (bs: seq<seq<Amount>>)
    ensures |bs| == |us|
    ensures forall i :: 0 <= i < |us| ==> bs[i] == balanceOf(us[i])
  {
    seq(|us|, i requires 0 <= i < |us| => balanceOf(us[i]))
  }

  /** The per-symbol total of the balances of `us`. */
  function TotalOf(us: seq<User>, balanceOf: User -> seq<Amount>, sym: string): int {
    Total(Flatten(BalancesOf(us, balanceOf)), sym)
  }

  /**
   * The users the paging loop reads from iteration index `i` on: the index
   * starts at 0 and grows by the page size while below the count, and each
   * iteration reads the page at `skipPerIndex * i`.
   */
  function Visited(users: seq<User>, i: nat, skipPerIndex: nat): seq<User>
    decreases |users| - i
  {
    if i >= |users| then [] else PageOf(users, skipPerIndex * i, PageSize) + Visited(users, i + PageSize, skipPerIndex)
  }

  lemma TotalOfConcat(a: seq<User>, b: seq<User>, balanceOf: User -> seq<Amount>, sym: string)
    ensures TotalOf(a + b, balanceOf, sym) == TotalOf(a, balanceOf, sym) + TotalOf(b, balanceOf, sym)
  {
    assert BalancesOf(a + b, balanceOf) == BalancesOf(a, balanceOf) + BalancesOf(b, balanceOf);
    FlattenConcat(BalancesOf(a, balanceOf), BalancesOf(b, balanceOf));
    TotalConcat(Flatten(BalancesOf(a, balanceOf)), Flatten(BalancesOf(b, balanceOf)), sym);
  }

  /** Folding a page into the running total adds the page's per-symbol totals. */
  lemma PageStep(page: seq<User>, total: seq<Amount>, balanceOf: User -> seq<Amount>, sym: string)
    ensures Total(SumUserBalance(BalancesOf(page, balanceOf) + [total]), sym)
         == TotalOf(page, balanceOf, sym) + Total(total, sym)
  {
    var bs := BalancesOf(page, balanceOf);
    SumUserBalanceTotals(bs + [total], sym);
    FlattenConcat(bs, [total]);
    assert Flatten([total]) == Flatten([]) + total;
    TotalConcat(Flatten(bs), total, sym);
  }

  /** One iteration of the paging loop moves the page at index `i` from the users still to visit into the total. */
  lemma LoopStep(users: seq<User>, i: nat, skipPerIndex: nat, total: seq<Amount>, balanceOf: User -> seq<Amount>, sym: string)
    requires i < |users|
    ensures Total(SumUserBalance(BalancesOf(PageOf(users, skipPerIndex * i, PageSize), balanceOf) + [total]), sym)
              + TotalOf(Visited(users, i + PageSize, skipPerIndex), balanceOf, sym)
         == Total(total, sym) + TotalOf(Visited(users, i, skipPerIndex), balanceOf, sym)
  {
    var page := PageOf(users, skipPerIndex * i, PageSize);
    var rest := Visited(users, i + PageSize, skipPerIndex);
    assert Visited(users, i, skipPerIndex) == page + rest;
    PageStep(page, total, balanceOf, sym);
    TotalOfConcat(page, rest, balanceOf, sym);
  }

  /** `LoopStep` for every symbol at once. */
  lemma LoopStepAll(users: seq<User>, i: nat, skipPerIndex: nat, total: seq<Amount>, balanceOf: User -> seq<Amount>)
    requires i < |users|
    ensures forall sym ::
      Total(SumUserBalance(BalancesOf(PageOf(users, skipPerIndex * i, PageSize), balanceOf) + [total]), sym)
        + TotalOf(Visited(users, i + PageSize, skipPerIndex), balanceOf, sym)
      == Total(total, sym) + TotalOf(Visited(users, i, skipPerIndex), balanceOf, sym)
  {
    forall sym
      ensures Total(SumUserBalance(BalancesOf(PageOf(users, skipPerIndex * i, PageSize), balanceOf) + [total]), sym)
                + TotalOf(Visited(users, i + PageSize, skipPerIndex), balanceOf, sym)
              == Total(total, sym) + TotalOf(Visited(users, i, skipPerIndex), balanceOf, sym)
    {
      LoopStep(users, i, skipPerIndex, total, balanceOf, sym);
    }
  }

  /**
   * The paging loop of `getTotalTokenAmount`, with the skip of the page read
   * at index `i` being `skipPerIndex * i`: every page's balances are folded
   * into the running total with `sumUserBalance`.
   */
  method SumPages(store: UserStore, balanceOf: User -> seq<Amount>, skipPerIndex: nat) returns (total: seq<Amount>)
    ensures forall sym :: Total(total, sym) == TotalOf(Visited(store.rows, 0, skipPerIndex), balanceOf, sym)
  {
    var totalNbrUsers := store.Count();
    var users := store.rows;
    total := [];
    var i := 0;
    while i < totalNbrUsers
      invariant forall sym :: Total(total, sym) + TotalOf(Visited(users, i, skipPerIndex), balanceOf, sym)
                              == TotalOf(Visited(users, 0, skipPerIndex), balanceOf, sym)
      decreases totalNbrUsers - i
    {
      var currentUserSet := PageOf(users, skipPerIndex * i, PageSize);
      var currentUserBalance := BalancesOf(currentUserSet, balanceOf) + [total];
      LoopStepAll(users, i, skipPerIndex, total, balanceOf);
      total := SumUserBalance(currentUserBalance);
      i := i + PageSize;
    }
  }

  /** `getTotalTokenAmount` as written: the page at index `i` skips `30 * i` users. */
  method GetTotalTokenAmount(store: UserStore, balanceOf: User -> seq<Amount>) returns (total: seq<Amount>)
    ensures forall sym :: Total(total, sym) == TotalOf(Visited(store.rows, 0, PageSize), balanceOf, sym)
  {
    total := SumPages(store, balanceOf, PageSize);
  }

  /** With the page at index `i` skipping `i` users, the loop reads every user exactly once, in order. */
  lemma {:induction false} VisitedAll(users: seq<User>, i: nat)
    requires i <= |users|
    ensures Visited(users, i, 1) == users[i..]
    decreases |users| - i
  {
    if i < |users| {
      VisitedAll(users, if i + PageSize <= |users| then i + PageSize else |users|);
      if i + PageSize > |users| {
        assert Visited(users, i + PageSize, 1) == [];
        assert users[|users|..] == [];
      } else {
        assert users[i..] == users[i..i + PageSize] + users[i + PageSize..];
      }
    }
  }

  /** `getTotalTokenAmount` with `skip: i`: the per-symbol totals of all users' balances. */
  method GetTotalTokenAmountCorrected(store: UserStore, balanceOf: User -> seq<Amount>) returns (total: seq<Amount>)
    ensures forall sym :: Total(total, sym) == TotalOf(store.rows, balanceOf, sym)
  {
    total := SumPages(store, balanceOf, 1);
    VisitedAll(store.rows, 0);
    assert store.rows[0..] == store.rows;
  }

  /** A user with an empty balance list adds nothing. */
  lemma {:induction false} TotalOfEmptyBalances(us: seq<User>, balanceOf: User -> seq<Amount>, sym: string)
    requires forall i :: 0 <= i < |us| ==> balanceOf(us[i]) == []
    ensures TotalOf(us, balanceOf, sym) == 0
    decreases |us|
  {
    if us != [] {
      var init := us[..|us| - 1];
      TotalOfEmptyBalances(init, balanceOf, sym);
      assert us == init + [us[|us| - 1]];
      TotalOfConcat(init, [us[|us| - 1]], balanceOf, sym);
      assert BalancesOf([us[|us| - 1]], balanceOf) == [[]];
      assert Flatten([[]]) == Flatten([]) + [];
    }
  }

  /**
   * With 31 users the loop as written runs for indices 0 and 30: the second
   * page skips 900 users and is empty, so the 31st user is never read. A
   * balance held by that user alone is missing from the total.
   */
  lemma PagingSkipsThirtyFirstUser(users: seq<User>, balanceOf: User -> seq<Amount>, t: Token)
    requires |users| == 31
    requires forall i :: 0 <= i < 30 ==> balanceOf(users[i]) == []
    requires balanceOf(users[30]) == [Amount(t, 1)]
    ensures Visited(users, 0, PageSize) == users[..30]
    ensures TotalOf(Visited(users, 0, PageSize), balanceOf, t.symbol) == 0
    ensures TotalOf(users, balanceOf, t.symbol) == 1
  {
    VisitedThirtyOne(users);
    TotalOfEmptyBalances(users[..30], balanceOf, t.symbol);
    LastUserHoldsOne(users, balanceOf, t);
  }

  /** With 31 users and pages of 30, the indices 0 and 30 read the first 30 users only. */
  lemma VisitedThirtyOne(users: seq<User>)
    requires |users| == 31
    ensures Visited(users, 0, PageSize) == users[..30]
  {
    assert Visited(users, 60, PageSize) == [];
    assert Visited(users, 30, PageSize) == [];
  }

  /** The 31 users' total is the 31st user's one unit when the first 30 hold nothing. */
  lemma LastUserHoldsOne(users: seq<User>, balanceOf: User -> seq<Amount>, t: Token)
    requires |users| == 31
    requires TotalOf(users[..30], balanceOf, t.symbol) == 0
    requires balanceOf(users[30]) == [Amount(t, 1)]
    ensures TotalOf(users, balanceOf, t.symbol) == 1
  {
    assert users == users[..30] + [users[30]];
    TotalOfConcat(users[..30], [users[30]], balanceOf, t.symbol);
    assert BalancesOf([users[30]], balanceOf) == [[Amount(t, 1)]];
    assert Flatten([[Amount(t, 1)]]) == Flatten([]) + [Amount(t, 1)];
    assert [Amount(t, 1)][..0] == [];
    assert Total([Amount(t, 1)], t.symbol) == Total([], t.symbol) + 1;
  }

  /**
   * `getTotalTokenAmountFromAddresses`: the per-symbol totals of the
   * converted balances of all the addresses together.
   */
  function GetTotalTokenAmountFromAddresses(balances: seq<AddressBalance>, alphToken: Token, rows: seq<Token>): (total: seq<Amount>)
    ensures forall sym :: Total(total, sym) == Total(Flatten(ConvertAll(balances, alphToken, rows)), sym)
  {
    var converted := ConvertAll(balances, alphToken, rows);
    SumUserBalanceTotalsAll(converted);
    SumUserBalance(converted)
  }

  function ConvertAll(balances: seq<AddressBalance>, alphToken: Token, rows: seq<Token>): (ubs: seq<seq<Amount>>)
    ensures |ubs| == |balances|
    ensures forall i :: 0 <= i < |balances| ==> ubs[i] == ConvertAddressBalanceToUserBalance(balances[i], alphToken, rows)
  {
    seq(|balances|, i requires 0 <= i < |balances| => ConvertAddressBalanceToUserBalance(balances[i], alphToken, rows))
  }

  lemma SumUserBalanceTotalsAll(ls: seq<seq<Amount>>)
    ensures forall sym :: Total(SumUserBalance(ls), sym) == Total(Flatten(ls), sym)
  {
    forall sym
      ensures Total(SumUserBalance(ls), sym) == Total(Flatten(ls), sym)
    {
      SumUserBalanceTotals(ls, sym);
    }
  }
}
