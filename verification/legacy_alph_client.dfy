/**
 * The earlier ledger client, src/alephium.ts, whose class src/telegram/bot.ts
 * still names as the type of its client (src/index.ts passes it the services
 * client of src/services/alephium.ts instead): Base58 address validation, the withdrawal
 * destinations with the operator part added on top, the narrower error
 * mapping and the consolidation check. Its registration is the same
 * check-then-insert as `Users.RegisterUser`.
 */
module LegacyAlphClient {
  import opened Wrappers
  import opened Text
  import opened TokenAmounts
  import opened LedgerErrors
  import opened AlphClient

  // ---------------------------------------------------------------------------
  // Address validation

  /** The Bitcoin Base58 alphabet: digits 1-9 and the letters without `I`, `O` and `l`. */
  const Base58Alphabet: string := "123456789" + "ABCDEFGH" + "JKLMN" + "PQRSTUVWXYZ" + "abcdefghijk" + "mnopqrstuvwxyz"

  /** The class `[1-9A-HJ-NP-Za-km-z]`. */
  predicate IsBase58Char(c: char) {
    ('1' <= c <= '9') || ('A' <= c <= 'H') || ('J' <= c <= 'N') || ('P' <= c <= 'Z')
    || ('a' <= c <= 'k') || ('m' <= c <= 'z')
  }

  /** Each Base58 character's digit value is its position in the alphabet. */
  lemma DigitIsAlphabetPosition(c: char)
    requires IsBase58Char(c)
    ensures Base58Digit(c) < |Base58Alphabet| && Base58Alphabet[Base58Digit(c)] == c
  {
    var alphabet := Base58Alphabet;
    assert |alphabet| == 58;
    if c <= '9' { assert alphabet[..9] == "123456789"; }
    else if c <= 'H' { assert alphabet[9..17] == "ABCDEFGH"; }
    else if c <= 'N' { assert alphabet[17..22] == "JKLMN"; }
    else if c <= 'Z' { assert alphabet[22..33] == "PQRSTUVWXYZ"; }
    else if c <= 'k' { assert alphabet[33..44] == "abcdefghijk"; }
    else { assert alphabet[44..] == "mnopqrstuvwxyz"; }
  }

  /** The look-alike characters `0`, `O`, `I` and `l` are not Base58. */
  lemma LookAlikesExcluded()
    ensures !IsBase58Char('0') && !IsBase58Char('O') && !IsBase58Char('I') && !IsBase58Char('l')
  {
  }

  predicate AllBase58(s: string) {
    forall i :: 0 <= i < |s| ==> IsBase58Char(s[i])
  }

  /** The value of one Base58 digit: its position in the alphabet. */
  function Base58Digit(c: char): (d: nat)
    requires IsBase58Char(c)
    ensures d < 58
  {
    if c <= '9' then c as int - '1' as int
    else if c <= 'H' then c as int - 'A' as int + 9
    else if c <= 'N' then c as int - 'J' as int + 17
    else if c <= 'Z' then c as int - 'P' as int + 22
    else if c <= 'k' then c as int - 'a' as int + 33
    else c as int - 'm' as int + 44
  }

  function Pow(b: nat, e: nat): (p: nat)
    ensures b >= 1 ==> p >= 1
  {
    if e == 0 then 1 else b * Pow(b, e - 1)
  }

  /** The number a Base58 text denotes, most significant digit first. */
  function Base58Value(s: string): (v: nat)
    requires AllBase58(s)
    ensures v < Pow(58, |s|)
  {
    if s == [] then 0
    else
      var init := s[..|s| - 1];
      assert AllBase58(init) by { assert forall i :: 0 <= i < |init| ==> init[i] == s[i]; }
      var v := Base58Value(init) * 58 + Base58Digit(s[|s| - 1]);
      assert v < Pow(58, |s|) by {
        assert Base58Value(init) + 1 <= Pow(58, |init|);
        assert (Base58Value(init) + 1) * 58 <= Pow(58, |init|) * 58;
      }
      v
  }

  /** The number of bytes needed to write `v` without leading zero bytes. */
  function ByteLength(v: nat): nat {
    if v == 0 then 0 else 1 + ByteLength(v / 256)
  }

  /** The number of leading `1`s: each stands for a leading zero byte. */
  function LeadingOnes(s: string): (n: nat)
    ensures n <= |s|
    ensures forall i :: 0 <= i < n ==> s[i] == '1'
    ensures n < |s| ==> s[n] != '1'
  {
    if s != [] && s[0] == '1' then 1 + LeadingOnes(s[1..]) else 0
  }

  /** The length of `bs58.decode(s)`: one zero byte per leading `1`, then the bytes of the rest's value. */
  function DecodedLength(s: string): nat
    requires AllBase58(s)
  {
    var k := LeadingOnes(s);
    assert AllBase58(s[k..]) by { assert forall i :: 0 <= i < |s| - k ==> s[k..][i] == s[k + i]; }
    k + ByteLength(Base58Value(s[k..]))
  }

  /**
   * `isAddressValid`: a non-empty text of Base58 characters whose decoded
   * bytes, after the first one, number at least 32.
   */
  function IsAddressValid(address: string): (b: bool)
    ensures b ==> 33 <= |address|
  {
    |address| > 0 && AllBase58(address) && (DecodedLengthBound(address); DecodedLength(address) - 1 >= 32)
  }

  lemma {:induction false} ByteLengthBound(v: nat, m: nat)
    requires v < Pow(256, m)
    ensures ByteLength(v) <= m
    decreases m
  {
    if v != 0 {
      assert m > 0;
      assert v / 256 < Pow(256, m - 1);
      ByteLengthBound(v / 256, m - 1);
    }
  }

  lemma {:induction false} PowMonotoneBase(m: nat)
    ensures Pow(58, m) <= Pow(256, m)
  {
    if m > 0 {
      PowMonotoneBase(m - 1);
    }
  }

  /** Base58 never decodes to more bytes than it has characters. */
  lemma DecodedLengthBound(s: string)
    requires AllBase58(s)
    ensures DecodedLength(s) <= |s|
  {
    var k := LeadingOnes(s);
    assert AllBase58(s[k..]) by { assert forall i :: 0 <= i < |s| - k ==> s[k..][i] == s[k + i]; }
    PowMonotoneBase(|s[k..]|);
    ByteLengthBound(Base58Value(s[k..]), |s[k..]|);
  }

  /** So a valid address has at least 33 characters, all of them Base58. */
  lemma ValidAddressShape(address: string)
    requires IsAddressValid(address)
    ensures |address| >= 33
    ensures forall i :: 0 <= i < |address| ==> address[i] != '0' && address[i] != 'O' && address[i] != 'I' && address[i] != 'l'
  {
    DecodedLengthBound(address);
  }

  // ---------------------------------------------------------------------------
  // Withdrawal destinations

  /**
   * The operator part: the amount divided by 100 first, then multiplied by the
   * fee percentage. Amounts below 100 attoALPH pay nothing, and only amounts
   * that are whole hundreds pay exactly the percentage.
   */
  function LegacyOperatorPart(attoAlphAmount: int, fees: int): (part: int)
    ensures -100 < attoAlphAmount < 100 ==> part == 0
    ensures attoAlphAmount % 100 == 0 ==> 100 * part == attoAlphAmount * fees
  {
    var q := TruncDiv(attoAlphAmount, 100);
    assert attoAlphAmount % 100 == 0 ==> attoAlphAmount == 100 * q;
    assert 100 * (q * fees) == (100 * q) * fees;
    q * fees
  }

  /**
   * The destinations of the earlier withdrawal: the full amount to the
   * destination first, then, only when an operator address is configured,
   * the operator part to it, on top of the amount.
   */
  function LegacyWithdrawalDestinations(attoAlphAmount: int, destinationAddress: string,
                                        operatorAddress: Option<string>, fees: int): (ds: seq<Destination>)
    ensures 1 <= |ds| <= 2
    ensures ds[0] == Destination(destinationAddress, attoAlphAmount, [])
    ensures |ds| == 2 <==> operatorAddress.Some?
    ensures operatorAddress.Some? ==>
      ds[1] == Destination(operatorAddress.value, LegacyOperatorPart(attoAlphAmount, fees), [])
  {
    var primary := [Destination(destinationAddress, attoAlphAmount, [])];
    match operatorAddress
    case None => primary
    case Some(op) => primary + [Destination(op, LegacyOperatorPart(attoAlphAmount, fees), [])]
  }

  /** The ALPH all destinations carry. */
  function AttoAlphSent(ds: seq<Destination>): int {
    if ds == [] then 0 else AttoAlphSent(ds[..|ds| - 1]) + ds[|ds| - 1].attoAlphAmount
  }

  /**
   * The earlier client charges the operator part on top: the sender pays the
   * amount plus the part, where the later client takes the fee out of the
   * amount.
   */
  lemma LegacyChargesOnTop(attoAlphAmount: int, destinationAddress: string, operatorAddress: string, fees: int)
    ensures AttoAlphSent(LegacyWithdrawalDestinations(attoAlphAmount, destinationAddress, Some(operatorAddress), fees))
         == attoAlphAmount + LegacyOperatorPart(attoAlphAmount, fees)
  {
    var ds := LegacyWithdrawalDestinations(attoAlphAmount, destinationAddress, Some(operatorAddress), fees);
    assert ds[..1][..0] == [];
    assert AttoAlphSent(ds[..1]) == AttoAlphSent([]) + attoAlphAmount;
  }

  /** Dividing first never gives more than the later `amount * fees / 100`, for non-negative inputs. */
  lemma LegacyPartAtMostPercentage(attoAlphAmount: int, fees: int)
    requires attoAlphAmount >= 0 && fees >= 0
    ensures LegacyOperatorPart(attoAlphAmount, fees) <= Percentage(attoAlphAmount, fees)
  {
    var q := attoAlphAmount / 100;
    assert attoAlphAmount >= q * 100;
    assert attoAlphAmount * fees >= q * 100 * fees;
    assert (q * fees * 100) / 100 == q * fees;
  }

  /** And it can give less: 199 at 50% is 50 when divided first, 99 otherwise. */
  lemma LegacyAndLaterFeesDiffer()
    ensures LegacyOperatorPart(199, 50) == 50 && Percentage(199, 50) == 99
  {
  }

  /**
   * `sendAmountToAddressFrom` of the earlier client up to the submission: an
   * invalid address is rejected before the amount is converted; otherwise
   * the destinations are built, the operator part pushed only when an
   * operator address is configured. `convert` is the library's conversion
   * of a decimal ALPH amount to atto-ALPH.
   */
  method LegacySendAmountToAddressFrom(amount: string, destinationAddress: string, convert: string -> int,
                                       operatorAddress: Option<string>, fees: int)
    returns (r: Result<seq<Destination>, Raised>)
    ensures !IsAddressValid(destinationAddress) ==> r == Failure(Typed(InvalidAddress(destinationAddress)))
    ensures IsAddressValid(destinationAddress) ==>
      r == Success(LegacyWithdrawalDestinations(convert(amount), destinationAddress, operatorAddress, fees))
  {
    if !IsAddressValid(destinationAddress) {
      return Failure(Typed(InvalidAddress(destinationAddress)));
    }
    var attoAlphAmount := convert(amount);
    var destinations := [Destination(destinationAddress, attoAlphAmount, [])];
    if operatorAddress.Some? {
      var operatorPart := LegacyOperatorPart(attoAlphAmount, fees);
      destinations := destinations + [Destination(operatorAddress.value, operatorPart, [])];
    }
    r := Success(destinations);
  }

  /** The single destination of the earlier `transferFromUserToUser`. */
  function LegacyTransferDestinations(receiverAddress: string, attoAlphAmount: int): (ds: seq<Destination>)
    ensures |ds| == 1 && ds[0].address == receiverAddress && AttoAlphSent(ds) == attoAlphAmount
  {
    var ds := [Destination(receiverAddress, attoAlphAmount, [])];
    assert ds[..0] == [];
    ds
  }

  // ---------------------------------------------------------------------------
  // Errors

  /** The earlier transfer failure mapping: network and insufficient-funds errors are typed, the rest is rethrown. */
  function LegacyTransferError(r: Raised): (e: Raised)
    ensures IsNetworkError(r) ==> e == AdaptError(r)
    ensures !IsNetworkError(r) && IsNotEnoughFundsError(r) ==> e == AdaptError(r)
    ensures !IsNetworkError(r) && !IsNotEnoughFundsError(r) ==> e == r
  {
    if IsNetworkError(r) then Typed(NetworkError(CauseOf(r)))
    else if IsNotEnoughFundsError(r) then Typed(NewNotEnoughFundsError(r).value)
    else r
  }

  /**
   * The fee error the later client types is rethrown as it came by the
   * earlier one.
   */
  lemma LegacyPassesFeeErrors()
    ensures LegacyTransferError(ErrorValue(Some(FeeText), None)) == ErrorValue(Some(FeeText), None)
    ensures AdaptError(ErrorValue(Some(FeeText), None)) == Typed(NotEnoughBalanceForFee(None))
  {
    var r := ErrorValue(Some(FeeText), None);
    assert FeeText[0] != NetworkFailureMessage[0];
    HeadMismatch(FundsPattern, FeeText, FeeText, 32);
    assert IsNotEnoughBalanceForFeeError(r) by {
      MatchRender(FeePattern, []);
    }
  }

  /** The earlier consolidation mapping: only network errors are typed. */
  function LegacyNetworkError(r: Raised): (e: Raised)
    ensures IsNetworkError(r) ==> e == Typed(NetworkError(CauseOf(r)))
    ensures !IsNetworkError(r) ==> e == r
  {
    if IsNetworkError(r) then Typed(NetworkError(CauseOf(r))) else r
  }

  /** Applying that mapping twice, as the sweep and its caller do, types a network error once. */
  lemma LegacyNetworkErrorIdempotent(r: Raised)
    ensures LegacyNetworkError(LegacyNetworkError(r)) == LegacyNetworkError(r)
  {
    if IsNetworkError(r) {
      TypedMessagesUnclassified(NetworkError(CauseOf(r)));
    }
  }

  // ---------------------------------------------------------------------------
  // Consolidation

  /**
   * The earlier `consolidateIfRequired`: the balance is read without the
   * mem-pool, and the threshold comes from a setting the configuration does
   * not define. `threshold` is that setting; when it is absent the
   * comparison `utxoNum < undefined` is false and the sweep always runs.
   */
  function LegacyConsolidateIfRequired(balance: Result<AddressBalance, Raised>, threshold: Option<int>,
                                       sweep: Result<seq<string>, Raised>): (r: Result<Option<string>, Raised>)
    ensures balance.Failure? ==> r == Failure(LegacyNetworkError(balance.error))
    ensures balance.Success? && threshold.Some? && balance.value.utxoNum < threshold.value ==> r == Success(None)
    ensures balance.Success? && (threshold.None? || balance.value.utxoNum >= threshold.value) ==>
      r == (match sweep
            case Success(txIds) => Success(Some(Join(txIds, ", ")))
            case Failure(e) => Failure(LegacyNetworkError(e)))
  {
    match balance
    case Failure(e) => Failure(LegacyNetworkError(e))
    case Success(addressBalance) =>
      if threshold.Some? && addressBalance.utxoNum < threshold.value then Success(None)
      else
        match sweep
        case Success(txIds) => Success(Some(Join(txIds, ", ")))
        case Failure(e) =>
          LegacyNetworkErrorIdempotent(e);
          Failure(LegacyNetworkError(LegacyNetworkError(e)))
  }

  /** With the threshold undefined, a single UTXO is already swept. */
  lemma LegacyAlwaysConsolidates(balance: AddressBalance, txIds: seq<string>)
    ensures LegacyConsolidateIfRequired(Success(balance), None, Success(txIds)) == Success(Some(Join(txIds, ", ")))
  {
  }
}
