/**
 * Classification of the ledger's raw error messages into typed errors
 * (src/error.ts, tried in the order of `adaptError` in
 * src/services/alephium.ts).
 *
 * Every pattern of the source is an anchored regular expression made of fixed
 * text and greedy captures (`\d+`, `\w+`, `[\d|\w]+`), each capture followed
 * either by the end of the text or by fixed text whose first character the
 * capture cannot consume. Such a pattern is kept here as a list of segments;
 * a greedy left-to-right reading finds its captures, and that reading is
 * proved to be the unique one (MatchRender, RenderMatch).
 */
module LedgerErrors {
  import opened Wrappers
  import opened Text

  // ---------------------------------------------------------------------------
  // Anchored patterns: fixed text and greedy captures

  /** The character classes the patterns capture with. */
  datatype CharClass =
    | Digit      // \d
    | Word       // \w
    | WordOrBar  // [\d|\w]: a word character or a literal bar

  predicate InClass(c: char, cls: CharClass) {
    match cls
    case Digit => IsDigit(c)
    case Word => IsAlphaNumeric(c) || c == '_'
    case WordOrBar => IsAlphaNumeric(c) || c == '_' || c == '|'
  }

  datatype Segment = Lit(text: string) | Capture(cls: CharClass)

  /** `^seg0 seg1 ... $`. */
  type Pattern = seq<Segment>

  /** Each capture ends the pattern or is followed by non-empty fixed text it cannot consume. */
  predicate WellFormed(pat: Pattern) {
    forall i :: 0 <= i < |pat| && pat[i].Capture? ==>
      i + 1 == |pat|
      || (pat[i + 1].Lit? && |pat[i + 1].text| > 0 && !InClass(pat[i + 1].text[0], pat[i].cls))
  }

  /** The length of the longest prefix of `s` made of `cls` characters. */
  function RunLength(s: string, cls: CharClass): (k: nat)
    ensures k <= |s|
    ensures forall i :: 0 <= i < k ==> InClass(s[i], cls)
    ensures k < |s| ==> !InClass(s[k], cls)
  {
    if s == [] || !InClass(s[0], cls) then 0 else 1 + RunLength(s[1..], cls)
  }

  /** A non-empty run of `cls` characters: what one capture group matches. */
  predicate IsRun(s: string, cls: CharClass) {
    |s| > 0 && forall i :: 0 <= i < |s| ==> InClass(s[i], cls)
  }

  /** The captured strings of a match of `pat`, in order, each a run of its class. */
  predicate ValidCaptures(pat: Pattern, caps: seq<string>)
    decreases |pat|
  {
    if pat == [] then caps == []
    else match pat[0]
      case Lit(_) => ValidCaptures(pat[1..], caps)
      case Capture(cls) => |caps| > 0 && IsRun(caps[0], cls) && ValidCaptures(pat[1..], caps[1..])
  }

  /** The text that `pat` matches with the captures `caps`. */
  function Render(pat: Pattern, caps: seq<string>): string
    requires ValidCaptures(pat, caps)
    decreases |pat|
  {
    if pat == [] then ""
    else match pat[0]
      case Lit(t) => t + Render(pat[1..], caps)
      case Capture(_) => caps[0] + Render(pat[1..], caps[1..])
  }

  /** `pattern.exec(s)`: the captured groups, or `None` (`null`) when `s` does not match. */
  function Match(pat: Pattern, s: string): Option<seq<string>>
    decreases |pat|
  {
    if pat == [] then (if s == [] then Some([]) else None)
    else match pat[0]
      case Lit(t) =>
        if |t| <= |s| && s[..|t|] == t then Match(pat[1..], s[|t|..]) else None
      case Capture(cls) =>
        var k := RunLength(s, cls);
        if k == 0 then None
        else match Match(pat[1..], s[k..])
          case None => None
          case Some(rest) => Some([s[..k]] + rest)
  }

  lemma WellFormedTail(pat: Pattern)
    requires pat != [] && WellFormed(pat)
    ensures WellFormed(pat[1..])
  {
    forall i | 0 <= i < |pat[1..]| && pat[1..][i].Capture?
      ensures i + 1 == |pat[1..]|
              || (pat[1..][i + 1].Lit? && |pat[1..][i + 1].text| > 0
                  && !InClass(pat[1..][i + 1].text[0], pat[1..][i].cls))
    {
      assert pat[i + 1] == pat[1..][i];
    }
  }

  /** The greedy run stops exactly where the class stops. */
  lemma RunLengthExact(s: string, cls: CharClass, n: nat)
    requires n <= |s| && forall i :: 0 <= i < n ==> InClass(s[i], cls)
    requires n < |s| ==> !InClass(s[n], cls)
    ensures RunLength(s, cls) == n
  {
  }

  /** Rendering captures and matching the text gives the captures back. */
  lemma {:induction false} MatchRender(pat: Pattern, caps: seq<string>)
    requires WellFormed(pat) && ValidCaptures(pat, caps)
    ensures Match(pat, Render(pat, caps)) == Some(caps)
    decreases |pat|
  {
    if pat != [] {
      WellFormedTail(pat);
      var s := Render(pat, caps);
      match pat[0]
      case Lit(t) =>
        MatchRender(pat[1..], caps);
        assert s[..|t|] == t && s[|t|..] == Render(pat[1..], caps);
      case Capture(cls) =>
        var cap := caps[0];
        var rest := Render(pat[1..], caps[1..]);
        MatchRender(pat[1..], caps[1..]);
        assert s == cap + rest;
        if |pat| == 1 {
          assert rest == "";
        } else {
          assert 0 + 1 < |pat|;
          var t := pat[1].text;
          assert rest == t + Render(pat[2..], caps[1..]) by {
            assert pat[1..][0] == pat[1];
            assert pat[1..][1..] == pat[2..];
          }
          assert s[|cap|] == t[0];
        }
        RunLengthExact(s, cls, |cap|);
        assert s[..|cap|] == cap && s[|cap|..] == rest;
        assert [cap] + caps[1..] == caps;
    }
  }

  /** Whatever text a pattern matches is the rendering of valid captures. */
  lemma {:induction false} RenderMatch(pat: Pattern, s: string)
    requires Match(pat, s).Some?
    ensures ValidCaptures(pat, Match(pat, s).value)
    ensures s == Render(pat, Match(pat, s).value)
    decreases |pat|
  {
    if pat != [] {
      match pat[0]
      case Lit(t) =>
        RenderMatch(pat[1..], s[|t|..]);
        assert s == s[..|t|] + s[|t|..];
      case Capture(cls) =>
        var k := RunLength(s, cls);
        var rest := Match(pat[1..], s[k..]).value;
        RenderMatch(pat[1..], s[k..]);
        var caps := [s[..k]] + rest;
        assert caps[0] == s[..k] && caps[1..] == rest;
        assert s == s[..k] + s[k..];
    }
  }

  /** A pattern whose fixed text starts differently from the input cannot match it. */
  lemma MatchLitMismatch(pat: Pattern, s: string, i: nat)
    requires pat != [] && pat[0].Lit? && i < |pat[0].text| && i < |s| && s[i] != pat[0].text[i]
    ensures Match(pat, s).None?
  {
    var t := pat[0].text;
    assert |t| <= |s| ==> s[..|t|][i] == s[i];
  }

  /** `^a(c1)b(c2)$`. */
  function TwoCaptures(a: string, c1: CharClass, b: string, c2: CharClass): Pattern {
    [Lit(a), Capture(c1), Lit(b), Capture(c2)]
  }

  /** One fixed-text-then-capture step of `ValidCaptures` and `Render`. */
  lemma LitCapStep(pat: Pattern, caps: seq<string>)
    requires |pat| >= 2 && pat[0].Lit? && pat[1].Capture?
    ensures ValidCaptures(pat, caps)
         == (|caps| > 0 && IsRun(caps[0], pat[1].cls) && ValidCaptures(pat[2..], caps[1..]))
    ensures ValidCaptures(pat, caps)
         ==> Render(pat, caps) == pat[0].text + caps[0] + Render(pat[2..], caps[1..])
  {
    assert pat[1..][0] == pat[1] && pat[1..][1..] == pat[2..];
  }

  /** Unfolds the captures and the rendering of a two-capture pattern. */
  lemma TwoCapturesShape(a: string, c1: CharClass, b: string, c2: CharClass, caps: seq<string>)
    ensures ValidCaptures(TwoCaptures(a, c1, b, c2), caps)
        <==> |caps| == 2 && IsRun(caps[0], c1) && IsRun(caps[1], c2)
    ensures ValidCaptures(TwoCaptures(a, c1, b, c2), caps)
        ==> Render(TwoCaptures(a, c1, b, c2), caps) == a + caps[0] + b + caps[1]
  {
    var p := TwoCaptures(a, c1, b, c2);
    var p2 := [Lit(b), Capture(c2)];
    assert p[2..] == p2 && p2[2..] == [];
    LitCapStep(p, caps);
    if |caps| > 0 {
      LitCapStep(p2, caps[1..]);
      if |caps| > 1 {
        assert caps[1..][1..] == caps[2..];
        assert caps[1..][0] == caps[1];
      }
    }
  }

  /** `^a(c1)b(c2)c(c3)d(c4)$`. */
  function FourCaptures(a: string, c1: CharClass, b: string, c2: CharClass,
                        c: string, c3: CharClass, d: string, c4: CharClass): Pattern {
    [Lit(a), Capture(c1)] + ([Lit(b), Capture(c2)] + TwoCaptures(c, c3, d, c4))
  }

  /** Fixed text and a capture in front of a pattern. */
  lemma PrefixStep(a: string, c: CharClass, rest: Pattern, caps: seq<string>)
    ensures ValidCaptures([Lit(a), Capture(c)] + rest, caps)
         == (|caps| > 0 && IsRun(caps[0], c) && ValidCaptures(rest, caps[1..]))
    ensures ValidCaptures([Lit(a), Capture(c)] + rest, caps)
         ==> Render([Lit(a), Capture(c)] + rest, caps) == a + caps[0] + Render(rest, caps[1..])
  {
    LitCapStep([Lit(a), Capture(c)] + rest, caps);
    assert ([Lit(a), Capture(c)] + rest)[2..] == rest;
  }

  /** The captures a four-capture pattern accepts: four runs of its classes. */
  lemma FourCapturesShape(a: string, c1: CharClass, b: string, c2: CharClass,
                          c: string, c3: CharClass, d: string, c4: CharClass, caps: seq<string>)
    ensures ValidCaptures(FourCaptures(a, c1, b, c2, c, c3, d, c4), caps)
        <==> |caps| == 4 && IsRun(caps[0], c1) && IsRun(caps[1], c2) && IsRun(caps[2], c3) && IsRun(caps[3], c4)
  {
    var q := TwoCaptures(c, c3, d, c4);
    var p2 := [Lit(b), Capture(c2)] + q;
    assert FourCaptures(a, c1, b, c2, c, c3, d, c4) == [Lit(a), Capture(c1)] + p2;
    PrefixStep(a, c1, p2, caps);
    if |caps| > 0 {
      var t := caps[1..];
      PrefixStep(b, c2, q, t);
      if |t| > 0 {
        var u := t[1..];
        assert u == caps[2..] && t[0] == caps[1];
        TwoCapturesShape(c, c3, d, c4, u);
        if |u| == 2 {
          assert u[0] == caps[2] && u[1] == caps[3];
        }
      }
    }
  }

  /** Fixed text and one capture put in front of a pattern and its captures. */
  lemma RenderPrefix(a: string, c: CharClass, rest: Pattern, x: string, more: seq<string>)
    requires IsRun(x, c) && ValidCaptures(rest, more)
    ensures ValidCaptures([Lit(a), Capture(c)] + rest, [x] + more)
    ensures Render([Lit(a), Capture(c)] + rest, [x] + more) == a + x + Render(rest, more)
  {
    var caps := [x] + more;
    assert caps[0] == x && caps[1..] == more;
    PrefixStep(a, c, rest, caps);
  }

  /** What a four-capture pattern renders: its fixed texts with the captures in between, in order. */
  lemma FourCapturesRender(a: string, c1: CharClass, b: string, c2: CharClass,
                           c: string, c3: CharClass, d: string, c4: CharClass,
                           x: string, y: string, z: string, w: string)
    requires IsRun(x, c1) && IsRun(y, c2) && IsRun(z, c3) && IsRun(w, c4)
    ensures ValidCaptures(FourCaptures(a, c1, b, c2, c, c3, d, c4), [x, y, z, w])
    ensures Render(FourCaptures(a, c1, b, c2, c, c3, d, c4), [x, y, z, w]) == a + x + b + y + c + z + d + w
  {
    var q := TwoCaptures(c, c3, d, c4);
    var p2 := [Lit(b), Capture(c2)] + q;
    TwoCapturesShape(c, c3, d, c4, [z, w]);
    RenderPrefix(b, c2, q, y, [z, w]);
    assert [y] + [z, w] == [y, z, w];
    RenderPrefix(a, c1, p2, x, [y, z, w]);
    assert [x] + [y, z, w] == [x, y, z, w];
  }

  // ---------------------------------------------------------------------------
  // The ledger's messages

  /** The prefix the ledger client puts on every error the node returns. */
  const APIPrefix: string := "[API Error] - "
  const NotEnough: string := "Not enough "

  // The fixed texts are written in pieces of at most forty characters so that
  // the verifier can look at their individual characters.
  const FeeText: string := APIPrefix + NotEnough + "balance for fee, " + "maybe transfer a smaller amount"
  const TransactionOutputText: string := APIPrefix + NotEnough + "ALPH for transaction output"
  const FundsHead: string := APIPrefix + NotEnough + "balance: got "
  const ALPHAndTokenChangeHead: string := APIPrefix + NotEnough + "ALPH for ALPH and token " + "change output, expected "
  const TokenChangeHead: string := APIPrefix + NotEnough + "ALPH for token change output, expected "
  const ApprovedBalanceHead: string :=
    APIPrefix + "Execution error when estimating gas " + "for tx script or contract: "
    + "Not enough approved balance for address "

  const NetworkFailureMessage: string := "fetch failed"

  const FeePattern: Pattern := [Lit(FeeText)]

  const TransactionOutputPattern: Pattern := [Lit(TransactionOutputText)]

  /** `got (\d+), expected (\d+)`: actual funds first, required second. */
  const FundsPattern: Pattern := TwoCaptures(FundsHead, Digit, ", expected ", Digit)

  /** `expected (\d+), got (\d+)`: expected funds first, actual second. */
  const ALPHAndTokenChangePattern: Pattern := TwoCaptures(ALPHAndTokenChangeHead, Digit, ", got ", Digit)

  const TokenChangePattern: Pattern := TwoCaptures(TokenChangeHead, Digit, ", got ", Digit)

  /** Address (`[\d|\w]+`), token id (`\w+`), expected and got amounts. */
  const ApprovedBalancePattern: Pattern :=
    FourCaptures(ApprovedBalanceHead, WordOrBar, ", tokenId: ", Word, ", expected: ", Digit, ", got: ", Digit)

  /** The text of an approved-balance message for the given address, token id and amounts. */
  function ApprovedBalanceMessage(address: string, token: string, expected: string, got: string): string {
    ApprovedBalanceHead + address + ", tokenId: " + token + ", expected: " + expected + ", got: " + got
  }

  /** The captures of an approved-balance match: an address, a token id and two amounts. */
  lemma ApprovedBalanceCaptures(caps: seq<string>)
    requires ValidCaptures(ApprovedBalancePattern, caps)
    ensures |caps| == 4 && IsRun(caps[0], WordOrBar) && IsRun(caps[1], Word)
    ensures IsDigits(caps[2]) && IsDigits(caps[3])
  {
    FourCapturesShape(ApprovedBalanceHead, WordOrBar, ", tokenId: ", Word, ", expected: ", Digit, ", got: ", Digit, caps);
  }

  /** The approved-balance message an address, a token id and two amounts render to. */
  lemma ApprovedBalanceRender(address: string, token: string, expected: string, got: string)
    requires IsRun(address, WordOrBar) && IsRun(token, Word) && IsRun(expected, Digit) && IsRun(got, Digit)
    ensures ValidCaptures(ApprovedBalancePattern, [address, token, expected, got])
    ensures Render(ApprovedBalancePattern, [address, token, expected, got])
         == ApprovedBalanceMessage(address, token, expected, got)
  {
    FourCapturesRender(ApprovedBalanceHead, WordOrBar, ", tokenId: ", Word, ", expected: ", Digit, ", got: ", Digit,
                       address, token, expected, got);
  }

  lemma TwoCapturesWellFormed(a: string, c1: CharClass, b: string, c2: CharClass)
    requires |b| > 0 && !InClass(b[0], c1)
    ensures WellFormed(TwoCaptures(a, c1, b, c2))
  {
  }

  lemma PatternsWellFormed()
    ensures WellFormed(FeePattern) && WellFormed(TransactionOutputPattern)
    ensures WellFormed(FundsPattern) && WellFormed(ALPHAndTokenChangePattern)
    ensures WellFormed(TokenChangePattern) && WellFormed(ApprovedBalancePattern)
  {
    assert !InClass(',', Digit) && !InClass(',', Word) && !InClass(',', WordOrBar);
    TwoCapturesWellFormed(FundsHead, Digit, ", expected ", Digit);
    TwoCapturesWellFormed(ALPHAndTokenChangeHead, Digit, ", got ", Digit);
    TwoCapturesWellFormed(TokenChangeHead, Digit, ", got ", Digit);
    var p := ApprovedBalancePattern;
    forall i | 0 <= i < |p| && p[i].Capture?
      ensures i + 1 == |p| || (p[i + 1].Lit? && |p[i + 1].text| > 0 && !InClass(p[i + 1].text[0], p[i].cls))
    {
      assert i == 1 || i == 3 || i == 5 || i == 7;
    }
  }

  // ---------------------------------------------------------------------------
  // Errors

  /** A string of decimal digits, as `\d+` captures it. */
  type DigitString = s: string | IsDigits(s) witness "0"

  /** Whatever a promise can be rejected with. */
  datatype Raised =
    | ErrorValue(message: Option<string>, errorCause: Option<Raised>)  // an `Error` from the ledger client, with its own `cause` if it has one
    | Typed(error: TypedError)             // an error built by this module
    | NonError(text: string)               // a value that is not an `Error`, such as a rejected string

  /**
   * The typed errors of src/error.ts. `GeneralError` hands the error it was
   * built from to `Error` as its options object, so `Error` installs only that
   * error's own `cause`: a typed error keeps neither the error nor its
   * message, only `cause`, and the values its constructor parsed.
   */
  datatype TypedError =
    | NetworkError(cause: Option<Raised>)
    | NotEnoughFunds(cause: Option<Raised>, actualFunds: DigitString, requiredFunds: DigitString)
    | NotEnoughBalanceForFee(cause: Option<Raised>)
    | NotEnoughALPHForTransactionOutput(cause: Option<Raised>)
    | NotEnoughALPHForALPHAndTokenChangeOutput(cause: Option<Raised>, expectedFunds: DigitString, actualFunds: DigitString)
    | NotEnoughALPHForTokenChangeOutput(cause: Option<Raised>, expectedFunds: DigitString, actualFunds: DigitString)
    | NotEnoughApprovedBalanceForAddress(cause: Option<Raised>, address: string, token: string,
                                         expected: string, actual: string)
    | InvalidAddress(invalidAddress: string)
    | GeneralError(generalMessage: string, generalCause: Option<Raised>)
  {
    /** The message each constructor passes to `super`. */
    function Message(): string {
      match this
      case NetworkError(_) => "network error"
      case NotEnoughFunds(_, _, _) => "not enough funds error"
      case NotEnoughBalanceForFee(_) => "not enough balance for fee"
      case NotEnoughALPHForTransactionOutput(_) => "not enough balance for fee"
      case NotEnoughALPHForALPHAndTokenChangeOutput(_, _, _) => "not enough ALPH for " + "ALPH and token change output error"
      case NotEnoughALPHForTokenChangeOutput(_, _, _) => "not enough ALPH for " + "token change output error"
      case NotEnoughApprovedBalanceForAddress(_, _, _, _, _) => "not enough approved " + "balance of token for address error"
      case InvalidAddress(_) => "invalid adress error"
      case GeneralError(m, _) => m
    }

    /** `actualFunds()`: `BigInt` of the captured digits. */
    function ActualFundsValue(): nat
      requires NotEnoughFunds? || NotEnoughALPHForALPHAndTokenChangeOutput? || NotEnoughALPHForTokenChangeOutput?
    {
      DigitsValue(actualFunds)
    }

    /** `requiredFunds()` of the insufficient-funds error. */
    function RequiredFundsValue(): nat
      requires NotEnoughFunds?
    {
      DigitsValue(requiredFunds)
    }

    /** `expectedFunds()` of the two change-output errors. */
    function ExpectedFundsValue(): nat
      requires NotEnoughALPHForALPHAndTokenChangeOutput? || NotEnoughALPHForTokenChangeOutput?
    {
      DigitsValue(expectedFunds)
    }
  }

  /** `err.message` where `err` is an `Error`; `None` for a missing message or a non-`Error`. */
  function MessageOf(r: Raised): Option<string> {
    match r
    case ErrorValue(m, _) => m
    case Typed(e) => Some(e.Message())
    case NonError(_) => None
  }

  /**
   * The `cause` property of a raised value, which is what `new Error(message, r)`
   * installs as its own `cause`; a value that is not an object has none.
   */
  function CauseOf(r: Raised): Option<Raised> {
    match r
    case ErrorValue(_, c) => c
    case Typed(e) =>
      (match e
       case InvalidAddress(_) => None
       case GeneralError(_, c) => c
       case _ => e.cause)
    case NonError(_) => None
  }

  /** The guard every classifier starts with: an `Error` that has a message. */
  predicate HasMessage(r: Raised) {
    !r.NonError? && MessageOf(r).Some?
  }

  /** `regex.exec(err.message)` on an `Error` with a message. */
  predicate Matches(r: Raised, pat: Pattern) {
    HasMessage(r) && Match(pat, MessageOf(r).value).Some?
  }

  /** `alphErrorIsNetworkError`: an `Error` whose message is exactly `"fetch failed"`. */
  function IsNetworkError(r: Raised): (b: bool)
    ensures r.ErrorValue? ==> (b <==> r.message == Some("fetch failed"))
    ensures b ==> !IsAPIError(r)
  {
    HasMessage(r) && MessageOf(r).value == NetworkFailureMessage
  }

  /** A single literal matches exactly its own text, since the patterns are anchored at both ends. */
  lemma LiteralMatch(t: string)
    ensures forall m :: Match([Lit(t)], m).Some? <==> m == t
  {
    forall m
      ensures Match([Lit(t)], m).Some? <==> m == t
    {
      assert [Lit(t)][1..] == [];
      if |t| <= |m| && m[..|t|] == t {
        assert m == t <==> m[|t|..] == [];
      }
    }
  }

  /** The fixed texts with two digit strings between them. */
  function Framed(a: string, x: string, b: string, y: string): string {
    a + x + b + y
  }

  /** A two-digit pattern matches exactly the messages made of its fixed texts around two digit strings. */
  lemma TwoDigitMatches(r: Raised, a: string, b: string)
    requires |b| > 0 && !IsDigit(b[0])
    ensures Matches(r, TwoCaptures(a, Digit, b, Digit)) <==>
      HasMessage(r) && exists x: DigitString, y: DigitString :: MessageOf(r).value == Framed(a, x, b, y)
  {
    if Matches(r, TwoCaptures(a, Digit, b, Digit)) {
      var pair := DigitPair(r, a, b);
      assert MessageOf(r).value == Framed(a, pair.value.0, b, pair.value.1);
    }
    if HasMessage(r) && exists x: DigitString, y: DigitString :: MessageOf(r).value == Framed(a, x, b, y) {
      var x: DigitString, y: DigitString :| MessageOf(r).value == Framed(a, x, b, y);
      DigitPairRoundTrip(a, b, x, y);
      assert Matches(ErrorValue(Some(a + x + b + y), None), TwoCaptures(a, Digit, b, Digit));
    }
  }

  /** `alphErrorIsNotEnoughBalanceForFeeError`: the message is exactly the fee sentence. */
  function IsNotEnoughBalanceForFeeError(r: Raised): (b: bool)
    ensures b <==> HasMessage(r) && MessageOf(r).value == FeeText
  {
    LiteralMatch(FeeText);
    Matches(r, FeePattern)
  }

  /** `alphErrorIsNotEnoughALPHForTransactionOutputError`: the message is exactly the output sentence. */
  function IsNotEnoughALPHForTransactionOutputError(r: Raised): (b: bool)
    ensures b <==> HasMessage(r) && MessageOf(r).value == TransactionOutputText
  {
    LiteralMatch(TransactionOutputText);
    Matches(r, TransactionOutputPattern)
  }

  /** `alphErrorIsNotEnoughFundsError`: the funds sentence with the actual and the required amounts. */
  function IsNotEnoughFundsError(r: Raised): (b: bool)
    ensures b <==> (HasMessage(r) &&
      exists got: DigitString, expected: DigitString :: MessageOf(r).value == Framed(FundsHead, got, ", expected ", expected))
  {
    TwoDigitMatches(r, FundsHead, ", expected ");
    Matches(r, FundsPattern)
  }

  /** `alphErrorIsNotEnoughALPHForALPHAndTokenChangeOutputError`: the change sentence with two amounts. */
  function IsNotEnoughALPHForALPHAndTokenChangeOutputError(r: Raised): (b: bool)
    ensures b <==> (HasMessage(r) &&
      exists expected: DigitString, got: DigitString :: MessageOf(r).value == Framed(ALPHAndTokenChangeHead, expected, ", got ", got))
  {
    TwoDigitMatches(r, ALPHAndTokenChangeHead, ", got ");
    Matches(r, ALPHAndTokenChangePattern)
  }

  /** `alphErrorIsNotEnoughALPHForTokenChangeOutputError`: the token-change sentence with two amounts. */
  function IsNotEnoughALPHForTokenChangeOutputError(r: Raised): (b: bool)
    ensures b <==> (HasMessage(r) &&
      exists expected: DigitString, got: DigitString :: MessageOf(r).value == Framed(TokenChangeHead, expected, ", got ", got))
  {
    TwoDigitMatches(r, TokenChangeHead, ", got ");
    Matches(r, TokenChangePattern)
  }

  /** The approved-balance pattern matches exactly the rendered approved-balance messages. */
  lemma ApprovedBalanceMatches(r: Raised)
    ensures Matches(r, ApprovedBalancePattern) <==> (HasMessage(r) &&
      exists address: string, token: string, expected: DigitString, got: DigitString ::
        IsRun(address, WordOrBar) && IsRun(token, Word) && MessageOf(r).value == ApprovedBalanceMessage(address, token, expected, got))
  {
    if Matches(r, ApprovedBalancePattern) {
      var caps := CapturesOf(r, ApprovedBalancePattern).value;
      ApprovedBalanceCaptures(caps);
      assert caps == [caps[0], caps[1], caps[2], caps[3]];
      ApprovedBalanceRender(caps[0], caps[1], caps[2], caps[3]);
      var e: DigitString, g: DigitString := caps[2], caps[3];
      assert MessageOf(r).value == ApprovedBalanceMessage(caps[0], caps[1], e, g);
    }
    if HasMessage(r) && exists address: string, token: string, expected: DigitString, got: DigitString ::
         IsRun(address, WordOrBar) && IsRun(token, Word) && MessageOf(r).value == ApprovedBalanceMessage(address, token, expected, got) {
      var address: string, token: string, expected: DigitString, got: DigitString :|
        IsRun(address, WordOrBar) && IsRun(token, Word) && MessageOf(r).value == ApprovedBalanceMessage(address, token, expected, got);
      ApprovedBalanceRender(address, token, expected, got);
      PatternsWellFormed();
      MatchRender(ApprovedBalancePattern, [address, token, expected, got]);
    }
  }

  /**
   * `alphErrorIsNotEnoughApprovedBalanceForAddress`: the approved-balance
   * sentence with an address, a token id and two amounts.
   */
  function IsNotEnoughApprovedBalanceForAddress(r: Raised): (b: bool)
    ensures b <==> (HasMessage(r) &&
      exists address: string, token: string, expected: DigitString, got: DigitString ::
        IsRun(address, WordOrBar) && IsRun(token, Word) && MessageOf(r).value == ApprovedBalanceMessage(address, token, expected, got))
  {
    ApprovedBalanceMatches(r);
    Matches(r, ApprovedBalancePattern)
  }

  // ---------------------------------------------------------------------------
  // Is it an API error at all?

  /**
   * The text `alphErrorIsAPIError` runs its pattern on: the message, or
   * `"undefined"` when there is none (the check has no guard, and `exec`
   * turns `undefined` into that text).
   */
  function ExecSubject(r: Raised): string {
    if HasMessage(r) then MessageOf(r).value else "undefined"
  }

  /** The bracket expression `[API Error]`: one character among `A P I space E r o`. */
  predicate InAPIErrorBracket(c: char) {
    c == 'A' || c == 'P' || c == 'I' || c == ' ' || c == 'E' || c == 'r' || c == 'o'
  }

  /** `alphErrorIsAPIError` as written: `^[API Error] - ` reads as one bracket character, then ` - `. */
  function IsAPIErrorAsWritten(r: Raised): (b: bool)
    ensures b ==> |ExecSubject(r)| >= 4 && ExecSubject(r)[0] != '['
    ensures !HasMessage(r) ==> !b
  {
    var m := ExecSubject(r);
    |m| >= 4 && InAPIErrorBracket(m[0]) && m[1..4] == " - "
  }

  /** `alphErrorIsAPIError` as evidently intended: the message starts with `[API Error] - `. */
  function IsAPIError(r: Raised): (b: bool)
    ensures b ==> HasMessage(r) && |MessageOf(r).value| > 0 && MessageOf(r).value[0] == '['
    ensures b ==> !IsAPIErrorAsWritten(r)
  {
    var m := ExecSubject(r);
    |APIPrefix| <= |m| && m[..|APIPrefix|] == APIPrefix
  }

  /** No message the node actually sends passes the check as written. */
  lemma APIErrorAsWrittenRejectsAPIMessages(r: Raised)
    requires IsAPIError(r)
    ensures !IsAPIErrorAsWritten(r)
  {
    var m := ExecSubject(r);
    assert m[0] == m[..|APIPrefix|][0] == '[';
  }

  /** ... while a message that is not from the node, such as `"r - x"`, passes it. */
  lemma APIErrorAsWrittenAcceptsOther()
    ensures IsAPIErrorAsWritten(ErrorValue(Some("r - x"), None))
    ensures !IsAPIError(ErrorValue(Some("r - x"), None))
  {
    assert "r - x"[1..4] == " - ";
  }

  /** A pattern whose fixed opening starts with the API prefix only matches API errors. */
  lemma MatchStartsWithAPIPrefix(pat: Pattern, m: string)
    requires pat != [] && pat[0].Lit? && Match(pat, m).Some?
    requires |APIPrefix| <= |pat[0].text| && pat[0].text[..|APIPrefix|] == APIPrefix
    ensures |APIPrefix| <= |m| && m[..|APIPrefix|] == APIPrefix
  {
    var t := pat[0].text;
    assert m[..|t|] == t;
    assert m[..|APIPrefix|] == m[..|t|][..|APIPrefix|];
  }

  /** The pattern starts with fixed text that opens with the API prefix. */
  predicate OpensWithAPIPrefix(pat: Pattern) {
    pat != [] && pat[0].Lit? && |APIPrefix| <= |pat[0].text| && pat[0].text[..|APIPrefix|] == APIPrefix
  }

  lemma FixedTextPatternsOpenWithAPIPrefix()
    ensures OpensWithAPIPrefix(FeePattern) && OpensWithAPIPrefix(TransactionOutputPattern)
  {
  }

  lemma CapturePatternsOpenWithAPIPrefix()
    ensures OpensWithAPIPrefix(FundsPattern) && OpensWithAPIPrefix(ALPHAndTokenChangePattern)
    ensures OpensWithAPIPrefix(TokenChangePattern) && OpensWithAPIPrefix(ApprovedBalancePattern)
  {
  }

  /** With the intended check, every message the classifiers recognise is an API error. */
  lemma ClassifiedErrorsAreAPIErrors(r: Raised)
    requires IsNotEnoughBalanceForFeeError(r) || IsNotEnoughALPHForTransactionOutputError(r)
      || IsNotEnoughFundsError(r) || IsNotEnoughALPHForALPHAndTokenChangeOutputError(r)
      || IsNotEnoughALPHForTokenChangeOutputError(r) || IsNotEnoughApprovedBalanceForAddress(r)
    ensures IsAPIError(r)
  {
    var m := MessageOf(r).value;
    FixedTextPatternsOpenWithAPIPrefix();
    CapturePatternsOpenWithAPIPrefix();
    var pat :=
      if IsNotEnoughBalanceForFeeError(r) then FeePattern
      else if IsNotEnoughALPHForTransactionOutputError(r) then TransactionOutputPattern
      else if IsNotEnoughFundsError(r) then FundsPattern
      else if IsNotEnoughALPHForALPHAndTokenChangeOutputError(r) then ALPHAndTokenChangePattern
      else if IsNotEnoughALPHForTokenChangeOutputError(r) then TokenChangePattern
      else ApprovedBalancePattern;
    assert OpensWithAPIPrefix(pat) && Match(pat, m).Some?;
    MatchStartsWithAPIPrefix(pat, m);
  }

  // ---------------------------------------------------------------------------
  // Typed-error constructors. Each re-runs its pattern on the message and
  // indexes the result; on a message that does not match, the result is
  // `null` and indexing it throws, which is the failure here.

  /** The exception raised when a constructor indexes a `null` match. */
  const TypeErrorOnNullMatch: string := "TypeError"

  function CapturesOf(r: Raised, pat: Pattern): (caps: Option<seq<string>>)
    ensures caps.Some? <==> Matches(r, pat)
    ensures caps.Some? ==> ValidCaptures(pat, caps.value) && MessageOf(r).value == Render(pat, caps.value)
  {
    if Matches(r, pat) then
      RenderMatch(pat, MessageOf(r).value);
      Match(pat, MessageOf(r).value)
    else None
  }

  /** The two groups of a two-capture digit pattern, as digit strings. */
  function DigitPair(r: Raised, a: string, b: string): (pair: Option<(DigitString, DigitString)>)
    ensures pair.Some? <==> Matches(r, TwoCaptures(a, Digit, b, Digit))
    ensures pair.Some? ==> MessageOf(r).value == a + pair.value.0 + b + pair.value.1
  {
    var pat := TwoCaptures(a, Digit, b, Digit);
    match CapturesOf(r, pat)
    case None => None
    case Some(caps) =>
      TwoCapturesShape(a, Digit, b, Digit, caps);
      Some((caps[0], caps[1]))
  }

  /** `new NotEnoughFundsError(err)`: actual funds from the first group, required from the second. */
  function NewNotEnoughFundsError(r: Raised): (e: Result<TypedError, string>)
    ensures e.Success? <==> IsNotEnoughFundsError(r)
    ensures e.Failure? ==> e.error == TypeErrorOnNullMatch
    ensures e.Success? ==>
      (e.value.NotEnoughFunds? && e.value.cause == CauseOf(r)
       && MessageOf(r).value
          == FundsHead + e.value.actualFunds + ", expected " + e.value.requiredFunds)
  {
    match DigitPair(r, FundsHead, ", expected ")
    case None => Failure(TypeErrorOnNullMatch)
    case Some((got, expected)) => Success(NotEnoughFunds(CauseOf(r), got, expected))
  }

  /** Keeps only the cause of the error it is built from, under its own fixed message. */
  function NewNotEnoughBalanceForFeeError(r: Raised): (e: TypedError)
    ensures e.NotEnoughBalanceForFee? && e.cause == CauseOf(r)
    ensures MessageOf(Typed(e)) == Some("not enough balance for fee")
  {
    NotEnoughBalanceForFee(CauseOf(r))
  }

  /** Keeps only the cause; its message repeats the fee error's text. */
  function NewNotEnoughALPHForTransactionOutputError(r: Raised): (e: TypedError)
    ensures e.NotEnoughALPHForTransactionOutput? && e.cause == CauseOf(r)
    ensures MessageOf(Typed(e)) == Some("not enough balance for fee")
  {
    NotEnoughALPHForTransactionOutput(CauseOf(r))
  }

  /** Expected funds from the first group, actual from the second. */
  function NewNotEnoughALPHForALPHAndTokenChangeOutputError(r: Raised): (e: Result<TypedError, string>)
    ensures e.Success? <==> IsNotEnoughALPHForALPHAndTokenChangeOutputError(r)
    ensures e.Failure? ==> e.error == TypeErrorOnNullMatch
    ensures e.Success? ==>
      (e.value.NotEnoughALPHForALPHAndTokenChangeOutput? && e.value.cause == CauseOf(r)
       && MessageOf(r).value
          == ALPHAndTokenChangeHead
             + e.value.expectedFunds + ", got " + e.value.actualFunds)
  {
    match DigitPair(r, ALPHAndTokenChangeHead, ", got ")
    case None => Failure(TypeErrorOnNullMatch)
    case Some((expected, got)) => Success(NotEnoughALPHForALPHAndTokenChangeOutput(CauseOf(r), expected, got))
  }

  /** Expected funds from the first group, actual from the second. */
  function NewNotEnoughALPHForTokenChangeOutputError(r: Raised): (e: Result<TypedError, string>)
    ensures e.Success? <==> IsNotEnoughALPHForTokenChangeOutputError(r)
    ensures e.Failure? ==> e.error == TypeErrorOnNullMatch
    ensures e.Success? ==>
      (e.value.NotEnoughALPHForTokenChangeOutput? && e.value.cause == CauseOf(r)
       && MessageOf(r).value
          == TokenChangeHead
             + e.value.expectedFunds + ", got " + e.value.actualFunds)
  {
    match DigitPair(r, TokenChangeHead, ", got ")
    case None => Failure(TypeErrorOnNullMatch)
    case Some((expected, got)) => Success(NotEnoughALPHForTokenChangeOutput(CauseOf(r), expected, got))
  }

  /** Address, token id, expected and got, in that order, kept as strings. */
  function NewNotEnoughApprovedBalanceForAddressError(r: Raised): (e: Result<TypedError, string>)
    ensures e.Success? <==> IsNotEnoughApprovedBalanceForAddress(r)
    ensures e.Failure? ==> e.error == TypeErrorOnNullMatch
    ensures e.Success? ==>
      (e.value.NotEnoughApprovedBalanceForAddress? && e.value.cause == CauseOf(r)
       && IsRun(e.value.address, WordOrBar) && IsRun(e.value.token, Word)
       && IsDigits(e.value.expected) && IsDigits(e.value.actual)
       && MessageOf(r).value
          == ApprovedBalanceMessage(e.value.address, e.value.token, e.value.expected, e.value.actual))
  {
    match CapturesOf(r, ApprovedBalancePattern)
    case None => Failure(TypeErrorOnNullMatch)
    case Some(caps) =>
      ApprovedBalanceCaptures(caps);
      assert caps == [caps[0], caps[1], caps[2], caps[3]];
      ApprovedBalanceRender(caps[0], caps[1], caps[2], caps[3]);
      Success(NotEnoughApprovedBalanceForAddress(CauseOf(r), caps[0], caps[1], caps[2], caps[3]))
  }

  // ---------------------------------------------------------------------------
  // Classification

  /**
   * `adaptError`: network, insufficient funds, fee, approved balance,
   * transaction output, ALPH-and-token change, in that order; anything else is
   * returned unchanged (the token-change-output error has no entry).
   */
  function AdaptError(r: Raised): (e: Raised)
    ensures IsNetworkError(r) ==> e == Typed(NetworkError(CauseOf(r)))
    ensures !IsNetworkError(r) && IsNotEnoughFundsError(r) ==>
      e.Typed? && e.error.NotEnoughFunds? && e.error.cause == CauseOf(r)
    ensures !IsNetworkError(r) && !IsNotEnoughFundsError(r) && IsNotEnoughBalanceForFeeError(r) ==>
      e == Typed(NotEnoughBalanceForFee(CauseOf(r)))
    ensures (!IsNetworkError(r) && !IsNotEnoughFundsError(r) && !IsNotEnoughBalanceForFeeError(r)
             && IsNotEnoughApprovedBalanceForAddress(r)) ==>
      e.Typed? && e.error.NotEnoughApprovedBalanceForAddress? && e.error.cause == CauseOf(r)
    ensures (!IsNetworkError(r) && !IsNotEnoughFundsError(r) && !IsNotEnoughBalanceForFeeError(r)
             && !IsNotEnoughApprovedBalanceForAddress(r) && IsNotEnoughALPHForTransactionOutputError(r)) ==>
      e == Typed(NotEnoughALPHForTransactionOutput(CauseOf(r)))
    ensures (!IsNetworkError(r) && !IsNotEnoughFundsError(r) && !IsNotEnoughBalanceForFeeError(r)
             && !IsNotEnoughApprovedBalanceForAddress(r) && !IsNotEnoughALPHForTransactionOutputError(r)
             && IsNotEnoughALPHForALPHAndTokenChangeOutputError(r)) ==>
      e.Typed? && e.error.NotEnoughALPHForALPHAndTokenChangeOutput? && e.error.cause == CauseOf(r)
    ensures e == r <==>
      !IsNetworkError(r) && !IsNotEnoughFundsError(r) && !IsNotEnoughBalanceForFeeError(r)
      && !IsNotEnoughApprovedBalanceForAddress(r) && !IsNotEnoughALPHForTransactionOutputError(r)
      && !IsNotEnoughALPHForALPHAndTokenChangeOutputError(r)
  {
    if IsNetworkError(r) then Typed(NetworkError(CauseOf(r)))
    else if IsNotEnoughFundsError(r) then Typed(NewNotEnoughFundsError(r).value)
    else if IsNotEnoughBalanceForFeeError(r) then Typed(NewNotEnoughBalanceForFeeError(r))
    else if IsNotEnoughApprovedBalanceForAddress(r) then Typed(NewNotEnoughApprovedBalanceForAddressError(r).value)
    else if IsNotEnoughALPHForTransactionOutputError(r) then Typed(NewNotEnoughALPHForTransactionOutputError(r))
    else if IsNotEnoughALPHForALPHAndTokenChangeOutputError(r) then
      Typed(NewNotEnoughALPHForALPHAndTokenChangeOutputError(r).value)
    else r
  }

  const ErrorWhilePrefix: string := "An error occured while "
  const ErrorWhileSuffix: string := ". Please try again later."

  /** `genUserMessageErrorWhile`: the action sits between the fixed opening and closing. */
  function GenUserMessageErrorWhile(action: string): (msg: string)
    ensures |msg| == |ErrorWhilePrefix| + |action| + |ErrorWhileSuffix|
    ensures msg[..|ErrorWhilePrefix|] == ErrorWhilePrefix
    ensures msg[|ErrorWhilePrefix|..|ErrorWhilePrefix| + |action|] == action
    ensures msg[|ErrorWhilePrefix| + |action|..] == ErrorWhileSuffix
  {
    ErrorWhilePrefix + action + ErrorWhileSuffix
  }

  /** Different actions give different user messages. */
  lemma GenUserMessageErrorWhileInjective(a: string, b: string)
    requires GenUserMessageErrorWhile(a) == GenUserMessageErrorWhile(b)
    ensures a == b
  {
    var m := GenUserMessageErrorWhile(a);
    assert |a| == |b|;
    assert a == m[|ErrorWhilePrefix|..|ErrorWhilePrefix| + |a|];
  }

  /** The two rejection reasons of `ErrorTypes`. */
  const UserAlreadyRegistered: string := "user already registered"
  const UnInitializedWallet: string :=
    "It seems that you haven't initialized your wallet yet. Hit `Start` in DM with me to do it!"

  // ---------------------------------------------------------------------------
  // Properties

  /** Two renderings of a two-digit-capture pattern agree only on the same captures. */
  lemma TwoCapturesRenderInjective(a: string, b: string, x1: string, y1: string, x2: string, y2: string)
    requires IsRun(x1, Digit) && IsRun(y1, Digit) && IsRun(x2, Digit) && IsRun(y2, Digit)
    requires |b| > 0 && !IsDigit(b[0])
    requires a + x1 + b + y1 == a + x2 + b + y2
    ensures x1 == x2 && y1 == y2
  {
    var p := TwoCaptures(a, Digit, b, Digit);
    TwoCapturesShape(a, Digit, b, Digit, [x1, y1]);
    TwoCapturesShape(a, Digit, b, Digit, [x2, y2]);
    TwoCapturesWellFormed(a, Digit, b, Digit);
    MatchRender(p, [x1, y1]);
    MatchRender(p, [x2, y2]);
  }

  /** Reading the two digit groups back from a rendered message gives them unchanged. */
  lemma DigitPairRoundTrip(a: string, b: string, x: DigitString, y: DigitString)
    requires |b| > 0 && !IsDigit(b[0])
    ensures DigitPair(ErrorValue(Some(a + x + b + y), None), a, b) == Some((x, y))
  {
    var p := TwoCaptures(a, Digit, b, Digit);
    TwoCapturesShape(a, Digit, b, Digit, [x, y]);
    TwoCapturesWellFormed(a, Digit, b, Digit);
    MatchRender(p, [x, y]);
    var pair := DigitPair(ErrorValue(Some(a + x + b + y), None), a, b);
    TwoCapturesRenderInjective(a, b, x, y, pair.value.0, pair.value.1);
  }

  /** The text of an insufficient-funds message. */
  function FundsMessage(got: string, expected: string): string {
    FundsHead + got + ", expected " + expected
  }

  /**
   * A message made of the fixed sentence around two digit strings is an
   * insufficient-funds error, and the error carries those digits as the
   * actual and the required funds.
   */
  lemma FundsRoundTrip(got: DigitString, expected: DigitString)
    ensures IsNotEnoughFundsError(ErrorValue(Some(FundsMessage(got, expected)), None))
    ensures NewNotEnoughFundsError(ErrorValue(Some(FundsMessage(got, expected)), None))
         == Success(NotEnoughFunds(None, got, expected))
  {
    DigitPairRoundTrip(FundsHead, ", expected ", got, expected);
  }

  lemma DigitsValueExamples()
    ensures DigitsValue("100") == 100 && DigitsValue("500") == 500
  {
    assert "100"[..2] == "10" && "10"[..1] == "1" && "1"[..0] == "";
    assert "500"[..2] == "50" && "50"[..1] == "5" && "5"[..0] == "";
  }

  /** The source's own example: "got 100, expected 500" gives actual 100 and required 500. */
  lemma FundsExample()
    ensures var e := NewNotEnoughFundsError(ErrorValue(Some(FundsMessage("100", "500")), None));
      e.Success? && e.value.ActualFundsValue() == 100 && e.value.RequiredFundsValue() == 500
  {
    assert IsDigits("100") && IsDigits("500");
    FundsRoundTrip("100", "500");
    DigitsValueExamples();
  }


  /**
   * The change-output errors read their groups the other way round from the
   * insufficient-funds error: the first number is the expected funds, the
   * second the actual funds.
   */
  lemma ALPHAndTokenChangeCaptureOrder(expected: DigitString, got: DigitString)
    ensures var r := ErrorValue(Some(ALPHAndTokenChangeHead + expected + ", got " + got), None);
      NewNotEnoughALPHForALPHAndTokenChangeOutputError(r)
        == Success(NotEnoughALPHForALPHAndTokenChangeOutput(None, expected, got))
  {
    DigitPairRoundTrip(ALPHAndTokenChangeHead, ", got ", expected, got);
  }

  lemma TokenChangeCaptureOrder(expected: DigitString, got: DigitString)
    ensures var r := ErrorValue(Some(TokenChangeHead + expected + ", got " + got), None);
      NewNotEnoughALPHForTokenChangeOutputError(r)
        == Success(NotEnoughALPHForTokenChangeOutput(None, expected, got))
  {
    DigitPairRoundTrip(TokenChangeHead, ", got ", expected, got);
  }

  /**
   * A message built from an address, a token id and two amounts is an
   * approved-balance error, and the error carries them as the address, the
   * token, the expected and the actual amount, in that order.
   */
  lemma ApprovedBalanceRoundTrip(address: string, token: string, expected: DigitString, got: DigitString)
    requires IsRun(address, WordOrBar) && IsRun(token, Word)
    ensures var r := ErrorValue(Some(ApprovedBalanceMessage(address, token, expected, got)), None);
      NewNotEnoughApprovedBalanceForAddressError(r)
        == Success(NotEnoughApprovedBalanceForAddress(None, address, token, expected, got))
  {
    var caps := [address, token, expected, got];
    ApprovedBalanceRender(address, token, expected, got);
    PatternsWellFormed();
    MatchRender(ApprovedBalancePattern, caps);
  }

  /** No typed error's own message is `"fetch failed"` or starts with `[`. */
  lemma TypedMessageShape(e: TypedError)
    requires !e.GeneralError?
    ensures e.Message() != NetworkFailureMessage
    ensures |e.Message()| > 0 && e.Message()[0] != '['
  {
    match e
    case NetworkError(_) =>
    case NotEnoughFunds(_, _, _) =>
    case NotEnoughBalanceForFee(_) =>
    case NotEnoughALPHForTransactionOutput(_) =>
    case NotEnoughALPHForALPHAndTokenChangeOutput(_, _, _) =>
    case NotEnoughALPHForTokenChangeOutput(_, _, _) =>
    case NotEnoughApprovedBalanceForAddress(_, _, _, _, _) =>
    case InvalidAddress(_) =>
  }

  /** A typed error's own message matches none of the ledger patterns. */
  lemma TypedMessagesUnclassified(e: TypedError)
    requires !e.GeneralError?
    ensures !IsNetworkError(Typed(e))
    ensures !IsNotEnoughFundsError(Typed(e)) && !IsNotEnoughBalanceForFeeError(Typed(e))
    ensures !IsNotEnoughApprovedBalanceForAddress(Typed(e)) && !IsNotEnoughALPHForTransactionOutputError(Typed(e))
    ensures !IsNotEnoughALPHForALPHAndTokenChangeOutputError(Typed(e))
  {
    var m := e.Message();
    TypedMessageShape(e);
    MatchLitMismatch(FundsPattern, m, 0);
    MatchLitMismatch(FeePattern, m, 0);
    MatchLitMismatch(ApprovedBalancePattern, m, 0);
    MatchLitMismatch(TransactionOutputPattern, m, 0);
    MatchLitMismatch(ALPHAndTokenChangePattern, m, 0);
  }

  /** Classifying an already classified error changes nothing. */
  lemma AdaptErrorIdempotent(r: Raised)
    ensures AdaptError(AdaptError(r)) == AdaptError(r)
  {
    var a := AdaptError(r);
    if a != r {
      TypedMessagesUnclassified(a.error);
    }
  }

  /**
   * An adapted error keeps only the `cause` of the error it types: its message
   * is its own fixed text, never the message it was classified by.
   */
  lemma AdaptKeepsOnlyCause(r: Raised)
    requires AdaptError(r) != r
    ensures AdaptError(r).Typed? && CauseOf(AdaptError(r)) == CauseOf(r)
    ensures MessageOf(AdaptError(r)) != MessageOf(r)
  {
    var a := AdaptError(r);
    TypedMessageShape(a.error);
    if !IsNetworkError(r) {
      ClassifiedErrorsAreAPIErrors(r);
    }
  }

  /** A text starting with `head` is not matched by a pattern whose opening differs from `head` at `i`. */
  lemma HeadMismatch(pat: Pattern, head: string, m: string, i: nat)
    requires |head| <= |m| && m[..|head|] == head
    requires pat != [] && pat[0].Lit? && i < |pat[0].text| && i < |head| && head[i] != pat[0].text[i]
    ensures Match(pat, m).None?
  {
    assert m[i] == m[..|head|][i];
    MatchLitMismatch(pat, m, i);
  }

  /** A token-change-output message matches none of the patterns `adaptError` tries. */
  lemma TokenChangeOutputUnclassified(m: string)
    requires |TokenChangeHead| <= |m| && m[..|TokenChangeHead|] == TokenChangeHead
    ensures m != NetworkFailureMessage
    ensures Match(FundsPattern, m).None? && Match(FeePattern, m).None?
    ensures Match(ApprovedBalancePattern, m).None? && Match(TransactionOutputPattern, m).None?
    ensures Match(ALPHAndTokenChangePattern, m).None?
  {
    TokenChangeNotFundsOrFee(m);
    TokenChangeNotOtherOutputs(m);
  }

  lemma TokenChangeNotFundsOrFee(m: string)
    requires |TokenChangeHead| <= |m| && m[..|TokenChangeHead|] == TokenChangeHead
    ensures m != NetworkFailureMessage
    ensures Match(FundsPattern, m).None? && Match(FeePattern, m).None?
  {
    HeadMismatch(FundsPattern, TokenChangeHead, m, 25);
    HeadMismatch(FeePattern, TokenChangeHead, m, 25);
  }

  lemma TokenChangeNotOtherOutputs(m: string)
    requires |TokenChangeHead| <= |m| && m[..|TokenChangeHead|] == TokenChangeHead
    ensures Match(ApprovedBalancePattern, m).None? && Match(TransactionOutputPattern, m).None?
    ensures Match(ALPHAndTokenChangePattern, m).None?
  {
    TokenChangeNotApprovedBalance(m);
    HeadMismatch(TransactionOutputPattern, TokenChangeHead, m, 35);
    HeadMismatch(ALPHAndTokenChangePattern, TokenChangeHead, m, 34);
  }

  lemma TokenChangeNotApprovedBalance(m: string)
    requires |TokenChangeHead| <= |m| && m[..|TokenChangeHead|] == TokenChangeHead
    ensures Match(ApprovedBalancePattern, m).None?
  {
    HeadMismatch(ApprovedBalancePattern, TokenChangeHead, m, 14);
  }

  /**
   * A token-change-output error is recognised by its own predicate but not
   * classified: `adaptError` has no entry for it, so it comes back unchanged.
   */
  lemma TokenChangeOutputPassesThrough(expected: DigitString, got: DigitString)
    ensures var r := ErrorValue(Some(TokenChangeHead + expected + ", got " + got), None);
      IsNotEnoughALPHForTokenChangeOutputError(r) && AdaptError(r) == r
  {
    var m := TokenChangeHead + expected + ", got " + got;
    TokenChangeCaptureOrder(expected, got);
    assert m[..|TokenChangeHead|] == TokenChangeHead;
    TokenChangeOutputUnclassified(m);
  }
}
