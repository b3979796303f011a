# tipALPH in Dafny

tipALPH is a Telegram bot that keeps one custodial Alephium wallet per
Telegram user. Users can tip each other by replying to a message, withdraw
to an outside address, and consolidate their UTXOs. The operator takes a
percentage fee on withdrawals.

This project models the bot's core:

- **The user table and check-then-insert registration** (`Users`). Registration assigns a primary key and derives the wallet address from it.
- **The ledger client** (`AlphClient`, from `src/services/alephium.ts`). It covers:
  - waiting for confirmations;
  - token balances converted into user balances;
  - transfer and withdrawal destinations, with the operator fee split;
  - consolidation;
  - the paged total over all users.
- **The older ALPH-only client** (`LegacyAlphClient`, from `src/alephium.ts`). It includes the base58 address check.
- **Error classification** (`LedgerErrors`, from `src/error.ts`). Node error messages are matched against their patterns and turned into typed errors. `GeneralError` passes the original error to `Error` as its options object (src/error.ts:23-26), so a typed error keeps only that error's own `cause`, not the error or its message.
- **Token amounts and their sums** (`TokenAmounts`, `TokenManager`, `Tokens`, `GroupBy`). A `TokenAmount` is mutable; user balances are summed per token symbol.
- **The displayed transaction status** (`TransactionStatuses`).
- **The leave-request bookkeeping** (`Leaving`).
- **The environment configuration** (`Config`).
- **The Telegram front end** (`Bot`). It covers:
  - the middleware chain that admits updates;
  - the parsing of `/tip` and `/withdraw` payloads;
  - the decisions each command handler takes.

## How the model is built

- **Node and ledger answers are inputs.** The node's answers are plain parameters: transaction statuses, balances, sweep results and submission results. The HD-wallet derivation is the parameter `derive: nat -> string`, and the amount conversion of the web3 library is the parameter `convert`.
- **Classes where the source mutates in place.** Objects whose fields the source updates become classes with `modifies` clauses:
  - the user repository (`Users.UserStore`);
  - `TokenAmount`;
  - `TransactionStatus` and its display callback;
  - `LeavingService`.
- **Loops stay loops.** The loops of the source are methods with loop invariants:
  - the status polling of `waitTxConfirmed`;
  - the paging loop of `getTotalTokenAmount`;
  - the `groupBy` reduce;
  - the expiry sweep of `removeOldAttempts`.
- **Integer division.** `BigInt` division truncates toward zero. It is written out as `TokenAmounts.TruncDiv`, because Dafny's `/` is Euclidean.

## Model

| member | source | states |
|---|---|---|
| Tokens.NewToken | src/db/token.ts:8-15 | a new token has exactly the given id, name, symbol and decimals, and no description or logo |
| Tokens.Token.IsALPH | src/db/token.ts:37-39 | true exactly when the symbol is "ALPH", compared case-sensitively |
| Tokens.Token.ToString | src/db/token.ts:35 | the symbol, then " (id: ", then the id, then ")" |
| Tokens.IsALPHBySymbolOnly | src/db/token.ts:37-39 | whether a token is ALPH depends on its symbol alone: any two tokens with the same symbol agree |
| Tokens.IsALPHCaseSensitive | src/db/token.ts:37-39 | the ALPH test is case-sensitive: symbol "alph" is not ALPH |
| Tokens.ToStringDeterminesId | src/db/token.ts:35 | the display string "SYMBOL (id: ID)" determines the id once the symbol is known |
| TokenAmounts.TokenAmount.constructor | src/tokens/tokenAmount.ts:9-12 | a new amount holds the given number and token |
| TokenAmounts.Percentage | src/tokens/tokenAmount.ts:14-16 | `amount*percentage/100` rounds toward zero: for a non-negative product P the result p has 100p <= P < 100p + 100, and for a negative product 100p - 100 < P <= 100p |
| TokenAmounts.TokenAmount.ComputeAmountPercentage | src/tokens/tokenAmount.ts:14-16 | the same toward-zero bounds, for this amount's own magnitude |
| TokenAmounts.TokenAmount.SubstractAndGetPercentage | src/tokens/tokenAmount.ts:14-23 | returns a fresh amount of the same token worth the percentage truncated toward zero, and lowers this amount by exactly that, so the two add up to the old amount |
| TokenAmounts.TokenAmount.GetPercentage | src/tokens/tokenAmount.ts:25-27 | returns a fresh amount of the same token worth the truncated percentage, and leaves this one unchanged |
| TokenAmounts.ReadThenSplit | src/tokens/tokenAmount.ts:19-27 | reading the percentage first and then splitting off the fee gives the same magnitude twice, and the remainder plus the fee equals the original |
| TokenAmounts.PercentageTruncatesTowardZero | src/tokens/tokenAmount.ts:14-16 | `amount*p/100` rounds toward zero: the discarded remainder has the product's sign and is below 100 in size, and negating the amount negates the result |
| TokenAmounts.PercentageBounds | src/tokens/tokenAmount.ts:14-16 | for a non-negative amount and a percentage in 0..100, the fee lies between 0 and the amount, so the remainder is never negative |
| TokenAmounts.PercentageExamples | src/tokens/tokenAmount.ts:14-23 | 3% of 100 is 3, leaving 97; 3% of 199 is 5, leaving 194; 3% of -199 is -5 |
| TokenAmounts.SumSimilarTokenAmounts | src/tokens/tokenAmount.ts:41-48 | undefined exactly for an empty list; otherwise the first element's token with the sum of all amounts |
| TokenAmounts.SumAmountsConcat | src/tokens/tokenAmount.ts:45-47 | the sum of amounts is additive over concatenation |
| TokenAmounts.GroupSumIsTotal | src/tokens/tokenAmount.ts:50-53 | summing the group of one symbol gives that symbol's total in the whole list |
| TokenAmounts.MergeGroupsShape | src/tokens/tokenAmount.ts:52 | mapping over the group keys yields one amount per key, in key order, carrying that key's symbol and total |
| TokenAmounts.MergeGroupsTotal | src/tokens/tokenAmount.ts:52 | over distinct non-empty keys, the merged list's total for a symbol equals the input's total if the symbol is a key, and 0 otherwise |
| TokenAmounts.AbsentSymbolTotalsZero | src/tokens/tokenAmount.ts:50-53 | a symbol that is not a group key has total 0 |
| TokenAmounts.SumTokenAmountsSpec | src/tokens/tokenAmount.ts:50-54 | `sumTokenAmounts` gives one entry per distinct symbol, in the order the symbols are first inserted into the record, with no symbol twice; each symbol's total is preserved, including 0 for absent symbols |
| TokenAmounts.SumTokenAmounts | src/tokens/tokenAmount.ts:50-54 | every entry's symbol occurs in the input, and every input symbol has an entry |
| TokenAmounts.SumUserBalance | src/tokens/tokenAmount.ts:56-58 | for every symbol, the result totals the same as all the balances flattened into one list |
| TokenAmounts.FlattenConcat | src/tokens/tokenAmount.ts:56-58 | flattening a list of balances is additive over concatenation |
| TokenAmounts.SumUserBalanceTotals | src/tokens/tokenAmount.ts:56-58 | `sumUserBalance` preserves every symbol's total of the flattened balances |
| TokenAmounts.PartialSumsCompose | src/services/alephium.ts:233-235 | summing two partial sums gives the same per-symbol totals as summing everything at once, which the paging loop relies on |
| GroupBy.GroupByKey | src/utils.ts:3-7 | the reduce loop returns the keys in the order they are first inserted, with a group for exactly those keys, each holding the items of that key in input order |
| GroupBy.GroupKeysDistinct | src/utils.ts:3-7 | no key appears twice in the key list |
| GroupBy.GroupKeysAreInputKeys | src/utils.ts:3-7 | a value is a key exactly when some item maps to it |
| GroupBy.GroupMembers | src/utils.ts:5 | a group contains exactly the items of that key |
| GroupBy.ItemInItsGroup | src/utils.ts:5 | every item's key is listed and the item is in its group |
| GroupBy.GroupConcat | src/utils.ts:4-6 | grouping distributes over concatenation of the input |
| GroupBy.GroupsNonEmpty | src/utils.ts:5 | every listed key has a non-empty group |
| GroupBy.AbsentKeyEmptyGroup | src/utils.ts:5 | a key no item maps to has an empty group |
| GroupBy.GroupSizesSum | src/utils.ts:3-7 | the group sizes add up to the input length, so every item lands in exactly one group |
| TokenManager.FindFirst | src/tokenManager.ts:45-55 | `findOneBy` returns nothing exactly when no row matches, and otherwise the first matching row |
| TokenManager.GetTokenAmountFromIdAmount | src/tokenManager.ts:57-63 | rejects with the not-found message exactly when no token has that id; otherwise returns the stored token with that id and the given amount |
| TokenManager.GetTokenAmountByTokenSymbol | src/tokenManager.ts:49-51 | undefined exactly when no token symbol matches case-insensitively; otherwise a stored token whose lower-cased symbol matches, with the amount converted using that token's decimals (the call is at src/tokenManager.ts:65-71) |
| Users.NewUser | src/db/user.ts:5-8 | a new user has the given Telegram id and username, and no id and no address yet |
| Users.FindByTelegramId | src/db/user.ts:4-18 | `findOneBy({telegramId})` is null exactly when no row has that Telegram id, and otherwise a stored row with that id |
| Users.ReplaceById | src/services/alephium.ts:63 | saving a user that has an id overwrites exactly the rows with that id and keeps the others in place |
| Users.UserStore.constructor | src/db/user.ts:10-11 | an empty table whose generated keys start at 1 |
| Users.UserStore.ExistsBy | src/services/alephium.ts:58 | true exactly when some row has the Telegram id |
| Users.UserStore.FindOneBy | src/db/user.ts:4-18 | returns the first row with the Telegram id, or nothing |
| Users.UserStore.Count | src/telegram/bot.ts:299 | the number of stored rows |
| Users.UserStore.Save | src/services/alephium.ts:61-63 | a user without an id is appended under the next key; a user with an id overwrites that row, or is appended if none exists; keys stay unique and below the next key |
| Users.RegisterUser | src/services/alephium.ts:56-65 | an already registered Telegram id is rejected with "user already registered" and nothing is written, whether or not the user object already carries an id; otherwise the user is saved under its own id or the next key, with the address derived from that key, and returned |
| Users.SavedRows | src/services/alephium.ts:62-64 | saving a user that carries an id overwrites the row with that id, or appends the user when no row has it |
| Users.SaveTwice | src/services/alephium.ts:62-64 | saving under an id and then saving again under the same id leaves the rows one save of the second value would |
| Users.RegisterTwice | tests/alephium.test.ts:59-64 | registering a new user and then the same object again, as `save` left it with its id, succeeds once and then rejects, leaving one new row |
| Users.RegisteredIsFound | src/telegram/bot.ts:59-60 | after registration the user is found by its Telegram id |
| Leaving.Sweep | src/services/leavingService.ts:46-55 | keeps exactly the attempts not older than the expiration delay, with their times unchanged |
| Leaving.Without | src/services/leavingService.ts:34 | removes exactly the given user and keeps the others distinct |
| Leaving.LeavingService.constructor | src/services/leavingService.ts:12-16 | starts with no attempts and the given delay |
| Leaving.LeavingService.RegisterLeavingIntention | src/services/leavingService.ts:26-30 | records the current time for the user, replacing any earlier time |
| Leaving.LeavingService.RemoveUserLeavingIntention | src/services/leavingService.ts:32-36 | deletes exactly that user's attempt |
| Leaving.LeavingService.DidUserAlreadyRegisteredIntention | src/services/leavingService.ts:38-44 | true exactly when the user has an attempt younger than the delay |
| Leaving.LeavingService.RemoveOldAttempts | src/services/leavingService.ts:46-55 | the loop leaves the attempts equal to the sweep of the old attempts at the current time |
| Leaving.SweepPreservesAnswers | src/services/leavingService.ts:41-51 | the sweep never changes the answer of the registered-intention query at the same time |
| Leaving.ExpiryBoundary | src/services/leavingService.ts:41-51 | an attempt exactly as old as the delay survives the sweep, but no longer counts as registered |
| Leaving.RegisterThenQuery | src/services/leavingService.ts:26-44 | right after registering, the query says yes exactly when the delay is positive |
| Leaving.RegisterTwiceKeepsLatest | src/services/leavingService.ts:28 | registering twice keeps only the latest time |
| Leaving.SweepIdempotent | src/services/leavingService.ts:46-55 | sweeping twice at the same time equals sweeping once |
| Leaving.RemoveThenQuery | src/services/leavingService.ts:32-44 | after removal the user is not registered, and every other user's answer is unchanged |
| TransactionStatuses.Displayer.constructor | src/transactionStatus.ts:22 | a display callback that has shown nothing |
| TransactionStatuses.Displayer.Display | src/transactionStatus.ts:22 | appends exactly the message to what was shown |
| TransactionStatuses.TxIdText | src/transactionStatus.ts:61-66 | empty exactly when the explorer or the transaction id is missing; otherwise the HTML link wrapping "explorer/transactions/id" |
| TransactionStatuses.UpdateMsg | src/transactionStatus.ts:68-70 | the base message, then the status label, then the state's text and the link text |
| TransactionStatuses.TransactionState.ToString | src/transactionStatus.ts:12-14 | the emoji, one space, then the state's text |
| TransactionStatuses.TransactionStatus.GenTxIdText | src/transactionStatus.ts:61-66 | empty exactly when the explorer address or the transaction id is missing; otherwise the link opening, then explorer + "/transactions/" + id, then the link closing |
| TransactionStatuses.TransactionStatus.GenUpdateMsg | src/transactionStatus.ts:68-70 | the base message and the status label, followed by the state's rendering and then the link text |
| TransactionStatuses.TransactionStatus.ToString | src/transactionStatus.ts:77-79 | the same message the update displays, which always begins with the base message |
| TransactionStatuses.TransactionStatus.constructor | src/transactionStatus.ts:30-34 | holds the base message, the optional displayer and the initial state, with no transaction id |
| TransactionStatuses.TransactionStatus.SetDisplayUpdate | src/transactionStatus.ts:36-39 | replaces only the displayer and returns the same object |
| TransactionStatuses.TransactionStatus.SetPending | src/transactionStatus.ts:41-44 | sets only the state to pending and returns the same object |
| TransactionStatuses.TransactionStatus.SetConfirmed | src/transactionStatus.ts:46-49 | sets only the state to confirmed and returns the same object |
| TransactionStatuses.TransactionStatus.SetFailed | src/transactionStatus.ts:51-54 | sets only the state to failed and returns the same object |
| TransactionStatuses.TransactionStatus.SetTransactionId | src/transactionStatus.ts:56-59 | sets only the transaction id and returns the same object |
| TransactionStatuses.TransactionStatus.DisplayUpdate | src/transactionStatus.ts:72-79 | when a displayer is set, shows exactly the update message, which is also what `toString` returns; otherwise nothing happens |
| TransactionStatuses.StatesRenderDistinctly | src/transactionStatus.ts:12-19 | pending, confirmed and failed render differently |
| TransactionStatuses.TxIdTextInjective | src/transactionStatus.ts:61-66 | for a fixed explorer, the link text determines the transaction id |
| TransactionStatuses.AnyTransitionSequence | src/transactionStatus.ts:41-54 | after any sequence of setter calls the state is the last setter's (unchanged for none), the message reflects that state only, and the id and displayer are untouched |
| TransactionStatuses.MessageWithoutId | src/transactionStatus.ts:61-70 | without a transaction id the message ends with the state's text |
| Text.TrimStripsUnicodeSpaces | src/telegram/bot.ts:126 | `trim` removes Unicode white space as well as ASCII: a payload between a no-break space and an ideographic space trims to the bare payload |
| Text.Trim | src/telegram/bot.ts:126 | the result is no longer than the input and neither starts nor ends with white space; a text without white space at its ends is left unchanged |
| Text.TrimRemovesEndSpace | src/telegram/bot.ts:126 | the trimmed text is the input with the white space at its ends removed: a piece of the input with only white space before and after it |
| Text.ReplaceFirst | src/telegram/bot.ts:126 | replaces only the first occurrence of the pattern, wherever it is, keeping the text before and after it; unchanged when the pattern occurs nowhere |
| Config.ParseNumber | src/config.ts:64 | `Number()` on a string, after trimming JavaScript white space: blank gives 0, a digit string gives its value, "-digits" its negation and "+digits" its value, and no other string gives an integer |
| Config.NatDigits | src/config.ts:64 | the decimal writing of a natural number reads back to it and has no leading zero |
| Config.DecimalString | src/config.ts:64 | the decimal writing of an integer is digits, with a leading '-' for negatives |
| Config.ParseNumberRoundTrip | src/config.ts:64 | `Number()` reads back every integer's decimal writing |
| Config.ParseDigits | src/config.ts:93-95 | a digit string parses to its value |
| Config.Network | src/config.ts:70 | always a known network up to case; the NETWORK variable is kept verbatim, casing included, when its lower-case form is known, and otherwise it is "devnet" |
| Config.ExplorerAddress | src/config.ts:71-80 | defined exactly for "mainnet" and "testnet", with their two explorer URLs |
| Config.IsOnDevNet | src/config.ts:81 | being on devnet implies a known network with no explorer, written without capital letters |
| Config.NetworkKeepsCasing | src/config.ts:70-81 | NETWORK=DEVNET is kept as "DEVNET", which is neither on devnet nor given an explorer |
| Config.UnknownNetworkIsDevnet | src/config.ts:70-81 | a missing or unknown network falls back to devnet, with no explorer |
| Config.NonEmpty | src/config.ts:64 | the filter keeps exactly the non-empty parts |
| Config.ParseAll | src/config.ts:64 | maps `Number()` over the parts, one result per part |
| Config.Admins | src/config.ts:64 | an absent or empty TG_ADMIN_UIDS gives no admins |
| Config.IdList | src/config.ts:64 | one decimal string per id |
| Config.SplitJoin | src/config.ts:64 | splitting a joined list of separator-free parts gives the parts back |
| Config.AdminsRoundTrip | src/config.ts:64 | TG_ADMIN_UIDS set to comma-joined ids yields exactly those ids, in order |
| Config.DefaultDatabasePath | src/config.ts:67 | "./data/" + network + ".database.sqlite" |
| Config.LoadConfig | src/config.ts:52-99 | the network is always known, and there are always four operator addresses |
| Config.DefaultNetworkSettings | src/config.ts:64-70 | an empty environment gives devnet, the devnet database path and no admins |
| Config.DefaultOperatorSettings | src/config.ts:82-91 | an empty environment gives 0% fees and four undefined operator addresses |
| Config.DefaultConsolidationThreshold | src/config.ts:93 | an empty environment gives 50 UTXOs before consolidation |
| Config.DefaultConfirmations | src/config.ts:94-95 | an empty environment gives 1 confirmation each for internal and external transfers |
| Config.DefaultFlags | src/config.ts:96-97 | an empty environment turns off mempool use and admin-only mode |
| Config.Flag | src/config.ts:96-97 | on exactly when the variable is set to a four-character value that lower-cases letter by letter to "true" |
| Config.FlagIgnoresCase | src/config.ts:96-97 | "TRUE" and "True" turn a flag on; a value whose length is not 4 never does |
| LedgerErrors.RunLength | src/error.ts:87-112 | the longest prefix in a regex character class: every character before it is in the class, and the next one is not |
| LedgerErrors.IsNetworkError | src/error.ts:33-35 | for a raised Error, true exactly when its message is "fetch failed"; a network error is never an API error |
| LedgerErrors.IsNotEnoughBalanceForFeeError | src/error.ts:56-63 | true exactly when the error has a message and it is "[API Error] - Not enough balance for fee, maybe transfer a smaller amount" |
| LedgerErrors.IsNotEnoughALPHForTransactionOutputError | src/error.ts:71-78 | true exactly when the error has a message and it is "[API Error] - Not enough ALPH for transaction output" |
| LedgerErrors.IsNotEnoughFundsError | src/error.ts:86-95 | true exactly when the message is "[API Error] - Not enough balance: got X, expected Y" for some digit strings X and Y |
| LedgerErrors.IsNotEnoughALPHForALPHAndTokenChangeOutputError | src/error.ts:114-123 | true exactly when the message is "[API Error] - Not enough ALPH for ALPH and token change output, expected X, got Y" for some digit strings X and Y |
| LedgerErrors.IsNotEnoughALPHForTokenChangeOutputError | src/error.ts:142-151 | true exactly when the message is "[API Error] - Not enough ALPH for token change output, expected X, got Y" for some digit strings X and Y |
| LedgerErrors.IsNotEnoughApprovedBalanceForAddress | src/error.ts:170-179 | true exactly when the message is the approved-balance text around an address of word characters and vertical bars, a token id of word characters, and two digit strings |
| LedgerErrors.IsAPIErrorAsWritten | src/error.ts:43-48 | as written: a match needs a message of at least four characters whose first is not '['; an error without a message never matches |
| LedgerErrors.IsAPIError | src/error.ts:43-48 | corrected: an accepted message starts with '[', and no accepted message is accepted by the regex as written |
| LedgerErrors.MatchRender | src/error.ts:56-204 | the greedy matcher used for the error regexes recovers the captures from any message rendered from them |
| LedgerErrors.RenderMatch | src/error.ts:56-204 | whatever the matcher accepts is exactly the rendering of the captures it returns |
| LedgerErrors.TwoCapturesShape | src/error.ts:87-168 | a two-capture pattern accepts exactly two runs of the capture classes, at their literal positions |
| LedgerErrors.FourCapturesShape | src/error.ts:171-204 | the four-capture pattern accepts exactly four captures, each a run of its class |
| LedgerErrors.PatternsWellFormed | src/error.ts:56-204 | in every error regex, the literal after a capture starts outside the capture's class, which makes greedy matching unambiguous |
| LedgerErrors.APIErrorAsWrittenRejectsAPIMessages | src/error.ts:43-48 | the regex as written rejects every message that begins "[API Error] - " |
| LedgerErrors.APIErrorAsWrittenAcceptsOther | src/error.ts:43-48 | the regex as written accepts "r - x", which is not an API error |
| LedgerErrors.ClassifiedErrorsAreAPIErrors | src/error.ts:43-204 | every message one of the specific regexes accepts is an API error under the corrected prefix test |
| LedgerErrors.CapturesOf | src/error.ts:87-204 | the captures are present exactly when the message matches, and the message renders back from them |
| LedgerErrors.DigitPair | src/error.ts:87-168 | present exactly when the two-digit-run pattern matches, and then the message is the literal text with the two numbers inserted |
| LedgerErrors.NewNotEnoughFundsError | src/error.ts:97-112 | built exactly for messages the funds regex accepts, holding the two captured numbers in order and, as `cause`, only the `cause` of the error it was built from; any other message is the TypeError from indexing a null match |
| LedgerErrors.NewNotEnoughBalanceForFeeError | src/error.ts:65-69 | keeps only the `cause` of the error it was built from, which is all `GeneralError` passes on, under the fixed message "not enough balance for fee" |
| LedgerErrors.NewNotEnoughALPHForTransactionOutputError | src/error.ts:80-84 | keeps only the `cause` of the error it was built from, which is all `GeneralError` passes on, under the fee error's message "not enough balance for fee" |
| LedgerErrors.NewNotEnoughALPHForALPHAndTokenChangeOutputError | src/error.ts:125-140 | built exactly for messages that regex accepts, with the expected amount first and the actual amount second; otherwise a TypeError |
| LedgerErrors.NewNotEnoughALPHForTokenChangeOutputError | src/error.ts:153-168 | built exactly for messages that regex accepts, with expected first and actual second; otherwise a TypeError |
| LedgerErrors.NewNotEnoughApprovedBalanceForAddressError | src/error.ts:181-204 | built exactly for messages that regex accepts, with a word-or-bar address, a word token and two digit amounts that rebuild the message in that order; otherwise a TypeError |
| LedgerErrors.ApprovedBalanceRoundTrip | src/error.ts:182-186 | a message built from an address, a token id, an expected and an actual amount yields exactly those four, in that order |
| LedgerErrors.FourCapturesRender | src/error.ts:181 | a four-capture pattern renders as its fixed texts with the four captures between them, in order |
| LedgerErrors.AdaptError | src/services/alephium.ts:75-90 | first-match classification in the source's order: network failure, insufficient funds, fee, approved balance, transaction output, ALPH-and-token change, each typed error keeping only the `cause` of the error it replaces; the error comes back unchanged exactly when none of the six tests holds |
| LedgerErrors.AdaptErrorIdempotent | src/services/alephium.ts:75-90 | adapting an already adapted error changes nothing |
| LedgerErrors.AdaptKeepsOnlyCause | src/error.ts:23-26 | an adapted error keeps the `cause` of the error it replaces and nothing else: its message always differs from the message it was classified by |
| LedgerErrors.TypedMessagesUnclassified | src/error.ts:37-204 | the messages of the typed errors match none of the classifying tests |
| LedgerErrors.TokenChangeOutputUnclassified | src/services/alephium.ts:75-90 | a token-change-output message matches none of the six tests `adaptError` tries |
| LedgerErrors.TokenChangeOutputPassesThrough | src/services/alephium.ts:75-90 | a token-change-output message is recognised by its own predicate, yet `adaptError` returns it untyped |
| LedgerErrors.GenUserMessageErrorWhile | src/error.ts:10-12 | the message is the fixed prefix, the action and the fixed suffix |
| LedgerErrors.GenUserMessageErrorWhileInjective | src/error.ts:10-12 | different actions give different messages |
| LedgerErrors.DigitPairRoundTrip | src/error.ts:87-168 | the digit-pair pattern recovers any two numbers inserted into it |
| LedgerErrors.FundsRoundTrip | src/error.ts:87-112 | every rendered funds message is classified as insufficient funds and yields exactly its two numbers |
| LedgerErrors.FundsExample | src/error.ts:97-112 | "got 100, expected 500" yields actual 100 and required 500 |
| LedgerErrors.ALPHAndTokenChangeCaptureOrder | src/error.ts:125-140 | the first number captured is the expected amount, and the second the actual amount |
| LedgerErrors.TokenChangeCaptureOrder | src/error.ts:153-168 | the first number captured is the expected amount, and the second the actual amount |
| LedgerErrors.TypedMessageShape | src/error.ts:37-204 | a typed error's message is never the network-failure text and never starts with '[' |
| AlphClient.StatusStep | src/services/alephium.ts:38-50 | with the not-found case labelled as the node tags it, "TxNotFound" rejects; MemPooled resolves exactly when the required count is at least 0; Confirmed resolves exactly when it has enough confirmations; any other tag polls again |
| AlphClient.StatusStepAsWritten | src/services/alephium.ts:38-50 | the switch as written: only the tag "TxNotfound" rejects, and every tag other than the three labels polls again |
| AlphClient.NotFoundNeverRejectedAsWritten | src/services/alephium.ts:39-40 | statuses tagged "TxNotFound" are polled again forever as written, while the first of them rejects with the corrected label |
| AlphClient.WaitTxConfirmed | src/services/alephium.ts:32-54 | the loop stops at the first status that resolves or rejects (rejecting with "Tx Not Found" on a "TxNotFound" tag), and keeps polling exactly when no status in the sequence decides |
| AlphClient.MemPooledResolvesBeforeConfirmed | src/services/alephium.ts:41-49 | with a positive requirement, a mempooled transaction resolves while a confirmed one with fewer confirmations does not |
| AlphClient.Recognised | src/services/alephium.ts:102-104 | the kept token amounts are at most as many as the token balances, and all of them are stored tokens |
| AlphClient.RecognisedAllKnown | src/services/alephium.ts:102-104 | when every token id is known, every balance is kept in order, with its id and amount |
| AlphClient.RecognisedNoneKnown | src/services/alephium.ts:102-105 | when no token id is known, nothing is kept |
| AlphClient.RecognisedConcat | src/services/alephium.ts:102-104 | the token filter keeps the node's order: recognising two lists one after the other is recognising their concatenation |
| AlphClient.ConvertAddressBalanceToUserBalance | src/services/alephium.ts:97-109 | ALPH comes first with the address balance, followed by the recognised tokens only; with all tokens known, all of them in order; with none known, only ALPH |
| AlphClient.DestinationOf | src/services/alephium.ts:129-134 | a destination to the given address: for ALPH, the amount as attoALPH and no token entry; for any other token, `DUST_AMOUNT` attoALPH and exactly one entry with the token's id and the amount |
| AlphClient.DestinationCarries | src/services/alephium.ts:129-134 | the destination carries exactly the amount of the token: as attoALPH for ALPH, as a token entry for other tokens |
| AlphClient.TransferDestinations | src/services/alephium.ts:127-136 | a tip is one destination, to the receiver, carrying the whole amount |
| AlphClient.WithdrawalDestinations | src/services/alephium.ts:157-174 | with positive fees: the operator's fee destination first, with the truncated percentage, then the user's destination with the rest; with no fees, only the user's destination; in every case the amounts carried add up to the requested amount |
| AlphClient.SendAmountToAddressFrom | src/services/alephium.ts:151-174 | an invalid address is rejected with InvalidAddressError before the amount is touched; otherwise returns the withdrawal destinations of the original amount, and the token amount is lowered by the fee exactly when fees are positive |
| AlphClient.SettleSubmission | src/services/alephium.ts:176-190 | a failed submission rejects with the adapted error; otherwise the transaction id is returned once a status resolves, "Tx Not Found" is raised on a "TxNotFound" tag, and it stays pending while every status says poll again |
| AlphClient.ConsolidateIfRequired | src/services/alephium.ts:193-208 | a failed balance fetch gives the adapted error; below the threshold, undefined; otherwise the sweep's ids joined with ", ", or the sweep's adapted error |
| AlphClient.NoSweepBelowThreshold | src/services/alephium.ts:198-201 | below the threshold the outcome does not depend on the sweep |
| AlphClient.PageOf | src/services/alephium.ts:232 | `find({skip, take})` returns at most `take` users: none when skip is past the end, and the exact slice when it fits |
| AlphClient.BalancesOf | src/services/alephium.ts:233 | one balance per user, in order |
| AlphClient.SumPages | src/services/alephium.ts:224-238 | for the given skip rule, the loop's running total equals, symbol by symbol, the total balance of the users it visits |
| AlphClient.GetTotalTokenAmount | src/services/alephium.ts:224-238 | as written: the result totals only the users visited when page `i` skips `30*i` users |
| AlphClient.GetTotalTokenAmountCorrected | src/services/alephium.ts:224-238 | with `skip: i`, the result totals every stored user's balance, symbol by symbol |
| AlphClient.TotalOfEmptyBalances | src/services/alephium.ts:224-238 | users with empty balances contribute nothing |
| AlphClient.PagingSkipsThirtyFirstUser | src/services/alephium.ts:230-232 | with 31 users, the loop as written visits only the first 30, so a token held by the 31st is missing from the total |
| AlphClient.ConvertAll | src/services/alephium.ts:241-242 | one converted balance per address, in order |
| AlphClient.GetTotalTokenAmountFromAddresses | src/services/alephium.ts:240-244 | per symbol, the total equals the total of all converted address balances |
| AlphClient.SumUserBalanceTotalsAll | src/tokens/tokenAmount.ts:56-58 | `sumUserBalance` preserves every symbol's total |
| LegacyAlphClient.DigitIsAlphabetPosition | src/alephium.ts:212-213 | every character of the base58 class has a digit value, which is its position in the Bitcoin base58 alphabet |
| LegacyAlphClient.LookAlikesExcluded | src/alephium.ts:212-213 | the class excludes '0', 'O', 'I' and 'l' |
| LegacyAlphClient.Base58Digit | src/alephium.ts:212-213 | a base58 digit is below 58 |
| LegacyAlphClient.Pow | src/alephium.ts:212-213 | a positive base has positive powers |
| LegacyAlphClient.Base58Value | src/alephium.ts:212-213 | the number a base58 string encodes is below 58 to the string's length |
| LegacyAlphClient.LeadingOnes | src/alephium.ts:212-213 | counts the leading '1's, each of which decodes to one zero byte |
| LegacyAlphClient.DecodedLengthBound | src/alephium.ts:212-213 | a base58 string never decodes to more bytes than it has characters |
| LegacyAlphClient.IsAddressValid | src/alephium.ts:212-213 | an accepted address has at least 33 characters, because its decoding must have at least 33 bytes |
| LegacyAlphClient.ValidAddressShape | src/alephium.ts:212-213 | a valid address has at least 33 characters and none of the excluded look-alikes |
| LegacyAlphClient.LegacyWithdrawalDestinations | src/alephium.ts:98-107 | the user's destination comes first with the full amount; a second destination, to the operator, is added exactly when an operator address is configured, with the amount divided by 100 and then multiplied by the fees |
| LegacyAlphClient.LegacyChargesOnTop | src/alephium.ts:98-107 | with an operator, the attoALPH sent is the amount plus the operator's part: the fee is charged on top |
| LegacyAlphClient.LegacyOperatorPart | src/alephium.ts:104 | dividing by 100 before multiplying: amounts strictly between -100 and 100 give 0, and for whole hundreds the part is exactly amount times fees over 100 |
| LegacyAlphClient.LegacyPartAtMostPercentage | src/alephium.ts:104 | dividing before multiplying never gives more than the truncated percentage |
| LegacyAlphClient.LegacyAndLaterFeesDiffer | src/alephium.ts:104 | at 50%, 199 attoALPH gives an operator part of 50 here and a fee of 99 in the later client |
| LegacyAlphClient.LegacySendAmountToAddressFrom | src/alephium.ts:92-107 | an invalid address is rejected with InvalidAddressError; otherwise returns the destinations of the converted amount |
| LegacyAlphClient.LegacyTransferDestinations | src/alephium.ts:65-70 | a tip is one destination, to the receiver, carrying exactly the converted amount |
| LegacyAlphClient.LegacyTransferError | src/alephium.ts:71-78 | network and insufficient-funds errors are typed as in the later client; every other error passes unchanged |
| LegacyAlphClient.LegacyPassesFeeErrors | src/alephium.ts:71-78 | a fee error reaches the caller untyped here, while the later client types it |
| LegacyAlphClient.LegacyNetworkError | src/alephium.ts:146-151 | only network failures are typed; everything else passes unchanged |
| LegacyAlphClient.LegacyNetworkErrorIdempotent | src/alephium.ts:146-151 | mapping twice, as the nested catches do, equals mapping once |
| LegacyAlphClient.LegacyConsolidateIfRequired | src/alephium.ts:132-171 | a failed fetch gives the network-mapped error; with a UTXO count below the threshold, undefined; with an undefined threshold or a count at or above it, the joined sweep ids or the mapped sweep error |
| LegacyAlphClient.LegacyAlwaysConsolidates | src/alephium.ts:137 | with the threshold undefined, as the setting read there is, every successful fetch sweeps |
| Bot.CommandNamesDistinct | src/telegram/bot.ts:343-353 | the nine command names are distinct and contain neither '/' nor '@' |
| Bot.AdmitAsWritten | src/telegram/bot.ts:298-330 | as written: a text update from a human is admitted exactly when the admin list exists and contains the sender and TG_ADMIN_UIDS is set; it throws a TypeError exactly when the admin list is undefined |
| Bot.AsWrittenNoCommandRuns | src/telegram/bot.ts:319-324 | with the admin list undefined, as it is, nothing is ever admitted, and every human text update throws |
| Bot.Admit | src/telegram/bot.ts:306-326 | corrected: never throws; a text update from a human is admitted exactly when TG_ADMIN_UIDS is set and its parsed ids include the sender |
| Bot.AdminsAreListedIds | src/config.ts:64 | with TG_ADMIN_UIDS set to comma-joined ids, an id is among the parsed admins exactly when it is listed |
| Bot.AdminEnvSetIffIds | src/telegram/bot.ts:324 | with comma-joined ids, TG_ADMIN_UIDS is non-empty exactly when the list is non-empty |
| Bot.AdmitsExactlyListedAdmins | src/telegram/bot.ts:306-326 | with comma-joined ids, a human's text update is admitted exactly when the sender is listed |
| Bot.HandleUpdate | src/telegram/bot.ts:298-330 | the first middleware registers the bot itself exactly when the user table is empty, and leaves the table alone otherwise; admission is as in `Admit` |
| Bot.PayloadOfCommand | src/telegram/bot.ts:126 | stripping "/name" and trimming recovers the argument of "/name arg" |
| Bot.PayloadOfAddressedCommand | src/telegram/bot.ts:126 | stripping "/name@bot" and trimming recovers the argument of "/name@bot arg" |
| Bot.Payload | src/telegram/bot.ts:126 | without white space at its ends and no longer than the message; with no "/name@bot", the trimmed text with its first "/name" removed, wherever it is; with a first "/name@bot" and no "/name" left after removing it, the trimmed text with that occurrence removed; a message without "/name" is only trimmed |
| Bot.RemoveCommand | src/telegram/bot.ts:126 | the two `replace` calls remove the first "/name" when "/name@bot" is absent, and only the first "/name@bot" when no "/name" is left after it |
| Bot.IsDecimalAmount | src/telegram/bot.ts:127 | true exactly for a non-empty digit run, or two non-empty digit runs joined by one '.' |
| Bot.IsAddressText | src/telegram/bot.ts:189 | true exactly for 45 ASCII letters or digits, so an accepted address contains no space and no '.' |
| Bot.DecimalAmountChars | src/telegram/bot.ts:127 | an accepted amount is digits and dots, and starts and ends with a digit |
| Bot.DecimalAmountForms | src/telegram/bot.ts:127 | "a" and "a.b" are accepted; "a.", ".a" and "a.b.b" are rejected |
| Bot.ParseTip | src/telegram/bot.ts:123-141 | succeeds exactly for a reply whose payload is a decimal amount, returning the replied-to user and that amount; otherwise "Wrong tipping format, sorry." |
| Bot.ParseWithdraw | src/telegram/bot.ts:189-203 | an accepted payload is exactly a decimal amount, one space and a 45-character alphanumeric address |
| Bot.WithdrawRoundTrip | src/telegram/bot.ts:189-199 | every amount and address of that form are parsed back |
| Bot.WithdrawFormatAdmitsNonBase58 | src/telegram/bot.ts:189 | the withdrawal format accepts addresses containing '0', which the address check then rejects |
| Bot.Handle | src/telegram/bot.ts:73-284 | private-only commands ignore group chats; /address and /balance reply with the uninitialised-wallet text exactly for unknown users, and otherwise show the address or balance of the user with the sender's Telegram id; /consolidate in private runs for the sender's user if there is one; /privacy and /forgetme in private, and /help anywhere, reply with their fixed text; /tip from an unknown sender replies with the uninitialised-wallet text; from a known sender it transfers exactly when the message replies to someone with a decimal amount, and otherwise replies with the wrong-tip-format text; /withdraw sends exactly in private chats with a well-formed payload, for the looked-up sender and the parsed request, and a malformed private payload gets the wrong-withdrawal-format text |
| Bot.TipByReply | src/telegram/bot.ts:109-141 | a registered user replying "/tip@bot amount" tips exactly that amount |
| Bot.WithdrawPayload | src/telegram/bot.ts:188 | the payload of "/withdraw amount address" is "amount address" |
| Bot.WithdrawInPrivate | src/telegram/bot.ts:176-209 | "/withdraw amount address" in a private chat sends that amount to that address for the looked-up sender |
| Bot.StartFallback | src/telegram/bot.ts:46-67 | a successful registration edits to "A new wallet has been initialized!"; "user already registered" edits to the already-initialised text and looks the user up; any other error leaves no user, and only then is the error reply sent |
| Bot.StartCommand | src/telegram/bot.ts:36-71 | /start always ends with a user having the sender's Telegram id and no error reply; it appends that user exactly when the id was new, and says which case happened |
| Bot.ConsolidationStatus | src/telegram/bot.ts:237-260 | "aborted (not required)" exactly for an undefined result, and "failed" exactly for an error |
| Bot.ConsolidateWithServicesClient | src/telegram/bot.ts:237-246 | with the services client the bot runs with, the report is "aborted (not required)" exactly below the threshold and "confirmed" exactly for a successful sweep at or above it |
| Bot.ConsolidateNeverAborts | src/telegram/bot.ts:237-246 | with the legacy client the handler is typed against, a successful consolidation is always reported as confirmed, never aborted |

## Left out

- **Node plumbing and network calls are parameters.** This covers `createAlphClient`, the `fetch` to the full node, and `NodeProvider` queries; their answers are plain inputs.
- **Signing and key derivation.** HD-wallet derivation and signing are the `derive` parameter. The wallet group is a parameter below 4.
- **Library conversions.** `convertAmountWithDecimals`, `convertAlphAmountWithDecimals` and `DUST_AMOUNT` come from the web3 library and are the `convert` and `dust` parameters. `prettifyTokenAmount` and the `toString` of `TokenAmount` are not modelled.
- **Concurrency.** Mutexes, `Promise.all`, `Promise.allSettled` and the cron job are not modelled. Each call is modelled as atomic. In the source only registration (`registerUser`, `registerUserExclusive`) and the leave-request bookkeeping run under a mutex, so interleavings of the other asynchronous calls (balance reads, transfers, consolidations) are not captured.
- **Which client the bot runs with.** `src/telegram/bot.ts` names the legacy class as the type of its client, but `src/index.ts` hands `runTelegram` the services client built by `createAlphClient`. The Bot handlers return the action they decide on and call neither client. Bot.ConsolidateWithServicesClient states what the running bot reports; Bot.ConsolidateNeverAborts states what the legacy client would give. The services client checks withdrawal addresses with the web3 library's `isValidAddress`, which is not modelled; Bot.WithdrawFormatAdmitsNonBase58 uses the legacy base58 check.
- **Timing.** `delay` and the polling interval are not modelled. `performance.now()` is a `now` parameter.
- **Fire-and-forget consolidation.** The consolidation started after a transfer is a separate operation (`ConsolidateIfRequired`).
- **`getUserBalance`, in both clients**, is the `balanceOf` parameter. A balance fetch that fails inside `getTotalTokenAmount` is not modelled.
- AlphClient.SettleSubmission: the `txStatus.displayUpdate()` call between submission and confirmation is not part of the result.
- **`src/tokens/tokenManager.ts`** only adds database and network I/O to the token manager, so it is not part of this model. `src/telegram.ts` is the bot's earlier entry point; it is not part of this model.
- **Bot output text.** Sending and editing Telegram messages, the help, privacy and forget-me texts, `genLogMessageErrorWhile` and the error-logging branches produce text only. The handlers return the action they decide on.
- AlphClient.ConvertAddressBalanceToUserBalance: the ALPH token is an input, so a missing ALPH row in the token table is not modelled.
- GroupBy.GroupByKey: the keys are listed in the order they are first inserted. `Object.keys` lists integer-like keys (such as "0" or "42") first, in ascending order, so the order differs for such keys. `(groups[k] ||= []).push(item)` throws a TypeError for a key naming an inherited property of `Object.prototype` ("constructor", "toString", "__proto__" and the like); the model groups such keys like any other.
- TokenAmounts.SumTokenAmountsSpec: inherits both differences of GroupBy.GroupByKey, for token symbols that look like integers or name an `Object.prototype` property.
- TokenManager.GetTokenAmountByTokenSymbol: lower-cases ASCII letters on both sides. The source lower-cases the query with Unicode `toLowerCase` but the column with SQLite's ASCII-only `LOWER`, so a symbol with non-ASCII capitals is found by the model but not by the source.
- AlphClient.SendAmountToAddressFrom: the fee is an integer and the operator addresses are strings. The configuration also allows a fractional fee, for which `BigInt` throws a RangeError; a NaN fee, for which `fees > 0` is false and no fee is taken; and undefined operator addresses, which give a destination without an address. None of these is modelled.
- Config.ParseNumber: models JavaScript's `Number()` only for blank input and for an optional sign followed by digits. Every other string is treated as NaN, including hex and exponent forms. Digit strings get their exact value, whereas `Number()` rounds values past 2^53 to the nearest double. A non-numeric NUM_UTXO_BEFORE_CONSOLIDATION gives NaN, for which `utxoNum < threshold` is false at src/services/alephium.ts:198, so every consolidation sweeps; the model carries NaN as `OtherNumber` and does not derive that outcome.
- **Floating-point settings.** `strictMinimalWithdrawalAmount` is a floating-point number. It is left out, together with the full-node settings.
- **`Token.toJSON`** is not modelled.
- LegacyAlphClient.IsAddressValid: `bs58.decode` is modelled by the length of its result, not by its bytes.
- Bot.Handle: `withdrawFct` does not check for an unregistered sender. The model passes the sender on as an absent user rather than modelling the resulting TypeError.
- **The legacy operator address.** `EnvConfig.operator.address` does not exist in `src/config.ts`, so the legacy client never adds the operator destination. The model takes the operator address as an `Option` parameter so that both cases are covered.
- **The address column.** `User.address` has no column in `src/db/user.ts`, although registration sets it. The model keeps it as a field of the row.
- **The legacy consolidation threshold is undefined.** The legacy client reads `EnvConfig.bot.nb_utxo_before_consolidation`, a setting `src/config.ts` does not define. The model follows the code: the threshold is `None`, and every consolidation sweeps.

## Findings

| source | as written | input that shows it | evidently intended | confidence | as-written member | corrected member |
|---|---|---|---|---|---|---|
| src/error.ts:43-48 | `/^[API Error] - /` is a character class: one character from "API Error", then " - " | "[API Error] - Not enough balance for fee, maybe transfer a smaller amount" is rejected, and "r - x" is accepted | a message starting with the literal "[API Error] - " is an API error | not executed; high | LedgerErrors.IsAPIErrorAsWritten (LedgerErrors.APIErrorAsWrittenRejectsAPIMessages, LedgerErrors.APIErrorAsWrittenAcceptsOther) | LedgerErrors.IsAPIError (LedgerErrors.ClassifiedErrorsAreAPIErrors) |
| src/services/alephium.ts:230-232 | the loop steps `i` by 30 and then skips `30*i` users | 31 users: the second page would skip 900, so user 31 is never read | each page skips `i` users, so that every user is counted once | not executed; high | AlphClient.GetTotalTokenAmount (AlphClient.PagingSkipsThirtyFirstUser) | AlphClient.GetTotalTokenAmountCorrected |
| src/telegram/bot.ts:319-330 | reads `EnvConfig.telegram.admin.users`, but `src/config.ts:64` defines `telegram.admins` | any text message from a human: `admin` is undefined, so reading `.users` throws a TypeError | admit a human's text update when its sender is among the configured admins | not executed; medium | Bot.AdmitAsWritten (Bot.AsWrittenNoCommandRuns) | Bot.Admit (Bot.AdmitsExactlyListedAdmins), used by Bot.HandleUpdate |
| src/services/alephium.ts:39-40 | the not-found case of the `switch` is labelled "TxNotfound", while the status type the file imports is `TxNotFound`, and the `switch` has no `default` | a status tagged "TxNotFound": no case matches, so the loop waits and polls again, and the wait never ends | reject with "Tx Not Found" when the node does not know the transaction | not executed; medium | AlphClient.StatusStepAsWritten (AlphClient.NotFoundNeverRejectedAsWritten) | AlphClient.StatusStep, used by AlphClient.WaitTxConfirmed |
