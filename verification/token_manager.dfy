/**
 * Token lookups of `TokenManager` (src/tokenManager.ts) over the rows of the
 * token table, given here as a sequence in the store's order.
 */
module TokenManager {
  import opened Wrappers
  import opened Text
  import opened Tokens
  import opened TokenAmounts

  /** The first row satisfying `p`: what `findOneBy` and `getOne` return (`null` when none does). */
  function FindFirst(rows: seq<Token>, p: Token -> bool): (r: Option<Token>)
    ensures r.None? <==> forall i :: 0 <= i < |rows| ==> !p(rows[i])
    ensures r.Some? ==> exists i :: 0 <= i < |rows| && rows[i] == r.value && p(rows[i])
                                   && forall j :: 0 <= j < i ==> !p(rows[j])
  {
    if rows == [] then None
    else if p(rows[0]) then Some(rows[0])
    else FindFirst(rows[1..], p)
  }

  /** `getTokenBySymbol`: exact, case-sensitive symbol. */
  function TokenBySymbol(rows: seq<Token>, symbol: string): Option<Token> {
    FindFirst(rows, (t: Token) => t.symbol == symbol)
  }

  /** `getTokenByCaseInsensitiveSymbol`: `LOWER(symbol)` equals the lower-cased query. */
  function TokenByCaseInsensitiveSymbol(rows: seq<Token>, symbol: string): Option<Token> {
    FindFirst(rows, (t: Token) => ToLower(t.symbol) == ToLower(symbol))
  }

  /** `getTokenById`. */
  function TokenById(rows: seq<Token>, id: string): Option<Token> {
    FindFirst(rows, (t: Token) => t.id == id)
  }

  /** The rejection of `getTokenAmountFromIdAmount` names the unknown id. */
  datatype LookupError = TokenNotFound(id: string)

  /**
   * `getTokenAmountFromIdAmount`: rejects when no row has the id, otherwise
   * pairs the amount with that row.
   */
  function GetTokenAmountFromIdAmount(rows: seq<Token>, id: string, amount: int): (r: Result<Amount, LookupError>)
    ensures r.Failure? <==> forall i :: 0 <= i < |rows| ==> rows[i].id != id
    ensures r.Failure? ==> r.error == TokenNotFound(id)
    ensures r.Success? ==> r.value.token in rows && r.value.token.id == id && r.value.amount == amount
  {
    match TokenById(rows, id)
    case None => Failure(TokenNotFound(id))
    case Some(token) => Success(Amount(token, amount))
  }

  /**
   * `getTokenAmountByTokenSymbol`: `undefined` when no row's lower-cased
   * symbol equals the lower-cased query, otherwise the amount converted with
   * that token's decimals (`convert` stands for the library's decimal conversion).
   */
  function GetTokenAmountByTokenSymbol(rows: seq<Token>, symbol: string, amount: string,
                                       convert: (string, int) -> int): (r: Option<Amount>)
    ensures r.None? <==> forall i :: 0 <= i < |rows| ==> ToLower(rows[i].symbol) != ToLower(symbol)
    ensures r.Some? ==> r.value.token in rows && ToLower(r.value.token.symbol) == ToLower(symbol)
                        && r.value.amount == convert(amount, r.value.token.decimals)
  {
    match TokenByCaseInsensitiveSymbol(rows, symbol)
    case None => None
    case Some(token) => Some(Amount(token, convert(amount, token.decimals)))
  }
}
