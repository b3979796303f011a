/** The token descriptor stored by the registry (the `Token` entity). */
module Tokens {
  import opened Wrappers

  /** The symbol of the chain's native asset. */
  const ALPHSymbol: string := "ALPH"

  /**
   * A token row: ledger identifier, display name, symbol, decimal precision and
   * the two optional columns.
   */
  datatype Token = Token(
    id: string,
    name: string,
    symbol: string,
    decimals: int,
    description: Option<string>,
    logoURI: Option<string>)
  {
    /** Native-asset test: decided by the symbol alone, case-sensitively. */
    function IsALPH(): (b: bool)
      ensures b <==> symbol == "ALPH"
    {
      ALPHSymbol == symbol
    }

    /** `"<symbol> (id: <id>)"`. */
    function ToString(): (r: string)
      ensures |r| == |symbol| + |" (id: "| + |id| + 1
      ensures r[..|symbol|] == symbol && r[|symbol|..|symbol| + 6] == " (id: "
      ensures r[|symbol| + 6..|r| - 1] == id && r[|r| - 1] == ')'
    {
      symbol + " (id: " + id + ")"
    }
  }

  /** A token built without the optional description and logo. */
  function NewToken(id: string, name: string, symbol: string, decimals: int): (t: Token)
    ensures t.id == id && t.name == name && t.symbol == symbol && t.decimals == decimals
    ensures t.description.None? && t.logoURI.None?
  {
    Token(id, name, symbol, decimals, None, None)
  }

  /** Two tokens with the same symbol are ALPH together or not at all, whatever their ids. */
  lemma IsALPHBySymbolOnly(t: Token, u: Token)
    requires t.symbol == u.symbol
    ensures t.IsALPH() <==> u.IsALPH()
  {
  }

  /** The test is case-sensitive: a lower-case `alph` symbol is not the native asset. */
  lemma IsALPHCaseSensitive(t: Token)
    requires t.symbol == "alph"
    ensures !t.IsALPH()
  {
    assert t.symbol[0] != ALPHSymbol[0];
  }

  /** For a fixed symbol, the rendered text determines the id. */
  lemma {:induction false} ToStringDeterminesId(t: Token, u: Token)
    requires t.symbol == u.symbol
    requires t.ToString() == u.ToString()
    ensures t.id == u.id
  {
    var n := |t.symbol| + |" (id: "|;
    assert |t.id| == |u.id| by {
      assert |t.ToString()| == n + |t.id| + 1;
      assert |u.ToString()| == n + |u.id| + 1;
    }
    assert t.id == t.ToString()[n..n + |t.id|];
    assert u.id == u.ToString()[n..n + |u.id|];
  }
}
