/**
 * Token amounts (src/tokens/tokenAmount.ts; src/tokenManager.ts:7-32 holds a
 * verbatim copy of the same class): an exact integer magnitude tied to a
 * token, operator-fee splitting, and per-symbol summing of balances.
 */
module TokenAmounts {
  import opened Wrappers
  import opened Tokens
  import opened GroupBy

  /** Integer division as `bigint` does it: the quotient is rounded toward zero. */
  function TruncDiv(a: int, b: int): int
    requires b > 0
  {
    if a >= 0 then a / b else -((-a) / b)
  }

  /** `amount * percentage / 100n` on bigints: the hundredth of the product, rounded toward zero. */
  function Percentage(amount: int, percentage: int): (p: int)
    ensures 0 <= amount * percentage ==> 100 * p <= amount * percentage < 100 * p + 100
    ensures amount * percentage < 0 ==> 100 * p - 100 < amount * percentage <= 100 * p
  {
    TruncDiv(amount * percentage, 100)
  }

  /** An amount as a value: what a balance holds. */
  datatype Amount = Amount(token: Token, amount: int)

  /** The mutable `TokenAmount` object: `amount` may change, `token` is read-only. */
  class TokenAmount {
    var amount: int
    const token: Token

    constructor (amount: int, token: Token)
      ensures this.amount == amount && this.token == token
    {
      this.amount := amount;
      this.token := token;
    }

    /** The value this object currently holds. */
    function View(): Amount
      reads this
    {
      Amount(token, amount)
    }

    /** `computeAmountPercentage`: the hundredth of `amount * percentage`, rounded toward zero. */
    function ComputeAmountPercentage(percentage: int): (p: int)
      reads this
      ensures 0 <= amount * percentage ==> 100 * p <= amount * percentage < 100 * p + 100
      ensures amount * percentage < 0 ==> 100 * p - 100 < amount * percentage <= 100 * p
    {
      Percentage(amount, percentage)
    }

    /**
     * Splits the operator fee off in place: this object keeps the remainder,
     * a fresh object with the same token carries the extracted part.
     */
    method SubstractAndGetPercentage(percentage: int) returns (fee: TokenAmount)
      modifies this
      ensures fresh(fee) && fee.token == token
      ensures fee.amount == Percentage(old(amount), percentage)
      ensures amount + fee.amount == old(amount)
    {
      var amountPercentage := ComputeAmountPercentage(percentage);
      amount := amount - amountPercentage;
      fee := new TokenAmount(amountPercentage, token);
    }

    /** The part `SubstractAndGetPercentage` would extract, without changing anything. */
    method GetPercentage(percentage: int) returns (part: TokenAmount)
      ensures fresh(part) && part.token == token
      ensures part.amount == Percentage(amount, percentage)
    {
      part := new TokenAmount(ComputeAmountPercentage(percentage), token);
    }
  }

  /** Reading the percentage first and then splitting yields the same magnitude twice. */
  method ReadThenSplit(a: TokenAmount, percentage: int) returns (read: TokenAmount, fee: TokenAmount)
    modifies a
    ensures read.amount == fee.amount && read.token == fee.token == a.token
    ensures a.amount + fee.amount == old(a.amount)
  {
    read := a.GetPercentage(percentage);
    fee := a.SubstractAndGetPercentage(percentage);
  }

  /**
   * The percentage is rounded toward zero: the discarded part of `amount * p`
   * has the sign of the product and is less than 100 in size, so negative
   * amounts are mirrored rather than floored.
   */
  lemma PercentageTruncatesTowardZero(amount: int, percentage: int)
    ensures 0 <= amount * percentage ==> 0 <= amount * percentage - 100 * Percentage(amount, percentage) < 100
    ensures amount * percentage < 0 ==> -100 < amount * percentage - 100 * Percentage(amount, percentage) <= 0
    ensures Percentage(-amount, percentage) == -Percentage(amount, percentage)
  {
    assert (-amount) * percentage == -(amount * percentage);
  }

  /** For a non-negative amount and a percentage in [0, 100], both parts of a split are non-negative and bounded. */
  lemma PercentageBounds(amount: int, percentage: int)
    requires 0 <= amount && 0 <= percentage <= 100
    ensures 0 <= Percentage(amount, percentage) <= amount
    ensures 0 <= amount - Percentage(amount, percentage)
  {
    assert 0 <= amount * percentage <= amount * 100 by {
      assert amount * (100 - percentage) >= 0;
    }
  }

  /** 3% of 100 is 3, leaving 97; 3% of 199 rounds down to 5, leaving 194. */
  lemma PercentageExamples()
    ensures Percentage(100, 3) == 3 && 100 - Percentage(100, 3) == 97
    ensures Percentage(199, 3) == 5 && 199 - Percentage(199, 3) == 194
    ensures Percentage(-199, 3) == -5
  {
  }

  /** The grouping key of `sumTokenAmounts`. */
  function Symbol(a: Amount): string {
    a.token.symbol
  }

  /** The sum of all magnitudes, in input order. */
  function SumAmounts(s: seq<Amount>): int {
    if s == [] then 0 else SumAmounts(s[..|s| - 1]) + s[|s| - 1].amount
  }

  /** The total of the magnitudes in `s` whose token has symbol `sym`. */
  function Total(s: seq<Amount>, sym: string): int {
    if s == [] then 0
    else Total(s[..|s| - 1], sym) + (if Symbol(s[|s| - 1]) == sym then s[|s| - 1].amount else 0)
  }

  /**
   * `sumSimilarTokenAmounts`: absent for an empty list, otherwise the first
   * element's token with the sum of all magnitudes.
   */
  function SumSimilarTokenAmounts(s: seq<Amount>): (r: Option<Amount>)
    ensures r.None? <==> s == []
    ensures r.Some? ==> r.value.token == s[0].token && r.value.amount == SumAmounts(s)
  {
    if |s| == 0 then None else Some(Amount(s[0].token, SumAmounts(s)))
  }

  /** One merged entry per key of `ks`, in the order of `ks`. */
  function MergeGroups(s: seq<Amount>, ks: seq<string>): seq<Amount>
    requires forall k :: k in ks ==> |Group(s, Symbol, k)| > 0
  {
    if ks == [] then []
    else MergeGroups(s, ks[..|ks| - 1]) + [SumSimilarTokenAmounts(Group(s, Symbol, ks[|ks| - 1])).value]
  }

  /** Merging every group gives an entry exactly for the symbols that occur in the input. */
  lemma MergedSymbolsAreInputSymbols(s: seq<Amount>)
    requires forall k :: k in GroupKeys(s, Symbol) ==> |Group(s, Symbol, k)| > 0
    ensures forall i :: 0 <= i < |MergeGroups(s, GroupKeys(s, Symbol))| ==>
      exists j :: 0 <= j < |s| && Symbol(s[j]) == Symbol(MergeGroups(s, GroupKeys(s, Symbol))[i])
    ensures forall j :: 0 <= j < |s| ==>
      exists i :: 0 <= i < |MergeGroups(s, GroupKeys(s, Symbol))| && Symbol(MergeGroups(s, GroupKeys(s, Symbol))[i]) == Symbol(s[j])
  {
    var ks := GroupKeys(s, Symbol);
    var r := MergeGroups(s, ks);
    MergeGroupsShape(s, ks);
    forall i | 0 <= i < |r|
      ensures exists j :: 0 <= j < |s| && Symbol(s[j]) == Symbol(r[i])
    {
      GroupKeysAreInputKeys(s, Symbol, ks[i]);
    }
    forall j | 0 <= j < |s|
      ensures exists i :: 0 <= i < |r| && Symbol(r[i]) == Symbol(s[j])
    {
      ItemInItsGroup(s, Symbol, j);
      var i :| 0 <= i < |ks| && ks[i] == Symbol(s[j]);
      assert Symbol(r[i]) == Symbol(s[j]);
    }
  }

  /**
   * `sumTokenAmounts`: group by symbol, then merge each group. Every entry
   * names a symbol of the input and every symbol of the input has an entry.
   */
  function SumTokenAmounts(s: seq<Amount>): (r: seq<Amount>)
    ensures forall i :: 0 <= i < |r| ==> exists j :: 0 <= j < |s| && Symbol(s[j]) == Symbol(r[i])
    ensures forall j :: 0 <= j < |s| ==> exists i :: 0 <= i < |r| && Symbol(r[i]) == Symbol(s[j])
  {
    GroupsNonEmpty(s, Symbol);
    MergedSymbolsAreInputSymbols(s);
    MergeGroups(s, GroupKeys(s, Symbol))
  }

  /** `Array.prototype.flat()` on a list of balances. */
  function Flatten(ls: seq<seq<Amount>>): seq<Amount> {
    if ls == [] then [] else Flatten(ls[..|ls| - 1]) + ls[|ls| - 1]
  }

  /** `sumUserBalance`: the per-symbol sum of all the balances together. */
  function SumUserBalance(ls: seq<seq<Amount>>): (r: seq<Amount>)
    ensures forall sym :: Total(r, sym) == Total(Flatten(ls), sym)
  {
    var flat := Flatten(ls);
    SumTokenAmountsSpec(flat);
    SumTokenAmounts(flat)
  }

  lemma {:induction false} SumAmountsConcat(a: seq<Amount>, b: seq<Amount>)
    ensures SumAmounts(a + b) == SumAmounts(a) + SumAmounts(b)
    decreases |b|
  {
    if b == [] {
      assert a + b == a;
    } else {
      SumAmountsConcat(a, b[..|b| - 1]);
      assert (a + b)[..|a + b| - 1] == a + b[..|b| - 1];
    }
  }

  /** Per-symbol totals add up over concatenation. */
  lemma {:induction false} TotalConcat(a: seq<Amount>, b: seq<Amount>, sym: string)
    ensures Total(a + b, sym) == Total(a, sym) + Total(b, sym)
    decreases |b|
  {
    if b == [] {
      assert a + b == a;
    } else {
      TotalConcat(a, b[..|b| - 1], sym);
      assert (a + b)[..|a + b| - 1] == a + b[..|b| - 1];
    }
  }

  /** The magnitudes of a symbol's group add up to that symbol's total. */
  lemma {:induction false} GroupSumIsTotal(s: seq<Amount>, sym: string)
    ensures SumAmounts(Group(s, Symbol, sym)) == Total(s, sym)
  {
    if s != [] {
      var init := s[..|s| - 1];
      var x := s[|s| - 1];
      GroupSumIsTotal(init, sym);
      if Symbol(x) == sym {
        SumAmountsConcat(Group(init, Symbol, sym), [x]);
        assert [x][..0] == [];
      } else {
        assert Group(init, Symbol, sym) + [] == Group(init, Symbol, sym);
        assert Group(s, Symbol, sym) == Group(init, Symbol, sym);
      }
    }
  }

  /** The shape of the merged list: entry i carries key i with that key's total. */
  lemma {:induction false} MergeGroupsShape(s: seq<Amount>, ks: seq<string>)
    requires forall k :: k in ks ==> |Group(s, Symbol, k)| > 0
    ensures |MergeGroups(s, ks)| == |ks|
    ensures forall i :: 0 <= i < |ks| ==>
      Symbol(MergeGroups(s, ks)[i]) == ks[i] && MergeGroups(s, ks)[i].amount == Total(s, ks[i])
  {
    if ks != [] {
      var init := ks[..|ks| - 1];
      var k := ks[|ks| - 1];
      assert forall j :: j in init ==> j in ks;
      MergeGroupsShape(s, init);
      var g := Group(s, Symbol, k);
      var prev := MergeGroups(s, init);
      var last := SumSimilarTokenAmounts(g).value;
      assert MergeGroups(s, ks) == prev + [last];
      GroupSumIsTotal(s, k);
      GroupMembers(s, Symbol, k);
      assert g[0] in g;
      assert Symbol(last) == k && last.amount == Total(s, k);
      forall i | 0 <= i < |ks|
        ensures Symbol((prev + [last])[i]) == ks[i] && (prev + [last])[i].amount == Total(s, ks[i])
      {
        if i < |init| {
          assert (prev + [last])[i] == prev[i] && ks[i] == init[i];
        }
      }
    }
  }

  /** With distinct keys, the merged list's total for a symbol is the input's total if the symbol is a key. */
  lemma {:induction false} MergeGroupsTotal(s: seq<Amount>, ks: seq<string>, sym: string)
    requires forall k :: k in ks ==> |Group(s, Symbol, k)| > 0
    requires forall i, j :: 0 <= i < j < |ks| ==> ks[i] != ks[j]
    ensures Total(MergeGroups(s, ks), sym) == if sym in ks then Total(s, sym) else 0
  {
    if ks != [] {
      var init := ks[..|ks| - 1];
      var k := ks[|ks| - 1];
      assert forall j :: j in init ==> j in ks;
      MergeGroupsTotal(s, init, sym);
      MergeGroupsLastTotal(s, ks, sym);
      assert forall i :: 0 <= i < |init| ==> init[i] == ks[i] && init[i] != k;
      assert sym in ks <==> sym in init || sym == k;
    }
  }

  /** The last key's entry adds that key's total to the merged list's total for it. */
  lemma MergeGroupsLastTotal(s: seq<Amount>, ks: seq<string>, sym: string)
    requires ks != []
    requires forall k :: k in ks ==> |Group(s, Symbol, k)| > 0
    ensures Total(MergeGroups(s, ks), sym)
      == Total(MergeGroups(s, ks[..|ks| - 1]), sym) + (if ks[|ks| - 1] == sym then Total(s, ks[|ks| - 1]) else 0)
  {
    var init := ks[..|ks| - 1];
    assert forall j :: j in init ==> j in ks;
    MergeGroupsShape(s, ks);
    var r := MergeGroups(s, ks);
    assert Symbol(r[|r| - 1]) == ks[|ks| - 1] && r[|r| - 1].amount == Total(s, ks[|ks| - 1]);
    assert r[..|r| - 1] == MergeGroups(s, init);
  }

  /** A symbol that occurs nowhere in the input totals zero. */
  lemma AbsentSymbolTotalsZero(s: seq<Amount>, sym: string)
    requires sym !in GroupKeys(s, Symbol)
    ensures Total(s, sym) == 0
  {
    AbsentKeyEmptyGroup(s, Symbol, sym);
    GroupSumIsTotal(s, sym);
  }

  /**
   * `sumTokenAmounts` yields exactly one entry per distinct input symbol, in
   * order of first occurrence, each carrying that symbol's total; so every
   * per-symbol total is preserved.
   */
  lemma SumTokenAmountsSpec(s: seq<Amount>)
    ensures |SumTokenAmounts(s)| == |GroupKeys(s, Symbol)|
    ensures forall i :: 0 <= i < |SumTokenAmounts(s)| ==>
      Symbol(SumTokenAmounts(s)[i]) == GroupKeys(s, Symbol)[i]
      && SumTokenAmounts(s)[i].amount == Total(s, GroupKeys(s, Symbol)[i])
    ensures forall i, j :: 0 <= i < j < |SumTokenAmounts(s)| ==>
      Symbol(SumTokenAmounts(s)[i]) != Symbol(SumTokenAmounts(s)[j])
    ensures forall sym :: Total(SumTokenAmounts(s), sym) == Total(s, sym)
  {
    var ks := GroupKeys(s, Symbol);
    GroupsNonEmpty(s, Symbol);
    GroupKeysDistinct(s, Symbol);
    MergeGroupsShape(s, ks);
    forall sym
      ensures Total(SumTokenAmounts(s), sym) == Total(s, sym)
    {
      MergeGroupsTotal(s, ks, sym);
      if sym !in ks {
        AbsentSymbolTotalsZero(s, sym);
      }
    }
  }

  lemma {:induction false} FlattenConcat(a: seq<seq<Amount>>, b: seq<seq<Amount>>)
    ensures Flatten(a + b) == Flatten(a) + Flatten(b)
    decreases |b|
  {
    if b == [] {
      assert a + b == a;
    } else {
      var front := b[..|b| - 1];
      FlattenConcat(a, front);
      assert (a + b)[..|a + b| - 1] == a + front;
      assert (a + b)[|a + b| - 1] == b[|b| - 1];
      assert Flatten(a + b) == Flatten(a + front) + b[|b| - 1];
      assert Flatten(b) == Flatten(front) + b[|b| - 1];
    }
  }

  /** `sumUserBalance` keeps every per-symbol total of all its input balances together. */
  lemma SumUserBalanceTotals(ls: seq<seq<Amount>>, sym: string)
    ensures Total(SumUserBalance(ls), sym) == Total(Flatten(ls), sym)
  {
    SumTokenAmountsSpec(Flatten(ls));
  }

  lemma FlattenPair(pa: seq<Amount>, pb: seq<Amount>)
    ensures Flatten([pa, pb]) == pa + pb
  {
    assert [pa, pb][..1] == [pa];
    assert Flatten([pa]) == Flatten([]) + pa;
  }

  /**
   * Summing two batches separately and then summing the two partial results
   * gives the same per-symbol totals as summing everything at once, whatever
   * the split: what a paged total relies on.
   */
  lemma PartialSumsCompose(a: seq<seq<Amount>>, b: seq<seq<Amount>>, sym: string)
    ensures Total(SumUserBalance([SumUserBalance(a), SumUserBalance(b)]), sym)
         == Total(SumUserBalance(a + b), sym)
  {
    var pa, pb := SumUserBalance(a), SumUserBalance(b);
    FlattenPair(pa, pb);
    TotalConcat(pa, pb, sym);
    FlattenConcat(a, b);
    TotalConcat(Flatten(a), Flatten(b), sym);
  }
}
