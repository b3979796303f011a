/**
 * The progress message of a transfer (src/transactionStatus.ts): a base text,
 * one of three states, an optional transaction id and an optional display
 * callback that receives the rendered HTML message.
 */
module TransactionStatuses {
  import opened Wrappers

  /** A state and the HTML entity shown in front of it. */
  datatype TransactionState = TransactionState(stateText: string, stateEmoji: string)
  {
    /** `"<emoji> <text>"`. */
    function ToString(): (r: string)
      ensures |r| == |stateEmoji| + 1 + |stateText|
      ensures r[..|stateEmoji|] == stateEmoji && r[|stateEmoji|] == ' ' && r[|stateEmoji| + 1..] == stateText
    {
      stateEmoji + " " + stateText
    }
  }

  const Pending: TransactionState := TransactionState("pending", "&#8987;")
  const Confirmed: TransactionState := TransactionState("confirmed", "&#9989;")
  const Failed: TransactionState := TransactionState("failed", "&#10060;")

  /** The display callback: records every message it is given, in order. */
  class Displayer {
    var shown: seq<string>

    constructor()
      ensures shown == []
    {
      shown := [];
    }

    method Display(msg: string)
      modifies this
      ensures shown == old(shown) + [msg]
    {
      shown := shown + [msg];
    }
  }

  const LinkOpen: string := " (<a href=\""
  const LinkPath: string := "/transactions/"
  const LinkClose: string := "\">tx</a>)"
  const StatusLabel: string := "\n<b>Status</b>: "

  /** The explorer link of a transaction: empty unless both the explorer address and the id are known. */
  function TxIdText(explorer: Option<string>, txId: Option<string>): (text: string)
    ensures text == "" <==> explorer.None? || txId.None?
    ensures text != "" ==> |text| == |LinkOpen| + |explorer.value + LinkPath + txId.value| + |LinkClose|
    ensures text != "" ==>
      (text[..|LinkOpen|] == LinkOpen
       && text[|text| - |LinkClose|..] == LinkClose
       && text[|LinkOpen|..|text| - |LinkClose|] == explorer.value + LinkPath + txId.value)
  {
    if explorer.Some? && txId.Some? then LinkOpen + explorer.value + LinkPath + txId.value + LinkClose
    else ""
  }

  /** The rendered message: base text, the status line, then the link. */
  function UpdateMsg(baseMsg: string, state: TransactionState, explorer: Option<string>, txId: Option<string>): (msg: string)
    ensures |msg| == |baseMsg| + |StatusLabel| + |state.ToString() + TxIdText(explorer, txId)|
    ensures msg[..|baseMsg| + |StatusLabel|] == baseMsg + StatusLabel
    ensures msg[|baseMsg| + |StatusLabel|..] == state.ToString() + TxIdText(explorer, txId)
  {
    var m := baseMsg + StatusLabel + state.ToString() + TxIdText(explorer, txId);
    assert m == (baseMsg + StatusLabel) + (state.ToString() + TxIdText(explorer, txId));
    m
  }

  class TransactionStatus {
    const baseMsg: string
    var txId: Option<string>
    var state: TransactionState
    var htmlDisplayer: Displayer?

    /** A new status: no transaction id yet, in the given state (`Pending` when the caller passes none). */
    constructor(baseMsg: string, htmlDisplayer: Displayer?, currentState: TransactionState)
      ensures this.baseMsg == baseMsg && this.htmlDisplayer == htmlDisplayer
      ensures state == currentState && txId.None?
    {
      this.baseMsg := baseMsg;
      this.state := currentState;
      this.htmlDisplayer := htmlDisplayer;
      this.txId := None;
    }

    method SetDisplayUpdate(htmlDisplayer: Displayer?) returns (self: TransactionStatus)
      modifies this
      ensures self == this && this.htmlDisplayer == htmlDisplayer
      ensures state == old(state) && txId == old(txId)
    {
      this.htmlDisplayer := htmlDisplayer;
      return this;
    }

    method SetPending() returns (self: TransactionStatus)
      modifies this
      ensures self == this && state == Pending
      ensures txId == old(txId) && htmlDisplayer == old(htmlDisplayer)
    {
      state := Pending;
      return this;
    }

    method SetConfirmed() returns (self: TransactionStatus)
      modifies this
      ensures self == this && state == Confirmed
      ensures txId == old(txId) && htmlDisplayer == old(htmlDisplayer)
    {
      state := Confirmed;
      return this;
    }

    method SetFailed() returns (self: TransactionStatus)
      modifies this
      ensures self == this && state == Failed
      ensures txId == old(txId) && htmlDisplayer == old(htmlDisplayer)
    {
      state := Failed;
      return this;
    }

    method SetTransactionId(txId: string) returns (self: TransactionStatus)
      modifies this
      ensures self == this && this.txId == Some(txId)
      ensures state == old(state) && htmlDisplayer == old(htmlDisplayer)
    {
      this.txId := Some(txId);
      return this;
    }

    /** `genTxIdText`, with the configured explorer address as a parameter. */
    function GenTxIdText(explorer: Option<string>): (text: string)
      reads this
      ensures text == "" <==> explorer.None? || txId.None?
      ensures text != "" ==> |LinkOpen| + |LinkClose| <= |text|
      ensures text != "" ==>
        (text[..|LinkOpen|] == LinkOpen && text[|text| - |LinkClose|..] == LinkClose
         && text[|LinkOpen|..|text| - |LinkClose|] == explorer.value + LinkPath + txId.value)
    {
      TxIdText(explorer, txId)
    }

    /** `genUpdateMsg`: the base message, the status label, the state, then the link. */
    function GenUpdateMsg(explorer: Option<string>): (msg: string)
      reads this
      ensures |msg| == |baseMsg| + |StatusLabel| + |state.ToString()| + |GenTxIdText(explorer)|
      ensures msg[..|baseMsg| + |StatusLabel|] == baseMsg + StatusLabel
      ensures msg[|baseMsg| + |StatusLabel|..] == state.ToString() + GenTxIdText(explorer)
    {
      UpdateMsg(baseMsg, state, explorer, txId)
    }

    /** Hands the current message to the displayer exactly once, if there is one. */
    method DisplayUpdate(explorer: Option<string>)
      modifies htmlDisplayer
      ensures htmlDisplayer != null ==> htmlDisplayer.shown == old(htmlDisplayer.shown) + [GenUpdateMsg(explorer)]
    {
      if htmlDisplayer != null {
        htmlDisplayer.Display(GenUpdateMsg(explorer));
      }
    }

    /** `toString`: the message `DisplayUpdate` would hand over. */
    function ToString(explorer: Option<string>): (text: string)
      reads this
      ensures text == GenUpdateMsg(explorer)
      ensures |baseMsg| <= |text| && text[..|baseMsg|] == baseMsg
    {
      GenUpdateMsg(explorer)
    }
  }

  /** The three states render differently, so the status line tells them apart. */
  lemma StatesRenderDistinctly()
    ensures Pending.ToString() != Confirmed.ToString()
    ensures Pending.ToString() != Failed.ToString()
    ensures Confirmed.ToString() != Failed.ToString()
  {
    assert Pending.ToString()[2] != Confirmed.ToString()[2];
    assert Pending.ToString()[2] != Failed.ToString()[2];
    assert Confirmed.ToString()[3] != Failed.ToString()[3];
  }

  /** For a given explorer, the link names exactly one transaction. */
  lemma TxIdTextInjective(explorer: string, a: string, b: string)
    requires TxIdText(Some(explorer), Some(a)) == TxIdText(Some(explorer), Some(b))
    ensures a == b
  {
    var t := TxIdText(Some(explorer), Some(a));
    var inner := t[|LinkOpen|..|t| - |LinkClose|];
    assert inner == explorer + LinkPath + a && inner == explorer + LinkPath + b;
    assert a == inner[|explorer + LinkPath|..];
  }

  /** The three state setters of `TransactionStatus`. */
  datatype Setter = SetToPending | SetToConfirmed | SetToFailed

  /** The state a setter puts the status in. */
  function Target(setter: Setter): TransactionState {
    match setter
    case SetToPending => Pending
    case SetToConfirmed => Confirmed
    case SetToFailed => Failed
  }

  /**
   * Any sequence of state changes is allowed, and only the last one counts:
   * after calling the setters in `setters`, in order, the status is in the
   * last one's state, the message depends on that state alone, and the id and
   * the displayer are the ones the status had before.
   */
  method AnyTransitionSequence(s: TransactionStatus, setters: seq<Setter>, explorer: Option<string>)
    modifies s
    ensures s.state == (if setters == [] then old(s.state) else Target(setters[|setters| - 1]))
    ensures s.GenUpdateMsg(explorer) == UpdateMsg(s.baseMsg, s.state, explorer, old(s.txId))
    ensures s.txId == old(s.txId) && s.htmlDisplayer == old(s.htmlDisplayer)
  {
    var i := 0;
    while i < |setters|
      invariant 0 <= i <= |setters|
      invariant s.state == (if i == 0 then old(s.state) else Target(setters[i - 1]))
      invariant s.txId == old(s.txId) && s.htmlDisplayer == old(s.htmlDisplayer)
    {
      var t: TransactionStatus;
      match setters[i] {
        case SetToPending => t := s.SetPending();
        case SetToConfirmed => t := s.SetConfirmed();
        case SetToFailed => t := s.SetFailed();
      }
      i := i + 1;
    }
  }

  /** The link is appended at the end: without an id the message is the status line alone. */
  lemma MessageWithoutId(baseMsg: string, state: TransactionState, explorer: Option<string>)
    ensures UpdateMsg(baseMsg, state, explorer, None) == baseMsg + StatusLabel + state.ToString()
  {
    var m := UpdateMsg(baseMsg, state, explorer, None);
    assert m == m[..|baseMsg| + |StatusLabel|] + m[|baseMsg| + |StatusLabel|..];
  }
}
