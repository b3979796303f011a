/**
 * The decision logic of the Telegram front end (src/telegram/bot.ts): the
 * middleware chain that admits an update, the payload of a command, the tip
 * and withdrawal formats, the private-chat gating of the handlers and the
 * fallback of `/start`. Sending, editing and logging messages are left out;
 * what a handler decides to do is returned as a value.
 */
module Bot {
  import opened Wrappers
  import opened Text
  import opened LedgerErrors
  import opened Users
  import Config
  import AlphClient
  import LegacyAlphClient

  // ---------------------------------------------------------------------------
  // Updates and commands

  /**
   * The parts of an incoming message the handlers read: its text (absent for
   * stickers, photos and the like), its sender, the type of its chat and, for
   * a reply, the sender of the message replied to.
   */
  datatype Message = Message(text: Option<string>, fromId: int, fromIsBot: bool, chatType: string,
                             replyToFromId: Option<int>)

  /** The commands the bot registers, in the order it registers them. */
  datatype Command = Start | Address | Balance | Tip | Withdraw | Consolidate | Privacy | Forgetme | Help {
    /** The name a user types after `/`. */
    function Name(): string {
      match this
      case Start => "start"
      case Address => "address"
      case Balance => "balance"
      case Tip => "tip"
      case Withdraw => "withdraw"
      case Consolidate => "consolidate"
      case Privacy => "privacy"
      case Forgetme => "forgetme"
      case Help => "help"
    }

    /** The handlers that return at once outside a private chat. */
    predicate PrivateOnly() {
      this in {Balance, Withdraw, Consolidate, Privacy, Forgetme}
    }
  }

  /** Different commands have different names, so dispatching on the name is unambiguous. */
  lemma CommandNamesDistinct(c: Command, d: Command)
    ensures c.Name() == d.Name() <==> c == d
    ensures '/' !in c.Name() && '@' !in c.Name()
  {
  }

  const PrivateChat: string := "private"

  // ---------------------------------------------------------------------------
  // Middleware

  /** What the middleware chain does with an update. */
  datatype Admission =
    | Admitted        // passed on to the command handlers
    | Dropped         // `next` is not called
    | ThrownTypeError // the chain throws before deciding

  /**
   * The chain as written: updates without a message or without text, and
   * messages from bots, are dropped; then the admin gate evaluates
   * `adminUIDs.includes(senderId)` on the admin list it reads from the
   * configuration (`None` when that entry is undefined, which it is: the
   * configuration defines `telegram.admins`, not `telegram.admin.users`) and
   * passes the message only when `TG_ADMIN_UIDS` is set and the sender is on
   * the list.
   */
  function AdmitAsWritten(update: Option<Message>, adminEnvSet: bool, adminUsers: Option<seq<int>>): (a: Admission)
    ensures a == Admitted <==>
      update.Some? && update.value.text.Some? && !update.value.fromIsBot
      && adminUsers.Some? && update.value.fromId in adminUsers.value && adminEnvSet
    ensures a == ThrownTypeError <==>
      update.Some? && update.value.text.Some? && !update.value.fromIsBot && adminUsers.None?
  {
    match update
    case None => Dropped
    case Some(m) =>
      if m.text.None? || m.fromIsBot then Dropped
      else match adminUsers
        case None => ThrownTypeError
        case Some(admins) => if adminEnvSet && m.fromId in admins then Admitted else Dropped
  }

  /** With the admin entry undefined, every text message from a person makes the chain throw: no command ever runs. */
  lemma AsWrittenNoCommandRuns(update: Option<Message>, adminEnvSet: bool)
    ensures AdmitAsWritten(update, adminEnvSet, None) != Admitted
    ensures update.Some? && update.value.text.Some? && !update.value.fromIsBot ==>
      AdmitAsWritten(update, adminEnvSet, None) == ThrownTypeError
  {
  }

  /** Is `TG_ADMIN_UIDS` set to a non-empty value (a truthy `process.env` entry)? */
  predicate AdminEnvSet(env: Config.Env) {
    "TG_ADMIN_UIDS" in env && env["TG_ADMIN_UIDS"] != ""
  }

  /**
   * The chain as evidently intended: the admin gate reads the list the
   * configuration parses from `TG_ADMIN_UIDS`.
   */
  function Admit(update: Option<Message>, env: Config.Env): (a: Admission)
    ensures a != ThrownTypeError
    ensures a == Admitted <==>
      update.Some? && update.value.text.Some? && !update.value.fromIsBot && AdminEnvSet(env)
      && Config.Integer(update.value.fromId) in Config.Admins(env)
  {
    match update
    case None => Dropped
    case Some(m) =>
      if m.text.None? || m.fromIsBot then Dropped
      else if AdminEnvSet(env) && Config.Integer(m.fromId) in Config.Admins(env) then Admitted
      else Dropped
  }

  /** With `TG_ADMIN_UIDS` written as the comma-joined ids, the parsed list holds exactly those ids. */
  lemma AdminsAreListedIds(env: Config.Env, ids: seq<int>, x: int)
    requires "TG_ADMIN_UIDS" in env && env["TG_ADMIN_UIDS"] == Join(Config.IdList(ids), ",")
    ensures Config.Integer(x) in Config.Admins(env) <==> x in ids
  {
    Config.AdminsRoundTrip(env, ids);
    ParsedIds(Config.Admins(env), ids, x);
  }

  /** A list holding exactly the ids, as numbers, contains a number exactly when it is one of the ids. */
  lemma ParsedIds(admins: seq<Config.JsNumber>, ids: seq<int>, x: int)
    requires |admins| == |ids|
    requires forall i :: 0 <= i < |ids| ==> admins[i] == Config.Integer(ids[i])
    ensures Config.Integer(x) in admins <==> x in ids
  {
    if x in ids {
      var i :| 0 <= i < |ids| && ids[i] == x;
      assert admins[i] == Config.Integer(x);
    }
    if Config.Integer(x) in admins {
      var i :| 0 <= i < |admins| && admins[i] == Config.Integer(x);
      assert ids[i] == x;
    }
  }

  /** The comma-joined ids are a non-empty value exactly when there is at least one id. */
  lemma AdminEnvSetIffIds(env: Config.Env, ids: seq<int>)
    requires "TG_ADMIN_UIDS" in env && env["TG_ADMIN_UIDS"] == Join(Config.IdList(ids), ",")
    ensures AdminEnvSet(env) <==> ids != []
  {
    if ids != [] {
      var parts := Config.IdList(ids);
      assert parts[0] == Config.DecimalString(ids[0]);
      Config.JoinFirstNonEmpty(parts, ",");
    }
  }

  /**
   * With `TG_ADMIN_UIDS` written as the comma-joined ids, a text message from
   * a person is admitted exactly when its sender is one of them.
   */
  lemma AdmitsExactlyListedAdmins(m: Message, env: Config.Env, ids: seq<int>)
    requires m.text.Some? && !m.fromIsBot
    requires "TG_ADMIN_UIDS" in env && env["TG_ADMIN_UIDS"] == Join(Config.IdList(ids), ",")
    ensures Admit(Some(m), env) == Admitted <==> m.fromId in ids
  {
    AdminsAreListedIds(env, ids, m.fromId);
    AdminEnvSetIffIds(env, ids);
  }

  /**
   * One update through the middleware: the bot registers itself first when
   * the user table is empty (before any filtering), then the update is
   * admitted or not.
   */
  method HandleUpdate(store: UserStore, botId: int, botUsername: string, derive: nat -> string,
                      update: Option<Message>, env: Config.Env) returns (a: Admission)
    requires store.Valid()
    modifies store
    ensures store.Valid()
    ensures a == Admit(update, env)
    ensures |old(store.rows)| == 0 ==>
      store.rows == [User(Some(old(store.nextId)), botId, botUsername, Some(derive(old(store.nextId))))]
    ensures |old(store.rows)| != 0 ==> store.rows == old(store.rows)
  {
    var count := store.Count();
    if count == 0 {
      var _ := RegisterUser(store, NewUser(botId, botUsername), derive);
    }
    a := Admit(update, env);
  }

  // ---------------------------------------------------------------------------
  // Payloads

  /** Where the bare command does not occur, its addressed form does not occur either. */
  lemma CommandAbsent(text: string, name: string, me: string)
    ensures (forall j :: 0 <= j <= |text| ==> !OccursAt(text, "/" + name, j)) ==>
      forall j :: 0 <= j <= |text| ==> !OccursAt(text, "/" + name + "@" + me, j)
  {
    var plain, addressed := "/" + name, "/" + name + "@" + me;
    forall j | 0 <= j <= |text| && OccursAt(text, addressed, j)
      ensures OccursAt(text, plain, j)
    {
      assert addressed[..|plain|] == plain;
      assert text[j..j + |plain|] == text[j..j + |addressed|][..|plain|];
    }
  }

  /** Removing a text's first occurrence of `pat` leaves what is before it and what is after it. */
  lemma RemoveFirst(s: string, pat: string, i: nat)
    requires FirstOccurrence(s, pat, i)
    ensures ReplaceFirst(s, pat, "") == s[..i] + s[i + |pat|..]
  {
    assert s[..i] + "" == s[..i];
  }

  /**
   * Removing `/name@<bot>` and then `/name` removes the first `/name` when
   * `/name@<bot>` is absent, and only the first `/name@<bot>` when no `/name`
   * is left after it.
   */
  lemma RemoveCommand(text: string, name: string, me: string)
    ensures forall i: nat :: FirstOccurrence(text, "/" + name, i) && Absent(text, "/" + name + "@" + me) ==>
      ReplaceFirst(ReplaceFirst(text, "/" + name + "@" + me, ""), "/" + name, "")
      == text[..i] + text[i + |name| + 1..]
    ensures forall i: nat ::
      (FirstOccurrence(text, "/" + name + "@" + me, i)
       && Absent(text[..i] + text[i + |name| + |me| + 2..], "/" + name)) ==>
      ReplaceFirst(ReplaceFirst(text, "/" + name + "@" + me, ""), "/" + name, "")
      == text[..i] + text[i + |name| + |me| + 2..]
  {
    var plain, addressed := "/" + name, "/" + name + "@" + me;
    forall i: nat | FirstOccurrence(text, plain, i) && Absent(text, addressed)
      ensures ReplaceFirst(ReplaceFirst(text, addressed, ""), plain, "") == text[..i] + text[i + |name| + 1..]
    {
      assert |plain| == |name| + 1;
      assert ReplaceFirst(text, addressed, "") == text;
      RemoveFirst(text, plain, i);
    }
    forall i: nat |
      FirstOccurrence(text, addressed, i) && Absent(text[..i] + text[i + |name| + |me| + 2..], plain)
      ensures ReplaceFirst(ReplaceFirst(text, addressed, ""), plain, "") == text[..i] + text[i + |name| + |me| + 2..]
    {
      var rest := text[..i] + text[i + |name| + |me| + 2..];
      assert |addressed| == |name| + |me| + 2;
      RemoveFirst(text, addressed, i);
      assert ReplaceFirst(text, addressed, "") == rest;
      assert ReplaceFirst(rest, plain, "") == rest;
    }
  }

  /** The text after the command `name`: `/name@<bot>` removed once, then `/name` removed once, then trimmed. */
  function Payload(text: string, name: string, me: string): (p: string)
    ensures |p| <= |text|
    ensures p == [] || (!IsSpace(p[0]) && !IsSpace(p[|p| - 1]))
    ensures (forall j :: 0 <= j <= |text| ==> !OccursAt(text, "/" + name, j)) ==> p == Trim(text)
    ensures forall i: nat :: FirstOccurrence(text, "/" + name, i) && Absent(text, "/" + name + "@" + me) ==>
      p == Trim(text[..i] + text[i + |name| + 1..])
    ensures forall i: nat ::
      (FirstOccurrence(text, "/" + name + "@" + me, i)
       && Absent(text[..i] + text[i + |name| + |me| + 2..], "/" + name)) ==>
      p == Trim(text[..i] + text[i + |name| + |me| + 2..])
  {
    CommandAbsent(text, name, me);
    RemoveCommand(text, name, me);
    Trim(ReplaceFirst(ReplaceFirst(text, "/" + name + "@" + me, ""), "/" + name, ""))
  }

  lemma ReplaceAtStart(s: string, pat: string, rep: string)
    requires OccursAt(s, pat, 0)
    ensures ReplaceFirst(s, pat, rep) == rep + s[|pat|..]
  {
  }

  /** A pattern starting with a character the text lacks is not replaced. */
  lemma ReplaceAbsent(s: string, pat: string, rep: string)
    requires pat != [] && pat[0] !in s
    ensures ReplaceFirst(s, pat, rep) == s
  {
  }

  /**
   * A pattern starting with `/` is not replaced in a text whose only `/` is
   * its first character, when the pattern disagrees with the text at `m`.
   */
  lemma ReplaceMismatchAtStart(s: string, pat: string, rep: string, m: nat)
    requires pat != [] && pat[0] == '/' && s != [] && s[0] == '/' && '/' !in s[1..]
    requires m < |pat| && m < |s| && s[m] != pat[m]
    ensures ReplaceFirst(s, pat, rep) == s
  {
  }

  /** A text with neither a leading nor a trailing space is its own trim. */
  lemma TrimLeadingSpace(p: string)
    requires p != [] && !IsSpace(p[0]) && !IsSpace(p[|p| - 1])
    ensures Trim(" " + p) == p
  {
    assert (" " + p)[1..] == p;
  }

  /** A text that can follow a command: non-empty, no `/`, no space at either end. */
  predicate IsCleanArgument(p: string) {
    p != [] && '/' !in p && !IsSpace(p[0]) && !IsSpace(p[|p| - 1])
  }

  /** The payload of `/name p` is `p`. */
  lemma PayloadOfCommand(name: string, me: string, p: string)
    requires '/' !in name && IsCleanArgument(p)
    ensures Payload("/" + name + " " + p, name, me) == p
  {
    var plain := "/" + name;
    var text := plain + " " + p;
    var addressed := "/" + name + "@" + me;
    assert text[1..] == name + " " + p;
    assert '/' !in text[1..];
    assert text[|name| + 1] == ' ' && addressed[|name| + 1] == '@';
    ReplaceMismatchAtStart(text, addressed, "", |name| + 1);
    var s1 := ReplaceFirst(text, addressed, "");
    assert s1 == text;
    assert OccursAt(text, plain, 0) by { assert text[..|plain|] == plain; }
    ReplaceAtStart(text, plain, "");
    assert text[|plain|..] == " " + p;
    var s2 := ReplaceFirst(s1, plain, "");
    assert s2 == " " + p;
    TrimLeadingSpace(p);
    assert Payload(text, name, me) == Trim(s2);
  }

  /** The payload of `/name@<bot> p` is `p`. */
  lemma PayloadOfAddressedCommand(name: string, me: string, p: string)
    requires IsCleanArgument(p)
    ensures Payload("/" + name + "@" + me + " " + p, name, me) == p
  {
    var addressed := "/" + name + "@" + me;
    var text := addressed + " " + p;
    assert OccursAt(text, addressed, 0) by { assert text[..|addressed|] == addressed; }
    ReplaceAtStart(text, addressed, "");
    assert text[|addressed|..] == " " + p;
    assert ReplaceFirst(text, addressed, "") == " " + p;
    ReplaceAbsent(" " + p, "/" + name, "");
    TrimLeadingSpace(p);
  }

  // ---------------------------------------------------------------------------
  // Tip and withdrawal formats

  /** A point with only digits before it is the first point. */
  lemma FirstPointAt(s: string, k: nat)
    requires k < |s| && s[k] == '.' && IsDigits(s[..k])
    ensures FirstIndexOf(s, '.') == k
  {
  }

  lemma FirstPoint(s: string)
    ensures forall k :: 0 <= k < |s| && s[k] == '.' && IsDigits(s[..k]) ==> FirstIndexOf(s, '.') == k
  {
    forall k | 0 <= k < |s| && s[k] == '.' && IsDigits(s[..k])
      ensures FirstIndexOf(s, '.') == k
    {
      FirstPointAt(s, k);
    }
  }

  /** `^\d+(?:\.\d+)?$`: digits, optionally a point and more digits. */
  function IsDecimalAmount(s: string): (b: bool)
    ensures b <==> IsDigits(s) || exists k :: 0 <= k < |s| && s[k] == '.' && IsDigits(s[..k]) && IsDigits(s[k + 1..])
  {
    FirstPoint(s);
    if '.' in s then
      var k := FirstIndexOf(s, '.');
      IsDigits(s[..k]) && IsDigits(s[k + 1..])
    else IsDigits(s)
  }

  /** An amount is made of digits and at most one point. */
  lemma DecimalAmountChars(s: string)
    requires IsDecimalAmount(s)
    ensures s != [] && IsDigit(s[0]) && IsDigit(s[|s| - 1])
    ensures forall i :: 0 <= i < |s| ==> IsDigit(s[i]) || s[i] == '.'
  {
    if '.' in s {
      var k := FirstIndexOf(s, '.');
      forall i | 0 <= i < |s| ensures IsDigit(s[i]) || s[i] == '.' {
        if i < k { assert s[i] == s[..k][i]; }
        else if i > k { assert s[i] == s[k + 1..][i - k - 1]; }
      }
      assert s[0] == s[..k][0];
      assert s[|s| - 1] == s[k + 1..][|s| - k - 2];
    }
  }

  /** The amount forms the tip format accepts and some it does not. */
  lemma DecimalAmountForms(a: string, b: string)
    requires IsDigits(a) && IsDigits(b)
    ensures IsDecimalAmount(a)
    ensures IsDecimalAmount(a + "." + b)
    ensures !IsDecimalAmount(a + ".") && !IsDecimalAmount("." + a)
    ensures !IsDecimalAmount(a + "." + b + "." + b)
  {
    assert '.' !in a by {
      forall i | 0 <= i < |a| ensures a[i] != '.' { assert IsDigit(a[i]); }
    }
    assert '.' !in b by {
      forall i | 0 <= i < |b| ensures b[i] != '.' { assert IsDigit(b[i]); }
    }
    var s := a + "." + b;
    var k := FirstIndexOf(s, '.');
    assert s[|a|] == '.';
    assert s[..|a|] == a;
    assert k == |a|;
    assert s[k + 1..] == b;
    var t := a + ".";
    assert t[|a|] == '.';
    var kt := FirstIndexOf(t, '.');
    assert t[kt + 1..] == [];
    var u := "." + a;
    assert u[0] == '.';
    assert FirstIndexOf(u, '.') == 0;
    assert u[..0] == [];
    var w := a + "." + b + "." + b;
    assert w[|a|] == '.';
    var kw := FirstIndexOf(w, '.');
    assert kw == |a|;
    assert w[kw + 1..][|b|] == '.';
  }

  /** A tip: the Telegram id of the user replied to and the amount text. */
  datatype TipRequest = TipRequest(receiverTelegramId: int, amount: string)

  const WrongTipFormat: string := "Wrong tipping format, sorry."
  const WrongWithdrawalFormat: string := "Wrong withdrawal format, sorry."

  /** The tip is understood only as a reply whose payload is an amount; the amount is the whole payload. */
  function ParseTip(payload: string, replyToFromId: Option<int>): (r: Result<TipRequest, string>)
    ensures r.Success? <==> replyToFromId.Some? && IsDecimalAmount(payload)
    ensures r.Success? ==> r.value == TipRequest(replyToFromId.value, payload)
    ensures r.Failure? ==> r.error == WrongTipFormat
  {
    if replyToFromId.Some? && IsDecimalAmount(payload) then Success(TipRequest(replyToFromId.value, payload))
    else Failure(WrongTipFormat)
  }

  /** `[a-zA-Z0-9]{45}`: 45 letters and digits, so neither a space nor a point. */
  function IsAddressText(s: string): (b: bool)
    ensures b <==> |s| == 45 && forall c :: c in s ==> IsAlphaNumeric(c)
    ensures b ==> ' ' !in s && '.' !in s
  {
    |s| == 45 && forall i :: 0 <= i < |s| ==> IsAlphaNumeric(s[i])
  }

  datatype WithdrawRequest = WithdrawRequest(amount: string, destinationAddress: string)

  /**
   * `^(\d+(?:\.\d+)?) ([a-zA-Z0-9]{45})$`: neither group holds a space, so the
   * amount is what precedes the first space and the address what follows it.
   */
  function ParseWithdraw(payload: string): (r: Option<WithdrawRequest>)
    ensures r.Some? ==>
      payload == r.value.amount + " " + r.value.destinationAddress
      && IsDecimalAmount(r.value.amount) && IsAddressText(r.value.destinationAddress)
  {
    if ' ' in payload then
      var k := FirstIndexOf(payload, ' ');
      var amount := payload[..k];
      var address := payload[k + 1..];
      if IsDecimalAmount(amount) && IsAddressText(address) then
        assert payload == amount + " " + address;
        Some(WithdrawRequest(amount, address))
      else None
    else None
  }

  /** Every amount followed by a space and a 45-character address is understood, and read back as such. */
  lemma WithdrawRoundTrip(amount: string, address: string)
    requires IsDecimalAmount(amount) && IsAddressText(address)
    ensures ParseWithdraw(amount + " " + address) == Some(WithdrawRequest(amount, address))
  {
    DecimalAmountChars(amount);
    var payload := amount + " " + address;
    assert payload[|amount|] == ' ';
    var k := FirstIndexOf(payload, ' ');
    assert k == |amount|;
    assert payload[..k] == amount;
    assert payload[k + 1..] == address;
  }

  /**
   * The withdrawal format admits any ASCII letters and digits, so it lets
   * through addresses the ledger client then rejects as not Base58.
   */
  lemma WithdrawFormatAdmitsNonBase58(amount: string, address: string, i: nat)
    requires IsDecimalAmount(amount) && IsAddressText(address)
    requires i < |address| && address[i] == '0'
    ensures ParseWithdraw(amount + " " + address).Some?
    ensures !LegacyAlphClient.IsAddressValid(address)
  {
    WithdrawRoundTrip(amount, address);
    if LegacyAlphClient.IsAddressValid(address) {
      LegacyAlphClient.ValidAddressShape(address);
    }
  }

  // ---------------------------------------------------------------------------
  // Handlers

  /** What a handler goes on to do once it has decided. */
  datatype Action =
    | Ignore                                                         // returns without replying
    | Reply(text: string)                                            // a fixed reply
    | ShowAddress(user: User)                                        // the address message
    | ShowBalance(user: User)                                        // the balance message
    | TipTransfer(sender: User, receiver: Option<User>, amount: string)  // `None`: "This user has no wallet yet."
    | SendTo(withdrawer: Option<User>, request: WithdrawRequest)   // the withdrawal through the ledger client
    | ConsolidateFor(owner: Option<User>)                            // the consolidation through the ledger client
    | Inform(command: Command)                                       // the privacy, forget-me or help text

  /**
   * The handlers other than `/start`, on the user rows as they are when the
   * message arrives; `me` is the bot's user name.
   */
  function Handle(command: Command, m: Message, rows: seq<User>, me: string): (a: Action)
    requires command != Start
    ensures command.PrivateOnly() && m.chatType != PrivateChat ==> a == Ignore
    ensures command in {Address, Balance} && !(command == Balance && m.chatType != PrivateChat) ==>
      (a == Reply(UnInitializedWallet) <==> !HasTelegramId(rows, m.fromId))
    ensures command == Tip ==>
      (a.TipTransfer? <==> HasTelegramId(rows, m.fromId) && m.text.Some? && m.replyToFromId.Some?
                           && IsDecimalAmount(Payload(m.text.value, "tip", me)))
    ensures command == Tip && a.TipTransfer? ==>
      a.amount == Payload(m.text.value, "tip", me) && a.sender.telegramId == m.fromId
      && a.receiver == FindByTelegramId(rows, m.replyToFromId.value)
    ensures command == Tip && !HasTelegramId(rows, m.fromId) ==> a == Reply(UnInitializedWallet)
    ensures command == Tip && HasTelegramId(rows, m.fromId) && m.text.Some? && !a.TipTransfer? ==>
      a == Reply(WrongTipFormat)
    ensures command == Withdraw ==>
      (a.SendTo? <==> m.chatType == PrivateChat && m.text.Some?
                      && ParseWithdraw(Payload(m.text.value, "withdraw", me)).Some?)
    ensures command == Withdraw && a.SendTo? ==>
      a.withdrawer == FindByTelegramId(rows, m.fromId)
      && a.request == ParseWithdraw(Payload(m.text.value, "withdraw", me)).value
    ensures command == Withdraw && m.chatType == PrivateChat && m.text.Some? && !a.SendTo? ==>
      a == Reply(WrongWithdrawalFormat)
    ensures command == Address && HasTelegramId(rows, m.fromId) ==>
      a.ShowAddress? && a.user in rows && a.user.telegramId == m.fromId
    ensures command == Balance && m.chatType == PrivateChat && HasTelegramId(rows, m.fromId) ==>
      a.ShowBalance? && a.user in rows && a.user.telegramId == m.fromId
    ensures command == Consolidate && m.chatType == PrivateChat ==>
      a.ConsolidateFor? && (a.owner.Some? <==> HasTelegramId(rows, m.fromId))
      && (a.owner.Some? ==> a.owner.value in rows && a.owner.value.telegramId == m.fromId)
    ensures command in {Privacy, Forgetme} && m.chatType == PrivateChat ==> a == Inform(command)
    ensures command == Help ==> a == Inform(Help)
  {
    var user := FindByTelegramId(rows, m.fromId);
    match command
    case Address =>
      if user.None? then Reply(UnInitializedWallet) else ShowAddress(user.value)
    case Balance =>
      if m.chatType != PrivateChat then Ignore
      else if user.None? then Reply(UnInitializedWallet) else ShowBalance(user.value)
    case Tip =>
      if user.None? then Reply(UnInitializedWallet)
      else if m.text.None? then Ignore
      else
        (match ParseTip(Payload(m.text.value, "tip", me), m.replyToFromId)
         case Failure(e) => Reply(e)
         case Success(tip) => TipTransfer(user.value, FindByTelegramId(rows, tip.receiverTelegramId), tip.amount))
    case Withdraw =>
      if m.chatType != PrivateChat || m.text.None? then Ignore
      else
        (match ParseWithdraw(Payload(m.text.value, "withdraw", me))
         case None => Reply(WrongWithdrawalFormat)
         case Some(request) => SendTo(user, request))
    case Consolidate =>
      if m.chatType != PrivateChat then Ignore else ConsolidateFor(user)
    case Privacy =>
      if m.chatType != PrivateChat then Ignore else Inform(Privacy)
    case Forgetme =>
      if m.chatType != PrivateChat then Ignore else Inform(Forgetme)
    case Help => Inform(Help)
  }

  /** An amount contains no `/`, no space and ends in digits, so it can follow a command. */
  lemma AmountIsCleanArgument(amount: string)
    requires IsDecimalAmount(amount)
    ensures IsCleanArgument(amount)
  {
    DecimalAmountChars(amount);
    assert '/' !in amount by {
      forall i | 0 <= i < |amount| ensures amount[i] != '/' { assert IsDigit(amount[i]) || amount[i] == '.'; }
    }
  }

  /** An amount, a space and an address can follow a command. */
  lemma WithdrawArgumentIsClean(amount: string, address: string)
    requires IsDecimalAmount(amount) && IsAddressText(address)
    ensures IsCleanArgument(amount + " " + address)
  {
    DecimalAmountChars(amount);
    var p := amount + " " + address;
    forall i | 0 <= i < |p| ensures p[i] != '/' {
      if i < |amount| { assert p[i] == amount[i]; assert IsDigit(amount[i]) || amount[i] == '.'; }
      else if i > |amount| { assert p[i] == address[i - |amount| - 1]; assert IsAlphaNumeric(address[i - |amount| - 1]); }
    }
    assert p[0] == amount[0];
    assert p[|p| - 1] == address[44];
    assert IsAlphaNumeric(address[44]);
  }

  /** A registered user replying with `/tip@<bot> <amount>` tips that amount to the author of the message replied to. */
  lemma TipByReply(m: Message, rows: seq<User>, me: string, amount: string)
    requires IsDecimalAmount(amount)
    requires m.text == Some("/tip@" + me + " " + amount) && m.replyToFromId.Some?
    requires HasTelegramId(rows, m.fromId)
    ensures Handle(Tip, m, rows, me).TipTransfer?
    ensures Handle(Tip, m, rows, me).amount == amount
  {
    TipPayload(m.text.value, me, amount);
  }

  /** The payload of `/tip@<bot> <amount>` is the amount. */
  lemma TipPayload(text: string, me: string, amount: string)
    requires IsDecimalAmount(amount)
    requires text == "/tip@" + me + " " + amount
    ensures Payload(text, "tip", me) == amount
  {
    AmountIsCleanArgument(amount);
    assert text == "/" + "tip" + "@" + me + " " + amount;
    PayloadOfAddressedCommand("tip", me, amount);
  }

  /** The payload of `/withdraw <amount> <address>` is the amount, a space and the address. */
  lemma WithdrawPayload(text: string, me: string, amount: string, address: string)
    requires IsDecimalAmount(amount) && IsAddressText(address)
    requires text == "/withdraw " + amount + " " + address
    ensures Payload(text, "withdraw", me) == amount + " " + address
  {
    var p := amount + " " + address;
    WithdrawArgumentIsClean(amount, address);
    assert text == "/" + "withdraw" + " " + p;
    PayloadOfCommand("withdraw", me, p);
  }

  /** In a private chat, `/withdraw <amount> <address>` asks the ledger client for exactly that withdrawal. */
  lemma WithdrawInPrivate(m: Message, rows: seq<User>, me: string, amount: string, address: string)
    requires IsDecimalAmount(amount) && IsAddressText(address)
    requires m.chatType == PrivateChat && m.text == Some("/withdraw " + amount + " " + address)
    ensures Handle(Withdraw, m, rows, me) == SendTo(FindByTelegramId(rows, m.fromId), WithdrawRequest(amount, address))
  {
    WithdrawPayload(m.text.value, me, amount, address);
    WithdrawRoundTrip(amount, address);
  }

  // ---------------------------------------------------------------------------
  // /start

  const WalletInitialized: string := "A new wallet has been initialized!"
  const AlreadyInitialized: string := "You already have an initialized account!"

  /** The action whose failure `/start` reports. */
  const EnsuringInitialization: string := "ensuring the initialization of your account"

  /**
   * What `/start` ends with: the text the "Initializing a new wallet..."
   * message is edited to (if any), the user whose balance is then shown and,
   * when there is none, the error reply.
   */
  datatype StartOutcome = StartOutcome(edit: Option<string>, user: Option<User>, errorReply: Option<string>)

  /**
   * The fallback after registration: a registered user is kept; the
   * "already registered" rejection falls back to the stored user; any other
   * rejection leaves no user. A missing user gives the error reply.
   */
  function StartFallback(registration: Result<User, Raised>, rows: seq<User>, telegramId: int): (r: StartOutcome)
    ensures r.user.None? <==> r.errorReply == Some(GenUserMessageErrorWhile(EnsuringInitialization))
    ensures r.user.Some? ==> r.errorReply.None?
    ensures registration.Success? ==> r.user == Some(registration.value) && r.edit == Some(WalletInitialized)
    ensures registration == Failure(NonError(UserAlreadyRegistered)) ==>
      r.user == FindByTelegramId(rows, telegramId) && r.edit == Some(AlreadyInitialized)
    ensures registration.Failure? && registration.error != NonError(UserAlreadyRegistered) ==>
      r.user.None? && r.edit.None?
  {
    var (edit, user) :=
      match registration
      case Success(u) => (Some(WalletInitialized), Some(u))
      case Failure(e) =>
        if e == NonError(UserAlreadyRegistered) then (Some(AlreadyInitialized), FindByTelegramId(rows, telegramId))
        else (None, None);
    StartOutcome(edit, user, if user.None? then Some(GenUserMessageErrorWhile(EnsuringInitialization)) else None)
  }

  /**
   * `/start` against the user table: a new user is registered, a known one
   * falls back to the stored row; either way the user whose balance is shown
   * is the sender's, and no error reply is sent.
   */
  method StartCommand(store: UserStore, telegramId: int, username: string, derive: nat -> string)
    returns (r: StartOutcome)
    requires store.Valid()
    modifies store
    ensures store.Valid()
    ensures r.user.Some? && r.user.value.telegramId == telegramId && r.errorReply.None?
    ensures r.edit == Some(if HasTelegramId(old(store.rows), telegramId) then AlreadyInitialized else WalletInitialized)
    ensures HasTelegramId(old(store.rows), telegramId) ==> store.rows == old(store.rows)
    ensures !HasTelegramId(old(store.rows), telegramId) ==> store.rows == old(store.rows) + [r.user.value]
  {
    var registered := RegisterUser(store, NewUser(telegramId, username), derive);
    var registration: Result<User, Raised> :=
      match registered
      case Success(u) => Success(u)
      case Failure(e) => Failure(NonError(e));
    r := StartFallback(registration, store.rows, telegramId);
  }

  // ---------------------------------------------------------------------------
  // /consolidate

  const ConsolidationAborted: string := "Consolidation status: aborted (not required)"
  const ConsolidationConfirmed: string := "Consolidation status: confirmed"
  const ConsolidationFailed: string := "Consolidation status: failed"

  /** The status the consolidation message is edited to, from the ledger client's answer. */
  function ConsolidationStatus(result: Result<Option<string>, Raised>): (status: string)
    ensures status == ConsolidationAborted <==> result == Success(None)
    ensures status == ConsolidationFailed <==> result.Failure?
  {
    match result
    case Failure(_) => ConsolidationFailed
    case Success(None) => ConsolidationAborted
    case Success(Some(_)) => ConsolidationConfirmed
  }

  /**
   * With the services client, which src/index.ts hands to `runTelegram`: a
   * `/consolidate` below the threshold (50 by default) is reported as not
   * required, a successful sweep at or above it as confirmed, and a failed
   * balance query or sweep as failed.
   */
  lemma ConsolidateWithServicesClient(balance: Result<AlphClient.AddressBalance, Raised>, threshold: int,
                                      sweep: Result<seq<string>, Raised>)
    ensures var status := ConsolidationStatus(AlphClient.ConsolidateIfRequired(balance, threshold, sweep));
      (status == ConsolidationAborted <==> balance.Success? && balance.value.utxoNum < threshold)
      && (status == ConsolidationConfirmed <==>
            balance.Success? && balance.value.utxoNum >= threshold && sweep.Success?)
  {
  }

  /**
   * With the legacy client the handler is typed against, whose threshold
   * setting is undefined, a successful `/consolidate` would never be reported
   * as not required.
   */
  lemma ConsolidateNeverAborts(balance: AlphClient.AddressBalance, txIds: seq<string>)
    ensures ConsolidationStatus(LegacyAlphClient.LegacyConsolidateIfRequired(Success(balance), None, Success(txIds)))
         == ConsolidationConfirmed
  {
    LegacyAlphClient.LegacyAlwaysConsolidates(balance, txIds);
  }
}
