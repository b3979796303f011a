/**
 * Configuration read from the environment (src/config.ts): the network the
 * bot runs on and what follows from it, the admin list, boolean flags and
 * numeric settings with their defaults. The environment is a map from
 * variable name to value; reading the mnemonic file and the console colour
 * patch are I/O and not part of this model.
 */
module Config {
  import opened Wrappers
  import opened Text

  /** `process.env`. */
  type Env = map<string, string>

  /** `process.env[name] || fallback`: the fallback replaces a missing or empty value. */
  function EnvOr(env: Env, name: string, fallback: string): string {
    if name in env && env[name] != "" then env[name] else fallback
  }

  /**
   * The result of JavaScript's `Number(text)`, for the texts the
   * configuration feeds it: white space is trimmed, an empty text is 0 and an
   * optionally signed run of decimal digits is that integer. Every other text
   * (a fraction, an exponent, a hexadecimal literal, `Infinity`, or garbage
   * that gives `NaN`) is `OtherNumber`.
   */
  datatype JsNumber = Integer(value: int) | OtherNumber

  function ParseNumber(s: string): (n: JsNumber)
    ensures Trim(s) == "" ==> n == Integer(0)
    ensures IsDigits(Trim(s)) ==> n == Integer(DigitsValue(Trim(s)))
    ensures Trim(s) != "" && Trim(s)[0] == '-' && IsDigits(Trim(s)[1..]) ==>
      n == Integer(0 - DigitsValue(Trim(s)[1..]))
    ensures Trim(s) != "" && Trim(s)[0] == '+' && IsDigits(Trim(s)[1..]) ==>
      n == Integer(DigitsValue(Trim(s)[1..]))
    ensures n.Integer? && Trim(s) != "" ==>
      IsDigits(Trim(s)) || (Trim(s)[0] in "+-" && IsDigits(Trim(s)[1..]))
  {
    var t := Trim(s);
    if t == "" then Integer(0)
    else if IsDigits(t) then Integer(DigitsValue(t))
    else if t[0] == '-' && IsDigits(t[1..]) then Integer(0 - DigitsValue(t[1..]))
    else if t[0] == '+' && IsDigits(t[1..]) then Integer(DigitsValue(t[1..]))
    else OtherNumber
  }

  /** The decimal digits of `n`, most significant first and without leading zeros. */
  function NatDigits(n: nat): (s: string)
    ensures IsDigits(s)
    ensures DigitsValue(s) == n
    ensures |s| > 1 ==> s[0] != '0'
  {
    var d := ['0' + (n % 10) as char];
    if n < 10 then d
    else
      var s := NatDigits(n / 10) + d;
      assert s[..|s| - 1] == NatDigits(n / 10);
      s
  }

  /** `String(n)` for an integer: a minus sign in front of a negative number's digits. */
  function DecimalString(n: int): (s: string)
    ensures n >= 0 ==> IsDigits(s)
    ensures n < 0 ==> |s| > 1 && s[0] == '-' && IsDigits(s[1..])
  {
    if n >= 0 then NatDigits(n) else "-" + NatDigits(-n)
  }

  /** A string without white space at either end is its own trim. */
  lemma TrimNoSpace(s: string)
    requires forall i :: 0 <= i < |s| ==> !IsSpace(s[i])
    ensures Trim(s) == s
  {
    assert TrimStart(s) == s;
  }

  /** `Number(String(n)) == n` for every integer `n`. */
  lemma ParseNumberRoundTrip(n: int)
    ensures ParseNumber(DecimalString(n)) == Integer(n)
  {
    var s := DecimalString(n);
    TrimNoSpace(s);
    if n < 0 {
      assert !IsDigits(s) by { assert !IsDigit(s[0]); }
      assert s[1..] == NatDigits(-n);
    }
  }

  /** The three networks the bot knows, in lower case. */
  const Devnet: string := "devnet"
  const Testnet: string := "testnet"
  const Mainnet: string := "mainnet"

  predicate IsKnownNetwork(name: string) {
    name == Devnet || name == Testnet || name == Mainnet
  }

  /**
   * `network`: the value of `NETWORK` as written, casing included, when its
   * lower-cased form is a known network; `"devnet"` otherwise, and when unset.
   */
  function Network(env: Env): (network: string)
    ensures IsKnownNetwork(ToLower(network))
    ensures IsKnownNetwork(ToLower(EnvOr(env, "NETWORK", ""))) ==> network == env["NETWORK"]
    ensures !IsKnownNetwork(ToLower(EnvOr(env, "NETWORK", ""))) ==> network == Devnet
  {
    var n := EnvOr(env, "NETWORK", "");
    if IsKnownNetwork(ToLower(n)) then n
    else
      assert ToLower(Devnet) == Devnet;
      Devnet
  }

  /** `explorerAddress()`: only the exact lower-case names select an explorer. */
  function ExplorerAddress(network: string): (address: Option<string>)
    ensures address.Some? <==> network == Mainnet || network == Testnet
    ensures network == Mainnet ==> address == Some("https://explorer.alephium.org")
    ensures network == Testnet ==> address == Some("https://testnet.alephium.org")
  {
    if network == Mainnet then Some("https://explorer.alephium.org")
    else if network == Testnet then Some("https://testnet.alephium.org")
    else None
  }

  /** `isOnDevNet()`: an exact, case-sensitive comparison. */
  function IsOnDevNet(network: string): (b: bool)
    ensures b ==> IsKnownNetwork(network) && ExplorerAddress(network).None?
    ensures b ==> forall i :: 0 <= i < |network| ==> !('A' <= network[i] <= 'Z')
  {
    network == Devnet
  }

  /**
   * A network given in another casing is accepted as is, but then it is
   * neither recognised as devnet nor given an explorer.
   */
  lemma NetworkKeepsCasing(env: Env)
    requires "NETWORK" in env && env["NETWORK"] == "DEVNET"
    ensures Network(env) == "DEVNET"
    ensures !IsOnDevNet(Network(env)) && ExplorerAddress(Network(env)).None?
  {
    assert ToLower("DEVNET") == Devnet;
  }

  /** An unset or unknown network falls back to devnet, which has no explorer. */
  lemma UnknownNetworkIsDevnet(env: Env)
    requires "NETWORK" !in env || !IsKnownNetwork(ToLower(env["NETWORK"]))
    ensures Network(env) == Devnet && IsOnDevNet(Network(env))
    ensures ExplorerAddress(Network(env)).None?
  {
    assert ToLower("") == "";
  }

  function NonEmpty(parts: seq<string>): (r: seq<string>)
    ensures forall i :: 0 <= i < |r| ==> r[i] != "" && r[i] in parts
    ensures forall p :: p in parts && p != "" ==> p in r
  {
    if parts == [] then []
    else if parts[0] == "" then NonEmpty(parts[1..])
    else [parts[0]] + NonEmpty(parts[1..])
  }

  function ParseAll(parts: seq<string>): (r: seq<JsNumber>)
    ensures |r| == |parts|
    ensures forall i :: 0 <= i < |r| ==> r[i] == ParseNumber(parts[i])
  {
    seq(|parts|, i requires 0 <= i < |parts| => ParseNumber(parts[i]))
  }

  /** `telegram.admins`: `TG_ADMIN_UIDS` split on commas, empty pieces dropped, each read as a number. */
  function Admins(env: Env): (admins: seq<JsNumber>)
    ensures "TG_ADMIN_UIDS" !in env || env["TG_ADMIN_UIDS"] == "" ==> admins == []
  {
    var raw := EnvOr(env, "TG_ADMIN_UIDS", "");
    assert raw == "" ==> Split(raw, ',') == [""] && NonEmpty([""]) == [];
    ParseAll(NonEmpty(Split(raw, ',')))
  }

  /** The comma-separated decimal form of a list of ids, as an operator writes `TG_ADMIN_UIDS`. */
  function IdList(ids: seq<int>): (parts: seq<string>)
    ensures |parts| == |ids|
    ensures forall i :: 0 <= i < |ids| ==> parts[i] == DecimalString(ids[i])
  {
    seq(|ids|, i requires 0 <= i < |ids| => DecimalString(ids[i]))
  }

  lemma {:induction false} SplitJoin(parts: seq<string>, sep: char)
    requires |parts| >= 1
    requires forall i :: 0 <= i < |parts| ==> sep !in parts[i]
    ensures Split(Join(parts, [sep]), sep) == parts
    decreases |parts|
  {
    if |parts| > 1 {
      var s := Join(parts, [sep]);
      var rest := Join(parts[1..], [sep]);
      assert s == parts[0] + [sep] + rest;
      assert sep in s by { assert s[|parts[0]|] == sep; }
      var i := FirstIndexOf(s, sep);
      assert s[..|parts[0]|] == parts[0];
      assert s[i + 1..] == rest;
      SplitJoin(parts[1..], sep);
    }
  }

  /** Digits and a minus sign are never a comma. */
  lemma DecimalStringHasNoComma(n: int)
    ensures ',' !in DecimalString(n)
  {
    var s := DecimalString(n);
    if n < 0 {
      assert forall i :: 1 <= i < |s| ==> s[i] == s[1..][i - 1];
    }
  }

  /** Writing a list of ids into `TG_ADMIN_UIDS` and reading it back gives exactly those ids, in order. */
  lemma AdminsRoundTrip(env: Env, ids: seq<int>)
    requires "TG_ADMIN_UIDS" in env && env["TG_ADMIN_UIDS"] == Join(IdList(ids), ",")
    ensures |Admins(env)| == |ids|
    ensures forall i :: 0 <= i < |ids| ==> Admins(env)[i] == Integer(ids[i])
  {
    var parts := IdList(ids);
    if ids != [] {
      forall i | 0 <= i < |parts| ensures ',' !in parts[i] {
        DecimalStringHasNoComma(ids[i]);
      }
      SplitJoin(parts, ',');
      assert Join(parts, ",") != "" by {
        JoinFirstNonEmpty(parts, ",");
      }
      NonEmptyKeepsAll(parts);
      forall i | 0 <= i < |ids| ensures Admins(env)[i] == Integer(ids[i]) {
        ParseNumberRoundTrip(ids[i]);
      }
    }
  }

  lemma JoinFirstNonEmpty(parts: seq<string>, sep: string)
    requires |parts| >= 1 && parts[0] != ""
    ensures Join(parts, sep) != ""
  {
    if |parts| > 1 {
      assert Join(parts, sep)[0] == parts[0][0];
    }
  }

  lemma {:induction false} NonEmptyKeepsAll(parts: seq<string>)
    requires forall i :: 0 <= i < |parts| ==> parts[i] != ""
    ensures NonEmpty(parts) == parts
  {
    if parts != [] {
      NonEmptyKeepsAll(parts[1..]);
    }
  }

  /** A flag is on iff its value, lower-cased, is exactly `"true"`; unset means `"false"`. */
  function Flag(env: Env, name: string): (b: bool)
    ensures b <==> name in env && |env[name]| == 4 && forall i :: 0 <= i < 4 ==> ToLowerChar(env[name][i]) == "true"[i]
  {
    ToLower(EnvOr(env, name, "false")) == "true"
  }

  /** The configuration the bot reads at start-up. */
  datatype EnvConfig = EnvConfig(
    botToken: string,
    admins: seq<JsNumber>,
    databasePath: string,
    network: string,
    operatorFees: JsNumber,
    operatorAddressesByGroup: seq<Option<string>>,
    nbUTXOBeforeConsolidation: JsNumber,
    nbConfirmationsInternalTransfer: JsNumber,
    nbConfirmationsExternalTransfer: JsNumber,
    considerMempool: bool,
    onlyAllowAdmins: bool)

  function EnvValue(env: Env, name: string): Option<string> {
    if name in env then Some(env[name]) else None
  }

  /** The default database file: `./data/<network>.database.sqlite`. */
  function DefaultDatabasePath(network: string): (path: string)
    ensures |path| == |"./data/"| + |network| + |".database.sqlite"|
    ensures path[..7] == "./data/" && path[7..7 + |network|] == network
    ensures path[7 + |network|..] == ".database.sqlite"
  {
    "./data/" + network + ".database.sqlite"
  }

  function LoadConfig(env: Env): (c: EnvConfig)
    ensures IsKnownNetwork(ToLower(c.network))
    ensures |c.operatorAddressesByGroup| == 4
  {
    var network := Network(env);
    EnvConfig(
      EnvOr(env, "TG_BOT_TOKEN", ""),
      Admins(env),
      EnvOr(env, "DB_PATH", DefaultDatabasePath(network)),
      network,
      ParseNumber(EnvOr(env, "OPERATOR_FEES", "0")),
      [EnvValue(env, "OPERATOR_WALLET_ADDRESS_G0"), EnvValue(env, "OPERATOR_WALLET_ADDRESS_G1"),
       EnvValue(env, "OPERATOR_WALLET_ADDRESS_G2"), EnvValue(env, "OPERATOR_WALLET_ADDRESS_G3")],
      ParseNumber(EnvOr(env, "NUM_UTXO_BEFORE_CONSOLIDATION", "50")),
      ParseNumber(EnvOr(env, "NUM_CONFIRMATIONS_INTERNAL_TRANSFER", "1")),
      ParseNumber(EnvOr(env, "NUM_CONFIRMATIONS_EXTERNAL_TRANSFER", "1")),
      Flag(env, "CONSIDER_MEMPOOL"),
      Flag(env, "ONLY_ALLOW_ADMIN"))
  }

  /** A bare run of digits reads as its decimal value. */
  lemma ParseDigits(s: string)
    requires IsDigits(s)
    ensures ParseNumber(s) == Integer(DigitsValue(s))
  {
    assert forall i :: 0 <= i < |s| ==> !IsSpace(s[i]) by {
      assert forall i :: 0 <= i < |s| ==> IsDigit(s[i]);
    }
    TrimNoSpace(s);
  }

  /** With an empty environment the bot runs on devnet, with the database file named after it and no admins. */
  lemma DefaultNetworkSettings(env: Env)
    requires env == map[]
    ensures LoadConfig(env).network == Devnet
    ensures LoadConfig(env).databasePath == DefaultDatabasePath(Devnet)
    ensures LoadConfig(env).admins == []
  {
    assert ToLower("") == "";
  }

  /** With an empty environment the operator takes no fees and has no addresses. */
  lemma DefaultOperatorSettings(env: Env)
    requires env == map[]
    ensures LoadConfig(env).operatorFees == Integer(0)
    ensures LoadConfig(env).operatorAddressesByGroup == [None, None, None, None]
  {
    ParseDigits("0");
    assert DigitsValue("0") == 0;
  }

  /** With an empty environment a consolidation is due from 50 UTXOs. */
  lemma DefaultConsolidationThreshold(env: Env)
    requires env == map[]
    ensures LoadConfig(env).nbUTXOBeforeConsolidation == Integer(50)
  {
    assert EnvOr(env, "NUM_UTXO_BEFORE_CONSOLIDATION", "50") == "50";
    ParseFifty();
  }

  lemma ParseFifty()
    ensures ParseNumber("50") == Integer(50)
  {
    ParseDigits("50");
    assert DigitsValue("50") == 50 by { assert "50"[..1] == "5"; }
  }

  /** With an empty environment both kinds of transfer wait for one confirmation. */
  lemma DefaultConfirmations(env: Env)
    requires env == map[]
    ensures LoadConfig(env).nbConfirmationsInternalTransfer == Integer(1)
    ensures LoadConfig(env).nbConfirmationsExternalTransfer == Integer(1)
  {
    ParseDigits("1");
    assert DigitsValue("1") == 1;
  }

  /** With an empty environment both flags are off. */
  lemma DefaultFlags(env: Env)
    requires env == map[]
    ensures !LoadConfig(env).considerMempool && !LoadConfig(env).onlyAllowAdmins
  {
    assert ToLower("false") != "true" by { assert ToLower("false")[0] == 'f'; }
  }

  /** A flag set to `"TRUE"` or `"True"` is on; any value other than some casing of `"true"` is off. */
  lemma FlagIgnoresCase(env: Env, name: string)
    ensures name in env && env[name] == "TRUE" ==> Flag(env, name)
    ensures name in env && env[name] == "True" ==> Flag(env, name)
    ensures name in env && |env[name]| != 4 ==> !Flag(env, name)
  {
  }
}
