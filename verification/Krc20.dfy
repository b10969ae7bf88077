/**
 The KRC-20 state machine of src/krc20.rs. JSON decoding is a parameter: a call receives the
 decoded envelope, or the fact that decoding failed. Tickers are taken as ASCII.
 */
module Krc20 {
  import opened Basics

  datatype Error =
    | InvalidProtocol
    | AlreadyExists(ticker: string)
    | NotFound(ticker: string)
    | MintLimitExceeded(requested: u128, limit: u128)
    | SupplyCapExceeded(requested: u128, remaining: u128)
    | InsufficientBalance(address: string, needed: u128, available: u128)
    | InvalidAmount
    | InvalidTick
    | InvalidAddress
    | MissingTxId
    | DuplicateTx(txId: string)
    | Parse

  datatype Operation =
    | Deploy(tick: string, max: string, lim: string, dec: Option<bv8>)
    | Mint(tick: string, asked: Option<string>)
    | Transfer(tick: string, amt: string, to: string)

  datatype Payload = Undecodable | Envelope(p: string, op: Operation)

  datatype Token = Token(
    ticker: string, maxSupply: u128, mintedSupply: u128, limitPerMint: u128, decimals: bv8,
    balances: map<string, u128>)

  datatype State = State(tokens: map<string, Token>, seen: set<string>)

  datatype Outcome = Done | Failed(error: Error)

  datatype Call = Call(txId: string, sender: string, payload: Payload)

  // ---------- parsing ----------

  predicate IsDigit(c: char) {
    '0' <= c <= '9'
  }

  function DigitValue(c: char): nat
    requires IsDigit(c)
  {
    c as int - '0' as int
  }

  function DigitsValue(s: string): nat
    requires forall c | c in s :: IsDigit(c)
  {
    if s == [] then 0 else
    10 * DigitsValue(s[..|s| - 1]) + DigitValue(s[|s| - 1])
  }

  function ParseU128(raw: string): Option<u128> {
    if raw == [] || exists c | c in raw :: !IsDigit(c) then None
    else if DigitsValue(raw) < U128_LIMIT then Some(DigitsValue(raw)) else None
  }

  function UpperChar(c: char): char {
    if 'a' <= c <= 'z' then (c as int - 32) as char else c
  }

  function ToUppercase(s: string): string {
    seq(|s|, i requires 0 <= i < |s| => UpperChar(s[i]))
  }

  predicate Alphanumeric(c: char) {
    IsDigit(c) || 'A' <= c <= 'Z' || 'a' <= c <= 'z'
  }

  function NormalizeTick(tick: string): Option<string> {
    var ticker := ToUppercase(tick);
    if ticker == [] || |ticker| > 10 || exists c | c in ticker :: !Alphanumeric(c) then None
    else Some(ticker)
  }

  datatype Network = Mainnet | Testnet | Other

  function ClassifyAddress(addr: string): Network {
    if "kaspatest:" <= addr then Testnet else if "kaspa:" <= addr then Mainnet else Other
  }

  predicate CrossNetwork(sender: string, dest: string) {
    match (ClassifyAddress(sender), ClassifyAddress(dest))
    case (Testnet, Mainnet) => true
    case (Mainnet, Testnet) => true
    case _ => false
  }

  // ---------- one call, partial updates included ----------

  function BalanceOf(t: Token, address: string): u128 {
    if address in t.balances then t.balances[address] else 0
  }

  /** checked_add */
  function CheckedAdd(a: u128, b: u128): Option<u128> {
    if a + b < U128_LIMIT then Some(a + b) else None
  }

  function ApplyDeploy(s: State, op: Operation): (State, Outcome)
    requires op.Deploy?
  {
    match NormalizeTick(op.tick)
    case None => (s, Failed(InvalidTick))
    case Some(ticker) =>
      if ticker in s.tokens then (s, Failed(AlreadyExists(ticker)))
      else match ParseU128(op.max)
        case None => (s, Failed(InvalidAmount))
        case Some(max) =>
          match ParseU128(op.lim)
          case None => (s, Failed(InvalidAmount))
          case Some(lim) =>
            var dec := match op.dec case Some(d) => d case None => 8;
            (s.(tokens := s.tokens[ticker := Token(ticker, max, 0, lim, dec, map[])]), Done)
  }

  /** The amount a mint asks for: the given digits, or the per-mint limit when none are given. */
  function MintAmount(t: Token, amt: Option<string>): Option<u128> {
    if amt.Some? && Trim(amt.value) != [] then ParseU128(Trim(amt.value)) else Some(t.limitPerMint)
  }

  /** Crediting an address as the source does: the entry is created first, then added to. */
  function Credit(t: Token, address: string, amount: u128): (Token, Outcome) {
    var entered := t.(balances := t.balances[address := BalanceOf(t, address)]);
    match CheckedAdd(BalanceOf(t, address), amount)
    case None => (entered, Failed(InvalidAmount))
    case Some(sum) => (entered.(balances := entered.balances[address := sum]), Done)
  }

  function MintToken(t: Token, sender: string, amt: Option<string>): (Token, Outcome) {
    match MintAmount(t, amt)
    case None => (t, Failed(InvalidAmount))
    case Some(amount) =>
      if amount == 0 then (t, Failed(InvalidAmount))
      else if amount > t.limitPerMint then (t, Failed(MintLimitExceeded(amount, t.limitPerMint)))
      else
        var remaining: u128 := if t.maxSupply < t.mintedSupply then 0 else t.maxSupply - t.mintedSupply;
        if amount > remaining then (t, Failed(SupplyCapExceeded(amount, remaining)))
        else match CheckedAdd(t.mintedSupply, amount)
          case None => (t, Failed(InvalidAmount))
          case Some(minted) => Credit(t.(mintedSupply := minted), sender, amount)
  }

  function ApplyMint(s: State, sender: string, op: Operation): (State, Outcome)
    requires op.Mint?
  {
    match NormalizeTick(op.tick)
    case None => (s, Failed(InvalidTick))
    case Some(ticker) =>
      if ticker !in s.tokens then (s, Failed(NotFound(ticker)))
      else
        var (t, out) := MintToken(s.tokens[ticker], sender, op.asked);
        (s.(tokens := s.tokens[ticker := t]), out)
  }

  function TransferToken(t: Token, sender: string, to: string, amount: u128): (Token, Outcome) {
    var have := BalanceOf(t, sender);
    if have < amount then (t, Failed(InsufficientBalance(sender, amount, have)))
    else Credit(t.(balances := t.balances[sender := have - amount]), to, amount)
  }

  function ApplyTransfer(s: State, sender: string, op: Operation): (State, Outcome)
    requires op.Transfer?
  {
    if op.to == [] then (s, Failed(InvalidAddress))
    else if CrossNetwork(sender, op.to) then (s, Failed(InvalidAddress))
    else match NormalizeTick(op.tick)
      case None => (s, Failed(InvalidTick))
      case Some(ticker) =>
        match ParseU128(op.amt)
        case None => (s, Failed(InvalidAmount))
        case Some(amount) =>
          if amount == 0 then (s, Failed(InvalidAmount))
          else if ticker !in s.tokens then (s, Failed(NotFound(ticker)))
          else
            var (t, out) := TransferToken(s.tokens[ticker], sender, op.to, amount);
            (s.(tokens := s.tokens[ticker := t]), out)
  }

  function ApplyOperation(s: State, sender: string, op: Operation): (State, Outcome) {
    match op
    case Deploy(_, _, _, _) => ApplyDeploy(s, op)
    case Mint(_, _) => ApplyMint(s, sender, op)
    case Transfer(_, _, _) => ApplyTransfer(s, sender, op)
  }

  function Apply(s: State, call: Call): (State, Outcome) {
    if call.txId == [] then (s, Failed(MissingTxId))
    else if call.txId in s.seen then (s, Failed(DuplicateTx(call.txId)))
    else if call.payload.Undecodable? then (s, Failed(Parse))
    else if call.payload.p != "krc-20" then (s, Failed(InvalidProtocol))
    else
      var (s', out) := ApplyOperation(s, call.sender, call.payload.op);
      if out.Done? then (s'.(seen := s'.seen + {call.txId}), Done) else (s', out)
  }

  /** A fresh engine after a sequence of calls, failed ones included. */
  function Run(calls: seq<Call>): State {
    if calls == [] then State(map[], {})
    else Apply(Run(calls[..|calls| - 1]), calls[|calls| - 1]).0
  }

  // ---------- the engine ----------

  class Engine {
    var tokens: map<string, Token>
    var seen: set<string>

    function Abstract(): State
      reads this
    {
      State(tokens, seen)
    }

    constructor ()
      ensures Abstract() == State(map[], {})
    {
      tokens, seen := map[], {};
    }

    /** get_balance: the ticker in any case; nothing recorded is a balance of zero. */
    function GetBalance(ticker: string, address: string): u128
      reads this
    {
      if ToUppercase(ticker) in tokens then BalanceOf(tokens[ToUppercase(ticker)], address) else 0
    }

    function Minted(ticker: string): Option<u128>
      reads this
    {
      if ToUppercase(ticker) in tokens then Some(tokens[ToUppercase(ticker)].mintedSupply) else None
    }

    /** The effect on balances and the outcome are those of one Apply step, partial updates included. */
    method ApplyCall(txId: string, sender: string, payload: Payload) returns (out: Outcome)
      modifies this
      ensures (Abstract(), out) == Apply(old(Abstract()), Call(txId, sender, payload))
    {
      if txId == [] {
        return Failed(MissingTxId);
      }
      if txId in seen {
        return Failed(DuplicateTx(txId));
      }
      if payload.Undecodable? {
        return Failed(Parse);
      }
      if payload.p != "krc-20" {
        return Failed(InvalidProtocol);
      }
      match payload.op {
        case Deploy(_, _, _, _) => out := DeployToken(payload.op);
        case Mint(_, _) => out := MintTo(sender, payload.op);
        case Transfer(_, _, _) => out := Move(sender, payload.op);
      }
      if out.Failed? {
        return;
      }
      seen := seen + {txId};
    }

    method DeployToken(op: Operation) returns (out: Outcome)
      requires op.Deploy?
      modifies this`tokens
      ensures (Abstract(), out) == ApplyDeploy(old(Abstract()), op)
    {
      var tick := NormalizeTick(op.tick);
      if tick.None? {
        return Failed(InvalidTick);
      }
      if tick.value in tokens {
        return Failed(AlreadyExists(tick.value));
      }
      var max := ParseU128(op.max);
      if max.None? {
        return Failed(InvalidAmount);
      }
      var lim := ParseU128(op.lim);
      if lim.None? {
        return Failed(InvalidAmount);
      }
      var dec := if op.dec.Some? then op.dec.value else 8;
      tokens := tokens[tick.value := Token(tick.value, max.value, 0, lim.value, dec, map[])];
      out := Done;
    }

    method MintTo(sender: string, op: Operation) returns (out: Outcome)
      requires op.Mint?
      modifies this`tokens
      ensures (Abstract(), out) == ApplyMint(old(Abstract()), sender, op)
    {
      var tick := NormalizeTick(op.tick);
      if tick.None? {
        return Failed(InvalidTick);
      }
      if tick.value !in tokens {
        return Failed(NotFound(tick.value));
      }
      var ticker, token := tick.value, tokens[tick.value];
      assert tokens[ticker := token] == tokens;
      var amount := MintAmount(token, op.asked);
      if amount.None? || amount.value == 0 {
        return Failed(InvalidAmount);
      }
      if amount.value > token.limitPerMint {
        return Failed(MintLimitExceeded(amount.value, token.limitPerMint));
      }
      var remaining := if token.maxSupply < token.mintedSupply then 0 else token.maxSupply - token.mintedSupply;
      if amount.value > remaining {
        return Failed(SupplyCapExceeded(amount.value, remaining));
      }
      var minted := CheckedAdd(token.mintedSupply, amount.value);
      if minted.None? {
        return Failed(InvalidAmount);
      }
      token := token.(mintedSupply := minted.value);
      tokens := tokens[ticker := token];
      out := AddTo(ticker, sender, amount.value);
      assert tokens == old(tokens)[ticker := tokens[ticker]];
    }

    method Move(sender: string, op: Operation) returns (out: Outcome)
      requires op.Transfer?
      modifies this`tokens
      ensures (Abstract(), out) == ApplyTransfer(old(Abstract()), sender, op)
    {
      if op.to == [] {
        return Failed(InvalidAddress);
      }
      if CrossNetwork(sender, op.to) {
        return Failed(InvalidAddress);
      }
      var tick := NormalizeTick(op.tick);
      if tick.None? {
        return Failed(InvalidTick);
      }
      var amount := ParseU128(op.amt);
      if amount.None? || amount.value == 0 {
        return Failed(InvalidAmount);
      }
      if tick.value !in tokens {
        return Failed(NotFound(tick.value));
      }
      var ticker, token := tick.value, tokens[tick.value];
      assert tokens[ticker := token] == tokens;
      var have := BalanceOf(token, sender);
      if have < amount.value {
        return Failed(InsufficientBalance(sender, amount.value, have));
      }
      tokens := tokens[ticker := token.(balances := token.balances[sender := have - amount.value])];
      out := AddTo(ticker, op.to, amount.value);
      assert tokens == old(tokens)[ticker := tokens[ticker]];
    }

    /** The entry is opened in place before the checked addition. */
    method AddTo(ticker: string, address: string, amount: u128) returns (out: Outcome)
      requires ticker in tokens
      modifies this`tokens
      ensures var (t, o) := Credit(old(tokens)[ticker], address, amount);
              tokens == old(tokens)[ticker := t] && out == o
    {
      var token := tokens[ticker];
      tokens := tokens[ticker := token.(balances := token.balances[address := BalanceOf(token, address)])];
      var sum := CheckedAdd(tokens[ticker].balances[address], amount);
      if sum.None? {
        return Failed(InvalidAmount);
      }
      token := tokens[ticker];
      tokens := tokens[ticker := token.(balances := token.balances[address := sum.value])];
      out := Done;
    }
  }
}
