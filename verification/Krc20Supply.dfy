/**
 Conservation for the KRC-20 engine: balances always add up to the minted supply, which never
 exceeds the cap, so the overflow errors after partial updates cannot happen and a failing
 call changes nothing.
 */
module Krc20Supply {
  import opened Basics
  import opened Text
  import opened Krc20

  // ---------- totals ----------

  ghost function Total(m: map<string, u128>): nat
    decreases |m|
  {
    if m == map[] then 0 else
    var k :| k in m;
    m[k] + Total(m - {k})
  }

  lemma {:induction false} TotalRemove(m: map<string, u128>, k: string)
    requires k in m
    ensures Total(m) == m[k] + Total(m - {k})
    decreases |m|
  {
    var k0 :| k0 in m && Total(m) == m[k0] + Total(m - {k0});
    if k0 != k {
      TotalRemove(m - {k0}, k);
      TotalRemove(m - {k}, k0);
      assert m - {k0} - {k} == m - {k} - {k0};
    }
  }

  lemma TotalUpdate(m: map<string, u128>, k: string, v: u128)
    ensures Total(m[k := v]) == Total(m) - (if k in m then m[k] else 0) + v
  {
    var m' := m[k := v];
    TotalRemove(m', k);
    if k in m {
      TotalRemove(m, k);
      assert m' - {k} == m - {k};
    } else {
      assert m' - {k} == m;
    }
  }

  lemma BalanceWithinTotal(t: Token, address: string)
    ensures BalanceOf(t, address) <= Total(t.balances)
  {
    if address in t.balances {
      TotalRemove(t.balances, address);
    }
  }

  // ---------- the invariant ----------

  ghost predicate Conserves(t: Token) {
    Total(t.balances) == t.mintedSupply <= t.maxSupply
  }

  ghost predicate Kept(s: State) {
    forall k | k in s.tokens :: Conserves(s.tokens[k])
  }

  /** Crediting within the representable total succeeds and raises the total by the amount. */
  lemma CreditTotal(t: Token, address: string, amount: u128)
    requires Total(t.balances) + amount < U128_LIMIT
    ensures var (t', out) := Credit(t, address, amount);
            && out.Done? && Total(t'.balances) == Total(t.balances) + amount
            && t' == t.(balances := t.balances[address := BalanceOf(t, address) + amount])
  {
    BalanceWithinTotal(t, address);
    var sum: u128 := BalanceOf(t, address) + amount;
    var entered := t.(balances := t.balances[address := BalanceOf(t, address)]);
    assert entered.balances[address := sum] == t.balances[address := sum];
    TotalUpdate(t.balances, address, sum);
  }

  lemma MintKeeps(t: Token, sender: string, asked: Option<string>)
    requires Conserves(t)
    ensures var (t', out) := MintToken(t, sender, asked);
            && Conserves(t') && (out.Failed? ==> t' == t)
            && (out.Done? ==>
                  && MintAmount(t, asked).Some? && MintAmount(t, asked).value > 0
                  && MintAmount(t, asked).value <= t.limitPerMint
                  && var amount := MintAmount(t, asked).value;
                  && t'.mintedSupply == t.mintedSupply + amount
                  && t' == t.(mintedSupply := t'.mintedSupply,
                              balances := t.balances[sender := BalanceOf(t, sender) + amount]))
  {
    var asks := MintAmount(t, asked);
    if asks.Some? && 0 < asks.value <= t.limitPerMint && asks.value <= t.maxSupply - t.mintedSupply {
      CreditTotal(t.(mintedSupply := t.mintedSupply + asks.value), sender, asks.value);
    }
  }

  /** The balance of a after amount moved from sender to to; nothing moves when they are the same. */
  function Moved(t: Token, sender: string, to: string, amount: u128, a: string): int {
    BalanceOf(t, a) - (if a == sender then amount else 0) + (if a == to then amount else 0)
  }

  lemma TransferKeeps(t: Token, sender: string, to: string, amount: u128)
    requires Conserves(t)
    ensures var (t', out) := TransferToken(t, sender, to, amount);
            && Conserves(t') && (out.Failed? ==> t' == t)
            && (out.Done? <==> BalanceOf(t, sender) >= amount)
            && (out.Done? ==> t' == t.(balances := t'.balances))
            && (out.Done? ==> forall a :: BalanceOf(t', a) == Moved(t, sender, to, amount, a))
  {
    var have := BalanceOf(t, sender);
    if have >= amount {
      var debited := t.(balances := t.balances[sender := have - amount]);
      TotalUpdate(t.balances, sender, have - amount);
      BalanceWithinTotal(t, sender);
      CreditTotal(debited, to, amount);
    }
  }

  /** Every call keeps conservation, and a call that returns an error leaves the engine as it was. */
  lemma ApplyKeeps(s: State, call: Call)
    requires Kept(s)
    ensures Kept(Apply(s, call).0)
    ensures Apply(s, call).1.Failed? ==> Apply(s, call).0 == s
  {
    if call.payload.Envelope? {
      var op := call.payload.op;
      OperationKeeps(s, call.sender, op);
    }
  }

  lemma OperationKeeps(s: State, sender: string, op: Operation)
    requires Kept(s)
    ensures var (s', out) := ApplyOperation(s, sender, op);
            Kept(s') && s'.seen == s.seen && (out.Failed? ==> s' == s)
  {
    match op
    case Deploy(_, _, _, _) =>
    case Mint(tick, asked) =>
      var ticker := NormalizeTick(tick);
      if ticker.Some? && ticker.value in s.tokens {
        MintKeeps(s.tokens[ticker.value], sender, asked);
        assert s.tokens[ticker.value := s.tokens[ticker.value]] == s.tokens;
      }
    case Transfer(tick, amt, to) =>
      var ticker, amount := NormalizeTick(tick), ParseU128(amt);
      if ticker.Some? && amount.Some? && ticker.value in s.tokens {
        TransferKeeps(s.tokens[ticker.value], sender, to, amount.value);
        assert s.tokens[ticker.value := s.tokens[ticker.value]] == s.tokens;
      }
  }

  /** Over every sequence of calls: balances sum to the minted supply, within the cap. */
  lemma {:induction false} RunKeeps(calls: seq<Call>)
    ensures Kept(Run(calls))
    decreases |calls|
  {
    if calls != [] {
      RunKeeps(calls[..|calls| - 1]);
      ApplyKeeps(Run(calls[..|calls| - 1]), calls[|calls| - 1]);
    }
  }

  /** In every reachable engine a failing call changes nothing at all. */
  lemma FailedCallChangesNothing(calls: seq<Call>, call: Call)
    requires Apply(Run(calls), call).1.Failed?
    ensures Apply(Run(calls), call).0 == Run(calls)
  {
    RunKeeps(calls);
    ApplyKeeps(Run(calls), call);
  }

  // ---------- what is accepted ----------

  predicate AcceptableDeploy(s: State, op: Operation)
    requires op.Deploy?
  {
    && NormalizeTick(op.tick).Some? && NormalizeTick(op.tick).value !in s.tokens
    && ParseU128(op.max).Some? && ParseU128(op.lim).Some?
  }

  /** The amount fits the per-mint limit and what is left below the cap, counted from the balances. */
  ghost predicate AcceptableMint(s: State, op: Operation)
    requires op.Mint?
  {
    && NormalizeTick(op.tick).Some? && NormalizeTick(op.tick).value in s.tokens
    && var t := s.tokens[NormalizeTick(op.tick).value];
       && MintAmount(t, op.asked).Some?
       && 0 < MintAmount(t, op.asked).value <= t.limitPerMint
       && Total(t.balances) + MintAmount(t, op.asked).value <= t.maxSupply
  }

  /** One address is a mainnet address and the other a testnet address. */
  predicate MixesNetworks(sender: string, to: string) {
    || ("kaspatest:" <= sender && "kaspa:" <= to)
    || ("kaspa:" <= sender && "kaspatest:" <= to)
  }

  predicate AcceptableTransfer(s: State, sender: string, op: Operation)
    requires op.Transfer?
  {
    && op.to != [] && !MixesNetworks(sender, op.to)
    && NormalizeTick(op.tick).Some? && NormalizeTick(op.tick).value in s.tokens
    && ParseU128(op.amt).Some?
    && 0 < ParseU128(op.amt).value <= BalanceOf(s.tokens[NormalizeTick(op.tick).value], sender)
  }

  ghost predicate Acceptable(s: State, sender: string, op: Operation) {
    match op
    case Deploy(_, _, _, _) => AcceptableDeploy(s, op)
    case Mint(_, _) => AcceptableMint(s, op)
    case Transfer(_, _, _) => AcceptableTransfer(s, sender, op)
  }

  /** No text has both prefixes: they differ at the sixth character. */
  lemma PrefixesDiffer(addr: string)
    ensures !("kaspatest:" <= addr && "kaspa:" <= addr)
  {
    assert "kaspatest:" <= addr ==> |addr| > 5 && addr[5] == "kaspatest:"[5];
    assert "kaspa:" <= addr ==> |addr| > 5 && addr[5] == "kaspa:"[5];
  }

  lemma CrossesExactly(sender: string, to: string)
    ensures CrossNetwork(sender, to) <==> MixesNetworks(sender, to)
  {
    PrefixesDiffer(sender);
    PrefixesDiffer(to);
  }

  lemma OperationAccepted(s: State, sender: string, op: Operation)
    requires Kept(s)
    ensures ApplyOperation(s, sender, op).1.Done? <==> Acceptable(s, sender, op)
  {
    match op
    case Deploy(_, _, _, _) =>
    case Mint(tick, asked) =>
      var ticker := NormalizeTick(tick);
      if ticker.Some? && ticker.value in s.tokens {
        MintAccepted(s.tokens[ticker.value], sender, asked);
      }
    case Transfer(tick, amt, to) =>
      var ticker, amount := NormalizeTick(tick), ParseU128(amt);
      CrossesExactly(sender, to);
      if ticker.Some? && amount.Some? && ticker.value in s.tokens {
        TransferKeeps(s.tokens[ticker.value], sender, to, amount.value);
      }
  }

  lemma MintAccepted(t: Token, sender: string, asked: Option<string>)
    requires Conserves(t)
    ensures MintToken(t, sender, asked).1.Done?
            <==> && MintAmount(t, asked).Some? && 0 < MintAmount(t, asked).value <= t.limitPerMint
                 && Total(t.balances) + MintAmount(t, asked).value <= t.maxSupply
  {
    var asks := MintAmount(t, asked);
    if asks.Some? && 0 < asks.value <= t.limitPerMint && asks.value <= t.maxSupply - t.mintedSupply {
      CreditTotal(t.(mintedSupply := t.mintedSupply + asks.value), sender, asks.value);
    }
  }

  /**
   In every reachable engine a call succeeds exactly when its transaction id is new and not
   empty, its envelope decodes to the protocol, and its operation is acceptable: no call fails
   for an overflow.
   */
  lemma AcceptedExactly(calls: seq<Call>, call: Call)
    ensures var s := Run(calls);
            Apply(s, call).1.Done?
            <==> && call.txId != [] && call.txId !in s.seen
                 && call.payload.Envelope? && call.payload.p == "krc-20"
                 && Acceptable(s, call.sender, call.payload.op)
  {
    RunKeeps(calls);
    if call.payload.Envelope? {
      OperationAccepted(Run(calls), call.sender, call.payload.op);
    }
  }

  // ---------- what an error says ----------

  /** The ticker an operation names. */
  function TickOf(op: Operation): string {
    match op
    case Deploy(tick, _, _, _) => tick
    case Mint(tick, _) => tick
    case Transfer(tick, _, _) => tick
  }

  /** Some amount the operation needs is not the digits of a positive number. */
  predicate BadAmount(s: State, op: Operation) {
    match op
    case Deploy(_, max, lim, _) => ParseU128(max).None? || ParseU128(lim).None?
    case Mint(_, asked) =>
      if asked.Some? && Trim(asked.value) != [] then ParseU128(Trim(asked.value)) in {None, Some(0)}
      else NormalizeTick(TickOf(op)).Some? && NormalizeTick(TickOf(op)).value in s.tokens
           && s.tokens[NormalizeTick(TickOf(op)).value].limitPerMint == 0
    case Transfer(_, amt, _) => ParseU128(amt) in {None, Some(0)}
  }

  /** What an error claims about the engine and the call. */
  ghost predicate TrueOf(error: Error, s: State, call: Call) {
    match error
    case MissingTxId => call.txId == []
    case DuplicateTx(txId) => txId == call.txId && txId in s.seen
    case Parse => call.payload.Undecodable?
    case InvalidProtocol => call.payload.Envelope? && call.payload.p != "krc-20"
    case InvalidTick => call.payload.Envelope? && NormalizeTick(TickOf(call.payload.op)).None?
    case AlreadyExists(ticker) =>
      && call.payload.Envelope? && call.payload.op.Deploy?
      && NormalizeTick(TickOf(call.payload.op)) == Some(ticker) && ticker in s.tokens
    case NotFound(ticker) =>
      && call.payload.Envelope? && !call.payload.op.Deploy?
      && NormalizeTick(TickOf(call.payload.op)) == Some(ticker) && ticker !in s.tokens
    case InvalidAddress =>
      && call.payload.Envelope? && call.payload.op.Transfer?
      && (call.payload.op.to == [] || MixesNetworks(call.sender, call.payload.op.to))
    case InvalidAmount => call.payload.Envelope? && BadAmount(s, call.payload.op)
    case MintLimitExceeded(asked, limit) => MintsOver(s, call, asked) && TokenOf(s, call).limitPerMint == limit < asked
    case SupplyCapExceeded(asked, left) =>
      MintsOver(s, call, asked) && TokenOf(s, call).maxSupply - Total(TokenOf(s, call).balances) == left < asked
    case InsufficientBalance(address, needed, available) =>
      && call.payload.Envelope? && call.payload.op.Transfer? && NamesToken(s, call)
      && address == call.sender && ParseU128(call.payload.op.amt) == Some(needed)
      && BalanceOf(TokenOf(s, call), address) == available < needed
  }

  predicate NamesToken(s: State, call: Call) {
    && call.payload.Envelope? && NormalizeTick(TickOf(call.payload.op)).Some?
    && NormalizeTick(TickOf(call.payload.op)).value in s.tokens
  }

  function TokenOf(s: State, call: Call): Token
    requires NamesToken(s, call)
  {
    s.tokens[NormalizeTick(TickOf(call.payload.op)).value]
  }

  /** A mint asks for this amount, given in digits or as the limit of the token. */
  predicate MintsOver(s: State, call: Call, amount: u128) {
    && NamesToken(s, call) && call.payload.op.Mint?
    && amount == Requested(TokenOf(s, call).limitPerMint, call.payload.op.asked)
  }

  lemma MintErrorTrue(s: State, call: Call)
    requires Kept(s) && call.payload.Envelope? && call.payload.op.Mint?
    requires ApplyMint(s, call.sender, call.payload.op).1.Failed?
    ensures TrueOf(ApplyMint(s, call.sender, call.payload.op).1.error, s, call)
  {
    if NamesToken(s, call) {
      var t, asks := TokenOf(s, call), MintAmount(TokenOf(s, call), call.payload.op.asked);
      if asks.Some? && 0 < asks.value <= t.limitPerMint && asks.value <= t.maxSupply - t.mintedSupply {
        CreditTotal(t.(mintedSupply := t.mintedSupply + asks.value), call.sender, asks.value);
      }
    }
  }

  lemma TransferErrorTrue(s: State, call: Call)
    requires Kept(s) && call.payload.Envelope? && call.payload.op.Transfer?
    requires ApplyTransfer(s, call.sender, call.payload.op).1.Failed?
    ensures TrueOf(ApplyTransfer(s, call.sender, call.payload.op).1.error, s, call)
  {
    var op := call.payload.op;
    CrossesExactly(call.sender, op.to);
    if NamesToken(s, call) && ParseU128(op.amt).Some? {
      TransferKeeps(TokenOf(s, call), call.sender, op.to, ParseU128(op.amt).value);
    }
  }

  /** Every error of a reachable engine is true of the call and of what it met. */
  lemma ErrorsAreTrue(calls: seq<Call>, call: Call)
    requires Apply(Run(calls), call).1.Failed?
    ensures TrueOf(Apply(Run(calls), call).1.error, Run(calls), call)
  {
    RunKeeps(calls);
    if call.payload.Envelope? && call.payload.p == "krc-20" && call.txId != [] && call.txId !in Run(calls).seen {
      match call.payload.op
      case Deploy(_, _, _, _) =>
      case Mint(_, _) => MintErrorTrue(Run(calls), call);
      case Transfer(_, _, _) => TransferErrorTrue(Run(calls), call);
    }
  }

  // ---------- tickers ----------

  predicate SameLetter(c: char, d: char) {
    || c == d
    || ('a' <= c <= 'z' && c as int == d as int + 32)
    || ('a' <= d <= 'z' && d as int == c as int + 32)
  }

  predicate SameText(s: string, t: string) {
    |s| == |t| && forall i | 0 <= i < |s| :: SameLetter(s[i], t[i])
  }

  /** A ticker is one to ten letters and digits, and stands for itself without lower case. */
  lemma TickerExactly(tick: string)
    ensures NormalizeTick(tick).Some? <==> 1 <= |tick| <= 10 && forall c | c in tick :: Alphanumeric(c)
    ensures NormalizeTick(tick).Some? ==>
              && SameText(tick, NormalizeTick(tick).value)
              && forall c | c in NormalizeTick(tick).value :: !('a' <= c <= 'z')
  {
    var upper := ToUppercase(tick);
    if forall c | c in upper :: Alphanumeric(c) {
      forall c | c in tick ensures Alphanumeric(c) {
        var i :| 0 <= i < |tick| && tick[i] == c;
        assert upper[i] in upper;
      }
    }
  }

  /** Two texts name one token exactly when they agree up to case. */
  lemma OneTokenExactly(s: string, t: string)
    requires NormalizeTick(s).Some? && NormalizeTick(t).Some?
    ensures NormalizeTick(s) == NormalizeTick(t) <==> SameText(s, t)
  {
    var a, b := ToUppercase(s), ToUppercase(t);
    TickerExactly(s);
    TickerExactly(t);
    if SameText(s, t) {
      forall i | 0 <= i < |s| ensures a[i] == b[i] {
        assert SameLetter(s[i], t[i]) && Alphanumeric(s[i]) && Alphanumeric(t[i]);
      }
      assert a == b;
    } else if a == b {
      forall i | 0 <= i < |s| ensures SameLetter(s[i], t[i]) {
        assert a[i] == b[i];
      }
    }
  }

  // ---------- deployment terms ----------

  /** The terms an accepted deployment gives its token. */
  predicate Deploys(s: State, call: Call, ticker: string, t: Token) {
    && Apply(s, call).1.Done? && call.payload.Envelope? && call.payload.op.Deploy?
    && var op := call.payload.op;
       && NormalizeTick(op.tick) == Some(ticker) && t.ticker == ticker
       && ParseU128(op.max) == Some(t.maxSupply) && ParseU128(op.lim) == Some(t.limitPerMint)
       && t.decimals == match op.dec case Some(d) => d case None => 8
  }

  /** The same terms, whatever was minted and moved. */
  predicate SameTerms(t: Token, t': Token) {
    && t'.ticker == t.ticker && t'.maxSupply == t.maxSupply && t'.limitPerMint == t.limitPerMint
    && t'.decimals == t.decimals
  }

  lemma CallKeepsTerms(s: State, call: Call, ticker: string)
    requires Kept(s) && ticker in Apply(s, call).0.tokens
    ensures if ticker in s.tokens then SameTerms(s.tokens[ticker], Apply(s, call).0.tokens[ticker])
            else Deploys(s, call, ticker, Apply(s, call).0.tokens[ticker])
  {
    ApplyKeeps(s, call);
    if Apply(s, call).1.Done? && call.payload.op.Mint? {
      MintKeeps(s.tokens[NormalizeTick(call.payload.op.tick).value], call.sender, call.payload.op.asked);
    }
  }

  /** Every token of a reachable engine has, for ever, the terms of the call that deployed it. */
  lemma {:induction false} TermsFromDeploy(calls: seq<Call>, ticker: string)
    requires ticker in Run(calls).tokens
    ensures exists i :: 0 <= i < |calls| && Deploys(Run(calls[..i]), calls[i], ticker, Run(calls).tokens[ticker])
    decreases |calls|
  {
    var n := |calls| - 1;
    var s := Run(calls[..n]);
    RunKeeps(calls[..n]);
    CallKeepsTerms(s, calls[n], ticker);
    if ticker in s.tokens {
      TermsFromDeploy(calls[..n], ticker);
      var i :| 0 <= i < n && Deploys(Run(calls[..n][..i]), calls[..n][i], ticker, s.tokens[ticker]);
      assert calls[..n][..i] == calls[..i];
      assert Deploys(Run(calls[..i]), calls[i], ticker, Run(calls).tokens[ticker]);
    }
  }

  // ---------- history ----------

  predicate Accepted(s: State, call: Call) {
    Apply(s, call).1.Done?
  }

  lemma {:induction false} SeenGrows(calls: seq<Call>, m: nat)
    requires m <= |calls|
    ensures Run(calls[..m]).seen <= Run(calls).seen
    decreases |calls|
  {
    var n := |calls| - 1;
    if m <= n {
      assert calls[..n][..m] == calls[..m];
      SeenGrows(calls[..n], m);
      RunKeeps(calls[..n]);
      ApplyKeeps(Run(calls[..n]), calls[n]);
      if calls[n].payload.Envelope? {
        OperationKeeps(Run(calls[..n]), calls[n].sender, calls[n].payload.op);
      }
    } else {
      assert calls[..m] == calls;
    }
  }

  /** A transaction id takes effect at most once in any run. */
  lemma NoReplay(calls: seq<Call>, i: nat, j: nat)
    requires i < j < |calls| && calls[i].txId == calls[j].txId
    requires Accepted(Run(calls[..i]), calls[i])
    ensures !Accepted(Run(calls[..j]), calls[j])
  {
    assert calls[..i + 1][..i] == calls[..i];
    assert calls[i].txId in Run(calls[..i + 1]).seen;
    assert calls[..j][..i + 1] == calls[..i + 1];
    SeenGrows(calls[..j], i + 1);
  }

  /** What one accepted call does to an address's balance of a ticker, read off the payload alone. */
  function Flow(limit: u128, call: Call, ticker: string, address: string): int
    requires call.payload.Envelope?
  {
    match call.payload.op
    case Deploy(_, _, _, _) => 0
    case Mint(tick, asked) =>
      if NormalizeTick(tick) == Some(ticker) && address == call.sender
      then Requested(limit, asked) else 0
    case Transfer(tick, amt, to) =>
      if NormalizeTick(tick) == Some(ticker) && ParseU128(amt).Some?
      then (if address == to then ParseU128(amt).value else 0)
           - (if address == call.sender then ParseU128(amt).value else 0)
      else 0
  }

  function Requested(limit: u128, asked: Option<string>): int {
    if asked.Some? && Trim(asked.value) != [] then
      (if ParseU128(Trim(asked.value)).Some? then ParseU128(Trim(asked.value)).value else 0)
    else limit
  }

  /** The net flow of all accepted calls of a run. */
  function NetFlow(calls: seq<Call>, ticker: string, address: string): int {
    if calls == [] then 0 else
    var n := |calls| - 1;
    var s := Run(calls[..n]);
    NetFlow(calls[..n], ticker, address)
    + (if Accepted(s, calls[n]) && calls[n].payload.Envelope? then
         Flow(if ticker in s.tokens then s.tokens[ticker].limitPerMint else 0, calls[n], ticker, address)
       else 0)
  }

  function BalanceIn(s: State, ticker: string, address: string): u128 {
    if ticker in s.tokens then BalanceOf(s.tokens[ticker], address) else 0
  }

  lemma CallFlow(s: State, call: Call, ticker: string, address: string)
    requires Kept(s) && Accepted(s, call)
    ensures call.payload.Envelope? && BalanceIn(Apply(s, call).0, ticker, address) == BalanceIn(s, ticker, address)
            + Flow(if ticker in s.tokens then s.tokens[ticker].limitPerMint else 0, call, ticker, address)
  {
    match call.payload.op
    case Deploy(_, _, _, _) =>
    case Mint(tick, asked) =>
      MintKeeps(s.tokens[NormalizeTick(tick).value], call.sender, asked);
    case Transfer(tick, amt, to) =>
      TransferKeeps(s.tokens[NormalizeTick(tick).value], call.sender, to, ParseU128(amt).value);
  }

  /** Every balance equals the net flow of the accepted payloads of the run. */
  lemma {:induction false} BalanceIsNetFlow(calls: seq<Call>, ticker: string, address: string)
    ensures BalanceIn(Run(calls), ticker, address) == NetFlow(calls, ticker, address)
    decreases |calls|
  {
    if calls != [] {
      var n := |calls| - 1;
      BalanceIsNetFlow(calls[..n], ticker, address);
      RunKeeps(calls[..n]);
      ApplyKeeps(Run(calls[..n]), calls[n]);
      if Accepted(Run(calls[..n]), calls[n]) {
        CallFlow(Run(calls[..n]), calls[n], ticker, address);
      }
    }
  }

  /**
   What the queries of a reachable engine return: the minted supply is the sum of all balances
   and within the cap; a balance is the net flow of the accepted payloads and within the
   minted supply.
   */
  lemma QueriesAgree(engine: Engine, calls: seq<Call>, ticker: string, address: string)
    requires engine.Abstract() == Run(calls)
    ensures engine.GetBalance(ticker, address) == NetFlow(calls, ToUppercase(ticker), address)
    ensures engine.Minted(ticker).Some? ==>
              var token := engine.tokens[ToUppercase(ticker)];
              && engine.Minted(ticker).value == Total(token.balances) <= token.maxSupply
              && engine.GetBalance(ticker, address) <= engine.Minted(ticker).value
    ensures engine.Minted(ticker).None? ==> engine.GetBalance(ticker, address) == 0
  {
    RunKeeps(calls);
    BalanceIsNetFlow(calls, ToUppercase(ticker), address);
    if ToUppercase(ticker) in engine.tokens {
      assert Conserves(Run(calls).tokens[ToUppercase(ticker)]);
      BalanceWithinTotal(engine.tokens[ToUppercase(ticker)], address);
    }
  }

  // ---------- amounts ----------

  lemma {:induction false} DigitsOfDec(n: nat)
    ensures forall c | c in Dec(n) :: IsDigit(c)
    ensures DigitsValue(Dec(n)) == n
    decreases n
  {
    if n >= 10 {
      DigitsOfDec(n / 10);
      assert Dec(n)[..|Dec(n)| - 1] == Dec(n / 10);
    }
  }

  function Zeros(n: nat): (z: string)
    ensures |z| == n && forall i | 0 <= i < n :: z[i] == '0'
  {
    seq(n, _ => '0')
  }

  predicate AllDigits(s: string) {
    forall c | c in s :: IsDigit(c)
  }

  lemma {:induction false} LeadingZeros(z: nat, s: string)
    requires AllDigits(s)
    ensures AllDigits(Zeros(z) + s) && DigitsValue(Zeros(z) + s) == DigitsValue(s)
    decreases |s| + z
  {
    var all := Zeros(z) + s;
    if s != [] {
      var n := |s| - 1;
      LeadingZeros(z, s[..n]);
      assert all[..|all| - 1] == Zeros(z) + s[..n];
    } else if z > 0 {
      LeadingZeros(z - 1, []);
      assert all[..|all| - 1] == Zeros(z - 1) + [];
    } else {
      assert all == [];
    }
  }

  /** One more digit after zeros and the digits of v. */
  lemma OneMoreDigit(z: nat, v: nat, c: char) returns (z': nat)
    requires IsDigit(c)
    ensures Zeros(z) + Dec(v) + [c] == Zeros(z') + Dec(10 * v + DigitValue(c))
  {
    LastDigit(c);
    if v == 0 {
      z' := z + 1;
      assert Zeros(z) + "0" == Zeros(z + 1);
    } else {
      z' := z;
      assert (10 * v + DigitValue(c)) / 10 == v && (10 * v + DigitValue(c)) % 10 == DigitValue(c);
      assert Dec(10 * v + DigitValue(c)) == Dec(v) + [c];
      assert Zeros(z) + Dec(v) + [c] == Zeros(z) + (Dec(v) + [c]);
    }
  }

  /** A digit string is some zeros before the decimal digits of its value. */
  lemma {:induction false} DigitsShape(s: string) returns (z: nat)
    requires s != [] && AllDigits(s)
    ensures s == Zeros(z) + Dec(DigitsValue(s))
    decreases |s|
  {
    var n := |s| - 1;
    assert s == s[..n] + [s[n]];
    if n == 0 {
      z := 0;
      LastDigit(s[0]);
      assert DigitsValue(s[..0]) == 0;
    } else {
      z := DigitsShape(s[..n]);
      z := OneMoreDigit(z, DigitsValue(s[..n]), s[n]);
    }
  }

  lemma LastDigit(c: char)
    requires IsDigit(c)
    ensures Dec(DigitValue(c)) == [c]
  {
  }

  /**
   Amount fields: a text parses to a number exactly when it is that number's decimal digits,
   possibly after some zeros, and the number fits 128 bits; nothing else parses.
   */
  lemma ParseExactly(raw: string, n: nat)
    ensures (ParseU128(raw).Some? && ParseU128(raw).value == n)
            <==> n < U128_LIMIT && exists z: nat :: raw == Zeros(z) + Dec(n)
  {
    DigitsOfDec(n);
    forall z: nat | raw == Zeros(z) + Dec(n) ensures raw != [] && AllDigits(raw) && DigitsValue(raw) == n {
      LeadingZeros(z, Dec(n));
    }
    if raw != [] && AllDigits(raw) {
      var z := DigitsShape(raw);
    }
  }
}
