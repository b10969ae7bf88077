/**
 The idempotent inbox of src/outbox_receiver.rs.
 */
module Receiver {
  import opened Basics
  import opened Text
  import Address

  datatype Incoming = Incoming(
    id: int, key: string, kind: string, txId: string, index: u32, amount: u64, address: string)

  datatype Envelope = Envelope(schema: nat, event: Incoming)

  datatype InboxRow = InboxRow(
    schema: nat, kind: string, txId: string, index: u32, amount: u64, address: string,
    senderId: int, receivedAt: nat)

  type Inbox = map<string, InboxRow>

  datatype InboxOutcome = Accepted | Duplicate | Conflict

  datatype Refusal =
    | BadSchema
    | BadSenderId
    | BadKind
    | BadTxId
    | BadAmount
    | BadAddress
    | KeyMismatch
    | HeaderMismatch
    | OutOfRange

  predicate IsTxId(s: string) {
    |s| == 64 && forall c | c in s :: '0' <= c <= '9' || 'a' <= c <= 'f'
  }

  /** The key the event's own facts call for. */
  function ExpectedKey(e: Incoming): string {
    e.kind + ":" + e.txId + ":" + Dec(e.index)
  }

  function ValidateDelivery(header: string, d: Envelope): Option<Refusal> {
    var e := d.event;
    if d.schema != 1 then Some(BadSchema)
    else if e.id <= 0 then Some(BadSenderId)
    else if e.kind != "credit" && e.kind != "reverse" then Some(BadKind)
    else if !IsTxId(e.txId) then Some(BadTxId)
    else if e.amount == 0 then Some(BadAmount)
    else if !Address.IsValidTestnetAddress(e.address) then Some(BadAddress)
    else if e.key != ExpectedKey(e) then Some(KeyMismatch)
    else if header != e.key then Some(HeaderMismatch)
    else None
  }

  predicate SameFacts(row: InboxRow, d: Envelope) {
    && row.schema == d.schema && row.kind == d.event.kind && row.txId == d.event.txId
    && row.index == d.event.index && row.amount == d.event.amount && row.address == d.event.address
  }

  function RowOf(d: Envelope, receivedAt: nat): InboxRow {
    InboxRow(d.schema, d.event.kind, d.event.txId, d.event.index, d.event.amount, d.event.address,
             d.event.id, receivedAt)
  }

  function Accept(inbox: Inbox, header: string, d: Envelope, receivedAt: u64): (Inbox, Result<InboxOutcome, Refusal>) {
    var refusal := ValidateDelivery(header, d);
    if refusal.Some? then (inbox, Err(refusal.value))
    else if receivedAt > I64_MAX || d.event.amount > I64_MAX then (inbox, Err(OutOfRange))
    else if d.event.key in inbox then
      (inbox, Ok(if SameFacts(inbox[d.event.key], d) then Duplicate else Conflict))
    else (inbox[d.event.key := RowOf(d, receivedAt)], Ok(Accepted))
  }

  class ReceiverStore {
    var inbox: Inbox

    constructor ()
      ensures inbox == map[]
    {
      inbox := map[];
    }

    method AcceptDelivery(header: string, d: Envelope, receivedAt: u64) returns (r: Result<InboxOutcome, Refusal>)
      modifies this
      ensures (inbox, r) == Accept(old(inbox), header, d, receivedAt)
    {
      var refusal := ValidateDelivery(header, d);
      if refusal.Some? {
        return Err(refusal.value);
      }
      if receivedAt > I64_MAX || d.event.amount > I64_MAX {
        return Err(OutOfRange);
      }
      if d.event.key in inbox {
        if SameFacts(inbox[d.event.key], d) {
          return Ok(Duplicate);
        }
        return Ok(Conflict);
      }
      inbox := inbox[d.event.key := RowOf(d, receivedAt)];
      r := Ok(Accepted);
    }
  }

  /** Only an accepted delivery changes the inbox, and it adds exactly its own row. */
  lemma AcceptEffect(inbox: Inbox, header: string, d: Envelope, receivedAt: u64)
    ensures var (inbox', r) := Accept(inbox, header, d, receivedAt);
            && (inbox' != inbox ==> r == Ok(Accepted))
            && (r == Ok(Accepted) ==> d.event.key !in inbox && inbox' == inbox[d.event.key := RowOf(d, receivedAt)])
  {
  }

  // ---------- what is admitted ----------

  datatype Posting = Posting(header: string, envelope: Envelope, at: u64)

  /** The rule a refusal reports as broken. */
  predicate Breaks(rule: Refusal, p: Posting) {
    var e := p.envelope.event;
    match rule
    case BadSchema => p.envelope.schema != 1
    case BadSenderId => e.id < 1
    case BadKind => e.kind !in {"credit", "reverse"}
    case BadTxId => |e.txId| != 64 || exists c | c in e.txId :: c !in "0123456789abcdef"
    case BadAmount => e.amount < 1
    case BadAddress => !Address.IsValidTestnetAddress(e.address)
    case KeyMismatch => e.key != e.kind + ":" + e.txId + ":" + Dec(e.index)
    case HeaderMismatch => p.header != e.key
    case OutOfRange => p.at > I64_MAX || e.amount > I64_MAX
  }

  /** The order in which the rules are checked. */
  function Rank(rule: Refusal): nat {
    match rule
    case BadSchema => 0
    case BadSenderId => 1
    case BadKind => 2
    case BadTxId => 3
    case BadAmount => 4
    case BadAddress => 5
    case KeyMismatch => 6
    case HeaderMismatch => 7
    case OutOfRange => 8
  }

  /** Every rule is met. */
  predicate Admits(p: Posting) {
    var e := p.envelope.event;
    && p.envelope.schema == 1 && e.id > 0
    && (e.kind == "credit" || e.kind == "reverse")
    && |e.txId| == 64 && (forall c | c in e.txId :: c in "0123456789abcdef")
    && 0 < e.amount <= I64_MAX && p.at <= I64_MAX
    && Address.IsValidTestnetAddress(e.address)
    && p.header == e.key == e.kind + ":" + e.txId + ":" + Dec(e.index)
  }

  lemma HexDigits(c: char)
    ensures c in "0123456789abcdef" <==> '0' <= c <= '9' || 'a' <= c <= 'f'
  {
    var digits := "0123456789abcdef";
    if '0' <= c <= '9' {
      assert digits[c as int - 48] == c;
    } else if 'a' <= c <= 'f' {
      assert digits[c as int - 87] == c;
    }
  }

  lemma TxIdDigits(s: string)
    ensures IsTxId(s) <==> |s| == 64 && forall c | c in s :: c in "0123456789abcdef"
  {
    forall c ensures c in "0123456789abcdef" <==> '0' <= c <= '9' || 'a' <= c <= 'f' {
      HexDigits(c);
    }
  }

  /** A delivery is answered, and not refused, exactly when every rule is met. */
  lemma AnsweredExactly(inbox: Inbox, p: Posting)
    ensures Accept(inbox, p.header, p.envelope, p.at).1.Ok? <==> Admits(p)
    ensures Admits(p) <==> forall rule :: !Breaks(rule, p)
  {
    TxIdDigits(p.envelope.event.txId);
    if forall rule :: !Breaks(rule, p) {
      assert !Breaks(BadSchema, p) && !Breaks(BadSenderId, p) && !Breaks(BadKind, p) && !Breaks(BadTxId, p);
      assert !Breaks(BadAmount, p) && !Breaks(BadAddress, p) && !Breaks(KeyMismatch, p);
      assert !Breaks(HeaderMismatch, p) && !Breaks(OutOfRange, p);
    }
  }

  /** A refusal names the first broken rule. */
  lemma RefusedForFirst(inbox: Inbox, p: Posting, rule: Refusal)
    ensures Accept(inbox, p.header, p.envelope, p.at).1 == Err(rule)
            <==> Breaks(rule, p) && forall other | Breaks(other, p) :: Rank(rule) <= Rank(other)
  {
    TxIdDigits(p.envelope.event.txId);
    AnsweredExactly(inbox, p);
    var r := Accept(inbox, p.header, p.envelope, p.at).1;
    if r.Err? {
      FirstBroken(inbox, p);
      if Breaks(rule, p) && forall other | Breaks(other, p) :: Rank(rule) <= Rank(other) {
        assert Rank(rule) == Rank(r.error);
        SameRank(rule, r.error);
      }
    }
  }

  lemma SameRank(rule: Refusal, other: Refusal)
    requires Rank(rule) == Rank(other)
    ensures rule == other
  {
  }

  lemma FirstBroken(inbox: Inbox, p: Posting)
    requires Accept(inbox, p.header, p.envelope, p.at).1.Err?
    ensures var rule := Accept(inbox, p.header, p.envelope, p.at).1.error;
            Breaks(rule, p) && forall other | Breaks(other, p) :: Rank(rule) <= Rank(other)
  {
    TxIdDigits(p.envelope.event.txId);
  }

  // ---------- what is stored ----------

  /** A stored row: the facts its key stands for, as every admitted delivery has them. */
  predicate SoundRow(key: string, row: InboxRow) {
    && row.schema == 1 && IsTxId(row.txId) && (row.kind == "credit" || row.kind == "reverse")
    && key == row.kind + ":" + row.txId + ":" + Dec(row.index)
    && 0 < row.amount <= I64_MAX && Address.IsValidTestnetAddress(row.address)
    && row.senderId > 0 && row.receivedAt <= I64_MAX
  }

  ghost predicate KeyedByFacts(inbox: Inbox) {
    forall key | key in inbox :: SoundRow(key, inbox[key])
  }

  lemma AdmittedRow(p: Posting)
    requires Admits(p)
    ensures SoundRow(p.envelope.event.key, RowOf(p.envelope, p.at))
  {
    TxIdDigits(p.envelope.event.txId);
  }

  lemma AcceptKeepsKeys(inbox: Inbox, p: Posting)
    requires KeyedByFacts(inbox)
    ensures KeyedByFacts(Accept(inbox, p.header, p.envelope, p.at).0)
  {
    AcceptCases(inbox, p);
    if Admits(p) {
      AdmittedRow(p);
    }
  }

  lemma KeyHasNoColon(kind: string, txId: string)
    requires IsTxId(txId) && (kind == "credit" || kind == "reverse")
    ensures ':' !in kind && ':' !in txId
  {
  }

  /** One key, one kind, transaction and index. */
  lemma SameKeySameFacts(row: InboxRow, d: Envelope)
    requires IsTxId(row.txId) && (row.kind == "credit" || row.kind == "reverse")
    requires IsTxId(d.event.txId) && (d.event.kind == "credit" || d.event.kind == "reverse")
    requires d.event.key == d.event.kind + ":" + d.event.txId + ":" + Dec(d.event.index)
    requires d.event.key == row.kind + ":" + row.txId + ":" + Dec(row.index)
    ensures row.kind == d.event.kind && row.txId == d.event.txId && row.index == d.event.index
  {
    var p, q := row.kind + ":" + row.txId, d.event.kind + ":" + d.event.txId;
    assert p + ":" + Dec(row.index) == d.event.key == q + ":" + Dec(d.event.index);
    KeyHasNoColon(row.kind, row.txId);
    KeyHasNoColon(d.event.kind, d.event.txId);
    SplitLast(p, q, ':', Dec(row.index), Dec(d.event.index));
    SplitFirst(row.kind, d.event.kind, ':', row.txId, d.event.txId);
    DecInjective(row.index, d.event.index);
  }

  /** Validated deliveries with one key can disagree only on amount or address. */
  lemma ConflictIsAmountOrAddress(inbox: Inbox, header: string, d: Envelope, at: u64)
    requires KeyedByFacts(inbox) && Accept(inbox, header, d, at).1 == Ok(Conflict)
    ensures d.event.key in inbox
    ensures inbox[d.event.key].amount != d.event.amount || inbox[d.event.key].address != d.event.address
  {
    AnsweredExactly(inbox, Posting(header, d, at));
    TxIdDigits(d.event.txId);
    assert SoundRow(d.event.key, inbox[d.event.key]);
    SameKeySameFacts(inbox[d.event.key], d);
  }

  // ---------- every run of deliveries ----------

  /** The inbox of a new store after a sequence of deliveries. */
  function RunInbox(ps: seq<Posting>): Inbox {
    if ps == [] then map[] else
    var p := ps[|ps| - 1];
    Accept(RunInbox(ps[..|ps| - 1]), p.header, p.envelope, p.at).0
  }

  /** What delivery i of a run is answered. */
  function AnswerTo(ps: seq<Posting>, i: nat): Result<InboxOutcome, Refusal>
    requires i < |ps|
  {
    Accept(RunInbox(ps[..i]), ps[i].header, ps[i].envelope, ps[i].at).1
  }

  /** What decides about a delivery: whether it is admitted, and its key. */
  datatype Mark = Mark(admitted: bool, key: string)

  function Marks(ps: seq<Posting>): (r: seq<Mark>)
    ensures |r| == |ps| && forall i | 0 <= i < |ps| :: r[i] == Mark(Admits(ps[i]), ps[i].envelope.event.key)
  {
    seq(|ps|, i requires 0 <= i < |ps| => Mark(Admits(ps[i]), ps[i].envelope.event.key))
  }

  function RowsOf(ps: seq<Posting>): (r: seq<InboxRow>)
    ensures |r| == |ps| && forall i | 0 <= i < |ps| :: r[i] == RowOf(ps[i].envelope, ps[i].at)
  {
    seq(|ps|, i requires 0 <= i < |ps| => RowOf(ps[i].envelope, ps[i].at))
  }

  /** Delivery i is the first admitted one with this key. */
  predicate IsFirst(marks: seq<Mark>, i: nat, key: string) {
    i < |marks| && marks[i] == Mark(true, key) && Mark(true, key) !in marks[..i]
  }

  /** The same delivery up to the sender's row id. */
  predicate SameDelivery(d: Envelope, e: Envelope) {
    d.schema == e.schema && d.event.(id := e.event.id) == e.event
  }

  lemma AcceptCases(inbox: Inbox, p: Posting)
    ensures var (inbox', r) := Accept(inbox, p.header, p.envelope, p.at);
            var key := p.envelope.event.key;
            && (!Admits(p) ==> inbox' == inbox && r.Err?)
            && (Admits(p) && key !in inbox ==> inbox' == inbox[key := RowOf(p.envelope, p.at)] && r == Ok(Accepted))
            && (Admits(p) && key in inbox ==>
                  inbox' == inbox && r == Ok(if SameFacts(inbox[key], p.envelope) then Duplicate else Conflict))
  {
    AnsweredExactly(inbox, p);
  }

  ghost predicate HoldsFirst(inbox: Inbox, marks: seq<Mark>, rows: seq<InboxRow>, key: string)
    requires |marks| == |rows|
  {
    && (key in inbox <==> Mark(true, key) in marks)
    && forall i: nat | IsFirst(marks, i, key) :: key in inbox && inbox[key] == rows[i]
  }

  lemma HoldsFirstNext(inbox: Inbox, inbox': Inbox, marks: seq<Mark>, rows: seq<InboxRow>, key: string)
    requires |marks| == |rows| > 0 && HoldsFirst(inbox, marks[..|marks| - 1], rows[..|marks| - 1], key)
    requires var last := marks[|marks| - 1];
             inbox' == if last.admitted && last.key !in inbox then inbox[last.key := rows[|marks| - 1]] else inbox
    ensures HoldsFirst(inbox', marks, rows, key)
  {
    var n := |marks| - 1;
    assert marks == marks[..n] + [marks[n]];
    forall i: nat | IsFirst(marks, i, key) ensures key in inbox' && inbox'[key] == rows[i] {
      if i < n {
        FirstInPrefix(marks, i, n, key);
        assert rows[..n][i] == rows[i];
      }
    }
  }

  lemma FirstInPrefix(marks: seq<Mark>, i: nat, n: nat, key: string)
    requires i < n <= |marks|
    ensures IsFirst(marks, i, key) <==> IsFirst(marks[..n], i, key)
  {
    assert marks[..n][..i] == marks[..i];
  }

  lemma RunInboxStep(ps: seq<Posting>)
    requires |ps| > 0
    ensures var inbox, last := RunInbox(ps[..|ps| - 1]), Marks(ps)[|ps| - 1];
            RunInbox(ps)
            == if last.admitted && last.key !in inbox then inbox[last.key := RowsOf(ps)[|ps| - 1]] else inbox
  {
    AcceptCases(RunInbox(ps[..|ps| - 1]), ps[|ps| - 1]);
  }

  /** The row of a key is the first admitted delivery's, and there is none without one. */
  lemma {:induction false} InboxHoldsFirst(ps: seq<Posting>, key: string)
    ensures HoldsFirst(RunInbox(ps), Marks(ps), RowsOf(ps), key)
    decreases |ps|
  {
    if ps != [] {
      var n := |ps| - 1;
      InboxHoldsFirst(ps[..n], key);
      RunInboxStep(ps);
      assert Marks(ps)[..n] == Marks(ps[..n]) && RowsOf(ps)[..n] == RowsOf(ps[..n]);
      HoldsFirstNext(RunInbox(ps[..n]), RunInbox(ps), Marks(ps), RowsOf(ps), key);
    }
  }

  lemma SameRowSameDelivery(d: Envelope, at: nat, e: Envelope)
    requires d.event.key == e.event.key
    ensures SameFacts(RowOf(d, at), e) <==> SameDelivery(d, e)
  {
  }

  /**
   Over every run of deliveries, whatever their order and repetition: a delivery is refused
   exactly when it is not admitted; the first admitted delivery of a key is accepted and its row
   stays for ever; every later one is a duplicate when it says the same, and a conflict when not.
   */
  lemma {:induction false} FirstDeliveryDecides(ps: seq<Posting>, i: nat, first: nat)
    requires first <= i < |ps| && (Admits(ps[i]) ==> IsFirst(Marks(ps), first, ps[i].envelope.event.key))
    ensures AnswerTo(ps, i).Err? <==> !Admits(ps[i])
    ensures Admits(ps[i]) ==>
              && AnswerTo(ps, i) == Ok(if first == i then Accepted
                                       else if SameDelivery(ps[first].envelope, ps[i].envelope) then Duplicate
                                       else Conflict)
              && ps[i].envelope.event.key in RunInbox(ps)
              && var (d, at) := (ps[first].envelope, ps[first].at);
                 RunInbox(ps)[ps[i].envelope.event.key]
                 == InboxRow(d.schema, d.event.kind, d.event.txId, d.event.index, d.event.amount, d.event.address,
                             d.event.id, at)
  {
    AcceptCases(RunInbox(ps[..i]), ps[i]);
    if Admits(ps[i]) {
      InboxHoldsFirst(ps, ps[i].envelope.event.key);
      RowBefore(ps, i, first);
      SameRowSameDelivery(ps[first].envelope, ps[first].at, ps[i].envelope);
    }
  }

  /**
   In every reachable inbox each row has the facts its key stands for, a positive amount, a
   valid testnet address and a positive sender id.
   */
  lemma {:induction false} RunKeepsKeys(ps: seq<Posting>)
    ensures KeyedByFacts(RunInbox(ps))
    decreases |ps|
  {
    if ps != [] {
      var n := |ps| - 1;
      RunKeepsKeys(ps[..n]);
      AcceptKeepsKeys(RunInbox(ps[..n]), ps[n]);
    }
  }

  /** What delivery i finds in the inbox for its key. */
  lemma RowBefore(ps: seq<Posting>, i: nat, first: nat)
    requires first <= i < |ps| && IsFirst(Marks(ps), first, ps[i].envelope.event.key)
    ensures var inbox, key := RunInbox(ps[..i]), ps[i].envelope.event.key;
            && (key in inbox <==> first < i)
            && (first < i ==> inbox[key] == RowOf(ps[first].envelope, ps[first].at))
            && ps[first].envelope.event.key == key
  {
    var key := ps[i].envelope.event.key;
    InboxHoldsFirst(ps[..i], key);
    assert Marks(ps[..i]) == Marks(ps)[..i] && RowsOf(ps[..i]) == RowsOf(ps)[..i];
    if first < i {
      FirstInPrefix(Marks(ps), first, i, key);
      assert Marks(ps)[..i][first] == Mark(true, key);
    }
  }
}
