/**
 The receiver's books against the ledger's: what the inbox adds up to once everything is
 delivered.
 */
module InboxBooks {
  import opened Ledger
  import opened Outbox
  import opened LedgerSafety
  import opened LedgerBooks
  import opened Protocol

  /** A reverse row for the same transaction and output. */
  predicate Reversed(inbox: R.Inbox, row: R.InboxRow) {
    exists key | key in inbox ::
      inbox[key].kind == "reverse" && inbox[key].txId == row.txId && inbox[key].index == row.index
  }

  /** Keys of the credit rows without a reverse row. */
  function OpenKeys(inbox: R.Inbox): set<string> {
    set key | key in inbox && inbox[key].kind == "credit" && !Reversed(inbox, inbox[key])
  }

  ghost function KeySum(inbox: R.Inbox, keys: set<string>): nat
    requires keys <= inbox.Keys
    decreases |keys|
  {
    if keys == {} then 0 else
    var key :| key in keys;
    inbox[key].amount + KeySum(inbox, keys - {key})
  }

  lemma {:induction false} KeySumRemove(inbox: R.Inbox, keys: set<string>, key: string)
    requires keys <= inbox.Keys && key in keys
    ensures KeySum(inbox, keys) == inbox[key].amount + KeySum(inbox, keys - {key})
    decreases |keys|
  {
    var k :| k in keys && KeySum(inbox, keys) == inbox[k].amount + KeySum(inbox, keys - {k});
    if k != key {
      KeySumRemove(inbox, keys - {k}, key);
      KeySumRemove(inbox, keys - {key}, k);
      assert keys - {k} - {key} == keys - {key} - {k};
    }
  }

  /** Every event is in the inbox with its facts, and nothing else is. */
  ghost predicate Mirrors(l: Ledger, inbox: R.Inbox) {
    && inbox.Keys == KeysOf(l.outbox)
    && forall i | 0 <= i < |l.outbox| ::
         l.outbox[i].event.key in inbox && R.SameFacts(inbox[l.outbox[i].event.key], EnvelopeOf(l.outbox[i].event))
  }

  /** Keys of the open credit events among the first m. */
  ghost function OpenEventKeys(l: Ledger, m: nat): set<string>
    requires m <= |l.outbox|
  {
    set i | 0 <= i < m && OpenCredit(l, i) :: l.outbox[i].event.key
  }

  ghost predicate SameAmounts(l: Ledger, inbox: R.Inbox) {
    forall i | 0 <= i < |l.outbox| ::
      l.outbox[i].event.key in inbox && inbox[l.outbox[i].event.key].amount == l.outbox[i].event.amount
  }

  lemma OpenKeysKnown(l: Ledger, inbox: R.Inbox, m: nat)
    requires m <= |l.outbox| && SameAmounts(l, inbox)
    ensures OpenEventKeys(l, m) <= inbox.Keys
  {
  }

  lemma {:induction false} OpenKeySum(l: Ledger, inbox: R.Inbox, m: nat)
    requires m <= |l.outbox| && WellFormedEvents(l.outbox) && SameAmounts(l, inbox)
    ensures OpenEventKeys(l, m) <= inbox.Keys && KeySum(inbox, OpenEventKeys(l, m)) == OpenCreditSum(l, m)
  {
    OpenKeysKnown(l, inbox, m);
    if m == 0 {
      assert OpenEventKeys(l, 0) == {};
    } else {
      OpenKeySum(l, inbox, m - 1);
      NewKey(l, m - 1);
      OpenKeyAdds(l, inbox, m - 1);
    }
  }

  lemma OpenKeyAdds(l: Ledger, inbox: R.Inbox, m: nat)
    requires m < |l.outbox| && l.outbox[m].event.key !in OpenEventKeys(l, m)
    requires l.outbox[m].event.key in inbox && inbox[l.outbox[m].event.key].amount == l.outbox[m].event.amount
    requires OpenEventKeys(l, m) <= inbox.Keys && OpenEventKeys(l, m + 1) <= inbox.Keys
    ensures KeySum(inbox, OpenEventKeys(l, m + 1))
            == KeySum(inbox, OpenEventKeys(l, m)) + (if OpenCredit(l, m) then l.outbox[m].event.amount else 0)
  {
    OpenKeysStep(l, m);
    if OpenCredit(l, m) {
      KeySumAdd(inbox, OpenEventKeys(l, m), l.outbox[m].event.key);
    } else {
      assert OpenEventKeys(l, m + 1) == OpenEventKeys(l, m);
    }
  }

  lemma OpenKeysStep(l: Ledger, m: nat)
    requires m < |l.outbox|
    ensures OpenEventKeys(l, m + 1)
            == OpenEventKeys(l, m) + (if OpenCredit(l, m) then {l.outbox[m].event.key} else {})
  {
  }

  lemma KeySumAdd(inbox: R.Inbox, keys: set<string>, key: string)
    requires keys <= inbox.Keys && key in inbox && key !in keys
    ensures KeySum(inbox, keys + {key}) == KeySum(inbox, keys) + inbox[key].amount
  {
    KeySumRemove(inbox, keys + {key}, key);
    assert keys + {key} - {key} == keys;
  }

  lemma NewKey(l: Ledger, m: nat)
    requires m < |l.outbox| && WellFormedEvents(l.outbox)
    ensures l.outbox[m].event.key !in OpenEventKeys(l, m)
  {
    forall i | 0 <= i < m ensures l.outbox[i].event.key != l.outbox[m].event.key {
      if l.outbox[i].event.key == l.outbox[m].event.key {
        SameKeySameEvent(l, i + 1, m + 1);
      }
    }
  }

  lemma ReverseRowKnown(l: Ledger, inbox: R.Inbox, j: nat, row: R.InboxRow)
    requires j < |l.outbox| && Mirrors(l, inbox) && l.outbox[j].event.kind == Reverse
    requires row.txId == l.outbox[j].event.op.txId && row.index == l.outbox[j].event.op.index
    ensures Reversed(inbox, row)
  {
    assert l.outbox[j].event.key in inbox;
  }

  lemma ReverseRowFrom(l: Ledger, inbox: R.Inbox, key: string) returns (j: nat)
    requires Mirrors(l, inbox) && key in inbox && inbox[key].kind == "reverse"
    ensures j < |l.outbox| && IsEvent(l.outbox[j], Reverse, Outpoint(inbox[key].txId, inbox[key].index))
  {
    assert key in KeysOf(l.outbox);
    j :| 0 <= j < |l.outbox| && l.outbox[j].event.key == key;
  }

  /** The inbox knows of a reversal exactly when the ledger has the reverse event. */
  lemma ReversedInInbox(l: Ledger, inbox: R.Inbox, i: nat)
    requires i < |l.outbox| && Mirrors(l, inbox)
    ensures Reversed(inbox, inbox[l.outbox[i].event.key]) <==> HasEvent(l, Reverse, l.outbox[i].event.op)
  {
    var row, op := inbox[l.outbox[i].event.key], l.outbox[i].event.op;
    if HasEvent(l, Reverse, op) {
      var j :| 0 <= j < |l.outbox| && IsEvent(l.outbox[j], Reverse, op);
      ReverseRowKnown(l, inbox, j, row);
    }
    if Reversed(inbox, row) {
      var key :| key in inbox && inbox[key].kind == "reverse"
                 && inbox[key].txId == row.txId && inbox[key].index == row.index;
      var j := ReverseRowFrom(l, inbox, key);
    }
  }

  lemma OpenInInbox(l: Ledger, inbox: R.Inbox, i: nat)
    requires i < |l.outbox| && Mirrors(l, inbox)
    ensures OpenCredit(l, i) <==> l.outbox[i].event.key in OpenKeys(inbox)
  {
    ReversedInInbox(l, inbox, i);
    assert inbox[l.outbox[i].event.key].kind == KindText(l.outbox[i].event.kind);
  }

  lemma OpenKeysAgree(l: Ledger, inbox: R.Inbox)
    requires Mirrors(l, inbox)
    ensures OpenKeys(inbox) == OpenEventKeys(l, |l.outbox|)
  {
    forall key ensures key in OpenKeys(inbox) <==> key in OpenEventKeys(l, |l.outbox|) {
      if key in OpenKeys(inbox) {
        assert key in KeysOf(l.outbox);
        var i :| 0 <= i < |l.outbox| && l.outbox[i].event.key == key;
        OpenInInbox(l, inbox, i);
      }
      if key in OpenEventKeys(l, |l.outbox|) {
        var i :| 0 <= i < |l.outbox| && OpenCredit(l, i) && l.outbox[i].event.key == key;
        OpenInInbox(l, inbox, i);
      }
    }
  }

  /** The ledger calls of a run. */
  function CallsOf(steps: seq<Step>): seq<Call> {
    if steps == [] then [] else
    CallsOf(steps[..|steps| - 1])
    + (match CallOf(steps[|steps| - 1])
       case Some(call) => [call]
       case None => [])
  }

  lemma {:induction false} LedgerOfRun(steps: seq<Step>)
    ensures RunWorld(steps).ledger == Run(CallsOf(steps)) && WorldBorn(steps) == RunBorn(CallsOf(steps))
    decreases |steps|
  {
    if steps != [] {
      var before, last := steps[..|steps| - 1], steps[|steps| - 1];
      LedgerOfRun(before);
      LedgerOfAfter(RunWorld(before), last);
      match CallOf(last)
      case Some(call) => CallAppend(CallsOf(before), call);
      case None =>
        assert CallsOf(steps) == CallsOf(before);
        NothingBorn(RunWorld(before).ledger, WorldBorn(before));
    }
  }

  lemma CallAppend(calls: seq<Call>, call: Call)
    ensures Run(calls + [call]) == Next(Run(calls), call)
    ensures RunBorn(calls + [call]) == Born(RunBorn(calls), Run(calls), Run(calls + [call]))
  {
    assert (calls + [call])[..|calls|] == calls;
  }

  /**
   End to end: once every event has been acknowledged through a claim, the inbox rows that
   credit and are not reversed add up to the deposits the ledger holds credited, apart from
   those imported before they were observed.
   */
  lemma InboxBalances(steps: seq<Step>)
    requires Legal(steps)
    requires KeysOf(RunWorld(steps).ledger.outbox) <= RunWorld(steps).settled
    ensures var w := RunWorld(steps);
            && w.ledger == Run(CallsOf(steps)) && OpenKeys(w.inbox) <= w.inbox.Keys
            && KeySum(w.inbox, OpenKeys(w.inbox))
               == AmountSum(Run(CallsOf(steps)).deposits, OwnCredits(CallsOf(steps)))
  {
    var w := RunWorld(steps);
    RunSound(steps);
    FullyDelivered(steps);
    OpenKeysAgree(w.ledger, w.inbox);
    OpenKeySum(w.ledger, w.inbox, |w.ledger.outbox|);
    LedgerOfRun(steps);
    CreditsBalance(CallsOf(steps));
  }
}
