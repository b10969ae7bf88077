/**
 What can never be delivered: events of a reachable world that no continuation whatever
 acknowledges through a claim.
 */
module Liveness {
  import opened Basics
  import opened Ledger
  import opened Outbox
  import opened LedgerSafety
  import opened LedgerBooks
  import opened Leases
  import opened Protocol
  import Reachable

  // ---------- rows of reachable worlds ----------

  /**
   A leased event's next attempt is before the largest time; an event settled through a claim is
   acknowledged.
   */
  predicate RipeRow(row: Row, settled: set<string>) {
    var d := row.delivery;
    && LeaseSane(d)
    && (d.owner.Some? ==> d.nextAttempt < I64_MAX)
    && (row.event.key in settled ==> d.acknowledged)
  }

  ghost predicate Ripe(w: World) {
    && (forall i | 0 <= i < |w.ledger.outbox| :: RipeRow(w.ledger.outbox[i], w.settled))
    && w.settled <= KeysOf(w.ledger.outbox)
  }

  lemma SettledStay(w: World, w': World)
    requires w.settled <= KeysOf(w.ledger.outbox) && w'.settled == w.settled
    requires Advances(w.ledger, w'.ledger)
    ensures w'.settled <= KeysOf(w'.ledger.outbox)
  {
    forall key | key in w'.settled ensures key in KeysOf(w'.ledger.outbox) {
      var i :| 0 <= i < |w.ledger.outbox| && w.ledger.outbox[i].event.key == key;
      assert w'.ledger.outbox[i].event.key == key;
    }
  }

  /** Distinct rows have distinct keys, so a fresh row's key is not settled. */
  lemma FreshIsUnsettled(l: Ledger, l': Ledger, i: nat)
    requires WellFormedEvents(l'.outbox) && Advances(l, l') && |l.outbox| <= i < |l'.outbox|
    ensures l'.outbox[i].event.key !in KeysOf(l.outbox)
  {
    forall j | 0 <= j < |l.outbox| ensures l.outbox[j].event.key != l'.outbox[i].event.key {
      if l.outbox[j].event.key == l'.outbox[i].event.key {
        assert l'.outbox[j].event == l.outbox[j].event;
        SameKeySameEvent(l', j + 1, i + 1);
      }
    }
  }

  lemma DepositStepRipe(w: World, born: set<Outpoint>, call: Call)
    requires Ripe(w) && Safe(w.ledger, born) && !IsDelivery(call)
    ensures Ripe(After(w, LedgerStep(call)))
  {
    var l, l' := w.ledger, Next(w.ledger, call);
    DepositCallRows(l, call);
    NextAdvances(l, call);
    NextKeeps(l, born, call);
    forall i | 0 <= i < |l'.outbox| ensures RipeRow(l'.outbox[i], w.settled) {
      if i < |l.outbox| {
        assert l'.outbox[..|l.outbox|][i] == l.outbox[i];
      } else {
        FreshIsUnsettled(l, l', i);
      }
    }
    SettledStay(w, After(w, LedgerStep(call)));
  }

  lemma ClaimStepRipe(w: World, call: Call)
    requires Ripe(w) && WellFormedEvents(w.ledger.outbox) && call.ClaimCall?
    ensures Ripe(After(w, LedgerStep(call)))
  {
    var l, w' := w.ledger, After(w, LedgerStep(call));
    forall i | 0 <= i < |l.outbox| ensures RipeRow(w'.ledger.outbox[i], w'.settled) {
      assert RipeRow(l.outbox[i], w.settled);
      ClaimedRow(w, call, i);
    }
    NextAdvances(l, call);
    SettledStay(w, w');
  }

  lemma ClaimedRow(w: World, call: Call, i: nat)
    requires call.ClaimCall? && i < |w.ledger.outbox| && RipeRow(w.ledger.outbox[i], w.settled)
    ensures var w' := After(w, LedgerStep(call));
            |w'.ledger.outbox| == |w.ledger.outbox| && RipeRow(w'.ledger.outbox[i], w'.settled)
  {
    FirstEligibleIsFirst(w.ledger.outbox, call.now, |w.ledger.outbox|);
  }

  lemma OtherStepRipe(w: World, call: Call)
    requires Ripe(w) && IsDelivery(call) && !call.ClaimCall? && !call.AcknowledgeClaimCall?
    ensures Ripe(After(w, LedgerStep(call)))
  {
    var w' := After(w, LedgerStep(call));
    DeliveryKeepsEvents(w.ledger, call);
    forall i | 0 <= i < |w'.ledger.outbox| ensures RipeRow(w'.ledger.outbox[i], w'.settled) {
      assert RipeRow(w.ledger.outbox[i], w.settled);
    }
    NextAdvances(w.ledger, call);
    SettledStay(w, w');
  }

  /** Settling one event acknowledges its row; its key is no other row's. */
  lemma SettledRow(w: World, born: set<Outpoint>, id: int, owner: string, i: nat)
    requires Safe(w.ledger, born) && i < |w.ledger.outbox| && RipeRow(w.ledger.outbox[i], w.settled)
    ensures var w' := After(w, SettleStep(id, owner));
            |w'.ledger.outbox| == |w.ledger.outbox| && RipeRow(w'.ledger.outbox[i], w'.settled)
  {
    OtherKeys(w.ledger, i);
  }

  /** No two rows share a key. */
  lemma OtherKeys(l: Ledger, k: nat)
    requires WellFormedEvents(l.outbox) && k < |l.outbox|
    ensures forall j | 0 <= j < |l.outbox| && j != k :: l.outbox[j].event.key != l.outbox[k].event.key
  {
    forall j | 0 <= j < |l.outbox| && j != k ensures l.outbox[j].event.key != l.outbox[k].event.key {
      if l.outbox[j].event.key == l.outbox[k].event.key {
        SameKeySameEvent(l, j + 1, k + 1);
      }
    }
  }

  lemma SettleStepRipe(w: World, born: set<Outpoint>, id: int, owner: string)
    requires Ripe(w) && Safe(w.ledger, born)
    ensures Ripe(After(w, SettleStep(id, owner)))
  {
    forall i | 0 <= i < |w.ledger.outbox|
      ensures var w' := After(w, SettleStep(id, owner));
              |w'.ledger.outbox| == |w.ledger.outbox| && RipeRow(w'.ledger.outbox[i], w'.settled)
    {
      SettledRow(w, born, id, owner, i);
    }
    SettleStepKeys(w, id, owner);
  }

  lemma SettleStepKeys(w: World, id: int, owner: string)
    requires w.settled <= KeysOf(w.ledger.outbox)
    ensures var w' := After(w, SettleStep(id, owner)); w'.settled <= KeysOf(w'.ledger.outbox)
  {
    var w' := After(w, SettleStep(id, owner));
    forall key | key in w'.settled ensures key in KeysOf(w'.ledger.outbox) {
      if key in w.settled {
        var i :| 0 <= i < |w.ledger.outbox| && w.ledger.outbox[i].event.key == key;
        assert w'.ledger.outbox[i].event.key == key;
      } else {
        assert w'.ledger.outbox[id - 1].event.key == key;
      }
    }
  }

  lemma StepRipe(w: World, born: set<Outpoint>, step: Step)
    requires Ripe(w) && Safe(w.ledger, born) && Enabled(w, step)
    ensures Ripe(After(w, step))
  {
    match step
    case LedgerStep(call) =>
      if !IsDelivery(call) {
        DepositStepRipe(w, born, call);
      } else if call.ClaimCall? {
        ClaimStepRipe(w, call);
      } else {
        OtherStepRipe(w, call);
      }
    case DeliverStep(_, _) =>
    case SettleStep(id, owner) =>
      SettleStepRipe(w, born, id, owner);
  }

  lemma {:induction false} RunRipe(steps: seq<Step>)
    requires Legal(steps)
    ensures Ripe(RunWorld(steps))
    decreases |steps|
  {
    if steps != [] {
      var n := |steps| - 1;
      LegalPrefix(steps, n);
      RunRipe(steps[..n]);
      assert Enabled(RunWorld(steps[..n]), steps[n]);
      NextRipe(steps[..n], steps[n]);
    }
  }

  lemma NextRipe(before: seq<Step>, step: Step)
    requires Legal(before) && Ripe(RunWorld(before)) && Enabled(RunWorld(before), step)
    ensures Ripe(After(RunWorld(before), step))
  {
    RunSound(before);
    StepRipe(RunWorld(before), WorldBorn(before), step);
  }

  // ---------- extending runs ----------

  lemma LegalPrefix(steps: seq<Step>, n: nat)
    requires n <= |steps| && Legal(steps)
    ensures Legal(steps[..n])
  {
    forall k | 0 <= k < n ensures Enabled(RunWorld(steps[..n][..k]), steps[..n][k]) {
      assert steps[..n][..k] == steps[..k];
    }
  }

  lemma LegalAppend(steps: seq<Step>, step: Step)
    requires Legal(steps) && Enabled(RunWorld(steps), step)
    ensures Legal(steps + [step]) && RunWorld(steps + [step]) == After(RunWorld(steps), step)
  {
    var all := steps + [step];
    assert all[..|steps|] == steps;
    forall n | 0 <= n < |all| ensures Enabled(RunWorld(all[..n]), all[n]) {
      if n < |steps| {
        assert all[..n] == steps[..n];
      }
    }
  }

  // ---------- what can still be finished ----------

  /** Every event has been acknowledged through a claim. */
  ghost predicate Complete(w: World) {
    KeysOf(w.ledger.outbox) <= w.settled
  }

  /**
   Nobody acknowledged the event by hand, and unless it is a dead letter its next attempt is
   before the largest time SQLite can store.
   */
  predicate OpenTo(d: Delivery) {
    !d.acknowledged && (d.dead || d.nextAttempt < I64_MAX)
  }

  /** Every event not yet acknowledged through a claim is open to one. */
  ghost predicate Finishable(w: World) {
    forall i | 0 <= i < |w.ledger.outbox| ::
      w.ledger.outbox[i].event.key in w.settled || OpenTo(w.ledger.outbox[i].delivery)
  }

  // ---------- never again ----------

  /** Unsettled, and acknowledged by hand or waiting for a time no claim can have. */
  predicate Stuck(w: World, i: nat) {
    && i < |w.ledger.outbox|
    && w.ledger.outbox[i].event.key !in w.settled
    && var d := w.ledger.outbox[i].delivery;
       d.acknowledged || (!d.dead && d.owner.None? && d.nextAttempt >= I64_MAX)
  }

  lemma StuckDeposit(w: World, call: Call, i: nat)
    requires Stuck(w, i) && !IsDelivery(call)
    ensures Stuck(After(w, LedgerStep(call)), i)
  {
    DepositCallRows(w.ledger, call);
    assert Next(w.ledger, call).outbox[..|w.ledger.outbox|][i] == w.ledger.outbox[i];
  }

  lemma StuckDelivery(w: World, call: Call, i: nat)
    requires Stuck(w, i) && IsDelivery(call) && !call.AcknowledgeClaimCall?
    ensures Stuck(After(w, LedgerStep(call)), i)
  {
    if call.ClaimCall? {
      FirstEligibleIsFirst(w.ledger.outbox, call.now, |w.ledger.outbox|);
    }
  }

  lemma StuckSettle(w: World, born: set<Outpoint>, i: nat, id: int, owner: string)
    requires Stuck(w, i) && Safe(w.ledger, born)
    ensures Stuck(After(w, SettleStep(id, owner)), i)
  {
    OtherKeys(w.ledger, i);
  }

  lemma StuckStep(w: World, born: set<Outpoint>, step: Step, i: nat)
    requires Stuck(w, i) && Safe(w.ledger, born) && Enabled(w, step)
    ensures Stuck(After(w, step), i)
  {
    match step
    case LedgerStep(call) =>
      if IsDelivery(call) {
        StuckDelivery(w, call, i);
      } else {
        StuckDeposit(w, call, i);
      }
    case DeliverStep(_, _) =>
    case SettleStep(id, owner) =>
      StuckSettle(w, born, i, id, owner);
  }

  lemma {:induction false} StuckForever(base: seq<Step>, more: seq<Step>, i: nat)
    requires Legal(base + more) && Stuck(RunWorld(base), i)
    ensures Stuck(RunWorld(base + more), i)
    decreases |more|
  {
    if more == [] {
      assert base + more == base;
    } else {
      var front, last := more[..|more| - 1], more[|more| - 1];
      assert base + more == base + front + [last];
      LegalInit(base + front, last);
      StuckForever(base, front, i);
      StuckOneMore(base + front, last, i);
    }
  }

  lemma LegalInit(steps: seq<Step>, last: Step)
    requires Legal(steps + [last])
    ensures Legal(steps)
  {
    LegalPrefix(steps + [last], |steps|);
    assert (steps + [last])[..|steps|] == steps;
  }

  lemma StuckOneMore(steps: seq<Step>, last: Step, i: nat)
    requires Legal(steps + [last]) && Stuck(RunWorld(steps), i)
    ensures Stuck(RunWorld(steps + [last]), i)
  {
    LegalInit(steps, last);
    RunNext(steps, last);
    StuckNext(steps, last, i);
  }

  lemma RunNext(steps: seq<Step>, last: Step)
    requires Legal(steps + [last])
    ensures Enabled(RunWorld(steps), last) && RunWorld(steps + [last]) == After(RunWorld(steps), last)
  {
    assert (steps + [last])[..|steps|] == steps;
    assert Enabled(RunWorld((steps + [last])[..|steps|]), (steps + [last])[|steps|]);
  }

  lemma StuckNext(before: seq<Step>, step: Step, i: nat)
    requires Legal(before) && Enabled(RunWorld(before), step) && Stuck(RunWorld(before), i)
    ensures Stuck(After(RunWorld(before), step), i)
  {
    RunSound(before);
    StuckStep(RunWorld(before), WorldBorn(before), step, i);
  }

  lemma StuckIncomplete(w: World, i: nat)
    requires Stuck(w, i)
    ensures !Complete(w)
  {
    assert w.ledger.outbox[i].event.key in KeysOf(w.ledger.outbox);
  }

  /** An event that is not open to a claim stays so, and delivery is never complete. */
  lemma NeverComplete(steps: seq<Step>, more: seq<Step>)
    requires Legal(steps + more) && !Finishable(RunWorld(steps))
    ensures !Complete(RunWorld(steps + more))
  {
    var all := steps + more;
    assert all[..|steps|] == steps;
    LegalPrefix(all, |steps|);
    RunRipe(steps);
    var w := RunWorld(steps);
    var i :| 0 <= i < |w.ledger.outbox|
             && !(w.ledger.outbox[i].event.key in w.settled || OpenTo(w.ledger.outbox[i].delivery));
    assert RipeRow(w.ledger.outbox[i], w.settled);
    StuckForever(steps, more, i);
    StuckIncomplete(RunWorld(all), i);
  }

  // ---------- runs of ledger calls ----------

  function AsSteps(calls: seq<Call>): seq<Step> {
    if calls == [] then [] else AsSteps(calls[..|calls| - 1]) + [LedgerStep(calls[|calls| - 1])]
  }

  /** Ledger calls other than acknowledgements of claims are a legal run that settles nothing. */
  lemma {:induction false} CallsLegal(calls: seq<Call>)
    requires forall call | call in calls :: !call.AcknowledgeClaimCall?
    ensures Legal(AsSteps(calls)) && RunWorld(AsSteps(calls)).ledger == Run(calls)
    ensures RunWorld(AsSteps(calls)).settled == {}
    decreases |calls|
  {
    if calls != [] {
      var n := |calls| - 1;
      CallsLegal(calls[..n]);
      LegalAppend(AsSteps(calls[..n]), LedgerStep(calls[n]));
    }
  }

  lemma PostponedStuck(l: Ledger)
    requires l.outbox == [Row(Reachable.CREDIT, FRESH_DELIVERY)]
    ensures var l' := Next(Next(l, ClaimCall("w", 0, 1)), FailCall(1, "w", "e", 0, I64_MAX, 100));
            && |l'.outbox| == 1
            && var d := l'.outbox[0].delivery;
               !d.acknowledged && !d.dead && d.nextAttempt == I64_MAX
  {
    Reachable.LeaseOne(l, 0);
    assert Trim("e") == "e" && Trim("w") == "w";
  }

  /**
   A failure may name the largest storable time for the next attempt: fail_claim accepts it, and
   then the event, neither acknowledged nor dead, can never be claimed again.
   */
  lemma PostponedForEver()
    ensures var calls := Reachable.Deposited() + [ClaimCall("w", 0, 1)] + [FailCall(1, "w", "e", 0, I64_MAX, 100)];
            var w := RunWorld(AsSteps(calls));
            && Legal(AsSteps(calls)) && |w.ledger.outbox| == 1 && !Finishable(w)
            && var d := w.ledger.outbox[0].delivery;
               !d.acknowledged && !d.dead && d.nextAttempt == I64_MAX
  {
    var claim, fail := ClaimCall("w", 0, 1), FailCall(1, "w", "e", 0, I64_MAX, 100);
    var deposited := Reachable.Deposited();
    Reachable.DepositedLedger();
    RunAppend(deposited, claim);
    RunAppend(deposited + [claim], fail);
    PostponedStuck(Run(deposited));
    CallsLegal(deposited + [claim] + [fail]);
  }
}
