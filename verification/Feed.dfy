/**
 The tracker feeding the ledger: every appearance, removal and DAA update goes to the tracker,
 and what the tracker says goes to reconcile. Other calls of the ledger may come in between.
 */
module Feed {
  import opened Basics
  import opened Ledger
  import opened Outbox
  import opened LedgerSafety
  import opened Tracker
  import opened Reconciling

  datatype Step =
    | Appear(seen: Appearance)
    | Tick(daa: u64, confirmed: seq<Confirmation>)
    | Vanish(daa: u64, op: Outpoint)
    | Other(call: Call)

  /** What waits in the tracker, and the calls the ledger has received. */
  datatype Feed = Feed(pending: map<Outpoint, Facts>, calls: seq<Call>)

  function HitsOf(threshold: u64, seen: Appearance): seq<Confirmation> {
    if Deep(threshold, seen.virtualDaa, seen.facts) then [Hit(seen.op, seen.facts, seen.virtualDaa)] else []
  }

  function After(threshold: u64, f: Feed, step: Step): Feed {
    match step
    case Appear(seen) =>
      Feed(Added(threshold, f.pending, seen).0,
           f.calls + [ReconcileCall(seen.virtualDaa, [seen], HitsOf(threshold, seen), [])])
    case Tick(daa, confirmed) =>
      Feed(Retained(threshold, daa, f.pending), f.calls + [ReconcileCall(daa, [], confirmed, [])])
    case Vanish(daa, op) =>
      Feed(f.pending - {op}, f.calls + [ReconcileCall(daa, [], [], [op])])
    case Other(call) =>
      Feed(f.pending, f.calls + [call])
  }

  function RunFeed(threshold: u64, steps: seq<Step>): Feed {
    if steps == [] then Feed(map[], [])
    else After(threshold, RunFeed(threshold, steps[..|steps| - 1]), steps[|steps| - 1])
  }

  function LedgerAfter(threshold: u64, steps: seq<Step>): Ledger {
    Run(RunFeed(threshold, steps).calls)
  }

  /** A DAA update passes on what the tracker returned; other calls are not reconciliations. */
  ghost predicate Possible(threshold: u64, f: Feed, step: Step) {
    && (step.Tick? ==> Lists(step.confirmed, threshold, step.daa, f.pending))
    && (step.Other? ==> !step.call.ReconcileCall?)
  }

  /** Whenever an outpoint is reported, it is reported with the same facts. */
  predicate Consistent(chain: map<Outpoint, Facts>, step: Step) {
    match step
    case Appear(seen) =>
      seen.op in chain && chain[seen.op] == seen.facts && InRange(seen.facts) && Fits(seen.virtualDaa)
    case Tick(daa, confirmed) => Fits(daa)
    case Vanish(daa, op) => Fits(daa)
    case Other(call) => true
  }

  ghost predicate Admitted(threshold: u64, chain: map<Outpoint, Facts>, steps: seq<Step>) {
    forall n | 0 <= n < |steps| ::
      Possible(threshold, RunFeed(threshold, steps[..n]), steps[n]) && Consistent(chain, steps[n])
  }

  // ---------- no run credits twice ----------

  /**
   Whatever the tracker is fed, in whatever order and with whatever facts, no outpoint gets two
   events of a kind.
   */
  lemma AtMostOneCredit(threshold: u64, steps: seq<Step>, i: nat, j: nat)
    requires var l := LedgerAfter(threshold, steps);
             && i < |l.outbox| && j < |l.outbox|
             && l.outbox[i].event.kind == l.outbox[j].event.kind && l.outbox[i].event.op == l.outbox[j].event.op
    ensures i == j
  {
    var l := LedgerAfter(threshold, steps);
    ReachableEvents(RunFeed(threshold, steps).calls, l.outbox[i].event.op);
    assert IsEvent(l.outbox[i], l.outbox[i].event.kind, l.outbox[i].event.op);
    assert IsEvent(l.outbox[j], l.outbox[i].event.kind, l.outbox[i].event.op);
  }

  // ---------- the invariant ----------

  /** Recorded facts are the true ones, and exactly what is pending in the ledger must still wait. */
  ghost predicate InStep(chain: map<Outpoint, Facts>, pending: map<Outpoint, Facts>, l: Ledger) {
    && (forall op | op in l.deposits :: op in chain && l.deposits[op].facts == chain[op] && InRange(chain[op]))
    && (forall op | op in pending :: op in l.deposits && pending[op] == chain[op])
    && (forall op | op in l.deposits && l.deposits[op].state == Pending :: op in pending)
  }

  function Reconciliation(threshold: u64, step: Step): Call
    requires !step.Other?
  {
    match step
    case Appear(seen) => ReconcileCall(seen.virtualDaa, [seen], HitsOf(threshold, seen), [])
    case Tick(daa, confirmed) => ReconcileCall(daa, [], confirmed, [])
    case Vanish(daa, op) => ReconcileCall(daa, [], [], [op])
  }

  predicate Succeeds(l: Ledger, call: Call)
    requires call.ReconcileCall?
  {
    Reconciled(l, call.daa, call.observed, call.confirmed, call.disappeared).Ok?
  }

  lemma OneItem(l: Ledger, daa: u64, item: Appearance, hit: Confirmation, op: Outpoint)
    ensures ObserveAll(l, daa, []) == Ok(l) && ObserveAll(l, daa, [item]) == Observe(l, daa, item)
    ensures ConfirmAll(l, daa, []) == Ok(l) && ConfirmAll(l, daa, [hit]) == Confirm(l, daa, hit)
    ensures DisappearAll(l, daa, []) == Ok(l) && DisappearAll(l, daa, [op]) == Disappear(l, daa, op)
  {
    assert [item][..0] == [] && [hit][..0] == [] && [op][..0] == [];
    assert ObserveAll(l, daa, [item][..0]) == Ok(l);
    assert ConfirmAll(l, daa, [hit][..0]) == Ok(l);
    assert DisappearAll(l, daa, [op][..0]) == Ok(l);
  }

  // ---------- what each step does to the rows ----------

  /** The row of an outpoint just after it appeared. */
  function RowAfter(threshold: u64, l: Ledger, seen: Appearance): Deposit {
    var daa := seen.virtualDaa;
    var d := if seen.op in l.deposits then l.deposits[seen.op].(lastSeen := daa)
             else if seen.op in l.legacy then Deposit(seen.facts, Credited, daa, daa, Some(daa), None, None)
             else Deposit(seen.facts, Pending, daa, daa, None, None, None);
    if Deep(threshold, daa, seen.facts) && d.state == Pending then CreditedAt(d, daa) else d
  }

  /** An appearance is accepted exactly when its numbers fit and no row holds other facts. */
  lemma AppearEffect(threshold: u64, l: Ledger, seen: Appearance)
    ensures Succeeds(l, Reconciliation(threshold, Appear(seen)))
            <==> && Fits(seen.virtualDaa) && InRange(seen.facts)
                 && (seen.op in l.deposits ==> l.deposits[seen.op].facts == seen.facts)
    ensures Succeeds(l, Reconciliation(threshold, Appear(seen))) ==>
              var l' := Next(l, Reconciliation(threshold, Appear(seen)));
              l'.legacy == l.legacy && l'.deposits == l.deposits[seen.op := RowAfter(threshold, l, seen)]
  {
    var hit := Hit(seen.op, seen.facts, seen.virtualDaa);
    OneItem(l, seen.virtualDaa, seen, hit, seen.op);
    var r := Observe(l, seen.virtualDaa, seen);
    if r.Ok? {
      OneItem(r.value, seen.virtualDaa, seen, hit, seen.op);
      if Deep(threshold, seen.virtualDaa, seen.facts) {
        var r2 := Confirm(r.value, seen.virtualDaa, hit);
        if r2.Ok? {
          OneItem(r2.value, seen.virtualDaa, seen, hit, seen.op);
        }
      }
    }
  }

  lemma TickEffect(threshold: u64, chain: map<Outpoint, Facts>, pending: map<Outpoint, Facts>, l: Ledger,
                   daa: u64, confirmed: seq<Confirmation>)
    requires InStep(chain, pending, l) && Fits(daa) && Lists(confirmed, threshold, daa, pending)
    ensures Succeeds(l, Reconciliation(threshold, Tick(daa, confirmed)))
    ensures Credits(l, Next(l, Reconciliation(threshold, Tick(daa, confirmed))), daa, OpsOf(confirmed))
  {
    forall item | item in confirmed ensures MayConfirm(l, item) {
      var i :| 0 <= i < |confirmed| && confirmed[i] == item;
      assert confirmed[i].op in pending;
    }
    ConfirmAllMeans(l, daa, confirmed);
  }

  lemma VanishEffect(threshold: u64, chain: map<Outpoint, Facts>, pending: map<Outpoint, Facts>, l: Ledger,
                     daa: u64, op: Outpoint)
    requires InStep(chain, pending, l) && Fits(daa)
    ensures Succeeds(l, Reconciliation(threshold, Vanish(daa, op)))
    ensures var l' := Next(l, Reconciliation(threshold, Vanish(daa, op)));
            && l'.legacy == l.legacy
            && l'.deposits == if op in l.deposits && l.deposits[op].state == Pending
                              then l.deposits[op := GoneAt(l.deposits[op], daa)] else l.deposits
  {
    assert [op][..0] == [];
    assert DisappearAll(l, daa, [op][..0]) == Ok(l);
    assert DisappearAll(l, daa, [op]) == Disappear(l, daa, op);
  }

  lemma OtherEffect(l: Ledger, call: Call, op: Outpoint)
    requires !call.ReconcileCall? && op in l.deposits
    ensures var l' := Next(l, call);
            && l'.deposits.Keys == l.deposits.Keys
            && l'.deposits[op].facts == l.deposits[op].facts
            && (l'.deposits[op].state == Pending <==> l.deposits[op].state == Pending)
            && ((call.ReverseCall? && call.op == op) || l'.deposits[op].state == l.deposits[op].state)
  {
    if IsDelivery(call) {
      DeliveryKeepsEvents(l, call);
    }
  }

  // ---------- every admitted run keeps tracker and ledger in step ----------

  lemma AppearKeeps(threshold: u64, chain: map<Outpoint, Facts>, pending: map<Outpoint, Facts>, l: Ledger,
                    seen: Appearance)
    requires InStep(chain, pending, l) && Consistent(chain, Appear(seen))
    ensures Succeeds(l, Reconciliation(threshold, Appear(seen)))
    ensures InStep(chain, Added(threshold, pending, seen).0, Next(l, Reconciliation(threshold, Appear(seen))))
  {
    AppearEffect(threshold, l, seen);
  }

  lemma TickKeeps(threshold: u64, chain: map<Outpoint, Facts>, pending: map<Outpoint, Facts>, l: Ledger,
                  daa: u64, confirmed: seq<Confirmation>)
    requires InStep(chain, pending, l) && Fits(daa) && Lists(confirmed, threshold, daa, pending)
    ensures InStep(chain, Retained(threshold, daa, pending), Next(l, Reconciliation(threshold, Tick(daa, confirmed))))
  {
    TickEffect(threshold, chain, pending, l, daa, confirmed);
  }

  lemma VanishKeeps(threshold: u64, chain: map<Outpoint, Facts>, pending: map<Outpoint, Facts>, l: Ledger,
                    daa: u64, op: Outpoint)
    requires InStep(chain, pending, l) && Fits(daa)
    ensures InStep(chain, pending - {op}, Next(l, Reconciliation(threshold, Vanish(daa, op))))
  {
    VanishEffect(threshold, chain, pending, l, daa, op);
  }

  lemma OtherKeeps(chain: map<Outpoint, Facts>, pending: map<Outpoint, Facts>, l: Ledger, call: Call)
    requires InStep(chain, pending, l) && !call.ReconcileCall?
    ensures InStep(chain, pending, Next(l, call))
  {
    forall op | op in l.deposits
      ensures var l' := Next(l, call);
              && l'.deposits.Keys == l.deposits.Keys && l'.deposits[op].facts == l.deposits[op].facts
              && (l'.deposits[op].state == Pending <==> l.deposits[op].state == Pending)
    {
      OtherEffect(l, call, op);
    }
    if l.deposits == map[] {
      NoRows(l, call);
    }
  }

  lemma NoRows(l: Ledger, call: Call)
    requires !call.ReconcileCall? && l.deposits == map[]
    ensures Next(l, call).deposits == map[]
  {
    if IsDelivery(call) {
      DeliveryKeepsEvents(l, call);
    }
  }

  lemma Prefixes(threshold: u64, chain: map<Outpoint, Facts>, steps: seq<Step>)
    requires |steps| > 0 && Admitted(threshold, chain, steps)
    ensures var n := |steps| - 1;
            && Admitted(threshold, chain, steps[..n])
            && Possible(threshold, RunFeed(threshold, steps[..n]), steps[n]) && Consistent(chain, steps[n])
            && LedgerAfter(threshold, steps) == Next(LedgerAfter(threshold, steps[..n]), CallOf(threshold, steps[n]))
  {
    var n := |steps| - 1;
    forall k | 0 <= k < n
      ensures Possible(threshold, RunFeed(threshold, steps[..n][..k]), steps[..n][k])
      ensures Consistent(chain, steps[..n][k])
    {
      assert steps[..n][..k] == steps[..k] && steps[..n][k] == steps[k];
    }
    RunAppend(RunFeed(threshold, steps[..n]).calls, CallOf(threshold, steps[n]));
  }

  function CallOf(threshold: u64, step: Step): Call {
    if step.Other? then step.call else Reconciliation(threshold, step)
  }

  /** With consistent facts the tracker and the ledger agree about what is pending. */
  lemma {:induction false} RunInStep(threshold: u64, chain: map<Outpoint, Facts>, steps: seq<Step>)
    requires Admitted(threshold, chain, steps)
    ensures InStep(chain, RunFeed(threshold, steps).pending, LedgerAfter(threshold, steps))
    decreases |steps|
  {
    if steps != [] {
      var n := |steps| - 1;
      Prefixes(threshold, chain, steps);
      RunInStep(threshold, chain, steps[..n]);
      var f, l := RunFeed(threshold, steps[..n]), LedgerAfter(threshold, steps[..n]);
      match steps[n]
      case Appear(seen) => AppearKeeps(threshold, chain, f.pending, l, seen);
      case Tick(daa, confirmed) => TickKeeps(threshold, chain, f.pending, l, daa, confirmed);
      case Vanish(daa, op) => VanishKeeps(threshold, chain, f.pending, l, daa, op);
      case Other(call) => OtherKeeps(chain, f.pending, l, call);
    }
  }

  /** With consistent facts in range no reconcile of the run ever fails. */
  lemma NeverRefused(threshold: u64, chain: map<Outpoint, Facts>, steps: seq<Step>)
    requires |steps| > 0 && Admitted(threshold, chain, steps) && !steps[|steps| - 1].Other?
    ensures Succeeds(LedgerAfter(threshold, steps[..|steps| - 1]), Reconciliation(threshold, steps[|steps| - 1]))
  {
    var n := |steps| - 1;
    Prefixes(threshold, chain, steps);
    RunInStep(threshold, chain, steps[..n]);
    var f, l := RunFeed(threshold, steps[..n]), LedgerAfter(threshold, steps[..n]);
    match steps[n]
    case Appear(seen) => AppearKeeps(threshold, chain, f.pending, l, seen);
    case Tick(daa, confirmed) => TickEffect(threshold, chain, f.pending, l, daa, confirmed);
    case Vanish(daa, op) => VanishEffect(threshold, chain, f.pending, l, daa, op);
  }

  // ---------- credited exactly when deep ----------

  /** The outpoint is removed, reversed by an operator or imported as a legacy credit. */
  predicate Touches(step: Step, op: Outpoint) {
    match step
    case Vanish(_, o) => o == op
    case Other(call) => (call.ReverseCall? && call.op == op) || (call.ImportLegacyCall? && call.op == op)
    case _ => false
  }

  predicate Untouched(steps: seq<Step>, op: Outpoint) {
    forall n | 0 <= n < |steps| :: !Touches(steps[n], op)
  }

  predicate AppearsAt(step: Step, op: Outpoint) {
    step.Appear? && step.seen.op == op
  }

  predicate Appeared(steps: seq<Step>, op: Outpoint) {
    exists n | 0 <= n < |steps| :: AppearsAt(steps[n], op)
  }

  /** A DAA update, or a new appearance of the outpoint, at which it is deep enough. */
  predicate Reaches(threshold: u64, facts: Facts, step: Step, op: Outpoint) {
    match step
    case Tick(daa, _) => Deep(threshold, daa, facts)
    case Appear(seen) => seen.op == op && Deep(threshold, seen.virtualDaa, facts)
    case _ => false
  }

  /** Once the outpoint had appeared, some step found it deep enough. */
  ghost predicate Due(threshold: u64, facts: Facts, steps: seq<Step>, op: Outpoint) {
    exists m | 0 <= m < |steps| :: Appeared(steps[..m + 1], op) && Reaches(threshold, facts, steps[m], op)
  }

  lemma AppearedStep(steps: seq<Step>, op: Outpoint)
    requires |steps| > 0
    ensures Appeared(steps, op) <==> Appeared(steps[..|steps| - 1], op) || AppearsAt(steps[|steps| - 1], op)
  {
    var n := |steps| - 1;
    if Appeared(steps[..n], op) {
      var k :| 0 <= k < n && AppearsAt(steps[..n][k], op);
      assert AppearsAt(steps[k], op);
    }
    if Appeared(steps, op) {
      var k :| 0 <= k < |steps| && AppearsAt(steps[k], op);
      if k < n {
        assert AppearsAt(steps[..n][k], op);
      }
    }
  }

  lemma DueStep(threshold: u64, facts: Facts, steps: seq<Step>, op: Outpoint)
    requires |steps| > 0
    ensures var n := |steps| - 1;
            Due(threshold, facts, steps, op)
            <==> Due(threshold, facts, steps[..n], op)
                 || (Appeared(steps, op) && Reaches(threshold, facts, steps[n], op))
  {
    var n := |steps| - 1;
    assert steps[..n + 1] == steps;
    forall m | 0 <= m < n
      ensures steps[..n][..m + 1] == steps[..m + 1] && steps[..n][m] == steps[m]
    {
    }
    if Due(threshold, facts, steps[..n], op) {
      var m :| 0 <= m < n && Appeared(steps[..n][..m + 1], op) && Reaches(threshold, facts, steps[..n][m], op);
      assert Appeared(steps[..m + 1], op) && Reaches(threshold, facts, steps[m], op);
    }
    if Due(threshold, facts, steps, op) {
      var m :| 0 <= m < |steps| && Appeared(steps[..m + 1], op) && Reaches(threshold, facts, steps[m], op);
      if m < n {
        assert Appeared(steps[..n][..m + 1], op) && Reaches(threshold, facts, steps[..n][m], op);
      }
    }
  }

  /** What one step does to the row of an outpoint it does not touch. */
  lemma RowStep(threshold: u64, chain: map<Outpoint, Facts>, f: Feed, l: Ledger, step: Step, op: Outpoint)
    requires InStep(chain, f.pending, l) && Possible(threshold, f, step) && Consistent(chain, step)
    requires !Touches(step, op) && op !in l.legacy
    ensures var l' := Next(l, CallOf(threshold, step));
            && op !in l'.legacy
            && (op in l'.deposits <==> op in l.deposits || AppearsAt(step, op))
            && (op in l'.deposits ==>
                  l'.deposits[op].state ==
                  var before := if op in l.deposits then l.deposits[op].state else Pending;
                  if before == Pending && Reaches(threshold, chain[op], step, op) then Credited else before)
  {
    match step
    case Appear(seen) =>
      AppearEffect(threshold, l, seen);
    case Tick(daa, confirmed) =>
      TickEffect(threshold, chain, f.pending, l, daa, confirmed);
    case Vanish(daa, o) =>
      VanishEffect(threshold, chain, f.pending, l, daa, o);
    case Other(call) =>
      if op in l.deposits {
        OtherEffect(l, call, op);
      } else {
        OtherAbsent(l, call, op);
      }
      OtherLegacy(l, call, op);
  }

  lemma OtherAbsent(l: Ledger, call: Call, op: Outpoint)
    requires !call.ReconcileCall? && op !in l.deposits
    ensures op !in Next(l, call).deposits
  {
    if IsDelivery(call) {
      DeliveryKeepsEvents(l, call);
    }
  }

  lemma OtherLegacy(l: Ledger, call: Call, op: Outpoint)
    requires !call.ReconcileCall? && op !in l.legacy && !(call.ImportLegacyCall? && call.op == op)
    ensures op !in Next(l, call).legacy
  {
    if IsDelivery(call) {
      DeliveryKeepsEvents(l, call);
    }
  }

  lemma {:induction false} StateFollowsDepth(threshold: u64, chain: map<Outpoint, Facts>, steps: seq<Step>,
                                             op: Outpoint)
    requires Admitted(threshold, chain, steps) && Untouched(steps, op) && op in chain
    ensures var l := LedgerAfter(threshold, steps);
            && op !in l.legacy
            && (op in l.deposits <==> Appeared(steps, op))
            && (op in l.deposits ==>
                  l.deposits[op].state == if Due(threshold, chain[op], steps, op) then Credited else Pending)
    decreases |steps|
  {
    if steps != [] {
      var n := |steps| - 1;
      Prefixes(threshold, chain, steps);
      assert Untouched(steps[..n], op);
      assert !Touches(steps[n], op);
      StateFollowsDepth(threshold, chain, steps[..n], op);
      RunInStep(threshold, chain, steps[..n]);
      RowStep(threshold, chain, RunFeed(threshold, steps[..n]), LedgerAfter(threshold, steps[..n]), steps[n], op);
      AppearedStep(steps, op);
      DueStep(threshold, chain[op], steps, op);
      NotDueUnseen(threshold, chain[op], steps[..n], op);
    }
  }

  lemma NotDueUnseen(threshold: u64, facts: Facts, steps: seq<Step>, op: Outpoint)
    ensures Due(threshold, facts, steps, op) ==> Appeared(steps, op)
  {
    if Due(threshold, facts, steps, op) {
      var m :| 0 <= m < |steps| && Appeared(steps[..m + 1], op) && Reaches(threshold, facts, steps[m], op);
      var n :| 0 <= n < m + 1 && AppearsAt(steps[..m + 1][n], op);
      assert AppearsAt(steps[n], op);
    }
  }

  // ---------- confirmed again ----------

  /** Neither a DAA update nor anything about the outpoint. */
  predicate Passes(step: Step, op: Outpoint) {
    match step
    case Appear(seen) => seen.op != op
    case Tick(_, _) => false
    case Vanish(_, o) => o != op
    case Other(_) => true
  }

  lemma PassedBy(threshold: u64, f: Feed, step: Step, op: Outpoint)
    requires Passes(step, op)
    ensures op in After(threshold, f, step).pending <==> op in f.pending
    ensures op in f.pending ==> After(threshold, f, step).pending[op] == f.pending[op]
  {
  }

  lemma {:induction false} PassedByAll(threshold: u64, steps: seq<Step>, i: nat, j: nat, op: Outpoint)
    requires i <= j <= |steps| && forall n | i <= n < j :: Passes(steps[n], op)
    ensures var p, q := RunFeed(threshold, steps[..i]).pending, RunFeed(threshold, steps[..j]).pending;
            (op in q <==> op in p) && (op in p ==> q[op] == p[op])
    decreases j
  {
    if i < j {
      PassedByAll(threshold, steps, i, j - 1, op);
      assert steps[..j][..j - 1] == steps[..j - 1];
      PassedBy(threshold, RunFeed(threshold, steps[..j - 1]), steps[j - 1], op);
    }
  }

  /**
   When the tracker confirms an outpoint twice. Say step i is an appearance confirmed at once,
   and step j the next DAA update, with nothing about the outpoint in between: the update
   confirms the outpoint again exactly when it was already waiting before step i, with facts
   that are deep at step j.
   */
  lemma ConfirmedAgainExactly(threshold: u64, steps: seq<Step>, i: nat, j: nat, op: Outpoint)
    requires i < j < |steps| && AppearsAt(steps[i], op) && HitsOf(threshold, steps[i].seen) != []
    requires forall n | i < n < j :: Passes(steps[n], op)
    requires steps[j].Tick? && Possible(threshold, RunFeed(threshold, steps[..j]), steps[j])
    ensures var waiting := RunFeed(threshold, steps[..i]).pending;
            op in OpsOf(steps[j].confirmed) <==> op in waiting && Deep(threshold, steps[j].daa, waiting[op])
  {
    assert steps[..i + 1][..i] == steps[..i];
    PassedByAll(threshold, steps, i + 1, j, op);
    var confirmed := steps[j].confirmed;
    if op in OpsOf(confirmed) {
      var item :| item in confirmed && item.op == op;
      var k :| 0 <= k < |confirmed| && confirmed[k] == item;
      assert confirmed[k].op in RunFeed(threshold, steps[..j]).pending;
    }
  }

  // ---------- credit events ----------

  /**
   An outpoint that is never removed, imported or reversed is credited by the first step after
   its appearance that finds it deep enough, and not before: after every run its one credit
   event exists exactly when such a step has happened.
   */
  lemma CreditedExactlyWhenDeep(threshold: u64, chain: map<Outpoint, Facts>, steps: seq<Step>, op: Outpoint)
    requires Admitted(threshold, chain, steps) && Untouched(steps, op) && op in chain
    ensures var l := LedgerAfter(threshold, steps);
            && (HasEvent(l, Credit, op) <==> Due(threshold, chain[op], steps, op))
            && (op in l.deposits && l.deposits[op].state == Credited <==> Due(threshold, chain[op], steps, op))
            && !HasEvent(l, Reverse, op)
  {
    var calls := RunFeed(threshold, steps).calls;
    StateFollowsDepth(threshold, chain, steps, op);
    LegacyIsImported(calls, op);
    ReachableEvents(calls, op);
    NotDueUnseen(threshold, chain[op], steps, op);
  }

  lemma {:induction false} ConfirmAllNewCredits(l: Ledger, daa: u64, items: seq<Confirmation>, op: Outpoint)
    requires ConfirmAll(l, daa, items).Ok? && HasEvent(ConfirmAll(l, daa, items).value, Credit, op)
    ensures HasEvent(l, Credit, op) || op in OpsOf(items)
    decreases |items|
  {
    if items != [] {
      var front, last := items[..|items| - 1], items[|items| - 1];
      var l1 := ConfirmAll(l, daa, front).value;
      assert items == front + [last];
      OpsAppend(front, last);
      var l2 := Confirm(l1, daa, last).value;
      if op != last.op {
        var i :| 0 <= i < |l2.outbox| && IsEvent(l2.outbox[i], Credit, op);
        assert IsEvent(l1.outbox[i], Credit, op);
        ConfirmAllNewCredits(l, daa, front, op);
      }
    }
  }

  lemma {:induction false} DisappearAllNewCredits(l: Ledger, daa: u64, ops: seq<Outpoint>, op: Outpoint)
    requires DisappearAll(l, daa, ops).Ok? && HasEvent(DisappearAll(l, daa, ops).value, Credit, op)
    ensures HasEvent(l, Credit, op)
    decreases |ops|
  {
    if ops != [] {
      var n := |ops| - 1;
      var l1 := DisappearAll(l, daa, ops[..n]).value;
      var l2 := Disappear(l1, daa, ops[n]).value;
      var i :| 0 <= i < |l2.outbox| && IsEvent(l2.outbox[i], Credit, op);
      assert IsEvent(l1.outbox[i], Credit, op);
      DisappearAllNewCredits(l, daa, ops[..n], op);
    }
  }

  /** A credit event comes from a confirmation passed to reconcile, and from nothing else. */
  lemma NewCredit(l: Ledger, call: Call, op: Outpoint)
    requires HasEvent(Next(l, call), Credit, op)
    ensures HasEvent(l, Credit, op) || (call.ReconcileCall? && op in OpsOf(call.confirmed))
  {
    var l' := Next(l, call);
    match call
    case ReconcileCall(daa, obs, conf, gone) =>
      if Reconciled(l, daa, obs, conf, gone).Ok? {
        var l1 := ObserveAll(l, daa, obs).value;
        var l2 := ConfirmAll(l1, daa, conf).value;
        ObserveAllMeans(l, daa, obs);
        DisappearAllNewCredits(l2, daa, gone, op);
        ConfirmAllNewCredits(l1, daa, conf, op);
        if HasEvent(l1, Credit, op) {
          assert HasEvent(l, Credit, op);
        }
      }
    case _ =>
      var i :| 0 <= i < |l'.outbox| && IsEvent(l'.outbox[i], Credit, op);
      if IsDelivery(call) {
        DeliveryKeepsEvents(l, call);
      }
      assert IsEvent(l.outbox[i], Credit, op);
  }

  /** Deposit rows come from appearances. */
  lemma {:induction false} RowsAppeared(threshold: u64, chain: map<Outpoint, Facts>, steps: seq<Step>, op: Outpoint)
    requires Admitted(threshold, chain, steps) && op in LedgerAfter(threshold, steps).deposits
    ensures op in chain && Appeared(steps, op)
    decreases |steps|
  {
    RunInStep(threshold, chain, steps);
    if steps != [] {
      var n := |steps| - 1;
      Prefixes(threshold, chain, steps);
      RunInStep(threshold, chain, steps[..n]);
      AppearedStep(steps, op);
      RowOrigin(threshold, chain, RunFeed(threshold, steps[..n]), LedgerAfter(threshold, steps[..n]), steps[n], op);
      if op in LedgerAfter(threshold, steps[..n]).deposits {
        RowsAppeared(threshold, chain, steps[..n], op);
      }
    }
  }

  lemma RowOrigin(threshold: u64, chain: map<Outpoint, Facts>, f: Feed, l: Ledger, step: Step, op: Outpoint)
    requires InStep(chain, f.pending, l) && Possible(threshold, f, step) && Consistent(chain, step)
    requires op in Next(l, CallOf(threshold, step)).deposits
    ensures op in l.deposits || AppearsAt(step, op)
  {
    match step
    case Appear(seen) => AppearEffect(threshold, l, seen);
    case Tick(daa, confirmed) => TickEffect(threshold, chain, f.pending, l, daa, confirmed);
    case Vanish(daa, o) => VanishEffect(threshold, chain, f.pending, l, daa, o);
    case Other(call) =>
      if IsDelivery(call) {
        DeliveryKeepsEvents(l, call);
      }
  }

  /** What a step passes to reconcile as confirmed it found deep enough. */
  lemma ConfirmedReaches(threshold: u64, chain: map<Outpoint, Facts>, f: Feed, l: Ledger, step: Step, op: Outpoint)
    requires InStep(chain, f.pending, l) && Possible(threshold, f, step) && Consistent(chain, step)
    requires var call := CallOf(threshold, step); call.ReconcileCall? && op in OpsOf(call.confirmed)
    ensures op in chain && Reaches(threshold, chain[op], step, op)
  {
    if step.Tick? {
      var item :| item in step.confirmed && item.op == op;
      var i :| 0 <= i < |step.confirmed| && step.confirmed[i] == item;
      assert step.confirmed[i].op in f.pending;
    }
  }

  /**
   No credit event is ever early: even for outpoints that vanish, come back or are reversed, a
   credit event means that some step after the appearance found the outpoint deep enough.
   */
  lemma {:induction false} CreditIsDue(threshold: u64, chain: map<Outpoint, Facts>, steps: seq<Step>, op: Outpoint)
    requires Admitted(threshold, chain, steps) && HasEvent(LedgerAfter(threshold, steps), Credit, op)
    ensures op in chain && Due(threshold, chain[op], steps, op)
    decreases |steps|
  {
    if steps != [] {
      var n := |steps| - 1;
      Prefixes(threshold, chain, steps);
      var f, l := RunFeed(threshold, steps[..n]), LedgerAfter(threshold, steps[..n]);
      NewCredit(l, CallOf(threshold, steps[n]), op);
      ReachableEvents(RunFeed(threshold, steps).calls, op);
      RowsAppeared(threshold, chain, steps, op);
      DueStep(threshold, chain[op], steps, op);
      if HasEvent(l, Credit, op) {
        CreditIsDue(threshold, chain, steps[..n], op);
      } else {
        RunInStep(threshold, chain, steps[..n]);
        ConfirmedReaches(threshold, chain, f, l, steps[n], op);
      }
    }
  }

  // ---------- a witness ----------

  /**
   An outpoint seen twice, the second time deep enough, and then a DAA update: the tracker
   confirms it twice and the ledger holds one credit event.
   */
  lemma ConfirmedTwiceCreditedOnce(op: Outpoint, address: string)
    ensures var facts := Facts(address, 5, 100, false);
            var hit := Hit(op, facts, 110);
            var steps := [Appear(Appearance(op, facts, 100)), Appear(Appearance(op, facts, 110)), Tick(110, [hit])];
            && Admitted(10, map[op := facts], steps)
            && HitsOf(10, steps[1].seen) == [hit] && steps[2].confirmed == [hit]
            && HasEvent(LedgerAfter(10, steps), Credit, op)
  {
    var facts := Facts(address, 5, 100, false);
    var hit := Hit(op, facts, 110);
    var first, second, tick := Appear(Appearance(op, facts, 100)), Appear(Appearance(op, facts, 110)), Tick(110, [hit]);
    var steps := [first, second, tick];
    assert steps[..1] == [first] && steps[..2] == [first, second];
    assert [first, second][..1] == [first] && [first][..0] == [];
    assert RunFeed(10, steps[..1]).pending == map[op := facts];
    assert RunFeed(10, steps[..2]).pending == map[op := facts];
    assert [hit][0].op in OpsOf([hit]);
    forall n | 0 <= n < |steps|
      ensures Possible(10, RunFeed(10, steps[..n]), steps[n]) && Consistent(map[op := facts], steps[n])
    {
    }
    assert AppearsAt(steps[..2][0], op);
    assert Reaches(10, facts, steps[1], op) && Appeared(steps[..1 + 1], op);
    CreditedExactlyWhenDeep(10, map[op := facts], steps, op);
  }
}
