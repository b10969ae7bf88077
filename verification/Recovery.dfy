/**
 Recovery without the workers that hold leases: what the others can still complete when the
 current lease holders never act again, and when a worker acknowledges an event only after its
 own claim returned it and a 2xx answer came. This is the loop of deliver in
 src/bin/tn10_outbox.rs, where an owner name is one process and a failed claim ends it.
 */
module Recovery {
  import opened Basics
  import opened Ledger
  import opened Outbox
  import opened LedgerSafety
  import opened LedgerBooks
  import opened Leases
  import opened Protocol
  import opened Liveness

  // ---------- who may do what ----------

  /** The workers that hold a lease. */
  ghost function Holders(w: World): set<string> {
    set i | 0 <= i < |w.ledger.outbox| && w.ledger.outbox[i].delivery.owner.Some? ::
      w.ledger.outbox[i].delivery.owner.value
  }

  /** What each worker's last claim returned, and for which of these a 2xx answer came since. */
  datatype Crew = Crew(claimed: set<(int, string)>, told: set<(int, string)>)

  function Without(pairs: set<(int, string)>, owner: string): set<(int, string)> {
    set pair | pair in pairs && pair.1 != owner
  }

  function Returned(l: Ledger, owner: string, now: u64, lease: u64): set<(int, string)> {
    var r := Claim(l, owner, now, lease).1;
    if r.Ok? && r.value.Some? then {(r.value.value.event.id, owner)} else {}
  }

  /** A new claim replaces the worker's last one, also when it returns nothing or fails. */
  function CrewAfter(crew: Crew, w: World, step: Step): Crew {
    match step
    case LedgerStep(ClaimCall(owner, now, lease)) =>
      Crew(Without(crew.claimed, owner) + Returned(w.ledger, owner, now, lease), Without(crew.told, owner))
    case DeliverStep(envelope, at) =>
      if Is2xx(Answer(w, envelope, at).1)
      then crew.(told := crew.told + (set pair | pair in crew.claimed && pair.0 == envelope.event.id))
      else crew
    case _ => crew
  }

  function CrewOf(steps: seq<Step>, more: seq<Step>): Crew
    decreases |more|
  {
    if more == [] then Crew({}, {}) else
    var before := more[..|more| - 1];
    CrewAfter(CrewOf(steps, before), RunWorld(steps + before), more[|more| - 1])
  }

  /** In whose name a step is taken. */
  function NameOf(step: Step): Option<string> {
    match step
    case LedgerStep(ClaimCall(owner, _, _)) => Some(owner)
    case LedgerStep(ReleaseCall(_, owner, _)) => Some(owner)
    case LedgerStep(FailCall(_, owner, _, _, _, _)) => Some(owner)
    case SettleStep(_, owner) => Some(owner)
    case _ => None
  }

  /** Crashed workers do nothing; the others acknowledge only what they claimed and were told is stored. */
  predicate MayTake(crashed: set<string>, w: World, crew: Crew, step: Step) {
    && Enabled(w, step)
    && (NameOf(step).Some? ==> NameOf(step).value !in crashed)
    && (step.SettleStep? ==> (step.id, step.owner) in crew.told)
  }

  /** The run may go on like this when all who hold a lease after its first part have crashed. */
  ghost predicate Allowed(steps: seq<Step>, more: seq<Step>)
    decreases |more|
  {
    more != [] ==>
      var before, last := more[..|more| - 1], more[|more| - 1];
      && Allowed(steps, before)
      && MayTake(Holders(RunWorld(steps)), RunWorld(steps + before), CrewOf(steps, before), last)
  }

  /** Only claims by one worker at one clock, deliveries, its acknowledgements, and requeues of dead letters. */
  predicate ByOne(owner: string, now: nat, step: Step) {
    match step
    case LedgerStep(ClaimCall(x, at, _)) => x == owner && at == now
    case LedgerStep(RequeueCall(_, _)) => true
    case LedgerStep(_) => false
    case DeliverStep(_, _) => true
    case SettleStep(_, x) => x == owner
  }

  ghost predicate Alone(owner: string, now: nat, more: seq<Step>) {
    forall step | step in more :: ByOne(owner, now, step)
  }

  /** A run of admissible deposits. */
  ghost predicate Fed(steps: seq<Step>) {
    Legal(steps) && forall step | step in steps :: AdmissibleStep(step)
  }

  /** The worker completes delivery alone, at one clock, with what the crashed ones left. */
  ghost predicate Recovers(steps: seq<Step>, owner: string, now: nat, more: seq<Step>) {
    Fed(steps + more) && Allowed(steps, more) && Alone(owner, now, more) && Complete(RunWorld(steps + more))
  }

  // ---------- what can be recovered ----------

  /**
   Not acknowledged by hand, and a dead letter or else due, free and countable: its next attempt
   and any lease are before the largest time SQLite can store, and one more attempt fits 32 bits.
   */
  predicate Open(d: Delivery) {
    && !d.acknowledged
    && (d.dead
        || (d.nextAttempt < I64_MAX && d.attempts + 1 < U32_LIMIT
            && (d.leaseUntil.None? || d.leaseUntil.value < I64_MAX)))
  }

  predicate SettledOr(w: World, i: nat, open: bool)
    requires i < |w.ledger.outbox|
  {
    w.ledger.outbox[i].event.key in w.settled || open
  }

  ghost predicate Recoverable(w: World) {
    forall i | 0 <= i < |w.ledger.outbox| :: SettledOr(w, i, Open(w.ledger.outbox[i].delivery))
  }

  /** Dead letters apart, no unsettled event waits or is leased beyond this clock. */
  predicate DueBy(d: Delivery, now: nat) {
    d.dead || (d.nextAttempt <= now && (d.leaseUntil.None? || d.leaseUntil.value <= now))
  }

  ghost predicate AllDue(w: World, now: nat) {
    forall i | 0 <= i < |w.ledger.outbox| :: SettledOr(w, i, DueBy(w.ledger.outbox[i].delivery, now))
  }

  // ---------- never again ----------

  /** Leased by a crashed worker to the largest time. */
  predicate HeldOn(crashed: set<string>, d: Delivery) {
    && !d.acknowledged && !d.dead
    && d.owner.Some? && d.owner.value in crashed
    && d.leaseUntil.Some? && d.leaseUntil.value >= I64_MAX
  }

  /** Its attempts are used up; who leased it since had a claim that failed. */
  predicate WornOut(crashed: set<string>, d: Delivery) {
    && !d.acknowledged && !d.dead && d.attempts + 1 >= U32_LIMIT
    && (d.owner.Some? && d.owner.value !in crashed ==> d.attempts >= U32_LIMIT)
  }

  ghost predicate NotClaimed(crew: Crew, id: int) {
    crew.told <= crew.claimed && forall pair | pair in crew.claimed :: pair.0 != id
  }

  ghost predicate Lost(crashed: set<string>, w: World, crew: Crew, i: nat) {
    && i < |w.ledger.outbox|
    && w.ledger.outbox[i].event.key !in w.settled
    && var d := w.ledger.outbox[i].delivery;
       Stuck(w, i) || HeldOn(crashed, d) || (WornOut(crashed, d) && NotClaimed(crew, i + 1))
  }

  lemma LostDeposit(crashed: set<string>, w: World, crew: Crew, call: Call, i: nat)
    requires Lost(crashed, w, crew, i) && !IsDelivery(call)
    ensures Lost(crashed, After(w, LedgerStep(call)), CrewAfter(crew, w, LedgerStep(call)), i)
  {
    DepositCallRows(w.ledger, call);
    assert Next(w.ledger, call).outbox[..|w.ledger.outbox|][i] == w.ledger.outbox[i];
  }

  lemma HeldStays(crashed: set<string>, w: World, call: Call, i: nat)
    requires i < |w.ledger.outbox| && HeldOn(crashed, w.ledger.outbox[i].delivery)
    requires IsDelivery(call) && Enabled(w, LedgerStep(call))
    requires NameOf(LedgerStep(call)).Some? ==> NameOf(LedgerStep(call)).value !in crashed
    ensures i < |Next(w.ledger, call).outbox| && Next(w.ledger, call).outbox[i] == w.ledger.outbox[i]
  {
    if call.ClaimCall? {
      FirstEligibleIsFirst(w.ledger.outbox, call.now, |w.ledger.outbox|);
    }
  }

  /** A claim that selects the worn event fails; any other claim leaves its row alone. */
  lemma WornClaim(crashed: set<string>, w: World, born: set<Outpoint>, crew: Crew, call: Call, i: nat)
    requires i < |w.ledger.outbox| && Safe(w.ledger, born) && call.ClaimCall?
    requires WornOut(crashed, w.ledger.outbox[i].delivery) && NotClaimed(crew, i + 1)
    ensures i < |Next(w.ledger, call).outbox| && WornOut(crashed, Next(w.ledger, call).outbox[i].delivery)
    ensures NotClaimed(CrewAfter(crew, w, LedgerStep(call)), i + 1)
  {
    WornRow(crashed, w.ledger, call, i);
    WornNotReturned(w.ledger, born, call, i);
  }

  lemma WornRow(crashed: set<string>, l: Ledger, call: Call, i: nat)
    requires i < |l.outbox| && WornOut(crashed, l.outbox[i].delivery) && call.ClaimCall?
    ensures i < |Next(l, call).outbox| && WornOut(crashed, Next(l, call).outbox[i].delivery)
  {
  }

  lemma WornNotReturned(l: Ledger, born: set<Outpoint>, call: Call, i: nat)
    requires i < |l.outbox| && Safe(l, born) && l.outbox[i].delivery.attempts + 1 >= U32_LIMIT && call.ClaimCall?
    ensures forall pair | pair in Returned(l, call.owner, call.now, call.lease) :: pair.0 != i + 1
  {
    var k := FirstEligible(l.outbox, call.now, |l.outbox|);
    if k.Some? {
      assert l.outbox[k.value].event.id == k.value + 1;
    }
  }

  /** Every other call leaves a worn event worn, or acknowledges it by hand. */
  lemma WornOther(crashed: set<string>, w: World, call: Call, i: nat)
    requires i < |w.ledger.outbox| && WornOut(crashed, w.ledger.outbox[i].delivery)
    requires IsDelivery(call) && !call.ClaimCall? && Enabled(w, LedgerStep(call))
    requires NameOf(LedgerStep(call)).Some? ==> NameOf(LedgerStep(call)).value !in crashed
    ensures i < |Next(w.ledger, call).outbox|
    ensures var d := Next(w.ledger, call).outbox[i].delivery; d.acknowledged || WornOut(crashed, d)
  {
  }

  lemma LostDelivery(crashed: set<string>, w: World, born: set<Outpoint>, crew: Crew, call: Call, i: nat)
    requires Lost(crashed, w, crew, i) && Safe(w.ledger, born) && IsDelivery(call)
    requires MayTake(crashed, w, crew, LedgerStep(call))
    ensures Lost(crashed, After(w, LedgerStep(call)), CrewAfter(crew, w, LedgerStep(call)), i)
  {
    DeliveryKeepsEvents(w.ledger, call);
    if Stuck(w, i) {
      StuckDelivery(w, call, i);
    } else if HeldOn(crashed, w.ledger.outbox[i].delivery) {
      HeldStays(crashed, w, call, i);
    } else if call.ClaimCall? {
      WornClaim(crashed, w, born, crew, call, i);
    } else {
      WornOther(crashed, w, call, i);
    }
  }

  lemma LostSettle(crashed: set<string>, w: World, born: set<Outpoint>, crew: Crew, id: int, owner: string, i: nat)
    requires Lost(crashed, w, crew, i) && Safe(w.ledger, born)
    requires MayTake(crashed, w, crew, SettleStep(id, owner))
    ensures Lost(crashed, After(w, SettleStep(id, owner)), CrewAfter(crew, w, SettleStep(id, owner)), i)
  {
    OtherKeys(w.ledger, i);
    if Stuck(w, i) {
      StuckSettle(w, born, i, id, owner);
    } else {
      assert !Owned(w.ledger, id, owner) || id != i + 1;
    }
  }

  lemma LostStep(crashed: set<string>, w: World, born: set<Outpoint>, crew: Crew, step: Step, i: nat)
    requires Lost(crashed, w, crew, i) && Safe(w.ledger, born) && MayTake(crashed, w, crew, step)
    ensures Lost(crashed, After(w, step), CrewAfter(crew, w, step), i)
  {
    match step
    case LedgerStep(call) =>
      if IsDelivery(call) {
        LostDelivery(crashed, w, born, crew, call, i);
      } else {
        LostDeposit(crashed, w, crew, call, i);
      }
    case DeliverStep(_, _) =>
    case SettleStep(id, owner) =>
      LostSettle(crashed, w, born, crew, id, owner, i);
  }

  // ---------- extending continuations ----------

  lemma AppendWorld(steps: seq<Step>, step: Step)
    ensures RunWorld(steps + [step]) == After(RunWorld(steps), step)
  {
    assert (steps + [step])[..|steps|] == steps;
  }

  lemma WorldNext(steps: seq<Step>, more: seq<Step>)
    requires more != []
    ensures var before, last := more[..|more| - 1], more[|more| - 1];
            && RunWorld(steps + more) == After(RunWorld(steps + before), last)
            && steps + more == steps + before + [last]
  {
    var before, last := more[..|more| - 1], more[|more| - 1];
    assert steps + more == steps + before + [last];
    AppendWorld(steps + before, last);
  }

  lemma {:induction false} AllowedLegal(steps: seq<Step>, more: seq<Step>)
    requires Legal(steps) && Allowed(steps, more)
    ensures Legal(steps + more)
    decreases |more|
  {
    if more == [] {
      assert steps + more == steps;
    } else {
      AllowedLegal(steps, more[..|more| - 1]);
      WorldNext(steps, more);
      LegalAppend(steps + more[..|more| - 1], more[|more| - 1]);
    }
  }

  lemma {:induction false} LostForEver(steps: seq<Step>, more: seq<Step>, i: nat)
    requires Legal(steps) && Allowed(steps, more)
    requires Lost(Holders(RunWorld(steps)), RunWorld(steps), Crew({}, {}), i)
    ensures Lost(Holders(RunWorld(steps)), RunWorld(steps + more), CrewOf(steps, more), i)
    decreases |more|
  {
    if more == [] {
      assert steps + more == steps;
    } else {
      var before := more[..|more| - 1];
      LostForEver(steps, before, i);
      AllowedLegal(steps, before);
      RunSound(steps + before);
      WorldNext(steps, more);
      LostStep(Holders(RunWorld(steps)), RunWorld(steps + before), WorldBorn(steps + before),
               CrewOf(steps, before), more[|more| - 1], i);
    }
  }

  lemma NotOpenIsLost(w: World, i: nat)
    requires Ripe(w) && i < |w.ledger.outbox| && !SettledOr(w, i, Open(w.ledger.outbox[i].delivery))
    ensures Lost(Holders(w), w, Crew({}, {}), i)
  {
    var d := w.ledger.outbox[i].delivery;
    assert RipeRow(w.ledger.outbox[i], w.settled);
    assert d.owner.Some? ==> d.owner.value in Holders(w);
  }

  /**
   When some unsettled event is not open, no continuation without the lease holders completes
   delivery, whoever else takes part and whatever further deposits come.
   */
  lemma NeverRecovered(steps: seq<Step>, more: seq<Step>)
    requires Legal(steps) && Allowed(steps, more) && !Recoverable(RunWorld(steps))
    ensures !Complete(RunWorld(steps + more))
  {
    var w := RunWorld(steps);
    RunRipe(steps);
    var i :| 0 <= i < |w.ledger.outbox| && !SettledOr(w, i, Open(w.ledger.outbox[i].delivery));
    NotOpenIsLost(w, i);
    LostForEver(steps, more, i);
    var w' := RunWorld(steps + more);
    assert w'.ledger.outbox[i].event.key in KeysOf(w'.ledger.outbox);
  }

  // ---------- one worker finishes ----------

  ghost predicate Course(steps: seq<Step>, owner: string, now: nat, more: seq<Step>) {
    Fed(steps + more) && Allowed(steps, more) && Alone(owner, now, more)
  }

  lemma FedNext(steps: seq<Step>, step: Step)
    requires Fed(steps) && Enabled(RunWorld(steps), step) && AdmissibleStep(step)
    ensures Fed(steps + [step]) && RunWorld(steps + [step]) == After(RunWorld(steps), step)
  {
    LegalAppend(steps, step);
  }

  lemma Extend(steps: seq<Step>, owner: string, now: nat, more: seq<Step>, step: Step)
    requires Course(steps, owner, now, more) && ByOne(owner, now, step)
    requires MayTake(Holders(RunWorld(steps)), RunWorld(steps + more), CrewOf(steps, more), step)
    ensures Course(steps, owner, now, more + [step])
    ensures RunWorld(steps + (more + [step])) == After(RunWorld(steps + more), step)
    ensures CrewOf(steps, more + [step]) == CrewAfter(CrewOf(steps, more), RunWorld(steps + more), step)
  {
    var all := more + [step];
    assert all[..|more|] == more && steps + all == steps + more + [step];
    FedNext(steps + more, step);
    AllowedNext(steps, more, step);
  }

  lemma AllowedNext(steps: seq<Step>, more: seq<Step>, step: Step)
    requires Allowed(steps, more)
    requires MayTake(Holders(RunWorld(steps)), RunWorld(steps + more), CrewOf(steps, more), step)
    ensures Allowed(steps, more + [step])
  {
    assert (more + [step])[..|more|] == more;
  }

  lemma FedWorld(steps: seq<Step>)
    requires Fed(steps)
    ensures var w := RunWorld(steps);
            Safe(w.ledger, WorldBorn(steps)) && Sound(w) && AdmissibleLedger(w.ledger) && Ripe(w)
  {
    RunSound(steps);
    RunAdmissible(steps);
    RunRipe(steps);
  }

  ghost function Unsettled(w: World): set<nat> {
    set i: nat | i < |w.ledger.outbox| && w.ledger.outbox[i].event.key !in w.settled
  }

  lemma NoneUnsettled(w: World)
    requires Unsettled(w) == {}
    ensures Complete(w)
  {
    forall key | key in KeysOf(w.ledger.outbox) ensures key in w.settled {
      var i: nat :| i < |w.ledger.outbox| && w.ledger.outbox[i].event.key == key;
      assert i !in Unsettled(w);
    }
  }

  /** A claim for one second leases and returns event k + 1. */
  predicate ClaimGives(l: Ledger, owner: string, now: u64, k: nat)
    requires k < |l.outbox| && now < I64_MAX
  {
    var d := l.outbox[k].delivery;
    && d.attempts + 1 < U32_LIMIT
    && Claim(l, owner, now, 1) == (WithDelivery(l, k + 1, Leased(d, owner, now + 1)),
                                   Ok(Some(Claimed(l.outbox[k].event, d.attempts + 1))))
  }

  /** The worker's claim returns some unsettled event. */
  lemma ClaimReturns(w: World, owner: string, now: u64, i: nat) returns (k: nat)
    requires Ripe(w) && Recoverable(w) && AllDue(w, now)
    requires ValidOwner(owner) && now < I64_MAX && i in Unsettled(w) && !w.ledger.outbox[i].delivery.dead
    ensures k in Unsettled(w)
    ensures var d := w.ledger.outbox[k].delivery;
            !d.acknowledged && ClaimGives(w.ledger, owner, now, k)
  {
    assert SettledOr(w, i, Open(w.ledger.outbox[i].delivery));
    assert SettledOr(w, i, DueBy(w.ledger.outbox[i].delivery, now));
    assert Eligible(w.ledger.outbox[i].delivery, now);
    FirstEligibleIsFirst(w.ledger.outbox, now, |w.ledger.outbox|);
    k := FirstEligible(w.ledger.outbox, now, |w.ledger.outbox|).value;
    assert RipeRow(w.ledger.outbox[k], w.settled);
    assert SettledOr(w, k, Open(w.ledger.outbox[k].delivery));
  }

  /** One more event settled, the other rows as they were. */
  ghost predicate SettlesOne(w: World, w': World, k: nat) {
    && k < |w.ledger.outbox| == |w'.ledger.outbox|
    && w'.ledger.outbox[k].event == w.ledger.outbox[k].event
    && (forall j | 0 <= j < |w.ledger.outbox| && j != k :: w'.ledger.outbox[j] == w.ledger.outbox[j])
    && w'.settled == w.settled + {w.ledger.outbox[k].event.key}
  }

  lemma OneLess(w: World, born: set<Outpoint>, w': World, k: nat, now: nat)
    requires Safe(w.ledger, born) && SettlesOne(w, w', k) && k in Unsettled(w)
    requires Recoverable(w) && AllDue(w, now)
    ensures Unsettled(w') == Unsettled(w) - {k} && Recoverable(w') && AllDue(w', now)
  {
    OtherKeys(w.ledger, k);
    forall j | 0 <= j < |w'.ledger.outbox|
      ensures SettledOr(w', j, Open(w'.ledger.outbox[j].delivery))
              && SettledOr(w', j, DueBy(w'.ledger.outbox[j].delivery, now))
    {
      if j != k {
        assert SettledOr(w, j, Open(w.ledger.outbox[j].delivery));
        assert SettledOr(w, j, DueBy(w.ledger.outbox[j].delivery, now));
      }
    }
  }

  /** Claim, delivery and acknowledgement of one event. */
  lemma Round(steps: seq<Step>, owner: string, now: u64, more: seq<Step>, i: nat) returns (all: seq<Step>)
    requires Course(steps, owner, now, more) && ValidOwner(owner) && owner !in Holders(RunWorld(steps))
    requires Recoverable(RunWorld(steps + more)) && AllDue(RunWorld(steps + more), now) && now < I64_MAX
    requires i in Unsettled(RunWorld(steps + more)) && !RunWorld(steps + more).ledger.outbox[i].delivery.dead
    ensures Course(steps, owner, now, all)
    ensures Recoverable(RunWorld(steps + all)) && AllDue(RunWorld(steps + all), now)
    ensures |Unsettled(RunWorld(steps + all))| < |Unsettled(RunWorld(steps + more))|
  {
    var w := RunWorld(steps + more);
    FedWorld(steps + more);
    var k := ClaimReturns(w, owner, now, i);
    IdOfRow(w.ledger, k);
    var leased;
    all, leased := SettleReturned(steps, owner, now, more, k);
    LeaseThenSettle(w, leased, RunWorld(steps + all), owner, now + 1, k);
    OneLess(w, WorldBorn(steps + more), RunWorld(steps + all), k, now);
  }

  lemma IdOfRow(l: Ledger, k: nat)
    requires WellFormedEvents(l.outbox) && k < |l.outbox|
    ensures l.outbox[k].event.id == k + 1
  {
  }

  lemma LeasedIsOwned(l: Ledger, owner: string, until: nat, k: nat)
    requires k < |l.outbox| && !l.outbox[k].delivery.acknowledged
    ensures Owned(WithDelivery(l, k + 1, Leased(l.outbox[k].delivery, owner, until)), k + 1, owner)
  {
  }

  predicate LeasedIn(w: World, w': World, owner: string, until: nat, id: nat) {
    && HasRow(w.ledger, id) && w'.settled == w.settled
    && w'.ledger == WithDelivery(w.ledger, id, Leased(RowAt(w.ledger, id).delivery, owner, until))
  }

  predicate SettledIn(w: World, w': World, id: nat) {
    && HasRow(w.ledger, id)
    && w'.ledger == WithDelivery(w.ledger, id, Settled(RowAt(w.ledger, id).delivery))
    && w'.settled == w.settled + {RowAt(w.ledger, id).event.key}
  }

  lemma LeaseThenSettle(w: World, w1: World, w': World, owner: string, until: nat, k: nat)
    requires LeasedIn(w, w1, owner, until, k + 1) && SettledIn(w1, w', k + 1)
    ensures SettlesOne(w, w', k)
  {
  }

  lemma SettleReturned(steps: seq<Step>, owner: string, now: u64, more: seq<Step>, k: nat)
    returns (all: seq<Step>, leased: World)
    requires Course(steps, owner, now, more) && ValidOwner(owner) && owner !in Holders(RunWorld(steps))
    requires now < I64_MAX && k < |RunWorld(steps + more).ledger.outbox|
    requires ClaimGives(RunWorld(steps + more).ledger, owner, now, k)
    requires !RunWorld(steps + more).ledger.outbox[k].delivery.acknowledged
    requires RunWorld(steps + more).ledger.outbox[k].event.id == k + 1
    ensures Course(steps, owner, now, all)
    ensures LeasedIn(RunWorld(steps + more), leased, owner, now + 1, k + 1)
    ensures SettledIn(leased, RunWorld(steps + all), k + 1)
  {
    var w := RunWorld(steps + more);
    var claimed := Posts(steps, owner, now, more, k);
    LeasedIsOwned(w.ledger, owner, now + 1, k);
    all := Acknowledges(steps, owner, now, claimed, EnvelopeOf(w.ledger.outbox[k].event), k + 1);
    leased := RunWorld(steps + claimed);
  }

  lemma Posts(steps: seq<Step>, owner: string, now: u64, more: seq<Step>, k: nat) returns (all: seq<Step>)
    requires Course(steps, owner, now, more) && owner !in Holders(RunWorld(steps))
    requires now < I64_MAX && k < |RunWorld(steps + more).ledger.outbox|
    requires ClaimGives(RunWorld(steps + more).ledger, owner, now, k)
    requires RunWorld(steps + more).ledger.outbox[k].event.id == k + 1
    ensures Course(steps, owner, now, all)
    ensures var w, w' := RunWorld(steps + more), RunWorld(steps + all);
            && LeasedIn(w, w', owner, now + 1, k + 1) && EnvelopeOf(w.ledger.outbox[k].event) in w'.posted
            && (k + 1, owner) in CrewOf(steps, all).claimed
  {
    var step := LedgerStep(ClaimCall(owner, now, 1));
    ClaimEffect(RunWorld(steps + more), CrewOf(steps, more), owner, now, k);
    Extend(steps, owner, now, more, step);
    all := more + [step];
  }

  lemma ClaimEffect(w: World, crew: Crew, owner: string, now: u64, k: nat)
    requires now < I64_MAX && k < |w.ledger.outbox| && ClaimGives(w.ledger, owner, now, k)
    requires w.ledger.outbox[k].event.id == k + 1
    ensures var step := LedgerStep(ClaimCall(owner, now, 1));
            && LeasedIn(w, After(w, step), owner, now + 1, k + 1)
            && EnvelopeOf(w.ledger.outbox[k].event) in After(w, step).posted
            && (k + 1, owner) in CrewAfter(crew, w, step).claimed
  {
  }

  lemma Acknowledges(steps: seq<Step>, owner: string, now: u64, more: seq<Step>, envelope: R.Envelope, id: nat)
    returns (all: seq<Step>)
    requires Course(steps, owner, now, more) && ValidOwner(owner) && owner !in Holders(RunWorld(steps))
    requires envelope in RunWorld(steps + more).posted && envelope.event.id == id
    requires (id, owner) in CrewOf(steps, more).claimed && Owned(RunWorld(steps + more).ledger, id, owner)
    ensures Course(steps, owner, now, all) && SettledIn(RunWorld(steps + more), RunWorld(steps + all), id)
  {
    var told := Answers(steps, owner, now, more, envelope, id);
    SettleEffect(RunWorld(steps + told), id, owner);
    Extend(steps, owner, now, told, SettleStep(id, owner));
    all := told + [SettleStep(id, owner)];
  }

  lemma SettleEffect(w: World, id: nat, owner: string)
    requires ValidOwner(owner) && Owned(w.ledger, id, owner)
    ensures SettledIn(w, After(w, SettleStep(id, owner)), id)
  {
  }

  lemma Answers(steps: seq<Step>, owner: string, now: u64, more: seq<Step>, envelope: R.Envelope, id: nat)
    returns (all: seq<Step>)
    requires Course(steps, owner, now, more) && envelope in RunWorld(steps + more).posted
    requires envelope.event.id == id && (id, owner) in CrewOf(steps, more).claimed
    ensures Course(steps, owner, now, all) && (id, owner) in CrewOf(steps, all).told
    ensures var w, w' := RunWorld(steps + more), RunWorld(steps + all);
            w'.ledger == w.ledger && w'.settled == w.settled && id in w'.answered
  {
    AlwaysAnswered(steps + more, envelope, 0);
    ToldEffect(RunWorld(steps + more), CrewOf(steps, more), envelope, owner);
    Extend(steps, owner, now, more, DeliverStep(envelope, 0));
    all := more + [DeliverStep(envelope, 0)];
  }

  lemma ToldEffect(w: World, crew: Crew, envelope: R.Envelope, owner: string)
    requires Is2xx(Answer(w, envelope, 0).1) && (envelope.event.id, owner) in crew.claimed
    ensures var w' := After(w, DeliverStep(envelope, 0));
            && w'.ledger == w.ledger && w'.settled == w.settled && envelope.event.id in w'.answered
            && (envelope.event.id, owner) in CrewAfter(crew, w, DeliverStep(envelope, 0)).told
  {
  }

  /** A dead letter starts over; nothing else changes. */
  lemma Revive(steps: seq<Step>, owner: string, now: u64, more: seq<Step>, i: nat) returns (all: seq<Step>)
    requires Course(steps, owner, now, more)
    requires Recoverable(RunWorld(steps + more)) && AllDue(RunWorld(steps + more), now)
    requires i in Unsettled(RunWorld(steps + more))
    ensures Course(steps, owner, now, all)
    ensures var w, w' := RunWorld(steps + more), RunWorld(steps + all);
            && Recoverable(w') && AllDue(w', now) && Unsettled(w') == Unsettled(w)
            && i in Unsettled(w') && !w'.ledger.outbox[i].delivery.dead
  {
    var w := RunWorld(steps + more);
    all := more;
    if w.ledger.outbox[i].delivery.dead {
      var step := LedgerStep(RequeueCall(i + 1, 0));
      Extend(steps, owner, now, more, step);
      RequeueKeeps(w, now, i);
      all := more + [step];
    }
  }

  lemma RequeueKeeps(w: World, now: nat, i: nat)
    requires Recoverable(w) && AllDue(w, now) && i in Unsettled(w) && w.ledger.outbox[i].delivery.dead
    ensures var w' := After(w, LedgerStep(RequeueCall(i + 1, 0)));
            && Recoverable(w') && AllDue(w', now) && Unsettled(w') == Unsettled(w)
            && !w'.ledger.outbox[i].delivery.dead
  {
    var w' := After(w, LedgerStep(RequeueCall(i + 1, 0)));
    assert SettledOr(w, i, Open(w.ledger.outbox[i].delivery));
    forall j | 0 <= j < |w'.ledger.outbox|
      ensures SettledOr(w', j, Open(w'.ledger.outbox[j].delivery))
              && SettledOr(w', j, DueBy(w'.ledger.outbox[j].delivery, now))
    {
      assert SettledOr(w, j, Open(w.ledger.outbox[j].delivery));
      assert SettledOr(w, j, DueBy(w.ledger.outbox[j].delivery, now));
    }
  }

  lemma {:induction false} FinishAll(steps: seq<Step>, owner: string, now: u64, more: seq<Step>)
    returns (all: seq<Step>)
    requires Course(steps, owner, now, more) && ValidOwner(owner) && owner !in Holders(RunWorld(steps))
    requires Recoverable(RunWorld(steps + more)) && AllDue(RunWorld(steps + more), now) && now < I64_MAX
    ensures Recovers(steps, owner, now, all)
    decreases |Unsettled(RunWorld(steps + more))|
  {
    var w := RunWorld(steps + more);
    if Unsettled(w) == {} {
      NoneUnsettled(w);
      all := more;
    } else {
      var i :| i in Unsettled(w);
      var alive := Revive(steps, owner, now, more, i);
      var next := Round(steps, owner, now, alive, i);
      all := FinishAll(steps, owner, now, next);
    }
  }

  /**
   A worker that holds no lease, at a clock that has reached every open event's next attempt
   and lease end, completes delivery alone: it claims, is answered and acknowledges, event by
   event, with a requeue for each dead letter.
   */
  lemma RecoversAt(steps: seq<Step>, owner: string, now: u64)
    requires Fed(steps) && ValidOwner(owner) && owner !in Holders(RunWorld(steps))
    requires Recoverable(RunWorld(steps)) && AllDue(RunWorld(steps), now) && now < I64_MAX
    ensures exists more :: Recovers(steps, owner, now, more)
  {
    assert steps + [] == steps;
    var all := FinishAll(steps, owner, now, []);
  }

  lemma AllDueAtTheEnd(w: World)
    requires Recoverable(w)
    ensures AllDue(w, I64_MAX - 1)
  {
    forall i | 0 <= i < |w.ledger.outbox|
      ensures SettledOr(w, i, DueBy(w.ledger.outbox[i].delivery, I64_MAX - 1))
    {
      assert SettledOr(w, i, Open(w.ledger.outbox[i].delivery));
    }
  }

  /**
   Of a run of admissible deposits, after which every lease holder crashes: another worker can
   complete delivery alone exactly when every event is settled or open.
   */
  lemma CompletableExactly(steps: seq<Step>, owner: string)
    requires Fed(steps) && ValidOwner(owner) && owner !in Holders(RunWorld(steps))
    ensures Recoverable(RunWorld(steps)) <==> exists now: nat, more :: Recovers(steps, owner, now, more)
  {
    if Recoverable(RunWorld(steps)) {
      AllDueAtTheEnd(RunWorld(steps));
      RecoversAt(steps, owner, I64_MAX - 1);
    } else {
      forall now: nat, more | Allowed(steps, more) ensures !Recovers(steps, owner, now, more) {
        NeverRecovered(steps, more);
      }
    }
  }

  // ---------- reachable examples ----------

  lemma ValidAddress(body: string) returns (address: string)
    requires body != [] && R.Address.OverCharset(body)
    ensures R.Address.IsValidTestnetAddress(address)
  {
    var sum := R.Address.ChecksumExists(body);
    address := R.Address.TestnetAddress(body + sum);
  }

  /** Some deposit passes the receiver's validation. */
  lemma AdmissibleDeposit() returns (op: Outpoint, facts: Facts)
    ensures Admissible(op, facts) && Fits(facts.amount) && Fits(facts.blockDaa)
  {
    var address := ValidAddress("q");
    op := Outpoint(seq(64, _ => '0'), 0);
    facts := Facts(address, 5, 1, false);
  }

  /** A run of one deposit to an address the receiver admits, confirmed. */
  lemma OneDepositFed() returns (steps: seq<Step>, e: Event)
    ensures Fed(steps) && RunWorld(steps).ledger.outbox == [Row(e, FRESH_DELIVERY)] && RunWorld(steps).settled == {}
  {
    var op, facts := AdmissibleDeposit();
    var call := ReconcileCall(100, [Appearance(op, facts, 100)], [Confirmation(op, facts, 99)], []);
    Reachable.OneDeposit(op, facts);
    e := Event(1, EventKey(Credit, op), Credit, op, facts.amount, facts.address);
    FedNext([], LedgerStep(call));
    steps := [] + [LedgerStep(call)];
  }

  lemma GoneLeases(l: Ledger, e: Event, at: u64)
    requires l.outbox == [Row(e, FRESH_DELIVERY)] && at < I64_MAX
    ensures Next(l, ClaimCall("gone", at, 1)).outbox == [Row(e, Leased(FRESH_DELIVERY, "gone", at + 1))]
  {
    assert Trim("gone") == "gone";
    FirstEligibleIsFirst(l.outbox, at, 1);
  }

  /** A run in which a worker leased the only event for one second and was not heard of again. */
  lemma LeftLeased(at: u64) returns (steps: seq<Step>, e: Event)
    requires at < I64_MAX
    ensures Fed(steps) && RunWorld(steps).settled == {}
    ensures RunWorld(steps).ledger.outbox == [Row(e, Leased(FRESH_DELIVERY, "gone", at + 1))]
  {
    steps, e := OneDepositFed();
    GoneLeases(RunWorld(steps).ledger, e, at);
    FedNext(steps, LedgerStep(ClaimCall("gone", at, 1)));
    steps := steps + [LedgerStep(ClaimCall("gone", at, 1))];
  }

  /** Leased to the largest time by a crashed worker, a due event can never be delivered. */
  lemma HeldForEver() returns (steps: seq<Step>)
    ensures Fed(steps) && Finishable(RunWorld(steps)) && !Recoverable(RunWorld(steps))
  {
    var e;
    steps, e := LeftLeased(I64_MAX - 1);
    assert !SettledOr(RunWorld(steps), 0, Open(RunWorld(steps).ledger.outbox[0].delivery));
  }

  lemma {:induction false} WorldGrows(steps: seq<Step>, more: seq<Step>)
    ensures |RunWorld(steps).ledger.outbox| <= |RunWorld(steps + more).ledger.outbox|
    decreases |more|
  {
    if more == [] {
      assert steps + more == steps;
    } else {
      var before := more[..|more| - 1];
      WorldGrows(steps, before);
      WorldNext(steps, more);
      StepGrows(RunWorld(steps + before), more[|more| - 1]);
    }
  }

  lemma StepGrows(w: World, step: Step)
    ensures |w.ledger.outbox| <= |After(w, step).ledger.outbox|
  {
    LedgerOfAfter(w, step);
    match CallOf(step)
    case Some(call) => NextAdvances(w.ledger, call);
    case None =>
  }

  /** A worker crashes with the lease of an event; when it has run out another delivers the event. */
  lemma SomethingDelivered() returns (steps: seq<Step>, more: seq<Step>)
    ensures Holders(RunWorld(steps)) == {"gone"} && RunWorld(steps).settled == {}
    ensures Recovers(steps, "w", 1, more) && RunWorld(steps + more).settled != {}
  {
    var e;
    steps, e := LeftLeased(0);
    var w := RunWorld(steps);
    assert w.ledger.outbox[0].delivery.owner == Some("gone");
    assert Trim("w") == "w";
    RecoversAt(steps, "w", 1);
    more :| Recovers(steps, "w", 1, more);
    WorldGrows(steps, more);
    var w' := RunWorld(steps + more);
    assert w'.ledger.outbox[0].event.key in KeysOf(w'.ledger.outbox);
  }

  lemma {:induction false} RetriedNames(n: nat)
    ensures forall call | call in Reachable.Retried(n) :: !call.AcknowledgeClaimCall?
  {
    if n > 0 {
      RetriedNames(n - 1);
    }
  }

  /** Nobody holds a lease, and yet the event, its attempts used up, can never be delivered. */
  lemma WornForEver(n: nat)
    requires n + 1 >= U32_LIMIT
    ensures var steps := AsSteps(Reachable.Retried(n));
            && Legal(steps) && Holders(RunWorld(steps)) == {}
            && Finishable(RunWorld(steps)) && !Recoverable(RunWorld(steps))
  {
    var steps := AsSteps(Reachable.Retried(n));
    RetriedNames(n);
    CallsLegal(Reachable.Retried(n));
    Reachable.RetriedLedger(n);
    assert !SettledOr(RunWorld(steps), 0, Open(RunWorld(steps).ledger.outbox[0].delivery));
  }
}
