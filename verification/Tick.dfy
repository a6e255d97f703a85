/** One scheduler tick: a transaction over the due instances, with a savepoint around each of them. */
module Tick {
  import opened Options
  import Selection

  type Time = int
  type InstanceId = string
  type Schedule = string

  /** The first fire time after the argument, or nothing when the expression does not parse. */
  type Cron = (Schedule, Time) -> Option<Time>

  ghost predicate StrictlyLater(cron: Cron) {
    forall s, t :: cron(s, t).Some? ==> cron(s, t).value > t
  }

  datatype InstanceState = Active | Paused | Deleted

  datatype Instance = Instance(enabled: bool, state: InstanceState, schedule: Schedule,
                               nextFireAt: Option<Time>, lastFireAt: Option<Time>, parameters: string)

  /** The identity of a scheduled run; `RunIds` proves that the source's run ids are one-to-one with these. */
  datatype Fire = Fire(instance: InstanceId, at: Time)

  datatype Run = Run(parameters: string, createdAt: Time)

  datatype Db = Db(instances: map<InstanceId, Instance>, runs: map<Fire, Run>)

  datatype Summary = Summary(checked: nat, createdRuns: nat, duplicates: nat, advanced: nat, failed: nat)

  /** Where the handling of one instance breaks, if it does. An unparsable schedule breaks it before all of these. */
  datatype Fault = NoFault | AtSnapshot | AtInsert | AtAdvance | AtRelease

  predicate IsDue(inst: Instance, now: Time) {
    inst.enabled && inst.state == Active && inst.nextFireAt.Some? && inst.nextFireAt.value <= now
  }

  /** The sort keys of `claimDueInstances`, which skips locked rows. */
  ghost function DueKeys(db: Db, locked: set<InstanceId>, now: Time): map<InstanceId, int> {
    map id | id in db.instances && id !in locked && IsDue(db.instances[id], now) :: db.instances[id].nextFireAt.value
  }

  /** The cron step of one instance succeeds. */
  predicate Advances(cron: Cron, inst: Instance) {
    inst.nextFireAt.Some? && cron(inst.schedule, inst.nextFireAt.value).Some?
  }

  function AdvancedRow(cron: Cron, inst: Instance): Instance
    requires Advances(cron, inst)
  {
    inst.(lastFireAt := inst.nextFireAt, nextFireAt := cron(inst.schedule, inst.nextFireAt.value))
  }

  function FireOf(id: InstanceId, inst: Instance): Fire
    requires inst.nextFireAt.Some?
  {
    Fire(id, inst.nextFireAt.value)
  }

  /** `createRunTx`: an existing run wins. */
  function InsertRun(runs: map<Fire, Run>, f: Fire, run: Run): map<Fire, Run> {
    if f in runs then runs else runs[f := run]
  }

  /** The savepoint of one instance: its effect on the database, all or nothing. */
  function Handle(cron: Cron, db: Db, id: InstanceId, inst: Instance, fault: Fault, now: Time): Db {
    if Advances(cron, inst) && fault == NoFault
    then Db(db.instances[id := AdvancedRow(cron, inst)],
            InsertRun(db.runs, FireOf(id, inst), Run(inst.parameters, now)))
    else db
  }

  /** Its effect on the counters, which a rollback to the savepoint does not undo. */
  function Tally(cron: Cron, sum: Summary, db: Db, id: InstanceId, inst: Instance, fault: Fault): Summary {
    if !Advances(cron, inst) || fault == AtSnapshot || fault == AtInsert then sum.(failed := sum.failed + 1)
    else
      var counted := if FireOf(id, inst) in db.runs then sum.(duplicates := sum.duplicates + 1)
                     else sum.(createdRuns := sum.createdRuns + 1);
      if fault == AtAdvance then counted.(failed := counted.failed + 1)
      else if fault == AtRelease then counted.(advanced := counted.advanced + 1, failed := counted.failed + 1)
      else counted.(advanced := counted.advanced + 1)
  }

  /** The loop of the tick over the claimed instances, whose documents were read by the claim. */
  function HandleAll(cron: Cron, db: Db, claimed: seq<InstanceId>, faults: seq<Fault>, now: Time): Db
    requires |claimed| == |faults| && forall id | id in claimed :: id in db.instances
  {
    if claimed == [] then db
    else
      var n := |claimed| - 1;
      Handle(cron, HandleAll(cron, db, claimed[..n], faults[..n], now),
             claimed[n], db.instances[claimed[n]], faults[n], now)
  }

  function TallyAll(cron: Cron, db: Db, claimed: seq<InstanceId>, faults: seq<Fault>, now: Time): Summary
    requires |claimed| == |faults| && forall id | id in claimed :: id in db.instances
  {
    if claimed == [] then Summary(0, 0, 0, 0, 0)
    else
      var n := |claimed| - 1;
      Tally(cron, TallyAll(cron, db, claimed[..n], faults[..n], now),
            HandleAll(cron, db, claimed[..n], faults[..n], now), claimed[n], db.instances[claimed[n]], faults[n])
  }

  // ---------------------------------------------------------------- savepoint atomicity

  predicate Took(cron: Cron, inst: Instance, fault: Fault) { Advances(cron, inst) && fault == NoFault }

  /** The runs of one instance. */
  ghost function RunsOf(db: Db, id: InstanceId): map<Fire, Run> {
    map f | f in db.runs && f.instance == id :: db.runs[f]
  }

  /**
    `id` is fully advanced with its run present: its two cursor columns moved on, every other column is as it was, and
    an older run under the same key was left alone.
   */
  ghost predicate FullyAdvanced(cron: Cron, before: Db, after: Db, id: InstanceId, now: Time)
    requires id in before.instances
  {
    var inst := before.instances[id];
    && inst.nextFireAt.Some? && cron(inst.schedule, inst.nextFireAt.value).Some?
    && id in after.instances
    && after.instances[id] == inst.(lastFireAt := inst.nextFireAt,
                                    nextFireAt := cron(inst.schedule, inst.nextFireAt.value))
    && var fire, had := Fire(id, inst.nextFireAt.value), RunsOf(before, id);
       RunsOf(after, id) == if fire in had then had else had[fire := Run(inst.parameters, now)]
  }

  ghost predicate Untouched(before: Db, after: Db, id: InstanceId)
    requires id in before.instances
  {
    id in after.instances && after.instances[id] == before.instances[id] && RunsOf(after, id) == RunsOf(before, id)
  }

  /** After commit each claimed instance is fully advanced or exactly as before, whatever the others did. */
  lemma {:induction false} SavepointAtomicity(cron: Cron, db: Db, claimed: seq<InstanceId>, faults: seq<Fault>,
                                              now: Time)
    requires |claimed| == |faults| && Selection.Distinct(claimed) && forall id | id in claimed :: id in db.instances
    ensures var after := HandleAll(cron, db, claimed, faults, now);
            && after.instances.Keys == db.instances.Keys
            && (forall i | 0 <= i < |claimed| ::
                  if Took(cron, db.instances[claimed[i]], faults[i])
                  then FullyAdvanced(cron, db, after, claimed[i], now)
                  else Untouched(db, after, claimed[i]))
            && (forall id | id in db.instances && id !in claimed :: Untouched(db, after, id))
  {
    if claimed != [] {
      var n := |claimed| - 1;
      var init, last := claimed[..n], claimed[n];
      SavepointAtomicity(cron, db, init, faults[..n], now);
      var mid, after := HandleAll(cron, db, init, faults[..n], now), HandleAll(cron, db, claimed, faults, now);
      assert last !in init;
      HandleIsLocal(cron, mid, last, db.instances[last], faults[n], now);
      forall i | 0 <= i < n
        ensures if Took(cron, db.instances[claimed[i]], faults[i]) then FullyAdvanced(cron, db, after, claimed[i], now)
                else Untouched(db, after, claimed[i])
      {
        assert claimed[i] == init[i] && claimed[i] != last;
      }
    }
  }

  /** The savepoint of one instance touches no other instance's row or runs. */
  lemma HandleIsLocal(cron: Cron, db: Db, id: InstanceId, inst: Instance, fault: Fault, now: Time)
    requires id in db.instances
    ensures var after := Handle(cron, db, id, inst, fault, now);
            && after.instances.Keys == db.instances.Keys
            && (forall other | other in db.instances && other != id :: Untouched(db, after, other))
            && RunsOf(after, id) == (if Took(cron, inst, fault)
                                     then InsertRun(RunsOf(db, id), FireOf(id, inst), Run(inst.parameters, now))
                                     else RunsOf(db, id))
  {
    var after := Handle(cron, db, id, inst, fault, now);
    forall other | other in db.instances && other != id ensures Untouched(db, after, other) {
      assert RunsOf(after, other) == RunsOf(db, other);
    }
  }

  /** How many of the faults hit after the counters were already advanced. */
  function LateFaults(cron: Cron, db: Db, claimed: seq<InstanceId>, faults: seq<Fault>): nat
    requires |claimed| == |faults| && forall id | id in claimed :: id in db.instances
  {
    if claimed == [] then 0
    else
      var n := |claimed| - 1;
      LateFaults(cron, db, claimed[..n], faults[..n])
      + if Advances(cron, db.instances[claimed[n]]) && faults[n] == AtRelease then 1 else 0
  }

  /** The counters: an instance is counted twice exactly when its RELEASE fails. */
  lemma {:induction false} SummaryAddsUp(cron: Cron, db: Db, claimed: seq<InstanceId>, faults: seq<Fault>, now: Time)
    requires |claimed| == |faults| && forall id | id in claimed :: id in db.instances
    ensures var sum := TallyAll(cron, db, claimed, faults, now);
            && sum.advanced + sum.failed == |claimed| + LateFaults(cron, db, claimed, faults)
            && (sum.advanced + sum.failed == |claimed| <==> LateFaults(cron, db, claimed, faults) == 0)
            && sum.advanced <= sum.createdRuns + sum.duplicates <= |claimed|
  {
    if claimed != [] {
      var n := |claimed| - 1;
      SummaryAddsUp(cron, db, claimed[..n], faults[..n], now);
    }
  }

  // ---------------------------------------------------------------- what each counter counts

  datatype Outcome = NewRun | OldRun | Moved | Refused | Kept

  /** What the handling of one instance comes to, read off the instance, the fault and the runs before the tick. */
  predicate Is(outcome: Outcome, cron: Cron, db: Db, id: InstanceId, fault: Fault)
    requires id in db.instances
  {
    var inst := db.instances[id];
    var fires := inst.nextFireAt.Some? && cron(inst.schedule, inst.nextFireAt.value).Some?;
    var inserts := fires && fault != AtSnapshot && fault != AtInsert;
    match outcome
    case NewRun => inserts && Fire(id, inst.nextFireAt.value) !in db.runs
    case OldRun => inserts && Fire(id, inst.nextFireAt.value) in db.runs
    case Moved => fires && (fault == NoFault || fault == AtRelease)
    case Refused => !fires || fault != NoFault
    case Kept => fires && fault == NoFault && Fire(id, inst.nextFireAt.value) !in db.runs
  }

  function HowMany(outcome: Outcome, cron: Cron, db: Db, claimed: seq<InstanceId>, faults: seq<Fault>): nat
    requires |claimed| == |faults| && forall id | id in claimed :: id in db.instances
  {
    if claimed == [] then 0
    else
      var n := |claimed| - 1;
      HowMany(outcome, cron, db, claimed[..n], faults[..n])
      + if Is(outcome, cron, db, claimed[n], faults[n]) then 1 else 0
  }

  /** Other instances of the tick do not change whether this one's run is there already. */
  lemma SameFire(cron: Cron, db: Db, claimed: seq<InstanceId>, faults: seq<Fault>, now: Time, id: InstanceId, at: Time)
    requires |claimed| == |faults| && Selection.Distinct(claimed) && forall id | id in claimed :: id in db.instances
    requires id in db.instances && id !in claimed
    ensures Fire(id, at) in HandleAll(cron, db, claimed, faults, now).runs <==> Fire(id, at) in db.runs
  {
    SavepointAtomicity(cron, db, claimed, faults, now);
    var after := HandleAll(cron, db, claimed, faults, now);
    assert Fire(id, at) in RunsOf(after, id) <==> Fire(id, at) in RunsOf(db, id);
  }

  lemma TallyIs(cron: Cron, sum: Summary, mid: Db, db: Db, id: InstanceId, fault: Fault)
    requires id in db.instances
    requires db.instances[id].nextFireAt.Some? ==>
               var f := Fire(id, db.instances[id].nextFireAt.value); f in mid.runs <==> f in db.runs
    ensures var t := Tally(cron, sum, mid, id, db.instances[id], fault);
            && t.createdRuns == sum.createdRuns + (if Is(NewRun, cron, db, id, fault) then 1 else 0)
            && t.duplicates == sum.duplicates + (if Is(OldRun, cron, db, id, fault) then 1 else 0)
            && t.advanced == sum.advanced + (if Is(Moved, cron, db, id, fault) then 1 else 0)
            && t.failed == sum.failed + (if Is(Refused, cron, db, id, fault) then 1 else 0)
  {
  }

  lemma SameFireFor(cron: Cron, db: Db, claimed: seq<InstanceId>, faults: seq<Fault>, now: Time, n: nat)
    requires n < |claimed| == |faults| && Selection.Distinct(claimed) && forall id | id in claimed :: id in db.instances
    ensures var inst := db.instances[claimed[n]];
            inst.nextFireAt.Some? ==>
              var f := Fire(claimed[n], inst.nextFireAt.value);
              f in HandleAll(cron, db, claimed[..n], faults[..n], now).runs <==> f in db.runs
  {
    var inst := db.instances[claimed[n]];
    if inst.nextFireAt.Some? {
      SameFire(cron, db, claimed[..n], faults[..n], now, claimed[n], inst.nextFireAt.value);
    }
  }

  /** Each counter of the summary counts what its name says. */
  lemma {:induction false} CountersCount(cron: Cron, db: Db, claimed: seq<InstanceId>, faults: seq<Fault>, now: Time)
    requires |claimed| == |faults| && Selection.Distinct(claimed) && forall id | id in claimed :: id in db.instances
    ensures var sum := TallyAll(cron, db, claimed, faults, now);
            && sum.createdRuns == HowMany(NewRun, cron, db, claimed, faults)
            && sum.duplicates == HowMany(OldRun, cron, db, claimed, faults)
            && sum.advanced == HowMany(Moved, cron, db, claimed, faults)
            && sum.failed == HowMany(Refused, cron, db, claimed, faults)
  {
    if claimed != [] {
      var n := |claimed| - 1;
      CountersCount(cron, db, claimed[..n], faults[..n], now);
      SameFireFor(cron, db, claimed, faults, now, n);
      TallyIs(cron, TallyAll(cron, db, claimed[..n], faults[..n], now),
              HandleAll(cron, db, claimed[..n], faults[..n], now), db, claimed[n], faults[n]);
    }
  }

  /** The tick adds as many runs as instances got through with a fire time not run before. */
  lemma {:induction false} RunsAdded(cron: Cron, db: Db, claimed: seq<InstanceId>, faults: seq<Fault>, now: Time)
    requires |claimed| == |faults| && Selection.Distinct(claimed) && forall id | id in claimed :: id in db.instances
    ensures |HandleAll(cron, db, claimed, faults, now).runs| == |db.runs| + HowMany(Kept, cron, db, claimed, faults)
  {
    if claimed != [] {
      var n := |claimed| - 1;
      RunsAdded(cron, db, claimed[..n], faults[..n], now);
      SameFireFor(cron, db, claimed, faults, now, n);
    }
  }

  /** The double count is real: one instance whose RELEASE fails counts as advanced and as failed. */
  lemma FailedReleaseExample(cron: Cron, id: InstanceId, inst: Instance, now: Time)
    requires Advances(cron, inst)
    ensures var sum := TallyAll(cron, Db(map[id := inst], map[]), [id], [AtRelease], now);
            sum.advanced == 1 && sum.failed == 1 && sum.createdRuns == 1
    ensures HandleAll(cron, Db(map[id := inst], map[]), [id], [AtRelease], now) == Db(map[id := inst], map[])
  {
    OneMore(cron, Db(map[id := inst], map[]), [id], [AtRelease], now, 0);
    assert [id][..1] == [id] && [AtRelease][..1] == [AtRelease] && [id][..0] == [] && [AtRelease][..0] == [];
  }

  /** The loop over one more instance. */
  lemma OneMore(cron: Cron, db: Db, claimed: seq<InstanceId>, faults: seq<Fault>, now: Time, n: nat)
    requires n < |claimed| == |faults| && forall id | id in claimed :: id in db.instances
    ensures var mid, id := HandleAll(cron, db, claimed[..n], faults[..n], now), claimed[n];
            && HandleAll(cron, db, claimed[..n + 1], faults[..n + 1], now) ==
                 Handle(cron, mid, id, db.instances[id], faults[n], now)
            && TallyAll(cron, db, claimed[..n + 1], faults[..n + 1], now) ==
                 Tally(cron, TallyAll(cron, db, claimed[..n], faults[..n], now), mid, id, db.instances[id], faults[n])
  {
    assert claimed[..n + 1][..n] == claimed[..n] && faults[..n + 1][..n] == faults[..n];
  }

  // ---------------------------------------------------------------- the service

  class Scheduler {
    var instances: map<InstanceId, Instance>
    var runs: map<Fire, Run>

    ghost function View(): Db
      reads this
    {
      Db(instances, runs)
    }

    constructor (db: Db)
      ensures View() == db
    {
      instances, runs := db.instances, db.runs;
    }

    /** The loop body: everything between SAVEPOINT and RELEASE or ROLLBACK TO for one instance. */
    method Savepoint(cron: Cron, sum: Summary, id: InstanceId, inst: Instance, fault: Fault, now: Time)
      returns (next: Summary)
      modifies this
      ensures View() == Handle(cron, old(View()), id, inst, fault, now)
      ensures id in old(instances) && inst == old(instances)[id] ==>
                if Took(cron, inst, fault) then FullyAdvanced(cron, old(View()), View(), id, now)
                else Untouched(old(View()), View(), id)
      ensures next == Tally(cron, sum, old(View()), id, inst, fault)
    {
      if id in instances { HandleIsLocal(cron, View(), id, inst, fault, now); }
      var savepoint := (instances, runs);
      if !Advances(cron, inst) || fault == AtSnapshot || fault == AtInsert {
        return sum.(failed := sum.failed + 1);
      }
      var fire := FireOf(id, inst);
      if fire in runs {
        next := sum.(duplicates := sum.duplicates + 1);
      } else {
        runs := runs[fire := Run(inst.parameters, now)];
        next := sum.(createdRuns := sum.createdRuns + 1);
      }
      if fault == AtAdvance {
        instances, runs := savepoint.0, savepoint.1;
        return next.(failed := next.failed + 1);
      }
      instances := instances[id := AdvancedRow(cron, inst)];
      next := next.(advanced := next.advanced + 1);
      if fault == AtRelease {
        instances, runs := savepoint.0, savepoint.1;
        next := next.(failed := next.failed + 1);
      }
    }

    /**
      `tick` from the answer of its claim to COMMIT or ROLLBACK. `faults` says where each instance breaks and
      `commits` whether the transaction itself survives.
     */
    method Tick(cron: Cron, now: Time, batchSize: nat, locked: set<InstanceId>, claimed: seq<InstanceId>,
                faults: seq<Fault>, commits: bool)
      returns (reply: Result<Summary, string>)
      requires Selection.Oldest(DueKeys(View(), locked, now), batchSize, claimed) && |faults| == |claimed|
      modifies this
      ensures forall id | id in claimed :: id in old(instances)
      ensures commits ==> View() == HandleAll(cron, old(View()), claimed, faults, now)
      ensures commits ==>
                forall i | 0 <= i < |claimed| ::
                  if Took(cron, old(instances)[claimed[i]], faults[i])
                  then FullyAdvanced(cron, old(View()), View(), claimed[i], now)
                  else Untouched(old(View()), View(), claimed[i])
      ensures commits ==> reply == Ok(TallyAll(cron, old(View()), claimed, faults, now).(checked := |claimed|))
      ensures !commits ==> View() == old(View()) && reply.Err?
    {
      ghost var before := View();
      assert forall id | id in claimed :: id in DueKeys(before, locked, now);
      var documents := instances;
      var begin := (instances, runs);
      var sum := Summary(0, 0, 0, 0, 0);
      for n := 0 to |claimed|
        invariant View() == HandleAll(cron, before, claimed[..n], faults[..n], now)
        invariant sum == TallyAll(cron, before, claimed[..n], faults[..n], now)
      {
        sum := Savepoint(cron, sum, claimed[n], documents[claimed[n]], faults[n], now);
        OneMore(cron, before, claimed, faults, now, n);
      }
      assert claimed[..|claimed|] == claimed && faults[..|claimed|] == faults;
      SavepointAtomicity(cron, before, claimed, faults, now);
      if !commits {
        instances, runs := begin.0, begin.1;
        return Err("tick rolled back");
      }
      return Ok(sum.(checked := |claimed|));
    }
  }
}
