/** Repeated ticks at a fixed clock reading: when they catch up, and how soon. */
module TickProgress {
  import opened Options
  import opened Tick
  import opened TickConcurrency
  import Selection

  ghost predicate NothingDue(db: Db, now: Time) {
    forall id | id in db.instances :: !IsDue(db.instances[id], now)
  }

  function Clean(n: nat): seq<Fault> { seq(n, _ => NoFault) }

  /** `claims[i]` is what the i-th tick claimed; no tick meets a fault other than an unparsable schedule. */
  ghost predicate Ticks(cron: Cron, dbs: seq<Db>, claims: seq<seq<InstanceId>>, now: Time, batchSize: nat) {
    && |dbs| == |claims| + 1
    && forall i {:trigger claims[i]} | 0 <= i < |claims| ::
         && Selection.Oldest(DueKeys(dbs[i], {}, now), batchSize, claims[i])
         && dbs[i + 1] == HandleAll(cron, dbs[i], claims[i], Clean(|claims[i]|), now)
  }

  // ---------------------------------------------------------------- the measure

  /** How far an instance is behind the clock. */
  ghost function Lag(db: Db, id: InstanceId, now: Time): nat {
    if id in db.instances && IsDue(db.instances[id], now) then now - db.instances[id].nextFireAt.value + 1 else 0
  }

  ghost function LagOver(db: Db, ids: set<InstanceId>, now: Time): nat {
    if ids == {} then 0 else var id :| id in ids; Lag(db, id, now) + LagOver(db, ids - {id}, now)
  }

  ghost function Backlog(db: Db, now: Time): nat { LagOver(db, db.instances.Keys, now) }

  lemma {:induction false} LagOverShrinks(db: Db, db': Db, ids: set<InstanceId>, now: Time)
    requires forall id | id in ids :: Lag(db', id, now) <= Lag(db, id, now)
    ensures LagOver(db', ids, now) <= LagOver(db, ids, now)
    ensures (exists id | id in ids :: Lag(db', id, now) < Lag(db, id, now)) ==>
              LagOver(db', ids, now) < LagOver(db, ids, now)
    decreases ids
  {
    if ids != {} {
      var id :| id in ids && LagOver(db, ids, now) == Lag(db, id, now) + LagOver(db, ids - {id}, now)
                && LagOver(db', ids, now) == Lag(db', id, now) + LagOver(db', ids - {id}, now);
      LagOverShrinks(db, db', ids - {id}, now);
      if other :| other in ids && Lag(db', other, now) < Lag(db, other, now) {
        if other != id { assert other in ids - {id}; }
      }
    }
  }

  lemma {:induction false} LagCounts(db: Db, ids: set<InstanceId>, now: Time, id: InstanceId)
    requires id in ids
    ensures Lag(db, id, now) <= LagOver(db, ids, now)
    decreases ids
  {
    var first :| first in ids && LagOver(db, ids, now) == Lag(db, first, now) + LagOver(db, ids - {first}, now);
    var lag: nat, rest: nat := Lag(db, first, now), LagOver(db, ids - {first}, now);
    assert LagOver(db, ids, now) == lag + rest;
    if id != first { LagCounts(db, ids - {first}, now, id); }
  }

  // ---------------------------------------------------------------- schedules that parse

  /** From its cursor on, the schedule never fails before it has passed the clock. */
  ghost predicate Parses(cron: Cron, doc: Instance, now: Time) {
    doc.nextFireAt.Some? ==>
      forall i: nat ::
        && Nth(cron, doc.schedule, doc.nextFireAt.value, i).Some?
        && Nth(cron, doc.schedule, doc.nextFireAt.value, i).value <= now
        ==> cron(doc.schedule, Nth(cron, doc.schedule, doc.nextFireAt.value, i).value).Some?
  }

  ghost predicate AllParse(cron: Cron, db: Db, now: Time) {
    forall id | id in db.instances && IsDue(db.instances[id], now) :: Parses(cron, db.instances[id], now)
  }

  lemma {:induction false} NthShifts(cron: Cron, schedule: Schedule, t0: Time, i: nat)
    requires cron(schedule, t0).Some?
    ensures Nth(cron, schedule, cron(schedule, t0).value, i) == Nth(cron, schedule, t0, i + 1)
  {
    if i > 0 { NthShifts(cron, schedule, t0, i - 1); }
  }

  lemma AdvancedParses(cron: Cron, doc: Instance, now: Time)
    requires Advances(cron, doc) && Parses(cron, doc, now)
    ensures Parses(cron, AdvancedRow(cron, doc), now)
  {
    var t0 := doc.nextFireAt.value;
    forall i: nat
      ensures var t := Nth(cron, doc.schedule, cron(doc.schedule, t0).value, i);
              t.Some? && t.value <= now ==> cron(doc.schedule, t.value).Some?
    {
      NthShifts(cron, doc.schedule, t0, i);
      assert i + 1 >= 0;
    }
  }

  lemma DueAdvances(cron: Cron, doc: Instance, now: Time)
    requires IsDue(doc, now) && Parses(cron, doc, now)
    ensures Advances(cron, doc)
  {
    assert Nth(cron, doc.schedule, doc.nextFireAt.value, 0) == doc.nextFireAt;
  }

  // ---------------------------------------------------------------- one tick

  /** What a fault-free tick does to one instance. */
  lemma TickMoves(cron: Cron, db: Db, claimed: seq<InstanceId>, now: Time, batchSize: nat, id: InstanceId)
    requires Selection.Oldest(DueKeys(db, {}, now), batchSize, claimed) && id in db.instances
    ensures forall c | c in claimed :: c in db.instances
    ensures var after := HandleAll(cron, db, claimed, Clean(|claimed|), now);
            && after.instances.Keys == db.instances.Keys
            && after.instances[id] == if id in claimed && Advances(cron, db.instances[id])
                                      then AdvancedRow(cron, db.instances[id]) else db.instances[id]
    ensures id in claimed ==> IsDue(db.instances[id], now)
  {
    forall c | c in claimed ensures c in db.instances && IsDue(db.instances[c], now) {
      assert c in DueKeys(db, {}, now);
    }
    SavepointAtomicity(cron, db, claimed, Clean(|claimed|), now);
    if id in claimed {
      var i :| 0 <= i < |claimed| && claimed[i] == id;
      assert Clean(|claimed|)[i] == NoFault;
    }
  }

  lemma TickShrinksBacklog(cron: Cron, db: Db, claimed: seq<InstanceId>, now: Time, batchSize: nat)
    requires StrictlyLater(cron) && AllParse(cron, db, now) && batchSize > 0 && !NothingDue(db, now)
    requires Selection.Oldest(DueKeys(db, {}, now), batchSize, claimed)
    ensures forall c | c in claimed :: c in db.instances
    ensures var after := HandleAll(cron, db, claimed, Clean(|claimed|), now);
            AllParse(cron, after, now) && Backlog(after, now) < Backlog(db, now)
  {
    var due :| due in db.instances && IsDue(db.instances[due], now);
    assert due in DueKeys(db, {}, now).Keys;
    assert |claimed| > 0;
    var first := claimed[0];
    TickMoves(cron, db, claimed, now, batchSize, due);
    var after := HandleAll(cron, db, claimed, Clean(|claimed|), now);
    forall id | id in db.instances
      ensures id in after.instances
      ensures IsDue(after.instances[id], now) ==> Parses(cron, after.instances[id], now)
      ensures Lag(after, id, now) <= Lag(db, id, now)
      ensures id in claimed ==> Lag(after, id, now) < Lag(db, id, now)
    {
      TickMoves(cron, db, claimed, now, batchSize, id);
      if id in claimed {
        DueAdvances(cron, db.instances[id], now);
        AdvancedParses(cron, db.instances[id], now);
      }
    }
    assert first in claimed;
    LagOverShrinks(db, after, db.instances.Keys, now);
  }

  // ---------------------------------------------------------------- whole sequences of ticks

  lemma {:induction false} CatchesUp(cron: Cron, dbs: seq<Db>, claims: seq<seq<InstanceId>>, now: Time, batchSize: nat,
                                     n: nat)
    requires StrictlyLater(cron) && batchSize > 0 && Ticks(cron, dbs, claims, now, batchSize)
    requires AllParse(cron, dbs[0], now) && n < |dbs| && forall i | 0 <= i < n :: !NothingDue(dbs[i], now)
    ensures AllParse(cron, dbs[n], now) && Backlog(dbs[n], now) + n <= Backlog(dbs[0], now)
  {
    if n > 0 {
      CatchesUp(cron, dbs, claims, now, batchSize, n - 1);
      TickShrinksBacklog(cron, dbs[n - 1], claims[n - 1], now, batchSize);
    }
  }

  /** An instance whose schedule fails at a fire time that is due stays due for ever. */
  lemma {:induction false} StuckStaysDue(cron: Cron, dbs: seq<Db>, claims: seq<seq<InstanceId>>, now: Time,
                                         batchSize: nat, n: nat, w: Watch, m: nat)
    returns (j: nat)
    requires StrictlyLater(cron) && Ticks(cron, dbs, claims, now, batchSize) && n < |dbs| && w.cron == cron
    requires w.id in dbs[0].instances && IsDue(dbs[0].instances[w.id], now)
    requires dbs[0].instances[w.id].schedule == w.schedule && dbs[0].instances[w.id].nextFireAt == Some(w.t0)
    requires w.At(m).Some? && w.At(m).value <= now && cron(w.schedule, w.At(m).value).None?
    ensures w.id in dbs[n].instances && dbs[n].instances[w.id].schedule == w.schedule
    ensures j <= m && w.At(j).Some? && dbs[n].instances[w.id].nextFireAt == w.At(j)
    ensures IsDue(dbs[n].instances[w.id], now)
  {
    if n == 0 {
      j := 0;
    } else {
      var p := StuckStaysDue(cron, dbs, claims, now, batchSize, n - 1, w, m);
      var before := dbs[n - 1];
      assert w.At(p + 1) == cron(w.schedule, w.At(p).value);
      TickMoves(cron, before, claims[n - 1], now, batchSize, w.id);
      j := if w.id in claims[n - 1] && Advances(cron, before.instances[w.id]) then p + 1 else p;
      if j < m { Later(w, j, m); }
    }
  }

  /**
    A sequence of at least as many ticks as the backlog reaches a state with nothing due exactly when every due schedule
    parses up to the clock; the backlog, the summed distance of the cursors to the clock, bounds the wait.
   */
  lemma CatchesUpIff(cron: Cron, dbs: seq<Db>, claims: seq<seq<InstanceId>>, now: Time, batchSize: nat)
    requires StrictlyLater(cron) && batchSize > 0 && Ticks(cron, dbs, claims, now, batchSize)
    requires |claims| >= Backlog(dbs[0], now)
    ensures (exists n | 0 <= n < |dbs| :: NothingDue(dbs[n], now)) <==> AllParse(cron, dbs[0], now)
  {
    if AllParse(cron, dbs[0], now) {
      var n := Backlog(dbs[0], now);
      if forall i | 0 <= i < n :: !NothingDue(dbs[i], now) {
        CatchesUp(cron, dbs, claims, now, batchSize, n);
        forall id | id in dbs[n].instances ensures !IsDue(dbs[n].instances[id], now) {
          LagCounts(dbs[n], dbs[n].instances.Keys, now, id);
        }
        assert NothingDue(dbs[n], now);
      }
    } else {
      var id :| id in dbs[0].instances && IsDue(dbs[0].instances[id], now) && !Parses(cron, dbs[0].instances[id], now);
      var doc := dbs[0].instances[id];
      var w := Watch(cron, id, doc.schedule, doc.nextFireAt.value);
      var m: nat :| var t := Nth(cron, doc.schedule, doc.nextFireAt.value, m);
                    t.Some? && t.value <= now && cron(doc.schedule, t.value).None?;
      assert w.At(m).Some?;
      forall n | 0 <= n < |dbs| ensures !NothingDue(dbs[n], now) {
        var _ := StuckStaysDue(cron, dbs, claims, now, batchSize, n, w, m);
      }
    }
  }

  // ---------------------------------------------------------------- a schedule that ends

  /** Ticks never get stuck themselves: any number of them can follow. */
  lemma {:induction false} TicksGoOn(cron: Cron, db: Db, now: Time, batchSize: nat, n: nat)
    returns (dbs: seq<Db>, claims: seq<seq<InstanceId>>)
    ensures Ticks(cron, dbs, claims, now, batchSize) && |claims| == n && dbs[0] == db
  {
    if n == 0 {
      dbs, claims := [db], [];
    } else {
      dbs, claims := TicksGoOn(cron, db, now, batchSize, n - 1);
      var last := dbs[n - 1];
      var claimed := Selection.OldestExists(DueKeys(last, {}, now), batchSize);
      forall c | c in claimed ensures c in last.instances { assert c in DueKeys(last, {}, now); }
      var before := dbs;
      dbs := before + [HandleAll(cron, last, claimed, Clean(|claimed|), now)];
      claims := claims + [claimed];
      forall i {:trigger claims[i]} | 0 <= i < n
        ensures Selection.Oldest(DueKeys(dbs[i], {}, now), batchSize, claims[i])
        ensures dbs[i + 1] == HandleAll(cron, dbs[i], claims[i], Clean(|claims[i]|), now)
      {
        assert dbs[i] == before[i] && (i < n - 1 ==> dbs[i + 1] == before[i + 1]);
      }
    }
  }

  /** A schedule with a last fire time at 1. */
  function EndsAtOne(schedule: Schedule, t: Time): Option<Time> { if t < 1 then Some(1) else None }

  /** Such an instance is advanced once and then stays due, however many ticks follow. */
  lemma EndedScheduleExample(n: nat) returns (dbs: seq<Db>, claims: seq<seq<InstanceId>>)
    ensures StrictlyLater(EndsAtOne) && Ticks(EndsAtOne, dbs, claims, 1, 1) && |claims| >= n
    ensures forall m | 0 <= m < |dbs| :: !NothingDue(dbs[m], 1)
  {
    var doc := Instance(true, Active, "once more", Some(0), None, "");
    var db := Db(map["i" := doc], map[]);
    dbs, claims := TicksGoOn(EndsAtOne, db, 1, 1, n + Backlog(db, 1));
    assert Nth(EndsAtOne, doc.schedule, 0, 1) == Some(1);
    assert IsDue(dbs[0].instances["i"], 1) && !Parses(EndsAtOne, doc, 1);
    CatchesUpIff(EndsAtOne, dbs, claims, 1, 1);
  }
}
