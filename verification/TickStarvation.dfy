/**
  Repeated ticks at a fixed clock reading when some schedules have ended: `claimDueInstances` takes the oldest
  `batchSize` rows, so instances that stay due for ever can keep younger ones from being claimed at all.
 */
module TickStarvation {
  import opened Options
  import opened Tick
  import opened TickConcurrency
  import opened TickProgress
  import Selection

  /** The instances that stay due at or before `h` for ever, because their schedule has no next time there. */
  ghost function Blockers(cron: Cron, db: Db, h: Time): set<InstanceId> {
    set id | id in db.instances && IsDue(db.instances[id], h) && !Parses(cron, db.instances[id], h)
  }

  /** An instance is due by `h` although its schedule goes on past `h`. */
  ghost predicate HealthyDue(cron: Cron, db: Db, h: Time) {
    exists id | id in db.instances :: IsDue(db.instances[id], h) && Parses(cron, db.instances[id], h)
  }

  // ---------------------------------------------------------------- one instance

  lemma AdvancedParsesIff(cron: Cron, doc: Instance, h: Time)
    requires Advances(cron, doc)
    ensures Parses(cron, AdvancedRow(cron, doc), h) <==> Parses(cron, doc, h)
  {
    if Parses(cron, doc, h) {
      AdvancedParses(cron, doc, h);
    } else {
      var t0 := doc.nextFireAt.value;
      var i: nat :| var t := Nth(cron, doc.schedule, t0, i);
                    t.Some? && t.value <= h && cron(doc.schedule, t.value).None?;
      assert i > 0;
      NthShifts(cron, doc.schedule, t0, i - 1);
      assert Nth(cron, doc.schedule, cron(doc.schedule, t0).value, i - 1).Some?;
    }
  }

  /** A schedule that ends by `h` keeps its instance due by `h`. */
  lemma EndedIsDue(cron: Cron, doc: Instance, h: Time)
    requires StrictlyLater(cron) && doc.enabled && doc.state == Active && !Parses(cron, doc, h)
    ensures IsDue(doc, h)
  {
    var t0 := doc.nextFireAt.value;
    var i: nat :| var t := Nth(cron, doc.schedule, t0, i); t.Some? && t.value <= h && cron(doc.schedule, t.value).None?;
    var w := Watch(cron, "", doc.schedule, t0);
    assert w.At(i).Some?;
    if i > 0 { Later(w, 0, i); }
  }

  // ---------------------------------------------------------------- one tick

  /** What a tick does to one instance, as seen from `h`. */
  lemma TickSeenFrom(cron: Cron, db: Db, claimed: seq<InstanceId>, now: Time, batchSize: nat, h: Time, id: InstanceId)
    requires StrictlyLater(cron) && h <= now && id in db.instances
    requires Selection.Oldest(DueKeys(db, {}, now), batchSize, claimed)
    ensures forall c | c in claimed :: c in db.instances
    ensures var after := HandleAll(cron, db, claimed, Clean(|claimed|), now);
            && after.instances.Keys == db.instances.Keys
            && Lag(after, id, h) <= Lag(db, id, h)
            && (id in Blockers(cron, after, h) <==> id in Blockers(cron, db, h))
            && (IsDue(after.instances[id], h) ==> IsDue(db.instances[id], h))
            && (Parses(cron, after.instances[id], h) <==> Parses(cron, db.instances[id], h))
            && (id in claimed && IsDue(db.instances[id], h) && Parses(cron, db.instances[id], h) ==>
                  Lag(after, id, h) < Lag(db, id, h))
  {
    TickMoves(cron, db, claimed, now, batchSize, id);
    var doc := db.instances[id];
    if id in claimed && Advances(cron, doc) {
      AdvancedParsesIff(cron, doc, h);
      if !Parses(cron, doc, h) {
        EndedIsDue(cron, doc, h);
        EndedIsDue(cron, AdvancedRow(cron, doc), h);
      }
    } else if id in claimed && IsDue(doc, h) && Parses(cron, doc, h) {
      DueAdvances(cron, doc, h);
      assert false;
    }
  }

  lemma TickKeepsBlockers(cron: Cron, db: Db, claimed: seq<InstanceId>, now: Time, batchSize: nat, h: Time)
    requires StrictlyLater(cron) && h <= now && Selection.Oldest(DueKeys(db, {}, now), batchSize, claimed)
    ensures forall c | c in claimed :: c in db.instances
    ensures var after := HandleAll(cron, db, claimed, Clean(|claimed|), now);
            && after.instances.Keys == db.instances.Keys
            && Blockers(cron, after, h) == Blockers(cron, db, h) && Backlog(after, h) <= Backlog(db, h)
            && (HealthyDue(cron, after, h) ==> HealthyDue(cron, db, h))
  {
    forall c | c in claimed ensures c in db.instances { assert c in DueKeys(db, {}, now); }
    var after := HandleAll(cron, db, claimed, Clean(|claimed|), now);
    SameKeys(cron, db, claimed, now, batchSize);
    forall id | id in db.instances
      ensures Lag(after, id, h) <= Lag(db, id, h)
      ensures id in Blockers(cron, after, h) <==> id in Blockers(cron, db, h)
      ensures IsDue(after.instances[id], h) ==> IsDue(db.instances[id], h)
      ensures Parses(cron, after.instances[id], h) <==> Parses(cron, db.instances[id], h)
    {
      TickSeenFrom(cron, db, claimed, now, batchSize, h, id);
    }
    LagOverShrinks(db, after, db.instances.Keys, h);
  }

  lemma SameKeys(cron: Cron, db: Db, claimed: seq<InstanceId>, now: Time, batchSize: nat)
    requires Selection.Oldest(DueKeys(db, {}, now), batchSize, claimed)
    ensures forall c | c in claimed :: c in db.instances
    ensures HandleAll(cron, db, claimed, Clean(|claimed|), now).instances.Keys == db.instances.Keys
  {
    forall c | c in claimed ensures c in db.instances { assert c in DueKeys(db, {}, now); }
    SavepointAtomicity(cron, db, claimed, Clean(|claimed|), now);
  }

  /** With room for one more than the blockers, a tick claims somebody it can help. */
  lemma SomeoneIsHelped(cron: Cron, db: Db, claimed: seq<InstanceId>, now: Time, batchSize: nat, h: Time)
    returns (id: InstanceId)
    requires h <= now && Selection.Oldest(DueKeys(db, {}, now), batchSize, claimed)
    requires |Blockers(cron, db, h)| < batchSize && HealthyDue(cron, db, h)
    ensures id in claimed && id in db.instances && IsDue(db.instances[id], h) && Parses(cron, db.instances[id], h)
  {
    var keys := DueKeys(db, {}, now);
    var x :| x in db.instances && IsDue(db.instances[x], h) && Parses(cron, db.instances[x], h);
    assert x in keys;
    if x in claimed {
      id := x;
    } else {
      if |claimed| < batchSize { Selection.ShortAnswerIsComplete(keys, batchSize, claimed); }
      assert |claimed| == batchSize;
      if forall c | c in claimed :: c in Blockers(cron, db, h) {
        Selection.DistinctSize(claimed, Blockers(cron, db, h));
        assert false;
      }
      id :| id in claimed && id !in Blockers(cron, db, h);
      assert id in keys && keys[id] <= keys[x];
    }
  }

  lemma TickHelps(cron: Cron, db: Db, claimed: seq<InstanceId>, now: Time, batchSize: nat, h: Time)
    requires StrictlyLater(cron) && h <= now && Selection.Oldest(DueKeys(db, {}, now), batchSize, claimed)
    requires |Blockers(cron, db, h)| < batchSize && HealthyDue(cron, db, h)
    ensures forall c | c in claimed :: c in db.instances
    ensures Backlog(HandleAll(cron, db, claimed, Clean(|claimed|), now), h) < Backlog(db, h)
  {
    SameKeys(cron, db, claimed, now, batchSize);
    var after := HandleAll(cron, db, claimed, Clean(|claimed|), now);
    var helped := SomeoneIsHelped(cron, db, claimed, now, batchSize, h);
    forall id | id in db.instances
      ensures Lag(after, id, h) <= Lag(db, id, h)
      ensures id == helped ==> Lag(after, id, h) < Lag(db, id, h)
    {
      TickSeenFrom(cron, db, claimed, now, batchSize, h, id);
    }
    LagOverShrinks(db, after, db.instances.Keys, h);
  }

  // ---------------------------------------------------------------- enough room: everybody else catches up

  lemma {:induction false} BlockersStay(cron: Cron, dbs: seq<Db>, claims: seq<seq<InstanceId>>, now: Time,
                                        batchSize: nat, h: Time, i: nat, n: nat)
    requires StrictlyLater(cron) && h <= now && Ticks(cron, dbs, claims, now, batchSize) && i <= n < |dbs|
    ensures Blockers(cron, dbs[n], h) == Blockers(cron, dbs[i], h)
    ensures HealthyDue(cron, dbs[n], h) ==> HealthyDue(cron, dbs[i], h)
    ensures dbs[n].instances.Keys == dbs[i].instances.Keys
  {
    if i < n {
      BlockersStay(cron, dbs, claims, now, batchSize, h, i, n - 1);
      TickKeepsBlockers(cron, dbs[n - 1], claims[n - 1], now, batchSize, h);
    }
  }

  lemma {:induction false} BacklogShrinks(cron: Cron, dbs: seq<Db>, claims: seq<seq<InstanceId>>, now: Time,
                                          batchSize: nat, h: Time, n: nat)
    requires StrictlyLater(cron) && h <= now && Ticks(cron, dbs, claims, now, batchSize) && n < |dbs|
    requires |Blockers(cron, dbs[0], h)| < batchSize && HealthyDue(cron, dbs[n], h)
    ensures Backlog(dbs[n], h) + n <= Backlog(dbs[0], h)
  {
    if n > 0 {
      BlockersStay(cron, dbs, claims, now, batchSize, h, 0, n - 1);
      BlockersStay(cron, dbs, claims, now, batchSize, h, n - 1, n);
      BacklogShrinks(cron, dbs, claims, now, batchSize, h, n - 1);
      TickHelps(cron, dbs[n - 1], claims[n - 1], now, batchSize, h);
    }
  }

  /**
    With fewer blockers than the batch size, every other instance gets past `h`, and the backlog up to `h` bounds the
    number of ticks it takes. With `h` the clock reading, every instance whose schedule goes on catches up.
   */
  lemma OthersCatchUp(cron: Cron, dbs: seq<Db>, claims: seq<seq<InstanceId>>, now: Time, batchSize: nat, h: Time,
                      id: InstanceId)
    requires StrictlyLater(cron) && h <= now && Ticks(cron, dbs, claims, now, batchSize)
    requires |Blockers(cron, dbs[0], h)| < batchSize && |claims| >= Backlog(dbs[0], h)
    requires id in dbs[0].instances && id !in Blockers(cron, dbs[0], h)
    ensures id in dbs[|claims|].instances && !IsDue(dbs[|claims|].instances[id], h)
  {
    var n := |claims|;
    BlockersStay(cron, dbs, claims, now, batchSize, h, 0, n);
    if IsDue(dbs[n].instances[id], h) {
      assert id !in Blockers(cron, dbs[n], h);
      assert HealthyDue(cron, dbs[n], h);
      BacklogShrinks(cron, dbs, claims, now, batchSize, h, n);
      LagCounts(dbs[n], dbs[n].instances.Keys, h, id);
    }
  }

  // ---------------------------------------------------------------- too little room: the younger ones starve

  /** The oldest `batchSize` rows do not reach an instance with that many due ones before it. */
  lemma NotReached(cron: Cron, db: Db, claimed: seq<InstanceId>, now: Time, batchSize: nat, id: InstanceId)
    requires Selection.Oldest(DueKeys(db, {}, now), batchSize, claimed) && id in db.instances
    requires IsDue(db.instances[id], now)
    requires |Blockers(cron, db, db.instances[id].nextFireAt.value - 1)| >= batchSize
    ensures id !in claimed
  {
    var before := Blockers(cron, db, db.instances[id].nextFireAt.value - 1);
    assert forall b | b in before :: b in DueKeys(db, {}, now);
    if id in claimed {
      var taken := set c | c in claimed;
      Selection.SetNoLarger(claimed);
      Selection.SubsetSize(before + {id}, taken);
    }
  }

  /** The instance watched by `w` stands at its j-th fire time, enabled and active. */
  ghost predicate At(w: Watch, db: Db, j: nat) {
    && w.id in db.instances && db.instances[w.id].schedule == w.schedule
    && db.instances[w.id].enabled && db.instances[w.id].state == Active
    && w.At(j).Some? && db.instances[w.id].nextFireAt == w.At(j)
  }

  /** A tick moves the instance to its next fire time, if it claims it and there is one, and else leaves it there. */
  lemma TickMovesWatched(db: Db, claimed: seq<InstanceId>, now: Time, batchSize: nat, w: Watch, p: nat)
    requires Selection.Oldest(DueKeys(db, {}, now), batchSize, claimed) && At(w, db, p)
    ensures forall c | c in claimed :: c in db.instances
    ensures var after := HandleAll(w.cron, db, claimed, Clean(|claimed|), now);
            At(w, after, p) || (w.id in claimed && At(w, after, p + 1))
  {
    TickMoves(w.cron, db, claimed, now, batchSize, w.id);
    assert w.At(p + 1) == w.cron(w.schedule, w.At(p).value);
  }

  /**
    An instance with a due fire time before which `batchSize` others have ended is never advanced past it: it stays
    due in every state, however many ticks come.
   */
  lemma {:induction false} Starves(dbs: seq<Db>, claims: seq<seq<InstanceId>>, now: Time, batchSize: nat, w: Watch,
                                   m: nat, n: nat)
    returns (j: nat)
    requires StrictlyLater(w.cron) && Ticks(w.cron, dbs, claims, now, batchSize) && n < |dbs|
    requires At(w, dbs[0], 0) && w.At(m).Some? && w.At(m).value <= now
    requires |Blockers(w.cron, dbs[0], w.At(m).value - 1)| >= batchSize
    ensures j <= m && At(w, dbs[n], j) && IsDue(dbs[n].instances[w.id], now)
  {
    if n == 0 {
      j := 0;
    } else {
      var p := Starves(dbs, claims, now, batchSize, w, m, n - 1);
      TickMovesWatched(dbs[n - 1], claims[n - 1], now, batchSize, w, p);
      if p == m {
        BlockersStay(w.cron, dbs, claims, now, batchSize, w.At(m).value - 1, 0, n - 1);
        NotReached(w.cron, dbs[n - 1], claims[n - 1], now, batchSize, w.id);
      }
      if At(w, dbs[n], p) { j := p; } else { j := p + 1; }
    }
    DueUpTo(w, dbs[n], j, m, now);
  }

  lemma DueUpTo(w: Watch, db: Db, j: nat, m: nat, now: Time)
    requires StrictlyLater(w.cron) && At(w, db, j) && j <= m && w.At(m).Some? && w.At(m).value <= now
    ensures IsDue(db.instances[w.id], now)
  {
    if j < m { Later(w, j, m); }
  }

  lemma {:induction false} Follows(dbs: seq<Db>, claims: seq<seq<InstanceId>>, now: Time, batchSize: nat, w: Watch,
                                   n: nat)
    returns (j: nat)
    requires Ticks(w.cron, dbs, claims, now, batchSize) && n < |dbs| && At(w, dbs[0], 0)
    ensures At(w, dbs[n], j)
  {
    if n == 0 {
      j := 0;
    } else {
      var p := Follows(dbs, claims, now, batchSize, w, n - 1);
      TickMovesWatched(dbs[n - 1], claims[n - 1], now, batchSize, w, p);
      if At(w, dbs[n], p) { j := p; } else { j := p + 1; }
    }
  }

  /**
    Whether an instance catches up, exactly: let its last due fire time be the m-th, and let no other instance end at
    that very time. After as many ticks as the backlog up to that time, it is no longer due if and only if fewer than
    `batchSize` instances have ended before that time.
   */
  lemma CatchesUpUnlessStarved(dbs: seq<Db>, claims: seq<seq<InstanceId>>, now: Time, batchSize: nat, w: Watch, m: nat)
    requires StrictlyLater(w.cron) && Ticks(w.cron, dbs, claims, now, batchSize) && At(w, dbs[0], 0)
    requires w.At(m + 1).Some? && w.At(m).value <= now < w.At(m + 1).value
    requires Blockers(w.cron, dbs[0], w.At(m).value) == Blockers(w.cron, dbs[0], w.At(m).value - 1)
    requires |claims| >= Backlog(dbs[0], w.At(m).value)
    ensures w.id in dbs[|claims|].instances
    ensures !IsDue(dbs[|claims|].instances[w.id], now) <==>
              |Blockers(w.cron, dbs[0], w.At(m).value - 1)| < batchSize
  {
    var n, last := |claims|, w.At(m).value;
    if |Blockers(w.cron, dbs[0], last - 1)| >= batchSize {
      var _ := Starves(dbs, claims, now, batchSize, w, m, n);
    } else {
      GoesOnPast(w, dbs[0], m);
      OthersCatchUp(w.cron, dbs, claims, now, batchSize, last, w.id);
      var j := Follows(dbs, claims, now, batchSize, w, n);
      if j < m { Later(w, j, m); }
      if m + 1 < j { Later(w, m + 1, j); }
    }
  }

  /** A schedule with a fire time after `At(m)` does not end at or before it. */
  lemma GoesOnPast(w: Watch, db: Db, m: nat)
    requires StrictlyLater(w.cron) && At(w, db, 0) && w.At(m + 1).Some?
    ensures w.id !in Blockers(w.cron, db, w.At(m).value)
  {
    var doc, last := db.instances[w.id], w.At(m).value;
    forall i: nat | Nth(w.cron, doc.schedule, w.t0, i).Some? && Nth(w.cron, doc.schedule, w.t0, i).value <= last
      ensures w.cron(doc.schedule, Nth(w.cron, doc.schedule, w.t0, i).value).Some?
    {
      assert w.At(i) == Nth(w.cron, doc.schedule, w.t0, i);
      if i > m { Later(w, m, i); } else if i < m { Later(w, i + 1, m + 1); }
      assert i <= m && w.At(i + 1).Some?;
    }
  }

  // ---------------------------------------------------------------- an ended schedule in front of a healthy one

  function EndsOrTicks(schedule: Schedule, t: Time): Option<Time> { if schedule == "ends" then None else Some(t + 1) }

  /** With a batch of one, an ended instance due at 0 keeps another one, due at 1, from ever being run. */
  lemma StarvationExample(n: nat) returns (dbs: seq<Db>, claims: seq<seq<InstanceId>>)
    ensures StrictlyLater(EndsOrTicks) && Ticks(EndsOrTicks, dbs, claims, 1, 1) && |claims| == n
    ensures forall k | 0 <= k <= n :: "b" in dbs[k].instances && dbs[k].instances["b"].nextFireAt == Some(1)
  {
    var a, b := Instance(true, Active, "ends", Some(0), None, ""), Instance(true, Active, "ticks", Some(1), None, "");
    var db := Db(map["a" := a, "b" := b], map[]);
    dbs, claims := TicksGoOn(EndsOrTicks, db, 1, 1, n);
    assert Nth(EndsOrTicks, "ends", 0, 0) == Some(0);
    assert "a" in Blockers(EndsOrTicks, db, 0);
    Selection.SubsetSize({"a"}, Blockers(EndsOrTicks, db, 0));
    var w := Watch(EndsOrTicks, "b", "ticks", 1);
    assert w.At(0) == Some(1);
    forall k | 0 <= k <= n ensures "b" in dbs[k].instances && dbs[k].instances["b"].nextFireAt == Some(1) {
      var j := Starves(dbs, claims, 1, 1, w, 0, k);
    }
  }
}
