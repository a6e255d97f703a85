/**
  Any number of ticks, interleaved with instance patches that read a whole document, wait and write it back.
  A tick's row locks make a write to a claimed instance wait; the read before it does not wait.
 */
module TickConcurrency {
  import opened Options
  import opened Tick
  import Selection

  type TxId = nat
  type Req = nat

  /** An open tick: the documents it locked and read, and what it wrote so far, invisible until COMMIT. */
  datatype Tx = Tx(now: Time, locked: map<InstanceId, Instance>, staged: map<InstanceId, Instance>,
                   inserted: map<Fire, Run>)

  /** The whole document a patch or delete is about to write back. */
  datatype Patch = Patch(id: InstanceId, doc: Instance)

  /** The fields of a patch body that are present. */
  datatype Change = Change(enabled: Option<bool>, schedule: Option<Schedule>, parameters: Option<string>) {
    /** `patchInstance` recomputes `nextFireAt` from the clock only for these. */
    predicate Recomputes() { schedule.Some? || enabled == Some(true) }
  }

  datatype Sys = Sys(db: Db, txs: map<TxId, Tx>, patches: map<Req, Patch>)

  datatype Label =
    | TickBegin(tx: TxId, now: Time, batchSize: nat, claimed: seq<InstanceId>)
    | TickOne(tx: TxId, id: InstanceId, fault: Fault)
    | TickCommit(tx: TxId)
    | TickRollback(tx: TxId)
    | CreateInstance(id: InstanceId, doc: Instance)
    | PatchRead(req: Req, id: InstanceId, change: Change, fromClock: Time)
    | DeleteRead(req: Req, id: InstanceId)
    | WriteBack(req: Req)

  ghost predicate Locked(s: Sys, id: InstanceId) {
    exists tx | tx in s.txs :: id in s.txs[tx].locked
  }

  ghost function LockedIds(s: Sys): set<InstanceId> {
    set tx, id | tx in s.txs && id in s.txs[tx].locked :: id
  }

  function Or<T>(field: Option<T>, existing: T): T { if field.Some? then field.value else existing }

  function Patched(doc: Instance, change: Change, fromClock: Time): Instance {
    var enabled := Or(change.enabled, doc.enabled);
    doc.(enabled := enabled, schedule := Or(change.schedule, doc.schedule),
         parameters := Or(change.parameters, doc.parameters),
         nextFireAt := if change.Recomputes() then Some(fromClock) else doc.nextFireAt,
         state := if enabled then Active else Paused)
  }

  ghost predicate Enabled(s: Sys, l: Label) {
    match l
    case TickBegin(tx, now, batchSize, claimed) =>
      tx !in s.txs && Selection.Oldest(DueKeys(s.db, LockedIds(s), now), batchSize, claimed)
    case TickOne(tx, id, _) => tx in s.txs && id in s.txs[tx].locked && id !in s.txs[tx].staged
    case TickCommit(tx) => tx in s.txs
    case TickRollback(tx) => tx in s.txs
    case CreateInstance(id, _) => !Locked(s, id)
    case PatchRead(req, id, _, _) => req !in s.patches && id in s.db.instances
    case DeleteRead(req, id) => req !in s.patches && id in s.db.instances
    case WriteBack(req) => req in s.patches && !Locked(s, s.patches[req].id)
  }

  /** One savepoint of an open tick, on what it read when it claimed the instance. */
  function HandleOne(cron: Cron, tx: Tx, id: InstanceId, fault: Fault): Tx
    requires id in tx.locked
  {
    var inst := tx.locked[id];
    if Took(cron, inst, fault)
    then tx.(staged := tx.staged[id := AdvancedRow(cron, inst)],
             inserted := InsertRun(tx.inserted, FireOf(id, inst), Run(inst.parameters, tx.now)))
    else tx
  }

  function Apply(cron: Cron, s: Sys, l: Label): Sys
    requires l.TickBegin? ==> forall id | id in l.claimed :: id in s.db.instances
    requires l.TickOne? ==> l.tx in s.txs && l.id in s.txs[l.tx].locked
    requires l.TickCommit? ==> l.tx in s.txs
    requires l.PatchRead? || l.DeleteRead? ==> l.id in s.db.instances
    requires l.WriteBack? ==> l.req in s.patches
  {
    match l
    case TickBegin(tx, now, _, claimed) =>
      s.(txs := s.txs[tx := Tx(now, map id | id in claimed :: s.db.instances[id], map[], map[])])
    case TickOne(tx, id, fault) => s.(txs := s.txs[tx := HandleOne(cron, s.txs[tx], id, fault)])
    case TickCommit(tx) =>
      s.(db := Db(s.db.instances + s.txs[tx].staged, s.txs[tx].inserted + s.db.runs), txs := s.txs - {tx})
    case TickRollback(tx) => s.(txs := s.txs - {tx})
    case CreateInstance(id, doc) =>
      if id in s.db.instances && s.db.instances[id].state != Deleted then s
      else s.(db := s.db.(instances := s.db.instances[id := doc]))
    case PatchRead(req, id, change, fromClock) =>
      s.(patches := s.patches[req := Patch(id, Patched(s.db.instances[id], change, fromClock))])
    case DeleteRead(req, id) =>
      s.(patches := s.patches[req := Patch(id, s.db.instances[id].(enabled := false, state := Deleted))])
    case WriteBack(req) =>
      s.(db := s.db.(instances := if s.patches[req].id in s.db.instances
                                  then s.db.instances[s.patches[req].id := s.patches[req].doc] else s.db.instances),
         patches := s.patches - {req})
  }

  ghost predicate Step(cron: Cron, s: Sys, l: Label, s': Sys) {
    Enabled(s, l) && s' == Apply(cron, s, l)
  }

  // ---------------------------------------------------------------- locks

  /** An open tick still sees the committed rows it locked, and staged exactly the instances it advanced. */
  ghost predicate TxSound(cron: Cron, s: Sys, tx: Tx) {
    && (forall id | id in tx.locked ::
          id in s.db.instances && s.db.instances[id] == tx.locked[id] && IsDue(tx.locked[id], tx.now))
    && (forall id | id in tx.staged ::
          && id in tx.locked && Advances(cron, tx.locked[id])
          && tx.staged[id] == AdvancedRow(cron, tx.locked[id])
          && FireOf(id, tx.locked[id]) in tx.inserted)
    && (forall f | f in tx.inserted ::
          && f.instance in tx.staged && f.instance in tx.locked && Some(f.at) == tx.locked[f.instance].nextFireAt
          && tx.inserted[f] == Run(tx.locked[f.instance].parameters, tx.now))
  }

  ghost predicate LocksSound(cron: Cron, s: Sys) {
    && (forall tx | tx in s.txs :: TxSound(cron, s, s.txs[tx]))
    && (forall tx, ty | tx in s.txs && ty in s.txs && tx != ty :: s.txs[tx].locked.Keys !! s.txs[ty].locked.Keys)
  }

  lemma LockedRowStays(cron: Cron, s: Sys, l: Label, s': Sys, tx: TxId, id: InstanceId)
    requires LocksSound(cron, s) && Step(cron, s, l, s')
    requires tx in s.txs && id in s.txs[tx].locked && l != TickCommit(tx)
    ensures id in s.db.instances && id in s'.db.instances && s'.db.instances[id] == s.db.instances[id]
  {
    assert TxSound(cron, s, s.txs[tx]);
    assert Locked(s, id);
    if l.TickCommit? {
      assert TxSound(cron, s, s.txs[l.tx]);
      assert s.txs[tx].locked.Keys !! s.txs[l.tx].locked.Keys;
    }
  }

  lemma BegunIsSound(cron: Cron, s: Sys, l: Label, s': Sys)
    requires l.TickBegin? && Step(cron, s, l, s')
    ensures TxSound(cron, s', s'.txs[l.tx])
  {
    forall id | id in l.claimed ensures id in s.db.instances && IsDue(s.db.instances[id], l.now) {
      assert id in DueKeys(s.db, LockedIds(s), l.now);
    }
  }

  /** One more savepoint keeps what was staged and inserted in agreement. */
  lemma HandledIsSound(cron: Cron, s: Sys, t: Tx, id: InstanceId, fault: Fault)
    requires TxSound(cron, s, t) && id in t.locked && id !in t.staged
    ensures TxSound(cron, s, HandleOne(cron, t, id, fault))
  {
  }

  /** Soundness looks only at the rows a tick has locked. */
  lemma SoundWhereLocked(cron: Cron, s: Sys, s': Sys, t: Tx)
    requires TxSound(cron, s, t)
    requires forall id | id in t.locked :: id in s'.db.instances && s'.db.instances[id] == s.db.instances[id]
    ensures TxSound(cron, s', t)
  {
  }

  lemma TxStaysSound(cron: Cron, s: Sys, l: Label, s': Sys, tx: TxId)
    requires LocksSound(cron, s) && Step(cron, s, l, s') && tx in s'.txs
    ensures TxSound(cron, s', s'.txs[tx])
  {
    if tx !in s.txs {
      BegunIsSound(cron, s, l, s');
    } else {
      assert TxSound(cron, s, s.txs[tx]);
      forall id | id in s.txs[tx].locked
        ensures id in s'.db.instances && s'.db.instances[id] == s.db.instances[id]
      {
        LockedRowStays(cron, s, l, s', tx, id);
      }
      SoundWhereLocked(cron, s, s', s.txs[tx]);
      if l.TickOne? && l.tx == tx { HandledIsSound(cron, s', s.txs[tx], l.id, l.fault); }
    }
  }

  lemma LocksApart(cron: Cron, s: Sys, l: Label, s': Sys, tx: TxId, ty: TxId)
    requires LocksSound(cron, s) && Step(cron, s, l, s') && tx in s'.txs && ty in s'.txs && tx != ty
    ensures s'.txs[tx].locked.Keys !! s'.txs[ty].locked.Keys
  {
    if l.TickBegin? {
      forall id | id in l.claimed ensures id !in LockedIds(s) {
        assert id in DueKeys(s.db, LockedIds(s), l.now);
      }
    }
  }

  lemma LocksKept(cron: Cron, s: Sys, l: Label, s': Sys)
    requires LocksSound(cron, s) && Step(cron, s, l, s')
    ensures LocksSound(cron, s')
  {
    forall tx | tx in s'.txs ensures TxSound(cron, s', s'.txs[tx]) { TxStaysSound(cron, s, l, s', tx); }
    forall tx, ty | tx in s'.txs && ty in s'.txs && tx != ty
      ensures s'.txs[tx].locked.Keys !! s'.txs[ty].locked.Keys
    {
      LocksApart(cron, s, l, s', tx, ty);
    }
  }

  // ---------------------------------------------------------------- one instance

  /** The i-th fire time of a schedule first due at `t0`. */
  ghost function Nth(cron: Cron, schedule: Schedule, t0: Time, i: nat): Option<Time> {
    if i == 0 then Some(t0)
    else match Nth(cron, schedule, t0, i - 1)
      case None => None
      case Some(t) => cron(schedule, t)
  }

  /** An instance watched from its creation: its schedule and its first fire time. */
  datatype Watch = Watch(cron: Cron, id: InstanceId, schedule: Schedule, t0: Time) {
    ghost function At(i: nat): Option<Time> { Nth(cron, schedule, t0, i) }

    /** A document of the instance whose cursor is one of the first `k + 1` fire times. */
    ghost predicate OnTrack(doc: Instance, k: nat) {
      doc.schedule == schedule && exists j: nat | j <= k :: At(j).Some? && doc.nextFireAt == At(j)
    }

    /** The scheduled runs are exactly those of the first `k` fire times. */
    ghost predicate RanExactly(runs: map<Fire, Run>, k: nat) {
      && (forall i: nat | i < k :: At(i).Some? && Fire(id, At(i).value) in runs)
      && (forall f | f in runs && f.instance == id :: exists i: nat | i < k :: At(i) == Some(f.at))
    }

    ghost predicate Tracked(s: Sys, k: nat) {
      && id in s.db.instances
      && OnTrack(s.db.instances[id], k)
      && RanExactly(s.db.runs, k)
      && (forall q | q in s.patches && s.patches[q].id == id :: OnTrack(s.patches[q].doc, k))
    }

    /** The step neither recreates the instance after a delete nor moves its cursor from the clock. */
    ghost predicate Leaves(s: Sys, l: Label) {
      && (l.CreateInstance? && l.id == id ==> id in s.db.instances && s.db.instances[id].state != Deleted)
      && (l.PatchRead? && l.id == id ==> !l.change.Recomputes())
    }
  }

  lemma OnTrackLater(w: Watch, doc: Instance, k: nat)
    requires w.OnTrack(doc, k)
    ensures w.OnTrack(doc, k + 1)
  {
    var j: nat :| j <= k && w.At(j).Some? && doc.nextFireAt == w.At(j);
    assert j <= k + 1;
  }

  lemma AdvanceOnTrack(w: Watch, doc: Instance, k: nat) returns (j: nat)
    requires w.OnTrack(doc, k) && Advances(w.cron, doc)
    ensures j <= k && w.At(j) == doc.nextFireAt
    ensures w.At(j + 1).Some? && AdvancedRow(w.cron, doc).nextFireAt == w.At(j + 1)
    ensures w.OnTrack(AdvancedRow(w.cron, doc), if j == k then k + 1 else k)
  {
    j :| j <= k && w.At(j).Some? && doc.nextFireAt == w.At(j);
    assert j + 1 <= if j == k then k + 1 else k;
  }

  /** The committed run is the one of the cursor's fire time: the next one, or one that is there already. */
  lemma CommittedRuns(w: Watch, runs: map<Fire, Run>, inserted: map<Fire, Run>, j: nat, k: nat)
    requires w.RanExactly(runs, k) && j <= k && w.At(j).Some? && Fire(w.id, w.At(j).value) in inserted
    requires forall f | f in inserted && f.instance == w.id :: Some(f.at) == w.At(j)
    ensures w.RanExactly(inserted + runs, if j == k then k + 1 else k)
  {
    var after := if j == k then k + 1 else k;
    forall f | f in inserted + runs && f.instance == w.id ensures exists i: nat | i < after :: w.At(i) == Some(f.at) {
      if f in runs { var i: nat :| i < k && w.At(i) == Some(f.at); assert i < after; }
      else { assert j < after; }
    }
  }

  /** A tick that did not stage the instance leaves its runs alone. */
  lemma OtherRuns(w: Watch, s: Sys, t: Tx, k: nat)
    requires TxSound(w.cron, s, t) && w.id !in t.staged && w.RanExactly(s.db.runs, k)
    ensures w.RanExactly(t.inserted + s.db.runs, k)
  {
  }

  /** A commit that handled the instance runs the next fire time, or meets a run that is there already. */
  lemma CommitTracked(w: Watch, s: Sys, tx: TxId, s': Sys, k: nat) returns (k': nat)
    requires LocksSound(w.cron, s) && Step(w.cron, s, TickCommit(tx), s') && w.Tracked(s, k)
    ensures k <= k' <= k + 1 && w.Tracked(s', k')
  {
    var t := s.txs[tx];
    assert TxSound(w.cron, s, t);
    if w.id in t.staged {
      var j := AdvanceOnTrack(w, s.db.instances[w.id], k);
      k' := if j == k then k + 1 else k;
      CommittedRuns(w, s.db.runs, t.inserted, j, k);
      forall q | q in s'.patches && s'.patches[q].id == w.id ensures w.OnTrack(s'.patches[q].doc, k') {
        OnTrackLater(w, s.patches[q].doc, k);
      }
    } else {
      k' := k;
      OtherRuns(w, s, t, k);
    }
  }

  /** Every other step leaves the runs alone and writes only documents that are on track. */
  lemma KeepsTracked(w: Watch, s: Sys, l: Label, s': Sys, k: nat)
    requires Step(w.cron, s, l, s') && !l.TickCommit? && w.Leaves(s, l) && w.Tracked(s, k)
    ensures w.Tracked(s', k)
  {
    assert s'.db.runs == s.db.runs;
  }

  lemma StepTracked(w: Watch, s: Sys, l: Label, s': Sys, k: nat) returns (k': nat)
    requires LocksSound(w.cron, s) && Step(w.cron, s, l, s') && w.Leaves(s, l) && w.Tracked(s, k)
    ensures k <= k' <= k + 1 && w.Tracked(s', k')
  {
    if l.TickCommit? {
      k' := CommitTracked(w, s, l.tx, s', k);
    } else {
      k' := k;
      KeepsTracked(w, s, l, s', k);
    }
  }

  // ---------------------------------------------------------------- whole histories

  ghost predicate History(cron: Cron, states: seq<Sys>, labels: seq<Label>) {
    && |states| == |labels| + 1
    && forall i {:trigger labels[i]} | 0 <= i < |labels| :: Step(cron, states[i], labels[i], states[i + 1])
  }

  /** The instance was just created: due first at `t0`, with no runs, no open tick and no pending patch. */
  ghost predicate JustCreated(w: Watch, s: Sys) {
    && LocksSound(w.cron, s)
    && w.id in s.db.instances && s.db.instances[w.id].schedule == w.schedule
    && s.db.instances[w.id].nextFireAt == Some(w.t0) && s.db.instances[w.id].lastFireAt == None
    && (forall f | f in s.db.runs :: f.instance != w.id)
    && !Locked(s, w.id)
    && (forall q | q in s.patches :: s.patches[q].id != w.id)
  }

  /**
    Whatever ticks and stale write-backs interleave, the scheduled runs are exactly the first `k` fire times:
    none is skipped, and the cursor stands at one of them or just after.
   */
  lemma {:induction false} NoFireIsSkipped(w: Watch, states: seq<Sys>, labels: seq<Label>, n: nat) returns (k: nat)
    requires History(w.cron, states, labels) && JustCreated(w, states[0]) && n < |states|
    requires forall i {:trigger labels[i]} | 0 <= i < n :: w.Leaves(states[i], labels[i])
    ensures LocksSound(w.cron, states[n]) && w.Tracked(states[n], k)
  {
    if n == 0 {
      k := 0;
      assert w.At(0) == Some(w.t0);
    } else {
      var p := NoFireIsSkipped(w, states, labels, n - 1);
      LocksKept(w.cron, states[n - 1], labels[n - 1], states[n]);
      k := StepTracked(w, states[n - 1], labels[n - 1], states[n], p);
    }
  }

  /** A run, once there, is never replaced: a fire time met again becomes a duplicate, not a second run. */
  lemma {:induction false} RunsAreKept(cron: Cron, states: seq<Sys>, labels: seq<Label>, i: nat, n: nat, f: Fire)
    requires History(cron, states, labels) && i <= n < |states| && f in states[i].db.runs
    ensures f in states[n].db.runs && states[n].db.runs[f] == states[i].db.runs[f]
  {
    if i < n {
      RunsAreKept(cron, states, labels, i, n - 1, f);
      assert Step(cron, states[n - 1], labels[n - 1], states[n]);
    }
  }

  // ---------------------------------------------------------------- exactly once

  /** The cursor is just past the runs, and the last fire time is the last one run. */
  ghost predicate InStep(w: Watch, s: Sys, k: nat) {
    && w.Tracked(s, k)
    && w.At(k).Some? && s.db.instances[w.id].nextFireAt == w.At(k)
    && s.db.instances[w.id].lastFireAt == if k == 0 then None else w.At(k - 1)
  }

  ghost predicate SomehowInStep(w: Watch, s: Sys) { exists k: nat :: InStep(w, s, k) }

  /** A write-back is current if the instance's cursor columns are still what it carries. */
  ghost predicate Current(w: Watch, s: Sys, l: Label) {
    l.WriteBack? && l.req in s.patches && s.patches[l.req].id == w.id && w.id in s.db.instances ==>
      && s.patches[l.req].doc.nextFireAt == s.db.instances[w.id].nextFireAt
      && s.patches[l.req].doc.lastFireAt == s.db.instances[w.id].lastFireAt
  }

  lemma {:induction false} Later(w: Watch, i: nat, j: nat)
    requires StrictlyLater(w.cron) && i < j && w.At(j).Some?
    ensures w.At(i).Some? && w.At(i).value < w.At(j).value
  {
    if i + 1 < j { Later(w, i, j - 1); }
  }

  lemma CursorIsNew(w: Watch, runs: map<Fire, Run>, k: nat)
    requires StrictlyLater(w.cron) && w.RanExactly(runs, k) && w.At(k).Some?
    ensures Fire(w.id, w.At(k).value) !in runs
  {
    if Fire(w.id, w.At(k).value) in runs {
      var i: nat :| i < k && w.At(i) == w.At(k);
      Later(w, i, k);
    }
  }

  /** What a commit does to one instance. */
  lemma CommitAdvances(cron: Cron, s: Sys, tx: TxId, s': Sys, id: InstanceId)
    requires LocksSound(cron, s) && Step(cron, s, TickCommit(tx), s') && id in s.db.instances
    ensures id in s'.db.instances
    ensures if id in s.txs[tx].staged then
              && Advances(cron, s.db.instances[id])
              && (var doc := s.db.instances[id];
                  s'.db.instances[id] ==
                    doc.(lastFireAt := doc.nextFireAt, nextFireAt := cron(doc.schedule, doc.nextFireAt.value)))
              && FireOf(id, s.db.instances[id]) in s'.db.runs
            else s'.db.instances[id] == s.db.instances[id]
  {
    assert TxSound(cron, s, s.txs[tx]);
  }

  lemma CommitPasses(w: Watch, s: Sys, tx: TxId, s': Sys, k: nat)
    requires LocksSound(w.cron, s) && Step(w.cron, s, TickCommit(tx), s')
    requires w.id !in s.txs[tx].staged && InStep(w, s, k)
    ensures InStep(w, s', k)
  {
    CommitAdvances(w.cron, s, tx, s', w.id);
    assert TxSound(w.cron, s, s.txs[tx]);
    OtherRuns(w, s, s.txs[tx], k);
  }

  lemma AdvanceInStep(w: Watch, doc: Instance, k: nat)
    requires doc.schedule == w.schedule && doc.nextFireAt == w.At(k) && Advances(w.cron, doc)
    ensures var after := AdvancedRow(w.cron, doc);
            && w.At(k + 1).Some? && after.nextFireAt == w.At(k + 1) && after.lastFireAt == w.At(k)
            && w.OnTrack(after, k + 1)
  {
    assert w.At(k + 1) == w.cron(w.schedule, w.At(k).value);
  }

  /** A commit that advanced the instance added the run its cursor stood at. */
  lemma CommitCounts(w: Watch, s: Sys, tx: TxId, s': Sys, k: nat)
    requires LocksSound(w.cron, s) && Step(w.cron, s, TickCommit(tx), s') && w.id in s.txs[tx].staged && InStep(w, s, k)
    ensures InStep(w, s', k + 1)
  {
    CommitAdvances(w.cron, s, tx, s', w.id);
    AdvanceInStep(w, s.db.instances[w.id], k);
    assert TxSound(w.cron, s, s.txs[tx]);
    CommittedRuns(w, s.db.runs, s.txs[tx].inserted, k, k);
    forall q | q in s'.patches && s'.patches[q].id == w.id ensures w.OnTrack(s'.patches[q].doc, k + 1) {
      OnTrackLater(w, s.patches[q].doc, k);
    }
  }

  lemma OtherStepInStep(w: Watch, s: Sys, l: Label, s': Sys, k: nat)
    requires LocksSound(w.cron, s) && Step(w.cron, s, l, s') && !l.TickCommit? && w.Leaves(s, l) && Current(w, s, l)
    requires InStep(w, s, k)
    ensures InStep(w, s', k)
  {
    KeepsTracked(w, s, l, s', k);
  }

  lemma StepInStep(w: Watch, s: Sys, l: Label, s': Sys, k: nat)
    requires LocksSound(w.cron, s) && Step(w.cron, s, l, s') && w.Leaves(s, l) && Current(w, s, l) && InStep(w, s, k)
    ensures SomehowInStep(w, s')
  {
    if !l.TickCommit? {
      OtherStepInStep(w, s, l, s', k);
    } else if w.id in s.txs[l.tx].staged {
      CommitCounts(w, s, l.tx, s', k);
    } else {
      CommitPasses(w, s, l.tx, s', k);
    }
  }

  /**
    If no write-back is stale, the runs, the cursor and the last fire time stay in step: after `k` runs the
    instance is due at exactly the k-th fire time.
   */
  lemma {:induction false} ExactlyOnce(w: Watch, states: seq<Sys>, labels: seq<Label>, n: nat)
    requires History(w.cron, states, labels) && JustCreated(w, states[0]) && n < |states|
    requires forall i {:trigger labels[i]} | 0 <= i < n ::
               w.Leaves(states[i], labels[i]) && Current(w, states[i], labels[i])
    ensures LocksSound(w.cron, states[n]) && SomehowInStep(w, states[n])
  {
    if n == 0 {
      assert w.At(0) == Some(w.t0);
      assert InStep(w, states[0], 0);
    } else {
      ExactlyOnce(w, states, labels, n - 1);
      LocksKept(w.cron, states[n - 1], labels[n - 1], states[n]);
      var k: nat :| InStep(w, states[n - 1], k);
      StepInStep(w, states[n - 1], labels[n - 1], states[n], k);
    }
  }

  /** Fire times increase, so the runs determine how many there are. */
  lemma SameRunsSameCount(w: Watch, runs: map<Fire, Run>, k: nat, k': nat)
    requires StrictlyLater(w.cron) && w.RanExactly(runs, k) && w.RanExactly(runs, k')
    ensures k == k'
  {
    if k != k' {
      var low, high := if k < k' then k else k', if k < k' then k' else k;
      CursorIsNew(w, runs, low);
      assert false;
    }
  }

  lemma StaleWriteBreaksStep(w: Watch, s: Sys, l: Label, s': Sys, k: nat, k': nat)
    requires StrictlyLater(w.cron) && Step(w.cron, s, l, s') && InStep(w, s, k) && InStep(w, s', k')
    ensures Current(w, s, l)
  {
    if l.WriteBack? { SameRunsSameCount(w, s.db.runs, k, k'); }
  }

  ghost predicate AlwaysInStep(w: Watch, states: seq<Sys>, n: nat)
    requires n < |states|
  {
    forall m: nat | m <= n :: SomehowInStep(w, states[m])
  }

  ghost predicate AlwaysCurrent(w: Watch, states: seq<Sys>, labels: seq<Label>, n: nat)
    requires n < |states| == |labels| + 1
  {
    forall i: nat {:trigger labels[i]} | i < n :: Current(w, states[i], labels[i])
  }

  /** The instance is in step at all times exactly when every write-back finds the cursor it carries. */
  lemma InStepIffCurrent(w: Watch, states: seq<Sys>, labels: seq<Label>, n: nat)
    requires StrictlyLater(w.cron) && History(w.cron, states, labels) && JustCreated(w, states[0]) && n < |states|
    requires forall i {:trigger labels[i]} | 0 <= i < n :: w.Leaves(states[i], labels[i])
    ensures AlwaysInStep(w, states, n) <==> AlwaysCurrent(w, states, labels, n)
  {
    if AlwaysCurrent(w, states, labels, n) {
      forall m: nat | m <= n ensures SomehowInStep(w, states[m]) { ExactlyOnce(w, states, labels, m); }
    } else if AlwaysInStep(w, states, n) {
      var i: nat :| i < n && !Current(w, states[i], labels[i]);
      assert SomehowInStep(w, states[i]) && SomehowInStep(w, states[i + 1]);
      var k: nat :| InStep(w, states[i], k);
      var k': nat :| InStep(w, states[i + 1], k');
      StaleWriteBreaksStep(w, states[i], labels[i], states[i + 1], k, k');
    }
  }

  // ---------------------------------------------------------------- from a patch's read to its write

  /** The step is a commit that advances the instance. */
  ghost predicate Advanced(w: Watch, s: Sys, l: Label) {
    l.TickCommit? && l.tx in s.txs && w.id in s.txs[l.tx].staged
  }

  ghost predicate Reads(l: Label, req: Req, id: InstanceId) {
    (l.PatchRead? || l.DeleteRead?) && l.req == req && l.id == id
  }

  /** Step `k` writes back what step `i` read of the instance. */
  ghost predicate PatchSpan(w: Watch, states: seq<Sys>, labels: seq<Label>, i: nat, k: nat) {
    && i < k < |labels| < |states| && labels[k].WriteBack? && Reads(labels[i], labels[k].req, w.id)
    && forall j | i < j <= k :: labels[k].req in states[j].patches
  }

  /** Before step `n`, no tick advanced the instance between the read and the write of a patch or delete. */
  ghost predicate SpansClear(w: Watch, states: seq<Sys>, labels: seq<Label>, n: nat) {
    forall i: nat, j: nat, k: nat {:trigger PatchSpan(w, states, labels, i, k), labels[j]} |
      PatchSpan(w, states, labels, i, k) && k < n && i < j < k && j < |states| ::
      !Advanced(w, states[j], labels[j])
  }

  lemma PatchStep(w: Watch, s: Sys, l: Label, s': Sys, q: Req)
    requires Step(w.cron, s, l, s') && w.Leaves(s, l) && q in s'.patches && s'.patches[q].id == w.id
    ensures || (q in s.patches && s.patches[q] == s'.patches[q])
            || (&& Reads(l, q, w.id) && q !in s.patches && w.id in s.db.instances
                && s'.patches[q].doc.nextFireAt == s.db.instances[w.id].nextFireAt
                && s'.patches[q].doc.lastFireAt == s.db.instances[w.id].lastFireAt)
  {
  }

  /** The read behind a pending write of the instance, and the cursor it found. */
  lemma {:induction false} PatchOf(w: Watch, states: seq<Sys>, labels: seq<Label>, n: nat, q: Req) returns (i: nat)
    requires History(w.cron, states, labels) && JustCreated(w, states[0]) && n < |states|
    requires forall m {:trigger labels[m]} | 0 <= m < n :: w.Leaves(states[m], labels[m])
    requires q in states[n].patches && states[n].patches[q].id == w.id
    ensures i < n && Reads(labels[i], q, w.id) && q !in states[i].patches && w.id in states[i].db.instances
    ensures forall j | i < j <= n :: q in states[j].patches && states[j].patches[q] == states[n].patches[q]
    ensures states[n].patches[q].doc.nextFireAt == states[i].db.instances[w.id].nextFireAt
    ensures states[n].patches[q].doc.lastFireAt == states[i].db.instances[w.id].lastFireAt
  {
    PatchStep(w, states[n - 1], labels[n - 1], states[n], q);
    if q in states[n - 1].patches && states[n - 1].patches[q] == states[n].patches[q] {
      i := PatchOf(w, states, labels, n - 1, q);
    } else {
      i := n - 1;
    }
  }

  /** What a step with no stale write does to the cursor: an advance moves it on, nothing else touches it. */
  lemma CursorStep(w: Watch, s: Sys, l: Label, s': Sys)
    requires LocksSound(w.cron, s) && Step(w.cron, s, l, s') && w.Leaves(s, l) && Current(w, s, l)
    requires w.id in s.db.instances
    ensures w.id in s'.db.instances
    ensures if Advanced(w, s, l) then
              && Advances(w.cron, s.db.instances[w.id])
              && s'.db.instances[w.id] == AdvancedRow(w.cron, s.db.instances[w.id])
            else
              && s'.db.instances[w.id].nextFireAt == s.db.instances[w.id].nextFireAt
              && s'.db.instances[w.id].lastFireAt == s.db.instances[w.id].lastFireAt
  {
    if l.TickCommit? { CommitAdvances(w.cron, s, l.tx, s', w.id); }
  }

  lemma CursorIsThere(w: Watch, states: seq<Sys>, labels: seq<Label>, k: nat)
    requires History(w.cron, states, labels) && JustCreated(w, states[0]) && k < |states|
    requires forall m {:trigger labels[m]} | 0 <= m < k ::
               w.Leaves(states[m], labels[m]) && Current(w, states[m], labels[m])
    ensures LocksSound(w.cron, states[k])
    ensures w.id in states[k].db.instances && states[k].db.instances[w.id].nextFireAt.Some?
  {
    ExactlyOnce(w, states, labels, k);
    var n: nat :| InStep(w, states[k], n);
  }

  /** From `i` to `k` the cursor moves on exactly if a tick advanced the instance in between. */
  lemma {:induction false} CursorMovesIff(w: Watch, states: seq<Sys>, labels: seq<Label>, i: nat, k: nat)
    requires StrictlyLater(w.cron) && History(w.cron, states, labels) && JustCreated(w, states[0]) && i <= k < |states|
    requires forall m {:trigger labels[m]} | 0 <= m < k ::
               w.Leaves(states[m], labels[m]) && Current(w, states[m], labels[m])
    ensures w.id in states[i].db.instances && w.id in states[k].db.instances
    ensures var a, b := states[i].db.instances[w.id], states[k].db.instances[w.id];
            && a.nextFireAt.Some? && b.nextFireAt.Some? && a.nextFireAt.value <= b.nextFireAt.value
            && ((forall j {:trigger labels[j]} | i <= j < k :: !Advanced(w, states[j], labels[j])) ==>
                  a.nextFireAt == b.nextFireAt && a.lastFireAt == b.lastFireAt)
            && ((exists j {:trigger labels[j]} :: i <= j < k && Advanced(w, states[j], labels[j])) ==>
                  a.nextFireAt.value < b.nextFireAt.value)
  {
    if i == k {
      CursorIsThere(w, states, labels, k);
    } else {
      CursorMovesIff(w, states, labels, i, k - 1);
      CursorIsThere(w, states, labels, k - 1);
      CursorStep(w, states[k - 1], labels[k - 1], states[k]);
    }
  }

  lemma {:induction false} ClearMeansCurrent(w: Watch, states: seq<Sys>, labels: seq<Label>, n: nat)
    requires StrictlyLater(w.cron) && History(w.cron, states, labels) && JustCreated(w, states[0]) && n < |states|
    requires forall i {:trigger labels[i]} | 0 <= i < n :: w.Leaves(states[i], labels[i])
    requires SpansClear(w, states, labels, n)
    ensures AlwaysCurrent(w, states, labels, n)
  {
    if n > 0 {
      var k := n - 1;
      ClearMeansCurrent(w, states, labels, k);
      var s, l := states[k], labels[k];
      if l.WriteBack? && l.req in s.patches && s.patches[l.req].id == w.id {
        var i := PatchOf(w, states, labels, k, l.req);
        assert PatchSpan(w, states, labels, i, k);
        CursorMovesIff(w, states, labels, i, k);
      }
    }
  }

  /** A write after an advance is stale: it carries the cursor its read found. */
  lemma CurrentMeansClear(w: Watch, states: seq<Sys>, labels: seq<Label>, n: nat, i: nat, j: nat, k: nat)
    requires StrictlyLater(w.cron) && History(w.cron, states, labels) && JustCreated(w, states[0]) && n < |states|
    requires forall i {:trigger labels[i]} | 0 <= i < n :: w.Leaves(states[i], labels[i])
    requires AlwaysCurrent(w, states, labels, n) && PatchSpan(w, states, labels, i, k) && k < n && i < j < k
    ensures !Advanced(w, states[j], labels[j])
  {
    var q := labels[k].req;
    SpanPatch(w, states, labels, i, k);
    var from := PatchOf(w, states, labels, k, q);
    assert q !in states[i].patches by { assert Step(w.cron, states[i], labels[i], states[i + 1]); }
    assert from == i;
    CursorMovesIff(w, states, labels, i, k);
  }

  /** The patch pending at the end of a span is one of the instance. */
  lemma SpanPatch(w: Watch, states: seq<Sys>, labels: seq<Label>, i: nat, k: nat)
    requires History(w.cron, states, labels) && PatchSpan(w, states, labels, i, k)
    ensures states[k].patches[labels[k].req].id == w.id
  {
    PatchKeepsId(w, states, labels, i, k, labels[k].req);
  }

  lemma {:induction false} PatchKeepsId(w: Watch, states: seq<Sys>, labels: seq<Label>, i: nat, k: nat, q: Req)
    requires History(w.cron, states, labels) && i < k < |states| && Reads(labels[i], q, w.id)
    requires forall j | i < j <= k :: q in states[j].patches
    ensures states[k].patches[q].id == w.id
  {
    if i + 1 == k {
      assert Step(w.cron, states[i], labels[i], states[k]);
    } else {
      PatchKeepsId(w, states, labels, i, k - 1, q);
      assert Step(w.cron, states[k - 1], labels[k - 1], states[k]);
    }
  }

  /**
    The instance is in step at all times exactly when no tick advances it between the read and the write of a patch
    or delete.
   */
  lemma ExactlyOnceIff(w: Watch, states: seq<Sys>, labels: seq<Label>, n: nat)
    requires StrictlyLater(w.cron) && History(w.cron, states, labels) && JustCreated(w, states[0]) && n < |states|
    requires forall i {:trigger labels[i]} | 0 <= i < n :: w.Leaves(states[i], labels[i])
    ensures AlwaysInStep(w, states, n) <==> SpansClear(w, states, labels, n)
  {
    InStepIffCurrent(w, states, labels, n);
    if SpansClear(w, states, labels, n) {
      ClearMeansCurrent(w, states, labels, n);
    } else if AlwaysCurrent(w, states, labels, n) {
      var i: nat, j: nat, k: nat :|
        PatchSpan(w, states, labels, i, k) && k < n && i < j < k && Advanced(w, states[j], labels[j]);
      CurrentMeansClear(w, states, labels, n, i, j, k);
    }
  }

  // ---------------------------------------------------------------- a stale write-back

  /** A database with one instance and nothing under way. */
  function Quiet(id: InstanceId, doc: Instance): Sys { Sys(Db(map[id := doc], map[]), map[], map[]) }

  lemma ClaimsTheOne(s: Sys, id: InstanceId, doc: Instance, now: Time)
    requires s.db.instances == map[id := doc] && s.txs == map[] && IsDue(doc, now)
    ensures Enabled(s, TickBegin(0, now, 1, [id]))
  {
    var keys := DueKeys(s.db, LockedIds(s), now);
    assert LockedIds(s) == {} && keys.Keys == {id};
  }

  /** A whole tick over the one instance, with a patch pending. */
  lemma TickOverOne(cron: Cron, s: Sys, id: InstanceId, doc: Instance, now: Time) returns (states: seq<Sys>)
    requires s.db == Db(map[id := doc], map[]) && s.txs == map[] && IsDue(doc, now) && Advances(cron, doc)
    ensures |states| == 4 && states[0] == s
    ensures Step(cron, states[0], TickBegin(0, now, 1, [id]), states[1])
    ensures Step(cron, states[1], TickOne(0, id, NoFault), states[2])
    ensures Step(cron, states[2], TickCommit(0), states[3])
    ensures states[3].db == Db(map[id := AdvancedRow(cron, doc)], map[FireOf(id, doc) := Run(doc.parameters, now)])
    ensures states[3].txs == map[] && states[3].patches == s.patches
  {
    ClaimsTheOne(s, id, doc, now);
    var open := Tx(now, map[id := doc], map[], map[]);
    assert (map i | i in [id] :: s.db.instances[i]) == open.locked;
    var s1 := s.(txs := map[0 := open]);
    assert Step(cron, s, TickBegin(0, now, 1, [id]), s1);
    var s2 := s.(txs := map[0 := HandleOne(cron, open, id, NoFault)]);
    assert Step(cron, s1, TickOne(0, id, NoFault), s2);
    var s3 := Apply(cron, s2, TickCommit(0));
    states := [s, s1, s2, s3];
  }

  lemma ReadsAndWritesBack(w: Watch, s: Sys, later: Sys, doc: Instance) returns (read: Sys, end: Sys)
    requires s == Quiet(w.id, doc) && later.txs == map[] && later.db.instances.Keys == {w.id}
    requires later.patches == map[0 := Patch(w.id, doc.(parameters := "new"))] && doc.enabled && doc.state == Active
    ensures Step(w.cron, s, PatchRead(0, w.id, PARAMETERS, 0), read) && read == s.(patches := later.patches)
    ensures Step(w.cron, later, WriteBack(0), end)
    ensures end.db == Db(map[w.id := doc.(parameters := "new")], later.db.runs)
  {
    read := Apply(w.cron, s, PatchRead(0, w.id, PARAMETERS, 0));
    end := Apply(w.cron, later, WriteBack(0));
  }

  const PARAMETERS := Change(None, None, Some("new"))

  /** A patch of the parameters that reads, waits for a whole tick and writes back. */
  lemma PatchAroundTick(w: Watch, doc: Instance) returns (states: seq<Sys>, labels: seq<Label>)
    requires w.cron(w.schedule, w.t0).Some? && doc == Instance(true, Active, w.schedule, Some(w.t0), None, "old")
    ensures |states| == 6 && labels == [PatchRead(0, w.id, PARAMETERS, 0), TickBegin(0, w.t0, 1, [w.id]),
                                        TickOne(0, w.id, NoFault), TickCommit(0), WriteBack(0)]
    ensures History(w.cron, states, labels) && states[0] == Quiet(w.id, doc)
    ensures states[4].db.instances == map[w.id := AdvancedRow(w.cron, doc)]
    ensures states[4].patches == map[0 := Patch(w.id, doc.(parameters := "new"))]
    ensures states[5].db == Db(map[w.id := doc.(parameters := "new")], map[Fire(w.id, w.t0) := Run("old", w.t0)])
  {
    var s := Quiet(w.id, doc);
    var pending := s.(patches := map[0 := Patch(w.id, doc.(parameters := "new"))]);
    var t := TickOverOne(w.cron, pending, w.id, doc, w.t0);
    var read, end := ReadsAndWritesBack(w, s, t[3], doc);
    states := [s, read, t[1], t[2], t[3], end];
    labels := [PatchRead(0, w.id, PARAMETERS, 0), TickBegin(0, w.t0, 1, [w.id]), TickOne(0, w.id, NoFault),
               TickCommit(0), WriteBack(0)];
  }

  /**
    The race is real, for every schedule and first fire time: a patch read before a tick and written after it
    sets the cursor back before a fire time that has run.
   */
  lemma StaleWriteBackExample(w: Watch) returns (states: seq<Sys>, labels: seq<Label>)
    requires StrictlyLater(w.cron) && w.cron(w.schedule, w.t0).Some?
    ensures History(w.cron, states, labels) && JustCreated(w, states[0]) && |labels| == 5
    ensures forall i {:trigger labels[i]} | 0 <= i < 5 :: w.Leaves(states[i], labels[i])
    ensures w.id in states[5].db.instances && states[5].db.instances[w.id].nextFireAt == Some(w.t0)
    ensures Fire(w.id, w.t0) in states[5].db.runs && !AlwaysInStep(w, states, 5)
  {
    states, labels := PatchAroundTick(w, Instance(true, Active, w.schedule, Some(w.t0), None, "old"));
    assert !Current(w, states[4], labels[4]);
    InStepIffCurrent(w, states, labels, 5);
  }
}
