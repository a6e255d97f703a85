/**
  Where a scheduled run comes from, over every history of ticks, patches and deletes: which instances are run, with
  what parameters, and what a patch leaves in the row it writes back.
 */
module TickRuns {
  import opened Options
  import opened Tick
  import opened TickConcurrency
  import Selection

  // ---------------------------------------------------------------- which instances a tick takes

  /**
    A tick claims oldest first, said of the rows: what it claims is enabled, active, unlocked and due, in order of the
    due time, and such an instance left out means a full batch of others due no later.
   */
  lemma TakenByAge(cron: Cron, s: Sys, l: Label, s': Sys, id: InstanceId)
    requires l.TickBegin? && Step(cron, s, l, s')
    ensures var docs := s.db.instances;
            && (forall c | c in l.claimed ::
                  && c in docs && !Locked(s, c) && docs[c].enabled && docs[c].state == Active
                  && docs[c].nextFireAt.Some? && docs[c].nextFireAt.value <= l.now)
            && (&& id in docs && !Locked(s, id) && docs[id].enabled && docs[id].state == Active
                && docs[id].nextFireAt.Some? && docs[id].nextFireAt.value <= l.now && id !in l.claimed ==>
                  && |l.claimed| == l.batchSize
                  && forall c | c in l.claimed :: docs[c].nextFireAt.value <= docs[id].nextFireAt.value)
  {
    var keys := DueKeys(s.db, LockedIds(s), l.now);
    assert forall i :: i in LockedIds(s) <==> Locked(s, i);
    forall c | c in l.claimed ensures c in keys { }
    if id in keys && id !in l.claimed && |l.claimed| < l.batchSize {
      Selection.ShortAnswerIsComplete(keys, l.batchSize, l.claimed);
    }
  }

  // ---------------------------------------------------------------- the tick behind a run

  lemma CommitInserts(cron: Cron, s: Sys, l: Label, s': Sys, f: Fire)
    requires LocksSound(cron, s) && Step(cron, s, l, s') && f !in s.db.runs && f in s'.db.runs
    ensures l.TickCommit? && l.tx in s.txs && f.instance in s.db.instances
    ensures var doc, now := s.db.instances[f.instance], s.txs[l.tx].now;
            && doc.enabled && doc.state == Active && doc.nextFireAt == Some(f.at) && f.at <= now
            && s'.db.runs[f] == Run(doc.parameters, now)
  {
    assert l.TickCommit?;
    assert TxSound(cron, s, s.txs[l.tx]);
  }

  lemma {:induction false} LocksHold(cron: Cron, states: seq<Sys>, labels: seq<Label>, n: nat)
    requires History(cron, states, labels) && LocksSound(cron, states[0]) && n < |states|
    ensures LocksSound(cron, states[n])
  {
    if n > 0 {
      LocksHold(cron, states, labels, n - 1);
      LocksKept(cron, states[n - 1], labels[n - 1], states[n]);
    }
  }

  /**
    Every scheduled run was inserted by the commit of a tick at which its instance was enabled, active and due at that
    very fire time, and carries the parameters the instance had then.
   */
  lemma {:induction false} RunOrigin(cron: Cron, states: seq<Sys>, labels: seq<Label>, n: nat, f: Fire)
    returns (k: nat)
    requires History(cron, states, labels) && LocksSound(cron, states[0]) && n < |states|
    requires f !in states[0].db.runs && f in states[n].db.runs
    ensures k < n && labels[k].TickCommit? && labels[k].tx in states[k].txs && f.instance in states[k].db.instances
    ensures f !in states[k].db.runs
    ensures var doc, now := states[k].db.instances[f.instance], states[k].txs[labels[k].tx].now;
            && doc.enabled && doc.state == Active && doc.nextFireAt == Some(f.at) && f.at <= now
            && states[n].db.runs[f] == Run(doc.parameters, now)
  {
    LocksHold(cron, states, labels, n - 1);
    if f in states[n - 1].db.runs {
      k := RunOrigin(cron, states, labels, n - 1, f);
      RunsAreKept(cron, states, labels, n - 1, n, f);
    } else {
      k := n - 1;
      CommitInserts(cron, states[k], labels[k], states[n], f);
    }
  }

  // ---------------------------------------------------------------- paused, disabled and deleted instances

  /** The step may write the whole document of the instance. */
  ghost predicate Rewrites(s: Sys, l: Label, id: InstanceId) {
    || (l.CreateInstance? && l.id == id)
    || (l.WriteBack? && l.req in s.patches && s.patches[l.req].id == id)
  }

  ghost predicate Rests(db: Db, id: InstanceId) {
    id in db.instances && (!db.instances[id].enabled || db.instances[id].state != Active)
  }

  lemma RestsOn(cron: Cron, s: Sys, l: Label, s': Sys, id: InstanceId)
    requires LocksSound(cron, s) && Step(cron, s, l, s') && Rests(s.db, id) && !Rewrites(s, l, id)
    ensures Rests(s'.db, id)
  {
    if l.TickCommit? { CommitAdvances(cron, s, l.tx, s', id); }
  }

  /** While an instance is disabled, paused or deleted and nobody rewrites it, no tick adds a run of it. */
  lemma {:induction false} RestingIsNotRun(cron: Cron, states: seq<Sys>, labels: seq<Label>, i: nat, n: nat,
                                           id: InstanceId, f: Fire)
    requires History(cron, states, labels) && LocksSound(cron, states[0]) && i <= n < |states|
    requires Rests(states[i].db, id) && f.instance == id
    requires forall k {:trigger labels[k]} | i <= k < n :: !Rewrites(states[k], labels[k], id)
    ensures Rests(states[n].db, id) && (f in states[n].db.runs ==> f in states[i].db.runs)
  {
    if i < n {
      RestingIsNotRun(cron, states, labels, i, n - 1, id, f);
      LocksHold(cron, states, labels, n - 1);
      RestsOn(cron, states[n - 1], labels[n - 1], states[n], id);
      if f !in states[n - 1].db.runs && f in states[n].db.runs {
        CommitInserts(cron, states[n - 1], labels[n - 1], states[n], f);
      }
    }
  }

  // ---------------------------------------------------------------- what a patch writes back

  /** The document a patch or delete read as `doc` is going to write. */
  ghost predicate Carries(l: Label, doc: Instance, next: Instance) {
    && next.lastFireAt == doc.lastFireAt
    && (l.PatchRead? ==>
          && next.enabled == (if l.change.enabled.Some? then l.change.enabled.value else doc.enabled)
          && (next.state == if next.enabled then Active else Paused)
          && next.schedule == (if l.change.schedule.Some? then l.change.schedule.value else doc.schedule)
          && next.parameters == (if l.change.parameters.Some? then l.change.parameters.value else doc.parameters)
          && next.nextFireAt == (if l.change.schedule.Some? || l.change.enabled == Some(true)
                                 then Some(l.fromClock) else doc.nextFireAt))
    && (l.DeleteRead? ==>
          && !next.enabled && next.state == Deleted
          && next.schedule == doc.schedule && next.parameters == doc.parameters && next.nextFireAt == doc.nextFireAt)
  }

  lemma ReadCarries(cron: Cron, s: Sys, l: Label, s': Sys, q: Req)
    requires Step(cron, s, l, s') && q in s'.patches && !(q in s.patches && s.patches[q] == s'.patches[q])
    ensures Reads(l, q, s'.patches[q].id) && s'.patches[q].id in s.db.instances && q !in s.patches
    ensures Carries(l, s.db.instances[s'.patches[q].id], s'.patches[q].doc)
  {
  }

  /** What stands in the row after a write-back is what the change says of what its read found, however long ago. */
  lemma {:induction false} WriteBackIs(cron: Cron, states: seq<Sys>, labels: seq<Label>, n: nat, q: Req)
    returns (i: nat)
    requires History(cron, states, labels) && n < |states| && q in states[n].patches && q !in states[0].patches
    ensures i < n && Reads(labels[i], q, states[n].patches[q].id) && states[n].patches[q].id in states[i].db.instances
    ensures q !in states[i].patches
    ensures Carries(labels[i], states[i].db.instances[states[n].patches[q].id], states[n].patches[q].doc)
    ensures forall j | i < j <= n :: q in states[j].patches && states[j].patches[q] == states[n].patches[q]
  {
    if q in states[n - 1].patches && states[n - 1].patches[q] == states[n].patches[q] {
      i := WriteBackIs(cron, states, labels, n - 1, q);
    } else {
      ReadCarries(cron, states[n - 1], labels[n - 1], states[n], q);
      i := n - 1;
    }
  }

  /** A pause or a delete that is written back stops its instance until somebody rewrites it: no later tick runs it. */
  lemma StoppedIsNotRun(cron: Cron, states: seq<Sys>, labels: seq<Label>, i: nat, k: nat, n: nat, f: Fire)
    requires History(cron, states, labels) && LocksSound(cron, states[0]) && i < k < n < |states|
    requires labels[k].WriteBack? && Reads(labels[i], labels[k].req, f.instance) && f.instance in states[k].db.instances
    requires labels[k].req !in states[0].patches && forall j | i < j <= k :: labels[k].req in states[j].patches
    requires labels[i].DeleteRead? || labels[i].change.enabled == Some(false)
    requires forall j {:trigger labels[j]} | k < j < n :: !Rewrites(states[j], labels[j], f.instance)
    ensures f in states[n].db.runs ==> f in states[k].db.runs
  {
    var q := labels[k].req;
    var from := WriteBackIs(cron, states, labels, k, q);
    assert q !in states[i].patches by { assert Step(cron, states[i], labels[i], states[i + 1]); }
    assert from == i;
    WritesBack(cron, states[k], labels[k], states[k + 1]);
    RestingIsNotRun(cron, states, labels, k + 1, n, f.instance, f);
  }

  /** A create goes through exactly on an id that is free or deleted. */
  lemma CreatesIff(cron: Cron, s: Sys, l: Label, s': Sys)
    requires l.CreateInstance? && Step(cron, s, l, s')
    ensures s'.db.runs == s.db.runs && s'.txs == s.txs && s'.patches == s.patches
    ensures s'.db.instances ==
              if l.id !in s.db.instances || s.db.instances[l.id].state == Deleted then s.db.instances[l.id := l.doc]
              else s.db.instances
  {
  }

  lemma WritesBack(cron: Cron, s: Sys, l: Label, s': Sys)
    requires l.WriteBack? && Step(cron, s, l, s')
    ensures l.req in s.patches && s'.db.runs == s.db.runs
    ensures var p := s.patches[l.req];
            && (p.id in s.db.instances ==> s'.db.instances == s.db.instances[p.id := p.doc])
            && (p.id !in s.db.instances ==> s'.db.instances == s.db.instances)
  {
  }

  // ---------------------------------------------------------------- parameters

  /** Everything that is or will be written of the instance has the parameters `p`. */
  ghost predicate CarriesParameters(s: Sys, id: InstanceId, p: string) {
    && id in s.db.instances && s.db.instances[id].parameters == p
    && (forall q | q in s.patches && s.patches[q].id == id :: s.patches[q].doc.parameters == p)
    && (forall f | f in s.db.runs && f.instance == id :: s.db.runs[f].parameters == p)
  }

  lemma ParametersStep(w: Watch, s: Sys, l: Label, s': Sys, p: string)
    requires LocksSound(w.cron, s) && Step(w.cron, s, l, s') && w.Leaves(s, l) && CarriesParameters(s, w.id, p)
    requires l.PatchRead? && l.id == w.id ==> l.change.parameters.None?
    ensures CarriesParameters(s', w.id, p)
  {
    if l.TickCommit? { CommitAdvances(w.cron, s, l.tx, s', w.id); }
    forall f | f in s'.db.runs && f.instance == w.id ensures s'.db.runs[f].parameters == p {
      if f !in s.db.runs { CommitInserts(w.cron, s, l, s', f); }
    }
  }

  /** Over any history without a patch of the parameters, every run of an instance has those it was created with. */
  lemma {:induction false} ParametersCarried(w: Watch, states: seq<Sys>, labels: seq<Label>, n: nat)
    requires History(w.cron, states, labels) && JustCreated(w, states[0]) && n < |states|
    requires forall i {:trigger labels[i]} | 0 <= i < n ::
               w.Leaves(states[i], labels[i]) && (labels[i].PatchRead? && labels[i].id == w.id ==>
                                                    labels[i].change.parameters.None?)
    ensures CarriesParameters(states[n], w.id, states[0].db.instances[w.id].parameters)
  {
    if n > 0 {
      ParametersCarried(w, states, labels, n - 1);
      LocksHold(w.cron, states, labels, n - 1);
      ParametersStep(w, states[n - 1], labels[n - 1], states[n], states[0].db.instances[w.id].parameters);
    }
  }
}
