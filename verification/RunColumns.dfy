/**
  Where the columns of a row come from: in every state of every trace, each column holds what one named step wrote,
  read off that step's label and not off the row it produced.
 */
module RunColumns {
  import opened Options
  import opened RunTable
  import opened RunProtocol
  import opened RunInvariant
  import opened RunTheorems
  import Selection

  // ---------------------------------------------------------------- what one step stamps

  /** The clock reading a step carries; a batch carries the one its SELECT brought. */
  ghost function TimeOf(s: State, l: Label): Option<Time> {
    match l
    case Create(_, _, at) => Some(at)
    case RedriveInsert(_, _, _, at) => Some(at)
    case ClaimOne(_, _, at) => Some(at)
    case BatchCommit(tx) => if tx in s.batches then Some(s.batches[tx].at) else None
    case Succeed(_, _, at) => Some(at)
    case Fail(_, _, at) => Some(at)
    case Record(_, _, at) => Some(at)
    case Heartbeat(_, at) => Some(at)
    case SweepRunning(_, _, at) => Some(at)
    case SweepCancelling(_, _, at) => Some(at)
    case CancelWrite(_, _, at) => Some(at)
    case KillConfirmed(_, _, at) => Some(at)
    case _ => None
  }

  /** Whatever the step changes of the row, the times are its own, and what else it reports is what it carries. */
  ghost predicate Stamped(s: State, l: Label, a: Row, b: Row, run: RunId) {
    && (b.startedAt != a.startedAt ==> b.startedAt == if b.state == Running then TimeOf(s, l) else None)
    && (b.heartbeatAt != a.heartbeatAt ==> b.heartbeatAt == if b.state == Queued then None else TimeOf(s, l))
    && (b.endedAt != a.endedAt ==> b.endedAt == if b.state.Terminal() then TimeOf(s, l) else None)
    && (b.state != a.state && b.state == Running ==> b.startedAt == TimeOf(s, l))
    && (b.state != a.state && b.state.Terminal() ==> b.endedAt == TimeOf(s, l) && (l.Succeed? || b.error == Reason(l)))
    && (b.runtimeExecution != a.runtimeExecution && b.state != Queued ==>
          l.Record? && Some(l.claim.token) == a.token && l.claim.run == run && b.runtimeExecution == Some(l.exec))
  }

  /** The error a step carries. */
  ghost function Reason(l: Label): Option<Json> {
    match l
    case Fail(_, error, _) => error
    case SweepRunning(_, error, _) => error
    case SweepCancelling(_, error, _) => error
    case CancelWrite(_, error, _) => error
    case KillConfirmed(_, error, _) => error
    case _ => None
  }

  lemma TargetStamps(s: State, l: Label, s': State, run: RunId)
    requires Step(s, l, s') && Target(s, l) == Some(run) && run in s.rows && run in s'.rows
    ensures Stamped(s, l, s.rows[run], s'.rows[run], run)
  {
  }

  lemma CommitStamps(s: State, l: Label, s': State, run: RunId)
    requires l.BatchCommit? && Step(s, l, s') && StagedClaims(s, s.batches[l.tx]) && run in s.rows && run in s'.rows
    ensures Stamped(s, l, s.rows[run], s'.rows[run], run)
  {
    assert s'.rows == s.rows + s.batches[l.tx].staged;
  }

  lemma StampsAt(tr: Trace, p: nat, run: RunId)
    requires tr.Valid() && p < |tr.labels| && run in tr.states[p].rows
    ensures run in tr.states[p + 1].rows
    ensures Stamped(tr.states[p], tr.labels[p], tr.states[p].rows[run], tr.states[p + 1].rows[run], run)
  {
    var s, l, s' := tr.states[p], tr.labels[p], tr.states[p + 1];
    RowAt(tr, p, run);
    if l.BatchCommit? {
      Reachable(tr, p);
      SoundBatchesStageClaims(s);
      CommitStamps(s, l, s', run);
    } else if Target(s, l) == Some(run) {
      TargetStamps(s, l, s', run);
    } else {
      OnlyTarget(s, l, s', run);
    }
  }

  // ---------------------------------------------------------------- the columns over whole traces

  /** A row was just inserted, blank and QUEUED, or made a move whose stamps are those of the step. */
  lemma Before(tr: Trace, n: nat, run: RunId)
    requires tr.Valid() && n < |tr.states| && run in tr.states[n].rows
    ensures n > 0 && Shaped(tr.states[n].rows[run])
    ensures var b := tr.states[n].rows[run];
            if run in tr.states[n - 1].rows then
              var a := tr.states[n - 1].rows[run];
              && Shaped(a) && Moves(a, b, tr.states[n - 1].seen, tr.states[n].seen)
              && Stamped(tr.states[n - 1], tr.labels[n - 1], a, b, run)
            else b.state == Queued
  {
    Reachable(tr, n);
    assert Shaped(tr.states[n].rows[run]);
    if run in tr.states[n - 1].rows {
      RowAt(tr, n - 1, run);
      StampsAt(tr, n - 1, run);
    } else {
      BornQueued(tr, n - 1, run);
    }
  }

  lemma BornQueued(tr: Trace, p: nat, run: RunId)
    requires tr.Valid() && p < |tr.labels| && run !in tr.states[p].rows && run in tr.states[p + 1].rows
    ensures tr.states[p + 1].rows[run].state == Queued
  {
    Reachable(tr, p);
    NewRows(tr.states[p], tr.labels[p], tr.states[p + 1], run);
  }

  /** A start is the time of the run's latest claim. */
  lemma {:induction false} StartIsClaimTime(tr: Trace, n: nat, run: RunId) returns (i: nat)
    requires tr.Valid() && n < |tr.states| && run in tr.states[n].rows && tr.states[n].rows[run].startedAt.Some?
    ensures i < n && Crossed(tr, i, run, Queued, Running)
    ensures forall j | i < j < n :: !Crossed(tr, j, run, Queued, Running)
    ensures tr.states[n].rows[run].startedAt == TimeOf(tr.states[i], tr.labels[i])
  {
    Before(tr, n, run);
    var p := n - 1;
    if tr.states[p].rows[run].state == Queued {
      i := p;
    } else {
      i := StartIsClaimTime(tr, p, run);
    }
  }

  /**
    In every state, the start of a run whose attempt is under way or has ended in success or failure is the clock
    reading its latest claim was made with: the one of that `claimRun`, or the one the SELECT of that batch brought.
   */
  lemma StartedWhenClaimed(tr: Trace, n: nat, run: RunId) returns (i: nat, j: nat)
    requires tr.Valid() && n < |tr.states| && run in tr.states[n].rows
    requires tr.states[n].rows[run].state in {Running, Cancelling} || tr.states[n].rows[run].startedAt.Some?
    ensures j <= i < n && Crossed(tr, i, run, Queued, Running)
    ensures forall k | i < k < n :: !Crossed(tr, k, run, Queued, Running)
    ensures || (tr.labels[i].ClaimOne? && j == i)
            || (tr.labels[i].BatchCommit? && tr.labels[j].BatchSelect? && tr.labels[j].tx == tr.labels[i].tx)
    ensures tr.states[n].rows[run].startedAt == Some(tr.labels[j].at)
  {
    Reachable(tr, n);
    assert Shaped(tr.states[n].rows[run]);
    i := StartIsClaimTime(tr, n, run);
    j := i;
    Reachable(tr, i);
    ClaimCause(tr.states[i], tr.labels[i], tr.states[i + 1], run);
    if tr.labels[i].BatchCommit? {
      CommitsOpen(tr.states[i], tr.labels[i]);
      j := BatchOrigin(tr, i, tr.labels[i].tx);
    }
  }

  lemma CommitsOpen(s: State, l: Label)
    requires l.BatchCommit? && Enabled(s, l)
    ensures l.tx in s.batches
  {
  }

  /** So a run that was last claimed at or after a cutoff is listed by no query with that cutoff. */
  lemma FreshClaimIsNotListed(tr: Trace, n: nat, state: RunState, run: RunId, i: nat)
    requires tr.Valid() && n < |tr.labels| && Queries(tr.labels[n], state) && run in tr.states[n].rows
    requires i < n && Crossed(tr, i, run, Queued, Running)
    requires forall k | i < k < n :: !Crossed(tr, k, run, Queued, Running)
    requires TimeOf(tr.states[i], tr.labels[i]).Some? && TimeOf(tr.states[i], tr.labels[i]).value >= tr.labels[n].cutoff
    ensures run !in tr.labels[n].listed
  {
    ListedByStart(tr, n, state, run);
    if run in tr.labels[n].listed { var _ := StartIsClaimTime(tr, n, run); }
  }

  /** A row that has ended is as its last step left it, with that step's time and reason. */
  lemma {:induction false} EndedWhen(tr: Trace, n: nat, run: RunId) returns (i: nat)
    requires tr.Valid() && n < |tr.states| && run in tr.states[n].rows && tr.states[n].rows[run].state.Terminal()
    ensures i < n && run in tr.states[i].rows && !tr.states[i].rows[run].state.Terminal()
    ensures run in tr.states[i + 1].rows && tr.states[i + 1].rows[run] == tr.states[n].rows[run]
    ensures var row := tr.states[n].rows[run];
            && row.endedAt == row.heartbeatAt == TimeOf(tr.states[i], tr.labels[i])
            && row.startedAt == tr.states[i].rows[run].startedAt
            && row.runtimeExecution == tr.states[i].rows[run].runtimeExecution
            && (if row.state == Succeeded then tr.labels[i].Succeed? && row.result == tr.labels[i].result
                else row.error == Reason(tr.labels[i]))
  {
    Before(tr, n, run);
    var p := n - 1;
    if tr.states[p].rows[run].state.Terminal() {
      i := EndedWhen(tr, p, run);
    } else {
      i := p;
      if tr.states[n].rows[run].state == Succeeded { var _ := SuccessComesFromLatestClaim(tr, p, run); }
    }
  }

  /** What is recorded about a runtime was recorded under the token the row still carries. */
  lemma {:induction false} RecordedBy(tr: Trace, n: nat, run: RunId) returns (i: nat)
    requires tr.Valid() && n < |tr.states| && run in tr.states[n].rows && tr.states[n].rows[run].runtimeExecution.Some?
    ensures i < n && tr.labels[i].Record? && tr.labels[i].claim.run == run
    ensures tr.states[n].rows[run].token == Some(tr.labels[i].claim.token)
    ensures tr.states[n].rows[run].runtimeExecution == Some(tr.labels[i].exec)
  {
    Before(tr, n, run);
    var p := n - 1;
    if tr.states[p].rows[run].runtimeExecution == tr.states[n].rows[run].runtimeExecution {
      i := RecordedBy(tr, p, run);
    } else {
      i := p;
    }
  }

  /** The last write to the heartbeat is the one whose time it shows. */
  lemma {:induction false} TouchedWhen(tr: Trace, n: nat, run: RunId) returns (i: nat)
    requires tr.Valid() && n < |tr.states| && run in tr.states[n].rows && tr.states[n].rows[run].heartbeatAt.Some?
    ensures i < n && tr.states[n].rows[run].heartbeatAt == TimeOf(tr.states[i], tr.labels[i])
    ensures forall j | i < j <= n :: run in tr.states[j].rows
                                     && tr.states[j].rows[run].heartbeatAt == tr.states[n].rows[run].heartbeatAt
  {
    Before(tr, n, run);
    var p := n - 1;
    if tr.states[p].rows[run].heartbeatAt == tr.states[n].rows[run].heartbeatAt {
      i := TouchedWhen(tr, p, run);
    } else {
      i := p;
    }
  }

  // ---------------------------------------------------------------- birth

  /** What an insert writes, column by column. */
  lemma BornBlank(s: State, l: Label, s': State, run: RunId)
    requires s.seen <= s.minted && BatchesSound(s) && Step(s, l, s') && run !in s.rows && run in s'.rows
    ensures s'.rows[run].runtimeExecution == None && s'.rows[run].result == None && s'.rows[run].error == None
    ensures || (&& l.Create? && l.run == run && s'.rows[run].job == l.job && s'.rows[run].parent == None
                && s'.rows[run].createdAt == l.at && s'.rows[run].token == None)
            || (&& l.RedriveInsert? && l.newRun == run && l.req in s.redriving && s'.rows[run].createdAt == l.at
                && s'.rows[run].parent == Some(s.redriving[l.req].run) && s'.rows[run].token == Some(l.token)
                && s'.rows[run].job == s.redriving[l.req].row.job)
  {
    SoundBatchesStageClaims(s);
  }

  /** What a run executes, when it was created and what it is a redrive of are for ever what its insert said. */
  lemma {:induction false} BornAs(tr: Trace, n: nat, run: RunId) returns (i: nat)
    requires tr.Valid() && n < |tr.states| && run in tr.states[n].rows
    ensures i < n && run !in tr.states[i].rows
    ensures var row, l := tr.states[n].rows[run], tr.labels[i];
            || (l.Create? && l.run == run && row.job == l.job && row.createdAt == l.at && row.parent == None)
            || (&& l.RedriveInsert? && l.newRun == run && row.createdAt == l.at && l.req in tr.states[i].redriving
                && row.parent == Some(tr.states[i].redriving[l.req].run))
  {
    var p := n - 1;
    Reachable(tr, p);
    if run in tr.states[p].rows {
      RowAt(tr, p, run);
      i := BornAs(tr, p, run);
    } else {
      BornBlank(tr.states[p], tr.labels[p], tr.states[n], run);
      i := p;
    }
  }

  // ---------------------------------------------------------------- the queue's order

  /**
    The queue is served oldest first, said of the rows: a batch's candidates were QUEUED and unlocked at its SELECT, in
    order of creation, and a QUEUED unlocked row left out means a full batch of rows created no later.
   */
  lemma ServedByAge(tr: Trace, n: nat, run: RunId)
    requires tr.Valid() && n < |tr.labels| && tr.labels[n].BatchSelect?
    ensures var rows, l := tr.states[n].rows, tr.labels[n];
            && (forall r | r in l.candidates :: r in rows && rows[r].state == Queued && !Locked(tr.states[n], r))
            && (forall a, b | 0 <= a < b < |l.candidates| ::
                  rows[l.candidates[a]].createdAt <= rows[l.candidates[b]].createdAt)
            && (run in rows && rows[run].state == Queued && !Locked(tr.states[n], run) && run !in l.candidates ==>
                  |l.candidates| == l.limit && forall r | r in l.candidates :: rows[r].createdAt <= rows[run].createdAt)
  {
    var s, l := tr.states[n], tr.labels[n];
    SelectsOldest(s, l, tr.states[n + 1]);
    CandidatesAreFree(s, l);
    AgeOrder(s, l.limit, l.candidates, run);
  }

  lemma AgeOrder(s: State, limit: nat, picked: seq<RunId>, run: RunId)
    requires Selection.Oldest(QueuedKeys(s), limit, picked)
    ensures forall r | r in picked :: r in s.rows
    ensures forall a, b | 0 <= a < b < |picked| :: s.rows[picked[a]].createdAt <= s.rows[picked[b]].createdAt
    ensures run in s.rows && s.rows[run].state == Queued && !Locked(s, run) && run !in picked ==>
              |picked| == limit && forall r | r in picked :: s.rows[r].createdAt <= s.rows[run].createdAt
  {
    var keys := QueuedKeys(s);
    forall r | r in picked ensures r in s.rows && keys[r] == s.rows[r].createdAt { assert r in keys; }
    if run in keys && run !in picked && |picked| < limit { Selection.ShortAnswerIsComplete(keys, limit, picked); }
    forall a, b | 0 <= a < b < |picked| ensures s.rows[picked[a]].createdAt <= s.rows[picked[b]].createdAt {
      assert keys[picked[a]] <= keys[picked[b]];
    }
  }
}
