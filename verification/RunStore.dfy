/**
  `RunStore` and `RunControlService` as objects. Each method is the code around one statement, from one await to the
  next; what a service does across several is split there, and the calls that loop over statements are in `RunCalls`.
  A store carries the history that led to its rows, and every method extends it by steps of the protocol, so the
  theorems about traces are theorems about these objects.
 */
module RunStore {
  import opened Options
  import opened RunTable
  import opened RunProtocol
  import opened RunInvariant
  import opened RunTheorems
  import opened RunAccounting
  import opened RunHistory

  /** HTTP status of a refused request. */
  type Status = int

  /** What the query for stale runs answers are claims under way, each remembered by the sweeper with its token. */
  lemma AnswersAreHeld(tr: Trace, l: Label)
    requires tr.Valid() && l.ListRunning? && Enabled(tr.Now(), l)
    ensures forall r | r in l.listed ::
              && r in tr.Now().rows && tr.Now().rows[r].token.Some?
              && Holds(tr, Claim(r, tr.Now().rows[r].token.value))
  {
    Reachable(tr, |tr.labels|);
    forall r | r in l.listed
      ensures r in tr.Now().rows && tr.Now().rows[r].token.Some?
      ensures Holds(tr, Claim(r, tr.Now().rows[r].token.value))
    {
      assert r in StaleKeys(tr.Now().rows, Running, l.cutoff);
      assert Shaped(tr.Now().rows[r]);
      HoldsIff(tr, Claim(r, tr.Now().rows[r].token.value));
    }
  }

  lemma AnswersAreCancelled(tr: Trace, l: Label)
    requires tr.Valid() && l.ListCancelling? && Enabled(tr.Now(), l)
    ensures forall r | r in l.listed :: CancelAccepted(tr, r)
  {
    forall r | r in l.listed ensures CancelAccepted(tr, r) {
      assert r in StaleKeys(tr.Now().rows, Cancelling, l.cutoff);
      CancelAcceptedIff(tr, r);
    }
  }

  // ---------------------------------------------------------------- the store

  class Store {
    var rows: Table
    ghost var history: Trace

    /** The rows are where the history leads. */
    ghost predicate Valid()
      reads this
    {
      history.Valid() && rows == history.Now().rows
    }

    constructor ()
      ensures Valid() && history == NOTHING
    {
      rows, history := map[], NOTHING;
    }

    /** A row is found exactly if one was ever inserted, and its columns agree with its state. */
    method GetRun(run: RunId) returns (row: Option<Row>)
      requires Valid()
      ensures row.Some? <==> Ever(history, run)
      ensures row.Some? ==> run in rows && rows[run] == row.value && Shaped(row.value)
    {
      EverIff(history, run);
      Reachable(history, |history.labels|);
      if run in rows { row := Some(rows[run]); } else { row := None; }
    }

    /** The step `l` inserts `row` under `run`: a new run or a redrive. */
    ghost predicate Inserts(l: Label, run: RunId, row: Row)
      requires Valid()
      reads this
    {
      || (l.Create? && l.run == run && row == NewRow(l.job, l.at))
      || (&& l.RedriveInsert? && l.newRun == run && l.req in history.Now().redriving
          && var source := history.Now().redriving[l.req]; row == RedriveRow(source.row, source.run, l.token, l.at))
    }

    /** `INSERT ... ON CONFLICT DO NOTHING`: created exactly if the id is new to the whole history. */
    method CreateRun(run: RunId, row: Row, ghost l: Label) returns (created: bool)
      requires Valid() && Enabled(history.Now(), l) && Inserts(l, run, row)
      modifies this
      ensures Valid() && history == old(history).Then(l)
      ensures created <==> !Ever(old(history), run)
      ensures created ==> run in rows && rows[run] == row
      ensures forall r | r in old(rows) :: r in rows && rows[r] == old(rows)[r]
    {
      EverIff(history, run);
      ThenIsValid(history, l);
      history := history.Then(l);
      created := run !in rows;
      if created { rows := rows[run := row]; }
    }

    /** The UPDATE of `claimRun`: it claims exactly if this step is a claim, under a token no earlier claim ever had. */
    method ClaimRun(run: RunId, token: Token, at: Time) returns (claimed: bool)
      requires Valid() && token !in history.Now().minted && !Locked(history.Now(), run)
      modifies this
      ensures Valid() && history == old(history).Then(ClaimOne(run, token, at))
      ensures claimed <==> ClaimedAt(history, |old(history).labels|, run, token)
      ensures claimed ==> NeverClaimedUnder(old(history), token) && Holds(history, Claim(run, token))
      ensures claimed ==>
                && run in old(rows) && old(rows)[run].state == Queued
                && rows == old(rows)[run := old(rows)[run].(state := Running, token := Some(token),
                                                            startedAt := Some(at), heartbeatAt := Some(at))]
      ensures !claimed ==> rows == old(rows)
    {
      FreshTokenIsNew(history, token);
      ThenIsValid(history, ClaimOne(run, token, at));
      history := history.Then(ClaimOne(run, token, at));
      claimed := run in rows && rows[run].state == Queued;
      if claimed { rows := rows[run := ClaimedRow(rows[run], token, at)]; }
      HoldsIff(history, Claim(run, token));
    }

    /** Its second query, after an UPDATE without effect: missing exactly if the run has not existed up to now. */
    method ClaimRefused(run: RunId) returns (missing: bool)
      requires Valid()
      ensures missing <==> !Ever(history, run)
    {
      EverIff(history, run);
      missing := run !in rows;
    }

    /** Written exactly if the claim has been RUNNING ever since it was made. */
    method RecordRuntimeExecution(claim: Claim, exec: Json, at: Time) returns (updated: bool)
      requires Valid() && Enabled(history.Now(), Record(claim, exec, at))
      modifies this
      ensures Valid() && history == old(history).Then(Record(claim, exec, at))
      ensures updated <==> Holds(old(history), claim)
      ensures updated ==> claim.run in rows && rows[claim.run].runtimeExecution == Some(exec)
      ensures !updated ==> rows == old(rows)
    {
      HoldsIff(history, claim);
      ThenIsValid(history, Record(claim, exec, at));
      history := history.Then(Record(claim, exec, at));
      var run := claim.run;
      updated := run in rows && rows[run].state == Running && rows[run].token == Some(claim.token);
      if updated { rows := rows[run := rows[run].(runtimeExecution := Some(exec), heartbeatAt := Some(at))]; }
    }

    /** The run succeeds, with this result, exactly if the claim has been RUNNING ever since it was made. */
    method MarkSucceeded(claim: Claim, result: Option<Json>, at: Time) returns (updated: bool)
      requires Valid() && Enabled(history.Now(), Succeed(claim, result, at))
      modifies this
      ensures Valid() && history == old(history).Then(Succeed(claim, result, at))
      ensures updated <==> Holds(old(history), claim)
      ensures updated <==> Crossed(history, |old(history).labels|, claim.run, Running, Succeeded)
      ensures updated ==> rows[claim.run].result == result && rows[claim.run].error == None
      ensures !updated ==> rows == old(rows)
    {
      HoldsIff(history, claim);
      ThenIsValid(history, Succeed(claim, result, at));
      history := history.Then(Succeed(claim, result, at));
      var run := claim.run;
      updated := run in rows && rows[run].state == Running && rows[run].token == Some(claim.token);
      if updated { rows := rows[run := SucceededRow(rows[run], result, at)]; }
    }

    /** The worker's failure report and the sweeper's mark alike: effective exactly if the claim ran all along. */
    method MarkFailed(claim: Claim, error: Option<Json>, at: Time, ghost l: Label) returns (updated: bool)
      requires l == Fail(claim, error, at) || l == SweepRunning(Listed(claim.run, Some(claim.token)), error, at)
      requires Valid() && Enabled(history.Now(), l)
      modifies this
      ensures Valid() && history == old(history).Then(l)
      ensures updated <==> Holds(old(history), claim)
      ensures updated <==> Crossed(history, |old(history).labels|, claim.run, Running, Failed)
      ensures updated ==> rows[claim.run].error == error
      ensures rows == RunTable.MarkFailed(old(rows), claim.run, Some(claim.token), error, at)
    {
      HoldsIff(history, claim);
      ThenIsValid(history, l);
      history := history.Then(l);
      var run := claim.run;
      updated := run in rows && rows[run].state == Running && rows[run].token == Some(claim.token);
      if updated { rows := rows[run := FailedRow(rows[run], error, at)]; }
    }

    /** Answered with the row's state exactly if the claim has been RUNNING or CANCELLING ever since it was made. */
    method TouchHeartbeat(claim: Claim, at: Time) returns (state: Option<RunState>)
      requires Valid() && Enabled(history.Now(), Heartbeat(claim, at))
      modifies this
      ensures Valid() && history == old(history).Then(Heartbeat(claim, at))
      ensures state.Some? <==> LivesOn(old(history), claim)
      ensures state.Some? ==> state.value.Live() && claim.run in rows && rows[claim.run].state == state.value
      ensures state.Some? ==> rows[claim.run].heartbeatAt == Some(at)
      ensures state.None? ==> rows == old(rows)
    {
      LivesOnIff(history, claim);
      ThenIsValid(history, Heartbeat(claim, at));
      history := history.Then(Heartbeat(claim, at));
      var run := claim.run;
      state := None;
      if run in rows && rows[run].token == Some(claim.token)
         && (rows[run].state == Running || rows[run].state == Cancelling)
      {
        state := Some(rows[run].state);
        rows := rows[run := rows[run].(heartbeatAt := Some(at))];
      }
    }

    /** The statement behind `transition` and `markCancelled`, for a step that is this guarded update. */
    method Transition(run: RunId, from: RunState, update: Row -> Row, ghost l: Label) returns (updated: bool)
      requires Valid() && Enabled(history.Now(), l)
      requires RowsAfter(history.Now(), l) ==
                 if run in rows && rows[run].state == from then rows[run := update(rows[run])] else rows
      modifies this
      ensures Valid() && history == old(history).Then(l)
      ensures updated <==> run in old(rows) && old(rows)[run].state == from
    {
      ThenIsValid(history, l);
      history := history.Then(l);
      updated := run in rows && rows[run].state == from;
      if updated { rows := rows[run := update(rows[run])]; }
    }

    /** A listed run ends up CANCELLED, on the attempt that was listed, whoever wrote it. */
    method MarkCancelled(run: RunId, error: Option<Json>, at: Time) returns (updated: bool)
      requires Valid() && Enabled(history.Now(), SweepCancelling(run, error, at))
      modifies this
      ensures Valid() && history == old(history).Then(SweepCancelling(run, error, at))
      ensures updated <==> Crossed(history, |old(history).labels|, run, Cancelling, Cancelled)
      ensures run in old(rows) && run in rows && rows[run].state == Cancelled
      ensures rows[run].attempt == old(rows)[run].attempt && rows[run].token == old(rows)[run].token
      ensures rows == RunTable.Cancel(old(rows), run, Cancelling, error, at)
    {
      Reachable(history, |history.labels|);
      updated := Transition(run, Cancelling, row => CancelledRow(row, error, at), SweepCancelling(run, error, at));
    }

    /** `listStaleRunningIds`: each item carries the token, never null, of a claim that has been RUNNING ever since. */
    method ListStaleRunning(cutoff: Time, limit: nat, answer: seq<RunId>) returns (items: seq<Listed>)
      requires Valid() && Enabled(history.Now(), ListRunning(cutoff, limit, answer))
      modifies this`history
      ensures Valid() && history == old(history).Then(ListRunning(cutoff, limit, answer)) && |items| == |answer|
      ensures forall i | 0 <= i < |items| ::
                && items[i].run == answer[i] && items[i].fence.Some?
                && Holds(old(history), Claim(answer[i], items[i].fence.value))
    {
      AnswersAreHeld(history, ListRunning(cutoff, limit, answer));
      ThenIsValid(history, ListRunning(cutoff, limit, answer));
      history := history.Then(ListRunning(cutoff, limit, answer));
      var table := rows;
      items := seq(|answer|, i requires 0 <= i < |answer| && answer[i] in table =>
                     Listed(answer[i], table[answer[i]].token));
    }

    /** `listStaleCancellingIds`: a cancel of each listed run was accepted. */
    method ListStaleCancelling(cutoff: Time, limit: nat, answer: seq<RunId>) returns (runs: seq<RunId>)
      requires Valid() && Enabled(history.Now(), ListCancelling(cutoff, limit, answer))
      modifies this`history
      ensures Valid() && history == old(history).Then(ListCancelling(cutoff, limit, answer)) && runs == answer
      ensures forall r | r in runs :: CancelAccepted(old(history), r)
    {
      AnswersAreCancelled(history, ListCancelling(cutoff, limit, answer));
      ThenIsValid(history, ListCancelling(cutoff, limit, answer));
      history := history.Then(ListCancelling(cutoff, limit, answer));
      runs := answer;
    }
  }

  // ---------------------------------------------------------------- the operator

  /** `RunControlService`: each operation is a read and, after an await, a guarded write. */
  class Control {
    const store: Store

    constructor (store: Store)
      ensures this.store == store
    {
      this.store := store;
    }

    /** The attempt a retry will write never overtakes the retries; 404 exactly if the run never existed. */
    method RetryRead(ghost req: Req, run: RunId) returns (reply: Result<RetryTicket, Status>)
      requires store.Valid() && req !in store.history.Now().requests
      modifies store
      ensures store.Valid() && store.rows == old(store.rows)
      ensures reply.Ok? ==> store.history == old(store.history).Then(Label.RetryRead(req, run))
      ensures reply.Err? ==> store.history == old(store.history)
      ensures reply == Err(404) <==> !Ever(old(store.history), run)
      ensures reply.Ok? <==> run in store.rows && store.rows[run].state == Failed
      ensures reply.Ok? ==>
                && req in store.history.Now().retrying && store.history.Now().retrying[req] == reply.value
                && 2 <= reply.value.attempt <= 2 + Retries(old(store.history), run, |old(store.history).labels|)
    {
      var row := store.GetRun(run);
      if row.None? { return Err(404); }
      if row.value.state != Failed { return Err(409); }
      AttemptBound(store.history, run, |store.history.labels|);
      ThenIsValid(store.history, Label.RetryRead(req, run));
      store.history := store.history.Then(Label.RetryRead(req, run));
      return Ok(RetryTicket(run, row.value.attempt + 1));
    }

    /**
      A retry goes through exactly if it is a retry of the history, and then its attempt is within the retries so far
      and the row is QUEUED under the fresh token, without its error. A lost race changes nothing.
     */
    method RetryWrite(ghost req: Req, ticket: RetryTicket, token: Token) returns (attempt: Option<int>)
      requires store.Valid() && Enabled(store.history.Now(), Label.RetryWrite(req, token))
      requires store.history.Now().retrying[req] == ticket
      modifies store
      ensures store.Valid() && store.history == old(store.history).Then(Label.RetryWrite(req, token))
      ensures Ever(store.history, ticket.run)
      ensures attempt.Some? <==> Crossed(store.history, |old(store.history).labels|, ticket.run, Failed, Queued)
      ensures attempt.Some? ==>
                && store.rows[ticket.run].token == Some(token) && store.rows[ticket.run].error == None
                && attempt.value == store.rows[ticket.run].attempt
                                 <= 1 + Retries(store.history, ticket.run, |store.history.labels|)
      ensures attempt.None? ==> store.rows == old(store.rows)
    {
      ghost var before := store.history;
      Reachable(before, |before.labels|);
      var updated := store.Transition(ticket.run, Failed, row => RetriedRow(row, ticket.attempt, token),
                                      Label.RetryWrite(req, token));
      EverIff(store.history, ticket.run);
      attempt := None;
      if updated {
        AttemptBound(store.history, ticket.run, |store.history.labels|);
        attempt := Some(ticket.attempt);
      }
    }

    /** The re-read after a lost race: the run cannot have gone missing, so the answer is always a conflict. */
    method RetryLost(run: RunId) returns (status: Status)
      requires store.Valid() && Ever(store.history, run)
      ensures status == 409
    {
      var current := store.GetRun(run);
      status := if current.None? then 404 else 409;
    }

    /** The idempotent answer is given exactly if a cancel of the run was accepted before; 404 if it never existed. */
    method CancelRead(ghost req: Req, run: RunId) returns (reply: Result<Option<CancelTicket>, Status>)
      requires store.Valid() && req !in store.history.Now().requests
      modifies store
      ensures store.Valid() && store.rows == old(store.rows)
      ensures reply == Err(404) <==> !Ever(old(store.history), run)
      ensures reply == Ok(None) <==> CancelAccepted(old(store.history), run)
      ensures reply.Ok? && reply.value.Some? ==>
                && store.history == old(store.history).Then(Label.CancelRead(req, run))
                && req in store.history.Now().cancelling && store.history.Now().cancelling[req] == reply.value.value
                && reply.value.value.from in {Queued, Running}
      ensures !(reply.Ok? && reply.value.Some?) ==> store.history == old(store.history)
      ensures run in store.rows && store.rows[run].state in {Queued, Running} ==>
                reply == Ok(Some(CancelTicket(run, store.rows[run].state)))
      ensures reply == Err(409) <==> run in store.rows && store.rows[run].state in {Succeeded, Failed}
    {
      CancelAcceptedIff(store.history, run);
      var row := store.GetRun(run);
      if row.None? { return Err(404); }
      var state := row.value.state;
      if state == Cancelled || state == Cancelling { return Ok(None); }
      if state == Succeeded || state == Failed { return Err(409); }
      ThenIsValid(store.history, Label.CancelRead(req, run));
      store.history := store.history.Then(Label.CancelRead(req, run));
      return Ok(Some(CancelTicket(run, state)));
    }

    /** A cancel takes effect exactly if the row is still in the state that was read, and then for good. */
    method CancelWrite(ghost req: Req, ticket: CancelTicket, error: Option<Json>, at: Time) returns (accepted: bool)
      requires store.Valid() && Enabled(store.history.Now(), Label.CancelWrite(req, error, at))
      requires store.history.Now().cancelling[req] == ticket
      modifies store
      ensures store.Valid() && store.history == old(store.history).Then(Label.CancelWrite(req, error, at))
      ensures accepted <==> ticket.run in old(store.rows) && old(store.rows)[ticket.run].state == ticket.from
      ensures accepted ==> CancelAccepted(store.history, ticket.run)
      ensures accepted && ticket.from == Running ==>
                store.rows[ticket.run].state == Cancelling && ticket.run in store.history.Now().killing
      ensures accepted && ticket.from == Queued ==>
                store.rows[ticket.run].state == Cancelled && store.rows[ticket.run].error == error
      ensures !accepted ==> store.rows == old(store.rows)
    {
      ghost var before := store.history;
      Reachable(before, |before.labels|);
      ghost var l := Label.CancelWrite(req, error, at);
      if ticket.from == Running {
        accepted := store.Transition(ticket.run, Running, (row: Row) => row.(state := Cancelling), l);
      } else {
        accepted := store.Transition(ticket.run, Queued, row => CancelledRow(row, error, at), l);
      }
      CancelAcceptedIff(store.history, ticket.run);
    }

    /** `cancelRuntimeExecution` once the kill is confirmed: the run is CANCELLED, by this write or by the sweeper. */
    method ConfirmKill(run: RunId, error: Option<Json>, at: Time)
      requires store.Valid() && Enabled(store.history.Now(), KillConfirmed(run, error, at))
      modifies store
      ensures store.Valid() && store.history == old(store.history).Then(KillConfirmed(run, error, at))
      ensures run in store.rows && store.rows[run].state == Cancelled
    {
      Reachable(store.history, |store.history.labels|);
      var _ := store.Transition(run, Cancelling, row => CancelledRow(row, error, at), KillConfirmed(run, error, at));
    }

    /** Only a run that ended can be redriven; 404 exactly if it never existed. */
    method RedriveRead(ghost req: Req, run: RunId) returns (reply: Result<RedriveTicket, Status>)
      requires store.Valid() && req !in store.history.Now().requests
      modifies store
      ensures store.Valid() && store.rows == old(store.rows)
      ensures reply.Ok? ==> store.history == old(store.history).Then(Label.RedriveRead(req, run))
      ensures reply.Err? ==> store.history == old(store.history)
      ensures reply == Err(404) <==> !Ever(old(store.history), run)
      ensures reply.Ok? ==>
                && req in store.history.Now().redriving && store.history.Now().redriving[req] == reply.value
      ensures reply.Ok? <==> run in store.rows && store.rows[run].endedAt.Some?
      ensures reply.Ok? ==> reply.value == RedriveTicket(run, store.rows[run])
      ensures reply == Err(409) <==> run in store.rows && store.rows[run].endedAt.None?
    {
      var row := store.GetRun(run);
      if row.None? { return Err(404); }
      if !row.value.state.Terminal() { return Err(409); }
      ThenIsValid(store.history, Label.RedriveRead(req, run));
      store.history := store.history.Then(Label.RedriveRead(req, run));
      return Ok(RedriveTicket(run, row.value));
    }

    /** A redrive inserts a fresh attempt 1 that executes what its source does now, and leaves every row alone. */
    method RedriveInsert(ghost req: Req, ticket: RedriveTicket, newRun: RunId, token: Token, at: Time)
      requires store.Valid() && Enabled(store.history.Now(), Label.RedriveInsert(req, newRun, token, at))
      requires store.history.Now().redriving[req] == ticket
      modifies store
      ensures store.Valid() && store.history == old(store.history).Then(Label.RedriveInsert(req, newRun, token, at))
      ensures newRun !in old(store.rows) ==>
                && newRun in store.rows && store.rows[newRun].parent == Some(ticket.run) && ticket.run in store.rows
                && store.rows[newRun].job == store.rows[ticket.run].job
                && store.rows[newRun].state == Queued && store.rows[newRun].attempt == 1
      ensures forall r | r in old(store.rows) :: r in store.rows && store.rows[r] == old(store.rows)[r]
    {
      ghost var before := store.history;
      ghost var l := Label.RedriveInsert(req, newRun, token, at);
      EverIff(before, newRun);
      var created := store.CreateRun(newRun, RedriveRow(ticket.row, ticket.run, token, at), l);
      assert store.history.labels[|before.labels|] == l && store.history.states[|before.labels|] == before.Now();
      if created { RedriveRepeatsJob(store.history, |before.labels|); }
    }
  }
}
