/**
  The `job_runs` table and the meaning of each guarded statement that `RunStore` and
  `RunControlService` send to it. A statement maps the table before to the table after.
 */
module RunTable {
  import opened Options

  type RunId = string
  type Time = int     // milliseconds
  type Json = string  // opaque text

  /** A dispatch id drawn by `randomUUID`; only its identity matters. */
  type Token = nat

  datatype RunState = Queued | Running | Cancelling | Succeeded | Failed | Cancelled {
    /** An attempt is under way. */
    predicate Live() { Running? || Cancelling? }
    predicate Terminal() { Succeeded? || Failed? || Cancelled? }
  }

  /** What a run executes, with the definition snapshot its tick stored: fixed when the row is inserted. */
  datatype Job = Job(instanceId: string, definitionId: string, version: Option<int>, params: Json,
                     executionMetadata: Option<Json>)

  datatype Row = Row(
    state: RunState,
    attempt: int,
    token: Option<Token>,
    job: Job,
    parent: Option<RunId>,
    createdAt: Time,
    startedAt: Option<Time>,
    endedAt: Option<Time>,
    heartbeatAt: Option<Time>,
    result: Option<Json>,
    error: Option<Json>,
    runtimeExecution: Option<Json>)

  type Table = map<RunId, Row>

  /** A pair reported by a claim. */
  datatype Claim = Claim(run: RunId, token: Token)

  // ---------------------------------------------------------------- rows written

  function NewRow(job: Job, at: Time): Row {
    Row(Queued, 1, None, job, None, at, None, None, None, None, None, None)
  }

  function RedriveRow(source: Row, sourceId: RunId, token: Token, at: Time): Row {
    source.(state := Queued, attempt := 1, token := Some(token), parent := Some(sourceId), createdAt := at,
            startedAt := None, endedAt := None, heartbeatAt := None,
            result := None, error := None, runtimeExecution := None)
  }

  function ClaimedRow(row: Row, token: Token, at: Time): Row {
    row.(state := Running, startedAt := Some(at), heartbeatAt := Some(at), token := Some(token))
  }

  function SucceededRow(row: Row, result: Option<Json>, at: Time): Row {
    row.(state := Succeeded, endedAt := Some(at), heartbeatAt := Some(at), result := result, error := None)
  }

  function FailedRow(row: Row, error: Option<Json>, at: Time): Row {
    row.(state := Failed, endedAt := Some(at), heartbeatAt := Some(at), error := error)
  }

  function CancelledRow(row: Row, error: Option<Json>, at: Time): Row {
    row.(state := Cancelled, endedAt := Some(at), heartbeatAt := Some(at), error := error)
  }

  function RetriedRow(row: Row, attempt: int, token: Token): Row {
    row.(state := Queued, attempt := attempt, token := Some(token),
         startedAt := None, endedAt := None, heartbeatAt := None, error := None, runtimeExecution := None)
  }

  // ---------------------------------------------------------------- guards

  /** ` AND dispatch_id = $n` is only appended when the caller passes a token. */
  predicate PassesFence(row: Row, fence: Option<Token>) {
    fence.None? || row.token == fence
  }

  predicate IsQueued(t: Table, run: RunId) { run in t && t[run].state == Queued }

  predicate IsRunningUnder(t: Table, run: RunId, fence: Option<Token>) {
    run in t && t[run].state == Running && PassesFence(t[run], fence)
  }

  /** The guard of `touchHeartbeat`. */
  predicate IsAlive(t: Table, run: RunId, token: Token) {
    run in t && t[run].state.Live() && t[run].token == Some(token)
  }

  /** `RuntimeIgaProxyService.request`: the state check followed by the dispatch check, vacuous on a null column. */
  predicate ProxyAdmits(t: Table, run: RunId, token: Option<Token>) {
    && run in t
    && t[run].state == Running
    && !(t[run].token.Some? && token != t[run].token)
  }

  predicate StaleIn(row: Row, state: RunState, cutoff: Time) {
    row.state == state && row.startedAt.Some? && row.startedAt.value < cutoff
  }

  // ---------------------------------------------------------------- statements

  /** `INSERT ... ON CONFLICT (run_id) DO NOTHING`. */
  function Insert(t: Table, run: RunId, row: Row): Table {
    if run in t then t else t[run := row]
  }

  function ClaimRun(t: Table, run: RunId, token: Token, at: Time): Table {
    if IsQueued(t, run) then t[run := ClaimedRow(t[run], token, at)] else t
  }

  function MarkSucceeded(t: Table, run: RunId, fence: Option<Token>, result: Option<Json>, at: Time): Table {
    if IsRunningUnder(t, run, fence) then t[run := SucceededRow(t[run], result, at)] else t
  }

  function MarkFailed(t: Table, run: RunId, fence: Option<Token>, error: Option<Json>, at: Time): Table {
    if IsRunningUnder(t, run, fence) then t[run := FailedRow(t[run], error, at)] else t
  }

  function RecordExecution(t: Table, run: RunId, fence: Option<Token>, exec: Json, at: Time): Table {
    if IsRunningUnder(t, run, fence)
    then t[run := t[run].(runtimeExecution := Some(exec), heartbeatAt := Some(at))]
    else t
  }

  function TouchHeartbeat(t: Table, run: RunId, token: Token, at: Time): Table {
    if IsAlive(t, run, token) then t[run := t[run].(heartbeatAt := Some(at))] else t
  }

  /** `transition` out of FAILED, as `retryRun` calls it. */
  function Retry(t: Table, run: RunId, attempt: int, token: Token): Table {
    if run in t && t[run].state == Failed then t[run := RetriedRow(t[run], attempt, token)] else t
  }

  /** `transition` out of RUNNING, as `cancelRun` calls it. */
  function RequestCancel(t: Table, run: RunId): Table {
    if run in t && t[run].state == Running then t[run := t[run].(state := Cancelling)] else t
  }

  /** The writes to CANCELLED: `cancelRun` from QUEUED, `markCancelled` and `cancelRuntimeExecution` from CANCELLING. */
  function Cancel(t: Table, run: RunId, from: RunState, error: Option<Json>, at: Time): Table {
    if run in t && t[run].state == from then t[run := CancelledRow(t[run], error, at)] else t
  }
}
