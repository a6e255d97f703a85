/**
  The run-lifecycle protocol as a labelled step system. Every `await` in the services is a
  step boundary: what a service read stays in the state until it writes, so every interleaving
  of workers, operators, sweepers, claim transactions and leftover subprocesses is a trace.
 */
module RunProtocol {
  import opened Options
  import opened RunTable
  import Selection

  type TxId = nat
  type Req = nat

  /**
    An open `claimNextQueued` transaction. `locked` are its candidates, at most the `limit` it asked for,
    `claimed` the pairs it will report, and `staged` what its UPDATEs actually wrote, invisible until
    COMMIT. The updates may come in any order.
   */
  datatype Batch = Batch(locked: set<RunId>, limit: nat, at: Time, claimed: map<RunId, Token>, staged: Table) {
    function Reported(): set<Claim> { set r | r in claimed :: Claim(r, claimed[r]) }
  }

  datatype RetryTicket = RetryTicket(run: RunId, attempt: int)
  datatype CancelTicket = CancelTicket(run: RunId, from: RunState)
  datatype RedriveTicket = RedriveTicket(run: RunId, row: Row)
  datatype Listed = Listed(run: RunId, fence: Option<Token>)

  datatype State = State(
    rows: Table,
    minted: set<Token>,                // every UUID drawn so far
    seen: set<Token>,                  // those a committed statement carried: every row's token is among them
    handed: set<Claim>,                // pairs returned to a worker
    batches: map<TxId, Batch>,
    requests: set<Req>,                // request identities already used
    retrying: map<Req, RetryTicket>,      // read done, write pending
    cancelling: map<Req, CancelTicket>,
    redriving: map<Req, RedriveTicket>,
    listedRunning: set<Listed>,        // answers of the sweeper's two queries
    listedCancelling: set<RunId>,
    killing: set<RunId>)               // accepted cancels whose subprocess kill is still unconfirmed

  datatype Label =
    | Create(run: RunId, job: Job, at: Time)
    | RedriveRead(req: Req, run: RunId)
    | RedriveInsert(req: Req, newRun: RunId, token: Token, at: Time)
    | ClaimOne(run: RunId, token: Token, at: Time)
    | BatchSelect(tx: TxId, limit: nat, candidates: seq<RunId>, at: Time)
    | BatchUpdate(tx: TxId, run: RunId, token: Token)
    | BatchCommit(tx: TxId)
    | BatchRollback(tx: TxId)
    | Succeed(claim: Claim, result: Option<Json>, at: Time)
    | Fail(claim: Claim, error: Option<Json>, at: Time)
    | Record(claim: Claim, exec: Json, at: Time)
    | Heartbeat(claim: Claim, at: Time)
    | ListRunning(cutoff: Time, limit: nat, listed: seq<RunId>)
    | SweepRunning(item: Listed, error: Option<Json>, at: Time)
    | ListCancelling(cutoff: Time, limit: nat, listed: seq<RunId>)
    | SweepCancelling(run: RunId, error: Option<Json>, at: Time)
    | RetryRead(req: Req, run: RunId)
    | RetryWrite(req: Req, token: Token)
    | CancelRead(req: Req, run: RunId)
    | CancelWrite(req: Req, error: Option<Json>, at: Time)
    | KillConfirmed(run: RunId, error: Option<Json>, at: Time)

  const INITIAL := State(map[], {}, {}, {}, map[], {}, map[], map[], map[], {}, {}, {})

  // ---------------------------------------------------------------- enabling

  ghost predicate Locked(s: State, run: RunId) {
    exists tx | tx in s.batches :: run in s.batches[tx].locked
  }

  /** The sort keys of the rows `SELECT ... WHERE state = 'QUEUED' ... SKIP LOCKED` may see. */
  ghost function QueuedKeys(s: State): map<RunId, int> {
    map r | r in s.rows && s.rows[r].state == Queued && !Locked(s, r) :: s.rows[r].createdAt
  }

  ghost function StaleKeys(t: Table, state: RunState, cutoff: Time): map<RunId, int> {
    map r | r in t && StaleIn(t[r], state, cutoff) :: t[r].startedAt.value
  }

  /** The row a plain UPDATE touches, if the step is one: it waits while the row is locked. */
  function Target(s: State, l: Label): Option<RunId> {
    match l
    case ClaimOne(run, _, _) => Some(run)
    case Succeed(claim, _, _) => Some(claim.run)
    case Fail(claim, _, _) => Some(claim.run)
    case Record(claim, _, _) => Some(claim.run)
    case Heartbeat(claim, _) => Some(claim.run)
    case SweepRunning(item, _, _) => Some(item.run)
    case SweepCancelling(run, _, _) => Some(run)
    case RetryWrite(req, _) => if req in s.retrying then Some(s.retrying[req].run) else None
    case CancelWrite(req, _, _) => if req in s.cancelling then Some(s.cancelling[req].run) else None
    case KillConfirmed(run, _, _) => Some(run)
    case _ => None
  }

  ghost predicate Enabled(s: State, l: Label) {
    && (Target(s, l).Some? ==> !Locked(s, Target(s, l).value))
    && match l
       case Create(_, _, _) => true
       case RedriveRead(req, run) => req !in s.requests && run in s.rows && s.rows[run].state.Terminal()
       case RedriveInsert(req, _, token, _) => req in s.redriving && token !in s.minted
       case ClaimOne(_, token, _) => token !in s.minted
       case BatchSelect(tx, limit, candidates, _) =>
         tx !in s.batches && Selection.Oldest(QueuedKeys(s), limit, candidates)
       case BatchUpdate(tx, run, token) =>
         tx in s.batches && run in s.batches[tx].locked && run !in s.batches[tx].claimed && token !in s.minted
       case BatchCommit(tx) => tx in s.batches && s.batches[tx].claimed.Keys == s.batches[tx].locked
       case BatchRollback(tx) => tx in s.batches
       case Succeed(claim, _, _) => claim in s.handed
       case Fail(claim, _, _) => claim in s.handed
       case Record(claim, _, _) => claim in s.handed
       case Heartbeat(claim, _) => claim in s.handed
       case ListRunning(cutoff, limit, listed) => Selection.Oldest(StaleKeys(s.rows, Running, cutoff), limit, listed)
       case SweepRunning(item, _, _) => item in s.listedRunning
       case ListCancelling(cutoff, limit, listed) =>
         Selection.Oldest(StaleKeys(s.rows, Cancelling, cutoff), limit, listed)
       case SweepCancelling(run, _, _) => run in s.listedCancelling
       case RetryRead(req, run) => req !in s.requests && run in s.rows && s.rows[run].state == Failed
       case RetryWrite(req, token) => req in s.retrying && token !in s.minted
       case CancelRead(req, run) => req !in s.requests && run in s.rows && s.rows[run].state in {Queued, Running}
       case CancelWrite(req, _, _) => req in s.cancelling
       case KillConfirmed(run, _, _) => run in s.killing
  }

  // ---------------------------------------------------------------- effect, one part of the state at a time

  function RowsAfter(s: State, l: Label): Table {
    match l
    case Create(run, job, at) => Insert(s.rows, run, NewRow(job, at))
    case RedriveInsert(req, newRun, token, at) =>
      if req in s.redriving
      then Insert(s.rows, newRun, RedriveRow(s.redriving[req].row, s.redriving[req].run, token, at)) else s.rows
    case ClaimOne(run, token, at) => ClaimRun(s.rows, run, token, at)
    case BatchCommit(tx) => if tx in s.batches then s.rows + s.batches[tx].staged else s.rows
    case Succeed(claim, result, at) => MarkSucceeded(s.rows, claim.run, Some(claim.token), result, at)
    case Fail(claim, error, at) => MarkFailed(s.rows, claim.run, Some(claim.token), error, at)
    case Record(claim, exec, at) => RecordExecution(s.rows, claim.run, Some(claim.token), exec, at)
    case Heartbeat(claim, at) => TouchHeartbeat(s.rows, claim.run, claim.token, at)
    case SweepRunning(item, error, at) => MarkFailed(s.rows, item.run, item.fence, error, at)
    case SweepCancelling(run, error, at) => Cancel(s.rows, run, Cancelling, error, at)
    case RetryWrite(req, token) =>
      if req in s.retrying then Retry(s.rows, s.retrying[req].run, s.retrying[req].attempt, token) else s.rows
    case CancelWrite(req, error, at) =>
      if req !in s.cancelling then s.rows
      else if s.cancelling[req].from == Running then RequestCancel(s.rows, s.cancelling[req].run)
      else Cancel(s.rows, s.cancelling[req].run, Queued, error, at)
    case KillConfirmed(run, error, at) => Cancel(s.rows, run, Cancelling, error, at)
    case _ => s.rows
  }

  /** The token a step draws. */
  function Drawn(l: Label): set<Token> {
    match l
    case ClaimOne(_, token, _) => {token}
    case RedriveInsert(_, _, token, _) => {token}
    case BatchUpdate(_, _, token) => {token}
    case RetryWrite(_, token) => {token}
    case _ => {}
  }

  /** A batch's tokens stay out of sight until its commit. */
  function SeenAfter(s: State, l: Label): set<Token> {
    if l.BatchCommit? && l.tx in s.batches then s.seen + s.batches[l.tx].claimed.Values
    else if l.BatchUpdate? then s.seen
    else s.seen + Drawn(l)
  }

  function HandedAfter(s: State, l: Label): set<Claim> {
    if l.ClaimOne? && IsQueued(s.rows, l.run) then s.handed + {Claim(l.run, l.token)}
    else if l.BatchCommit? && l.tx in s.batches then s.handed + s.batches[l.tx].Reported()
    else s.handed
  }

  /** One UPDATE of the open transaction: its row count is not looked at, so `claimed` grows regardless. */
  function UpdateNext(s: State, tx: TxId, run: RunId, token: Token): Batch
    requires tx in s.batches
  {
    var b := s.batches[tx];
    b.(claimed := b.claimed[run := token],
       staged := if IsQueued(s.rows, run) then b.staged[run := ClaimedRow(s.rows[run], token, b.at)] else b.staged)
  }

  function Members(runs: seq<RunId>): set<RunId> { set r | r in runs }

  function BatchesAfter(s: State, l: Label): map<TxId, Batch> {
    match l
    case BatchSelect(tx, limit, candidates, at) =>
      s.batches[tx := Batch(Members(candidates), limit, at, map[], map[])]
    case BatchUpdate(tx, run, token) =>
      if tx in s.batches then s.batches[tx := UpdateNext(s, tx, run, token)] else s.batches
    case BatchCommit(tx) => s.batches - {tx}
    case BatchRollback(tx) => s.batches - {tx}
    case _ => s.batches
  }

  function RequestsAfter(s: State, l: Label): set<Req> {
    if l.RedriveRead? || l.RetryRead? || l.CancelRead? then s.requests + {l.req} else s.requests
  }

  function RetryingAfter(s: State, l: Label): map<Req, RetryTicket> {
    if l.RetryRead? && l.run in s.rows then s.retrying[l.req := RetryTicket(l.run, s.rows[l.run].attempt + 1)]
    else if l.RetryWrite? then s.retrying - {l.req}
    else s.retrying
  }

  function CancellingAfter(s: State, l: Label): map<Req, CancelTicket> {
    if l.CancelRead? && l.run in s.rows then s.cancelling[l.req := CancelTicket(l.run, s.rows[l.run].state)]
    else if l.CancelWrite? then s.cancelling - {l.req}
    else s.cancelling
  }

  function RedrivingAfter(s: State, l: Label): map<Req, RedriveTicket> {
    if l.RedriveRead? && l.run in s.rows then s.redriving[l.req := RedriveTicket(l.run, s.rows[l.run])]
    else if l.RedriveInsert? then s.redriving - {l.req}
    else s.redriving
  }

  function ListedRunningAfter(s: State, l: Label): set<Listed> {
    if l.ListRunning? then s.listedRunning + set r | r in l.listed && r in s.rows :: Listed(r, s.rows[r].token)
    else s.listedRunning
  }

  function ListedCancellingAfter(s: State, l: Label): set<RunId> {
    if l.ListCancelling? then s.listedCancelling + Members(l.listed) else s.listedCancelling
  }

  /** Only an accepted cancel of a RUNNING row asks for its subprocess to be killed. */
  function KillingAfter(s: State, l: Label): set<RunId> {
    if l.CancelWrite? && l.req in s.cancelling && s.cancelling[l.req].from == Running
       && s.cancelling[l.req].run in s.rows && s.rows[s.cancelling[l.req].run].state == Running
    then s.killing + {s.cancelling[l.req].run}
    else s.killing
  }

  function Apply(s: State, l: Label): State {
    State(RowsAfter(s, l), s.minted + Drawn(l), SeenAfter(s, l), HandedAfter(s, l), BatchesAfter(s, l),
          RequestsAfter(s, l), RetryingAfter(s, l), CancellingAfter(s, l), RedrivingAfter(s, l),
          ListedRunningAfter(s, l), ListedCancellingAfter(s, l), KillingAfter(s, l))
  }

  ghost predicate Step(s: State, l: Label, s': State) {
    Enabled(s, l) && s' == Apply(s, l)
  }

  // ---------------------------------------------------------------- traces

  /** A finite run from the empty database: one more state than labels. */
  datatype Trace = Trace(states: seq<State>, labels: seq<Label>) {
    ghost predicate Valid() {
      && |states| == |labels| + 1
      && states[0] == INITIAL
      && forall i {:trigger labels[i]} | 0 <= i < |labels| :: Step(states[i], labels[i], states[i + 1])
    }

    ghost function Now(): State
      requires |states| == |labels| + 1
    {
      states[|labels|]
    }

    /** One more step. */
    ghost function Then(l: Label): Trace
      requires |states| == |labels| + 1
    {
      Trace(states + [Apply(Now(), l)], labels + [l])
    }
  }

  const NOTHING := Trace([INITIAL], [])

  lemma ThenIsValid(tr: Trace, l: Label)
    requires tr.Valid() && Enabled(tr.Now(), l)
    ensures tr.Then(l).Valid() && tr.Then(l).Now() == Apply(tr.Now(), l)
    ensures tr.states <= tr.Then(l).states && tr.labels <= tr.Then(l).labels
  {
  }
}
