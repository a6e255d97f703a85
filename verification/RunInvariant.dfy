/** What every step of the run protocol keeps, and the only ways in which it can change a row. */
module RunInvariant {
  import opened Options
  import opened RunTable
  import opened RunProtocol
  import Selection

  // ---------------------------------------------------------------- one row

  /** The columns agree with the state. */
  ghost predicate Shaped(row: Row) {
    && (row.endedAt.Some? <==> row.state.Terminal())
    && (row.heartbeatAt.None? <==> row.state == Queued)
    && (row.state == Queued ==> row.startedAt.None? && row.runtimeExecution.None?)
    && (row.state.Live() ==> row.startedAt.Some? && row.token.Some?)
    && (row.result.Some? ==> row.state == Succeeded)
    && (row.error.Some? ==> row.state == Failed || row.state == Cancelled)
    && row.attempt >= 1
  }

  /** `b` carries a token that no committed row had carried when `seen` was taken. */
  ghost predicate FreshToken(b: Row, seen: set<Token>, seen': set<Token>) {
    b.token.Some? && b.token.value !in seen && b.token.value in seen'
  }

  /** The state diagram of a run. */
  ghost predicate Edge(a: RunState, b: RunState) {
    match a
    case Queued => b.Running? || b.Cancelled?
    case Running => b.Succeeded? || b.Failed? || b.Cancelling?
    case Cancelling => b.Cancelled?
    case Failed => b.Queued?
    case _ => false
  }

  /** The columns each change of state writes; all others stay. */
  ghost predicate WritesOnly(a: Row, b: Row) {
    match b.state
    case Running =>
      && b == a.(state := Running, token := b.token, startedAt := b.startedAt, heartbeatAt := b.heartbeatAt)
      && b.startedAt.Some? && b.heartbeatAt == b.startedAt
    case Cancelling => b == a.(state := Cancelling)
    case Queued =>
      b == a.(state := Queued, attempt := b.attempt, token := b.token, startedAt := None, endedAt := None,
              heartbeatAt := None, error := None, runtimeExecution := None)
    case Succeeded =>
      && b == a.(state := Succeeded, endedAt := b.endedAt, heartbeatAt := b.endedAt, result := b.result, error := None)
    case _ => b == a.(state := b.state, endedAt := b.endedAt, heartbeatAt := b.endedAt, error := b.error)
  }

  /** The moves a step can make on one row; a token is replaced only by a claim or a retry. */
  ghost predicate Moves(a: Row, b: Row, seen: set<Token>, seen': set<Token>) {
    && a.job == b.job && a.createdAt == b.createdAt && a.parent == b.parent
    && if a.state == b.state then
         a == b || (a.state.Live() && b == a.(heartbeatAt := b.heartbeatAt, runtimeExecution := b.runtimeExecution))
       else
         && Edge(a.state, b.state) && WritesOnly(a, b)
         && (if b.state.Running? || b.state.Queued? then FreshToken(b, seen, seen') else b.token == a.token)
         && (b.state != Queued ==> b.attempt == a.attempt)
  }

  // ---------------------------------------------------------------- the whole state

  /** An open claim transaction: its rows are still QUEUED, and it staged exactly what it will report. */
  ghost predicate BatchSound(s: State, b: Batch) {
    && (forall r | r in b.locked :: IsQueued(s.rows, r)) && |b.locked| <= b.limit
    && b.claimed.Keys <= b.locked
    && b.staged.Keys == b.claimed.Keys
    && (forall r | r in b.claimed :: r in s.rows && b.staged[r] == ClaimedRow(s.rows[r], b.claimed[r], b.at))
    && (forall r | r in b.claimed :: b.claimed[r] in s.minted && b.claimed[r] !in s.seen)
    && (forall r, q | r in b.claimed && q in b.claimed && b.claimed[r] == b.claimed[q] :: r == q)
  }

  /** Two open claim transactions share neither a row nor a token. */
  ghost predicate Apart(b: Batch, c: Batch) {
    b.locked !! c.locked && b.claimed.Values !! c.claimed.Values
  }

  ghost predicate TokensSound(s: State) {
    && s.seen <= s.minted
    && (forall r | r in s.rows && s.rows[r].token.Some? :: s.rows[r].token.value in s.seen)
    && (forall c | c in s.handed :: c.run in s.rows && c.token in s.seen)
  }

  ghost predicate BatchesSound(s: State) {
    && (forall tx | tx in s.batches :: BatchSound(s, s.batches[tx]))
    && (forall tx, ty | tx in s.batches && ty in s.batches && tx != ty :: Apart(s.batches[tx], s.batches[ty]))
  }

  /** What the services remember of earlier reads. */
  ghost predicate TicketsSound(s: State) {
    && (forall q | q in s.retrying :: q in s.requests && s.retrying[q].run in s.rows && s.retrying[q].attempt >= 2)
    && (forall q | q in s.cancelling ::
          q in s.requests && s.cancelling[q].run in s.rows && s.cancelling[q].from in {Queued, Running})
    && (forall q | q in s.redriving :: q in s.requests && s.redriving[q].run in s.rows)
  }

  /** What the sweeper and the kill confirmation remember: a cancelling row can only have become CANCELLED. */
  ghost predicate ListsSound(s: State) {
    && (forall x | x in s.listedRunning :: x.run in s.rows && x.fence.Some? && x.fence.value in s.seen)
    && (forall r | r in s.listedCancelling || r in s.killing ::
          r in s.rows && s.rows[r].state in {Cancelling, Cancelled})
  }

  ghost predicate Inv(s: State) {
    && (forall r | r in s.rows :: Shaped(s.rows[r]))
    && TokensSound(s)
    && BatchesSound(s)
    && TicketsSound(s)
    && ListsSound(s)
  }

  // ---------------------------------------------------------------- preservation

  /** Every committed write of an open transaction is the claim move of a QUEUED row. */
  ghost predicate StagedClaims(s: State, b: Batch) {
    && b.staged.Keys == b.claimed.Keys
    && (forall r | r in b.claimed ::
          && IsQueued(s.rows, r) && b.claimed[r] !in s.seen
          && b.staged[r] == ClaimedRow(s.rows[r], b.claimed[r], b.at))
  }

  lemma SoundBatchesStageClaims(s: State)
    requires BatchesSound(s)
    ensures forall tx | tx in s.batches :: StagedClaims(s, s.batches[tx])
  {
    forall tx | tx in s.batches ensures StagedClaims(s, s.batches[tx]) {
      assert BatchSound(s, s.batches[tx]);
    }
  }

  /** A plain step touches no existing row but its target. */
  lemma OnlyTarget(s: State, l: Label, s': State, r: RunId)
    requires Step(s, l, s') && r in s.rows && !l.BatchCommit? && Target(s, l) != Some(r)
    ensures r in s'.rows && s'.rows[r] == s.rows[r]
  {
  }

  /** `run` made a move and its columns still agree with its state. */
  ghost predicate Keeps(t: Table, t': Table, run: RunId, seen: set<Token>, seen': set<Token>) {
    run in t && run in t' && Moves(t[run], t'[run], seen, seen') && Shaped(t'[run])
  }

  lemma CompletionMoves(t: Table, run: RunId, fence: Option<Token>, value: Option<Json>, at: Time, seen: set<Token>)
    requires run in t && Shaped(t[run])
    ensures Keeps(t, MarkSucceeded(t, run, fence, value, at), run, seen, seen)
    ensures Keeps(t, MarkFailed(t, run, fence, value, at), run, seen, seen)
  {
  }

  lemma ProgressMoves(t: Table, run: RunId, token: Token, exec: Json, at: Time, seen: set<Token>)
    requires run in t && Shaped(t[run])
    ensures Keeps(t, RecordExecution(t, run, Some(token), exec, at), run, seen, seen)
    ensures Keeps(t, TouchHeartbeat(t, run, token, at), run, seen, seen)
  {
  }

  lemma CancelMoves(t: Table, run: RunId, from: RunState, error: Option<Json>, at: Time, seen: set<Token>)
    requires run in t && Shaped(t[run])
    ensures Keeps(t, RequestCancel(t, run), run, seen, seen)
    ensures from in {Queued, Cancelling} ==> Keeps(t, Cancel(t, run, from, error, at), run, seen, seen)
  {
  }

  lemma FreshMoves(t: Table, run: RunId, token: Token, attempt: int, at: Time, seen: set<Token>, seen': set<Token>)
    requires run in t && Shaped(t[run]) && token !in seen && attempt >= 1
    ensures IsQueued(t, run) && token in seen' ==> Keeps(t, ClaimRun(t, run, token, at), run, seen, seen')
    ensures token in seen' ==> Keeps(t, Retry(t, run, attempt, token), run, seen, seen')
    ensures Keeps(t, t, run, seen, seen')
  {
  }

  /** Whatever plain UPDATE a step sends, its row makes a move of the diagram. */
  lemma TargetMoves(s: State, l: Label, s': State, r: RunId)
    requires r in s.rows && Shaped(s.rows[r]) && s.seen <= s.minted && TicketsSound(s)
    requires Step(s, l, s') && Target(s, l) == Some(r)
    ensures Keeps(s.rows, s'.rows, r, s.seen, s'.seen)
  {
    match l
    case ClaimOne(_, token, at) => FreshMoves(s.rows, r, token, 1, at, s.seen, s'.seen);
    case RetryWrite(req, token) => FreshMoves(s.rows, r, token, s.retrying[req].attempt, 0, s.seen, s'.seen);
    case Succeed(claim, result, at) => CompletionMoves(s.rows, r, Some(claim.token), result, at, s.seen);
    case Fail(claim, error, at) => CompletionMoves(s.rows, r, Some(claim.token), error, at, s.seen);
    case SweepRunning(item, error, at) => CompletionMoves(s.rows, r, item.fence, error, at, s.seen);
    case Record(claim, exec, at) => ProgressMoves(s.rows, r, claim.token, exec, at, s.seen);
    case Heartbeat(claim, at) => ProgressMoves(s.rows, r, claim.token, "", at, s.seen);
    case SweepCancelling(_, error, at) => CancelMoves(s.rows, r, Cancelling, error, at, s.seen);
    case KillConfirmed(_, error, at) => CancelMoves(s.rows, r, Cancelling, error, at, s.seen);
    case CancelWrite(_, error, at) => CancelMoves(s.rows, r, Queued, error, at, s.seen);
    case _ =>
  }

  lemma CommitMoves(s: State, tx: TxId, s': State, r: RunId)
    requires r in s.rows && Shaped(s.rows[r]) && tx in s.batches && StagedClaims(s, s.batches[tx])
    requires s' == Apply(s, BatchCommit(tx))
    ensures Keeps(s.rows, s'.rows, r, s.seen, s'.seen)
  {
    var b := s.batches[tx];
    if r in b.claimed { assert b.claimed[r] in b.claimed.Values; }
  }

  /** Rows never disappear, and each changes only by a move. */
  lemma RowMoves(s: State, l: Label, s': State, r: RunId)
    requires Inv(s) && Step(s, l, s') && r in s.rows
    ensures Keeps(s.rows, s'.rows, r, s.seen, s'.seen)
  {
    assert Shaped(s.rows[r]);
    if l.BatchCommit? { SoundBatchesStageClaims(s); CommitMoves(s, l.tx, s', r); }
    else if Target(s, l) == Some(r) { TargetMoves(s, l, s', r); }
    else { OnlyTarget(s, l, s', r); }
  }

  /** A row that appears is a fresh attempt 1 in QUEUED. */
  lemma NewRows(s: State, l: Label, s': State, r: RunId)
    requires s.seen <= s.minted && BatchesSound(s) && Step(s, l, s') && r !in s.rows && r in s'.rows
    ensures s'.rows[r].state == Queued && s'.rows[r].attempt == 1 && Shaped(s'.rows[r])
    ensures l.Create? || l.RedriveInsert?
    ensures s'.rows[r].token.Some? ==> s'.rows[r].token.value in s'.seen && s'.rows[r].token.value !in s.minted
  {
    SoundBatchesStageClaims(s);
  }

  lemma DrawnIsFresh(s: State, l: Label, s': State)
    requires Step(s, l, s')
    ensures s'.minted == s.minted + Drawn(l) && Drawn(l) !! s.minted
    ensures s.seen <= s'.seen && (!l.BatchCommit? ==> s'.seen <= s.seen + Drawn(l))
  {
  }

  /** Only a commit makes tokens visible that were drawn before it. */
  lemma SeenGrows(s: State, l: Label, s': State)
    requires s.seen <= s.minted && Step(s, l, s') && !l.BatchCommit?
    ensures s.minted <= s'.minted && s'.seen <= s'.minted && s.seen <= s'.seen && s'.seen * s.minted == s.seen
  {
    DrawnIsFresh(s, l, s');
  }

  lemma HandedKept(s: State, l: Label, s': State)
    requires TokensSound(s) && BatchesSound(s) && Step(s, l, s') && s.rows.Keys <= s'.rows.Keys
    ensures s'.seen <= s'.minted && forall c | c in s'.handed :: c.run in s'.rows && c.token in s'.seen
  {
    if l.BatchCommit? {
      assert BatchSound(s, s.batches[l.tx]);
    } else {
      SeenGrows(s, l, s');
      assert forall c | c in s'.handed :: c in s.handed || l.ClaimOne?;
    }
  }

  lemma TokensKept(s: State, l: Label, s': State)
    requires Inv(s) && Step(s, l, s')
    ensures TokensSound(s')
  {
    forall r | r in s.rows ensures r in s'.rows { RowMoves(s, l, s', r); }
    HandedKept(s, l, s');
    forall r | r in s'.rows && s'.rows[r].token.Some? ensures s'.rows[r].token.value in s'.seen {
      if r in s.rows {
        RowMoves(s, l, s', r);
        if !l.BatchCommit? { SeenGrows(s, l, s'); }
      } else {
        NewRows(s, l, s', r);
      }
    }
  }

  /** A locked row stays as it is until its own transaction ends. */
  lemma LockedRowsStay(s: State, l: Label, s': State, tx: TxId, r: RunId)
    requires Inv(s) && Step(s, l, s') && tx in s.batches && r in s.batches[tx].locked
    requires l != BatchCommit(tx)
    ensures r in s.rows && r in s'.rows && s'.rows[r] == s.rows[r]
  {
    assert BatchSound(s, s.batches[tx]);
    assert Locked(s, r);
    if l.BatchCommit? {
      assert Apart(s.batches[l.tx], s.batches[tx]);
      assert BatchSound(s, s.batches[l.tx]);
    } else {
      OnlyTarget(s, l, s', r);
    }
  }

  /** Tokens drawn by an open transaction stay invisible until its own commit. */
  lemma StagedTokensStayHidden(s: State, l: Label, s': State, tx: TxId)
    requires TokensSound(s) && BatchesSound(s) && Step(s, l, s') && tx in s.batches && l != BatchCommit(tx)
    ensures forall r | r in s.batches[tx].claimed ::
              s.batches[tx].claimed[r] in s'.minted && s.batches[tx].claimed[r] !in s'.seen
  {
    assert BatchSound(s, s.batches[tx]);
    if l.BatchCommit? { assert Apart(s.batches[tx], s.batches[l.tx]); } else { SeenGrows(s, l, s'); }
  }

  lemma BatchStaysSound(s: State, l: Label, s': State, tx: TxId)
    requires Inv(s) && Step(s, l, s') && tx in s.batches && tx in s'.batches && s'.batches[tx] == s.batches[tx]
    requires l != BatchCommit(tx)
    ensures BatchSound(s', s'.batches[tx])
  {
    var b := s.batches[tx];
    assert BatchSound(s, b);
    forall r | r in b.locked ensures r in s'.rows && s'.rows[r] == s.rows[r] {
      LockedRowsStay(s, l, s', tx, r);
    }
    StagedTokensStayHidden(s, l, s', tx);
  }

  lemma UpdateStaysSound(s: State, tx: TxId, run: RunId, token: Token)
    requires tx in s.batches && BatchSound(s, s.batches[tx]) && run in s.batches[tx].locked
    requires token !in s.minted && s.seen <= s.minted
    ensures BatchSound(s.(minted := s.minted + {token}), UpdateNext(s, tx, run, token))
  {
  }

  /** The candidates of a SELECT are QUEUED rows that nobody holds. */
  lemma CandidatesAreFree(s: State, l: Label)
    requires l.BatchSelect? && Enabled(s, l)
    ensures forall r | r in l.candidates :: IsQueued(s.rows, r) && !Locked(s, r)
  {
    forall r | r in l.candidates ensures IsQueued(s.rows, r) && !Locked(s, r) { assert r in QueuedKeys(s); }
  }

  lemma SelectIsSound(s: State, l: Label, s': State)
    requires l.BatchSelect? && Step(s, l, s')
    ensures BatchSound(s', s'.batches[l.tx])
    ensures forall tx | tx in s.batches ::
              Apart(s.batches[tx], s'.batches[l.tx]) && Apart(s'.batches[l.tx], s.batches[tx])
  {
    CandidatesAreFree(s, l);
    Selection.SetNoLarger(l.candidates);
    var b := s'.batches[l.tx];
    assert b.locked == Members(l.candidates) && b.claimed == map[] && b.staged == map[];
    forall tx | tx in s.batches ensures Apart(s.batches[tx], b) && Apart(b, s.batches[tx]) {
      forall r | r in b.locked ensures r !in s.batches[tx].locked { assert !Locked(s, r); }
    }
  }

  lemma UpdateKeepsApart(s: State, tx: TxId, run: RunId, token: Token, c: Batch)
    requires tx in s.batches && token !in s.minted && BatchSound(s, c) && Apart(s.batches[tx], c)
    ensures Apart(UpdateNext(s, tx, run, token), c) && Apart(c, UpdateNext(s, tx, run, token))
  {
  }

  lemma BatchesFrom(s: State, l: Label, s': State, tx: TxId)
    requires Step(s, l, s') && tx in s'.batches && !(l.BatchSelect? && l.tx == tx)
    ensures tx in s.batches
    ensures if l.BatchUpdate? && l.tx == tx
            then l.token !in s.minted && s'.batches[tx] == UpdateNext(s, tx, l.run, l.token)
            else s'.batches[tx] == s.batches[tx]
  {
  }

  lemma BatchesApart(s: State, l: Label, s': State, tx: TxId, ty: TxId)
    requires BatchesSound(s) && Step(s, l, s') && tx in s'.batches && ty in s'.batches && tx != ty
    ensures Apart(s'.batches[tx], s'.batches[ty])
  {
    if l.BatchSelect? && (tx == l.tx || ty == l.tx) {
      SelectIsSound(s, l, s');
    } else {
      BatchesFrom(s, l, s', tx);
      BatchesFrom(s, l, s', ty);
      assert Apart(s.batches[tx], s.batches[ty]);
      if l.BatchUpdate? && tx == l.tx {
        UpdateKeepsApart(s, tx, l.run, l.token, s.batches[ty]);
      } else if l.BatchUpdate? && ty == l.tx {
        UpdateKeepsApart(s, ty, l.run, l.token, s.batches[tx]);
      }
    }
  }

  lemma UpdatedBatchIsSound(s: State, l: Label, s': State)
    requires s.seen <= s.minted && l.BatchUpdate? && Step(s, l, s') && BatchSound(s, s.batches[l.tx])
    ensures BatchSound(s', s'.batches[l.tx])
  {
    UpdateStaysSound(s, l.tx, l.run, l.token);
    assert s'.rows == s.rows && s'.seen == s.seen && s'.minted == s.minted + {l.token};
  }

  lemma BatchKept(s: State, l: Label, s': State, tx: TxId)
    requires Inv(s) && Step(s, l, s') && tx in s'.batches
    ensures BatchSound(s', s'.batches[tx])
  {
    if l.BatchSelect? && tx == l.tx {
      SelectIsSound(s, l, s');
    } else if l.BatchUpdate? && tx == l.tx {
      UpdatedBatchIsSound(s, l, s');
    } else {
      BatchesFrom(s, l, s', tx);
      BatchStaysSound(s, l, s', tx);
    }
  }

  lemma BatchesKept(s: State, l: Label, s': State)
    requires Inv(s) && Step(s, l, s')
    ensures BatchesSound(s')
  {
    forall tx | tx in s'.batches ensures BatchSound(s', s'.batches[tx]) {
      BatchKept(s, l, s', tx);
    }
    forall tx, ty | tx in s'.batches && ty in s'.batches && tx != ty ensures Apart(s'.batches[tx], s'.batches[ty]) {
      BatchesApart(s, l, s', tx, ty);
    }
  }

  /** Only a read adds a ticket, with what it found in the row. */
  ghost predicate TicketsFrom(s: State, s': State) {
    && (forall q | q in s'.retrying ::
          || (q in s.retrying && s'.retrying[q] == s.retrying[q])
          || (&& q in s'.requests && s'.retrying[q].run in s.rows
              && s'.retrying[q].attempt == s.rows[s'.retrying[q].run].attempt + 1))
    && (forall q | q in s'.cancelling ::
          || (q in s.cancelling && s'.cancelling[q] == s.cancelling[q])
          || (&& q in s'.requests && s'.cancelling[q].run in s.rows && s'.cancelling[q].from in {Queued, Running}))
    && (forall q | q in s'.redriving ::
          || (q in s.redriving && s'.redriving[q] == s.redriving[q])
          || (q in s'.requests && s'.redriving[q].run in s.rows))
    && s.requests <= s'.requests
  }

  lemma StepTickets(s: State, l: Label, s': State)
    requires Step(s, l, s')
    ensures TicketsFrom(s, s')
  {
  }

  /** Inserted rows stay, so every remembered run id stays valid. */
  lemma TicketsKept(s: State, s': State)
    requires TicketsSound(s) && TicketsFrom(s, s') && RowsMove(s, s')
    ensures TicketsSound(s')
  {
    forall r | r in s.rows ensures r in s'.rows && s.rows[r].attempt >= 1 {
      assert Shaped(s.rows[r]) && Keeps(s.rows, s'.rows, r, s.seen, s'.seen);
    }
  }

  /** Only the listings and an accepted cancel add to what is remembered, each what it found in the row. */
  ghost predicate Remembers(s: State, s': State) {
    && (forall x | x in s'.listedRunning ::
          x in s.listedRunning || (x.run in s.rows && s.rows[x.run].state == Running && s.rows[x.run].token == x.fence))
    && (forall r | r in s'.listedCancelling ::
          r in s.listedCancelling || (r in s.rows && s.rows[r].state == Cancelling))
    && (forall r | r in s'.killing ::
          || r in s.killing
          || (r in s.rows && s.rows[r].state == Running && r in s'.rows && s'.rows[r].state == Cancelling))
  }

  lemma StepRemembers(s: State, l: Label, s': State)
    requires Step(s, l, s')
    ensures Remembers(s, s')
  {
  }

  ghost predicate RowsMove(s: State, s': State) {
    && (forall r | r in s.rows :: Shaped(s.rows[r]) && Keeps(s.rows, s'.rows, r, s.seen, s'.seen))
    && s.seen <= s'.seen
  }

  lemma ListsKept(s: State, s': State)
    requires TokensSound(s) && ListsSound(s) && RowsMove(s, s') && Remembers(s, s')
    ensures ListsSound(s')
  {
    forall r | r in s'.listedCancelling || r in s'.killing
      ensures r in s'.rows && s'.rows[r].state in {Cancelling, Cancelled}
    {
      assert Keeps(s.rows, s'.rows, r, s.seen, s'.seen);
    }
    forall x | x in s'.listedRunning ensures x.run in s'.rows && x.fence.Some? && x.fence.value in s'.seen {
      assert Shaped(s.rows[x.run]) && Keeps(s.rows, s'.rows, x.run, s.seen, s'.seen);
    }
  }

  lemma StepKeepsInv(s: State, l: Label, s': State)
    requires Inv(s) && Step(s, l, s')
    ensures Inv(s')
  {
    forall r | r in s'.rows ensures Shaped(s'.rows[r]) {
      if r in s.rows { RowMoves(s, l, s', r); } else { NewRows(s, l, s', r); }
    }
    forall r | r in s.rows ensures Keeps(s.rows, s'.rows, r, s.seen, s'.seen) { RowMoves(s, l, s', r); }
    TokensKept(s, l, s');
    BatchesKept(s, l, s');
    DrawnIsFresh(s, l, s');
    StepTickets(s, l, s');
    TicketsKept(s, s');
    StepRemembers(s, l, s');
    ListsKept(s, s');
  }

  // ---------------------------------------------------------------- which steps make which moves

  /** A row that leaves RUNNING is the target of the step, never part of a commit. */
  lemma EndedByTarget(s: State, l: Label, s': State, run: RunId)
    requires Inv(s) && Step(s, l, s') && run in s.rows && s.rows[run].state == Running
    requires run in s'.rows && s'.rows[run].state != Running
    ensures Target(s, l) == Some(run) && !l.BatchCommit?
  {
    SoundBatchesStageClaims(s);
    if !l.BatchCommit? && Target(s, l) != Some(run) { OnlyTarget(s, l, s', run); }
  }

  lemma SuccessCause(s: State, l: Label, s': State, run: RunId)
    requires Target(s, l) == Some(run) && Step(s, l, s') && run in s.rows && run in s'.rows
    requires s.rows[run].state == Running && s'.rows[run].state == Succeeded
    ensures l.Succeed? && l.claim.run == run && s.rows[run].token == Some(l.claim.token)
    ensures s'.rows[run].result == l.result && s'.rows[run].error.None? && s'.rows[run].endedAt == Some(l.at)
  {
  }

  lemma FailureCause(s: State, l: Label, s': State, run: RunId)
    requires Target(s, l) == Some(run) && Step(s, l, s') && run in s.rows && run in s'.rows
    requires s.rows[run].state == Running && s'.rows[run].state == Failed
    requires l.SweepRunning? ==> l.item.fence.Some?
    ensures || (l.Fail? && s.rows[run].token == Some(l.claim.token) && l.claim.run == run)
            || (l.SweepRunning? && l.item == Listed(run, s.rows[run].token))
    ensures s'.rows[run].error == l.error && s'.rows[run].endedAt == Some(l.at)
  {
  }

  /** A claim is the work of `claimRun` or of a commit, and reports the pair it wrote. */
  lemma ClaimCause(s: State, l: Label, s': State, run: RunId)
    requires BatchesSound(s) && Step(s, l, s') && run in s.rows && run in s'.rows
    requires s.rows[run].state == Queued && s'.rows[run].state == Running
    ensures || (l.ClaimOne? && l.run == run && s'.rows[run].token == Some(l.token))
            || (l.BatchCommit? && run in s.batches[l.tx].claimed
                && s'.rows[run].token == Some(s.batches[l.tx].claimed[run]))
  {
    if l.BatchCommit? { assert BatchSound(s, s.batches[l.tx]); }
    else if Target(s, l) != Some(run) { OnlyTarget(s, l, s', run); }
  }

  /** Every reachable state satisfies the invariant. */
  lemma {:induction false} Reachable(tr: Trace, n: nat)
    requires tr.Valid() && n < |tr.states|
    ensures Inv(tr.states[n])
  {
    if n > 0 {
      Reachable(tr, n - 1);
      StepKeepsInv(tr.states[n - 1], tr.labels[n - 1], tr.states[n]);
    }
  }
}
